/**
 * What the two debugger front ends of src/gdb share: the faults a hart
 * reports, the hart as the debugger sees it (a program counter and 32
 * registers, advanced by an instruction step it cannot see into), and the
 * breakpoint list, a vector of addresses.
 */
module GdbTarget {
  import opened Wrappers

  /** The faults the debugger maps to protocol errors. */
  datatype Fault =
    | MemoryFault(addr: bv64)
    | Unaligned(addr: bv64)
    | Halt
    | Unimplemented
    | InstructionDecodingError
    | IllegalOpcode(opcode: bv32)

  /** The general-purpose registers x0 to x31. */
  type Registers = r: seq<bv64> | |r| == 32 witness seq(32, _ => 0)

  /** The hart as the debugger reads and writes it. */
  datatype HartState = HartState(pc: bv64, regs: Registers)

  /** What one `tick` leaves: the hart after the step, and whether it faulted. */
  datatype TickResult = TickResult(hart: HartState, result: Result<(), Fault>)

  /** `retain(|bp| *bp != addr)`: the list without addr. */
  function Retain(bps: seq<bv64>, addr: bv64): (r: seq<bv64>)
    ensures forall x :: x in r <==> x in bps && x != addr
    ensures |r| <= |bps|
  {
    if |bps| == 0 then []
    else (if bps[0] != addr then [bps[0]] else []) + Retain(bps[1..], addr)
  }

  /** Retaining keeps the order: it distributes over concatenation. */
  lemma {:induction false} RetainConcat(a: seq<bv64>, b: seq<bv64>, addr: bv64)
    ensures Retain(a + b, addr) == Retain(a, addr) + Retain(b, addr)
    decreases |a|
  {
    if |a| == 0 {
      assert a + b == b;
    } else {
      assert (a + b)[1..] == a[1..] + b;
      RetainConcat(a[1..], b, addr);
    }
  }

  /** The number of occurrences of x. */
  function Count(bps: seq<bv64>, x: bv64): nat
  {
    if |bps| == 0 then 0 else (if bps[0] == x then 1 else 0) + Count(bps[1..], x)
  }

  /** Occurrences add up over concatenation. */
  lemma {:induction false} CountConcat(a: seq<bv64>, b: seq<bv64>, x: bv64)
    ensures Count(a + b, x) == Count(a, x) + Count(b, x)
    decreases |a|
  {
    if |a| == 0 {
      assert a + b == b;
    } else {
      assert (a + b)[1..] == a[1..] + b;
      CountConcat(a[1..], b, x);
    }
  }

  /** Every other address keeps all of its occurrences. */
  lemma {:induction false} RetainKeepsOthers(bps: seq<bv64>, addr: bv64, x: bv64)
    requires x != addr
    ensures Count(Retain(bps, addr), x) == Count(bps, x)
    decreases |bps|
  {
    if |bps| > 0 {
      RetainKeepsOthers(bps[1..], addr, x);
      var rest := Retain(bps[1..], addr);
      if bps[0] != addr {
        var r := [bps[0]] + rest;
        assert r[0] == bps[0] && r[1..] == rest;
        assert Retain(bps, addr) == r;
        assert Count(r, x) == (if bps[0] == x then 1 else 0) + Count(rest, x);
      } else {
        assert [] + rest == rest;
        assert Retain(bps, addr) == rest;
        assert Count(bps, x) == Count(bps[1..], x);
      }
    }
  }

  /** No address occurs twice. */
  predicate NoDuplicates(bps: seq<bv64>)
  {
    forall i, j :: 0 <= i < j < |bps| ==> bps[i] != bps[j]
  }

  /** Removing an address cannot create a duplicate. */
  lemma {:induction false} RetainNoDuplicates(bps: seq<bv64>, addr: bv64)
    requires NoDuplicates(bps)
    ensures NoDuplicates(Retain(bps, addr))
    decreases |bps|
  {
    if |bps| > 0 {
      var tail := bps[1..];
      assert NoDuplicates(tail) by {
        forall i, j | 0 <= i < j < |tail|
          ensures tail[i] != tail[j]
        {
          assert tail[i] == bps[i + 1] && tail[j] == bps[j + 1];
        }
      }
      RetainNoDuplicates(tail, addr);
      var rest := Retain(tail, addr);
      if bps[0] != addr {
        assert bps[0] !in tail by {
          forall k | 0 <= k < |tail|
            ensures tail[k] != bps[0]
          {
            assert tail[k] == bps[k + 1];
          }
        }
        var r := [bps[0]] + rest;
        forall i, j | 0 <= i < j < |r|
          ensures r[i] != r[j]
        {
          assert r[j] == rest[j - 1];
          if i > 0 {
            assert r[i] == rest[i - 1];
          } else {
            assert r[j] in rest;
          }
        }
      }
    }
  }
}
