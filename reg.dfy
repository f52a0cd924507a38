/**
 * The register name table of src/reg.rs: the ABI names of x0..x31 and the
 * two searches over it.
 */
module Reg {

  /** The table's index type: an unsigned 8-bit integer, used here only as a number. */
  newtype u8 = x: int | 0 <= x < 256

  /** REGMAP: (index, ABI name) for the 32 integer registers, in index order. */
  const REGMAP: seq<(u8, string)> := [
    (0, "zero"), (1, "ra"), (2, "sp"), (3, "gp"), (4, "tp"), (5, "t0"), (6, "t1"), (7, "t2"),
    (8, "s0"), (9, "s1"), (10, "a0"), (11, "a1"), (12, "a2"), (13, "a3"), (14, "a4"), (15, "a5"),
    (16, "a6"), (17, "a7"), (18, "s2"), (19, "s3"), (20, "s4"), (21, "s5"), (22, "s6"), (23, "s7"),
    (24, "s8"), (25, "s9"), (26, "s10"), (27, "s11"), (28, "t3"), (29, "t4"), (30, "t5"), (31, "t6")
  ]

  /** The search of `reg` through table t from entry k on. */
  function NameFrom(t: seq<(u8, string)>, r: u8, k: nat): string
    requires k <= |t|
    decreases |t| - k
  {
    if k == |t| then "U"
    else if t[k].0 == r then t[k].1
    else NameFrom(t, r, k + 1)
  }

  /** reg: the ABI name of register r, or "U" when there is none. */
  function Name(r: u8): string
  {
    NameFrom(REGMAP, r, 0)
  }

  /** The search of `treg` through table t from entry k on. */
  function IndexFrom(t: seq<(u8, string)>, s: string, k: nat): u8
    requires k <= |t|
    decreases |t| - k
  {
    if k == |t| then 255
    else if t[k].1 == s then t[k].0
    else IndexFrom(t, s, k + 1)
  }

  /** treg: the index of the register named s, or 255 when none is. */
  function Index(s: string): u8
  {
    IndexFrom(REGMAP, s, 0)
  }

  /** s is the ABI name of some register. */
  predicate IsName(s: string)
  {
    exists j :: 0 <= j < |REGMAP| && REGMAP[j].1 == s
  }

  /** Entry j of table t describes register j. */
  predicate Indexed(t: seq<(u8, string)>)
  {
    |t| <= 256 && forall j :: 0 <= j < |t| ==> t[j].0 == j as u8
  }

  /** No two entries of table t carry the same name. */
  predicate Unique(t: seq<(u8, string)>)
  {
    forall i, j :: 0 <= i < |t| && 0 <= j < |t| && i != j ==> t[i].1 != t[j].1
  }

  // REGMAP is indexed and its names are distinct, shown eight entries at a time.
  lemma Positions0() ensures forall j :: 0 <= j < 8 ==> REGMAP[j].0 == j as u8 {}
  lemma Positions1() ensures forall j :: 8 <= j < 16 ==> REGMAP[j].0 == j as u8 {}
  lemma Positions2() ensures forall j :: 16 <= j < 24 ==> REGMAP[j].0 == j as u8 {}
  lemma Positions3() ensures forall j :: 24 <= j < 32 ==> REGMAP[j].0 == j as u8 {}
  lemma Distinct0() ensures forall i, j :: 0 <= i < j < 8 ==> REGMAP[i].1 != REGMAP[j].1 {}
  lemma Distinct1() ensures forall i, j :: 0 <= i < j && 8 <= j < 16 ==> REGMAP[i].1 != REGMAP[j].1 {}
  lemma Distinct2() ensures forall i, j :: 0 <= i < j && 16 <= j < 24 ==> REGMAP[i].1 != REGMAP[j].1 {}
  lemma Distinct3() ensures forall i, j :: 0 <= i < j && 24 <= j < 32 ==> REGMAP[i].1 != REGMAP[j].1 {}

  lemma RegmapIndexed()
    ensures Indexed(REGMAP)
  {
    Positions0();
    Positions1();
    Positions2();
    Positions3();
  }

  lemma RegmapUnique()
    ensures Unique(REGMAP)
  {
    Distinct0();
    Distinct1();
    Distinct2();
    Distinct3();
  }

  lemma {:induction false} NameFromSpec(t: seq<(u8, string)>, r: u8, k: nat)
    requires k <= |t| && Indexed(t)
    ensures k <= r as int < |t| ==> NameFrom(t, r, k) == t[r].1
    ensures |t| <= r as int ==> NameFrom(t, r, k) == "U"
    decreases |t| - k
  {
    if k < |t| {
      NameFromSpec(t, r, k + 1);
    }
  }

  /** reg(r) is the name in entry r for r < 32 and "U" from 32 on. */
  lemma NameSpec(r: u8)
    ensures r < 32 ==> Name(r) == REGMAP[r].1
    ensures r >= 32 ==> Name(r) == "U"
  {
    RegmapIndexed();
    NameFromSpec(REGMAP, r, 0);
  }

  lemma {:induction false} IndexFromFound(t: seq<(u8, string)>, s: string, k: nat, j: nat)
    requires k <= j < |t| && t[j].1 == s
    requires forall m :: k <= m < j ==> t[m].1 != s
    ensures IndexFrom(t, s, k) == t[j].0
    decreases j - k
  {
    if k < j {
      IndexFromFound(t, s, k + 1, j);
    }
  }

  lemma {:induction false} IndexFromMissing(t: seq<(u8, string)>, s: string, k: nat)
    requires k <= |t|
    requires forall m :: k <= m < |t| ==> t[m].1 != s
    ensures IndexFrom(t, s, k) == 255
    decreases |t| - k
  {
    if k < |t| {
      IndexFromMissing(t, s, k + 1);
    }
  }

  /** treg of the name in entry j is j. */
  lemma IndexOfName(j: nat)
    requires j < |REGMAP|
    ensures Index(REGMAP[j].1) as int == j
  {
    RegmapIndexed();
    RegmapUnique();
    IndexFromFound(REGMAP, REGMAP[j].1, 0, j);
  }

  /** treg(s) is 255 exactly for the strings that name no register. */
  lemma IndexSpec(s: string)
    ensures !IsName(s) <==> Index(s) == 255
    ensures IsName(s) ==> Index(s) < 32 && REGMAP[Index(s)].1 == s
  {
    if IsName(s) {
      var j :| 0 <= j < |REGMAP| && REGMAP[j].1 == s;
      IndexOfName(j);
    } else {
      IndexFromMissing(REGMAP, s, 0);
    }
  }

  /** treg(reg(i)) == i for every register index. */
  lemma IndexName(r: u8)
    requires r < 32
    ensures Index(Name(r)) == r
  {
    NameSpec(r);
    IndexOfName(r as nat);
  }

  /** reg(treg(s)) == s for every ABI name, and "U" for any other string. */
  lemma NameIndex(s: string)
    ensures IsName(s) ==> Name(Index(s)) == s
    ensures !IsName(s) ==> Name(Index(s)) == "U"
  {
    IndexSpec(s);
    NameSpec(Index(s));
  }

  /** Spot values of treg. */
  lemma IndexSpots()
    ensures Index("sp") == 2
    ensures Index("a0") == 10
    ensures Index("t6") == 31
  {
    assert REGMAP[2].1 == "sp";
    IndexOfName(2);
    assert REGMAP[10].1 == "a0";
    IndexOfName(10);
    assert REGMAP[31].1 == "t6";
    IndexOfName(31);
  }
}
