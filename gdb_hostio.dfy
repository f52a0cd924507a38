/**
 * get_exec_file of src/gdb/emu_hostio.rs: the debugger reads the executable
 * image in chunks, each copied into the front of its buffer.
 */
module GdbHostIo {
  import opened Wrappers
  import GdbTarget

  /** The target errors get_exec_file reports. */
  datatype TargetError = Fatal(fault: GdbTarget.Fault)

  function Min(a: nat, b: nat): nat
  {
    if a <= b then a else b
  }

  /** The bytes get_exec_file copies: those of the file from offset on, at most
      length of them; none when the file is empty or offset lies past its end. */
  function ExecFileChunk(file: seq<bv8>, offset: nat, length: nat): (chunk: seq<bv8>)
    ensures offset <= |file| ==> chunk == file[offset..Min(offset + length, |file|)]
    ensures |chunk| <= length
    ensures forall i :: 0 <= i < |chunk| ==> offset + i < |file| && chunk[i] == file[offset + i]
  {
    if |file| == 0 || offset > |file| then [] else file[offset..Min(offset + length, |file|)]
  }

  /** The result of get_exec_file as written: Unimplemented for an empty
      file, 0 past the end, and otherwise the length of the whole file. */
  function ExecFileReply(file: seq<bv8>, offset: nat, length: nat): (r: Result<nat, TargetError>)
    ensures r.Ok? <==> |file| > 0
    ensures r.Err? ==> r.error == Fatal(GdbTarget.Unimplemented)
    ensures r.Ok? && offset > |file| ==> r.value == 0
    ensures r.Ok? && offset <= |file| ==> r.value == |file| >= |ExecFileChunk(file, offset, length)|
  {
    if |file| == 0 then Err(Fatal(GdbTarget.Unimplemented))
    else if offset > |file| then Ok(0)
    else Ok(|file|)
  }

  /** The result the reader expects: the number of bytes copied. */
  function ExecFileReplyFixed(file: seq<bv8>, offset: nat, length: nat): (r: Result<nat, TargetError>)
    ensures r.Ok? <==> |file| > 0
    ensures r.Ok? ==> r.value == |ExecFileChunk(file, offset, length)|
  {
    if |file| == 0 then Err(Fatal(GdbTarget.Unimplemented))
    else Ok(|ExecFileChunk(file, offset, length)|)
  }

  /** buf after the copy: the chunk over its front, the rest as it was. */
  function CopiedInto(chunk: seq<bv8>, buf: seq<bv8>): (r: seq<bv8>)
    requires |chunk| <= |buf|
    ensures |r| == |buf| && r[..|chunk|] == chunk && r[|chunk|..] == buf[|chunk|..]
  {
    chunk + buf[|chunk|..]
  }

  /** A continuation byte of a UTF-8 sequence. */
  predicate Cont(b: bv8)
  {
    0x80 <= b <= 0xBF
  }

  /** Well-formed UTF-8, as `String::from_utf8` accepts it: no overlong
      forms, no surrogates, nothing above U+10FFFF, and no sequence cut short. */
  predicate Utf8(s: seq<bv8>)
    decreases |s|
  {
    if |s| == 0 then true
    else
      var b := s[0];
      if b < 0x80 then Utf8(s[1..])
      else if 0xC2 <= b <= 0xDF then |s| >= 2 && Cont(s[1]) && Utf8(s[2..])
      else if b == 0xE0 then |s| >= 3 && 0xA0 <= s[1] <= 0xBF && Cont(s[2]) && Utf8(s[3..])
      else if (0xE1 <= b <= 0xEC) || b == 0xEE || b == 0xEF then
        |s| >= 3 && Cont(s[1]) && Cont(s[2]) && Utf8(s[3..])
      else if b == 0xED then |s| >= 3 && 0x80 <= s[1] <= 0x9F && Cont(s[2]) && Utf8(s[3..])
      else if b == 0xF0 then |s| >= 4 && 0x90 <= s[1] <= 0xBF && Cont(s[2]) && Cont(s[3]) && Utf8(s[4..])
      else if 0xF1 <= b <= 0xF3 then |s| >= 4 && Cont(s[1]) && Cont(s[2]) && Cont(s[3]) && Utf8(s[4..])
      else if b == 0xF4 then |s| >= 4 && 0x80 <= s[1] <= 0x8F && Cont(s[2]) && Cont(s[3]) && Utf8(s[4..])
      else false
  }

  /** Plain ASCII text is well-formed UTF-8. */
  lemma {:induction false} AsciiUtf8(s: seq<bv8>)
    requires forall i :: 0 <= i < |s| ==> s[i] < 0x80
    ensures Utf8(s)
    decreases |s|
  {
    if |s| > 0 {
      AsciiUtf8(s[1..]);
    }
  }

  /** A chunk boundary inside a character makes the chunk ill-formed: "é" is
      C3 A9, and its first byte alone is not UTF-8, nor is a lone 0x80 or the
      ELF class byte 0x02 followed by 0xFF. */
  lemma SplitCharacter()
    ensures Utf8([0xC3, 0xA9])
    ensures !Utf8([0xC3])
    ensures !Utf8([0x80])
    ensures !Utf8([0x02, 0xFF])
  {
    assert [0xC3, 0xA9][2..] == [];
    assert [0x02, 0xFF][1..] == [0xFF];
  }

  /** get_exec_file: copy the chunk into the front of buf and return the
      length of the file. The copy panics unless the chunk fits in buf, and
      the log line after it panics unless the chunk is well-formed UTF-8. */
  method GetExecFile(execFile: seq<bv8>, offset: nat, length: nat, buf: array<bv8>)
    returns (r: Result<nat, TargetError>)
    requires |ExecFileChunk(execFile, offset, length)| <= buf.Length
    requires Utf8(ExecFileChunk(execFile, offset, length))
    modifies buf
    ensures r == ExecFileReply(execFile, offset, length)
    ensures buf[..] == CopiedInto(ExecFileChunk(execFile, offset, length), old(buf[..]))
  {
    if |execFile| == 0 {
      return Err(Fatal(GdbTarget.Unimplemented));
    }
    if offset > |execFile| {
      assert old(buf[..])[0..] == old(buf[..]);
      return Ok(0);
    }
    var end := Min(offset + length, |execFile|);
    var len := end - offset;
    for i := 0 to len
      invariant forall k :: 0 <= k < i ==> buf[k] == execFile[offset + k]
      invariant forall k :: i <= k < buf.Length ==> buf[k] == old(buf[k])
    {
      buf[i] := execFile[offset + i];
    }
    assert buf[..] == CopiedInto(ExecFileChunk(execFile, offset, length), old(buf[..]));
    r := Ok(|execFile|);
  }

  /** A reader fetching the file chunk by chunk from offset, moving on by the
      count each reply returns, until a reply of 0 or an error (at most fuel
      requests); fixed picks the corrected reply. */
  function Fetch(file: seq<bv8>, offset: nat, chunk: nat, fuel: nat, fixed: bool): seq<bv8>
    decreases fuel
  {
    if fuel == 0 then []
    else
      var reply := if fixed then ExecFileReplyFixed(file, offset, chunk) else ExecFileReply(file, offset, chunk);
      if reply.Err? || reply.value == 0 then []
      else ExecFileChunk(file, offset, chunk) + Fetch(file, offset + reply.value, chunk, fuel - 1, fixed)
  }

  /** With the corrected reply, fetching in chunks of any positive size
      reassembles the file from offset on. */
  lemma {:induction false} FetchFixedReassembles(file: seq<bv8>, offset: nat, chunk: nat, fuel: nat)
    requires chunk > 0 && offset <= |file| && fuel >= |file| - offset
    ensures Fetch(file, offset, chunk, fuel, true) == file[offset..]
    decreases fuel
  {
    if |file| > 0 && offset < |file| {
      var n := Min(offset + chunk, |file|) - offset;
      var piece := ExecFileChunk(file, offset, chunk);
      assert piece == file[offset..offset + n];
      assert ExecFileReplyFixed(file, offset, chunk) == Ok(n) && n > 0;
      assert Fetch(file, offset, chunk, fuel, true) == piece + Fetch(file, offset + n, chunk, fuel - 1, true);
      FetchFixedReassembles(file, offset + n, chunk, fuel - 1);
      assert file[offset..] == file[offset..offset + n] + file[offset + n..];
    }
  }

  /** As written, the first reply returns the file's length, so the reader
      jumps to the end and gets only the first chunk of a longer file. */
  lemma FetchAsWrittenStops(file: seq<bv8>, chunk: nat, fuel: nat)
    requires 0 < chunk < |file| && fuel > 0
    ensures Fetch(file, 0, chunk, fuel, false) == file[..chunk]
    ensures Fetch(file, 0, chunk, fuel, false) != file
  {
    var n := |file|;
    assert ExecFileReply(file, 0, chunk) == Ok(n);
    if fuel > 1 {
      assert ExecFileReply(file, n, chunk) == Ok(n);
      assert ExecFileChunk(file, n, chunk) == [];
      if fuel > 2 {
        assert ExecFileReply(file, 2 * n, chunk) == Ok(0);
      }
      assert Fetch(file, n, chunk, fuel - 1, false) == [];
    }
    assert Fetch(file, 0, chunk, fuel, false) == ExecFileChunk(file, 0, chunk) + Fetch(file, n, chunk, fuel - 1, false);
  }
}
