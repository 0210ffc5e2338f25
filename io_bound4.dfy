/** io_bound4.py: walk a file in strides, and copy every block read to a
    position half the file further on (wrapping around, and pulled back so
    that the block fits), overwriting the file in place. The file is an
    array of bytes; its size is the array's length. */
module IoBound4 {
  import opened Common
  import opened Chunking

  /** The loop step `max(total_bytes // 10000, block_size)`. */
  function Stride(total: nat, blockSize: nat): nat
  {
    Max(total / 10000, blockSize)
  }

  /** `dst_offset = (tell + jump_size) % total_bytes`, then pulled back by
      the amount a block written there would stick out past the end. The
      block always ends inside the file, and the position is only negative
      when the block is larger than the file. */
  function DstOffset(pos: int, jump: int, total: int, blockSize: nat): (d: int)
    requires total > 0
    ensures d + blockSize <= total
    ensures blockSize <= total ==> d >= 0
    ensures (pos + jump) % total + blockSize <= total ==> d == (pos + jump) % total
    ensures (pos + jump) % total + blockSize > total ==> d == total - blockSize
  {
    var d := (pos + jump) % total;
    if d + blockSize > total then d - ((d + blockSize) - total) else d
  }

  /** `seek(at); write(data)` on a file long enough to hold the data: the
      bytes at [at, at + |data|) become data, all others stay. */
  function Write(s: seq<byte>, at: nat, data: seq<byte>): (r: seq<byte>)
    requires at + |data| <= |s|
    ensures |r| == |s|
    ensures forall i {:trigger r[i]} :: 0 <= i < |s| ==> r[i] == if at <= i < at + |data| then data[i - at] else s[i]
  {
    s[..at] + data + s[at + |data|..]
  }

  /** One iteration of the loop at `offset`: read a block, compute where it
      goes, seek there (a negative position raises OSError) and write it.
      An empty file would divide by zero. */
  function Step(s: seq<byte>, offset: nat, blockSize: nat, jump: nat): (r: Result<seq<byte>>)
    ensures r.Ok? ==> |r.value| == |s|
  {
    if |s| == 0 then Err(ZeroDivisionError)
    else
      var data := Slice(s, offset, blockSize);
      var dst := DstOffset(offset + |data|, jump, |s|, blockSize);
      if dst < 0 then Err(OSError) else Ok(Write(s, dst, data))
  }

  /** The loop `for offset in range(start, total, stride)` with the body
      run at each offset in turn; the first error ends it. */
  function Loop(s: seq<byte>, start: nat, total: nat, stride: nat, blockSize: nat, jump: nat): (r: Result<seq<byte>>)
    requires stride > 0
    ensures r.Ok? ==> |r.value| == |s|
    decreases total - start
  {
    if start >= total then Ok(s)
    else
      var t :- Step(s, start, blockSize, jump);
      Loop(t, start + stride, total, stride, blockSize, jump)
  }

  /** The file after `process_binary`: a zero stride makes `range` raise
      ValueError; otherwise every offset of the range is processed. */
  function Relocate(s: seq<byte>, blockSize: nat): Result<seq<byte>>
  {
    var stride := Stride(|s|, blockSize);
    if stride == 0 then Err(ValueError)
    else Loop(s, 0, |s|, stride, blockSize, |s| / 2)
  }

  /** A step copies exactly the block just read (short at the end of the
      file) to its destination; every other byte is unchanged. */
  lemma StepMovesBlock(s: seq<byte>, offset: nat, blockSize: nat, jump: nat)
    requires |s| > 0 && blockSize <= |s|
    ensures Step(s, offset, blockSize, jump).Ok?
    ensures var data := Slice(s, offset, blockSize);
      var dst := DstOffset(offset + |data|, jump, |s|, blockSize);
      var r := Step(s, offset, blockSize, jump).value;
      && 0 <= dst && dst + |data| <= |s|
      && |data| == (if offset >= |s| then 0 else Min(blockSize, |s| - offset))
      && (forall k :: dst <= k < dst + |data| ==> r[k] == s[offset + (k - dst)])
      && (forall k :: 0 <= k < |s| && !(dst <= k < dst + |data|) ==> r[k] == s[k])
  {
    var data := Slice(s, offset, blockSize);
    var dst := DstOffset(offset + |data|, jump, |s|, blockSize);
    assert dst >= 0;
    var r := Write(s, dst, data);
    assert Step(s, offset, blockSize, jump) == Ok(r);
  }

  /** The step the method takes, with its read block and destination
      named. */
  lemma StepIs(before: seq<byte>, offset: nat, blockSize: nat, jump: nat, data: seq<byte>, dst: int)
    requires |before| > 0
    requires data == Slice(before, offset, blockSize)
    requires dst == DstOffset(offset + |data|, jump, |before|, blockSize)
    ensures dst < 0 ==> Step(before, offset, blockSize, jump) == Err(OSError)
    ensures dst >= 0 ==> Step(before, offset, blockSize, jump) == Ok(Write(before, dst, data))
  {
  }

  /** When the block fits in a non-empty file no step fails. */
  lemma {:induction false} LoopSucceeds(s: seq<byte>, start: nat, total: nat, stride: nat, blockSize: nat, jump: nat)
    requires stride > 0 && |s| > 0 && blockSize <= |s|
    ensures Loop(s, start, total, stride, blockSize, jump).Ok?
    decreases total - start
  {
    if start < total {
      StepMovesBlock(s, start, blockSize, jump);
      LoopSucceeds(Step(s, start, blockSize, jump).value, start + stride, total, stride, blockSize, jump);
    }
  }

  /** `process_binary` fails exactly when the stride is zero (ValueError,
      from `range`) or the block is larger than a non-empty file (OSError,
      from seeking to a negative position). */
  lemma RelocateErrors(s: seq<byte>, blockSize: nat)
    ensures Relocate(s, blockSize).Err? <==> Stride(|s|, blockSize) == 0 || 0 < |s| < blockSize
    ensures Stride(|s|, blockSize) == 0 ==> Relocate(s, blockSize) == Err(ValueError)
    ensures Stride(|s|, blockSize) > 0 && 0 < |s| < blockSize ==> Relocate(s, blockSize) == Err(OSError)
  {
    var stride := Stride(|s|, blockSize);
    if stride > 0 && |s| > 0 {
      if blockSize <= |s| {
        LoopSucceeds(s, 0, |s|, stride, blockSize, |s| / 2);
      } else {
        assert Step(s, 0, blockSize, |s| / 2) == Err(OSError);
      }
    }
  }

  /** `bin_file.seek(offset); bin_file.read(n)` on the file held in `buf`:
      short at the end of the file. */
  method ReadAt(buf: array<byte>, offset: nat, n: nat) returns (data: seq<byte>)
    ensures data == Slice(buf[..], offset, n)
  {
    if offset >= buf.Length {
      return [];
    }
    data := buf[offset..Min(offset + n, buf.Length)];
  }

  /** `bin_file.seek(at); bin_file.write(data)` on the file held in `buf`,
      byte by byte. */
  method WriteAt(buf: array<byte>, at: nat, data: seq<byte>)
    requires at + |data| <= buf.Length
    modifies buf
    ensures buf[..] == Write(old(buf[..]), at, data)
  {
    for i := 0 to |data|
      invariant forall k :: 0 <= k < buf.Length ==> buf[k] == if at <= k < at + i then data[k - at] else old(buf[k])
    {
      buf[at + i] := data[i];
    }
  }

  /** One pass of the loop body on the file held in `buf`: read the block
      at `offset`, compute its destination and, unless seeking there fails,
      write it. */
  method StepInPlace(buf: array<byte>, offset: nat, blockSize: nat, jump: nat) returns (ok: bool)
    requires buf.Length > 0
    modifies buf
    ensures ok <==> Step(old(buf[..]), offset, blockSize, jump).Ok?
    ensures ok ==> buf[..] == Step(old(buf[..]), offset, blockSize, jump).value
    ensures !ok ==> Step(old(buf[..]), offset, blockSize, jump).error == OSError && buf[..] == old(buf[..])
    ensures blockSize <= buf.Length ==> ok
  {
    ghost var before := buf[..];
    var data := ReadAt(buf, offset, blockSize);
    var pos := offset + |data|;
    var dst := DstOffset(pos, jump, buf.Length, blockSize);
    StepIs(before, offset, blockSize, jump, data, dst);
    if dst < 0 {
      return false;
    }
    WriteAt(buf, dst, data);
    return true;
  }

  /** `process_binary(block_size, filename)` on the file held in `buf`: runs
      the loop in place and returns `jump_size`, half the file size rounded
      down. On an error the file is unchanged, because both errors happen
      before the first write. */
  method ProcessBinary(buf: array<byte>, blockSize: nat) returns (r: Result<nat>)
    modifies buf
    ensures r.Ok? <==> Relocate(old(buf[..]), blockSize).Ok?
    ensures r.Ok? ==> r.value == buf.Length / 2 && buf[..] == Relocate(old(buf[..]), blockSize).value
    ensures r.Err? ==> r.error == Relocate(old(buf[..]), blockSize).error && buf[..] == old(buf[..])
  {
    var total := buf.Length;
    var jump := total / 2;
    var stride := Stride(total, blockSize);
    if stride == 0 {
      return Err(ValueError);
    }
    var offset: nat := 0;
    ghost var goal := Relocate(buf[..], blockSize);
    while offset < total
      invariant offset == 0 ==> buf[..] == old(buf[..])
      invariant offset > 0 ==> blockSize <= total
      invariant Loop(buf[..], offset, total, stride, blockSize, jump) == goal
      decreases total - offset
    {
      var ok := StepInPlace(buf, offset, blockSize, jump);
      if !ok {
        return Err(OSError);
      }
      offset := offset + stride;
    }
    return Ok(jump);
  }
}
