/** io_bound.py: split a binary file into one chunk per worker (at most
    1 GiB each) and reduce every chunk to one byte, either its middle byte
    or its maximum. The file's bytes are given as a sequence. */
module IoBound {
  import opened Common
  import opened Chunking

  /** The chunk size cap, 1024 * 1024 * 1024 bytes. */
  const GiB: nat := 1024 * 1024 * 1024

  /** `process_binary` once the chunk has been read: "index_middle" gives
      the byte at len(data) // 2, "max" the largest byte; both fail on an
      empty read (IndexError and ValueError), and any other operation
      raises ValueError. */
  function ProcessBinary(data: seq<byte>, operation: string): (r: Result<byte>)
    ensures operation != "index_middle" && operation != "max" ==> r == Err(ValueError)
    ensures operation == "index_middle" ==>
      (r.Ok? <==> |data| > 0)
      && (r.Ok? ==> r.value == data[|data| / 2])
      && (r.Err? ==> r.error == IndexError)
    ensures operation == "max" ==>
      (r.Ok? <==> |data| > 0)
      && (r.Ok? ==> r.value in data && forall i :: 0 <= i < |data| ==> data[i] <= r.value)
      && (r.Err? ==> r.error == ValueError)
  {
    if operation == "index_middle" then
      if |data| / 2 < |data| then Ok(data[|data| / 2]) else Err(IndexError)
    else if operation == "max" then
      if |data| > 0 then Ok(SeqMax(data) as byte) else Err(ValueError)
    else Err(ValueError)
  }

  /** `num_bytes = min(math.ceil(file_size / num_workers), 1024 ** 3)`;
      no workers raises ZeroDivisionError. */
  function NumBytes(fileSize: nat, numWorkers: nat): (r: Result<nat>)
    ensures r.Err? <==> numWorkers == 0
    ensures r.Err? ==> r.error == ZeroDivisionError
    ensures r.Ok? ==> r.value <= GiB
    ensures r.Ok? ==> r.value == CeilDiv(fileSize, numWorkers) || r.value == GiB < CeilDiv(fileSize, numWorkers)
  {
    if numWorkers == 0 then Err(ZeroDivisionError) else Ok(Min(CeilDiv(fileSize, numWorkers), GiB))
  }

  /** `offsets = list(range(0, file_size, num_bytes))`. */
  function ChunkOffsets(fileSize: nat, numWorkers: nat): Result<seq<nat>>
  {
    var numBytes :- NumBytes(fileSize, numWorkers);
    Offsets(fileSize, numBytes)
  }

  /** An empty file gives num_bytes = 0 and `range` raises ValueError. */
  lemma EmptyFileOffsets(numWorkers: nat)
    requires numWorkers > 0
    ensures ChunkOffsets(0, numWorkers) == Err(ValueError)
  {
  }

  /** For a non-empty file the offsets are 0, nb, 2 nb, ... below the size,
      the chunks cover every byte exactly once, and when the cap does not
      apply there are at most num_workers of them. */
  lemma ChunkOffsetsPartition(fileSize: nat, numWorkers: nat)
    requires numWorkers > 0 && fileSize > 0
    ensures ChunkOffsets(fileSize, numWorkers).Ok?
    ensures var nb := NumBytes(fileSize, numWorkers).value;
      var offs := ChunkOffsets(fileSize, numWorkers).value;
      && nb > 0
      && (forall k :: 0 <= k < |offs| ==> offs[k] == k * nb && offs[k] < fileSize)
      && (forall x :: 0 <= x < fileSize ==> Covered(x, offs, nb))
      && (forall x, j, k :: 0 <= j < k < |offs| && InChunk(x, offs[j], nb) ==> !InChunk(x, offs[k], nb))
      && (CeilDiv(fileSize, numWorkers) <= GiB ==> |offs| <= numWorkers)
  {
    var nb := NumBytes(fileSize, numWorkers).value;
    CeilChunkCount(fileSize, numWorkers);
    OffsetsShape(fileSize, nb);
    OffsetsCover(fileSize, nb);
  }

  /** The work function `partial(process_binary, in_file, operation,
      num_bytes)`: seek to the offset, read num_bytes (short at the end of
      the file), reduce. */
  function ChunkResult(file: seq<byte>, operation: string, numBytes: nat): nat -> Result<byte>
  {
    (o: nat) => ProcessBinary(Slice(file, o, numBytes), operation)
  }

  /** `list(executor.map(process_func, offsets))`. */
  function Results(file: seq<byte>, numWorkers: nat, operation: string): Result<seq<byte>>
  {
    var numBytes :- NumBytes(|file|, numWorkers);
    var offsets :- Offsets(|file|, numBytes);
    MapResults(ChunkResult(file, operation, numBytes), offsets)
  }

  /** All chunks of the byte sequences ss are non-empty and their maxima are
      ms; then the maximum of the joined chunks is the maximum of the ms. */
  lemma {:induction false} MaxOfChunkMaxima(ss: seq<seq<byte>>, ms: seq<byte>)
    requires |ss| > 0 && |ms| == |ss|
    requires forall i :: 0 <= i < |ss| ==> |ss[i]| > 0 && ms[i] as int == SeqMax(ss[i])
    ensures |Concat(ss)| > 0
    ensures SeqMax(Concat(ss)) == SeqMax(ms)
    decreases |ss|
  {
    if |ss| == 1 {
      assert Concat(ss) == ss[0] + [];
      assert ss[0] + [] == ss[0];
    } else {
      MaxOfChunkMaxima(ss[1..], ms[1..]);
      SeqMaxAppend(ss[0], Concat(ss[1..]));
    }
  }

  /** With operation "max" the results are one per chunk, and the largest
      of them is the largest byte of the whole file. */
  lemma MaxResultsGiveFileMax(file: seq<byte>, numWorkers: nat)
    requires numWorkers > 0 && |file| > 0
    ensures Results(file, numWorkers, "max").Ok?
    ensures var rs := Results(file, numWorkers, "max").value;
      |rs| > 0 && SeqMax(rs) == SeqMax(file)
  {
    var nb := NumBytes(|file|, numWorkers).value;
    ChunkOffsetsPartition(|file|, numWorkers);
    var offs := Offsets(|file|, nb).value;
    var f := ChunkResult(file, "max", nb);
    var chunks := MapSeq(SliceAt(file, nb), offs);
    forall i | 0 <= i < |offs|
      ensures |chunks[i]| > 0 && f(offs[i]) == Ok(SeqMax(chunks[i]) as byte)
    {
      assert chunks[i] == Slice(file, offs[i], nb);
    }
    var rs := MapResults(f, offs).value;
    assert |offs| > 0 by { assert Covered(0, offs, nb); }
    MaxOfChunkMaxima(chunks, rs);
    ChunksRebuildInput(file, nb);
  }

  /** With operation "index_middle" result k is the byte in the middle of
      chunk k. */
  lemma MiddleResults(file: seq<byte>, numWorkers: nat)
    requires numWorkers > 0 && |file| > 0
    ensures Results(file, numWorkers, "index_middle").Ok?
    ensures var nb := NumBytes(|file|, numWorkers).value;
      var offs := ChunkOffsets(|file|, numWorkers).value;
      var rs := Results(file, numWorkers, "index_middle").value;
      && |rs| == |offs|
      && forall k :: 0 <= k < |rs| ==>
        var len := Min(nb, |file| - offs[k]);
        0 < len && rs[k] == file[offs[k] + len / 2]
  {
    var nb := NumBytes(|file|, numWorkers).value;
    ChunkOffsetsPartition(|file|, numWorkers);
    var offs := Offsets(|file|, nb).value;
    var f := ChunkResult(file, "index_middle", nb);
    forall i | 0 <= i < |offs|
      ensures f(offs[i]).Ok?
    {
      assert |Slice(file, offs[i], nb)| > 0;
    }
  }

  /** An operation other than the two known ones makes every chunk, and so
      the whole run, raise ValueError. */
  lemma UnknownOperationFails(file: seq<byte>, numWorkers: nat, operation: string)
    requires numWorkers > 0 && |file| > 0
    requires operation != "index_middle" && operation != "max"
    ensures Results(file, numWorkers, operation) == Err(ValueError)
  {
    var nb := NumBytes(|file|, numWorkers).value;
    ChunkOffsetsPartition(|file|, numWorkers);
    var offs := Offsets(|file|, nb).value;
    assert Covered(0, offs, nb);
    assert ChunkResult(file, operation, nb)(offs[0]) == Err(ValueError);
  }
}
