/** io_bound2.py: split a binary file into chunks of size // 8 bytes (at
    most 500 MiB), and for every chunk write a copy of it followed by its
    maximum byte to a file named after the offset; return the maxima. */
module IoBound2 {
  import opened Common
  import opened Chunking

  /** The fixed worker count `max_workers = 8`. */
  const MaxWorkers: nat := 8

  /** The chunk size cap, 1024 * 1024 * 500 bytes. */
  const Cap: nat := 1024 * 1024 * 500

  /** `str.replace(pat, rep)` for a non-empty pattern: every occurrence,
      scanning left to right without overlaps, is replaced. */
  function Replace(s: string, pat: string, rep: string): string
    requires |pat| > 0
    decreases |s|
  {
    if |s| < |pat| then s
    else if s[..|pat|] == pat then rep + Replace(s[|pat|..], pat, rep)
    else [s[0]] + Replace(s[1..], pat, rep)
  }

  /** With no occurrence starting before the final pattern, only the final
      pattern is replaced. */
  lemma {:induction false} ReplaceSuffix(prefix: string, pat: string, rep: string)
    requires |pat| > 0 && pat[0] !in prefix
    ensures Replace(prefix + pat, pat, rep) == prefix + rep
    decreases |prefix|
  {
    var s := prefix + pat;
    if prefix == [] {
      assert s == pat;
      assert s[|pat|..] == [];
    } else {
      assert s[..|pat|] != pat by { assert s[..|pat|][0] == prefix[0] != pat[0]; }
      assert s[0] == prefix[0];
      assert s[1..] == prefix[1..] + pat;
      assert Replace(s, pat, rep) == [prefix[0]] + Replace(prefix[1..] + pat, pat, rep);
      ReplaceSuffix(prefix[1..], pat, rep);
      assert [prefix[0]] + (prefix[1..] + rep) == prefix + rep;
    }
  }

  /** The decimal digit for 0 <= d < 10. */
  function Digit(d: nat): char
    requires d < 10
  {
    "0123456789"[d]
  }

  function DigitValue(c: char): nat
  {
    if '0' <= c <= '9' then c as int - '0' as int else 0
  }

  /** `f"{n}"` for a non-negative n: its decimal digits. */
  function Decimal(n: nat): (s: string)
    ensures |s| > 0
    ensures forall i :: 0 <= i < |s| ==> '0' <= s[i] <= '9'
  {
    if n < 10 then [Digit(n)] else Decimal(n / 10) + [Digit(n % 10)]
  }

  /** Reading a string of decimal digits back as a number. */
  function ParseDecimal(s: string): nat
  {
    if s == [] then 0 else ParseDecimal(s[..|s| - 1]) * 10 + DigitValue(s[|s| - 1])
  }

  lemma DigitRoundTrip(d: nat)
    requires d < 10
    ensures DigitValue(Digit(d)) == d
  {
    assert d in {0, 1, 2, 3, 4, 5, 6, 7, 8, 9};
  }

  /** Parsing the decimal text of n gives back n, so distinct offsets have
      distinct decimal texts. */
  lemma {:induction false} DecimalRoundTrip(n: nat)
    ensures ParseDecimal(Decimal(n)) == n
  {
    var s := Decimal(n);
    if n < 10 {
      DigitRoundTrip(n);
      assert s[..0] == [];
    } else {
      DecimalRoundTrip(n / 10);
      DigitRoundTrip(n % 10);
      assert s[..|s| - 1] == Decimal(n / 10);
    }
  }

  /** `filename.replace(".dat", f"_{offset}.dat")`. */
  function OutputName(filename: string, offset: nat): string
  {
    Replace(filename, ".dat", "_" + Decimal(offset) + ".dat")
  }

  /** A name "stem.dat" whose stem has no dot is written to
      "stem_offset.dat". */
  lemma OutputNameOfStem(stem: string, offset: nat)
    requires '.' !in stem
    ensures OutputName(stem + ".dat", offset) == stem + "_" + Decimal(offset) + ".dat"
  {
    var rep := "_" + Decimal(offset) + ".dat";
    ReplaceSuffix(stem, ".dat", rep);
    assert stem + rep == stem + "_" + Decimal(offset) + ".dat";
  }

  /** "my_data.dat" at offset o is written to "my_data_o.dat". */
  lemma OutputNameOfMyData(offset: nat)
    ensures OutputName("my_data.dat", offset) == "my_data_" + Decimal(offset) + ".dat"
  {
    assert "my_data.dat" == "my_data" + ".dat";
    assert '.' !in "my_data";
    OutputNameOfStem("my_data", offset);
  }

  /** Different offsets write different output files of "my_data.dat". */
  lemma OutputNamesDistinct(o1: nat, o2: nat)
    requires o1 != o2
    ensures OutputName("my_data.dat", o1) != OutputName("my_data.dat", o2)
  {
    OutputNameOfMyData(o1);
    OutputNameOfMyData(o2);
    var d1, d2 := Decimal(o1), Decimal(o2);
    if "my_data_" + d1 + ".dat" == "my_data_" + d2 + ".dat" {
      var n := "my_data_" + d1 + ".dat";
      assert |d1| == |d2|;
      assert d1 == n[8..8 + |d1|] == d2;
      DecimalRoundTrip(o1);
      DecimalRoundTrip(o2);
    }
  }

  /** What one chunk produces: the returned maximum, and the name and
      content of the file written for it. */
  datatype ChunkOutput = ChunkOutput(maxVal: byte, name: string, content: seq<byte>)

  /** `process_binary(filename, num_bytes, offset)` once the chunk has been
      read: `max` of the chunk (ValueError when the read is empty), written
      out as the chunk followed by one byte holding that maximum. */
  function ProcessBinary(filename: string, data: seq<byte>, offset: nat): (r: Result<ChunkOutput>)
    ensures r.Err? <==> |data| == 0
    ensures r.Err? ==> r.error == ValueError
    ensures r.Ok? ==>
      && r.value.maxVal in data
      && (forall i :: 0 <= i < |data| ==> data[i] <= r.value.maxVal)
      && |r.value.content| == |data| + 1
      && r.value.content[..|data|] == data
      && r.value.content[|data|] == r.value.maxVal
      && r.value.name == OutputName(filename, offset)
  {
    if |data| == 0 then Err(ValueError)
    else
      var maxVal := SeqMax(data) as byte;
      var content := data + [maxVal];
      assert content[..|data|] == data;
      Ok(ChunkOutput(maxVal, OutputName(filename, offset), content))
  }

  /** `num_bytes = min(file_size // max_workers, 1024 * 1024 * 500)`. */
  function NumBytes(fileSize: nat): (r: nat)
    ensures r <= Cap
    ensures r <= fileSize / MaxWorkers
    ensures r == fileSize / MaxWorkers || r == Cap
  {
    Min(fileSize / MaxWorkers, Cap)
  }

  /** `offsets = list(range(0, file_size, num_bytes))`. */
  function ChunkOffsets(fileSize: nat): Result<seq<nat>>
  {
    Offsets(fileSize, NumBytes(fileSize))
  }

  /** Files shorter than 8 bytes give num_bytes = 0 and `range` raises
      ValueError; from 8 bytes on the offsets exist. */
  lemma ShortFileFails(fileSize: nat)
    ensures ChunkOffsets(fileSize).Err? <==> fileSize < 8
    ensures ChunkOffsets(fileSize).Err? ==> ChunkOffsets(fileSize).error == ValueError
  {
  }

  /** The offsets step by num_bytes from 0 and stay below the size, their
      chunks cover the file exactly once, and there are
      ceil(size / num_bytes) of them: exactly 8 when the cap does not apply
      and 8 divides the size, more than 8 otherwise. */
  lemma ChunkOffsetsPartition(fileSize: nat)
    requires fileSize >= 8
    ensures ChunkOffsets(fileSize).Ok?
    ensures var nb := NumBytes(fileSize);
      var offs := ChunkOffsets(fileSize).value;
      && nb > 0
      && |offs| == CeilDiv(fileSize, nb)
      && (forall k :: 0 <= k < |offs| ==> offs[k] == k * nb && offs[k] < fileSize)
      && (forall x :: 0 <= x < fileSize ==> Covered(x, offs, nb))
      && (forall x, j, k :: 0 <= j < k < |offs| && InChunk(x, offs[j], nb) ==> !InChunk(x, offs[k], nb))
      && |offs| >= 8
      && (fileSize / 8 <= Cap ==> (|offs| == 8 <==> fileSize % 8 == 0))
  {
    var nb := NumBytes(fileSize);
    OffsetsShape(fileSize, nb);
    OffsetsCover(fileSize, nb);
    var c := CeilDiv(fileSize, nb);
    assert fileSize >= 8 * nb;
    if c < 8 {
      MulMono(c, 7, nb);
    }
    if fileSize / 8 <= Cap {
      assert fileSize == 8 * nb + fileSize % 8;
      if fileSize % 8 == 0 {
        if c > 8 {
          MulMono(8, c - 1, nb);
        }
      } else {
        assert c != 8;
      }
    }
  }

  /** The work function `partial(process_binary, in_file, num_bytes)`. */
  function ChunkWork(filename: string, file: seq<byte>, numBytes: nat): nat -> Result<ChunkOutput>
  {
    (o: nat) => ProcessBinary(filename, Slice(file, o, numBytes), o)
  }

  /** The `__main__` block on the file's bytes: one output per offset, in
      offset order. */
  function Outputs(filename: string, file: seq<byte>): Result<seq<ChunkOutput>>
  {
    var numBytes := NumBytes(|file|);
    var offsets :- Offsets(|file|, numBytes);
    MapResults(ChunkWork(filename, file, numBytes), offsets)
  }

  /** The content of an output file without its trailing maximum byte. */
  function ChunkData(o: ChunkOutput): seq<byte>
  {
    if o.content == [] then [] else o.content[..|o.content| - 1]
  }

  /** For a file of at least 8 bytes every chunk read is non-empty, so
      every chunk succeeds and output k belongs to offset k. */
  lemma OutputsOk(filename: string, file: seq<byte>)
    requires |file| >= 8
    ensures Outputs(filename, file).Ok?
    ensures var nb := NumBytes(|file|);
      var offs := ChunkOffsets(|file|).value;
      var outs := Outputs(filename, file).value;
      && |outs| == |offs|
      && forall k :: 0 <= k < |outs| ==>
        outs[k] == ProcessBinary(filename, Slice(file, offs[k], nb), offs[k]).value
  {
    var nb := NumBytes(|file|);
    ChunkOffsetsPartition(|file|);
    var offs := Offsets(|file|, nb).value;
    var f := ChunkWork(filename, file, nb);
    forall i | 0 <= i < |offs|
      ensures f(offs[i]).Ok?
    {
      assert |Slice(file, offs[i], nb)| > 0;
    }
  }

  /** The output files, each without its last byte and taken in order,
      rebuild the input file, and that last byte is the chunk's maximum. */
  lemma OutputsRebuildFile(filename: string, file: seq<byte>)
    requires |file| >= 8
    ensures Outputs(filename, file).Ok?
    ensures var outs := Outputs(filename, file).value;
      && Concat(MapSeq(ChunkData, outs)) == file
      && forall k :: 0 <= k < |outs| ==>
        |outs[k].content| > 0 && outs[k].content[|outs[k].content| - 1] == outs[k].maxVal
  {
    var nb := NumBytes(|file|);
    OutputsOk(filename, file);
    var offs := ChunkOffsets(|file|).value;
    var outs := Outputs(filename, file).value;
    var chunks := MapSeq(SliceAt(file, nb), offs);
    assert MapSeq(ChunkData, outs) == chunks by {
      forall i | 0 <= i < |offs|
        ensures ChunkData(outs[i]) == chunks[i]
      {
        assert chunks[i] == Slice(file, offs[i], nb);
      }
    }
    assert nb > 0;
    ChunksRebuildInput(file, nb);
  }

  /** The outputs of "my_data.dat" go to pairwise distinct files, so no
      chunk's output overwrites another's. */
  lemma OutputFilesDistinct(file: seq<byte>)
    requires |file| >= 8
    ensures Outputs("my_data.dat", file).Ok?
    ensures var outs := Outputs("my_data.dat", file).value;
      forall j, k :: 0 <= j < k < |outs| ==> outs[j].name != outs[k].name
  {
    var nb := NumBytes(|file|);
    OutputsOk("my_data.dat", file);
    var offs := ChunkOffsets(|file|).value;
    OffsetsShape(|file|, nb);
    var outs := Outputs("my_data.dat", file).value;
    forall j, k | 0 <= j < k < |outs|
      ensures outs[j].name != outs[k].name
    {
      assert offs[j] < offs[k] by {
        assert offs[j] == j * nb && offs[k] == k * nb;
        MulMono(j + 1, k, nb);
        MulSucc(j, nb);
      }
      OutputNamesDistinct(offs[j], offs[k]);
    }
  }
}
