/** cpu_bound2.py: find the dictionary words that can be spelled from a set
    of letters. The dictionary text is cut into chunks of num_bytes
    characters; every chunk is read with a 15-character overlap, split into
    lines, the partial lines at both ends are fixed up, and the lines are
    filtered. */
module CpuBound2 {
  import opened Common
  import opened Chunking

  /** The characters at which Python's `str.splitlines` ends a line. */
  predicate IsBreak(c: char)
  {
    c == '\n' || c == '\r' || c == '\U{B}' || c == '\U{C}' || c == '\U{1C}' || c == '\U{1D}'
    || c == '\U{1E}' || c == '\U{85}' || c == '\U{2028}' || c == '\U{2029}'
  }

  predicate NoBreak(w: string)
  {
    forall k :: 0 <= k < |w| ==> !IsBreak(w[k])
  }

  /** Index of the first line break of s, or |s| when there is none. */
  function LineEnd(s: string): (i: nat)
    ensures i <= |s|
    ensures NoBreak(s[..i])
    ensures i < |s| ==> IsBreak(s[i])
  {
    if s == [] then 0
    else if IsBreak(s[0]) then 0
    else
      var j := LineEnd(s[1..]);
      assert s[..1 + j] == [s[0]] + s[1..][..j];
      1 + j
  }

  /** A line break at i is one character wide, except "\r\n", which counts
      as one break of two characters. */
  function BreakWidth(s: string, i: nat): (w: nat)
    requires i < |s|
    ensures 1 <= w <= 2 && i + w <= |s|
    ensures w == 2 <==> i + 1 < |s| && s[i..i + 2] == "\r\n"
  {
    if s[i] == '\r' && i + 1 < |s| && s[i + 1] == '\n' then 2 else 1
  }

  /** `s.splitlines()`: the lines of s without their line breaks; a final
      line break does not start an empty last line. */
  function SplitLines(s: string): (r: seq<string>)
    ensures r == [] <==> s == []
    ensures forall j :: 0 <= j < |r| ==> NoBreak(r[j])
    ensures s != [] ==> r[0] == s[..LineEnd(s)]
    decreases |s|
  {
    if s == [] then []
    else
      var i := LineEnd(s);
      if i == |s| then [s]
      else [s[..i]] + SplitLines(s[i + BreakWidth(s, i)..])
  }

  /** The text of a list of lines, each ended by "\n". */
  function Join(ls: seq<string>): string
  {
    if ls == [] then [] else ls[0] + "\n" + Join(ls[1..])
  }

  lemma LineEndAt(l: string, t: string)
    requires NoBreak(l)
    ensures LineEnd(l + "\n" + t) == |l|
    decreases |l|
  {
    if l != [] {
      assert (l + "\n" + t)[1..] == l[1..] + "\n" + t;
      LineEndAt(l[1..], t);
    }
  }

  /** Splitting the joined text gives back the lines, as long as no line
      holds a line break of its own. */
  lemma {:induction false} SplitJoin(ls: seq<string>)
    requires forall j :: 0 <= j < |ls| ==> NoBreak(ls[j])
    ensures SplitLines(Join(ls)) == ls
  {
    if ls != [] {
      var s := Join(ls);
      var l := ls[0];
      LineEndAt(l, Join(ls[1..]));
      assert s[..|l|] == l;
      assert s[|l|] == '\n';
      assert s[|l| + 1..] == Join(ls[1..]);
      SplitJoin(ls[1..]);
    }
  }

  /** The four tests of `_filter_words_list`: at least 4 characters, at most
      7 distinct characters, only characters from `letters`, and the primary
      letter `letters[0]` among them. `letters[0]` is only reached once a
      word of length >= 4 has passed the third test, so `letters` is not
      empty there. */
  predicate Accepted(word: string, letters: string)
  {
    && |word| >= 4
    && |Chars(word)| <= 7
    && (forall c :: c in word ==> c in letters)
    && (assert word[0] in word; letters[0] in word)
  }

  /** `list(_filter_words_list(words, letters))`: the words passing all four
      tests, in their input order. */
  function FilterWords(words: seq<string>, letters: string): (r: seq<string>)
    ensures |r| <= |words|
    ensures forall w :: w in r <==> w in words && Accepted(w, letters)
    ensures forall i :: 0 <= i < |r| ==>
      && |r[i]| >= 4
      && |Chars(r[i])| <= 7
      && (forall c :: c in r[i] ==> c in letters)
      && |letters| > 0 && letters[0] in r[i]
  {
    if words == [] then []
    else
      var rest := FilterWords(words[1..], letters);
      assert forall w :: w in words <==> w == words[0] || w in words[1..];
      if Accepted(words[0], letters) then [words[0]] + rest else rest
  }

  /** a occurs in b in order, possibly with gaps. */
  predicate IsSubseq<T(==)>(a: seq<T>, b: seq<T>)
    decreases |b|
  {
    if a == [] then true
    else if b == [] then false
    else if a[0] == b[0] then IsSubseq(a[1..], b[1..])
    else IsSubseq(a, b[1..])
  }

  lemma {:induction false} FilterIsSubseq(words: seq<string>, letters: string)
    ensures IsSubseq(FilterWords(words, letters), words)
    decreases |words|
  {
    if words != [] {
      FilterIsSubseq(words[1..], letters);
      var rest := FilterWords(words[1..], letters);
      if Accepted(words[0], letters) {
        assert ([words[0]] + rest)[1..] == rest;
      } else {
        SubseqDrop(rest, words);
      }
    }
  }

  lemma {:induction false} SubseqDrop<T>(a: seq<T>, b: seq<T>)
    requires b != [] && IsSubseq(a, b[1..])
    ensures IsSubseq(a, b)
    decreases |b|, 0
  {
    if a != [] && a[0] == b[0] {
      SubseqTail(a, b[1..]);
    }
  }

  lemma {:induction false} SubseqTail<T>(a: seq<T>, b: seq<T>)
    requires a != [] && IsSubseq(a, b)
    ensures IsSubseq(a[1..], b)
    decreases |b|, 1
  {
    if a[1..] != [] {
      if a[0] == b[0] {
        SubseqDrop(a[1..], b);
      } else {
        SubseqTail(a, b[1..]);
        SubseqDrop(a[1..], b);
      }
    }
  }

  /** Filtering distributes over concatenation of word lists. */
  lemma {:induction false} FilterAppend(a: seq<string>, b: seq<string>, letters: string)
    ensures FilterWords(a + b, letters) == FilterWords(a, letters) + FilterWords(b, letters)
    decreases |a|
  {
    if a == [] {
      assert a + b == b;
    } else {
      assert (a + b)[1..] == a[1..] + b;
      FilterAppend(a[1..], b, letters);
    }
  }

  /** Filtering the output again returns it unchanged. */
  lemma {:induction false} FilterIdempotent(words: seq<string>, letters: string)
    ensures FilterWords(FilterWords(words, letters), letters) == FilterWords(words, letters)
    decreases |words|
  {
    if words != [] {
      var rest := FilterWords(words[1..], letters);
      FilterIdempotent(words[1..], letters);
      if Accepted(words[0], letters) {
        assert ([words[0]] + rest)[1..] == rest;
      }
    }
  }

  /** The overlap read past the end of every chunk. */
  const Overlap: nat := 15

  /** The two-character string `r"\n"` (a backslash and an n) that the
      script compares single characters with. */
  const RawNewline: string := "\\n"

  /** `words_str[:-15]`: everything but the overlap. */
  function Head(s: string): string
  {
    if |s| >= Overlap then s[..|s| - Overlap] else []
  }

  /** The lines of a chunk that `process_words` filters: the lines of the
      head without the first one, the last of them completed by the first
      line of the overlap. */
  function StitchedLines(s: string): (r: seq<string>)
    requires |s| >= Overlap && |SplitLines(Head(s))| >= 2
    ensures |r| == |SplitLines(Head(s))| - 1
    ensures var lines := SplitLines(Head(s)); var t := s[|s| - Overlap..];
      && r[..|r| - 1] == lines[1..|lines| - 1]
      && r[|r| - 1] == lines[|lines| - 1] + t[..LineEnd(t)]
  {
    var lines := SplitLines(Head(s));
    var tail := SplitLines(s[|s| - Overlap..]);
    lines[1..|lines| - 1] + [lines[|lines| - 1] + tail[0]]
  }

  /** What `process_words` returns for the chunk read at `offset`: an
      IndexError when the read is shorter than the overlap or its head has
      fewer than two lines, else the filtered stitched lines. */
  function ChunkWords(text: string, numBytes: nat, letters: string, offset: nat): (r: Result<seq<string>>)
    ensures var s := Slice(text, offset, numBytes + Overlap);
      r.Err? <==> |s| < Overlap || |SplitLines(Head(s))| < 2
    ensures r.Err? ==> r.error == IndexError
    ensures r.Ok? ==> r.value == FilterWords(StitchedLines(Slice(text, offset, numBytes + Overlap)), letters)
  {
    var s := Slice(text, offset, numBytes + Overlap);
    if |s| < Overlap || |SplitLines(Head(s))| < 2 then Err(IndexError)
    else Ok(FilterWords(StitchedLines(s), letters))
  }

  /** `process_words` on the decoded text of the dictionary file, step by
      step: the read, the split, the two guarded fix-ups and the filter.
      Both guards compare one character with the two-character `r"\n"`
      and are therefore always true. */
  method ProcessWords(text: string, numBytes: nat, letters: string, offset: nat) returns (r: Result<seq<string>>)
    ensures r == ChunkWords(text, numBytes, letters, offset)
  {
    var wordsStr := Slice(text, offset, numBytes + Overlap);
    var wordsList := SplitLines(Head(wordsStr));
    if offset == 0 && wordsStr == [] {
      return Err(IndexError);
    }
    if offset != 0 || [wordsStr[0]] != RawNewline {
      wordsList := if wordsList == [] then [] else wordsList[1..];
    }
    if |wordsStr| < Overlap {
      return Err(IndexError);
    }
    if [wordsStr[|wordsStr| - Overlap]] != RawNewline {
      if wordsList == [] {
        return Err(IndexError);
      }
      var tailLines := SplitLines(wordsStr[|wordsStr| - Overlap..]);
      wordsList := wordsList[|wordsList| - 1 := wordsList[|wordsList| - 1] + tailLines[0]];
      assert wordsList == StitchedLines(wordsStr);
    }
    r := Ok(FilterWords(wordsList, letters));
  }

  /** `num_bytes = math.ceil(dict_size / num_workers)`; dividing by a zero
      worker count raises ZeroDivisionError. */
  function NumBytes(dictSize: nat, numWorkers: nat): (r: Result<nat>)
    ensures r.Err? <==> numWorkers == 0
    ensures r.Err? ==> r.error == ZeroDivisionError
    ensures r.Ok? ==> r.value == CeilDiv(dictSize, numWorkers)
  {
    if numWorkers == 0 then Err(ZeroDivisionError) else Ok(CeilDiv(dictSize, numWorkers))
  }

  /** `offsets = list(range(0, dict_size, num_bytes))`. */
  function WordOffsets(dictSize: nat, numWorkers: nat): Result<seq<nat>>
  {
    var numBytes :- NumBytes(dictSize, numWorkers);
    Offsets(dictSize, numBytes)
  }

  /** An empty dictionary gives a zero chunk size and `range` raises
      ValueError. */
  lemma EmptyDictionaryOffsets(numWorkers: nat)
    requires numWorkers > 0
    ensures WordOffsets(0, numWorkers) == Err(ValueError)
  {
  }

  /** For a non-empty dictionary the offsets start at 0, step by num_bytes,
      stay below the size, there are at most num_workers of them, and their
      chunks cover every position exactly once. */
  lemma WordOffsetsPartition(dictSize: nat, numWorkers: nat)
    requires numWorkers > 0 && dictSize > 0
    ensures WordOffsets(dictSize, numWorkers).Ok?
    ensures var nb := CeilDiv(dictSize, numWorkers);
      var offs := WordOffsets(dictSize, numWorkers).value;
      && nb > 0
      && |offs| <= numWorkers
      && (forall k :: 0 <= k < |offs| ==> offs[k] == k * nb && offs[k] < dictSize)
      && (forall x :: 0 <= x < dictSize ==> Covered(x, offs, nb))
      && (forall x, j, k :: 0 <= j < k < |offs| && InChunk(x, offs[j], nb) ==> !InChunk(x, offs[k], nb))
  {
    var nb := CeilDiv(dictSize, numWorkers);
    CeilChunkCount(dictSize, numWorkers);
    OffsetsShape(dictSize, nb);
    OffsetsCover(dictSize, nb);
  }

  /** The work function `partial(process_words, dictionary_file, num_bytes,
      letters)`, by the value ProcessWords is proved to return. */
  function ChunkWordsAt(text: string, numBytes: nat, letters: string): nat -> Result<seq<string>>
  {
    (o: nat) => ChunkWords(text, numBytes, letters, o)
  }

  /** The printed list: the words of every chunk, chunk after chunk; the
      first chunk that raises makes the whole run raise. */
  function FindWords(text: string, numWorkers: nat, letters: string): Result<seq<string>>
  {
    var numBytes :- NumBytes(|text|, numWorkers);
    var offsets :- Offsets(|text|, numBytes);
    var results :- MapResults(ChunkWordsAt(text, numBytes, letters), offsets);
    Ok(Concat(results))
  }

  /** Every word a chunk yields passes the four tests. */
  lemma ChunkWordsQualify(text: string, numBytes: nat, letters: string, offset: nat, w: string)
    requires ChunkWords(text, numBytes, letters, offset).Ok?
    requires w in ChunkWords(text, numBytes, letters, offset).value
    ensures Accepted(w, letters)
  {
    var s := Slice(text, offset, numBytes + Overlap);
    assert ChunkWords(text, numBytes, letters, offset).value == FilterWords(StitchedLines(s), letters);
  }

  /** Every word the script prints passes the four tests. */
  lemma FindWordsQualify(text: string, numWorkers: nat, letters: string, w: string)
    requires FindWords(text, numWorkers, letters).Ok?
    requires w in FindWords(text, numWorkers, letters).value
    ensures Accepted(w, letters)
  {
    var numBytes := NumBytes(|text|, numWorkers).value;
    var offsets := Offsets(|text|, numBytes).value;
    var f := ChunkWordsAt(text, numBytes, letters);
    var results := MapResults(f, offsets).value;
    assert FindWords(text, numWorkers, letters) == Ok(Concat(results));
    ConcatMember(results, w);
    var i :| 0 <= i < |results| && w in results[i];
    assert results[i] == ChunkWords(text, numBytes, letters, offsets[i]).value;
    ChunkWordsQualify(text, numBytes, letters, offsets[i], w);
  }

  /** Without workers the run raises ZeroDivisionError; with workers and an
      empty dictionary it raises ValueError. */
  lemma FindWordsErrors(text: string, numWorkers: nat, letters: string)
    ensures numWorkers == 0 ==> FindWords(text, numWorkers, letters) == Err(ZeroDivisionError)
    ensures numWorkers > 0 && text == [] ==> FindWords(text, numWorkers, letters) == Err(ValueError)
  {
  }

  /** The run succeeds exactly when there are workers, the dictionary is
      not empty and the chunk at every offset succeeds; whenever a chunk
      fails, the run raises IndexError. */
  lemma FindWordsSucceeds(text: string, numWorkers: nat, letters: string)
    ensures FindWords(text, numWorkers, letters).Ok? <==>
      && numWorkers > 0 && |text| > 0
      && var nb := CeilDiv(|text|, numWorkers);
        forall k :: 0 <= k < |RangeSeq(0, |text|, nb)| ==> ChunkWords(text, nb, letters, RangeSeq(0, |text|, nb)[k]).Ok?
    ensures numWorkers > 0 && |text| > 0 && FindWords(text, numWorkers, letters).Err? ==>
      FindWords(text, numWorkers, letters).error == IndexError
  {
    if numWorkers > 0 && |text| > 0 {
      var nb := CeilDiv(|text|, numWorkers);
      var offs: seq<nat> := RangeSeq(0, |text|, nb);
      var m := MapResults(ChunkWordsAt(text, nb, letters), offs);
      assert FindWords(text, numWorkers, letters) == if m.Ok? then Ok(Concat(m.value)) else Err(m.error);
      if m.Err? {
        var i :| 0 <= i < |offs| && ChunkWords(text, nb, letters, offs[i]) == Err(m.error);
      }
    }
  }

  /** A chunk that starts within 15 characters of the end of the
      dictionary reads fewer than 15 characters, so `words_str[-15]` raises
      IndexError and the whole run raises it. */
  lemma ShortChunkFails(text: string, numWorkers: nat, letters: string, k: nat)
    requires numWorkers > 0 && |text| > 0
    requires k * CeilDiv(|text|, numWorkers) < |text| < k * CeilDiv(|text|, numWorkers) + Overlap
    ensures FindWords(text, numWorkers, letters) == Err(IndexError)
  {
    var nb := CeilDiv(|text|, numWorkers);
    OffsetsShape(|text|, nb);
    var offs: seq<nat> := RangeSeq(0, |text|, nb);
    if k >= |offs| {
      MulMono(|offs|, k, nb);
    }
    assert offs[k] == k * nb;
    assert ChunkWords(text, nb, letters, offs[k]).Err?;
    FindWordsSucceeds(text, numWorkers, letters);
  }

  /** A dictionary of twenty characters read by eight workers: chunks of
      three characters, the last one at offset 18. */
  lemma FourWordsEightWorkers()
    ensures FindWords("aaaa\nbbbb\ncccc\ndddd\n", 8, "ab") == Err(IndexError)
  {
    var t := "aaaa\nbbbb\ncccc\ndddd\n";
    assert CeilDiv(|t|, 8) == 3;
    ShortChunkFails(t, 8, "ab", 6);
  }

  /** A dictionary of two lines followed by blank lines. */
  const ExampleText: string := "aaaa\nabab\n" + "\n\n\n\n\n\n\n\n\n\n\n\n\n\n\n"

  lemma ExampleHead()
    ensures |ExampleText| == 25
    ensures SplitLines(Head(ExampleText)) == ["aaaa", "abab"]
  {
    assert Head(ExampleText) == Join(["aaaa", "abab"]);
    SplitJoin(["aaaa", "abab"]);
  }

  lemma ExampleTail()
    ensures |ExampleText| == 25
    ensures SplitLines(ExampleText[10..])[0] == ""
  {
    var t := ExampleText[10..];
    assert t[0] == '\n';
    assert LineEnd(t) == 0;
  }

  lemma ExampleLines()
    ensures |ExampleText| == 25 && |SplitLines(Head(ExampleText))| >= 2
    ensures StitchedLines(ExampleText) == ["abab"]
  {
    ExampleHead();
    ExampleTail();
    var lines := SplitLines(Head(ExampleText));
    assert lines[1..|lines| - 1] == [];
    assert lines[|lines| - 1] + "" == "abab";
  }

  lemma ExampleAccepted()
    ensures Accepted("aaaa", "ab") && Accepted("abab", "ab")
  {
    assert Chars("aaaa") == {'a'};
    assert Chars("abab") == {'a', 'b'};
    assert |Chars("abab")| == 2;
  }

  /** The first line of a chunk is dropped even at offset 0, so the first
      word of the dictionary is never reported: "aaaa" passes every test
      but only "abab" comes back. */
  lemma FirstWordDropped()
    ensures Accepted("aaaa", "ab")
    ensures ChunkWords(ExampleText, 10, "ab", 0) == Ok(["abab"])
  {
    ExampleLines();
    ExampleAccepted();
    assert Slice(ExampleText, 0, 25) == ExampleText;
    assert FilterWords(["abab"], "ab") == ["abab"];
  }

  /** With one worker the whole run returns the second word only: the run
      can succeed, and the first word is lost there too. */
  lemma ExampleRun()
    ensures FindWords(ExampleText, 1, "ab") == Ok(["abab"])
  {
    FirstWordDropped();
    assert |ExampleText| == 25;
    assert CeilDiv(25, 1) == 25;
    var offs: seq<nat> := RangeSeq(0, 25, 25);
    assert offs == [0];
    assert Slice(ExampleText, 0, 25 + Overlap) == ExampleText == Slice(ExampleText, 0, 10 + Overlap);
    var f := ChunkWordsAt(ExampleText, 25, "ab");
    assert f(0) == ChunkWords(ExampleText, 25, "ab", 0) == Ok(["abab"]);
    assert offs[1..] == [];
    assert MapResults(f, offs[1..]) == Ok([]);
    assert f(offs[0]) == Ok(["abab"]);
    assert [["abab"]] + [] == [["abab"]];
    assert MapResults(f, offs) == Ok([["abab"]]);
    assert Concat([["abab"]]) == ["abab"];
  }

  /** A dictionary whose last 15 characters hold three whole lines. */
  const TailText: string := "zzzz\nabab\n" + "abba\nbaba\naaab\n"

  lemma TailHead()
    ensures |TailText| == 25
    ensures SplitLines(Head(TailText)) == ["zzzz", "abab"]
  {
    assert Head(TailText) == Join(["zzzz", "abab"]);
    SplitJoin(["zzzz", "abab"]);
  }

  lemma TailFirstLine()
    ensures |TailText| == 25
    ensures SplitLines(TailText[10..])[0] == "abba"
  {
    var a, b := "zzzz\nabab\n", "abba\nbaba\naaab\n";
    assert TailText == a + b && |a| == 10;
    var tail := TailText[10..];
    assert tail == b;
    assert b == "abba" + "\n" + "baba\naaab\n";
    LineEndAt("abba", "baba\naaab\n");
    assert tail[..4] == "abba";
  }

  lemma TailStitched()
    ensures |TailText| == 25 && |SplitLines(Head(TailText))| >= 2
    ensures StitchedLines(TailText) == ["abababba"]
  {
    TailHead();
    TailFirstLine();
    var lines := SplitLines(Head(TailText));
    assert lines[1..|lines| - 1] == [];
    assert lines[|lines| - 1] + "abba" == "abababba";
  }

  lemma TailAccepted()
    ensures Accepted("abab", "ab") && Accepted("baba", "ab") && Accepted("aaab", "ab")
    ensures Accepted("abababba", "ab")
  {
    assert Chars("abab") == {'a', 'b'};
    assert Chars("baba") == {'a', 'b'};
    assert Chars("aaab") == {'a', 'b'};
    assert Chars("abababba") == {'a', 'b'};
  }

  /** Read in one chunk, only the first line of the last 15 characters is
      kept, glued to the line before it: the non-word "abababba" is
      reported, and the words "abab", "baba" and "aaab", which pass every
      test, are not. */
  lemma LastLinesLost()
    ensures Accepted("abab", "ab") && Accepted("baba", "ab") && Accepted("aaab", "ab")
    ensures ChunkWords(TailText, 10, "ab", 0) == Ok(["abababba"])
  {
    TailStitched();
    TailAccepted();
    assert Slice(TailText, 0, 10 + Overlap) == TailText;
    assert FilterWords(["abababba"], "ab") == ["abababba"];
  }
}
