/** cpu_bound.py: fill a dictionary, in place, with a tree of nested
    dictionaries keyed by letters, one letter group per worker; the leaves
    are prefixes of `string.ascii_letters`. */
module CpuBound {
  import opened Common
  import opened Chunking

  /** `string.ascii_lowercase` and `string.ascii_letters`. */
  const AsciiLowercase: string := "abcdefghijklmnopqrstuvwxyz"
  const AsciiLetters: string := AsciiLowercase + "ABCDEFGHIJKLMNOPQRSTUVWXYZ"

  lemma LowercaseLength()
    ensures |AsciiLowercase| == 26
  {
  }

  lemma LowercaseCodes()
    ensures |AsciiLowercase| == 26 && |AsciiLetters| == 52
    ensures forall i :: 0 <= i < 26 ==> AsciiLetters[i] == AsciiLowercase[i]
    ensures forall i :: 0 <= i < 26 ==> AsciiLowercase[i] as int == 'a' as int + i
  {
  }

  /** A value stored in a dictionary of the tree: a leaf string or a
      sub-dictionary that is no longer changed once stored. */
  datatype Value = Text(s: string) | Nested(entries: map<char, Value>)

  /** The dictionary `dst_dict` that `process_letters` fills in place. */
  class Dict {
    var entries: map<char, Value>

    constructor ()
      ensures entries == map[]
    {
      entries := map[];
    }
  }

  /** Index of the first occurrence of c in s, or |s| when c is absent. */
  function IndexOf(s: string, c: char): (i: nat)
    ensures i <= |s|
    ensures c !in s[..i]
    ensures i < |s| ==> s[i] == c
  {
    if s == [] then 0
    else if s[0] == c then 0
    else
      var j := IndexOf(s[1..], c);
      assert s[..1 + j] == [s[0]] + s[1..][..j];
      1 + j
  }

  /** `string.ascii_letters.split(letter, 1)[0]`: the letters before the
      first occurrence of `letter`, or all of them when it does not occur. */
  function Leaf(c: char): string
  {
    AsciiLetters[..IndexOf(AsciiLetters, c)]
  }

  /** For a lowercase letter c the leaf is the lowercase letters before c. */
  lemma LeafLowercase(c: char)
    requires 'a' <= c <= 'z'
    ensures Leaf(c) == AsciiLowercase[..c as int - 'a' as int]
  {
    LowercaseCodes();
    var k := c as int - 'a' as int;
    assert AsciiLetters[k] == c;
    assert AsciiLetters[..k] == AsciiLowercase[..k];
  }

  /** What `process_letters` stores for `letter` at level `currLevel`: the
      leaf at the last level, otherwise the fully built sub-dictionary of
      the next level. */
  function Entry(maxLevel: nat, currLevel: nat, c: char, letters: string): (v: Value)
    requires currLevel <= maxLevel
    ensures v.Text? <==> currLevel == maxLevel
    ensures v.Text? ==> v.s == Leaf(c)
    ensures v.Nested? ==> v.entries.Keys == Chars(letters)
    decreases maxLevel - currLevel, 0
  {
    if currLevel == maxLevel then Text(Leaf(c))
    else Nested(Level(maxLevel, currLevel + 1, letters, letters))
  }

  /** The entries stored for the letters of `keys` at level `currLevel`. */
  function Level(maxLevel: nat, currLevel: nat, keys: string, letters: string): (m: map<char, Value>)
    requires currLevel <= maxLevel
    ensures m.Keys == Chars(keys)
    decreases maxLevel - currLevel, 1
  {
    map c | c in keys :: Entry(maxLevel, currLevel, c, letters)
  }

  lemma LevelSnoc(maxLevel: nat, currLevel: nat, keys: string, c: char, letters: string)
    requires currLevel <= maxLevel
    ensures Level(maxLevel, currLevel, keys + [c], letters)
         == Level(maxLevel, currLevel, keys, letters)[c := Entry(maxLevel, currLevel, c, letters)]
  {
    var l, r := Level(maxLevel, currLevel, keys + [c], letters), Level(maxLevel, currLevel, keys, letters)[c := Entry(maxLevel, currLevel, c, letters)];
    assert forall x :: x in keys + [c] <==> x in keys || x == c;
    assert l.Keys == r.Keys;
  }

  /** Storing the entry of the next key extends the stored level by that
      key. */
  lemma ExtendEntries(base: map<char, Value>, maxLevel: nat, currLevel: nat, keys: string, j: nat, letters: string)
    requires currLevel <= maxLevel && j < |keys|
    ensures (base + Level(maxLevel, currLevel, keys[..j], letters))[keys[j] := Entry(maxLevel, currLevel, keys[j], letters)]
         == base + Level(maxLevel, currLevel, keys[..j + 1], letters)
  {
    assert keys[..j + 1] == keys[..j] + [keys[j]];
    LevelSnoc(maxLevel, currLevel, keys[..j], keys[j], letters);
  }

  /** The shape of the built tree: a dictionary of height h whose key set
      is exactly `keys`, and all of whose dictionaries below it also have
      that key set; at height 0 every key c maps to the leaf of c. */
  predicate Shaped(m: map<char, Value>, h: nat, keys: set<char>)
    decreases h
  {
    && m.Keys == keys
    && forall c :: c in m ==>
      if h == 0 then m[c] == Text(Leaf(c))
      else m[c].Nested? && Shaped(m[c].entries, h - 1, keys)
  }

  /** The dictionary filled at level currLevel has height
      maxLevel - currLevel and every dictionary of it is keyed by exactly
      the characters of `letters`. */
  lemma {:induction false} LevelShaped(maxLevel: nat, currLevel: nat, letters: string)
    requires currLevel <= maxLevel
    ensures Shaped(Level(maxLevel, currLevel, letters, letters), maxLevel - currLevel, Chars(letters))
    decreases maxLevel - currLevel
  {
    if currLevel < maxLevel {
      LevelShaped(maxLevel, currLevel + 1, letters);
    }
  }

  /** One draw of `random.choice([i, i ** 2, i ** 3])`; `pick % 3` is the
      index of the chosen element (the value `choose(j, i)` passes in). */
  function Draw(i: nat, pick: nat): nat
  {
    [i, i * i, i * i * i][pick % 3]
  }

  /** `process_letters(dst_dict, max_level, curr_level, letters)`: at the
      last level stores the leaf for every letter and returns 0; above it
      stores a freshly filled sub-dictionary for every letter and returns
      len(letters). Keys not in `letters` keep their old values, and the
      random draws (`choose`) affect neither the dictionary nor the result.
      Past the last level only empty `letters` can be given: the loop does
      nothing and len(letters) = 0 comes back. */
  method ProcessLetters(dst: Dict, maxLevel: nat, currLevel: nat, letters: string, choose: (nat, nat) -> nat)
    returns (r: nat)
    requires currLevel <= maxLevel || letters == []
    modifies dst
    ensures currLevel <= maxLevel ==> dst.entries == old(dst.entries) + Level(maxLevel, currLevel, letters, letters)
    ensures currLevel > maxLevel ==> dst.entries == old(dst.entries)
    ensures r == if currLevel == maxLevel then 0 else |letters|
    decreases maxLevel - currLevel
  {
    if currLevel > maxLevel {
      return |letters|;
    }
    if currLevel == maxLevel {
      var count := 0;
      for j := 0 to |letters|
        invariant dst.entries == old(dst.entries) + Level(maxLevel, currLevel, letters[..j], letters)
      {
        for i := 0 to 1000 {
          count := count + Draw(i, choose(j, i));
        }
        ExtendEntries(old(dst.entries), maxLevel, currLevel, letters, j, letters);
        dst.entries := dst.entries[letters[j] := Text(Leaf(letters[j]))];
      }
      assert letters[..|letters|] == letters;
      return 0;
    }
    for j := 0 to |letters|
      invariant dst.entries == old(dst.entries) + Level(maxLevel, currLevel, letters[..j], letters)
    {
      var sub := new Dict();
      var _ := ProcessLetters(sub, maxLevel, currLevel + 1, letters, choose);
      assert Nested(sub.entries) == Entry(maxLevel, currLevel, letters[j], letters);
      ExtendEntries(old(dst.entries), maxLevel, currLevel, letters, j, letters);
      dst.entries := dst.entries[letters[j] := Nested(sub.entries)];
    }
    assert letters[..|letters|] == letters;
    return |letters|;
  }

  /** `group_size = len(all_letters) // num_workers` and the groups
      `all_letters[idx:idx + group_size]` for idx in
      `range(0, len(all_letters), group_size)`. */
  function LetterGroups(numWorkers: nat): Result<seq<string>>
  {
    var groupSize :- if numWorkers == 0 then Err(ZeroDivisionError) else Ok(|AsciiLowercase| / numWorkers);
    var offsets :- Offsets(|AsciiLowercase|, groupSize);
    Ok(MapSeq(SliceAt(AsciiLowercase, groupSize), offsets))
  }

  /** No workers: ZeroDivisionError; more than 26 workers: the group size
      is 0 and `range` raises ValueError; otherwise the groups exist. */
  lemma LetterGroupsErrors(numWorkers: nat)
    ensures numWorkers == 0 ==> LetterGroups(numWorkers) == Err(ZeroDivisionError)
    ensures numWorkers > 26 ==> LetterGroups(numWorkers) == Err(ValueError)
    ensures 1 <= numWorkers <= 26 <==> LetterGroups(numWorkers).Ok?
  {
    LowercaseCodes();
  }

  /** The groups, joined in order, are the lowercase alphabet. */
  lemma LetterGroupsConcat(numWorkers: nat)
    requires LetterGroups(numWorkers).Ok?
    ensures Concat(LetterGroups(numWorkers).value) == AsciiLowercase
  {
    LowercaseCodes();
    ChunksRebuildInput(AsciiLowercase, 26 / numWorkers);
  }

  /** Every group has 26 // num_workers letters except the last, which has
      at least one and at most that many. */
  lemma LetterGroupsLengths(numWorkers: nat)
    requires LetterGroups(numWorkers).Ok?
    ensures var gs := 26 / numWorkers;
      var groups := LetterGroups(numWorkers).value;
      && |groups| > 0
      && (forall k :: 0 <= k < |groups| - 1 ==> |groups[k]| == gs)
      && 0 < |groups[|groups| - 1]| <= gs
  {
    LowercaseLength();
    var gs := 26 / numWorkers;
    OffsetsShape(26, gs);
    var offs := Offsets(26, gs).value;
    var groups := LetterGroups(numWorkers).value;
    assert groups == MapSeq<nat, string>(SliceAt(AsciiLowercase, gs), offs);
    assert |groups| == |offs| > 0;
    forall k | 0 <= k < |groups|
      ensures |groups[k]| == Min(gs, 26 - offs[k])
    {
      assert groups[k] == Slice(AsciiLowercase, offs[k], gs);
    }
    forall k | 0 <= k < |groups| - 1
      ensures |groups[k]| == gs
    {
      assert offs[k] + gs == offs[k + 1] < 26;
    }
  }

  /** The union of the entries stored for a list of groups, group after
      group. */
  function GroupsLevel(maxLevel: nat, groups: seq<string>): (m: map<char, Value>)
    ensures m.Keys == Chars(Concat(groups))
  {
    if groups == [] then map[]
    else
      var last := groups[|groups| - 1];
      ConcatAppend(groups[..|groups| - 1], [last]);
      assert groups == groups[..|groups| - 1] + [last];
      assert Concat([last]) == last;
      GroupsLevel(maxLevel, groups[..|groups| - 1]) + Level(maxLevel, 0, last, last)
  }

  lemma GroupsLevelPrefix(maxLevel: nat, groups: seq<string>, k: nat)
    requires k < |groups|
    ensures GroupsLevel(maxLevel, groups[..k + 1]) == GroupsLevel(maxLevel, groups[..k]) + Level(maxLevel, 0, groups[k], groups[k])
  {
    var g := groups[..k + 1];
    assert g[..|g| - 1] == groups[..k];
    assert g[|g| - 1] == groups[k];
  }

  /** The executor's map run in order over the groups, every call storing
      into the same dictionary: one count per group, and the dictionary ends
      up holding the entries of every group. */
  method StoreGroups(dst: Dict, groups: seq<string>, choose: (nat, nat) -> nat) returns (counts: seq<nat>)
    requires dst.entries == map[]
    modifies dst
    ensures |counts| == |groups|
    ensures forall k :: 0 <= k < |groups| ==> counts[k] == |groups[k]|
    ensures dst.entries == GroupsLevel(5, groups)
  {
    counts := [];
    for k := 0 to |groups|
      invariant |counts| == k
      invariant forall i :: 0 <= i < k ==> counts[i] == |groups[i]|
      invariant dst.entries == GroupsLevel(5, groups[..k])
    {
      var n := ProcessLetters(dst, 5, 0, groups[k], choose);
      GroupsLevelPrefix(5, groups, k);
      counts := counts + [n];
    }
    assert groups[..|groups|] == groups;
  }

  /** The `__main__` block with the executor's map run in order: the
      returned counts are the group lengths, and the shared result
      dictionary ends up with exactly the 26 lowercase letters as keys,
      each letter holding the tree built for its group. */
  method RunLetters(numWorkers: nat, choose: (nat, nat) -> nat) returns (counts: Result<seq<nat>>, result: Dict)
    ensures fresh(result)
    ensures counts.Err? <==> LetterGroups(numWorkers).Err?
    ensures counts.Err? ==> counts.error == LetterGroups(numWorkers).error && result.entries == map[]
    ensures counts.Ok? ==>
      var groups := LetterGroups(numWorkers).value;
      && |counts.value| == |groups|
      && (forall k :: 0 <= k < |groups| ==> counts.value[k] == |groups[k]|)
      && result.entries == GroupsLevel(5, groups)
      && result.entries.Keys == Chars(AsciiLowercase)
  {
    result := new Dict();
    var groupsOrErr := LetterGroups(numWorkers);
    if groupsOrErr.Err? {
      return Err(groupsOrErr.error), result;
    }
    var out := StoreGroups(result, groupsOrErr.value, choose);
    LetterGroupsConcat(numWorkers);
    counts := Ok(out);
  }
}
