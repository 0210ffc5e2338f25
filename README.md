# free-threading-examples: a verified model of the sequential cores

The repository is a set of small Python scripts that show thread and process
pools. Each script splits a workload into chunks, hands the chunks to
`executor.map`, and combines the results. This project models the sequential
computations inside them, in Dafny, and proves what they compute:

- `primes.py`: trial division by 6k ± 1, counting primes in a range, and the
  `chunk_size` / `starts` partition of [1, max_check].
- `cpu_bound2.py`: the four-test word filter, the post-read line handling in
  `process_words`, and the `num_bytes` / `offsets` partition of the
  dictionary text.
- `cpu_bound.py`: `process_letters`, which fills a dictionary in place with a
  tree of nested dictionaries, and the slicing of the alphabet into letter
  groups.
- `io_bound.py`: the "index_middle" / "max" dispatch over a chunk read, and the
  ceil-and-cap partition of the file.
- `io_bound2.py`: the chunk maximum, the output framing (data followed by the
  maximum byte), the output file name, and the floor-and-cap partition.
- `io_bound4.py`: the in-place loop that copies every block read to a
  position half the file further on, with the clamp that keeps the block
  inside the file.
- `sleep_syscall.py`: the stable sort by `x & mask` and the running total.

Modules: `Common` holds the Python error kinds, `Result`, `byte`, `min`,
`max`, `math.ceil` on integers, `sum`, `max` of a sequence, flattening, and the
executor's `map`. That map is modelled as sequential and order-preserving. The
variant for work functions that raise re-raises the first error in submission
order, as iterating `list(result_iter)` does. `Chunking` holds Python's `range`
and slicing, and the facts every partition needs. There is one module per
script: `Primes`, `CpuBound2`, `CpuBound`, `IoBound`, `IoBound2`, `IoBound4`,
`SleepSyscall`.

Inputs the scripts get from outside are parameters:

- file contents: a byte sequence; for `io_bound4.py` an `array<byte>` changed in place
- the file size: the length of that sequence or array
- the dictionary text: a string
- the worker count
- the random mask and the random choices

Python exceptions are `Err` values of `Result`. `ZeroDivisionError` comes
from a zero worker count, and `ValueError` from `range` with step 0 or from
`max` of nothing, or from an operation io_bound.py does not know.
`IndexError` has three sources:
- indexing an empty read (io_bound.py, and `words_str[0]` in cpu_bound2.py);
- `words_str[-15]` on a read shorter than 15 characters;
- `words_list[-1]` on an empty list of lines.

`OSError` comes from seeking to a negative position.

The scripts' literals are named constants:
- `CpuBound2.Overlap`: the 15-character overlap (cpu_bound2.py:17-23).
- `CpuBound2.RawNewline`: the two-character `r"\n"` (cpu_bound2.py:20, :22).
- `IoBound.GiB`: the 1 GiB cap (io_bound.py:59).
- `IoBound2.MaxWorkers`: the fixed 8 workers (io_bound2.py:27).
- `IoBound2.Cap`: the 500 MiB cap (io_bound2.py:30).
- `CpuBound.AsciiLowercase`: `string.ascii_lowercase` (cpu_bound.py:43).
- `CpuBound.AsciiLetters`: `string.ascii_letters` (cpu_bound.py:16).

Two value types carry results:
- `IoBound2.ChunkOutput`: what one chunk of io_bound2.py produces, namely the returned maximum and the name and content of the file written (io_bound2.py:18-22).
- `CpuBound.Value`: a dictionary entry of cpu_bound.py, either a leaf string or a nested dictionary.

## Model

| member | source | states |
|---|---|---|
| Common.CeilDiv | io_bound.py:59 | `math.ceil(a / b)`: the least q with q * b >= a |
| Common.SeqMax | io_bound.py:25 | `max(data)` is an element of data and no element exceeds it |
| Common.Min | io_bound.py:58-60 | the builtin `min` of two integers: one of them, and not above either; also the cap at io_bound2.py:30 |
| Common.Max | io_bound4.py:21 | the builtin `max` of two integers: one of them, and not below either |
| Common.SeqMaxAppend | io_bound.py:25 | the maximum of a concatenation is the larger of the two maxima |
| Common.Sum | primes.py:68 | `sum` of a list, element by element; SumAppend and SumMapRange give how it combines |
| Common.SumAppend | primes.py:68 | `sum` is additive over concatenation |
| Common.SumMapZero | primes.py:66-68 | summing the results of a work function that returns 0 for every item gives 0 |
| Common.Concat | cpu_bound2.py:64 | the flattening `[word for words in results for word in words]`, list after list; ConcatMember and ChunksRebuildInput give what it holds |
| Common.ConcatMember | cpu_bound2.py:64 | every word of the flattened result comes from one chunk's list |
| Common.MapSeq | primes.py:67 | `executor.map` of a work function that cannot fail: one result per item, result i is f(item i) |
| Common.MapResults | cpu_bound2.py:62-63 | `list(executor.map(...))` succeeds exactly when every call succeeds, then result i is call i's value; otherwise it raises the error of the first failing call |
| Chunking.Range | primes.py:64 | `range` raises ValueError exactly for step 0, otherwise yields RangeSeq, whose elements and length RangeUp and RangeCount give |
| Chunking.RangeSeq | primes.py:64 | the elements of an ascending range all lie in [start, stop) |
| Chunking.RangeUp | primes.py:64 | element k of an ascending range is start + k * step; the range is empty iff start >= stop; it reaches stop |
| Chunking.RangeCount | io_bound2.py:31 | an ascending range has ceil((stop - start) / step) elements |
| Chunking.SumMapRange | primes.py:67-68 | `sum(map(f, range(...)))` equals the running sum of f over the starts |
| Chunking.Offsets | io_bound.py:61 | `range(0, total, step)` raises ValueError exactly for step 0; OffsetsShape and OffsetsCover give the offsets and their chunks |
| Chunking.Slice | io_bound.py:18-19 | a seek-and-read returns min(n, size - o) items from o, and nothing past the end |
| Chunking.SliceAt | cpu_bound.py:45 | the work function "read n items at offset o", one `Slice` per offset; it is also `all_letters[idx:idx + group_size]` |
| Chunking.ConcatSlicesFrom | io_bound.py:61 | the chunks read from offset o onwards, joined, are the input from o |
| Chunking.ChunksRebuildInput | io_bound.py:61 | the chunks read at all offsets, joined in order, are exactly the input |
| Chunking.OffsetsShape | io_bound.py:61 | the offsets are k * step, all below total, consecutive ones a step apart, ceil(total / step) of them |
| Chunking.OffsetsCover | io_bound.py:61 | every position of [0, total) lies in the chunk of some offset and of no other |
| Chunking.CeilChunkCount | cpu_bound2.py:58-59 | with step ceil(total / n) there are at most n chunks |
| Primes.IsPrime | primes.py:21-34 | the notion `_is_prime` decides: at least 2 and no divisor in [2, v); IsPrimeTrial is proved to return exactly it |
| Primes.PrimeCount | primes.py:12-18 | the number of primes in [lo, hi); ProcessPrimes is proved to return it, and PrimeCountBounds and PrimeCountSplit give its bounds and additivity |
| Primes.Starts | primes.py:63-64 | `list(range(1, max_check + 1, chunk_size))` after the floor division; StartsError and StartsPartition say when it fails and what it holds |
| Primes.TotalPrimes | primes.py:63-68 | the printed total, the sum of the counts of the mapped work function over the starts; TotalPrimesCounts gives its value |
| Primes.CountFrom | primes.py:65 | the work function `partial(process_primes, chunk_size)`, by the value ProcessPrimes is proved to return |
| Primes.ClampedCountFrom | primes.py:65 | the corrected work function, each chunk cut at max_check + 1; ClampedAt gives its value and SumOfClampedCounts its sum |
| Primes.TotalPrimesClamped | primes.py:63-68 | the corrected total, every chunk cut at max_check + 1; TotalPrimesClampedCorrect gives its value |
| Primes.IsPrimeTrial | primes.py:21-34 | `_is_prime(v)` is true exactly when v is prime: false up to 1, true for 2 and 3, false for multiples of 2 or 3, and the 6k ± 1 loop is complete |
| Primes.NotPrimeBy | primes.py:26-31 | a divisor d with 2 <= d < v makes v not prime |
| Primes.NoDivisorBelowFive | primes.py:26-28 | a v that neither 2 nor 3 divides has no divisor below 5, the loop's starting point |
| Primes.SixStepClear | primes.py:29-32 | one loop turn, testing i and i + 2, rules out every divisor below i + 6 |
| Primes.NoSmallDivisorIsPrime | primes.py:29-34 | on loop exit (i * i > v) with no divisor below i, v is prime |
| Primes.SmallCofactor | primes.py:29 | a divisor d >= i of v, with i * i > v, has a cofactor in [2, i) that also divides v |
| Primes.PrimeCountBounds | primes.py:12-18 | the count of primes in [lo, hi) is between 0 and the range's length |
| Primes.ProcessPrimes | primes.py:12-18 | `process_primes(cs, start)` is the number of primes in [start, start + cs), between 0 and max(0, cs) |
| Primes.ChunkSize | primes.py:63 | `max_check // num_workers` is the floor quotient; no workers raises ZeroDivisionError |
| Primes.StartsError | primes.py:63-64 | with workers, `starts` raises ValueError exactly when 0 <= max_check < num_workers |
| Primes.StartsPartition | primes.py:63-64 | start k is 1 + k * cs; the back-to-back chunks cover [1, max_check] and overshoot by less than one chunk |
| Primes.PrimeCountSplit | primes.py:65-68 | counting primes is additive over adjacent ranges |
| Primes.SumOfChunkCounts | primes.py:65-68 | the chunk counts add up to the count over the union of the chunks |
| Primes.ChunksEndBounds | primes.py:64 | the chunks started below stop end at or after stop, less than one chunk past it |
| Primes.ChunksEndExact | primes.py:64 | k chunks of size cs from a end exactly at a + k * cs |
| Primes.ChunksEndValue | primes.py:64 | the chunks end at a + (number of starts) * cs |
| Primes.TotalPrimesCounts | primes.py:63-68 | the printed total is the prime count over [1, e), where e = 1 + (number of starts) * cs and max_check + 1 <= e < max_check + 1 + cs |
| Primes.TotalWhenWorkersDivide | primes.py:63-68 | when num_workers divides max_check, the total is the number of primes <= max_check |
| Primes.TotalOvershoots | primes.py:63-68 | as written, max_check = 10 with 3 workers counts 11, a prime above max_check |
| Primes.NegativeMaxCheck | primes.py:63-68 | a negative max_check gives a negative chunk size, every chunk is empty, and both totals are 0, the number of primes <= max_check |
| Primes.TotalPrimesClampedCorrect | primes.py:63-68 | with each chunk cut at max_check + 1, the total is the number of primes <= max_check for every input whose starts exist: num_workers > 0 and max_check not in [0, num_workers) |
| CpuBound2.IsBreak | cpu_bound2.py:19 | the characters at which `str.splitlines` ends a line; SplitLines leaves none of them inside a line |
| CpuBound2.Accepted | cpu_bound2.py:30-37 | the four tests, which FilterWords keeps exactly the words passing |
| CpuBound2.LineEnd | cpu_bound2.py:19 | index of the first line break, with no break before it |
| CpuBound2.BreakWidth | cpu_bound2.py:19 | a line break is one character wide, except "\r\n", which `splitlines` treats as one break of two characters |
| CpuBound2.SplitLines | cpu_bound2.py:19 | `splitlines()` is empty only for the empty string, no line holds a break, and the first line runs up to the first break |
| CpuBound2.SplitJoin | cpu_bound2.py:19 | splitting text made of break-free lines, each ended by "\n", gives those lines back |
| CpuBound2.FilterWords | cpu_bound2.py:28-38 | a word is output iff it is input and passes all four tests: length >= 4, at most 7 distinct characters, only characters of `letters`, and `letters[0]` among them |
| CpuBound2.FilterIsSubseq | cpu_bound2.py:28-38 | the output is an order-preserving subsequence of the input |
| CpuBound2.FilterAppend | cpu_bound2.py:28-38 | filtering distributes over concatenation of word lists |
| CpuBound2.FilterIdempotent | cpu_bound2.py:28-38 | filtering the output again leaves it unchanged |
| CpuBound2.Head | cpu_bound2.py:19 | `words_str[:-15]`, the read without its overlap (empty for a read shorter than 15 characters); StitchedLines and ChunkWords use it |
| CpuBound2.StitchedLines | cpu_bound2.py:19-23 | one line fewer than the head has: the head's lines from the second to the last but one unchanged, then the head's last line extended by the overlap up to its first line break |
| CpuBound2.ChunkWords | cpu_bound2.py:14-25 | `process_words` raises IndexError exactly when the read is shorter than 15 characters or its head has fewer than two lines; otherwise it returns FilterWords of the stitched lines of that read |
| CpuBound2.ChunkWordsAt | cpu_bound2.py:60 | the work function `partial(process_words, dictionary_file, num_bytes, letters)`, by the value ProcessWords is proved to return |
| CpuBound2.ProcessWords | cpu_bound2.py:14-25 | the step-by-step body, with both always-true guards, returns what ChunkWords describes |
| CpuBound2.FirstWordDropped | cpu_bound2.py:20-21 | the first line is dropped even at offset 0: a valid first word is not reported |
| CpuBound2.NumBytes | cpu_bound2.py:58 | `num_bytes` is ceil(size / n), the least value whose n-fold covers the size (CeilDiv); no workers raises ZeroDivisionError |
| CpuBound2.WordOffsets | cpu_bound2.py:57-59 | `num_bytes` and then `list(range(0, dict_size, num_bytes))`; EmptyDictionaryOffsets and WordOffsetsPartition give its failure and shape |
| CpuBound2.EmptyDictionaryOffsets | cpu_bound2.py:57-59 | an empty dictionary gives step 0 and ValueError |
| CpuBound2.WordOffsetsPartition | cpu_bound2.py:57-59 | the offsets step by num_bytes from 0, stay below the size, number at most n, and their chunks cover the text exactly once |
| CpuBound2.ChunkWordsQualify | cpu_bound2.py:14-25 | every word a chunk yields passes the four tests |
| CpuBound2.FindWordsQualify | cpu_bound2.py:57-64 | every printed word passes the four tests |
| CpuBound2.FindWordsErrors | cpu_bound2.py:57-64 | no workers raises ZeroDivisionError; an empty dictionary raises ValueError |
| CpuBound2.FindWords | cpu_bound2.py:57-64 | the printed list, every chunk's words in chunk order; FindWordsSucceeds gives when it succeeds, FindWordsQualify what it contains |
| CpuBound2.FindWordsSucceeds | cpu_bound2.py:57-64 | the run succeeds exactly when there are workers, the text is not empty and every chunk succeeds; any failure then is IndexError |
| CpuBound2.ShortChunkFails | cpu_bound2.py:17-22 | a chunk starting less than 15 characters before the end makes the run raise IndexError |
| CpuBound2.FourWordsEightWorkers | cpu_bound2.py:22 | a 20-character dictionary with 8 workers raises IndexError |
| CpuBound2.ExampleRun | cpu_bound2.py:57-64 | a run that succeeds: one worker on a two-word dictionary returns only the second word |
| CpuBound2.LastLinesLost | cpu_bound2.py:19-23 | as written, only the first line of the last 15 characters is kept, glued to the line before it: a non-word is reported and three passing words are not |
| CpuBound.Leaf | cpu_bound.py:16 | `string.ascii_letters.split(letter, 1)[0]`, the letters before the first occurrence; LeafLowercase gives its value for lowercase letters |
| CpuBound.Draw | cpu_bound.py:14 | one `random.choice([i, i ** 2, i ** 3])` with the choice passed in; ProcessLetters shows the draws change neither the dictionary nor the result |
| CpuBound.LetterGroups | cpu_bound.py:43-45 | `group_size` and the groups `all_letters[idx:idx + group_size]`; LetterGroupsErrors, LetterGroupsConcat and LetterGroupsLengths give its errors, contents and sizes |
| CpuBound.Dict.constructor | cpu_bound.py:19 | the class `Dict` is the dictionary that `process_letters` fills in place (`sub_dict`, and `result` at cpu_bound.py:42); a new one is empty |
| CpuBound.IndexOf | cpu_bound.py:16 | the first occurrence of the letter, or the length when it is absent |
| CpuBound.LeafLowercase | cpu_bound.py:16 | for a lowercase c the leaf is the lowercase letters before c |
| CpuBound.Level | cpu_bound.py:9-22 | the entries stored for a level have exactly the given letters as keys; LevelShaped gives the tree below them |
| CpuBound.Entry | cpu_bound.py:16-21 | the value stored for a letter: the leaf string `Leaf(c)` exactly at the last level, otherwise a sub-dictionary keyed by every letter |
| CpuBound.LevelShaped | cpu_bound.py:18-21 | the tree has height max_level - curr_level, every dictionary in it is keyed by exactly the letters, and the leaves are the letter prefixes |
| CpuBound.ProcessLetters | cpu_bound.py:9-22 | `process_letters` adds one entry per letter, leaf or sub-tree, keeps every other key, returns 0 at the last level and len(letters) otherwise, whatever the random draws; past the last level with no letters it changes nothing and returns 0 |
| CpuBound.LetterGroupsErrors | cpu_bound.py:43-45 | no workers raises ZeroDivisionError, more than 26 raises ValueError, 1 to 26 gives groups |
| CpuBound.LetterGroupsConcat | cpu_bound.py:43-45 | the groups joined in order are `ascii_lowercase` |
| CpuBound.LetterGroupsLengths | cpu_bound.py:43-45 | every group has 26 // n letters except the last, which has between 1 and that many |
| CpuBound.GroupsLevel | cpu_bound.py:46-50 | the entries stored for all the groups together are keyed by the letters of the groups |
| CpuBound.StoreGroups | cpu_bound.py:46-49 | mapping the work function over the groups in order returns the group lengths and stores every group's entries |
| CpuBound.RunLetters | cpu_bound.py:42-50 | the printed counts are the group lengths and the result dictionary's keys are exactly the 26 lowercase letters; the errors are those of the groups |
| IoBound.ProcessBinary | io_bound.py:22-26 | "index_middle" returns `data[len(data) // 2]`, "max" the largest byte; an empty read fails (IndexError, ValueError); any other operation raises ValueError |
| IoBound.NumBytes | io_bound.py:58-60 | `num_bytes` is ceil(size / n) capped at 1 GiB; no workers raises ZeroDivisionError |
| IoBound.EmptyFileOffsets | io_bound.py:57-61 | an empty file gives num_bytes 0 and ValueError |
| IoBound.ChunkOffsetsPartition | io_bound.py:57-61 | the offsets are k * num_bytes below the size, their chunks cover every byte exactly once, and without the cap there are at most n |
| IoBound.ChunkOffsets | io_bound.py:57-61 | `num_bytes` and then `list(range(0, file_size, num_bytes))`; EmptyFileOffsets and ChunkOffsetsPartition give its failure and shape |
| IoBound.ChunkResult | io_bound.py:70 | the work function `partial(process_binary, in_file, operation, num_bytes)`: read the chunk at the offset, then reduce it |
| IoBound.Results | io_bound.py:61-73 | `list(executor.map(process_func, offsets))`, each chunk read and reduced; MaxResultsGiveFileMax, MiddleResults and UnknownOperationFails give its value per operation |
| IoBound.MaxOfChunkMaxima | io_bound.py:24-25 | the maximum of joined non-empty chunks is the maximum of their maxima |
| IoBound.MaxResultsGiveFileMax | io_bound.py:70-73 | with "max" the largest result is the largest byte of the file |
| IoBound.MiddleResults | io_bound.py:70-73 | with "index_middle" result k is the middle byte of chunk k |
| IoBound.UnknownOperationFails | io_bound.py:70-73 | an unknown operation makes the run raise ValueError |
| IoBound2.Replace | io_bound2.py:19 | `str.replace` for a non-empty pattern, left to right without overlaps; ReplaceSuffix gives its value on a name ending in the pattern |
| IoBound2.ReplaceSuffix | io_bound2.py:19 | when the pattern's first character does not occur in the prefix, `replace` on prefix + pattern gives prefix + replacement |
| IoBound2.Decimal | io_bound2.py:19 | `f"{offset}"` is a non-empty string of decimal digits |
| IoBound2.DecimalRoundTrip | io_bound2.py:19 | the decimal text of n reads back as n |
| IoBound2.OutputNameOfStem | io_bound2.py:19 | "stem.dat" at offset o, whose stem has no dot, is written to "stem_o.dat" |
| IoBound2.OutputNameOfMyData | io_bound2.py:19 | "my_data.dat" at offset o is written to "my_data_o.dat" |
| IoBound2.OutputNamesDistinct | io_bound2.py:19 | different offsets give different output names |
| IoBound2.OutputName | io_bound2.py:19 | `filename.replace(".dat", f"_{offset}.dat")`; OutputNameOfStem, OutputNameOfMyData and OutputNamesDistinct give its value and that it is one-to-one in the offset |
| IoBound2.ProcessBinary | io_bound2.py:14-22 | returns the chunk maximum and writes the chunk followed by that byte, under the derived name (the three fields of the `ChunkOutput` value); an empty read raises ValueError |
| IoBound2.NumBytes | io_bound2.py:30 | `num_bytes` is size // 8 capped at 500 MiB |
| IoBound2.ChunkOffsets | io_bound2.py:29-31 | `num_bytes` and then `list(range(0, file_size, num_bytes))`; ShortFileFails and ChunkOffsetsPartition give its failure and shape |
| IoBound2.ShortFileFails | io_bound2.py:29-31 | files shorter than 8 bytes give step 0 and ValueError, longer ones have offsets |
| IoBound2.ChunkOffsetsPartition | io_bound2.py:29-31 | the offsets are k * num_bytes below the size, cover every byte once, number ceil(size / num_bytes), at least 8, and exactly 8 without the cap iff 8 divides the size |
| IoBound2.ChunkWork | io_bound2.py:37 | the work function `partial(process_binary, in_file, num_bytes)`: read the chunk at the offset, then take its maximum and write it out |
| IoBound2.Outputs | io_bound2.py:31-40 | the map over the offsets, one maximum, name and file content per chunk; OutputsOk, OutputsRebuildFile and OutputFilesDistinct give its success, contents and names |
| IoBound2.OutputsOk | io_bound2.py:37-40 | from 8 bytes on every chunk succeeds and output k belongs to offset k |
| IoBound2.OutputsRebuildFile | io_bound2.py:37-40 | the output files without their last byte, joined in order, are the input; each last byte is its chunk's maximum |
| IoBound2.OutputFilesDistinct | io_bound2.py:37-40 | the outputs of "my_data.dat" go to pairwise distinct files |
| IoBound4.Stride | io_bound4.py:21 | the loop step `max(total_bytes // 10000, block_size)`; RelocateErrors gives what a zero step does |
| IoBound4.DstOffset | io_bound4.py:26-28 | after the clamp the block ends inside the file, the position is non-negative when the block fits, and the clamp only moves a block that would stick out |
| IoBound4.Write | io_bound4.py:29-30 | a write puts data at [at, at + len) and keeps the length and every other byte |
| IoBound4.Step | io_bound4.py:22-30 | one loop turn, keeping the file's length; StepMovesBlock states what it reads and writes |
| IoBound4.Loop | io_bound4.py:21-30 | the loop never changes the file's length |
| IoBound4.Relocate | io_bound4.py:16-31 | the file after `process_binary`: ValueError for a zero step, else the loop from 0; RelocateErrors gives when it fails, and ProcessBinary is proved to leave it |
| IoBound4.StepMovesBlock | io_bound4.py:22-30 | a step reads min(block_size, size - offset) bytes and writes exactly them at dst_offset; all other bytes stay |
| IoBound4.LoopSucceeds | io_bound4.py:21-30 | when the block fits in a non-empty file no step fails |
| IoBound4.RelocateErrors | io_bound4.py:16-31 | the run fails exactly for stride 0 (ValueError) or a block larger than a non-empty file (OSError) |
| IoBound4.ReadAt | io_bound4.py:22-23 | seek and read on the buffer return the short-at-the-end slice |
| IoBound4.WriteAt | io_bound4.py:29-30 | seek and write on the buffer give Write of the old contents |
| IoBound4.StepInPlace | io_bound4.py:22-30 | one loop body on the buffer does what Step describes; on failure the buffer is unchanged |
| IoBound4.ProcessBinary | io_bound4.py:16-31 | on the buffer, the loop leaves what Relocate describes and returns size // 2; on an error the buffer is unchanged |
| SleepSyscall.BitAnd | sleep_syscall.py:10 | `x & mask` is no larger than either operand |
| SleepSyscall.BitAndBits | sleep_syscall.py:10 | each bit of `x & y` is set exactly when it is set in both |
| SleepSyscall.Key | sleep_syscall.py:10 | the sort key `x & mask`; BitAndBits gives its bits |
| SleepSyscall.Insert | sleep_syscall.py:10 | inserting adds exactly one element |
| SleepSyscall.SortByKey | sleep_syscall.py:10 | `sorted(..., key=...)` as a stable insertion sort, keeping the length; SortPermutes, SortSorted and SortStable give the rest |
| SleepSyscall.SortPermutes | sleep_syscall.py:10 | the sorted list is a permutation of the input |
| SleepSyscall.SortSorted | sleep_syscall.py:10 | the sorted list is non-decreasing in `x & mask` |
| SleepSyscall.SortStable | sleep_syscall.py:10 | elements with equal keys keep their input order |
| SleepSyscall.SumSorted | sleep_syscall.py:10-15 | sorting does not change the sum |
| SleepSyscall.BaseTimes | sleep_syscall.py:10 | the list `[1, 2, 2, 4, 4, input_sleep]` that is sorted; SleepTimesSorted and SleepCountValue are about it |
| SleepSyscall.SleepTimes | sleep_syscall.py:10 | `sleep_times` for a given mask; SleepTimesSorted gives its contents and order |
| SleepSyscall.SleepTimesSorted | sleep_syscall.py:10 | `sleep_times` is a stable sort of [1, 2, 2, 4, 4, input_sleep] by key |
| SleepSyscall.SleepCount | sleep_syscall.py:8-15 | what `process_sleep` returns, the sum of `sleep_times`; SleepCountValue gives its value |
| SleepSyscall.SleepCountValue | sleep_syscall.py:8-15 | for every mask the count is 13 + input_sleep |
| SleepSyscall.ProcessSleep | sleep_syscall.py:8-15 | the accumulation loop returns the sum of the sorted times, 13 + input_sleep |
| SleepSyscall.RunSleeps | sleep_syscall.py:40-41 | `list(executor.map(process_sleep, inputs))` has one count per input, count i being that of input i with its own mask; RunSleepsValue gives the values |
| SleepSyscall.Inputs | sleep_syscall.py:40 | `[1, 2] * 4`: eight inputs, alternating 1 and 2, starting with 1 |
| SleepSyscall.RunSleepsValue | sleep_syscall.py:40-41 | mapping over [1, 2] * 4 gives [14, 15, 14, 15, 14, 15, 14, 15] whatever the masks |

## Left out

- Threads and processes. `executor.map` is sequential and order-preserving, so lost updates, scheduling and the process backend are not modelled. Under the process backend `result` in cpu_bound.py stays empty.
- shared_counter.py, io_bound3.py and file_download.py are not part of this model. They are about races and network reads.
- `open`, `seek`, `read`, `write`, `os.stat` and `glob` become a given sequence or array. `print`, `argparse`, `time.sleep` and `time.perf_counter` are dropped.
- IBM852 decoding and newline translation when cpu_bound2.py opens the file in text mode: the dictionary is given as decoded text.
- Randomness is a parameter: the masks of io_bound4.py and sleep_syscall.py, and `random.choice` in cpu_bound.py.
  - The io_bound4.py mask is unused, since the sort is commented out, so it is not modelled.
  - The sleep mask may be any non-negative number, not just 1 to 4.
- Floating point: `math.ceil(a / b)` is integer ceiling division, and `int(total_bytes * 0.5)` is `total_bytes // 2`. These differ only above 2^53 bytes.
- Negative inputs:
  - Worker counts are non-negative. A pool rejects a count below 1, and 0 only shows up as ZeroDivisionError.
  - Block sizes and sleep times are non-negative. `read(-1)` would read the whole rest of the file.
- CpuBound.ProcessLetters: requires curr_level <= max_level or empty `letters`. With a larger start and non-empty `letters`, line 20 recurses until Python raises RecursionError; that exception is not modelled. The script always starts at level 0 with max level 5.
- IoBound4.Loop: its contract states only that the length is kept. Its offsets are those of `range(0, total_bytes, stride)` by construction, and what it writes is stated step by step in StepMovesBlock.
- SleepSyscall.BitAnd: its contract is only a bound; the full bitwise meaning is in BitAndBits.
- The dictionary order of keys in cpu_bound.py (insertion order) is not modelled. The result is a map, and RunLetters states its key set.

## Findings

| source | as written | input that shows it | evidently intended | confidence | as-written member | corrected member |
|---|---|---|---|---|---|---|
| primes.py:63-68 | every chunk has `chunk_size` numbers, so the last chunk runs past `max_check` when `num_workers` does not divide it, and primes above `max_check` are counted | `--max-check 10 --num-workers 3`: the chunks start at 1, 4, 7, 10; the last one tests 10, 11 and 12, and 11 is counted | count the primes up to and including `max_check` | medium, not executed | Primes.TotalOvershoots | Primes.TotalPrimesClampedCorrect |

The corrected model, Primes.TotalPrimesClamped, cuts every chunk at max_check + 1. Primes.TotalPrimesClampedCorrect proves that it counts exactly the primes up to max_check for every input where the starts exist: num_workers > 0 and max_check not in [0, num_workers). The as-written total is still stated exactly by Primes.TotalPrimesCounts.
