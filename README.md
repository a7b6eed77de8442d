# gopass-hibp dump tooling, modelled in Dafny

gopass-hibp checks gopass secrets against the "Have I Been Pwned" (HIBP)
list of leaked password hashes. Lookups can go to the HIBP range API or to
local dump files: text files of `SHA1HASH:count` lines, usually sorted by
hash and gzip- or 7z-compressed. This project models the dump side of the
tool:

- `DumpScanner` (`scanner.dfy`) covers `pkg/hibp/dump/scanner.go`:
  - choosing the dump files (`New`);
  - normalising the batch of query hashes (`LookupBatch`: sort, then upper-case);
  - the 100-line sortedness sample (`isSorted`);
  - the merge-join scan of a sorted dump (`scanSortedFile`);
  - the membership scan of an unsorted dump (`matcher`).
- `DumpMerger` (`merger.dfy`) covers `pkg/hibp/dump/merger.go`: `Scanner.Merge`,
  which checks its inputs, names the `.gz` output and runs a two-pointer loop
  over the two dumps' line streams.
- `HibpDownloader` (`downloader.dfy`) covers `pkg/hibp/api/downloader.go`:
  - `Download` fetches all 16^5 hash ranges (`downloadChunk`) into a staging
    directory of chunk files named by their five-digit hex prefix;
  - `joinChunks` concatenates the chunk files, in directory-listing order,
    into one output file.
- `GoStrings` (`gostrings.dfy`) holds the Go string semantics these rely on:
  - the `<` operator on strings;
  - `strings.TrimSpace`, `strings.ToUpper`, `strings.HasSuffix` and
    `strings.Split`;
  - the "append `.gz` unless present" idiom.
- `Wrappers` (`wrappers.dfy`) holds `Option` and `Result`.

How the source's entities are represented:

- A file is the sequence of its decoded lines. A directory or set of dump
  files is a map from names to lines; a path that cannot be opened or
  decoded is absent from the map.
- `fsutil.IsFile` and `fsutil.IsDir` are function parameters. The current
  date is a string parameter.
- Each chunk's HTTP exchange is a `Fetch` value: the response that ends
  the retry loop, or the transport error.
- A Go slice of a string that is too short panics. The model returns
  `Crash(at)` for it, where `at` is the source line of the slice.
- Loops in the source are `method`s with loop invariants. Each is proved
  equal to a recursive function or to a quantified specification (sorted
  and a permutation, membership), and the properties are proved about
  those specifications.
- In-place updates of the caller's slice are array updates: sorting and
  upper-casing the queries in `LookupBatch`.
- Merge and the sorted scan are modelled as the code is written.
  - As written, the merge panics when one receive reports its input closed
    while the other side still holds a line. Its output can be out of order.
  - As written, the sorted scan can miss a hash that the dump holds.
  - Each defect is exhibited by a lemma about the as-written model. Next to
    it stands a corrected definition, and the intended property is proved
    about that definition (see "## Findings").

## Model

| member | source | states |
|---|---|---|
| GoStrings.Less | pkg/hibp/dump/merger.go:53 | Go's `<` on strings: byte-wise lexicographic order, in which a proper prefix sorts first |
| GoStrings.LessIrreflexive | pkg/hibp/dump/scanner.go:154 | no string is below itself under Go's `<` |
| GoStrings.LessAsymmetric | pkg/hibp/dump/scanner.go:154 | `a < b` excludes `b < a` |
| GoStrings.LessTransitive | pkg/hibp/dump/scanner.go:154 | Go's string order is transitive |
| GoStrings.LessTotal | pkg/hibp/dump/merger.go:87-93 | two different strings are ordered one way or the other, so of two different hashes one is below the other |
| GoStrings.NotLessTransitive | pkg/hibp/dump/scanner.go:254 | "not below" is transitive, so a list sorted pair by pair is sorted between any two positions |
| GoStrings.LessAppend | pkg/hibp/dump/merger.go:53 | comparing two concatenations whose heads have the same length compares the heads first and the tails on a tie |
| GoStrings.LessProperExtension | pkg/hibp/dump/scanner.go:254 | a string is below each of its proper extensions, so a whole dump line is above its own hash |
| GoStrings.MaxString | pkg/hibp/dump/merger.go:69-72 | the result is one of the two count fields and neither is above it |
| GoStrings.TrimLeft | pkg/hibp/dump/scanner.go:240 | the result is no longer than the input and does not start with white space |
| GoStrings.TrimRight | pkg/hibp/dump/scanner.go:240 | the result is no longer than the input and does not end with white space |
| GoStrings.TrimSpace | pkg/hibp/dump/scanner.go:240 | the trimmed line is no longer than the input and neither starts nor ends with white space |
| GoStrings.TrimLeftIsSuffix | pkg/hibp/dump/scanner.go:240 | trimming the front leaves a suffix of the input, and everything removed was white space |
| GoStrings.TrimRightIsPrefix | pkg/hibp/dump/scanner.go:240 | trimming the back leaves a prefix of the input, and everything removed was white space |
| GoStrings.TrimSpaceIsInfix | pkg/hibp/dump/scanner.go:356 | the trimmed line is a contiguous piece of the input line |
| GoStrings.IsSpace | pkg/hibp/dump/scanner.go:240 | the white-space characters strings.TrimSpace removes (unicode.IsSpace) |
| GoStrings.ToUpper | pkg/hibp/dump/scanner.go:58-60 | upper-casing keeps the length and upper-cases each character on its own |
| GoStrings.UpperChar | pkg/hibp/dump/scanner.go:356 | one character upper-cased, ASCII letters only |
| GoStrings.ToUpperIdempotent | pkg/hibp/dump/scanner.go:356 | upper-casing twice gives the same as upper-casing once |
| GoStrings.ToUpperOfUpperHex | pkg/hibp/dump/scanner.go:58-60 | an upper-case hex hash is unchanged by upper-casing |
| GoStrings.ToUpperKeepsLowerHexOrder | pkg/hibp/dump/scanner.go:57-60 | upper-casing two lower-case hex hashes keeps their order, in both directions |
| GoStrings.WithGzSuffix | pkg/hibp/dump/merger.go:20-22 | the name ends in ".gz" and extends the given name by at most three characters; it is the given name exactly when that already ended in ".gz", and otherwise the given name followed by ".gz" |
| GoStrings.WithGzSuffixIdempotent | pkg/hibp/api/downloader.go:33-35 | adding the suffix a second time changes nothing |
| GoStrings.HasPrefix | pkg/hibp/api/downloader.go:102 | strings.HasPrefix: the string starts with the given prefix |
| GoStrings.HasSuffix | pkg/hibp/api/downloader.go:105 | strings.HasSuffix: the string ends with the given suffix |
| GoStrings.HasSuffixAppend | pkg/hibp/api/downloader.go:33-35 | a name ending in a suffix still ends in it after something is put in front, so a joined path keeps the ".gz" of its file name |
| GoStrings.IndexOf | pkg/hibp/api/downloader.go:187 | the position of the first occurrence of the separator |
| GoStrings.Split | pkg/hibp/api/downloader.go:187 | there is at least one piece, and no piece contains the separator |
| GoStrings.JoinSplit | pkg/hibp/api/downloader.go:187 | joining the pieces with the separator restores the body |
| GoStrings.SplitJoin | pkg/hibp/api/downloader.go:187 | splitting a join of separator-free pieces gives the pieces back |
| DumpScanner.EmitNothing | pkg/hibp/dump/scanner.go:215-257 | sending nothing before a scan leaves its outcome unchanged |
| DumpScanner.EmitAll | pkg/hibp/dump/scanner.go:215-257 | lines sent before a scan that sends nothing more are the whole result |
| DumpScanner.EmitEmit | pkg/hibp/dump/scanner.go:215-257 | sending `a` and then `b` is sending `a + b` |
| DumpScanner.ValidDumps | pkg/hibp/dump/scanner.go:34-40 | a path is kept exactly when it was given and is a file; no more paths are kept than given |
| DumpScanner.ValidDumpsAppend | pkg/hibp/dump/scanner.go:35-40 | filtering distributes over concatenation, so the kept paths keep their order |
| DumpScanner.New | pkg/hibp/dump/scanner.go:33-48 | the scanner holds the given paths that are files, in order; the error "no valid dumps given" is returned exactly when none is a file |
| DumpScanner.SwapDown | pkg/hibp/dump/scanner.go:57 | exchanges two neighbours of the slice in place and changes nothing else |
| DumpScanner.InsertDown | pkg/hibp/dump/scanner.go:57 | one insertion step extends the sorted prefix by one and permutes the slice |
| DumpScanner.SortStrings | pkg/hibp/dump/scanner.go:57 | `sort.Strings`: afterwards the slice is sorted and a permutation of its old contents |
| DumpScanner.NormalizeQueries | pkg/hibp/dump/scanner.go:57-60 | the final queries are, position by position, the upper-cased elements of a sorted permutation of the original queries |
| DumpScanner.UpperCasingKeepsHexSorted | pkg/hibp/dump/scanner.go:57-60 | when all queries are hex in one case, the upper-cased list is still sorted, as the sorted scan needs |
| DumpScanner.Truncate | pkg/hibp/dump/scanner.go:151-153 | the truncated line is a prefix of the line, of length 40 or the line's length if shorter |
| DumpScanner.IsSorted | pkg/hibp/dump/scanner.go:101-161 | true exactly when the file can be read and none of its first 100 lines has a truncated hash below the one before it |
| DumpScanner.SampleSortedIgnoresTail | pkg/hibp/dump/scanner.go:146-148 | lines after the 100th never change the verdict |
| DumpScanner.SampleSorted | pkg/hibp/dump/scanner.go:141-160 | among the first 100 lines, no line truncated to 40 characters is below the line before it |
| DumpScanner.SecondLineOutOfOrder | pkg/hibp/dump/scanner.go:154-156 | a second line below the first makes the file unsorted, whatever follows |
| DumpScanner.SkipBelow | pkg/hibp/dump/scanner.go:254-256 | the query cursor passes exactly the queries below the line and stops at the first one that is not below it |
| DumpScanner.SortedScan | pkg/hibp/dump/scanner.go:236-257 | the merge-join as written: a panic at line 241 for a short trimmed line; a line whose hash equals the current query reports it and advances the query; any other line skips the queries below the whole line |
| DumpScanner.ScanSortedFile | pkg/hibp/dump/scanner.go:215-257 | with the nil query list, every line trimmed in file order; with a query list, the merge-join outcome, including its panic at line 241 |
| DumpScanner.SubsequenceOfLonger | pkg/hibp/dump/scanner.go:254-256 | a subsequence of a suffix is a subsequence of any longer suffix |
| DumpScanner.SubsequenceFacts | pkg/hibp/dump/scanner.go:243-251 | a subsequence is no longer than its sequence and all its elements come from it |
| DumpScanner.SortedScanSubsequence | pkg/hibp/dump/scanner.go:236-256 | a finished sorted scan reports a subsequence of the remaining queries, since the cursor only moves forward |
| DumpScanner.SortedScanBounded | pkg/hibp/dump/scanner.go:243-251 | a finished sorted scan reports at most one hash per query and only hashes that were asked for |
| DumpScanner.SortedScanStopsAtEnd | pkg/hibp/dump/scanner.go:236-238 | once the cursor is past the last query, no line is read or sliced and nothing more is sent |
| DumpScanner.SortedDumpTail | pkg/hibp/dump/scanner.go:254-256 | the rest of a dump sorted by hash is sorted by hash |
| DumpScanner.FirstHashBelowRest | pkg/hibp/dump/scanner.go:254-256 | in a dump sorted by hash, the first hash is below every later hash |
| DumpScanner.LineHash | pkg/hibp/dump/scanner.go:240-241 | the hash of a dump line: the first 40 characters of the trimmed line |
| DumpScanner.CorrectedSortedScan | pkg/hibp/dump/scanner.go:236-257 | the merge-join with the skip corrected: skip the queries below the line's hash, then report the line's hash when the query reached equals it |
| DumpScanner.SortedFrom | pkg/hibp/dump/scanner.go:57 | in the sorted query list no query is below an earlier one |
| DumpScanner.SkipReachesOwnHash | pkg/hibp/dump/scanner.go:254-256 | after skipping the queries below a hash, the cursor is on that hash exactly when the hash is still among the queries |
| DumpScanner.SkipKeepsLarger | pkg/hibp/dump/scanner.go:254-256 | skipping the queries below a hash never passes a query above that hash |
| DumpScanner.DumpHashesCons | pkg/hibp/dump/scanner.go:240-241 | the hashes of a dump are the first line's hash plus the hashes of the rest |
| DumpScanner.SortedScanSound | pkg/hibp/dump/scanner.go:236-257 | every hash the sorted scan as written reports is the hash of one of the dump's lines |
| DumpScanner.MatchesStep | pkg/hibp/dump/scanner.go:243-256 | one step of the corrected scan reports exactly the remaining queries among the current hash and the later hashes |
| DumpScanner.CorrectedStep | pkg/hibp/dump/scanner.go:240-256 | one step of the corrected scan on a line that has a hash |
| DumpScanner.CorrectedSortedScanComplete | pkg/hibp/dump/scanner.go:215-257 | for a sorted dump and a sorted query list the corrected scan finishes and reports exactly the queries the dump holds |
| DumpScanner.StepFacts | pkg/hibp/dump/scanner.go:240-256 | given the rest of the dump's report, the whole dump reports the line's hash first exactly when the cursor reaches it; the dump's hashes are the first line's and the rest's |
| DumpScanner.RecHash | pkg/hibp/dump/scanner.go:241 | an example hash is 40 characters long and starts with the given digit |
| DumpScanner.Rec | pkg/hibp/dump/scanner.go:240-241 | an example record is its hash, ':' and a count |
| DumpScanner.RecLineHash | pkg/hibp/dump/scanner.go:240-241 | trimming an example record leaves it longer than a hash, and its first 40 characters are its hash |
| DumpScanner.RecOrder | pkg/hibp/dump/scanner.go:254 | example hashes are ordered like their leading digits |
| DumpScanner.SkipsOwnHash | pkg/hibp/dump/scanner.go:243-256 | for queries `[h1, h2]` with `h1 < h2` and a one-line dump holding `h2`, the scan as written reports nothing, while the corrected scan reports `h2` |
| DumpScanner.SortedScanSkipsOwnHash | pkg/hibp/dump/scanner.go:254-256 | the same with concrete records: queries `1…` and `2…`, and the dump `[2…:1]` |
| DumpScanner.Matcher | pkg/hibp/dump/scanner.go:342-366 | the matcher's outcome over the lines it receives, including its panic at line 357 |
| DumpScanner.UnsortedScan | pkg/hibp/dump/scanner.go:342-366 | what matcher sends for its lines in order: a panic at line 357 for a line shorter than 40 characters once trimmed and upper-cased, otherwise that line's first 40 characters when some query equals them |
| DumpScanner.UnsortedScanAt | pkg/hibp/dump/scanner.go:356-363 | one line of the membership scan: a short line panics, otherwise its hash is sent when it is a query, before the report of the later lines |
| DumpScanner.IsCandidate | pkg/hibp/dump/scanner.go:358-363 | the inner loop finds a query equal to the hash exactly when there is one |
| DumpScanner.UnsortedScanMatches | pkg/hibp/dump/scanner.go:356-363 | a finished membership scan sends at most one hash per line; a hash is sent exactly when it is a query and some line's trimmed, upper-cased first 40 characters equal it |
| DumpScanner.UnsortedScanCons | pkg/hibp/dump/scanner.go:356-363 | in a finished scan the first line has a hash, the later lines finish too, and the first line's report comes first |
| DumpScanner.UnsortedScanLength | pkg/hibp/dump/scanner.go:356-363 | a finished scan sends at most one hash per line |
| DumpScanner.UnsortedScanMember | pkg/hibp/dump/scanner.go:356-363 | in a finished scan, a given hash is sent exactly when it is a query and some line carries it |
| DumpScanner.UnsortedScanAppend | pkg/hibp/dump/scanner.go:312-337 | scanning a prefix and then a suffix of the lines gives the same outcome as scanning all of them |
| DumpScanner.Pick | pkg/hibp/dump/scanner.go:312-337 | the lines one of two workers receives from the shared channel, by a per-line choice of worker; never more lines than were sent |
| DumpScanner.PickPartition | pkg/hibp/dump/scanner.go:312-337 | the two workers together receive every line exactly once |
| DumpScanner.UnsortedScanFront | pkg/hibp/dump/scanner.go:356-363 | the scan of a line in front of others: a panic for a short line, else the line's report before the rest's |
| DumpScanner.SplitStep | pkg/hibp/dump/scanner.go:312-337 | handing one more line to either worker keeps the whole scan's outcome the two workers' outcomes together |
| DumpScanner.UnsortedScanSplit | pkg/hibp/dump/scanner.go:312-337 | for any interleaved distribution of the lines between two workers, the whole scan finishes exactly when both workers' scans do, and its matches are the two workers' matches together, counted with multiplicity |
| DumpScanner.ScanFile | pkg/hibp/dump/scanner.go:86-99 | a file that passes the sample gets the merge-join scan, any other readable file the membership scan, and an unreadable file sends nothing |
| DumpScanner.FileScan | pkg/hibp/dump/scanner.go:86-99 | one dump's report: nothing when the file cannot be read, the sorted scan when its sample looks sorted, the membership scan otherwise |
| DumpScanner.AllFilesScan | pkg/hibp/dump/scanner.go:66-83 | the reports of all dumps one after the other, stopping at the first panic |
| DumpScanner.FileHolds | pkg/hibp/dump/scanner.go:86-99 | a dump carries a hash as its scan path reads it: the trimmed line's hash on the sorted path, the trimmed and upper-cased line's on the membership path |
| DumpScanner.FileScanSound | pkg/hibp/dump/scanner.go:86-99 | every hash one dump's scan reports is a query the dump holds |
| DumpScanner.AllFilesScanSound | pkg/hibp/dump/scanner.go:52-84 | every hash the scan of all dumps reports, and so every hash LookupBatch returns, is a query that some listed dump holds |
| DumpScanner.LookupBatch | pkg/hibp/dump/scanner.go:52-84 | an empty batch scans nothing and returns nothing; otherwise the caller's queries end up as the upper-cased copy of a sorted permutation of themselves, and the result is every dump's scan with those queries, dump after dump |
| DumpMerger.Receive | pkg/hibp/dump/merger.go:46-47 | a receive yields the next line with ok set, or "" with ok false once the stream is drained |
| DumpMerger.Collapse | pkg/hibp/dump/merger.go:68-73 | the collapsed record keeps the hash, puts ':' after it, and takes whichever count field is larger, so it is below neither count |
| DumpMerger.AllSampleSorted | pkg/hibp/dump/merger.go:12-16 | every dump can be read and passes isSorted's sample |
| DumpMerger.MergeLoop | pkg/hibp/dump/merger.go:45-51 | the top of the loop: receive one line from each side and stop when both are closed, else go on to the left catch-up |
| DumpMerger.LeftCatchUp | pkg/hibp/dump/merger.go:52-59 | the left catch-up loop: a panic at line 53 when either hash slice is short; while the left hash is smaller or the right side is closed, write the left line and receive the next |
| DumpMerger.RightCatchUp | pkg/hibp/dump/merger.go:60-67 | the right catch-up loop, the mirror of the left one, with its panic at line 61 |
| DumpMerger.Settle | pkg/hibp/dump/merger.go:68-98 | the tests after the catch-up loops: equal hashes write one collapsed record (panics at 68-70 for short lines), one closed side writes the other's line, a smaller left hash writes both lines, and the branch at 93 is never taken |
| DumpMerger.MergeLines | pkg/hibp/dump/merger.go:45-99 | the loop's output, or the line whose slice panics |
| DumpMerger.Trimmed | pkg/hibp/dump/merger.go:37-43 | each stream is the file's lines, trimmed, in order |
| DumpMerger.Merge | pkg/hibp/dump/merger.go:11-102 | an input that fails the sample refuses the merge first; any number of inputs other than two refuses it next; otherwise the output is named with ".gz" appended when missing and holds the loop's result over the two trimmed streams |
| DumpMerger.HashesOfCons | pkg/hibp/dump/merger.go:54 | the hashes of a line followed by more lines |
| DumpMerger.HashesOfFrom | pkg/hibp/dump/merger.go:55 | the hashes of the stream from a position on are that line's hash plus the later ones |
| DumpMerger.LoopKeepsInputs | pkg/hibp/dump/merger.go:45-51 | from the top of the loop, a finished run writes exactly the hashes of the unread lines, and every line it writes comes from the inputs |
| DumpMerger.LeftKeepsInputs | pkg/hibp/dump/merger.go:53-59 | from the left catch-up loop, a finished run writes exactly the hashes still pending, and only lines that come from the inputs |
| DumpMerger.RightKeepsInputs | pkg/hibp/dump/merger.go:61-67 | the same from the right catch-up loop |
| DumpMerger.SettleKeepsInputs | pkg/hibp/dump/merger.go:68-98 | the same from the tail of the loop body, once the right hash is not below the left one |
| DumpMerger.MergeKeepsInputs | pkg/hibp/dump/merger.go:45-99 | a merge that finishes writes exactly the hashes of its two inputs, no more and no fewer; each line it writes is an input line or the collapse of two input lines with the same hash |
| DumpMerger.EqualHashesCollapse | pkg/hibp/dump/merger.go:68-75 | two live lines with the same hash are written once, as the hash with the larger count, and both streams move on |
| DumpMerger.LineNinetyThreeUnreachable | pkg/hibp/dump/merger.go:87-98 | at the tail of the body, two live lines with different hashes are always written left then right, so the branch at lines 93-97 is never taken |
| DumpMerger.DrainedSidePanics | pkg/hibp/dump/merger.go:53-68 | once one stream is drained and the other is not, the drained side's "" is sliced: the panic comes at line 53, 61 or 68 |
| DumpMerger.MergeWithItself | pkg/hibp/dump/merger.go:45-99 | merging a dump of `hash:count` records with itself reproduces it line for line |
| DumpMerger.UnevenEndPanics | pkg/hibp/dump/merger.go:53-67 | the inputs `[1…]` and `[2…]` panic at line 61 |
| DumpMerger.UnevenInputsCanFinish | pkg/hibp/dump/merger.go:45-98 | different lengths alone do not crash the merge: left [3…:1] with right [2…:1, 4…:1] writes 2, 3 and 4 and finishes, because both streams close at the same top of the loop |
| DumpMerger.OvertakingRun | pkg/hibp/dump/merger.go:53-91 | for left `[a,c,d,g]` and right `[b,e,f,g]`, with hashes rising from a to g, the loop writes a,b,c,e,d,f,g |
| DumpMerger.MergeOutputCanBeUnsorted | pkg/hibp/dump/merger.go:87-91 | the inputs `1,3,4,7` and `2,5,6,7` give `1,2,3,5,4,6,7`, in which 5 comes before the smaller 4 |
| DumpMerger.IntendedMerge | pkg/hibp/dump/merger.go:45-98 | the corrected merge writes only records, and its first record has the first hash of one of its inputs |
| DumpMerger.HashesOfIndex | pkg/hibp/dump/merger.go:45-98 | a hash of a stream is the hash of one of its lines |
| DumpMerger.FirstBelowRest | pkg/hibp/dump/merger.go:53 | in a stream sorted by hash the first hash is below every later one |
| DumpMerger.SortedByHashTail | pkg/hibp/dump/merger.go:55 | the rest of a stream sorted by hash is sorted by hash |
| DumpMerger.IntendedMergeHashes | pkg/hibp/dump/merger.go:45-98 | the corrected merge writes exactly the hashes of both inputs, including when one input ends first |
| DumpMerger.SortedCons | pkg/hibp/dump/merger.go:87-89 | a record below every hash of a sorted stream can go in front of it |
| DumpMerger.HashesOfMember | pkg/hibp/dump/merger.go:45-98 | every line's hash is among the stream's hashes |
| DumpMerger.IntendedMergeSorted | pkg/hibp/dump/merger.go:45-98 | merging two streams sorted by hash gives a stream sorted by hash |
| DumpMerger.IntendedMergeUnevenEnd | pkg/hibp/dump/merger.go:53-67 | on the inputs `[1…]` and `[2…]` the corrected merge writes both records in order |
| HibpDownloader.HexDigit | pkg/hibp/api/downloader.go:143 | a digit below 16 is written as an upper-case hex character |
| HibpDownloader.HexDigitValue | pkg/hibp/api/downloader.go:143 | the hex character of a digit reads back as that digit |
| HibpDownloader.DigitValue | pkg/hibp/api/downloader.go:143 | an upper-case hex character stands for a value below 16 |
| HibpDownloader.ParseHexSnoc | pkg/hibp/api/downloader.go:143 | appending a hex digit multiplies the value by 16 and adds the digit |
| HibpDownloader.HexStep | pkg/hibp/api/downloader.go:143 | appending the last hex digit of n to the hex form of n/16 reads back as n |
| HibpDownloader.HexString | pkg/hibp/api/downloader.go:143 | `%X` gives at least one digit |
| HibpDownloader.HexStringValue | pkg/hibp/api/downloader.go:143 | `%X` gives an upper-case hex string whose value is the number |
| HibpDownloader.HexStringLength | pkg/hibp/api/downloader.go:143-144 | a number below 16^k has at most k hex digits, so a chunk number has at most five |
| HibpDownloader.Repeat | pkg/hibp/api/downloader.go:144 | the repeated string has the requested length and only the given character |
| HibpDownloader.ParseHexLeadingZeros | pkg/hibp/api/downloader.go:144 | leading zeros do not change the value |
| HibpDownloader.ZerosParseToZero | pkg/hibp/api/downloader.go:144 | a string of zeros has value zero |
| HibpDownloader.ChunkPrefix | pkg/hibp/api/downloader.go:143-144 | every chunk below 1024*1024 gets a prefix of exactly five characters |
| HibpDownloader.ChunkPrefixValue | pkg/hibp/api/downloader.go:143-144 | the prefix is upper-case hex and its value is the chunk number, leading zeros included |
| HibpDownloader.ChunkName | pkg/hibp/api/downloader.go:146 | the chunk's file name: its prefix followed by ".gz" |
| HibpDownloader.DigitOrder | pkg/hibp/api/downloader.go:143 | Go's order on single upper-case hex digits is the order of their values |
| HibpDownloader.HexOrder | pkg/hibp/api/downloader.go:143-144 | for hex strings of equal length, Go's order is numeric order and equality is equal value, both ways |
| HibpDownloader.ChunkPrefixOrder | pkg/hibp/api/downloader.go:143-144 | prefixes sort like their chunk numbers, both ways |
| HibpDownloader.ChunkNamePassesFilter | pkg/hibp/api/downloader.go:97-107 | every chunk file name passes the name filter of joinChunks |
| HibpDownloader.ChunkNameOrder | pkg/hibp/api/downloader.go:146 | chunk file names sort like their chunk numbers, and two chunks share a name only if they are the same chunk |
| HibpDownloader.FilterBody | pkg/hibp/api/downloader.go:187-193 | the lines written for a body are those of the filter specification applied to its newline-separated pieces |
| HibpDownloader.KeepLine | pkg/hibp/api/downloader.go:188-192 | one body line: trimmed, dropped when shorter than 37 characters, else written after the prefix |
| HibpDownloader.ChunkLines | pkg/hibp/api/downloader.go:187-193 | the lines written for the body lines, in order |
| HibpDownloader.ChunkLinesAppend | pkg/hibp/api/downloader.go:187-193 | the filter works line by line: the output for two runs of pieces is the output for each, in order |
| HibpDownloader.ChunkLinesLength | pkg/hibp/api/downloader.go:187-193 | the filter writes at most one line per body line |
| HibpDownloader.ChunkLinesSound | pkg/hibp/api/downloader.go:187-193 | every line written is the prefix followed by some body line trimmed to at least 37 characters |
| HibpDownloader.ChunkLinesCompleteAt | pkg/hibp/api/downloader.go:187-193 | a given body line that is at least 37 characters once trimmed is written with the prefix |
| HibpDownloader.ChunkLinesComplete | pkg/hibp/api/downloader.go:187-193 | every body line that is at least 37 characters once trimmed is written with the prefix |
| HibpDownloader.ChunkLinesExactly | pkg/hibp/api/downloader.go:187-193 | at most one line per body line; a line is written exactly when it is the prefix and a body line trimmed to at least 37 characters |
| HibpDownloader.ChunkLinesHaveHashes | pkg/hibp/api/downloader.go:189-192 | with a five-digit prefix every written line has at least 42 characters, enough for a 40-character hash and ':' |
| HibpDownloader.FetchError | pkg/hibp/api/downloader.go:164-201 | no error exactly when the final response is 200 or 404; otherwise the transport error, or "HTTP request failed: " with the status and body |
| HibpDownloader.ChunkContent | pkg/hibp/api/downloader.go:174-195 | the chunk file's content after the exchange: the filtered body for status 200, empty for 404, any other status or a failed request |
| HibpDownloader.StageChunk | pkg/hibp/api/downloader.go:142-202 | downloadChunk's effect on the staging directory: with keep set and the file present nothing changes, otherwise the chunk's file is truncated and gets the chunk's content |
| HibpDownloader.OnlyOkWrites | pkg/hibp/api/downloader.go:174-185 | a chunk file has content only after a 200 response; a 404 leaves it empty and reports no error |
| HibpDownloader.DownloadChunk | pkg/hibp/api/downloader.go:142-202 | with keep set and the file present, nothing changes and there is no error; otherwise the chunk's file is rewritten with the filtered body (empty unless the response was 200) and the exchange's error is returned |
| HibpDownloader.LeastExists | pkg/hibp/api/downloader.go:81 | a non-empty set of names has a least name |
| HibpDownloader.LeastUnique | pkg/hibp/api/downloader.go:81 | a set has at most one least name |
| HibpDownloader.SortedNamesStep | pkg/hibp/api/downloader.go:81 | the sorted listing starts with the least name, followed by the listing of the rest |
| HibpDownloader.SortedNamesFacts | pkg/hibp/api/downloader.go:81 | the listing is strictly sorted and holds exactly the directory's names |
| HibpDownloader.SortedNamesMember | pkg/hibp/api/downloader.go:81 | every listed name is a name of the directory |
| HibpDownloader.SortedNames | pkg/hibp/api/downloader.go:81 | os.ReadDir's listing: the directory's names in increasing order |
| HibpDownloader.SameElementsBothEmpty | pkg/hibp/api/downloader.go:81 | two listings of the same names are empty together |
| HibpDownloader.StrictlySortedUnique | pkg/hibp/api/downloader.go:81 | two strictly sorted listings of the same names are the same listing |
| HibpDownloader.ReadDir | pkg/hibp/api/downloader.go:81 | the directory's names in sorted order |
| HibpDownloader.NameFilter | pkg/hibp/api/downloader.go:99-107 | the filter of joinChunks: eight characters, no leading '.', ending in ".gz" |
| HibpDownloader.Piece | pkg/hibp/api/downloader.go:97-110 | what one listed entry adds to the output: its content when it passes the filter, nothing otherwise |
| HibpDownloader.Assemble | pkg/hibp/api/downloader.go:80-121 | the output of joinChunks: the pieces of the listed entries, in listing order |
| HibpDownloader.JoinChunks | pkg/hibp/api/downloader.go:80-121 | the output is the concatenation, in listing order, of the entries that pass the name filter; the staging directory is kept exactly when keep is set |
| HibpDownloader.AssembleSnoc | pkg/hibp/api/downloader.go:97-108 | one more listed entry adds its piece, the entry's content when it passes the filter and nothing otherwise, after what came before |
| HibpDownloader.OutputPathSuffix | pkg/hibp/api/downloader.go:30-35 | the output path always ends in ".gz"; a path that already does is kept as given; any other file path gets ".gz" appended; a directory gets the dated default name, which already ends in ".gz" |
| HibpDownloader.Download | pkg/hibp/api/downloader.go:26-78 | an empty path is refused with "need output path"; otherwise every chunk 0 … 1024*1024-1 is staged, the chunks are joined into the normalised output path, and the staging directory is kept only when keep is set |
| HibpDownloader.DefaultName | pkg/hibp/api/downloader.go:31 | the dated default file name used when the output path is a directory |
| HibpDownloader.JoinPath | pkg/hibp/api/downloader.go:31 | filepath.Join of the directory and the file name, without path cleaning |
| HibpDownloader.OutputPath | pkg/hibp/api/downloader.go:27-35 | the normalised output path: the dated default name inside a directory, then ".gz" appended unless present |
| HibpDownloader.DownloadAll | pkg/hibp/api/downloader.go:50-63 | running downloadChunk for every chunk 0 … 1024*1024-1 in turn leaves the staging directory of all chunks staged |
| HibpDownloader.StageAllFrame | pkg/hibp/api/downloader.go:50-63 | downloading the first n chunks adds exactly their files; every other entry is left alone; with keep set, no existing entry changes |
| HibpDownloader.StageAll | pkg/hibp/api/downloader.go:50-63 | the staging directory after downloadChunk has run for chunks 0 … n-1 in chunk order |
| HibpDownloader.StageChunkAt | pkg/hibp/api/downloader.go:142-202 | staging one chunk adds only that chunk's file name and leaves every other entry as it was; with keep set an existing file is left alone, otherwise the chunk's file holds the chunk's content |
| HibpDownloader.StageAllAt | pkg/hibp/api/downloader.go:50-63 | after the first n chunks, a name is present exactly when it was before or is one of their names; other names are left alone; with keep set no existing entry changes |
| HibpDownloader.StageAllOwn | pkg/hibp/api/downloader.go:50-63 | from an empty directory, each of the first n chunks leaves its file holding that chunk's content |
| HibpDownloader.ChunkNames | pkg/hibp/api/downloader.go:50 | the chunk file names of chunks 0 … n-1, in chunk order |
| HibpDownloader.ChunkNamesSnoc | pkg/hibp/api/downloader.go:50 | the names of one more chunk are the earlier names followed by the new chunk's name |
| HibpDownloader.StageAllFresh | pkg/hibp/api/downloader.go:50-63 | starting from an empty directory, the first n chunks leave exactly their files, each holding its chunk's content |
| HibpDownloader.ChunkNamesSorted | pkg/hibp/api/downloader.go:81 | the chunk names in chunk order are strictly sorted |
| HibpDownloader.AssembleChunks | pkg/hibp/api/downloader.go:97-108 | joining the chunk files in chunk order gives the chunks' contents one after the other |
| HibpDownloader.ConcatChunks | pkg/hibp/api/downloader.go:97-110 | the contents of chunks 0 … n-1 one after the other |
| HibpDownloader.FreshDownloadInChunkOrder | pkg/hibp/api/downloader.go:50-71 | a download into an empty staging directory produces the chunks' contents in chunk order, which is ascending hash-prefix order |

## Left out

- Compression: gzip and 7z decoding and encoding are not modelled. A file is
  modelled by its decoded lines. An archive that cannot be opened is a
  missing entry.
- Buffered scanning: `bufio.Scanner` is taken to split lines on '\n' and
  to drop a '\r' before it; files are given already split into lines. Its
  64 KiB token limit is not modelled, and neither is any stop on a read error.
- Concurrency:
  - goroutines, channels, `sync.WaitGroup` and the download semaphore are not
    modelled;
  - scanFile runs the dumps one after the other;
  - LookupBatch collects results in dump order;
  - the downloader stages chunks in chunk order.

  `DumpScanner.UnsortedScanSplit` shows, for any interleaved split of the
  lines between two matcher workers, that the whole scan finishes exactly
  when both workers' scans do and that the matches are the same multiset.
  Splitting one worker's lines again the same way covers the
  `runtime.NumCPU()` workers of scanner.go:313-317. The model does not
  capture the order in which goroutines actually deliver results.
- Cancellation: every `ctx.Done()` check is left out. Each scan runs to the
  end of its file or to its first panic.
- Logging, progress bars and `fmt.Printf` output are left out, and so are
  the error messages printed for files that cannot be opened.
- HTTP: `http.Get`, the backoff retry loop and its 10-second limit are left
  out. Each chunk is given the single exchange that ends the retry loop, as
  a `Fetch`. A response whose body cannot be read counts as a transport
  failure.
- I/O errors: `os.MkdirAll`, `os.OpenFile`, `copyChunk` and `os.RemoveAll`
  are taken to succeed. The file system is a map from file names to lines.
  Creating the staging directory next to the output file is not modelled.
  Removing it is modelled as the staging result `None`.
- `time.Now`: the date is a parameter of `Download`.
- HibpDownloader.JoinPath: `filepath.Join`'s cleaning of `.`, `..` and
  repeated separators is not modelled. The model puts exactly one '/'
  between the directory and the name.
- GoStrings.ToUpper: only ASCII letters are upper-cased, and the same holds
  for GoStrings.UpperChar, which ToUpper applies to each character. Unicode
  case mapping is not modelled, which matters only for non-hex queries.
- Byte strings: strings are sequences of characters, not bytes. Dump lines
  are ASCII, and on ASCII text the two agree.
- The rest of the repository is not part of this model: the HIBP range API
  client, the single-hash lookup and the command-line front end.

## Findings

| source | as written | input that shows it | evidently intended | confidence | as-written member | corrected member |
|---|---|---|---|---|---|---|
| pkg/hibp/dump/merger.go:53-68 | when one receive reports its input closed while the other side still holds a line, the next `[:40]` slice of the closed side's `""` panics (line 53, 61 or 68); different lengths alone do not crash the merge (`DumpMerger.UnevenInputsCanFinish`) | left `[1…:1]`, right `[2…:1]` (hashes of 40 characters): the left side drains in the left catch-up loop and line 61 slices `""` | when one input runs out, copy the rest of the other | not executed | DumpMerger.UnevenEndPanics | DumpMerger.IntendedMergeHashes |
| pkg/hibp/dump/merger.go:87-91 | when the left hash is smaller, lines 88-89 write both lines at once, although the next left line may be below the right one | left `1,3,4,7`, right `2,5,6,7` give `1,2,3,5,4,6,7` | write only the smaller line and keep the larger one for the next round, so the output is sorted | not executed | DumpMerger.MergeOutputCanBeUnsorted | DumpMerger.IntendedMergeSorted |
| pkg/hibp/dump/scanner.go:254-256 | the cursor skips the queries below the whole `hash:count` line, which include the line's own hash, before that hash has been compared with the line | queries `[1…, 2…]`, dump `[2…:1]`: no match is reported | skip the queries below the line's hash, then compare the line with the query reached | not executed | DumpScanner.SortedScanSkipsOwnHash | DumpScanner.CorrectedSortedScanComplete |
