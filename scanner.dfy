/**
  The line-level logic of the HIBP dump scanner (pkg/hibp/dump/scanner.go):
  choosing the dump files, normalising the query list, the 100-line
  sortedness sample, the merge-join scan of a sorted dump and the membership
  scan of an unsorted one.

  A dump is modelled by its decoded lines (after gzip or 7z decoding, split by
  the line scanner); `Files` maps each readable path to them, and a path that
  cannot be opened or decoded is absent. Slicing a line shorter than 40
  characters panics in Go; here it yields `Crash`, carrying the source line of
  the slice.
*/
module DumpScanner {
  import opened Wrappers
  import opened GoStrings

  /** Decoded lines of every dump that can be opened. */
  type Files = map<string, seq<string>>

  /** Characters of a SHA-1 hash in hex. */
  const HashLen: nat := 40
  /** Lines the sortedness heuristic inspects. */
  const SampleLines: nat := 100

  /** The scanner keeps the dump paths that were files when it was made. */
  datatype Scanner = Scanner(dumps: seq<string>)

  /** What a scan sends on its results channel, or the panic that ends the
      program first (`at` is the source line that panics). */
  datatype Outcome = Done(matches: seq<string>) | Crash(at: nat)

  /** `pre` was sent before the scan went on to `rest`. */
  function Emit(pre: seq<string>, rest: Outcome): Outcome
  {
    match rest
    case Done(m) => Done(pre + m)
    case Crash(at) => Crash(at)
  }

  /** Run `first`, and only when it finishes run `second` after it. */
  function Then(first: Outcome, second: Outcome): Outcome
  {
    match first
    case Done(m) => Emit(m, second)
    case Crash(_) => first
  }

  lemma EmitNothing(o: Outcome)
    ensures Emit([], o) == o
  {
    if o.Done? {
      assert [] + o.matches == o.matches;
    }
  }

  lemma EmitAll(out: seq<string>)
    ensures Emit(out, Done([])) == Done(out)
  {
    assert out + [] == out;
  }

  lemma EmitEmit(a: seq<string>, b: seq<string>, o: Outcome)
    ensures Emit(a, Emit(b, o)) == Emit(a + b, o)
  {
    if o.Done? {
      assert a + (b + o.matches) == (a + b) + o.matches;
    }
  }

  // ---------------------------------------------------------------------------
  // New: keep the paths that are files
  // ---------------------------------------------------------------------------

  /** The paths of `dumps` for which `isFile` holds, in their original order. */
  function ValidDumps(dumps: seq<string>, isFile: string -> bool): (r: seq<string>)
    ensures forall x :: x in r <==> x in dumps && isFile(x)
    ensures |r| <= |dumps|
  {
    if dumps == [] then []
    else
      var init := ValidDumps(dumps[..|dumps| - 1], isFile);
      var last := dumps[|dumps| - 1];
      assert dumps == dumps[..|dumps| - 1] + [last];
      if isFile(last) then init + [last] else init
  }

  /** Filtering distributes over concatenation: the kept paths keep their
      relative order. */
  lemma {:induction false} ValidDumpsAppend(a: seq<string>, b: seq<string>, isFile: string -> bool)
    ensures ValidDumps(a + b, isFile) == ValidDumps(a, isFile) + ValidDumps(b, isFile)
    decreases |b|
  {
    if b != [] {
      var b' := b[..|b| - 1];
      assert (a + b)[..|a + b| - 1] == a + b';
      assert (a + b)[|a + b| - 1] == b[|b| - 1];
      ValidDumpsAppend(a, b', isFile);
    } else {
      assert a + b == a;
    }
  }

  /** New(dumps...): the scanner over the paths that are files, or the error
      "no valid dumps given" when none is. */
  method New(dumps: seq<string>, isFile: string -> bool) returns (r: Result<Scanner>)
    ensures r.Ok? ==> r.value.dumps == ValidDumps(dumps, isFile)
    ensures r.Err? <==> forall x :: x in dumps ==> !isFile(x)
    ensures r.Err? ==> r.msg == "no valid dumps given"
  {
    var ok: seq<string> := [];
    for i := 0 to |dumps|
      invariant ok == ValidDumps(dumps[..i], isFile)
    {
      assert dumps[..i + 1][..i] == dumps[..i];
      if !isFile(dumps[i]) {
        continue;
      }
      ok := ok + [dumps[i]];
    }
    assert dumps[..|dumps|] == dumps;
    if |ok| < 1 {
      return Err("no valid dumps given");
    }
    assert ok[0] in dumps && isFile(ok[0]);
    return Ok(Scanner(ok));
  }

  // ---------------------------------------------------------------------------
  // LookupBatch's normalisation of the query list
  // ---------------------------------------------------------------------------

  /** Ascending in Go's string order, judged pair by adjacent pair. */
  predicate Sorted(s: seq<string>)
  {
    forall k :: 0 < k < |s| ==> !Less(s[k], s[k - 1])
  }

  /** Exchanges `a[j - 1]` and `a[j]`. */
  method SwapDown(a: array<string>, j: int)
    requires 0 < j < a.Length
    modifies a
    ensures a[j - 1] == old(a[j]) && a[j] == old(a[j - 1])
    ensures forall k :: 0 <= k < a.Length && k != j - 1 && k != j ==> a[k] == old(a[k])
    ensures multiset(a[..]) == old(multiset(a[..]))
  {
    a[j - 1], a[j] := a[j], a[j - 1];
  }

  /** Moves `a[i]` down into the sorted prefix `a[..i]`. */
  method InsertDown(a: array<string>, i: int)
    requires 0 <= i < a.Length
    requires forall k :: 0 < k < i ==> !Less(a[k], a[k - 1])
    modifies a
    ensures forall k :: 0 < k <= i ==> !Less(a[k], a[k - 1])
    ensures multiset(a[..]) == old(multiset(a[..]))
  {
    var j := i;
    while j > 0 && Less(a[j], a[j - 1])
      invariant 0 <= j <= i
      invariant forall k :: 0 < k <= i && k != j ==> !Less(a[k], a[k - 1])
      invariant 0 < j < i ==> !Less(a[j + 1], a[j - 1])
      invariant multiset(a[..]) == old(multiset(a[..]))
    {
      LessAsymmetric(a[j], a[j - 1]);
      SwapDown(a, j);
      j := j - 1;
    }
  }

  /** sort.Strings: sorts the slice in place (an insertion sort stands for
      the library's algorithm; only its result matters). */
  method SortStrings(a: array<string>)
    modifies a
    ensures Sorted(a[..])
    ensures multiset(a[..]) == old(multiset(a[..]))
  {
    var i := 0;
    while i < a.Length
      invariant 0 <= i <= a.Length
      invariant forall k :: 0 < k < i ==> !Less(a[k], a[k - 1])
      invariant multiset(a[..]) == old(multiset(a[..]))
    {
      InsertDown(a, i);
      i := i + 1;
    }
  }

  /** Sorts the queries, then upper-cases each in place. `sorted` is the list
      between the two steps: a sorted permutation of the input, of which the
      final list is the upper-cased copy. */
  method NormalizeQueries(a: array<string>) returns (ghost sorted: seq<string>)
    modifies a
    ensures Sorted(sorted) && multiset(sorted) == old(multiset(a[..]))
    ensures |sorted| == a.Length
    ensures forall k :: 0 <= k < a.Length ==> a[k] == ToUpper(sorted[k])
  {
    SortStrings(a);
    sorted := a[..];
    for i := 0 to a.Length
      invariant forall k :: 0 <= k < i ==> a[k] == ToUpper(sorted[k])
      invariant forall k :: i <= k < a.Length ==> a[k] == sorted[k]
    {
      a[i] := ToUpper(a[i]);
    }
  }

  /** Upper-casing a sorted list of hex strings that are all written in one
      case keeps it sorted, so the merge-join still sees ascending queries. */
  lemma UpperCasingKeepsHexSorted(sorted: seq<string>, upper: seq<string>)
    requires Sorted(sorted)
    requires (forall x :: x in sorted ==> IsLowerHex(x)) || (forall x :: x in sorted ==> IsUpperHex(x))
    requires |upper| == |sorted| && forall k :: 0 <= k < |sorted| ==> upper[k] == ToUpper(sorted[k])
    ensures Sorted(upper)
  {
    forall k | 0 < k < |upper|
      ensures !Less(upper[k], upper[k - 1])
    {
      if forall x :: x in sorted ==> IsLowerHex(x) {
        ToUpperKeepsLowerHexOrder(sorted[k], sorted[k - 1]);
      } else {
        ToUpperOfUpperHex(sorted[k]);
        ToUpperOfUpperHex(sorted[k - 1]);
      }
    }
  }

  // ---------------------------------------------------------------------------
  // isSorted: the 100-line sample
  // ---------------------------------------------------------------------------

  /** A line cut to its first 40 characters when it is longer. */
  function Truncate(line: string): (r: string)
    ensures |r| == if |line| > HashLen then HashLen else |line|
    ensures HasPrefix(line, r)
  {
    if |line| > HashLen then line[..HashLen] else line
  }

  /** No line among the first 100 has a truncated hash smaller than the
      truncated line before it. */
  predicate SampleSorted(lines: seq<string>)
  {
    forall k :: 0 < k < |lines| && k < SampleLines ==> !Less(Truncate(lines[k]), Truncate(lines[k - 1]))
  }

  /** isSorted(fn): false when the file cannot be read; otherwise true exactly
      when the first 100 lines are in order by their first 40 characters. */
  method IsSorted(file: Option<seq<string>>) returns (sorted: bool)
    ensures sorted <==> file.Some? && SampleSorted(file.value)
  {
    if file.None? {
      return false;
    }
    var lines := file.value;
    var lineNo := 0;
    var lastLine := "";
    while lineNo < |lines|
      invariant lineNo <= |lines| && lineNo <= SampleLines
      invariant lastLine == if lineNo == 0 then "" else Truncate(lines[lineNo - 1])
      invariant forall k :: 0 < k < lineNo ==> !Less(Truncate(lines[k]), Truncate(lines[k - 1]))
    {
      lineNo := lineNo + 1;
      if lineNo > SampleLines {
        return true;
      }
      var line := lines[lineNo - 1];
      if |line| > HashLen {
        line := line[..HashLen];
      }
      if Less(line, lastLine) {
        return false;
      }
      lastLine := line;
    }
    return true;
  }

  /** Lines after the 100th never change the verdict. */
  lemma SampleSortedIgnoresTail(a: seq<string>, b: seq<string>)
    requires |a| >= SampleLines && |b| >= SampleLines && a[..SampleLines] == b[..SampleLines]
    ensures SampleSorted(a) <==> SampleSorted(b)
  {
    forall k | 0 <= k < SampleLines
      ensures a[k] == b[k]
    {
      assert a[k] == a[..SampleLines][k];
    }
  }

  /** A second line whose hash is below the first line's makes the file
      unsorted, however ordered the rest is. */
  lemma SecondLineOutOfOrder(lines: seq<string>)
    requires |lines| >= 2 && Less(Truncate(lines[1]), Truncate(lines[0]))
    ensures !SampleSorted(lines)
  {
  }

  // ---------------------------------------------------------------------------
  // scanSortedFile: the merge-join of a sorted dump with the query list
  // ---------------------------------------------------------------------------

  /** The cursor after `for i < len(in) && line > in[i] { i++ }`: the first
      query at or past `i` that is not below `line`. */
  function SkipBelow(line: string, q: seq<string>, i: nat): (j: nat)
    requires i <= |q|
    ensures i <= j <= |q|
    ensures forall k :: i <= k < j ==> Less(q[k], line)
    ensures j < |q| ==> !Less(q[j], line)
    decreases |q| - i
  {
    if i < |q| && Less(q[i], line) then SkipBelow(line, q, i + 1) else i
  }

  /** What scanSortedFile sends for the lines of a file with the query cursor
      at `i`: a match emits the hash and advances both cursors, otherwise the
      query cursor skips every query below the whole (trimmed) line. */
  function SortedScan(lines: seq<string>, q: seq<string>, i: nat): Outcome
    requires i <= |q|
    decreases |lines|
  {
    if lines == [] || i >= |q| then Done([])
    else
      var line := TrimSpace(lines[0]);
      if |line| < HashLen then Crash(241)
      else
        var hash := line[..HashLen];
        if hash == q[i] then Emit([hash], SortedScan(lines[1..], q, i + 1))
        else SortedScan(lines[1..], q, SkipBelow(line, q, i))
  }

  /** scanSortedFile: with a query list, the merge-join above; with the nil
      list (as the merger calls it), every line trimmed, in file order. */
  method ScanSortedFile(lines: seq<string>, query: Option<seq<string>>) returns (r: Outcome)
    ensures query.None? ==> r.Done? && |r.matches| == |lines|
    ensures query.None? ==> forall k :: 0 <= k < |lines| ==> r.matches[k] == TrimSpace(lines[k])
    ensures query.Some? ==> r == SortedScan(lines, query.value, 0)
  {
    var out: seq<string> := [];
    var i := 0;
    var lineNo := 0;
    assert lines[0..] == lines;
    if query.Some? {
      EmitNothing(SortedScan(lines, query.value, 0));
    }
    while lineNo < |lines|
      invariant lineNo <= |lines|
      invariant query.None? ==> |out| == lineNo
      invariant query.None? ==> forall k :: 0 <= k < lineNo ==> out[k] == TrimSpace(lines[k])
      invariant query.Some? ==> i <= |query.value|
      invariant query.Some? ==> SortedScan(lines, query.value, 0) == Emit(out, SortedScan(lines[lineNo..], query.value, i))
    {
      lineNo := lineNo + 1;
      if query.None? {
        out := out + [TrimSpace(lines[lineNo - 1])];
        continue;
      }
      var q := query.value;
      if i >= |q| {
        break;
      }
      assert lines[lineNo - 1..][1..] == lines[lineNo..];
      assert lines[lineNo - 1..][0] == lines[lineNo - 1];
      var line := TrimSpace(lines[lineNo - 1]);
      if |line| < HashLen {
        return Crash(241);
      }
      var hash := line[..HashLen];
      if hash == q[i] {
        EmitEmit(out, [hash], SortedScan(lines[lineNo..], q, i + 1));
        out := out + [hash];
        i := i + 1;
        continue;
      }
      ghost var skipped := SkipBelow(line, q, i);
      assert SortedScan(lines[lineNo - 1..], q, i) == SortedScan(lines[lineNo..], q, skipped);
      while i < |q| && Less(q[i], line)
        invariant i <= |q| && SkipBelow(line, q, i) == skipped
      {
        i := i + 1;
      }
    }
    if query.Some? {
      EmitAll(out);
    }
    return Done(out);
  }

  /** `m` can be obtained from `s` by deleting elements. */
  predicate IsSubsequence(m: seq<string>, s: seq<string>)
    decreases |s|
  {
    if m == [] then true
    else if s == [] then false
    else (m[0] == s[0] && IsSubsequence(m[1..], s[1..])) || IsSubsequence(m, s[1..])
  }

  lemma {:induction false} SubsequenceOfLonger(m: seq<string>, s: seq<string>, i: nat, j: nat)
    requires i <= j <= |s| && IsSubsequence(m, s[j..])
    ensures IsSubsequence(m, s[i..])
    decreases j - i
  {
    if i < j {
      assert s[j - 1..][1..] == s[j..];
      SubsequenceOfLonger(m, s, i, j - 1);
    }
  }

  lemma {:induction false} SubsequenceFacts(m: seq<string>, s: seq<string>)
    requires IsSubsequence(m, s)
    ensures |m| <= |s|
    ensures forall x :: x in m ==> x in s
    decreases |s|
  {
    if m != [] {
      if m[0] == s[0] && IsSubsequence(m[1..], s[1..]) {
        SubsequenceFacts(m[1..], s[1..]);
        assert m == [m[0]] + m[1..];
      } else {
        SubsequenceFacts(m, s[1..]);
      }
    }
  }

  /** The sorted scan only ever emits `q[i]` at strictly increasing cursor
      positions: its matches are a subsequence of the remaining queries. */
  lemma {:induction false} SortedScanSubsequence(lines: seq<string>, q: seq<string>, i: nat)
    requires i <= |q|
    ensures SortedScan(lines, q, i).Done? ==> IsSubsequence(SortedScan(lines, q, i).matches, q[i..])
    decreases |lines|
  {
    if lines != [] && i < |q| {
      var line := TrimSpace(lines[0]);
      if |line| >= HashLen {
        var hash := line[..HashLen];
        if hash == q[i] {
          SortedScanSubsequence(lines[1..], q, i + 1);
          assert q[i..][1..] == q[i + 1..];
        } else {
          var j := SkipBelow(line, q, i);
          SortedScanSubsequence(lines[1..], q, j);
          if SortedScan(lines, q, i).Done? {
            SubsequenceOfLonger(SortedScan(lines, q, i).matches, q, i, j);
          }
        }
      }
    }
  }

  /** Hence a sorted scan reports at most one match per query and nothing
      that was not asked for. */
  lemma SortedScanBounded(lines: seq<string>, q: seq<string>)
    requires SortedScan(lines, q, 0).Done?
    ensures |SortedScan(lines, q, 0).matches| <= |q|
    ensures forall x :: x in SortedScan(lines, q, 0).matches ==> x in q
  {
    SortedScanSubsequence(lines, q, 0);
    assert q[0..] == q;
    SubsequenceFacts(SortedScan(lines, q, 0).matches, q);
  }

  /** Once the cursor is past the last query no further line is read, so
      even a line that would panic is never sliced. */
  lemma SortedScanStopsAtEnd(lines: seq<string>, q: seq<string>)
    ensures SortedScan(lines, q, |q|) == Done([])
  {
  }

  // ---------------------------------------------------------------------------
  // The line the sorted scan skips, and the scan that does not
  // ---------------------------------------------------------------------------

  /** The hash of a dump line: the first 40 characters of the trimmed line. */
  function LineHash(line: string): string
    requires |TrimSpace(line)| >= HashLen
  {
    TrimSpace(line)[..HashLen]
  }

  /** Every trimmed line has a hash, and the hashes strictly increase. */
  predicate SortedDump(lines: seq<string>)
  {
    (forall k :: 0 <= k < |lines| ==> |TrimSpace(lines[k])| >= HashLen) &&
    (forall j, k :: 0 <= j < k < |lines| ==> Less(LineHash(lines[j]), LineHash(lines[k])))
  }

  /** The hashes of the lines of a dump. */
  function DumpHashes(lines: seq<string>): set<string>
  {
    if lines == [] then {}
    else (if |TrimSpace(lines[0])| >= HashLen then {LineHash(lines[0])} else {}) + DumpHashes(lines[1..])
  }

  lemma SortedDumpTail(lines: seq<string>)
    requires |lines| > 0 && SortedDump(lines)
    ensures SortedDump(lines[1..])
  {
    var rest := lines[1..];
    forall j, k | 0 <= j < k < |rest|
      ensures Less(LineHash(rest[j]), LineHash(rest[k]))
    {
      assert rest[j] == lines[j + 1] && rest[k] == lines[k + 1];
    }
  }

  /** In a sorted dump the first hash is below every later one. */
  lemma {:induction false} FirstHashBelowRest(lines: seq<string>)
    requires |lines| > 0 && SortedDump(lines)
    ensures forall x :: x in DumpHashes(lines[1..]) ==> Less(LineHash(lines[0]), x)
    decreases |lines|
  {
    if |lines| > 1 {
      var rest := lines[1..];
      SortedDumpTail(lines);
      FirstHashBelowRest(rest);
      forall x | x in DumpHashes(rest[1..])
        ensures Less(LineHash(lines[0]), x)
      {
        LessTransitive(LineHash(lines[0]), LineHash(lines[1]), x);
      }
    }
  }

  /** In a sorted query list no query is below an earlier one. */
  lemma {:induction false} SortedFrom(q: seq<string>, j: nat, k: nat)
    requires Sorted(q) && j <= k < |q|
    ensures !Less(q[k], q[j])
    decreases k - j
  {
    if j == k {
      LessIrreflexive(q[j]);
    } else {
      SortedFrom(q, j, k - 1);
      NotLessTransitive(q[j], q[k - 1], q[k]);
    }
  }

  /** The scan that was evidently meant: skip the queries below the line's
      hash, not below the whole line, and then test the current line against
      the query reached, so that a skip never passes over the line's own
      hash. */
  function CorrectedSortedScan(lines: seq<string>, q: seq<string>, i: nat): Outcome
    requires i <= |q|
    decreases |lines|
  {
    if lines == [] || i >= |q| then Done([])
    else
      var line := TrimSpace(lines[0]);
      if |line| < HashLen then Crash(241)
      else
        var hash := line[..HashLen];
        var j := SkipBelow(hash, q, i);
        if j < |q| && q[j] == hash then Emit([hash], CorrectedSortedScan(lines[1..], q, j + 1))
        else CorrectedSortedScan(lines[1..], q, j)
  }

  /** After skipping the queries below `hash`, the query reached is `hash`
      exactly when `hash` is among the remaining queries. */
  lemma SkipReachesOwnHash(q: seq<string>, i: nat, hash: string)
    requires i <= |q| && Sorted(q)
    ensures var j := SkipBelow(hash, q, i);
            hash in q[i..] <==> j < |q| && q[j] == hash
  {
    var j := SkipBelow(hash, q, i);
    if hash in q[i..] {
      var k :| i <= k < |q| && q[k] == hash;
      if k < j {
        LessIrreflexive(hash);
      } else {
        SortedFrom(q, j, k);
        if q[j] != hash {
          LessTotal(q[j], hash);
        }
      }
    }
  }

  /** A query above `hash` that is still to come lies at or past the cursor
      reached by skipping the queries below `hash`. */
  lemma SkipKeepsLarger(q: seq<string>, i: nat, hash: string, x: string)
    requires i <= |q| && Less(hash, x)
    ensures var j := SkipBelow(hash, q, i);
            (x in q[i..] <==> x in q[j..]) && (j < |q| && q[j] == hash ==> (x in q[j..] <==> x in q[j + 1..]))
  {
    var j := SkipBelow(hash, q, i);
    LessIrreflexive(hash);
    if x in q[i..] {
      var k :| i <= k < |q| && q[k] == x;
      if k < j {
        LessAsymmetric(hash, x);
      }
      assert q[k] == q[j..][k - j];
      if j < |q| && q[j] == hash {
        assert q[k] == q[j + 1..][k - j - 1];
      }
    }
    if x in q[j..] {
      var k :| j <= k < |q| && q[k] == x;
      assert q[k] == q[i..][k - i];
    }
    if j < |q| && x in q[j + 1..] {
      var k :| j + 1 <= k < |q| && q[k] == x;
      assert q[k] == q[j..][k - j];
    }
  }

  lemma DumpHashesCons(lines: seq<string>)
    requires |lines| > 0 && |TrimSpace(lines[0])| >= HashLen
    ensures DumpHashes(lines) == {LineHash(lines[0])} + DumpHashes(lines[1..])
  {
  }

  /** The sorted scan as written reports only hashes of the dump's own
      lines: every match is the hash of the line it was compared with. */
  lemma {:induction false} SortedScanSound(lines: seq<string>, q: seq<string>, i: nat, x: string)
    requires i <= |q|
    requires SortedScan(lines, q, i).Done? && x in SortedScan(lines, q, i).matches
    ensures x in DumpHashes(lines)
    decreases |lines|
  {
    var line := TrimSpace(lines[0]);
    var rest := lines[1..];
    DumpHashesCons(lines);
    if line[..HashLen] == q[i] {
      if x != line[..HashLen] {
        SortedScanSound(rest, q, i + 1, x);
      }
    } else {
      SortedScanSound(rest, q, SkipBelow(line, q, i), x);
    }
  }

  /** The matches of one step of the corrected scan, from those of the rest
      of the dump, whose hashes all lie above the current `hash`. */
  lemma MatchesStep(q: seq<string>, i: nat, hash: string, later: set<string>, m': seq<string>)
    requires i <= |q| && Sorted(q)
    requires forall y :: y in later ==> Less(hash, y)
    requires var j := SkipBelow(hash, q, i);
             var j' := if j < |q| && q[j] == hash then j + 1 else j;
             forall y :: y in m' <==> y in q[j'..] && y in later
    ensures var j := SkipBelow(hash, q, i);
            var m := if j < |q| && q[j] == hash then [hash] + m' else m';
            forall x :: x in m <==> x in q[i..] && x in {hash} + later
  {
    var j := SkipBelow(hash, q, i);
    var emit := j < |q| && q[j] == hash;
    var m := if emit then [hash] + m' else m';
    SkipReachesOwnHash(q, i, hash);
    LessIrreflexive(hash);
    forall x
      ensures x in m <==> x in q[i..] && x in {hash} + later
    {
      if x != hash {
        if x in later {
          SkipKeepsLarger(q, i, hash, x);
        }
        assert x in m <==> x in m';
      }
    }
  }

  /** One step of the corrected scan on a line that has a hash. */
  lemma CorrectedStep(lines: seq<string>, q: seq<string>, i: nat)
    requires i < |q| && |lines| > 0 && |TrimSpace(lines[0])| >= HashLen
    ensures var hash := LineHash(lines[0]);
            var j := SkipBelow(hash, q, i);
            CorrectedSortedScan(lines, q, i) ==
              if j < |q| && q[j] == hash then Emit([hash], CorrectedSortedScan(lines[1..], q, j + 1))
              else CorrectedSortedScan(lines[1..], q, j)
  {
  }

  /** On a sorted dump and a sorted query list the corrected scan reports
      exactly the queries that occur in the dump. */
  lemma {:induction false} CorrectedSortedScanComplete(lines: seq<string>, q: seq<string>, i: nat)
    requires i <= |q| && Sorted(q) && SortedDump(lines)
    ensures CorrectedSortedScan(lines, q, i).Done?
    ensures forall x :: x in CorrectedSortedScan(lines, q, i).matches <==> x in q[i..] && x in DumpHashes(lines)
    decreases |lines|
  {
    if lines != [] && i < |q| {
      var hash := LineHash(lines[0]);
      var j := SkipBelow(hash, q, i);
      var emit := j < |q| && q[j] == hash;
      var j' := if emit then j + 1 else j;
      var rest := lines[1..];
      SortedDumpTail(lines);
      CorrectedSortedScanComplete(rest, q, j');
      FirstHashBelowRest(lines);
      var m' := CorrectedSortedScan(rest, q, j').matches;
      StepFacts(lines, q, i, m');
      MatchesStep(q, i, hash, DumpHashes(rest), m');
      var m := if emit then [hash] + m' else m';
      assert CorrectedSortedScan(lines, q, i) == Done(m);
      assert DumpHashes(lines) == {hash} + DumpHashes(rest);
      assert forall x :: x in m <==> x in q[i..] && x in {hash} + DumpHashes(rest);
    }
  }

  /** One step of the corrected scan, given what the rest of the dump
      reports: the whole dump reports the line's hash when the cursor
      reaches it, followed by the rest's report. */
  lemma StepFacts(lines: seq<string>, q: seq<string>, i: nat, m': seq<string>)
    requires i < |q| && |lines| > 0 && |TrimSpace(lines[0])| >= HashLen
    requires var hash := LineHash(lines[0]);
             var j := SkipBelow(hash, q, i);
             CorrectedSortedScan(lines[1..], q, if j < |q| && q[j] == hash then j + 1 else j) == Done(m')
    ensures var hash := LineHash(lines[0]);
            var j := SkipBelow(hash, q, i);
            CorrectedSortedScan(lines, q, i) == Done(if j < |q| && q[j] == hash then [hash] + m' else m')
    ensures DumpHashes(lines) == {LineHash(lines[0])} + DumpHashes(lines[1..])
  {
    CorrectedStep(lines, q, i);
    DumpHashesCons(lines);
  }

  /** Thirty-nine zeros: the tail of the example hashes. */
  const Zeros39: string := "000000000000000000000000000000000000000"

  /** The example hash `d` followed by 39 zeros. */
  function RecHash(d: char): (h: string)
    ensures |h| == HashLen && h[0] == d
  {
    [d] + Zeros39
  }

  /** The dump record with hash RecHash(d) and count 1. */
  function Rec(d: char): (r: string)
    ensures |r| == HashLen + 2 && r[..HashLen] == RecHash(d) && r[HashLen] == ':'
  {
    RecHash(d) + ":1"
  }

  /** A record whose hash starts with a hex digit has nothing to trim, so
      its line hash is its hash. */
  lemma RecLineHash(d: char)
    requires IsUpperHexChar(d)
    ensures |TrimSpace(Rec(d))| > HashLen && LineHash(Rec(d)) == RecHash(d)
  {
    var r := Rec(d);
    assert r[0] == d && r[|r| - 1] == '1';
    assert TrimLeft(r) == r;
  }

  lemma RecOrder(a: char, b: char)
    ensures Less(RecHash(a), RecHash(b)) <==> a < b
  {
    LessIrreflexive(Zeros39);
    assert RecHash(a)[1..] == Zeros39 && RecHash(b)[1..] == Zeros39;
  }

  /** Queries [h1, h2] with h1 below h2 against a one-line dump whose hash is
      h2 followed by a count: the line's hash is not the first query, so the
      cursor skips every query below the whole line, and h2 is a proper
      prefix of that line; the scan ends with no match although the dump
      holds h2. The corrected scan reports it. */
  lemma SkipsOwnHash(h1: string, h2: string, line: string)
    requires |h1| == HashLen && |h2| == HashLen && Less(h1, h2)
    requires |TrimSpace(line)| > HashLen && LineHash(line) == h2
    ensures h2 in DumpHashes([line])
    ensures SortedScan([line], [h1, h2], 0) == Done([])
    ensures CorrectedSortedScan([line], [h1, h2], 0) == Done([h2])
  {
    var q := [h1, h2];
    var t := TrimSpace(line);
    assert t == h2 + t[HashLen..];
    LessAsymmetric(h1, h2);
    LessIrreflexive(h2);
    LessProperExtension(h2, t[HashLen..]);
    LessTransitive(h1, h2, t);
    assert SkipBelow(t, q, 0) == 2;
    assert SkipBelow(h2, q, 0) == 1;
    assert [line][1..] == [];
  }

  /** The same with concrete records: queries [1…, 2…] and the dump [2…:1]. */
  lemma SortedScanSkipsOwnHash()
    ensures RecHash('2') in DumpHashes([Rec('2')])
    ensures SortedScan([Rec('2')], [RecHash('1'), RecHash('2')], 0) == Done([])
    ensures CorrectedSortedScan([Rec('2')], [RecHash('1'), RecHash('2')], 0) == Done([RecHash('2')])
  {
    RecLineHash('2');
    RecOrder('1', '2');
    SkipsOwnHash(RecHash('1'), RecHash('2'), Rec('2'));
  }

  // ---------------------------------------------------------------------------
  // matcher: the membership test of the unsorted path
  // ---------------------------------------------------------------------------

  /** The hash the matcher takes from a line: its first 40 characters after
      trimming and upper-casing. */
  predicate HashOfLine(x: string, line: string)
  {
    var u := ToUpper(TrimSpace(line));
    |u| >= HashLen && u[..HashLen] == x
  }

  /** What matcher sends for the lines it receives. */
  function UnsortedScan(lines: seq<string>, q: seq<string>): Outcome
  {
    if lines == [] then Done([])
    else
      var line := ToUpper(TrimSpace(lines[0]));
      if |line| < HashLen then Crash(357)
      else
        var hash := line[..HashLen];
        Emit(if hash in q then [hash] else [], UnsortedScan(lines[1..], q))
  }

  /** One line of the membership scan, unfolded at position `n`. */
  lemma UnsortedScanAt(lines: seq<string>, q: seq<string>, n: nat)
    requires n < |lines|
    ensures var line := ToUpper(TrimSpace(lines[n]));
            UnsortedScan(lines[n..], q) ==
              if |line| < HashLen then Crash(357)
              else Emit(if line[..HashLen] in q then [line[..HashLen]] else [], UnsortedScan(lines[n + 1..], q))
  {
    assert lines[n..][1..] == lines[n + 1..];
    assert lines[n..][0] == lines[n];
  }

  /** `for _, candidate := range in { if candidate == hash … }`: whether some
      query equals `hash`. */
  method IsCandidate(q: seq<string>, hash: string) returns (found: bool)
    ensures found <==> hash in q
  {
    found := false;
    var c := 0;
    while c < |q| && !found
      invariant c <= |q|
      invariant found <==> hash in q[..c]
    {
      if q[c] == hash {
        found := true;
      }
      c := c + 1;
    }
    if !found {
      assert q[..c] == q;
    }
  }

  /** matcher: for each line, the first 40 characters of the trimmed,
      upper-cased line, sent once when some query equals them. */
  method Matcher(lines: seq<string>, q: seq<string>) returns (r: Outcome)
    ensures r == UnsortedScan(lines, q)
  {
    var out: seq<string> := [];
    var n := 0;
    assert lines[0..] == lines;
    EmitNothing(UnsortedScan(lines, q));
    while n < |lines|
      invariant n <= |lines|
      invariant UnsortedScan(lines, q) == Emit(out, UnsortedScan(lines[n..], q))
    {
      UnsortedScanAt(lines, q, n);
      var line := ToUpper(TrimSpace(lines[n]));
      if |line| < HashLen {
        return Crash(357);
      }
      var hash := line[..HashLen];
      var found := IsCandidate(q, hash);
      if found {
        EmitEmit(out, [hash], UnsortedScan(lines[n + 1..], q));
        out := out + [hash];
      } else {
        EmitNothing(UnsortedScan(lines[n + 1..], q));
      }
      n := n + 1;
    }
    EmitAll(out);
    return Done(out);
  }

  /** A finished scan of a non-empty dump: the first line has a hash, the
      rest finishes too, and the first line's report comes first. */
  lemma UnsortedScanCons(lines: seq<string>, q: seq<string>)
    requires lines != [] && UnsortedScan(lines, q).Done?
    ensures var line := ToUpper(TrimSpace(lines[0]));
            |line| >= HashLen && UnsortedScan(lines[1..], q).Done? &&
            UnsortedScan(lines, q).matches ==
              (if line[..HashLen] in q then [line[..HashLen]] else []) + UnsortedScan(lines[1..], q).matches
  {
  }

  lemma {:induction false} UnsortedScanLength(lines: seq<string>, q: seq<string>)
    requires UnsortedScan(lines, q).Done?
    ensures |UnsortedScan(lines, q).matches| <= |lines|
  {
    if lines != [] {
      UnsortedScanCons(lines, q);
      UnsortedScanLength(lines[1..], q);
    }
  }

  /** A hash is reported exactly when it is a query and some line carries
      it. */
  lemma {:induction false} UnsortedScanMember(lines: seq<string>, q: seq<string>, x: string)
    requires UnsortedScan(lines, q).Done?
    ensures x in UnsortedScan(lines, q).matches <==>
              x in q && exists k :: 0 <= k < |lines| && HashOfLine(x, lines[k])
  {
    if lines != [] {
      var rest := lines[1..];
      UnsortedScanCons(lines, q);
      UnsortedScanMember(rest, q, x);
      var hash := ToUpper(TrimSpace(lines[0]))[..HashLen];
      var m' := UnsortedScan(rest, q).matches;
      assert HashOfLine(x, lines[0]) <==> x == hash;
      if x in q && exists k :: 0 <= k < |lines| && HashOfLine(x, lines[k]) {
        var k :| 0 <= k < |lines| && HashOfLine(x, lines[k]);
        if k > 0 {
          assert HashOfLine(x, rest[k - 1]);
        }
      }
      if x in m' {
        var k :| 0 <= k < |rest| && HashOfLine(x, rest[k]);
        assert HashOfLine(x, lines[k + 1]);
      }
    }
  }

  /** The matcher's result for a finished scan: one entry per line at most,
      and a hash is reported exactly when it is a query and some line
      carries it. */
  lemma UnsortedScanMatches(lines: seq<string>, q: seq<string>)
    requires UnsortedScan(lines, q).Done?
    ensures |UnsortedScan(lines, q).matches| <= |lines|
    ensures forall x :: x in UnsortedScan(lines, q).matches <==>
                          x in q && exists k :: 0 <= k < |lines| && HashOfLine(x, lines[k])
  {
    UnsortedScanLength(lines, q);
    forall x
      ensures x in UnsortedScan(lines, q).matches <==>
                x in q && exists k :: 0 <= k < |lines| && HashOfLine(x, lines[k])
    {
      UnsortedScanMember(lines, q, x);
    }
  }

  /** Scanning a prefix and then a suffix of the lines gives the outcome of
      scanning all of them in one go. */
  lemma {:induction false} UnsortedScanAppend(a: seq<string>, b: seq<string>, q: seq<string>)
    ensures UnsortedScan(a + b, q) == Then(UnsortedScan(a, q), UnsortedScan(b, q))
  {
    if a == [] {
      assert a + b == b;
      assert Emit([], UnsortedScan(b, q)) == UnsortedScan(b, q);
    } else {
      assert (a + b)[0] == a[0] && (a + b)[1..] == a[1..] + b;
      UnsortedScanAppend(a[1..], b, q);
      var line := ToUpper(TrimSpace(a[0]));
      if |line| >= HashLen {
        var hash := line[..HashLen];
        var here: seq<string> := if hash in q then [hash] else [];
        match UnsortedScan(a[1..], q)
        case Done(m) =>
          EmitEmit(here, m, UnsortedScan(b, q));
        case Crash(_) =>
      }
    }
  }

  /** The lines a worker receives when `mask` says, line by line, which of
      two workers the shared channel hands it to: those whose mask entry is
      `side`, in their original order. */
  function Pick(lines: seq<string>, mask: seq<bool>, side: bool): (r: seq<string>)
    requires |mask| == |lines|
    ensures |r| <= |lines|
  {
    if lines == [] then []
    else (if mask[0] == side then [lines[0]] else []) + Pick(lines[1..], mask[1..], side)
  }

  /** The two workers together receive every line exactly once. */
  lemma {:induction false} PickPartition(lines: seq<string>, mask: seq<bool>)
    requires |mask| == |lines|
    ensures multiset(Pick(lines, mask, true)) + multiset(Pick(lines, mask, false)) == multiset(lines)
  {
    if lines != [] {
      PickPartition(lines[1..], mask[1..]);
      assert lines == [lines[0]] + lines[1..];
    }
  }

  /** The scan of a line in front of others. */
  lemma UnsortedScanFront(x: string, rest: seq<string>, q: seq<string>)
    ensures var line := ToUpper(TrimSpace(x));
            UnsortedScan([x] + rest, q) ==
              if |line| < HashLen then Crash(357)
              else Emit(if line[..HashLen] in q then [line[..HashLen]] else [], UnsortedScan(rest, q))
  {
    assert ([x] + rest)[0] == x && ([x] + rest)[1..] == rest;
  }

  /** `whole` finishes exactly when `a` and `b` both do, and then its
      matches are theirs together, counted with multiplicity. */
  predicate SplitInto(whole: Outcome, a: Outcome, b: Outcome)
  {
    (whole.Done? <==> a.Done? && b.Done?) &&
    (whole.Done? ==> multiset(whole.matches) == multiset(a.matches) + multiset(b.matches))
  }

  /** Handing one more line to a worker keeps the split. */
  lemma SplitStep(x: string, rest: seq<string>, own: seq<string>, other: seq<string>, q: seq<string>)
    requires SplitInto(UnsortedScan(rest, q), UnsortedScan(own, q), UnsortedScan(other, q))
    ensures SplitInto(UnsortedScan([x] + rest, q), UnsortedScan([x] + own, q), UnsortedScan(other, q))
  {
    UnsortedScanFront(x, rest, q);
    UnsortedScanFront(x, own, q);
    var line := ToUpper(TrimSpace(x));
    if |line| >= HashLen {
      var here: seq<string> := if line[..HashLen] in q then [line[..HashLen]] else [];
      if UnsortedScan(rest, q).Done? && UnsortedScan(own, q).Done? {
        var m, mo := UnsortedScan(rest, q).matches, UnsortedScan(own, q).matches;
        assert multiset(here + m) == multiset(here) + multiset(m);
        assert multiset(here + mo) == multiset(here) + multiset(mo);
      }
    }
  }

  /** Two matcher workers that share the lines in any interleaving: the
      whole scan finishes exactly when both workers' scans do, and then the
      matches of the whole are those of the two workers together, counted
      with multiplicity. Which worker gets which line changes only the order
      in which matches arrive. */
  lemma {:induction false} UnsortedScanSplit(lines: seq<string>, mask: seq<bool>, q: seq<string>)
    requires |mask| == |lines|
    ensures SplitInto(UnsortedScan(lines, q),
                      UnsortedScan(Pick(lines, mask, true), q),
                      UnsortedScan(Pick(lines, mask, false), q))
  {
    if lines != [] {
      var rest, mrest := lines[1..], mask[1..];
      UnsortedScanSplit(rest, mrest, q);
      var yes, no := Pick(rest, mrest, true), Pick(rest, mrest, false);
      assert lines == [lines[0]] + rest;
      if mask[0] {
        assert Pick(lines, mask, true) == [lines[0]] + yes;
        assert Pick(lines, mask, false) == no;
        SplitStep(lines[0], rest, yes, no, q);
      } else {
        assert Pick(lines, mask, true) == yes;
        assert Pick(lines, mask, false) == [lines[0]] + no;
        SplitStep(lines[0], rest, no, yes, q);
      }
    }
  }

  // ---------------------------------------------------------------------------
  // scanFile and LookupBatch
  // ---------------------------------------------------------------------------

  /** What scanFile sends for one dump: the merge-join when the sample looks
      sorted, the membership scan when it does not, nothing when the file
      cannot be read. */
  function FileScan(fn: string, files: Files, q: seq<string>): Outcome
  {
    if fn !in files then Done([])
    else if SampleSorted(files[fn]) then SortedScan(files[fn], q, 0)
    else UnsortedScan(files[fn], q)
  }

  /** The dump `fn` carries `x` as its scan path reads it: the sorted path
      takes the hash of each trimmed line, the membership path that of each
      trimmed, upper-cased line. */
  predicate FileHolds(fn: string, files: Files, x: string)
  {
    fn in files &&
    if SampleSorted(files[fn]) then x in DumpHashes(files[fn])
    else exists k :: 0 <= k < |files[fn]| && HashOfLine(x, files[fn][k])
  }

  /** Every hash one dump's scan reports is a query the dump holds. */
  lemma FileScanSound(fn: string, files: Files, q: seq<string>, x: string)
    requires FileScan(fn, files, q).Done? && x in FileScan(fn, files, q).matches
    ensures x in q && FileHolds(fn, files, x)
  {
    if SampleSorted(files[fn]) {
      SortedScanBounded(files[fn], q);
      SortedScanSound(files[fn], q, 0, x);
    } else {
      UnsortedScanMember(files[fn], q, x);
    }
  }

  /** Every hash the scan of all dumps reports is a query that some listed
      dump holds: LookupBatch returns only hashes that were asked for and
      found. */
  lemma {:induction false} AllFilesScanSound(dumps: seq<string>, files: Files, q: seq<string>, x: string)
    requires AllFilesScan(dumps, files, q).Done? && x in AllFilesScan(dumps, files, q).matches
    ensures x in q && exists k :: 0 <= k < |dumps| && FileHolds(dumps[k], files, x)
  {
    var first, later := FileScan(dumps[0], files, q), AllFilesScan(dumps[1..], files, q);
    assert first.Done? && later.Done?;
    assert AllFilesScan(dumps, files, q).matches == first.matches + later.matches;
    if x in first.matches {
      FileScanSound(dumps[0], files, q, x);
    } else {
      AllFilesScanSound(dumps[1..], files, q, x);
      var k :| 0 <= k < |dumps[1..]| && FileHolds(dumps[1..][k], files, x);
      assert dumps[1..][k] == dumps[k + 1];
    }
  }

  /** What all the dumps send together, one file after the other. */
  function AllFilesScan(dumps: seq<string>, files: Files, q: seq<string>): Outcome
  {
    if dumps == [] then Done([])
    else Then(FileScan(dumps[0], files, q), AllFilesScan(dumps[1..], files, q))
  }

  method ScanFile(fn: string, files: Files, q: seq<string>) returns (r: Outcome)
    ensures r == FileScan(fn, files, q)
  {
    var file := if fn in files then Some(files[fn]) else None;
    var sorted := IsSorted(file);
    if sorted {
      r := ScanSortedFile(files[fn], Some(q));
    } else if fn in files {
      r := Matcher(files[fn], q);
    } else {
      r := Done([]);
    }
  }

  /** LookupBatch: an empty query list gives an empty (nil) result with no
      scanning; otherwise the queries are sorted and upper-cased in place and
      every dump is scanned with the normalised list. */
  method LookupBatch(s: Scanner, files: Files, queries: array<string>) returns (r: Outcome, ghost sorted: seq<string>)
    modifies queries
    ensures queries.Length == 0 ==> r == Done([])
    ensures Sorted(sorted) && multiset(sorted) == old(multiset(queries[..]))
    ensures |sorted| == queries.Length
    ensures forall k :: 0 <= k < queries.Length ==> queries[k] == ToUpper(sorted[k])
    ensures queries.Length > 0 ==> r == AllFilesScan(s.dumps, files, queries[..])
  {
    if queries.Length < 1 {
      return Done([]), [];
    }
    sorted := NormalizeQueries(queries);
    var q := queries[..];
    var out: seq<string> := [];
    var f := 0;
    assert s.dumps[0..] == s.dumps;
    EmitNothing(AllFilesScan(s.dumps, files, q));
    while f < |s.dumps|
      invariant f <= |s.dumps|
      invariant queries[..] == q
      invariant AllFilesScan(s.dumps, files, q) == Emit(out, AllFilesScan(s.dumps[f..], files, q))
    {
      assert s.dumps[f..][1..] == s.dumps[f + 1..];
      var res := ScanFile(s.dumps[f], files, q);
      if res.Crash? {
        return res, sorted;
      }
      EmitEmit(out, res.matches, AllFilesScan(s.dumps[f + 1..], files, q));
      out := out + res.matches;
      f := f + 1;
    }
    EmitAll(out);
    return Done(out), sorted;
  }
}
