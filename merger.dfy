/**
  Scanner.Merge (pkg/hibp/dump/merger.go) as written: the precondition checks,
  the output-name suffixing and the two-pointer loop over the two line
  streams.

  Each input reaches the loop through a channel fed by the nil-query sorted
  scan, so a stream is the file's trimmed lines; receiving from a drained
  stream yields `""` and `ok == false`. The loop is modelled by four mutually
  recursive functions, one per place the Go code can be in: the top of the
  loop (MergeLoop), the left catch-up loop (LeftCatchUp, lines 53-59), the
  right catch-up loop (RightCatchUp, lines 61-67) and the tail of the body
  (Settle, lines 68-98). Every slice `v[:40]` or `v[41:]` of a line too short
  for it is a `Crash` at its source line.
*/
module DumpMerger {
  import opened Wrappers
  import opened GoStrings
  import opened DumpScanner

  /** What Merge returns: an error raised before any output is opened, or
      the output path together with what the loop wrote to it. */
  datatype MergeResult = Refused(msg: string) | Merged(path: string, outcome: Outcome)

  /** One receive `v, ok := <-ch` on a stream whose next unread line is `s[i]`. */
  datatype Received = Received(value: string, ok: bool, next: nat)

  function Receive(s: seq<string>, i: nat): (r: Received)
    requires i <= |s|
    ensures r.next <= |s|
    ensures r.ok <==> i < |s|
    ensures r.ok ==> r.value == s[i] && r.next == i + 1
    ensures !r.ok ==> r.value == "" && r.next == i
  {
    if i < |s| then Received(s[i], true, i + 1) else Received("", false, i)
  }

  /** The record written for two lines with the same hash: the hash, ':',
      and the string-wise larger of the two count fields. */
  function Collapse(lv: string, rv: string): (r: string)
    requires |lv| > HashLen && |rv| > HashLen
    ensures |r| > HashLen && r[..HashLen] == lv[..HashLen] && r[HashLen] == ':'
    ensures r[HashLen + 1..] == lv[HashLen + 1..] || r[HashLen + 1..] == rv[HashLen + 1..]
    ensures !Less(r[HashLen + 1..], lv[HashLen + 1..]) && !Less(r[HashLen + 1..], rv[HashLen + 1..])
  {
    lv[..HashLen] + ":" + MaxString(lv[HashLen + 1..], rv[HashLen + 1..])
  }

  /** The top of the loop: receive one line from each side; stop when both
      are drained, otherwise evaluate the left catch-up condition. */
  function MergeLoop(L: seq<string>, R: seq<string>, li: nat, ri: nat): Outcome
    requires li <= |L| && ri <= |R|
    decreases |L| - li + |R| - ri, 0
  {
    if li == |L| && ri == |R| then Done([])
    else
      var l := Receive(L, li);
      var r := Receive(R, ri);
      LeftCatchUp(L, R, l.next, r.next, l.value, l.ok, r.value, r.ok)
  }

  /** Lines 53-59: `for lv[:40] < rv[:40] || !rok`, writing `lv` and
      receiving the next left line, leaving the loop when the left side runs
      dry. */
  function LeftCatchUp(L: seq<string>, R: seq<string>, li: nat, ri: nat,
                       lv: string, lok: bool, rv: string, rok: bool): Outcome
    requires li <= |L| && ri <= |R|
    decreases |L| - li + |R| - ri, 3
  {
    if |lv| < HashLen || |rv| < HashLen then Crash(53)
    else if Less(lv[..HashLen], rv[..HashLen]) || !rok then
      var l := Receive(L, li);
      Emit([lv], if l.ok then LeftCatchUp(L, R, l.next, ri, l.value, true, rv, rok)
                 else RightCatchUp(L, R, li, ri, "", false, rv, rok))
    else RightCatchUp(L, R, li, ri, lv, lok, rv, rok)
  }

  /** Lines 61-67: the same for the right side. */
  function RightCatchUp(L: seq<string>, R: seq<string>, li: nat, ri: nat,
                        lv: string, lok: bool, rv: string, rok: bool): Outcome
    requires li <= |L| && ri <= |R|
    decreases |L| - li + |R| - ri, 2
  {
    if |rv| < HashLen || |lv| < HashLen then Crash(61)
    else if Less(rv[..HashLen], lv[..HashLen]) || !lok then
      var r := Receive(R, ri);
      Emit([rv], if r.ok then RightCatchUp(L, R, li, r.next, lv, lok, r.value, true)
                 else Settle(L, R, li, ri, lv, lok, "", false))
    else Settle(L, R, li, ri, lv, lok, rv, rok)
  }

  /** Lines 68-98: collapse equal hashes; write the live side when the other
      is drained; write both lines when the left hash is smaller. Line 93
      repeats the test of line 87, so when neither holds nothing is written
      and the loop goes round. */
  function Settle(L: seq<string>, R: seq<string>, li: nat, ri: nat,
                  lv: string, lok: bool, rv: string, rok: bool): Outcome
    requires li <= |L| && ri <= |R|
    decreases |L| - li + |R| - ri, 1
  {
    if |lv| < HashLen || |rv| < HashLen then Crash(68)
    else if lv[..HashLen] == rv[..HashLen] then
      if |lv| <= HashLen then Crash(69)
      else if |rv| <= HashLen then Crash(70)
      else Emit([Collapse(lv, rv)], MergeLoop(L, R, li, ri))
    else if lok && !rok then Emit([lv], MergeLoop(L, R, li, ri))
    else if !lok && rok then Emit([rv], MergeLoop(L, R, li, ri))
    else if Less(lv[..HashLen], rv[..HashLen]) then Emit([lv, rv], MergeLoop(L, R, li, ri))
    else if Less(lv[..HashLen], rv[..HashLen]) then Emit([rv, lv], MergeLoop(L, R, li, ri))
    else MergeLoop(L, R, li, ri)
  }

  /** The merge loop of Merge over the two trimmed line streams. */
  method MergeLines(L: seq<string>, R: seq<string>) returns (r: Outcome)
    ensures r == MergeLoop(L, R, 0, 0)
  {
    var out: seq<string> := [];
    var li: nat, ri: nat := 0, 0;
    EmitNothing(MergeLoop(L, R, 0, 0));
    while true
      invariant li <= |L| && ri <= |R|
      invariant MergeLoop(L, R, 0, 0) == Emit(out, MergeLoop(L, R, li, ri))
      decreases |L| - li + |R| - ri
    {
      if li == |L| && ri == |R| {
        // both receives report a closed channel: all done
        break;
      }
      var got := Receive(L, li);
      var lv, lok := got.value, got.ok;
      li := got.next;
      got := Receive(R, ri);
      var rv, rok := got.value, got.ok;
      ri := got.next;

      // left needs to catch up
      while true
        invariant li <= |L|
        invariant !lok ==> lv == ""
        invariant MergeLoop(L, R, 0, 0) == Emit(out, LeftCatchUp(L, R, li, ri, lv, lok, rv, rok))
        decreases |L| - li
      {
        if |lv| < HashLen || |rv| < HashLen {
          return Crash(53);
        }
        if !(Less(lv[..HashLen], rv[..HashLen]) || !rok) {
          break;
        }
        got := Receive(L, li);
        EmitEmit(out, [lv], if got.ok then LeftCatchUp(L, R, got.next, ri, got.value, true, rv, rok)
                            else RightCatchUp(L, R, li, ri, "", false, rv, rok));
        out := out + [lv];
        lv, lok := got.value, got.ok;
        li := got.next;
        if !lok {
          assert MergeLoop(L, R, 0, 0) == Emit(out, RightCatchUp(L, R, li, ri, lv, lok, rv, rok));
          break;
        }
      }
      assert MergeLoop(L, R, 0, 0) == Emit(out, RightCatchUp(L, R, li, ri, lv, lok, rv, rok));

      // right needs to catch up
      while true
        invariant ri <= |R|
        invariant !rok ==> rv == ""
        invariant MergeLoop(L, R, 0, 0) == Emit(out, RightCatchUp(L, R, li, ri, lv, lok, rv, rok))
        decreases |R| - ri
      {
        if |rv| < HashLen || |lv| < HashLen {
          return Crash(61);
        }
        if !(Less(rv[..HashLen], lv[..HashLen]) || !lok) {
          break;
        }
        got := Receive(R, ri);
        EmitEmit(out, [rv], if got.ok then RightCatchUp(L, R, li, got.next, lv, lok, got.value, true)
                            else Settle(L, R, li, ri, lv, lok, "", false));
        out := out + [rv];
        rv, rok := got.value, got.ok;
        ri := got.next;
        if !rok {
          assert MergeLoop(L, R, 0, 0) == Emit(out, Settle(L, R, li, ri, lv, lok, rv, rok));
          break;
        }
      }
      assert MergeLoop(L, R, 0, 0) == Emit(out, Settle(L, R, li, ri, lv, lok, rv, rok));

      if |lv| < HashLen || |rv| < HashLen {
        return Crash(68);
      }
      if lv[..HashLen] == rv[..HashLen] {
        if |lv| <= HashLen {
          return Crash(69);
        }
        var max := lv[HashLen + 1..];
        if |rv| <= HashLen {
          return Crash(70);
        }
        if Less(max, rv[HashLen + 1..]) {
          max := rv[HashLen + 1..];
        }
        assert lv[..HashLen] + ":" + max == Collapse(lv, rv);
        EmitEmit(out, [lv[..HashLen] + ":" + max], MergeLoop(L, R, li, ri));
        out := out + [lv[..HashLen] + ":" + max];
        continue;
      }
      // A drained side holds "", which line 68 has just failed to slice, so
      // both sides are live here and lines 77-86 never run.
      if lok && !rok {
        assert false;
      }
      if !lok && rok {
        assert false;
      }
      if Less(lv[..HashLen], rv[..HashLen]) {
        EmitEmit(out, [lv, rv], MergeLoop(L, R, li, ri));
        out := out + [lv, rv];
        continue;
      }
      // Line 93 repeats the test of line 87, which has just failed: nothing
      // is written and the loop goes round.
    }
    EmitAll(out);
    return Done(out);
  }

  /** Every dump passes the sortedness sample (and can be read). */
  predicate AllSampleSorted(dumps: seq<string>, files: Files)
  {
    forall k :: 0 <= k < |dumps| ==> dumps[k] in files && SampleSorted(files[dumps[k]])
  }

  /** The lines the nil-query sorted scan sends for a file. */
  function Trimmed(lines: seq<string>): (r: seq<string>)
    ensures |r| == |lines| && forall k :: 0 <= k < |lines| ==> r[k] == TrimSpace(lines[k])
  {
    seq(|lines|, k requires 0 <= k < |lines| => TrimSpace(lines[k]))
  }

  /** Scanner.Merge: refuses unsorted inputs before anything else, then any
      number of inputs other than two, and only then names the output (with
      ".gz" appended when missing) and runs the loop over the two streams. */
  method Merge(s: Scanner, files: Files, outfile: string) returns (r: MergeResult)
    ensures !AllSampleSorted(s.dumps, files) ==> r == Refused("merging unsorted input files is not supported.")
    ensures AllSampleSorted(s.dumps, files) && |s.dumps| != 2 ==> r == Refused("nothing to merge")
    ensures AllSampleSorted(s.dumps, files) && |s.dumps| == 2 ==>
              r == Merged(WithGzSuffix(outfile),
                          MergeLoop(Trimmed(files[s.dumps[0]]), Trimmed(files[s.dumps[1]]), 0, 0))
  {
    for k := 0 to |s.dumps|
      invariant forall j :: 0 <= j < k ==> s.dumps[j] in files && SampleSorted(files[s.dumps[j]])
    {
      var dump := s.dumps[k];
      var sorted := IsSorted(if dump in files then Some(files[dump]) else None);
      if !sorted {
        return Refused("merging unsorted input files is not supported.");
      }
    }
    if |s.dumps| != 2 {
      return Refused("nothing to merge");
    }
    var path := outfile;
    if !HasSuffix(path, ".gz") {
      path := path + ".gz";
    }
    var left := ScanSortedFile(files[s.dumps[0]], None);
    var right := ScanSortedFile(files[s.dumps[1]], None);
    assert left.matches == Trimmed(files[s.dumps[0]]);
    assert right.matches == Trimmed(files[s.dumps[1]]);
    var outcome := MergeLines(left.matches, right.matches);
    return Merged(path, outcome);
  }

  // ---------------------------------------------------------------------------
  // Properties of the loop as written
  // ---------------------------------------------------------------------------

  /** The hash a line carries, if it is long enough to have one. */
  function HashOf(x: string): set<string>
  {
    if |x| >= HashLen then {x[..HashLen]} else {}
  }

  /** The hashes carried by the lines of `s`. */
  function HashesOf(s: seq<string>): set<string>
  {
    if s == [] then {} else HashOf(s[0]) + HashesOf(s[1..])
  }

  lemma HashesOfCons(x: string, s: seq<string>)
    ensures HashesOf([x] + s) == HashOf(x) + HashesOf(s)
  {
    assert ([x] + s)[1..] == s;
  }

  lemma HashesOfFrom(s: seq<string>, i: nat)
    requires i < |s|
    ensures HashesOf(s[i..]) == HashOf(s[i]) + HashesOf(s[i + 1..])
  {
    assert s[i..][1..] == s[i + 1..];
  }

  /** An output line either is an input line or is the collapse of a left
      and a right line with the same hash. */
  predicate FromInputs(o: string, L: seq<string>, R: seq<string>)
  {
    o in L || o in R ||
    exists a, b :: a in L && b in R && |a| > HashLen && |b| > HashLen &&
                   a[..HashLen] == b[..HashLen] && o == Collapse(a, b)
  }

  /** The hashes still to be written from a state of the loop: the unread
      lines of both streams and the two lines in hand (a drained side holds
      "", which carries none). */
  function Pending(L: seq<string>, R: seq<string>, li: nat, ri: nat, lv: string, rv: string): set<string>
    requires li <= |L| && ri <= |R|
  {
    HashesOf(L[li..]) + HashesOf(R[ri..]) + HashOf(lv) + HashOf(rv)
  }

  /** A consistent state of the loop: each line in hand came from its stream
      and a drained side holds "". */
  predicate InHand(L: seq<string>, R: seq<string>, lv: string, lok: bool, rv: string, rok: bool)
  {
    (lok ==> lv in L) && (!lok ==> lv == "") && (rok ==> rv in R) && (!rok ==> rv == "")
  }

  lemma {:induction false} LoopKeepsInputs(L: seq<string>, R: seq<string>, li: nat, ri: nat)
    requires li <= |L| && ri <= |R|
    ensures MergeLoop(L, R, li, ri).Done? ==>
              HashesOf(MergeLoop(L, R, li, ri).matches) == HashesOf(L[li..]) + HashesOf(R[ri..]) &&
              forall o :: o in MergeLoop(L, R, li, ri).matches ==> FromInputs(o, L, R)
    decreases |L| - li + |R| - ri, 0
  {
    if !(li == |L| && ri == |R|) {
      var l := Receive(L, li);
      var r := Receive(R, ri);
      LeftKeepsInputs(L, R, l.next, r.next, l.value, l.ok, r.value, r.ok);
      if l.ok && r.ok {
        HashesOfFrom(L, li);
        HashesOfFrom(R, ri);
      }
    }
  }

  lemma {:induction false} LeftKeepsInputs(L: seq<string>, R: seq<string>, li: nat, ri: nat,
                                           lv: string, lok: bool, rv: string, rok: bool)
    requires li <= |L| && ri <= |R| && InHand(L, R, lv, lok, rv, rok)
    ensures LeftCatchUp(L, R, li, ri, lv, lok, rv, rok).Done? ==>
              HashesOf(LeftCatchUp(L, R, li, ri, lv, lok, rv, rok).matches) == Pending(L, R, li, ri, lv, rv) &&
              forall o :: o in LeftCatchUp(L, R, li, ri, lv, lok, rv, rok).matches ==> FromInputs(o, L, R)
    decreases |L| - li + |R| - ri, 3
  {
    if |lv| >= HashLen && |rv| >= HashLen {
      if Less(lv[..HashLen], rv[..HashLen]) || !rok {
        var l := Receive(L, li);
        var rest := if l.ok then LeftCatchUp(L, R, l.next, ri, l.value, true, rv, rok)
                    else RightCatchUp(L, R, li, ri, "", false, rv, rok);
        if l.ok {
          LeftKeepsInputs(L, R, l.next, ri, l.value, true, rv, rok);
          HashesOfFrom(L, li);
        } else {
          RightKeepsInputs(L, R, li, ri, "", false, rv, rok);
        }
        if rest.Done? {
          HashesOfCons(lv, rest.matches);
        }
      } else {
        RightKeepsInputs(L, R, li, ri, lv, lok, rv, rok);
      }
    }
  }

  lemma {:induction false} RightKeepsInputs(L: seq<string>, R: seq<string>, li: nat, ri: nat,
                                            lv: string, lok: bool, rv: string, rok: bool)
    requires li <= |L| && ri <= |R| && InHand(L, R, lv, lok, rv, rok)
    ensures RightCatchUp(L, R, li, ri, lv, lok, rv, rok).Done? ==>
              HashesOf(RightCatchUp(L, R, li, ri, lv, lok, rv, rok).matches) == Pending(L, R, li, ri, lv, rv) &&
              forall o :: o in RightCatchUp(L, R, li, ri, lv, lok, rv, rok).matches ==> FromInputs(o, L, R)
    decreases |L| - li + |R| - ri, 2
  {
    if |rv| >= HashLen && |lv| >= HashLen {
      if Less(rv[..HashLen], lv[..HashLen]) || !lok {
        var r := Receive(R, ri);
        var rest := if r.ok then RightCatchUp(L, R, li, r.next, lv, lok, r.value, true)
                    else Settle(L, R, li, ri, lv, lok, "", false);
        if r.ok {
          RightKeepsInputs(L, R, li, r.next, lv, lok, r.value, true);
          HashesOfFrom(R, ri);
        } else {
          SettleKeepsInputs(L, R, li, ri, lv, lok, "", false);
        }
        if rest.Done? {
          HashesOfCons(rv, rest.matches);
        }
      } else {
        SettleKeepsInputs(L, R, li, ri, lv, lok, rv, rok);
      }
    }
  }

  lemma {:induction false} SettleKeepsInputs(L: seq<string>, R: seq<string>, li: nat, ri: nat,
                                             lv: string, lok: bool, rv: string, rok: bool)
    requires li <= |L| && ri <= |R| && InHand(L, R, lv, lok, rv, rok)
    requires |lv| >= HashLen && |rv| >= HashLen ==> !Less(rv[..HashLen], lv[..HashLen])
    ensures Settle(L, R, li, ri, lv, lok, rv, rok).Done? ==>
              HashesOf(Settle(L, R, li, ri, lv, lok, rv, rok).matches) == Pending(L, R, li, ri, lv, rv) &&
              forall o :: o in Settle(L, R, li, ri, lv, lok, rv, rok).matches ==> FromInputs(o, L, R)
    decreases |L| - li + |R| - ri, 1
  {
    if |lv| >= HashLen && |rv| >= HashLen {
      LoopKeepsInputs(L, R, li, ri);
      var rest := MergeLoop(L, R, li, ri);
      if lv[..HashLen] == rv[..HashLen] {
        if |lv| > HashLen && |rv| > HashLen && rest.Done? {
          HashesOfCons(Collapse(lv, rv), rest.matches);
          assert FromInputs(Collapse(lv, rv), L, R);
        }
      } else {
        LessTotal(lv[..HashLen], rv[..HashLen]);
        if rest.Done? {
          HashesOfCons(rv, rest.matches);
          HashesOfCons(lv, [rv] + rest.matches);
          assert [lv, rv] + rest.matches == [lv] + ([rv] + rest.matches);
        }
      }
    }
  }

  /** A merge that finishes writes exactly the hashes of its two inputs, no
      more and no fewer, and every line it writes is an input line or the
      collapse of an equal-hash pair. */
  lemma MergeKeepsInputs(L: seq<string>, R: seq<string>)
    requires MergeLoop(L, R, 0, 0).Done?
    ensures HashesOf(MergeLoop(L, R, 0, 0).matches) == HashesOf(L) + HashesOf(R)
    ensures forall o :: o in MergeLoop(L, R, 0, 0).matches ==> FromInputs(o, L, R)
  {
    LoopKeepsInputs(L, R, 0, 0);
    assert L[0..] == L && R[0..] == R;
  }

  /** Two live lines with the same hash are written once, as the hash and the
      larger count, and both streams advance. */
  lemma EqualHashesCollapse(L: seq<string>, R: seq<string>, li: nat, ri: nat, lv: string, rv: string)
    requires li <= |L| && ri <= |R|
    requires |lv| > HashLen && |rv| > HashLen && lv[..HashLen] == rv[..HashLen]
    ensures LeftCatchUp(L, R, li, ri, lv, true, rv, true) == Emit([Collapse(lv, rv)], MergeLoop(L, R, li, ri))
  {
    LessIrreflexive(lv[..HashLen]);
    assert LeftCatchUp(L, R, li, ri, lv, true, rv, true) == RightCatchUp(L, R, li, ri, lv, true, rv, true);
    assert RightCatchUp(L, R, li, ri, lv, true, rv, true) == Settle(L, R, li, ri, lv, true, rv, true);
  }

  /** After the right catch-up loop the right hash is not below the left one,
      so the test of line 87 holds whenever the hashes differ: the branch of
      lines 93-97 is never taken and the loop never drops a pair unwritten. */
  lemma LineNinetyThreeUnreachable(L: seq<string>, R: seq<string>, li: nat, ri: nat, lv: string, rv: string)
    requires li <= |L| && ri <= |R|
    requires |lv| >= HashLen && |rv| >= HashLen && lv[..HashLen] != rv[..HashLen]
    requires !Less(rv[..HashLen], lv[..HashLen])
    ensures Settle(L, R, li, ri, lv, true, rv, true) == Emit([lv, rv], MergeLoop(L, R, li, ri))
  {
    LessTotal(lv[..HashLen], rv[..HashLen]);
  }

  /** Whenever one stream is drained while the other is not, the next slice
      of the drained side's "" panics: at the top of the loop (line 53),
      after the left catch-up (line 61) or after the right catch-up (line 68). */
  lemma DrainedSidePanics(L: seq<string>, R: seq<string>, li: nat, ri: nat, lv: string, rv: string)
    requires li <= |L| && ri <= |R|
    ensures (li == |L|) != (ri == |R|) ==> MergeLoop(L, R, li, ri) == Crash(53)
    ensures |rv| >= HashLen ==> RightCatchUp(L, R, li, ri, "", false, rv, true) == Crash(61)
    ensures |lv| >= HashLen ==> Settle(L, R, li, ri, lv, true, "", false) == Crash(68)
  {
  }

  /** Merging a dump with a copy of itself reproduces it line for line, when
      every line has ':' right after its 40-character hash. */
  lemma {:induction false} MergeWithItself(L: seq<string>, i: nat)
    requires i <= |L|
    requires forall x :: x in L ==> |x| > HashLen && x[HashLen] == ':'
    ensures MergeLoop(L, L, i, i) == Done(L[i..])
    decreases |L| - i
  {
    if i < |L| {
      var x := L[i];
      assert |x| > HashLen && x[HashLen] == ':';
      MergeWithItself(L, i + 1);
      assert MergeLoop(L, L, i, i) == LeftCatchUp(L, L, i + 1, i + 1, x, true, x, true);
      EqualHashesCollapse(L, L, i + 1, i + 1, x, x);
      assert Collapse(x, x) == x by {
        assert x == x[..HashLen] + [x[HashLen]] + x[HashLen + 1..];
      }
      assert L[i..] == [x] + L[i + 1..];
    }
  }

  // ---------------------------------------------------------------------------
  // Two concrete runs of the loop as written
  // ---------------------------------------------------------------------------

  /** Left [1…] and right [2…]: the left side drains inside the left
      catch-up loop and line 61 slices its "". */
  lemma UnevenEndPanics()
    ensures MergeLoop([Rec('1')], [Rec('2')], 0, 0) == Crash(61)
  {
    RecOrder('1', '2');
  }

  /** Inputs of different lengths need not crash: with left [3…:1] and
      right [2…:1, 4…:1] the right catch-up writes 2, line 87 writes 3 and
      4 together, and both streams close at the same top of the loop. */
  lemma UnevenInputsCanFinish()
    ensures MergeLoop([Rec('3')], [Rec('2'), Rec('4')], 0, 0) == Done([Rec('2'), Rec('3'), Rec('4')])
  {
    RecOrder('2', '3');
    RecOrder('3', '4');
    RecOrder('3', '2');
    RecOrder('4', '3');
  }

  /** The run behind MergeOutputCanBeUnsorted, for any seven records whose
      hashes rise from `a` to `g`: left [a,c,d,g] and right [b,e,f,g] give
      a,b,c,e,d,f,g. */
  lemma OvertakingRun(a: string, b: string, c: string, d: string, e: string, f: string, g: string)
    requires |a| >= HashLen && |b| >= HashLen && |c| >= HashLen && |d| >= HashLen
    requires |e| >= HashLen && |f| >= HashLen && |g| > HashLen && g[HashLen] == ':'
    requires Less(a[..HashLen], b[..HashLen]) && Less(b[..HashLen], c[..HashLen])
    requires Less(c[..HashLen], d[..HashLen]) && Less(d[..HashLen], e[..HashLen])
    requires Less(e[..HashLen], f[..HashLen]) && Less(f[..HashLen], g[..HashLen])
    ensures MergeLoop([a, c, d, g], [b, e, f, g], 0, 0) == Done([a, b, c, e, d, f, g])
  {
    var L, R := [a, c, d, g], [b, e, f, g];
    LessAsymmetric(b[..HashLen], c[..HashLen]);
    LessTransitive(c[..HashLen], d[..HashLen], e[..HashLen]);
    LessAsymmetric(c[..HashLen], e[..HashLen]);
    LessIrreflexive(c[..HashLen]);
    LessAsymmetric(f[..HashLen], g[..HashLen]);
    LessTransitive(d[..HashLen], e[..HashLen], f[..HashLen]);
    // second half: from the top of the loop with d and f next
    EqualHashesCollapse(L, R, 4, 4, g, g);
    assert Collapse(g, g) == g by {
      assert g == g[..HashLen] + [g[HashLen]] + g[HashLen + 1..];
    }
    assert RightCatchUp(L, R, 4, 3, g, true, f, true) == Emit([f], LeftCatchUp(L, R, 4, 4, g, true, g, true));
    assert LeftCatchUp(L, R, 4, 3, g, true, f, true) == RightCatchUp(L, R, 4, 3, g, true, f, true);
    assert LeftCatchUp(L, R, 3, 3, d, true, f, true) == Emit([d], LeftCatchUp(L, R, 4, 3, g, true, f, true));
    assert MergeLoop(L, R, 2, 2) == Done([d, f, g]);
    // first half
    assert Settle(L, R, 2, 2, c, true, e, true) == Emit([c, e], MergeLoop(L, R, 2, 2));
    assert RightCatchUp(L, R, 2, 2, c, true, e, true) == Settle(L, R, 2, 2, c, true, e, true);
    assert RightCatchUp(L, R, 2, 1, c, true, b, true) == Emit([b], RightCatchUp(L, R, 2, 2, c, true, e, true));
    assert LeftCatchUp(L, R, 2, 1, c, true, b, true) == RightCatchUp(L, R, 2, 1, c, true, b, true);
    assert LeftCatchUp(L, R, 1, 1, a, true, b, true) == Emit([a], LeftCatchUp(L, R, 2, 1, c, true, b, true));
  }

  /** Left [1…,3…,4…,7…] and right [2…,5…,6…,7…] give the records in the order
      1,2,3,5,4,6,7: line 87 writes the right record 5 before the left record
      4 that is still to come. */
  lemma MergeOutputCanBeUnsorted()
    ensures MergeLoop([Rec('1'), Rec('3'), Rec('4'), Rec('7')], [Rec('2'), Rec('5'), Rec('6'), Rec('7')], 0, 0)
         == Done([Rec('1'), Rec('2'), Rec('3'), Rec('5'), Rec('4'), Rec('6'), Rec('7')])
    ensures Less(Rec('4')[..HashLen], Rec('5')[..HashLen])
  {
    RecOrder('1', '2'); RecOrder('2', '3'); RecOrder('3', '4');
    RecOrder('4', '5'); RecOrder('5', '6'); RecOrder('6', '7');
    OvertakingRun(Rec('1'), Rec('2'), Rec('3'), Rec('4'), Rec('5'), Rec('6'), Rec('7'));
  }

  // ---------------------------------------------------------------------------
  // The merge the loop evidently intends
  // ---------------------------------------------------------------------------

  /** Every line has a hash followed by at least one more character. */
  predicate Records(s: seq<string>)
  {
    forall k :: 0 <= k < |s| ==> |s[k]| > HashLen
  }

  /** Records whose hashes strictly increase. */
  predicate SortedByHash(s: seq<string>)
  {
    Records(s) && forall j, k :: 0 <= j < k < |s| ==> Less(s[j][..HashLen], s[k][..HashLen])
  }

  /** A two-pointer merge of two record streams: equal hashes collapse into
      one record, the smaller hash goes first, and once one stream is drained
      the rest of the other is copied. */
  function IntendedMerge(L: seq<string>, R: seq<string>): (r: seq<string>)
    requires Records(L) && Records(R)
    ensures Records(r)
    ensures |r| > 0 ==> (|L| > 0 && r[0][..HashLen] == L[0][..HashLen]) || (|R| > 0 && r[0][..HashLen] == R[0][..HashLen])
    decreases |L| + |R|
  {
    if L == [] then R
    else if R == [] then L
    else if L[0][..HashLen] == R[0][..HashLen] then [Collapse(L[0], R[0])] + IntendedMerge(L[1..], R[1..])
    else if Less(L[0][..HashLen], R[0][..HashLen]) then [L[0]] + IntendedMerge(L[1..], R)
    else [R[0]] + IntendedMerge(L, R[1..])
  }

  lemma {:induction false} HashesOfIndex(s: seq<string>, h: string)
    requires h in HashesOf(s)
    ensures exists k :: 0 <= k < |s| && |s[k]| >= HashLen && s[k][..HashLen] == h
    decreases |s|
  {
    if h !in HashOf(s[0]) {
      HashesOfIndex(s[1..], h);
      var k :| 0 <= k < |s[1..]| && |s[1..][k]| >= HashLen && s[1..][k][..HashLen] == h;
      assert s[k + 1] == s[1..][k];
    }
  }

  /** In a hash-sorted stream the first hash is below every later one. */
  lemma FirstBelowRest(s: seq<string>)
    requires |s| > 0 && SortedByHash(s)
    ensures forall h :: h in HashesOf(s[1..]) ==> Less(s[0][..HashLen], h)
  {
    forall h | h in HashesOf(s[1..])
      ensures Less(s[0][..HashLen], h)
    {
      HashesOfIndex(s[1..], h);
      var k :| 0 <= k < |s[1..]| && |s[1..][k]| >= HashLen && s[1..][k][..HashLen] == h;
      assert s[1..][k] == s[k + 1];
    }
  }

  lemma SortedByHashTail(s: seq<string>)
    requires |s| > 0 && SortedByHash(s)
    ensures SortedByHash(s[1..])
  {
    forall j, k | 0 <= j < k < |s[1..]|
      ensures Less(s[1..][j][..HashLen], s[1..][k][..HashLen])
    {
      assert s[1..][j] == s[j + 1] && s[1..][k] == s[k + 1];
    }
  }

  /** The intended merge writes exactly the hashes of its two inputs. */
  lemma {:induction false} IntendedMergeHashes(L: seq<string>, R: seq<string>)
    requires Records(L) && Records(R)
    ensures HashesOf(IntendedMerge(L, R)) == HashesOf(L) + HashesOf(R)
    decreases |L| + |R|
  {
    if L != [] && R != [] {
      if L[0][..HashLen] == R[0][..HashLen] {
        IntendedMergeHashes(L[1..], R[1..]);
        HashesOfCons(Collapse(L[0], R[0]), IntendedMerge(L[1..], R[1..]));
      } else if Less(L[0][..HashLen], R[0][..HashLen]) {
        IntendedMergeHashes(L[1..], R);
        HashesOfCons(L[0], IntendedMerge(L[1..], R));
      } else {
        IntendedMergeHashes(L, R[1..]);
        HashesOfCons(R[0], IntendedMerge(L, R[1..]));
      }
    }
  }

  /** A record below every hash of a sorted stream may be put in front of it. */
  lemma SortedCons(x: string, rest: seq<string>)
    requires |x| > HashLen && SortedByHash(rest)
    requires forall h :: h in HashesOf(rest) ==> Less(x[..HashLen], h)
    ensures SortedByHash([x] + rest)
  {
    var s := [x] + rest;
    forall j, k | 0 <= j < k < |s|
      ensures Less(s[j][..HashLen], s[k][..HashLen])
    {
      assert s[k] == rest[k - 1];
      if j == 0 {
        HashesOfMember(rest, k - 1);
      } else {
        assert s[j] == rest[j - 1];
      }
    }
  }

  lemma {:induction false} HashesOfMember(s: seq<string>, k: nat)
    requires k < |s| && |s[k]| >= HashLen
    ensures s[k][..HashLen] in HashesOf(s)
    decreases k
  {
    if k > 0 {
      HashesOfMember(s[1..], k - 1);
      assert s[1..][k - 1] == s[k];
    }
  }

  /** Merging two hash-sorted streams gives a hash-sorted stream: each
      record written is below every record still to come on either side. */
  lemma {:induction false} IntendedMergeSorted(L: seq<string>, R: seq<string>)
    requires SortedByHash(L) && SortedByHash(R)
    ensures SortedByHash(IntendedMerge(L, R))
    decreases |L| + |R|
  {
    if L != [] && R != [] {
      var l, r := L[0][..HashLen], R[0][..HashLen];
      FirstBelowRest(L);
      FirstBelowRest(R);
      SortedByHashTail(L);
      SortedByHashTail(R);
      if l == r {
        IntendedMergeSorted(L[1..], R[1..]);
        IntendedMergeHashes(L[1..], R[1..]);
        SortedCons(Collapse(L[0], R[0]), IntendedMerge(L[1..], R[1..]));
      } else if Less(l, r) {
        IntendedMergeSorted(L[1..], R);
        IntendedMergeHashes(L[1..], R);
        HashesOfFrom(R, 0);
        assert R[0..] == R;
        forall h | h in HashesOf(R[1..])
          ensures Less(l, h)
        {
          LessTransitive(l, r, h);
        }
        SortedCons(L[0], IntendedMerge(L[1..], R));
      } else {
        LessTotal(l, r);
        IntendedMergeSorted(L, R[1..]);
        IntendedMergeHashes(L, R[1..]);
        HashesOfFrom(L, 0);
        assert L[0..] == L;
        forall h | h in HashesOf(L[1..])
          ensures Less(r, h)
        {
          LessTransitive(r, l, h);
        }
        SortedCons(R[0], IntendedMerge(L, R[1..]));
      }
    }
  }

  /** Unlike the loop as written, the intended merge finishes on the uneven
      inputs [1…] and [2…] and writes both records in order. */
  lemma IntendedMergeUnevenEnd()
    ensures IntendedMerge([Rec('1')], [Rec('2')]) == [Rec('1'), Rec('2')]
  {
    RecOrder('1', '2');
    assert [Rec('1')][1..] == [];
  }
}
