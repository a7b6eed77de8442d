/**
  The dump downloader of pkg/hibp/api/downloader.go: Download fetches every
  one of the 16^5 hash ranges of the Pwned Passwords API into a staging
  directory of chunk files named by their five-digit hex prefix, then
  joinChunks concatenates the chunk files in directory-listing order into one
  output file.

  The staging directory is a map from file name to the file's decompressed
  text, as its sequence of newline-terminated lines; the HTTP exchange of
  each chunk is an input `Fetch`. Chunk downloads run in goroutines but each
  writes only its own file, so they are modelled one after the other in
  chunk order.
*/
module HibpDownloader {
  import opened Wrappers
  import opened GoStrings

  /** Number of hash ranges requested: `max := 1024 * 1024`. */
  const MaxChunks: nat := 1024 * 1024
  /** Body lines shorter than this, once trimmed, are dropped. */
  const MinLineLen: nat := 37
  /** Length of a chunk file name: five hex digits and ".gz". */
  const ChunkNameLen: nat := 8

  /** A directory: file names to the files' lines. */
  type Staging = map<string, seq<string>>

  // ---------------------------------------------------------------------------
  // Chunk prefixes: fmt.Sprintf("%X", chunk) padded to five digits
  // ---------------------------------------------------------------------------

  function Pow16(k: nat): nat
  {
    if k == 0 then 1 else 16 * Pow16(k - 1)
  }

  /** The upper-case hex digit of `d`. */
  function HexDigit(d: nat): (c: char)
    requires d < 16
    ensures IsUpperHexChar(c)
  {
    if d < 10 then ('0' as int + d) as char else ('A' as int + d - 10) as char
  }

  /** The value of an upper-case hex digit. */
  function DigitValue(c: char): (d: nat)
    requires IsUpperHexChar(c)
    ensures d < 16
  {
    if c <= '9' then c as int - '0' as int else c as int - 'A' as int + 10
  }

  /** The value of an upper-case hex string, most significant digit first. */
  function ParseHex(s: string): nat
    requires IsUpperHex(s)
  {
    if s == [] then 0 else 16 * ParseHex(s[..|s| - 1]) + DigitValue(s[|s| - 1])
  }

  lemma ParseHexSnoc(s: string, c: char)
    requires IsUpperHex(s) && IsUpperHexChar(c)
    ensures IsUpperHex(s + [c]) && ParseHex(s + [c]) == 16 * ParseHex(s) + DigitValue(c)
  {
    assert (s + [c])[..|s|] == s;
  }

  /** Reading back a digit gives its value. */
  lemma HexDigitValue(d: nat)
    requires d < 16
    ensures DigitValue(HexDigit(d)) == d
  {
  }

  /** The last digit of `n` appended to the digits of `n / 16` reads back
      as `n`. */
  lemma HexStep(n: nat, h: string)
    requires IsUpperHex(h) && ParseHex(h) == n / 16
    ensures IsUpperHex(h + [HexDigit(n % 16)]) && ParseHex(h + [HexDigit(n % 16)]) == n
  {
    ParseHexSnoc(h, HexDigit(n % 16));
    HexDigitValue(n % 16);
  }

  /** `%X`: the hex digits of `n` without leading zeros ("0" for zero). */
  function HexString(n: nat): (r: string)
    ensures |r| >= 1
    decreases n
  {
    if n < 16 then [HexDigit(n)] else HexString(n / 16) + [HexDigit(n % 16)]
  }

  /** The digits of `%X` are upper-case hex and read back as `n`. */
  lemma {:induction false} HexStringValue(n: nat)
    ensures IsUpperHex(HexString(n)) && ParseHex(HexString(n)) == n
    decreases n
  {
    if n < 16 {
      HexStep(n, []);
      assert [] + [HexDigit(n % 16)] == HexString(n);
    } else {
      HexStringValue(n / 16);
      HexStep(n, HexString(n / 16));
    }
  }

  /** A number below 16^k has at most k hex digits. */
  lemma {:induction false} HexStringLength(n: nat, k: nat)
    requires k >= 1 && n < Pow16(k)
    ensures |HexString(n)| <= k
    decreases n
  {
    if n >= 16 {
      assert n / 16 < Pow16(k - 1);
      HexStringLength(n / 16, k - 1);
    }
  }

  /** `strings.Repeat(string(c), k)`. */
  function Repeat(c: char, k: nat): (r: string)
    ensures |r| == k && forall i :: 0 <= i < k ==> r[i] == c
  {
    if k == 0 then [] else [c] + Repeat(c, k - 1)
  }

  /** Leading zeros do not change the value of a hex string. */
  lemma {:induction false} ParseHexLeadingZeros(k: nat, s: string)
    requires IsUpperHex(s)
    ensures IsUpperHex(Repeat('0', k) + s) && ParseHex(Repeat('0', k) + s) == ParseHex(s)
    decreases |s|
  {
    var z := Repeat('0', k);
    if s == [] {
      assert z + s == z;
      ZerosParseToZero(k);
    } else {
      var init, last := s[..|s| - 1], s[|s| - 1];
      assert s == init + [last];
      ParseHexLeadingZeros(k, init);
      assert z + s == (z + init) + [last];
      ParseHexSnoc(z + init, last);
      ParseHexSnoc(init, last);
    }
  }

  lemma {:induction false} ZerosParseToZero(k: nat)
    ensures IsUpperHex(Repeat('0', k)) && ParseHex(Repeat('0', k)) == 0
  {
    if k > 0 {
      ZerosParseToZero(k - 1);
      assert Repeat('0', k) == Repeat('0', k - 1) + ['0'];
      ParseHexSnoc(Repeat('0', k - 1), '0');
    }
  }

  /** The five-digit prefix of a chunk: `strings.Repeat("0", 5-len(hex)) + hex`
      with `hex := fmt.Sprintf("%X", chunk)`. */
  function ChunkPrefix(chunk: nat): (p: string)
    requires chunk < MaxChunks
    ensures |p| == 5
  {
    var hex := HexString(chunk);
    assert Pow16(5) == MaxChunks;
    HexStringLength(chunk, 5);
    Repeat('0', 5 - |hex|) + hex
  }

  /** Every chunk's prefix is five upper-case hex digits that read back as
      the chunk number. */
  lemma ChunkPrefixValue(chunk: nat)
    requires chunk < MaxChunks
    ensures IsUpperHex(ChunkPrefix(chunk)) && ParseHex(ChunkPrefix(chunk)) == chunk
  {
    var hex := HexString(chunk);
    assert Pow16(5) == MaxChunks;
    HexStringLength(chunk, 5);
    HexStringValue(chunk);
    ParseHexLeadingZeros(5 - |hex|, hex);
  }

  /** Go's order on one upper-case hex digit is the order of the digit values:
      '0'-'9' sort below 'A'-'F'. */
  lemma DigitOrder(a: char, b: char)
    requires IsUpperHexChar(a) && IsUpperHexChar(b)
    ensures Less([a], [b]) <==> DigitValue(a) < DigitValue(b)
    ensures a == b <==> DigitValue(a) == DigitValue(b)
  {
    assert [a][1..] == [] && [b][1..] == [];
  }

  /** For two hex strings of the same length, Go's string order is the
      numeric order of their values. */
  lemma {:induction false} HexOrder(s: string, t: string)
    requires |s| == |t| && IsUpperHex(s) && IsUpperHex(t)
    ensures Less(s, t) <==> ParseHex(s) < ParseHex(t)
    ensures s == t <==> ParseHex(s) == ParseHex(t)
    decreases |s|
  {
    if s != [] {
      var x, a := s[..|s| - 1], s[|s| - 1];
      var y, b := t[..|t| - 1], t[|t| - 1];
      assert s == x + [a] && t == y + [b];
      HexOrder(x, y);
      LessAppend(x, y, [a], [b]);
      DigitOrder(a, b);
      if x != y {
        LessTotal(x, y);
      }
      ParseHexSnoc(x, a);
      ParseHexSnoc(y, b);
      var px, py := ParseHex(x), ParseHex(y);
      if px < py {
        assert 16 * px + DigitValue(a) < 16 * py + DigitValue(b);
      } else if px > py {
        assert 16 * px + DigitValue(a) > 16 * py + DigitValue(b);
      }
    }
  }

  /** Prefixes sort like their chunk numbers. */
  lemma ChunkPrefixOrder(a: nat, b: nat)
    requires a < MaxChunks && b < MaxChunks
    ensures Less(ChunkPrefix(a), ChunkPrefix(b)) <==> a < b
  {
    ChunkPrefixValue(a);
    ChunkPrefixValue(b);
    HexOrder(ChunkPrefix(a), ChunkPrefix(b));
  }

  // ---------------------------------------------------------------------------
  // Chunk file names and the assembly filter
  // ---------------------------------------------------------------------------

  /** The name of a chunk's file in the staging directory: `prefix + ".gz"`. */
  function ChunkName(chunk: nat): string
    requires chunk < MaxChunks
  {
    ChunkPrefix(chunk) + ".gz"
  }

  /** The filter of joinChunks: eight characters, no leading '.', ending in
      ".gz". */
  predicate NameFilter(name: string)
  {
    |name| == ChunkNameLen && !HasPrefix(name, ".") && HasSuffix(name, ".gz")
  }

  /** Every chunk file passes the filter. */
  lemma ChunkNamePassesFilter(chunk: nat)
    requires chunk < MaxChunks
    ensures NameFilter(ChunkName(chunk))
  {
    var p := ChunkPrefix(chunk);
    ChunkPrefixValue(chunk);
    assert ChunkName(chunk)[..1] == [p[0]];
    assert ChunkName(chunk)[5..] == ".gz";
  }

  /** Chunk file names sort like their chunk numbers. */
  lemma ChunkNameOrder(a: nat, b: nat)
    requires a < MaxChunks && b < MaxChunks
    ensures Less(ChunkName(a), ChunkName(b)) <==> a < b
    ensures ChunkName(a) == ChunkName(b) <==> a == b
  {
    ChunkPrefixOrder(a, b);
    ChunkPrefixValue(a);
    ChunkPrefixValue(b);
    HexOrder(ChunkPrefix(a), ChunkPrefix(b));
    LessAppend(ChunkPrefix(a), ChunkPrefix(b), ".gz", ".gz");
    LessIrreflexive(".gz");
    if ChunkName(a) == ChunkName(b) {
      assert ChunkPrefix(a) == ChunkName(a)[..5] && ChunkPrefix(b) == ChunkName(b)[..5];
    }
  }

  // ---------------------------------------------------------------------------
  // The body filter of downloadChunk
  // ---------------------------------------------------------------------------

  /** What the filter writes for one body line: nothing for a trimmed line
      shorter than 37 characters, otherwise the prefix and the trimmed line. */
  function KeepLine(prefix: string, part: string): seq<string>
  {
    var line := TrimSpace(part);
    if |line| < MinLineLen then [] else [prefix + line]
  }

  /** The lines written for the body pieces `parts`, in order. */
  function ChunkLines(prefix: string, parts: seq<string>): seq<string>
  {
    if parts == [] then [] else ChunkLines(prefix, parts[..|parts| - 1]) + KeepLine(prefix, parts[|parts| - 1])
  }

  /** `for _, line := range strings.Split(string(body), "\n")`: trim, drop the
      short lines, write `prefix + line`. */
  method FilterBody(prefix: string, body: string) returns (out: seq<string>)
    ensures out == ChunkLines(prefix, Split(body, '\n'))
  {
    var parts := Split(body, '\n');
    out := [];
    for k := 0 to |parts|
      invariant out == ChunkLines(prefix, parts[..k])
    {
      assert parts[..k + 1][..k] == parts[..k];
      var line := TrimSpace(parts[k]);
      if |line| < MinLineLen {
        continue;
      }
      out := out + [prefix + line];
    }
    assert parts[..|parts|] == parts;
  }

  /** The filter works line by line: the lines of a concatenation are the
      lines of each part in turn, so input order is kept. */
  lemma {:induction false} ChunkLinesAppend(prefix: string, a: seq<string>, b: seq<string>)
    ensures ChunkLines(prefix, a + b) == ChunkLines(prefix, a) + ChunkLines(prefix, b)
    decreases |b|
  {
    if b == [] {
      assert a + b == a;
    } else {
      var init, last := b[..|b| - 1], b[|b| - 1];
      assert (a + b)[..|a + b| - 1] == a + init;
      assert (a + b)[|a + b| - 1] == last;
      ChunkLinesAppend(prefix, a, init);
      assert ChunkLines(prefix, a + b) == ChunkLines(prefix, a + init) + KeepLine(prefix, last);
    }
  }

  /** `o` is what the filter writes for the body line `part`. */
  predicate WrittenFor(prefix: string, part: string, o: string)
  {
    |TrimSpace(part)| >= MinLineLen && o == prefix + TrimSpace(part)
  }

  lemma {:induction false} ChunkLinesLength(prefix: string, parts: seq<string>)
    ensures |ChunkLines(prefix, parts)| <= |parts|
    decreases |parts|
  {
    if parts != [] {
      ChunkLinesLength(prefix, parts[..|parts| - 1]);
    }
  }

  lemma {:induction false} ChunkLinesSound(prefix: string, parts: seq<string>)
    ensures forall o :: o in ChunkLines(prefix, parts) ==> exists k :: 0 <= k < |parts| && WrittenFor(prefix, parts[k], o)
    decreases |parts|
  {
    if parts != [] {
      var n := |parts| - 1;
      var init := parts[..n];
      ChunkLinesSound(prefix, init);
      forall o | o in ChunkLines(prefix, parts)
        ensures exists k :: 0 <= k < |parts| && WrittenFor(prefix, parts[k], o)
      {
        if o in ChunkLines(prefix, init) {
          var k :| 0 <= k < |init| && WrittenFor(prefix, init[k], o);
          assert init[k] == parts[k];
        } else {
          assert WrittenFor(prefix, parts[n], o);
        }
      }
    }
  }

  lemma {:induction false} ChunkLinesCompleteAt(prefix: string, parts: seq<string>, k: nat)
    requires k < |parts| && |TrimSpace(parts[k])| >= MinLineLen
    ensures prefix + TrimSpace(parts[k]) in ChunkLines(prefix, parts)
    decreases |parts|
  {
    var n := |parts| - 1;
    var init := parts[..n];
    assert ChunkLines(prefix, parts) == ChunkLines(prefix, init) + KeepLine(prefix, parts[n]);
    if k < n {
      assert init[k] == parts[k];
      ChunkLinesCompleteAt(prefix, init, k);
    } else {
      assert KeepLine(prefix, parts[n]) == [prefix + TrimSpace(parts[k])];
    }
  }

  lemma ChunkLinesComplete(prefix: string, parts: seq<string>)
    ensures forall k :: 0 <= k < |parts| && |TrimSpace(parts[k])| >= MinLineLen ==>
              prefix + TrimSpace(parts[k]) in ChunkLines(prefix, parts)
  {
    forall k | 0 <= k < |parts| && |TrimSpace(parts[k])| >= MinLineLen
      ensures prefix + TrimSpace(parts[k]) in ChunkLines(prefix, parts)
    {
      ChunkLinesCompleteAt(prefix, parts, k);
    }
  }

  /** At most one line per body line; every line written is the prefix and
      a trimmed body line of at least 37 characters, and every such body
      line is written. */
  lemma ChunkLinesExactly(prefix: string, parts: seq<string>)
    ensures |ChunkLines(prefix, parts)| <= |parts|
    ensures forall o :: o in ChunkLines(prefix, parts) ==>
              exists k :: 0 <= k < |parts| && |TrimSpace(parts[k])| >= MinLineLen && o == prefix + TrimSpace(parts[k])
    ensures forall k :: 0 <= k < |parts| && |TrimSpace(parts[k])| >= MinLineLen ==>
              prefix + TrimSpace(parts[k]) in ChunkLines(prefix, parts)
  {
    ChunkLinesLength(prefix, parts);
    ChunkLinesSound(prefix, parts);
    ChunkLinesComplete(prefix, parts);
  }

  /** With a five-digit prefix every line written is longer than a hash, so
      the dump tools can slice its hash and count. */
  lemma {:induction false} ChunkLinesHaveHashes(prefix: string, parts: seq<string>)
    requires |prefix| == 5
    ensures forall o :: o in ChunkLines(prefix, parts) ==> |o| >= 42
    decreases |parts|
  {
    if parts != [] {
      ChunkLinesHaveHashes(prefix, parts[..|parts| - 1]);
    }
  }

  // ---------------------------------------------------------------------------
  // downloadChunk
  // ---------------------------------------------------------------------------

  /** The exchange that ends the retry loop for one range: a response with
      its status code, status text and body, or a transport failure. */
  datatype Fetch = Got(status: int, statusText: string, body: string) | Failed(err: string)

  /** What a chunk's file holds once its exchange is over: the filtered
      body after a 200 response, nothing otherwise (the file is truncated
      before the request). */
  function ChunkContent(prefix: string, fetch: Fetch): seq<string>
  {
    if fetch.Got? && fetch.status == 200 then ChunkLines(prefix, Split(fetch.body, '\n')) else []
  }

  /** The error downloadChunk returns: the transport error, none for 404,
      "HTTP request failed: …" for any other status but 200. */
  function FetchError(fetch: Fetch): (e: Option<string>)
    ensures e.None? <==> fetch.Got? && (fetch.status == 200 || fetch.status == 404)
  {
    match fetch
    case Failed(err) => Some(err)
    case Got(status, text, body) =>
      if status == 404 then None
      else if status != 200 then Some("HTTP request failed: " + text + " " + body)
      else None
  }

  /** A response other than 200 leaves the chunk file empty; 404 does so
      without an error. */
  lemma OnlyOkWrites(prefix: string, fetch: Fetch)
    ensures ChunkContent(prefix, fetch) != [] ==> fetch.Got? && fetch.status == 200
    ensures fetch.Got? && fetch.status == 404 ==> ChunkContent(prefix, fetch) == [] && FetchError(fetch) == None
  {
  }

  /** The staging directory after downloadChunk(chunk): with keep set an
      existing chunk file is reused untouched, otherwise the file is
      (re)written with the chunk's content. */
  function StageChunk(staged: Staging, chunk: nat, keep: bool, fetch: Fetch): Staging
    requires chunk < MaxChunks
  {
    var name := ChunkName(chunk);
    if keep && name in staged then staged else staged[name := ChunkContent(ChunkPrefix(chunk), fetch)]
  }

  /** downloadChunk: skip when keep is set and the file exists, otherwise
      truncate the file, make the request and write the filtered body. */
  method DownloadChunk(chunk: nat, keep: bool, staged: Staging, fetch: Fetch) returns (after: Staging, err: Option<string>)
    requires chunk < MaxChunks
    ensures after == StageChunk(staged, chunk, keep, fetch)
    ensures err == if keep && ChunkName(chunk) in staged then None else FetchError(fetch)
  {
    var prefix := ChunkPrefix(chunk);
    var fn := prefix + ".gz";
    if keep && fn in staged {
      return staged, None;
    }
    after := staged[fn := []];
    match fetch {
      case Failed(e) =>
        err := Some(e);
      case Got(status, text, body) =>
        if status == 404 {
          return after, None;
        }
        if status != 200 {
          return after, Some("HTTP request failed: " + text + " " + body);
        }
        var lines := FilterBody(prefix, body);
        after := staged[fn := lines];
        err := None;
    }
  }

  // ---------------------------------------------------------------------------
  // Directory listings: os.ReadDir returns the entries sorted by name
  // ---------------------------------------------------------------------------

  /** `m` is below every other element of `s`. */
  predicate IsLeast(m: string, s: set<string>)
  {
    m in s && forall y :: y in s && y != m ==> Less(m, y)
  }

  lemma {:induction false} LeastExists(s: set<string>)
    requires s != {}
    ensures exists m :: IsLeast(m, s)
    decreases |s|
  {
    var x :| x in s;
    if s == {x} {
      assert IsLeast(x, s);
    } else {
      LeastExists(s - {x});
      var m :| IsLeast(m, s - {x});
      if Less(x, m) {
        forall y | y in s && y != x
          ensures Less(x, y)
        {
          if y != m {
            LessTransitive(x, m, y);
          }
        }
        assert IsLeast(x, s);
      } else {
        LessTotal(x, m);
        assert IsLeast(m, s);
      }
    }
  }

  /** A set has at most one least element. */
  lemma LeastUnique(s: set<string>)
    ensures forall m, m' :: IsLeast(m, s) && IsLeast(m', s) ==> m == m'
  {
    forall m, m' | IsLeast(m, s) && IsLeast(m', s)
      ensures m == m'
    {
      if m != m' {
        LessAsymmetric(m, m');
      }
    }
  }

  /** The names of `s` in Go's string order. */
  ghost function SortedNames(s: set<string>): seq<string>
    decreases s
  {
    if s == {} then []
    else
      LeastExists(s);
      var m :| IsLeast(m, s);
      [m] + SortedNames(s - {m})
  }

  lemma SortedNamesStep(s: set<string>, m: string)
    requires IsLeast(m, s)
    ensures SortedNames(s) == [m] + SortedNames(s - {m})
  {
    LeastUnique(s);
  }

  /** Strictly increasing in Go's string order. */
  predicate StrictlySorted(l: seq<string>)
  {
    forall j, k :: 0 <= j < k < |l| ==> Less(l[j], l[k])
  }

  /** The sorted listing holds each name once, and no other, in increasing
      order. */
  lemma {:induction false} SortedNamesFacts(s: set<string>)
    ensures StrictlySorted(SortedNames(s))
    ensures forall x :: x in SortedNames(s) <==> x in s
    decreases s
  {
    if s != {} {
      LeastExists(s);
      var m :| IsLeast(m, s);
      SortedNamesStep(s, m);
      SortedNamesFacts(s - {m});
      var l := SortedNames(s);
      forall j, k | 0 <= j < k < |l|
        ensures Less(l[j], l[k])
      {
        assert l[k] == SortedNames(s - {m})[k - 1];
        if j > 0 {
          assert l[j] == SortedNames(s - {m})[j - 1];
        }
      }
    }
  }

  /** A listed name is a name of the directory. */
  lemma SortedNamesMember(s: set<string>, x: string)
    requires x in SortedNames(s)
    ensures x in s
  {
    SortedNamesFacts(s);
  }

  lemma SameElementsBothEmpty(a: seq<string>, b: seq<string>)
    requires forall x :: x in a <==> x in b
    ensures a == [] <==> b == []
  {
    if a != [] {
      assert a[0] in a;
    }
    if b != [] {
      assert b[0] in b;
    }
  }

  /** Two strictly sorted listings of the same names are the same listing. */
  lemma {:induction false} StrictlySortedUnique(a: seq<string>, b: seq<string>)
    requires StrictlySorted(a) && StrictlySorted(b)
    requires forall x :: x in a <==> x in b
    ensures a == b
    decreases |a|
  {
    SameElementsBothEmpty(a, b);
    if a != [] {
      if a[0] != b[0] {
        assert b[0] in b && a[0] in a;
        var j :| 0 <= j < |a| && a[j] == b[0];
        var k :| 0 <= k < |b| && b[k] == a[0];
        LessAsymmetric(a[0], a[j]);
      }
      forall x
        ensures x in a[1..] <==> x in b[1..]
      {
        if x in a[1..] {
          var j :| 1 <= j < |a| && a[j] == x;
          LessIrreflexive(a[0]);
          assert x in b;
          assert x != b[0];
          var k :| 0 <= k < |b| && b[k] == x;
          assert b[k] == b[1..][k - 1];
        }
        if x in b[1..] {
          var k :| 1 <= k < |b| && b[k] == x;
          LessIrreflexive(b[0]);
          assert x in a;
          assert x != a[0];
          var j :| 0 <= j < |a| && a[j] == x;
          assert a[j] == a[1..][j - 1];
        }
      }
      StrictlySortedUnique(a[1..], b[1..]);
      assert a == [a[0]] + a[1..] && b == [b[0]] + b[1..];
    }
  }

  /** os.ReadDir: the names of the directory's entries, sorted by name. */
  method ReadDir(staged: Staging) returns (listing: seq<string>)
    ensures listing == SortedNames(staged.Keys)
  {
    var rest := staged.Keys;
    listing := [];
    while rest != {}
      invariant SortedNames(staged.Keys) == listing + SortedNames(rest)
      decreases rest
    {
      LeastExists(rest);
      var m :| IsLeast(m, rest);
      SortedNamesStep(rest, m);
      listing := listing + [m];
      rest := rest - {m};
    }
  }

  // ---------------------------------------------------------------------------
  // joinChunks
  // ---------------------------------------------------------------------------

  /** The lines one listing entry contributes to the assembled file. */
  function Piece(name: string, staged: Staging): seq<string>
  {
    if NameFilter(name) && name in staged then staged[name] else []
  }

  /** The assembled file: the pieces of the entries in listing order. */
  function Assemble(listing: seq<string>, staged: Staging): seq<string>
  {
    if listing == [] then [] else Assemble(listing[..|listing| - 1], staged) + Piece(listing[|listing| - 1], staged)
  }

  lemma AssembleSnoc(listing: seq<string>, k: nat, staged: Staging)
    requires k < |listing|
    ensures Assemble(listing[..k + 1], staged) == Assemble(listing[..k], staged) + Piece(listing[k], staged)
  {
    assert listing[..k + 1][..k] == listing[..k];
  }

  /** joinChunks: copy every entry that passes the name filter into the
      output, in listing order; then remove the staging directory unless
      keep is set (None: removed). */
  method JoinChunks(staged: Staging, keep: bool) returns (content: seq<string>, after: Option<Staging>)
    ensures content == Assemble(SortedNames(staged.Keys), staged)
    ensures after == if keep then Some(staged) else None
  {
    var dirs := ReadDir(staged);
    content := [];
    for k := 0 to |dirs|
      invariant content == Assemble(dirs[..k], staged)
    {
      var name := dirs[k];
      assert name in staged by {
        assert name in dirs;
        SortedNamesMember(staged.Keys, name);
      }
      AssembleSnoc(dirs, k, staged);
      if |name| != ChunkNameLen {
        assert Piece(name, staged) == [];
        continue;
      }
      if HasPrefix(name, ".") {
        assert Piece(name, staged) == [];
        continue;
      }
      if !HasSuffix(name, ".gz") {
        assert Piece(name, staged) == [];
        continue;
      }
      assert Piece(name, staged) == staged[name];
      content := content + staged[name];
    }
    assert dirs[..|dirs|] == dirs;
    if keep {
      return content, Some(staged);
    }
    return content, None;
  }

  // ---------------------------------------------------------------------------
  // Download
  // ---------------------------------------------------------------------------

  /** The file name used when the output path is a directory. */
  function DefaultName(date: string): string
  {
    "pwned-passwords-sha1-ordered-by-hash-" + date + ".txt.gz"
  }

  /** filepath.Join of a directory and a file name. */
  function JoinPath(dir: string, name: string): string
  {
    if HasSuffix(dir, "/") then dir + name else dir + "/" + name
  }

  /** The output path of Download: a directory gets the dated default name,
      then ".gz" is appended unless present. */
  function OutputPath(path: string, isDir: string -> bool, date: string): (r: string)
  {
    WithGzSuffix(if isDir(path) then JoinPath(path, DefaultName(date)) else path)
  }

  /** The output path always ends in ".gz"; a path that has it is kept as
      given, and a directory gets the default name without a second suffix. */
  lemma OutputPathSuffix(path: string, isDir: string -> bool, date: string)
    ensures HasSuffix(OutputPath(path, isDir, date), ".gz")
    ensures !isDir(path) ==> (OutputPath(path, isDir, date) == path <==> HasSuffix(path, ".gz"))
    ensures !isDir(path) && !HasSuffix(path, ".gz") ==> OutputPath(path, isDir, date) == path + ".gz"
    ensures isDir(path) ==> OutputPath(path, isDir, date) == JoinPath(path, DefaultName(date))
  {
    if isDir(path) {
      var name := DefaultName(date);
      var before := "pwned-passwords-sha1-ordered-by-hash-" + date + ".txt";
      assert name == before + ".gz";
      HasSuffixAppend(before, ".gz", ".gz");
      if HasSuffix(path, "/") {
        HasSuffixAppend(path, name, ".gz");
      } else {
        HasSuffixAppend(path + "/", name, ".gz");
      }
    }
  }

  /** The staging directory after the chunks 0 … n-1 have been downloaded. */
  function StageAll(staged: Staging, keep: bool, fetches: seq<Fetch>, n: nat): Staging
    requires n <= |fetches| && n <= MaxChunks
  {
    if n == 0 then staged else StageChunk(StageAll(staged, keep, fetches, n - 1), n - 1, keep, fetches[n - 1])
  }

  /** What Download reports: the empty-path error, or the output path with
      the assembled lines and the staging directory left behind (None when
      it was removed). */
  datatype DownloadResult = Refused(msg: string) | Saved(path: string, content: seq<string>, staging: Option<Staging>)

  /** The download loop: every chunk in turn, errors only logged. */
  method DownloadAll(staged: Staging, keep: bool, fetches: seq<Fetch>) returns (dir: Staging)
    requires |fetches| == MaxChunks
    ensures dir == StageAll(staged, keep, fetches, MaxChunks)
  {
    dir := staged;
    for i := 0 to MaxChunks
      invariant dir == StageAll(staged, keep, fetches, i)
    {
      var err;
      dir, err := DownloadChunk(i, keep, dir, fetches[i]);
    }
  }

  /** Download: check the path, normalise it, fetch every chunk
      0 … 1024*1024-1 (one exchange each, `fetches[i]` for chunk i) into the
      staging directory, then join the chunks. */
  method Download(path: string, keep: bool, isDir: string -> bool, date: string,
                  staged: Staging, fetches: seq<Fetch>) returns (r: DownloadResult)
    requires |fetches| == MaxChunks
    ensures path == "" ==> r == Refused("need output path")
    ensures path != "" ==>
              var final := StageAll(staged, keep, fetches, MaxChunks);
              r == Saved(OutputPath(path, isDir, date), Assemble(SortedNames(final.Keys), final),
                         if keep then Some(final) else None)
  {
    if path == "" {
      return Refused("need output path");
    }
    var out := path;
    if isDir(out) {
      out := JoinPath(out, DefaultName(date));
    }
    if !HasSuffix(out, ".gz") {
      out := out + ".gz";
    }
    assert out == OutputPath(path, isDir, date);
    var dir := DownloadAll(staged, keep, fetches);
    var content, after := JoinChunks(dir, keep);
    return Saved(out, content, after);
  }

  /** One chunk download touches its own file only, seen from one name `x`:
      the chunk's file exists afterwards, no other entry changes, a kept
      file is left alone, and a file that is written holds the chunk's
      content. */
  lemma StageChunkAt(staged: Staging, chunk: nat, keep: bool, fetch: Fetch, x: string)
    requires chunk < MaxChunks
    ensures var after := StageChunk(staged, chunk, keep, fetch);
            (x in after <==> x in staged || x == ChunkName(chunk)) &&
            (x in staged && x != ChunkName(chunk) ==> after[x] == staged[x]) &&
            (keep && x in staged ==> after[x] == staged[x]) &&
            (x == ChunkName(chunk) && !(keep && x in staged) ==> after[x] == ChunkContent(ChunkPrefix(chunk), fetch))
  {
  }

  /** A name is among the first n chunk names when it is among the first
      n-1 or is the name of chunk n-1. */
  lemma ChunkNamesSnoc(n: nat, x: string)
    requires 0 < n <= MaxChunks
    ensures x in ChunkNames(n) <==> x in ChunkNames(n - 1) || x == ChunkName(n - 1)
  {
    assert ChunkNames(n) == ChunkNames(n - 1) + [ChunkName(n - 1)];
  }

  /** StageAllFrame for one name. */
  lemma {:induction false} StageAllAt(staged: Staging, keep: bool, fetches: seq<Fetch>, n: nat, x: string)
    requires n <= |fetches| && n <= MaxChunks
    ensures var after := StageAll(staged, keep, fetches, n);
            (x in after <==> x in staged || x in ChunkNames(n)) &&
            (x in staged && x !in ChunkNames(n) ==> after[x] == staged[x]) &&
            (keep && x in staged ==> after[x] == staged[x])
  {
    if n > 0 {
      StageAllAt(staged, keep, fetches, n - 1, x);
      StageChunkAt(StageAll(staged, keep, fetches, n - 1), n - 1, keep, fetches[n - 1], x);
      ChunkNamesSnoc(n, x);
    }
  }

  /** Downloading the first n chunks adds exactly their files to the staging
      directory and leaves every other entry alone; with keep set, no entry
      that was already there changes. */
  lemma StageAllFrame(staged: Staging, keep: bool, fetches: seq<Fetch>, n: nat)
    requires n <= |fetches| && n <= MaxChunks
    ensures forall x :: x in StageAll(staged, keep, fetches, n) <==> x in staged || x in ChunkNames(n)
    ensures forall x :: x in staged && x !in ChunkNames(n) ==> StageAll(staged, keep, fetches, n)[x] == staged[x]
    ensures keep ==> forall x :: x in staged ==> StageAll(staged, keep, fetches, n)[x] == staged[x]
  {
    forall x
      ensures x in StageAll(staged, keep, fetches, n) <==> x in staged || x in ChunkNames(n)
      ensures x in staged && x !in ChunkNames(n) ==> StageAll(staged, keep, fetches, n)[x] == staged[x]
      ensures keep && x in staged ==> StageAll(staged, keep, fetches, n)[x] == staged[x]
    {
      StageAllAt(staged, keep, fetches, n, x);
    }
  }

  // ---------------------------------------------------------------------------
  // A download into an empty staging directory assembles in chunk order
  // ---------------------------------------------------------------------------

  /** The chunk file names of chunks 0 … n-1, in chunk order. */
  function ChunkNames(n: nat): (l: seq<string>)
    requires n <= MaxChunks
    ensures |l| == n && forall i :: 0 <= i < n ==> l[i] == ChunkName(i)
  {
    if n == 0 then [] else ChunkNames(n - 1) + [ChunkName(n - 1)]
  }

  /** The chunks' contents one after the other, in chunk order. */
  function ConcatChunks(fetches: seq<Fetch>, n: nat): seq<string>
    requires n <= |fetches| && n <= MaxChunks
  {
    if n == 0 then [] else ConcatChunks(fetches, n - 1) + ChunkContent(ChunkPrefix(n - 1), fetches[n - 1])
  }

  /** Starting from an empty directory, the first n chunks leave exactly
      their own files, each holding its own content, whether or not keep
      is set. */
  lemma {:induction false} StageAllFresh(keep: bool, fetches: seq<Fetch>, n: nat)
    requires n <= |fetches| && n <= MaxChunks
    ensures forall x :: x in StageAll(map[], keep, fetches, n) <==> x in ChunkNames(n)
    ensures forall i :: 0 <= i < n ==> StageAll(map[], keep, fetches, n)[ChunkName(i)] == ChunkContent(ChunkPrefix(i), fetches[i])
  {
    StageAllFrame(map[], keep, fetches, n);
    forall i | 0 <= i < n
      ensures StageAll(map[], keep, fetches, n)[ChunkName(i)] == ChunkContent(ChunkPrefix(i), fetches[i])
    {
      StageAllOwn(keep, fetches, n, i);
    }
  }

  /** From an empty directory, chunk i's file holds chunk i's content once
      the first n chunks are down: later chunks have other names. */
  lemma {:induction false} StageAllOwn(keep: bool, fetches: seq<Fetch>, n: nat, i: nat)
    requires i < n <= |fetches| && n <= MaxChunks
    ensures ChunkName(i) in StageAll(map[], keep, fetches, n)
    ensures StageAll(map[], keep, fetches, n)[ChunkName(i)] == ChunkContent(ChunkPrefix(i), fetches[i])
  {
    var before := StageAll(map[], keep, fetches, n - 1);
    StageChunkAt(before, n - 1, keep, fetches[n - 1], ChunkName(i));
    if i < n - 1 {
      StageAllOwn(keep, fetches, n - 1, i);
      ChunkNameOrder(i, n - 1);
    } else {
      StageAllAt(map[], keep, fetches, n - 1, ChunkName(i));
      if ChunkName(i) in ChunkNames(n - 1) {
        var j :| 0 <= j < n - 1 && ChunkNames(n - 1)[j] == ChunkName(i);
        ChunkNameOrder(j, i);
      }
    }
  }

  /** The chunk names in chunk order are strictly sorted. */
  lemma ChunkNamesSorted(n: nat)
    requires n <= MaxChunks
    ensures StrictlySorted(ChunkNames(n))
  {
    forall j, k | 0 <= j < k < n
      ensures Less(ChunkNames(n)[j], ChunkNames(n)[k])
    {
      ChunkNameOrder(j, k);
    }
  }

  lemma {:induction false} AssembleChunks(fetches: seq<Fetch>, n: nat, m: nat, staged: Staging)
    requires m <= n <= |fetches| && n <= MaxChunks
    requires forall i :: 0 <= i < n ==> ChunkName(i) in staged && staged[ChunkName(i)] == ChunkContent(ChunkPrefix(i), fetches[i])
    ensures Assemble(ChunkNames(m), staged) == ConcatChunks(fetches, m)
    decreases m
  {
    if m > 0 {
      AssembleChunks(fetches, n, m - 1, staged);
      ChunkNamePassesFilter(m - 1);
      assert ChunkNames(m)[..m - 1] == ChunkNames(m - 1);
    }
  }

  /** A download into an empty staging directory produces the chunks'
      contents in chunk order: the listing of the chunk files is the chunk
      order because prefixes sort like chunk numbers. This holds for every
      number n of chunks, and so for the 1024*1024 chunks of Download. */
  lemma FreshDownloadInChunkOrder(keep: bool, fetches: seq<Fetch>, n: nat)
    requires n <= |fetches| && n <= MaxChunks
    ensures var final := StageAll(map[], keep, fetches, n);
            Assemble(SortedNames(final.Keys), final) == ConcatChunks(fetches, n)
  {
    var final := StageAll(map[], keep, fetches, n);
    StageAllFresh(keep, fetches, n);
    SortedNamesFacts(final.Keys);
    ChunkNamesSorted(n);
    StrictlySortedUnique(SortedNames(final.Keys), ChunkNames(n));
    AssembleChunks(fetches, n, n, final);
  }
}
