/**
  The parts of Go's string semantics the dump tooling relies on: the ordering
  of the `<` operator on strings, `strings.TrimSpace`, `strings.ToUpper`,
  `strings.HasSuffix`, `strings.Split` and the ".gz" suffixing idiom shared by
  the downloader and the merger. Go strings are byte strings; here a string is
  a sequence of characters, which agrees with Go on the ASCII text of dumps.
*/
module GoStrings {

  // ---------------------------------------------------------------------------
  // Ordering: Go's `a < b` on strings
  // ---------------------------------------------------------------------------

  /** Go's `a < b`: lexicographic order, a proper prefix is the smaller string. */
  predicate Less(a: string, b: string)
  {
    if |b| == 0 then false
    else if |a| == 0 then true
    else if a[0] != b[0] then a[0] < b[0]
    else Less(a[1..], b[1..])
  }

  lemma {:induction false} LessIrreflexive(a: string)
    ensures !Less(a, a)
  {
    if |a| > 0 {
      LessIrreflexive(a[1..]);
    }
  }

  lemma {:induction false} LessAsymmetric(a: string, b: string)
    requires Less(a, b)
    ensures !Less(b, a)
  {
    if |a| > 0 && a[0] == b[0] {
      LessAsymmetric(a[1..], b[1..]);
    }
  }

  lemma {:induction false} LessTransitive(a: string, b: string, c: string)
    requires Less(a, b) && Less(b, c)
    ensures Less(a, c)
  {
    if |a| > 0 && a[0] == b[0] && b[0] == c[0] {
      LessTransitive(a[1..], b[1..], c[1..]);
    }
  }

  /** Any two different strings are ordered one way or the other. */
  lemma {:induction false} LessTotal(a: string, b: string)
    requires a != b
    ensures Less(a, b) || Less(b, a)
  {
    if |a| > 0 && |b| > 0 && a[0] == b[0] {
      assert a == [a[0]] + a[1..] && b == [b[0]] + b[1..];
      LessTotal(a[1..], b[1..]);
    }
  }

  /** "Not below" is transitive as well. */
  lemma NotLessTransitive(a: string, b: string, c: string)
    requires !Less(b, a) && !Less(c, b)
    ensures !Less(c, a)
  {
    if Less(c, a) {
      if a != b {
        LessTotal(a, b);
        LessTransitive(c, a, b);
      }
    }
  }

  /** Comparing two concatenations whose heads have equal length compares the
      heads first and falls back to the tails only on a tie. */
  lemma {:induction false} LessAppend(x: string, y: string, u: string, v: string)
    requires |x| == |y|
    ensures Less(x + u, y + v) <==> Less(x, y) || (x == y && Less(u, v))
  {
    if |x| == 0 {
      assert x + u == u && y + v == v;
    } else {
      assert (x + u)[0] == x[0] && (y + v)[0] == y[0];
      assert (x + u)[1..] == x[1..] + u && (y + v)[1..] == y[1..] + v;
      LessAppend(x[1..], y[1..], u, v);
      if x[0] == y[0] {
        assert x == y <==> x[1..] == y[1..] by {
          assert x == [x[0]] + x[1..] && y == [y[0]] + y[1..];
        }
      }
    }
  }

  /** A string is smaller than every proper extension of it. */
  lemma {:induction false} LessProperExtension(p: string, t: string)
    requires |t| > 0
    ensures Less(p, p + t)
  {
    if |p| > 0 {
      assert (p + t)[0] == p[0] && (p + t)[1..] == p[1..] + t;
      LessProperExtension(p[1..], t);
    }
  }

  /** The larger of two strings in Go's order, preferring `a` on a tie:
      `m := a; if b > m { m = b }`. */
  function MaxString(a: string, b: string): (r: string)
    ensures r == a || r == b
    ensures !Less(r, a) && !Less(r, b)
  {
    LessIrreflexive(a);
    LessIrreflexive(b);
    if Less(a, b) then
      LessAsymmetric(a, b);
      b
    else
      a
  }

  // ---------------------------------------------------------------------------
  // strings.TrimSpace
  // ---------------------------------------------------------------------------

  /** Go's unicode.IsSpace, which strings.TrimSpace strips. */
  predicate IsSpace(c: char)
  {
    var n := c as int;
    n == 0x20 || (0x09 <= n <= 0x0D) || n == 0x85 || n == 0xA0 || n == 0x1680
    || (0x2000 <= n <= 0x200A) || n == 0x2028 || n == 0x2029 || n == 0x202F
    || n == 0x205F || n == 0x3000
  }

  /** `s` with its leading white space removed. */
  function TrimLeft(s: string): (r: string)
    ensures |r| <= |s|
    ensures r != [] ==> !IsSpace(r[0])
  {
    if s != [] && IsSpace(s[0]) then TrimLeft(s[1..]) else s
  }

  /** `s` with its trailing white space removed. */
  function TrimRight(s: string): (r: string)
    ensures |r| <= |s|
    ensures r != [] ==> !IsSpace(r[|r| - 1])
  {
    if s != [] && IsSpace(s[|s| - 1]) then TrimRight(s[..|s| - 1]) else s
  }

  /** strings.TrimSpace: `s` without leading and trailing white space; the
      result is a contiguous piece of `s` and is bounded by non-space. */
  function TrimSpace(s: string): (r: string)
    ensures |r| <= |s|
    ensures r != [] ==> !IsSpace(r[0]) && !IsSpace(r[|r| - 1])
  {
    TrimRightIsPrefix(TrimLeft(s));
    TrimRight(TrimLeft(s))
  }

  /** TrimLeft removes a prefix, and that prefix is white space. */
  lemma {:induction false} TrimLeftIsSuffix(s: string)
    ensures TrimLeft(s) == s[|s| - |TrimLeft(s)|..]
    ensures forall k :: 0 <= k < |s| - |TrimLeft(s)| ==> IsSpace(s[k])
  {
    if s != [] && IsSpace(s[0]) {
      var t := s[1..];
      TrimLeftIsSuffix(t);
      assert t[|t| - |TrimLeft(t)|..] == s[|s| - |TrimLeft(s)|..];
      forall k | 1 <= k < |s| - |TrimLeft(s)|
        ensures IsSpace(s[k])
      {
        assert s[k] == t[k - 1];
      }
    }
  }

  /** TrimRight removes a suffix, and that suffix is white space. */
  lemma {:induction false} TrimRightIsPrefix(s: string)
    ensures TrimRight(s) == s[..|TrimRight(s)|]
    ensures forall k :: |TrimRight(s)| <= k < |s| ==> IsSpace(s[k])
  {
    if s != [] && IsSpace(s[|s| - 1]) {
      var t := s[..|s| - 1];
      TrimRightIsPrefix(t);
      forall k | |TrimRight(s)| <= k < |t|
        ensures IsSpace(s[k])
      {
        assert s[k] == t[k];
      }
    }
  }

  /** The trimmed string is a contiguous piece of the original. */
  lemma TrimSpaceIsInfix(s: string)
    ensures exists i :: 0 <= i <= |s| - |TrimSpace(s)| && s[i..][..|TrimSpace(s)|] == TrimSpace(s)
  {
    var l := TrimLeft(s);
    TrimLeftIsSuffix(s);
    TrimRightIsPrefix(l);
    assert s[|s| - |l|..][..|TrimSpace(s)|] == TrimSpace(s);
  }

  // ---------------------------------------------------------------------------
  // strings.ToUpper, restricted to ASCII
  // ---------------------------------------------------------------------------

  function UpperChar(c: char): char
  {
    if 'a' <= c <= 'z' then (c as int - 32) as char else c
  }

  /** strings.ToUpper on ASCII letters; every other character is kept. */
  function ToUpper(s: string): (r: string)
    ensures |r| == |s|
    ensures forall i :: 0 <= i < |s| ==> r[i] == UpperChar(s[i])
  {
    if s == [] then [] else [UpperChar(s[0])] + ToUpper(s[1..])
  }

  lemma ToUpperIdempotent(s: string)
    ensures ToUpper(ToUpper(s)) == ToUpper(s)
  {
  }

  predicate IsLowerHexChar(c: char) { '0' <= c <= '9' || 'a' <= c <= 'f' }
  predicate IsUpperHexChar(c: char) { '0' <= c <= '9' || 'A' <= c <= 'F' }

  /** Only digits and lower-case hex letters. */
  predicate IsLowerHex(s: string) { forall i :: 0 <= i < |s| ==> IsLowerHexChar(s[i]) }
  /** Only digits and upper-case hex letters. */
  predicate IsUpperHex(s: string) { forall i :: 0 <= i < |s| ==> IsUpperHexChar(s[i]) }

  /** Upper-casing leaves an upper-case hex string as it is. */
  lemma ToUpperOfUpperHex(s: string)
    requires IsUpperHex(s)
    ensures ToUpper(s) == s
  {
  }

  /** Upper-casing two lower-case hex strings keeps their relative order:
      digits stay below letters on both sides of the mapping. */
  lemma {:induction false} ToUpperKeepsLowerHexOrder(a: string, b: string)
    requires IsLowerHex(a) && IsLowerHex(b)
    ensures Less(ToUpper(a), ToUpper(b)) <==> Less(a, b)
  {
    if |a| > 0 && |b| > 0 {
      assert ToUpper(a)[1..] == ToUpper(a[1..]);
      assert ToUpper(b)[1..] == ToUpper(b[1..]);
      ToUpperKeepsLowerHexOrder(a[1..], b[1..]);
    }
  }

  // ---------------------------------------------------------------------------
  // Suffixes and the ".gz" idiom
  // ---------------------------------------------------------------------------

  predicate HasPrefix(s: string, p: string)
  {
    |p| <= |s| && s[..|p|] == p
  }

  predicate HasSuffix(s: string, suffix: string)
  {
    |suffix| <= |s| && s[|s| - |suffix|..] == suffix
  }

  /** `if !strings.HasSuffix(p, ".gz") { p += ".gz" }`: the result ends in
      ".gz", extends `p`, and equals `p` when `p` already has the suffix. */
  function WithGzSuffix(p: string): (r: string)
    ensures HasSuffix(r, ".gz")
    ensures HasPrefix(r, p) && |r| <= |p| + 3
    ensures HasSuffix(p, ".gz") <==> r == p
    ensures !HasSuffix(p, ".gz") ==> r == p + ".gz"
  {
    if HasSuffix(p, ".gz") then p
    else
      var r := p + ".gz";
      assert r[|r| - 3..] == ".gz";
      r
  }

  /** A suffix of `b` is a suffix of anything ending in `b`. */
  lemma HasSuffixAppend(a: string, b: string, suffix: string)
    requires HasSuffix(b, suffix)
    ensures HasSuffix(a + b, suffix)
  {
    assert (a + b)[|a + b| - |suffix|..] == b[|b| - |suffix|..];
  }

  lemma WithGzSuffixIdempotent(p: string)
    ensures WithGzSuffix(WithGzSuffix(p)) == WithGzSuffix(p)
  {
  }

  // ---------------------------------------------------------------------------
  // strings.Split and its inverse strings.Join
  // ---------------------------------------------------------------------------

  /** Position of the first `c` in `s`. */
  function IndexOf(s: string, c: char): (i: nat)
    requires c in s
    ensures i < |s| && s[i] == c && c !in s[..i]
  {
    if s[0] == c then 0 else 1 + IndexOf(s[1..], c)
  }

  /** strings.Split(s, sep) for a one-character separator: the pieces between
      separators, at least one (the empty string splits into [""]). */
  function Split(s: string, sep: char): (parts: seq<string>)
    ensures |parts| >= 1
    ensures forall k :: 0 <= k < |parts| ==> sep !in parts[k]
    decreases |s|
  {
    if sep !in s then [s]
    else
      var i := IndexOf(s, sep);
      [s[..i]] + Split(s[i + 1..], sep)
  }

  /** strings.Join(parts, sep). */
  function Join(parts: seq<string>, sep: char): string
    requires |parts| >= 1
  {
    if |parts| == 1 then parts[0] else parts[0] + [sep] + Join(parts[1..], sep)
  }

  /** Joining the pieces back with the separator restores the string. */
  lemma {:induction false} JoinSplit(s: string, sep: char)
    ensures Join(Split(s, sep), sep) == s
    decreases |s|
  {
    if sep in s {
      var i := IndexOf(s, sep);
      JoinSplit(s[i + 1..], sep);
      assert s == s[..i] + [sep] + s[i + 1..];
    }
  }

  /** Splitting a join of separator-free pieces gives the pieces back. */
  lemma {:induction false} SplitJoin(parts: seq<string>, sep: char)
    requires |parts| >= 1
    requires forall k :: 0 <= k < |parts| ==> sep !in parts[k]
    ensures Split(Join(parts, sep), sep) == parts
  {
    if |parts| > 1 {
      var rest := Join(parts[1..], sep);
      var s := parts[0] + [sep] + rest;
      assert s[|parts[0]|] == sep;
      assert s[..|parts[0]|] == parts[0];
      assert sep in s;
      var i := IndexOf(s, sep);
      assert i == |parts[0]|;
      assert s[i + 1..] == rest;
      SplitJoin(parts[1..], sep);
    }
  }
}
