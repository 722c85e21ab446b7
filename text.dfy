/** The JavaScript string operations the front end relies on, on `seq<char>`:
    `trim`, `split` on one character, `join`, `indexOf`, `replace` with a string
    pattern (first occurrence only), `toLowerCase` (ASCII part) and the decimal
    `toString` of an integer id. */
module Text {

  import opened Wrappers

  /** ECMAScript WhiteSpace and LineTerminator code points, which `trim` strips. */
  predicate IsSpace(c: char) {
    c == ' ' || c == '\t' || c == '\n' || c == '\r' || c == '\U{B}' || c == '\U{C}'
    || c == '\U{A0}' || c == '\U{1680}' || ('\U{2000}' <= c <= '\U{200A}')
    || c == '\U{2028}' || c == '\U{2029}' || c == '\U{202F}' || c == '\U{205F}'
    || c == '\U{3000}' || c == '\U{FEFF}'
  }

  predicate AllSpace(s: string) {
    forall i :: 0 <= i < |s| ==> IsSpace(s[i])
  }

  /** `s` has nothing for `trim` to remove. */
  predicate IsTrimmed(s: string) {
    s == [] || (!IsSpace(s[0]) && !IsSpace(s[|s| - 1]))
  }

  /** The first index at or after `i` that holds no white space. */
  function SkipForward(s: string, i: nat): (j: nat)
    requires i <= |s|
    ensures i <= j <= |s|
    ensures forall m :: i <= m < j ==> IsSpace(s[m])
    ensures j < |s| ==> !IsSpace(s[j])
    decreases |s| - i
  {
    if i == |s| || !IsSpace(s[i]) then i else SkipForward(s, i + 1)
  }
  /** The end of `s[lo..j]` once the white space at its end is dropped. */
  function SkipBackward(s: string, lo: nat, j: nat): (e: nat)
    requires lo <= j <= |s|
    ensures lo <= e <= j
    ensures forall m :: e <= m < j ==> IsSpace(s[m])
    ensures lo < e ==> !IsSpace(s[e - 1])
  {
    if j == lo || !IsSpace(s[j - 1]) then j else SkipBackward(s, lo, j - 1)
  }
  /** How many white-space characters `trim` strips from the front of `s`. */
  function Lead(s: string): nat {
    SkipForward(s, 0)
  }

  /** `String.prototype.trim`: strips white space at both ends and keeps the
      middle untouched. */
  function Trim(s: string): (r: string)
    ensures IsTrimmed(r)
    ensures Lead(s) + |r| <= |s| && r == s[Lead(s)..Lead(s) + |r|]
    ensures AllSpace(s[..Lead(s)]) && AllSpace(s[Lead(s) + |r|..])
    ensures r == [] <==> AllSpace(s)
  {
    var b := Lead(s);
    var e := SkipBackward(s, b, |s|);
    assert AllSpace(s[..b]) && AllSpace(s[e..]);
    assert e == b ==> AllSpace(s);
    s[b..e]
  }
  /** A string `trim` leaves alone is exactly a trimmed one. */
  lemma {:induction false} TrimFixedPoint(s: string)
    ensures Trim(s) == s <==> IsTrimmed(s)
  {
    if IsTrimmed(s) && s != [] {
      assert Lead(s) == 0;
    }
  }

  lemma {:induction false} SkipForwardShift(c: char, p: string, i: nat)
    requires i <= |p|
    ensures SkipForward([c] + p, i + 1) == SkipForward(p, i) + 1
    decreases |p| - i
  {
    assert ([c] + p)[i + 1..] == p[i..];
    if i < |p| && IsSpace(p[i]) {
      SkipForwardShift(c, p, i + 1);
    }
  }

  lemma {:induction false} SkipBackwardShift(c: char, p: string, lo: nat, j: nat)
    requires lo <= j <= |p|
    ensures SkipBackward([c] + p, lo + 1, j + 1) == SkipBackward(p, lo, j) + 1
    decreases j
  {
    if j > lo {
      assert ([c] + p)[j] == p[j - 1];
      if IsSpace(p[j - 1]) {
        SkipBackwardShift(c, p, lo, j - 1);
      }
    }
  }

  /** White space in front does not change what `trim` gives. */
  lemma {:induction false} TrimSpaceFront(c: char, p: string)
    requires IsSpace(c)
    ensures Trim([c] + p) == Trim(p)
  {
    var b := Lead(p);
    var e := SkipBackward(p, b, |p|);
    TrimConsBounds(c, p);
    TrimBounds(p);
    SliceShift(c, p, b, e);
    assert Trim([c] + p) == ([c] + p)[b + 1..e + 1] == p[b..e] == Trim(p);
  }

  lemma {:induction false} TrimConsBounds(c: char, p: string)
    requires IsSpace(c)
    ensures Trim([c] + p) == ([c] + p)[Lead(p) + 1..SkipBackward(p, Lead(p), |p|) + 1]
  {
    var s := [c] + p;
    var b, e := Lead(p), SkipBackward(p, Lead(p), |p|);
    SkipForwardShift(c, p, 0);
    assert Lead(s) == SkipForward(s, 1) == b + 1;
    SkipBackwardShift(c, p, b, |p|);
    assert SkipBackward(s, b + 1, |s|) == e + 1;
    TrimBounds(s);
  }

  lemma TrimBounds(s: string)
    ensures Trim(s) == s[Lead(s)..SkipBackward(s, Lead(s), |s|)]
  {
  }

  lemma SliceShift<T>(c: T, p: seq<T>, b: nat, e: nat)
    requires b <= e <= |p|
    ensures ([c] + p)[b + 1..e + 1] == p[b..e]
  {
    var l, r := ([c] + p)[b + 1..e + 1], p[b..e];
    assert forall k :: 0 <= k < |l| ==> l[k] == r[k];
  }

  lemma {:induction false} TrimIdempotent(s: string)
    ensures Trim(Trim(s)) == Trim(s)
  {
    TrimFixedPoint(Trim(s));
  }

  predicate StartsWith(s: string, prefix: string) {
    |prefix| <= |s| && s[..|prefix|] == prefix
  }

  /** `s.split(sep)` for a one-character separator: the pieces between the
      occurrences of `sep`; the result always has at least one piece. */
  function Split(s: string, sep: char): (r: seq<string>)
    ensures |r| >= 1
    ensures forall i :: 0 <= i < |r| ==> sep !in r[i]
  {
    if s == [] then [""]
    else
      var rest := Split(s[1..], sep);
      if s[0] == sep then [""] + rest
      else [[s[0]] + rest[0]] + rest[1..]
  }

  /** `pieces.join(sep)`; the empty list joins to the empty string. */
  function Join(pieces: seq<string>, sep: string): string {
    if pieces == [] then ""
    else if |pieces| == 1 then pieces[0]
    else pieces[0] + sep + Join(pieces[1..], sep)
  }

  /** Splitting and re-joining on the same character gives the input back. */
  lemma {:induction false} JoinSplit(s: string, sep: char)
    ensures Join(Split(s, sep), [sep]) == s
  {
    if s != [] {
      var rest := Split(s[1..], sep);
      JoinSplit(s[1..], sep);
      if s[0] == sep {
        assert Split(s, sep) == [""] + rest;
        assert s == [sep] + s[1..];
      } else {
        var r := Split(s, sep);
        assert r == [[s[0]] + rest[0]] + rest[1..];
        if |rest| == 1 {
          assert r == [[s[0]] + rest[0]];
        } else {
          assert r[1..] == rest[1..];
          assert Join(rest, [sep]) == rest[0] + [sep] + Join(rest[1..], [sep]);
        }
      }
    }
  }

  /** Joining pieces that do not contain the separator and splitting again
      gives the pieces back. */
  lemma {:induction false} SplitJoin(pieces: seq<string>, sep: char)
    requires |pieces| >= 1
    requires forall i :: 0 <= i < |pieces| ==> sep !in pieces[i]
    ensures Split(Join(pieces, [sep]), sep) == pieces
  {
    if |pieces| == 1 {
      SplitNoSep(pieces[0], sep);
    } else {
      SplitJoin(pieces[1..], sep);
      SplitPrefix(pieces[0], Join(pieces[1..], [sep]), sep);
    }
  }

  lemma {:induction false} SplitNoSep(s: string, sep: char)
    requires sep !in s
    ensures Split(s, sep) == [s]
  {
    if s != [] {
      SplitNoSep(s[1..], sep);
      assert [s[0]] + s[1..] == s;
    }
  }

  /** Splitting `a + sep + b` where `a` has no separator puts `a` first. */
  lemma {:induction false} SplitPrefix(a: string, b: string, sep: char)
    requires sep !in a
    ensures Split(a + [sep] + b, sep) == [a] + Split(b, sep)
  {
    if a != [] {
      SplitPrefix(a[1..], b, sep);
      assert (a + [sep] + b)[1..] == a[1..] + [sep] + b;
      assert [a[0]] + a[1..] == a;
    } else {
      assert ([] + [sep] + b)[1..] == b;
    }
  }

  predicate OccursAt(s: string, pat: string, j: nat) {
    j + |pat| <= |s| && s[j..j + |pat|] == pat
  }

  /** The first position at which `pat` occurs in `s` (JavaScript `indexOf`). */
  function IndexOf(s: string, pat: string): (r: Option<nat>)
    ensures r.Some? ==> OccursAt(s, pat, r.value)
    ensures r.Some? ==> forall j: nat :: j < r.value ==> !OccursAt(s, pat, j)
    ensures r.None? ==> forall j: nat :: !OccursAt(s, pat, j)
  {
    if |pat| > |s| then None
    else if s[..|pat|] == pat then Some(0)
    else
      OccursShift(s, pat);
      match IndexOf(s[1..], pat)
      case None => None
      case Some(k) => Some(k + 1)
  }

  lemma {:induction false} OccursShift(s: string, pat: string)
    requires s != []
    ensures forall j: nat :: 0 < j ==> (OccursAt(s, pat, j) <==> OccursAt(s[1..], pat, j - 1))
  {
    forall j: nat | 0 < j ensures OccursAt(s, pat, j) <==> OccursAt(s[1..], pat, j - 1) {
      if j + |pat| <= |s| {
        assert s[1..][j - 1..j - 1 + |pat|] == s[j..j + |pat|];
      }
    }
  }

  /** A pattern whose first character does not occur before it is found
      right there. */
  lemma IndexOfAfterFree(a: string, pat: string)
    requires pat != [] && pat[0] !in a
    ensures IndexOf(a + pat, pat) == Some(|a|)
  {
    var s := a + pat;
    assert OccursAt(s, pat, |a|) by {
      assert s[|a|..|a| + |pat|] == pat;
    }
    forall j: nat | j < |a| ensures !OccursAt(s, pat, j) {
      assert s[j] == a[j] && a[j] != pat[0];
      if j + |pat| <= |s| {
        assert s[j..j + |pat|][0] == s[j];
      }
    }
  }

  /** `s.replace(pat, v)` with a string pattern: only the first occurrence is
      replaced, and `s` is returned unchanged when `pat` does not occur. */
  function ReplaceFirst(s: string, pat: string, v: string): (r: string)
    ensures (forall j: nat :: !OccursAt(s, pat, j)) ==> r == s
    ensures IndexOf(s, pat).Some? ==>
              var k := IndexOf(s, pat).value;
              |r| == |s| - |pat| + |v|
              && r[..k] == s[..k] && r[k..k + |v|] == v && r[k + |v|..] == s[k + |pat|..]
  {
    match IndexOf(s, pat)
    case None => s
    case Some(k) => s[..k] + v + s[k + |pat|..]
  }

  /** Replacing the first occurrence: whatever precedes it is untouched, and
      what follows (later occurrences included) is kept verbatim. */
  lemma {:induction false} ReplaceFirstSplits(a: string, pat: string, b: string, v: string)
    requires IndexOf(a + pat, pat) == Some(|a|)
    ensures ReplaceFirst(a + pat + b, pat, v) == a + v + b
  {
    var s := a + pat + b;
    forall j: nat | j <= |a| ensures OccursAt(s, pat, j) <==> OccursAt(a + pat, pat, j) {
      assert s[j..j + |pat|] == (a + pat)[j..j + |pat|];
    }
    assert OccursAt(s, pat, |a|);
    assert IndexOf(s, pat) == Some(|a|);
    assert s[..|a|] == a;
    assert s[|a| + |pat|..] == b;
  }

  function LowerChar(c: char): char {
    if 'A' <= c <= 'Z' then (c as int + 32) as char else c
  }

  /** `toLowerCase` on the ASCII letters. */
  function ToLowerAscii(s: string): (r: string)
    ensures |r| == |s|
    ensures forall i :: 0 <= i < |s| ==> r[i] == LowerChar(s[i])
  {
    if s == [] then [] else [LowerChar(s[0])] + ToLowerAscii(s[1..])
  }

  function DigitChar(d: nat): char
    requires d < 10
  {
    ('0' as int + d) as char
  }

  function DigitValue(c: char): int {
    c as int - '0' as int
  }

  predicate IsDigit(c: char) {
    '0' <= c <= '9'
  }

  /** Decimal digits of a natural number, most significant first. */
  function NatToString(n: nat): (r: string)
    ensures |r| >= 1
    ensures forall i :: 0 <= i < |r| ==> IsDigit(r[i])
  {
    if n < 10 then [DigitChar(n)] else NatToString(n / 10) + [DigitChar(n % 10)]
  }

  /** `Number.prototype.toString()` for an integer id. */
  function IntToString(n: int): string {
    if n < 0 then "-" + NatToString(-n) else NatToString(n)
  }

  function ParseDigits(s: string): int {
    if s == [] then 0 else ParseDigits(s[..|s| - 1]) * 10 + DigitValue(s[|s| - 1])
  }

  lemma {:induction false} ParseNatToString(n: nat)
    ensures ParseDigits(NatToString(n)) == n
  {
    if n >= 10 {
      var s := NatToString(n);
      ParseNatToString(n / 10);
      assert s[..|s| - 1] == NatToString(n / 10);
    }
  }

  /** The sign shows in the first character. */
  lemma SignChar(n: int)
    ensures |IntToString(n)| >= 1
    ensures IntToString(n)[0] == '-' <==> n < 0
  {
    if n >= 0 {
      assert IsDigit(NatToString(n)[0]);
    }
  }

  lemma NatToStringInjective(a: nat, b: nat)
    requires NatToString(a) == NatToString(b)
    ensures a == b
  {
    ParseNatToString(a);
    ParseNatToString(b);
  }

  /** Different backend ids give different front-end ids. */
  lemma {:induction false} IntToStringInjective(a: int, b: int)
    requires IntToString(a) == IntToString(b)
    ensures a == b
  {
    SignChar(a);
    SignChar(b);
    if a < 0 {
      var sa, sb := IntToString(a), IntToString(b);
      assert sa[1..] == NatToString(-a) && sb[1..] == NatToString(-b);
      NatToStringInjective(-a, -b);
    } else {
      NatToStringInjective(a, b);
    }
  }
}
