/** The `**bold**` splitter the comparison dialog applies to every paragraph
    and list item of the AI's answer (`renderTextWithBold`): the text is cut
    into plain and bold segments, produced as values instead of JSX. */
module BoldText {

  import opened Wrappers

  datatype Inline = Plain(text: string) | Bold(text: string)

  // ---------------------------------------------------------------------------
  // `**bold**` runs: the regular expression /\*\*(.*?)\*\*/g

  /** The characters `.` does not match in a JavaScript regular expression. */
  predicate IsLineTerminator(c: char) {
    c == '\n' || c == '\r' || c == '\U{2028}' || c == '\U{2029}'
  }

  predicate StarsAt(text: string, i: nat) {
    i + 2 <= |text| && text[i] == '*' && text[i + 1] == '*'
  }

  lemma StarsSlice(text: string, i: nat)
    requires StarsAt(text, i)
    ensures text[i..i + 2] == "**"
  {
  }

  /** Where the lazy `(.*?)` that starts at `q` stops: the first `**` at or
      after `q` with no line terminator before it. */
  function CloseFrom(text: string, q: nat): (r: Option<nat>)
    requires q <= |text|
    ensures r.Some? ==> q <= r.value && StarsAt(text, r.value)
    decreases |text| - q
  {
    if q + 2 > |text| then None
    else if StarsAt(text, q) then Some(q)
    else if IsLineTerminator(text[q]) then None
    else CloseFrom(text, q + 1)
  }

  /** The end of the bold text when a match starts at `p`. */
  function MatchAt(text: string, p: nat): (r: Option<nat>)
    requires p <= |text|
    ensures r.Some? ==> p + 2 <= r.value && StarsAt(text, p) && StarsAt(text, r.value)
  {
    if StarsAt(text, p) then CloseFrom(text, p + 2) else None
  }

  /** `boldRegex.exec(text)` with `lastIndex == from`: the leftmost match. */
  function FindMatch(text: string, from: nat): (r: Option<nat>)
    requires from <= |text|
    ensures r.Some? ==> from <= r.value <= |text| && MatchAt(text, r.value).Some?
    decreases |text| - from
  {
    if MatchAt(text, from).Some? then Some(from)
    else if from == |text| then None
    else FindMatch(text, from + 1)
  }

  /** The match is lazy and stays on one line: the bold text holds no `**`
      and no line terminator. */
  lemma {:induction false} CloseFromLazy(text: string, q: nat)
    requires q <= |text| && CloseFrom(text, q).Some?
    ensures forall k :: q <= k < CloseFrom(text, q).value ==> !IsLineTerminator(text[k])
    ensures forall k :: q <= k < CloseFrom(text, q).value ==> !StarsAt(text, k)
    decreases |text| - q
  {
    if !StarsAt(text, q) {
      CloseFromLazy(text, q + 1);
    }
  }

  /** The match found is the leftmost one; `None` means there is none. */
  lemma {:induction false} FindMatchLeftmost(text: string, from: nat)
    requires from <= |text|
    ensures FindMatch(text, from).Some? ==> forall p :: from <= p < FindMatch(text, from).value ==> MatchAt(text, p).None?
    ensures FindMatch(text, from).None? ==> forall p :: from <= p <= |text| ==> MatchAt(text, p).None?
    decreases |text| - from
  {
    if MatchAt(text, from).None? && from < |text| {
      FindMatchLeftmost(text, from + 1);
    }
  }

  /** The search for the closing `**` misses none: a `**` at `k` that the
      search reaches without crossing a line terminator stops it at `k` or
      earlier. */
  lemma {:induction false} CloseFromComplete(text: string, q: nat, k: nat)
    requires q <= k && StarsAt(text, k)
    requires forall m :: q <= m < k ==> !IsLineTerminator(text[m])
    ensures CloseFrom(text, q).Some? && CloseFrom(text, q).value <= k
    decreases k - q
  {
    if q < k && !StarsAt(text, q) {
      CloseFromComplete(text, q + 1, k);
    }
  }

  /** `**` at `p` and again at `k`, with the text between them on one line:
      what the bold pattern can match from `p`, stated on the text alone. */
  predicate PairAt(text: string, p: nat, k: nat) {
    p + 2 <= k && StarsAt(text, p) && StarsAt(text, k)
    && forall m :: p + 2 <= m < k ==> !IsLineTerminator(text[m])
  }

  /** A match starts at `p` exactly when a pair starts there. */
  lemma MatchAtIffPair(text: string, p: nat)
    requires p <= |text|
    ensures MatchAt(text, p).Some? <==> exists k :: PairAt(text, p, k)
  {
    if MatchAt(text, p).Some? {
      CloseFromLazy(text, p + 2);
      assert PairAt(text, p, MatchAt(text, p).value);
    } else if exists k :: PairAt(text, p, k) {
      var k :| PairAt(text, p, k);
      CloseFromComplete(text, p + 2, k);
    }
  }

  /** Where the plain text from `last` to `p` becomes a segment: only when
      it is not empty (`match.index > lastIndex`, `lastIndex < text.length`). */
  function PlainIfAny(s: string): (r: seq<Inline>)
    ensures r == [] <==> s == []
  {
    if s == [] then [] else [Plain(s)]
  }

  /** Where the search resumes after the match found from `last`:
      `match.index + match[0].length`. */
  function NextFrom(text: string, last: nat): (r: nat)
    requires last <= |text| && FindMatch(text, last).Some?
    ensures last < r <= |text|
  {
    MatchAt(text, FindMatch(text, last).value).value + 2
  }

  /** The segments of the text from `last` on, as the `exec` loop collects
      them when `lastIndex == last`: the plain text before the next match,
      the match's inner text as bold, then the segments after the match. */
  function Segments(text: string, last: nat): seq<Inline>
    requires last <= |text|
    decreases |text| - last
  {
    match FindMatch(text, last)
    case None => PlainIfAny(text[last..])
    case Some(p) =>
      PlainIfAny(text[last..p]) + [Bold(text[p + 2..NextFrom(text, last) - 2])] + Segments(text, NextFrom(text, last))
  }

  /** One match: the segments from `last` on start with the plain text
      before it, if any, and its bold text. */
  lemma SegmentsUnfold(text: string, last: nat, p: nat, q: nat)
    requires last <= |text| && FindMatch(text, last) == Some(p) && MatchAt(text, p) == Some(q)
    ensures NextFrom(text, last) == q + 2
    ensures Segments(text, last) == PlainIfAny(text[last..p]) + [Bold(text[p + 2..q])] + Segments(text, NextFrom(text, last))
  {
  }

  /** Putting `**` back around the bold segments gives the text back. */
  lemma {:induction false} SegmentsRejoin(text: string, last: nat)
    requires last <= |text|
    ensures Rejoin(Segments(text, last), "**") == text[last..]
    decreases |text| - last
  {
    if FindMatch(text, last).None? {
      PlainIfAnyRejoin(text[last..], "**");
    } else {
      SegmentsRejoin(text, NextFrom(text, last));
      var p := FindMatch(text, last).value;
      SegmentsRejoinStep(text, last, p, MatchAt(text, p).value);
    }
  }

  lemma SegmentsRejoinStep(text: string, last: nat, p: nat, q: nat)
    requires last <= |text| && FindMatch(text, last) == Some(p) && MatchAt(text, p) == Some(q)
    requires Rejoin(Segments(text, NextFrom(text, last)), "**") == text[NextFrom(text, last)..]
    ensures Rejoin(Segments(text, last), "**") == text[last..]
  {
    SegmentsUnfold(text, last, p, q);
    StarsSlice(text, p);
    StarsSlice(text, q);
    ConsRejoin(text, last, p, q, Segments(text, NextFrom(text, last)), "**");
  }

  /** `renderTextWithBold(text)`: when the loop collects nothing (only for
      the empty text) the text itself is the one plain segment. */
  function TextWithBold(text: string): seq<Inline> {
    var parts := Segments(text, 0);
    if parts == [] then [Plain(text)] else parts
  }

  /** The text a segment list came from: bold segments get the delimiter
      back around them. */
  function Rejoin(parts: seq<Inline>, delim: string): string {
    if parts == [] then "" else Source(parts[0], delim) + Rejoin(parts[1..], delim)
  }

  /** The text one segment came from. */
  function Source(part: Inline, delim: string): string {
    match part
    case Plain(t) => t
    case Bold(t) => delim + t + delim
  }

  lemma {:induction false} RejoinAppend(a: seq<Inline>, b: seq<Inline>, d: string)
    ensures Rejoin(a + b, d) == Rejoin(a, d) + Rejoin(b, d)
  {
    if a != [] {
      assert (a + b)[1..] == a[1..] + b;
      RejoinAppend(a[1..], b, d);
    } else {
      assert a + b == b;
    }
  }

  lemma PlainIfAnyRejoin(s: string, d: string)
    ensures Rejoin(PlainIfAny(s), d) == s
  {
    if s != [] {
      assert Rejoin([Plain(s)], d) == s + Rejoin([], d);
    }
  }

  /** Plain text, one bold run and the rest, re-joined. */
  lemma RejoinMatch(a: string, b: string, c: string, rest: seq<Inline>, d: string)
    requires Rejoin(rest, d) == c
    ensures Rejoin(PlainIfAny(a) + [Bold(b)] + rest, d) == (a + (d + b + d)) + c
  {
    PlainIfAnyRejoin(a, d);
    assert Rejoin([Bold(b)], d) == Source(Bold(b), d) + Rejoin([], d);
    RejoinAppend(PlainIfAny(a) + [Bold(b)], rest, d);
    RejoinAppend(PlainIfAny(a), [Bold(b)], d);
  }

  /** The text from `last` on, cut at a match with delimiters at `p` and `q`. */
  lemma CutAtMatch(text: string, last: nat, p: nat, q: nat, d: string)
    requires |d| == 2 && last <= p && p + 2 <= q && q + 2 <= |text|
    requires text[p..p + 2] == d && text[q..q + 2] == d
    ensures text[last..] == (text[last..p] + (d + text[p + 2..q] + d)) + text[q + 2..]
  {
    assert text[p..q + 2] == d + text[p + 2..q] + d;
    assert text[last..] == (text[last..p] + text[p..q + 2]) + text[q + 2..];
  }

  /** One step of the round trip: the segments of one match in front of
      segments that re-join to the text after it re-join to the text from
      `last` on. */
  lemma ConsRejoin(text: string, last: nat, p: nat, q: nat, rest: seq<Inline>, d: string)
    requires |d| == 2 && last <= p && p + 2 <= q && q + 2 <= |text|
    requires text[p..p + 2] == d && text[q..q + 2] == d
    requires Rejoin(rest, d) == text[q + 2..]
    ensures Rejoin(PlainIfAny(text[last..p]) + [Bold(text[p + 2..q])] + rest, d) == text[last..]
  {
    RejoinMatch(text[last..p], text[p + 2..q], text[q + 2..], rest, d);
    CutAtMatch(text, last, p, q, d);
  }

  /** The splitter loses nothing: its segments, with `**` put back around the
      bold ones, are the input; it returns an empty list for no input, and
      the empty text comes back as itself. */
  lemma TextWithBoldRejoin(text: string)
    ensures Rejoin(TextWithBold(text), "**") == text
    ensures Segments(text, 0) == [] <==> text == []
    ensures |TextWithBold(text)| >= 1
  {
    SegmentsRejoin(text, 0);
    if Segments(text, 0) == [] {
      assert Rejoin([Plain(text)], "**") == text + Rejoin([], "**");
    }
  }

  /** The text comes back as one plain segment exactly when no `**...**`
      pair occurs on one line: an unclosed `**` stays in the plain text. */
  lemma PlainIffUnmatched(text: string)
    ensures TextWithBold(text) == [Plain(text)] <==> forall p :: 0 <= p <= |text| ==> MatchAt(text, p).None?
  {
    FindMatchLeftmost(text, 0);
    if FindMatch(text, 0).Some? {
      var p := FindMatch(text, 0).value;
      var q := MatchAt(text, p).value;
      var segs := Segments(text, 0);
      assert segs == PlainIfAny(text[..p]) + [Bold(text[p + 2..q])] + Segments(text, q + 2);
      if p > 0 {
        assert |segs| >= 2;
      } else {
        assert segs[0] == Bold(text[p + 2..q]);
      }
    }
  }

  /** The same on the text alone: the text comes back as one plain segment
      exactly when no two `**` on one line enclose a run. */
  lemma PlainIffNoPair(text: string)
    ensures TextWithBold(text) == [Plain(text)] <==> forall p, k :: !PairAt(text, p, k)
  {
    PlainIffUnmatched(text);
    if TextWithBold(text) == [Plain(text)] {
      forall p, k ensures !PairAt(text, p, k) {
        if PairAt(text, p, k) {
          MatchAtIffPair(text, p);
        }
      }
    } else {
      var p :| 0 <= p <= |text| && MatchAt(text, p).Some?;
      MatchAtIffPair(text, p);
    }
  }

  /** What a segment looks like: plain text is never empty; bold text
      stays on one line and holds no `**` (the match is lazy). */
  predicate ShapeOk(part: Inline) {
    match part
    case Plain(t) => t != ""
    case Bold(t) =>
      (forall c :: c in t ==> !IsLineTerminator(c))
      && (forall k :: 0 <= k < |t| - 1 ==> !(t[k] == '*' && t[k + 1] == '*'))
  }

  predicate WellShaped(parts: seq<Inline>) {
    forall k :: 0 <= k < |parts| ==> ShapeOk(parts[k])
  }

  lemma WellShapedConcat(a: seq<Inline>, b: seq<Inline>, c: seq<Inline>)
    requires WellShaped(a) && WellShaped(b) && WellShaped(c)
    ensures WellShaped(a + b + c)
  {
    forall k | 0 <= k < |a + b + c| ensures ShapeOk((a + b + c)[k]) {
      if k < |a| {
        assert (a + b + c)[k] == a[k];
      } else if k < |a| + |b| {
        assert (a + b + c)[k] == b[k - |a|];
      } else {
        assert (a + b + c)[k] == c[k - |a| - |b|];
      }
    }
  }

  /** The bold text of the match at `p` closing at `q` has the shape of a
      bold segment. */
  lemma BoldShape(text: string, p: nat, q: nat)
    requires p <= |text| && MatchAt(text, p) == Some(q)
    ensures ShapeOk(Bold(text[p + 2..q]))
  {
    CloseFromLazy(text, p + 2);
    var b := text[p + 2..q];
    forall c | c in b ensures !IsLineTerminator(c) {
      var k :| 0 <= k < |b| && b[k] == c;
      assert text[p + 2 + k] == c;
    }
    forall k | 0 <= k < |b| - 1 ensures !(b[k] == '*' && b[k + 1] == '*') {
      assert !StarsAt(text, p + 2 + k);
    }
  }

  /** Plain segments are never empty, and bold text never spans a line
      terminator or holds `**`. */
  lemma {:induction false} SegmentsShape(text: string, last: nat)
    requires last <= |text|
    ensures WellShaped(Segments(text, last))
    decreases |text| - last
  {
    if FindMatch(text, last).Some? {
      SegmentsShape(text, NextFrom(text, last));
      var p := FindMatch(text, last).value;
      SegmentsShapeStep(text, last, p, MatchAt(text, p).value);
    }
  }

  lemma SegmentsShapeStep(text: string, last: nat, p: nat, q: nat)
    requires last <= |text| && FindMatch(text, last) == Some(p) && MatchAt(text, p) == Some(q)
    requires WellShaped(Segments(text, NextFrom(text, last)))
    ensures WellShaped(Segments(text, last))
  {
    SegmentsUnfold(text, last, p, q);
    BoldShape(text, p, q);
    WellShapedConcat(PlainIfAny(text[last..p]), [Bold(text[p + 2..q])], Segments(text, NextFrom(text, last)));
  }

  /** After the last match the rest of the text, if any, is the one
      remaining segment. */
  lemma SegmentsTail(text: string, last: nat)
    requires last <= |text| && FindMatch(text, last).None?
    ensures Segments(text, last) == PlainIfAny(text[last..])
  {
  }

  /** The loop invariant survives one match: the plain text before it, if
      any, and its bold text are the next segments. */
  lemma SegmentsAfterStep(text: string, last: nat, index: nat, close: nat,
                          next: nat, before: seq<Inline>, plain: seq<Inline>, after: seq<Inline>, total: seq<Inline>)
    requires last <= |text| && FindMatch(text, last) == Some(index) && MatchAt(text, index) == Some(close)
    requires next == close + 2
    requires before + Segments(text, last) == total
    requires last < index ==> plain == [Plain(text[last..index])]
    requires index <= last ==> plain == []
    requires after == before + plain + [Bold(text[index + 2..close])]
    ensures next <= |text|
    ensures after + Segments(text, next) == total
  {
    assert plain == PlainIfAny(text[last..index]);
    SegmentsUnfold(text, last, index, close);
    AppendAssoc(before, PlainIfAny(text[last..index]), [Bold(text[index + 2..close])], Segments(text, close + 2));
  }

  lemma AppendAssoc<T>(a: seq<T>, b: seq<T>, c: seq<T>, d: seq<T>)
    ensures a + (b + c + d) == a + b + c + d
  {
  }

  /** The `while ((match = boldRegex.exec(text)) !== null)` loop of
      `renderTextWithBold`. */
  method CollectSegments(text: string) returns (parts: seq<Inline>)
    ensures parts == Segments(text, 0)
  {
    parts := [];
    var lastIndex := 0;
    ghost var total := Segments(text, 0);
    var m := FindMatch(text, lastIndex);
    while m.Some?
      invariant lastIndex <= |text|
      invariant m == FindMatch(text, lastIndex)
      invariant parts + Segments(text, lastIndex) == total
      decreases |text| - lastIndex
    {
      var index := m.value;
      var close := MatchAt(text, index).value;
      ghost var before, plain := parts, [];
      if index > lastIndex {
        plain := [Plain(text[lastIndex..index])];
        parts := parts + [Plain(text[lastIndex..index])];
      }
      parts := parts + [Bold(text[index + 2..close])];
      ghost var last := lastIndex;
      lastIndex := close + 2;
      SegmentsAfterStep(text, last, index, close, lastIndex, before, plain, parts, total);
      m := FindMatch(text, lastIndex);
    }
    SegmentsTail(text, lastIndex);
    if lastIndex < |text| {
      parts := parts + [Plain(text[lastIndex..])];
    } else {
      assert parts + [] == parts;
    }
  }

  /** `renderTextWithBold`: a text without any bold run comes back whole. */
  method RenderTextWithBold(text: string) returns (parts: seq<Inline>)
    ensures parts == TextWithBold(text)
    ensures Rejoin(parts, "**") == text
    ensures |parts| >= 1
  {
    parts := CollectSegments(text);
    if parts == [] {
      parts := [Plain(text)];
    }
    TextWithBoldRejoin(text);
  }
}
