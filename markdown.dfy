/** The comparison dialog's rendering of the AI's markdown-like analysis
    (`renderMarkdown`): the text is read line by line into headings, bullet
    lists and paragraphs, produced as values instead of JSX. */
module Markdown {

  import opened Text
  import opened BoldText

  datatype Block =
    | Heading(text: string)
    | BulletList(items: seq<seq<Inline>>)
    | Paragraph(inlines: seq<Inline>)

  /** What one line is, judged on the line with its white space trimmed. */
  datatype Line =
    | HeadingLine(text: string)
    | ItemLine(text: string)
    | TextLine(text: string)
    | BlankLine

  /** `## ` opens a heading, `- ` or `* ` a list item (the marker is dropped
      from the text); any other non-blank line is paragraph text. */
  function Classify(line: string): (k: Line)
    ensures k == BlankLine <==> AllSpace(line)
    ensures k.HeadingLine? <==> StartsWith(Trim(line), "## ")
    ensures k.ItemLine? <==>
      !StartsWith(Trim(line), "## ") && (StartsWith(Trim(line), "- ") || StartsWith(Trim(line), "* "))
    ensures k.HeadingLine? ==> k.text == Trim(line)[3..]
    ensures k.ItemLine? ==> k.text == Trim(line)[2..]
    ensures k.TextLine? ==> k.text == Trim(line)
    ensures !k.BlankLine? ==> k.text != []
  {
    var trimmed := Trim(line);
    if StartsWith(trimmed, "## ") then
      MarkerFollowedByText(trimmed, "## ");
      HeadingLine(trimmed[3..])
    else if StartsWith(trimmed, "- ") || StartsWith(trimmed, "* ") then
      MarkerFollowedByText(trimmed, if StartsWith(trimmed, "- ") then "- " else "* ");
      ItemLine(trimmed[2..])
    else if trimmed != [] then TextLine(trimmed)
    else BlankLine
  }

  /** A trimmed line cannot end in its marker's space, so text follows the
      marker. */
  lemma MarkerFollowedByText(t: string, marker: string)
    requires IsTrimmed(t) && StartsWith(t, marker) && marker != [] && IsSpace(marker[|marker| - 1])
    ensures |t| > |marker|
  {
  }

  function ClassifyAll(lines: seq<string>): (ks: seq<Line>)
    ensures |ks| == |lines|
    ensures forall i :: 0 <= i < |lines| ==> ks[i] == Classify(lines[i])
  {
    seq(|lines|, i requires 0 <= i < |lines| => Classify(lines[i]))
  }

  /** Where the run of lines of the same kind as the one at `j` ends: the
      first later line of another kind, or the end of the text. */
  function RunEnd(ks: seq<Line>, j: nat): (n: nat)
    requires j < |ks| && (ks[j].TextLine? || ks[j].ItemLine?)
    ensures j < n <= |ks|
    ensures forall k :: j <= k < n ==> SameKind(ks[k], ks[j])
    ensures n < |ks| ==> !SameKind(ks[n], ks[j])
    decreases |ks| - j
  {
    if j + 1 < |ks| && SameKind(ks[j + 1], ks[j]) then RunEnd(ks, j + 1) else j + 1
  }

  predicate SameKind(a: Line, b: Line) {
    (a.TextLine? && b.TextLine?) || (a.ItemLine? && b.ItemLine?)
  }

  /** The texts of the lines from `j` up to `n`. */
  function TextsOf(ks: seq<Line>, j: nat, n: nat): (ts: seq<string>)
    requires j <= n <= |ks|
    requires forall k :: j <= k < n ==> !ks[k].BlankLine?
    ensures |ts| == n - j
    ensures forall k :: 0 <= k < n - j ==> ts[k] == ks[j + k].text
  {
    seq(n - j, k requires 0 <= k < n - j => ks[j + k].text)
  }

  /** Each list item with its bold runs split out. */
  function BoldItems(items: seq<string>): (r: seq<seq<Inline>>)
    ensures |r| == |items|
    ensures forall k :: 0 <= k < |items| ==> r[k] == TextWithBold(items[k])
  {
    seq(|items|, k requires 0 <= k < |items| => TextWithBold(items[k]))
  }

  function ParagraphOf(ps: seq<string>): Block {
    Paragraph(TextWithBold(Join(ps, " ")))
  }

  /** The blocks the lines from `j` on give: a heading line is a heading of
      its own; a run of item lines is one list; a run of text lines is one
      paragraph, the lines joined with one space; blank lines only end runs. */
  function BlocksFrom(ks: seq<Line>, j: nat): seq<Block>
    requires j <= |ks|
    decreases |ks| - j
  {
    if j == |ks| then []
    else
      match ks[j]
      case BlankLine => BlocksFrom(ks, j + 1)
      case HeadingLine(h) => [Heading(h)] + BlocksFrom(ks, j + 1)
      case TextLine(_) =>
        var n := RunEnd(ks, j);
        [ParagraphOf(TextsOf(ks, j, n))] + BlocksFrom(ks, n)
      case ItemLine(_) =>
        var n := RunEnd(ks, j);
        [BulletList(BoldItems(TextsOf(ks, j, n)))] + BlocksFrom(ks, n)
  }

  /** What `renderMarkdown(text)` returns. */
  function MarkdownBlocks(text: string): seq<Block> {
    BlocksFrom(ClassifyAll(Split(text, '\n')), 0)
  }

  // ---------------------------------------------------------------------------
  // Runs

  /** The lines from `j` on are the paragraph lines `ps`, ended by the end of
      the text or by a line of another kind. */
  predicate ParagraphRunAt(ks: seq<Line>, j: nat, ps: seq<string>) {
    j + |ps| <= |ks|
    && (forall k :: 0 <= k < |ps| ==> ks[j + k] == TextLine(ps[k]))
  }

  predicate ListRunAt(ks: seq<Line>, j: nat, its: seq<string>) {
    j + |its| <= |ks|
    && (forall k :: 0 <= k < |its| ==> ks[j + k] == ItemLine(its[k]))
  }

  /** A run of paragraph lines ended by the end of the text or by any other
      line is exactly one paragraph. */
  lemma ParagraphRun(ks: seq<Line>, j: nat, ps: seq<string>)
    requires ps != [] && ParagraphRunAt(ks, j, ps)
    requires j + |ps| < |ks| ==> !ks[j + |ps|].TextLine?
    ensures BlocksFrom(ks, j) == [ParagraphOf(ps)] + BlocksFrom(ks, j + |ps|)
  {
    assert ks[j] == TextLine(ps[0]);
    var n := RunEnd(ks, j);
    assert forall k :: j <= k < j + |ps| ==> ks[k].TextLine? by {
      forall k | j <= k < j + |ps| ensures ks[k].TextLine? {
        assert ks[j + (k - j)] == TextLine(ps[k - j]);
      }
    }
    assert n == j + |ps|;
    assert TextsOf(ks, j, n) == ps;
  }

  /** A run of list-item lines ended by the end of the text or by any other
      line is exactly one list. */
  lemma ListRun(ks: seq<Line>, j: nat, its: seq<string>)
    requires its != [] && ListRunAt(ks, j, its)
    requires j + |its| < |ks| ==> !ks[j + |its|].ItemLine?
    ensures BlocksFrom(ks, j) == [BulletList(BoldItems(its))] + BlocksFrom(ks, j + |its|)
  {
    assert ks[j] == ItemLine(its[0]);
    var n := RunEnd(ks, j);
    assert forall k :: j <= k < j + |its| ==> ks[k].ItemLine? by {
      forall k | j <= k < j + |its| ensures ks[k].ItemLine? {
        assert ks[j + (k - j)] == ItemLine(its[k - j]);
      }
    }
    assert n == j + |its|;
    assert TextsOf(ks, j, n) == its;
  }

  /** What `closeParagraph` emits: the open paragraph, if any. */
  function ParagraphBlocks(ps: seq<string>): seq<Block> {
    if ps == [] then [] else [ParagraphOf(ps)]
  }

  /** What `closeList` emits: the open list, if any. */
  function ListBlocks(its: seq<string>): seq<Block> {
    if its == [] then [] else [BulletList(BoldItems(its))]
  }

  // ---------------------------------------------------------------------------
  // The loop over the lines: `done` is what has been emitted, the open
  // paragraph or list holds the lines from `start` on, and `total` is what
  // the whole text gives.

  lemma ConcatAssoc<T>(a: seq<T>, b: seq<T>, c: seq<T>)
    ensures a + (b + c) == a + b + c
  {
  }

  /** Closing the open paragraph, which ends at `end`. */
  lemma ParagraphClosed(ks: seq<Line>, start: nat, ps: seq<string>, done: seq<Block>, total: seq<Block>, end: nat)
    requires end == start + |ps| && ParagraphRunAt(ks, start, ps)
    requires ps != [] && end < |ks| ==> !ks[end].TextLine?
    requires done + BlocksFrom(ks, start) == total
    ensures done + ParagraphBlocks(ps) + BlocksFrom(ks, end) == total
  {
    if ps != [] {
      ParagraphRun(ks, start, ps);
      ConcatAssoc(done, ParagraphBlocks(ps), BlocksFrom(ks, end));
    } else {
      assert done + ParagraphBlocks(ps) == done;
    }
  }

  /** Closing the open list, which ends at `end`. */
  lemma ListClosed(ks: seq<Line>, start: nat, its: seq<string>, done: seq<Block>, total: seq<Block>, end: nat)
    requires end == start + |its| && ListRunAt(ks, start, its)
    requires its != [] && end < |ks| ==> !ks[end].ItemLine?
    requires done + BlocksFrom(ks, start) == total
    ensures done + ListBlocks(its) + BlocksFrom(ks, end) == total
  {
    if its != [] {
      ListRun(ks, start, its);
      ConcatAssoc(done, ListBlocks(its), BlocksFrom(ks, end));
    } else {
      assert done + ListBlocks(its) == done;
    }
  }

  lemma HeadingEmitted(ks: seq<Line>, i: nat, h: string, done: seq<Block>, total: seq<Block>)
    requires i < |ks| && ks[i] == HeadingLine(h)
    requires done + BlocksFrom(ks, i) == total
    ensures done + [Heading(h)] + BlocksFrom(ks, i + 1) == total
  {
    ConcatAssoc(done, [Heading(h)], BlocksFrom(ks, i + 1));
  }

  lemma BlankSkipped(ks: seq<Line>, i: nat, done: seq<Block>, total: seq<Block>)
    requires i < |ks| && ks[i] == BlankLine
    requires done + BlocksFrom(ks, i) == total
    ensures done + BlocksFrom(ks, i + 1) == total
  {
  }

  /** `listItems.map(item => renderTextWithBold(item))`. */
  method RenderItems(items: seq<string>) returns (rendered: seq<seq<Inline>>)
    ensures rendered == BoldItems(items)
  {
    rendered := [];
    var k := 0;
    while k < |items|
      invariant k <= |items| && rendered == BoldItems(items)[..k]
    {
      var parts := RenderTextWithBold(items[k]);
      assert BoldItems(items)[..k + 1] == BoldItems(items)[..k] + [parts];
      rendered := rendered + [parts];
      k := k + 1;
    }
  }

  /** `closeParagraph`: an open paragraph is emitted, its lines joined with
      one space, and the paragraph is emptied. */
  method CloseParagraph(elements: seq<Block>, paragraph: seq<string>)
    returns (elements': seq<Block>, paragraph': seq<string>)
    ensures elements' == elements + ParagraphBlocks(paragraph)
    ensures paragraph' == []
  {
    elements', paragraph' := elements, paragraph;
    if |paragraph| > 0 {
      var inlines := RenderTextWithBold(Join(paragraph, " "));
      elements' := elements' + [Paragraph(inlines)];
      paragraph' := [];
    }
  }

  /** `closeList`: an open list with items is emitted and closed. */
  method CloseList(elements: seq<Block>, items: seq<string>, inList: bool)
    returns (elements': seq<Block>, items': seq<string>, inList': bool)
    requires inList <==> items != []
    ensures elements' == elements + ListBlocks(items)
    ensures items' == [] && !inList'
  {
    elements', items', inList' := elements, items, inList;
    if inList && |items| > 0 {
      var rendered := RenderItems(items);
      elements' := elements' + [BulletList(rendered)];
      items' := [];
      inList' := false;
    }
  }

  /** The state of `renderMarkdown` before line `i`: the open paragraph or
      list holds the lines from `start` on, and what has been emitted
      followed by what the lines from `start` on give is `total`. */
  ghost predicate Consistent(ks: seq<Line>, i: nat, total: seq<Block>, elements: seq<Block>,
                             paragraph: seq<string>, items: seq<string>, inList: bool, start: nat)
  {
    start <= i <= |ks|
    && (inList <==> items != [])
    && (paragraph == [] || items == [])
    && start + |paragraph| + |items| == i
    && ParagraphRunAt(ks, start, paragraph) && ListRunAt(ks, start, items)
    && elements + BlocksFrom(ks, start) == total
  }

  /** Closing the open paragraph and the open list, at most one of which
      has lines, at a line that continues neither. */
  lemma BothClosed(ks: seq<Line>, start: nat, paragraph: seq<string>, items: seq<string>,
                   elements: seq<Block>, total: seq<Block>, end: nat)
    requires ParagraphRunAt(ks, start, paragraph) && ListRunAt(ks, start, items)
    requires (paragraph == [] || items == []) && end == start + |paragraph| + |items|
    requires end < |ks| ==> !ks[end].TextLine? && !ks[end].ItemLine?
    requires elements + BlocksFrom(ks, start) == total
    ensures elements + ParagraphBlocks(paragraph) + ListBlocks(items) + BlocksFrom(ks, end) == total
  {
    if paragraph == [] {
      assert elements + ParagraphBlocks(paragraph) == elements;
      ListClosed(ks, start, items, elements, total, end);
    } else {
      assert ListBlocks(items) == [];
      ParagraphClosed(ks, start, paragraph, elements, total, end);
      assert elements + ParagraphBlocks(paragraph) + ListBlocks(items) == elements + ParagraphBlocks(paragraph);
    }
  }

  lemma HeadingVisited(ks: seq<Line>, index: nat, h: string, total: seq<Block>, elements: seq<Block>,
                        paragraph: seq<string>, items: seq<string>, inList: bool, start: nat,
                        elements': seq<Block>, paragraph': seq<string>, items': seq<string>, inList': bool, start': nat)
    requires index < |ks| && ks[index] == HeadingLine(h)
    requires Consistent(ks, index, total, elements, paragraph, items, inList, start)
    requires elements' == elements + ParagraphBlocks(paragraph) + ListBlocks(items) + [Heading(h)] && paragraph' == []
    requires items' == [] && inList' == false && start' == index + 1
    ensures Consistent(ks, index + 1, total, elements', paragraph', items', inList', start')
  {
    BothClosed(ks, start, paragraph, items, elements, total, index);
    HeadingEmitted(ks, index, h, elements + ParagraphBlocks(paragraph) + ListBlocks(items), total);
  }

  lemma BlankVisited(ks: seq<Line>, index: nat, total: seq<Block>, elements: seq<Block>,
                      paragraph: seq<string>, items: seq<string>, inList: bool, start: nat,
                      elements': seq<Block>, paragraph': seq<string>, items': seq<string>, inList': bool, start': nat)
    requires index < |ks| && ks[index] == BlankLine
    requires Consistent(ks, index, total, elements, paragraph, items, inList, start)
    requires elements' == elements + ParagraphBlocks(paragraph) + ListBlocks(items) && paragraph' == []
    requires items' == [] && inList' == false && start' == index + 1
    ensures Consistent(ks, index + 1, total, elements', paragraph', items', inList', start')
  {
    BothClosed(ks, start, paragraph, items, elements, total, index);
    BlankSkipped(ks, index, elements', total);
  }

  lemma ItemVisited(ks: seq<Line>, index: nat, t: string, total: seq<Block>, elements: seq<Block>,
                     paragraph: seq<string>, items: seq<string>, inList: bool, start: nat,
                     elements': seq<Block>, paragraph': seq<string>, items': seq<string>, inList': bool, start': nat)
    requires index < |ks| && ks[index] == ItemLine(t)
    requires Consistent(ks, index, total, elements, paragraph, items, inList, start)
    requires elements' == elements + ParagraphBlocks(paragraph) && paragraph' == []
    requires items' == items + [t] && inList' == true && start' == start + |paragraph|
    ensures Consistent(ks, index + 1, total, elements', paragraph', items', inList', start')
  {
    var mid := start + |paragraph|;
    ParagraphClosed(ks, start, paragraph, elements, total, mid);
    assert ListRunAt(ks, mid, items) by {
      if items != [] {
        assert paragraph == [];
      }
    }
    ListRunExtends(ks, mid, items, t);
  }

  lemma TextVisited(ks: seq<Line>, index: nat, t: string, total: seq<Block>, elements: seq<Block>,
                     paragraph: seq<string>, items: seq<string>, inList: bool, start: nat,
                     elements': seq<Block>, paragraph': seq<string>, items': seq<string>, inList': bool, start': nat)
    requires index < |ks| && ks[index] == TextLine(t)
    requires Consistent(ks, index, total, elements, paragraph, items, inList, start)
    requires elements' == elements + ListBlocks(items) && paragraph' == paragraph + [t]
    requires items' == [] && inList' == false && start' == start + |items|
    ensures Consistent(ks, index + 1, total, elements', paragraph', items', inList', start')
  {
    ListClosed(ks, start, items, elements, total, start + |items|);
    ParagraphRunExtends(ks, start + |items|, paragraph, t);
  }

  /** After the last line, closing the open paragraph and list completes
      the blocks. */
  lemma AllVisited(ks: seq<Line>, total: seq<Block>, elements: seq<Block>,
                   paragraph: seq<string>, items: seq<string>, inList: bool, start: nat)
    requires Consistent(ks, |ks|, total, elements, paragraph, items, inList, start)
    ensures elements + ParagraphBlocks(paragraph) + ListBlocks(items) == total
  {
    BothClosed(ks, start, paragraph, items, elements, total, |ks|);
  }

  lemma ParagraphRunExtends(ks: seq<Line>, s: nat, ps: seq<string>, t: string)
    requires ParagraphRunAt(ks, s, ps) && s + |ps| < |ks| && ks[s + |ps|] == TextLine(t)
    ensures ParagraphRunAt(ks, s, ps + [t])
  {
    forall k | 0 <= k < |ps + [t]| ensures ks[s + k] == TextLine((ps + [t])[k]) {
      if k < |ps| {
        assert ks[s + k] == TextLine(ps[k]);
      }
    }
  }

  lemma ListRunExtends(ks: seq<Line>, s: nat, its: seq<string>, t: string)
    requires ListRunAt(ks, s, its) && s + |its| < |ks| && ks[s + |its|] == ItemLine(t)
    ensures ListRunAt(ks, s, its + [t])
  {
    forall k | 0 <= k < |its + [t]| ensures ks[s + k] == ItemLine((its + [t])[k]) {
      if k < |its| {
        assert ks[s + k] == ItemLine(its[k]);
      }
    }
  }

  /** A `## ` line: the open paragraph and list are closed and the heading
      emitted. */
  method VisitHeading(h: string, index: nat, ghost ks: seq<Line>, ghost total: seq<Block>,
                      elements: seq<Block>, paragraph: seq<string>, items: seq<string>, inList: bool,
                      ghost start: nat)
    returns (elements': seq<Block>, paragraph': seq<string>, items': seq<string>, inList': bool,
             ghost start': nat)
    requires index < |ks| && ks[index] == HeadingLine(h)
    requires Consistent(ks, index, total, elements, paragraph, items, inList, start)
    ensures Consistent(ks, index + 1, total, elements', paragraph', items', inList', start')
  {
    elements', paragraph' := CloseParagraph(elements, paragraph);
    elements', items', inList' := CloseList(elements', items, inList);
    elements' := elements' + [Heading(h)];
    start' := index + 1;
    HeadingVisited(ks, index, h, total, elements, paragraph, items, inList, start,
      elements', paragraph', items', inList', start');
  }

  /** A `- ` or `* ` line: the open paragraph is closed and the item added to
      the list, which is opened if need be. */
  method VisitItem(t: string, index: nat, ghost ks: seq<Line>, ghost total: seq<Block>,
                   elements: seq<Block>, paragraph: seq<string>, items: seq<string>, inList: bool,
                   ghost start: nat)
    returns (elements': seq<Block>, paragraph': seq<string>, items': seq<string>, inList': bool,
             ghost start': nat)
    requires index < |ks| && ks[index] == ItemLine(t)
    requires Consistent(ks, index, total, elements, paragraph, items, inList, start)
    ensures Consistent(ks, index + 1, total, elements', paragraph', items', inList', start')
  {
    elements', paragraph' := CloseParagraph(elements, paragraph);
    inList' := inList;
    if !inList' {
      inList' := true;
    }
    items' := items + [t];
    start' := start + |paragraph|;
    ItemVisited(ks, index, t, total, elements, paragraph, items, inList, start,
      elements', paragraph', items', inList', start');
  }

  /** Any other non-blank line: the open list is closed and the line added
      to the paragraph. */
  method VisitText(t: string, index: nat, ghost ks: seq<Line>, ghost total: seq<Block>,
                   elements: seq<Block>, paragraph: seq<string>, items: seq<string>, inList: bool,
                   ghost start: nat)
    returns (elements': seq<Block>, paragraph': seq<string>, items': seq<string>, inList': bool,
             ghost start': nat)
    requires index < |ks| && ks[index] == TextLine(t)
    requires Consistent(ks, index, total, elements, paragraph, items, inList, start)
    ensures Consistent(ks, index + 1, total, elements', paragraph', items', inList', start')
  {
    elements', items', inList' := CloseList(elements, items, inList);
    paragraph' := paragraph + [t];
    start' := start + |items|;
    TextVisited(ks, index, t, total, elements, paragraph, items, inList, start,
      elements', paragraph', items', inList', start');
  }

  /** A blank line: the open paragraph and list are closed. */
  method VisitBlank(index: nat, ghost ks: seq<Line>, ghost total: seq<Block>,
                    elements: seq<Block>, paragraph: seq<string>, items: seq<string>, inList: bool,
                    ghost start: nat)
    returns (elements': seq<Block>, paragraph': seq<string>, items': seq<string>, inList': bool,
             ghost start': nat)
    requires index < |ks| && ks[index] == BlankLine
    requires Consistent(ks, index, total, elements, paragraph, items, inList, start)
    ensures Consistent(ks, index + 1, total, elements', paragraph', items', inList', start')
  {
    elements', paragraph' := CloseParagraph(elements, paragraph);
    elements', items', inList' := CloseList(elements', items, inList);
    start' := index + 1;
    BlankVisited(ks, index, total, elements, paragraph, items, inList, start,
      elements', paragraph', items', inList', start');
  }

  /** The `lines.forEach` callback for the line at `index`. */
  method VisitLine(line: string, index: nat, ghost ks: seq<Line>, ghost total: seq<Block>,
                   elements: seq<Block>, paragraph: seq<string>, items: seq<string>, inList: bool,
                   ghost start: nat)
    returns (elements': seq<Block>, paragraph': seq<string>, items': seq<string>, inList': bool,
             ghost start': nat)
    requires index < |ks| && ks[index] == Classify(line)
    requires Consistent(ks, index, total, elements, paragraph, items, inList, start)
    ensures Consistent(ks, index + 1, total, elements', paragraph', items', inList', start')
  {
    var trimmed := Trim(line);
    if StartsWith(trimmed, "## ") {
      elements', paragraph', items', inList', start' :=
        VisitHeading(trimmed[3..], index, ks, total, elements, paragraph, items, inList, start);
    } else if StartsWith(trimmed, "- ") || StartsWith(trimmed, "* ") {
      elements', paragraph', items', inList', start' :=
        VisitItem(trimmed[2..], index, ks, total, elements, paragraph, items, inList, start);
    } else if trimmed != [] {
      elements', paragraph', items', inList', start' :=
        VisitText(trimmed, index, ks, total, elements, paragraph, items, inList, start);
    } else {
      elements', paragraph', items', inList', start' :=
        VisitBlank(index, ks, total, elements, paragraph, items, inList, start);
    }
  }

  /** `renderMarkdown`: the `lines.forEach` loop, then the last paragraph and
      list are closed. */
  method RenderMarkdown(text: string) returns (elements: seq<Block>)
    ensures elements == MarkdownBlocks(text)
  {
    var lines := Split(text, '\n');
    ghost var ks := ClassifyAll(lines);
    ghost var total := BlocksFrom(ks, 0);
    elements := [];
    var paragraph: seq<string> := [];
    var items: seq<string> := [];
    var inList := false;
    ghost var start: nat := 0;
    var i := 0;
    while i < |lines|
      invariant i <= |lines|
      invariant Consistent(ks, i, total, elements, paragraph, items, inList, start)
    {
      elements, paragraph, items, inList, start := VisitLine(lines[i], i, ks, total, elements, paragraph, items, inList, start);
      i := i + 1;
    }
    AllVisited(ks, total, elements, paragraph, items, inList, start);
    elements, paragraph := CloseParagraph(elements, paragraph);
    elements, items, inList := CloseList(elements, items, inList);
  }

  // ---------------------------------------------------------------------------
  // Properties of the blocks

  /** Blank lines only: nothing is rendered; any other line renders something. */
  lemma {:induction false} BlocksEmptyIffBlank(ks: seq<Line>, j: nat)
    requires j <= |ks|
    ensures BlocksFrom(ks, j) == [] <==> forall k :: j <= k < |ks| ==> ks[k] == BlankLine
    decreases |ks| - j
  {
    if j < |ks| && ks[j] == BlankLine {
      BlocksEmptyIffBlank(ks, j + 1);
    }
  }

  /** `renderMarkdown` gives no element exactly when every line of the text
      is white space. */
  lemma MarkdownEmptyIffBlank(text: string)
    ensures MarkdownBlocks(text) == [] <==>
      forall k :: 0 <= k < |Split(text, '\n')| ==> AllSpace(Split(text, '\n')[k])
  {
    var lines := Split(text, '\n');
    var ks := ClassifyAll(lines);
    assert MarkdownBlocks(text) == BlocksFrom(ks, 0);
    BlocksEmptyIffBlank(ks, 0);
    forall k | 0 <= k < |lines| ensures ks[k] == BlankLine <==> AllSpace(lines[k]) {
      assert ks[k] == Classify(lines[k]);
    }
    assert (forall k :: 0 <= k < |ks| ==> ks[k] == BlankLine) <==> (forall k :: 0 <= k < |lines| ==> AllSpace(lines[k]));
  }

  /** The texts of the headings among `bs`, in order. */
  function HeadingsOf(bs: seq<Block>): seq<string> {
    if bs == [] then []
    else (if bs[0].Heading? then [bs[0].text] else []) + HeadingsOf(bs[1..])
  }

  /** The texts of the heading lines from `j` on, in order. */
  function HeadingLines(ks: seq<Line>, j: nat): seq<string>
    requires j <= |ks|
    decreases |ks| - j
  {
    if j == |ks| then []
    else (if ks[j].HeadingLine? then [ks[j].text] else []) + HeadingLines(ks, j + 1)
  }

  lemma {:induction false} HeadingsOfAppend(a: seq<Block>, b: seq<Block>)
    ensures HeadingsOf(a + b) == HeadingsOf(a) + HeadingsOf(b)
  {
    if a == [] {
      assert a + b == b;
    } else {
      assert (a + b)[0] == a[0];
      assert (a + b)[1..] == a[1..] + b;
      HeadingsOfAppend(a[1..], b);
    }
  }

  /** A run of paragraph or list lines holds no heading. */
  lemma {:induction false} HeadingLinesSkip(ks: seq<Line>, j: nat, n: nat)
    requires j <= n <= |ks|
    requires forall k :: j <= k < n ==> !ks[k].HeadingLine?
    ensures HeadingLines(ks, j) == HeadingLines(ks, n)
    decreases n - j
  {
    if j < n {
      assert !ks[j].HeadingLine?;
      assert HeadingLines(ks, j) == HeadingLines(ks, j + 1);
      HeadingLinesSkip(ks, j + 1, n);
    }
  }

  /** Every `## ` line becomes a heading and every heading comes from one,
      in the order of the lines. */
  lemma {:induction false} HeadingsInOrder(ks: seq<Line>, j: nat)
    requires j <= |ks|
    ensures HeadingsOf(BlocksFrom(ks, j)) == HeadingLines(ks, j)
    decreases |ks| - j
  {
    if j < |ks| {
      match ks[j]
      case BlankLine =>
        HeadingsInOrder(ks, j + 1);
      case HeadingLine(h) =>
        HeadingsInOrder(ks, j + 1);
        HeadingsOfAppend([Heading(h)], BlocksFrom(ks, j + 1));
      case TextLine(_) =>
        var n := RunEnd(ks, j);
        HeadingsInOrder(ks, n);
        HeadingLinesSkip(ks, j, n);
        HeadingsOfAppend([ParagraphOf(TextsOf(ks, j, n))], BlocksFrom(ks, n));
      case ItemLine(_) =>
        var n := RunEnd(ks, j);
        HeadingsInOrder(ks, n);
        HeadingLinesSkip(ks, j, n);
        HeadingsOfAppend([BulletList(BoldItems(TextsOf(ks, j, n)))], BlocksFrom(ks, n));
    }
  }

  /** No empty heading, no list without items, and no item or paragraph
      whose text (the bold markers put back) is empty. */
  predicate NonEmptyBlock(b: Block) {
    match b
    case Heading(h) => h != []
    case BulletList(its) => its != [] && forall k :: 0 <= k < |its| ==> Rejoin(its[k], "**") != []
    case Paragraph(inlines) => Rejoin(inlines, "**") != []
  }

  /** Every classified line other than a blank one carries text. */
  predicate Classified(ks: seq<Line>) {
    forall k :: 0 <= k < |ks| ==> ks[k].BlankLine? || ks[k].text != []
  }

  /** Each rendered list item re-joins to the item's own text. */
  lemma BoldItemsRejoin(items: seq<string>)
    ensures forall k :: 0 <= k < |items| ==> Rejoin(BoldItems(items)[k], "**") == items[k]
  {
    forall k | 0 <= k < |items| ensures Rejoin(BoldItems(items)[k], "**") == items[k] {
      TextWithBoldRejoin(items[k]);
    }
  }

  lemma JoinNonEmpty(pieces: seq<string>, sep: string)
    requires pieces != [] && pieces[0] != []
    ensures Join(pieces, sep) != []
  {
  }

  lemma {:induction false} BlocksNonEmpty(ks: seq<Line>, j: nat)
    requires j <= |ks|
    requires Classified(ks)
    ensures forall k :: 0 <= k < |BlocksFrom(ks, j)| ==> NonEmptyBlock(BlocksFrom(ks, j)[k])
    decreases |ks| - j
  {
    if j < |ks| {
      match ks[j]
      case BlankLine =>
        BlocksNonEmpty(ks, j + 1);
      case HeadingLine(h) =>
        BlocksNonEmpty(ks, j + 1);
      case TextLine(_) =>
        var n := RunEnd(ks, j);
        BlocksNonEmpty(ks, n);
        TextWithBoldRejoin(Join(TextsOf(ks, j, n), " "));
        JoinNonEmpty(TextsOf(ks, j, n), " ");
      case ItemLine(_) =>
        var n := RunEnd(ks, j);
        BlocksNonEmpty(ks, n);
        BoldItemsRejoin(TextsOf(ks, j, n));
    }
  }

  /** Nothing `renderMarkdown` emits is empty: every heading, list item and
      paragraph has text, and every list has items. */
  lemma MarkdownBlocksNonEmpty(text: string)
    ensures forall k :: 0 <= k < |MarkdownBlocks(text)| ==> NonEmptyBlock(MarkdownBlocks(text)[k])
  {
    var lines := Split(text, '\n');
    var ks := ClassifyAll(lines);
    forall k | 0 <= k < |ks| ensures ks[k].BlankLine? || ks[k].text != [] {
      assert ks[k] == Classify(lines[k]);
    }
    BlocksNonEmpty(ks, 0);
  }
}
