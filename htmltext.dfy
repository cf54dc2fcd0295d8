/** The HTML-to-text conversion of cmd/htmlconverter.go, as functions on the
    converter's state.  The document is a tree (what `html.Parse` would hand
    over); the converter's fields are the `Conv` value.  The class in
    htmlconverter.dfy performs these steps in place. */
module HtmlText {
  import opened Bytes

  // ---------------------------------------------------------------------------
  // Documents

  /** The element kinds the converter tells apart (`n.DataAtom`); every other
      element is `OtherTag`. */
  datatype Tag =
    | P | Br | H1 | H2 | H3 | H4 | H5 | H6 | Strong | B | Em | I | A | Ul | Ol | Li
    | Table | Tr | Td | Th | Blockquote | Hr | Script | Style | Meta | Title | OtherTag

  datatype Attr = Attr(key: bytes, val: bytes)

  /** A parsed node: text, an element, or any other node (document, comment,
      doctype), which the converter only descends into. */
  datatype Node =
    | Text(data: bytes)
    | Element(tag: Tag, attrs: seq<Attr>, children: seq<Node>)
    | Other(children: seq<Node>)

  /** The converter's fields: `buf`, `lastNewline`, `inTable`, `tableRow`, `table`. */
  datatype Conv = Conv(buf: bytes, lastNewline: bool, inTable: bool, tableRow: seq<bytes>, table: seq<seq<bytes>>)

  const Empty: Conv := Conv([], false, false, [], [])

  // The literal strings the converter writes, as UTF-8 bytes.
  const NewlineText: bytes := [10]
  const HeadingOpen: bytes := [61, 61, 61, 32]        // "=== "
  const HeadingClose: bytes := [32, 61, 61, 61, 10]   // " ===\n"
  const Star: bytes := [42]                           // "*"
  const Low: bytes := [95]                            // "_"
  const Bullet: bytes := [226, 128, 162, 32]          // "• "
  const QuoteMark: bytes := [62, 62, 62, 32]          // ">>> "
  const Dash: bytes := [226, 148, 128]                // "─"
  const Bar: bytes := [226, 148, 130, 32]             // "│ "
  const CellEnd: bytes := [32, 226, 148, 130, 32]     // " │ "
  const LeftTee: bytes := [226, 148, 156]             // "├"
  const Cross: bytes := [226, 148, 188]               // "┼"
  const RightTee: bytes := [226, 148, 164, 10]        // "┤\n"
  const Href: bytes := [104, 114, 101, 102]           // "href"

  /** The horizontal rule: twenty-one "─" and a newline. */
  function RuleText(): bytes {
    Repeat(Dash, 21) + NewlineText
  }

  // ---------------------------------------------------------------------------
  // The small steps

  function Write(c: Conv, s: bytes): (r: Conv)
    ensures r.buf == c.buf + s
  {
    c.(buf := c.buf + s)
  }

  /** Two writes are one write of both texts. */
  lemma WriteTwice(c: Conv, s: bytes, t: bytes)
    ensures Write(Write(c, s), t) == Write(c, s + t)
  {
    assert c.buf + s + t == c.buf + (s + t);
  }

  /** `ensureNewline`: a newline unless the buffer is empty or already ends a line. */
  function EnsureNewline(c: Conv): Conv {
    if |c.buf| > 0 && !c.lastNewline then c.(buf := c.buf + NewlineText, lastNewline := true) else c
  }

  /** Whether `addText` puts a space before its text. */
  predicate NeedsSpace(c: Conv) {
    |c.buf| > 0 && !c.lastNewline && c.buf[|c.buf| - 1] != Newline
  }

  /** `addText`: blank text is dropped; other text is written with its
      whitespace collapsed, after a space when the buffer does not already
      end a line. */
  function AddText(c: Conv, text: bytes): Conv {
    if TrimSpace(text) == [] then c
    else c.(buf := c.buf + (if NeedsSpace(c) then [Space] else []) + Collapse(text), lastNewline := false)
  }

  /** `getAttr`: the value of the first attribute named `key`, else "". */
  function GetAttr(attrs: seq<Attr>, key: bytes): (v: bytes)
    ensures (exists i | 0 <= i < |attrs| :: attrs[i].key == key && v == attrs[i].val
               && forall j | 0 <= j < i :: attrs[j].key != key)
         || (v == [] && forall i | 0 <= i < |attrs| :: attrs[i].key != key)
  {
    if |attrs| == 0 then []
    else if attrs[0].key == key then attrs[0].val
    else
      var v := GetAttr(attrs[1..], key);
      assert forall i | 1 <= i <= |attrs[1..]| :: attrs[i] == attrs[1..][i - 1];
      v
  }

  /** `padString`: exactly `width` bytes, cut or padded with spaces. */
  function PadString(s: bytes, width: nat): (r: bytes)
    ensures |r| == width
    ensures |s| >= width ==> r == s[..width]
    ensures |s| < width ==> r[..|s|] == s && forall i | |s| <= i < width :: r[i] == Space
  {
    if |s| >= width then s[..width]
    else
      RepeatSpace(width - |s|);
      s + Repeat([Space], width - |s|)
  }

  lemma {:induction false} RepeatSpace(n: nat)
    ensures |Repeat([Space], n)| == n
    ensures forall i | 0 <= i < n :: Repeat([Space], n)[i] == Space
  {
    if n > 0 {
      RepeatSpace(n - 1);
      assert Repeat([Space], n) == [Space] + Repeat([Space], n - 1);
    }
  }

  // ---------------------------------------------------------------------------
  // extractText

  /** What `extractTextHelper` writes for a subtree: each text node's collapsed
      text, in document order, with nothing between them. */
  function ExtractRaw(n: Node): bytes
    decreases n, 1, 0
  {
    match n
    case Text(d) => Collapse(d)
    case Element(_, _, _) => ExtractKids(n, 0)
    case Other(_) => ExtractKids(n, 0)
  }

  function ExtractKids(n: Node, i: nat): bytes
    requires !n.Text? && i <= |n.children|
    decreases n, 0, |n.children| - i
  {
    if i == |n.children| then [] else ExtractRaw(n.children[i]) + ExtractKids(n, i + 1)
  }

  /** `extractText` */
  function ExtractText(n: Node): bytes {
    TrimSpace(ExtractRaw(n))
  }

  // ---------------------------------------------------------------------------
  // Tables

  function MaxOf(a: int, b: int): int {
    if a >= b then a else b
  }

  /** The length of the longest row. */
  function MaxRowLen(t: seq<seq<bytes>>): (n: nat)
    ensures forall r | 0 <= r < |t| :: |t[r]| <= n
    ensures n == 0 || exists r | 0 <= r < |t| :: |t[r]| == n
  {
    if t == [] then 0
    else
      var m := MaxRowLen(t[..|t| - 1]);
      assert forall r | 0 <= r < |t| - 1 :: t[..|t| - 1][r] == t[r];
      MaxOf(m, |t[|t| - 1]|)
  }

  /** The length of the longest cell in column `i` (0 when no row reaches it). */
  function MaxCell(t: seq<seq<bytes>>, i: nat): (n: nat)
    ensures forall r | 0 <= r < |t| && i < |t[r]| :: |t[r][i]| <= n
    ensures n == 0 || exists r | 0 <= r < |t| && i < |t[r]| :: |t[r][i]| == n
  {
    if t == [] then 0
    else
      var m := MaxCell(t[..|t| - 1], i);
      assert forall r | 0 <= r < |t| - 1 :: t[..|t| - 1][r] == t[r];
      MaxOf(m, if i < |t[|t| - 1]| then |t[|t| - 1][i]| else 0)
  }

  /** `colWidths`: one per column of the longest row, each the longest cell of
      that column and at least 10. */
  function Widths(t: seq<seq<bytes>>): (w: seq<nat>)
    ensures |w| == MaxRowLen(t)
    ensures forall i | 0 <= i < |w| :: w[i] == MaxOf(10, MaxCell(t, i))
  {
    seq(MaxRowLen(t), i requires 0 <= i => MaxOf(10, MaxCell(t, i)))
  }

  function Segments(widths: seq<nat>): (s: seq<bytes>)
    ensures |s| == |widths|
    ensures forall i | 0 <= i < |widths| :: s[i] == Repeat(Dash, widths[i] + 2)
  {
    seq(|widths|, i requires 0 <= i < |widths| => Repeat(Dash, widths[i] + 2))
  }

  /** `renderTableSeparator`: "├", the "─" runs (two wider than their column)
      joined by "┼", then "┤\n". */
  function Separator(widths: seq<nat>): bytes {
    LeftTee + Join(Segments(widths), Cross) + RightTee
  }

  /** The width of column `j`.  The widths come from the table being drawn,
      so every cell has one; beyond them the width is 0. */
  function WidthAt(widths: seq<nat>, j: nat): nat {
    if j < |widths| then widths[j] else 0
  }

  /** The cells of a row line, each padded to its column and closed by " │ ". */
  function Cells(row: seq<bytes>, widths: seq<nat>): bytes {
    if row == [] then []
    else Cells(row[..|row| - 1], widths) + PadString(row[|row| - 1], WidthAt(widths, |row| - 1)) + CellEnd
  }

  function RowLine(row: seq<bytes>, widths: seq<nat>): bytes {
    Bar + Cells(row, widths) + NewlineText
  }

  /** The row lines of a table, one per row. */
  function RowLines(t: seq<seq<bytes>>, widths: seq<nat>): (ls: seq<bytes>)
    ensures |ls| == |t|
  {
    seq(|t|, i requires 0 <= i < |t| => RowLine(t[i], widths))
  }

  /** Lines with `sep` placed before the first and before the second. */
  function Framed(ls: seq<bytes>, sep: bytes): bytes {
    if ls == [] then []
    else
      var k := |ls| - 1;
      Framed(ls[..k], sep) + (if k <= 1 then sep else []) + ls[k]
  }

  function Concat(ls: seq<bytes>): bytes {
    if ls == [] then [] else ls[0] + Concat(ls[1..])
  }

  /** What `renderTable` writes. */
  function TableText(t: seq<seq<bytes>>): bytes {
    if t == [] then []
    else Framed(RowLines(t, Widths(t)), Separator(Widths(t))) + Separator(Widths(t))
  }

  // ---------------------------------------------------------------------------
  // traverse and handleElement

  /** `traverse` when `revisit` holds: a node's own step, then its children again
      (also for elements, whose step has visited them already).  With `revisit`
      false, an element's children are visited only by its own step. */
  function Walk(c: Conv, n: Node, revisit: bool): Conv
    decreases n, 2, 0
  {
    match n
    case Text(d) => AddText(c, d)
    case Element(_, _, _) =>
      var c1 := Handle(c, n, revisit);
      if revisit then Children(c1, n, 0, revisit) else c1
    case Other(_) => Children(c, n, 0, revisit)
  }

  /** `traverseChildren` from the `i`-th child. */
  function Children(c: Conv, n: Node, i: nat, revisit: bool): Conv
    requires !n.Text? && i <= |n.children|
    decreases n, 0, |n.children| - i
  {
    if i == |n.children| then c else Children(Walk(c, n.children[i], revisit), n, i + 1, revisit)
  }

  /** `handleElement` */
  function Handle(c: Conv, n: Node, revisit: bool): Conv
    requires n.Element?
    decreases n, 1, 0
  {
    match n.tag
    case P => EnsureNewline(Children(EnsureNewline(c), n, 0, revisit))
    case Br => c.(buf := c.buf + NewlineText, lastNewline := true)
    case H1 => Heading(c, n, revisit)
    case H2 => Heading(c, n, revisit)
    case H3 => Heading(c, n, revisit)
    case H4 => Heading(c, n, revisit)
    case H5 => Heading(c, n, revisit)
    case H6 => Heading(c, n, revisit)
    case Strong => Write(Children(Write(c, Star), n, 0, revisit), Star)
    case B => Write(Children(Write(c, Star), n, 0, revisit), Star)
    case Em => Write(Children(Write(c, Low), n, 0, revisit), Low)
    case I => Write(Children(Write(c, Low), n, 0, revisit), Low)
    case A => Write(c, LinkText(n))
    case Ul => EnsureNewline(Children(EnsureNewline(c), n, 0, revisit))
    case Ol => EnsureNewline(Children(EnsureNewline(c), n, 0, revisit))
    case Li => Children(Write(EnsureNewline(c), Bullet), n, 0, revisit)
    case Table =>
      var c1 := EnsureNewline(c).(inTable := true, table := [], tableRow := []);
      var c2 := Children(c1, n, 0, revisit).(inTable := false);
      EnsureNewline(Write(c2, TableText(c2.table)))
    case Tr =>
      var c1 := Children(c.(tableRow := []), n, 0, revisit);
      if |c1.tableRow| > 0 then c1.(table := c1.table + [c1.tableRow]) else c1
    case Td => c.(tableRow := c.tableRow + [TrimSpace(ExtractText(n))])
    case Th => c.(tableRow := c.tableRow + [TrimSpace(ExtractText(n))])
    case Blockquote => EnsureNewline(Children(Write(EnsureNewline(c), QuoteMark), n, 0, revisit))
    case Hr => Write(EnsureNewline(c), RuleText()).(lastNewline := true)
    case Script => c
    case Style => c
    case Meta => c
    case Title => c
    case OtherTag => Children(c, n, 0, revisit)
  }

  /** A heading: "=== ", the children, " ===\n". */
  function Heading(c: Conv, n: Node, revisit: bool): Conv
    requires n.Element?
    decreases n, 0, |n.children| + 1
  {
    Write(Children(Write(EnsureNewline(c), HeadingOpen), n, 0, revisit), HeadingClose).(lastNewline := true)
  }

  /** A link: "[text](href)", or only the text when there is no href. */
  function LinkText(n: Node): bytes
    requires n.Element?
  {
    var text := ExtractText(n);
    var href := GetAttr(n.attrs, Href);
    if href != [] then [91] + text + [93, 40] + href + [41] else text
  }

  /** `htmlToText` on a parsed document (the code as written). */
  function HtmlToText(doc: Node): bytes {
    TrimSpace(Walk(Empty, doc, true).buf)
  }

  /** `htmlToText` with each element's children visited once. */
  function HtmlToTextOnce(doc: Node): bytes {
    TrimSpace(Walk(Empty, doc, false).buf)
  }

  // ---------------------------------------------------------------------------
  // Properties of the steps

  /** `ensureNewline` writes nothing to an empty buffer or after a line end,
      at most one "\n" otherwise, and a second call writes nothing. */
  lemma EnsureNewlineSpec(c: Conv)
    ensures c.buf == [] ==> EnsureNewline(c) == c
    ensures EnsureNewline(c).buf == c.buf || EnsureNewline(c).buf == c.buf + [Newline]
    ensures EnsureNewline(c).lastNewline == (c.lastNewline || c.buf != [])
    ensures EnsureNewline(EnsureNewline(c)) == EnsureNewline(c)
    ensures EnsureNewline(c) == c.(buf := EnsureNewline(c).buf, lastNewline := EnsureNewline(c).lastNewline)
  {
  }

  /** `addText`: blank text changes nothing; other text is written collapsed
      (its words, in order, single-spaced), after one space exactly when the
      buffer is non-empty, not at a line start and not ending in "\n", and
      `lastNewline` is then false. */
  lemma AddTextSpec(c: Conv, text: bytes)
    ensures AllSpace(text) ==> AddText(c, text) == c
    ensures !AllSpace(text) ==>
      var r := AddText(c, text);
      && r == c.(buf := r.buf, lastNewline := false)
      && r.buf == c.buf + (if NeedsSpace(c) then [Space] else []) + Collapse(text)
      && Collapse(text) != []
      && IsCollapsed(Collapse(text))
      && Fields(Collapse(text)) == Fields(text)
  {
    TrimSpaceEmpty(text);
    CollapseSpec(text);
  }

  /** Text with no whitespace at either end is its own TrimSpace. */
  lemma TrimSpaceNoEdges(s: bytes)
    requires s == [] || (!IsSpace(s[0]) && !IsSpace(s[|s| - 1]))
    ensures TrimSpace(s) == s
  {
  }

  lemma CollapsedEdges(r: bytes)
    requires IsCollapsed(r)
    ensures r == [] || (!IsSpace(r[0]) && !IsSpace(r[|r| - 1]))
  {
  }

  lemma CollapsedAppend(a: bytes, b: bytes)
    requires IsCollapsed(a) && IsCollapsed(b)
    ensures IsCollapsed(a + b)
  {
    var ab := a + b;
    forall i | 0 <= i < |ab| && IsSpace(ab[i])
      ensures ab[i] == Space && 0 < i < |ab| - 1 && !IsSpace(ab[i + 1])
    {
      if i < |a| {
        assert ab[i + 1] == a[i + 1];
      } else {
        assert ab[i] == b[i - |a|];
        assert ab[i + 1] == b[i - |a| + 1];
      }
    }
  }

  /** `extractText`: the subtree's text nodes, each collapsed, run together
      with nothing in between; the result has no leading, trailing or doubled
      whitespace, so the final TrimSpace changes nothing. */
  lemma {:induction false} ExtractRawCollapsed(n: Node)
    ensures IsCollapsed(ExtractRaw(n))
    decreases n, 1, 0
  {
    match n
    case Text(d) => CollapseSpec(d);
    case Element(_, _, _) => ExtractKidsCollapsed(n, 0);
    case Other(_) => ExtractKidsCollapsed(n, 0);
  }

  lemma {:induction false} ExtractKidsCollapsed(n: Node, i: nat)
    requires !n.Text? && i <= |n.children|
    ensures IsCollapsed(ExtractKids(n, i))
    decreases n, 0, |n.children| - i
  {
    if i < |n.children| {
      ExtractRawCollapsed(n.children[i]);
      ExtractKidsCollapsed(n, i + 1);
      CollapsedAppend(ExtractRaw(n.children[i]), ExtractKids(n, i + 1));
    }
  }

  lemma ExtractTextSpec(n: Node)
    ensures ExtractText(n) == ExtractRaw(n)
    ensures IsCollapsed(ExtractText(n))
  {
    ExtractRawCollapsed(n);
    CollapsedEdges(ExtractRaw(n));
    TrimSpaceNoEdges(ExtractRaw(n));
  }

  /** Adjacent text nodes are joined with nothing between them. */
  lemma ExtractTwoTexts(tag: Tag, attrs: seq<Attr>, a: bytes, b: bytes)
    ensures ExtractText(Element(tag, attrs, [Text(a), Text(b)])) == Collapse(a) + Collapse(b)
  {
    var n := Element(tag, attrs, [Text(a), Text(b)]);
    assert ExtractKids(n, 2) == [];
    assert ExtractKids(n, 1) == Collapse(b);
    assert ExtractKids(n, 0) == Collapse(a) + Collapse(b);
    ExtractTextSpec(n);
  }

  // ---------------------------------------------------------------------------
  // Properties of the table

  /** An empty table writes nothing. */
  lemma EmptyTableText()
    ensures TableText([]) == []
  {
  }

  lemma {:induction false} ConcatSnoc(ls: seq<bytes>, l: bytes)
    ensures Concat(ls + [l]) == Concat(ls) + l
    decreases |ls|
  {
    if ls == [] {
      assert Concat([l]) == l + Concat([]);
    } else {
      assert (ls + [l])[1..] == ls[1..] + [l];
      ConcatSnoc(ls[1..], l);
    }
  }

  /** Drawing one more line adds it, after a separator while it is the first
      or second. */
  lemma FramedSnoc(ls: seq<bytes>, l: bytes, sep: bytes)
    ensures Framed(ls + [l], sep) == Framed(ls, sep) + ((if |ls| <= 1 then sep else []) + l)
  {
    assert (ls + [l])[..|ls|] == ls;
  }

  /** The separators: one before the first line and one before the second. */
  lemma {:induction false} FramedLayout(ls: seq<bytes>, sep: bytes)
    requires ls != []
    ensures Framed(ls, sep) == sep + ls[0] + (if |ls| >= 2 then sep + Concat(ls[1..]) else [])
    decreases |ls|
  {
    var k := |ls| - 1;
    if k == 0 {
      assert ls[..0] == [];
    } else if k == 1 {
      assert ls[..1][..0] == [];
      assert Framed(ls[..1], sep) == sep + ls[0];
      assert ls[1..][1..] == [];
      assert Concat(ls[1..]) == ls[1];
    } else {
      var s := ls[..k];
      FramedLayout(s, sep);
      assert s[0] == ls[0];
      assert s[1..] + [ls[k]] == ls[1..];
      ConcatSnoc(s[1..], ls[k]);
    }
  }

  /** `renderTable` on a non-empty table: a separator, the first row's line, a
      separator and the other rows' lines in order when there are at least two
      rows, and a closing separator, all drawn with the same column widths. */
  lemma TableLayout(t: seq<seq<bytes>>)
    requires t != []
    ensures var w := Widths(t); var ls := RowLines(t, w);
      TableText(t) == Separator(w) + ls[0]
        + (if |t| >= 2 then Separator(w) + Concat(ls[1..]) else []) + Separator(w)
  {
    FramedLayout(RowLines(t, Widths(t)), Separator(Widths(t)));
  }

  /** Each cell is padded to its column, so a row line's length depends only
      on the widths of the columns it reaches. */
  lemma {:induction false} CellsLength(row: seq<bytes>, widths: seq<nat>)
    requires |row| <= |widths|
    ensures |Cells(row, widths)| == Sum(widths[..|row|]) + 5 * |row|
    decreases |row|
  {
    if row != [] {
      var k := |row| - 1;
      CellsLength(row[..k], widths);
      assert widths[..k + 1] == widths[..k] + [widths[k]];
      SumSnoc(widths[..k], widths[k]);
    }
  }

  function Sum(s: seq<nat>): nat {
    if s == [] then 0 else s[0] + Sum(s[1..])
  }

  lemma {:induction false} SumSnoc(s: seq<nat>, x: nat)
    ensures Sum(s + [x]) == Sum(s) + x
    decreases |s|
  {
    if s != [] {
      assert (s + [x])[1..] == s[1..] + [x];
      SumSnoc(s[1..], x);
    }
  }

  // ---------------------------------------------------------------------------
  // Properties of the traversal

  /** An element the converter means to skip is skipped when its children are
      visited once. */
  lemma SkippedOnce(c: Conv, tag: Tag, attrs: seq<Attr>, kids: seq<Node>)
    requires tag == Script || tag == Style || tag == Meta || tag == Title
    ensures Walk(c, Element(tag, attrs, kids), false) == c
  {
  }

  /** As written, `traverse` still visits the children of a skipped element:
      a script's text reaches the output like any other text. */
  lemma SkippedAsWritten(c: Conv, attrs: seq<Attr>, d: bytes)
    ensures Walk(c, Element(Script, attrs, [Text(d)]), true) == AddText(c, d)
  {
    var n := Element(Script, attrs, [Text(d)]);
    assert Children(c, n, 1, true) == c;
    assert Children(c, n, 0, true) == Children(AddText(c, d), n, 1, true);
    assert Children(AddText(c, d), n, 1, true) == AddText(c, d);
  }

  /** Removing one trailing newline from text with no whitespace at its ends. */
  lemma TrimSpaceNewline(w: bytes)
    requires w != [] && !IsSpace(w[0]) && !IsSpace(w[|w| - 1])
    ensures TrimSpace(w + [Newline]) == w
  {
    var s := w + [Newline];
    assert DropLeadingSpaces(s) == s;
    assert s[..|s| - 1] == w;
    assert DropTrailingSpaces(w) == w;
  }

  /** `handleElement` on a paragraph of non-blank text `d` in an empty
      converter writes the text and a newline. */
  lemma ParagraphHandle(d: bytes, revisit: bool)
    requires !AllSpace(d)
    ensures Handle(Empty, Element(P, [], [Text(d)]), revisit)
      == Empty.(buf := Collapse(d) + [Newline], lastNewline := true)
  {
    var n := Element(P, [], [Text(d)]);
    TrimSpaceEmpty(d);
    var c1 := AddText(Empty, d);
    assert c1 == Empty.(buf := Collapse(d));
    assert Children(c1, n, 1, revisit) == c1;
    assert Children(Empty, n, 0, revisit) == c1;
  }

  /** The same paragraph as written: after `handleElement`, `traverse` adds the
      text once more. */
  lemma ParagraphAsWritten(d: bytes)
    requires !AllSpace(d)
    ensures Walk(Empty, Element(P, [], [Text(d)]), true).buf == Collapse(d) + [Newline] + Collapse(d)
  {
    var n := Element(P, [], [Text(d)]);
    var w := Collapse(d);
    ParagraphHandle(d, true);
    TrimSpaceEmpty(d);
    var c2 := Empty.(buf := w + [Newline], lastNewline := true);
    assert Walk(Empty, n, true) == Children(c2, n, 0, true);
    var c3 := AddText(c2, d);
    assert !NeedsSpace(c2);
    assert c3.buf == w + [Newline] + w;
    assert Children(c3, n, 1, true) == c3;
    assert Walk(c2, Text(d), true) == c3;
  }

  /** A paragraph of text: as written its text comes out twice, once from
      `handleElement` and once more from `traverse`; visited once it comes out
      once. */
  lemma ParagraphTwice(d: bytes)
    requires !AllSpace(d)
    ensures HtmlToText(Element(P, [], [Text(d)])) == Collapse(d) + [Newline] + Collapse(d)
    ensures HtmlToTextOnce(Element(P, [], [Text(d)])) == Collapse(d)
  {
    var w := Collapse(d);
    ParagraphHandle(d, false);
    ParagraphAsWritten(d);
    CollapseSpec(d);
    CollapsedEdges(w);
    TrimSpaceNoEdges(w + [Newline] + w);
    TrimSpaceNewline(w);
  }

  // ---------------------------------------------------------------------------
  // The parsed document

  /** The tree `html.Parse` builds around body content `kids`: a document node
      holding `html`, which holds an empty `head` and a `body` with the content.
      The converter does not tell these three elements apart (`OtherTag`). */
  function ParsedBody(kids: seq<Node>): Node {
    Other([Element(OtherTag, [], [Element(OtherTag, [], []), Element(OtherTag, [], kids)])])
  }

  /** Walking the children of a node with one child walks that child. */
  lemma ChildrenOne(c: Conv, n: Node, revisit: bool)
    requires !n.Text? && |n.children| == 1
    ensures Children(c, n, 0, revisit) == Walk(c, n.children[0], revisit)
  {
    assert Children(c, n, 0, revisit) == Children(Walk(c, n.children[0], revisit), n, 1, revisit);
  }

  /** Walking the children of a node with two children walks both in order. */
  lemma ChildrenTwo(c: Conv, n: Node, revisit: bool)
    requires !n.Text? && |n.children| == 2
    ensures Children(c, n, 0, revisit) == Walk(Walk(c, n.children[0], revisit), n.children[1], revisit)
  {
    var c1 := Walk(c, n.children[0], revisit);
    assert Children(c, n, 0, revisit) == Children(c1, n, 1, revisit);
    assert Children(c1, n, 1, revisit) == Children(Walk(c1, n.children[1], revisit), n, 2, revisit);
  }

  /** An element the converter does not know, around a single child: as written
      the child is walked twice, once by `handleElement` and once more by
      `traverse`; with the corrected walk it is walked once. */
  lemma OtherTagTwice(c: Conv, attrs: seq<Attr>, k: Node)
    ensures Walk(c, Element(OtherTag, attrs, [k]), true) == Walk(Walk(c, k, true), k, true)
    ensures Walk(c, Element(OtherTag, attrs, [k]), false) == Walk(c, k, false)
  {
    var n := Element(OtherTag, attrs, [k]);
    ChildrenOne(c, n, true);
    ChildrenOne(c, n, false);
    ChildrenOne(Walk(c, k, true), n, true);
  }

  /** An empty element the converter does not know writes nothing. */
  lemma EmptyOtherTag(c: Conv, revisit: bool)
    ensures Walk(c, Element(OtherTag, [], []), revisit) == c
  {
    var n := Element(OtherTag, [], []);
    assert Children(c, n, 0, revisit) == c;
    assert Handle(c, n, revisit) == c;
  }

  /** The parsed document's `html`, with its empty `head`, walks like its
      `body` alone. */
  lemma ParsedHtml(c: Conv, body: Node, revisit: bool)
    ensures var html := Element(OtherTag, [], [Element(OtherTag, [], []), body]);
      Children(c, html, 0, revisit) == Walk(c, body, revisit)
  {
    var html := Element(OtherTag, [], [Element(OtherTag, [], []), body]);
    ChildrenTwo(c, html, revisit);
    EmptyOtherTag(c, revisit);
  }

  /** Around the parsed document's `html` and `body`, as written the content is
      walked four times; with the corrected walk once. */
  lemma ParsedWalk(c: Conv, k: Node)
    ensures Walk(c, ParsedBody([k]), true)
      == Walk(Walk(Walk(Walk(c, k, true), k, true), k, true), k, true)
    ensures Walk(c, ParsedBody([k]), false) == Walk(c, k, false)
  {
    var doc := ParsedBody([k]);
    var html := doc.children[0];
    var body := html.children[1];
    ChildrenOne(c, doc, true);
    ChildrenOne(c, doc, false);
    var c1 := Children(c, html, 0, true);
    ParsedHtml(c, body, true);
    ParsedHtml(c1, body, true);
    ParsedHtml(c, body, false);
    assert Walk(c, html, true) == Children(c1, html, 0, true);
    assert Walk(c, html, false) == Children(c, html, 0, false);
    OtherTagTwice(c, [], k);
    OtherTagTwice(Walk(Walk(c, k, true), k, true), [], k);
  }

  /** `handleElement` on a paragraph of non-blank text `d`, after output that
      does not end a line: a newline unless nothing was written yet, the text,
      and a newline. */
  lemma ParagraphHandleAfter(c: Conv, d: bytes)
    requires !AllSpace(d)
    requires !c.lastNewline && (c.buf == [] || c.buf[|c.buf| - 1] != Newline)
    ensures Handle(c, Element(P, [], [Text(d)]), true)
      == c.(buf := c.buf + (if c.buf == [] then [] else [Newline]) + Collapse(d) + [Newline], lastNewline := true)
  {
    var n := Element(P, [], [Text(d)]);
    var w := Collapse(d);
    var c0 := EnsureNewline(c);
    assert c0 == c.(buf := c.buf + (if c.buf == [] then [] else [Newline]), lastNewline := c.buf != []);
    assert !NeedsSpace(c0);
    AddTextSpec(c0, d);
    ChildrenOne(c0, n, true);
    var c1 := AddText(c0, d);
    assert c1.buf == c0.buf + w && !c1.lastNewline;
    assert c1 == c.(buf := c0.buf + w);
  }

  /** Non-blank text at the start of a line is written collapsed, with no
      space before it. */
  lemma AddTextAtLineStart(c: Conv, d: bytes)
    requires !AllSpace(d) && c.lastNewline
    ensures AddText(c, d) == c.(buf := c.buf + Collapse(d), lastNewline := false)
  {
    AddTextSpec(c, d);
    assert c.buf + [] == c.buf;
  }

  /** A paragraph of non-blank text `d`, walked as written after output that
      does not end a line, writes a newline, the text, a newline and the text
      again. */
  lemma ParagraphAgain(c: Conv, d: bytes)
    requires !AllSpace(d)
    requires !c.lastNewline && (c.buf == [] || c.buf[|c.buf| - 1] != Newline)
    ensures Walk(c, Element(P, [], [Text(d)]), true)
      == c.(buf := c.buf + (if c.buf == [] then [] else [Newline]) + Collapse(d) + [Newline] + Collapse(d))
  {
    var n := Element(P, [], [Text(d)]);
    ParagraphHandleAfter(c, d);
    var c2 := Handle(c, n, true);
    ChildrenOne(c2, n, true);
    AddTextAtLineStart(c2, d);
  }

  lemma {:induction false} RepeatSnoc(s: bytes, n: nat)
    ensures Repeat(s, n) + s == Repeat(s, n + 1)
  {
    if n > 0 {
      RepeatSnoc(s, n - 1);
      assert s + Repeat(s, n - 1) + s == s + (Repeat(s, n - 1) + s);
    }
  }

  /** `w` followed by `j > 0` lines of `w` ends as `w` does; two more lines
      make `j + 2`. */
  lemma RepeatLines(w: bytes, j: nat)
    requires w != [] && j > 0
    ensures var b := w + Repeat([Newline] + w, j);
      && b[|b| - 1] == w[|w| - 1]
      && b + [Newline] + w + [Newline] + w == w + Repeat([Newline] + w, j + 2)
  {
    var x := [Newline] + w;
    RepeatSnoc(x, j - 1);
    assert w + Repeat(x, j) == w + Repeat(x, j - 1) + [Newline] + w;
    RepeatSnoc(x, j);
    RepeatSnoc(x, j + 1);
    assert w + Repeat(x, j) + [Newline] + w + [Newline] + w == w + (Repeat(x, j) + x + x);
  }

  /** A further paragraph after `w` and `j` lines of `w` adds two more lines. */
  lemma ParagraphLines(c: Conv, d: bytes, j: nat)
    requires !AllSpace(d) && j > 0
    requires c.buf == Collapse(d) + Repeat([Newline] + Collapse(d), j) && !c.lastNewline
    ensures Walk(c, Element(P, [], [Text(d)]), true)
      == c.(buf := Collapse(d) + Repeat([Newline] + Collapse(d), j + 2))
  {
    var w := Collapse(d);
    CollapseSpec(d);
    CollapsedEdges(w);
    RepeatLines(w, j);
    ParagraphAgain(c, d);
  }

  /** Eight lines of collapsed text have no whitespace at either end. */
  lemma EightLinesTrimmed(w: bytes)
    requires w != [] && !IsSpace(w[0]) && !IsSpace(w[|w| - 1])
    ensures TrimSpace(w + Repeat([Newline] + w, 7)) == w + Repeat([Newline] + w, 7)
  {
    RepeatLines(w, 5);
    TrimSpaceNoEdges(w + Repeat([Newline] + w, 7));
  }

  /** The parsed paragraph, walked as written, leaves eight lines of text. */
  lemma ParsedParagraphWalk(d: bytes)
    requires !AllSpace(d)
    ensures Walk(Empty, ParsedBody([Element(P, [], [Text(d)])]), true).buf
      == Collapse(d) + Repeat([Newline] + Collapse(d), 7)
  {
    var p := Element(P, [], [Text(d)]);
    var w := Collapse(d);
    var x := [Newline] + w;
    ParsedWalk(Empty, p);
    ParagraphAgain(Empty, d);
    var c1 := Walk(Empty, p, true);
    assert Repeat(x, 1) == x;
    assert c1 == Empty.(buf := w + Repeat(x, 1));
    ParagraphLines(c1, d, 1);
    var c2 := Walk(c1, p, true);
    ParagraphLines(c2, d, 3);
    var c3 := Walk(c2, p, true);
    ParagraphLines(c3, d, 5);
  }

  /** `<p>d</p>` as `html.Parse` hands it over: as written its text comes out
      eight times, one copy per line (html, body and the paragraph each double
      it); with the corrected walk once. */
  lemma ParsedParagraph(d: bytes)
    requires !AllSpace(d)
    ensures HtmlToText(ParsedBody([Element(P, [], [Text(d)])])) == Collapse(d) + Repeat([Newline] + Collapse(d), 7)
    ensures HtmlToTextOnce(ParsedBody([Element(P, [], [Text(d)])])) == Collapse(d)
  {
    var p := Element(P, [], [Text(d)]);
    var w := Collapse(d);
    CollapseSpec(d);
    CollapsedEdges(w);
    ParsedParagraphWalk(d);
    EightLinesTrimmed(w);
    ParsedWalk(Empty, p);
    ParagraphHandle(d, false);
    assert Walk(Empty, p, false) == Handle(Empty, p, false);
    TrimSpaceNewline(w);
  }
}
