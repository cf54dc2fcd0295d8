/** The `htmlConverter` object of cmd/htmlconverter.go: its fields are updated
    in place as the document is walked, and each method is proved to perform
    the corresponding step of HtmlText on the fields' values.

    The walking methods take the `revisit` flag of HtmlText.Walk: `true` is
    the code as written, where `traverse` visits an element's children again
    after `handleElement`; `false` is the corrected walk (see Findings). */
module HtmlConverter {
  import opened Bytes
  import HtmlText

  class Converter {
    var buf: bytes
    var lastNewline: bool
    var inTable: bool
    var tableRow: seq<bytes>
    var table: seq<seq<bytes>>

    /** The fields as one value. */
    function Model(): HtmlText.Conv
      reads this
    {
      HtmlText.Conv(buf, lastNewline, inTable, tableRow, table)
    }

    /** `&htmlConverter{buf: &bytes.Buffer{}}` */
    constructor ()
      ensures Model() == HtmlText.Empty
    {
      buf, lastNewline, inTable, tableRow, table := [], false, false, [], [];
    }

    /** `c.buf.WriteString(s)` */
    method WriteString(s: bytes)
      modifies this
      ensures Model() == HtmlText.Write(old(Model()), s)
    {
      buf := buf + s;
    }

    /** `ensureNewline` */
    method EnsureNewline()
      modifies this
      ensures Model() == HtmlText.EnsureNewline(old(Model()))
    {
      if |buf| > 0 && !lastNewline {
        buf, lastNewline := buf + HtmlText.NewlineText, true;
      }
    }

    /** `addText` */
    method AddText(text: bytes)
      modifies this
      ensures Model() == HtmlText.AddText(old(Model()), text)
    {
      var t := TrimSpace(text);
      if t == [] {
        return;
      }
      t := Join(Fields(t), [Space]);
      if |buf| > 0 && !lastNewline && buf[|buf| - 1] != Newline {
        buf := buf + [Space];
      }
      buf, lastNewline := buf + t, false;
    }

    /** `traverse`: the node's own step, then every child.  As written
        (`revisit`) this includes the children of an element, whose own step
        has already visited them.  Text nodes have no children. */
    method Traverse(n: HtmlText.Node, revisit: bool)
      modifies this
      ensures Model() == HtmlText.Walk(old(Model()), n, revisit)
      decreases n, 2, 0
    {
      match n {
        case Text(d) =>
          AddText(d);
        case Element(_, _, _) =>
          HandleElement(n, revisit);
          if revisit {
            TraverseChildren(n, revisit);
          }
        case Other(_) =>
          TraverseChildren(n, revisit);
      }
    }

    /** `traverseChildren` */
    method TraverseChildren(n: HtmlText.Node, revisit: bool)
      requires !n.Text?
      modifies this
      ensures Model() == HtmlText.Children(old(Model()), n, 0, revisit)
      decreases n, 0, 0
    {
      var i := 0;
      while i < |n.children|
        invariant 0 <= i <= |n.children|
        invariant HtmlText.Children(Model(), n, i, revisit) == HtmlText.Children(old(Model()), n, 0, revisit)
      {
        Traverse(n.children[i], revisit);
        i := i + 1;
      }
    }

    /** `handleElement`: the step for each kind of element. */
    method HandleElement(n: HtmlText.Node, revisit: bool)
      requires n.Element?
      modifies this
      ensures Model() == HtmlText.Handle(old(Model()), n, revisit)
      decreases n, 1, 1
    {
      match n.tag {
        case P | Ul | Ol =>
          Block(n, revisit);
        case Br =>
          LineBreak();
        case H1 | H2 | H3 | H4 | H5 | H6 =>
          Heading(n, revisit);
        case Strong | B =>
          Wrap(n, HtmlText.Star, revisit);
        case Em | I =>
          Wrap(n, HtmlText.Low, revisit);
        case A =>
          Link(n);
        case Li =>
          ListItem(n, revisit);
        case Table =>
          TableElement(n, revisit);
        case Tr =>
          RowElement(n, revisit);
        case Td | Th =>
          CellElement(n);
        case Blockquote =>
          Quote(n, revisit);
        case Hr =>
          Rule();
        case Script | Style | Meta | Title =>
          return;
        case OtherTag =>
          TraverseChildren(n, revisit);
      }
    }

    /** `<p>`, `<ul>` and `<ol>`: the children on lines of their own. */
    method Block(n: HtmlText.Node, revisit: bool)
      requires n.Element? && n.tag in {HtmlText.P, HtmlText.Ul, HtmlText.Ol}
      modifies this
      ensures Model() == HtmlText.EnsureNewline(HtmlText.Children(HtmlText.EnsureNewline(old(Model())), n, 0, revisit))
      decreases n, 1, 0
    {
      EnsureNewline();
      TraverseChildren(n, revisit);
      EnsureNewline();
    }

    /** `<br>`: a newline. */
    method LineBreak()
      modifies this
      ensures buf == old(buf) + HtmlText.NewlineText && lastNewline
      ensures inTable == old(inTable) && tableRow == old(tableRow) && table == old(table)
    {
      WriteString(HtmlText.NewlineText);
      lastNewline := true;
    }

    /** `<h1>` to `<h6>`: "=== ", the children, " ===\n". */
    method Heading(n: HtmlText.Node, revisit: bool)
      requires n.Element?
      modifies this
      ensures Model() == HtmlText.Heading(old(Model()), n, revisit)
      decreases n, 1, 0
    {
      EnsureNewline();
      WriteString(HtmlText.HeadingOpen);
      TraverseChildren(n, revisit);
      WriteString(HtmlText.HeadingClose);
      lastNewline := true;
    }

    /** `<strong>`, `<b>`, `<em>` and `<i>`: the children between two marks. */
    method Wrap(n: HtmlText.Node, mark: bytes, revisit: bool)
      requires n.Element?
      modifies this
      ensures Model() == HtmlText.Write(HtmlText.Children(HtmlText.Write(old(Model()), mark), n, 0, revisit), mark)
      decreases n, 1, 0
    {
      WriteString(mark);
      TraverseChildren(n, revisit);
      WriteString(mark);
    }

    /** `<a>`: "[text](href)", or the text alone without an href. */
    method Link(n: HtmlText.Node)
      requires n.Element?
      modifies this
      ensures Model() == HtmlText.Write(old(Model()), HtmlText.LinkText(n))
    {
      var text := HtmlText.ExtractText(n);
      var href := HtmlText.GetAttr(n.attrs, HtmlText.Href);
      if href != [] {
        WriteString([91] + text + [93, 40] + href + [41]);
      } else {
        WriteString(text);
      }
    }

    /** `<li>`: a new line starting with a bullet, then the children. */
    method ListItem(n: HtmlText.Node, revisit: bool)
      requires n.Element?
      modifies this
      ensures Model() == HtmlText.Children(HtmlText.Write(HtmlText.EnsureNewline(old(Model())), HtmlText.Bullet), n, 0, revisit)
      decreases n, 1, 0
    {
      EnsureNewline();
      WriteString(HtmlText.Bullet);
      TraverseChildren(n, revisit);
    }

    /** `<table>`: the rows are collected while the children are walked, then
        the table is drawn on lines of its own. */
    method TableElement(n: HtmlText.Node, revisit: bool)
      requires n.Element? && n.tag == HtmlText.Table
      modifies this
      ensures Model() == HtmlText.Handle(old(Model()), n, revisit)
      decreases n, 1, 0
    {
      EnsureNewline();
      inTable, table, tableRow := true, [], [];
      TraverseChildren(n, revisit);
      inTable := false;
      RenderTable();
      EnsureNewline();
    }

    /** `<tr>`: a fresh row, kept when its cells gave it any. */
    method RowElement(n: HtmlText.Node, revisit: bool)
      requires n.Element? && n.tag == HtmlText.Tr
      modifies this
      ensures Model() == HtmlText.Handle(old(Model()), n, revisit)
      decreases n, 1, 0
    {
      tableRow := [];
      TraverseChildren(n, revisit);
      if |tableRow| > 0 {
        table := table + [tableRow];
      }
    }

    /** `<td>` and `<th>`: the cell's text joins the current row. */
    method CellElement(n: HtmlText.Node)
      requires n.Element?
      modifies this
      ensures Model() == old(Model()).(tableRow := old(tableRow) + [TrimSpace(HtmlText.ExtractText(n))])
    {
      var text := TrimSpace(HtmlText.ExtractText(n));
      tableRow := tableRow + [text];
    }

    /** `<blockquote>`: a new line starting with ">>> ", then the children. */
    method Quote(n: HtmlText.Node, revisit: bool)
      requires n.Element?
      modifies this
      ensures Model() == HtmlText.EnsureNewline(HtmlText.Children(HtmlText.Write(HtmlText.EnsureNewline(old(Model())), HtmlText.QuoteMark), n, 0, revisit))
      decreases n, 1, 0
    {
      EnsureNewline();
      WriteString(HtmlText.QuoteMark);
      TraverseChildren(n, revisit);
      EnsureNewline();
    }

    /** `<hr>`: a rule of 21 "─" on a line of its own. */
    method Rule()
      modifies this
      ensures Model() == HtmlText.Write(HtmlText.EnsureNewline(old(Model())), HtmlText.RuleText()).(lastNewline := true)
    {
      EnsureNewline();
      WriteString(HtmlText.RuleText());
      lastNewline := true;
    }

    /** `renderTable`: nothing for an empty table; otherwise the rows drawn
        with the column widths, separators before the first two rows and one
        after the last. */
    method RenderTable()
      modifies this
      ensures Model() == HtmlText.Write(old(Model()), HtmlText.TableText(old(table)))
    {
      if |table| == 0 {
        return;
      }
      ghost var c0 := Model();
      var colWidths := ColumnWidths(table);
      assert colWidths == HtmlText.Widths(table);
      var lines := RowTexts(table, colWidths);
      var rows := TableRowsText(lines, colWidths);
      WriteString(rows);
      RenderTableSeparator(colWidths);
      HtmlText.WriteTwice(c0, rows, HtmlText.Separator(colWidths));
    }

    /** `renderTableSeparator` */
    method RenderTableSeparator(colWidths: seq<nat>)
      modifies this
      ensures Model() == HtmlText.Write(old(Model()), HtmlText.Separator(colWidths))
    {
      var s := SeparatorText(colWidths);
      WriteString(s);
    }
  }

  // The loops of `renderTable` and `renderTableSeparator`.  The buffer only
  // ever grows, so each loop is given as the text it appends, built in the
  // same order.

  /** The row lines of `renderTable`, one `writeLine` per row. */
  method RowTexts(table: seq<seq<bytes>>, colWidths: seq<nat>) returns (lines: seq<bytes>)
    requires forall r | 0 <= r < |table| :: |table[r]| <= |colWidths|
    ensures lines == HtmlText.RowLines(table, colWidths)
  {
    lines := [];
    var i := 0;
    while i < |table|
      invariant 0 <= i <= |table|
      invariant |lines| == i
      invariant forall k | 0 <= k < i :: lines[k] == HtmlText.RowLine(table[k], colWidths)
    {
      var line := RowText(table[i], colWidths);
      lines := lines + [line];
      i := i + 1;
    }
  }

  /** The row loop of `renderTable`: a separator before rows 0 and 1, then
      the row's line. */
  method TableRowsText(lines: seq<bytes>, colWidths: seq<nat>) returns (out: bytes)
    ensures out == HtmlText.Framed(lines, HtmlText.Separator(colWidths))
  {
    ghost var sep := HtmlText.Separator(colWidths);
    out := [];
    var i := 0;
    while i < |lines|
      invariant 0 <= i <= |lines|
      invariant out == HtmlText.Framed(lines[..i], sep)
    {
      var s: bytes := [];
      if i == 0 || i == 1 {
        s := SeparatorText(colWidths);
      }
      assert lines[..i + 1] == lines[..i] + [lines[i]];
      HtmlText.FramedSnoc(lines[..i], lines[i], sep);
      out := out + (s + lines[i]);
      i := i + 1;
    }
    assert lines[..i] == lines;
  }

  /** One row: "│ ", each cell padded to its column followed by " │ ", then "\n". */
  method RowText(row: seq<bytes>, colWidths: seq<nat>) returns (out: bytes)
    requires |row| <= |colWidths|
    ensures out == HtmlText.RowLine(row, colWidths)
  {
    var cells := [];
    var j := 0;
    while j < |row|
      invariant 0 <= j <= |row|
      invariant cells == HtmlText.Cells(row[..j], colWidths)
    {
      cells := cells + HtmlText.PadString(row[j], colWidths[j]) + HtmlText.CellEnd;
      assert row[..j + 1][..j] == row[..j];
      j := j + 1;
    }
    assert row[..j] == row;
    out := HtmlText.Bar + cells + HtmlText.NewlineText;
  }

  /** The loop of `renderTableSeparator`: "├", each column's run of "─" with
      "┼" between runs, then "┤\n". */
  method SeparatorText(colWidths: seq<nat>) returns (out: bytes)
    ensures out == HtmlText.Separator(colWidths)
  {
    ghost var segs := HtmlText.Segments(colWidths);
    var runs := [];
    var i := 0;
    while i < |colWidths|
      invariant 0 <= i <= |colWidths|
      invariant runs == Join(segs[..i], HtmlText.Cross) + (if 0 < i < |colWidths| then HtmlText.Cross else [])
    {
      runs := runs + Repeat(HtmlText.Dash, colWidths[i] + 2);
      if i > 0 {
        JoinSnoc(segs[..i], segs[i], HtmlText.Cross);
      }
      assert segs[..i + 1] == segs[..i] + [segs[i]];
      if i < |colWidths| - 1 {
        runs := runs + HtmlText.Cross;
      }
      i := i + 1;
    }
    assert segs[..i] == segs;
    out := HtmlText.LeftTee + runs + HtmlText.RightTee;
  }

  /** The width loops of `renderTable`: the longest cell of each column,
      columns added as longer rows appear, then raised to at least 10. */
  method ColumnWidths(table: seq<seq<bytes>>) returns (widths: seq<nat>)
    ensures |widths| == HtmlText.MaxRowLen(table)
    ensures forall i | 0 <= i < |widths| :: widths[i] == HtmlText.MaxOf(10, HtmlText.MaxCell(table, i))
  {
    widths := [];
    var r := 0;
    while r < |table|
      invariant 0 <= r <= |table|
      invariant |widths| == HtmlText.MaxRowLen(table[..r])
      invariant forall i | 0 <= i < |widths| :: widths[i] == HtmlText.MaxCell(table[..r], i)
    {
      ghost var before := widths;
      widths := WidenColumns(widths, table[r]);
      assert table[..r + 1][..r] == table[..r];
      forall i | 0 <= i < |widths|
        ensures widths[i] == HtmlText.MaxCell(table[..r + 1], i)
      {
        if i >= |before| {
          MaxCellBeyond(table[..r], i);
        }
      }
      r := r + 1;
    }
    assert table[..r] == table;
    widths := RaiseWidths(widths);
  }

  /** The inner width loop for one row: each column takes the longer of its
      width so far and the row's cell, and the row's extra cells add columns. */
  method WidenColumns(widths: seq<nat>, row: seq<bytes>) returns (w: seq<nat>)
    ensures |w| == HtmlText.MaxOf(|widths|, |row|)
    ensures forall i | 0 <= i < |w| ::
      w[i] == HtmlText.MaxOf(if i < |widths| then widths[i] else 0, if i < |row| then |row[i]| else 0)
  {
    w := widths;
    var j := 0;
    while j < |row|
      invariant 0 <= j <= |row|
      invariant |w| == HtmlText.MaxOf(|widths|, j)
      invariant forall i | 0 <= i < |w| ::
        w[i] == HtmlText.MaxOf(if i < |widths| then widths[i] else 0, if i < j then |row[i]| else 0)
    {
      if j >= |w| {
        w := w + [|row[j]|];
      } else if |row[j]| > w[j] {
        w := w[j := |row[j]|];
      }
      j := j + 1;
    }
  }

  /** The last width loop: every column at least 10 wide. */
  method RaiseWidths(widths: seq<nat>) returns (w: seq<nat>)
    ensures |w| == |widths|
    ensures forall i | 0 <= i < |w| :: w[i] == HtmlText.MaxOf(10, widths[i])
  {
    w := widths;
    var i := 0;
    while i < |w|
      invariant 0 <= i <= |w| == |widths|
      invariant forall k | 0 <= k < i :: w[k] == HtmlText.MaxOf(10, widths[k])
      invariant forall k | i <= k < |w| :: w[k] == widths[k]
    {
      if w[i] < 10 {
        w := w[i := 10];
      }
      i := i + 1;
    }
  }

  /** A column past every row has no cells. */
  lemma MaxCellBeyond(t: seq<seq<bytes>>, i: nat)
    requires i >= HtmlText.MaxRowLen(t)
    ensures HtmlText.MaxCell(t, i) == 0
  {
  }

  /** `htmlToText` on a parsed document: one converter walks it, and the
      buffer is trimmed. */
  method HtmlToText(doc: HtmlText.Node) returns (s: bytes)
    ensures s == HtmlText.HtmlToText(doc)
  {
    var c := new Converter();
    c.Traverse(doc, true);
    s := TrimSpace(c.buf);
  }

  /** `htmlToText` with the corrected walk, each child visited once. */
  method HtmlToTextOnce(doc: HtmlText.Node) returns (s: bytes)
    ensures s == HtmlText.HtmlToTextOnce(doc)
  {
    var c := new Converter();
    c.Traverse(doc, false);
    s := TrimSpace(c.buf);
  }
}
