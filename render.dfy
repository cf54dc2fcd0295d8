/** The list pipeline of the inbox screen: search filtering, ordering, subject and
    sender truncation, the responsive column layout and the table rows. */
module Render {
  import opened Bytes
  import opened Mail

  // ---------------------------------------------------------------- filtering

  /** A message matches a (lower-cased) query when the query occurs in its
      lower-cased sender address, subject or intro. */
  predicate Matches(m: Message, q: bytes) {
    Contains(ToLower(m.fromAddress), q) || Contains(ToLower(m.subject), q) || Contains(ToLower(m.intro), q)
  }

  function Select(msgs: seq<Message>, q: bytes): seq<Message> {
    Keep(msgs, (m: Message) => Matches(m, q))
  }

  /** Selecting from a prefix one message longer appends that message if it matches. */
  lemma SelectSnoc(msgs: seq<Message>, i: nat, q: bytes)
    requires i < |msgs|
    ensures Select(msgs[..i + 1], q) == Select(msgs[..i], q) + (if Matches(msgs[i], q) then [msgs[i]] else [])
  {
    assert msgs[..i + 1][..i] == msgs[..i];
  }

  /** The filtered list for a raw search query: everything when the query is empty. */
  function Filtered(msgs: seq<Message>, query: bytes): seq<Message> {
    if query == [] then msgs else Select(msgs, ToLower(query))
  }

  /** A message is in the filtered list exactly when it is in the list and matches;
      filtering preserves order (it distributes over concatenation). */
  lemma FilteredSpec(msgs: seq<Message>, query: bytes, m: Message)
    requires query != []
    ensures m in Filtered(msgs, query) <==> m in msgs && Matches(m, ToLower(query))
    ensures forall a, b :: msgs == a + b ==>
      Filtered(msgs, query) == Filtered(a, query) + Filtered(b, query)
    ensures |Filtered(msgs, query)| <= |msgs|
  {
    var p := (m: Message) => Matches(m, ToLower(query));
    KeepMembership(msgs, p, m);
    KeepLength(msgs, p);
    forall a, b | msgs == a + b
      ensures Filtered(msgs, query) == Filtered(a, query) + Filtered(b, query)
    {
      KeepAppend(a, b, p);
    }
  }

  /** The search is case-insensitive: the case of the query does not matter. */
  lemma FilteredIgnoresQueryCase(msgs: seq<Message>, q1: bytes, q2: bytes)
    requires ToLower(q1) == ToLower(q2)
    requires q1 != [] && q2 != []
    ensures Filtered(msgs, q1) == Filtered(msgs, q2)
  {
  }

  // ------------------------------------------------------------------ sorting

  datatype SortMode = ByDate | BySender | BySubject

  /** The next mode of the `s` key's cycle date -> sender -> subject -> date. */
  function NextSortMode(mode: SortMode): (r: SortMode)
    ensures r != mode
  {
    match mode
    case ByDate => BySender
    case BySender => BySubject
    case BySubject => ByDate
  }

  /** Byte-wise lexicographic order of strings; a proper prefix is smaller. */
  predicate LexLess(a: bytes, b: bytes)
    decreases |a|
  {
    if a == [] then b != []
    else if b == [] then false
    else if a[0] != b[0] then a[0] < b[0]
    else LexLess(a[1..], b[1..])
  }

  lemma {:induction false} LexLessAsymmetric(a: bytes, b: bytes)
    ensures !(LexLess(a, b) && LexLess(b, a))
    decreases |a|
  {
    if a != [] && b != [] && a[0] == b[0] {
      LexLessAsymmetric(a[1..], b[1..]);
    }
  }

  lemma {:induction false} LexLessTransitive(a: bytes, b: bytes, c: bytes)
    requires LexLess(a, b) && LexLess(b, c)
    ensures LexLess(a, c)
    decreases |a|
  {
    if a != [] && a[0] == b[0] && b[0] == c[0] {
      LexLessTransitive(a[1..], b[1..], c[1..]);
    }
  }

  lemma {:induction false} LexLessTotal(a: bytes, b: bytes)
    ensures a == b || LexLess(a, b) || LexLess(b, a)
    decreases |a|
  {
    if a != [] && b != [] && a[0] == b[0] {
      LexLessTotal(a[1..], b[1..]);
      if a[1..] == b[1..] {
        assert a == [a[0]] + a[1..] && b == [b[0]] + b[1..];
      }
    }
  }

  /** The comparison handed to the sort: newest first, or ascending sender or subject. */
  predicate Less(mode: SortMode, a: Message, b: Message) {
    match mode
    case ByDate => a.createdAt > b.createdAt
    case BySender => LexLess(a.fromAddress, b.fromAddress)
    case BySubject => LexLess(a.subject, b.subject)
  }

  /** `a` may stand before `b` in a list sorted by `mode`. */
  predicate Precedes(mode: SortMode, a: Message, b: Message) {
    !Less(mode, b, a)
  }

  lemma PrecedesTotal(mode: SortMode, a: Message, b: Message)
    ensures Precedes(mode, a, b) || Precedes(mode, b, a)
  {
    LexLessAsymmetric(a.fromAddress, b.fromAddress);
    LexLessAsymmetric(a.subject, b.subject);
  }

  lemma PrecedesTransitive(mode: SortMode, a: Message, b: Message, c: Message)
    requires Precedes(mode, a, b) && Precedes(mode, b, c)
    ensures Precedes(mode, a, c)
  {
    match mode
    case ByDate =>
    case BySender =>
      if LexLess(c.fromAddress, a.fromAddress) {
        LexLessTotal(a.fromAddress, b.fromAddress);
        if LexLess(a.fromAddress, b.fromAddress) {
          LexLessTransitive(c.fromAddress, a.fromAddress, b.fromAddress);
        }
      }
    case BySubject =>
      if LexLess(c.subject, a.subject) {
        LexLessTotal(a.subject, b.subject);
        if LexLess(a.subject, b.subject) {
          LexLessTransitive(c.subject, a.subject, b.subject);
        }
      }
  }

  predicate Sorted(mode: SortMode, s: seq<Message>) {
    forall i, j | 0 <= i < j < |s| :: Precedes(mode, s[i], s[j])
  }

  /** Insert `x` in front of the first element it may precede. */
  function Insert(mode: SortMode, x: Message, s: seq<Message>): (r: seq<Message>)
    ensures multiset(r) == multiset(s) + multiset{x}
    ensures |r| == |s| + 1
  {
    if s == [] then [x]
    else if Precedes(mode, x, s[0]) then [x] + s
    else
      assert s == [s[0]] + s[1..];
      [s[0]] + Insert(mode, x, s[1..])
  }

  lemma {:induction false} InsertSorted(mode: SortMode, x: Message, s: seq<Message>)
    requires Sorted(mode, s)
    ensures Sorted(mode, Insert(mode, x, s))
    decreases |s|
  {
    if s == [] {
    } else if Precedes(mode, x, s[0]) {
      forall j | 0 < j < |s| ensures Precedes(mode, x, s[j]) {
        PrecedesTransitive(mode, x, s[0], s[j]);
      }
    } else {
      var t := Insert(mode, x, s[1..]);
      InsertSorted(mode, x, s[1..]);
      PrecedesTotal(mode, x, s[0]);
      forall j | 0 <= j < |t| ensures Precedes(mode, s[0], t[j]) {
        assert t[j] in multiset(t);
        assert t[j] in multiset(s[1..]) || t[j] == x;
        if t[j] != x {
          var k :| 0 <= k < |s[1..]| && s[1..][k] == t[j];
          assert s[k + 1] == t[j];
        }
      }
    }
  }

  /** The list ordered by `mode`: a sorted permutation of the input.  The source
      uses an unstable sort, so only these two facts are promised about it. */
  function SortBy(mode: SortMode, s: seq<Message>): (r: seq<Message>)
    ensures multiset(r) == multiset(s)
    ensures |r| == |s|
    ensures Sorted(mode, r)
  {
    if s == [] then []
    else
      assert s == [s[0]] + s[1..];
      var t := SortBy(mode, s[1..]);
      InsertSorted(mode, s[0], t);
      Insert(mode, s[0], t)
  }

  /** Removing one element keeps a list sorted. */
  lemma SortedRemove(mode: SortMode, b: seq<Message>, i: nat)
    requires i < |b| && Sorted(mode, b)
    ensures Sorted(mode, b[..i] + b[i + 1..])
  {
    var b' := b[..i] + b[i + 1..];
    forall x, y | 0 <= x < y < |b'| ensures Precedes(mode, b'[x], b'[y]) {
      var x0 := if x < i then x else x + 1;
      var y0 := if y < i then y else y + 1;
      assert b'[x] == b[x0] && b'[y] == b[y0];
    }
  }

  /** Dropping the head of `a` and an equal element of `b` keeps the multisets equal. */
  lemma MultisetRemoveMatching(a: seq<Message>, b: seq<Message>, i: nat)
    requires a != [] && i < |b| && b[i] == a[0]
    requires multiset(a) == multiset(b)
    ensures multiset(a[1..]) == multiset(b[..i] + b[i + 1..])
  {
    assert a == [a[0]] + a[1..];
    assert b == b[..i] + [b[i]] + b[i + 1..];
    assert multiset(a[1..]) == multiset(a) - multiset{a[0]};
    assert multiset(b[..i] + b[i + 1..]) == multiset(b) - multiset{b[i]};
  }

  /** In a list sorted by date, everything up to an element carrying the first
      element's timestamp carries that timestamp too. */
  lemma SortedByDatePlateau(b: seq<Message>, i: nat)
    requires i < |b| && Sorted(ByDate, b)
    requires b[i].createdAt == b[0].createdAt
    ensures forall k | 0 <= k <= i :: b[k].createdAt == b[0].createdAt
  {
    forall k | 0 < k < i ensures b[k].createdAt == b[0].createdAt {
      assert Precedes(ByDate, b[0], b[k]) && Precedes(ByDate, b[k], b[i]);
    }
  }

  /** Two lists sorted by date that hold the same messages carry the same
      timestamps position by position, whatever order the sort chose for ties. */
  lemma {:induction false} SortedByDateUnique(a: seq<Message>, b: seq<Message>)
    requires Sorted(ByDate, a) && Sorted(ByDate, b)
    requires multiset(a) == multiset(b)
    ensures |a| == |b|
    ensures forall k | 0 <= k < |a| :: a[k].createdAt == b[k].createdAt
    decreases |a|
  {
    assert |a| == |multiset(a)| == |multiset(b)| == |b|;
    if a != [] {
      assert a[0] in multiset(b) && b[0] in multiset(a);
      var i :| 0 <= i < |b| && b[i] == a[0];
      var j :| 0 <= j < |a| && a[j] == b[0];
      // the first element of each list carries the greatest timestamp
      assert a[0].createdAt == b[0].createdAt by {
        if 0 < j { assert Precedes(ByDate, a[0], a[j]); }
        if 0 < i { assert Precedes(ByDate, b[0], b[i]); }
      }
      SortedByDatePlateau(b, i);
      var a' := a[1..];
      var b' := b[..i] + b[i + 1..];
      MultisetRemoveMatching(a, b, i);
      SortedRemove(ByDate, b, i);
      SortedByDateUnique(a', b');
      forall k | 0 < k < |a| ensures a[k].createdAt == b[k].createdAt {
        assert a[k] == a'[k - 1];
        if k - 1 < i {
          assert b'[k - 1] == b[k - 1];
        } else {
          assert b'[k - 1] == b[k];
        }
      }
    }
  }

  // --------------------------------------------------------------- truncation

  const Ellipsis: bytes := [46, 46, 46] // "..."

  /** The `j`-th word still fits after the first `j` words, joined by single spaces,
      with room left for the ellipsis (the test applied while accumulating words). */
  predicate WordFits(ws: seq<bytes>, j: nat, max: int)
    requires j < |ws|
  {
    |Join(ws[..j], [Space])| + |ws[j]| + 1 <= max - |Ellipsis|
  }

  /** The index of the first word at or after `j` that does not fit. */
  function FitCount(ws: seq<bytes>, max: int, j: nat): (r: nat)
    requires j <= |ws|
    ensures j <= r <= |ws|
    ensures forall i | j <= i < r :: WordFits(ws, i, max)
    ensures r < |ws| ==> !WordFits(ws, r, max)
    decreases |ws| - j
  {
    if j == |ws| || !WordFits(ws, j, max) then j else FitCount(ws, max, j + 1)
  }

  /** The display form of `s` in at most `max` bytes. */
  function Truncation(s: bytes, max: nat): bytes {
    if |s| <= max then s
    else if max < 10 then s[..max]
    else
      var ws := Fields(s);
      var k := FitCount(ws, max, 0);
      if k == 0 then s[..max - 3] + Ellipsis else Join(ws[..k], [Space]) + Ellipsis
  }

  /** `r` is the first `k` words of the text, single-spaced, followed by the
      ellipsis, and `k` is the largest count that leaves room for the ellipsis. */
  predicate LeadingWords(r: bytes, ws: seq<bytes>, k: nat, max: int)
    requires 1 <= k <= |ws|
  {
    && r == Join(ws[..k], [Space]) + Ellipsis
    && |Join(ws[..k], [Space])| <= max - |Ellipsis|
    && (k < |ws| ==> |Join(ws[..k + 1], [Space])| > max - |Ellipsis|)
  }

  /** What truncation promises: short text is untouched, the result never exceeds
      `max`, tiny limits cut hard, and otherwise the result ends in an ellipsis. */
  lemma TruncationSpec(s: bytes, max: nat)
    ensures |Truncation(s, max)| <= max
    ensures |s| <= max ==> Truncation(s, max) == s
    ensures |s| > max && max < 10 ==> Truncation(s, max) == s[..max]
    ensures |s| > max >= 10 ==> HasSuffix(Truncation(s, max), Ellipsis)
  {
    if |s| > max >= 10 {
      var ws := Fields(s);
      var k := FitCount(ws, max, 0);
      if k > 0 {
        WordsJoinLength(ws, k, max);
      }
    }
  }

  /** `r` is the first words of `s` that fit within `max` with the ellipsis, or a
      hard cut when not even the first word leaves room for it. */
  predicate WordsOrCut(s: bytes, max: nat, r: bytes)
    requires |s| > max >= 10
  {
    var ws := Fields(s);
    || (r == s[..max - 3] + Ellipsis && (ws == [] || |ws[0]| + 1 > max - |Ellipsis|))
    || (exists k | 1 <= k <= |ws| :: LeadingWords(r, ws, k, max))
  }

  /** Above ten bytes a long text keeps the longest run of whole leading words that
      leaves room for the ellipsis or, when not even the first word does, is cut
      hard at `max - 3`. */
  lemma TruncationKeepsWords(s: bytes, max: nat)
    requires |s| > max >= 10
    ensures WordsOrCut(s, max, Truncation(s, max))
  {
    var ws := Fields(s);
    var k := FitCount(ws, max, 0);
    var r := Truncation(s, max);
    if k == 0 {
      if ws != [] {
        assert !WordFits(ws, 0, max);
        assert ws[..0] == [];
      }
    } else {
      WordsJoinLength(ws, k, max);
      if k < |ws| {
        assert !WordFits(ws, k, max);
        JoinSnoc(ws[..k], ws[k], [Space]);
        assert ws[..k] + [ws[k]] == ws[..k + 1];
      }
      assert LeadingWords(r, ws, k, max);
      assert exists k' | 1 <= k' <= |ws| :: LeadingWords(r, ws, k', max);
    }
  }

  /** The words counted by FitCount, joined, leave room for the ellipsis. */
  lemma WordsJoinLength(ws: seq<bytes>, k: nat, max: int)
    requires 1 <= k <= |ws|
    requires forall i | 0 <= i < k :: WordFits(ws, i, max)
    ensures |Join(ws[..k], [Space])| <= max - |Ellipsis|
  {
    assert WordFits(ws, k - 1, max);
    if k == 1 {
      assert ws[..1] == [ws[0]];
    } else {
      JoinSnoc(ws[..k - 1], ws[k - 1], [Space]);
      assert ws[..k - 1] + [ws[k - 1]] == ws[..k];
    }
  }

  /** Shortens `s` for a table cell or prompt of width `max`. */
  method Truncate(s: bytes, max: nat) returns (r: bytes)
    ensures r == Truncation(s, max)
  {
    if |s| <= max {
      return s;
    }
    if max < 10 {
      return s[..max];
    }
    var words := Fields(s);
    FieldsAreWords(s);
    var result: bytes := [];
    var length := 0;
    var i := 0;
    while i < |words|
      invariant 0 <= i <= |words|
      invariant FitCount(words, max, i) == FitCount(words, max, 0)
      invariant result == Join(words[..i], [Space])
      invariant length == |result|
      invariant i > 0 <==> length > 0
    {
      var word := words[i];
      if length + |word| + 1 > max - |Ellipsis| {
        break;
      }
      if i > 0 {
        JoinSnoc(words[..i], word, [Space]);
      } else {
        assert words[..1] == [word];
      }
      assert words[..i] + [word] == words[..i + 1];
      if length > 0 {
        result := result + [Space];
        length := length + 1;
      }
      result := result + word;
      length := length + |word|;
      i := i + 1;
    }
    if length == 0 {
      return s[..max - 3] + Ellipsis;
    }
    r := result + Ellipsis;
  }

  // ------------------------------------------------------------ column layout

  datatype Title = CheckTitle | AttachTitle | FromTitle | SubjectTitle | PreviewTitle | DateTitle

  datatype Column = Column(title: Title, width: nat)

  /** The larger of two integers. */
  function MaxInt(a: int, b: int): (r: int)
    ensures r >= a && r >= b
    ensures r == a || r == b
  {
    if a > b then a else b
  }

  /** The layout the table starts with, before the first terminal size is known. */
  function InitialColumns(): seq<Column> {
    [Column(CheckTitle, 3), Column(AttachTitle, 3), Column(FromTitle, 20),
     Column(SubjectTitle, 30), Column(PreviewTitle, 20), Column(DateTitle, 12)]
  }

  /** The responsive layout for a terminal `termWidth` columns wide. */
  function ColumnsFor(termWidth: int): seq<Column> {
    if termWidth < 80 then
      [Column(CheckTitle, 2), Column(FromTitle, 15),
       Column(SubjectTitle, MaxInt(20, termWidth - 30)), Column(DateTitle, 10)]
    else if termWidth < 120 then
      [Column(CheckTitle, 3), Column(AttachTitle, 3), Column(FromTitle, 20),
       Column(SubjectTitle, MaxInt(25, termWidth - 55)), Column(PreviewTitle, 15), Column(DateTitle, 12)]
    else
      [Column(CheckTitle, 3), Column(AttachTitle, 3), Column(FromTitle, 25),
       Column(SubjectTitle, MaxInt(30, termWidth - 85)), Column(PreviewTitle, 25), Column(DateTitle, 14)]
  }

  function TotalWidth(cols: seq<Column>): int {
    if cols == [] then 0 else cols[0].width + TotalWidth(cols[1..])
  }

  function Titles(cols: seq<Column>): seq<Title> {
    seq(|cols|, i requires 0 <= i < |cols| => cols[i].title)
  }

  /** The three tiers: below 80 columns the attachment and preview columns are
      dropped; the subject column takes the remaining space but never less than
      20, 25 or 30; from 50 columns up the layout fits the terminal. */
  lemma ColumnsForSpec(w: int)
    ensures w < 80 ==> Titles(ColumnsFor(w)) == [CheckTitle, FromTitle, SubjectTitle, DateTitle]
    ensures w >= 80 ==>
      Titles(ColumnsFor(w)) == [CheckTitle, AttachTitle, FromTitle, SubjectTitle, PreviewTitle, DateTitle]
    ensures w < 80 ==> ColumnsFor(w)[2].width == MaxInt(20, w - 30)
    ensures 80 <= w < 120 ==> ColumnsFor(w)[3].width == MaxInt(25, w - 55)
    ensures 120 <= w ==> ColumnsFor(w)[3].width == MaxInt(30, w - 85)
    ensures w >= 50 ==> TotalWidth(ColumnsFor(w)) <= w
  {
    var c := ColumnsFor(w);
    assert c[0..] == c && c[|c|..] == [];
    TotalWidthUnfold(c, 0);
    TotalWidthUnfold(c, 1);
    TotalWidthUnfold(c, 2);
    TotalWidthUnfold(c, 3);
    if |c| == 6 {
      TotalWidthUnfold(c, 4);
      TotalWidthUnfold(c, 5);
    }
  }

  lemma TotalWidthUnfold(c: seq<Column>, k: nat)
    requires k < |c|
    ensures TotalWidth(c[k..]) == c[k].width + TotalWidth(c[k + 1..])
  {
    assert c[k..][1..] == c[k + 1..];
  }

  // ------------------------------------------------------------------- rows

  /** A table cell: text, or a timestamp the table shows formatted as a date. */
  datatype Cell = Text(text: bytes) | Stamp(at: int)

  type Row = seq<Cell>

  const CheckMark: bytes := [0xE2, 0x9C, 0x93]        // "✓"
  const Paperclip: bytes := [0xF0, 0x9F, 0x93, 0x8E]  // "📎"
  const Blank: bytes := [32]                          // " "

  /** The width of the last column titled `t`, or `dflt` when there is none. */
  function WidthOf(cols: seq<Column>, t: Title, dflt: nat): nat {
    if cols == [] then dflt
    else if cols[|cols| - 1].title == t then cols[|cols| - 1].width
    else WidthOf(cols[..|cols| - 1], t, dflt)
  }

  /** WidthOf reads the last column with the title, and the default when none has it. */
  lemma {:induction false} WidthOfSpec(cols: seq<Column>, t: Title, dflt: nat, j: int)
    requires -1 <= j < |cols|
    requires j >= 0 ==> cols[j].title == t
    requires forall k | j < k < |cols| :: cols[k].title != t
    ensures WidthOf(cols, t, dflt) == if j >= 0 then cols[j].width else dflt
    decreases |cols|
  {
    if cols != [] && j < |cols| - 1 {
      WidthOfSpec(cols[..|cols| - 1], t, dflt, j);
    }
  }

  function RowFor(m: Message, checked: bool, cols: seq<Column>): Row {
    var check := if checked then Text(CheckMark) else Text(Blank);
    var from := Text(Truncation(m.fromAddress, WidthOf(cols, FromTitle, 25)));
    var subject := Text(Truncation(m.subject, WidthOf(cols, SubjectTitle, 35)));
    if |cols| == 4 then
      [check, from, subject, Stamp(m.createdAt)]
    else
      var attach := if m.hasAttach then Text(Paperclip) else Text(Blank);
      var preview := Text(Truncation(m.intro, WidthOf(cols, PreviewTitle, 25)));
      [check, attach, from, subject, preview, Stamp(m.createdAt)]
  }

  /** One row per filtered message when the layout has four or six columns, and
      none otherwise. */
  function Rows(msgs: seq<Message>, selected: set<nat>, cols: seq<Column>): seq<Row> {
    if |cols| != 4 && |cols| != 6 then []
    else seq(|msgs|, i requires 0 <= i < |msgs| => RowFor(msgs[i], i in selected, cols))
  }

  /** A row has as many cells as the layout has columns; its check cell is the
      check mark exactly when the message is selected, its last cell is the
      timestamp, and the sender, subject and preview cells fit their columns. */
  lemma RowForSpec(m: Message, checked: bool, w: int)
    ensures |RowFor(m, checked, ColumnsFor(w))| == |ColumnsFor(w)|
    ensures RowFor(m, checked, ColumnsFor(w))[0] == Text(CheckMark) <==> checked
    ensures RowFor(m, checked, ColumnsFor(w))[|ColumnsFor(w)| - 1] == Stamp(m.createdAt)
    ensures forall c | 0 <= c < |ColumnsFor(w)| && ColumnsFor(w)[c].title in {FromTitle, SubjectTitle, PreviewTitle} ::
      RowFor(m, checked, ColumnsFor(w))[c].Text? &&
      |RowFor(m, checked, ColumnsFor(w))[c].text| <= ColumnsFor(w)[c].width
  {
    var cols := ColumnsFor(w);
    var fw := WidthOf(cols, FromTitle, 25);
    var sw := WidthOf(cols, SubjectTitle, 35);
    var pw := WidthOf(cols, PreviewTitle, 25);
    TruncationSpec(m.fromAddress, fw);
    TruncationSpec(m.subject, sw);
    TruncationSpec(m.intro, pw);
    var row := RowFor(m, checked, cols);
    if |cols| == 4 {
      WidthOfSpec(cols, FromTitle, 25, 1);
      WidthOfSpec(cols, SubjectTitle, 35, 2);
      assert row[1].text == Truncation(m.fromAddress, cols[1].width);
      assert row[2].text == Truncation(m.subject, cols[2].width);
    } else {
      WidthOfSpec(cols, FromTitle, 25, 2);
      WidthOfSpec(cols, SubjectTitle, 35, 3);
      WidthOfSpec(cols, PreviewTitle, 25, 4);
    }
  }

  /** The table holds one row per filtered message, built for its own index. */
  lemma RowsSpec(msgs: seq<Message>, selected: set<nat>, w: int)
    ensures |Rows(msgs, selected, ColumnsFor(w))| == |msgs|
    ensures forall i | 0 <= i < |msgs| ::
      Rows(msgs, selected, ColumnsFor(w))[i] == RowFor(msgs[i], i in selected, ColumnsFor(w))
  {
  }
}
