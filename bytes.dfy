/** Byte strings and the parts of Go's `strings` package the core relies on.
    Go strings are byte sequences (`len` and slicing count bytes), so they are
    modelled as `seq<byte>`.  Whitespace and case folding are the ASCII cases. */
module Bytes {

  type byte = b: int | 0 <= b < 256
  type bytes = seq<byte>

  const Space: byte := 32
  const Newline: byte := 10

  /** The single-byte characters Go's `unicode.IsSpace` accepts: \t \n \v \f \r and ' '. */
  predicate IsSpace(b: byte) {
    b == 32 || 9 <= b <= 13
  }

  predicate NoSpace(s: bytes) {
    forall i | 0 <= i < |s| :: !IsSpace(s[i])
  }

  predicate AllSpace(s: bytes) {
    forall i | 0 <= i < |s| :: IsSpace(s[i])
  }

  // ---------------------------------------------------------------------------
  // Case folding and substring search (strings.ToLower, strings.Contains)

  function LowerByte(b: byte): byte {
    if 65 <= b <= 90 then b + 32 else b
  }

  /** strings.ToLower restricted to ASCII: 'A'..'Z' become 'a'..'z'. The
      result has no upper-case letter, every other byte is kept, and each
      upper-case letter becomes its lower-case form. */
  function ToLower(s: bytes): (r: bytes)
    ensures |r| == |s|
    ensures forall i | 0 <= i < |s| :: r[i] == LowerByte(s[i])
    ensures forall i | 0 <= i < |r| :: !(65 <= r[i] <= 90)
    ensures forall i | 0 <= i < |s| :: !(65 <= s[i] <= 90) ==> r[i] == s[i]
    ensures forall i | 0 <= i < |s| :: 65 <= s[i] <= 90 ==> r[i] == s[i] + 32 && 97 <= r[i] <= 122
  {
    seq(|s|, i requires 0 <= i < |s| => LowerByte(s[i]))
  }

  predicate OccursAt(s: bytes, sub: bytes, i: int) {
    0 <= i && i + |sub| <= |s| && s[i..i + |sub|] == sub
  }

  /** strings.Contains: `sub` occurs in `s` at some offset. */
  predicate Contains(s: bytes, sub: bytes) {
    exists i | 0 <= i <= |s| - |sub| :: OccursAt(s, sub, i)
  }

  predicate HasSuffix(s: bytes, suffix: bytes) {
    |suffix| <= |s| && s[|s| - |suffix|..] == suffix
  }

  /** strings.Repeat */
  function Repeat(s: bytes, n: nat): bytes {
    if n == 0 then [] else s + Repeat(s, n - 1)
  }

  /** strings.Repeat(s, n) has n copies of s. */
  lemma {:induction false} RepeatLength(s: bytes, n: nat)
    ensures |Repeat(s, n)| == n * |s|
  {
    if n > 0 {
      RepeatLength(s, n - 1);
    }
  }

  // ---------------------------------------------------------------------------
  // strings.TrimSpace

  function DropLeadingSpaces(s: bytes): (r: bytes)
    ensures |r| <= |s|
    ensures r == [] || !IsSpace(r[0])
  {
    if s != [] && IsSpace(s[0]) then DropLeadingSpaces(s[1..]) else s
  }

  /** DropLeadingSpaces removes a whitespace prefix and keeps the rest. */
  lemma {:induction false} DropLeadingSpacesSpec(s: bytes)
    ensures var r := DropLeadingSpaces(s);
      r == s[|s| - |r|..] && AllSpace(s[..|s| - |r|])
  {
    if s != [] && IsSpace(s[0]) {
      DropLeadingSpacesSpec(s[1..]);
      var r := DropLeadingSpaces(s[1..]);
      assert s[1..][..|s[1..]| - |r|] == s[1..|s| - |r|];
    }
  }

  function DropTrailingSpaces(s: bytes): (r: bytes)
    ensures |r| <= |s| && r == s[..|r|]
    ensures AllSpace(s[|r|..])
    ensures r == [] || !IsSpace(r[|r| - 1])
  {
    if s != [] && IsSpace(s[|s| - 1]) then
      var r := DropTrailingSpaces(s[..|s| - 1]);
      assert s[..|s| - 1][|r|..] + [s[|s| - 1]] == s[|r|..];
      r
    else s
  }

  /** strings.TrimSpace */
  function TrimSpace(s: bytes): bytes {
    DropTrailingSpaces(DropLeadingSpaces(s))
  }

  /** Only a string made up entirely of whitespace trims to the empty string. */
  lemma TrimSpaceEmpty(s: bytes)
    ensures TrimSpace(s) == [] <==> AllSpace(s)
  {
    var t := DropLeadingSpaces(s);
    DropLeadingSpacesSpec(s);
    if t != [] {
      assert !IsSpace(s[|s| - |t|]);
      assert !AllSpace(t[0..]);
    } else {
      assert s[..|s|] == s;
    }
  }

  // ---------------------------------------------------------------------------
  // strings.Fields and strings.Join

  /** Length of the run of non-whitespace bytes at the front of `s`. */
  function WordLen(s: bytes): (n: nat)
    ensures n <= |s|
    ensures s != [] && !IsSpace(s[0]) ==> n > 0
  {
    if s == [] || IsSpace(s[0]) then 0 else 1 + WordLen(s[1..])
  }

  /** WordLen measures exactly the leading run of non-whitespace bytes. */
  lemma {:induction false} WordLenSpec(s: bytes)
    ensures var n := WordLen(s);
      NoSpace(s[..n]) && (n < |s| ==> IsSpace(s[n]))
  {
    if s != [] && !IsSpace(s[0]) {
      WordLenSpec(s[1..]);
      var n := WordLen(s);
      assert s[..n] == [s[0]] + s[1..][..n - 1];
    }
  }

  /** strings.Fields: the maximal runs of non-whitespace bytes, in order. */
  function Fields(s: bytes): seq<bytes>
    decreases |s|
  {
    var t := DropLeadingSpaces(s);
    if t == [] then []
    else
      var n := WordLen(t);
      [t[..n]] + Fields(t[n..])
  }

  /** Non-empty words containing no whitespace. */
  predicate IsWords(ws: seq<bytes>) {
    forall i | 0 <= i < |ws| :: |ws[i]| > 0 && NoSpace(ws[i])
  }

  /** strings.Join */
  function Join(ws: seq<bytes>, sep: bytes): bytes {
    if |ws| == 0 then []
    else if |ws| == 1 then ws[0]
    else ws[0] + sep + Join(ws[1..], sep)
  }

  /** The text `addText` and `extractText` write for a text node: its fields
      joined by single spaces, i.e. strings.Join(strings.Fields(strings.TrimSpace(s)), " "). */
  function Collapse(s: bytes): bytes {
    Join(Fields(TrimSpace(s)), [Space])
  }

  /** Every whitespace byte is a plain space, strictly inside the text and
      followed by a non-whitespace byte: no leading, trailing or doubled whitespace. */
  predicate IsCollapsed(r: bytes) {
    forall i | 0 <= i < |r| :: IsSpace(r[i]) ==> r[i] == Space && 0 < i < |r| - 1 && !IsSpace(r[i + 1])
  }

  lemma {:induction false} FieldsAreWords(s: bytes)
    ensures IsWords(Fields(s))
    decreases |s|
  {
    var t := DropLeadingSpaces(s);
    if t != [] {
      var n := WordLen(t);
      WordLenSpec(t);
      FieldsAreWords(t[n..]);
    }
  }

  lemma {:induction false} FieldsEmpty(s: bytes)
    ensures Fields(s) == [] <==> AllSpace(s)
  {
    var t := DropLeadingSpaces(s);
    DropLeadingSpacesSpec(s);
    if t != [] {
      assert !IsSpace(s[|s| - |t|]);
    } else {
      assert s[..|s|] == s;
    }
  }

  lemma DropLeadingSpacesAppend(t: bytes, u: bytes)
    requires DropLeadingSpaces(t) != []
    ensures DropLeadingSpaces(t + u) == DropLeadingSpaces(t) + u
    decreases |t|
  {
    if IsSpace(t[0]) {
      assert (t + u)[1..] == t[1..] + u;
      DropLeadingSpacesAppend(t[1..], u);
    }
  }

  lemma WordLenAppend(t: bytes, u: bytes)
    requires u == [] || IsSpace(u[0])
    ensures WordLen(t + u) == WordLen(t)
    decreases |t|
  {
    if t == [] {
      assert t + u == u;
    } else if !IsSpace(t[0]) {
      assert (t + u)[1..] == t[1..] + u;
      WordLenAppend(t[1..], u);
    }
  }

  /** Trailing whitespace does not change the fields. */
  lemma {:induction false} FieldsAppendSpaces(t: bytes, u: bytes)
    requires AllSpace(u)
    ensures Fields(t + u) == Fields(t)
    decreases |t|
  {
    var d := DropLeadingSpaces(t);
    if d == [] {
      assert AllSpace(t) by { DropLeadingSpacesSpec(t); assert t[..|t|] == t; }
      assert AllSpace(t + u);
      FieldsEmpty(t + u);
      FieldsEmpty(t);
    } else {
      var n := WordLen(d);
      calc {
        Fields(t + u);
      == { FieldsAppendStep(t, u); }
        [d[..n]] + Fields(d[n..] + u);
      == { FieldsAppendSpaces(d[n..], u); }
        [d[..n]] + Fields(d[n..]);
      == { FieldsStep(t); }
        Fields(t);
      }
    }
  }

  lemma FieldsAppendStep(t: bytes, u: bytes)
    requires DropLeadingSpaces(t) != []
    requires u == [] || IsSpace(u[0])
    ensures var d := DropLeadingSpaces(t);
      Fields(t + u) == [d[..WordLen(d)]] + Fields(d[WordLen(d)..] + u)
  {
    var d := DropLeadingSpaces(t);
    var n := WordLen(d);
    var e := d + u;
    assert DropLeadingSpaces(t + u) == e by { DropLeadingSpacesAppend(t, u); }
    assert WordLen(e) == n by { WordLenAppend(d, u); }
    FieldsStepAt(t + u, e, n);
    SlicesOfAppend(d, u, n);
  }

  lemma SlicesOfAppend(d: bytes, u: bytes, n: nat)
    requires n <= |d|
    ensures (d + u)[..n] == d[..n] && (d + u)[n..] == d[n..] + u
  {
    assert (d + u)[..n] == d[..n];
    assert (d + u)[n..] == d[n..] + u;
  }

  /** One unfolding of Fields, at a given leading-space-free rest and first word length. */
  lemma FieldsStepAt(s: bytes, e: bytes, n: nat)
    requires DropLeadingSpaces(s) == e && e != [] && WordLen(e) == n
    ensures Fields(s) == [e[..n]] + Fields(e[n..])
  {
    FieldsStep(s);
  }

  /** One unfolding of Fields, for a string that has a first word. */
  lemma FieldsStep(s: bytes)
    requires DropLeadingSpaces(s) != []
    ensures var d := DropLeadingSpaces(s);
      Fields(s) == [d[..WordLen(d)]] + Fields(d[WordLen(d)..])
  {
  }

  lemma FieldsDropLeading(s: bytes)
    ensures Fields(DropLeadingSpaces(s)) == Fields(s)
  {
    var t := DropLeadingSpaces(s);
    assert DropLeadingSpaces(t) == t;
  }

  /** Trimming does not change the fields. */
  lemma FieldsTrimSpace(s: bytes)
    ensures Fields(TrimSpace(s)) == Fields(s)
  {
    var t := DropLeadingSpaces(s);
    var r := DropTrailingSpaces(t);
    assert t == r + t[|r|..];
    FieldsAppendSpaces(r, t[|r|..]);
    FieldsDropLeading(s);
  }

  lemma {:induction false} JoinSnoc(ws: seq<bytes>, w: bytes, sep: bytes)
    requires |ws| > 0
    ensures Join(ws + [w], sep) == Join(ws, sep) + sep + w
    decreases |ws|
  {
    if |ws| == 1 {
      assert (ws + [w])[1..] == [w];
    } else {
      assert (ws + [w])[1..] == ws[1..] + [w];
      JoinSnoc(ws[1..], w, sep);
    }
  }

  lemma {:induction false} FieldsOfJoin(ws: seq<bytes>)
    requires IsWords(ws)
    ensures Fields(Join(ws, [Space])) == ws
    decreases |ws|
  {
    if |ws| > 0 {
      var w := ws[0];
      var rest := if |ws| == 1 then [] else [Space] + Join(ws[1..], [Space]);
      assert Join(ws, [Space]) == w + rest;
      assert DropLeadingSpaces(w) == w;
      WordLenAll(w);
      FieldsAppendStep(w, rest);
      assert w[..|w|] == w && w[|w|..] + rest == rest;
      if |ws| > 1 {
        FieldsConsSpace(Space, Join(ws[1..], [Space]));
        FieldsOfJoin(ws[1..]);
      }
    }
  }

  lemma FieldsConsSpace(b: byte, s: bytes)
    requires IsSpace(b)
    ensures Fields([b] + s) == Fields(s)
  {
    assert ([b] + s)[1..] == s;
    assert DropLeadingSpaces([b] + s) == DropLeadingSpaces(s);
  }

  lemma WordLenAll(w: bytes)
    requires NoSpace(w)
    ensures WordLen(w) == |w|
  {
    if w != [] {
      WordLenAll(w[1..]);
    }
  }

  lemma {:induction false} JoinIsCollapsed(ws: seq<bytes>)
    requires IsWords(ws)
    ensures IsCollapsed(Join(ws, [Space]))
    ensures |ws| > 0 ==> Join(ws, [Space]) != [] && !IsSpace(Join(ws, [Space])[0])
    decreases |ws|
  {
    if |ws| > 1 {
      JoinIsCollapsed(ws[1..]);
      var tail := Join(ws[1..], [Space]);
      var j := ws[0] + [Space] + tail;
      forall i | 0 <= i < |j| && IsSpace(j[i])
        ensures j[i] == Space && 0 < i < |j| - 1 && !IsSpace(j[i + 1])
      {
        assert i >= |ws[0]|;
        if i > |ws[0]| {
          assert j[i] == tail[i - |ws[0]| - 1];
        }
      }
    }
  }

  /** What addText writes for non-blank text: its words, in order, separated by
      single spaces, with no other whitespace. */
  lemma CollapseSpec(s: bytes)
    ensures IsCollapsed(Collapse(s))
    ensures Fields(Collapse(s)) == Fields(s)
    ensures Collapse(s) == [] <==> AllSpace(s)
  {
    FieldsTrimSpace(s);
    FieldsAreWords(s);
    FieldsOfJoin(Fields(s));
    JoinIsCollapsed(Fields(s));
    FieldsEmpty(s);
  }

  // ---------------------------------------------------------------------------
  // Decimal formatting (fmt's %d for a non-negative int)

  function DigitByte(d: nat): byte
    requires d < 10
  {
    48 + d
  }

  /** The decimal digits of n, most significant first: a non-empty string of
      the ASCII digits '0'..'9'. */
  function Decimal(n: nat): (r: bytes)
    ensures |r| > 0
    ensures forall i | 0 <= i < |r| :: 48 <= r[i] <= 57
    decreases n
  {
    if n < 10 then [DigitByte(n)] else Decimal(n / 10) + [DigitByte(n % 10)]
  }

  function ParseDecimal(s: bytes): int
  {
    if s == [] then 0 else 10 * ParseDecimal(s[..|s| - 1]) + ((s[|s| - 1] as int) - 48)
  }

  lemma {:induction false} ParseDecimalInverse(n: nat)
    ensures ParseDecimal(Decimal(n)) == n
    decreases n
  {
    if n >= 10 {
      var r := Decimal(n);
      assert r[..|r| - 1] == Decimal(n / 10);
      ParseDecimalInverse(n / 10);
    }
  }

  /** Distinct numbers have distinct decimal renderings. */
  lemma DecimalInjective(m: nat, n: nat)
    requires Decimal(m) == Decimal(n)
    ensures m == n
  {
    ParseDecimalInverse(m);
    ParseDecimalInverse(n);
  }
}
