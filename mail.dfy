/** The mailbox records the inbox controller works on (the `api.Message` and
    `api.MessageDetail` types).  Timestamps are integers (seconds); message and
    attachment identities are opaque strings that are only compared. */
module Mail {
  import opened Bytes

  type MessageId = string

  /** One entry of the message list. */
  datatype Message = Message(
    id: MessageId,
    fromAddress: bytes,
    subject: bytes,
    intro: bytes,
    seen: bool,
    hasAttach: bool,
    size: int,
    createdAt: int)

  datatype Attachment = Attachment(id: string, filename: bytes, contentType: bytes, size: int)

  /** A fully fetched message: its summary fields plus the bodies and attachments. */
  datatype MessageDetail = MessageDetail(
    summary: Message,
    text: bytes,
    html: seq<bytes>,
    attachments: seq<Attachment>)
  {
    function Id(): MessageId { summary.id }
  }

  /** The elements of `s` that satisfy `p`, in their original order. */
  function Keep<T>(s: seq<T>, p: T -> bool): seq<T>
  {
    if s == [] then [] else Keep(s[..|s| - 1], p) + (if p(s[|s| - 1]) then [s[|s| - 1]] else [])
  }

  /** Keep distributes over concatenation, so it never reorders what it keeps. */
  lemma {:induction false} KeepAppend<T>(a: seq<T>, b: seq<T>, p: T -> bool)
    ensures Keep(a + b, p) == Keep(a, p) + Keep(b, p)
    decreases |b|
  {
    if b != [] {
      var b' := b[..|b| - 1];
      assert (a + b)[..|a + b| - 1] == a + b';
      KeepAppend(a, b', p);
    } else {
      assert a + b == a;
    }
  }

  /** An element is kept exactly when it occurs in `s` and satisfies `p`. */
  lemma {:induction false} KeepMembership<T>(s: seq<T>, p: T -> bool, x: T)
    ensures x in Keep(s, p) <==> x in s && p(x)
    decreases |s|
  {
    if s != [] {
      var s' := s[..|s| - 1];
      assert s == s' + [s[|s| - 1]];
      KeepMembership(s', p, x);
    }
  }

  /** Keep never lengthens its input. */
  lemma {:induction false} KeepLength<T>(s: seq<T>, p: T -> bool)
    ensures |Keep(s, p)| <= |s|
    decreases |s|
  {
    if s != [] {
      KeepLength(s[..|s| - 1], p);
    }
  }

  /** Keeping from a prefix one element longer extends the previous result. */
  lemma KeepSnoc<T>(s: seq<T>, i: nat, p: T -> bool)
    requires i < |s|
    ensures Keep(s[..i + 1], p) == Keep(s[..i], p) + (if p(s[i]) then [s[i]] else [])
  {
    assert s[..i + 1][..i] == s[..i];
  }
}
