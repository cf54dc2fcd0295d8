/** The name probe in `downloadAttachment` (cmd/tui.go): an attachment is saved
    under its own name, or, when that is taken, under `base_N.ext` for the
    first N = 1, 2, ... that is free.  The download directory's contents are a
    finite set of names; `os.Stat`, the download itself and `os.WriteFile` are
    not part of this model. */
module Downloads {
  import opened Bytes

  const Dot: byte := 46
  const Slash: byte := 47
  const Underscore: byte := 95

  // ---------------------------------------------------------------------------
  // filepath.Ext and strings.TrimSuffix

  /** The index where the extension starts: the last '.' of the final path
      element, scanning back from `i`; `|p|` when there is none. */
  function ExtIndex(p: bytes, i: int): (j: int)
    requires -1 <= i < |p|
    ensures j == |p| || (0 <= j <= i && p[j] == Dot)
    ensures forall k | j < k <= i && k < |p| :: p[k] != Dot
    decreases i + 1
  {
    if i < 0 || p[i] == Slash then |p|
    else if p[i] == Dot then i
    else ExtIndex(p, i - 1)
  }

  /** filepath.Ext: the suffix from the last '.' of the final element, or "". */
  function Ext(p: bytes): (e: bytes)
    ensures HasSuffix(p, e)
    ensures e == [] || (e[0] == Dot && forall k | 1 <= k < |e| :: e[k] != Dot)
  {
    var j := ExtIndex(p, |p| - 1);
    assert p[|p| - |p[j..]|..] == p[j..];
    p[j..]
  }

  /** strings.TrimSuffix */
  function TrimSuffix(s: bytes, suffix: bytes): (r: bytes)
    ensures HasSuffix(s, suffix) ==> r + suffix == s
    ensures !HasSuffix(s, suffix) ==> r == s
  {
    if HasSuffix(s, suffix) then s[..|s| - |suffix|] else s
  }

  /** The name without its extension (`baseName`). */
  function Base(filename: bytes): bytes {
    TrimSuffix(filename, Ext(filename))
  }

  lemma SplitExt(filename: bytes)
    ensures Base(filename) + Ext(filename) == filename
  {
  }

  // ---------------------------------------------------------------------------
  // The probe

  /** `fmt.Sprintf("%s_%d%s", baseName, counter, ext)` */
  function Candidate(base: bytes, n: nat, ext: bytes): (c: bytes)
    ensures |c| > |base| + |ext|
  {
    base + [Underscore] + Decimal(n) + ext
  }

  /** Different counters give different names. */
  lemma CandidateInjective(base: bytes, ext: bytes, j: nat, k: nat)
    requires Candidate(base, j, ext) == Candidate(base, k, ext)
    ensures j == k
  {
    var cj, ck := Candidate(base, j, ext), Candidate(base, k, ext);
    assert |Decimal(j)| == |Decimal(k)|;
    assert cj[|base| + 1..|cj| - |ext|] == Decimal(j);
    assert ck[|base| + 1..|ck| - |ext|] == Decimal(k);
    DecimalInjective(j, k);
  }

  /** No candidate is the file name itself. */
  lemma CandidateNotOriginal(filename: bytes, n: nat)
    ensures Candidate(Base(filename), n, Ext(filename)) != filename
  {
    SplitExt(filename);
  }

  /** The loop of `downloadAttachment`: the result is free, it is the file name
      when that is free, and otherwise it is `base_N.ext` where every smaller
      counter's name is taken. */
  method ProbeName(filename: bytes, existing: set<bytes>) returns (path: bytes)
    ensures path !in existing
    ensures filename !in existing ==> path == filename
    ensures filename in existing ==>
      exists n | n >= 1 :: path == Candidate(Base(filename), n, Ext(filename))
        && forall k | 1 <= k < n :: Candidate(Base(filename), k, Ext(filename)) in existing
  {
    path := filename;
    var counter: nat := 1;
    var baseName := TrimSuffix(filename, Ext(filename));
    var ext := Ext(filename);
    ghost var seen: set<bytes> := {};
    while path in existing
      invariant counter >= 1
      invariant counter == 1 ==> path == filename
      invariant counter > 1 ==> filename in existing && path == Candidate(baseName, counter - 1, ext)
      invariant forall k | 1 <= k < counter - 1 :: Candidate(baseName, k, ext) in existing
      invariant forall x | x in seen :: x == filename || exists k | 1 <= k < counter - 1 :: x == Candidate(baseName, k, ext)
      invariant path !in seen
      decreases existing - seen
    {
      seen := seen + {path};
      var next := Candidate(baseName, counter, ext);
      forall x | x in seen
        ensures x != next
      {
        if x == filename {
          CandidateNotOriginal(filename, counter);
        } else if x != path {
          var k :| 1 <= k < counter - 1 && x == Candidate(baseName, k, ext);
          if x == next { CandidateInjective(baseName, ext, k, counter); }
        } else if counter > 1 && x == next {
          CandidateInjective(baseName, ext, counter - 1, counter);
        }
      }
      path := next;
      counter := counter + 1;
    }
    if counter > 1 {
      ghost var n := counter - 1;
      assert path == Candidate(Base(filename), n, Ext(filename));
      assert forall k | 1 <= k < n :: Candidate(Base(filename), k, Ext(filename)) in existing;
    }
  }
}
