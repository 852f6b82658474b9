/**
  * The POSIX flavour of Python's `os.path` functions the application uses:
  * `join` of two components, `basename` and `split`.
  */
module Paths {
  import opened Text

  /** `os.path.join(a, b)`: an absolute `b` replaces `a`; otherwise one `/` goes between them unless `a` is empty or ends in one. */
  function PathJoin(a: string, b: string): string {
    if |b| > 0 && b[0] == '/' then b
    else if a == "" || a[|a| - 1] == '/' then a + b
    else a + "/" + b
  }

  /**
    * The join always ends with `b`; an absolute `b` is the whole result,
    * and a relative one is appended to `a` with at most one character
    * between them.
    */
  lemma PathJoinMeaning(a: string, b: string)
    ensures EndsWith(PathJoin(a, b), b)
    ensures |b| > 0 && b[0] == '/' ==> PathJoin(a, b) == b
    ensures (|b| == 0 || b[0] != '/') ==>
      a <= PathJoin(a, b) && |a| + |b| <= |PathJoin(a, b)| <= |a| + |b| + 1
  {
  }

  /** `s.rfind('/')`, with -1 when there is none. */
  function LastSlash(s: string): (i: int)
    ensures -1 <= i < |s|
    ensures i >= 0 ==> s[i] == '/'
    ensures forall k | i < k < |s| :: s[k] != '/'
  {
    if s == [] then -1
    else if s[|s| - 1] == '/' then |s| - 1
    else LastSlash(s[..|s| - 1])
  }

  /** `os.path.basename(p)`: everything after the last `/`. */
  function Basename(p: string): (name: string)
    ensures forall k | 0 <= k < |name| :: name[k] != '/'
    ensures EndsWith(p, name)
  {
    p[LastSlash(p) + 1..]
  }

  predicate AllSlashes(s: string) {
    forall k | 0 <= k < |s| :: s[k] == '/'
  }

  /** `s.rstrip('/')`. */
  function StripSlashes(s: string): (t: string)
    ensures t <= s
    ensures !AllSlashes(s) ==> t != []
    ensures t == [] || t[|t| - 1] != '/'
  {
    if s != [] && s[|s| - 1] == '/' then StripSlashes(s[..|s| - 1]) else s
  }

  /** The head of `os.path.split(p)`: up to the last `/`, trailing slashes removed unless it is all slashes. */
  function SplitHead(p: string): (head: string)
    ensures head <= p
    ensures LastSlash(p) == -1 <==> head == []
  {
    var head := p[..LastSlash(p) + 1];
    if head != [] && !AllSlashes(head) then StripSlashes(head) else head
  }

  lemma StripOneSlash(s: string)
    requires s != [] && s[|s| - 1] != '/'
    ensures StripSlashes(s + "/") == s
  {
    assert (s + "/")[..|s|] == s;
  }

  /** Below a last slash that follows another character, the head is the path before that slash. */
  lemma SplitHeadAt(p: string, i: nat)
    requires i == LastSlash(p) && i >= 1 && p[i - 1] != '/'
    ensures SplitHead(p) == p[..i]
  {
    var a := p[..i];
    var head := p[..i + 1];
    assert head == a + [p[i]];
    assert !AllSlashes(head) by {
      assert head[i - 1] == p[i - 1];
    }
    StripOneSlash(a);
  }

  /** The path is its part up to the last slash followed by its basename. */
  lemma SplitAtLastSlash(p: string)
    ensures p == p[..LastSlash(p) + 1] + Basename(p)
    ensures Basename(p) != [] ==> Basename(p)[0] != '/'
  {
  }

  /** Joining the head and the basename rebuilds the path, unless slashes are doubled before the last component. */
  lemma SplitHeadJoin(p: string)
    requires LastSlash(p) >= 1 ==> p[LastSlash(p) - 1] != '/' || AllSlashes(p[..LastSlash(p) + 1])
    ensures PathJoin(SplitHead(p), Basename(p)) == p
  {
    var i := LastSlash(p);
    if i == -1 {
      SplitAtLastSlash(p);
      assert SplitHead(p) == "";
    } else if AllSlashes(p[..i + 1]) {
      JoinSlashesHead(p, i);
    } else {
      JoinBelowSlash(p, i);
    }
  }

  lemma JoinSlashesHead(p: string, i: nat)
    requires i == LastSlash(p) && AllSlashes(p[..i + 1])
    ensures PathJoin(SplitHead(p), Basename(p)) == p
  {
    SplitAtLastSlash(p);
    var head := p[..i + 1];
    assert SplitHead(p) == head;
    assert head[|head| - 1] == '/';
  }

  lemma JoinBelowSlash(p: string, i: nat)
    requires i == LastSlash(p) && i >= 1 && p[i - 1] != '/'
    ensures PathJoin(SplitHead(p), Basename(p)) == p
  {
    SplitHeadAt(p, i);
    var a, tail := p[..i], p[i + 1..];
    assert Basename(p) == tail;
    assert tail != [] ==> tail[0] == p[i + 1] != '/';
    assert a[|a| - 1] == p[i - 1] != '/';
    assert PathJoin(a, tail) == a + "/" + tail;
    SplitAround(p, i);
  }
}
