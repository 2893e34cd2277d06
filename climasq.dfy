/** Masquerade support (src/climasq.c). When distcc is installed as a
    directory of links named after compilers ("cc", "gcc", ...) that is put
    on the PATH, running "cc" reaches distcc; to reach the real compiler
    afterwards distcc drops from PATH every directory up to and including
    its own.

    The environment lookups and the filesystem are parameters: findpath is
    dcc_abspath of argv[0]'s directory (present exactly when distcc was
    invoked by a path rather than a bare name), executable answers
    access(name, X_OK) == 0, and setPathRet is what dcc_set_path returns
    (util.c is not part of this model; on success it sets PATH). */
module Climasq {
  import opened Common

  const PATH_VAR: string := "PATH"

  /** Whether a PATH component is the directory distcc was found in: equal
      to findpath when that is known, otherwise holding an executable file
      named progname. */
  predicate Matches(findpath: Option<string>, progname: string, executable: string -> bool, comp: string)
  {
    if findpath.Some? then comp == findpath.value else executable(comp + "/" + progname)
  }

  function Matcher(findpath: Option<string>, progname: string, executable: string -> bool): string -> bool
  {
    (comp: string) => Matches(findpath, progname, executable, comp)
  }

  /** The PATH text after the first component that matches and the ':'
      ending it. A final component has no ':' after it and leaves nothing. */
  function AfterMatch(path: string, m: string -> bool): string
    decreases |path|
  {
    match IndexOf(path, ':')
    case None => ""
    case Some(k) => if m(path[..k]) then path[k + 1..] else AfterMatch(path[k + 1..], m)
  }

  /** The component of PATH that ends at the end of s: what follows the
      last ':' of s. */
  function LastSegment(s: string): string
    decreases |s|
  {
    if |s| == 0 || s[|s| - 1] == ':' then "" else LastSegment(s[..|s| - 1]) + [s[|s| - 1]]
  }

  /** dcc_support_masquerade. did is none when the flag is not written. */
  method SupportMasquerade(env: Env, findpath: Option<string>, progname: string,
                           executable: string -> bool, setPathRet: int)
    returns (ret: int, newEnv: Env, did: Option<bool>)
    ensures PATH_VAR !in env ==> ret == 0 && newEnv == env && did.None?
    ensures PATH_VAR in env ==>
      var rest := AfterMatch(env[PATH_VAR], Matcher(findpath, progname, executable));
      && (rest == "" ==> ret == 0 && newEnv == env && did == Some(false))
      && (rest != "" && setPathRet != 0 ==> ret == setPathRet && newEnv == env && did.None?)
      && (rest != "" && setPathRet == 0 ==> ret == 0 && newEnv == env[PATH_VAR := rest] && did == Some(true))
  {
    if PATH_VAR !in env {
      return 0, env, None;
    }
    var path := env[PATH_VAR];
    ghost var m := Matcher(findpath, progname, executable);
    var p, n := 0, 0;
    while n < |path|
      invariant 0 <= p == n <= |path|
      invariant AfterMatch(path[p..], m) == AfterMatch(path, m)
      decreases |path| - n
    {
      var rest := path[p..];
      var colon := IndexOf(rest, ':');
      var len: nat;
      if colon.Some? {
        len := colon.value;
        n := p + len + 1;
        assert rest[len + 1..] == path[n..];
      } else {
        len := |rest|;
        n := |path|;
      }
      var comp := rest[..len];
      if Matches(findpath, progname, executable, comp) {
        p := n;
        break;
      }
      p := n;
    }
    if p < |path| {
      if setPathRet != 0 {
        return setPathRet, env, None;
      }
      return 0, env[PATH_VAR := path[p..]], Some(true);
    }
    return 0, env, Some(false);
  }

  /** The component ending at a ':' does not see past the ':'. */
  lemma {:induction false} LastSegmentAfterColon(x: string, b: string)
    ensures LastSegment(x + [':'] + b) == LastSegment(b)
    decreases |b|
  {
    if |b| == 0 {
      assert x + [':'] + b == x + [':'];
    } else {
      var s := x + [':'] + b;
      assert s[..|s| - 1] == x + [':'] + b[..|b| - 1];
      LastSegmentAfterColon(x, b[..|b| - 1]);
    }
  }

  lemma {:induction false} LastSegmentNoColon(s: string)
    requires ':' !in s
    ensures LastSegment(s) == s
    decreases |s|
  {
    if |s| > 0 {
      LastSegmentNoColon(s[..|s| - 1]);
    }
  }

  /** The component ending at position j is ended by a ':' and matches. */
  predicate MatchEndsAt(path: string, m: string -> bool, j: nat)
    requires j < |path|
  {
    path[j] == ':' && m(LastSegment(path[..j]))
  }

  /** No component ending at a ':' before position k matches. */
  predicate NoMatchBefore(path: string, m: string -> bool, k: int)
  {
    forall j: nat :: j < k && j < |path| ==> !MatchEndsAt(path, m, j)
  }

  /** Moving past a first component that does not match. */
  lemma NoMatchShift(head: string, tail: string, m: string -> bool, k: int)
    requires ':' !in head && !m(head) && NoMatchBefore(tail, m, k)
    ensures NoMatchBefore(head + [':'] + tail, m, |head| + 1 + k)
  {
    var path := head + [':'] + tail;
    forall j: nat | j < |head| + 1 + k && j < |path|
      ensures !MatchEndsAt(path, m, j)
    {
      if j == |head| {
        assert path[..j] == head;
        LastSegmentNoColon(head);
      } else if j > |head| {
        var t := j - |head| - 1;
        assert path[..j] == head + [':'] + tail[..t];
        LastSegmentAfterColon(head, tail[..t]);
        assert tail[t] == path[j];
        assert !MatchEndsAt(tail, m, t);
      }
    }
  }

  /** A nonempty result is what follows the ':' at some position k; the
      component just before that ':' matches, and no component ending at
      an earlier ':' does. */
  lemma {:induction false} AfterMatchFound(path: string, m: string -> bool) returns (k: int)
    requires AfterMatch(path, m) != ""
    ensures 0 <= k < |path| && AfterMatch(path, m) == path[k + 1..]
    ensures MatchEndsAt(path, m, k) && NoMatchBefore(path, m, k)
    decreases |path|
  {
    var k0 := IndexOf(path, ':').value;
    var head := path[..k0];
    var tail := path[k0 + 1..];
    if m(head) {
      k := k0;
      FirstComponent(path, m, k0);
    } else {
      var k1 := AfterMatchFound(tail, m);
      k := k0 + 1 + k1;
      FoundLater(path, k0, m, k1);
    }
  }

  /** Before the first ':' there is no earlier ':' and the component is
      everything up to it. */
  lemma FirstComponent(path: string, m: string -> bool, k0: nat)
    requires k0 < |path| && ':' !in path[..k0]
    ensures NoMatchBefore(path, m, k0)
    ensures path[k0] == ':' ==> (MatchEndsAt(path, m, k0) <==> m(path[..k0]))
  {
    LastSegmentNoColon(path[..k0]);
    forall j: nat | j < k0
      ensures !MatchEndsAt(path, m, j)
    {
      assert path[j] == path[..k0][j];
    }
  }

  /** A match past a first component that does not match. */
  lemma FoundLater(path: string, k0: nat, m: string -> bool, k1: nat)
    requires k0 < |path| && path[k0] == ':' && ':' !in path[..k0] && !m(path[..k0])
    requires k1 < |path| - k0 - 1 && NoMatchBefore(path[k0 + 1..], m, k1)
    ensures var k := k0 + 1 + k1;
      && NoMatchBefore(path, m, k) && path[k + 1..] == path[k0 + 1..][k1 + 1..]
      && (MatchEndsAt(path, m, k) <==> MatchEndsAt(path[k0 + 1..], m, k1))
  {
    var head, tail := path[..k0], path[k0 + 1..];
    assert path == head + [':'] + tail;
    var k := k0 + 1 + k1;
    NoMatchShift(head, tail, m, k1);
    assert path[..k] == head + [':'] + tail[..k1];
    LastSegmentAfterColon(head, tail[..k1]);
    assert path[k] == tail[k1];
  }

  /** An empty result means no component ending at a ':' before the last
      character matches. */
  lemma {:induction false} AfterMatchNone(path: string, m: string -> bool)
    requires AfterMatch(path, m) == ""
    ensures NoMatchBefore(path, m, |path| - 1)
    decreases |path|
  {
    var c := IndexOf(path, ':');
    if c.Some? {
      var k0 := c.value;
      var head := path[..k0];
      var tail := path[k0 + 1..];
      assert path == head + [':'] + tail;
      if !m(head) {
        AfterMatchNone(tail, m);
        NoMatchShift(head, tail, m, |tail| - 1);
      } else {
        assert k0 == |path| - 1;
        forall j | 0 <= j < k0
          ensures path[j] != ':'
        {
          assert path[j] == head[j];
        }
      }
    }
  }

  /** PATH only ever shrinks to a proper suffix of itself: what is kept
      starts right after a ':' of the old value. */
  lemma MasqueradeKeepsSuffix(path: string, m: string -> bool)
    ensures var rest := AfterMatch(path, m);
      rest != "" ==> |rest| < |path| && path[|path| - |rest|..] == rest && path[|path| - |rest| - 1] == ':'
  {
    if AfterMatch(path, m) != "" {
      var k := AfterMatchFound(path, m);
    }
  }
}
