/** The construct tree as the naming helpers see it: a node's `node.scopes`,
    the path from the root down to the node itself, each node tagged with
    the base class it was built from. */
module Scopes {
  import opened Wrappers

  datatype Scope =
    | Pipeline(appName: string)                                   // a BasePipeline (itself a stack)
    | Stage(stage: string, single: bool)                          // a BaseStage
    | Stack(stackType: Option<string>, stackEnv: Option<string>)  // a BaseStack
    | PlainStack                                                  // any other stack
    | Construct(env: Option<string>)                              // a BaseConstruct
    | OtherStage                                                  // the App or any other stage
    | Other                                                       // any other construct

  /** Every kind of stack: what `Stack.of` is looking for. */
  predicate IsStackLike(n: Scope) {
    n.Pipeline? || n.Stack? || n.PlainStack?
  }

  /** Every kind of stage, the App included: where `Stack.of` gives up. */
  predicate IsStageLike(n: Scope) {
    n.Stage? || n.OtherStage?
  }

  /** The nodes at which the upward walk of `Stack.of` ends. */
  predicate EndsStackSearch(n: Scope) {
    IsStackLike(n) || IsStageLike(n)
  }

  /** `path.reverse()`: self first, root last. */
  function Reverse<T>(s: seq<T>): (r: seq<T>)
    ensures |r| == |s|
    ensures forall i :: 0 <= i < |s| ==> r[i] == s[|s| - 1 - i]
  {
    if s == [] then [] else [s[|s| - 1]] + Reverse(s[..|s| - 1])
  }

  lemma ReverseSnoc<T>(s: seq<T>, x: T)
    ensures Reverse(s + [x]) == [x] + Reverse(s)
  {
    assert (s + [x])[..|s|] == s;
  }

  /** `path.filter(p)`. */
  function Filter(s: seq<Scope>, p: Scope -> bool): (r: seq<Scope>)
    ensures |r| <= |s|
    ensures forall i :: 0 <= i < |r| ==> p(r[i]) && r[i] in s
  {
    if s == [] then []
    else (if p(s[0]) then [s[0]] else []) + Filter(s[1..], p)
  }

  /** `path.reverse().filter(p).shift()`: the nearest node, `self` included,
      satisfying `p`. */
  function Nearest(path: seq<Scope>, p: Scope -> bool): Option<Scope> {
    var hits := Filter(Reverse(path), p);
    if hits == [] then None else Some(hits[0])
  }

  /** The nearest match is the last match on the root-to-self path. */
  lemma {:induction false} NearestIsLastMatch(path: seq<Scope>, p: Scope -> bool, k: nat)
    requires k < |path| && p(path[k])
    requires forall j :: k < j < |path| ==> !p(path[j])
    ensures Nearest(path, p) == Some(path[k])
    decreases |path|
  {
    var q, last := path[..|path| - 1], path[|path| - 1];
    assert path == q + [last];
    ReverseSnoc(q, last);
    if k < |path| - 1 {
      NearestIsLastMatch(q, p, k);
    }
  }

  /** There is no nearest match exactly when nothing on the path matches. */
  lemma {:induction false} NearestNone(path: seq<Scope>, p: Scope -> bool)
    ensures Nearest(path, p).None? <==> forall j :: 0 <= j < |path| ==> !p(path[j])
    decreases |path|
  {
    if path != [] {
      var q, last := path[..|path| - 1], path[|path| - 1];
      assert path == q + [last];
      ReverseSnoc(q, last);
      NearestNone(q, p);
      assert forall j :: 0 <= j < |q| ==> q[j] == path[j];
    }
  }

  /** Where the nearest match sits on the root-to-self path. */
  lemma {:induction false} NearestAt(path: seq<Scope>, p: Scope -> bool) returns (k: nat)
    requires Nearest(path, p).Some?
    ensures k < |path| && p(path[k]) && Nearest(path, p) == Some(path[k])
    ensures forall j :: k < j < |path| ==> !p(path[j])
    decreases |path|
  {
    var q, last := path[..|path| - 1], path[|path| - 1];
    assert path == q + [last];
    ReverseSnoc(q, last);
    if p(last) {
      k := |path| - 1;
      assert ([last] + Reverse(q))[0] == last;
    } else {
      NearestSnoc(q, p, last);
      k := NearestAt(q, p);
      assert path[k] == q[k];
    }
  }

  /** Growing the path by a node that does not match leaves the nearest
      match where it was. */
  lemma NearestSnoc(path: seq<Scope>, p: Scope -> bool, n: Scope)
    requires !p(n)
    ensures Nearest(path + [n], p) == Nearest(path, p)
  {
    ReverseSnoc(path, n);
    assert Filter([n] + Reverse(path), p) == Filter(Reverse(path), p) by {
      assert ([n] + Reverse(path))[1..] == Reverse(path);
    }
  }

  function EnvOf(n: Scope): Option<string> {
    if n.Construct? then n.env else None
  }

  function Envs(ns: seq<Scope>): (r: seq<Option<string>>)
    ensures |r| == |ns|
  {
    seq(|ns|, i requires 0 <= i < |ns| => EnvOf(ns[i]))
  }

  predicate IsConstruct(n: Scope) {
    n.Construct?
  }

  /** The `env` of every BaseConstruct on the path, nearest first. */
  function EnvChain(path: seq<Scope>): seq<Option<string>> {
    Envs(Filter(Reverse(path), IsConstruct))
  }

  /** Growing the path by one node adds that node's env in front when it is
      a BaseConstruct, and nothing otherwise. */
  lemma EnvChainSnoc(path: seq<Scope>, n: Scope)
    ensures EnvChain(path + [n]) == if n.Construct? then [n.env] + EnvChain(path) else EnvChain(path)
  {
    var r := Reverse(path);
    var f := Filter(r, IsConstruct);
    var head := if n.Construct? then [n] else [];
    assert Filter(Reverse(path + [n]), IsConstruct) == head + f by {
      ReverseSnoc(path, n);
      assert ([n] + r)[1..] == r;
    }
    EnvsAppend(head, f);
    assert Envs(head) == if n.Construct? then [n.env] else [];
  }

  lemma EnvsAppend(a: seq<Scope>, b: seq<Scope>)
    ensures Envs(a + b) == Envs(a) + Envs(b)
  {
    assert forall i :: 0 <= i < |a| ==> (a + b)[i] == a[i];
    assert forall i :: 0 <= i < |b| ==> (a + b)[|a| + i] == b[i];
  }
}
