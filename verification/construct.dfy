/** `BaseConstruct` (lib/base/app/construct.ts): a construct may carry an
    `env`, and names its children after its own env, the envs of every
    BaseConstruct above it, and the `stackType` and `stackEnv` of its stack. */
module BaseConstruct {
  import opened Wrappers
  import opened JsStrings
  import opened Slugify
  import opened Scopes
  import opened Naming

  /** The `env` prop; `None` when it is not given. */
  datatype ConstructProps = ConstructProps(env: Option<string>)

  /** The constructor: `this.helpers = props ?? {}` stores `props.env`, so a
      construct built without props has no env. */
  function Create(props: Option<ConstructProps>): (n: Scope)
    ensures n.Construct?
    ensures n.env.Some? <==> props.Some? && props.value.env.Some?
    ensures n.env.Some? ==> n.env == props.value.env
  {
    match props
    case None => Construct(None)
    case Some(p) => Construct(p.env)
  }

  /** `Stack.of(this)`: walking up from the construct, the first stack, or
      nothing when a stage (the App included) comes first or the root is
      reached; a BaseConstruct is never a stack or a stage, so `self` is
      passed over. */
  function StackOf(path: seq<Scope>): (r: Option<Scope>)
    ensures r.Some? ==> IsStackLike(r.value)
  {
    var n := Nearest(path, EndsStackSearch);
    if n.Some? && IsStackLike(n.value) then n else None
  }

  /** Some stack lies on the path with no stage between it and the end of
      the path. */
  predicate InStack(path: seq<Scope>) {
    exists k :: 0 <= k < |path| && IsStackLike(path[k]) && forall j :: k < j < |path| ==> !IsStageLike(path[j])
  }

  /** `Stack.of` finds a stack exactly when one lies below every stage. */
  lemma StackOfFound(path: seq<Scope>)
    ensures StackOf(path).Some? <==> InStack(path)
  {
    if Nearest(path, EndsStackSearch).None? {
      NearestNone(path, EndsStackSearch);
    } else {
      var k := NearestAt(path, EndsStackSearch);
      if !IsStackLike(path[k]) {
        forall i | 0 <= i < |path| && IsStackLike(path[i])
          ensures exists j :: i < j < |path| && IsStageLike(path[j])
        {
          assert i < k && IsStageLike(path[k]);
        }
      }
    }
  }

  /** The `stackType` and `stackEnv` read off the stack after the cast to
      BaseStack: a pipeline or any other stack has neither. */
  function StackParts(n: Scope): seq<Option<string>> {
    if n.Stack? then [n.stackType, n.stackEnv] else [None, None]
  }

  /** `__(name, separator)`, `path` being this construct's `node.scopes`.
      `None` is the error `Stack.of` throws when no stack encloses the
      construct below every stage. */
  function ScopedId(path: seq<Scope>, name: string, sep: string): (r: Option<string>)
    requires |path| > 0 && path[|path| - 1].Construct?
    ensures r.None? <==> !InStack(path)
  {
    StackOfFound(path);
    match StackOf(path)
    case None => None
    case Some(st) => Some(Stringify([Some(name)] + EnvChain(path) + StackParts(st), sep))
  }

  /** The stack whose type and env a construct's children carry is the last
      stack on the root-to-self path, when no stage lies below it. */
  lemma {:induction false} ScopedIdFromNearestStack(path: seq<Scope>, name: string, sep: string, i: nat)
    requires |path| > 0 && path[|path| - 1].Construct?
    requires i < |path| && IsStackLike(path[i])
    requires forall k :: i < k < |path| ==> !IsStackLike(path[k]) && !IsStageLike(path[k])
    ensures ScopedId(path, name, sep) == Some(Stringify([Some(name)] + EnvChain(path) + StackParts(path[i]), sep))
  {
    NearestIsLastMatch(path, EndsStackSearch, i);
  }

  /** A stage between the construct and every stack above it hides them:
      `Stack.of` throws, so there is no id. */
  lemma StageHidesStack(path: seq<Scope>, name: string, sep: string, j: nat)
    requires |path| > 0 && path[|path| - 1].Construct?
    requires j < |path| && IsStageLike(path[j])
    requires forall k :: j < k < |path| ==> !IsStackLike(path[k])
    ensures ScopedId(path, name, sep).None?
  {
    forall i | 0 <= i < |path| && IsStackLike(path[i])
      ensures exists j' :: i < j' < |path| && IsStageLike(path[j'])
    {
      assert i < j && IsStageLike(path[j]);
    }
  }

  /** Nesting a construct under another one puts the child's env right
      after the name, in front of every env above it: the envs are read
      innermost first. */
  lemma ChildScopedId(path: seq<Scope>, env: Option<string>, name: string, sep: string)
    requires |path| > 0 && path[|path| - 1].Construct?
    ensures ScopedId(path + [Construct(env)], name, sep).Some? <==> ScopedId(path, name, sep).Some?
    ensures ScopedId(path, name, sep).Some? ==>
      ScopedId(path + [Construct(env)], name, sep)
        == Some(Stringify([Some(name), env] + EnvChain(path) + StackParts(StackOf(path).value), sep))
  {
    ChildHasScopedId(path, env, name, sep);
    if ScopedId(path, name, sep).Some? {
      ChildScopedIdValue(path, env, name, sep);
    }
  }

  lemma ChildHasScopedId(path: seq<Scope>, env: Option<string>, name: string, sep: string)
    requires |path| > 0 && path[|path| - 1].Construct?
    ensures ScopedId(path + [Construct(env)], name, sep).Some? <==> ScopedId(path, name, sep).Some?
  {
    ChildSeesParent(path, env);
  }

  lemma ChildScopedIdValue(path: seq<Scope>, env: Option<string>, name: string, sep: string)
    requires |path| > 0 && path[|path| - 1].Construct?
    requires StackOf(path).Some?
    ensures ScopedId(path + [Construct(env)], name, sep)
      == Some(Stringify([Some(name), env] + EnvChain(path) + StackParts(StackOf(path).value), sep))
  {
    var p := path + [Construct(env)];
    ChildSeesParent(path, env);
    var tail := StackParts(StackOf(path).value);
    assert [Some(name)] + EnvChain(p) + tail == [Some(name), env] + EnvChain(path) + tail;
  }

  /** A child construct finds its parent's stack, and its env chain is its
      own env in front of the parent's. */
  lemma ChildSeesParent(path: seq<Scope>, env: Option<string>)
    ensures StackOf(path + [Construct(env)]) == StackOf(path)
    ensures EnvChain(path + [Construct(env)]) == [env] + EnvChain(path)
  {
    NearestSnoc(path, EndsStackSearch, Construct(env));
    EnvChainSnoc(path, Construct(env));
  }

  /** An env-less construct in the chain is skipped: it adds nothing to the
      ids below it. */
  lemma EnvlessAncestorSkipped(path: seq<Scope>, name: string, sep: string)
    requires |path| > 0 && path[|path| - 1].Construct?
    requires StackOf(path).Some?
    ensures ScopedId(path + [Construct(None)], name, sep) == ScopedId(path, name, sep)
  {
    ChildScopedId(path, None, name, sep);
    NoneAfterName(name, EnvChain(path), StackParts(StackOf(path).value), sep);
  }

  lemma NoneAfterName(name: string, envs: seq<Option<string>>, tail: seq<Option<string>>, sep: string)
    ensures Stringify([Some(name), None] + envs + tail, sep) == Stringify([Some(name)] + envs + tail, sep)
  {
    assert [Some(name), None] + envs + tail == [Some(name)] + [None] + (envs + tail);
    assert [Some(name)] + envs + tail == [Some(name)] + (envs + tail);
    NonStringsIgnored([Some(name)], envs + tail, sep);
  }

  /** A construct outside every stack has no scoped id: `Stack.of` throws. */
  lemma NoStackNoId(path: seq<Scope>, name: string, sep: string)
    requires |path| > 0 && path[|path| - 1].Construct?
    requires forall k :: 0 <= k < |path| ==> !IsStackLike(path[k])
    ensures ScopedId(path, name, sep).None?
  {
  }
}
