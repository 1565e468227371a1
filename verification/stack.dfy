/** `BaseStack` (lib/base/app/stack.ts): a stack names itself after the
    nearest enclosing pipeline and stage, keeps `stackType` and `stackEnv`
    when they are non-empty, and names its children after them. */
module BaseStack {
  import opened Wrappers
  import opened JsStrings
  import opened Slugify
  import opened Scopes
  import opened Naming

  /** The props the model follows; `None` fields are props not given. */
  datatype StackProps = StackProps(stackType: Option<string>, stackEnv: Option<string>, stackName: Option<string>)

  /** A constructed stack: its construct id, the `stackName` handed to the
      framework, and the stored `stackType` and `stackEnv`. */
  datatype BaseStack = BaseStack(id: string, stackName: string, stackType: Option<string>, stackEnv: Option<string>)

  /** `props && props.x ? props.x : undefined`: only a non-empty string is kept. */
  function Truthy(v: Option<string>): (r: Option<string>)
    ensures r.Some? <==> v.Some? && v.value != ""
    ensures r.Some? ==> r == v
  {
    if v.Some? && v.value != "" then v else None
  }

  /** The `_app_name` of the nearest BasePipeline on the path, if any. */
  function NearestAppName(scope: seq<Scope>): Option<string> {
    var n := Nearest(scope, (n: Scope) => n.Pipeline?);
    if n.Some? && n.value.Pipeline? then Some(n.value.appName) else None
  }

  /** The nearest BaseStage on the path, if any. */
  function NearestStage(scope: seq<Scope>): Option<Scope> {
    Nearest(scope, (n: Scope) => n.Stage?)
  }

  /** `[app_name, !stage?._single ? id : null, stage?._stage]`. */
  function NameParts(scope: seq<Scope>, id: string): seq<Option<string>> {
    var stage := NearestStage(scope);
    var single := stage.Some? && stage.value.Stage? && stage.value.single;
    var stageName := if stage.Some? && stage.value.Stage? then Some(stage.value.stage) else None;
    [NearestAppName(scope), if single then None else Some(id), stageName]
  }

  /** The stack's construct id and default `stackName`. */
  function StackId(scope: seq<Scope>, id: string): string {
    Stringify(NameParts(scope, id), "-")
  }

  /** The constructor, `scope` being the parent's `node.scopes`. */
  function Create(scope: seq<Scope>, id: string, props: Option<StackProps>): (s: BaseStack)
    ensures s.id == StackId(scope, id)
    ensures s.stackName == if props.Some? && props.value.stackName.Some? then props.value.stackName.value else s.id
    ensures s.stackType.Some? <==> props.Some? && props.value.stackType.Some? && props.value.stackType.value != ""
    ensures s.stackType.Some? ==> s.stackType == props.value.stackType
    ensures s.stackEnv.Some? <==> props.Some? && props.value.stackEnv.Some? && props.value.stackEnv.value != ""
    ensures s.stackEnv.Some? ==> s.stackEnv == props.value.stackEnv
  {
    var name := StackId(scope, id);
    match props
    case None => BaseStack(name, name, None, None)
    case Some(p) => BaseStack(name, p.stackName.GetOr(name), Truthy(p.stackType), Truthy(p.stackEnv))
  }

  /** The stack as a node of the tree its children see. */
  function AsScope(s: BaseStack): Scope {
    Scopes.Stack(s.stackType, s.stackEnv)
  }

  /** `__(name, separator)`: the name, then `stackType`, then `stackEnv`. */
  function ScopedId(s: BaseStack, name: string, sep: string): string {
    Naming.ScopedId([Some(name), s.stackType, s.stackEnv], sep)
  }

  /** The parts of a stack's id come from the last pipeline and the last
      stage on the root-to-scope path; the id itself is dropped only under a
      single stage. */
  lemma {:induction false} StackIdFromNearest(scope: seq<Scope>, id: string, i: nat, j: nat)
    requires i < |scope| && scope[i].Pipeline?
    requires forall k :: i < k < |scope| ==> !scope[k].Pipeline?
    requires j < |scope| && scope[j].Stage?
    requires forall k :: j < k < |scope| ==> !scope[k].Stage?
    ensures StackId(scope, id) ==
      Stringify([Some(scope[i].appName), if scope[j].single then None else Some(id), Some(scope[j].stage)], "-")
  {
    NearestIsLastMatch(scope, (n: Scope) => n.Pipeline?, i);
    NearestIsLastMatch(scope, (n: Scope) => n.Stage?, j);
  }

  /** Under a pipeline but no stage (the pipeline's own stacks), the id is
      the app name followed by the stack's own id. */
  lemma {:induction false} PipelineOnlyStackId(scope: seq<Scope>, id: string, i: nat)
    requires i < |scope| && scope[i].Pipeline?
    requires forall k :: i < k < |scope| ==> !scope[k].Pipeline?
    requires forall k :: 0 <= k < |scope| ==> !scope[k].Stage?
    ensures StackId(scope, id) == Stringify([Some(scope[i].appName), Some(id)], "-")
  {
    var a := scope[i].appName;
    assert NameParts(scope, id) == [Some(a), Some(id)] + [None] + [] by {
      NearestIsLastMatch(scope, (n: Scope) => n.Pipeline?, i);
      NearestNone(scope, (n: Scope) => n.Stage?);
    }
    NonStringsIgnored([Some(a), Some(id)], [], "-");
    assert [Some(a), Some(id)] + [] == [Some(a), Some(id)];
  }

  /** Under a stage but no pipeline, the id is the stage name, preceded by
      the stack's own id unless the stage is single. */
  lemma {:induction false} StageOnlyStackId(scope: seq<Scope>, id: string, j: nat)
    requires forall k :: 0 <= k < |scope| ==> !scope[k].Pipeline?
    requires j < |scope| && scope[j].Stage?
    requires forall k :: j < k < |scope| ==> !scope[k].Stage?
    ensures StackId(scope, id) ==
      Stringify(if scope[j].single then [Some(scope[j].stage)] else [Some(id), Some(scope[j].stage)], "-")
  {
    var st := Some(scope[j].stage);
    var middle := if scope[j].single then None else Some(id);
    assert NameParts(scope, id) == [None] + [middle, st] by {
      NearestNone(scope, (n: Scope) => n.Pipeline?);
      NearestIsLastMatch(scope, (n: Scope) => n.Stage?, j);
    }
    NoneFirst([middle, st]);
    if scope[j].single {
      assert [middle, st] == [None] + [st];
      NoneFirst([st]);
    }
  }

  lemma NoneFirst(b: seq<Option<string>>)
    ensures Stringify([None] + b, "-") == Stringify(b, "-")
  {
    NonStringsIgnored([], b, "-");
    assert [] + [None] + b == [None] + b;
    assert [] + b == b;
  }

  /** Outside every pipeline and stage a stack's id is the slug of its id. */
  lemma {:induction false} StandaloneStackId(scope: seq<Scope>, id: string)
    requires forall k :: 0 <= k < |scope| ==> !scope[k].Pipeline? && !scope[k].Stage?
    ensures StackId(scope, id) == Slug(id)
  {
    NearestNone(scope, (n: Scope) => n.Pipeline?);
    NearestNone(scope, (n: Scope) => n.Stage?);
    assert NameParts(scope, id) == [] + [None] + [Some(id), None];
    NonStringsIgnored([], [Some(id), None], "-");
    assert [] + [Some(id), None] == [Some(id)] + [None] + [];
    NonStringsIgnored([Some(id)], [], "-");
    assert [Some(id)] + [] == [Some(id)];
    assert StringsOf([Some(id)]) == [id];
    assert Slugs([id]) == [Slug(id)];
  }

  /** A stack under a single stage of a pipeline is named after the app and
      the stage only: two stacks there compose the same id. */
  lemma SingleStageDropsId(scope: seq<Scope>, id1: string, id2: string)
    requires NearestStage(scope).Some? && NearestStage(scope).value.Stage?
    requires NearestStage(scope).value.single
    ensures StackId(scope, id1) == StackId(scope, id2)
  {
  }

  /** An empty `stackType` or `stackEnv` is stored as absent, so it never
      reaches a child's id. */
  lemma EmptyPropsDropped(scope: seq<Scope>, id: string, name: string, sep: string, n: Option<string>)
    ensures ScopedId(Create(scope, id, Some(StackProps(Some(""), Some(""), n))), name, sep)
         == ScopedId(Create(scope, id, None), name, sep)
  {
  }

  /** The words of a child's id: the name's, then the type's, then the env's,
      joined by the separator. */
  lemma ScopedIdOrder(s: BaseStack, name: string, sep: string)
    requires '$' !in sep
    requires Words(name) != []
    requires s.stackType.Some? ==> Words(s.stackType.value) != []
    requires s.stackEnv.Some? ==> Words(s.stackEnv.value) != []
    ensures ScopedId(s, name, sep) ==
      Join(Words(name) + WordsOf(s.stackType) + WordsOf(s.stackEnv), sep)
  {
    var parts := [Some(name), s.stackType, s.stackEnv];
    var xs := [name] + Present(s.stackType) + Present(s.stackEnv);
    assert StringsOf(parts) == xs by {
      StringsOfThree(name, s.stackType, s.stackEnv);
    }
    assert forall k :: 0 <= k < |xs| ==> Words(xs[k]) != [] by {
      forall k | 0 <= k < |xs| ensures Words(xs[k]) != [] {
        if k == 0 {
        } else if k == 1 && s.stackType.Some? {
          assert xs[k] == s.stackType.value;
        } else {
          assert xs[k] == s.stackEnv.value;
        }
      }
    }
    assert Stringify(parts, sep) == Join(AllWords(xs), sep) by {
      IdIsJoinedWords(parts, sep);
    }
    assert AllWords(xs) == Words(name) + WordsOf(s.stackType) + WordsOf(s.stackEnv) by {
      AllWordsThree(name, s.stackType, s.stackEnv);
    }
    ScopedIdIsStringify(parts, sep);
  }

  lemma StringsOfThree(a: string, b: Option<string>, c: Option<string>)
    ensures StringsOf([Some(a), b, c]) == [a] + Present(b) + Present(c)
  {
    assert [Some(a), b, c] == [Some(a)] + [b] + [c];
    assert StringsOf([Some(a)] + [b]) == [a] + Present(b) by {
      StringsOfAppend([Some(a)], [b]);
      StringsOfOne(a);
      StringsOfPresent(b);
    }
    assert StringsOf([Some(a)] + [b] + [c]) == StringsOf([Some(a)] + [b]) + Present(c) by {
      StringsOfAppend([Some(a)] + [b], [c]);
      StringsOfPresent(c);
    }
  }

  lemma StringsOfPresent(o: Option<string>)
    ensures StringsOf([o]) == Present(o)
  {
    if o.Some? {
      StringsOfOne(o.value);
    } else {
      assert StringsOf([o]) == [] by {
        assert [o][1..] == [];
      }
    }
  }

  lemma AllWordsThree(a: string, b: Option<string>, c: Option<string>)
    ensures AllWords([a] + Present(b) + Present(c)) == Words(a) + WordsOf(b) + WordsOf(c)
  {
    AllWordsAppend([a] + Present(b), Present(c));
    AllWordsAppend([a], Present(b));
    assert AllWords([a]) == Words(a) + [];
  }

  /** A present value as a one-element list. */
  function Present(o: Option<string>): (r: seq<string>)
    ensures |r| <= 1 && (o.Some? ==> r == [o.value])
  {
    if o.Some? then [o.value] else []
  }

  /** The words of a present value, none for an absent one. */
  function WordsOf(o: Option<string>): (r: seq<string>)
    ensures r == AllWords(Present(o))
  {
    if o.Some? then Words(o.value) else []
  }
}
