/** The scoped ids the repository's own tests expect (test/base.test.ts),
    and the stack names the example app composes (src/root.ts), derived from
    the model. */
module NamingVectors {
  import opened Wrappers
  import opened JsStrings
  import opened Slugify
  import opened Scopes
  import Naming
  import BaseStack
  import BaseConstruct
  import BaseStage

  lemma FooBar()
    ensures Words("Foo Bar") == ["foo", "bar"]
  {
    TwoWords("Foo", "Bar");
    assert "Foo" + " " + "Bar" == "Foo Bar";
    LowerAllIs("Foo", "foo");
    LowerAllIs("Bar", "bar");
  }

  /** `stack.__("Foo Bar")` and `stack.__("Foo Bar", "_")` for a stack
      without props (test/base.test.ts, lines 10-19). */
  lemma StackHelperPlain(app: seq<Scope>, sep: string)
    requires '$' !in sep
    ensures BaseStack.ScopedId(BaseStack.Create(app, "stack", None), "Foo Bar", sep) == "foo" + sep + "bar"
  {
    var s := BaseStack.Create(app, "stack", None);
    assert s.stackType == None && s.stackEnv == None;
    FooBar();
    PlainStackId(s, "Foo Bar", sep, "foo", "bar");
  }

  lemma PlainStackId(s: BaseStack.BaseStack, name: string, sep: string, w1: string, w2: string)
    requires '$' !in sep
    requires s.stackType == None && s.stackEnv == None
    requires Words(name) == [w1, w2]
    ensures BaseStack.ScopedId(s, name, sep) == w1 + sep + w2
  {
    BaseStack.ScopedIdOrder(s, name, sep);
    assert BaseStack.WordsOf(None) == [];
    assert [w1, w2] + [] + [] == [w1, w2];
    assert [w1, w2][1..] == [w2];
  }

  /** `stack.__("Foo Bar")` with `stackType: "My Type"` given
      (test/base.test.ts, lines 20-26), for every two-word name and type:
      the name's words, then the type's. */
  lemma StackHelperType(app: seq<Scope>, sep: string, n1: string, n2: string, t1: string, t2: string)
    requires '$' !in sep
    requires IsWord(n1) && IsWord(n2) && IsWord(t1) && IsWord(t2)
    ensures BaseStack.ScopedId(BaseStack.Create(app, "stack", Some(BaseStack.StackProps(Some(t1 + " " + t2), None, None))), n1 + " " + n2, sep)
      == n1 + sep + n2 + sep + t1 + sep + t2
  {
    var s := BaseStack.Create(app, "stack", Some(BaseStack.StackProps(Some(t1 + " " + t2), None, None)));
    assert s.stackType == Some(t1 + " " + t2) && s.stackEnv == None;
    TypedStackId(s, sep, n1, n2, t1, t2);
  }

  lemma TypedStackId(s: BaseStack.BaseStack, sep: string, n1: string, n2: string, t1: string, t2: string)
    requires '$' !in sep
    requires IsWord(n1) && IsWord(n2) && IsWord(t1) && IsWord(t2)
    requires s.stackType == Some(t1 + " " + t2) && s.stackEnv == None
    ensures BaseStack.ScopedId(s, n1 + " " + n2, sep) == n1 + sep + n2 + sep + t1 + sep + t2
  {
    TwoWordsOfWords(n1, n2);
    WordsOfTwo(s.stackType, t1, t2);
    assert BaseStack.WordsOf(s.stackEnv) == [];
    BaseStack.ScopedIdOrder(s, n1 + " " + n2, sep);
    AppendFour(n1, n2, t1, t2);
    JoinFour(n1, n2, t1, t2, sep);
  }

  lemma AppendFour<T>(a: T, b: T, c: T, d: T)
    ensures [a, b] + [c, d] + [] == [a, b, c, d]
  {
  }

  lemma WordsOfTwo(o: Option<string>, a: string, b: string)
    requires IsWord(a) && IsWord(b) && o == Some(a + " " + b)
    ensures BaseStack.WordsOf(o) == [a, b]
  {
    TwoWordsOfWords(a, b);
    Naming.AllWordsOne(a + " " + b);
  }

  lemma MyType()
    ensures Words("My Type") == ["my", "type"]
  {
    MyTypeText();
    MyTypeLower();
    TwoWords("My", "Type");
  }

  lemma MyTypeText()
    ensures "My" + " " + "Type" == "My Type"
  {
  }

  lemma MyTypeLower()
    ensures LowerAll("My") == "my" && LowerAll("Type") == "type"
  {
    LowerAllIs("My", "my");
    LowerAllIs("Type", "type");
  }

  lemma UserAcceptance()
    ensures Words("User Acceptance") == ["user", "acceptance"]
  {
    UserAcceptanceText();
    UserAcceptanceLower();
    TwoWords("User", "Acceptance");
  }

  lemma UserAcceptanceText()
    ensures "User" + " " + "Acceptance" == "User Acceptance"
  {
  }

  lemma UserAcceptanceLower()
    ensures LowerAll("User") == "user" && LowerAll("Acceptance") == "acceptance"
  {
    LowerAllIs("User", "user");
    LowerAllIs("Acceptance", "acceptance");
  }

  /** The test's own values: `stackType: "My Type"` and the name
      "Foo Bar" give "foo-bar-my-type" (test/base.test.ts, lines 20-26). */
  lemma StackHelperTypeLiteral(app: seq<Scope>)
    ensures BaseStack.ScopedId(BaseStack.Create(app, "stack", Some(BaseStack.StackProps(Some("My Type"), None, None))), "Foo Bar", "-")
      == "foo-bar-my-type"
  {
    var s := BaseStack.Create(app, "stack", Some(BaseStack.StackProps(Some("My Type"), None, None)));
    assert s.stackType == Some("My Type") && s.stackEnv == None;
    LiteralTypedId(s);
  }

  lemma LiteralTypedId(s: BaseStack.BaseStack)
    requires s.stackType == Some("My Type") && s.stackEnv == None
    ensures BaseStack.ScopedId(s, "Foo Bar", "-") == "foo-bar-my-type"
  {
    assert Words("Foo Bar") == ["foo", "bar"] && BaseStack.WordsOf(s.stackType) == ["my", "type"] by {
      FooBar();
      MyType();
    }
    assert BaseStack.WordsOf(s.stackEnv) == [];
    BaseStack.ScopedIdOrder(s, "Foo Bar", "-");
    AppendFour("foo", "bar", "my", "type");
    JoinFour("foo", "bar", "my", "type", "-");
    FooBarMyTypeText();
  }

  lemma FooBarMyTypeText()
    ensures "foo" + "-" + "bar" + "-" + "my" + "-" + "type" == "foo-bar-my-type"
  {
  }

  /** The test's own values with `stackEnv: "User Acceptance"` too:
      "foo-bar-my-type-user-acceptance" (test/base.test.ts, lines 27-34). */
  lemma StackHelperTypeAndEnvLiteral(app: seq<Scope>)
    ensures BaseStack.ScopedId(BaseStack.Create(app, "stack", Some(BaseStack.StackProps(Some("My Type"), Some("User Acceptance"), None))), "Foo Bar", "-")
      == "foo-bar-my-type-user-acceptance"
  {
    var s := BaseStack.Create(app, "stack", Some(BaseStack.StackProps(Some("My Type"), Some("User Acceptance"), None)));
    assert s.stackType == Some("My Type") && s.stackEnv == Some("User Acceptance");
    LiteralTypedEnvId(s);
  }

  lemma LiteralTypedEnvId(s: BaseStack.BaseStack)
    requires s.stackType == Some("My Type") && s.stackEnv == Some("User Acceptance")
    ensures BaseStack.ScopedId(s, "Foo Bar", "-") == "foo-bar-my-type-user-acceptance"
  {
    assert "foo" + "-" + "bar" + "-" + "my" + "-" + "type" + "-" + "user" + "-" + "acceptance"
        == "foo-bar-my-type-user-acceptance";
    assert Words("Foo Bar") == ["foo", "bar"] && BaseStack.WordsOf(s.stackType) == ["my", "type"]
        && BaseStack.WordsOf(s.stackEnv) == ["user", "acceptance"] by {
      FooBar();
      MyType();
      UserAcceptance();
    }
    BaseStack.ScopedIdOrder(s, "Foo Bar", "-");
    JoinSix("foo", "bar", "my", "type", "user", "acceptance", "-");
  }

  /** The same with `stackEnv: "User Acceptance"` given too
      (test/base.test.ts, lines 27-34): the env's words come last. */
  lemma StackHelperTypeAndEnv(app: seq<Scope>, sep: string, n1: string, n2: string, t1: string, t2: string, e1: string, e2: string)
    requires '$' !in sep
    requires IsWord(n1) && IsWord(n2) && IsWord(t1) && IsWord(t2) && IsWord(e1) && IsWord(e2)
    ensures BaseStack.ScopedId(BaseStack.Create(app, "stack", Some(BaseStack.StackProps(Some(t1 + " " + t2), Some(e1 + " " + e2), None))), n1 + " " + n2, sep)
      == n1 + sep + n2 + sep + t1 + sep + t2 + sep + e1 + sep + e2
  {
    var s := BaseStack.Create(app, "stack", Some(BaseStack.StackProps(Some(t1 + " " + t2), Some(e1 + " " + e2), None)));
    assert s.stackType == Some(t1 + " " + t2) && s.stackEnv == Some(e1 + " " + e2);
    TypedEnvStackId(s, sep, n1, n2, t1, t2, e1, e2);
  }

  lemma TypedEnvStackId(s: BaseStack.BaseStack, sep: string, n1: string, n2: string, t1: string, t2: string, e1: string, e2: string)
    requires '$' !in sep
    requires IsWord(n1) && IsWord(n2) && IsWord(t1) && IsWord(t2) && IsWord(e1) && IsWord(e2)
    requires s.stackType == Some(t1 + " " + t2) && s.stackEnv == Some(e1 + " " + e2)
    ensures BaseStack.ScopedId(s, n1 + " " + n2, sep) == n1 + sep + n2 + sep + t1 + sep + t2 + sep + e1 + sep + e2
  {
    TwoWordsOfWords(n1, n2);
    WordsOfTwo(s.stackType, t1, t2);
    WordsOfTwo(s.stackEnv, e1, e2);
    BaseStack.ScopedIdOrder(s, n1 + " " + n2, sep);
    JoinSix(n1, n2, t1, t2, e1, e2, sep);
  }

  lemma JoinSix(a: string, b: string, c: string, d: string, e: string, f: string, sep: string)
    ensures Join([a, b] + [c, d] + [e, f], sep) == a + sep + b + sep + c + sep + d + sep + e + sep + f
  {
    assert [a, b] + [c, d] + [e, f] == [a, b] + [c, d, e, f];
    JoinFour(c, d, e, f, sep);
    Naming.JoinAppend([a, b], [c, d, e, f], sep);
    assert [a, b][1..] == [b];
  }

  lemma JoinFour(a: string, b: string, c: string, d: string, sep: string)
    ensures Join([a, b, c, d], sep) == a + sep + b + sep + c + sep + d
  {
    assert [a, b, c, d][1..] == [b, c, d];
    assert [b, c, d][1..] == [c, d];
    assert [c, d][1..] == [d];
    assert Join([c, d], sep) == c + sep + d;
    assert Join([b, c, d], sep) == b + sep + (c + sep + d);
    assert Join([a, b, c, d], sep) == a + sep + (b + sep + (c + sep + d));
  }

  /** The scopes of the constructs in test/base.test.ts, lines 62-74, root
      first: the app, a stack with a type and an env, `child` with env
      `one`, `skipped` without an env, and `nested` with env `two`. */
  function StackPath(t: string, e: string): seq<Scope> {
    [OtherStage] + [Stack(Some(t), Some(e))]
  }

  function ChildPath(t: string, e: string, one: string): seq<Scope> {
    StackPath(t, e) + [Construct(Some(one))]
  }

  function SkippedPath(t: string, e: string, one: string): seq<Scope> {
    ChildPath(t, e, one) + [Construct(None)]
  }

  function NestedPath(t: string, e: string, one: string, two: string): seq<Scope> {
    SkippedPath(t, e, one) + [Construct(Some(two))]
  }

  lemma EnvChains(t: string, e: string, one: string, two: string)
    ensures EnvChain(SkippedPath(t, e, one)) == [None] + ([Some(one)] + [])
    ensures EnvChain(NestedPath(t, e, one, two)) == [Some(two)] + ([None] + ([Some(one)] + []))
  {
    assert EnvChain([]) == [];
    EnvChainSnoc([], OtherStage);
    assert [] + [OtherStage] == [OtherStage];
    EnvChainSnoc([OtherStage], Stack(Some(t), Some(e)));
    EnvChainSnoc(StackPath(t, e), Construct(Some(one)));
    EnvChainSnoc(ChildPath(t, e, one), Construct(None));
    EnvChainSnoc(SkippedPath(t, e, one), Construct(Some(two)));
  }

  /** `child.__("Nested Construct")` for a `child` built without an env:
      the name, then the stack's type and env; the test's
      "nested-construct-demo-qa" and, with "_", "nested_construct_demo_qa"
      (test/base.test.ts, lines 50-61). */
  lemma ConstructHelperPlain(sep: string, name: string, t: string, e: string)
    ensures BaseConstruct.ScopedId(PlainPath(t, e), name, sep)
         == Some(Naming.Stringify([Some(name), Some(t), Some(e)], sep))
  {
    var path := PlainPath(t, e);
    assert path[..2] == StackPath(t, e);
    StackAt1(path, t, e);
    BaseConstruct.ScopedIdFromNearestStack(path, name, sep, 1);
    PlainEnvChain(t, e);
    RegroupPlain(Some(name), None, Some(t), Some(e));
    Naming.NonStringsIgnored([Some(name)], [Some(t), Some(e)], sep);
  }

  function PlainPath(t: string, e: string): seq<Scope> {
    StackPath(t, e) + [Construct(None)]
  }

  lemma PlainEnvChain(t: string, e: string)
    ensures EnvChain(PlainPath(t, e)) == [None] + []
  {
    assert EnvChain([]) == [];
    EnvChainSnoc([], OtherStage);
    assert [] + [OtherStage] == [OtherStage];
    EnvChainSnoc([OtherStage], Stack(Some(t), Some(e)));
    EnvChainSnoc(StackPath(t, e), Construct(None));
  }

  lemma RegroupPlain<T>(a: T, n: T, c: T, d: T)
    ensures [a] + ([n] + []) + [c, d] == [a] + [n] + [c, d]
    ensures [a] + [c, d] == [a, c, d]
  {
  }

  lemma StackAt1(path: seq<Scope>, t: string, e: string)
    requires |path| >= 2 && path[..2] == StackPath(t, e)
    requires forall k :: 2 <= k < |path| ==> path[k].Construct?
    ensures |path| > 1 && IsStackLike(path[1]) && BaseConstruct.StackParts(path[1]) == [Some(t), Some(e)]
    ensures forall k :: 1 < k < |path| ==> !IsStackLike(path[k]) && !IsStageLike(path[k])
  {
    assert path[1] == path[..2][1];
  }

  /** `skipped.__("Nested Construct")`: the name, the env of `child` (the
      env-less `skipped` adds nothing), then the stack's type and env; the
      test's "nested-construct-one-demo-qa". */
  lemma ConstructHelperNested(sep: string, name: string, one: string, t: string, e: string)
    ensures BaseConstruct.ScopedId(SkippedPath(t, e, one), name, sep)
         == Some(Naming.Stringify([Some(name), Some(one), Some(t), Some(e)], sep))
  {
    var path := SkippedPath(t, e, one);
    assert path[..2] == StackPath(t, e);
    StackAt1(path, t, e);
    BaseConstruct.ScopedIdFromNearestStack(path, name, sep, 1);
    EnvChains(t, e, one, one);
    RegroupNested(Some(name), None, Some(one), Some(t), Some(e));
    Naming.NonStringsIgnored([Some(name)], [Some(one), Some(t), Some(e)], sep);
  }

  lemma RegroupNested<T>(a: T, n: T, b: T, c: T, d: T)
    ensures [a] + ([n] + ([b] + [])) + [c, d] == [a] + [n] + [b, c, d]
    ensures [a] + [b, c, d] == [a, b, c, d]
  {
  }

  /** `nested.__("Deeply Nested Construct")`: the name, then the envs of
      every BaseConstruct above, nearest first (`two`, then `one`), then the
      stack's type and env; the test's
      "deeply-nested-construct-two-one-demo-qa". */
  lemma ConstructHelperDeep(sep: string, name: string, two: string, one: string, t: string, e: string)
    ensures BaseConstruct.ScopedId(NestedPath(t, e, one, two), name, sep)
         == Some(Naming.Stringify([Some(name), Some(two), Some(one), Some(t), Some(e)], sep))
  {
    var path := NestedPath(t, e, one, two);
    assert path[..2] == StackPath(t, e);
    StackAt1(path, t, e);
    BaseConstruct.ScopedIdFromNearestStack(path, name, sep, 1);
    EnvChains(t, e, one, two);
    RegroupDeep(Some(name), Some(two), None, Some(one), Some(t), Some(e));
    Naming.NonStringsIgnored([Some(name), Some(two)], [Some(one), Some(t), Some(e)], sep);
  }

  lemma RegroupDeep<T>(a: T, x: T, n: T, b: T, c: T, d: T)
    ensures [a] + ([x] + ([n] + ([b] + []))) + [c, d] == [a, x] + [n] + [b, c, d]
    ensures [a, x] + [b, c, d] == [a, x, b, c, d]
  {
  }

  lemma DemoQA()
    ensures Words("Demo") == ["demo"] && Words("QA") == ["qa"]
  {
    LowerAllIs("Demo", "demo");
    SingleWord("Demo");
    LowerAllIs("QA", "qa");
    SingleWord("QA");
  }

  lemma OneTwo()
    ensures Words("One") == ["one"] && Words("Two") == ["two"]
  {
    LowerAllIs("One", "one");
    SingleWord("One");
    LowerAllIs("Two", "two");
    SingleWord("Two");
  }

  lemma ChildConstruct()
    ensures Words("Child Construct") == ["child", "construct"]
  {
    ChildConstructText();
    ChildConstructLower();
    TwoWords("Child", "Construct");
  }

  lemma ChildConstructText()
    ensures "Child" + " " + "Construct" == "Child Construct"
  {
  }

  lemma ChildConstructLower()
    ensures LowerAll("Child") == "child" && LowerAll("Construct") == "construct"
  {
    LowerAllIs("Child", "child");
    LowerAllIs("Construct", "construct");
  }

  lemma NestedConstruct()
    ensures Words("Nested Construct") == ["nested", "construct"]
  {
    NestedConstructText();
    NestedConstructLower();
    TwoWords("Nested", "Construct");
  }

  lemma NestedConstructText()
    ensures "Nested" + " " + "Construct" == "Nested Construct"
  {
  }

  lemma NestedConstructLower()
    ensures LowerAll("Nested") == "nested" && LowerAll("Construct") == "construct"
  {
    LowerAllIs("Nested", "nested");
    LowerAllIs("Construct", "construct");
  }

  lemma DeeplyNestedConstruct()
    ensures Words("Deeply Nested Construct") == ["deeply", "nested", "construct"]
  {
    DeeplyNestedConstructText();
    DeeplyLower();
    NestedConstructLower();
    ThreeWords("Deeply", "Nested", "Construct");
  }

  lemma DeeplyNestedConstructText()
    ensures "Deeply" + " " + "Nested" + " " + "Construct" == "Deeply Nested Construct"
  {
  }

  lemma DeeplyLower()
    ensures LowerAll("Deeply") == "deeply"
  {
    LowerAllIs("Deeply", "deeply");
  }

  /** Ids of two to five present parts, one part at a time. */
  lemma StringifyTwo(a: string, b: string, sep: string)
    requires '$' !in sep
    ensures Naming.Stringify([Some(a)] + [Some(b)], sep) == Join(Words(a), sep) + sep + Join(Words(b), sep)
  {
    Naming.StringifyOne(b, sep);
    Naming.StringifyCons(a, [Some(b)], sep);
  }

  lemma StringifyThree(a: string, b: string, c: string, sep: string)
    requires '$' !in sep
    ensures Naming.Stringify([Some(a)] + ([Some(b)] + [Some(c)]), sep)
         == Join(Words(a), sep) + sep + (Join(Words(b), sep) + sep + Join(Words(c), sep))
  {
    StringifyTwo(b, c, sep);
    Naming.StringifyCons(a, [Some(b)] + [Some(c)], sep);
  }

  lemma StringifyFour(a: string, b: string, c: string, d: string, sep: string)
    requires '$' !in sep
    ensures Naming.Stringify([Some(a)] + ([Some(b)] + ([Some(c)] + [Some(d)])), sep)
         == Join(Words(a), sep) + sep + (Join(Words(b), sep) + sep + (Join(Words(c), sep) + sep + Join(Words(d), sep)))
  {
    StringifyThree(b, c, d, sep);
    Naming.StringifyCons(a, [Some(b)] + ([Some(c)] + [Some(d)]), sep);
  }

  lemma StringifyFive(a: string, b: string, c: string, d: string, e: string, sep: string)
    requires '$' !in sep
    ensures Naming.Stringify([Some(a)] + ([Some(b)] + ([Some(c)] + ([Some(d)] + [Some(e)]))), sep)
         == Join(Words(a), sep) + sep + (Join(Words(b), sep) + sep + (Join(Words(c), sep) + sep + (Join(Words(d), sep) + sep + Join(Words(e), sep))))
  {
    StringifyFour(b, c, d, e, sep);
    Naming.StringifyCons(a, [Some(b)] + ([Some(c)] + ([Some(d)] + [Some(e)])), sep);
  }

  /** A stack with a type and an env: the name's words, the type's, then the
      env's, each part's joined by the separator. */
  lemma StackIdOfWords(s: BaseStack.BaseStack, name: string, sep: string)
    requires '$' !in sep && s.stackType.Some? && s.stackEnv.Some?
    ensures BaseStack.ScopedId(s, name, sep)
         == Join(Words(name), sep) + sep + (Join(Words(s.stackType.value), sep) + sep + Join(Words(s.stackEnv.value), sep))
  {
    Naming.ScopedIdIsStringify([Some(name), s.stackType, s.stackEnv], sep);
    ThreeParts(Some(name), s.stackType, s.stackEnv);
    StringifyThree(name, s.stackType.value, s.stackEnv.value, sep);
  }

  lemma PlainIdOfWords(sep: string, name: string, t: string, e: string)
    requires '$' !in sep
    ensures BaseConstruct.ScopedId(PlainPath(t, e), name, sep)
         == Some(Join(Words(name), sep) + sep + (Join(Words(t), sep) + sep + Join(Words(e), sep)))
  {
    ConstructHelperPlain(sep, name, t, e);
    ThreeParts(Some(name), Some(t), Some(e));
    StringifyThree(name, t, e, sep);
  }

  lemma SkippedIdOfWords(sep: string, name: string, one: string, t: string, e: string)
    requires '$' !in sep
    ensures BaseConstruct.ScopedId(SkippedPath(t, e, one), name, sep)
         == Some(Join(Words(name), sep) + sep + (Join(Words(one), sep) + sep + (Join(Words(t), sep) + sep + Join(Words(e), sep))))
  {
    ConstructHelperNested(sep, name, one, t, e);
    FourParts(Some(name), Some(one), Some(t), Some(e));
    StringifyFour(name, one, t, e, sep);
  }

  lemma DeepIdOfWords(sep: string, name: string, two: string, one: string, t: string, e: string)
    requires '$' !in sep
    ensures BaseConstruct.ScopedId(NestedPath(t, e, one, two), name, sep)
         == Some(Join(Words(name), sep) + sep + (Join(Words(two), sep) + sep + (Join(Words(one), sep) + sep + (Join(Words(t), sep) + sep + Join(Words(e), sep)))))
  {
    ConstructHelperDeep(sep, name, two, one, t, e);
    FiveParts(Some(name), Some(two), Some(one), Some(t), Some(e));
    StringifyFive(name, two, one, t, e, sep);
  }

  /** A display of parts, regrouped as one part followed by the rest. */
  lemma ThreeParts<T>(a: T, b: T, c: T)
    ensures [a, b, c] == [a] + ([b] + [c])
  {
  }

  lemma FourParts<T>(a: T, b: T, c: T, d: T)
    ensures [a, b, c, d] == [a] + ([b] + ([c] + [d]))
  {
  }

  lemma FiveParts<T>(a: T, b: T, c: T, d: T, e: T)
    ensures [a, b, c, d, e] == [a] + ([b] + ([c] + ([d] + [e])))
  {
  }

  /** The test's own values for `stack.__("Child Construct")` with
      `stackType: "Demo"` and `stackEnv: "QA"`: "child-construct-demo-qa",
      and "child_construct_demo_qa" with "_" (test/base.test.ts, lines
      45-61). */
  lemma StackHelperChildLiteral(app: seq<Scope>)
    ensures BaseStack.ScopedId(BaseStack.Create(app, "stack", Some(BaseStack.StackProps(Some("Demo"), Some("QA"), None))), "Child Construct", "-")
      == "child-construct-demo-qa"
    ensures BaseStack.ScopedId(BaseStack.Create(app, "stack", Some(BaseStack.StackProps(Some("Demo"), Some("QA"), None))), "Child Construct", "_")
      == "child_construct_demo_qa"
  {
    var s := BaseStack.Create(app, "stack", Some(BaseStack.StackProps(Some("Demo"), Some("QA"), None)));
    assert s.stackType == Some("Demo") && s.stackEnv == Some("QA");
    StackIdOfWords(s, "Child Construct", "-");
    StackIdOfWords(s, "Child Construct", "_");
    ChildConstruct();
    DemoQA();
    JoinTwo("child", "construct", "-");
    JoinTwo("child", "construct", "_");
    ChildText();
  }

  lemma ChildText()
    ensures "child" + "-" + "construct" + "-" + ("demo" + "-" + "qa") == "child-construct-demo-qa"
    ensures "child" + "_" + "construct" + "_" + ("demo" + "_" + "qa") == "child_construct_demo_qa"
  {
  }

  /** The test's own values for `child.__("Nested Construct")`:
      "nested-construct-demo-qa", and "nested_construct_demo_qa" with "_"
      (test/base.test.ts, lines 50-61). */
  lemma ConstructHelperPlainLiteral()
    ensures BaseConstruct.ScopedId(PlainPath("Demo", "QA"), "Nested Construct", "-") == Some("nested-construct-demo-qa")
    ensures BaseConstruct.ScopedId(PlainPath("Demo", "QA"), "Nested Construct", "_") == Some("nested_construct_demo_qa")
  {
    PlainIdOfWords("-", "Nested Construct", "Demo", "QA");
    PlainIdOfWords("_", "Nested Construct", "Demo", "QA");
    NestedConstruct();
    DemoQA();
    JoinTwo("nested", "construct", "-");
    JoinTwo("nested", "construct", "_");
    PlainText();
  }

  lemma PlainText()
    ensures "nested" + "-" + "construct" + "-" + ("demo" + "-" + "qa") == "nested-construct-demo-qa"
    ensures "nested" + "_" + "construct" + "_" + ("demo" + "_" + "qa") == "nested_construct_demo_qa"
  {
  }

  /** The test's own value for `skipped.__("Nested Construct")`:
      "nested-construct-one-demo-qa", and "nested_construct_one_demo_qa"
      with "_" (test/base.test.ts, lines 62-74). */
  lemma ConstructHelperNestedLiteral()
    ensures BaseConstruct.ScopedId(SkippedPath("Demo", "QA", "One"), "Nested Construct", "-") == Some("nested-construct-one-demo-qa")
    ensures BaseConstruct.ScopedId(SkippedPath("Demo", "QA", "One"), "Nested Construct", "_") == Some("nested_construct_one_demo_qa")
  {
    SkippedIdOfWords("-", "Nested Construct", "One", "Demo", "QA");
    SkippedIdOfWords("_", "Nested Construct", "One", "Demo", "QA");
    NestedConstruct();
    DemoQA();
    OneTwo();
    JoinTwo("nested", "construct", "-");
    JoinTwo("nested", "construct", "_");
    SkippedText();
  }

  lemma SkippedText()
    ensures "nested" + "-" + "construct" + "-" + ("one" + "-" + ("demo" + "-" + "qa")) == "nested-construct-one-demo-qa"
    ensures "nested" + "_" + "construct" + "_" + ("one" + "_" + ("demo" + "_" + "qa")) == "nested_construct_one_demo_qa"
  {
  }

  /** The test's own value for `nested.__("Deeply Nested Construct")`:
      "deeply-nested-construct-two-one-demo-qa", and
      "deeply_nested_construct_two_one_demo_qa" with "_"
      (test/base.test.ts, lines 62-74). */
  lemma ConstructHelperDeepLiteral()
    ensures BaseConstruct.ScopedId(NestedPath("Demo", "QA", "One", "Two"), "Deeply Nested Construct", "-")
         == Some("deeply-nested-construct-two-one-demo-qa")
    ensures BaseConstruct.ScopedId(NestedPath("Demo", "QA", "One", "Two"), "Deeply Nested Construct", "_")
         == Some("deeply_nested_construct_two_one_demo_qa")
  {
    DeepIdOfWords("-", "Deeply Nested Construct", "Two", "One", "Demo", "QA");
    DeepIdOfWords("_", "Deeply Nested Construct", "Two", "One", "Demo", "QA");
    DeeplyNestedConstruct();
    DemoQA();
    OneTwo();
    JoinThree("deeply", "nested", "construct", "-");
    JoinThree("deeply", "nested", "construct", "_");
    DeepText();
    DeepUnderscoreText();
  }

  lemma DeepText()
    ensures "deeply" + "-" + "nested" + "-" + "construct" + "-" + ("two" + "-" + ("one" + "-" + ("demo" + "-" + "qa")))
         == "deeply-nested-construct-two-one-demo-qa"
  {
  }

  lemma DeepUnderscoreText()
    ensures "deeply" + "_" + "nested" + "_" + "construct" + "_" + ("two" + "_" + ("one" + "_" + ("demo" + "_" + "qa")))
         == "deeply_nested_construct_two_one_demo_qa"
  {
  }

  lemma JoinTwo(a: string, b: string, sep: string)
    ensures Join([a, b], sep) == a + sep + b
  {
    assert [a, b][1..] == [b];
  }

  lemma JoinThree(a: string, b: string, c: string, sep: string)
    ensures Join([a, b, c], sep) == a + sep + b + sep + c
  {
    assert [a, b, c][1..] == [b, c];
    JoinTwo(b, c, sep);
  }

  /** The scopes a stack of src/root.ts sees: the app, the `Project`
      pipeline named `appName`, and a `Phase` stage built with empty props. */
  function RootStagePath(appName: string, stage: string): seq<Scope> {
    [OtherStage] + [Pipeline(appName)] + [BaseStage.Create(stage, Some(BaseStage.StageProps(None)))]
  }

  /** Every stack of src/root.ts is named after the app and its phase only
      ("<app>-sandbox", "<app>-production"): the phases are single, so the
      stack's own id ("hello-world") is dropped. */
  lemma RootAppStackIds(appName: string, stage: string, id: string)
    requires Words(appName) != [] && IsWord(stage)
    ensures BaseStack.StackId(RootStagePath(appName, stage), id) == Join(Words(appName) + [stage], "-")
  {
    RootAppStackParts(appName, stage, id);
    StringifyTwo(appName, stage, "-");
    WordsOfWord(stage);
    Naming.JoinAppend(Words(appName), [stage], "-");
  }

  lemma RootAppStackParts(appName: string, stage: string, id: string)
    ensures BaseStack.StackId(RootStagePath(appName, stage), id) == Naming.Stringify([Some(appName)] + [Some(stage)], "-")
  {
    var path := RootStagePath(appName, stage);
    assert path[1] == Pipeline(appName) && path[2] == Stage(stage, true);
    BaseStack.StackIdFromNearest(path, id, 1, 2);
    RegroupStackParts(Some(appName), Some(stage));
    Naming.NonStringsIgnored([Some(appName)], [Some(stage)], "-");
  }

  lemma RegroupStackParts(a: Option<string>, s: Option<string>)
    ensures [a, None, s] == [a] + [None] + [s]
  {
  }
}
