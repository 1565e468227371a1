/** `BasePipeline` (lib/base/app/pipeline.ts): a stack named `<id>-pipeline`
    that remembers `id` as the app name, resolves the source repository,
    branch and token name through `??` fallbacks, decides where the root
    hosted zone comes from, and makes a logs bucket when asked to. */
module BasePipeline {
  import opened Wrappers
  import opened Slugify
  import opened Scopes
  import opened Naming

  /** The `rootZone` prop: a boolean, or an object. An object's fields are
      `None` when the key is absent; IHostedZone and HostedZoneAttributes
      objects both carry the two keys. */
  datatype RootZone =
    | Flag(on: bool)
    | ZoneObject(hostedZoneId: Option<string>, zoneName: Option<string>)

  /** The props the model follows; `None` fields are props not given. */
  datatype PipelineProps = PipelineProps(
    logs: Option<bool>,
    repo: Option<string>,
    branch: Option<string>,
    tokenName: Option<string>,
    rootZone: Option<RootZone>,
    hostedZoneId: Option<string>,
    zoneName: Option<string>)

  /** The values `tryGetContext` returns for the keys the constructor reads
      (`PIPELINE_REPO`, `PIPELINE_BRANCH`, `PIPELINE_TOKEN_NAME`); `None` for
      a key that is not set. */
  datatype Context = Context(repo: Option<string>, branch: Option<string>, tokenName: Option<string>)

  /** The static defaults `BasePipeline.rootZone` and `BasePipeline.logs`. */
  const DefaultRootZone: bool := false
  const DefaultLogs: bool := true
  const DefaultBranch: string := "main"
  const DefaultTokenName: string := "github-oauth-token"

  /** Where the hosted zone comes from. */
  datatype ZoneSource =
    | FromProps(hostedZoneId: string, zoneName: string)       // `hostedZoneId` and `zoneName` props
    | FromRootZone(hostedZoneId: string, zoneName: string)    // the attributes of a `rootZone` object
    | ReuseRootZone(hostedZoneId: string, zoneName: string)   // the `rootZone` object itself

  /** A string is truthy when it is given and not empty. */
  predicate Truthy(v: Option<string>) {
    v.Some? && v.value != ""
  }

  /** `props ?? {rootZone: BasePipeline.rootZone, logs: BasePipeline.logs}`. */
  function EffectiveProps(props: Option<PipelineProps>): (p: PipelineProps)
    ensures props.Some? ==> p == props.value
    ensures props.None? ==> p.rootZone == Some(Flag(DefaultRootZone)) && p.logs == Some(DefaultLogs)
    ensures props.None? ==> p.repo.None? && p.branch.None? && p.tokenName.None? && p.hostedZoneId.None? && p.zoneName.None?
  {
    match props
    case Some(p) => p
    case None => PipelineProps(Some(DefaultLogs), None, None, None, Some(Flag(DefaultRootZone)), None, None)
  }

  /** `"hostedZoneId" in o && "zoneName" in o`, the body of both `isZoneLookup`
      and `isZone`; `in` on `true` is a TypeError. */
  function HasZoneKeys(z: RootZone): (r: Result<bool, string>)
    ensures r.Err? <==> z == Flag(true)
    ensures r.Ok? && r.value ==> z.ZoneObject? && z.hostedZoneId.Some? && z.zoneName.Some?
  {
    match z
    case Flag(b) =>
      if b then Err("TypeError: Cannot use 'in' operator to search for 'hostedZoneId' in true") else Ok(false)
    case ZoneObject(id, name) => Ok(id.Some? && name.Some?)
  }

  /** A `rootZone` value is truthy unless it is `false`. */
  predicate TruthyZone(z: Option<RootZone>) {
    z.Some? && z.value != Flag(false)
  }

  /** The hosted-zone decision as written: `rootZone === true` with both props
      set takes the props; otherwise a truthy `rootZone` is probed with `in`,
      which throws for `true`. */
  function HostedZoneAsWritten(p: PipelineProps): (r: Result<Option<ZoneSource>, string>)
    ensures r.Err? <==> p.rootZone == Some(Flag(true)) && !(Truthy(p.hostedZoneId) && Truthy(p.zoneName))
  {
    var hid, zn := p.hostedZoneId, p.zoneName;
    if p.rootZone == Some(Flag(true)) && Truthy(hid) && Truthy(zn) then
      Ok(Some(FromProps(hid.value, zn.value)))
    else if TruthyZone(p.rootZone) then
      var z := p.rootZone.value;
      match HasZoneKeys(z)
      case Err(e) => Err(e)
      case Ok(isLookup) =>
        if isLookup && !Truthy(hid) && !Truthy(zn) then
          Ok(Some(FromRootZone(z.hostedZoneId.value, z.zoneName.value)))
        else if isLookup && !Truthy(hid) && !Truthy(zn) then
          Ok(Some(ReuseRootZone(z.hostedZoneId.value, z.zoneName.value)))
        else Ok(None)
    else Ok(None)
  }

  /** The third branch, which would reuse the `rootZone` object itself, is
      dead: its condition is the second branch's. */
  lemma ReuseNeverChosen(p: PipelineProps)
    ensures !(HostedZoneAsWritten(p).Ok? && HostedZoneAsWritten(p).value.Some?
              && HostedZoneAsWritten(p).value.value.ReuseRootZone?)
  {
  }

  /** The app in src/root.ts passes `{rootZone: true}` with neither id prop,
      so the constructor throws. */
  lemma RootAppThrows(id: string, ctx: Context)
    ensures HostedZoneAsWritten(PipelineProps(None, None, None, None, Some(Flag(true)), None, None)).Err?
    ensures Create(id, Some(PipelineProps(None, None, None, None, Some(Flag(true)), None, None)), ctx).Err?
  {
  }

  /** The decision with the TypeError removed: `rootZone === true` without
      both props gives no zone, and only an object is probed for keys. */
  function HostedZoneDecision(p: PipelineProps): (r: Option<ZoneSource>)
    ensures r.Some? && r.value.FromProps? <==>
      p.rootZone == Some(Flag(true)) && Truthy(p.hostedZoneId) && Truthy(p.zoneName)
    ensures r.Some? && r.value.FromProps? ==> r.value == FromProps(p.hostedZoneId.value, p.zoneName.value)
    ensures r.Some? && r.value.FromRootZone? <==>
      p.rootZone.Some? && p.rootZone.value.ZoneObject?
      && p.rootZone.value.hostedZoneId.Some? && p.rootZone.value.zoneName.Some?
      && !Truthy(p.hostedZoneId) && !Truthy(p.zoneName)
    ensures r.Some? && r.value.FromRootZone? ==>
      r.value == FromRootZone(p.rootZone.value.hostedZoneId.value, p.rootZone.value.zoneName.value)
    ensures r.Some? ==> !r.value.ReuseRootZone?
  {
    var hid, zn := p.hostedZoneId, p.zoneName;
    if p.rootZone == Some(Flag(true)) then
      if Truthy(hid) && Truthy(zn) then Some(FromProps(hid.value, zn.value)) else None
    else if p.rootZone.Some? && p.rootZone.value.ZoneObject? then
      var z := p.rootZone.value;
      if z.hostedZoneId.Some? && z.zoneName.Some? && !Truthy(hid) && !Truthy(zn) then
        Some(FromRootZone(z.hostedZoneId.value, z.zoneName.value))
      else None
    else None
  }

  /** Wherever the code as written does not throw, the corrected decision
      is the same. */
  lemma DecisionAgrees(p: PipelineProps)
    ensures HostedZoneAsWritten(p).Ok? ==> HostedZoneAsWritten(p).value == HostedZoneDecision(p)
  {
  }

  /** A constructed pipeline: its stack id and `_app_name`, the pipeline
      name, the scoped ids of its children, the source settings, the zone
      decision and the id of the logs bucket when one is made. */
  datatype BasePipeline = BasePipeline(
    stackId: string,
    appName: string,
    pipelineName: string,
    pipelineId: string,
    synthId: string,
    repo: Option<string>,
    branch: string,
    tokenName: string,
    hostedZone: Option<ZoneSource>,
    hostedZoneConstructId: Option<string>,
    logsId: Option<string>)

  /** `__(name, separator)`: the app name and the name, trimmed, slugified,
      joined and separator-substituted. */
  function ScopedId(appName: string, name: string, sep: string): string {
    Naming.ScopedId([Some(appName), Some(name)], sep)
  }

  /** `prop ?? context ?? fallback`, how the source settings are chosen: a
      prop wins over the context, and the context over the fallback. */
  function Setting<T>(prop: Option<T>, context: Option<T>, fallback: T): (r: T)
    ensures prop.Some? ==> r == prop.value
    ensures prop.None? && context.Some? ==> r == context.value
    ensures prop.None? && context.None? ==> r == fallback
  {
    prop.OrElse(context).GetOr(fallback)
  }

  /** The pipeline the constructor builds once the hosted zone is decided:
      names, source settings and child ids from the props, the context and
      the defaults. */
  function Build(id: string, props: Option<PipelineProps>, ctx: Context, zone: Option<ZoneSource>): (r: BasePipeline)
    ensures r.stackId == id + "-pipeline" && r.pipelineName == id + "-pipeline"
    ensures r.appName == id
    ensures r.pipelineId == ScopedId(id, "pipeline", "-") && r.synthId == ScopedId(id, "synth", "-")
    ensures r.repo == if props.Some? && props.value.repo.Some? then props.value.repo else ctx.repo
    ensures r.branch == Setting(EffectiveProps(props).branch, ctx.branch, DefaultBranch)
    ensures r.tokenName == Setting(EffectiveProps(props).tokenName, ctx.tokenName, DefaultTokenName)
    ensures r.hostedZone == zone
    ensures r.hostedZoneConstructId.Some? <==> zone.Some?
    ensures r.hostedZoneConstructId.Some? ==> r.hostedZoneConstructId.value == ScopedId(id, "root hosted zone", "-")
    ensures r.logsId.Some? <==> props.None? || props.value.logs == Some(true)
    ensures r.logsId.Some? ==> r.logsId.value == ScopedId(id, "logs", "-")
  {
    var p := EffectiveProps(props);
    BasePipeline(
      id + "-pipeline",
      id,
      id + "-pipeline",
      ScopedId(id, "pipeline", "-"),
      ScopedId(id, "synth", "-"),
      p.repo.OrElse(ctx.repo),
      Setting(p.branch, ctx.branch, DefaultBranch),
      Setting(p.tokenName, ctx.tokenName, DefaultTokenName),
      zone,
      if zone.Some? then Some(ScopedId(id, "root hosted zone", "-")) else None,
      if p.logs == Some(true) then Some(ScopedId(id, "logs", "-")) else None)
  }

  /** The constructor as written: it throws exactly where the hosted-zone
      decision does, and otherwise builds the pipeline with the zone the
      corrected decision picks, which is the same zone. */
  function Create(id: string, props: Option<PipelineProps>, ctx: Context): (r: Result<BasePipeline, string>)
    ensures r.Err? <==> HostedZoneAsWritten(EffectiveProps(props)).Err?
    ensures r.Ok? ==> r.value == Build(id, props, ctx, HostedZoneDecision(EffectiveProps(props)))
  {
    var p := EffectiveProps(props);
    DecisionAgrees(p);
    match HostedZoneAsWritten(p)
    case Err(e) => Err(e)
    case Ok(zone) => Ok(Build(id, props, ctx, zone))
  }

  /** The pipeline as a node of the tree its stages and stacks see. */
  function AsScope(p: BasePipeline): Scope {
    Scopes.Pipeline(p.appName)
  }

  /** The ids of a pipeline's children are the app name's words followed by
      the child's own words. */
  lemma ScopedIdWords(appName: string, name: string, sep: string)
    requires |sep| > 0 && '$' !in sep
    requires forall i :: 0 <= i < |sep| ==> !IsAlnum(sep[i])
    ensures Words(ScopedId(appName, name, sep)) == Words(appName) + Words(name)
  {
    var parts := [Some(appName), Some(name)];
    ScopedIdIsStringify(parts, sep);
    IdWords(parts, sep);
    PairIsConcat(Some(appName), Some(name));
    StringsOfAppend([Some(appName)], [Some(name)]);
    StringsOfOne(appName);
    StringsOfOne(name);
    AllWordsAppend([appName], [name]);
    AllWordsOne(appName);
    AllWordsOne(name);
  }

  /** The pipeline, synth, hosted-zone and logs ids of one pipeline are
      pairwise distinct, whatever the app name. */
  lemma ChildIdsDistinct(appName: string)
    ensures ScopedId(appName, "pipeline", "-") != ScopedId(appName, "synth", "-")
    ensures ScopedId(appName, "pipeline", "-") != ScopedId(appName, "logs", "-")
    ensures ScopedId(appName, "synth", "-") != ScopedId(appName, "logs", "-")
    ensures ScopedId(appName, "root hosted zone", "-") != ScopedId(appName, "pipeline", "-")
    ensures ScopedId(appName, "root hosted zone", "-") != ScopedId(appName, "synth", "-")
    ensures ScopedId(appName, "root hosted zone", "-") != ScopedId(appName, "logs", "-")
  {
    ChildWords();
    DifferentLastWord(appName, "pipeline", "synth");
    DifferentLastWord(appName, "pipeline", "logs");
    DifferentLastWord(appName, "synth", "logs");
    DifferentLastWord(appName, "root hosted zone", "pipeline");
    DifferentLastWord(appName, "root hosted zone", "synth");
    DifferentLastWord(appName, "root hosted zone", "logs");
  }

  lemma ChildWords()
    ensures Words("pipeline") == ["pipeline"] && Words("synth") == ["synth"] && Words("logs") == ["logs"]
    ensures Words("root hosted zone") == ["root", "hosted", "zone"]
  {
    ChildWord("pipeline");
    ChildWord("synth");
    ChildWord("logs");
    RootHostedZoneWords();
  }

  /** A one-word child name is its own only word. */
  lemma ChildWord(w: string)
    requires w == "pipeline" || w == "synth" || w == "logs"
    ensures Words(w) == [w]
  {
    assert IsWord(w);
    WordsOfWord(w);
  }

  lemma RootHostedZoneWords()
    ensures Words("root hosted zone") == ["root", "hosted", "zone"]
  {
    RootHostedZoneText();
    RootHostedZoneAreWords();
    ThreeWordsOfWords("root", "hosted", "zone");
  }

  lemma RootHostedZoneText()
    ensures "root" + " " + "hosted" + " " + "zone" == "root hosted zone"
  {
  }

  lemma RootHostedZoneAreWords()
    ensures IsWord("root") && IsWord("hosted") && IsWord("zone")
  {
  }

  /** Two children whose names end in different words get different ids. */
  lemma DifferentLastWord(appName: string, a: string, b: string)
    requires Words(a) != [] && Words(b) != []
    requires Words(a)[|Words(a)| - 1] != Words(b)[|Words(b)| - 1]
    ensures ScopedId(appName, a, "-") != ScopedId(appName, b, "-")
  {
    ScopedIdWords(appName, a, "-");
    ScopedIdWords(appName, b, "-");
    LastDiffers(Words(appName), Words(a), Words(b));
  }

  lemma PairIsConcat<T>(a: T, b: T)
    ensures [a, b] == [a] + [b]
  {
  }

  lemma LastDiffers(w: seq<string>, a: seq<string>, b: seq<string>)
    requires |a| > 0 && |b| > 0 && a[|a| - 1] != b[|b| - 1]
    ensures w + a != w + b
  {
    assert (w + a)[|w + a| - 1] == a[|a| - 1];
    assert (w + b)[|w + b| - 1] == b[|b| - 1];
  }

  /** Without props the pipeline makes a logs bucket and looks up no zone;
      with props that leave `logs` out it makes no logs bucket. */
  lemma LogsDefaults(id: string, ctx: Context, p: PipelineProps)
    requires p.logs.None?
    ensures Create(id, None, ctx).Ok?
    ensures Create(id, None, ctx).value.logsId.Some? && Create(id, None, ctx).value.hostedZone.None?
    ensures Create(id, Some(p), ctx).Ok? ==> Create(id, Some(p), ctx).value.logsId.None?
  {
  }
}
