/** `BaseStage` (lib/base/app/stage.ts): a stage remembers its id and whether
    its stacks fold the stack id away (`single`). */
module BaseStage {
  import opened Wrappers
  import opened Slugify
  import opened Scopes
  import Naming

  /** The `single` prop; `None` when it is not given. */
  datatype StageProps = StageProps(single: Option<bool>)

  /** The static default `BaseStage.single`. */
  const DefaultSingle: bool := true

  /** The constructor: `_stage` is the id, `_single` the prop or else the
      default. A stage is single unless its props say `single: false`. */
  function Create(id: string, props: Option<StageProps>): (s: Scope)
    ensures s.Stage? && s.stage == id
    ensures !s.single <==> props.Some? && props.value.single == Some(false)
  {
    var single := if props.Some? then props.value.single.GetOr(DefaultSingle) else DefaultSingle;
    Stage(id, single)
  }

  /** `__(name, separator)`: the slug of the trimmed name with every "-"
      replaced by the separator. */
  function ScopedId(name: string, sep: string): (r: string)
    ensures '$' !in sep ==> r == Naming.SubstituteHyphens(Slug(name), sep)
  {
    Naming.ScopedIdIsStringify([Some(name)], sep);
    assert Naming.StringsOf([Some(name)]) == [name];
    Naming.ScopedId([Some(name)], sep)
  }
}
