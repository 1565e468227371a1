/** The rule the setup script uses to rewrite package.json, cdk.context.json
    and cdk.json (lib/scripts/bootstrap.ts, `writeJson`): the file's JSON,
    or `{}` when it cannot be read or parsed, receives every property of
    `data` through `Object.assign`. */
module ConfigMerge {
  import opened Wrappers
  import opened JsStrings

  /** A JSON value; numbers are modelled as integers. */
  datatype Json =
    | JNull
    | JBool(b: bool)
    | JNumber(n: int)
    | JString(s: string)
    | JArray(items: seq<Json>)
    | JObject(members: Members)

  /** An object's own properties in enumeration order. */
  type Members = seq<(string, Json)>

  function Keys(m: Members): (ks: seq<string>)
    ensures |ks| == |m|
    ensures forall i :: 0 <= i < |m| ==> ks[i] == m[i].0
  {
    seq(|m|, i requires 0 <= i < |m| => m[i].0)
  }

  /** A JavaScript object never holds a key twice. */
  predicate DistinctKeys(m: Members) {
    forall i, j :: 0 <= i < j < |m| ==> m[i].0 != m[j].0
  }

  /** Where the property `k` sits, if `m` has it. */
  function KeyIndex(m: Members, k: string): (r: Option<nat>)
    ensures r.Some? ==> r.value < |m| && m[r.value].0 == k
    ensures r.Some? ==> forall j :: 0 <= j < r.value ==> m[j].0 != k
    ensures r.None? ==> forall j :: 0 <= j < |m| ==> m[j].0 != k
  {
    if m == [] then None
    else if m[0].0 == k then Some(0)
    else match KeyIndex(m[1..], k)
      case None => None
      case Some(i) => Some(i + 1)
  }

  /** `m[k]`, `None` for `undefined`. */
  function Get(m: Members, k: string): Option<Json> {
    match KeyIndex(m, k)
    case None => None
    case Some(i) => Some(m[i].1)
  }

  /** `m[k] = v`: an existing property keeps its place, a new one goes
      last; no other property changes. */
  function Set(m: Members, k: string, v: Json): (r: Members)
    ensures Get(r, k) == Some(v)
    ensures forall k' :: k' != k ==> Get(r, k') == Get(m, k')
    ensures Keys(r) == if k in Keys(m) then Keys(m) else Keys(m) + [k]
    ensures DistinctKeys(m) ==> DistinctKeys(r)
  {
    match KeyIndex(m, k)
    case Some(i) =>
      var r := m[i := (k, v)];
      KeyIndexIs(r, k, i);
      forall k' | k' != k ensures Get(r, k') == Get(m, k') {
        SameKeysSameIndex(m, r, k');
      }
      assert Keys(r) == Keys(m);
      r
    case None =>
      var r := m + [(k, v)];
      KeyIndexIs(r, k, |m|);
      forall k' | k' != k ensures Get(r, k') == Get(m, k') {
        GetSnoc(m, (k, v), k');
      }
      assert Keys(r) == Keys(m) + [k];
      r
  }

  /** The first property named `k` is where `k` is found. */
  lemma KeyIndexIs(m: Members, k: string, i: nat)
    requires i < |m| && m[i].0 == k
    requires forall j :: 0 <= j < i ==> m[j].0 != k
    ensures KeyIndex(m, k) == Some(i)
  {
    var key := m[i].0;
    assert KeyIndex(m, k).None? ==> key != k;
  }

  /** Properties are found by key alone: two objects with the same keys in
      the same order find `k` at the same place. */
  lemma SameKeysSameIndex(m: Members, r: Members, k: string)
    requires |m| == |r| && forall i :: 0 <= i < |m| ==> m[i].0 == r[i].0
    ensures KeyIndex(m, k) == KeyIndex(r, k)
  {
    match KeyIndex(m, k)
    case None =>
    case Some(i) =>
      assert r[i].0 == k;
  }

  /** Appending a property with another key does not change what `k` reads. */
  lemma GetSnoc(m: Members, p: (string, Json), k: string)
    requires p.0 != k
    ensures Get(m + [p], k) == Get(m, k)
  {
    match KeyIndex(m, k)
    case None =>
    case Some(i) =>
      assert (m + [p])[i] == m[i];
  }

  /** `Object.assign(target, source)` as a specification: the properties
      of `source` set one after the other, in order. */
  function Merge(target: Members, source: Members): Members
    decreases |source|
  {
    if source == [] then target
    else
      var p := Last(source);
      Set(Merge(target, source[..|source| - 1]), p.0, p.1)
  }

  /** `Object.assign(content, data)`: copies the properties of `source`
      onto `target` one at a time. */
  method Assign(target: Members, source: Members) returns (r: Members)
    ensures r == Merge(target, source)
  {
    r := target;
    var i := 0;
    while i < |source|
      invariant 0 <= i <= |source|
      invariant r == Merge(target, source[..i])
    {
      assert source[..i + 1][..i] == source[..i];
      r := Set(r, source[i].0, source[i].1);
      i := i + 1;
    }
    assert source[..|source|] == source;
  }

  /** After the merge every key of `data` reads its value from `data`, and
      every other key reads what it read before: the merge is shallow, so a
      nested object in `data` replaces the old one whole. */
  lemma {:induction false} MergeGet(target: Members, source: Members, k: string)
    requires DistinctKeys(source)
    ensures Get(Merge(target, source), k) == if k in Keys(source) then Get(source, k) else Get(target, k)
    decreases |source|
  {
    if source != [] {
      var s' := source[..|source| - 1];
      if k == Last(source).0 {
        MergeGetLastKey(target, source);
      } else {
        assert DistinctKeys(s');
        MergeGet(target, s', k);
        MergeGetOtherKey(target, source, k);
      }
    }
  }

  /** The last property of `source` is read from `source`. */
  lemma MergeGetLastKey(target: Members, source: Members)
    requires source != [] && DistinctKeys(source)
    ensures Get(Merge(target, source), Last(source).0) == Some(Last(source).1)
    ensures Last(source).0 in Keys(source)
    ensures Get(source, Last(source).0) == Some(Last(source).1)
  {
    var n := |source| - 1;
    assert Keys(source)[n] == source[n].0;
    KeyIndexIs(source, source[n].0, n);
  }

  /** Any other key reads as it did before the last property was set. */
  lemma MergeGetOtherKey(target: Members, source: Members, k: string)
    requires source != [] && k != Last(source).0
    ensures Get(Merge(target, source), k) == Get(Merge(target, source[..|source| - 1]), k)
    ensures k in Keys(source) <==> k in Keys(source[..|source| - 1])
    ensures Get(source, k) == Get(source[..|source| - 1], k)
  {
    var s', p := source[..|source| - 1], Last(source);
    assert source == s' + [p] by {
      FrontAndLast(source);
    }
    assert Keys(source) == Keys(s') + [p.0];
    GetSnoc(s', p, k);
  }

  /** The keys `ks` adds to `known`, in their order. */
  function NewKeys(known: seq<string>, ks: seq<string>): (r: seq<string>)
    ensures forall i :: 0 <= i < |r| ==> r[i] in ks && r[i] !in known
    decreases |ks|
  {
    if ks == [] then []
    else
      var k := Last(ks);
      NewKeys(known, ks[..|ks| - 1]) + (if k in known then [] else [k])
  }

  /** The merged object keeps the old keys in their order, followed by the
      keys only `data` has, in the order of `data`. */
  lemma {:induction false} MergeKeys(target: Members, source: Members)
    requires DistinctKeys(source)
    ensures Keys(Merge(target, source)) == Keys(target) + NewKeys(Keys(target), Keys(source))
    decreases |source|
  {
    if source != [] {
      var s' := source[..|source| - 1];
      assert DistinctKeys(s');
      MergeKeys(target, s');
      MergeKeysStep(target, source);
    }
  }

  lemma MergeKeysStep(target: Members, source: Members)
    requires source != [] && DistinctKeys(source)
    requires Keys(Merge(target, source[..|source| - 1])) == Keys(target) + NewKeys(Keys(target), Keys(source[..|source| - 1]))
    ensures Keys(Merge(target, source)) == Keys(target) + NewKeys(Keys(target), Keys(source))
  {
    var s', p := source[..|source| - 1], Last(source);
    var known := Keys(target);
    var nk := NewKeys(known, Keys(s'));
    NewKeysSnoc(known, source);
    assert Keys(Merge(target, source)) == if p.0 in known then known + nk else known + nk + [p.0];
    if p.0 in known {
      assert nk + [] == nk;
    } else {
      Assoc(known, nk, [p.0]);
    }
  }

  /** The last key of `source` is new exactly when `known` lacks it. */
  lemma NewKeysSnoc(known: seq<string>, source: Members)
    requires source != [] && DistinctKeys(source)
    ensures NewKeys(known, Keys(source))
      == NewKeys(known, Keys(source[..|source| - 1])) + (if Last(source).0 in known then [] else [Last(source).0])
    ensures Last(source).0 !in NewKeys(known, Keys(source[..|source| - 1]))
  {
    var s' := source[..|source| - 1];
    assert Keys(source)[..|source| - 1] == Keys(s');
    assert forall i :: 0 <= i < |s'| ==> Keys(s')[i] != Last(source).0;
  }

  /** Merging into an object whose keys are distinct keeps them distinct. */
  lemma {:induction false} MergeDistinct(target: Members, source: Members)
    requires DistinctKeys(target)
    ensures DistinctKeys(Merge(target, source))
    decreases |source|
  {
    if source != [] {
      MergeDistinct(target, source[..|source| - 1]);
    }
  }

  /** The error `Object.assign` throws for a `null` target. */
  const NullTarget: string := "Cannot convert undefined or null to object"

  /** What `writeJson` writes, given the file's parsed JSON (`None` when
      the file cannot be read or parsed): an object gets the properties of
      `data`; any other non-null value is written back as it was, since its
      wrapper's new properties are not serialised; `null` throws. */
  function Written(original: Option<Json>, data: Members): Result<Json, string> {
    match original.GetOr(JObject([]))
    case JObject(m) => Ok(JObject(Merge(m, data)))
    case JNull => Err(NullTarget)
    case other => Ok(other)
  }

  /** `writeJson(url, data)` past the file read. */
  method WriteJson(original: Option<Json>, data: Members) returns (r: Result<Json, string>)
    ensures r == Written(original, data)
  {
    var content := if original.Some? then original.value else JObject([]);
    if content.JObject? {
      var merged := Assign(content.members, data);
      r := Ok(JObject(merged));
    } else if content.JNull? {
      r := Err(NullTarget);
    } else {
      r := Ok(content);
    }
  }

  /** A file that cannot be read or parsed is replaced by `data` itself:
      the same keys, in the same order, with the same values. */
  lemma UnreadableFileIsData(data: Members, k: string)
    requires DistinctKeys(data)
    ensures Written(None, data).Ok? && Written(None, data).value.JObject?
    ensures Keys(Written(None, data).value.members) == Keys(data)
    ensures Get(Written(None, data).value.members, k) == Get(data, k)
  {
    var w := Merge([], data);
    assert Written(None, data) == Ok(JObject(w));
    MergeKeys([], data);
    assert Keys([]) == [];
    NewKeysOfNone(Keys(data));
    assert Keys(w) == [] + Keys(data);
    MergeGet([], data, k);
  }

  lemma {:induction false} NewKeysOfNone(ks: seq<string>)
    ensures NewKeys([], ks) == ks
    decreases |ks|
  {
    if ks != [] {
      var front := ks[..|ks| - 1];
      NewKeysOfNone(front);
      assert NewKeys([], ks) == NewKeys([], front) + [Last(ks)];
      FrontAndLast(ks);
    }
  }

  /** An existing object file: every key of `data` reads its value from
      `data` afterwards, every other key is left alone. */
  lemma ObjectFileMerged(m: Members, data: Members, k: string)
    requires DistinctKeys(data)
    ensures Written(Some(JObject(m)), data) == Ok(JObject(Merge(m, data)))
    ensures Get(Merge(m, data), k) == if k in Keys(data) then Get(data, k) else Get(m, k)
  {
    MergeGet(m, data, k);
  }
}
