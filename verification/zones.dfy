/** The hosted-zone question of the setup script (lib/scripts/bootstrap.ts,
    `PIPELINE_ZONE_ID`): its default, a `reduce` over the zones that
    `aws route53 list-hosted-zones` reports, and its choices, the zones
    sorted in place by record count and mapped to `{ name, value }`. The
    command's parsed `HostedZones` are the parameter `zones`. */
module HostedZones {
  import opened JsStrings
  import opened Prompts

  /** A listed zone: `Id` ("/hostedzone/<id>"), `Name` and
      `ResourceRecordSetCount`. */
  datatype HostedZone = HostedZone(id: string, name: string, count: int)

  /** The `reduce` accumulator `{ Name, ResourceRecordSetCount }`, with the
      `Id` of the zone it was taken from (`""` at the start), which only the
      corrected default reads. */
  datatype Acc = Acc(id: string, name: string, count: int)

  const Start: Acc := Acc("", "", 0)

  /** One step of the `reduce`: the zone replaces the accumulator when the
      accumulator has no name yet or the zone has strictly more records. */
  function Step(acc: Acc, z: HostedZone): Acc {
    if acc.name == "" || z.count > acc.count then Acc(z.id, z.name, z.count) else acc
  }

  /** The `reduce` from `{ Name: "", ResourceRecordSetCount: 0 }`, left to
      right. */
  function Reduce(zones: seq<HostedZone>): Acc
    decreases |zones|
  {
    if zones == [] then Start else Step(Reduce(zones[..|zones| - 1]), Last(zones))
  }

  /** The default as written: the `Name` of the zone the `reduce` ends on. */
  function DefaultZoneName(zones: seq<HostedZone>): string {
    Reduce(zones).name
  }

  /** Zone `k` has the most records, and every zone before it strictly
      fewer. */
  predicate IsFirstMax(zones: seq<HostedZone>, k: nat) {
    && k < |zones|
    && (forall j :: 0 <= j < |zones| ==> zones[j].count <= zones[k].count)
    && (forall j :: 0 <= j < k ==> zones[j].count < zones[k].count)
  }

  predicate NamedZones(zones: seq<HostedZone>) {
    forall j :: 0 <= j < |zones| ==> zones[j].name != ""
  }

  /** Every non-empty list has a first maximum. */
  function FirstMax(zones: seq<HostedZone>): (k: nat)
    requires |zones| > 0
    ensures IsFirstMax(zones, k)
    decreases |zones|
  {
    if |zones| == 1 then 0
    else
      var front := zones[..|zones| - 1];
      var k := FirstMax(front);
      assert forall j :: 0 <= j < |front| ==> front[j] == zones[j];
      if Last(zones).count > zones[k].count then |zones| - 1 else k
  }

  /** With named zones, the `reduce` ends on the first zone with the most
      records: a later zone with as many records does not replace it. */
  lemma {:induction false} ReduceIsFirstMax(zones: seq<HostedZone>, k: nat)
    requires NamedZones(zones) && IsFirstMax(zones, k)
    ensures Reduce(zones) == Acc(zones[k].id, zones[k].name, zones[k].count)
    decreases |zones|
  {
    var front, z := zones[..|zones| - 1], Last(zones);
    if front != [] {
      assert forall j :: 0 <= j < |front| ==> front[j] == zones[j];
      var kf := FirstMax(front);
      ReduceIsFirstMax(front, kf);
      if k < |front| {
        assert IsFirstMax(front, k);
        assert kf == k by {
          assert !(kf < k) && !(k < kf);
        }
      }
    }
  }

  /** The default, as written, is the name of the first zone with the most
      records; with no zones it is the empty string. */
  lemma DefaultZoneNameIsFirstMax(zones: seq<HostedZone>, k: nat)
    requires NamedZones(zones) && IsFirstMax(zones, k)
    ensures DefaultZoneName(zones) == zones[k].name
  {
    ReduceIsFirstMax(zones, k);
  }

  lemma NoZonesNoDefault()
    ensures DefaultZoneName([]) == ""
  {
  }

  /** Counts never increase along the list. */
  predicate ByCountDesc(s: seq<HostedZone>) {
    forall i, j :: 0 <= i < j < |s| ==> s[i].count >= s[j].count
  }

  /** Inserts `z` after every zone with at least as many records: where a
      stable sort puts a zone that came after all of `s`. */
  function Insert(z: HostedZone, s: seq<HostedZone>): (r: seq<HostedZone>)
    ensures |r| == |s| + 1
    decreases |s|
  {
    if s == [] then [z]
    else if s[0].count >= z.count then [s[0]] + Insert(z, s[1..])
    else [z] + s
  }

  /** Inserting adds `z` and loses nothing. */
  lemma {:induction false} InsertPermutes(z: HostedZone, s: seq<HostedZone>)
    ensures multiset(Insert(z, s)) == multiset(s) + multiset{z}
    decreases |s|
  {
    if s != [] && s[0].count >= z.count {
      InsertPermutes(z, s[1..]);
      assert s == [s[0]] + s[1..];
    }
  }

  /** The result of sorting with the comparator of the `choices` callback
      (more records first, equal counts compare as 0) by a stable sort, as
      `Array.prototype.sort` is. */
  function SortedByCount(s: seq<HostedZone>): (r: seq<HostedZone>)
    ensures |r| == |s|
    decreases |s|
  {
    if s == [] then [] else Insert(Last(s), SortedByCount(s[..|s| - 1]))
  }

  lemma {:induction false} InsertKeepsOrder(z: HostedZone, s: seq<HostedZone>)
    requires ByCountDesc(s)
    ensures ByCountDesc(Insert(z, s))
    decreases |s|
  {
    if s != [] && s[0].count >= z.count {
      InsertKeepsOrder(z, s[1..]);
      InsertPermutes(z, s[1..]);
      var r := Insert(z, s[1..]);
      forall i | 0 <= i < |r| ensures s[0].count >= r[i].count {
        assert r[i] in multiset(s[1..]) + multiset{z};
        if r[i] != z {
          assert r[i] in multiset(s[1..]);
          var m :| 0 <= m < |s[1..]| && s[1..][m] == r[i];
          assert s[m + 1] == r[i];
        }
      }
    }
  }

  /** The sorted zones have non-increasing counts. */
  lemma {:induction false} SortedIsDesc(s: seq<HostedZone>)
    ensures ByCountDesc(SortedByCount(s))
    decreases |s|
  {
    if s != [] {
      SortedIsDesc(s[..|s| - 1]);
      InsertKeepsOrder(Last(s), SortedByCount(s[..|s| - 1]));
    }
  }

  /** Sorting keeps every zone, as often as it occurs. */
  lemma {:induction false} SortedIsPermutation(s: seq<HostedZone>)
    ensures multiset(SortedByCount(s)) == multiset(s)
    decreases |s|
  {
    if s != [] {
      var front := s[..|s| - 1];
      SortedIsPermutation(front);
      InsertPermutes(Last(s), SortedByCount(front));
      assert multiset(s) == multiset(front) + multiset{Last(s)} by {
        FrontAndLast(s);
      }
    }
  }

  /** The zones with exactly `c` records, in order. */
  function WithCount(s: seq<HostedZone>, c: int): (r: seq<HostedZone>)
    ensures forall i :: 0 <= i < |r| ==> r[i].count == c
    decreases |s|
  {
    if s == [] then []
    else (if s[0].count == c then [s[0]] else []) + WithCount(s[1..], c)
  }

  lemma {:induction false} WithCountAppend(a: seq<HostedZone>, b: seq<HostedZone>, c: int)
    ensures WithCount(a + b, c) == WithCount(a, c) + WithCount(b, c)
    decreases |a|
  {
    if a == [] {
      assert a + b == b;
    } else {
      assert (a + b)[0] == a[0];
      assert (a + b)[1..] == a[1..] + b;
      WithCountAppend(a[1..], b, c);
    }
  }

  lemma {:induction false} NoneWithCount(s: seq<HostedZone>, c: int)
    requires forall i :: 0 <= i < |s| ==> s[i].count < c
    ensures WithCount(s, c) == []
    decreases |s|
  {
    if s != [] {
      NoneWithCount(s[1..], c);
    }
  }

  lemma WithCountCons(x: HostedZone, t: seq<HostedZone>, c: int)
    ensures WithCount([x] + t, c) == (if x.count == c then [x] else []) + WithCount(t, c)
  {
    assert ([x] + t)[0] == x;
    assert ([x] + t)[1..] == t;
  }

  lemma WithCountOne(z: HostedZone, c: int)
    ensures WithCount([z], c) == if z.count == c then [z] else []
  {
    WithCountCons(z, [], c);
    assert [z] + [] == [z];
  }

  lemma {:induction false} InsertIsStable(z: HostedZone, s: seq<HostedZone>, c: int)
    requires ByCountDesc(s)
    ensures WithCount(Insert(z, s), c) == WithCount(s, c) + (if z.count == c then [z] else [])
    decreases |s|
  {
    if s == [] {
      WithCountCons(z, [], c);
    } else if s[0].count >= z.count {
      var t := s[1..];
      var head := if s[0].count == c then [s[0]] else [];
      var tail := if z.count == c then [z] else [];
      assert WithCount(Insert(z, t), c) == WithCount(t, c) + tail by {
        assert ByCountDesc(t);
        InsertIsStable(z, t, c);
      }
      assert WithCount(Insert(z, s), c) == head + WithCount(Insert(z, t), c) by {
        WithCountCons(s[0], Insert(z, t), c);
      }
      assert WithCount(s, c) == head + WithCount(t, c) by {
        assert s == [s[0]] + t;
        WithCountCons(s[0], t, c);
      }
      Assoc(head, WithCount(t, c), tail);
    } else {
      WithCountCons(z, s, c);
      if z.count == c {
        NoneWithCount(s, c);
      }
    }
  }

  /** The sort is stable: the zones with any one count keep their input
      order. */
  lemma {:induction false} SortedIsStable(s: seq<HostedZone>, c: int)
    ensures WithCount(SortedByCount(s), c) == WithCount(s, c)
    decreases |s|
  {
    if s != [] {
      var front, z := s[..|s| - 1], Last(s);
      SortedIsStable(front, c);
      SortedIsDesc(front);
      var sf := SortedByCount(front);
      assert SortedByCount(s) == Insert(z, sf);
      InsertIsStable(z, sf, c);
      FrontAndLast(s);
      WithCountAppend(front, [z], c);
      WithCountOne(z, c);
    }
  }

  lemma {:induction false} WithCountHead(t: seq<HostedZone>, i: nat, c: int)
    requires i < |t| && t[i].count == c
    requires forall j :: 0 <= j < i ==> t[j].count != c
    ensures |WithCount(t, c)| > 0 && WithCount(t, c)[0] == t[i]
    decreases i
  {
    assert t == [t[0]] + t[1..];
    WithCountCons(t[0], t[1..], c);
    if i > 0 {
      WithCountHead(t[1..], i - 1, c);
    }
  }

  /** The first zone after sorting is the first zone with the most records. */
  lemma SortedHeadIsFirstMax(s: seq<HostedZone>, k: nat)
    requires IsFirstMax(s, k)
    ensures |SortedByCount(s)| > 0 && SortedByCount(s)[0] == s[k]
  {
    var r := SortedByCount(s);
    var c := s[k].count;
    SortedIsDesc(s);
    SortedIsPermutation(s);
    assert r[0] in multiset(s);
    var m :| 0 <= m < |s| && s[m] == r[0];
    assert s[k] in multiset(r);
    var n :| 0 <= n < |r| && r[n] == s[k];
    assert r[0].count == c;
    WithCountHead(r, 0, c);
    WithCountHead(s, k, c);
    SortedIsStable(s, c);
  }

  /** Where the stable sort puts a zone that comes after the sorted `s`:
      behind every zone with at least as many records. */
  lemma {:induction false} InsertAt(z: HostedZone, s: seq<HostedZone>, j: nat)
    requires ByCountDesc(s) && j <= |s|
    requires j == 0 || s[j - 1].count >= z.count
    requires forall k :: j <= k < |s| ==> s[k].count < z.count
    ensures Insert(z, s) == s[..j] + [z] + s[j..]
    decreases j
  {
    if j == 0 {
      assert s[..0] == [] && s[0..] == s;
      if s != [] {
        assert s[0].count < z.count;
      }
    } else {
      var t := s[1..];
      assert ByCountDesc(t);
      assert s[0].count >= z.count;
      InsertAt(z, t, j - 1);
      assert s == [s[0]] + t;
      ConsRegroup(s[0], t, j - 1, z);
    }
  }

  lemma ConsRegroup<T>(x: T, t: seq<T>, j: nat, z: T)
    requires j <= |t|
    ensures [x] + (t[..j] + [z] + t[j..]) == ([x] + t)[..j + 1] + [z] + ([x] + t)[j + 1..]
  {
    assert ([x] + t)[..j + 1] == [x] + t[..j];
    assert ([x] + t)[j + 1..] == t[j..];
  }

  /** `HostedZones.sort(...)`: an insertion sort, stable like
      `Array.prototype.sort`, ordering the zones in place by record count,
      most first. */
  method SortByCount(a: array<HostedZone>)
    modifies a
    ensures a[..] == SortedByCount(old(a[..]))
  {
    ghost var input := a[..];
    var i := 0;
    while i < a.Length
      invariant 0 <= i <= a.Length
      invariant a[..i] == SortedByCount(input[..i])
      invariant forall k :: i <= k < a.Length ==> a[k] == input[k]
    {
      SortedIsDesc(input[..i]);
      InsertLast(a, i);
      SortStep(input, i);
      i := i + 1;
    }
    assert input[..a.Length] == input;
  }

  /** One pass of the sort: `a[i]` moves left past every zone of the
      sorted `a[..i]` with fewer records. */
  method InsertLast(a: array<HostedZone>, i: nat)
    requires i < a.Length && ByCountDesc(a[..i])
    modifies a
    ensures a[..i + 1] == Insert(old(a[i]), old(a[..i]))
    ensures forall k :: i < k < a.Length ==> a[k] == old(a[k])
  {
    var z := a[i];
    ghost var sorted := a[..i];
    var j := ShiftRight(a, i, z);
    a[j] := z;
    ghost var target := sorted[..j] + [z] + sorted[j..];
    assert a[..i + 1] == target by {
      forall k | 0 <= k <= i ensures a[k] == target[k] {
        if k < j {
          assert target[k] == sorted[k];
        } else if j < k {
          assert target[k] == sorted[k - 1];
        }
      }
    }
    assert Insert(z, sorted) == target by {
      InsertAt(z, sorted, j);
    }
  }

  /** Moves every zone of `a[..i]` with fewer records than `z`, from the
      right end, one place to the right; `j` is the place left free. */
  method ShiftRight(a: array<HostedZone>, i: nat, z: HostedZone) returns (j: nat)
    requires i < a.Length
    modifies a
    ensures j <= i
    ensures forall k :: 0 <= k < j ==> a[k] == old(a[k])
    ensures forall k :: j < k <= i ==> a[k] == old(a[k - 1])
    ensures forall k :: j <= k < i ==> old(a[k]).count < z.count
    ensures j == 0 || old(a[j - 1]).count >= z.count
    ensures forall k :: i < k < a.Length ==> a[k] == old(a[k])
  {
    j := i;
    while j > 0 && a[j - 1].count < z.count
      invariant 0 <= j <= i
      invariant forall k :: 0 <= k < j ==> a[k] == old(a[k])
      invariant forall k :: j < k <= i ==> a[k] == old(a[k - 1])
      invariant forall k :: j <= k < i ==> old(a[k]).count < z.count
      invariant forall k :: i < k < a.Length ==> a[k] == old(a[k])
    {
      a[j] := a[j - 1];
      j := j - 1;
    }
  }

  lemma SortStep(input: seq<HostedZone>, i: nat)
    requires i < |input|
    ensures SortedByCount(input[..i + 1]) == Insert(input[i], SortedByCount(input[..i]))
  {
    assert input[..i + 1][..i] == input[..i];
  }

  /** `Id.split("/").pop()`: the zone id without its "/hostedzone/" path. */
  function ZoneIdOf(z: HostedZone): string {
    Last(Split(z.id, "/"))
  }

  /** A listed id "/hostedzone/<id>" gives "<id>". */
  lemma ZoneIdOfListedId(z: HostedZone, x: string)
    requires z.id == "/hostedzone/" + x && '/' !in x
    ensures ZoneIdOf(z) == x
  {
    IncludesChar(x, '/');
    assert NoSelfOverlap("/");
    assert z.id == "/hostedzone" + "/" + x;
    SplitLast("/hostedzone", "/", x);
  }

  /** The entry of a zone: its name, valued by its id. */
  function ChoiceOf(z: HostedZone): Choice {
    Choice(z.name, ZoneIdOf(z))
  }

  function ChoicesOf(zs: seq<HostedZone>): (r: seq<Choice>)
    ensures |r| == |zs|
    ensures forall i :: 0 <= i < |zs| ==> r[i] == ChoiceOf(zs[i])
  {
    seq(|zs|, i requires 0 <= i < |zs| => ChoiceOf(zs[i]))
  }

  /** The `choices` callback: sorts the listed zones in place, then maps
      each to its entry. */
  method ZoneChoices(zones: seq<HostedZone>) returns (choices: seq<Choice>)
    ensures choices == ChoicesOf(SortedByCount(zones))
  {
    var a := new HostedZone[|zones|](i requires 0 <= i < |zones| => zones[i]);
    assert a[..] == zones;
    SortByCount(a);
    choices := ChoicesOf(a[..]);
  }

  /** The default as intended: the id of the zone the `reduce` picks, the
      form the choices' values and `get-hosted-zone --id` take. */
  function DefaultZoneId(zones: seq<HostedZone>): (r: string)
    ensures |zones| > 0 && NamedZones(zones) ==> r == ChoicesOf(SortedByCount(zones))[0].value
    ensures zones == [] ==> r == ""
  {
    if zones == [] then ""
    else if NamedZones(zones) then
      var k := FirstMax(zones);
      ReduceIsFirstMax(zones, k);
      SortedHeadIsFirstMax(zones, k);
      Last(Split(Reduce(zones).id, "/"))
    else
      Last(Split(Reduce(zones).id, "/"))
  }

  /** The default as written is a zone name, which no choice has as its
      value: for a single listed zone, the name and the id differ. */
  lemma DefaultNameIsNoChoiceValue(x: string, n: string, c: int)
    requires '/' !in x && n != "" && n != x
    ensures DefaultZoneName([HostedZone("/hostedzone/" + x, n, c)]) == n
    ensures forall ch :: ch in ChoicesOf(SortedByCount([HostedZone("/hostedzone/" + x, n, c)])) ==> ch.value != n
  {
    var z := HostedZone("/hostedzone/" + x, n, c);
    assert [z][..0] == [];
    assert Reduce([z]) == Step(Start, z);
    assert SortedByCount([z]) == [z];
    ZoneIdOfListedId(z, x);
  }
}
