/**
 The aggregate summary of the registry (`get_summary`): the number of devices,
 the number of active ones, and the per-group-name and per-category tallies.
 The functions here specify what the summary handler's loops compute.
 */
module Stats {
  import opened Model

  datatype Summary = Summary(
    total: nat,
    active: nat,
    byGroup: map<string, nat>,
    byCategory: map<string, nat>)

  /** One step of the tally loop: `m[k] = m.get(k, 0) + 1`. */
  function Bump(m: map<string, nat>, k: string): map<string, nat> {
    m[k := (if k in m then m[k] else 0) + 1]
  }

  /** The tally the loop builds after visiting `keys` in order. */
  function Tally(keys: seq<string>): map<string, nat> {
    if keys == [] then map[] else Bump(Tally(keys[..|keys| - 1]), keys[|keys| - 1])
  }

  /** The number of devices whose `is_active` is true. */
  function CountActive(devs: seq<Device>): (n: nat)
    ensures n <= |devs|
  {
    if devs == [] then 0
    else CountActive(devs[..|devs| - 1]) + (if devs[|devs| - 1].isActive then 1 else 0)
  }

  /** The group names of the devices, in registry order. */
  function GroupNames(devs: seq<Device>): (names: seq<string>)
    ensures |names| == |devs|
  {
    if devs == [] then [] else GroupNames(devs[..|devs| - 1]) + [devs[|devs| - 1].group.name]
  }

  /** The device categories of the devices, in registry order. */
  function Categories(devs: seq<Device>): (cats: seq<string>)
    ensures |cats| == |devs|
  {
    if devs == [] then [] else Categories(devs[..|devs| - 1]) + [devs[|devs| - 1].category]
  }

  /** The summary of a registry, as the summary handler returns it. */
  function SummaryOf(devs: seq<Device>): Summary {
    Summary(|devs|, CountActive(devs), Tally(GroupNames(devs)), Tally(Categories(devs)))
  }

  /** The sum of the values of a tally map. */
  ghost function SumValues(m: map<string, nat>): nat
    decreases |m|
  {
    if m == map[] then 0
    else
      var k :| k in m;
      m[k] + SumValues(m - {k})
  }

  lemma RemoveOneKey(m: map<string, nat>, k: string)
    requires k in m
    ensures |m - {k}| == |m| - 1
  {
  }

  /** The sum does not depend on which key is taken out first. */
  lemma {:induction false} SumValuesRemove(m: map<string, nat>, k: string)
    requires k in m
    ensures SumValues(m) == m[k] + SumValues(m - {k})
    decreases |m|
  {
    var j :| j in m && SumValues(m) == m[j] + SumValues(m - {j});
    if j != k {
      RemoveOneKey(m, j);
      RemoveOneKey(m, k);
      SumValuesRemove(m - {j}, k);
      SumValuesRemove(m - {k}, j);
      assert m - {j} - {k} == m - {k} - {j};
    }
  }

  /**
   A tally counts every key once per occurrence: its keys are exactly the keys
   visited, and each value is that key's number of occurrences.
   */
  lemma {:induction false} TallyCounts(keys: seq<string>)
    ensures forall k :: k in Tally(keys) <==> k in keys
    ensures forall k :: k in Tally(keys) ==> Tally(keys)[k] == multiset(keys)[k]
  {
    if keys != [] {
      var init, last := keys[..|keys| - 1], keys[|keys| - 1];
      TallyCounts(init);
      assert keys == init + [last];
    }
  }

  /** The values of a tally sum to the number of keys visited. */
  lemma {:induction false} TallySum(keys: seq<string>)
    ensures SumValues(Tally(keys)) == |keys|
  {
    if keys != [] {
      var init, last := keys[..|keys| - 1], keys[|keys| - 1];
      var t := Tally(init);
      TallySum(init);
      var b := Bump(t, last);
      SumValuesRemove(b, last);
      if last in t {
        SumValuesRemove(t, last);
        assert b - {last} == t - {last};
      } else {
        assert b - {last} == t;
      }
    }
  }

  /**
   The summary's counts: `total` is the registry length, `active` is at most
   `total`, both tallies sum to `total`, and an empty registry gives zero
   counts and empty maps.
   */
  lemma SummaryTotals(devs: seq<Device>)
    ensures SummaryOf(devs).total == |devs|
    ensures SummaryOf(devs).active <= SummaryOf(devs).total
    ensures SumValues(SummaryOf(devs).byGroup) == SummaryOf(devs).total
    ensures SumValues(SummaryOf(devs).byCategory) == SummaryOf(devs).total
    ensures devs == [] ==> SummaryOf(devs) == Summary(0, 0, map[], map[])
  {
    TallySum(GroupNames(devs));
    TallySum(Categories(devs));
  }

  /**
   The summary's tallies: their keys are the group names and categories that
   occur, and each value is the number of devices with that name.
   */
  lemma SummaryTallies(devs: seq<Device>)
    ensures forall g :: g in SummaryOf(devs).byGroup <==> g in GroupNames(devs)
    ensures forall g :: g in SummaryOf(devs).byGroup ==>
      SummaryOf(devs).byGroup[g] == multiset(GroupNames(devs))[g]
    ensures forall c :: c in SummaryOf(devs).byCategory <==> c in Categories(devs)
    ensures forall c :: c in SummaryOf(devs).byCategory ==>
      SummaryOf(devs).byCategory[c] == multiset(Categories(devs))[c]
  {
    TallyCounts(GroupNames(devs));
    TallyCounts(Categories(devs));
  }

  /** One more device in the prefix adds one step of the active count. */
  lemma ActiveStep(devs: seq<Device>, i: nat)
    requires i < |devs|
    ensures CountActive(devs[..i + 1]) == CountActive(devs[..i]) + (if devs[i].isActive then 1 else 0)
  {
    assert devs[..i + 1][..i] == devs[..i];
  }

  /** One more device in the prefix adds one step of each tally. */
  lemma TallyStep(devs: seq<Device>, i: nat)
    requires i < |devs|
    ensures Tally(GroupNames(devs[..i + 1])) == Bump(Tally(GroupNames(devs[..i])), devs[i].group.name)
    ensures Tally(Categories(devs[..i + 1])) == Bump(Tally(Categories(devs[..i])), devs[i].category)
  {
    var prefix := devs[..i + 1];
    assert prefix[..i] == devs[..i];
    var names, cats := GroupNames(prefix), Categories(prefix);
    assert names[..i] == GroupNames(devs[..i]);
    assert cats[..i] == Categories(devs[..i]);
  }
}
