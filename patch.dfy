/**
 The partial-update merge of the patch handler (`patch_device`): the typed
 patch, the merge of its blocklist entries into a device's blocklist, and the
 device the handler builds from a patch.
 */
module Patching {
  import opened Model

  /** A JSON value, as a patch's blocklist entry may carry one. */
  datatype Json =
    | JNull
    | JBool(b: bool)
    | JNumber(n: int)
    | JString(s: string)
    | JArray(items: seq<Json>)
    | JObject(fields: seq<(string, Json)>)

  /** No two entries share a name, as in any parsed JSON object. */
  predicate DistinctKeys(entries: seq<(string, Json)>) {
    forall i, j :: 0 <= i < j < |entries| ==> entries[i].0 != entries[j].0
  }

  /** The entries of a parsed JSON object, in order: each name occurs once. */
  type Entries = entries: seq<(string, Json)> | DistinctKeys(entries) witness []

  /**
   The recognised fields of a patch body. `groupId` is present when the body
   has a `group` object with an `id`; `blocklist` lists the entries of the
   body's `blocklist` object in order (empty when it is absent or not an
   object). Other top-level fields are ignored by the handler and have no
   place here.
   */
  datatype Patch = Patch(
    givenName: Option<string>,
    groupId: Option<int>,
    blocklist: Entries)

  /** Entry `e` sets key `k` to a boolean. */
  predicate Sets(e: (string, Json), k: string) {
    e.0 == k && e.1.JBool?
  }

  /** Entry `i` is the last one in `entries` that sets `k` to a boolean. */
  predicate LastSets(entries: seq<(string, Json)>, i: int, k: string) {
    0 <= i < |entries| && Sets(entries[i], k) &&
    forall j :: i < j < |entries| ==> !Sets(entries[j], k)
  }

  /** Entry `e` is applied to `block`: its key exists and its value is a boolean. */
  predicate Applies(block: map<string, bool>, e: (string, Json)) {
    e.0 in block && e.1.JBool?
  }

  /**
   The blocklist and the "something was applied" flag after the merge loop has
   visited `entries`. Only existing keys with boolean values are written, so
   the key set never changes, and the flag is raised exactly when some entry
   applies.
   */
  function Merge(block: map<string, bool>, entries: seq<(string, Json)>): (r: (map<string, bool>, bool))
    ensures r.0.Keys == block.Keys
    ensures r.1 <==> exists i :: 0 <= i < |entries| && Applies(block, entries[i])
  {
    if entries == [] then (block, false)
    else
      var prev := Merge(block, entries[..|entries| - 1]);
      var e := entries[|entries| - 1];
      if e.0 in prev.0 && e.1.JBool? then (prev.0[e.0 := e.1.b], true) else prev
  }

  /** Visiting entry `k` after the first `k` entries is one step of the merge loop. */
  lemma MergeStep(block: map<string, bool>, entries: seq<(string, Json)>, k: nat)
    requires k < |entries|
    ensures Merge(block, entries[..k + 1]) ==
      var prev := Merge(block, entries[..k]);
      if entries[k].0 in prev.0 && entries[k].1.JBool? then (prev.0[entries[k].0 := entries[k].1.b], true) else prev
  {
    assert entries[..k + 1][..k] == entries[..k];
  }

  /**
   The value the merge loop leaves at an existing key, for any entry list: the
   value of the last entry that sets it to a boolean, or the old value when no
   entry does. Patches only carry lists with distinct names; see
   `MergeObjectValue`.
   */
  lemma {:induction false} MergeValue(block: map<string, bool>, entries: seq<(string, Json)>, k: string)
    requires k in block
    ensures (forall i :: 0 <= i < |entries| ==> !Sets(entries[i], k)) ==>
      Merge(block, entries).0[k] == block[k]
    ensures forall i :: LastSets(entries, i, k) ==> Merge(block, entries).0[k] == entries[i].1.b
  {
    if entries != [] {
      var n := |entries| - 1;
      var init, e := entries[..n], entries[n];
      MergeValue(block, init, k);
      var prev := Merge(block, init);
      if Sets(e, k) {
        assert Merge(block, entries).0[k] == e.1.b;
        assert forall i :: LastSets(entries, i, k) ==> i == n;
      } else {
        assert Merge(block, entries).0[k] == prev.0[k];
        forall i | LastSets(entries, i, k)
          ensures LastSets(init, i, k)
        {
          assert i != n;
        }
        assert (forall i :: 0 <= i < |entries| ==> !Sets(entries[i], k)) ==>
          (forall i :: 0 <= i < |init| ==> !Sets(init[i], k));
      }
    }
  }

  /**
   The value the merge leaves at an existing key when names are distinct: the
   key's own entry when its value is a boolean, otherwise the old value (an
   entry with a non-boolean value, or no entry at all).
   */
  lemma MergeObjectValue(block: map<string, bool>, entries: seq<(string, Json)>, k: string)
    requires DistinctKeys(entries) && k in block
    ensures (forall i :: 0 <= i < |entries| ==> entries[i].0 != k) ==>
      Merge(block, entries).0[k] == block[k]
    ensures forall i :: 0 <= i < |entries| && entries[i].0 == k ==>
      Merge(block, entries).0[k] == (if entries[i].1.JBool? then entries[i].1.b else block[k])
  {
    MergeValue(block, entries, k);
    forall i | 0 <= i < |entries| && entries[i].0 == k
      ensures Merge(block, entries).0[k] == (if entries[i].1.JBool? then entries[i].1.b else block[k])
    {
      if entries[i].1.JBool? {
        assert LastSets(entries, i, k);
      } else {
        assert forall j :: 0 <= j < |entries| ==> !Sets(entries[j], k) by {
          forall j | 0 <= j < |entries| ensures !Sets(entries[j], k) {
            if j != i {
              assert entries[i].0 != entries[j].0;
            }
          }
        }
      }
    }
  }

  /** Merging the same entries a second time changes nothing. */
  lemma MergeIdempotent(block: map<string, bool>, entries: seq<(string, Json)>)
    ensures Merge(Merge(block, entries).0, entries) == (Merge(block, entries).0, Merge(block, entries).1)
  {
    var once := Merge(block, entries).0;
    var twice := Merge(once, entries).0;
    forall k | k in block
      ensures twice[k] == once[k]
    {
      MergeValue(block, entries, k);
      MergeValue(once, entries, k);
      if exists i :: 0 <= i < |entries| && Sets(entries[i], k) {
        var i := LastSetter(entries, k);
      }
    }
    assert twice == once;
    assert forall i :: 0 <= i < |entries| ==> (Applies(once, entries[i]) <==> Applies(block, entries[i]));
  }

  /** The position of the last entry that sets `k`, when there is one. */
  lemma LastSetter(entries: seq<(string, Json)>, k: string) returns (i: nat)
    requires exists i :: 0 <= i < |entries| && Sets(entries[i], k)
    ensures LastSets(entries, i, k)
  {
    i := |entries| - 1;
    while !Sets(entries[i], k)
      invariant 0 <= i < |entries|
      invariant exists j :: 0 <= j <= i && Sets(entries[j], k)
      invariant forall j :: i < j < |entries| ==> !Sets(entries[j], k)
      decreases i
    {
      i := i - 1;
    }
  }

  /**
   The device the patch handler stores for `d`: the given name copied
   verbatim, the group replaced by the table entry (400 for an id outside the
   table, whatever else the patch holds), existing blocklist keys overwritten
   by boolean entries, and `has_custom_blocklist` raised when one applied.
   */
  function ApplyPatch(d: Device, p: Patch): (r: Result<Device>)
    ensures r.Err? <==> p.groupId.Some? && !(1 <= p.groupId.value <= 4)
    ensures r.Err? ==> r.failure == BadRequest("Unknown group id")
    ensures r.Ok? ==>
      && r.value.id == d.id
      && r.value.isActive == d.isActive
      && r.value.category == d.category
      && r.value.givenName == (if p.givenName.Some? then p.givenName.value else d.givenName)
      && r.value.group == (if p.groupId.Some? then GroupTable(p.groupId.value).value else d.group)
      && r.value.blocklist.Keys == d.blocklist.Keys
      && (r.value.hasCustomBlocklist <==>
            d.hasCustomBlocklist || exists i :: 0 <= i < |p.blocklist| && Applies(d.blocklist, p.blocklist[i]))
  {
    var named := if p.givenName.Some? then d.(givenName := p.givenName.value) else d;
    if p.groupId.Some? && GroupTable(p.groupId.value).None? then
      Err(BadRequest("Unknown group id"))
    else
      var grouped := if p.groupId.Some? then named.(group := GroupTable(p.groupId.value).value) else named;
      var merged := Merge(grouped.blocklist, p.blocklist);
      Ok(grouped.(blocklist := merged.0, hasCustomBlocklist := grouped.hasCustomBlocklist || merged.1))
  }

  /**
   The patched group is exactly the canonical entry `{id, name, is_default}`
   for the requested id, so a patch keeps a device's group canonical.
   */
  lemma PatchGroupCanonical(d: Device, p: Patch)
    requires p.groupId.Some? || Canonical(d.group)
    requires ApplyPatch(d, p).Ok?
    ensures Canonical(ApplyPatch(d, p).value.group)
    ensures p.groupId == Some(1) ==> ApplyPatch(d, p).value.group == Group(1, "Default Group", true)
    ensures p.groupId == Some(2) ==> ApplyPatch(d, p).value.group == Group(2, "Staff", false)
    ensures p.groupId == Some(3) ==> ApplyPatch(d, p).value.group == Group(3, "Guests", false)
    ensures p.groupId == Some(4) ==> ApplyPatch(d, p).value.group == Group(4, "IoT", false)
  {
  }

  /**
   Entries with an unknown key or a non-boolean value are skipped: a patch made
   only of such entries leaves the blocklist and the flag as they were.
   */
  lemma SkippedEntries(d: Device, p: Patch)
    requires ApplyPatch(d, p).Ok?
    requires forall i :: 0 <= i < |p.blocklist| ==> !Applies(d.blocklist, p.blocklist[i])
    ensures ApplyPatch(d, p).value.blocklist == d.blocklist
    ensures ApplyPatch(d, p).value.hasCustomBlocklist == d.hasCustomBlocklist
  {
    var r := ApplyPatch(d, p).value;
    forall k | k in d.blocklist
      ensures r.blocklist[k] == d.blocklist[k]
    {
      MergeValue(d.blocklist, p.blocklist, k);
      assert forall i :: 0 <= i < |p.blocklist| ==> !Sets(p.blocklist[i], k) by {
        forall i | 0 <= i < |p.blocklist| ensures !Sets(p.blocklist[i], k) {
          assert !Applies(d.blocklist, p.blocklist[i]);
        }
      }
    }
  }

  /**
   The values of the patched blocklist: an existing key holds the value of its
   entry in the patch when that value is a boolean, and keeps its old value
   when the entry's value is not a boolean or the patch has no entry for it.
   */
  lemma PatchBlocklistValues(d: Device, p: Patch, k: string)
    requires ApplyPatch(d, p).Ok?
    requires k in d.blocklist
    ensures (forall i :: 0 <= i < |p.blocklist| ==> p.blocklist[i].0 != k) ==>
      ApplyPatch(d, p).value.blocklist[k] == d.blocklist[k]
    ensures forall i :: 0 <= i < |p.blocklist| && p.blocklist[i].0 == k ==>
      ApplyPatch(d, p).value.blocklist[k] ==
        (if p.blocklist[i].1.JBool? then p.blocklist[i].1.b else d.blocklist[k])
  {
    MergeObjectValue(d.blocklist, p.blocklist, k);
  }

  /** Applying the same patch to its own result gives that result back. */
  lemma PatchIdempotent(d: Device, p: Patch)
    requires ApplyPatch(d, p).Ok?
    ensures ApplyPatch(ApplyPatch(d, p).value, p) == ApplyPatch(d, p)
  {
    MergeIdempotent(d.blocklist, p.blocklist);
  }
}
