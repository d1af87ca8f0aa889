/**
 The device service: the linear lookup by id and the registry whose handlers
 read the whole device sequence, locate a device, build the new record and
 write the whole sequence back. The stored document is the `devices` field:
 reading it returns the field, writing it replaces the field.
 */
module Service {
  import opened Model
  import opened Stats
  import opened Patching
  import opened Actions

  /** The first index whose device has id `did`, or None when no device has it. */
  function Find(devs: seq<Device>, did: int): (r: Option<nat>)
    ensures r.Some? ==> r.value < |devs| && devs[r.value].id == did
    ensures r.Some? ==> forall j :: 0 <= j < r.value ==> devs[j].id != did
    ensures r.None? ==> forall j :: 0 <= j < |devs| ==> devs[j].id != did
  {
    if devs == [] then None
    else if devs[0].id == did then Some(0)
    else
      match Find(devs[1..], did)
      case None => None
      case Some(i) => Some(i + 1)
  }

  /** The scan of `_find_device`: stops at the first matching id. */
  method FindDevice(devs: seq<Device>, did: int) returns (idx: Option<nat>)
    ensures idx == Find(devs, did)
  {
    var i := 0;
    while i < |devs|
      invariant 0 <= i <= |devs|
      invariant forall j :: 0 <= j < i ==> devs[j].id != did
    {
      if devs[i].id == did {
        return Some(i);
      }
      i := i + 1;
    }
    return None;
  }

  /** In a registry with unique ids, the device found is the only one with that id. */
  lemma FindUnique(devs: seq<Device>, did: int)
    requires UniqueIds(devs)
    requires Find(devs, did).Some?
    ensures forall j :: 0 <= j < |devs| && devs[j].id == did ==> j == Find(devs, did).value
  {
  }

  /**
   Replacing slot `i` by a device with the same id and a canonical group
   keeps the registry well formed.
   */
  lemma ReplaceKeepsWellFormed(devs: seq<Device>, i: nat, u: Device)
    requires i < |devs| && WellFormed(devs)
    requires u.id == devs[i].id && Canonical(u.group)
    ensures WellFormed(devs[i := u])
  {
  }

  class DeviceRegistry {
    /** The persisted registry document: the full ordered device sequence. */
    var devices: seq<Device>

    constructor (stored: seq<Device>)
      ensures devices == stored
    {
      devices := stored;
    }

    /** `get_summary`: counts and tallies over the stored devices; nothing is written. */
    method GetSummary() returns (s: Summary)
      ensures s == SummaryOf(devices)
    {
      var devs := devices;
      var total := |devs|;
      var active := 0;
      var i := 0;
      while i < |devs|
        invariant 0 <= i <= |devs|
        invariant active == CountActive(devs[..i])
      {
        ActiveStep(devs, i);
        if devs[i].isActive {
          active := active + 1;
        }
        i := i + 1;
      }
      assert devs[..|devs|] == devs;
      assert active == CountActive(devs);

      var byGroup: map<string, nat> := map[];
      var byCategory: map<string, nat> := map[];
      i := 0;
      while i < |devs|
        invariant 0 <= i <= |devs|
        invariant byGroup == Tally(GroupNames(devs[..i]))
        invariant byCategory == Tally(Categories(devs[..i]))
      {
        TallyStep(devs, i);
        byGroup := Bump(byGroup, devs[i].group.name);
        byCategory := Bump(byCategory, devs[i].category);
        i := i + 1;
      }
      assert byGroup == Tally(GroupNames(devs)) && byCategory == Tally(Categories(devs));
      s := Summary(total, active, byGroup, byCategory);
    }

    /**
     `patch_device`: 404 for an unknown id and 400 for an unknown group id,
     both with nothing written; otherwise slot `idx` is replaced by the merged
     copy, which is also what the handler returns.
     */
    method PatchDevice(did: int, patch: Patch) returns (r: Result<Device>)
      modifies this
      ensures Find(old(devices), did).None? ==> r == Err(NotFound) && devices == old(devices)
      ensures Find(old(devices), did).Some? ==>
        var i := Find(old(devices), did).value;
        && r == ApplyPatch(old(devices)[i], patch)
        && devices == (if r.Ok? then old(devices)[i := r.value] else old(devices))
      ensures WellFormed(old(devices)) ==> WellFormed(devices)
    {
      var devs := devices;
      var idx := FindDevice(devs, did);
      if idx.None? {
        return Err(NotFound);
      }
      var i := idx.value;
      var d := devs[i];
      var updated := d;

      if patch.givenName.Some? {
        updated := updated.(givenName := patch.givenName.value);
      }

      if patch.groupId.Some? {
        var gid := patch.groupId.value;
        var entry := GroupTable(gid);
        if entry.None? {
          return Err(BadRequest("Unknown group id"));
        }
        updated := updated.(group := entry.value);
      }

      ghost var grouped := updated;
      var k := 0;
      while k < |patch.blocklist|
        invariant 0 <= k <= |patch.blocklist|
        invariant updated == grouped.(
          blocklist := Merge(grouped.blocklist, patch.blocklist[..k]).0,
          hasCustomBlocklist := grouped.hasCustomBlocklist || Merge(grouped.blocklist, patch.blocklist[..k]).1)
      {
        MergeStep(grouped.blocklist, patch.blocklist, k);
        var (key, value) := patch.blocklist[k];
        if key in updated.blocklist && value.JBool? {
          updated := updated.(blocklist := updated.blocklist[key := value.b], hasCustomBlocklist := true);
        }
        k := k + 1;
      }
      assert patch.blocklist[..k] == patch.blocklist;

      r := Ok(updated);
      if WellFormed(devs) {
        PatchGroupCanonical(d, patch);
        ReplaceKeepsWellFormed(devs, i, updated);
      }
      devices := devs[i := updated];
    }

    /**
     `post_action`: 404 for an unknown id and 400 for an unknown action or a
     bad toggle category, both with nothing written; otherwise slot `idx` is
     replaced by the changed device, which is also what the handler returns.
     */
    method PostAction(did: int, body: ActionBody) returns (r: Result<Device>)
      modifies this
      ensures Find(old(devices), did).None? ==> r == Err(NotFound) && devices == old(devices)
      ensures Find(old(devices), did).Some? ==>
        var i := Find(old(devices), did).value;
        && r == ApplyAction(old(devices)[i], body)
        && devices == (if r.Ok? then old(devices)[i := r.value] else old(devices))
      ensures WellFormed(old(devices)) ==> WellFormed(devices)
    {
      var devs := devices;
      var idx := FindDevice(devs, did);
      if idx.None? {
        return Err(NotFound);
      }
      var i := idx.value;
      var d := devs[i];
      var block := d.blocklist;

      if body.action == Some("isolate") {
        block := FillBlocklist(block, true);
        block := block[SafeSearch := true];
        d := d.(blocklist := block, hasCustomBlocklist := true);
      } else if body.action == Some("release") {
        block := FillBlocklist(block, false);
        block := block[SafeSearch := true];
        d := d.(blocklist := block, hasCustomBlocklist := true);
      } else if body.action == Some("toggle_block") {
        var category := body.category;
        if !KnownCategory(block, category) {
          return Err(BadRequest("Unknown or missing blocklist category"));
        }
        block := block[category.value := !block[category.value]];
        d := d.(blocklist := block, hasCustomBlocklist := true);
      } else {
        return Err(BadRequest("Unknown action"));
      }

      r := Ok(d);
      if WellFormed(devs) {
        ReplaceKeepsWellFormed(devs, i, d);
      }
      devices := devs[i := d];
    }
  }
}
