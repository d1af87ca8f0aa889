/**
 The data model of the device registry: the device record as it is stored in
 the registry document, the fixed group table used by the patch handler, and
 the outcome type that stands for the handlers' HTTP error responses.
 */
module Model {

  datatype Option<+T> = None | Some(value: T)

  /** The two kinds of HTTPException the handlers raise: 404 and 400. */
  datatype Failure =
    | NotFound                  // status 404, "Device not found"
    | BadRequest(detail: string) // status 400, with the handler's message

  /** A handler's outcome: the device it returns, or the error it raises. */
  datatype Result<+T> = Ok(value: T) | Err(failure: Failure)

  /** The denormalised group object `{id, name, is_default}` of a device. */
  datatype Group = Group(id: int, name: string, isDefault: bool)

  /**
   A device record. `category` is `ai_classification.device_category`; the
   record's other fields are never read or written by the handlers.
   */
  datatype Device = Device(
    id: int,
    givenName: string,
    isActive: bool,
    group: Group,
    blocklist: map<string, bool>,
    hasCustomBlocklist: bool,
    category: string)

  const SafeSearch: string := "safesearch"

  /**
   The four-entry group table of the patch handler, with the entry's `id`
   added, as `{"id": gid, **groups[gid]}` builds it. Ids outside the table
   have no entry.
   */
  function GroupTable(gid: int): (g: Option<Group>)
    ensures g.Some? <==> 1 <= gid <= 4
    ensures g.Some? ==> g.value.id == gid
    ensures g.Some? ==> (g.value.isDefault <==> gid == 1)
  {
    if gid == 1 then Some(Group(1, "Default Group", true))
    else if gid == 2 then Some(Group(2, "Staff", false))
    else if gid == 3 then Some(Group(3, "Guests", false))
    else if gid == 4 then Some(Group(4, "IoT", false))
    else None
  }

  /** A group object that agrees with the table entry for its own id. */
  ghost predicate Canonical(g: Group) {
    GroupTable(g.id) == Some(g)
  }

  /** Device ids are distinct across the registry. */
  ghost predicate UniqueIds(devs: seq<Device>) {
    forall i, j :: 0 <= i < j < |devs| ==> devs[i].id != devs[j].id
  }

  /**
   The registry invariant: ids are unique and every device's group is the
   canonical entry for its id.
   */
  ghost predicate WellFormed(devs: seq<Device>) {
    UniqueIds(devs) && forall i :: 0 <= i < |devs| ==> Canonical(devs[i].group)
  }
}
