# Chimera device registry — Dafny model

This project models the device service of the Chimera device API
(`backend/main.py`). The service keeps an ordered registry of network
devices. Each device has an id, a friendly name, an activity flag, a group
taken from a fixed four-entry table, a per-category blocklist of booleans,
a `has_custom_blocklist` flag and an AI-assigned device category. Four
operations are modelled:

- **summary**: the device count, the active count, and tallies of devices
  per group name and per category;
- **lookup**: the linear scan for the first device with a given id;
- **patch**: the partial-update merge. The friendly name is copied, the
  group is resolved against the table (400 for an unknown id), and existing
  blocklist keys are overwritten by boolean values;
- **actions**: `isolate`, `release` and `toggle_block` on a device's
  blocklist. A bad category or an unknown action gives 400.

Both mutating handlers share one shape. They read the whole registry, find
the device (404 when it is absent), validate, build the new record, replace
its slot and write the whole registry back. Every error is raised before the
write.

Layout, one module per file:

- `model.dfy` (`Model`): the device record, the group table, the
  `Result`/`Failure` outcome that stands for the 404 and 400 responses, and
  the registry invariant `WellFormed` (ids unique, groups canonical).
- `summary.dfy` (`Stats`): the summary as functions (`SummaryOf`,
  `CountActive`, `Tally`) and the lemmas about them.
- `patch.dfy` (`Patching`): the typed patch, the blocklist merge `Merge`,
  the patched device `ApplyPatch`, and their lemmas.
- `actions.dfy` (`Actions`): the action body, the resulting blocklists
  `Isolated`, `Released` and `Toggled`, the outcome `ApplyAction`, the key
  loop `FillBlocklist`, and their lemmas.
- `service.dfy` (`Service`): the lookup `Find`/`FindDevice` and the class
  `DeviceRegistry`. Its field `devices` is the stored registry document.
  Its methods are the handlers, written as the loops and slot updates of
  the source. Each is proved against the functions above.

Two behaviours of the code worth stating:

- `isolate` and `release` set `safesearch` whether or not the device had
  that key, so they can add it to the key set. `Isolated` and `Released`
  state the key set as the old keys plus `safesearch`. Patch and toggle
  never change the key set.
- `toggle_block` rejects a category that is absent, empty (`not category`,
  backend/main.py:108) or not an existing key. `KnownCategory` states that.

## Model

| member | source | states |
|---|---|---|
| `Model.GroupTable` | backend/main.py:63-69 | exactly ids 1–4 have an entry; each entry carries its own id; only group 1 is the default group |
| `Stats.CountActive` | backend/main.py:24 | the active count never exceeds the number of devices |
| `Stats.TallyCounts` | backend/main.py:26-34 | a tally's keys are exactly the names that occur, and each value is that name's number of occurrences |
| `Stats.TallySum` | backend/main.py:29-34 | the values of a tally sum to the number of devices visited |
| `Stats.SummaryTotals` | backend/main.py:20-41 | `total` is the registry length and `active` ≤ `total`; the values of `by_group` and of `by_category` each sum to `total`; an empty registry gives 0, 0 and two empty maps |
| `Stats.SummaryTallies` | backend/main.py:29-34 | the keys of `by_group` and `by_category` are exactly the group names and categories that occur, and each value is the number of devices with that name |
| `Patching.Merge` | backend/main.py:74-78 | the merge never changes the blocklist's key set; the "applied" flag is raised iff some entry has an existing key and a boolean value |
| `Patching.MergeValue` | backend/main.py:75-77 | for any entry list, the loop leaves each existing key with the value of the last boolean entry for it, or its old value when there is none |
| `Patching.MergeObjectValue` | backend/main.py:74-77 | for the entries of a JSON object (distinct names), each existing key ends with its entry's value when that is a boolean, and otherwise keeps its old value |
| `Patching.MergeIdempotent` | backend/main.py:74-78 | merging the same entries into the merged blocklist changes nothing |
| `Patching.ApplyPatch` | backend/main.py:56-78 | 400 "Unknown group id" iff the patch names a group id outside 1–4, whatever else it holds; otherwise id, activity and category are kept, the name is the patch's name verbatim or the old one, the group is the table entry or the old group, the key set is unchanged, and the flag is the old flag or "some entry applied" |
| `Patching.PatchGroupCanonical` | backend/main.py:62-72 | the patched group is exactly `{id, name, is_default}` from the table for ids 1–4, so a patch keeps a canonical group canonical |
| `Patching.SkippedEntries` | backend/main.py:74-78 | entries with unknown keys or non-boolean values leave the blocklist and `has_custom_blocklist` unchanged |
| `Patching.PatchBlocklistValues` | backend/main.py:74-77 | in the patched device each existing key holds its patch entry's value when that is a boolean, and its old value when the entry is not a boolean or absent |
| `Patching.PatchIdempotent` | backend/main.py:56-78 | applying a patch to its own result gives the same device |
| `Actions.Isolated` | backend/main.py:95-98 | after `isolate` every entry is blocked and the keys are the old keys plus `safesearch` |
| `Actions.Released` | backend/main.py:101-104 | after `release` every entry except `safesearch` is unblocked, `safesearch` is blocked, and the keys are the old keys plus `safesearch` |
| `Actions.Toggled` | backend/main.py:110 | toggling negates exactly the chosen entry and keeps every other entry and the key set |
| `Actions.ApplyAction` | backend/main.py:91-114 | `isolate` and `release` always succeed with the blocklists above and the flag raised; `toggle_block` succeeds iff the category is present, non-empty and an existing key, else 400 "Unknown or missing blocklist category"; any other action is 400 "Unknown action" |
| `Actions.ActionFrame` | backend/main.py:93-111 | a successful action changes only the blocklist, and `has_custom_blocklist` ends true |
| `Actions.IsolateIdempotent` | backend/main.py:95-99 | isolating twice gives the same device as isolating once |
| `Actions.ReleaseIdempotent` | backend/main.py:101-105 | releasing twice gives the same device as releasing once |
| `Actions.ReleaseUndoesIsolate` | backend/main.py:95-105 | `release` after `isolate` gives the same device as `release` alone |
| `Actions.ToggleTwice` | backend/main.py:107-111 | toggling the same known category twice restores the original blocklist, with only the flag raised |
| `Actions.FillBlocklist` | backend/main.py:96-97 | the key loop sets every existing key to the given value and adds none |
| `Service.Find` | backend/main.py:43-47 | the result is the first index whose device has the id, or none when no device has it |
| `Service.FindDevice` | backend/main.py:43-47 | the early-return scan returns exactly the first matching index, or none |
| `Service.FindUnique` | backend/main.py:43-47 | when ids are unique, the index found is the only one with that id |
| `Service.ReplaceKeepsWellFormed` | backend/main.py:116-117 | replacing a slot by a device with the same id and a canonical group keeps ids unique and groups canonical |
| `Service.DeviceRegistry.GetSummary` | backend/main.py:20-41 | the counting loops return the summary of the stored registry and write nothing |
| `Service.DeviceRegistry.PatchDevice` | backend/main.py:49-82 | unknown id: 404 and nothing written; otherwise the result is the merged device, and on success only slot `idx` is replaced with the returned device; on 400 nothing is written; the registry invariant is kept |
| `Service.DeviceRegistry.PostAction` | backend/main.py:84-118 | unknown id: 404 and nothing written; otherwise the result is the action's outcome, and on success only slot `idx` is replaced with the returned device; on 400 nothing is written; the registry invariant is kept |

## Left out

- Storage (`backend/storage.py`) is not part of this model. File I/O, JSON
  encoding and the lock are not modelled. The stored document is the
  `devices` field: a read returns it and a write replaces it. The lost-update
  race between two requests' separately locked read and write is a
  concurrency matter and is not modelled.
- The FastAPI application, CORS middleware, routes and the `HTTPException`
  machinery are not modelled. Errors are the `Failure` values `NotFound`
  (404) and `BadRequest` (400), with the handlers' messages.
- `get_devices` returns the stored sequence unchanged. In the model that is
  the `devices` field itself, so it has no member of its own.
- Python dynamic typing is not modelled. A patch is a typed record with
  optional fields. The group id is an `int`, so `True == 1` passing the
  table test is not modelled. The friendly name is a string. A `group` that
  is not an object, or has no `id`, is an absent group id. A `blocklist`
  that is not an object is an empty entry list. The action and the category
  are optional strings, so a category of another falsy type (`0`, `false`)
  is not modelled.
- JSON floats among patch values are not modelled. They are non-boolean and
  would be skipped like the integers that stand for them.
- Device fields the handlers never read or write (addresses, vendor data,
  the rest of `ai_classification`) are not modelled. No handler touches
  them.
- The order of keys is not modelled. The blocklist and the two tallies are
  maps, while the source's dicts keep insertion order: `safesearch`, when
  added by `isolate` or `release`, comes last, and the tallies list names in
  order of first occurrence.
- `PostAction` changes the freshly read record in place before storing it.
  The model builds the new record as a value. The record is read fresh for
  each request and written back, so no other holder of it can see the
  difference.
- The frontend (`src/**`) and `tailwind.config.js` are not modelled. They are
  UI rendering, display arithmetic on floats, timers, randomness and library
  sorting.
