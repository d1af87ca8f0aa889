/**
 The blocklist actions of the action handler (`post_action`): `isolate`,
 `release` and `toggle_block`, and the errors for a bad category or an
 unknown action.
 */
module Actions {
  import opened Model

  /** The action body: `action` and the optional `category`, as `body.get` reads them. */
  datatype ActionBody = ActionBody(action: Option<string>, category: Option<string>)

  /** Every existing key of `block` set to `v`. */
  function Fill(block: map<string, bool>, v: bool): (r: map<string, bool>)
    ensures r.Keys == block.Keys
    ensures forall k :: k in r ==> r[k] == v
  {
    map k | k in block :: v
  }

  /**
   The blocklist after `isolate`: every entry blocked, and `safesearch` set,
   which adds that key when the device lacked it.
   */
  function Isolated(block: map<string, bool>): (r: map<string, bool>)
    ensures r.Keys == block.Keys + {SafeSearch}
    ensures forall k :: k in r ==> r[k]
  {
    Fill(block, true)[SafeSearch := true]
  }

  /**
   The blocklist after `release`: every entry unblocked except `safesearch`,
   which is forced back to blocked (and added when the device lacked it).
   */
  function Released(block: map<string, bool>): (r: map<string, bool>)
    ensures r.Keys == block.Keys + {SafeSearch}
    ensures r[SafeSearch]
    ensures forall k :: k in r && k != SafeSearch ==> !r[k]
  {
    Fill(block, false)[SafeSearch := true]
  }

  /** The blocklist after `toggle_block` of an existing category `c`. */
  function Toggled(block: map<string, bool>, c: string): (r: map<string, bool>)
    requires c in block
    ensures r.Keys == block.Keys
    ensures r[c] == !block[c]
    ensures forall k :: k in block && k != c ==> r[k] == block[k]
  {
    block[c := !block[c]]
  }

  /** `toggle_block` accepts a category that is present, non-empty and an existing key. */
  predicate KnownCategory(block: map<string, bool>, category: Option<string>) {
    category.Some? && category.value != "" && category.value in block
  }

  /**
   The device the action handler stores for `d`, or the 400 it raises. Only
   the blocklist and `has_custom_blocklist` can change, and the flag is always
   raised on success.
   */
  function ApplyAction(d: Device, body: ActionBody): (r: Result<Device>)
    ensures body.action == Some("isolate") ==> r == Ok(d.(blocklist := Isolated(d.blocklist), hasCustomBlocklist := true))
    ensures body.action == Some("release") ==> r == Ok(d.(blocklist := Released(d.blocklist), hasCustomBlocklist := true))
    ensures body.action == Some("toggle_block") ==> (r.Ok? <==> KnownCategory(d.blocklist, body.category))
    ensures body.action == Some("toggle_block") && r.Ok? ==>
      r.value == d.(blocklist := Toggled(d.blocklist, body.category.value), hasCustomBlocklist := true)
    ensures body.action == Some("toggle_block") && r.Err? ==>
      r.failure == BadRequest("Unknown or missing blocklist category")
    ensures body.action !in {Some("isolate"), Some("release"), Some("toggle_block")} ==>
      r == Err(BadRequest("Unknown action"))
  {
    match body.action
    case Some("isolate") =>
      Ok(d.(blocklist := Isolated(d.blocklist), hasCustomBlocklist := true))
    case Some("release") =>
      Ok(d.(blocklist := Released(d.blocklist), hasCustomBlocklist := true))
    case Some("toggle_block") =>
      if !KnownCategory(d.blocklist, body.category) then
        Err(BadRequest("Unknown or missing blocklist category"))
      else
        Ok(d.(blocklist := Toggled(d.blocklist, body.category.value), hasCustomBlocklist := true))
    case _ =>
      Err(BadRequest("Unknown action"))
  }

  /**
   An action never changes a device's identity, name, activity, group or
   category, and on success always raises `has_custom_blocklist`.
   */
  lemma ActionFrame(d: Device, body: ActionBody)
    requires ApplyAction(d, body).Ok?
    ensures ApplyAction(d, body).value == d.(
      blocklist := ApplyAction(d, body).value.blocklist,
      hasCustomBlocklist := true)
  {
  }

  /** Isolating an isolated device gives the same device. */
  lemma IsolateIdempotent(d: Device)
    ensures ApplyAction(ApplyAction(d, ActionBody(Some("isolate"), None)).value, ActionBody(Some("isolate"), None))
         == ApplyAction(d, ActionBody(Some("isolate"), None))
  {
    var once := Isolated(d.blocklist);
    assert Isolated(once) == once;
  }

  /** Releasing a released device gives the same device. */
  lemma ReleaseIdempotent(d: Device)
    ensures ApplyAction(ApplyAction(d, ActionBody(Some("release"), None)).value, ActionBody(Some("release"), None))
         == ApplyAction(d, ActionBody(Some("release"), None))
  {
    var once := Released(d.blocklist);
    assert Released(once) == once;
  }

  /** `release` after `isolate` leaves the same blocklist as `release` alone. */
  lemma ReleaseUndoesIsolate(d: Device)
    ensures ApplyAction(ApplyAction(d, ActionBody(Some("isolate"), None)).value, ActionBody(Some("release"), None))
         == ApplyAction(d, ActionBody(Some("release"), None))
  {
    assert Released(Isolated(d.blocklist)) == Released(d.blocklist);
  }

  /**
   Toggling the same category twice restores the original blocklist; only
   `has_custom_blocklist` stays raised.
   */
  lemma ToggleTwice(d: Device, c: string)
    requires KnownCategory(d.blocklist, Some(c))
    ensures ApplyAction(d, ActionBody(Some("toggle_block"), Some(c))).Ok?
    ensures ApplyAction(ApplyAction(d, ActionBody(Some("toggle_block"), Some(c))).value,
                        ActionBody(Some("toggle_block"), Some(c)))
         == Ok(d.(hasCustomBlocklist := true))
  {
    assert Toggled(Toggled(d.blocklist, c), c) == d.blocklist;
  }

  /**
   The key loop of `isolate` and `release`: every existing key of `block` is
   set to `v`, one key at a time.
   */
  method FillBlocklist(block: map<string, bool>, v: bool) returns (filled: map<string, bool>)
    ensures filled == Fill(block, v)
  {
    filled := block;
    var todo := block.Keys;
    while todo != {}
      invariant todo <= block.Keys
      invariant filled.Keys == block.Keys
      invariant forall k :: k in filled && k !in todo ==> filled[k] == v
      decreases |todo|
    {
      var k :| k in todo;
      filled := filled[k := v];
      todo := todo - {k};
    }
  }
}
