/**
 * The panel's persisted preference state and the settings-tree action
 * handler that edits it (src/SubscriptionTestPanel.tsx).
 */
module Subscriptions {
  import opened Wrappers
  import opened Records

  /** One topic's stored choices; a field never written is `undefined`. */
  datatype TopicPreference = TopicPreference(visible: Option<bool>, preload: Option<bool>)

  /** A preference with neither field written: what a fresh entry starts as. */
  const NoPreference := TopicPreference(None, None)

  /** What "subscribe-all" stores for every topic: `{ visible: true }`. */
  const SubscribedPreference := TopicPreference(Some(true), None)

  /** `PanelState.subscriptions`: topic name to preference, in property order. */
  type Preferences = Record<TopicPreference>

  /** A topic of the host's catalog. */
  datatype TopicInfo = TopicInfo(name: string, schemaName: Option<string>)

  /** The catalog's topic names, in catalog order. */
  function Names(catalog: seq<TopicInfo>): seq<string> {
    seq(|catalog|, i requires 0 <= i < |catalog| => catalog[i].name)
  }

  lemma NamesSnoc(catalog: seq<TopicInfo>)
    requires catalog != []
    ensures Names(catalog) == Names(catalog[..|catalog| - 1]) + [catalog[|catalog| - 1].name]
  {
  }

  /** `pref?.visible ?? false`: a missing entry or field reads as not visible. */
  function VisibleOf(pref: Option<TopicPreference>): bool {
    match pref
    case None => false
    case Some(p) => p.visible.GetOr(false)
  }

  /** `pref?.preload`. */
  function PreloadOf(pref: Option<TopicPreference>): Option<bool> {
    match pref
    case None => None
    case Some(p) => p.preload
  }

  /**
   * A settings-tree action: an edit of the field at `path`, or a click on
   * the parent node's action button `id`.
   */
  datatype Action = Update(path: seq<string>, value: bool) | Perform(id: string)

  /** Whether the action also clears the live statistics table. */
  predicate ClearsLiveStats(action: Action) {
    action == Perform("unsubscribe-all")
  }

  /** Sets one field of a preference record by name. */
  function WithField(p: TopicPreference, field: string, value: bool): TopicPreference {
    if field == "visible" then p.(visible := Some(value))
    else if field == "preload" then p.(preload := Some(value))
    else p
  }

  /**
   * The keys lodash `set` refuses to walk through: a path step with one of
   * these names ends the update, leaving what it has written so far.
   */
  predicate ReservedKey(k: string) {
    k == "__proto__" || k == "constructor" || k == "prototype"
  }

  /**
   * The other members every object inherits from `Object.prototype`; each
   * is a function, which lodash `set` treats as an existing object.
   */
  predicate InheritedKey(k: string) {
    || k == "toString" || k == "toLocaleString" || k == "valueOf"
    || k == "hasOwnProperty" || k == "isPrototypeOf" || k == "propertyIsEnumerable"
    || k == "__defineGetter__" || k == "__defineSetter__"
    || k == "__lookupGetter__" || k == "__lookupSetter__"
  }

  /**
   * Whether an update of topic `t` lands in an entry of the preferences'
   * own. A reserved name stops lodash `set` before anything is written. An
   * inherited name with no entry of its own resolves to the built-in
   * function: the field is written onto that function, and writing the
   * function back into the draft changes nothing.
   */
  predicate WritesEntry(prefs: Preferences, t: string) {
    !ReservedKey(t) && (t in Keys(prefs) || !InheritedKey(t))
  }

  /**
   * The "update" branch: writes `value` at `subscriptions.<topic>.<field>`,
   * creating the topic's record when it is missing. A reserved field name
   * stops lodash `set` after the topic's record exists.
   */
  function ApplyUpdate(prefs: Preferences, path: seq<string>, value: bool): Preferences {
    if |path| == 3 && path[0] == "subscriptions" && WritesEntry(prefs, path[1]) then
      Put(prefs, path[1], WithField(Lookup(prefs, path[1]).GetOr(NoPreference), path[2], value))
    else
      prefs
  }

  /**
   * The "subscribe-all" branch: one `{ visible: true }` record per catalog
   * topic, added in catalog order; a repeated name keeps its first place.
   */
  function SubscribeAll(catalog: seq<TopicInfo>): (r: Preferences)
    ensures UniqueKeys(r)
    ensures forall k :: Lookup(r, k) == if k in Names(catalog) then Some(SubscribedPreference) else None
  {
    if catalog == [] then []
    else
      var init, last := catalog[..|catalog| - 1], catalog[|catalog| - 1].name;
      var acc := SubscribeAll(init);
      var r := Put(acc, last, SubscribedPreference);
      PutFacts(acc, last, SubscribedPreference);
      NamesSnoc(catalog);
      assert forall k :: Lookup(r, k) == if k in Names(catalog) then Some(SubscribedPreference) else None by {
        forall k ensures Lookup(r, k) == if k in Names(catalog) then Some(SubscribedPreference) else None {
          if k != last {
            assert Lookup(r, k) == Lookup(acc, k);
            assert k in Names(catalog) <==> k in Names(init);
          }
        }
      }
      r
  }

  /** `actionHandler`: the preference state after one settings-tree action. */
  function Reduce(prefs: Preferences, catalog: Option<seq<TopicInfo>>, action: Action): Preferences {
    match action
    case Update(path, value) => ApplyUpdate(prefs, path, value)
    case Perform(id) =>
      if id == "subscribe-all" then SubscribeAll(catalog.GetOr([]))
      else if id == "unsubscribe-all" then []
      else prefs
  }

  /** With distinct catalog names, "subscribe-all" lists the topics in catalog order. */
  lemma {:induction false} SubscribeAllOrder(catalog: seq<TopicInfo>)
    requires forall i, j :: 0 <= i < j < |catalog| ==> catalog[i].name != catalog[j].name
    ensures Keys(SubscribeAll(catalog)) == Names(catalog)
  {
    if catalog != [] {
      var init, last := catalog[..|catalog| - 1], catalog[|catalog| - 1].name;
      SubscribeAllOrder(init);
      PutFacts(SubscribeAll(init), last, SubscribedPreference);
      NamesSnoc(catalog);
      assert last !in Names(init) by {
        forall i | 0 <= i < |init| ensures Names(init)[i] != last {
          assert init[i] == catalog[i];
        }
      }
    }
  }

  /**
   * An update of `subscriptions.<t>.<f>` sets field `f` of topic `t`,
   * starting from an empty record when `t` has none, and keeps its other
   * field. (The other topics are covered by OtherActionsIgnored.)
   */
  lemma UpdateSetsField(prefs: Preferences, catalog: Option<seq<TopicInfo>>, t: string, f: string, v: bool)
    requires WritesEntry(prefs, t)
    ensures var was := Lookup(prefs, t).GetOr(NoPreference);
            Lookup(Reduce(prefs, catalog, Update(["subscriptions", t, f], v)), t)
            == Some(TopicPreference(if f == "visible" then Some(v) else was.visible,
                                    if f == "preload" then Some(v) else was.preload))
  {
    PutFacts(prefs, t, WithField(Lookup(prefs, t).GetOr(NoPreference), f, v));
  }

  /**
   * An update of `subscriptions.<t>.<f>` leaves every other entry as it
   * was, in value and in position; `t` keeps its place, or is added last.
   * (The other topics are covered by OtherActionsIgnored.)
   */
  lemma UpdateKeepsOthers(prefs: Preferences, catalog: Option<seq<TopicInfo>>, t: string, f: string, v: bool)
    requires UniqueKeys(prefs)
    requires WritesEntry(prefs, t)
    ensures var r := Reduce(prefs, catalog, Update(["subscriptions", t, f], v));
            && (forall k :: k != t ==> Lookup(r, k) == Lookup(prefs, k))
            && |r| >= |prefs|
            && (forall i :: 0 <= i < |prefs| && prefs[i].0 != t ==> r[i] == prefs[i])
            && Keys(r) == (if t in Keys(prefs) then Keys(prefs) else Keys(prefs) + [t])
            && UniqueKeys(r)
  {
    var entry := WithField(Lookup(prefs, t).GetOr(NoPreference), f, v);
    assert Reduce(prefs, catalog, Update(["subscriptions", t, f], v)) == Put(prefs, t, entry);
    PutFacts(prefs, t, entry);
  }

  /**
   * "subscribe-all" yields exactly one `{ visible: true }` entry per catalog
   * name whatever the prior state, in catalog order when the names are
   * distinct, and nothing at all when there is no catalog yet.
   */
  lemma SubscribeAllResult(prefs: Preferences, catalog: Option<seq<TopicInfo>>)
    ensures var r := Reduce(prefs, catalog, Perform("subscribe-all"));
            && UniqueKeys(r)
            && (forall k :: Lookup(r, k) == if catalog.Some? && k in Names(catalog.value) then Some(SubscribedPreference) else None)
            && (catalog == None ==> r == [])
            && (catalog.Some? && (forall i, j :: 0 <= i < j < |catalog.value| ==> catalog.value[i].name != catalog.value[j].name)
                ==> Keys(r) == Names(catalog.value))
  {
    if catalog.Some? && (forall i, j :: 0 <= i < j < |catalog.value| ==> catalog.value[i].name != catalog.value[j].name) {
      SubscribeAllOrder(catalog.value);
    }
  }

  /** "unsubscribe-all" empties the preferences (the live table is cleared by HandleAction). */
  lemma UnsubscribeAllResult(prefs: Preferences, catalog: Option<seq<TopicInfo>>)
    ensures Reduce(prefs, catalog, Perform("unsubscribe-all")) == []
  {
  }

  /**
   * Any other action id, an update whose path is not of the shape
   * `subscriptions.<topic>.<field>`, and an update of a topic that lodash
   * does not write into an entry of its own (a reserved name, or an
   * inherited name with no entry) leave the state as it was.
   */
  lemma OtherActionsIgnored(prefs: Preferences, catalog: Option<seq<TopicInfo>>, action: Action)
    requires action.Perform? ==> action.id != "subscribe-all" && action.id != "unsubscribe-all"
    requires action.Update? ==> |action.path| != 3 || action.path[0] != "subscriptions" || !WritesEntry(prefs, action.path[1])
    ensures Reduce(prefs, catalog, action) == prefs
  {
  }

  /** Every action keeps the keys of the preference record distinct. */
  lemma ReduceKeepsUniqueKeys(prefs: Preferences, catalog: Option<seq<TopicInfo>>, action: Action)
    requires UniqueKeys(prefs)
    ensures UniqueKeys(Reduce(prefs, catalog, action))
  {
    if action.Update? && |action.path| == 3 && action.path[0] == "subscriptions" && WritesEntry(prefs, action.path[1]) {
      var t := action.path[1];
      PutFacts(prefs, t, WithField(Lookup(prefs, t).GetOr(NoPreference), action.path[2], action.value));
    }
  }
}
