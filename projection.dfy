/**
 * The subscription list the panel hands to the host: the visible entries of
 * the preference state, each with its preload flag and schema name
 * (`subscribedTopics` in src/SubscriptionTestPanel.tsx).
 */
module Projection {
  import opened Wrappers
  import opened Records
  import opened Subscriptions

  /** One element of the list given to `context.subscribe`. */
  datatype Subscription = Subscription(topic: string, preload: Option<bool>, datatypeName: Option<string>)

  /** `Array.prototype.find` by name: the first matching index, or `|catalog|` if none. */
  function FindByName(catalog: seq<TopicInfo>, name: string): (i: nat)
    ensures i <= |catalog|
    ensures i < |catalog| ==> catalog[i].name == name
    ensures forall j :: 0 <= j < i ==> catalog[j].name != name
  {
    if catalog == [] then 0
    else if catalog[0].name == name then 0
    else 1 + FindByName(catalog[1..], name)
  }

  /**
   * `topics?.find((t) => t.name === name)?.schemaName`: the schema name of
   * the first catalog entry with that name, or none.
   */
  function SchemaOf(catalog: Option<seq<TopicInfo>>, name: string): (r: Option<string>)
    ensures catalog == None || name !in Names(catalog.value) ==> r == None
    ensures catalog.Some? ==>
              forall i :: 0 <= i < |catalog.value| && catalog.value[i].name == name
                          && (forall j :: 0 <= j < i ==> catalog.value[j].name != name)
                          ==> r == catalog.value[i].schemaName
  {
    match catalog
    case None => None
    case Some(topics) =>
      var i := FindByName(topics, name);
      if i < |topics| then
        assert Names(topics)[i] == name;
        topics[i].schemaName
      else
        assert name !in Names(topics) by {
          forall j | 0 <= j < |topics| ensures Names(topics)[j] != name { }
        }
        None
  }

  /** The request for one entry: its topic, its preload flag and its schema name. */
  function Request(entry: (string, TopicPreference), catalog: Option<seq<TopicInfo>>): Subscription {
    Subscription(entry.0, entry.1.preload, SchemaOf(catalog, entry.0))
  }

  /** `Object.entries(subscriptions).filter(([_, options]) => options?.visible ?? false)`. */
  function VisibleEntries(prefs: Preferences): Preferences {
    if prefs == [] then []
    else (if VisibleOf(Some(prefs[0].1)) then [prefs[0]] else []) + VisibleEntries(prefs[1..])
  }

  /** `subscribedTopics`: the visible entries, each mapped to its request. */
  function Project(prefs: Preferences, catalog: Option<seq<TopicInfo>>): seq<Subscription> {
    var visible := VisibleEntries(prefs);
    seq(|visible|, k requires 0 <= k < |visible| => Request(visible[k], catalog))
  }

  /** The positions, counted from `offset`, of the entries the filter keeps. */
  function KeptPositions(prefs: Preferences, offset: nat): seq<nat> {
    if prefs == [] then []
    else (if VisibleOf(Some(prefs[0].1)) then [offset] else []) + KeptPositions(prefs[1..], offset + 1)
  }

  lemma {:induction false} KeptPositionsItems(prefs: Preferences, offset: nat)
    ensures |KeptPositions(prefs, offset)| == |VisibleEntries(prefs)|
    ensures forall k :: 0 <= k < |KeptPositions(prefs, offset)| ==>
              offset <= KeptPositions(prefs, offset)[k] < offset + |prefs|
              && VisibleEntries(prefs)[k] == prefs[KeptPositions(prefs, offset)[k] - offset]
  {
    if prefs != [] {
      var tail := prefs[1..];
      KeptPositionsItems(tail, offset + 1);
      var keep := VisibleOf(Some(prefs[0].1));
      var ps, pt := KeptPositions(prefs, offset), KeptPositions(tail, offset + 1);
      var vs, vt := VisibleEntries(prefs), VisibleEntries(tail);
      var lead := if keep then 1 else 0;
      assert ps == (if keep then [offset] else []) + pt;
      assert vs == (if keep then [prefs[0]] else []) + vt;
      forall k | 0 <= k < |ps| ensures offset <= ps[k] < offset + |prefs| && vs[k] == prefs[ps[k] - offset] {
        if k >= lead {
          assert ps[k] == pt[k - lead] && vs[k] == vt[k - lead];
          assert tail[pt[k - lead] - (offset + 1)] == prefs[ps[k] - offset];
        }
      }
    }
  }

  lemma {:induction false} KeptPositionsIncrease(prefs: Preferences, offset: nat)
    ensures forall k :: 0 <= k < |KeptPositions(prefs, offset)| ==> offset <= KeptPositions(prefs, offset)[k]
    ensures forall k, l :: 0 <= k < l < |KeptPositions(prefs, offset)| ==>
              KeptPositions(prefs, offset)[k] < KeptPositions(prefs, offset)[l]
  {
    if prefs != [] {
      KeptPositionsIncrease(prefs[1..], offset + 1);
    }
  }

  lemma {:induction false} KeptPositionsMembers(prefs: Preferences, offset: nat)
    ensures forall i :: 0 <= i < |prefs| ==> (VisibleOf(Some(prefs[i].1)) <==> offset + i in KeptPositions(prefs, offset))
  {
    if prefs != [] {
      var tail := prefs[1..];
      var keep := VisibleOf(Some(prefs[0].1));
      var lead: seq<nat> := if keep then [offset] else [];
      var ps, pt := KeptPositions(prefs, offset), KeptPositions(tail, offset + 1);
      assert ps == lead + pt;
      KeptPositionsMembers(tail, offset + 1);
      KeptPositionsIncrease(tail, offset + 1);
      assert offset !in pt;
      forall i | 0 <= i < |prefs| ensures VisibleOf(Some(prefs[i].1)) <==> offset + i in ps {
        assert offset + i in ps <==> offset + i in lead || offset + i in pt;
        if i > 0 {
          assert prefs[i] == tail[i - 1];
          assert offset + i !in lead;
          assert offset + i == (offset + 1) + (i - 1);
        }
      }
    }
  }

  /**
   * The filter keeps exactly the visible entries, in their order: `picked`
   * lists, increasing, the positions of the entries whose `visible` is true
   * (a missing flag counting as false), and the k-th kept entry is the one
   * at `picked[k]`.
   */
  lemma FilterIsOrdered(prefs: Preferences) returns (picked: seq<nat>)
    ensures |picked| == |VisibleEntries(prefs)|
    ensures forall k :: 0 <= k < |picked| ==> picked[k] < |prefs| && VisibleEntries(prefs)[k] == prefs[picked[k]]
    ensures forall k, l :: 0 <= k < l < |picked| ==> picked[k] < picked[l]
    ensures forall i :: 0 <= i < |prefs| ==> (VisibleOf(Some(prefs[i].1)) <==> i in picked)
  {
    picked := KeptPositions(prefs, 0);
    KeptPositionsItems(prefs, 0);
    KeptPositionsIncrease(prefs, 0);
    KeptPositionsMembers(prefs, 0);
  }

  /**
   * The projection is exactly the visible entries, in their order, each
   * turned into a request carrying the entry's topic, its preload flag and
   * the catalog's schema name for it.
   */
  lemma ProjectIsOrderedFilter(prefs: Preferences, catalog: Option<seq<TopicInfo>>)
    returns (picked: seq<nat>)
    ensures |picked| == |Project(prefs, catalog)|
    ensures forall k :: 0 <= k < |picked| ==> picked[k] < |prefs|
    ensures forall k, l :: 0 <= k < l < |picked| ==> picked[k] < picked[l]
    ensures forall i :: 0 <= i < |prefs| ==> (VisibleOf(Some(prefs[i].1)) <==> i in picked)
    ensures forall k :: 0 <= k < |picked| ==>
              Project(prefs, catalog)[k] == Subscription(prefs[picked[k]].0, prefs[picked[k]].1.preload, SchemaOf(catalog, prefs[picked[k]].0))
  {
    picked := FilterIsOrdered(prefs);
  }

  /**
   * Read through the preference record: a topic is requested exactly when
   * its entry is visible, and its request carries the entry's preload flag
   * and the catalog's schema name for it (none when the catalog lacks it).
   */
  lemma ProjectByTopic(prefs: Preferences, catalog: Option<seq<TopicInfo>>, t: string)
    requires UniqueKeys(prefs)
    ensures (exists k :: 0 <= k < |Project(prefs, catalog)| && Project(prefs, catalog)[k].topic == t)
            <==> VisibleOf(Lookup(prefs, t))
    ensures forall k :: 0 <= k < |Project(prefs, catalog)| && Project(prefs, catalog)[k].topic == t ==>
              Project(prefs, catalog)[k] == Subscription(t, PreloadOf(Lookup(prefs, t)), SchemaOf(catalog, t))
  {
    var r := Project(prefs, catalog);
    var picked := ProjectIsOrderedFilter(prefs, catalog);
    if VisibleOf(Lookup(prefs, t)) {
      var i :| 0 <= i < |prefs| && prefs[i].0 == t;
      var k :| 0 <= k < |picked| && picked[k] == i;
      assert r[k].topic == t;
    }
  }
}
