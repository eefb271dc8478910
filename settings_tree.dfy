/**
 * The children of the "Subscriptions" node that the panel registers with
 * the host's settings editor: one node per catalog topic
 * (the `children` reduce in src/SubscriptionTestPanel.tsx).
 */
module SettingsTree {
  import opened Wrappers
  import opened Records
  import opened Subscriptions
  import opened Projection

  /**
   * The state-dependent parts of a child node: its label (the topic name), its visibility
   * toggle and the value of its "Preload" field. The static parts (input
   * kind, field label, expansion state) are constants and are not modelled.
   */
  datatype ChildNode = ChildNode(name: string, visible: bool, preload: Option<bool>)

  /** The node built for topic `name` from its stored preference, if any. */
  function NodeFor(name: string, prefs: Preferences): (n: ChildNode)
    ensures n.name == name
    ensures n.visible <==> name in Keys(prefs) && Lookup(prefs, name).value.visible == Some(true)
    ensures n.preload == if name in Keys(prefs) then Lookup(prefs, name).value.preload else None
  {
    var pref := Lookup(prefs, name);
    ChildNode(name, VisibleOf(pref), PreloadOf(pref))
  }

  /**
   * `topics.reduce((acc, { name }) => ({ ...acc, [name]: node }), {})`:
   * one node per catalog name, each telling the stored `visible` (false
   * when missing) and the stored `preload`.
   */
  function ChildrenOf(topics: seq<TopicInfo>, prefs: Preferences): (r: Record<ChildNode>)
    ensures UniqueKeys(r)
    ensures forall k :: Lookup(r, k).Some? <==> k in Names(topics)
    ensures forall k :: k in Names(topics) ==>
              Lookup(r, k).value.name == k
              && Lookup(r, k).value.visible == (Lookup(prefs, k).Some? && Lookup(prefs, k).value.visible == Some(true))
              && Lookup(r, k).value.preload == (if k in Keys(prefs) then Lookup(prefs, k).value.preload else None)
  {
    if topics == [] then []
    else
      var init, last := topics[..|topics| - 1], topics[|topics| - 1].name;
      var acc := ChildrenOf(init, prefs);
      var r := Put(acc, last, NodeFor(last, prefs));
      PutFacts(acc, last, NodeFor(last, prefs));
      NamesSnoc(topics);
      assert forall k :: Lookup(r, k) == if k in Names(topics) then Some(NodeFor(k, prefs)) else None by {
        forall k ensures Lookup(r, k) == if k in Names(topics) then Some(NodeFor(k, prefs)) else None {
          if k != last {
            assert Lookup(r, k) == Lookup(acc, k);
            assert k in Names(topics) <==> k in Names(init);
          }
        }
      }
      r
  }

  /** The children for the current catalog; none before the host reports one. */
  function Children(catalog: Option<seq<TopicInfo>>, prefs: Preferences): Record<ChildNode> {
    ChildrenOf(catalog.GetOr([]), prefs)
  }

  /** With distinct catalog names the nodes come in catalog order. */
  lemma {:induction false} ChildrenOrder(topics: seq<TopicInfo>, prefs: Preferences)
    requires forall i, j :: 0 <= i < j < |topics| ==> topics[i].name != topics[j].name
    ensures Keys(ChildrenOf(topics, prefs)) == Names(topics)
  {
    if topics != [] {
      var init, last := topics[..|topics| - 1], topics[|topics| - 1].name;
      ChildrenOrder(init, prefs);
      PutFacts(ChildrenOf(init, prefs), last, NodeFor(last, prefs));
      NamesSnoc(topics);
      assert last !in Names(init) by {
        forall i | 0 <= i < |init| ensures Names(init)[i] != last {
          assert init[i] == topics[i];
        }
      }
    }
  }

  /**
   * The settings tree and the subscription list agree: a catalog topic's
   * node shows as visible exactly when the topic is requested from the host.
   */
  lemma TreeAgreesWithProjection(catalog: seq<TopicInfo>, prefs: Preferences, t: string)
    requires UniqueKeys(prefs)
    requires t in Names(catalog)
    ensures Lookup(Children(Some(catalog), prefs), t).value.visible
            <==> exists k :: 0 <= k < |Project(prefs, Some(catalog))| && Project(prefs, Some(catalog))[k].topic == t
  {
    ProjectByTopic(prefs, Some(catalog), t);
  }
}
