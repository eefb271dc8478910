/**
 * The panel component's own state and its event handlers
 * (`SubscriptionTestPanel` in src/SubscriptionTestPanel.tsx), with React's
 * state hooks and refs turned into fields and the host callbacks into
 * methods.
 */
module Panel {
  import opened Wrappers
  import opened Records
  import opened Subscriptions
  import opened Stats

  class SubscriptionPanel {
    /** The host's topic catalog; undefined until the first render. */
    var topics: Option<seq<TopicInfo>>
    /** `panelState.subscriptions`, the persisted preferences. */
    var subscriptions: Preferences
    /** `rcvdMsgsByTopic`: messages received live, per topic. */
    var live: Counters
    /** `preloadedMsgsByTopic`: messages in the latest preloaded snapshot, per topic. */
    var preloaded: Counters

    /** The preference state is a JavaScript object: its keys are distinct. */
    ghost predicate Valid()
      reads this
    {
      UniqueKeys(subscriptions)
    }

    /**
     * Mount: the default state `{ subscriptions: {} }` overridden by the
     * host-restored state's `subscriptions`, when it has one; empty tables.
     */
    constructor (restored: Option<Preferences>)
      requires restored.Some? ==> UniqueKeys(restored.value)
      ensures Valid()
      ensures restored == None ==> subscriptions == []
      ensures restored.Some? ==> subscriptions == restored.value
      ensures topics == None && live == map[] && preloaded == map[]
    {
      topics := None;
      subscriptions := restored.GetOr([]);
      live := map[];
      preloaded := map[];
    }

    /** `resetStats`: empties the live table in place; the preloaded table is kept. */
    method ResetStats()
      modifies this`live
      ensures live == map[]
      ensures preloaded == old(preloaded)
    {
      live := map[];
    }

    /** `actionHandler`: applies one settings-tree action. */
    method HandleAction(action: Action)
      requires Valid()
      modifies this
      ensures Valid()
      ensures subscriptions == Reduce(old(subscriptions), topics, action)
      ensures live == if ClearsLiveStats(action) then map[] else old(live)
      ensures topics == old(topics) && preloaded == old(preloaded)
    {
      ReduceKeepsUniqueKeys(subscriptions, topics, action);
      subscriptions := Reduce(subscriptions, topics, action);
      if ClearsLiveStats(action) {
        ResetStats();
      }
    }

    /**
     * The counting loop of `onRender`: each message of the current frame
     * adds one to its topic's live count. Without a current frame nothing
     * changes.
     */
    method RecordFrame(currentFrame: Option<seq<string>>)
      modifies this`live
      ensures live == Tally(old(live), currentFrame.GetOr([]))
      ensures forall t :: Count(live, t) == Count(old(live), t) + multiset(currentFrame.GetOr([]))[t]
      ensures forall t :: t in live <==> t in old(live) || t in currentFrame.GetOr([])
    {
      var frame := currentFrame.GetOr([]);
      for i := 0 to |frame|
        invariant live == Tally(old(live), frame[..i])
      {
        var topic := frame[i];
        if topic in live {
          live := live[topic := live[topic] + 1];
        } else {
          live := live[topic := 1];
        }
        assert frame[..i + 1][..i] == frame[..i];
      }
      assert frame[..|frame|] == frame;
      TallyCounts(old(live), frame);
    }

    /**
     * The `allFrames` effect: clears the preloaded table in place and counts
     * the snapshot's messages into it, so that it holds exactly the
     * snapshot's topics with their message counts.
     */
    method RecountPreloaded(allFrames: Option<seq<string>>)
      modifies this`preloaded
      ensures preloaded == Tally(map[], allFrames.GetOr([]))
      ensures forall t :: t in preloaded <==> t in allFrames.GetOr([])
      ensures forall t :: t in preloaded ==> preloaded[t] == multiset(allFrames.GetOr([]))[t]
    {
      preloaded := map[];
      var snapshot := allFrames.GetOr([]);
      for i := 0 to |snapshot|
        invariant preloaded == Tally(map[], snapshot[..i])
      {
        var topic := snapshot[i];
        if topic in preloaded {
          preloaded := preloaded[topic := preloaded[topic] + 1];
        } else {
          preloaded := preloaded[topic := 1];
        }
        assert snapshot[..i + 1][..i] == snapshot[..i];
      }
      assert snapshot[..|snapshot|] == snapshot;
      SnapshotCounts(snapshot);
    }

    /**
     * `onRender` followed by the `allFrames` effect: takes the new catalog,
     * counts the current frame into the live table and rebuilds the
     * preloaded table from the snapshot.
     */
    method OnRender(renderTopics: Option<seq<TopicInfo>>, currentFrame: Option<seq<string>>,
                    allFrames: Option<seq<string>>)
      requires Valid()
      modifies this
      ensures Valid()
      ensures topics == renderTopics && subscriptions == old(subscriptions)
      ensures live == Tally(old(live), currentFrame.GetOr([]))
      ensures preloaded == Tally(map[], allFrames.GetOr([]))
      ensures SumCounts(live) == SumCounts(old(live)) + |currentFrame.GetOr([])|
    {
      topics := renderTopics;
      RecordFrame(currentFrame);
      RecountPreloaded(allFrames);
      TallySum(old(live), currentFrame.GetOr([]));
    }

    /** The interval callback: the total of all live counts. */
    method TotalStats() returns (total: nat)
      ensures total == SumCounts(live)
    {
      total := 0;
      var pending := live.Keys;
      while pending != {}
        invariant pending <= live.Keys
        invariant total + SumOver(live, pending) == SumCounts(live)
        decreases pending
      {
        var t :| t in pending;
        SumOverRemove(live, pending, t);
        total := total + live[t];
        pending := pending - {t};
      }
    }
  }
}
