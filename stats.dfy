/**
 * The per-topic message counters kept by the panel (`rcvdMsgsByTopic` and
 * `preloadedMsgsByTopic` in src/SubscriptionTestPanel.tsx), as values:
 * what a table holds after a sequence of messages, and its total.
 */
module Stats {

  /** A counters table: topic name to `numMsgs`. */
  type Counters = map<string, nat>

  /** `table.get(topic)?.numMsgs ?? 0`: the count shown for a topic. */
  function Count(m: Counters, t: string): nat {
    if t in m then m[t] else 0
  }

  /** One message on topic `t`: `numMsgs++` on an existing entry, else a new entry of 1. */
  function Bump(m: Counters, t: string): Counters {
    if t in m then m[t := m[t] + 1] else m[t := 1]
  }

  /** The table after counting the messages of `frame`, one by one, in order. */
  function Tally(m: Counters, frame: seq<string>): Counters {
    if frame == [] then m
    else Bump(Tally(m, frame[..|frame| - 1]), frame[|frame| - 1])
  }

  /**
   * Counting a frame adds, to every topic's count, the number of messages
   * of that topic in the frame; a topic gets an entry exactly when it had
   * one or occurs in the frame.
   */
  lemma {:induction false} TallyCounts(m: Counters, frame: seq<string>)
    ensures forall t :: t in Tally(m, frame) <==> t in m || t in frame
    ensures forall t :: Count(Tally(m, frame), t) == Count(m, t) + multiset(frame)[t]
  {
    if frame != [] {
      var init, last := frame[..|frame| - 1], frame[|frame| - 1];
      TallyCounts(m, init);
      assert frame == init + [last];
      assert multiset(frame) == multiset(init) + multiset{last};
    }
  }

  /** Counting never lowers a count: live counters only grow until a reset. */
  lemma {:induction false} TallyMonotone(m: Counters, frame: seq<string>, t: string)
    ensures Count(m, t) <= Count(Tally(m, frame), t)
    ensures t !in frame ==> Count(Tally(m, frame), t) == Count(m, t)
  {
    TallyCounts(m, frame);
  }

  /**
   * A table rebuilt from scratch holds one entry per topic of the snapshot,
   * whose value is the number of that topic's messages, and nothing else.
   */
  lemma SnapshotCounts(frame: seq<string>)
    ensures forall t :: t in Tally(map[], frame) <==> t in frame
    ensures forall t :: t in frame ==> Tally(map[], frame)[t] == multiset(frame)[t]
  {
    TallyCounts(map[], frame);
  }

  /** Some element of a non-empty key set. */
  ghost function Pick(keys: set<string>): string
    requires keys != {}
  {
    var k :| k in keys; k
  }

  /** The sum of the counts stored under `keys`. */
  ghost function SumOver(m: Counters, keys: set<string>): nat
    requires keys <= m.Keys
    decreases keys
  {
    if keys == {} then 0
    else
      var k := Pick(keys);
      m[k] + SumOver(m, keys - {k})
  }

  /** The sum of all counts of a table. */
  ghost function SumCounts(m: Counters): nat {
    SumOver(m, m.Keys)
  }

  /** The sum does not depend on which key is taken first. */
  lemma {:induction false} SumOverRemove(m: Counters, keys: set<string>, k: string)
    requires keys <= m.Keys && k in keys
    ensures SumOver(m, keys) == m[k] + SumOver(m, keys - {k})
    decreases keys
  {
    var x := Pick(keys);
    if x != k {
      calc {
        SumOver(m, keys);
        m[x] + SumOver(m, keys - {x});
        { SumOverRemove(m, keys - {x}, k); }
        m[x] + m[k] + SumOver(m, keys - {x} - {k});
        { assert keys - {x} - {k} == keys - {k} - {x};
          SumOverRemove(m, keys - {k}, x); }
        m[k] + SumOver(m, keys - {k});
      }
    }
  }

  /** Two tables that agree on `keys` have the same sum over them. */
  lemma {:induction false} SumOverAgree(m: Counters, m': Counters, keys: set<string>)
    requires keys <= m.Keys && keys <= m'.Keys
    requires forall k :: k in keys ==> m[k] == m'[k]
    ensures SumOver(m, keys) == SumOver(m', keys)
    decreases keys
  {
    if keys != {} {
      SumOverAgree(m, m', keys - {Pick(keys)});
    }
  }

  /** One more message adds exactly one to the total. */
  lemma BumpSum(m: Counters, t: string)
    ensures SumCounts(Bump(m, t)) == SumCounts(m) + 1
  {
    var m' := Bump(m, t);
    if t in m {
      assert m'.Keys == m.Keys;
      SumOverRemove(m, m.Keys, t);
      SumOverRemove(m', m.Keys, t);
      SumOverAgree(m, m', m.Keys - {t});
    } else {
      assert m'.Keys == m.Keys + {t};
      assert m'.Keys - {t} == m.Keys;
      SumOverRemove(m', m'.Keys, t);
      SumOverAgree(m, m', m.Keys);
    }
  }

  /** Counting a frame adds its number of messages to the total. */
  lemma {:induction false} TallySum(m: Counters, frame: seq<string>)
    ensures SumCounts(Tally(m, frame)) == SumCounts(m) + |frame|
  {
    if frame != [] {
      TallySum(m, frame[..|frame| - 1]);
      BumpSum(Tally(m, frame[..|frame| - 1]), frame[|frame| - 1]);
    }
  }
}
