/**
 * A string-keyed JavaScript object, kept as the sequence of its own
 * entries in property order (the order `Object.entries` reports).
 * Writing an existing key keeps its position; writing a new key appends it.
 */
module Records {
  import opened Wrappers

  type Record<V> = seq<(string, V)>

  /** The keys, in property order. */
  function Keys<V>(r: Record<V>): seq<string> {
    seq(|r|, i requires 0 <= i < |r| => r[i].0)
  }

  /** A JavaScript object never holds the same key twice. */
  ghost predicate UniqueKeys<V>(r: Record<V>) {
    forall i, j :: 0 <= i < j < |r| ==> r[i].0 != r[j].0
  }

  lemma KeysCons<V>(e: (string, V), r: Record<V>)
    ensures Keys([e] + r) == [e.0] + Keys(r)
  {
  }

  /** Property access `r[k]`: the value stored under `k`, or none. */
  function Lookup<V>(r: Record<V>, k: string): (v: Option<V>)
    ensures v.Some? <==> k in Keys(r)
    ensures UniqueKeys(r) ==> forall i :: 0 <= i < |r| && r[i].0 == k ==> v == Some(r[i].1)
  {
    if r == [] then None
    else if r[0].0 == k then
      assert Keys(r)[0] == k;
      Some(r[0].1)
    else
      assert Keys(r) == [r[0].0] + Keys(r[1..]) by { KeysCons(r[0], r[1..]); }
      Lookup(r[1..], k)
  }

  /**
   * Property assignment `r[k] = v`; PutFacts states what it does.
   */
  function Put<V>(r: Record<V>, k: string, v: V): Record<V>
  {
    if r == [] then [(k, v)]
    else if r[0].0 == k then [(k, v)] + r[1..]
    else [r[0]] + Put(r[1..], k, v)
  }

  lemma {:induction false} PutKeys<V>(r: Record<V>, k: string, v: V)
    ensures Keys(Put(r, k, v)) == if k in Keys(r) then Keys(r) else Keys(r) + [k]
  {
    if r != [] {
      KeysCons(r[0], r[1..]);
      assert r == [r[0]] + r[1..];
      if r[0].0 == k {
        KeysCons((k, v), r[1..]);
      } else {
        PutKeys(r[1..], k, v);
        KeysCons(r[0], Put(r[1..], k, v));
      }
    }
  }

  lemma {:induction false} PutLookup<V>(r: Record<V>, k: string, v: V, k': string)
    ensures Lookup(Put(r, k, v), k') == if k' == k then Some(v) else Lookup(r, k')
  {
    if r != [] && r[0].0 != k {
      PutLookup(r[1..], k, v, k');
      assert Put(r, k, v)[1..] == Put(r[1..], k, v);
    } else if r != [] {
      assert Put(r, k, v)[1..] == r[1..];
    }
  }

  lemma {:induction false} PutPositions<V>(r: Record<V>, k: string, v: V)
    ensures |Put(r, k, v)| >= |r|
    ensures forall i :: 0 <= i < |r| && r[i].0 != k ==> Put(r, k, v)[i] == r[i]
  {
    if r != [] && r[0].0 != k {
      PutPositions(r[1..], k, v);
    }
  }

  lemma PutUnique<V>(r: Record<V>, k: string, v: V)
    requires UniqueKeys(r)
    ensures UniqueKeys(Put(r, k, v))
  {
    var r' := Put(r, k, v);
    PutKeys(r, k, v);
    forall i, j | 0 <= i < j < |r'| ensures r'[i].0 != r'[j].0 {
      assert Keys(r')[i] == r'[i].0 && Keys(r')[j] == r'[j].0;
      if j < |r| {
        assert Keys(r)[i] == r[i].0 && Keys(r)[j] == r[j].0;
      } else {
        assert Keys(r)[i] == r[i].0;
      }
    }
  }

  /**
   * What `r[k] = v` does: the value under `k` becomes `v`, every other
   * key keeps its value and its place, and a new key goes last.
   */
  lemma PutFacts<V>(r: Record<V>, k: string, v: V)
    ensures Lookup(Put(r, k, v), k) == Some(v)
    ensures forall k' :: k' != k ==> Lookup(Put(r, k, v), k') == Lookup(r, k')
    ensures Keys(Put(r, k, v)) == if k in Keys(r) then Keys(r) else Keys(r) + [k]
    ensures UniqueKeys(r) ==> UniqueKeys(Put(r, k, v))
    ensures |Put(r, k, v)| >= |r|
    ensures forall i :: 0 <= i < |r| && r[i].0 != k ==> Put(r, k, v)[i] == r[i]
  {
    PutLookup(r, k, v, k);
    forall k' | k' != k ensures Lookup(Put(r, k, v), k') == Lookup(r, k') {
      PutLookup(r, k, v, k');
    }
    PutKeys(r, k, v);
    if UniqueKeys(r) { PutUnique(r, k, v); }
    PutPositions(r, k, v);
  }
}
