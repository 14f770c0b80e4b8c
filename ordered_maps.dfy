/**
 * A Python `dict` with string keys: a mapping together with the order in
 * which its keys were first inserted. Assigning to an existing key replaces
 * the value and keeps the key where it was; a new key goes last.
 */
module OrderedMaps {
  import opened Wrappers

  datatype OrderedMap<V> = OrderedMap(keys: seq<string>, items: map<string, V>) {

    /** The keys are listed once each, and exactly the mapped keys are listed. */
    ghost predicate Valid() {
      && (forall i, j :: 0 <= i < j < |keys| ==> keys[i] != keys[j])
      && (forall k :: k in items <==> k in keys)
    }

    /** `d[k] = v`. */
    function Put(k: string, v: V): (r: OrderedMap<V>)
      ensures Valid() ==> r.Valid()
      ensures keys <= r.keys
      ensures k in r.items && r.items[k] == v
      ensures forall k' :: k' != k ==> (k' in r.items <==> k' in items)
      ensures forall k' :: k' != k && k' in items ==> r.items[k'] == items[k']
      ensures k in items ==> r.keys == keys
    {
      OrderedMap(if k in items then keys else keys + [k], items[k := v])
    }

    /** `list(d.values())`: the values in key order. */
    function Values(): (vs: seq<V>)
      requires Valid()
      ensures |vs| == |keys|
      ensures forall i :: 0 <= i < |keys| ==> vs[i] == items[keys[i]]
    {
      seq(|keys|, i requires 0 <= i < |keys| && Valid() => items[keys[i]])
    }

    /** The assignments `d[k] = v` for the pairs `(k, v)` of `ps`, in order. */
    function PutAll(ps: seq<(string, V)>): (r: OrderedMap<V>)
      ensures Valid() ==> r.Valid()
      ensures keys <= r.keys
      decreases |ps|
    {
      if ps == [] then this
      else PutAll(ps[..|ps| - 1]).Put(ps[|ps| - 1].0, ps[|ps| - 1].1)
    }
  }

  function Empty<V>(): (m: OrderedMap<V>)
    ensures m.Valid() && m.keys == [] && m.items == map[]
  {
    OrderedMap([], map[])
  }

  /** The value most recently written under `k` by the pairs `ps`, if any. */
  function LastWrite<V>(ps: seq<(string, V)>, k: string): (w: Option<V>)
    ensures w.None? <==> forall i :: 0 <= i < |ps| ==> ps[i].0 != k
    decreases |ps|
  {
    if ps == [] then None
    else if ps[|ps| - 1].0 == k then Some(ps[|ps| - 1].1)
    else LastWrite(ps[..|ps| - 1], k)
  }

  /** A value is listed by `values()` exactly when some key maps to it. */
  lemma ValuesMembers<V>(m: OrderedMap<V>, v: V)
    requires m.Valid()
    ensures v in m.Values() <==> exists k :: k in m.items && m.items[k] == v
  {
    if exists k :: k in m.items && m.items[k] == v {
      var k :| k in m.items && m.items[k] == v;
      var i :| 0 <= i < |m.keys| && m.keys[i] == k;
      assert m.Values()[i] == v;
    }
  }

  /** The last write to `k` is the value of the last pair with key `k`: no later pair has that key. */
  lemma {:induction false} LastWriteIsLast<V>(ps: seq<(string, V)>, k: string)
    requires LastWrite(ps, k).Some?
    ensures exists i ::
              && 0 <= i < |ps| && ps[i] == (k, LastWrite(ps, k).value)
              && forall i' :: i < i' < |ps| ==> ps[i'].0 != k
    decreases |ps|
  {
    var last := |ps| - 1;
    if ps[last].0 != k {
      var init := ps[..last];
      LastWriteIsLast(init, k);
      var i :|
        && 0 <= i < |init| && init[i] == (k, LastWrite(init, k).value)
        && forall i' :: i < i' < |init| ==> init[i'].0 != k;
      assert ps[i] == init[i];
      forall i' | i < i' < |ps| ensures ps[i'].0 != k {
        if i' < last {
          assert ps[i'] == init[i'];
        }
      }
    } else {
      assert ps[last] == (k, LastWrite(ps, k).value);
    }
  }

  /** Overwriting a key keeps its position among the values; a new key's value goes last. */
  lemma {:induction false} PutValues<V>(m: OrderedMap<V>, k: string, v: V)
    requires m.Valid()
    ensures k in m.items ==>
      |m.Put(k, v).Values()| == |m.Values()| &&
      forall i :: 0 <= i < |m.keys| ==>
        m.Put(k, v).Values()[i] == (if m.keys[i] == k then v else m.Values()[i])
    ensures k !in m.items ==> m.Put(k, v).Values() == m.Values() + [v]
  {
    var r := m.Put(k, v);
    if k !in m.items {
      assert r.keys == m.keys + [k];
      forall i | 0 <= i < |r.keys|
        ensures r.Values()[i] == (m.Values() + [v])[i]
      {
        if i < |m.keys| {
          assert r.keys[i] == m.keys[i] && m.keys[i] != k;
        }
      }
    }
  }

  /** Last write wins: the result maps each key to its latest value, and leaves the other keys alone. */
  lemma {:induction false} PutAllItems<V>(m: OrderedMap<V>, ps: seq<(string, V)>, k: string)
    ensures LastWrite(ps, k).Some? ==>
      k in m.PutAll(ps).items && m.PutAll(ps).items[k] == LastWrite(ps, k).value
    ensures LastWrite(ps, k).None? ==>
      (k in m.PutAll(ps).items <==> k in m.items) &&
      (k in m.items ==> m.PutAll(ps).items[k] == m.items[k])
    decreases |ps|
  {
    if ps != [] {
      PutAllItems(m, ps[..|ps| - 1], k);
    }
  }

  /**
   * A key written by `ps` is present afterwards, holding the value of a
   * write to it at the same position or later.
   */
  lemma PutAllFindsWrite<V>(m: OrderedMap<V>, ps: seq<(string, V)>, b: nat)
    requires b < |ps|
    ensures ps[b].0 in m.PutAll(ps).items
    ensures exists i :: b <= i < |ps| && ps[i] == (ps[b].0, m.PutAll(ps).items[ps[b].0])
  {
    var k := ps[b].0;
    PutAllItems(m, ps, k);
    LastWriteIsLast(ps, k);
  }

  /** The final write of a batch is the one found afterwards. */
  lemma PutAllLastWins<V>(m: OrderedMap<V>, ps: seq<(string, V)>)
    requires ps != []
    ensures ps[|ps| - 1].0 in m.PutAll(ps).items
    ensures m.PutAll(ps).items[ps[|ps| - 1].0] == ps[|ps| - 1].1
  {
    PutAllItems(m, ps, ps[|ps| - 1].0);
  }

  /** Writing only keys that are already present leaves the key order as it was. */
  lemma {:induction false} PutAllPresentKeys<V>(m: OrderedMap<V>, ps: seq<(string, V)>)
    requires forall i :: 0 <= i < |ps| ==> ps[i].0 in m.items
    ensures m.PutAll(ps).keys == m.keys
    decreases |ps|
  {
    if ps != [] {
      var init := ps[..|ps| - 1];
      PutAllPresentKeys(m, init);
      PutAllItems(m, init, ps[|ps| - 1].0);
    }
  }

  /** Splitting a run of writes in two changes nothing. */
  lemma {:induction false} PutAllAppend<V>(m: OrderedMap<V>, a: seq<(string, V)>, b: seq<(string, V)>)
    ensures m.PutAll(a + b) == m.PutAll(a).PutAll(b)
    decreases |b|
  {
    if b == [] {
      assert a + b == a;
    } else {
      assert (a + b)[..|a + b| - 1] == a + b[..|b| - 1];
      PutAllAppend(m, a, b[..|b| - 1]);
    }
  }

  /** Replaying the same writes a second time changes neither the keys, their order, nor the values. */
  lemma {:induction false} PutAllTwice<V>(m: OrderedMap<V>, ps: seq<(string, V)>)
    ensures m.PutAll(ps).PutAll(ps) == m.PutAll(ps)
  {
    var once := m.PutAll(ps);
    var twice := once.PutAll(ps);
    forall i | 0 <= i < |ps|
      ensures ps[i].0 in once.items
    {
      PutAllItems(m, ps, ps[i].0);
    }
    PutAllPresentKeys(once, ps);
    forall k | k in twice.items || k in once.items
      ensures k in twice.items && k in once.items && twice.items[k] == once.items[k]
    {
      PutAllItems(m, ps, k);
      PutAllItems(once, ps, k);
    }
    assert twice.items == once.items;
  }
}
