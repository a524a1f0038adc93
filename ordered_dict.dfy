/**
 * A Python `dict` as the list of its entries in insertion order.
 *
 * Assigning to a key that is already present replaces its value where it
 * stands; a new key goes to the end.  This is the order in which
 * `dict.items()` visits the entries (Flask's `jsonify` sorts object keys
 * when it encodes a dict, so a JSON response shows them in key order).
 */
module OrderedDict {
  import opened Wrappers

  type Dict<K, V> = seq<(K, V)>

  /** No key occurs twice: every dict satisfies this. */
  ghost predicate UniqueKeys<K, V>(d: Dict<K, V>) {
    forall i, j :: 0 <= i < j < |d| ==> d[i].0 != d[j].0
  }

  /** `k` is the key of entry `i`. */
  ghost predicate KeyAt<K, V>(d: Dict<K, V>, k: K, i: int) {
    0 <= i < |d| && d[i].0 == k
  }

  /** Entry `i` is the last one that carries key `k`. */
  ghost predicate LastKeyAt<K, V>(d: Dict<K, V>, k: K, i: int) {
    KeyAt(d, k, i) && forall j :: i < j < |d| ==> d[j].0 != k
  }

  /** The position of key `k`, if it is present. */
  function IndexOf<K(==), V>(d: Dict<K, V>, k: K): (r: Option<nat>)
    ensures r.Some? ==> KeyAt(d, k, r.value)
    ensures r.None? <==> forall i :: 0 <= i < |d| ==> d[i].0 != k
  {
    if d == [] then None
    else if d[0].0 == k then Some(0)
    else match IndexOf(d[1..], k)
      case None => None
      case Some(i) => Some(i + 1)
  }

  /** `d.get(k)`: the value stored under `k`, if any. */
  function Get<K(==), V>(d: Dict<K, V>, k: K): (r: Option<V>)
    ensures r.Some? ==> (k, r.value) in d
    ensures r.None? <==> forall i :: 0 <= i < |d| ==> d[i].0 != k
  {
    match IndexOf(d, k)
    case None => None
    case Some(i) => Some(d[i].1)
  }

  /** In a dict, `Get` finds exactly the entries. */
  lemma GetIff<K, V>(d: Dict<K, V>, k: K, v: V)
    requires UniqueKeys(d)
    ensures Get(d, k) == Some(v) <==> (k, v) in d
  {
  }

  /** `d[k] = v`. */
  function Put<K(==), V>(d: Dict<K, V>, k: K, v: V): (r: Dict<K, V>)
    requires UniqueKeys(d)
    ensures UniqueKeys(r)
    ensures Get(d, k).None? ==> r == d + [(k, v)]
    ensures Get(d, k).Some? ==> |r| == |d|
    ensures forall i :: 0 <= i < |d| ==> r[i] == if d[i].0 == k then (k, v) else d[i]
  {
    match IndexOf(d, k)
    case None => d + [(k, v)]
    case Some(i) => d[i := (k, v)]
  }

  /** After `d[k] = v`, the entries for other keys are those of `d`, and `k` holds `v`. */
  lemma PutEntries<K, V>(d: Dict<K, V>, k: K, v: V, e: (K, V))
    requires UniqueKeys(d)
    ensures e.0 != k ==> (e in Put(d, k, v) <==> e in d)
    ensures e.0 == k ==> (e in Put(d, k, v) <==> e.1 == v)
  {
  }

  /**
   * The dict built by assigning the pairs of `ps` one after the other, as the
   * comprehension `{k: v for (k, v) in ps}` does.
   */
  function FromPairs<K(==), V>(ps: seq<(K, V)>): (d: Dict<K, V>)
    ensures UniqueKeys(d)
  {
    if ps == [] then []
    else Put(FromPairs(ps[..|ps| - 1]), ps[|ps| - 1].0, ps[|ps| - 1].1)
  }

  /** A key is present exactly when some pair carries it. */
  lemma {:induction false} FromPairsKeys<K, V>(ps: seq<(K, V)>, k: K)
    ensures Get(FromPairs(ps), k).Some? <==> exists i :: KeyAt(ps, k, i)
  {
    if ps != [] {
      var init := ps[..|ps| - 1];
      var last := ps[|ps| - 1];
      FromPairsKeys(init, k);
      var d := FromPairs(init);
      var r := FromPairs(ps);
      if last.0 == k {
        assert KeyAt(ps, k, |ps| - 1);
        PutEntries(d, last.0, last.1, (k, last.1));
        GetIff(r, k, last.1);
      } else {
        assert forall i :: KeyAt(init, k, i) ==> KeyAt(ps, k, i);
        assert forall i :: KeyAt(ps, k, i) ==> KeyAt(init, k, i);
        if Get(d, k).Some? {
          var v := Get(d, k).value;
          PutEntries(d, last.0, last.1, (k, v));
          GetIff(r, k, v);
        }
        if Get(r, k).Some? {
          var v := Get(r, k).value;
          PutEntries(d, last.0, last.1, (k, v));
          GetIff(d, k, v);
        }
      }
    }
  }

  /** The value stored under a key is the one of the LAST pair that carries it. */
  lemma {:induction false} FromPairsLastWins<K, V>(ps: seq<(K, V)>, k: K, v: V)
    ensures Get(FromPairs(ps), k) == Some(v) <==> exists i :: LastKeyAt(ps, k, i) && ps[i].1 == v
  {
    GetIff(FromPairs(ps), k, v);
    if ps != [] {
      var init := ps[..|ps| - 1];
      var last := ps[|ps| - 1];
      FromPairsLastWins(init, k, v);
      GetIff(FromPairs(init), k, v);
      PutEntries(FromPairs(init), last.0, last.1, (k, v));
      if last.0 == k {
        assert LastKeyAt(ps, k, |ps| - 1);
        assert forall i :: LastKeyAt(ps, k, i) ==> i == |ps| - 1;
      } else {
        assert forall i :: LastKeyAt(init, k, i) ==> LastKeyAt(ps, k, i);
        assert forall i :: LastKeyAt(ps, k, i) ==> LastKeyAt(init, k, i);
      }
    }
  }

  /** Pairs with distinct keys give a dict in the same order. */
  lemma {:induction false} FromDistinctPairs<K, V>(ps: seq<(K, V)>)
    requires UniqueKeys(ps)
    ensures FromPairs(ps) == ps
  {
    if ps != [] {
      var init := ps[..|ps| - 1];
      var last := ps[|ps| - 1];
      assert UniqueKeys(init);
      FromDistinctPairs(init);
      assert forall i :: 0 <= i < |init| ==> init[i].0 != last.0;
      assert init + [last] == ps;
    }
  }
}
