/**
 * Python's built-in `dict`, which keeps its keys in insertion order, modelled as
 * a sequence of (key, value) entries. The operations below are the ones the bot
 * uses: `d.get(k, default)`, `d[k] = v`, `del d[k]` and `d.setdefault(k, default)`.
 * A real dict never holds a key twice; that is the predicate UniqueKeys, which
 * every operation preserves.
 */
module Dicts {

  datatype Option<T> = None | Some(value: T)

  type Dict<K, V> = seq<(K, V)>

  /** The keys of `d` in iteration (insertion) order. */
  function Keys<K, V>(d: Dict<K, V>): (ks: seq<K>)
    ensures |ks| == |d|
    ensures forall i :: 0 <= i < |d| ==> ks[i] == d[i].0
  {
    seq(|d|, i requires 0 <= i < |d| => d[i].0)
  }

  /** No key occurs in two entries: what makes a sequence of entries a dict. */
  ghost predicate UniqueKeys<K, V>(d: Dict<K, V>) {
    forall i, j :: 0 <= i < j < |d| ==> d[i].0 != d[j].0
  }

  /** The position of the entry for `k`, if there is one. */
  function Find<K(==, !new), V>(d: Dict<K, V>, k: K): (r: Option<nat>)
    ensures r.None? <==> k !in Keys(d)
    ensures r.Some? ==> r.value < |d| && d[r.value].0 == k
    ensures r.Some? ==> forall i :: 0 <= i < r.value ==> d[i].0 != k
    ensures UniqueKeys(d) ==> forall i :: 0 <= i < |d| && d[i].0 == k ==> r == Some(i)
  {
    if d == [] then None
    else if d[0].0 == k then Some(0)
    else match Find(d[1..], k)
      case None => None
      case Some(i) => Some(i + 1)
  }

  /** `d[k]` when `k in d`, None otherwise. */
  function Get<K(==, !new), V>(d: Dict<K, V>, k: K): (r: Option<V>)
    ensures r.Some? <==> k in Keys(d)
    ensures r.Some? ==> (k, r.value) in d
    ensures UniqueKeys(d) ==> forall i :: 0 <= i < |d| && d[i].0 == k ==> r == Some(d[i].1)
  {
    match Find(d, k)
    case None => None
    case Some(i) => Some(d[i].1)
  }

  /** `d.get(k, default)`. */
  function GetOr<K(==, !new), V>(d: Dict<K, V>, k: K, default: V): (r: V)
    ensures k !in Keys(d) ==> r == default
    ensures UniqueKeys(d) ==> forall i :: 0 <= i < |d| && d[i].0 == k ==> r == d[i].1
    ensures k in Keys(d) ==> (k, r) in d
  {
    match Get(d, k)
    case None => default
    case Some(v) => v
  }

  /**
   * `d[k] = v`: an existing key keeps its position and gets the new value; a new
   * key is appended after all the others.
   */
  function Put<K(==, !new), V>(d: Dict<K, V>, k: K, v: V): (r: Dict<K, V>)
    ensures Keys(r) == if k in Keys(d) then Keys(d) else Keys(d) + [k]
    ensures forall i :: 0 <= i < |d| && d[i].0 != k ==> r[i] == d[i]
    ensures forall e :: e in r ==> e in d || e == (k, v)
    ensures UniqueKeys(d) ==> UniqueKeys(r)
    ensures UniqueKeys(d) ==> Get(r, k) == Some(v)
    ensures UniqueKeys(d) ==> forall k' :: k' != k ==> Get(r, k') == Get(d, k')
  {
    match Find(d, k)
    case Some(i) => d[i := (k, v)]
    case None => d + [(k, v)]
  }

  /** Storing the value a key already has changes nothing. */
  lemma PutIdempotent<K(!new), V>(d: Dict<K, V>, k: K, v: V)
    requires UniqueKeys(d)
    ensures Put(Put(d, k, v), k, v) == Put(d, k, v)
  {
    var d1 := Put(d, k, v);
    assert k in Keys(d1);
    var i := Find(d1, k).value;
    assert d1[i] == (k, v);
    assert d1[i := (k, v)] == d1;
  }

  /**
   * `del d[k]`: None stands for the KeyError Python raises when `k` is absent;
   * otherwise the entry for `k` is taken out and the others keep their order.
   */
  function Delete<K(==, !new), V>(d: Dict<K, V>, k: K): (r: Option<Dict<K, V>>)
    ensures r.None? <==> k !in Keys(d)
    ensures r.Some? ==> |r.value| == |d| - 1
    ensures r.Some? ==> exists i :: 0 <= i < |d| && d[i].0 == k && r.value == d[..i] + d[i + 1..]
    ensures r.Some? ==> forall e :: e in r.value ==> e in d
    ensures r.Some? && UniqueKeys(d) ==> UniqueKeys(r.value)
    ensures r.Some? && UniqueKeys(d) ==> k !in Keys(r.value)
    ensures r.Some? && UniqueKeys(d) ==> forall k' :: k' != k ==> Get(r.value, k') == Get(d, k')
  {
    match Find(d, k)
    case None => None
    case Some(i) =>
      RemoveAt(d, i);
      Some(d[..i] + d[i + 1..])
  }

  /** What is left of a dict once the entry at position `i` is taken out. */
  lemma RemoveAt<K(!new), V>(d: Dict<K, V>, i: nat)
    requires i < |d|
    ensures forall e :: e in d[..i] + d[i + 1..] ==> e in d
    ensures UniqueKeys(d) ==> UniqueKeys(d[..i] + d[i + 1..])
    ensures UniqueKeys(d) ==> d[i].0 !in Keys(d[..i] + d[i + 1..])
    ensures UniqueKeys(d) ==> forall k' :: k' != d[i].0 ==> Get(d[..i] + d[i + 1..], k') == Get(d, k')
  {
    var rest := d[..i] + d[i + 1..];
    assert forall j :: 0 <= j < |rest| ==> rest[j] == if j < i then d[j] else d[j + 1];
    if UniqueKeys(d) {
      forall k' | k' != d[i].0
        ensures Get(rest, k') == Get(d, k')
      {
        if k' in Keys(d) {
          var j := Find(d, k').value;
          assert j != i;
          var j' := if j < i then j else j - 1;
          assert rest[j'] == d[j];
        }
      }
    }
  }

  /**
   * `d.setdefault(k, default)`: returns the dict afterwards and the value now
   * stored under `k`; an absent key is inserted, at the end, with `default`.
   */
  function SetDefault<K(==, !new), V>(d: Dict<K, V>, k: K, default: V): (r: (Dict<K, V>, V))
    ensures r.1 == GetOr(d, k, default)
    ensures k in Keys(d) ==> r.0 == d
    ensures Keys(r.0) == if k in Keys(d) then Keys(d) else Keys(d) + [k]
    ensures forall e :: e in r.0 ==> e in d || e == (k, default)
    ensures UniqueKeys(d) ==> UniqueKeys(r.0)
    ensures UniqueKeys(d) ==> Get(r.0, k) == Some(r.1)
    ensures UniqueKeys(d) ==> forall k' :: k' != k ==> Get(r.0, k') == Get(d, k')
  {
    match Find(d, k)
    case Some(i) => (d, d[i].1)
    case None => (d + [(k, default)], default)
  }
}
