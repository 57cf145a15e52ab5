/**
 * Python dictionaries with string keys as association lists in insertion order:
 * assigning to an existing key keeps its position, a new key is appended at the end.
 */
module Assoc {
  import opened Outcomes

  type Dict<V> = seq<(string, V)>

  function Keys<V>(d: Dict<V>): (ks: seq<string>)
    ensures |ks| == |d| && forall i :: 0 <= i < |d| ==> ks[i] == d[i].0
  {
    seq(|d|, i requires 0 <= i < |d| => d[i].0)
  }

  /** No key is stored twice, as in every dictionary Python builds. */
  ghost predicate UniqueKeys<V>(d: Dict<V>)
  {
    forall i, j :: 0 <= i < j < |d| ==> d[i].0 != d[j].0
  }

  /** Position of `k`, if it is a key. */
  function Find<V>(d: Dict<V>, k: string): (r: Option<nat>)
    ensures r.Some? ==> r.value < |d| && d[r.value].0 == k
    ensures r.Some? ==> forall j :: 0 <= j < r.value ==> d[j].0 != k
    ensures r.None? <==> k !in Keys(d)
  {
    if d == [] then None
    else if d[0].0 == k then Some(0)
    else match Find(d[1..], k)
      case None => None
      case Some(i) => Some(i + 1)
  }

  /** `d[k]`, or None where Python would raise KeyError. */
  function Lookup<V>(d: Dict<V>, k: string): (r: Option<V>)
  {
    match Find(d, k)
    case None => None
    case Some(i) => Some(d[i].1)
  }

  /** `d[k] = v`: overwrite in place, or append a new key at the end. */
  function Put<V>(d: Dict<V>, k: string, v: V): (r: Dict<V>)
  {
    match Find(d, k)
    case None => d + [(k, v)]
    case Some(i) => d[i := (k, v)]
  }

  /** After `d[k] = v`, `k` maps to `v` and every other key keeps its value. */
  lemma PutLookup<V>(d: Dict<V>, k: string, v: V, k': string)
    ensures Lookup(Put(d, k, v), k') == if k' == k then Some(v) else Lookup(d, k')
  {
    var p := Put(d, k, v);
    match Find(d, k)
    case None =>
      assert Keys(p) == Keys(d) + [k];
      if k' != k {
        match Find(d, k')
        case None =>
          assert k' !in Keys(p);
        case Some(j) =>
          assert p[j] == d[j];
          assert Find(p, k') == Some(j) by {
            FindAt(p, k', j);
          }
      } else {
        FindAt(p, k, |d|);
      }
    case Some(i) =>
      assert Keys(p) == Keys(d);
      FindAt(p, k, i);
      if k' != k {
        match Find(d, k')
        case None =>
        case Some(j) =>
          FindAt(p, k', j);
      }
  }

  /** The first position holding `k` is what Find reports. */
  lemma FindAt<V>(d: Dict<V>, k: string, i: nat)
    requires i < |d| && d[i].0 == k && forall j :: 0 <= j < i ==> d[j].0 != k
    ensures Find(d, k) == Some(i)
  {
    assert Keys(d)[i] == k;
  }

  /**
   * Assignment keeps the key order: an existing key stays where it is, a new key
   * goes last, and keys stay unique.
   */
  lemma PutKeys<V>(d: Dict<V>, k: string, v: V)
    ensures Keys(Put(d, k, v)) == if k in Keys(d) then Keys(d) else Keys(d) + [k]
    ensures UniqueKeys(d) ==> UniqueKeys(Put(d, k, v))
  {
    var p := Put(d, k, v);
    if k in Keys(d) {
      assert Keys(p) == Keys(d);
    } else {
      assert Keys(p) == Keys(d) + [k];
      if UniqueKeys(d) {
        forall i, j | 0 <= i < j < |p| ensures p[i].0 != p[j].0 {
          if j == |d| {
            assert Keys(d)[i] == p[i].0;
          }
        }
      }
    }
  }
}
