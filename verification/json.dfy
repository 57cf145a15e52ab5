/** JSON documents as `json.load` produces them; numbers are opaque. */
module Json {
  import opened Outcomes
  import opened Assoc

  /** Objects are association lists in insertion order, which `json.dump` preserves. */
  datatype Json =
    | JNull
    | JBool(b: bool)
    | JNum(n: int)
    | JStr(s: string)
    | JArr(items: seq<Json>)
    | JObj(fields: Dict<Json>)

  function Sum(s: seq<nat>): (r: nat)
  {
    if s == [] then 0 else s[0] + Sum(s[1..])
  }

  /**
   * Number of nodes reachable through object members: the termination measure of the
   * recursive merge, which descends only into nested objects.
   */
  function Weight(j: Json): (w: nat)
    ensures w >= 1
  {
    match j
    case JObj(fs) => 1 + Sum(seq(|fs|, i requires 0 <= i < |fs| => Weight(fs[i].1)))
    case _ => 1
  }

  function FieldsWeight(fs: Dict<Json>): (r: nat)
  {
    Sum(seq(|fs|, i requires 0 <= i < |fs| => Weight(fs[i].1)))
  }

  lemma WeightObj(fs: Dict<Json>)
    ensures Weight(JObj(fs)) == 1 + FieldsWeight(fs)
  {
  }

  lemma FieldsWeightCons(fs: Dict<Json>)
    requires fs != []
    ensures FieldsWeight(fs) == Weight(fs[0].1) + FieldsWeight(fs[1..])
  {
    var ws := seq(|fs|, i requires 0 <= i < |fs| => Weight(fs[i].1));
    var rest := fs[1..];
    assert ws[1..] == seq(|rest|, i requires 0 <= i < |rest| => Weight(rest[i].1));
  }

  /** Python's `j[key]` with a string key: only a dictionary can be indexed by a string. */
  function GetKey(j: Json, key: string): (r: Result<Json>)
    ensures r.Ok? <==> j.JObj? && key in Keys(j.fields)
    ensures r.Ok? ==> Lookup(j.fields, key) == Some(r.value)
    ensures r.Err? ==> r.error == (if j.JObj? then KeyError else TypeError)
  {
    match j
    case JObj(fs) => (match Lookup(fs, key) case None => Err(KeyError) case Some(v) => Ok(v))
    case _ => Err(TypeError)
  }

  /**
   * What a Python `for` loop visits: the elements of a list, the keys of a dictionary,
   * the one-character strings of a string; anything else is not iterable.
   */
  function Iterate(j: Json): (r: Result<seq<Json>>)
    ensures r.Ok? <==> j.JArr? || j.JObj? || j.JStr?
    ensures j.JArr? ==> r == Ok(j.items)
    ensures j.JObj? ==> (r.Ok? && |r.value| == |j.fields| &&
      forall i :: 0 <= i < |j.fields| ==> r.value[i] == JStr(j.fields[i].0))
    ensures j.JStr? ==> (r.Ok? && |r.value| == |j.s| &&
      forall i :: 0 <= i < |j.s| ==> r.value[i] == JStr([j.s[i]]))
  {
    match j
    case JArr(xs) => Ok(xs)
    case JObj(fs) => Ok(seq(|fs|, i requires 0 <= i < |fs| => JStr(fs[i].0)))
    case JStr(s) => Ok(seq(|s|, i requires 0 <= i < |s| => JStr([s[i]])))
    case _ => Err(TypeError)
  }
}
