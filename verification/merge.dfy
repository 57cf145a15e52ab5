/**
 * The recursive metadata merge (`merge_json_data_recursive`): members of the incoming
 * object are folded into the original one, nested objects merge recursively, two lists
 * concatenate with the original first, anything else is overwritten.
 */
module MergeJson {
  import opened Outcomes
  import opened Assoc
  import opened Json

  /** What a member becomes when `incoming` meets the original's value `current` for the same key. */
  function MergeMember(current: Json, incoming: Json): (r: Json)
    decreases Weight(incoming), 0
  {
    if current.JObj? && incoming.JObj? then
      WeightObj(incoming.fields);
      JObj(MergeFields(current.fields, incoming.fields))
    else if current.JArr? && incoming.JArr? then
      JArr(current.items + incoming.items)
    else
      incoming
  }

  /** The new value of a key: merged with the old one if there was one, else taken as it is. */
  function Incorporate(current: Option<Json>, incoming: Json): (r: Json)
    decreases Weight(incoming), 1
  {
    match current
    case None => incoming
    case Some(c) => MergeMember(c, incoming)
  }

  /** One iteration of the loop over `new_data.items()`. */
  function Absorb(d: Dict<Json>, key: string, incoming: Json): (r: Dict<Json>)
    decreases Weight(incoming), 2
  {
    Put(d, key, Incorporate(Lookup(d, key), incoming))
  }

  /** The members of `original` after every member of `incoming` has been folded in, in order. */
  function MergeFields(original: Dict<Json>, incoming: Dict<Json>): (r: Dict<Json>)
    decreases FieldsWeight(incoming), 3
  {
    if incoming == [] then original
    else
      FieldsWeightCons(incoming);
      MergeFields(Absorb(original, incoming[0].0, incoming[0].1), incoming[1..])
  }

  lemma {:induction false} FieldsWeightAt(fs: Dict<Json>, i: nat)
    requires i < |fs|
    ensures Weight(fs[i].1) <= FieldsWeight(fs)
  {
    FieldsWeightCons(fs);
    if i > 0 {
      FieldsWeightAt(fs[1..], i - 1);
    }
  }

  /**
   * `merge_json_data_recursive(original_data, new_data)` on two dictionaries: the loop
   * visits the incoming members in order, recurses into two nested objects, extends a
   * list by a list, overwrites anything else in place and appends a new key at the end.
   */
  method MergeJsonDataRecursive(original: Dict<Json>, incoming: Dict<Json>) returns (merged: Dict<Json>)
    ensures merged == MergeFields(original, incoming)
    decreases FieldsWeight(incoming)
  {
    merged := original;
    var i := 0;
    while i < |incoming|
      invariant 0 <= i <= |incoming|
      invariant MergeFields(merged, incoming[i..]) == MergeFields(original, incoming)
    {
      var (key, value) := incoming[i];
      assert incoming[i..][0] == (key, value) && incoming[i..][1..] == incoming[i + 1..];
      ghost var before := merged;
      var found := Find(merged, key);
      match found {
        case None =>
          merged := merged + [(key, value)];
        case Some(idx) =>
          var current := merged[idx].1;
          assert Lookup(before, key) == Some(current);
          if current.JObj? && value.JObj? {
            FieldsWeightAt(incoming, i);
            WeightObj(value.fields);
            var sub := MergeJsonDataRecursive(current.fields, value.fields);
            assert MergeMember(current, value) == JObj(sub);
            merged := merged[idx := (key, JObj(sub))];
          } else if current.JArr? && value.JArr? {
            assert MergeMember(current, value) == JArr(current.items + value.items);
            merged := merged[idx := (key, JArr(current.items + value.items))];
          } else {
            assert MergeMember(current, value) == value;
            merged := merged[idx := (key, value)];
          }
      }
      assert merged == Absorb(before, key, value);
      assert MergeFields(before, incoming[i..]) == MergeFields(merged, incoming[i + 1..]);
      i := i + 1;
    }
  }

  /**
   * The Python call at the top level, with its exceptions: `new_data.items()` needs a
   * dictionary, and a non-empty `new_data` needs a dictionary to merge into.
   */
  function MergeJsonData(original: Json, incoming: Json): (r: Result<Json>)
  {
    if !incoming.JObj? then Err(AttributeError)
    else if incoming.fields == [] then Ok(original)
    else if !original.JObj? then Err(TypeError)
    else Ok(JObj(MergeFields(original.fields, incoming.fields)))
  }

  /** What a key maps to after the merge, given what it mapped to in each input. */
  function Combined(before: Option<Json>, incoming: Option<Json>): (r: Option<Json>)
  {
    match incoming
    case None => before
    case Some(v) => Some(Incorporate(before, v))
  }

  /**
   * Every key of `new_data` ends up present; a key only in the original keeps its
   * value; a key in both is merged (objects recursively, lists concatenated original
   * first with no deduplication, anything else overwritten); a new key takes the
   * incoming value.
   */
  lemma {:induction false} MergeLookup(original: Dict<Json>, incoming: Dict<Json>, k: string)
    requires UniqueKeys(incoming)
    ensures Lookup(MergeFields(original, incoming), k) == Combined(Lookup(original, k), Lookup(incoming, k))
    decreases |incoming|
  {
    if incoming != [] {
      var (k0, v0) := incoming[0];
      var rest := incoming[1..];
      var step := Absorb(original, k0, v0);
      assert UniqueKeys(rest);
      MergeLookup(step, rest, k);
      PutLookup(original, k0, Incorporate(Lookup(original, k0), v0), k);
      if k == k0 {
        assert k !in Keys(rest) by {
          forall j | 0 <= j < |rest| ensures rest[j].0 != k {
            assert rest[j] == incoming[j + 1];
          }
        }
        assert Find(incoming, k) == Some(0);
      } else {
        assert Lookup(incoming, k) == Lookup(rest, k);
      }
    }
  }

  /** The keys that `incoming` adds to `known`, in first-appearance order. */
  function NewKeys(known: seq<string>, incoming: seq<string>): (r: seq<string>)
    decreases |incoming|
  {
    if incoming == [] then []
    else if incoming[0] in known then NewKeys(known, incoming[1..])
    else [incoming[0]] + NewKeys(known + [incoming[0]], incoming[1..])
  }

  /**
   * Python dictionaries keep insertion order: an overwritten or merged key keeps its
   * position and a new key is appended after all existing ones. Keys stay unique.
   */
  lemma {:induction false} MergeKeyOrder(original: Dict<Json>, incoming: Dict<Json>)
    ensures Keys(MergeFields(original, incoming)) == Keys(original) + NewKeys(Keys(original), Keys(incoming))
    ensures UniqueKeys(original) ==> UniqueKeys(MergeFields(original, incoming))
    decreases |incoming|
  {
    if incoming == [] {
      assert Keys(original) + [] == Keys(original);
    } else {
      var (k0, v0) := incoming[0];
      var rest := incoming[1..];
      var step := Absorb(original, k0, v0);
      PutKeys(original, k0, Incorporate(Lookup(original, k0), v0));
      MergeKeyOrder(step, rest);
      assert Keys(incoming)[1..] == Keys(rest);
      assert Keys(incoming)[0] == k0;
    }
  }

  /**
   * The top-level call: it fails exactly when `new_data` is not a dictionary, or is a
   * non-empty one and the original is not a dictionary; an empty `new_data` returns the
   * original untouched; otherwise the result is an object holding every original key
   * (in its old position) and every incoming key.
   */
  lemma MergeJsonDataOutcome(original: Json, incoming: Json)
    ensures MergeJsonData(original, incoming).Ok?
        <==> incoming.JObj? && (incoming.fields == [] || original.JObj?)
    ensures incoming == JObj([]) ==> MergeJsonData(original, incoming) == Ok(original)
    ensures MergeJsonData(original, incoming).Ok? && original.JObj? ==>
      var merged := MergeJsonData(original, incoming).value;
      merged.JObj? && Keys(original.fields) <= Keys(merged.fields) &&
      forall k :: k in Keys(incoming.fields) ==> k in Keys(merged.fields)
  {
    if incoming.JObj? && original.JObj? {
      var merged := MergeFields(original.fields, incoming.fields);
      MergeKeyOrder(original.fields, incoming.fields);
      forall k | k in Keys(incoming.fields) ensures k in Keys(merged) {
        NewKeysCover(Keys(original.fields), Keys(incoming.fields), k);
      }
    }
  }

  /** Every incoming key is either already known or among the new keys. */
  lemma {:induction false} NewKeysCover(known: seq<string>, incoming: seq<string>, k: string)
    requires k in incoming
    ensures k in known || k in NewKeys(known, incoming)
    decreases |incoming|
  {
    if incoming[0] != k {
      NewKeysCover(if incoming[0] in known then known else known + [incoming[0]], incoming[1..], k);
    }
  }
}
