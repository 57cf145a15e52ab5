/**
 * `update_annotated_metadata` / `update_pre_processed_metadata` (identical bodies): the
 * fragment's `sample.data_processing` is merged into `data_processing[0]` of every
 * repertoire of the project document whose `repertoire_id` equals the given id.
 */
module MetadataUpdate {
  import opened Outcomes
  import opened Assoc
  import opened Json
  import opened MergeJson

  /** `fragment['sample']['data_processing']`, read before the loop starts. */
  function FragmentData(fragment: Json): (r: Result<Json>)
  {
    var sample :- GetKey(fragment, "sample");
    GetKey(sample, "data_processing")
  }

  /** `repertoire['repertoire_id'] == repertoire_id`, for an id of any JSON type. */
  predicate Matches(item: Json, repertoireId: Json)
  {
    GetKey(item, "repertoire_id") == Ok(repertoireId)
  }

  /** `dp[0]`: the first element of a list or the first character of a string. */
  function First(dp: Json): (r: Result<Json>)
  {
    match dp
    case JArr(xs) => if xs == [] then Err(IndexError) else Ok(xs[0])
    case JStr(s) => if s == [] then Err(IndexError) else Ok(JStr([s[0]]))
    case JObj(_) => Err(KeyError)  // JSON keys are strings, so 0 is never one
    case _ => Err(TypeError)
  }

  /** One pass of the loop body for one repertoire. */
  function UpdateItem(item: Json, repertoireId: Json, newData: Json): (r: Result<Json>)
  {
    var id :- GetKey(item, "repertoire_id");
    if id != repertoireId then Ok(item)
    else
      var dp :- GetKey(item, "data_processing");
      var first :- First(dp);
      var merged :- MergeJsonData(first, newData);
      if dp.JArr? then Ok(JObj(Put(item.fields, "data_processing", JArr([merged] + dp.items[1..]))))
      else Err(TypeError)  // a string does not support item assignment
  }

  /** What the loop body does to each repertoire, in order. */
  function Steps(items: seq<Json>, repertoireId: Json, newData: Json): (steps: seq<Result<Json>>)
    ensures |steps| == |items|
    ensures forall k :: 0 <= k < |items| ==> steps[k] == UpdateItem(items[k], repertoireId, newData)
  {
    seq(|items|, k requires 0 <= k < |items| => UpdateItem(items[k], repertoireId, newData))
  }

  /** The loop over the repertoires; the first exception ends it. */
  function UpdateItems(items: seq<Json>, repertoireId: Json, newData: Json): (r: Result<seq<Json>>)
  {
    Collect(Steps(items, repertoireId, newData))
  }

  /** The whole call on a parsed project document and a parsed metadata fragment. */
  function UpdateMetadata(doc: Json, repertoireId: Json, fragment: Json): (r: Result<Json>)
  {
    var newData :- FragmentData(fragment);
    var rep :- GetKey(doc, "Repertoire");
    var items :- Iterate(rep);
    var updated :- UpdateItems(items, repertoireId, newData);
    if rep.JArr? then Ok(JObj(Put(doc.fields, "Repertoire", JArr(updated)))) else Ok(doc)
  }

  /**
   * The Python loop: every repertoire is visited in order and each match has its
   * `data_processing[0]` replaced by the merge of the fragment into it.
   */
  method UpdateRepertoireMetadata(doc: Json, repertoireId: Json, fragment: Json) returns (r: Result<Json>)
    ensures r == UpdateMetadata(doc, repertoireId, fragment)
  {
    var newData :- FragmentData(fragment);
    var rep :- GetKey(doc, "Repertoire");
    var items :- Iterate(rep);
    var updated :- UpdateRepertoires(items, repertoireId, newData);
    if rep.JArr? {
      r := Ok(JObj(Put(doc.fields, "Repertoire", JArr(updated))));
    } else {
      r := Ok(doc);
    }
  }

  /** The `for repertoire in ...` loop itself, stopping at the first exception. */
  method UpdateRepertoires(items: seq<Json>, repertoireId: Json, newData: Json) returns (r: Result<seq<Json>>)
    ensures r == UpdateItems(items, repertoireId, newData)
  {
    ghost var steps := Steps(items, repertoireId, newData);
    var updated: seq<Json> := [];
    for i := 0 to |items|
      invariant Collect(steps[..i]) == Ok(updated)
    {
      var next := UpdateRepertoire(items[i], repertoireId, newData);
      if next.Err? {
        assert steps[..i + 1][..i] == steps[..i] && steps[..i + 1][i] == next;
        CollectStops(steps, i + 1);
        return Err(next.error);
      }
      CollectSnoc(steps, i, updated);
      updated := updated + [next.value];
    }
    assert steps[..|items|] == steps;
    r := Ok(updated);
  }

  /** The loop body for one repertoire, calling the recursive merge on a match. */
  method UpdateRepertoire(item: Json, repertoireId: Json, newData: Json) returns (r: Result<Json>)
    ensures r == UpdateItem(item, repertoireId, newData)
  {
    var id :- GetKey(item, "repertoire_id");
    if id != repertoireId {
      return Ok(item);
    }
    var dp :- GetKey(item, "data_processing");
    var first :- First(dp);
    // merge_json_data_recursive(first, newData), with the exceptions it raises
    var merged: Json;
    if !newData.JObj? {
      return Err(AttributeError);
    } else if newData.fields == [] {
      merged := first;
    } else if !first.JObj? {
      return Err(TypeError);
    } else {
      var fields := MergeJsonDataRecursive(first.fields, newData.fields);
      merged := JObj(fields);
    }
    if !dp.JArr? {
      return Err(TypeError);
    }
    r := Ok(JObj(Put(item.fields, "data_processing", JArr([merged] + dp.items[1..]))));
  }

  /** An exception in the loop is the exception of the whole call. */
  lemma UpdateItemsStops(items: seq<Json>, j: nat, repertoireId: Json, newData: Json)
    requires j <= |items| && UpdateItems(items[..j], repertoireId, newData).Err?
    ensures UpdateItems(items, repertoireId, newData) == UpdateItems(items[..j], repertoireId, newData)
  {
    var steps := Steps(items, repertoireId, newData);
    assert Steps(items[..j], repertoireId, newData) == steps[..j];
    CollectStops(steps, j);
  }

  /** The loop succeeds item by item, keeps the length and order, and leaves non-matches alone. */
  lemma UpdateItemsPointwise(items: seq<Json>, repertoireId: Json, newData: Json)
    requires UpdateItems(items, repertoireId, newData).Ok?
    ensures var updated := UpdateItems(items, repertoireId, newData).value;
      |updated| == |items| &&
      forall i :: 0 <= i < |items| ==>
        UpdateItem(items[i], repertoireId, newData) == Ok(updated[i]) &&
        (!Matches(items[i], repertoireId) ==> updated[i] == items[i])
  {
    CollectEach(Steps(items, repertoireId, newData));
    var updated := UpdateItems(items, repertoireId, newData).value;
    forall i | 0 <= i < |items| && !Matches(items[i], repertoireId) ensures updated[i] == items[i] {
      UnmatchedItem(items[i], repertoireId, newData);
    }
  }

  /** A repertoire that is visited without raising and does not match comes back as it was. */
  lemma UnmatchedItem(item: Json, repertoireId: Json, newData: Json)
    requires UpdateItem(item, repertoireId, newData).Ok? && !Matches(item, repertoireId)
    ensures UpdateItem(item, repertoireId, newData) == Ok(item)
  {
  }

  /**
   * Only `data_processing[0]` of a matching repertoire changes: it becomes the merge of
   * the fragment into it; every other member of the repertoire keeps its value and
   * position, and every later `data_processing` entry is kept.
   */
  lemma MatchUpdate(item: Json, repertoireId: Json, newData: Json)
    requires Matches(item, repertoireId) && UpdateItem(item, repertoireId, newData).Ok?
    ensures item.JObj? && GetKey(item, "data_processing").Ok?
    ensures var dp := GetKey(item, "data_processing").value;
      var updated := UpdateItem(item, repertoireId, newData).value;
      dp.JArr? && dp.items != [] && MergeJsonData(dp.items[0], newData).Ok? &&
      updated.JObj? && Keys(updated.fields) == Keys(item.fields) &&
      GetKey(updated, "data_processing")
        == Ok(JArr([MergeJsonData(dp.items[0], newData).value] + dp.items[1..])) &&
      forall k :: k != "data_processing" ==> Lookup(updated.fields, k) == Lookup(item.fields, k)
  {
    var dp := GetKey(item, "data_processing").value;
    var merged := MergeJsonData(dp.items[0], newData).value;
    var newDp := JArr([merged] + dp.items[1..]);
    PutKeys(item.fields, "data_processing", newDp);
    forall k ensures Lookup(Put(item.fields, "data_processing", newDp), k)
                  == if k == "data_processing" then Some(newDp) else Lookup(item.fields, k) {
      PutLookup(item.fields, "data_processing", newDp, k);
    }
  }

  /**
   * When no repertoire matches, the document comes back unchanged and no entry is added;
   * a fragment without `sample.data_processing` raises even then.
   */
  lemma {:induction false} NoMatchUnchanged(doc: Json, repertoireId: Json, fragment: Json)
    requires GetKey(doc, "Repertoire").Ok? && GetKey(doc, "Repertoire").value.JArr?
    requires forall x :: x in GetKey(doc, "Repertoire").value.items ==>
      GetKey(x, "repertoire_id").Ok? && !Matches(x, repertoireId)
    ensures FragmentData(fragment).Ok? ==> UpdateMetadata(doc, repertoireId, fragment) == Ok(doc)
    ensures FragmentData(fragment).Err? ==> UpdateMetadata(doc, repertoireId, fragment).Err?
  {
    var rep := GetKey(doc, "Repertoire").value;
    if FragmentData(fragment).Ok? {
      var newData := FragmentData(fragment).value;
      UnmatchedItemsUnchanged(rep.items, repertoireId, newData);
      var fs := doc.fields;
      var i := Find(fs, "Repertoire").value;
      assert fs[i] == ("Repertoire", rep);
      assert Put(fs, "Repertoire", JArr(rep.items)) == fs;
    }
  }

  lemma UnmatchedItemsUnchanged(items: seq<Json>, repertoireId: Json, newData: Json)
    requires forall x :: x in items ==> GetKey(x, "repertoire_id").Ok? && !Matches(x, repertoireId)
    ensures UpdateItems(items, repertoireId, newData) == Ok(items)
  {
    var steps := Steps(items, repertoireId, newData);
    forall k | 0 <= k < |items| ensures steps[k] == Ok(items[k]) {
      assert items[k] in items;
    }
    CollectAllOk(steps, items);
  }

  /**
   * A successful update keeps the document's key order and rewrites only the
   * `Repertoire` list, which keeps its length: every match is updated, not just the first.
   */
  lemma UpdateShape(doc: Json, repertoireId: Json, fragment: Json)
    requires UpdateMetadata(doc, repertoireId, fragment).Ok?
    requires GetKey(doc, "Repertoire").Ok? && GetKey(doc, "Repertoire").value.JArr?
    ensures var out := UpdateMetadata(doc, repertoireId, fragment).value;
      var before := GetKey(doc, "Repertoire").value.items;
      var newData := FragmentData(fragment).value;
      out.JObj? && Keys(out.fields) == Keys(doc.fields) &&
      (forall k :: k != "Repertoire" ==> Lookup(out.fields, k) == Lookup(doc.fields, k)) &&
      GetKey(out, "Repertoire").Ok? && GetKey(out, "Repertoire").value.JArr? &&
      var after := GetKey(out, "Repertoire").value.items;
      |after| == |before| &&
      forall i :: 0 <= i < |before| ==>
        UpdateItem(before[i], repertoireId, newData) == Ok(after[i]) &&
        (!Matches(before[i], repertoireId) ==> after[i] == before[i])
  {
    var newData := FragmentData(fragment).value;
    var rep := GetKey(doc, "Repertoire").value;
    UpdateItemsPointwise(rep.items, repertoireId, newData);
    var updated := UpdateItems(rep.items, repertoireId, newData).value;
    var newRep := JArr(updated);
    PutKeys(doc.fields, "Repertoire", newRep);
    forall k ensures Lookup(Put(doc.fields, "Repertoire", newRep), k)
                  == if k == "Repertoire" then Some(newRep) else Lookup(doc.fields, k) {
      PutLookup(doc.fields, "Repertoire", newRep, k);
    }
  }
}
