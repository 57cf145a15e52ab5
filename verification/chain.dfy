/**
 * `remove_chain_from_repertoire.py`: every `repertoire_id` of a project metadata file
 * loses its chain suffixes ("_IGH", "_IGK", "_IGL"), and the file is rewritten.
 */
module ChainStrip {
  import opened Outcomes
  import opened Strings
  import opened Assoc
  import opened Json

  /** `original_id.replace('_IGH', '').replace('_IGK', '').replace('_IGL', '')`. */
  function StripChain(id: string): (r: string)
  {
    Remove(Remove(Remove(id, "_IGH"), "_IGK"), "_IGL")
  }

  /** The id holds one of the three chain tokens. */
  predicate HasChainToken(id: string)
  {
    Contains(id, "_IGH") || Contains(id, "_IGK") || Contains(id, "_IGL")
  }

  /**
   * The rewritten id is never longer than the original, and it equals the original
   * exactly when the original holds none of the three tokens.
   */
  lemma StripChainShortens(id: string)
    ensures |StripChain(id)| <= |id|
    ensures StripChain(id) == id <==> !HasChainToken(id)
  {
    var a := Remove(id, "_IGH");
    var b := Remove(a, "_IGK");
    RemoveShortens(id, "_IGH");
    RemoveShortens(a, "_IGK");
    RemoveShortens(b, "_IGL");
    if !Contains(id, "_IGH") {
      RemoveAbsent(id, "_IGH");
      if !Contains(a, "_IGK") {
        RemoveAbsent(a, "_IGK");
        if !Contains(b, "_IGL") {
          RemoveAbsent(b, "_IGL");
        }
      }
    }
  }

  /**
   * An id whose only token is one trailing "_IGH", "_IGK" or "_IGL" loses exactly
   * those four characters: "ABC123_IGH" becomes "ABC123".
   */
  lemma StripTrailingToken(p: string, tok: string)
    requires tok == "_IGH" || tok == "_IGK" || tok == "_IGL"
    requires !HasChainToken(p)
    ensures StripChain(p + tok) == p
  {
    assert Unbordered("_IGH") && Unbordered("_IGK") && Unbordered("_IGL");
    RemoveAbsent(p, "_IGH");
    RemoveAbsent(p, "_IGK");
    RemoveAbsent(p, "_IGL");
    if tok == "_IGH" {
      RemoveTrailing(p, "_IGH");
    } else if tok == "_IGK" {
      NotContainsAppend(p, "_IGK", "_IGH");
      RemoveAbsent(p + "_IGK", "_IGH");
      RemoveTrailing(p, "_IGK");
    } else {
      NotContainsAppend(p, "_IGL", "_IGH");
      RemoveAbsent(p + "_IGL", "_IGH");
      NotContainsAppend(p, "_IGL", "_IGK");
      RemoveAbsent(p + "_IGL", "_IGK");
      RemoveTrailing(p, "_IGL");
    }
  }

  /**
   * The rewrite is not idempotent: a removal can join the pieces around it into a new
   * token, so a second run may change the id again.
   */
  lemma StripChainNotIdempotent()
    ensures StripChain("_IG_IGKH") == "_IGH"
    ensures StripChain(StripChain("_IG_IGKH")) == ""
  {
    NoIghInExample();
    IgkJoinsExample();
    NoIglInExample();
    RemoveMatch([], "_IGH");
  }

  /** There is no "_IGH" in "_IG_IGKH": each position is passed over. */
  lemma NoIghInExample()
    ensures Remove("_IG_IGKH", "_IGH") == "_IG_IGKH"
  {
    var h := "_IGH";
    RemoveSkip("H", h, 0);
    RemoveSkip("KH", h, 0);
    RemoveSkip("GKH", h, 0);
    RemoveSkip("IGKH", h, 0);
    RemoveSkip("_IGKH", h, 3);
    RemoveSkip("G_IGKH", h, 0);
    RemoveSkip("IG_IGKH", h, 0);
    RemoveSkip("_IG_IGKH", h, 3);
  }

  /** The "_IGK" in the middle of "_IG_IGKH" goes, joining "_IG" and "H". */
  lemma IgkJoinsExample()
    ensures Remove("_IG_IGKH", "_IGK") == "_IGH"
  {
    var k := "_IGK";
    RemoveSkip("H", k, 0);
    RemoveMatch("H", k);
    RemoveSkip("G_IGKH", k, 0);
    RemoveSkip("IG_IGKH", k, 0);
    RemoveSkip("_IG_IGKH", k, 3);
  }

  /** There is no "_IGL" in "_IGH". */
  lemma NoIglInExample()
    ensures Remove("_IGH", "_IGL") == "_IGH"
  {
    var l := "_IGL";
    RemoveSkip("H", l, 0);
    RemoveSkip("GH", l, 0);
    RemoveSkip("IGH", l, 0);
    RemoveSkip("_IGH", l, 3);
  }

  /** `replace` passes over a position where the token does not start. */
  lemma RemoveSkip(s: string, tok: string, d: nat)
    requires tok != [] && s != []
    requires |s| < |tok| || (d < |tok| && d < |s| && s[d] != tok[d])
    ensures Remove(s, tok) == [s[0]] + Remove(s[1..], tok)
  {
  }

  /** `replace` drops a token at the front and carries on after it. */
  lemma RemoveMatch(rest: string, tok: string)
    requires tok != []
    ensures Remove(tok + rest, tok) == Remove(rest, tok)
  {
    assert tok <= tok + rest;
    assert (tok + rest)[|tok|..] == rest;
  }

  /** One iteration of the loop: the id of one repertoire is rewritten in place. */
  function RewriteItem(item: Json): (r: Result<Json>)
  {
    var id :- GetKey(item, "repertoire_id");
    if !id.JStr? then Err(AttributeError)  // only a string has `replace`
    else Ok(JObj(Put(item.fields, "repertoire_id", JStr(StripChain(id.s)))))
  }

  /** What the loop body does to each repertoire, in order. */
  function RewriteSteps(items: seq<Json>): (steps: seq<Result<Json>>)
    ensures |steps| == |items|
    ensures forall k :: 0 <= k < |items| ==> steps[k] == RewriteItem(items[k])
  {
    seq(|items|, k requires 0 <= k < |items| => RewriteItem(items[k]))
  }

  /** The loop over the repertoires; the first exception ends it. */
  function RewriteItems(items: seq<Json>): (r: Result<seq<Json>>)
  {
    Collect(RewriteSteps(items))
  }

  /** The document after the loop, or the exception that stopped it. */
  function RewriteIds(doc: Json): (r: Result<Json>)
  {
    var rep :- GetKey(doc, "Repertoire");
    var items :- Iterate(rep);
    var updated :- RewriteItems(items);
    if rep.JArr? then Ok(JObj(Put(doc.fields, "Repertoire", JArr(updated)))) else Ok(doc)
  }

  /** The loop of `main` (lines 20-23) on the parsed document. */
  method RewriteRepertoireIds(doc: Json) returns (r: Result<Json>)
    ensures r == RewriteIds(doc)
  {
    var rep :- GetKey(doc, "Repertoire");
    var items :- Iterate(rep);
    var updated :- RewriteRepertoires(items);
    if rep.JArr? {
      r := Ok(JObj(Put(doc.fields, "Repertoire", JArr(updated))));
    } else {
      r := Ok(doc);
    }
  }

  /** The `for repertoire in ...` loop itself, stopping at the first exception. */
  method RewriteRepertoires(items: seq<Json>) returns (r: Result<seq<Json>>)
    ensures r == RewriteItems(items)
  {
    ghost var steps := RewriteSteps(items);
    var updated: seq<Json> := [];
    for i := 0 to |items|
      invariant Collect(steps[..i]) == Ok(updated)
    {
      var next := RewriteRepertoire(items[i]);
      if next.Err? {
        assert steps[..i + 1][..i] == steps[..i] && steps[..i + 1][i] == next;
        CollectStops(steps, i + 1);
        return Err(next.error);
      }
      CollectSnoc(steps, i, updated);
      updated := updated + [next.value];
    }
    assert steps[..|items|] == steps;
    r := Ok(updated);
  }

  /** The loop body for one repertoire. */
  method RewriteRepertoire(repertoire: Json) returns (r: Result<Json>)
    ensures r == RewriteItem(repertoire)
  {
    var originalId :- GetKey(repertoire, "repertoire_id");
    if !originalId.JStr? {
      return Err(AttributeError);
    }
    var updatedId := StripChain(originalId.s);
    r := Ok(JObj(Put(repertoire.fields, "repertoire_id", JStr(updatedId))));
  }

  /** An exception in the loop is the exception of the whole run. */
  lemma RewriteItemsStops(items: seq<Json>, j: nat)
    requires j <= |items| && RewriteItems(items[..j]).Err?
    ensures RewriteItems(items) == RewriteItems(items[..j])
  {
    var steps := RewriteSteps(items);
    assert RewriteSteps(items[..j]) == steps[..j];
    CollectStops(steps, j);
  }

  /**
   * The loop fails exactly when some repertoire cannot be rewritten, and then with the
   * exception of the first such repertoire.
   */
  lemma RewriteItemsFails(items: seq<Json>)
    ensures RewriteItems(items).Err? <==> exists i :: 0 <= i < |items| && RewriteItem(items[i]).Err?
    ensures RewriteItems(items).Err? ==>
      exists i :: 0 <= i < |items| && RewriteItem(items[i]) == Err(RewriteItems(items).error) &&
        forall j :: 0 <= j < i ==> RewriteItem(items[j]).Ok?
  {
    var steps := RewriteSteps(items);
    CollectFails(steps);
    if RewriteItems(items).Err? {
      var i :| 0 <= i < |steps| && steps[i] == Err(Collect(steps).error) &&
        forall j :: 0 <= j < i ==> steps[j].Ok?;
      assert RewriteItem(items[i]) == Err(RewriteItems(items).error);
    }
  }

  /**
   * A successful loop keeps the list's length and order; each repertoire keeps its keys
   * and every member but `repertoire_id`, whose string value is stripped.
   */
  lemma RewriteItemsPointwise(items: seq<Json>)
    requires RewriteItems(items).Ok?
    ensures var updated := RewriteItems(items).value;
      |updated| == |items| &&
      forall i :: 0 <= i < |items| ==>
        GetKey(items[i], "repertoire_id").Ok? && GetKey(items[i], "repertoire_id").value.JStr? &&
        updated[i].JObj? && Keys(updated[i].fields) == Keys(items[i].fields) &&
        GetKey(updated[i], "repertoire_id") == Ok(JStr(StripChain(GetKey(items[i], "repertoire_id").value.s))) &&
        forall k :: k != "repertoire_id" ==> Lookup(updated[i].fields, k) == Lookup(items[i].fields, k)
  {
    CollectEach(RewriteSteps(items));
    forall i | 0 <= i < |items| {
      RewriteItemEffect(items[i]);
    }
  }

  /**
   * A rewritten repertoire had a string `repertoire_id`, now holds its stripped form,
   * and keeps its keys in order and every other member.
   */
  lemma RewriteItemEffect(item: Json)
    requires RewriteItem(item).Ok?
    ensures GetKey(item, "repertoire_id").Ok? && GetKey(item, "repertoire_id").value.JStr?
    ensures var out := RewriteItem(item).value;
      out.JObj? && Keys(out.fields) == Keys(item.fields) &&
      GetKey(out, "repertoire_id") == Ok(JStr(StripChain(GetKey(item, "repertoire_id").value.s))) &&
      forall k :: k != "repertoire_id" ==> Lookup(out.fields, k) == Lookup(item.fields, k)
  {
    var v := JStr(StripChain(GetKey(item, "repertoire_id").value.s));
    PutKeys(item.fields, "repertoire_id", v);
    forall k ensures Lookup(Put(item.fields, "repertoire_id", v), k)
                  == if k == "repertoire_id" then Some(v) else Lookup(item.fields, k) {
      PutLookup(item.fields, "repertoire_id", v, k);
    }
  }

  /**
   * A successful run keeps the document's key order and every member but `Repertoire`,
   * whose list keeps its length with each repertoire rewritten as `RewriteItem` says.
   */
  lemma RewriteShape(doc: Json)
    requires RewriteIds(doc).Ok?
    requires GetKey(doc, "Repertoire").Ok? && GetKey(doc, "Repertoire").value.JArr?
    ensures var out := RewriteIds(doc).value;
      var before := GetKey(doc, "Repertoire").value.items;
      out.JObj? && Keys(out.fields) == Keys(doc.fields) &&
      (forall k :: k != "Repertoire" ==> Lookup(out.fields, k) == Lookup(doc.fields, k)) &&
      GetKey(out, "Repertoire").Ok? && GetKey(out, "Repertoire").value.JArr? &&
      var after := GetKey(out, "Repertoire").value.items;
      |after| == |before| &&
      forall i :: 0 <= i < |before| ==> RewriteItem(before[i]) == Ok(after[i])
  {
    var rep := GetKey(doc, "Repertoire").value;
    CollectEach(RewriteSteps(rep.items));
    var updated := RewriteItems(rep.items).value;
    var newRep := JArr(updated);
    PutKeys(doc.fields, "Repertoire", newRep);
    forall k ensures Lookup(Put(doc.fields, "Repertoire", newRep), k)
                  == if k == "Repertoire" then Some(newRep) else Lookup(doc.fields, k) {
      PutLookup(doc.fields, "Repertoire", newRep, k);
    }
  }

  /** The metadata file on disk, as the JSON document it holds. */
  class MetadataFile {
    var document: Json

    constructor(document: Json)
      ensures this.document == document
    {
      this.document := document;
    }
  }

  /**
   * `main(metadata_path, target_repo_path)`: the document is rewritten and written back
   * only after every id has been rewritten; an exception leaves the file as it was and
   * is reported. The path-derived values are computed but play no part.
   */
  method RemoveChain(file: MetadataFile, targetRepoPath: string) returns (error: Option<PyError>)
    modifies file
    ensures RewriteIds(old(file.document)).Ok? ==>
      error == None && file.document == RewriteIds(old(file.document)).value
    ensures RewriteIds(old(file.document)).Err? ==>
      error == Some(RewriteIds(old(file.document)).error) && file.document == old(file.document)
  {
    var parts := Split(targetRepoPath, '/');
    var repoPath := Join(parts[..if |parts| >= 3 then |parts| - 3 else 0], '/');
    var chain := parts[|parts| - 1];
    var updated := RewriteRepertoireIds(file.document);
    match updated {
      case Ok(doc) =>
        file.document := doc;
        error := None;
      case Err(e) =>
        error := Some(e);
    }
  }
}
