/**
 * The correspondence table (`airr_correspondence.csv`) and the two computations driven by
 * it: the repertoire mapping (`derive_vdjbase_project_mapping`) and the check that every
 * expected repertoire has a "Final" annotation file (`verify_annotations_exist`).
 */
module Correspondence {
  import opened Outcomes
  import opened Assoc
  import opened Strings

  /** One row of the table, already parsed. */
  datatype Row = Row(airrFile: string, vdjbaseName: string, airrRepertoireId: string)

  /** One value of the repertoire mapping, keyed by its `vdjbase_name`. */
  datatype Entry = Entry(
    projectName: string,
    vdjbaseName: string,
    projectNumber: string,
    individual: string,
    sample: string,
    airrRepertoireId: string)

  /** The rows whose `airr_file` mentions the project, in table order. */
  function KeptRows(rows: seq<Row>, projectName: string): (kept: seq<Row>)
    ensures forall r :: r in kept <==> r in rows && Contains(r.airrFile, projectName)
  {
    if rows == [] then []
    else
      var last := rows[|rows| - 1];
      KeptRows(rows[..|rows| - 1], projectName) + (if Contains(last.airrFile, projectName) then [last] else [])
  }

  /**
   * Filtering distributes over concatenation: with `KeptRow`, the kept rows keep table
   * order and duplicates.
   */
  lemma {:induction false} KeptRowsAppend(a: seq<Row>, b: seq<Row>, projectName: string)
    ensures KeptRows(a + b, projectName) == KeptRows(a, projectName) + KeptRows(b, projectName)
    decreases |b|
  {
    if b == [] {
      assert a + b == a;
    } else {
      var prefix := b[..|b| - 1];
      var last := b[|b| - 1];
      var t := if Contains(last.airrFile, projectName) then [last] else [];
      assert a + b == (a + prefix) + [last] && b == prefix + [last];
      calc {
        KeptRows(a + b, projectName);
        { KeptSnoc(a + prefix, last, projectName); }
        KeptRows(a + prefix, projectName) + t;
        { KeptRowsAppend(a, prefix, projectName); }
        (KeptRows(a, projectName) + KeptRows(prefix, projectName)) + t;
        KeptRows(a, projectName) + (KeptRows(prefix, projectName) + t);
        { KeptSnoc(prefix, last, projectName); }
        KeptRows(a, projectName) + KeptRows(b, projectName);
      }
    }
  }

  lemma KeptSnoc(rows: seq<Row>, r: Row, projectName: string)
    ensures KeptRows(rows + [r], projectName)
      == KeptRows(rows, projectName) + (if Contains(r.airrFile, projectName) then [r] else [])
  {
    assert (rows + [r])[..|rows|] == rows;
  }

  /** A single row is kept exactly when its `airr_file` mentions the project. */
  lemma KeptRow(r: Row, projectName: string)
    ensures KeptRows([r], projectName) == if Contains(r.airrFile, projectName) then [r] else []
  {
    assert [r][..0] == [];
  }

  /** `project_number, individual, sample = vdjbase_name.split('_')`. */
  function EntryOf(row: Row, projectName: string): (r: Result<Entry>)
  {
    var parts := Split(row.vdjbaseName, '_');
    if |parts| != 3 then Err(ValueError)
    else Ok(Entry(projectName, row.vdjbaseName, parts[0], parts[1], parts[2], row.airrRepertoireId))
  }

  /** The mapping after the loop has visited `kept`; a later row with the same name replaces the entry. */
  function MappingOf(kept: seq<Row>, projectName: string): (r: Result<Dict<Entry>>)
  {
    if kept == [] then Ok([])
    else
      var mapping :- MappingOf(kept[..|kept| - 1], projectName);
      var last := kept[|kept| - 1];
      var entry :- EntryOf(last, projectName);
      Ok(Put(mapping, last.vdjbaseName, entry))
  }

  /** A name that splits on `_` into exactly three parts. */
  predicate WellFormedName(name: string)
  {
    |Split(name, '_')| == 3
  }

  /**
   * `derive_vdjbase_project_mapping` on the parsed table: filter the rows, then build the
   * dictionary entry by entry.
   */
  method DeriveVdjbaseProjectMapping(rows: seq<Row>, projectName: string) returns (r: Result<Dict<Entry>>)
    ensures r == MappingOf(KeptRows(rows, projectName), projectName)
  {
    var kept := KeptRows(rows, projectName);
    var mapping: Dict<Entry> := [];
    for i := 0 to |kept|
      invariant MappingOf(kept[..i], projectName) == Ok(mapping)
    {
      assert kept[..i + 1][..i] == kept[..i];
      var row := kept[i];
      var parts := Split(row.vdjbaseName, '_');
      if |parts| != 3 {
        MappingFails(kept, projectName);
        return Err(ValueError);
      }
      mapping := Put(mapping, row.vdjbaseName,
        Entry(projectName, row.vdjbaseName, parts[0], parts[1], parts[2], row.airrRepertoireId));
    }
    assert kept[..|kept|] == kept;
    r := Ok(mapping);
  }

  /** The mapping raises exactly when some kept row's name does not split into three parts. */
  lemma {:induction false} MappingFails(kept: seq<Row>, projectName: string)
    ensures MappingOf(kept, projectName).Err? <==> exists r :: r in kept && !WellFormedName(r.vdjbaseName)
    ensures MappingOf(kept, projectName).Err? ==> MappingOf(kept, projectName).error == ValueError
    decreases |kept|
  {
    if kept != [] {
      var prefix := kept[..|kept| - 1];
      MappingFails(prefix, projectName);
      assert kept == prefix + [kept[|kept| - 1]];
    }
  }

  /**
   * Every entry is keyed by its own `vdjbase_name`, carries the project name, and its
   * three parts hold no `_` and join back with `_` to that name; keys are unique.
   */
  lemma {:induction false} MappingEntries(kept: seq<Row>, projectName: string)
    requires MappingOf(kept, projectName).Ok?
    ensures var m := MappingOf(kept, projectName).value;
      UniqueKeys(m) && forall i :: 0 <= i < |m| ==> EntryAt(m, i, projectName)
    decreases |kept|
  {
    if kept != [] {
      var prefix := kept[..|kept| - 1];
      var last := kept[|kept| - 1];
      MappingEntries(prefix, projectName);
      var m0 := MappingOf(prefix, projectName).value;
      var e := EntryOf(last, projectName).value;
      PutKeys(m0, last.vdjbaseName, e);
      EntryParts(last, projectName);
      var m := Put(m0, last.vdjbaseName, e);
      forall i | 0 <= i < |m| ensures EntryAt(m, i, projectName) {
        if i < |m0| && m0[i].0 != last.vdjbaseName {
          assert m[i] == m0[i] && EntryAt(m0, i, projectName);
        }
      }
    }
  }

  /** Entry `i` of a mapping is keyed by its name and holds that name's three parts. */
  predicate EntryAt(m: Dict<Entry>, i: nat, projectName: string)
    requires i < |m|
  {
    var e := m[i].1;
    m[i].0 == e.vdjbaseName && e.projectName == projectName &&
    e.projectNumber + "_" + e.individual + "_" + e.sample == e.vdjbaseName &&
    '_' !in e.projectNumber && '_' !in e.individual && '_' !in e.sample
  }

  /** A well-formed name's entry holds its three `_`-free parts, which join back into it. */
  lemma EntryParts(row: Row, projectName: string)
    requires EntryOf(row, projectName).Ok?
    ensures var e := EntryOf(row, projectName).value;
      e.vdjbaseName == row.vdjbaseName && e.projectName == projectName &&
      e.projectNumber + "_" + e.individual + "_" + e.sample == e.vdjbaseName &&
      '_' !in e.projectNumber && '_' !in e.individual && '_' !in e.sample
  {
    var parts := Split(row.vdjbaseName, '_');
    SplitJoin(row.vdjbaseName, '_');
    var tail := parts[1..];
    assert tail[1..] == [parts[2]];
    assert Join(tail, '_') == parts[1] + ['_'] + parts[2];
    assert '_' !in parts[0] && '_' !in parts[1] && '_' !in parts[2];
  }

  /** The last kept row carrying `name`, if any. */
  function LastNamed(kept: seq<Row>, name: string): (r: Option<Row>)
  {
    if kept == [] then None
    else if kept[|kept| - 1].vdjbaseName == name then Some(kept[|kept| - 1])
    else LastNamed(kept[..|kept| - 1], name)
  }

  /** A later row with the same `vdjbase_name` replaces the earlier entry. */
  lemma {:induction false} MappingLastWins(kept: seq<Row>, projectName: string, name: string)
    requires MappingOf(kept, projectName).Ok?
    ensures var m := MappingOf(kept, projectName).value;
      (Lookup(m, name).Some? <==> LastNamed(kept, name).Some?) &&
      (LastNamed(kept, name).Some? ==> EntryOf(LastNamed(kept, name).value, projectName) == Ok(Lookup(m, name).value))
    decreases |kept|
  {
    if kept != [] {
      var prefix := kept[..|kept| - 1];
      var last := kept[|kept| - 1];
      MappingLastWins(prefix, projectName, name);
      var m0 := MappingOf(prefix, projectName).value;
      PutLookup(m0, last.vdjbaseName, EntryOf(last, projectName).value, name);
    }
  }

  // ---- verify_annotations_exist ----

  /** `filtered_df['airr_repertoire_id'].tolist()`. */
  function ExpectedIds(rows: seq<Row>, projectName: string): (ids: seq<string>)
    ensures |ids| == |KeptRows(rows, projectName)|
    ensures forall i :: 0 <= i < |ids| ==> ids[i] == KeptRows(rows, projectName)[i].airrRepertoireId
  {
    var kept := KeptRows(rows, projectName);
    seq(|kept|, i requires 0 <= i < |kept| => kept[i].airrRepertoireId)
  }

  /** The names of walked files that contain "Final". */
  function FinalFiles(walked: seq<string>): (found: seq<string>)
    ensures forall f :: f in found <==> f in walked && Contains(f, "Final")
  {
    if walked == [] then []
    else
      var last := walked[|walked| - 1];
      FinalFiles(walked[..|walked| - 1]) + (if Contains(last, "Final") then [last] else [])
  }

  /** `any(repertoire in f for f in found_files)`. */
  predicate Covered(id: string, found: seq<string>)
  {
    exists j :: 0 <= j < |found| && Contains(found[j], id)
  }

  /** The expected ids no found file mentions, in expected-list order. */
  function Missing(expected: seq<string>, found: seq<string>): (r: seq<string>)
  {
    if expected == [] then []
    else
      var last := expected[|expected| - 1];
      Missing(expected[..|expected| - 1], found) + (if Covered(last, found) then [] else [last])
  }

  datatype AnnotationCheck = AllPresent | MissingAnnotations(ids: seq<string>)

  function CheckAnnotations(rows: seq<Row>, projectName: string, walked: seq<string>): (r: AnnotationCheck)
  {
    var missing := Missing(ExpectedIds(rows, projectName), FinalFiles(walked));
    if missing == [] then AllPresent else MissingAnnotations(missing)
  }

  /**
   * `verify_annotations_exist` on the file names an `os.walk` of the annotated tree
   * yields: collect the "Final" files, then the expected ids none of them contains.
   */
  method VerifyAnnotationsExist(rows: seq<Row>, projectName: string, walked: seq<string>) returns (r: AnnotationCheck)
    ensures r == CheckAnnotations(rows, projectName, walked)
  {
    var expected := ExpectedIds(rows, projectName);
    var found: seq<string> := [];
    for i := 0 to |walked|
      invariant found == FinalFiles(walked[..i])
    {
      assert walked[..i + 1][..i] == walked[..i];
      if Contains(walked[i], "Final") {
        found := found + [walked[i]];
      }
    }
    assert walked[..|walked|] == walked;
    var missing: seq<string> := [];
    for i := 0 to |expected|
      invariant missing == Missing(expected[..i], found)
    {
      assert expected[..i + 1][..i] == expected[..i];
      if !Covered(expected[i], found) {
        missing := missing + [expected[i]];
      }
    }
    assert expected[..|expected|] == expected;
    if missing != [] {
      return MissingAnnotations(missing);
    }
    return AllPresent;
  }

  /** `a` is `b` with some elements left out, the rest in their order. */
  ghost predicate SubsequenceOf(a: seq<string>, b: seq<string>)
    decreases |b|
  {
    if a == [] then true
    else if b == [] then false
    else
      (a[|a| - 1] == b[|b| - 1] && SubsequenceOf(a[..|a| - 1], b[..|b| - 1]))
      || SubsequenceOf(a, b[..|b| - 1])
  }

  /**
   * The missing ids are exactly the expected ids that no found file contains, listed in
   * expected-list order.
   */
  lemma {:induction false} MissingExact(expected: seq<string>, found: seq<string>)
    ensures forall id :: id in Missing(expected, found) <==> id in expected && !Covered(id, found)
    ensures SubsequenceOf(Missing(expected, found), expected)
    ensures forall id ::
      multiset(Missing(expected, found))[id] == if Covered(id, found) then 0 else multiset(expected)[id]
  {
    MissingMembers(expected, found);
    MissingInOrder(expected, found);
    MissingCount(expected, found);
  }

  /** An uncovered id is listed once for every time it is expected, a covered one never. */
  lemma {:induction false} MissingCount(expected: seq<string>, found: seq<string>)
    ensures forall id ::
      multiset(Missing(expected, found))[id] == if Covered(id, found) then 0 else multiset(expected)[id]
    decreases |expected|
  {
    if expected != [] {
      var prefix := expected[..|expected| - 1];
      var last := expected[|expected| - 1];
      MissingCount(prefix, found);
      assert expected == prefix + [last];
      assert multiset(expected) == multiset(prefix) + multiset{last};
      var t := if Covered(last, found) then [] else [last];
      assert multiset(Missing(expected, found)) == multiset(Missing(prefix, found)) + multiset(t);
    }
  }

  /** Collecting the missing ids distributes over concatenation of the expected list. */
  lemma {:induction false} MissingAppend(a: seq<string>, b: seq<string>, found: seq<string>)
    ensures Missing(a + b, found) == Missing(a, found) + Missing(b, found)
    decreases |b|
  {
    if b == [] {
      assert a + b == a;
    } else {
      var prefix := b[..|b| - 1];
      var last := b[|b| - 1];
      var t := if Covered(last, found) then [] else [last];
      assert a + b == (a + prefix) + [last] && b == prefix + [last];
      calc {
        Missing(a + b, found);
        { MissingSnoc(a + prefix, last, found); }
        Missing(a + prefix, found) + t;
        { MissingAppend(a, prefix, found); }
        (Missing(a, found) + Missing(prefix, found)) + t;
        Missing(a, found) + (Missing(prefix, found) + t);
        { MissingSnoc(prefix, last, found); }
        Missing(a, found) + Missing(b, found);
      }
    }
  }

  lemma MissingSnoc(expected: seq<string>, id: string, found: seq<string>)
    ensures Missing(expected + [id], found)
      == Missing(expected, found) + (if Covered(id, found) then [] else [id])
  {
    assert (expected + [id])[..|expected|] == expected;
  }

  /** A single expected id is missing exactly when no found file contains it. */
  lemma MissingOne(id: string, found: seq<string>)
    ensures Missing([id], found) == if Covered(id, found) then [] else [id]
  {
    assert [id][..0] == [];
  }

  lemma {:induction false} MissingMembers(expected: seq<string>, found: seq<string>)
    ensures forall id :: id in Missing(expected, found) <==> id in expected && !Covered(id, found)
    decreases |expected|
  {
    if expected != [] {
      var prefix := expected[..|expected| - 1];
      MissingMembers(prefix, found);
      assert expected == prefix + [expected[|expected| - 1]];
    }
  }

  lemma {:induction false} MissingInOrder(expected: seq<string>, found: seq<string>)
    ensures SubsequenceOf(Missing(expected, found), expected)
    decreases |expected|
  {
    if expected != [] {
      var prefix := expected[..|expected| - 1];
      var last := expected[|expected| - 1];
      MissingInOrder(prefix, found);
      var m := Missing(expected, found);
      if !Covered(last, found) {
        assert m[..|m| - 1] == Missing(prefix, found);
      } else {
        assert m == Missing(prefix, found) + [] == Missing(prefix, found);
      }
    }
  }

  /**
   * The check passes iff every expected repertoire id occurs in the name of some walked
   * file that contains "Final"; otherwise it reports the missing ids.
   */
  lemma CheckPassesIff(rows: seq<Row>, projectName: string, walked: seq<string>)
    ensures CheckAnnotations(rows, projectName, walked) == AllPresent <==>
      forall id :: id in ExpectedIds(rows, projectName) ==>
        exists f :: f in walked && Contains(f, "Final") && Contains(f, id)
    ensures CheckAnnotations(rows, projectName, walked).MissingAnnotations? ==>
      CheckAnnotations(rows, projectName, walked).ids == Missing(ExpectedIds(rows, projectName), FinalFiles(walked))
  {
    var expected := ExpectedIds(rows, projectName);
    var found := FinalFiles(walked);
    var missing := Missing(expected, found);
    MissingExact(expected, found);
    if missing == [] {
      forall id | id in expected
        ensures exists f :: f in walked && Contains(f, "Final") && Contains(f, id)
      {
        CoveredByFinal(id, walked);
      }
    } else {
      assert missing[0] in missing;
      CoveredByFinal(missing[0], walked);
    }
  }

  lemma CoveredByFinal(id: string, walked: seq<string>)
    ensures Covered(id, FinalFiles(walked)) <==> exists f :: f in walked && Contains(f, "Final") && Contains(f, id)
  {
    var found := FinalFiles(walked);
    if exists f :: f in walked && Contains(f, "Final") && Contains(f, id) {
      var f :| f in walked && Contains(f, "Final") && Contains(f, id);
      assert f in found;
      var j :| 0 <= j < |found| && found[j] == f;
    }
    if Covered(id, found) {
      var j :| 0 <= j < |found| && Contains(found[j], id);
      assert found[j] in found;
    }
  }
}
