/**
 * The result-folder classifiers (`find_tsv_and_metadata_for_annotated` and
 * `find_metadata_for_pre_processed`). A result folder is given as its path and the
 * listing of its sub-folders, each with the listing of its files, in listing order.
 */
module Classifier {
  import opened Outcomes
  import opened Strings

  /** `REQUIRED_FILES`: markers of the files copied along with an annotated result. */
  const RequiredMarkers: seq<string> := ["haplotype", "genotype", "ogrdb_plots.pdf", "ogrdb_report.csv"]

  /** A sub-folder of a result folder and the names `os.listdir` gives for it. */
  datatype Folder = Folder(name: string, files: seq<string>)

  /** `os.path.join` of a directory path (as its components) and a file name. */
  datatype FilePath = FilePath(dir: seq<string>, file: string)

  /** How a file is recognised: by a substring of its name, or by its exact name. */
  datatype Marker = Containing(part: string) | Named(whole: string)

  predicate Marks(m: Marker, name: string)
  {
    match m
    case Containing(part) => Contains(name, part)
    case Named(whole) => name == whole
  }

  /** The marker of the annotation file (`'Finale' in file`). */
  const Primary: Marker := Containing("Finale")
  /** The marker of the repertoire-id file (`file == 'repertoire_id.json'`). */
  const IdsFile: Marker := Named("repertoire_id.json")

  /** The files of one sub-folder, with their paths, in listing order. */
  function FolderEntries(resultPath: seq<string>, f: Folder): (es: seq<FilePath>)
    ensures |es| == |f.files|
    ensures forall k :: 0 <= k < |es| ==> es[k] == FilePath(resultPath + [f.name], f.files[k])
  {
    seq(|f.files|, k requires 0 <= k < |f.files| => FilePath(resultPath + [f.name], f.files[k]))
  }

  /** Every file of the result folder in the order the nested loops visit them. */
  function Entries(resultPath: seq<string>, folders: seq<Folder>): (r: seq<FilePath>)
  {
    if folders == [] then []
    else Entries(resultPath, folders[..|folders| - 1]) + FolderEntries(resultPath, folders[|folders| - 1])
  }

  /** The last entry whose file name carries the marker. */
  function LastWhere(es: seq<FilePath>, m: Marker): (r: Option<FilePath>)
  {
    if es == [] then None
    else if Marks(m, es[|es| - 1].file) then Some(es[|es| - 1])
    else LastWhere(es[..|es| - 1], m)
  }

  /** A sub-folder whose name contains "meta_data" and whose listing holds `name`. */
  predicate MetaWith(f: Folder, name: string)
  {
    Contains(f.name, "meta_data") && name in f.files
  }

  /**
   * The last sub-folder whose name contains "meta_data" and whose listing holds `name`,
   * as the path of that file.
   */
  function LastMetaFile(resultPath: seq<string>, folders: seq<Folder>, name: string): (r: Option<FilePath>)
  {
    if folders == [] then None
    else
      var f := folders[|folders| - 1];
      if MetaWith(f, name) then Some(FilePath(resultPath + [f.name], name))
      else LastMetaFile(resultPath, folders[..|folders| - 1], name)
  }

  /** One copy of `e` for every marker among `markers` that its name contains, in marker order. */
  function Hits(e: FilePath, markers: seq<string>): (r: seq<FilePath>)
  {
    if markers == [] then []
    else Hits(e, markers[..|markers| - 1]) + (if Contains(e.file, markers[|markers| - 1]) then [e] else [])
  }

  /** The `required_files` list built over the given entries. */
  function Required(es: seq<FilePath>): (r: seq<FilePath>)
  {
    if es == [] then []
    else Required(es[..|es| - 1]) + Hits(es[|es| - 1], RequiredMarkers)
  }

  /** A complete annotated result: `res` once none of its values is `None`. */
  datatype Annotated = Annotated(
    filePath: FilePath,
    fileName: string,
    repertoireIds: FilePath,
    annotationMetadata: FilePath,
    requiredFiles: seq<FilePath>)

  function ClassifyAnnotated(resultPath: seq<string>, folders: seq<Folder>): (r: Option<Annotated>)
  {
    var es := Entries(resultPath, folders);
    var primary := LastWhere(es, Primary);
    var ids := LastWhere(es, IdsFile);
    var meta := LastMetaFile(resultPath, folders, "annotation_metadata.json");
    if primary.Some? && ids.Some? && meta.Some? then
      Some(Annotated(primary.value, primary.value.file, ids.value, meta.value, Required(es)))
    else None
  }

  /** The `res` dictionary of `find_tsv_and_metadata_for_annotated`; `None` is "not found yet". */
  datatype Res = Res(
    filePath: Option<FilePath>,
    fileName: Option<string>,
    repertoireIds: Option<FilePath>,
    annotationMetadata: Option<FilePath>,
    requiredFiles: seq<FilePath>)

  function NameOf(p: Option<FilePath>): (r: Option<string>)
  {
    match p
    case None => None
    case Some(path) => Some(path.file)
  }

  /** What `res` holds once the files `es` have been visited, with `meta` as the metadata file. */
  function Seen(es: seq<FilePath>, meta: Option<FilePath>): (r: Res)
  {
    var primary := LastWhere(es, Primary);
    Res(primary, NameOf(primary), LastWhere(es, IdsFile), meta, Required(es))
  }

  /**
   * `find_tsv_and_metadata_for_annotated`: every file of every sub-folder is checked
   * against "Finale", against "repertoire_id.json" and against each required marker;
   * after a sub-folder's files, the folder itself is checked for the metadata file.
   */
  method FindTsvAndMetadataForAnnotated(resultPath: seq<string>, folders: seq<Folder>) returns (r: Option<Annotated>)
    ensures r == ClassifyAnnotated(resultPath, folders)
  {
    var res := Res(None, None, None, None, []);
    for i := 0 to |folders|
      invariant res == Seen(Entries(resultPath, folders[..i]), LastMetaFile(resultPath, folders[..i], "annotation_metadata.json"))
    {
      var folder := folders[i];
      res := ScanFolderFiles(resultPath, folder, res, Entries(resultPath, folders[..i]));
      assert folders[..i + 1][..i] == folders[..i] && folders[..i + 1][i] == folder;
      if Contains(folder.name, "meta_data") && "annotation_metadata.json" in folder.files {
        res := res.(annotationMetadata := Some(FilePath(resultPath + [folder.name], "annotation_metadata.json")));
      }
    }
    assert folders[..|folders|] == folders;
    if res.filePath.Some? && res.fileName.Some? && res.repertoireIds.Some? && res.annotationMetadata.Some? {
      r := Some(Annotated(res.filePath.value, res.fileName.value, res.repertoireIds.value,
                          res.annotationMetadata.value, res.requiredFiles));
    } else {
      r := None;
    }
  }

  /** The loop over one sub-folder's files, continuing from what the earlier files left in `res`. */
  method ScanFolderFiles(resultPath: seq<string>, folder: Folder, res0: Res, ghost before: seq<FilePath>) returns (res: Res)
    requires res0 == Seen(before, res0.annotationMetadata)
    ensures res == Seen(before + FolderEntries(resultPath, folder), res0.annotationMetadata)
  {
    ghost var listed := FolderEntries(resultPath, folder);
    res := res0;
    assert before + listed[..0] == before;
    for j := 0 to |folder.files|
      invariant res == Seen(before + listed[..j], res0.annotationMetadata)
    {
      var file := folder.files[j];
      var entry := FilePath(resultPath + [folder.name], file);
      ghost var prior := before + listed[..j];
      assert before + listed[..j + 1] == prior + [entry];
      RequiredSnoc(prior, entry);
      LastWhereSnoc(prior, entry);
      if Contains(file, "Finale") {
        res := res.(filePath := Some(entry), fileName := Some(file));
      }
      if file == "repertoire_id.json" {
        res := res.(repertoireIds := Some(entry));
      }
      var hits := RequiredHits(entry);
      res := res.(requiredFiles := res.requiredFiles + hits);
    }
    assert listed[..|folder.files|] == listed;
  }

  /** The loop over `REQUIRED_FILES` for one file: one path per marker its name contains. */
  method RequiredHits(entry: FilePath) returns (hits: seq<FilePath>)
    ensures hits == Hits(entry, RequiredMarkers)
  {
    hits := [];
    for k := 0 to |RequiredMarkers|
      invariant hits == Hits(entry, RequiredMarkers[..k])
    {
      assert RequiredMarkers[..k + 1][..k] == RequiredMarkers[..k];
      if Contains(entry.file, RequiredMarkers[k]) {
        hits := hits + [entry];
      }
    }
    assert RequiredMarkers[..|RequiredMarkers|] == RequiredMarkers;
  }

  /** A complete pre-processed result. */
  datatype PreProcessed = PreProcessed(repertoireIds: FilePath, preProcessedMetadata: FilePath)

  function ClassifyPreProcessed(resultPath: seq<string>, folders: seq<Folder>): (r: Option<PreProcessed>)
  {
    var meta := LastMetaFile(resultPath, folders, "pre_processed_metadata.json");
    var ids := LastMetaFile(resultPath, folders, "repertoire_id.json");
    if ids.Some? && meta.Some? then Some(PreProcessed(ids.value, meta.value)) else None
  }

  /**
   * `find_metadata_for_pre_processed`: only sub-folders whose name contains "meta_data"
   * are looked at, and each may supply either file.
   */
  method FindMetadataForPreProcessed(resultPath: seq<string>, folders: seq<Folder>) returns (r: Option<PreProcessed>)
    ensures r == ClassifyPreProcessed(resultPath, folders)
  {
    var repertoireIds: Option<FilePath> := None;
    var preProcessedMetadata: Option<FilePath> := None;
    for i := 0 to |folders|
      invariant preProcessedMetadata == LastMetaFile(resultPath, folders[..i], "pre_processed_metadata.json")
      invariant repertoireIds == LastMetaFile(resultPath, folders[..i], "repertoire_id.json")
    {
      var folder := folders[i];
      assert folders[..i + 1][..i] == folders[..i];
      if Contains(folder.name, "meta_data") {
        if "pre_processed_metadata.json" in folder.files {
          preProcessedMetadata := Some(FilePath(resultPath + [folder.name], "pre_processed_metadata.json"));
        }
        if "repertoire_id.json" in folder.files {
          repertoireIds := Some(FilePath(resultPath + [folder.name], "repertoire_id.json"));
        }
      }
    }
    assert folders[..|folders|] == folders;
    if repertoireIds.Some? && preProcessedMetadata.Some? {
      r := Some(PreProcessed(repertoireIds.value, preProcessedMetadata.value));
    } else {
      r := None;
    }
  }

  /**
   * `LastWhere` finds the marked entry that no later entry follows, and finds nothing
   * exactly when no entry is marked.
   */
  lemma {:induction false} LastWhereIsLast(es: seq<FilePath>, m: Marker)
    ensures LastWhere(es, m).None? <==> forall i :: 0 <= i < |es| ==> !Marks(m, es[i].file)
    ensures LastWhere(es, m).Some? ==>
      exists i :: 0 <= i < |es| && es[i] == LastWhere(es, m).value && Marks(m, es[i].file) &&
        forall j :: i < j < |es| ==> !Marks(m, es[j].file)
    decreases |es|
  {
    if es != [] {
      var prefix := es[..|es| - 1];
      LastWhereIsLast(prefix, m);
      if Marks(m, es[|es| - 1].file) {
        assert es[|es| - 1] == LastWhere(es, m).value;
      } else if LastWhere(prefix, m).Some? {
        var i :| 0 <= i < |prefix| && prefix[i] == LastWhere(prefix, m).value && Marks(m, prefix[i].file) &&
          forall j :: i < j < |prefix| ==> !Marks(m, prefix[j].file);
        assert es[i] == prefix[i];
      } else {
        forall i | 0 <= i < |es| ensures !Marks(m, es[i].file) {
          if i < |prefix| { assert es[i] == prefix[i]; }
        }
      }
    }
  }

  /**
   * `LastMetaFile` names the file inside the last "meta_data" folder that lists it, and
   * finds nothing exactly when no such folder exists.
   */
  lemma LastMetaFileIsLast(resultPath: seq<string>, folders: seq<Folder>, name: string)
    ensures LastMetaFile(resultPath, folders, name).None? <==>
      forall i :: 0 <= i < |folders| ==> !MetaWith(folders[i], name)
    ensures LastMetaFile(resultPath, folders, name).Some? ==>
      exists i :: 0 <= i < |folders| && MetaWith(folders[i], name) &&
        LastMetaFile(resultPath, folders, name).value == FilePath(resultPath + [folders[i].name], name) &&
        forall j :: i < j < |folders| ==> !MetaWith(folders[j], name)
  {
    LastMetaFileNone(resultPath, folders, name);
    LastMetaFileSome(resultPath, folders, name);
  }

  lemma {:induction false} LastMetaFileNone(resultPath: seq<string>, folders: seq<Folder>, name: string)
    ensures LastMetaFile(resultPath, folders, name).None? <==>
      forall i :: 0 <= i < |folders| ==> !MetaWith(folders[i], name)
    decreases |folders|
  {
    if folders != [] {
      var prefix := folders[..|folders| - 1];
      var last := |folders| - 1;
      LastMetaFileNone(resultPath, prefix, name);
      if !MetaWith(folders[last], name) {
        assert LastMetaFile(resultPath, folders, name) == LastMetaFile(resultPath, prefix, name);
        if LastMetaFile(resultPath, prefix, name).None? {
          forall i | 0 <= i < |folders| ensures !MetaWith(folders[i], name) {
            if i < last { assert folders[i] == prefix[i]; }
          }
        } else {
          var i :| 0 <= i < |prefix| && MetaWith(prefix[i], name);
          assert folders[i] == prefix[i];
        }
      }
    }
  }

  lemma {:induction false} LastMetaFileSome(resultPath: seq<string>, folders: seq<Folder>, name: string)
    ensures LastMetaFile(resultPath, folders, name).Some? ==>
      exists i :: 0 <= i < |folders| && MetaWith(folders[i], name) &&
        LastMetaFile(resultPath, folders, name).value == FilePath(resultPath + [folders[i].name], name) &&
        forall j :: i < j < |folders| ==> !MetaWith(folders[j], name)
    decreases |folders|
  {
    if folders != [] {
      var prefix := folders[..|folders| - 1];
      var last := |folders| - 1;
      var r := LastMetaFile(resultPath, folders, name);
      if MetaWith(folders[last], name) {
        assert r.value == FilePath(resultPath + [folders[last].name], name);
      } else if r.Some? {
        assert r == LastMetaFile(resultPath, prefix, name);
        LastMetaFileSome(resultPath, prefix, name);
        var i :| 0 <= i < |prefix| && MetaWith(prefix[i], name) &&
          r.value == FilePath(resultPath + [prefix[i].name], name) &&
          forall j :: i < j < |prefix| ==> !MetaWith(prefix[j], name);
        assert folders[i] == prefix[i];
        forall j | i < j < |folders| ensures !MetaWith(folders[j], name) {
          if j < last { assert folders[j] == prefix[j]; }
        }
      }
    }
  }

  /** How many of the markers, counted with repetition, occur in the file name. */
  function MarkerCount(file: string, markers: seq<string>): (n: nat)
    ensures n <= |markers|
  {
    if markers == [] then 0
    else (if Contains(file, markers[0]) then 1 else 0) + MarkerCount(file, markers[1..])
  }

  lemma {:induction false} MarkerCountSnoc(file: string, markers: seq<string>, m: string)
    ensures MarkerCount(file, markers + [m]) == MarkerCount(file, markers) + (if Contains(file, m) then 1 else 0)
    decreases |markers|
  {
    if markers == [] {
      assert [m][1..] == [];
    } else {
      assert (markers + [m])[1..] == markers[1..] + [m];
      MarkerCountSnoc(file, markers[1..], m);
    }
  }

  /** `Hits` holds only copies of its file, one for each marker its name contains. */
  lemma {:induction false} HitsMembers(e: FilePath, markers: seq<string>)
    ensures forall x :: x in Hits(e, markers) ==> x == e
    ensures |Hits(e, markers)| == MarkerCount(e.file, markers)
    ensures e in Hits(e, markers) <==> exists m :: m in markers && Contains(e.file, m)
    decreases |markers|
  {
    if markers != [] {
      var prefix := markers[..|markers| - 1];
      var last := markers[|markers| - 1];
      HitsMembers(e, prefix);
      assert prefix + [last] == markers;
      MarkerCountSnoc(e.file, prefix, last);
      if Contains(e.file, last) {
        assert last in markers;
      } else {
        forall m | m in markers && Contains(e.file, m) ensures m in prefix {
          var k :| 0 <= k < |markers| && markers[k] == m;
          assert k < |prefix| && prefix[k] == m;
        }
      }
    }
  }

  /**
   * A path enters `required_files` exactly when it names a listed file that contains one
   * of the required markers.
   */
  lemma {:induction false} RequiredMembers(es: seq<FilePath>)
    ensures forall x :: x in Required(es) <==> x in es && exists m :: m in RequiredMarkers && Contains(x.file, m)
    decreases |es|
  {
    if es != [] {
      var prefix := es[..|es| - 1];
      var last := es[|es| - 1];
      RequiredMembers(prefix);
      HitsMembers(last, RequiredMarkers);
      assert es == prefix + [last];
    }
  }

  lemma LastWhereSnoc(es: seq<FilePath>, e: FilePath)
    ensures LastWhere(es + [e], Primary) == if Contains(e.file, "Finale") then Some(e) else LastWhere(es, Primary)
    ensures LastWhere(es + [e], IdsFile) == if e.file == "repertoire_id.json" then Some(e) else LastWhere(es, IdsFile)
  {
    assert (es + [e])[..|es|] == es;
  }

  lemma RequiredSnoc(es: seq<FilePath>, e: FilePath)
    ensures Required(es + [e]) == Required(es) + Hits(e, RequiredMarkers)
  {
    assert (es + [e])[..|es|] == es;
  }

  /** `required_files` lists the hits file by file in listing order. */
  lemma {:induction false} RequiredAppend(a: seq<FilePath>, b: seq<FilePath>)
    ensures Required(a + b) == Required(a) + Required(b)
    decreases |b|
  {
    if b == [] {
      assert a + b == a;
    } else {
      var prefix := b[..|b| - 1];
      var last := b[|b| - 1];
      assert a + b == (a + prefix) + [last] && b == prefix + [last];
      calc {
        Required(a + b);
        { RequiredSnoc(a + prefix, last); }
        Required(a + prefix) + Hits(last, RequiredMarkers);
        { RequiredAppend(a, prefix); }
        (Required(a) + Required(prefix)) + Hits(last, RequiredMarkers);
        Required(a) + (Required(prefix) + Hits(last, RequiredMarkers));
        { RequiredSnoc(prefix, last); }
        Required(a) + Required(b);
      }
    }
  }

  /**
   * An annotated result exists exactly when some file contains "Finale", some file (in
   * any sub-folder) is named "repertoire_id.json", and some "meta_data" folder lists
   * "annotation_metadata.json"; its file name is the name in its file path, and the
   * required-file list may be empty.
   */
  lemma AnnotatedComplete(resultPath: seq<string>, folders: seq<Folder>)
    ensures var es := Entries(resultPath, folders);
      ClassifyAnnotated(resultPath, folders).Some? <==>
        (exists i :: 0 <= i < |es| && Contains(es[i].file, "Finale")) &&
        (exists i :: 0 <= i < |es| && es[i].file == "repertoire_id.json") &&
        (exists i :: 0 <= i < |folders| && MetaWith(folders[i], "annotation_metadata.json"))
    ensures ClassifyAnnotated(resultPath, folders).Some? ==>
      var a := ClassifyAnnotated(resultPath, folders).value;
      a.fileName == a.filePath.file && Contains(a.fileName, "Finale") &&
      a.repertoireIds.file == "repertoire_id.json" &&
      a.annotationMetadata.file == "annotation_metadata.json" &&
      a.requiredFiles == Required(Entries(resultPath, folders))
  {
    var es := Entries(resultPath, folders);
    LastWhereIsLast(es, Primary);
    LastWhereIsLast(es, IdsFile);
    LastMetaFileIsLast(resultPath, folders, "annotation_metadata.json");
  }

  /**
   * A pre-processed result exists exactly when "meta_data" folders list both
   * "pre_processed_metadata.json" and "repertoire_id.json"; both paths point into such
   * a folder, so a "repertoire_id.json" elsewhere does not count.
   */
  lemma PreProcessedComplete(resultPath: seq<string>, folders: seq<Folder>)
    ensures ClassifyPreProcessed(resultPath, folders).Some? <==>
      (exists i :: 0 <= i < |folders| && MetaWith(folders[i], "pre_processed_metadata.json")) &&
      (exists i :: 0 <= i < |folders| && MetaWith(folders[i], "repertoire_id.json"))
    ensures ClassifyPreProcessed(resultPath, folders).Some? ==>
      var p := ClassifyPreProcessed(resultPath, folders).value;
      (exists i :: 0 <= i < |folders| && MetaWith(folders[i], "repertoire_id.json") &&
        p.repertoireIds == FilePath(resultPath + [folders[i].name], "repertoire_id.json")) &&
      (exists i :: 0 <= i < |folders| && MetaWith(folders[i], "pre_processed_metadata.json") &&
        p.preProcessedMetadata == FilePath(resultPath + [folders[i].name], "pre_processed_metadata.json"))
  {
    LastMetaFileIsLast(resultPath, folders, "pre_processed_metadata.json");
    LastMetaFileIsLast(resultPath, folders, "repertoire_id.json");
  }
}
