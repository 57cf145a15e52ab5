/**
 * The directory scan (`start_scan`, `scan_subject_folder`, `scan_run_folder`): every
 * result folder below subject / sample / run is classified, and the complete results
 * are collected in traversal order.
 */
module Scanner {
  import opened Outcomes
  import opened Classifier

  /** The listings below the annotated (or pre-processed) folder, as a tree of names. */
  datatype ResultDir = ResultDir(name: string, folders: seq<Folder>)
  datatype Run = Run(name: string, results: seq<ResultDir>)
  datatype Sample = Sample(name: string, runs: seq<Run>)
  datatype Subject = Subject(name: string, samples: seq<Sample>)

  /** One entry of a scan's output list. */
  datatype Record = AnnotatedRecord(annotated: Annotated) | PreProcessedRecord(preProcessed: PreProcessed)

  /** A result folder with its full path. */
  datatype Located = Located(path: seq<string>, folders: seq<Folder>)

  /** The classifier `scan_run_folder` calls, chosen by the `pre_processed` flag. */
  function Classify(r: Located, preProcessed: bool): (c: Option<Record>)
  {
    if !preProcessed then
      match ClassifyAnnotated(r.path, r.folders)
      case None => None
      case Some(a) => Some(AnnotatedRecord(a))
    else
      match ClassifyPreProcessed(r.path, r.folders)
      case None => None
      case Some(p) => Some(PreProcessedRecord(p))
  }

  /** The classified results of the given result folders, in order, the incomplete ones dropped. */
  function Keep(results: seq<Located>, preProcessed: bool): (r: seq<Record>)
  {
    if results == [] then []
    else
      var last := Classify(results[|results| - 1], preProcessed);
      Keep(results[..|results| - 1], preProcessed) + (if last.Some? then [last.value] else [])
  }

  /** The result folders of one run. */
  function RunResults(runPath: seq<string>, results: seq<ResultDir>): (rs: seq<Located>)
    ensures |rs| == |results|
    ensures forall k :: 0 <= k < |rs| ==> rs[k] == Located(runPath + [results[k].name], results[k].folders)
  {
    seq(|results|, k requires 0 <= k < |results| => Located(runPath + [results[k].name], results[k].folders))
  }

  /** The result folders below a sample, run by run. */
  function SampleResults(samplePath: seq<string>, runs: seq<Run>): (r: seq<Located>)
  {
    if runs == [] then []
    else
      var run := runs[|runs| - 1];
      SampleResults(samplePath, runs[..|runs| - 1]) + RunResults(samplePath + [run.name], run.results)
  }

  /** The result folders below a subject, sample by sample. */
  function SubjectResults(subjectPath: seq<string>, samples: seq<Sample>): (r: seq<Located>)
  {
    if samples == [] then []
    else
      var sample := samples[|samples| - 1];
      SubjectResults(subjectPath, samples[..|samples| - 1]) + SampleResults(subjectPath + [sample.name], sample.runs)
  }

  /** Every result folder below the scanned folder, subject by subject. */
  function AllResults(folderPath: seq<string>, subjects: seq<Subject>): (r: seq<Located>)
  {
    if subjects == [] then []
    else
      var subject := subjects[|subjects| - 1];
      AllResults(folderPath, subjects[..|subjects| - 1]) + SubjectResults(folderPath + [subject.name], subject.samples)
  }

  /** Classification distributes over concatenation: the output keeps traversal order. */
  lemma {:induction false} KeepAppend(a: seq<Located>, b: seq<Located>, preProcessed: bool)
    ensures Keep(a + b, preProcessed) == Keep(a, preProcessed) + Keep(b, preProcessed)
    decreases |b|
  {
    if b == [] {
      assert a + b == a;
    } else {
      var prefix := b[..|b| - 1];
      KeepAppend(a, prefix, preProcessed);
      assert (a + b)[..|a + b| - 1] == a + prefix;
      assert (a + b)[|a + b| - 1] == b[|b| - 1];
    }
  }

  /** The classifier call in the loop, dispatched on the flag. */
  method ClassifyResult(r: Located, preProcessed: bool) returns (c: Option<Record>)
    ensures c == Classify(r, preProcessed)
  {
    if !preProcessed {
      var a := FindTsvAndMetadataForAnnotated(r.path, r.folders);
      c := if a.Some? then Some(AnnotatedRecord(a.value)) else None;
    } else {
      var p := FindMetadataForPreProcessed(r.path, r.folders);
      c := if p.Some? then Some(PreProcessedRecord(p.value)) else None;
    }
  }

  /** `scan_run_folder`: every result folder of every run, keeping the complete ones. */
  method ScanRunFolder(samplePath: seq<string>, runs: seq<Run>, preProcessed: bool) returns (files: seq<Record>)
    ensures files == Keep(SampleResults(samplePath, runs), preProcessed)
  {
    files := [];
    for i := 0 to |runs|
      invariant files == Keep(SampleResults(samplePath, runs[..i]), preProcessed)
    {
      var run := runs[i];
      var runPath := samplePath + [run.name];
      var found := ScanRunResults(runPath, run.results, preProcessed);
      assert runs[..i + 1][..i] == runs[..i] && runs[..i + 1][i] == run;
      KeepAppend(SampleResults(samplePath, runs[..i]), RunResults(runPath, run.results), preProcessed);
      files := files + found;
    }
    assert runs[..|runs|] == runs;
  }

  /** The inner loop of `scan_run_folder`, over the result folders of one run. */
  method ScanRunResults(runPath: seq<string>, results: seq<ResultDir>, preProcessed: bool) returns (files: seq<Record>)
    ensures files == Keep(RunResults(runPath, results), preProcessed)
  {
    ghost var listed := RunResults(runPath, results);
    files := [];
    for j := 0 to |results|
      invariant files == Keep(listed[..j], preProcessed)
    {
      var located := Located(runPath + [results[j].name], results[j].folders);
      assert listed[..j + 1] == listed[..j] + [located];
      KeepAppend(listed[..j], [located], preProcessed);
      var file := ClassifyResult(located, preProcessed);
      if file.Some? {
        files := files + [file.value];
      }
    }
    assert listed[..|results|] == listed;
  }

  /** `scan_subject_folder`: the run scans of every sample, concatenated. */
  method ScanSubjectFolder(subjectPath: seq<string>, samples: seq<Sample>, preProcessed: bool) returns (files: seq<Record>)
    ensures files == Keep(SubjectResults(subjectPath, samples), preProcessed)
  {
    files := [];
    for i := 0 to |samples|
      invariant files == Keep(SubjectResults(subjectPath, samples[..i]), preProcessed)
    {
      var sample := samples[i];
      var found := ScanRunFolder(subjectPath + [sample.name], sample.runs, preProcessed);
      assert samples[..i + 1][..i] == samples[..i] && samples[..i + 1][i] == sample;
      KeepAppend(SubjectResults(subjectPath, samples[..i]), SampleResults(subjectPath + [sample.name], sample.runs), preProcessed);
      files := files + found;
    }
    assert samples[..|samples|] == samples;
  }

  /** `start_scan`: the subject scans of every subject, concatenated. */
  method StartScan(folderPath: seq<string>, subjects: seq<Subject>, preProcessed: bool) returns (files: seq<Record>)
    ensures files == Keep(AllResults(folderPath, subjects), preProcessed)
  {
    files := [];
    for i := 0 to |subjects|
      invariant files == Keep(AllResults(folderPath, subjects[..i]), preProcessed)
    {
      var subject := subjects[i];
      var found := ScanSubjectFolder(folderPath + [subject.name], subject.samples, preProcessed);
      assert subjects[..i + 1][..i] == subjects[..i] && subjects[..i + 1][i] == subject;
      KeepAppend(AllResults(folderPath, subjects[..i]), SubjectResults(folderPath + [subject.name], subject.samples), preProcessed);
      files := files + found;
    }
    assert subjects[..|subjects|] == subjects;
  }

  /**
   * A record is in the output exactly when some result folder classifies to it; an
   * annotated scan yields only annotated records and a pre-processed scan only
   * pre-processed ones; there is never more than one record per result folder.
   */
  lemma KeepExact(results: seq<Located>, preProcessed: bool)
    ensures forall rec :: rec in Keep(results, preProcessed) <==>
      exists k :: 0 <= k < |results| && Classify(results[k], preProcessed) == Some(rec)
    ensures forall rec :: rec in Keep(results, preProcessed) ==>
      (if preProcessed then rec.PreProcessedRecord? else rec.AnnotatedRecord?)
    ensures |Keep(results, preProcessed)| <= |results|
  {
    var os := Classified(results, preProcessed);
    KeepSomes(results, preProcessed);
    SomesMembers(os);
    forall rec | rec in Keep(results, preProcessed)
      ensures if preProcessed then rec.PreProcessedRecord? else rec.AnnotatedRecord?
    {
      var k :| 0 <= k < |os| && os[k] == Some(rec);
      assert Classify(results[k], preProcessed) == Some(rec);
    }
  }

  /** The classifier's answer for every result folder, in order. */
  function Classified(results: seq<Located>, preProcessed: bool): (os: seq<Option<Record>>)
    ensures |os| == |results|
    ensures forall k :: 0 <= k < |results| ==> os[k] == Classify(results[k], preProcessed)
  {
    seq(|results|, k requires 0 <= k < |results| => Classify(results[k], preProcessed))
  }

  /** The values of the present options, in order. */
  function Somes<T>(os: seq<Option<T>>): (r: seq<T>)
  {
    if os == [] then []
    else Somes(os[..|os| - 1]) + (if os[|os| - 1].Some? then [os[|os| - 1].value] else [])
  }

  /** A value is kept exactly when some option holds it, and no option yields two values. */
  lemma {:induction false} SomesMembers<T>(os: seq<Option<T>>)
    ensures forall x :: x in Somes(os) <==> exists k :: 0 <= k < |os| && os[k] == Some(x)
    ensures |Somes(os)| <= |os|
    decreases |os|
  {
    if os != [] {
      var n := |os| - 1;
      var prefix := os[..n];
      SomesMembers(prefix);
      forall x ensures x in Somes(os) <==> exists k :: 0 <= k < |os| && os[k] == Some(x) {
        if exists k :: 0 <= k < |os| && os[k] == Some(x) {
          var k :| 0 <= k < |os| && os[k] == Some(x);
          if k < n { assert prefix[k] == Some(x); }
        }
        if x in Somes(prefix) {
          var k :| 0 <= k < |prefix| && prefix[k] == Some(x);
          assert os[k] == prefix[k];
        }
      }
    }
  }

  /** Collecting the complete results keeps the classifier's present answers, in order. */
  lemma {:induction false} KeepSomes(results: seq<Located>, preProcessed: bool)
    ensures Keep(results, preProcessed) == Somes(Classified(results, preProcessed))
    decreases |results|
  {
    if results != [] {
      var n := |results| - 1;
      var prefix := results[..n];
      KeepSomes(prefix, preProcessed);
      var os := Classified(results, preProcessed);
      assert os[..n] == Classified(prefix, preProcessed);
    }
  }
}
