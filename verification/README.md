# Annotation_to_VDJbase, modelled in Dafny

`Annotation_to_VDJbase.py` moves annotated AIRR-seq results into a VDJbase project. It:
- reads the project's correspondence table (`airr_correspondence.csv`);
- checks that every expected repertoire has a "Final" annotation file;
- scans the `annotated` and `pre_processed` trees (subject / sample / run / result) for result folders;
- merges each result's metadata fragment into the project metadata document, under the matching repertoire's `data_processing[0]`.

`remove_chain_from_repertoire.py` rewrites a project metadata file, removing the chain suffixes `_IGH`, `_IGK` and `_IGL` from every `repertoire_id`.

This project models the data transformations beneath that plumbing. Directory listings, parsed JSON documents and parsed CSV rows are plain values here. Each Python loop is a Dafny method proved equal to a reference function, and the properties the code promises are lemmas about those functions.

| file | module | models |
|---|---|---|
| `outcomes.dfy` | `Outcomes` | `Option`, Python exceptions (`PyError`), `Result`, and a loop that stops at the first exception |
| `strings.dfy` | `Strings` | `sub in s`, `str.replace(tok, '')`, `str.split`, `str.join` |
| `assoc.dfy` | `Assoc` | insertion-ordered dictionaries: lookup, assignment |
| `json.dfy` | `Json` | JSON values as `json.load` yields them; `d[key]`, `for x in v` |
| `merge.dfy` | `MergeJson` | `merge_json_data_recursive` |
| `update.dfy` | `MetadataUpdate` | `update_annotated_metadata`, `update_pre_processed_metadata` |
| `correspondence.dfy` | `Correspondence` | `derive_vdjbase_project_mapping`, the missing-id computation of `verify_annotations_exist` |
| `classify.dfy` | `Classifier` | `find_tsv_and_metadata_for_annotated`, `find_metadata_for_pre_processed` |
| `scan.dfy` | `Scanner` | `start_scan`, `scan_subject_folder`, `scan_run_folder` |
| `chain.dfy` | `ChainStrip` | `remove_chain_from_repertoire.py` |

Python dictionaries are association lists in insertion order.
- Assigning to an existing key keeps its position; assigning to a new key appends it.
- This is the order `json.dump` writes.

A Python exception is the `Err` case of a `Result`, with the exception's class:
- `d[key]` on a dictionary without the key raises `KeyError`.
- `d[key]` on anything else raises `TypeError`.
- `.items()` or `.replace` on the wrong type raises `AttributeError`.
- `x[0]` on an empty list or string raises `IndexError`.
- A bad tuple unpacking raises `ValueError`.

A loop that stops at the first exception returns that exception (`Outcomes.Collect`).

## Behaviour worth knowing

- **"Finale" files.** When several files contain "Finale", the code records the last one in listing order. `Classifier.LastWhereIsLast` states this.
- **Where `repertoire_id.json` may be.** For an annotated result, the code accepts it from any sub-folder, not only from a "meta_data" folder. `Classifier.AnnotatedComplete` states this.
- **Which marker each check uses.** The annotation check looks for "Final", while the classifier looks for "Finale".
- **A second chain-stripping run can change an id again.** `"_IG_IGKH"` becomes `"_IGH"`, and then `""`. `ChainStrip.StripChainNotIdempotent` states this.

## Model

| member | source | states |
|---|---|---|
| `Strings.ContainsIffOccurs` | Annotation_to_VDJbase.py:236 | `sub in s` holds exactly when `sub` occurs at some position of `s` |
| `Strings.RemoveShortens` | remove_chain_from_repertoire.py:22 | `replace(tok, '')` never lengthens a string, and shortens it exactly when `tok` occurs in it |
| `Strings.RemoveIdentity` | remove_chain_from_repertoire.py:22 | `replace(tok, '')` leaves a string unchanged exactly when `tok` does not occur in it |
| `Strings.RemoveTrailing` | remove_chain_from_repertoire.py:22 | a trailing occurrence of a token whose first character does not recur is removed, and nothing else changes |
| `Strings.SplitJoin` | Annotation_to_VDJbase.py:322 | `split('_')` and `'_'.join` are inverse; no piece holds `_`; there is one more piece than there are `_` |
| `Assoc.PutLookup` | Annotation_to_VDJbase.py:98-100 | after `d[k] = v`, `d[k]` is `v` and every other key keeps its value |
| `Assoc.PutKeys` | Annotation_to_VDJbase.py:98-100 | `d[k] = v` keeps the key order when `k` is present and appends `k` otherwise; keys stay unique |
| `Json.GetKey` | Annotation_to_VDJbase.py:70-73 | `j[key]` succeeds exactly on a dictionary holding `key` and yields its value; otherwise it raises `KeyError` on a dictionary without `key` and `TypeError` on anything else |
| `Json.Iterate` | Annotation_to_VDJbase.py:71 | a `for` loop visits a list's elements; a dictionary's keys, one string per key in insertion order; or a string's characters, one single-character string per position; anything else raises `TypeError` |
| `MergeJson.MergeJsonDataRecursive` | Annotation_to_VDJbase.py:85-102 | the loop over `new_data.items()` yields the fold that merges members in order (nested objects recursively, two lists concatenated, anything else overwritten, new keys appended) |
| `MergeJson.MergeLookup` | Annotation_to_VDJbase.py:91-100 | after the merge, a key only in the original keeps its value and a new key takes the incoming value; a key in both holds the recursive merge of two objects, the original list followed by the incoming one (no deduplication), or else the incoming value |
| `MergeJson.MergeKeyOrder` | Annotation_to_VDJbase.py:98-100 | overwritten and merged keys keep their positions; new keys follow in incoming order; keys stay unique |
| `MergeJson.MergeJsonDataOutcome` | Annotation_to_VDJbase.py:85-102 | the merge fails exactly when `new_data` is not a dictionary (`AttributeError`), or is a non-empty one and the original is not (`TypeError`); an empty `new_data` returns the original; otherwise every original key keeps its place and every incoming key is present |
| `MetadataUpdate.UpdateRepertoireMetadata` | Annotation_to_VDJbase.py:69-82 | the loop over `Repertoire` yields the document in which every matching repertoire's `data_processing[0]` is merged with the fragment; the first exception ends the call |
| `MetadataUpdate.UpdateRepertoires` | Annotation_to_VDJbase.py:71-74 | the loop over the repertoires yields each one updated in turn, or the first exception |
| `MetadataUpdate.UpdateRepertoire` | Annotation_to_VDJbase.py:72-74 | one repertoire: untouched when its id differs; otherwise `data_processing[0]` becomes the merge, with the exceptions each step raises |
| `MetadataUpdate.UpdateItemsStops` | Annotation_to_VDJbase.py:71-74 | an exception raised for one repertoire is the outcome of the whole loop |
| `MetadataUpdate.UpdateItemsPointwise` | Annotation_to_VDJbase.py:71-74 | a successful loop keeps the list's length and order, updates each repertoire on its own, and leaves non-matching repertoires unchanged |
| `MetadataUpdate.MatchUpdate` | Annotation_to_VDJbase.py:72-74 | in a matching repertoire, `data_processing[0]` becomes the merge of the fragment into it; later `data_processing` entries and all other members keep their values and order |
| `MetadataUpdate.NoMatchUnchanged` | Annotation_to_VDJbase.py:69-74 | with no matching repertoire the document is unchanged and no entry is added; a fragment without `sample.data_processing` raises even then |
| `MetadataUpdate.UnmatchedItemsUnchanged` | Annotation_to_VDJbase.py:71-72 | a list of repertoires none of which matches passes through the loop unchanged |
| `MetadataUpdate.UpdateShape` | Annotation_to_VDJbase.py:69-74 | a successful update changes only the `Repertoire` member; the list keeps its length; every match is updated, not only the first |
| `Correspondence.KeptRows` | Annotation_to_VDJbase.py:314 | the kept rows are exactly the rows whose `airr_file` contains the project name |
| `Correspondence.KeptRowsAppend` | Annotation_to_VDJbase.py:314 | filtering distributes over concatenation, so kept rows keep table order and duplicates |
| `Correspondence.KeptRow` | Annotation_to_VDJbase.py:314 | a single row is kept exactly when its `airr_file` contains the project name |
| `Correspondence.DeriveVdjbaseProjectMapping` | Annotation_to_VDJbase.py:310-333 | the loop over the kept rows yields the mapping built entry by entry, or the `ValueError` of the first badly formed name |
| `Correspondence.MappingFails` | Annotation_to_VDJbase.py:322 | the mapping raises `ValueError` exactly when some kept `vdjbase_name` does not split into three parts |
| `Correspondence.MappingEntries` | Annotation_to_VDJbase.py:317-331 | every entry is keyed by its `vdjbase_name`; its three parts hold no `_` and joined with `_` give back the name; keys are unique |
| `Correspondence.MappingLastWins` | Annotation_to_VDJbase.py:324-331 | a name maps to the entry of the last kept row carrying it |
| `Correspondence.ExpectedIds` | Annotation_to_VDJbase.py:339-340 | one expected id per kept row: the i-th is the `airr_repertoire_id` of the i-th kept row |
| `Correspondence.FinalFiles` | Annotation_to_VDJbase.py:352-355 | the found files are exactly the walked file names containing "Final" |
| `Correspondence.VerifyAnnotationsExist` | Annotation_to_VDJbase.py:336-366 | the two loops yield the missing ids of the expected list, or success when none is missing |
| `Correspondence.MissingExact` | Annotation_to_VDJbase.py:358-361 | the missing ids are exactly the expected ids that no found file contains, in expected-list order, each listed as often as it is expected |
| `Correspondence.MissingCount` | Annotation_to_VDJbase.py:358-361 | an uncovered id is listed once per occurrence in the expected list; a covered id is never listed |
| `Correspondence.MissingAppend` | Annotation_to_VDJbase.py:358-361 | collecting missing ids distributes over concatenation of the expected list, so the loop appends in expected-list order |
| `Correspondence.MissingOne` | Annotation_to_VDJbase.py:359-361 | a single expected id is listed exactly when no found file contains it |
| `Correspondence.MissingMembers` | Annotation_to_VDJbase.py:358-361 | an id is missing exactly when it is expected and no found file contains it |
| `Correspondence.MissingInOrder` | Annotation_to_VDJbase.py:358-361 | the missing ids keep the order of the expected list |
| `Correspondence.CheckPassesIff` | Annotation_to_VDJbase.py:352-366 | the check passes exactly when every expected id occurs in some walked file name containing "Final"; otherwise it reports the missing ids |
| `Correspondence.CoveredByFinal` | Annotation_to_VDJbase.py:359-360 | an id is covered exactly when some walked "Final" file name contains it |
| `Classifier.FindTsvAndMetadataForAnnotated` | Annotation_to_VDJbase.py:221-257 | the nested loops yield the result built from the last "Finale" file, the last `repertoire_id.json`, the last "meta_data" folder holding `annotation_metadata.json`, and the required hits; the result is kept only when all three files were found |
| `Classifier.ScanFolderFiles` | Annotation_to_VDJbase.py:235-245 | the loop over one sub-folder's files extends what `res` holds over the earlier files to those files as well |
| `Classifier.RequiredHits` | Annotation_to_VDJbase.py:243-245 | the loop over `REQUIRED_FILES` adds one path per marker the file name contains, in marker order |
| `Classifier.FindMetadataForPreProcessed` | Annotation_to_VDJbase.py:194-217 | the loop yields both files from the last "meta_data" folder listing each, and a result only when both were found |
| `Classifier.LastWhereIsLast` | Annotation_to_VDJbase.py:235-241 | the recorded file is a marked one that no later marked file follows; nothing is recorded exactly when no file is marked |
| `Classifier.LastMetaFileIsLast` | Annotation_to_VDJbase.py:205-210 | the metadata file comes from the last "meta_data" folder that lists it; nothing is recorded exactly when no such folder exists |
| `Classifier.HitsMembers` | Annotation_to_VDJbase.py:243-245 | the file is added once per marker it contains, so a name holding two markers is listed twice; nothing else is added |
| `Classifier.RequiredMembers` | Annotation_to_VDJbase.py:235-245 | a path is in `required_files` exactly when its file name contains a required marker |
| `Classifier.RequiredAppend` | Annotation_to_VDJbase.py:235-245 | `required_files` lists hits in listing order, sub-folder after sub-folder |
| `Classifier.AnnotatedComplete` | Annotation_to_VDJbase.py:221-257 | an annotated result exists exactly when a "Finale" file, a `repertoire_id.json` in any sub-folder and a "meta_data" folder listing `annotation_metadata.json` all exist; its file name is that of its path; an empty required list does not block it |
| `Classifier.PreProcessedComplete` | Annotation_to_VDJbase.py:194-217 | a pre-processed result exists exactly when "meta_data" folders list both files, and both paths point into such folders |
| `Scanner.ClassifyResult` | Annotation_to_VDJbase.py:182-186 | the `pre_processed` flag selects which classifier a result folder goes to |
| `Scanner.ScanRunFolder` | Annotation_to_VDJbase.py:175-191 | the loops over runs and result folders yield the complete results in traversal order |
| `Scanner.ScanRunResults` | Annotation_to_VDJbase.py:181-189 | the inner loop over one run's result folders yields their complete results in listing order |
| `Scanner.ScanSubjectFolder` | Annotation_to_VDJbase.py:163-172 | the samples' run scans, concatenated in listing order |
| `Scanner.StartScan` | Annotation_to_VDJbase.py:152-160 | the subjects' scans, concatenated in listing order |
| `Scanner.KeepAppend` | Annotation_to_VDJbase.py:152-191 | collecting results commutes with concatenation, so the output follows traversal order |
| `Scanner.KeepExact` | Annotation_to_VDJbase.py:187-189 | a record is output exactly when some result folder classifies to it; each scan yields only its own kind; there is at most one record per result folder |
| `ChainStrip.StripChainShortens` | remove_chain_from_repertoire.py:22 | the rewritten id is never longer, and it equals the original exactly when the original holds none of the three tokens |
| `ChainStrip.StripTrailingToken` | remove_chain_from_repertoire.py:22 | an id whose only token is one trailing `_IGH`, `_IGK` or `_IGL` loses exactly those four characters |
| `ChainStrip.StripChainNotIdempotent` | remove_chain_from_repertoire.py:22 | `"_IG_IGKH"` becomes `"_IGH"`, and a second run turns that into `""` |
| `ChainStrip.RewriteRepertoireIds` | remove_chain_from_repertoire.py:20-23 | the loop yields the document in which every repertoire's id is stripped, or the first exception |
| `ChainStrip.RewriteRepertoires` | remove_chain_from_repertoire.py:20-23 | the loop over the repertoires yields each one rewritten in turn, or the first exception |
| `ChainStrip.RewriteRepertoire` | remove_chain_from_repertoire.py:21-23 | one repertoire: its string id is replaced by the stripped one, and a missing or non-string id raises |
| `ChainStrip.RewriteItemsStops` | remove_chain_from_repertoire.py:20-23 | an exception raised for one repertoire is the outcome of the whole loop |
| `ChainStrip.RewriteItemsFails` | remove_chain_from_repertoire.py:20-23 | the loop fails exactly when some repertoire cannot be rewritten, with the exception of the first such one |
| `ChainStrip.RewriteItemsPointwise` | remove_chain_from_repertoire.py:20-23 | a successful loop keeps the list's length and order; each repertoire keeps its keys and every member but `repertoire_id`, which is stripped |
| `ChainStrip.RewriteItemEffect` | remove_chain_from_repertoire.py:21-23 | a rewritten repertoire had a string id, now holds its stripped form, and keeps every other member in place |
| `ChainStrip.RewriteShape` | remove_chain_from_repertoire.py:20-27 | a successful run changes only the `Repertoire` member, whose list keeps its length with each repertoire rewritten |
| `ChainStrip.RemoveChain` | remove_chain_from_repertoire.py:9-30 | the file is rewritten only after every id has been rewritten; on an exception it is left as it was; the values derived from `target_repo_path` play no part |

## Left out

- **Filesystem access.** `os.listdir`, `os.walk`, `os.path.exists`/`isdir`/`isfile`, `os.makedirs`, `shutil.copy2`, `shutil.rmtree` and `os.unlink` are not modelled. Listings and walked file names are inputs, in listing order. Every listed entry is taken to be a directory where the code lists it; a plain file there makes `os.listdir` raise, which is not modelled.
- **Parsing and writing.** `json.load`, `json.dump` (with its indentation) and `pd.read_csv` are not modelled. Documents and rows arrive parsed. A parsed JSON object has unique keys; `MergeJson.MergeLookup` assumes this of the incoming fragment.
- **Numbers, NaN and CSV cell types.** JSON numbers are opaque integers. NaN or float cells from pandas are outside the modelled inputs, and table cells are strings.
- `MetadataUpdate.UpdateRepertoireMetadata`: compares the given id with each `repertoire_id` by structural equality of JSON values. Python's `==` also equates `True` with `1`, and dictionaries with the same members in a different order; ids are strings in practice.
- **pandas regex matching.** `str.contains(project_name)` treats the project name as a regular expression. The model uses a plain substring test, which agrees whenever the name has no regex metacharacters.
- **Aliasing of merged values.** Python merges in place, and the merge stores the fragment's own sub-objects into the document. Two matching repertoires can therefore share list or dict objects, and a later in-place `extend` or merge changes both. The model works on values, so each copy is independent.
- **The `print` calls and `check_result_fileds`.** They only report which fields are missing. The classifier still returns `None` for an incomplete result.
- **The orchestration around the core.** This covers `main`, `copy_folder_content`, `find_project_tsv_files` (its exception path prints and returns unbound locals), `merge_metadata`, `get_repertoire_details`, `copy_required_files`, `copy_file` and `verify_and_clear_project_directory`. Each of these is I/O plumbing around the modelled operations.
- **`verify_annotations_exist` beyond the missing-id computation.** The check for the `annotated` directory and the raised `FileNotFoundError` message are not modelled. The model returns the missing ids instead of raising.
- **The unused helpers `copy_files` and `consolidate_metadata`.** They are never called.
- **Error reporting in `remove_chain_from_repertoire.py`.** The `try`/`except` prints the exception; the model returns it. A failure to open or parse the file is not modelled.
- **Argument parsing.** `argparse` and the hard-coded paths are not modelled.
