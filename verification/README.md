# doc_predict: accumulation, glue and TSV output

A Dafny model of the prediction phase of StarSpace's `doc_predict` tool
(`src/apps/doc_predict.cpp`). The tool reads one query per input line and
predicts the best base documents for it. The model covers three parts.

- **Accumulation.** Each worker thread has its own
  `map<string, vector<string>>`. For every line it handles, it reads field 1
  as the query and field 0 as the key. It then pushes the ids of the
  predicted base documents onto `pred[key]`.
- **Glue.** The worker maps are visited in ascending worker index. Each
  entry is assigned into one `results` map, so a later worker's vector for a
  key replaces an earlier one.
- **TSV writer.** The merged map is walked in key order and written out as
  text.

Modules, following the structure of the program:

| module | file | what it holds |
|---|---|---|
| `Lex` | lex.dfy | `std::string` ordering (`Below`), with a first-difference reference definition and the strict-order laws |
| `KeyOrder` | keyorder.dfy | the ascending key listing of a `std::map` (`SortedKeys`) and its uniqueness |
| `Accumulate` | accumulate.dfy | base documents, input lines, one worker handling one line (`AddRecord`), and the `push_back` loop (`PushPredictions`) |
| `Combine` | merge.dfy | the glue loop (`Glue`, `AssignAll`), its fold `Merge`, and the "last writer wins" reference `LastHolder` |
| `Workers` | workers.dfy | lines shared out to `W` workers (`Accumulated`), one worker on its own (`Sequential`), and the distinct-key reference `Direct` |
| `Tsv` | tsv.dfy | the writer as written (`WriteTsv`), what it produces (`Serialize`), and a reader (`Parse`) that inverts it |
| `TsvIntended` | tsv_intended.dfy | the corrected one-line-per-key writer (`SerializeLines`), its reader (`ParseLines`), and the counterexample that separates the two writers |
| `Predict` | predict.dfy | the whole phase, with the as-written writer (`Predict`) and with the corrected one (`PredictLines`) |

Parts the model takes as given:

- **Inputs.** An input line is a `Record`: its tab-separated fields and the
  indices into `idBaseDocs_` that the scorer returned, best first.
- **Worker assignment.** Which worker takes which line is a parameter:
  `owner[i]` is the worker of line `i`.
- **Errors.** A line with fewer than two fields makes `vec.at(1)` throw
  (line 72). The run then ends with `TooFewFields` and the first such line.
  The output file was opened at line 61 and is left empty.

Where the code and the documented behaviour of `doc_predict` differ, the
model follows the code:

- **Malformed lines.** The documented behaviour is that a line with too few
  columns is reported and skipped, and the run continues. The code reads
  `vec.at(1)` with nothing to catch the exception, so the run does not
  continue.
- **Output layout.** The documented output format is one line per key:
  `key<TAB>label_1<TAB>...<TAB>label_K`. The writer as written produces a
  different layout (see Findings). Both are modelled.
- **Lines without predictions.** The documented behaviour is that with no
  predictions (K = 0) a line still appears in the output, with its key
  only. In the code the key is created only by the `push_back` on line 78,
  which never runs for an empty prediction list, so such a line leaves no
  key and no output line (`Predict.NoPredictionNoLine`).
- **Repeated keys.** The documented promise is one deterministic output
  file. When a key is repeated across lines, the file depends on the number
  of workers and on which worker took which line. Lines on one worker
  concatenate their labels (`Workers.AccumulatedGathers`), while across
  workers the higher-indexed worker replaces the rest. So one worker writes
  both labels of the repeated key, and two workers write one
  (`Predict.RepeatedKeyDependsOnWorkers`). Only with distinct keys is the
  file the same for every worker count and assignment
  (`Predict.DistinctKeysOutput`).

## Model

| member | source | states |
|---|---|---|
| Lex.BelowIsFirstDifference | src/apps/doc_predict.cpp:85 | The recursive key order equals the first-difference definition. `a` is below `b` iff `a` is a proper prefix of `b`, or at the first position where they differ `a` has the smaller character. |
| Lex.BelowIrreflexive | src/apps/doc_predict.cpp:85 | No key is below itself. |
| Lex.BelowAsymmetric | src/apps/doc_predict.cpp:85 | Two keys are never below each other. |
| Lex.BelowTransitive | src/apps/doc_predict.cpp:85 | The key order is transitive. |
| Lex.BelowTrichotomy | src/apps/doc_predict.cpp:85 | For any two keys: they are equal, or one is below the other. So the `std::map` key order is total. |
| KeyOrder.SortedKeys | src/apps/doc_predict.cpp:92 | The listing holds exactly the map's keys, each once, in strictly ascending order. |
| KeyOrder.AscendingIsSortedKeys | src/apps/doc_predict.cpp:92 | Any strictly ascending listing of the keys is `SortedKeys`. So the iteration order of the map is determined. |
| Accumulate.Labels | src/apps/doc_predict.cpp:77-78 | One label per prediction, in prediction order. Label `i` is the id of base document `predicted[i]`. |
| Accumulate.PushBack | src/apps/doc_predict.cpp:78 | One `push_back`: the key is present afterwards, with its old vector (empty if absent) followed by the label. Every other entry is unchanged. |
| Accumulate.PushAll | src/apps/doc_predict.cpp:77-79 | With no prediction the map is unchanged and the key is not created. Otherwise the key's vector is its old value (empty if absent) followed by the labels. The key set grows by at most the key, and every other entry is unchanged. |
| Accumulate.PushAllSnoc | src/apps/doc_predict.cpp:77-79 | Pushing one more label is one more `push_back` on the result. |
| Accumulate.PushPredictions | src/apps/doc_predict.cpp:77-79 | The loop, proved by invariant. With no prediction the map is unchanged. Otherwise `pred[key]` is its old vector followed by all labels in order. Keys other than `key` neither appear nor change. |
| Accumulate.AddRecord | src/apps/doc_predict.cpp:69-79 | It fails iff the line has fewer than two fields, and the error names the line. A line without predictions leaves the map unchanged. Otherwise the key now maps to its old vector followed by the line's labels. |
| Accumulate.RepeatedKeyConcatenates | src/apps/doc_predict.cpp:76-79 | Two consecutive lines with the same key, handled on one map, concatenate their labels. Nothing is replaced. The first line may have no predictions. |
| Accumulate.AddRecordKeepsNonEmpty | src/apps/doc_predict.cpp:77-79 | Handling a line never stores an empty vector. |
| Accumulate.AddRecordKeepsLabelsFrom | src/apps/doc_predict.cpp:78 | Every stored label is the id of a base document. |
| Workers.Accumulated | src/apps/doc_predict.cpp:65-82 | There are `num_threads` worker maps. The run fails iff some line is malformed, and it reports the first malformed line. Otherwise every stored vector is non-empty, its labels are base-document ids, and every key is a key of some line. |
| Workers.WorkersAreIndependent | src/apps/doc_predict.cpp:65-82 | Each worker's map is what that worker would build alone from its own lines, in input order. |
| Workers.Sequential | src/apps/doc_predict.cpp:69-79 | One worker on its own: the lambda body folded over its lines from an empty map. It fails iff one of those lines is malformed, and it names such a line. |
| Workers.SequentialGathers | src/apps/doc_predict.cpp:69-79 | A map built from a run of lines holds a key iff some line with that key has a prediction. Its vector is `Gathered`: the labels of every line with that key, concatenated in input order, whatever lines come between them. |
| Workers.AccumulatedGathers | src/apps/doc_predict.cpp:65-82 | Worker `w`'s vector for a key is the labels of all lines with that key that `w` handled, concatenated in input order. It holds the key iff that concatenation is non-empty. |
| Workers.DistinctKeysMergeIsDirect | src/apps/doc_predict.cpp:65-89 | With no key repeated across lines, the glued map is `Direct`: each key's own labels. The number of workers and the assignment do not matter. |
| Workers.DirectAt | src/apps/doc_predict.cpp:76-79 | `Direct` maps a line's key to that line's labels, and has no entry for a line without predictions. |
| Workers.DistinctKeysMergedContents | src/apps/doc_predict.cpp:65-89 | With distinct keys, the glued value of each line's key is that line's labels. A line without predictions leaves no key behind. |
| Workers.AssignmentIrrelevant | src/apps/doc_predict.cpp:65-89 | With distinct keys, the glued map is the same for every worker count and every assignment of lines to workers. |
| Combine.Merge | src/apps/doc_predict.cpp:85-89 | The glue as a fold: worker maps are applied in ascending index, each overriding earlier entries. Its meaning is given by `Combine.MergeIsLastWriter` and `Combine.MergeKeysAreUnion`. |
| Combine.LastHolder | src/apps/doc_predict.cpp:86-88 | Returns the highest-indexed worker holding the key, or -1. No later worker holds the key. |
| Combine.MergeIsLastWriter | src/apps/doc_predict.cpp:85-89 | A key is glued iff some worker holds it. Its glued vector is the one held by the highest-indexed worker that holds it. |
| Combine.MergeKeysAreUnion | src/apps/doc_predict.cpp:85-89 | The glued key set is the union of the workers' key sets. |
| Combine.AssignAll | src/apps/doc_predict.cpp:87-88 | After assigning a worker's entries, the key set is the union. The worker's vectors win for its keys, and the other keys are unchanged. |
| Combine.Glue | src/apps/doc_predict.cpp:85-89 | The glue loop computes `Merge`, the fold over workers in ascending index. |
| Combine.LaterWorkerWins | src/apps/doc_predict.cpp:86-88 | If worker `w` holds a key and no later worker does, the glued vector is worker `w`'s. Vectors are never joined. |
| Combine.MergeKeepsNonEmpty | src/apps/doc_predict.cpp:85-89 | Gluing keeps every vector non-empty. |
| Combine.MergeKeepsLabelsFrom | src/apps/doc_predict.cpp:85-89 | Gluing keeps every label a base-document id. |
| Combine.MergeAgreesOnKey | src/apps/doc_predict.cpp:85-89 | The glued entry for a key depends only on the workers' entries for that key. |
| Combine.MergeSoleHolder | src/apps/doc_predict.cpp:85-89 | A key held by exactly one worker is glued with that worker's vector. |
| Combine.MergeOfOne | src/apps/doc_predict.cpp:85-89 | With a single worker, the glued map is that worker's map. |
| Combine.MergeFreshUpdate | src/apps/doc_predict.cpp:85-89 | Storing a key that no worker holds, into any one worker, adds exactly that entry to the glued map. |
| Tsv.Cells | src/apps/doc_predict.cpp:95-101 | One key's labels as the inner loop writes them: each label followed by a tab and a newline. `Tsv.CellsNewlines` counts its lines. |
| Tsv.Block | src/apps/doc_predict.cpp:93-101 | One pass of the outer loop: the key, a tab, then the key's cells. |
| Tsv.Serialize | src/apps/doc_predict.cpp:92-101 | The whole file: the blocks of all entries in key order. `Tsv.WriteTsv` shows the writer produces it, and `Tsv.SerializeRoundTrip` shows it reads back as the map. |
| Tsv.Entries | src/apps/doc_predict.cpp:92 | Range-for over the map yields every key once, in strictly ascending order, each with its own vector. |
| Tsv.WriteLabels | src/apps/doc_predict.cpp:95-101 | The inner loop appends, for each label in order, the label, a tab and a newline. The guard on line 98 holds inside the loop, so the last label gets a tab too. |
| Tsv.WriteEntries | src/apps/doc_predict.cpp:92-102 | The outer loop writes each entry's key, a tab, and its labels, in the order given. |
| Tsv.WriteTsv | src/apps/doc_predict.cpp:92-102 | The writer produces `Serialize` of the glued map. |
| Tsv.RenderAppend | src/apps/doc_predict.cpp:92-102 | Writing two runs of entries is writing each in turn. |
| Tsv.ParseRender | src/apps/doc_predict.cpp:92-101 | The as-written layout can be read back: parsing what was written gives the entries in order. This needs keys and labels free of tabs and newlines, and at least one label per key. |
| Tsv.TableOfEntriesIsTable | src/apps/doc_predict.cpp:92 | Rebuilding a map from its entries gives back the map. |
| Tsv.SerializeRoundTrip | src/apps/doc_predict.cpp:92-101 | Reading the file back gives exactly the map that was written. |
| Tsv.SerializeInjective | src/apps/doc_predict.cpp:92-101 | Different writable maps are written as different files. |
| Tsv.CellsNewlines | src/apps/doc_predict.cpp:95-101 | One key's labels contribute one newline per label. |
| Tsv.NewlinesCountLabels | src/apps/doc_predict.cpp:92-101 | The file as written has as many newlines as labels, not as many as keys. |
| TsvIntended.SerializeLines | src/apps/doc_predict.cpp:92-101 | The corrected file: one line per entry in key order, holding the key and its labels separated by tabs. `TsvIntended.SerializeLinesRoundTrip` shows it reads back as the map. |
| TsvIntended.TwoLabelsCounterexample | src/apps/doc_predict.cpp:95-101 | The as-written writer outputs key `x` with labels `c0`, `c1` as `x\tc0\t\nc1\t\n`, which is two lines. The corrected writer gives `x\tc0\tc1\n`. |
| TsvIntended.LineColumns | src/apps/doc_predict.cpp:93-99 | A corrected line, split at its tabs, gives the key and then the labels in order. |
| TsvIntended.OneLinePerKey | src/apps/doc_predict.cpp:92-101 | The corrected layout has exactly one newline per entry. |
| TsvIntended.SerializeLinesOneLinePerKey | src/apps/doc_predict.cpp:92-101 | The corrected file for a map has one line per key. |
| TsvIntended.ParseRenderLines | src/apps/doc_predict.cpp:92-101 | Reading back the corrected layout gives the entries in order. |
| TsvIntended.SerializeLinesRoundTrip | src/apps/doc_predict.cpp:92-101 | Reading back the corrected file gives exactly the map that was written. |
| Predict.Predict | src/apps/doc_predict.cpp:65-102 | The whole phase fails iff some line is malformed, and it names a malformed line. |
| Predict.MergedIsWritable | src/apps/doc_predict.cpp:76-89 | With clean inputs, the glued map holds non-empty vectors of clean labels under clean keys. |
| Predict.OutputReadsBack | src/apps/doc_predict.cpp:65-101 | On well-formed lines, the file read back rebuilds the glued map. No key is lost or duplicated between the glue and the file. |
| Predict.DistinctKeysOutput | src/apps/doc_predict.cpp:65-101 | With distinct keys, the file is the same for every worker count and assignment, and it reads back as each key's own labels. |
| Predict.ExampleFirstLine | src/apps/doc_predict.cpp:76-79 | Concrete case: the first example line alone, on worker `o` of `W`, leaves `k -> [c0]` on worker `o` and every other map empty. |
| Predict.ExampleWorkerMaps | src/apps/doc_predict.cpp:76-79 | Concrete case: two lines with key `k` whose queries score to `c0` and `c1`. With worker 1 taking the first and worker 0 the second, they gives worker maps `[k -> [c1]]` and `[k -> [c0]]`. |
| Predict.ExampleSingleWorker | src/apps/doc_predict.cpp:76-79 | Concrete case: one worker taking both lines holds `k -> [c0, c1]`. |
| Predict.RepeatedKeyAcrossWorkers | src/apps/doc_predict.cpp:76-88 | In that concrete case the glued map is `k -> [c0]`. The higher-indexed worker wins even though it handled the earlier line. |
| Predict.RepeatedKeyDependsOnWorkers | src/apps/doc_predict.cpp:65-101 | Concrete case: the two lines with key `k` give one file with one worker and a different file with two workers (worker 1 taking the first line). The one-worker map is `k -> [c0, c1]`, the two-worker map is `k -> [c0]`. |
| Predict.NoPredictionNoLine | src/apps/doc_predict.cpp:76-79 | A run over one well-formed line with no predictions writes an empty file. The line's key does not appear. |
| Predict.PredictLines | src/apps/doc_predict.cpp:65-102 | With the corrected writer, the whole phase fails iff some line is malformed, and it names a malformed line. |
| Predict.CorrectedOutputReadsBack | src/apps/doc_predict.cpp:85-101 | With the corrected writer, the file has one line per glued key and reads back as the glued map. |
| Predict.WritersAgree | src/apps/doc_predict.cpp:92-101 | Both writers fail on the same inputs and carry the same entries in the same order. The fix changes only the layout. |

## Left out

- Command line handling (lines 25-41) and model and base-document loading
  (43-55) are left out. The base documents are a parameter holding only
  their ids; their features feed the scorer alone and are not modelled.
- Tokenisation with `escaped_list_separator`, including its quote and
  escape handling (57-58, 69-70), is not modelled. A line arrives already
  split into fields.
- `parseDoc` and `predictOneWithDocId` (72-74) are calls into the scorer,
  which is not part of this model. Their result is the `predicted` index
  list of a `Record`, and indices are assumed in range because
  `idBaseDocs_[...]` is unchecked.
- `foreach_line`'s scheduling of lines to threads and `getThreadID()` (66,
  76) are modelled by the `owner` parameter. Threads and their interleaving
  are not modelled.
- The buffer `vec` (59) is shared by all threads without a lock, which is a
  data race in the source. Each line is modelled with its own fields.
- Workers.Accumulated: an exception escaping a worker thread ends the
  process. The model reports the first malformed line in input order.
  Which worker throws first is timing-dependent and not modelled.
- `vec.at(0)` on line 78 cannot throw once `vec.at(1)` has succeeded, so it
  has no error path of its own.
- Predict.DistinctKeysOutput: with a key repeated across lines the file
  depends on the worker count and on the assignment
  (`Predict.RepeatedKeyDependsOnWorkers`). The lemma promises one file for
  every worker count only for distinct keys.
- Opening and closing the output stream (61-62, 104) and the exit status
  are not modelled. A failed run is `Err`, and the file stays empty.
- Lex.Below compares characters by code point. This matches
  `std::string`'s `char_traits<char>` order on unsigned bytes. Multi-byte
  encodings are not modelled.
- `src/apps/file_predict.cpp` is not part of this model.

## Findings

| source | as written | input that shows it | evidently intended | confidence | as-written member | corrected member |
|---|---|---|---|---|---|---|
| src/apps/doc_predict.cpp:95-101 | Inside the loop, `reco != recos.end()` always holds, so every label gets a trailing tab. `"\n"` is written inside the label loop, so every label ends a line and only the first label shares a line with its key. | key `x` with labels `c0`, `c1`: output `x\tc0\t\nc1\t\n` | one line per key, labels separated by tabs with none after the last: `x\tc0\tc1\n` | not executed | TsvIntended.TwoLabelsCounterexample | TsvIntended.SerializeLinesRoundTrip |

- **As written.** `Tsv.NewlinesCountLabels` proves that the file has one
  newline per label. `TsvIntended.TwoLabelsCounterexample` shows the two
  layouts differ on a two-label key.
- **Corrected.** `TsvIntended.OneLinePerKey` and
  `TsvIntended.SerializeLinesOneLinePerKey` prove one line per key.
  `TsvIntended.SerializeLinesRoundTrip` proves the corrected file reads back
  as the written map.
- **Both in use.** `Predict.PredictLines` uses the corrected writer, and
  `Predict.WritersAgree` shows that the fix changes only the layout.
