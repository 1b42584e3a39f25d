/** The prediction phase of src/apps/doc_predict.cpp end to end, from the
    tokenised and scored input lines to the text of the predictions file:
    per-worker accumulation (lines 65-82), glue (85-89), TSV (92-101). */
module Predict {
  import opened Accumulate
  import opened Combine
  import opened Workers
  import opened Tsv
  import opened TsvIntended

  /** The contents of the predictions file, or the error that ends the run
      (the file is then left empty). */
  function Predict(records: seq<Record>, owner: seq<nat>, W: nat, base: seq<BaseDoc>): (r: Result<string>)
    requires ValidAssignment(owner, |records|, W)
    requires AllValid(records, base)
    ensures r.Err? <==> exists i :: 0 <= i < |records| && !WellFormed(records[i])
    ensures r.Err? ==> r.error.position < |records| && !WellFormed(records[r.error.position])
  {
    match Accumulated(records, owner, W, base)
    case Err(e) => Err(e)
    case Ok(ms) => Ok(Serialize(Merge(ms)))
  }

  /** Keys and base-document ids carry neither tabs nor newlines, so the
      layout is unambiguous. */
  predicate CleanInputs(records: seq<Record>, base: seq<BaseDoc>)
  {
    && (forall i :: 0 <= i < |records| && |records[i].fields| > 0 ==> Clean(records[i].fields[0]))
    && (forall i :: 0 <= i < |base| ==> Clean(base[i].id))
  }

  lemma MergedIsWritable(records: seq<Record>, owner: seq<nat>, W: nat, base: seq<BaseDoc>)
    requires ValidAssignment(owner, |records|, W)
    requires AllValid(records, base)
    requires CleanInputs(records, base)
    requires Accumulated(records, owner, W, base).Ok?
    ensures WritableTable(Merge(Accumulated(records, owner, W, base).value))
  {
    var ms := Accumulated(records, owner, W, base).value;
    var m := Merge(ms);
    MergeKeepsNonEmpty(ms);
    MergeKeepsLabelsFrom(ms, base);
    MergeKeysAreUnion(ms);
    forall k | k in m
      ensures Clean(k)
    {
      var w :| 0 <= w < |ms| && k in ms[w];
      assert k in KeysOf(records);
    }
    forall k, j | k in m && 0 <= j < |m[k]|
      ensures Clean(m[k][j])
    {
      assert m[k][j] in Ids(base);
    }
  }

  /** Reading the predictions file back gives the glued map: no key is lost
      or duplicated between the merge and the file. */
  lemma OutputReadsBack(records: seq<Record>, owner: seq<nat>, W: nat, base: seq<BaseDoc>)
    requires ValidAssignment(owner, |records|, W)
    requires AllValid(records, base)
    requires CleanInputs(records, base)
    requires forall i :: 0 <= i < |records| ==> WellFormed(records[i])
    ensures Predict(records, owner, W, base).Ok?
    ensures Parse(Predict(records, owner, W, base).value).Some?
    ensures TableOf(Parse(Predict(records, owner, W, base).value).value)
            == Merge(Accumulated(records, owner, W, base).value)
  {
    MergedIsWritable(records, owner, W, base);
    SerializeRoundTrip(Merge(Accumulated(records, owner, W, base).value));
  }

  /** With distinct keys the predictions file, read back, maps each key to
      its own labels, and the file is the same for every number of workers
      and every assignment of lines to them. */
  lemma DistinctKeysOutput(records: seq<Record>, base: seq<BaseDoc>,
                           owner1: seq<nat>, W1: nat, owner2: seq<nat>, W2: nat)
    requires ValidAssignment(owner1, |records|, W1) && ValidAssignment(owner2, |records|, W2)
    requires AllValid(records, base)
    requires CleanInputs(records, base)
    requires forall i :: 0 <= i < |records| ==> WellFormed(records[i])
    requires DistinctKeys(records)
    ensures Predict(records, owner1, W1, base) == Predict(records, owner2, W2, base)
    ensures Predict(records, owner1, W1, base).Ok?
    ensures Parse(Predict(records, owner1, W1, base).value).Some?
    ensures TableOf(Parse(Predict(records, owner1, W1, base).value).value) == Direct(records, base)
  {
    AssignmentIrrelevant(records, base, owner1, W1, owner2, W2);
    DistinctKeysMergeIsDirect(records, owner1, W1, base);
    OutputReadsBack(records, owner1, W1, base);
  }

  /** The predictions file as the corrected writer lays it out. */
  function PredictLines(records: seq<Record>, owner: seq<nat>, W: nat, base: seq<BaseDoc>): (r: Result<string>)
    requires ValidAssignment(owner, |records|, W)
    requires AllValid(records, base)
    ensures r.Err? <==> exists i :: 0 <= i < |records| && !WellFormed(records[i])
    ensures r.Err? ==> r.error.position < |records| && !WellFormed(records[r.error.position])
  {
    match Accumulated(records, owner, W, base)
    case Err(e) => Err(e)
    case Ok(ms) => Ok(SerializeLines(Merge(ms)))
  }

  /** The corrected file has one line per merged key, and reading it back
      gives the glued map. */
  lemma CorrectedOutputReadsBack(records: seq<Record>, owner: seq<nat>, W: nat, base: seq<BaseDoc>)
    requires ValidAssignment(owner, |records|, W)
    requires AllValid(records, base)
    requires CleanInputs(records, base)
    requires forall i :: 0 <= i < |records| ==> WellFormed(records[i])
    ensures PredictLines(records, owner, W, base).Ok?
    ensures Count(PredictLines(records, owner, W, base).value, '\n')
            == |Merge(Accumulated(records, owner, W, base).value)|
    ensures ParseLines(PredictLines(records, owner, W, base).value).Some?
    ensures TableOf(ParseLines(PredictLines(records, owner, W, base).value).value)
            == Merge(Accumulated(records, owner, W, base).value)
  {
    var m := Merge(Accumulated(records, owner, W, base).value);
    MergedIsWritable(records, owner, W, base);
    SerializeLinesOneLinePerKey(m);
    SerializeLinesRoundTrip(m);
  }

  /** Both writers carry the same entries in the same order: the fix
      changes the layout only. */
  lemma WritersAgree(records: seq<Record>, owner: seq<nat>, W: nat, base: seq<BaseDoc>)
    requires ValidAssignment(owner, |records|, W)
    requires AllValid(records, base)
    requires CleanInputs(records, base)
    ensures Predict(records, owner, W, base).Err? <==> PredictLines(records, owner, W, base).Err?
    ensures Predict(records, owner, W, base).Ok? ==>
              && Parse(Predict(records, owner, W, base).value).Some?
              && ParseLines(PredictLines(records, owner, W, base).value)
                 == Parse(Predict(records, owner, W, base).value)
  {
    if Accumulated(records, owner, W, base).Ok? {
      var m := Merge(Accumulated(records, owner, W, base).value);
      MergedIsWritable(records, owner, W, base);
      SerializeRoundTrip(m);
      SerializeLinesRoundTrip(m);
    }
  }

  /** The example below: two base documents, and two lines with the same key
      `k` but different queries, so the scorer returns a different document
      for each. */
  function ExampleBase(): seq<BaseDoc>
  {
    [BaseDoc("c0"), BaseDoc("c1")]
  }

  function ExampleRecords(): seq<Record>
  {
    [Record(["k", "q0"], [0]), Record(["k", "q1"], [1])]
  }

  /** Either line of the example, handled by a fresh worker. */
  lemma ExampleLine(i: nat)
    requires i < 2
    ensures AddRecord(map[], ExampleRecords()[i], i, ExampleBase())
            == Ok(map["k" := [ExampleBase()[i].id]])
  {
    var base, r := ExampleBase(), ExampleRecords()[i];
    assert Labels(r.predicted, base) == [base[i].id];
    var t := AddRecord(map[], r, i, base).value;
    assert t.Keys == {"k"} && t["k"] == [base[i].id];
  }

  /** The first line alone, handled by worker `o` of `W`. */
  lemma ExampleFirstLine(o: nat, W: nat)
    requires o < W
    ensures Accumulated([ExampleRecords()[0]], [o], W, ExampleBase()).Ok?
    ensures Accumulated([ExampleRecords()[0]], [o], W, ExampleBase()).value
            == seq(W, _ => map[])[o := map["k" := ["c0"]]]
  {
    var base, r := ExampleBase(), ExampleRecords()[0];
    assert [r][..0] == [] && [o][..0] == [];
    ExampleLine(0);
  }

  /** Worker 1 handles the first line, worker 0 the second. */
  lemma ExampleWorkerMaps()
    ensures Accumulated(ExampleRecords(), [1, 0], 2, ExampleBase())
            == Ok([map["k" := ["c1"]], map["k" := ["c0"]]])
  {
    var base, records := ExampleBase(), ExampleRecords();
    var empty: Table := map[];
    ExampleFirstLine(1, 2);
    ExampleLine(1);
    assert records[..1] == [records[0]];
    assert [1, 0][..1] == [1];
    var a1 := Accumulated([records[0]], [1], 2, base).value;
    assert a1 == [empty, map["k" := ["c0"]]];
    assert a1[0 := map["k" := ["c1"]]] == [map["k" := ["c1"]], map["k" := ["c0"]]];
  }

  /** Worker 1's vector replaces worker 0's. */
  lemma ExampleMerge()
    ensures Merge([map["k" := ["c1"]], map["k" := ["c0"]]]) == map["k" := ["c0"]]
  {
    var ms: seq<Table> := [map["k" := ["c1"]], map["k" := ["c0"]]];
    var m := Merge(ms);
    assert "k" in m && m["k"] == ["c0"] by {
      LaterWorkerWins(ms, 1, "k");
    }
    assert m.Keys == {"k"} by {
      MergeKeysAreUnion(ms);
    }
  }

  /** Two lines with the same key, handled by two workers: the worker with the
      higher index wins, even though it handled the earlier line. */
  lemma RepeatedKeyAcrossWorkers()
    ensures Accumulated(ExampleRecords(), [1, 0], 2, ExampleBase()).Ok?
    ensures Merge(Accumulated(ExampleRecords(), [1, 0], 2, ExampleBase()).value) == map["k" := ["c0"]]
  {
    ExampleWorkerMaps();
    ExampleMerge();
  }

  /** The second line appended to the first line's vector. */
  lemma ExampleSecondLine()
    ensures AddRecord(map["k" := ["c0"]], ExampleRecords()[1], 1, ExampleBase())
            == Ok(map["k" := ["c0", "c1"]])
  {
    var base, r := ExampleBase(), ExampleRecords()[1];
    var t0: Table := map["k" := ["c0"]];
    assert Labels(r.predicted, base) == ["c1"];
    assert Key(r) == "k" && Lookup(t0, "k") == ["c0"];
    assert ["c0"] + ["c1"] == ["c0", "c1"];
    assert WellFormed(r) && r.predicted != [];
    var t := AddRecord(t0, r, 1, base).value;
    assert t == t0["k" := ["c0", "c1"]];
    assert t0["k" := ["c0", "c1"]] == map["k" := ["c0", "c1"]];
  }

  /** One worker handles both lines: its vector keeps both labels. */
  lemma ExampleSingleWorker()
    ensures Accumulated(ExampleRecords(), [0, 0], 1, ExampleBase())
            == Ok([map["k" := ["c0", "c1"]]])
  {
    var base, records := ExampleBase(), ExampleRecords();
    ExampleFirstLine(0, 1);
    ExampleSecondLine();
    assert records[..1] == [records[0]];
    assert [0, 0][..1] == [0];
    var a1 := Accumulated([records[0]], [0], 1, base).value;
    assert a1 == [map["k" := ["c0"]]];
    assert a1[0 := map["k" := ["c0", "c1"]]] == [map["k" := ["c0", "c1"]]];
  }

  /** Both example assignments are valid for the example lines. */
  lemma ExampleValid()
    ensures ValidAssignment([0, 0], |ExampleRecords()|, 1)
    ensures ValidAssignment([1, 0], |ExampleRecords()|, 2)
    ensures AllValid(ExampleRecords(), ExampleBase())
  {
  }

  /** The two tables the example runs produce: both writable, and different. */
  lemma ExampleTables(one: Table, two: Table)
    requires one == map["k" := ["c0", "c1"]] && two == map["k" := ["c0"]]
    ensures WritableTable(one) && WritableTable(two) && one != two
  {
    assert Clean("k") && Clean("c0") && Clean("c1");
    assert one["k"] != two["k"];
  }

  /** With a key repeated across lines the file depends on how many workers
      there are and which lines each handled: one worker writes both labels
      under `k`, the two-worker split of `RepeatedKeyAcrossWorkers` only the
      label of worker 1. */
  lemma RepeatedKeyDependsOnWorkers()
    ensures Predict(ExampleRecords(), [0, 0], 1, ExampleBase()).Ok?
    ensures Predict(ExampleRecords(), [0, 0], 1, ExampleBase())
            != Predict(ExampleRecords(), [1, 0], 2, ExampleBase())
  {
    var one: Table := map["k" := ["c0", "c1"]];
    var two: Table := map["k" := ["c0"]];
    ExampleTables(one, two);
    ExampleValid();
    ExampleSingleWorker();
    MergeOfOne(one);
    RepeatedKeyAcrossWorkers();
    SerializeInjective(one, two);
  }

  /** A line without predictions adds no key, so it leaves no line in the
      file: a run over that one line writes nothing. */
  lemma NoPredictionNoLine()
    ensures Predict([Record(["k", "q"], [])], [0], 1, []) == Ok("")
  {
    var r := Record(["k", "q"], []);
    var empty: Table := map[];
    assert [r][..0] == [] && [0][..0] == [];
    var a0 := Accumulated([], [], 1, []).value;
    assert a0 == [empty];
    assert AddRecord(a0[0], r, 0, []) == Ok(empty);
    assert a0[0 := empty] == [empty];
    assert Accumulated([r], [0], 1, []) == Ok([empty]);
    MergeOfOne(empty);
    assert Entries(empty) == [];
  }
}
