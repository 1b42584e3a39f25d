/** One worker's handling of one input line (src/apps/doc_predict.cpp,
    the body of the lambda given to `foreach_line`): split fields, score the
    query, and append the labels of the predicted base documents to the
    worker's `map<string, vector<string>>` under the line's key. */
module Accumulate {

  /** An entry of `idBaseDocs_` as the writer sees it: the document's
      external id (`.first`). Its parsed features only matter to the scorer. */
  datatype BaseDoc = BaseDoc(id: string)

  /** One input line after tokenisation: its tab-separated fields, and the
      indices into `idBaseDocs_` that the top-K scorer returned for the query
      in field 1, best first. */
  datatype Record = Record(fields: seq<string>, predicted: seq<int>)

  /** A `std::map<std::string, std::vector<std::string>>`. */
  type Table = map<string, seq<string>>

  /** `vec.at(1)` throws `std::out_of_range` for the line at `position`. */
  datatype Error = TooFewFields(position: nat)

  datatype Result<T> = Ok(value: T) | Err(error: Error)

  /** `idBaseDocs_[idx]` is an unchecked `operator[]`: every index must be in range. */
  predicate ValidIndices(predicted: seq<int>, base: seq<BaseDoc>)
  {
    forall i :: 0 <= i < |predicted| ==> 0 <= predicted[i] < |base|
  }

  /** A line has a key (field 0) and a query (field 1). */
  predicate WellFormed(r: Record)
  {
    |r.fields| >= 2
  }

  function Key(r: Record): string
    requires WellFormed(r)
  {
    r.fields[0]
  }

  /** The labels pushed for a prediction list, in prediction order. */
  function Labels(predicted: seq<int>, base: seq<BaseDoc>): (ls: seq<string>)
    requires ValidIndices(predicted, base)
    ensures |ls| == |predicted|
    ensures forall i :: 0 <= i < |predicted| ==> ls[i] == base[predicted[i]].id
  {
    if predicted == [] then []
    else [base[predicted[0]].id] + Labels(predicted[1..], base)
  }

  /** `t[key]` read through `operator[]`: a missing key reads as an empty vector. */
  function Lookup(t: Table, key: string): seq<string>
  {
    if key in t then t[key] else []
  }

  /** One `pred[key].push_back(label)`. */
  function PushBack(t: Table, key: string, docId: string): (r: Table)
    ensures r.Keys == t.Keys + {key}
    ensures r[key] == Lookup(t, key) + [docId] && r[key] != []
    ensures forall k :: k in t && k != key ==> r[k] == t[k]
  {
    t[key := Lookup(t, key) + [docId]]
  }

  /** The loop of lines 77-79: one `push_back` per label, in order. The key is
      only touched inside the loop, so no label means no entry. */
  function PushAll(t: Table, key: string, labels: seq<string>): (r: Table)
    ensures labels == [] ==> r == t
    ensures labels != [] ==> key in r && r[key] == Lookup(t, key) + labels
    ensures r.Keys == if labels == [] then t.Keys else t.Keys + {key}
    ensures forall k :: k in t && k != key ==> r[k] == t[k]
    decreases |labels|
  {
    if labels == [] then t
    else
      var r := PushAll(PushBack(t, key, labels[0]), key, labels[1..]);
      assert Lookup(PushBack(t, key, labels[0]), key) + labels[1..] == Lookup(t, key) + labels;
      r
  }

  /** The lambda body for the line at `position`: `vec.at(1)` is read first
      (by `parseDoc`), so a line with fewer than two fields throws before
      anything is stored; otherwise the labels go under field 0. */
  function AddRecord(t: Table, r: Record, position: nat, base: seq<BaseDoc>): (res: Result<Table>)
    requires ValidIndices(r.predicted, base)
    ensures res.Err? <==> !WellFormed(r)
    ensures res.Err? ==> res.error == TooFewFields(position)
    ensures res.Ok? && r.predicted == [] ==> res.value == t
    ensures res.Ok? && r.predicted != [] ==>
              res.value == t[Key(r) := Lookup(t, Key(r)) + Labels(r.predicted, base)]
  {
    if |r.fields| < 2 then Err(TooFewFields(position))
    else
      var r' := PushAll(t, r.fields[0], Labels(r.predicted, base));
      assert r.predicted != [] ==> r' == t[Key(r) := Lookup(t, Key(r)) + Labels(r.predicted, base)];
      Ok(r')
  }

  /** Pushing one more label extends the fold by one `push_back`. */
  lemma {:induction false} PushAllSnoc(t: Table, key: string, labels: seq<string>, docId: string)
    ensures PushAll(t, key, labels + [docId]) == PushBack(PushAll(t, key, labels), key, docId)
    decreases |labels|
  {
    if labels == [] {
      assert [] + [docId] == [docId];
    } else {
      assert (labels + [docId])[1..] == labels[1..] + [docId];
      PushAllSnoc(PushBack(t, key, labels[0]), key, labels[1..], docId);
    }
  }

  /** Lines 77-79 as the loop they are: index `i` runs over the predictions
      and each step pushes one label onto `pred[key]`. */
  method PushPredictions(pred: Table, key: string, predicted: seq<int>, base: seq<BaseDoc>)
    returns (out: Table)
    requires ValidIndices(predicted, base)
    ensures predicted == [] ==> out == pred
    ensures predicted != [] ==> key in out && out[key] == Lookup(pred, key) + Labels(predicted, base)
    ensures forall k :: k != key ==> (k in out <==> k in pred)
    ensures forall k :: k in pred && k != key ==> out[k] == pred[k]
  {
    out := pred;
    var i := 0;
    while i < |predicted|
      invariant 0 <= i <= |predicted|
      invariant out == PushAll(pred, key, Labels(predicted[..i], base))
    {
      PushOneMore(pred, key, predicted, base, i);
      out := out[key := Lookup(out, key) + [base[predicted[i]].id]];
      i := i + 1;
    }
    assert predicted[..i] == predicted;
  }

  /** One more pass of the loop pushes the next prediction's label. */
  lemma PushOneMore(pred: Table, key: string, predicted: seq<int>, base: seq<BaseDoc>, i: nat)
    requires ValidIndices(predicted, base)
    requires i < |predicted|
    ensures PushAll(pred, key, Labels(predicted[..i + 1], base))
            == PushBack(PushAll(pred, key, Labels(predicted[..i], base)), key, base[predicted[i]].id)
  {
    var docId := base[predicted[i]].id;
    assert Labels(predicted[..i + 1], base) == Labels(predicted[..i], base) + [docId];
    PushAllSnoc(pred, key, Labels(predicted[..i], base), docId);
  }

  /** A key repeated within one worker accumulates: the second line's labels
      are appended after the first's, nothing is replaced. */
  lemma RepeatedKeyConcatenates(t: Table, r1: Record, r2: Record, p1: nat, p2: nat, base: seq<BaseDoc>)
    requires ValidIndices(r1.predicted, base) && ValidIndices(r2.predicted, base)
    requires WellFormed(r1) && WellFormed(r2) && Key(r1) == Key(r2)
    requires r2.predicted != []
    ensures AddRecord(t, r1, p1, base).Ok?
    ensures AddRecord(AddRecord(t, r1, p1, base).value, r2, p2, base).Ok?
    ensures AddRecord(AddRecord(t, r1, p1, base).value, r2, p2, base).value[Key(r1)]
            == Lookup(t, Key(r1)) + Labels(r1.predicted, base) + Labels(r2.predicted, base)
  {
  }

  /** Every vector a worker map holds is non-empty, and adding a line keeps it so. */
  predicate NonEmptyValues(t: Table)
  {
    forall k :: k in t ==> t[k] != []
  }

  lemma AddRecordKeepsNonEmpty(t: Table, r: Record, position: nat, base: seq<BaseDoc>)
    requires ValidIndices(r.predicted, base)
    requires NonEmptyValues(t)
    ensures AddRecord(t, r, position, base).Ok? ==> NonEmptyValues(AddRecord(t, r, position, base).value)
  {
  }

  /** The ids of the base documents. */
  function Ids(base: seq<BaseDoc>): set<string>
  {
    set i | 0 <= i < |base| :: base[i].id
  }

  /** Every stored label is the id of some base document. */
  predicate LabelsFrom(t: Table, base: seq<BaseDoc>)
  {
    forall k, j :: k in t && 0 <= j < |t[k]| ==> t[k][j] in Ids(base)
  }

  lemma AddRecordKeepsLabelsFrom(t: Table, r: Record, position: nat, base: seq<BaseDoc>)
    requires ValidIndices(r.predicted, base)
    requires LabelsFrom(t, base)
    ensures AddRecord(t, r, position, base).Ok? ==> LabelsFrom(AddRecord(t, r, position, base).value, base)
  {
    var res := AddRecord(t, r, position, base);
    if res.Ok? && r.predicted != [] {
      var ls := Labels(r.predicted, base);
      assert forall j :: 0 <= j < |ls| ==> ls[j] in Ids(base);
      var key := Key(r);
      var v := Lookup(t, key) + ls;
      forall j | 0 <= j < |v|
        ensures v[j] in Ids(base)
      {
        if j >= |Lookup(t, key)| {
          assert v[j] == ls[j - |Lookup(t, key)|];
        }
      }
    }
  }
}
