/** The parallel accumulation phase (src/apps/doc_predict.cpp, lines 65-82):
    `num_threads` worker maps, each line handled by one worker, each worker
    seeing its own lines in input order. Which worker takes a line is
    decided by code that is not part of this model, so it is a parameter:
    `owner[i]` is the worker of line `i`. */
module Workers {
  import opened Accumulate
  import opened Combine

  /** Every line goes to one of the `W` workers. */
  predicate ValidAssignment(owner: seq<nat>, lines: nat, W: nat)
  {
    |owner| == lines && forall i :: 0 <= i < lines ==> owner[i] < W
  }

  /** Every prediction of every line indexes `idBaseDocs_`. */
  predicate AllValid(records: seq<Record>, base: seq<BaseDoc>)
  {
    forall i :: 0 <= i < |records| ==> ValidIndices(records[i].predicted, base)
  }

  /** The keys (field 0) of the lines that have one. */
  function KeysOf(records: seq<Record>): set<string>
  {
    set i | 0 <= i < |records| && |records[i].fields| > 0 :: records[i].fields[0]
  }

  lemma KeysOfPrefix(records: seq<Record>, n: nat)
    requires n <= |records|
    ensures KeysOf(records[..n]) <= KeysOf(records)
  {
    forall k | k in KeysOf(records[..n])
      ensures k in KeysOf(records)
    {
      var i :| 0 <= i < n && |records[..n][i].fields| > 0 && records[..n][i].fields[0] == k;
      assert records[i] == records[..n][i];
    }
  }

  /** The vector `predictions` once every line has been handled. A line
      with fewer than two fields throws out of the worker and ends the run;
      the error names the first such line. */
  function Accumulated(records: seq<Record>, owner: seq<nat>, W: nat, base: seq<BaseDoc>)
    : (res: Result<seq<Table>>)
    requires ValidAssignment(owner, |records|, W)
    requires AllValid(records, base)
    ensures res.Ok? ==> |res.value| == W
    ensures res.Err? <==> exists i :: 0 <= i < |records| && !WellFormed(records[i])
    ensures res.Err? ==> res.error.position < |records| && !WellFormed(records[res.error.position])
    ensures res.Err? ==> forall i :: 0 <= i < res.error.position ==> WellFormed(records[i])
    ensures res.Ok? ==> forall w :: 0 <= w < W ==> NonEmptyValues(res.value[w])
    ensures res.Ok? ==> forall w :: 0 <= w < W ==> LabelsFrom(res.value[w], base)
    ensures res.Ok? ==> forall w, k :: 0 <= w < W && k in res.value[w] ==> k in KeysOf(records)
    decreases |records|
  {
    if records == [] then Ok(seq(W, _ => map[]))
    else
      var n := |records| - 1;
      var prefix := records[..n];
      assert forall i :: 0 <= i < n ==> prefix[i] == records[i];
      KeysOfPrefix(records, n);
      match Accumulated(prefix, owner[..n], W, base)
      case Err(e) => Err(e)
      case Ok(ms) =>
        match AddRecord(ms[owner[n]], records[n], n, base)
        case Err(e) => Err(e)
        case Ok(t) =>
          assert records[n].predicted != [] ==> Key(records[n]) in KeysOf(records);
          StoreKeeps(ms, owner[n], records[n], n, base, KeysOf(records));
          Ok(ms[owner[n] := t])
  }

  /** Handling one more line keeps every worker's map non-empty-valued,
      labelled from the base documents, and keyed by the lines' keys. */
  lemma StoreKeeps(ms: seq<Table>, o: nat, r: Record, n: nat, base: seq<BaseDoc>, keys: set<string>)
    requires o < |ms|
    requires ValidIndices(r.predicted, base) && WellFormed(r)
    requires forall w :: 0 <= w < |ms| ==> NonEmptyValues(ms[w]) && LabelsFrom(ms[w], base)
    requires forall w, k :: 0 <= w < |ms| && k in ms[w] ==> k in keys
    requires r.predicted != [] ==> Key(r) in keys
    ensures AddRecord(ms[o], r, n, base).Ok?
    ensures var ms' := ms[o := AddRecord(ms[o], r, n, base).value];
            && (forall w :: 0 <= w < |ms'| ==> NonEmptyValues(ms'[w]) && LabelsFrom(ms'[w], base))
            && (forall w, k :: 0 <= w < |ms'| && k in ms'[w] ==> k in keys)
  {
    AddRecordKeepsNonEmpty(ms[o], r, n, base);
    AddRecordKeepsLabelsFrom(ms[o], r, n, base);
  }

  /** The lines assigned to worker `w`, in input order. */
  function AssignedTo(records: seq<Record>, owner: seq<nat>, w: nat): (rs: seq<Record>)
    requires |owner| == |records|
    ensures |rs| <= |records|
    ensures forall r :: r in rs ==> r in records
    decreases |records|
  {
    if records == [] then []
    else
      var n := |records| - 1;
      var rest := AssignedTo(records[..n], owner[..n], w);
      if owner[n] == w then rest + [records[n]] else rest
  }

  /** One worker on its own: a plain sequential fold of the lambda body over
      its lines, starting from an empty map. */
  function Sequential(records: seq<Record>, base: seq<BaseDoc>): (res: Result<Table>)
    requires AllValid(records, base)
    ensures res.Err? <==> exists i :: 0 <= i < |records| && !WellFormed(records[i])
    ensures res.Err? ==> res.error.position < |records| && !WellFormed(records[res.error.position])
    decreases |records|
  {
    if records == [] then Ok(map[])
    else
      var n := |records| - 1;
      assert forall i :: 0 <= i < n ==> records[..n][i] == records[i];
      match Sequential(records[..n], base)
      case Err(e) => Err(e)
      case Ok(t) => AddRecord(t, records[n], n, base)
  }

  /** Workers do not interfere: each worker's map is what that worker alone
      would build from its own lines, in input order. */
  lemma {:induction false} WorkersAreIndependent(records: seq<Record>, owner: seq<nat>, W: nat, base: seq<BaseDoc>, w: nat)
    requires ValidAssignment(owner, |records|, W)
    requires AllValid(records, base)
    requires w < W
    requires Accumulated(records, owner, W, base).Ok?
    ensures AllValid(AssignedTo(records, owner, w), base)
    ensures Sequential(AssignedTo(records, owner, w), base).Ok?
    ensures Accumulated(records, owner, W, base).value[w]
            == Sequential(AssignedTo(records, owner, w), base).value
    decreases |records|
  {
    if records != [] {
      var n := |records| - 1;
      var prefix := records[..n];
      assert forall i :: 0 <= i < n ==> prefix[i] == records[i];
      WorkersAreIndependent(prefix, owner[..n], W, base, w);
      var rest := AssignedTo(prefix, owner[..n], w);
      if owner[n] == w {
        var rs := rest + [records[n]];
        assert rs[..|rs| - 1] == rest;
        assert AllValid(rs, base);
      }
    }
  }

  /** Reference for one worker's vector under `k`: the labels of every
      line with key `k`, line after line in input order, whatever lines
      with other keys come between them. */
  function Gathered(records: seq<Record>, k: string, base: seq<BaseDoc>): seq<string>
    requires AllValid(records, base)
    decreases |records|
  {
    if records == [] then []
    else
      var n := |records| - 1;
      var r := records[n];
      assert forall i :: 0 <= i < n ==> records[..n][i] == records[i];
      Gathered(records[..n], k, base)
        + (if WellFormed(r) && Key(r) == k then Labels(r.predicted, base) else [])
  }

  /** A worker's own fold concatenates, under each key, the labels of all
      its lines with that key; a key is present iff some of them has a
      prediction. */
  lemma {:induction false} SequentialGathers(records: seq<Record>, base: seq<BaseDoc>, k: string)
    requires AllValid(records, base)
    requires Sequential(records, base).Ok?
    ensures k in Sequential(records, base).value <==> Gathered(records, k, base) != []
    ensures k in Sequential(records, base).value ==>
              Sequential(records, base).value[k] == Gathered(records, k, base)
    decreases |records|
  {
    if records != [] {
      var n := |records| - 1;
      var prefix := records[..n];
      var r := records[n];
      assert forall i :: 0 <= i < n ==> prefix[i] == records[i];
      SequentialGathers(prefix, base, k);
      var t := Sequential(prefix, base).value;
      assert Lookup(t, k) == Gathered(prefix, k, base);
      assert |Labels(r.predicted, base)| == |r.predicted|;
    }
  }

  /** The run-level statement: worker `w`'s vector for `k` is the labels of
      all lines with key `k` that `w` handled, concatenated in input order. */
  lemma AccumulatedGathers(records: seq<Record>, owner: seq<nat>, W: nat, base: seq<BaseDoc>, w: nat, k: string)
    requires ValidAssignment(owner, |records|, W)
    requires AllValid(records, base)
    requires w < W
    requires Accumulated(records, owner, W, base).Ok?
    ensures AllValid(AssignedTo(records, owner, w), base)
    ensures k in Accumulated(records, owner, W, base).value[w]
            <==> Gathered(AssignedTo(records, owner, w), k, base) != []
    ensures k in Accumulated(records, owner, W, base).value[w] ==>
              Accumulated(records, owner, W, base).value[w][k]
              == Gathered(AssignedTo(records, owner, w), k, base)
  {
    WorkersAreIndependent(records, owner, W, base, w);
    SequentialGathers(AssignedTo(records, owner, w), base, k);
  }

  /** What the run yields when no two lines share a key: each key's own
      labels, for the lines that have a prediction. */
  function Direct(records: seq<Record>, base: seq<BaseDoc>): Table
    requires AllValid(records, base)
    requires forall i :: 0 <= i < |records| ==> WellFormed(records[i])
    decreases |records|
  {
    if records == [] then map[]
    else
      var n := |records| - 1;
      var r := records[n];
      assert forall i :: 0 <= i < n ==> records[..n][i] == records[i];
      var prev := Direct(records[..n], base);
      if r.predicted == [] then prev else prev[Key(r) := Labels(r.predicted, base)]
  }

  /** No key appears on two lines. */
  predicate DistinctKeys(records: seq<Record>)
  {
    forall i, j :: 0 <= i < j < |records| && WellFormed(records[i]) && WellFormed(records[j])
                   ==> Key(records[i]) != Key(records[j])
  }

  /** A line whose key no worker holds yet adds exactly its own entry to
      the glued map, whichever worker takes it. */
  lemma FreshLineMerge(ms: seq<Table>, o: nat, r: Record, n: nat, base: seq<BaseDoc>)
    requires o < |ms|
    requires ValidIndices(r.predicted, base) && WellFormed(r)
    requires forall w :: 0 <= w < |ms| ==> Key(r) !in ms[w]
    ensures AddRecord(ms[o], r, n, base).Ok?
    ensures Merge(ms[o := AddRecord(ms[o], r, n, base).value])
            == if r.predicted == [] then Merge(ms)
               else Merge(ms)[Key(r) := Labels(r.predicted, base)]
  {
    var t := AddRecord(ms[o], r, n, base).value;
    if r.predicted == [] {
      assert ms[o := t] == ms;
    } else {
      var key, ls := Key(r), Labels(r.predicted, base);
      assert Lookup(ms[o], key) + ls == ls;
      MergeFreshUpdate(ms, o, key, ls);
    }
  }

  /** With distinct keys, repeated assignment never concatenates and the
      merge never overwrites, so the glued map is `Direct` whatever the
      assignment of lines to workers. */
  lemma {:induction false} DistinctKeysMergeIsDirect(records: seq<Record>, owner: seq<nat>, W: nat, base: seq<BaseDoc>)
    requires ValidAssignment(owner, |records|, W)
    requires AllValid(records, base)
    requires forall i :: 0 <= i < |records| ==> WellFormed(records[i])
    requires DistinctKeys(records)
    ensures Accumulated(records, owner, W, base).Ok?
    ensures Merge(Accumulated(records, owner, W, base).value) == Direct(records, base)
    decreases |records|
  {
    if records == [] {
      assert Merge(seq(W, _ => map[])) == map[] by {
        MergeIsLastWriter(seq(W, (_: int) => map[]));
      }
    } else {
      var n := |records| - 1;
      var prefix := records[..n];
      var r := records[n];
      assert forall i :: 0 <= i < n ==> prefix[i] == records[i];
      DistinctKeysMergeIsDirect(prefix, owner[..n], W, base);
      var ms := Accumulated(prefix, owner[..n], W, base).value;
      assert forall w :: 0 <= w < W ==> Key(r) !in ms[w] by {
        assert forall i :: 0 <= i < n ==> Key(records[i]) != Key(r);
        assert Key(r) !in KeysOf(prefix);
      }
      FreshLineMerge(ms, owner[n], r, n, base);
    }
  }

  /** Every key of `Direct` is the key of some line. */
  lemma {:induction false} DirectKeys(records: seq<Record>, base: seq<BaseDoc>)
    requires AllValid(records, base)
    requires forall i :: 0 <= i < |records| ==> WellFormed(records[i])
    ensures forall k :: k in Direct(records, base) ==> k in KeysOf(records)
    decreases |records|
  {
    if records != [] {
      var n := |records| - 1;
      assert forall i :: 0 <= i < n ==> records[..n][i] == records[i];
      DirectKeys(records[..n], base);
      KeysOfPrefix(records, n);
      assert Key(records[n]) in KeysOf(records);
    }
  }

  /** `Direct` holds line `i`'s own labels under its key, and no entry at
      all when the line has no prediction. */
  lemma {:induction false} DirectAt(records: seq<Record>, base: seq<BaseDoc>, i: nat)
    requires AllValid(records, base)
    requires forall j :: 0 <= j < |records| ==> WellFormed(records[j])
    requires DistinctKeys(records)
    requires i < |records|
    ensures records[i].predicted != [] ==>
              Key(records[i]) in Direct(records, base)
              && Direct(records, base)[Key(records[i])] == Labels(records[i].predicted, base)
    ensures records[i].predicted == [] ==> Key(records[i]) !in Direct(records, base)
    decreases |records|
  {
    var n := |records| - 1;
    var prefix := records[..n];
    assert forall j :: 0 <= j < n ==> prefix[j] == records[j];
    if i < n {
      DirectAt(prefix, base, i);
      assert Key(records[n]) != Key(records[i]);
    } else {
      DirectKeys(prefix, base);
      assert forall j :: 0 <= j < n ==> Key(records[j]) != Key(records[n]);
      assert Key(records[n]) !in KeysOf(prefix);
    }
  }

  /** With distinct keys, each merged value is that key's own label list,
      and a line without predictions leaves no key behind. */
  lemma DistinctKeysMergedContents(records: seq<Record>, owner: seq<nat>, W: nat, base: seq<BaseDoc>, i: nat)
    requires ValidAssignment(owner, |records|, W)
    requires AllValid(records, base)
    requires forall j :: 0 <= j < |records| ==> WellFormed(records[j])
    requires DistinctKeys(records)
    requires i < |records|
    ensures Accumulated(records, owner, W, base).Ok?
    ensures records[i].predicted != [] ==>
              var merged := Merge(Accumulated(records, owner, W, base).value);
              Key(records[i]) in merged && merged[Key(records[i])] == Labels(records[i].predicted, base)
    ensures records[i].predicted == [] ==>
              Key(records[i]) !in Merge(Accumulated(records, owner, W, base).value)
  {
    DistinctKeysMergeIsDirect(records, owner, W, base);
    DirectAt(records, base, i);
  }

  /** With distinct keys, the glued map does not depend on the number of
      workers nor on which worker takes which line. */
  lemma AssignmentIrrelevant(records: seq<Record>, base: seq<BaseDoc>,
                             owner1: seq<nat>, W1: nat, owner2: seq<nat>, W2: nat)
    requires ValidAssignment(owner1, |records|, W1) && ValidAssignment(owner2, |records|, W2)
    requires AllValid(records, base)
    requires DistinctKeys(records)
    ensures Accumulated(records, owner1, W1, base).Ok? == Accumulated(records, owner2, W2, base).Ok?
    ensures Accumulated(records, owner1, W1, base).Ok? ==>
              Merge(Accumulated(records, owner1, W1, base).value)
              == Merge(Accumulated(records, owner2, W2, base).value)
    ensures Accumulated(records, owner1, W1, base).Err? ==>
              Accumulated(records, owner1, W1, base) == Accumulated(records, owner2, W2, base)
  {
    var a1, a2 := Accumulated(records, owner1, W1, base), Accumulated(records, owner2, W2, base);
    if a1.Ok? {
      DistinctKeysMergeIsDirect(records, owner1, W1, base);
      DistinctKeysMergeIsDirect(records, owner2, W2, base);
    } else {
      var p1, p2 := a1.error.position, a2.error.position;
      assert !(p1 < p2) && !(p2 < p1);
    }
  }
}
