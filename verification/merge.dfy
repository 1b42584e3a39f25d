/** Gluing the worker maps together (src/apps/doc_predict.cpp, lines 85-89):
    workers are visited in ascending index and every entry is assigned into
    one result map, so a later worker's vector for a key replaces an earlier
    one. */
module Combine {
  import opened Accumulate

  /** The highest-indexed worker whose map holds `k`, or -1 if none does:
      the reference for "last writer wins", scanning from the top. */
  function LastHolder(ms: seq<Table>, k: string): (w: int)
    ensures -1 <= w < |ms|
    ensures w >= 0 ==> k in ms[w]
    ensures forall v :: w < v < |ms| ==> k !in ms[v]
    decreases |ms|
  {
    if ms == [] then -1
    else if k in ms[|ms| - 1] then |ms| - 1
    else LastHolder(ms[..|ms| - 1], k)
  }

  /** `results` after the outer loop has visited the first `|ms|` workers. */
  function Merge(ms: seq<Table>): Table
    decreases |ms|
  {
    if ms == [] then map[]
    else Merge(ms[..|ms| - 1]) + ms[|ms| - 1]
  }

  /** Last writer wins: a key is merged iff some worker holds it, and then
      with the vector of the highest-indexed worker holding it. */
  lemma {:induction false} MergeIsLastWriter(ms: seq<Table>)
    ensures forall k :: k in Merge(ms) <==> LastHolder(ms, k) >= 0
    ensures forall k :: k in Merge(ms) ==> Merge(ms)[k] == ms[LastHolder(ms, k)][k]
    decreases |ms|
  {
    if ms != [] {
      var n := |ms| - 1;
      MergeIsLastWriter(ms[..n]);
      assert forall k :: k !in ms[n] ==> LastHolder(ms, k) == LastHolder(ms[..n], k);
      assert forall w :: 0 <= w < n ==> ms[..n][w] == ms[w];
    }
  }

  /** The merged key set is the union of the workers' key sets. */
  lemma {:induction false} MergeKeysAreUnion(ms: seq<Table>)
    ensures forall k :: k in Merge(ms) <==> exists w :: 0 <= w < |ms| && k in ms[w]
  {
    MergeIsLastWriter(ms);
    forall k | exists w :: 0 <= w < |ms| && k in ms[w]
      ensures LastHolder(ms, k) >= 0
    {
      var w :| 0 <= w < |ms| && k in ms[w];
    }
  }

  /** Lines 87-88 for one worker: assign each of its entries into `results`.
      The entries of a `std::map` are visited in key order; since every key
      is distinct, the order does not change the outcome. */
  method AssignAll(results: Table, worker: Table) returns (out: Table)
    ensures out.Keys == results.Keys + worker.Keys
    ensures forall k :: k in worker ==> out[k] == worker[k]
    ensures forall k :: k in results && k !in worker ==> out[k] == results[k]
  {
    out := results;
    var todo := worker.Keys;
    while todo != {}
      invariant todo <= worker.Keys
      invariant out.Keys == results.Keys + (worker.Keys - todo)
      invariant forall k :: k in worker && k !in todo ==> out[k] == worker[k]
      invariant forall k :: k in results && k !in worker.Keys - todo ==> out[k] == results[k]
      decreases todo
    {
      var k :| k in todo;
      out := out[k := worker[k]];
      todo := todo - {k};
    }
  }

  /** The whole glue loop of lines 85-89. */
  method Glue(ms: seq<Table>) returns (results: Table)
    ensures results == Merge(ms)
  {
    results := map[];
    var i := 0;
    while i < |ms|
      invariant 0 <= i <= |ms|
      invariant results == Merge(ms[..i])
    {
      assert ms[..i + 1][..i] == ms[..i];
      results := AssignAll(results, ms[i]);
      i := i + 1;
    }
    assert ms[..i] == ms;
  }

  /** Lists are never joined: a key held by two workers ends up with the
      later worker's vector only. */
  lemma {:induction false} LaterWorkerWins(ms: seq<Table>, w: nat, k: string)
    requires w < |ms| && k in ms[w]
    requires forall v :: w < v < |ms| ==> k !in ms[v]
    ensures k in Merge(ms) && Merge(ms)[k] == ms[w][k]
  {
    MergeIsLastWriter(ms);
    assert LastHolder(ms, k) == w;
  }

  /** Merging keeps every stored vector non-empty. */
  lemma {:induction false} MergeKeepsNonEmpty(ms: seq<Table>)
    requires forall w :: 0 <= w < |ms| ==> NonEmptyValues(ms[w])
    ensures NonEmptyValues(Merge(ms))
  {
    MergeIsLastWriter(ms);
  }

  /** Merging keeps every label an id of a base document. */
  lemma {:induction false} MergeKeepsLabelsFrom(ms: seq<Table>, base: seq<BaseDoc>)
    requires forall w :: 0 <= w < |ms| ==> LabelsFrom(ms[w], base)
    ensures LabelsFrom(Merge(ms), base)
  {
    MergeIsLastWriter(ms);
  }

  /** `LastHolder` only looks at which maps hold the key. */
  lemma {:induction false} LastHolderSameHolders(ms: seq<Table>, ms': seq<Table>, k: string)
    requires |ms| == |ms'|
    requires forall w :: 0 <= w < |ms| ==> (k in ms[w] <==> k in ms'[w])
    ensures LastHolder(ms, k) == LastHolder(ms', k)
    decreases |ms|
  {
    if ms != [] {
      var n := |ms| - 1;
      LastHolderSameHolders(ms[..n], ms'[..n], k);
    }
  }

  lemma LastHolderOfSoleHolder(ms: seq<Table>, o: nat, k: string)
    requires o < |ms| && k in ms[o]
    requires forall w :: 0 <= w < |ms| && w != o ==> k !in ms[w]
    ensures LastHolder(ms, k) == o
  {
  }

  /** The merged entry for a key depends only on the workers' entries for it. */
  lemma {:induction false} MergeAgreesOnKey(ms: seq<Table>, ms': seq<Table>, k: string)
    requires |ms| == |ms'|
    requires forall w :: 0 <= w < |ms| ==> (k in ms[w] <==> k in ms'[w])
    requires forall w :: 0 <= w < |ms| && k in ms[w] ==> ms[w][k] == ms'[w][k]
    ensures k in Merge(ms) <==> k in Merge(ms')
    ensures k in Merge(ms) ==> Merge(ms)[k] == Merge(ms')[k]
  {
    MergeIsLastWriter(ms);
    MergeIsLastWriter(ms');
    LastHolderSameHolders(ms, ms', k);
  }

  /** A key stored by exactly one worker is merged with that worker's vector. */
  lemma {:induction false} MergeSoleHolder(ms: seq<Table>, o: nat, k: string)
    requires o < |ms| && k in ms[o]
    requires forall w :: 0 <= w < |ms| && w != o ==> k !in ms[w]
    ensures k in Merge(ms) && Merge(ms)[k] == ms[o][k]
  {
    MergeIsLastWriter(ms);
    LastHolderOfSoleHolder(ms, o, k);
  }

  /** Storing into either side of a union, when the right side does not
      hold the key, is storing into the union. */
  lemma UnionUpdate(a: Table, b: Table, k: string, v: seq<string>)
    ensures a + b[k := v] == (a + b)[k := v]
    ensures k !in b ==> a[k := v] + b == (a + b)[k := v]
  {
  }

  /** Storing a key that no worker holds yet commutes with the merge: the
      merged map just gains that one entry. */
  lemma {:induction false} MergeFreshUpdate(ms: seq<Table>, o: nat, k: string, v: seq<string>)
    requires o < |ms|
    requires forall w :: 0 <= w < |ms| ==> k !in ms[w]
    ensures Merge(ms[o := ms[o][k := v]]) == Merge(ms)[k := v]
    decreases |ms|
  {
    var n := |ms| - 1;
    var ms' := ms[o := ms[o][k := v]];
    if o == n {
      assert ms'[..n] == ms[..n];
      UnionUpdate(Merge(ms[..n]), ms[n], k, v);
    } else {
      assert ms'[..n] == ms[..n][o := ms[o][k := v]];
      MergeFreshUpdate(ms[..n], o, k, v);
      UnionUpdate(Merge(ms[..n]), ms[n], k, v);
    }
  }

  /** With a single worker its map is the merged table. */
  lemma MergeOfOne(m: Table)
    ensures Merge([m]) == m
  {
    MergeKeysAreUnion([m]);
    forall k | k in m
      ensures Merge([m])[k] == m[k]
    {
      LaterWorkerWins([m], 0, k);
    }
  }
}
