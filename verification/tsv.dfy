/** The TSV writer (src/apps/doc_predict.cpp, lines 92-101) as written: the
    merged map is walked in key order; each key is followed by a tab, and
    each of its labels by a tab (the guard of line 98 compares an iterator
    that is still inside the loop with `end()`, so it always holds) and by a
    newline (written inside the label loop). Only the first label of a key
    shares its line with the key. */
module Tsv {
  import opened Lex
  import opened KeyOrder
  import opened Accumulate

  datatype Option<T> = None | Some(value: T)

  /** One key of the merged map and its labels. */
  type Entry = (string, seq<string>)

  /** The inner loop of lines 95-101: `*reco`, then `"\t"`, then `"\n"`. */
  function Cells(ls: seq<string>): string
  {
    if ls == [] then "" else ls[0] + "\t" + "\n" + Cells(ls[1..])
  }

  /** One pass of the outer loop: `res.first`, a tab, then the labels. */
  function Block(e: Entry): string
  {
    e.0 + "\t" + Cells(e.1)
  }

  function Render(es: seq<Entry>): string
  {
    if es == [] then "" else Block(es[0]) + Render(es[1..])
  }

  /** The entries for the keys `ks`, in that order. */
  function EntriesOf(ks: seq<string>, t: Table): (es: seq<Entry>)
    requires forall i :: 0 <= i < |ks| ==> ks[i] in t
    ensures |es| == |ks|
    ensures forall i :: 0 <= i < |ks| ==> es[i] == (ks[i], t[ks[i]])
  {
    if ks == [] then [] else [(ks[0], t[ks[0]])] + EntriesOf(ks[1..], t)
  }

  /** Position of `k` in `ks`. */
  function IndexOf(ks: seq<string>, k: string): (i: nat)
    requires k in ks
    ensures i < |ks| && ks[i] == k
  {
    if ks[0] == k then 0 else 1 + IndexOf(ks[1..], k)
  }

  /** The entries for an ascending listing of all the keys of `t`. */
  lemma EntriesOfKeys(ks: seq<string>, t: Table)
    requires |ks| == |t|
    requires forall k :: k in ks <==> k in t
    requires Ascending(ks)
    ensures forall i :: 0 <= i < |ks| ==> ks[i] in t
    ensures var es := EntriesOf(ks, t);
            && |es| == |t|
            && (forall i :: 0 <= i < |es| ==> es[i].0 in t && es[i].1 == t[es[i].0])
            && (forall i, j :: 0 <= i < j < |es| ==> Below(es[i].0, es[j].0))
            && (forall k :: k in t ==> exists i :: 0 <= i < |es| && es[i].0 == k)
  {
    assert forall i :: 0 <= i < |ks| ==> ks[i] in t;
    var es := EntriesOf(ks, t);
    forall i, j | 0 <= i < j < |es|
      ensures Below(es[i].0, es[j].0)
    {
      assert es[i].0 == ks[i] && es[j].0 == ks[j];
    }
    forall k | k in t
      ensures exists i :: 0 <= i < |es| && es[i].0 == k
    {
      var i := IndexOf(ks, k);
      assert es[i].0 == k;
    }
  }

  /** The entries of a `std::map` in its iteration order: every key once,
      ascending, each with its own vector. */
  function Entries(t: Table): (es: seq<Entry>)
    ensures |es| == |t|
    ensures forall i :: 0 <= i < |es| ==> es[i].0 in t && es[i].1 == t[es[i].0]
    ensures forall i, j :: 0 <= i < j < |es| ==> Below(es[i].0, es[j].0)
    ensures forall k :: k in t ==> exists i :: 0 <= i < |es| && es[i].0 == k
  {
    var ks := SortedKeys(t.Keys);
    EntriesOfKeys(ks, t);
    EntriesOf(ks, t)
  }

  /** The whole output file. */
  function Serialize(t: Table): string
  {
    Render(Entries(t))
  }

  lemma {:induction false} RenderAppend(a: seq<Entry>, b: seq<Entry>)
    ensures Render(a + b) == Render(a) + Render(b)
    decreases |a|
  {
    if a == [] {
      assert a + b == b;
    } else {
      var ab := a + b;
      assert ab[0] == a[0];
      assert ab[1..] == a[1..] + b;
      RenderAppend(a[1..], b);
      calc {
        Render(ab);
        Block(a[0]) + Render(a[1..] + b);
        Block(a[0]) + (Render(a[1..]) + Render(b));
        (Block(a[0]) + Render(a[1..])) + Render(b);
      }
    }
  }

  lemma {:induction false} CellsAppend(ls: seq<string>, x: string)
    ensures Cells(ls + [x]) == Cells(ls) + x + "\t" + "\n"
    decreases |ls|
  {
    if ls != [] {
      assert (ls + [x])[1..] == ls[1..] + [x];
      CellsAppend(ls[1..], x);
    }
  }

  /** The inner loop of lines 95-101, appending one key's labels to `out`. */
  method WriteLabels(out: string, recos: seq<string>) returns (out': string)
    ensures out' == out + Cells(recos)
  {
    out' := out;
    var j := 0;
    while j < |recos|
      invariant 0 <= j <= |recos|
      invariant out' == out + Cells(recos[..j])
    {
      out' := out' + recos[j];
      if j != |recos| {
        out' := out' + "\t";
      }
      out' := out' + "\n";
      CellsAppend(recos[..j], recos[j]);
      assert recos[..j + 1] == recos[..j] + [recos[j]];
      j := j + 1;
    }
    assert recos[..j] == recos;
  }

  /** The outer loop of lines 92-102 over the entries, in order. */
  method WriteEntries(es: seq<Entry>) returns (out: string)
    ensures out == Render(es)
  {
    out := "";
    var i := 0;
    while i < |es|
      invariant 0 <= i <= |es|
      invariant out == Render(es[..i])
    {
      RenderOneMore(es, i);
      out := out + es[i].0 + "\t";
      out := WriteLabels(out, es[i].1);
      i := i + 1;
    }
    assert es[..i] == es;
  }

  /** One more pass of the outer loop writes the next entry's block. */
  lemma RenderOneMore(es: seq<Entry>, i: nat)
    requires i < |es|
    ensures Render(es[..i + 1]) == Render(es[..i]) + es[i].0 + "\t" + Cells(es[i].1)
  {
    assert es[..i + 1] == es[..i] + [es[i]];
    RenderAppend(es[..i], [es[i]]);
    assert Render([es[i]]) == Block(es[i]);
  }

  /** Lines 92-102: the output file for the merged map. */
  method WriteTsv(results: Table) returns (out: string)
    ensures out == Serialize(results)
  {
    out := WriteEntries(Entries(results));
  }

  // Reading the output back.

  /** Splits `s` at its first tab: the text before it and the text after it. */
  function Field(s: string): (r: Option<(string, string)>)
    ensures r.Some? <==> '\t' in s
    ensures r.Some? ==> '\t' !in r.value.0 && s == r.value.0 + "\t" + r.value.1
    decreases |s|
  {
    if s == [] then None
    else if s[0] == '\t' then Some(([], s[1..]))
    else
      match Field(s[1..])
      case None => None
      case Some((f, rest)) => Some(([s[0]] + f, rest))
  }

  /** Consumes the continuation lines `label\t\n` that follow a key's first
      line: a field followed by a tab and immediately by a newline. */
  function Continuations(s: string): (r: (seq<string>, string))
    ensures |r.1| <= |s|
    decreases |s|
  {
    match Field(s)
    case None => ([], s)
    case Some((x, rest)) =>
      if |rest| > 0 && rest[0] == '\n' then
        var (more, tail) := Continuations(rest[1..]);
        ([x] + more, tail)
      else ([], s)
  }

  /** Reads a whole file: each block is `key\tlabel\t\n` followed by its
      continuation lines. */
  function Parse(s: string): Option<seq<Entry>>
    decreases |s|
  {
    if s == [] then Some([])
    else
      match Field(s)
      case None => None
      case Some((key, r1)) =>
        match Field(r1)
        case None => None
        case Some((first, r2)) =>
          if |r2| == 0 || r2[0] != '\n' then None
          else
            var (more, r3) := Continuations(r2[1..]);
            match Parse(r3)
            case None => None
            case Some(es) => Some([(key, [first] + more)] + es)
  }

  /** Neither a tab nor a newline: the text cannot be confused with the layout. */
  predicate Clean(x: string)
  {
    '\t' !in x && '\n' !in x
  }

  /** Entries the layout can carry unambiguously: clean keys and labels, and
      at least one label per key (the accumulation never stores an empty
      vector). */
  predicate Writable(es: seq<Entry>)
  {
    forall i :: 0 <= i < |es| ==>
      Clean(es[i].0) && es[i].1 != [] && forall j :: 0 <= j < |es[i].1| ==> Clean(es[i].1[j])
  }

  lemma {:induction false} FieldSplits(a: string, b: string)
    requires '\t' !in a
    ensures Field(a + "\t" + b) == Some((a, b))
    decreases |a|
  {
    var s := a + "\t" + b;
    if a == [] {
      assert s == "\t" + b && s[1..] == b;
    } else {
      assert s[0] == a[0] && s[1..] == a[1..] + "\t" + b;
      FieldSplits(a[1..], b);
      assert [a[0]] + a[1..] == a;
    }
  }

  /** A continuation line `x\t\n` is consumed as the label `x`. */
  lemma ContinuationStep(x: string, tail: string)
    requires Clean(x)
    ensures Continuations(x + "\t" + "\n" + tail)
            == ([x] + Continuations(tail).0, Continuations(tail).1)
  {
    var s := x + "\t" + ("\n" + tail);
    assert x + "\t" + "\n" + tail == s;
    FieldSplits(x, "\n" + tail);
    assert ("\n" + tail)[1..] == tail;
  }

  lemma {:induction false} ContinuationsOfCells(ls: seq<string>, rest: string)
    requires forall j :: 0 <= j < |ls| ==> Clean(ls[j])
    requires Continuations(rest) == ([], rest)
    ensures Continuations(Cells(ls) + rest) == (ls, rest)
    decreases |ls|
  {
    if ls == [] {
      assert Cells(ls) + rest == rest;
    } else {
      var tail := Cells(ls[1..]) + rest;
      assert Cells(ls) + rest == ls[0] + "\t" + "\n" + tail;
      ContinuationsOfCells(ls[1..], rest);
      ContinuationStep(ls[0], tail);
      assert [ls[0]] + ls[1..] == ls;
    }
  }

  /** A block never reads as a continuation line: after the key's tab comes
      a label character or a tab, never a newline. */
  lemma RenderStartsBlock(es: seq<Entry>)
    requires Writable(es)
    ensures Continuations(Render(es)) == ([], Render(es))
  {
    if es != [] {
      var key, ls := es[0].0, es[0].1;
      var after := ls[0] + "\t" + "\n" + Cells(ls[1..]) + Render(es[1..]);
      assert Render(es) == key + "\t" + after;
      FieldSplits(key, after);
      assert after[0] != '\n' by {
        if |ls[0]| > 0 {
          assert after[0] == ls[0][0];
        } else {
          assert after[0] == '\t';
        }
      }
    }
  }

  /** `Parse` on a block whose first line has been split into its fields
      and whose continuation lines have been consumed. */
  lemma ParseStep(s: string, key: string, r1: string, first: string, r2: string,
                  more: seq<string>, r3: string, tail: seq<Entry>)
    requires Field(s) == Some((key, r1)) && Field(r1) == Some((first, r2))
    requires |r2| > 0 && r2[0] == '\n'
    requires Continuations(r2[1..]) == (more, r3)
    requires Parse(r3) == Some(tail)
    ensures Parse(s) == Some([(key, [first] + more)] + tail)
  {
  }

  /** The first line of a block splits at the key's tab and the first
      label's tab, and the continuation lines that follow give the other
      labels. */
  lemma BlockFields(key: string, ls: seq<string>, rest: string)
    requires Clean(key) && ls != []
    requires forall j :: 0 <= j < |ls| ==> Clean(ls[j])
    requires Continuations(rest) == ([], rest)
    ensures var r2 := "\n" + (Cells(ls[1..]) + rest);
            var r1 := ls[0] + "\t" + r2;
            && Field(key + "\t" + Cells(ls) + rest) == Some((key, r1))
            && Field(r1) == Some((ls[0], r2))
            && |r2| > 0 && r2[0] == '\n'
            && Continuations(r2[1..]) == (ls[1..], rest)
  {
    var r2 := "\n" + (Cells(ls[1..]) + rest);
    var r1 := ls[0] + "\t" + r2;
    assert key + "\t" + Cells(ls) + rest == key + "\t" + r1;
    FieldSplits(key, r1);
    FieldSplits(ls[0], r2);
    assert r2[1..] == Cells(ls[1..]) + rest;
    ContinuationsOfCells(ls[1..], rest);
  }

  /** One block in front of text that starts a new block (or is empty)
      and reads back as `tail` reads back as its entry and then `tail`. */
  lemma ParseBlock(key: string, ls: seq<string>, rest: string, tail: seq<Entry>)
    requires Clean(key) && |ls| > 0
    requires forall j :: 0 <= j < |ls| ==> Clean(ls[j])
    requires Continuations(rest) == ([], rest)
    requires Parse(rest) == Some(tail)
    ensures Parse(key + "\t" + Cells(ls) + rest) == Some([(key, ls)] + tail)
  {
    assert [ls[0]] + ls[1..] == ls;
    BlockFields(key, ls, rest);
    var r2 := "\n" + (Cells(ls[1..]) + rest);
    ParseStep(key + "\t" + Cells(ls) + rest, key, ls[0] + "\t" + r2, ls[0], r2, ls[1..], rest, tail);
  }

  lemma WritableSplit(es: seq<Entry>)
    requires Writable(es) && es != []
    ensures Writable(es[1..])
    ensures Clean(es[0].0) && es[0].1 != []
    ensures forall j :: 0 <= j < |es[0].1| ==> Clean(es[0].1[j])
  {
    assert forall i :: 0 <= i < |es| - 1 ==> es[1..][i] == es[i + 1];
  }

  /** Reading back what the writer wrote yields the entries, in order. */
  lemma {:induction false} ParseRender(es: seq<Entry>)
    requires Writable(es)
    ensures Parse(Render(es)) == Some(es)
    decreases |es|
  {
    if es != [] {
      var rest := Render(es[1..]);
      WritableSplit(es);
      RenderStartsBlock(es[1..]);
      ParseRender(es[1..]);
      ParseBlock(es[0].0, es[0].1, rest, es[1..]);
      assert Render(es) == es[0].0 + "\t" + Cells(es[0].1) + rest;
      assert [es[0]] + es[1..] == es;
    }
  }

  /** The map rebuilt from a list of entries, later entries winning. */
  function TableOf(es: seq<Entry>): Table
  {
    if es == [] then map[] else TableOf(es[..|es| - 1])[es[|es| - 1].0 := es[|es| - 1].1]
  }

  lemma {:induction false} TableOfEntries(es: seq<Entry>, t: Table)
    requires forall i :: 0 <= i < |es| ==> es[i].0 in t && es[i].1 == t[es[i].0]
    ensures forall i :: 0 <= i < |es| ==> es[i].0 in TableOf(es)
    ensures forall k :: k in TableOf(es) ==> k in t && TableOf(es)[k] == t[k]
    decreases |es|
  {
    if es != [] {
      var n := |es| - 1;
      assert forall i :: 0 <= i < n ==> es[..n][i] == es[i];
      TableOfEntries(es[..n], t);
    }
  }

  /** Every table the accumulation can produce, with clean keys and labels. */
  predicate WritableTable(t: Table)
  {
    forall k :: k in t ==> Clean(k) && t[k] != [] && forall j :: 0 <= j < |t[k]| ==> Clean(t[k][j])
  }

  lemma EntriesWritable(t: Table)
    requires WritableTable(t)
    ensures Writable(Entries(t))
  {
  }

  /** Entries that list every key of `t` once or more, each with its own
      vector, rebuild `t`. */
  lemma TableOfCovering(es: seq<Entry>, t: Table)
    requires forall i :: 0 <= i < |es| ==> es[i].0 in t && es[i].1 == t[es[i].0]
    requires forall k :: k in t ==> exists i :: 0 <= i < |es| && es[i].0 == k
    ensures TableOf(es) == t
  {
    TableOfEntries(es, t);
    var t' := TableOf(es);
    forall k | k in t
      ensures k in t'
    {
      var i :| 0 <= i < |es| && es[i].0 == k;
    }
    assert t'.Keys == t.Keys;
  }

  lemma TableOfEntriesIsTable(t: Table)
    ensures TableOf(Entries(t)) == t
  {
    TableOfCovering(Entries(t), t);
  }

  /** The output file determines the merged map: parsing it and rebuilding
      the map gives back exactly the map that was written. */
  lemma SerializeRoundTrip(t: Table)
    requires WritableTable(t)
    ensures Parse(Serialize(t)) == Some(Entries(t))
    ensures TableOf(Parse(Serialize(t)).value) == t
  {
    EntriesWritable(t);
    ParseRender(Entries(t));
    TableOfEntriesIsTable(t);
  }

  /** Different writable maps are written as different files. */
  lemma SerializeInjective(a: Table, b: Table)
    requires WritableTable(a) && WritableTable(b)
    requires a != b
    ensures Serialize(a) != Serialize(b)
  {
    SerializeRoundTrip(a);
    SerializeRoundTrip(b);
  }

  // Counting lines.

  function Count(s: string, c: char): nat
  {
    if s == [] then 0 else (if s[0] == c then 1 else 0) + Count(s[1..], c)
  }

  lemma {:induction false} CountAppend(a: string, b: string, c: char)
    ensures Count(a + b, c) == Count(a, c) + Count(b, c)
    decreases |a|
  {
    if a == [] {
      assert a + b == b;
    } else {
      var ab := a + b;
      assert ab[0] == a[0];
      assert ab[1..] == a[1..] + b;
      CountAppend(a[1..], b, c);
    }
  }

  lemma {:induction false} CountAbsent(a: string, c: char)
    requires c !in a
    ensures Count(a, c) == 0
    decreases |a|
  {
    if a != [] {
      CountAbsent(a[1..], c);
    }
  }

  /** Total number of labels over all entries. */
  function LabelCount(es: seq<Entry>): nat
  {
    if es == [] then 0 else |es[0].1| + LabelCount(es[1..])
  }

  lemma {:induction false} CellsNewlines(ls: seq<string>)
    requires forall j :: 0 <= j < |ls| ==> '\n' !in ls[j]
    ensures Count(Cells(ls), '\n') == |ls|
    decreases |ls|
  {
    if ls != [] {
      CellsNewlines(ls[1..]);
      CountAppend(ls[0] + "\t" + "\n", Cells(ls[1..]), '\n');
      CountAppend(ls[0] + "\t", "\n", '\n');
      CountAppend(ls[0], "\t", '\n');
      CountAbsent(ls[0], '\n');
    }
  }

  /** As written, the file holds one newline per label, not one per key. */
  lemma {:induction false} NewlinesCountLabels(es: seq<Entry>)
    requires forall i :: 0 <= i < |es| ==> '\n' !in es[i].0
    requires forall i, j :: 0 <= i < |es| && 0 <= j < |es[i].1| ==> '\n' !in es[i].1[j]
    ensures Count(Render(es), '\n') == LabelCount(es)
    decreases |es|
  {
    if es != [] {
      var key, ls := es[0].0, es[0].1;
      NewlinesCountLabels(es[1..]);
      CellsNewlines(ls);
      CountAppend(Block(es[0]), Render(es[1..]), '\n');
      CountAppend(key + "\t", Cells(ls), '\n');
      CountAppend(key, "\t", '\n');
      CountAbsent(key, '\n');
    }
  }
}
