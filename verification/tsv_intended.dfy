/** The writer as its own comment ("print tab if not last column") and the
    one-line-per-key output format describe it: the key, then the labels
    separated by tabs, then one newline. The writer as written (module `Tsv`)
    instead ends every label with a tab and a newline. */
module TsvIntended {
  import opened Tsv
  import opened Accumulate

  /** The labels separated by tabs, with no tab after the last. */
  function Join(ls: seq<string>): string
  {
    if ls == [] then ""
    else if |ls| == 1 then ls[0]
    else ls[0] + "\t" + Join(ls[1..])
  }

  /** One output line: `key<TAB>label_1<TAB>...<TAB>label_n` and a newline. */
  function Line(e: Entry): string
  {
    e.0 + "\t" + Join(e.1) + "\n"
  }

  function RenderLines(es: seq<Entry>): string
  {
    if es == [] then "" else Line(es[0]) + RenderLines(es[1..])
  }

  /** The corrected output file for the merged map. */
  function SerializeLines(t: Table): string
  {
    RenderLines(Entries(t))
  }

  /** The tab-separated columns of a line. */
  function Columns(s: string): (cs: seq<string>)
    ensures |cs| >= 1
    decreases |s|
  {
    match Field(s)
    case None => [s]
    case Some((f, rest)) => [f] + Columns(rest)
  }

  lemma FieldAbsent(s: string)
    requires '\t' !in s
    ensures Field(s) == None
  {
  }

  lemma {:induction false} ColumnsOfJoin(ls: seq<string>)
    requires ls != []
    requires forall j :: 0 <= j < |ls| ==> Clean(ls[j])
    ensures Columns(Join(ls)) == ls
    decreases |ls|
  {
    if |ls| == 1 {
      FieldAbsent(ls[0]);
    } else {
      FieldSplits(ls[0], Join(ls[1..]));
      ColumnsOfJoin(ls[1..]);
      assert [ls[0]] + ls[1..] == ls;
    }
  }

  /** A corrected line, split at its tabs, gives back the key and then the
      labels in order. */
  lemma LineColumns(e: Entry)
    requires Clean(e.0) && e.1 != []
    requires forall j :: 0 <= j < |e.1| ==> Clean(e.1[j])
    ensures Columns(e.0 + "\t" + Join(e.1)) == [e.0] + e.1
  {
    FieldSplits(e.0, Join(e.1));
    ColumnsOfJoin(e.1);
  }

  lemma {:induction false} JoinNewlines(ls: seq<string>)
    requires forall j :: 0 <= j < |ls| ==> '\n' !in ls[j]
    ensures Count(Join(ls), '\n') == 0
    decreases |ls|
  {
    if |ls| == 1 {
      CountAbsent(ls[0], '\n');
    } else if |ls| > 1 {
      JoinNewlines(ls[1..]);
      CountAppend(ls[0] + "\t", Join(ls[1..]), '\n');
      CountAppend(ls[0], "\t", '\n');
      CountAbsent(ls[0], '\n');
    }
  }

  /** Corrected, the file has exactly one line per key. */
  lemma {:induction false} OneLinePerKey(es: seq<Entry>)
    requires forall i :: 0 <= i < |es| ==> '\n' !in es[i].0
    requires forall i, j :: 0 <= i < |es| && 0 <= j < |es[i].1| ==> '\n' !in es[i].1[j]
    ensures Count(RenderLines(es), '\n') == |es|
    decreases |es|
  {
    if es != [] {
      var key, ls := es[0].0, es[0].1;
      OneLinePerKey(es[1..]);
      JoinNewlines(ls);
      CountAppend(Line(es[0]), RenderLines(es[1..]), '\n');
      CountAppend(key + "\t" + Join(ls), "\n", '\n');
      CountAppend(key + "\t", Join(ls), '\n');
      CountAppend(key, "\t", '\n');
      CountAbsent(key, '\n');
    }
  }

  lemma {:induction false} JoinClean(ls: seq<string>)
    requires forall j :: 0 <= j < |ls| ==> Clean(ls[j])
    ensures '\n' !in Join(ls)
    decreases |ls|
  {
    if |ls| > 1 {
      JoinClean(ls[1..]);
    }
  }

  /** The corrected file has one line per key, whatever the table. */
  lemma SerializeLinesOneLinePerKey(t: Table)
    requires WritableTable(t)
    ensures Count(SerializeLines(t), '\n') == |t|
  {
    var es := Entries(t);
    assert forall i :: 0 <= i < |es| ==> es[i].0 in t && es[i].1 == t[es[i].0];
    OneLinePerKey(es);
  }

  // Reading the corrected file back.

  /** Splits `s` at its first newline: the line and the text after it. */
  function NextLine(s: string): (r: Option<(string, string)>)
    ensures r.Some? <==> '\n' in s
    ensures r.Some? ==> '\n' !in r.value.0 && s == r.value.0 + "\n" + r.value.1
    decreases |s|
  {
    if s == [] then None
    else if s[0] == '\n' then Some(([], s[1..]))
    else
      match NextLine(s[1..])
      case None => None
      case Some((l, rest)) => Some(([s[0]] + l, rest))
  }

  /** Reads a corrected file: each line is a key and at least one label. */
  function ParseLines(s: string): Option<seq<Entry>>
    decreases |s|
  {
    if s == [] then Some([])
    else
      match NextLine(s)
      case None => None
      case Some((line, rest)) =>
        var cs := Columns(line);
        if |cs| < 2 then None
        else
          match ParseLines(rest)
          case None => None
          case Some(es) => Some([(cs[0], cs[1..])] + es)
  }

  lemma {:induction false} NextLineSplits(a: string, b: string)
    requires '\n' !in a
    ensures NextLine(a + "\n" + b) == Some((a, b))
    decreases |a|
  {
    var s := a + "\n" + b;
    if a == [] {
      assert s == "\n" + b && s[1..] == b;
    } else {
      assert s[0] == a[0] && s[1..] == a[1..] + "\n" + b;
      NextLineSplits(a[1..], b);
      assert [a[0]] + a[1..] == a;
    }
  }

  /** One corrected line in front of `rest`, split into the line and `rest`
      and the line into its columns. */
  lemma LineSplits(e: Entry, rest: string)
    requires Clean(e.0) && e.1 != []
    requires forall j :: 0 <= j < |e.1| ==> Clean(e.1[j])
    ensures NextLine(Line(e) + rest) == Some((e.0 + "\t" + Join(e.1), rest))
    ensures Columns(e.0 + "\t" + Join(e.1)) == [e.0] + e.1
  {
    var line := e.0 + "\t" + Join(e.1);
    JoinClean(e.1);
    assert '\n' !in line;
    assert Line(e) + rest == line + "\n" + rest;
    NextLineSplits(line, rest);
    LineColumns(e);
  }

  /** Reading back what the corrected writer wrote yields the entries. */
  lemma {:induction false} ParseRenderLines(es: seq<Entry>)
    requires Writable(es)
    ensures ParseLines(RenderLines(es)) == Some(es)
    decreases |es|
  {
    if es != [] {
      var e, rest := es[0], RenderLines(es[1..]);
      assert [e] + es[1..] == es;
      var cs := [e.0] + e.1;
      assert cs[0] == e.0 && cs[1..] == e.1;
      WritableSplit(es);
      ParseRenderLines(es[1..]);
      LineSplits(e, rest);
    }
  }

  /** The corrected file determines the merged map. */
  lemma SerializeLinesRoundTrip(t: Table)
    requires WritableTable(t)
    ensures ParseLines(SerializeLines(t)) == Some(Entries(t))
    ensures TableOf(ParseLines(SerializeLines(t)).value) == t
  {
    EntriesWritable(t);
    ParseRenderLines(Entries(t));
    TableOfEntriesIsTable(t);
  }

  /** A key with two labels, as written and as intended: the as-written
      writer breaks the record over two lines and leaves a trailing tab on
      each. */
  lemma TwoLabelsCounterexample()
    ensures Render([("x", ["c0", "c1"])]) == "x\tc0\t\nc1\t\n"
    ensures RenderLines([("x", ["c0", "c1"])]) == "x\tc0\tc1\n"
    ensures Count(Render([("x", ["c0", "c1"])]), '\n') == 2
  {
    var e: Entry := ("x", ["c0", "c1"]);
    assert Cells(["c1"]) == "c1\t\n";
    assert Cells(e.1) == "c0\t\n" + Cells(["c1"]);
    assert Join(["c1"]) == "c1";
    NewlinesCountLabels([e]);
  }
}
