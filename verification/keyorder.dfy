/** Enumerating the keys of a map in ascending `std::string` order, as a
    range-for over a `std::map<std::string, …>` does. */
module KeyOrder {
  import opened Lex

  /** `k` is the smallest element of `s`. */
  predicate IsLeast(k: string, s: set<string>)
  {
    k in s && forall j :: j in s ==> AtMost(k, j)
  }

  /** Keys strictly ascending: every key appears once, in `std::map` order. */
  predicate Ascending(ks: seq<string>)
  {
    forall i, j :: 0 <= i < j < |ks| ==> Below(ks[i], ks[j])
  }

  lemma {:induction false} LeastExists(s: set<string>)
    requires s != {}
    ensures exists k :: IsLeast(k, s)
    decreases |s|
  {
    var x :| x in s;
    if s == {x} {
      assert IsLeast(x, s);
    } else {
      LeastExists(s - {x});
      var m :| IsLeast(m, s - {x});
      BelowTrichotomy(m, x);
      if Below(x, m) {
        forall j | j in s
          ensures AtMost(x, j)
        {
          AtMostTransitive(x, m, j);
        }
        assert IsLeast(x, s);
      } else {
        assert IsLeast(m, s);
      }
    }
  }

  lemma LeastUnique(s: set<string>)
    ensures forall a, b :: IsLeast(a, s) && IsLeast(b, s) ==> a == b
  {
    forall a, b | IsLeast(a, s) && IsLeast(b, s)
      ensures a == b
    {
      AtMostAntisymmetric(a, b);
    }
  }

  /** The first key a `std::map` with key set `s` visits. */
  function Least(s: set<string>): (k: string)
    requires s != {}
    ensures k in s
    ensures forall j :: j in s ==> AtMost(k, j)
  {
    LeastExists(s);
    LeastUnique(s);
    var k :| IsLeast(k, s);
    k
  }

  /** The keys of `s` in the order a range-for over the map visits them. */
  function SortedKeys(s: set<string>): (ks: seq<string>)
    ensures |ks| == |s|
    ensures forall k :: k in ks <==> k in s
    ensures Ascending(ks)
    decreases |s|
  {
    if s == {} then []
    else
      var k := Least(s);
      var rest := SortedKeys(s - {k});
      assert forall j :: j in rest ==> Below(k, j);
      [k] + rest
  }

  /** Only one ascending sequence lists the elements of a set: the iteration
      order of a `std::map` is fixed by its key set alone. */
  lemma {:induction false} AscendingIsSortedKeys(ks: seq<string>, s: set<string>)
    requires Ascending(ks)
    requires forall k :: k in ks <==> k in s
    ensures ks == SortedKeys(s)
    decreases |ks|
  {
    if ks == [] {
      assert s == {};
    } else {
      var k := ks[0];
      forall j | j in s
        ensures AtMost(k, j)
      {
        var i :| 0 <= i < |ks| && ks[i] == j;
      }
      assert ks[0] in ks;
      assert IsLeast(k, s);
      assert k == Least(s) by {
        LeastUnique(s);
      }
      var rest := ks[1..];
      forall j
        ensures j in rest <==> j in s - {k}
      {
        if j in rest {
          var i :| 0 <= i < |rest| && rest[i] == j;
          assert Below(ks[0], ks[i + 1]);
          BelowIrreflexive(k);
        }
        if j in s - {k} {
          var i :| 0 <= i < |ks| && ks[i] == j;
          assert i != 0;
          assert rest[i - 1] == j;
        }
      }
      AscendingIsSortedKeys(rest, s - {k});
    }
  }
}
