/** Finite sets of row numbers, and their ascending order. */
module Numbers {
  function Elements(ns: seq<int>): set<int> {
    set n | n in ns
  }

  lemma ElementsAppend(ns: seq<int>, n: int)
    ensures Elements(ns + [n]) == Elements(ns) + {n}
  {
  }

  predicate IsLeast(m: int, ns: set<int>) {
    m in ns && forall x :: x in ns ==> m <= x
  }

  lemma {:induction false} HasLeast(ns: set<int>)
    requires |ns| > 0
    ensures exists m :: IsLeast(m, ns)
    decreases |ns|
  {
    if forall x :: x !in ns {
      assert false;
    }
    var x :| x in ns;
    var rest := ns - {x};
    if |rest| == 0 {
      assert IsLeast(x, ns);
    } else {
      HasLeast(rest);
      var m :| IsLeast(m, rest);
      assert forall y :: y in ns ==> y == x || y in rest;
      assert IsLeast(if x < m then x else m, ns);
    }
  }

  function Least(ns: set<int>): (m: int)
    requires |ns| > 0
    ensures IsLeast(m, ns)
  {
    HasLeast(ns);
    var m :| IsLeast(m, ns);
    m
  }

  /** A set of numbers in ascending order. */
  function Ascending(ns: set<int>): (r: seq<int>)
    ensures |r| == |ns|
    decreases |ns|
  {
    if |ns| == 0 then [] else [Least(ns)] + Ascending(ns - {Least(ns)})
  }

  lemma {:induction false} AscendingIsSorted(ns: set<int>)
    ensures forall x :: x in ns <==> x in Ascending(ns)
    ensures Elements(Ascending(ns)) == ns
    ensures forall i, j :: 0 <= i < j < |ns| ==> Ascending(ns)[i] < Ascending(ns)[j]
    decreases |ns|
  {
    if |ns| > 0 {
      var m := Least(ns);
      var rest := Ascending(ns - {m});
      AscendingIsSorted(ns - {m});
      assert Ascending(ns) == [m] + rest;
      forall i, j | 0 <= i < j < |ns|
        ensures Ascending(ns)[i] < Ascending(ns)[j]
      {
        assert rest[j - 1] in rest;
      }
    }
  }

  lemma {:induction false} ElementsAtMostLength(ns: seq<int>)
    ensures |Elements(ns)| <= |ns|
  {
    if ns == [] {
      assert Elements(ns) == {};
    } else {
      var rest := ns[..|ns| - 1];
      ElementsAtMostLength(rest);
      ElementsAppend(rest, ns[|ns| - 1]);
      assert ns == rest + [ns[|ns| - 1]];
    }
  }
}
