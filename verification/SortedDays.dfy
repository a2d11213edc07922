/** sort.Strings on day keys: the members of a set of days in ascending order. */
module SortedDays {
  lemma NotEmpty(s: set<int>)
    requires s != {}
    ensures exists x :: x in s
  {
    assert (forall x :: x !in s) ==> s == {};
  }

  ghost predicate IsLeast(s: set<int>, m: int) {
    m in s && forall x :: x in s ==> m <= x
  }

  lemma {:induction false} LeastExists(s: set<int>)
    requires s != {}
    ensures exists m :: IsLeast(s, m)
  {
    NotEmpty(s);
    var x :| x in s;
    if s - {x} == {} {
      assert s == {x};
      assert IsLeast(s, x);
    } else {
      LeastExists(s - {x});
      var m :| IsLeast(s - {x}, m);
      LeastOfTwo(s, x, m);
    }
  }

  lemma LeastOfTwo(s: set<int>, x: int, m: int)
    requires x in s && IsLeast(s - {x}, m)
    ensures IsLeast(s, if x < m then x else m)
  {
    forall y | y in s ensures (if x < m then x else m) <= y {
      assert y == x || y in s - {x};
    }
  }

  ghost function Least(s: set<int>): (m: int)
    requires s != {}
    ensures m in s && forall x :: x in s ==> m <= x
  {
    LeastExists(s);
    var m :| IsLeast(s, m);
    m
  }

  ghost function Sorted(s: set<int>): seq<int>
    decreases |s|
  {
    if s == {} then [] else [Least(s)] + Sorted(s - {Least(s)})
  }

  lemma {:induction false} SortedIsOrder(s: set<int>)
    ensures forall x :: x in Sorted(s) <==> x in s
    ensures forall i, j :: 0 <= i < j < |Sorted(s)| ==> Sorted(s)[i] < Sorted(s)[j]
    decreases |s|
  {
    if s != {} {
      var m, rest := Least(s), s - {Least(s)};
      SortedIsOrder(rest);
      forall j | 0 <= j < |Sorted(rest)| ensures m < Sorted(rest)[j] {
        assert Sorted(rest)[j] in rest;
      }
      assert Sorted(s) == [m] + Sorted(rest);
    }
  }

  method SortDays(s: set<int>) returns (ks: seq<int>)
    ensures ks == Sorted(s)
  {
    ks := [];
    var left := s;
    while left != {}
      invariant Sorted(s) == ks + Sorted(left)
      decreases |left|
    {
      var m := FindLeast(left);
      ks, left := ks + [m], left - {m};
    }
    assert left == {} && Sorted(left) == [];
    assert ks + [] == ks;
  }

  method FindLeast(s: set<int>) returns (m: int)
    requires s != {}
    ensures m == Least(s)
  {
    NotEmpty(s);
    m :| m in s;
    var left := s - {m};
    while left != {}
      invariant m in s && left <= s && forall x :: x in s && x !in left ==> m <= x
      decreases |left|
    {
      NotEmpty(left);
      var x :| x in left;
      left := left - {x};
      if x < m {
        m := x;
      }
    }
  }
}
