/** CPU sets and their lists: sorted, without repetition, one list per set. */
module CpuSets {
  import opened Wrappers

  predicate Increasing(l: seq<int>) {
    forall i, j :: 0 <= i < j < |l| ==> l[i] < l[j]
  }

  function Elements(l: seq<int>): set<int> {
    set x | x in l
  }

  lemma {:induction false} MaxExists(s: set<int>)
    requires s != {}
    ensures exists m :: m in s && forall x :: x in s ==> x <= m
    decreases |s|
  {
    var a := AnyElement(s);
    if s != {a} {
      var rest := s - {a};
      assert s == rest + {a};
      MaxExists(rest);
      var m :| m in rest && forall x :: x in rest ==> x <= m;
      if m < a {
        assert forall x :: x in s ==> x == a || x in rest;
      } else {
        assert m in s && forall x :: x in s ==> x == a || x in rest;
      }
    }
  }

  ghost function Max(s: set<int>): (m: int)
    requires s != {}
    ensures m in s && forall x :: x in s ==> x <= m
  {
    MaxExists(s);
    var m :| m in s && forall x :: x in s ==> x <= m;
    m
  }

  /** The list of a set. */
  ghost function List(s: set<int>): (l: seq<int>)
    decreases |s|
  {
    if s == {} then [] else List(s - {Max(s)}) + [Max(s)]
  }

  lemma {:induction false} ElementsSnoc(l: seq<int>, x: int)
    ensures Elements(l + [x]) == Elements(l) + {x}
  {
  }

  lemma {:induction false} IncreasingSnoc(l: seq<int>, x: int)
    requires Increasing(l) && forall y :: y in Elements(l) ==> y < x
    ensures Increasing(l + [x])
  {
    forall i | 0 <= i < |l| ensures l[i] < x {
      assert l[i] in Elements(l);
    }
  }

  lemma {:induction false} ListSorted(s: set<int>)
    ensures Increasing(List(s)) && Elements(List(s)) == s
    decreases |s|
  {
    if s == {} {
      assert Elements([]) == {};
    } else {
      var m := Max(s);
      var rest := s - {m};
      ListSorted(rest);
      IncreasingSnoc(List(rest), m);
      ElementsSnoc(List(rest), m);
      assert rest + {m} == s;
    }
  }

  /** An increasing list is determined by its elements. */
  lemma {:induction false} ListUnique(l: seq<int>)
    requires Increasing(l)
    ensures List(Elements(l)) == l
  {
    if l == [] {
      assert Elements(l) == {};
    } else {
      var front, last := l[..|l| - 1], l[|l| - 1];
      assert last in Elements(l);
      forall x | x in Elements(l) ensures x <= last {
        var i :| 0 <= i < |l| && l[i] == x;
      }
      assert Max(Elements(l)) == last;
      assert Elements(l) - {last} == Elements(front);
      ListUnique(front);
    }
  }
}
