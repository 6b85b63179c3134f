/** The stable sort of the Rust standard library, as insertion from the back. */
module Sorting {

  ghost predicate IsOrder<T(!new)>(le: (T, T) -> bool) {
    && (forall x, y :: le(x, y) || le(y, x))
    && forall x, y, z :: le(x, y) && le(y, z) ==> le(x, z)
  }

  ghost predicate SortedBy<T>(s: seq<T>, le: (T, T) -> bool) {
    forall i, j :: 0 <= i < j < |s| ==> le(s[i], s[j])
  }

  function InsertBy<T>(s: seq<T>, x: T, le: (T, T) -> bool): (r: seq<T>)
    ensures |r| == |s| + 1
  {
    if s == [] then [x]
    else if le(s[|s| - 1], x) then s + [x]
    else InsertBy(s[..|s| - 1], x, le) + [s[|s| - 1]]
  }

  function SortBy<T>(s: seq<T>, le: (T, T) -> bool): (r: seq<T>)
    ensures |r| == |s|
  {
    if s == [] then [] else InsertBy(SortBy(s[..|s| - 1], le), s[|s| - 1], le)
  }

  /** The elements that `le` cannot tell from `y`, in order. */
  function Alike<T>(s: seq<T>, y: T, le: (T, T) -> bool): seq<T> {
    if s == [] then []
    else
      var last := s[|s| - 1];
      Alike(s[..|s| - 1], y, le) + (if le(last, y) && le(y, last) then [last] else [])
  }

  lemma {:induction false} InsertKeepsElements<T>(s: seq<T>, x: T, le: (T, T) -> bool)
    ensures multiset(InsertBy(s, x, le)) == multiset(s) + multiset{x}
  {
    if s == [] {
    } else {
      assert s == s[..|s| - 1] + [s[|s| - 1]];
      if !le(s[|s| - 1], x) {
        InsertKeepsElements(s[..|s| - 1], x, le);
      }
    }
  }

  lemma {:induction false} InsertSorts<T(!new)>(s: seq<T>, x: T, le: (T, T) -> bool)
    requires IsOrder(le) && SortedBy(s, le)
    ensures SortedBy(InsertBy(s, x, le), le)
  {
    if s != [] && !le(s[|s| - 1], x) {
      var front, last := s[..|s| - 1], s[|s| - 1];
      InsertSorts(front, x, le);
      InsertKeepsElements(front, x, le);
      var r := InsertBy(front, x, le);
      forall i | 0 <= i < |r| ensures le(r[i], last) {
        assert r[i] in multiset(r);
        assert r[i] == x || r[i] in front;
      }
    } else if s != [] {
      forall i | 0 <= i < |s| ensures le(s[i], x) {
        if i < |s| - 1 {
          assert le(s[i], s[|s| - 1]);
        }
      }
    }
  }

  lemma {:induction false} InsertIsStable<T(!new)>(s: seq<T>, x: T, y: T, le: (T, T) -> bool)
    requires IsOrder(le) && SortedBy(s, le)
    ensures Alike(InsertBy(s, x, le), y, le) == Alike(s, y, le) + (if le(x, y) && le(y, x) then [x] else [])
  {
    if s == [] {
    } else {
      var front, last := s[..|s| - 1], s[|s| - 1];
      if le(last, x) {
        assert (s + [x])[..|s|] == s;
      } else {
        InsertIsStable(front, x, y, le);
        var r := InsertBy(front, x, le);
        assert (r + [last])[..|r|] == r;
      }
    }
  }

  /** The result is sorted, has the same elements, and keeps the order of elements that compare equal. */
  lemma {:induction false} SortIsStable<T(!new)>(s: seq<T>, y: T, le: (T, T) -> bool)
    requires IsOrder(le)
    ensures SortedBy(SortBy(s, le), le)
    ensures multiset(SortBy(s, le)) == multiset(s)
    ensures Alike(SortBy(s, le), y, le) == Alike(s, y, le)
  {
    if s == [] {
    } else {
      var front, last := s[..|s| - 1], s[|s| - 1];
      assert s == front + [last];
      SortIsStable(front, y, le);
      InsertSorts(SortBy(front, le), last, le);
      InsertKeepsElements(SortBy(front, le), last, le);
      InsertIsStable(SortBy(front, le), last, y, le);
    }
  }

  /** Elements that come in the order of `rank` keep that order where `le` cannot tell them apart. */
  ghost predicate BreaksTies<T>(s: seq<T>, rank: T -> int, le: (T, T) -> bool) {
    forall i, j :: 0 <= i < j < |s| && le(s[j], s[i]) ==> rank(s[i]) < rank(s[j])
  }

  lemma {:induction false} InsertBreaksTies<T(!new)>(s: seq<T>, x: T, rank: T -> int, le: (T, T) -> bool)
    requires IsOrder(le) && SortedBy(s, le) && BreaksTies(s, rank, le)
    requires forall y :: y in s ==> rank(y) < rank(x)
    ensures BreaksTies(InsertBy(s, x, le), rank, le)
  {
    if s != [] && !le(s[|s| - 1], x) {
      var front, last := s[..|s| - 1], s[|s| - 1];
      InsertBreaksTies(front, x, rank, le);
      InsertKeepsElements(front, x, le);
      var r := InsertBy(front, x, le);
      forall i | 0 <= i < |r| && le(last, r[i]) ensures rank(r[i]) < rank(last) {
        assert r[i] in multiset(r);
        assert r[i] == x || r[i] in front;
      }
    }
  }

  lemma {:induction false} SortBreaksTiesByRank<T(!new)>(s: seq<T>, rank: T -> int, le: (T, T) -> bool)
    requires IsOrder(le) && forall i, j :: 0 <= i < j < |s| ==> rank(s[i]) < rank(s[j])
    ensures BreaksTies(SortBy(s, le), rank, le)
  {
    if s == [] {
    } else {
      var front, last := s[..|s| - 1], s[|s| - 1];
      SortBreaksTiesByRank(front, rank, le);
      SortIsStable(front, last, le);
      var t := SortBy(front, le);
      forall y | y in t ensures rank(y) < rank(last) {
        assert y in multiset(t) && y in front;
      }
      InsertBreaksTies(t, last, rank, le);
    }
  }

  /** Sorting leaves a sorted sequence alone. */
  lemma {:induction false} SortOfSorted<T>(s: seq<T>, le: (T, T) -> bool)
    requires SortedBy(s, le)
    ensures SortBy(s, le) == s
  {
    if s == [] {
    } else {
      SortOfSorted(s[..|s| - 1], le);
    }
  }

  /** The elements that `keep` accepts, in order. */
  function Chosen<T>(s: seq<T>, keep: T -> bool): seq<T> {
    if s == [] then []
    else Chosen(s[..|s| - 1], keep) + (if keep(s[|s| - 1]) then [s[|s| - 1]] else [])
  }

  lemma {:induction false} ChosenAreElements<T>(s: seq<T>, keep: T -> bool)
    ensures forall y :: y in Chosen(s, keep) ==> y in s
  {
    if s == [] {
    } else {
      ChosenAreElements(s[..|s| - 1], keep);
    }
  }

  lemma ChosenAppend<T>(s: seq<T>, x: T, keep: T -> bool)
    ensures Chosen(s + [x], keep) == if keep(x) then Chosen(s, keep) + [x] else Chosen(s, keep)
  {
    assert (s + [x])[..|s|] == s;
  }

  lemma InsertAtEnd<T>(s: seq<T>, x: T, le: (T, T) -> bool)
    requires s == [] || le(s[|s| - 1], x)
    ensures InsertBy(s, x, le) == s + [x]
  {
  }

  lemma InsertBelow<T>(s: seq<T>, last: T, x: T, le: (T, T) -> bool)
    requires !le(last, x)
    ensures InsertBy(s + [last], x, le) == InsertBy(s, x, le) + [last]
  {
    assert (s + [last])[..|s|] == s;
  }

  lemma ChosenEndsBelow<T(!new)>(s: seq<T>, x: T, le: (T, T) -> bool, keep: T -> bool)
    requires IsOrder(le) && SortedBy(s, le) && s != [] && le(s[|s| - 1], x)
    ensures var c := Chosen(s, keep); c == [] || le(c[|c| - 1], x)
  {
    var c := Chosen(s, keep);
    ChosenAreElements(s, keep);
    if c != [] {
      assert c[|c| - 1] in s;
    }
  }

  lemma {:induction false} InsertIntoChosen<T(!new)>(s: seq<T>, x: T, le: (T, T) -> bool, keep: T -> bool)
    requires IsOrder(le) && SortedBy(s, le)
    ensures Chosen(InsertBy(s, x, le), keep) ==
      if keep(x) then InsertBy(Chosen(s, keep), x, le) else Chosen(s, keep)
  {
    if s == [] {
      InsertAtEnd(s, x, le);
      InsertAtEnd(Chosen(s, keep), x, le);
      ChosenAppend(s, x, keep);
    } else {
      var front, last := s[..|s| - 1], s[|s| - 1];
      assert s == front + [last];
      assert SortedBy(front, le);
      if !le(last, x) {
        InsertIntoChosen(front, x, le, keep);
      } else {
        ChosenEndsBelow(s, x, le, keep);
      }
      hide *;
      ChosenAppend(front, last, keep);
      if le(last, x) {
        InsertAtEnd(s, x, le);
        ChosenAppend(s, x, keep);
        InsertAtEnd(Chosen(s, keep), x, le);
      } else {
        InsertBelow(front, last, x, le);
        ChosenAppend(InsertBy(front, x, le), last, keep);
        InsertBelow(Chosen(front, keep), last, x, le);
      }
    }
  }

  lemma SortOfMore<T>(s: seq<T>, x: T, le: (T, T) -> bool)
    ensures SortBy(s + [x], le) == InsertBy(SortBy(s, le), x, le)
  {
    assert (s + [x])[..|s|] == s;
  }

  /** Leaving elements out before sorting or after makes no difference. */
  lemma {:induction false} SortOfChosen<T(!new)>(s: seq<T>, le: (T, T) -> bool, keep: T -> bool)
    requires IsOrder(le)
    ensures SortBy(Chosen(s, keep), le) == Chosen(SortBy(s, le), keep)
  {
    if s == [] {
    } else {
      var front, last := s[..|s| - 1], s[|s| - 1];
      assert s == front + [last];
      hide *;
      SortOfChosen(front, le, keep);
      SortIsStable(front, last, le);
      InsertIntoChosen(SortBy(front, le), last, le, keep);
      ChosenAppend(front, last, keep);
      SortOfMore(front, last, le);
      SortOfMore(Chosen(front, keep), last, le);
    }
  }
}
