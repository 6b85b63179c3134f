/** Counting arguments on finite sets. */
module Sets {

  lemma {:induction false} StrictSubsetIsSmaller<T>(s: set<T>, t: set<T>)
    requires s < t
    ensures |s| < |t|
  {
    var x :| x in t && x !in s;
    SubsetIsNotLarger(s, t - {x});
  }

  lemma {:induction false} SubsetIsNotLarger<T>(s: set<T>, t: set<T>)
    requires s <= t
    ensures |s| <= |t|
  {
    if s == {} {
    } else {
      var x :| x in s;
      SubsetIsNotLarger(s - {x}, t - {x});
    }
  }

  ghost predicate Distinct<T>(s: seq<T>) {
    forall i, j :: 0 <= i < j < |s| ==> s[i] != s[j]
  }

  /** A sequence without repetitions is no longer than any set that holds its elements. */
  lemma {:induction false} DistinctFits<T>(s: seq<T>, universe: set<T>)
    requires Distinct(s) && forall x :: x in s ==> x in universe
    ensures |s| <= |universe|
  {
    if s == [] {
    } else {
      var last := |s| - 1;
      assert forall x :: x in s[..last] ==> x in universe - {s[last]};
      DistinctFits(s[..last], universe - {s[last]});
    }
  }

  /** The pigeonhole principle: a sequence longer than its set of values repeats one. */
  lemma Pigeonhole<T>(s: seq<T>, universe: set<T>)
    requires forall x :: x in s ==> x in universe
    requires |s| > |universe|
    ensures exists i, j :: 0 <= i < j < |s| && s[i] == s[j]
  {
    if Distinct(s) {
      DistinctFits(s, universe);
    }
  }

  ghost function Elements<T(!new)>(s: seq<T>): (r: set<T>)
    ensures |r| <= |s| && forall x :: x in r <==> x in s
  {
    if s == [] then {} else Elements(s[..|s| - 1]) + {s[|s| - 1]}
  }

  /** The first `n` naturals. */
  ghost function UpTo(n: nat): (r: set<nat>)
    ensures |r| == n && forall x: nat :: x in r <==> x < n
  {
    if n == 0 then {} else UpTo(n - 1) + {n - 1}
  }

  /** Distinct naturals below `n` number at most `n`. */
  lemma DistinctBelow(s: seq<nat>, n: nat)
    requires Distinct(s) && forall i :: 0 <= i < |s| ==> s[i] < n
    ensures |s| <= n
  {
    DistinctFits(s, UpTo(n));
  }
}
