/** Small collection helpers: duplicate removal keeping first occurrences,
    and the least element of a finite set of integers. */
module Sequences {

  predicate NoDup<T(==)>(s: seq<T>) {
    forall i, j :: 0 <= i < j < |s| ==> s[i] != s[j]
  }

  /** `s` without repetitions, each element kept at its first occurrence
      (what a `DISTINCT` aggregate or a `HashSet` collects, in a fixed order). */
  function Dedup<T(==,!new)>(s: seq<T>): (r: seq<T>)
    ensures NoDup(r)
    ensures forall x :: x in r <==> x in s
    ensures |r| <= |s|
  {
    if |s| == 0 then []
    else
      var rest := Dedup(s[..|s| - 1]);
      if s[|s| - 1] in rest then rest else rest + [s[|s| - 1]]
  }

  /** An element met again is dropped; a new one is kept at the end. */
  lemma DedupSnoc<T(!new)>(s: seq<T>, x: T)
    ensures Dedup(s + [x]) == if x in Dedup(s) then Dedup(s) else Dedup(s) + [x]
  {
    assert (s + [x])[..|s|] == s;
  }

  /** Without repetitions, nothing is removed. */
  lemma {:induction false} DedupNoDup<T(!new)>(s: seq<T>)
    requires NoDup(s)
    ensures Dedup(s) == s
  {
    if |s| > 0 {
      var p := s[..|s| - 1];
      assert NoDup(p);
      DedupNoDup(p);
      assert s[|s| - 1] !in p;
      assert s == p + [s[|s| - 1]];
    }
  }

  /** Six single elements consed in front of a tail. */
  lemma ConsSix<T>(x1: T, x2: T, x3: T, x4: T, x5: T, x6: T, d: seq<T>)
    ensures [x1] + ([x2] + ([x3] + ([x4] + ([x5] + ([x6] + d))))) == [x1, x2, x3, x4, x5, x6] + d
  {
  }

  /** A set with no element is the empty set. */
  lemma NoElementEmpty(xs: set<int>)
    ensures (forall x :: x !in xs) ==> xs == {}
  {
    if forall x :: x !in xs {
      assert xs == {};
    }
  }

  /** A non-empty finite set of integers has a least element. */
  lemma {:induction false} HasMin(xs: set<int>)
    requires xs != {}
    ensures exists m :: m in xs && forall y :: y in xs ==> m <= y
    decreases |xs|
  {
    NoElementEmpty(xs);
    var x :| x in xs;
    var rest := xs - {x};
    assert xs == rest + {x};
    if rest == {} {
      assert xs == {x};
    } else {
      HasMin(rest);
      var m :| m in rest && forall y :: y in rest ==> m <= y;
      var least := if x < m then x else m;
      assert forall y :: y in xs ==> least <= y by {
        forall y | y in xs
          ensures least <= y
        {
          if y != x {
            assert y in rest;
          }
        }
      }
    }
  }

  /** The least element of a non-empty finite set of integers. */
  function SetMin(xs: set<int>): (m: int)
    requires xs != {}
    ensures m in xs && forall y :: y in xs ==> m <= y
  {
    HasMin(xs);
    var m :| m in xs && forall y :: y in xs ==> m <= y;
    m
  }
}
