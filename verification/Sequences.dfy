/** The few sequence facts that several components need. */
module Sequences {

  function Front<T>(s: seq<T>): seq<T>
    requires s != []
  {
    s[..|s| - 1]
  }

  function Last<T>(s: seq<T>): T
    requires s != []
  {
    s[|s| - 1]
  }

  function Sum(a: seq<nat>): nat {
    if a == [] then 0 else Sum(Front(a)) + Last(a)
  }

  lemma {:induction false} SumZero(a: seq<nat>)
    requires forall i | 0 <= i < |a| :: a[i] == 0
    ensures Sum(a) == 0
  {
    if a != [] {
      SumZero(Front(a));
    }
  }

  /** From `a` to `b` position j loses some and the next position, if any, gains some. */
  lemma {:induction false} SumMoves(a: seq<nat>, b: seq<nat>, j: nat, lost: nat, gained: nat)
    requires j < |a| == |b| && a[j] == b[j] + lost
    requires j + 1 < |a| ==> b[j + 1] == a[j + 1] + gained
    requires forall i | 0 <= i < |a| && i != j && i != j + 1 :: b[i] == a[i]
    ensures Sum(a) + (if j + 1 < |a| then gained else 0) == Sum(b) + lost
  {
    if j == |a| - 1 {
      assert Front(a) == Front(b);
    } else {
      SumMoves(Front(a), Front(b), j, lost, gained);
    }
  }

  ghost predicate Ascending<T>(less: (T, T) -> bool, s: seq<T>) {
    forall i, j | 0 <= i < j < |s| :: less(s[i], s[j])
  }

  ghost predicate Asymmetric<T(!new)>(less: (T, T) -> bool) {
    forall x, y :: less(x, y) ==> !less(y, x)
  }

  /** A strictly ascending sequence is determined by its elements. */
  lemma {:induction false} AscendingUnique<T(!new)>(less: (T, T) -> bool, a: seq<T>, b: seq<T>)
    requires Asymmetric(less) && Ascending(less, a) && Ascending(less, b)
    requires forall x :: x in a <==> x in b
    ensures a == b
  {
    if a == [] {
      if b != [] {
        FirstIsMember(b);
      }
    } else {
      assert Last(a) in a;
      SameLast(less, a, b);
      forall x ensures x in Front(a) <==> x in Front(b) {
        FrontElements(less, a, x);
        FrontElements(less, b, x);
      }
      AscendingUnique(less, Front(a), Front(b));
      assert a == Front(a) + [Last(a)] && b == Front(b) + [Last(b)];
    }
  }

  lemma SameLast<T(!new)>(less: (T, T) -> bool, a: seq<T>, b: seq<T>)
    requires Asymmetric(less) && Ascending(less, a) && Ascending(less, b) && a != [] && b != []
    requires forall x :: x in a <==> x in b
    ensures Last(a) == Last(b)
  {
    assert Last(a) in b && Last(b) in a;
    var i :| 0 <= i < |b| && b[i] == Last(a);
    var j :| 0 <= j < |a| && a[j] == Last(b);
    assert i < |b| - 1 ==> less(b[i], b[|b| - 1]);
    assert j < |a| - 1 ==> less(a[j], a[|a| - 1]);
  }

  lemma FirstIsMember<T>(s: seq<T>)
    requires s != []
    ensures s[0] in s
  {
  }

  lemma FrontElements<T(!new)>(less: (T, T) -> bool, s: seq<T>, x: T)
    requires Asymmetric(less) && Ascending(less, s) && s != []
    ensures x in Front(s) <==> x in s && x != Last(s)
  {
    if x in Front(s) {
      var i :| 0 <= i < |s| - 1 && s[i] == x;
      assert less(s[i], s[|s| - 1]);
    }
  }
}
