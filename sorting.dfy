/** The stable sort behind `Array.prototype.sort` with a comparator, stated
    over a strict "sorts before" relation. The result is sorted for any
    strict order; for a strict weak order (one whose incomparability is
    transitive) elements the relation does not separate also keep their
    input order. */
module Sorting {

  /** `lt` may be used as a sort key: it is irreflexive and transitive. */
  ghost predicate StrictOrder<T(!new)>(lt: (T, T) -> bool) {
    (forall a :: !lt(a, a))
    && (forall a, b, c :: lt(a, b) && lt(b, c) ==> lt(a, c))
  }

  /** Neither of `a` and `b` sorts strictly before the other. */
  predicate Incomparable<T>(lt: (T, T) -> bool, a: T, b: T) {
    !lt(a, b) && !lt(b, a)
  }

  /** A strict order whose incomparability is transitive, as a comparator
      must be for `Array.prototype.sort` to be well defined. */
  ghost predicate StrictWeakOrder<T(!new)>(lt: (T, T) -> bool) {
    StrictOrder(lt)
    && (forall a, b, c {:trigger Incomparable(lt, a, b), Incomparable(lt, b, c)} ::
          Incomparable(lt, a, b) && Incomparable(lt, b, c) ==> Incomparable(lt, a, c))
  }

  /** The elements of `s` that `lt` does not separate from `x`, in order. */
  function Ties<T>(s: seq<T>, x: T, lt: (T, T) -> bool): (r: seq<T>)
    ensures |r| <= |s|
    ensures forall i :: 0 <= i < |r| ==> Incomparable(lt, r[i], x)
  {
    if |s| == 0 then []
    else (if Incomparable(lt, s[0], x) then [s[0]] else []) + Ties(s[1..], x, lt)
  }

  lemma {:induction false} TiesAppend<T>(a: seq<T>, b: seq<T>, x: T, lt: (T, T) -> bool)
    ensures Ties(a + b, x, lt) == Ties(a, x, lt) + Ties(b, x, lt)
    decreases |a|
  {
    if |a| > 0 {
      assert (a + b)[0] == a[0] && (a + b)[1..] == a[1..] + b;
      TiesAppend(a[1..], b, x, lt);
    } else {
      assert a + b == b;
    }
  }

  /** No later element sorts strictly before an earlier one. */
  predicate SortedBy<T>(s: seq<T>, lt: (T, T) -> bool) {
    forall i, j :: 0 <= i < j < |s| ==> !lt(s[j], s[i])
  }

  /** Inserts `x` after every element it does not sort strictly before. */
  function InsertBy<T>(x: T, s: seq<T>, lt: (T, T) -> bool): (r: seq<T>)
    ensures |r| == |s| + 1
    ensures multiset(r) == multiset(s) + multiset{x}
  {
    if |s| == 0 then [x]
    else if lt(x, s[0]) then [x] + s
    else
      assert s == [s[0]] + s[1..];
      [s[0]] + InsertBy(x, s[1..], lt)
  }

  /** Insertion sort taking the elements in input order; for a strict weak
      order it is stable (`SortByStable`). */
  function SortBy<T>(s: seq<T>, lt: (T, T) -> bool): (r: seq<T>)
    ensures |r| == |s|
    ensures multiset(r) == multiset(s)
  {
    if |s| == 0 then []
    else
      assert s == s[..|s| - 1] + [s[|s| - 1]];
      InsertBy(s[|s| - 1], SortBy(s[..|s| - 1], lt), lt)
  }

  lemma {:induction false} InsertBySorted<T(!new)>(x: T, s: seq<T>, lt: (T, T) -> bool)
    requires StrictOrder(lt) && SortedBy(s, lt)
    ensures SortedBy(InsertBy(x, s, lt), lt)
    decreases |s|
  {
    if |s| > 0 && !lt(x, s[0]) {
      InsertBySorted(x, s[1..], lt);
      var r := InsertBy(x, s[1..], lt);
      forall k | 0 <= k < |r|
        ensures !lt(r[k], s[0])
      {
        assert r[k] in multiset(r);
        assert r[k] == x || r[k] in multiset(s[1..]);
        if r[k] != x {
          var j :| 0 <= j < |s[1..]| && s[1..][j] == r[k];
          assert s[j + 1] == r[k];
        }
      }
    } else if |s| > 0 {
      forall j | 0 <= j < |s|
        ensures !lt(s[j], x)
      {
        if j > 0 {
          assert !lt(s[j], s[0]);
        }
      }
    }
  }

  /** The result is sorted whenever the relation is a strict order. */
  lemma {:induction false} SortBySorted<T(!new)>(s: seq<T>, lt: (T, T) -> bool)
    requires StrictOrder(lt)
    ensures SortedBy(SortBy(s, lt), lt)
    decreases |s|
  {
    if |s| > 0 {
      SortBySorted(s[..|s| - 1], lt);
      InsertBySorted(s[|s| - 1], SortBy(s[..|s| - 1], lt), lt);
    }
  }

  /** In a sorted sequence under a strict weak order, an element that sorts
      before the head sorts before every element. */
  lemma BeforeHeadBeforeAll<T(!new)>(y: T, t: seq<T>, lt: (T, T) -> bool, j: nat)
    requires StrictWeakOrder(lt) && SortedBy(t, lt)
    requires 0 < |t| && lt(y, t[0]) && j < |t|
    ensures lt(y, t[j])
  {
    if j > 0 {
      assert !lt(t[j], t[0]);
      if lt(t[0], t[j]) {
        assert lt(y, t[0]) && lt(t[0], t[j]);
      } else {
        LtIncomparable(y, t[0], t[j], lt);
      }
    }
  }

  /** Under a strict weak order, sorting before `b` means sorting before
      everything tied with `b`. */
  lemma LtIncomparable<T(!new)>(a: T, b: T, c: T, lt: (T, T) -> bool)
    requires StrictWeakOrder(lt) && lt(a, b) && Incomparable(lt, b, c)
    ensures lt(a, c)
  {
    assert Incomparable(lt, a, c) && Incomparable(lt, c, b) ==> Incomparable(lt, a, b);
    assert lt(c, a) ==> lt(c, b);
  }

  /** A sequence none of whose elements is tied with `x` has no ties with it. */
  lemma {:induction false} TiesEmpty<T>(s: seq<T>, x: T, lt: (T, T) -> bool)
    requires forall j :: 0 <= j < |s| ==> !Incomparable(lt, s[j], x)
    ensures Ties(s, x, lt) == []
    decreases |s|
  {
    if |s| > 0 {
      assert !Incomparable(lt, s[0], x);
      TiesEmpty(s[1..], x, lt);
    }
  }

  /** When `y` sorts before the head of a sorted sequence, nothing in it is
      tied with anything `y` is tied with. */
  lemma BeforeHeadNoTies<T(!new)>(y: T, t: seq<T>, x: T, lt: (T, T) -> bool)
    requires StrictWeakOrder(lt) && SortedBy(t, lt)
    requires 0 < |t| && lt(y, t[0]) && Incomparable(lt, y, x)
    ensures Ties(t, x, lt) == []
  {
    forall j | 0 <= j < |t|
      ensures !Incomparable(lt, t[j], x)
    {
      BeforeHeadBeforeAll(y, t, lt, j);
      assert Incomparable(lt, y, x) && Incomparable(lt, x, t[j]) ==> Incomparable(lt, y, t[j]);
    }
    TiesEmpty(t, x, lt);
  }

  /** The tail of a sorted sequence is sorted. */
  lemma SortedTail<T>(t: seq<T>, lt: (T, T) -> bool)
    requires 0 < |t| && SortedBy(t, lt)
    ensures SortedBy(t[1..], lt)
  {
    forall i, j | 0 <= i < j < |t[1..]|
      ensures !lt(t[1..][j], t[1..][i])
    {
      assert t[1..][j] == t[j + 1] && t[1..][i] == t[i + 1];
    }
  }

  /** Inserting `y` into a sorted sequence puts it after every element tied
      with it: the ties with any `x` gain `y` at the end. */
  lemma {:induction false} InsertByTies<T(!new)>(y: T, t: seq<T>, x: T, lt: (T, T) -> bool)
    requires StrictWeakOrder(lt) && SortedBy(t, lt)
    ensures Ties(InsertBy(y, t, lt), x, lt) == Ties(t, x, lt) + Ties([y], x, lt)
    decreases |t|
  {
    assert Ties([y], x, lt) == (if Incomparable(lt, y, x) then [y] else []) + Ties([y][1..], x, lt);
    if |t| == 0 {
    } else if lt(y, t[0]) {
      TiesAppend([y], t, x, lt);
      if Incomparable(lt, y, x) {
        BeforeHeadNoTies(y, t, x, lt);
      }
    } else {
      SortedTail(t, lt);
      InsertByTies(y, t[1..], x, lt);
      var rest := InsertBy(y, t[1..], lt);
      assert ([t[0]] + rest)[0] == t[0] && ([t[0]] + rest)[1..] == rest;
    }
  }

  /** The sort is stable for a strict weak order: the elements tied with any
      `x` appear in the result in the order they had in the input. */
  lemma {:induction false} SortByStable<T(!new)>(s: seq<T>, x: T, lt: (T, T) -> bool)
    requires StrictWeakOrder(lt)
    ensures Ties(SortBy(s, lt), x, lt) == Ties(s, x, lt)
    decreases |s|
  {
    if |s| > 0 {
      var init, last := s[..|s| - 1], s[|s| - 1];
      SortByStable(init, x, lt);
      SortBySorted(init, lt);
      InsertByTies(last, SortBy(init, lt), x, lt);
      assert s == init + [last];
      TiesAppend(init, [last], x, lt);
    }
  }
}
