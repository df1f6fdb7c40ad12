/**
 * `dense_rank().over(Window.partitionBy(part).orderBy(desc(...)))` followed
 * by `filter(rank <= limit)`.
 *
 * An element's dense rank is one more than the number of DISTINCT values in
 * its partition that are strictly better than its own: tied elements share a
 * rank and the next distinct value gets the next rank, with no gap. `better`
 * is the window's sort order ("comes first"), a strict total order on values.
 */
module Ranking {
  import opened Ordering

  /** An element together with its rank. */
  datatype Ranked<T> = Ranked(item: T, rank: nat)

  ghost predicate StrictTotalOrder<V(!new)>(better: (V, V) -> bool) {
    && (forall a :: !better(a, a))
    && (forall a, b, c :: better(a, b) && better(b, c) ==> better(a, c))
    && (forall a, b :: a != b ==> better(a, b) || better(b, a))
  }

  /** The distinct values in partition `p` that are strictly better than `v`. */
  function BetterValues<T, P(==), V(==)>(xs: seq<T>, part: T -> P, val: T -> V, better: (V, V) -> bool, p: P, v: V): set<V> {
    set i | 0 <= i < |xs| && part(xs[i]) == p && better(val(xs[i]), v) :: val(xs[i])
  }

  /** No element of `x`'s partition has a strictly better value. */
  ghost predicate Unbeaten<T, P, V>(xs: seq<T>, part: T -> P, val: T -> V, better: (V, V) -> bool, x: T) {
    forall i :: 0 <= i < |xs| && part(xs[i]) == part(x) ==> !better(val(xs[i]), val(x))
  }

  /**
   * `dense_rank()`: ranks start at 1, and an element has rank 1 exactly when
   * no element of its partition has a strictly better value.
   */
  function DenseRank<T, P(==), V(==)>(xs: seq<T>, part: T -> P, val: T -> V, better: (V, V) -> bool, x: T): (r: nat)
    ensures r >= 1
    ensures r == 1 <==> Unbeaten(xs, part, val, better, x)
  {
    var a := BetterValues(xs, part, val, better, part(x), val(x));
    assert a == {} <==> Unbeaten(xs, part, val, better, x) by {
      if a != {} {
        var v :| v in a;
        var i :| 0 <= i < |xs| && part(xs[i]) == part(x) && better(val(xs[i]), val(x)) && val(xs[i]) == v;
      }
      if exists i :: 0 <= i < |xs| && part(xs[i]) == part(x) && better(val(xs[i]), val(x)) {
        var i :| 0 <= i < |xs| && part(xs[i]) == part(x) && better(val(xs[i]), val(x));
        assert val(xs[i]) in a;
      }
    }
    1 + |a|
  }

  lemma ProperSubsetSmaller<V>(a: set<V>, b: set<V>, e: V)
    requires a <= b && e in b && e !in a
    ensures |a| < |b|
  {
    var rest := b - a;
    assert b == a + rest;
    assert a * rest == {};
    assert e in rest;
  }

  /** A strictly better value in the same partition gets a strictly smaller rank. */
  lemma RankStrict<T, P, V(!new)>(xs: seq<T>, part: T -> P, val: T -> V, better: (V, V) -> bool, x: T, y: T)
    requires StrictTotalOrder(better)
    requires x in xs && part(x) == part(y) && better(val(x), val(y))
    ensures DenseRank(xs, part, val, better, x) < DenseRank(xs, part, val, better, y)
  {
    var a := BetterValues(xs, part, val, better, part(x), val(x));
    var b := BetterValues(xs, part, val, better, part(y), val(y));
    assert a <= b;
    var i :| 0 <= i < |xs| && xs[i] == x;
    assert val(x) in b;
    ProperSubsetSmaller(a, b, val(x));
  }

  /**
   * Within a partition, ranks order elements exactly as their values do:
   * equal values share a rank and a smaller rank means a better value.
   */
  lemma RankOrder<T, P, V(!new)>(xs: seq<T>, part: T -> P, val: T -> V, better: (V, V) -> bool, x: T, y: T)
    requires StrictTotalOrder(better)
    requires x in xs && y in xs && part(x) == part(y)
    ensures DenseRank(xs, part, val, better, x) == DenseRank(xs, part, val, better, y) <==> val(x) == val(y)
    ensures DenseRank(xs, part, val, better, x) < DenseRank(xs, part, val, better, y) <==> better(val(x), val(y))
  {
    if val(x) != val(y) {
      if better(val(x), val(y)) {
        RankStrict(xs, part, val, better, x, y);
      } else {
        RankStrict(xs, part, val, better, y, x);
      }
    }
  }

  /** A non-empty set has a worst value: every other value is better than it. */
  lemma WorstExists<V(!new)>(s: set<V>, better: (V, V) -> bool) returns (w: V)
    requires StrictTotalOrder(better) && s != {}
    ensures w in s && forall v :: v in s && v != w ==> better(v, w)
    decreases s
  {
    var u :| u in s;
    if s == {u} {
      w := u;
    } else {
      var w' := WorstExists(s - {u}, better);
      if better(u, w') {
        w := w';
      } else {
        w := u;
      }
    }
  }

  /** Ranks have no gaps: every rank from 1 up to an element's own is taken in its partition. */
  lemma RankNoGaps<T, P, V(!new)>(xs: seq<T>, part: T -> P, val: T -> V, better: (V, V) -> bool, x: T, k: nat)
    requires StrictTotalOrder(better)
    requires x in xs && 1 <= k <= DenseRank(xs, part, val, better, x)
    ensures exists y :: y in xs && part(y) == part(x) && DenseRank(xs, part, val, better, y) == k
    decreases DenseRank(xs, part, val, better, x)
  {
    if k < DenseRank(xs, part, val, better, x) {
      var a := BetterValues(xs, part, val, better, part(x), val(x));
      var w := WorstExists(a, better);
      var i :| 0 <= i < |xs| && part(xs[i]) == part(x) && better(val(xs[i]), val(x)) && val(xs[i]) == w;
      var y := xs[i];
      var b := BetterValues(xs, part, val, better, part(y), val(y));
      assert b == a - {w} by {
        forall v | v in a - {w} ensures v in b {
          var j :| 0 <= j < |xs| && part(xs[j]) == part(x) && better(val(xs[j]), val(x)) && val(xs[j]) == v;
        }
      }
      assert |b| == |a| - 1;
      RankNoGaps(xs, part, val, better, y, k);
    }
  }

  function KeepFrom<T(==), P(==), V(==)>(all: seq<T>, xs: seq<T>, part: T -> P, val: T -> V, better: (V, V) -> bool, limit: nat): (r: seq<Ranked<T>>)
    ensures forall e :: e in r ==> e.item in xs && e.rank == DenseRank(all, part, val, better, e.item) && e.rank <= limit
    ensures forall x :: x in xs && DenseRank(all, part, val, better, x) <= limit ==> Ranked(x, DenseRank(all, part, val, better, x)) in r
    ensures Distinct(xs) ==> forall i, j :: 0 <= i < j < |r| ==> r[i].item != r[j].item
  {
    if xs == [] then []
    else
      var rank := DenseRank(all, part, val, better, xs[0]);
      var rest := KeepFrom(all, xs[1..], part, val, better, limit);
      assert forall x :: x in xs ==> x == xs[0] || x in xs[1..];
      assert Distinct(xs) ==> Distinct(xs[1..]) && xs[0] !in xs[1..];
      if rank <= limit then [Ranked(xs[0], rank)] + rest else rest
  }

  /**
   * Each element of `xs` with its dense rank, for the elements whose rank is
   * at most `limit`, in the order of `xs`.
   */
  function KeepRanked<T(==), P(==), V(==)>(xs: seq<T>, part: T -> P, val: T -> V, better: (V, V) -> bool, limit: nat): (r: seq<Ranked<T>>)
    ensures forall e :: e in r ==> e.item in xs && e.rank == DenseRank(xs, part, val, better, e.item) && 1 <= e.rank <= limit
    ensures forall x :: x in xs && DenseRank(xs, part, val, better, x) <= limit ==> Ranked(x, DenseRank(xs, part, val, better, x)) in r
    ensures Distinct(xs) ==> forall i, j :: 0 <= i < j < |r| ==> r[i].item != r[j].item
  {
    KeepFrom(xs, xs, part, val, better, limit)
  }

  function ItemOf<T>(e: Ranked<T>): T {
    e.item
  }

  /** The number of listed rows in partition `p`. */
  function RowsIn<T, P(==)>(r: seq<Ranked<T>>, part: T -> P, p: P): nat {
    if r == [] then 0
    else RowsIn(r[..|r| - 1], part, p) + (if part(r[|r| - 1].item) == p then 1 else 0)
  }

  /** Appending one row adds its element to its partition and changes no other partition. */
  lemma ItemsInSnoc<T, P>(r: seq<Ranked<T>>, part: T -> P, p: P)
    requires r != []
    ensures ItemsIn(r, part, p) ==
              ItemsIn(r[..|r| - 1], part, p) + (if part(r[|r| - 1].item) == p then {r[|r| - 1].item} else {})
  {
    var init := r[..|r| - 1];
    forall x | x in ItemsIn(r, part, p)
      ensures x in ItemsIn(init, part, p) || (x == r[|r| - 1].item && part(x) == p)
    {
      var i :| 0 <= i < |r| && part(r[i].item) == p && r[i].item == x;
      if i < |r| - 1 {
        assert init[i] == r[i];
      }
    }
    forall x | x in ItemsIn(init, part, p) ensures x in ItemsIn(r, part, p) {
      var i :| 0 <= i < |init| && part(init[i].item) == p && init[i].item == x;
      assert r[i] == init[i];
    }
  }

  /** An element listed only in the last row is not kept by the rows before it. */
  lemma LastItemIsNew<T, P>(r: seq<Ranked<T>>, part: T -> P, p: P)
    requires r != []
    requires forall i, j :: 0 <= i < j < |r| ==> r[i].item != r[j].item
    ensures r[|r| - 1].item !in ItemsIn(r[..|r| - 1], part, p)
  {
  }

  /** When no element is listed twice, a partition lists as many rows as it keeps elements. */
  lemma {:induction false} RowsInItems<T, P>(r: seq<Ranked<T>>, part: T -> P, p: P)
    requires forall i, j :: 0 <= i < j < |r| ==> r[i].item != r[j].item
    ensures RowsIn(r, part, p) == |ItemsIn(r, part, p)|
  {
    if r == [] {
      assert ItemsIn(r, part, p) == {};
    } else {
      var init := r[..|r| - 1];
      assert forall i, j :: 0 <= i < j < |init| ==> init[i].item != init[j].item by {
        forall i, j | 0 <= i < j < |init| ensures init[i].item != init[j].item {
          assert init[i] == r[i] && init[j] == r[j];
        }
      }
      RowsInItems(init, part, p);
      ItemsInSnoc(r, part, p);
      LastItemIsNew(r, part, p);
    }
  }

  /** The set of ranks that occur in partition `p`. */
  ghost function RanksIn<T, P>(r: seq<Ranked<T>>, part: T -> P, p: P): set<nat> {
    set i | 0 <= i < |r| && part(r[i].item) == p :: r[i].rank
  }

  /** The set of elements kept in partition `p`. */
  ghost function ItemsIn<T, P>(r: seq<Ranked<T>>, part: T -> P, p: P): set<T> {
    set i | 0 <= i < |r| && part(r[i].item) == p :: r[i].item
  }

  /** The ranks 1..limit. */
  function RankRange(limit: nat): (r: set<nat>)
    ensures forall k :: k in r <==> 1 <= k <= limit
    ensures |r| == limit
  {
    if limit == 0 then {} else RankRange(limit - 1) + {limit}
  }

  lemma SubsetNotLarger<V>(a: set<V>, b: set<V>)
    requires a <= b
    ensures |a| <= |b|
  {
    assert b == a + (b - a);
    assert a * (b - a) == {};
  }

  /** After the filter each partition holds at most `limit` distinct ranks. */
  lemma AtMostLimitRanks<T, P>(r: seq<Ranked<T>>, part: T -> P, limit: nat, p: P)
    requires forall e :: e in r ==> 1 <= e.rank <= limit
    ensures |RanksIn(r, part, p)| <= limit
  {
    var range := RankRange(limit);
    assert RanksIn(r, part, p) <= range by {
      forall k | k in RanksIn(r, part, p) ensures k in range {
        var i :| 0 <= i < |r| && part(r[i].item) == p && r[i].rank == k;
        assert r[i] in r;
      }
    }
    SubsetNotLarger(RanksIn(r, part, p), range);
  }

  lemma {:induction false} InjectiveNotLarger<T>(s: set<T>, f: T -> nat, range: set<nat>)
    requires forall x :: x in s ==> f(x) in range
    requires forall x, y :: x in s && y in s && x != y ==> f(x) != f(y)
    ensures |s| <= |range|
    decreases s
  {
    if s != {} {
      var x :| x in s;
      InjectiveNotLarger(s - {x}, f, range - {f(x)});
    }
  }

  /**
   * Ties are what lets a partition keep more than `limit` elements: when no
   * two elements of a partition share a value, at most `limit` of them are kept.
   */
  lemma AtMostLimitItemsWithoutTies<T, P, V(!new)>(xs: seq<T>, part: T -> P, val: T -> V, better: (V, V) -> bool, limit: nat, r: seq<Ranked<T>>, p: P)
    requires StrictTotalOrder(better)
    requires forall e :: e in r ==> e.item in xs && e.rank == DenseRank(xs, part, val, better, e.item) && 1 <= e.rank <= limit
    requires forall x, y :: x in xs && y in xs && x != y && part(x) == p && part(y) == p ==> val(x) != val(y)
    ensures |ItemsIn(r, part, p)| <= limit
  {
    var items := ItemsIn(r, part, p);
    var rank := (x: T) => DenseRank(xs, part, val, better, x);
    var range := RankRange(limit);
    forall x | x in items ensures rank(x) in range && x in xs {
      var i :| 0 <= i < |r| && part(r[i].item) == p && r[i].item == x;
      assert r[i] in r;
    }
    forall x, y | x in items && y in items && x != y ensures rank(x) != rank(y) {
      RankOrder(xs, part, val, better, x, y);
    }
    InjectiveNotLarger(items, rank, range);
  }

  /** Without ties, and with no element listed twice, a partition lists at most `limit` rows. */
  lemma AtMostLimitRowsWithoutTies<T, P, V(!new)>(xs: seq<T>, part: T -> P, val: T -> V, better: (V, V) -> bool, limit: nat, r: seq<Ranked<T>>, p: P)
    requires StrictTotalOrder(better)
    requires forall e :: e in r ==> e.item in xs && e.rank == DenseRank(xs, part, val, better, e.item) && 1 <= e.rank <= limit
    requires forall x, y :: x in xs && y in xs && x != y && part(x) == p && part(y) == p ==> val(x) != val(y)
    requires forall i, j :: 0 <= i < j < |r| ==> r[i].item != r[j].item
    ensures |ItemsIn(r, part, p)| <= limit
    ensures RowsIn(r, part, p) <= limit
  {
    AtMostLimitItemsWithoutTies(xs, part, val, better, limit, r, p);
    RowsInItems(r, part, p);
  }
}
