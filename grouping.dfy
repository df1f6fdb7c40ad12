/**
 * `groupBy(key).agg(sum(purchase_amount), count(*))` over the cleaned
 * transactions. A null key value is a key like any other, so a group exists
 * for it when some row has it.
 */
module Grouping {
  import opened Transactions
  import opened Ordering

  /** One aggregated group: the key, the sum of its amounts and its row count. */
  datatype Group<K> = Group(key: K, total: real, count: nat)

  ghost predicate HasKey<K(!new)>(rows: seq<Transaction>, key: Transaction -> K, k: K) {
    exists i :: 0 <= i < |rows| && key(rows[i]) == k
  }

  /**
   * `sum(purchase_amount)` over the rows whose key is `k`: nothing when no
   * row is counted for that key.
   */
  function SumOf<K(==,!new)>(rows: seq<Transaction>, key: Transaction -> K, k: K): (r: real)
    ensures CountOf(rows, key, k) == 0 ==> r == 0.0
  {
    if rows == [] then 0.0
    else
      var last := rows[|rows| - 1];
      SumOf(rows[..|rows| - 1], key, k) + (if key(last) == k then last.amount else 0.0)
  }

  /** `count(*)` over the rows whose key is `k`. */
  function CountOf<K(==,!new)>(rows: seq<Transaction>, key: Transaction -> K, k: K): nat {
    if rows == [] then 0
    else
      CountOf(rows[..|rows| - 1], key, k) + (if key(rows[|rows| - 1]) == k then 1 else 0)
  }

  /** When every amount of key `k` is at least `c`, their sum is at least `c` times their count. */
  lemma {:induction false} SumOfAtLeast<K(!new)>(rows: seq<Transaction>, key: Transaction -> K, k: K, c: real)
    requires forall i :: 0 <= i < |rows| && key(rows[i]) == k ==> rows[i].amount >= c
    ensures SumOf(rows, key, k) >= c * CountOf(rows, key, k) as real
  {
    if rows != [] {
      var prefix := rows[..|rows| - 1];
      forall i | 0 <= i < |prefix| && key(prefix[i]) == k
        ensures prefix[i].amount >= c
      {
        assert prefix[i] == rows[i];
      }
      SumOfAtLeast(prefix, key, k, c);
      var last := rows[|rows| - 1];
      var n := CountOf(prefix, key, k) as real;
      if key(last) == k {
        assert last.amount >= c;
        assert SumOf(rows, key, k) == SumOf(prefix, key, k) + last.amount;
        assert CountOf(rows, key, k) as real == n + 1.0;
        assert c * (n + 1.0) == c * n + c;
      } else {
        assert SumOf(rows, key, k) == SumOf(prefix, key, k);
        assert CountOf(rows, key, k) == CountOf(prefix, key, k);
      }
    } else {
      assert c * CountOf(rows, key, k) as real == c * 0.0;
    }
  }

  lemma HasKeyOfPrefix<K(!new)>(rows: seq<Transaction>, key: Transaction -> K, k: K)
    requires rows != []
    ensures HasKey(rows, key, k) <==> HasKey(rows[..|rows| - 1], key, k) || key(rows[|rows| - 1]) == k
  {
    var prefix := rows[..|rows| - 1];
    if HasKey(rows, key, k) && key(rows[|rows| - 1]) != k {
      var i :| 0 <= i < |rows| && key(rows[i]) == k;
      assert key(prefix[i]) == k;
    }
    if HasKey(prefix, key, k) {
      var i :| 0 <= i < |prefix| && key(prefix[i]) == k;
      assert key(rows[i]) == k;
    }
  }

  /** A key has a positive count exactly when some row has it. */
  lemma {:induction false} CountOfPositive<K(!new)>(rows: seq<Transaction>, key: Transaction -> K, k: K)
    ensures CountOf(rows, key, k) > 0 <==> HasKey(rows, key, k)
  {
    if rows != [] {
      HasKeyOfPrefix(rows, key, k);
      CountOfPositive(rows[..|rows| - 1], key, k);
    }
  }

  /** The distinct keys of the rows, in order of first appearance. */
  function KeysOf<K(==,!new)>(rows: seq<Transaction>, key: Transaction -> K): (ks: seq<K>)
    ensures Distinct(ks)
    ensures forall k :: k in ks <==> HasKey(rows, key, k)
  {
    if rows == [] then []
    else
      var ks := KeysOf(rows[..|rows| - 1], key);
      var k := key(rows[|rows| - 1]);
      assert forall k' :: HasKey(rows, key, k') <==> k' in ks || k' == k by {
        forall k' {
          HasKeyOfPrefix(rows, key, k');
        }
      }
      if k in ks then ks else ks + [k]
  }

  ghost predicate KeysDistinct<K>(gs: seq<Group<K>>) {
    forall i, j :: 0 <= i < j < |gs| ==> gs[i].key != gs[j].key
  }

  /**
   * `gs` holds exactly one aggregate per key present in `rows`, with the sum
   * and the count of that key's rows.
   */
  ghost predicate Aggregates<K(!new)>(rows: seq<Transaction>, key: Transaction -> K, gs: seq<Group<K>>) {
    && KeysDistinct(gs)
    && (forall i :: 0 <= i < |gs| ==>
          && HasKey(rows, key, gs[i].key)
          && gs[i].total == SumOf(rows, key, gs[i].key)
          && gs[i].count == CountOf(rows, key, gs[i].key)
          && gs[i].count >= 1)
    && (forall k :: HasKey(rows, key, k) ==> exists i :: 0 <= i < |gs| && gs[i].key == k)
  }

  /** `groupBy(key).agg(sum, count)`. */
  function GroupBy<K(==,!new)>(rows: seq<Transaction>, key: Transaction -> K): (gs: seq<Group<K>>)
    ensures Aggregates(rows, key, gs)
  {
    var ks := KeysOf(rows, key);
    var gs := seq(|ks|, i requires 0 <= i < |ks| => Group(ks[i], SumOf(rows, key, ks[i]), CountOf(rows, key, ks[i])));
    assert forall i :: 0 <= i < |gs| ==> gs[i].count >= 1 by {
      forall i | 0 <= i < |gs| {
        CountOfPositive(rows, key, ks[i]);
      }
    }
    assert forall k :: HasKey(rows, key, k) ==> exists i :: 0 <= i < |gs| && gs[i].key == k by {
      forall k | HasKey(rows, key, k)
        ensures exists i :: 0 <= i < |gs| && gs[i].key == k
      {
        var i :| 0 <= i < |ks| && ks[i] == k;
        assert gs[i].key == k;
      }
    }
    gs
  }

  /** Reordering the groups keeps them one aggregate per key. */
  lemma AggregatesPermutation<K(!new)>(rows: seq<Transaction>, key: Transaction -> K, gs: seq<Group<K>>, t: seq<Group<K>>)
    requires Aggregates(rows, key, gs)
    requires multiset(gs) == multiset(t)
    ensures Aggregates(rows, key, t)
  {
    PermutationKeepsKeysDistinct(gs, t, (g: Group<K>) => g.key);
    forall i | 0 <= i < |t|
      ensures exists a :: 0 <= a < |gs| && gs[a] == t[i]
    {
      assert t[i] in multiset(gs);
    }
    forall k | HasKey(rows, key, k)
      ensures exists i :: 0 <= i < |t| && t[i].key == k
    {
      var a :| 0 <= a < |gs| && gs[a].key == k;
      assert gs[a] in multiset(t);
      var i :| 0 <= i < |t| && t[i] == gs[a];
    }
  }

  /** Sum and count over a concatenation are the sums and counts over its parts. */
  lemma {:induction false} SumOfConcat<K(!new)>(a: seq<Transaction>, b: seq<Transaction>, key: Transaction -> K, k: K)
    ensures SumOf(a + b, key, k) == SumOf(a, key, k) + SumOf(b, key, k)
    ensures CountOf(a + b, key, k) == CountOf(a, key, k) + CountOf(b, key, k)
    decreases |b|
  {
    if b == [] {
      assert a + b == a;
    } else {
      var init := b[..|b| - 1];
      assert (a + b)[..|a + b| - 1] == a + init;
      assert (a + b)[|a + b| - 1] == b[|b| - 1];
      SumOfConcat(a, init, key, k);
    }
  }

  /** A single row contributes its amount and a count of one exactly when it has key `k`. */
  lemma SumOfSingle<K(!new)>(t: Transaction, key: Transaction -> K, k: K)
    ensures SumOf([t], key, k) == if key(t) == k then t.amount else 0.0
    ensures CountOf([t], key, k) == if key(t) == k then 1 else 0
  {
    assert [t][..0] == [];
  }

  lemma SplitAt<T>(s: seq<T>, j: nat)
    requires j < |s|
    ensures s == (s[..j] + [s[j]]) + s[j + 1..]
  {
  }

  /** Taking row `j` out of `rows` removes its contribution to the sum and the count. */
  lemma SumOfRemoved<K(!new)>(rows: seq<Transaction>, j: nat, key: Transaction -> K, k: K)
    requires j < |rows|
    ensures SumOf(rows, key, k) == SumOf(rows[..j] + rows[j + 1..], key, k) + (if key(rows[j]) == k then rows[j].amount else 0.0)
    ensures CountOf(rows, key, k) == CountOf(rows[..j] + rows[j + 1..], key, k) + (if key(rows[j]) == k then 1 else 0)
  {
    var before, after, x := rows[..j], rows[j + 1..], rows[j];
    SplitAt(rows, j);
    SumOfConcat(before + [x], after, key, k);
    SumOfConcat(before, [x], key, k);
    SumOfConcat(before, after, key, k);
    SumOfSingle(x, key, k);
  }

  lemma RemovedIsPermutation<T>(rows: seq<T>, other: seq<T>, j: nat)
    requires multiset(rows) == multiset(other) && rows != []
    requires j < |other| && other[j] == rows[|rows| - 1]
    ensures multiset(rows[..|rows| - 1]) == multiset(other[..j] + other[j + 1..])
  {
    var last := rows[|rows| - 1];
    assert rows == rows[..|rows| - 1] + [last];
    assert other == other[..j] + [last] + other[j + 1..];
    assert multiset(rows[..|rows| - 1]) == multiset(rows) - multiset{last};
    assert multiset(other[..j] + other[j + 1..]) == multiset(other) - multiset{last};
  }

  /** The same rows in another order have the same sum and count for every key. */
  lemma {:induction false} SumOfPermuted<K(!new)>(rows: seq<Transaction>, other: seq<Transaction>, key: Transaction -> K, k: K)
    requires multiset(rows) == multiset(other)
    ensures SumOf(rows, key, k) == SumOf(other, key, k)
    ensures CountOf(rows, key, k) == CountOf(other, key, k)
    decreases |rows|
  {
    if rows == [] {
      assert |other| == |multiset(other)| == 0;
    } else {
      var last := rows[|rows| - 1];
      assert last in multiset(other);
      var j :| 0 <= j < |other| && other[j] == last;
      RemovedIsPermutation(rows, other, j);
      SumOfPermuted(rows[..|rows| - 1], other[..j] + other[j + 1..], key, k);
      SumOfRemoved(other, j, key, k);
    }
  }

  /** The same rows in another order carry the same keys. */
  lemma HasKeyPermuted<K(!new)>(rows: seq<Transaction>, other: seq<Transaction>, key: Transaction -> K, k: K)
    requires multiset(rows) == multiset(other)
    ensures HasKey(rows, key, k) <==> HasKey(other, key, k)
  {
    if HasKey(rows, key, k) {
      var i :| 0 <= i < |rows| && key(rows[i]) == k;
      assert rows[i] in multiset(other);
      var j :| 0 <= j < |other| && other[j] == rows[i];
    }
    if HasKey(other, key, k) {
      var j :| 0 <= j < |other| && key(other[j]) == k;
      assert other[j] in multiset(rows);
      var i :| 0 <= i < |rows| && rows[i] == other[j];
    }
  }

  /**
   * The aggregation does not depend on the order of the input rows: an
   * aggregation of `rows` is one of every reordering of them.
   */
  lemma AggregatesOfPermutedRows<K(!new)>(rows: seq<Transaction>, other: seq<Transaction>, key: Transaction -> K, gs: seq<Group<K>>)
    requires multiset(rows) == multiset(other)
    requires Aggregates(rows, key, gs)
    ensures Aggregates(other, key, gs)
  {
    forall k
      ensures (HasKey(rows, key, k) <==> HasKey(other, key, k))
      ensures SumOf(rows, key, k) == SumOf(other, key, k)
      ensures CountOf(rows, key, k) == CountOf(other, key, k)
    {
      HasKeyPermuted(rows, other, key, k);
      SumOfPermuted(rows, other, key, k);
    }
  }

  /** The sum of the counts of the groups. */
  function TotalCount<K>(gs: seq<Group<K>>): nat {
    if gs == [] then 0 else TotalCount(gs[..|gs| - 1]) + gs[|gs| - 1].count
  }

  /** The number of rows whose key lies in `ks`. */
  function CountIn<K(==,!new)>(rows: seq<Transaction>, key: Transaction -> K, ks: set<K>): nat {
    if rows == [] then 0
    else CountIn(rows[..|rows| - 1], key, ks) + (if key(rows[|rows| - 1]) in ks then 1 else 0)
  }

  lemma {:induction false} CountInAdd<K(!new)>(rows: seq<Transaction>, key: Transaction -> K, ks: set<K>, k: K)
    requires k !in ks
    ensures CountIn(rows, key, ks + {k}) == CountIn(rows, key, ks) + CountOf(rows, key, k)
  {
    if rows != [] {
      CountInAdd(rows[..|rows| - 1], key, ks, k);
    }
  }

  lemma {:induction false} CountInAll<K(!new)>(rows: seq<Transaction>, key: Transaction -> K, ks: set<K>)
    requires forall i :: 0 <= i < |rows| ==> key(rows[i]) in ks
    ensures CountIn(rows, key, ks) == |rows|
  {
    if rows != [] {
      CountInAll(rows[..|rows| - 1], key, ks);
    }
  }

  ghost function KeySet<K>(gs: seq<Group<K>>): set<K> {
    set i | 0 <= i < |gs| :: gs[i].key
  }

  lemma {:induction false} TotalCountIsCountIn<K(!new)>(rows: seq<Transaction>, key: Transaction -> K, gs: seq<Group<K>>)
    requires KeysDistinct(gs)
    requires forall i :: 0 <= i < |gs| ==> gs[i].count == CountOf(rows, key, gs[i].key)
    ensures TotalCount(gs) == CountIn(rows, key, KeySet(gs))
  {
    if gs == [] {
      assert KeySet(gs) == {};
      assert CountIn(rows, key, {}) == 0 by {
        CountInNone(rows, key);
      }
    } else {
      var init := gs[..|gs| - 1];
      var last := gs[|gs| - 1];
      TotalCountIsCountIn(rows, key, init);
      assert KeySet(gs) == KeySet(init) + {last.key} by {
        forall k | k in KeySet(gs) ensures k in KeySet(init) + {last.key} {
          var i :| 0 <= i < |gs| && gs[i].key == k;
          if i < |gs| - 1 {
            assert init[i].key == k;
          }
        }
        forall k | k in KeySet(init) ensures k in KeySet(gs) {
          var i :| 0 <= i < |init| && init[i].key == k;
          assert gs[i].key == k;
        }
      }
      assert last.key !in KeySet(init);
      CountInAdd(rows, key, KeySet(init), last.key);
    }
  }

  lemma {:induction false} CountInNone<K(!new)>(rows: seq<Transaction>, key: Transaction -> K)
    ensures CountIn(rows, key, {}) == 0
  {
    if rows != [] {
      CountInNone(rows[..|rows| - 1], key);
    }
  }

  /** Summed over all groups, the counts give the number of input rows. */
  lemma CountsCoverRows<K(!new)>(rows: seq<Transaction>, key: Transaction -> K, gs: seq<Group<K>>)
    requires Aggregates(rows, key, gs)
    ensures TotalCount(gs) == |rows|
  {
    TotalCountIsCountIn(rows, key, gs);
    forall i | 0 <= i < |rows|
      ensures key(rows[i]) in KeySet(gs)
    {
      assert HasKey(rows, key, key(rows[i]));
      var a :| 0 <= a < |gs| && gs[a].key == key(rows[i]);
    }
    CountInAll(rows, key, KeySet(gs));
  }
}
