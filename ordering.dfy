/**
 * `orderBy`: sort keys made of columns, compared lexicographically, and a
 * sort that returns a sorted permutation of its input.
 *
 * A key is a sequence of atoms, one per sort column. Ascending order on
 * numbers is the usual one, strings compare character by character, and a
 * nullable column puts null first (Spark's default for ascending order). A
 * column sorted in descending order is entered negated.
 */
module Ordering {
  import opened Wrappers

  datatype Atom = Int(i: int) | Real(r: real) | Text(s: string) | NullableInt(o: Option<int>)

  /** Lexicographic order on strings by character code. */
  predicate TextLess(a: string, b: string)
    decreases |a|
  {
    if b == [] then false
    else if a == [] then true
    else a[0] < b[0] || (a[0] == b[0] && TextLess(a[1..], b[1..]))
  }

  lemma {:induction false} TextLessIrreflexive(a: string)
    ensures !TextLess(a, a)
    decreases |a|
  {
    if a != [] {
      TextLessIrreflexive(a[1..]);
    }
  }

  lemma {:induction false} TextLessTransitive(a: string, b: string, c: string)
    requires TextLess(a, b) && TextLess(b, c)
    ensures TextLess(a, c)
    decreases |a|
  {
    if a != [] && a[0] == b[0] && b[0] == c[0] {
      TextLessTransitive(a[1..], b[1..], c[1..]);
    }
  }

  lemma {:induction false} TextLessTotal(a: string, b: string)
    requires a != b
    ensures TextLess(a, b) || TextLess(b, a)
    decreases |a|
  {
    if a != [] && b != [] && a[0] == b[0] {
      TextLessTotal(a[1..], b[1..]);
    }
  }

  /** Ascending order with nulls first. */
  predicate NullsFirstLess(a: Option<int>, b: Option<int>) {
    match (a, b)
    case (None, Some(_)) => true
    case (Some(x), Some(y)) => x < y
    case _ => false
  }

  function Kind(a: Atom): nat {
    match a
    case Int(_) => 0
    case Real(_) => 1
    case Text(_) => 2
    case NullableInt(_) => 3
  }

  predicate AtomLess(a: Atom, b: Atom) {
    match (a, b)
    case (Int(x), Int(y)) => x < y
    case (Real(x), Real(y)) => x < y
    case (Text(x), Text(y)) => TextLess(x, y)
    case (NullableInt(x), NullableInt(y)) => NullsFirstLess(x, y)
    case _ => Kind(a) < Kind(b)
  }

  lemma AtomLessIrreflexive(a: Atom)
    ensures !AtomLess(a, a)
  {
    if a.Text? {
      TextLessIrreflexive(a.s);
    }
  }

  lemma AtomLessTransitive(a: Atom, b: Atom, c: Atom)
    requires AtomLess(a, b) && AtomLess(b, c)
    ensures AtomLess(a, c)
  {
    if a.Text? && b.Text? && c.Text? {
      TextLessTransitive(a.s, b.s, c.s);
    }
  }

  lemma AtomLessTotal(a: Atom, b: Atom)
    requires a != b
    ensures AtomLess(a, b) || AtomLess(b, a)
  {
    if a.Text? && b.Text? {
      TextLessTotal(a.s, b.s);
    }
  }

  /** Lexicographic comparison of sort keys: `a` may come before `b`. */
  predicate KeyLe(a: seq<Atom>, b: seq<Atom>)
    decreases |a|
  {
    a == [] || (b != [] && (AtomLess(a[0], b[0]) || (a[0] == b[0] && KeyLe(a[1..], b[1..]))))
  }

  lemma {:induction false} KeyLeTotal(a: seq<Atom>, b: seq<Atom>)
    ensures KeyLe(a, b) || KeyLe(b, a)
    decreases |a|
  {
    if a != [] && b != [] {
      if a[0] == b[0] {
        KeyLeTotal(a[1..], b[1..]);
      } else {
        AtomLessTotal(a[0], b[0]);
      }
    }
  }

  lemma {:induction false} KeyLeTransitive(a: seq<Atom>, b: seq<Atom>, c: seq<Atom>)
    requires KeyLe(a, b) && KeyLe(b, c)
    ensures KeyLe(a, c)
    decreases |a|
  {
    if a != [] {
      if AtomLess(a[0], b[0]) && AtomLess(b[0], c[0]) {
        AtomLessTransitive(a[0], b[0], c[0]);
      } else if a[0] == b[0] && b[0] == c[0] {
        KeyLeTransitive(a[1..], b[1..], c[1..]);
      }
    }
  }

  /** Every element may come before every later one. */
  ghost predicate SortedBy<T>(s: seq<T>, key: T -> seq<Atom>) {
    forall i, j :: 0 <= i < j < |s| ==> KeyLe(key(s[i]), key(s[j]))
  }

  function Insert<T(==)>(x: T, s: seq<T>, key: T -> seq<Atom>): (r: seq<T>)
    ensures multiset(r) == multiset(s) + multiset{x}
  {
    if s == [] then [x]
    else if KeyLe(key(x), key(s[0])) then [x] + s
    else
      assert s == [s[0]] + s[1..];
      [s[0]] + Insert(x, s[1..], key)
  }

  lemma {:induction false} InsertSorted<T>(x: T, s: seq<T>, key: T -> seq<Atom>)
    requires SortedBy(s, key)
    ensures SortedBy(Insert(x, s, key), key)
  {
    if s == [] {
    } else if KeyLe(key(x), key(s[0])) {
      forall j | 0 <= j < |s|
        ensures KeyLe(key(x), key(s[j]))
      {
        if j > 0 {
          KeyLeTransitive(key(x), key(s[0]), key(s[j]));
        }
      }
    } else {
      KeyLeTotal(key(x), key(s[0]));
      InsertSorted(x, s[1..], key);
      var tail := Insert(x, s[1..], key);
      forall j | 0 <= j < |tail|
        ensures KeyLe(key(s[0]), key(tail[j]))
      {
        assert tail[j] in multiset(tail);
        if tail[j] != x {
          assert tail[j] in multiset(s[1..]);
          var k :| 0 <= k < |s[1..]| && s[1..][k] == tail[j];
          assert s[k + 1] == tail[j];
        }
      }
      var r := [s[0]] + tail;
      forall i, j | 0 <= i < j < |r|
        ensures KeyLe(key(r[i]), key(r[j]))
      {
        if i > 0 {
          assert r[i] == tail[i - 1] && r[j] == tail[j - 1];
        } else {
          assert r[j] == tail[j - 1];
        }
      }
    }
  }

  /** `orderBy(key)`: a sorted permutation of `s` (an insertion sort). */
  function SortBy<T(==)>(s: seq<T>, key: T -> seq<Atom>): (r: seq<T>)
    ensures multiset(r) == multiset(s)
    ensures SortedBy(r, key)
  {
    if s == [] then []
    else
      var rest := SortBy(s[1..], key);
      InsertSorted(s[0], rest, key);
      assert s == [s[0]] + s[1..];
      Insert(s[0], rest, key)
  }

  /** No element occurs twice. */
  predicate Distinct<T(==)>(s: seq<T>) {
    forall i, j :: 0 <= i < j < |s| ==> s[i] != s[j]
  }

  lemma {:induction false} DistinctOccursOnce<T>(s: seq<T>, x: T)
    requires Distinct(s)
    ensures multiset(s)[x] <= 1
  {
    if s != [] {
      assert s == [s[0]] + s[1..];
      DistinctOccursOnce(s[1..], x);
      if s[0] == x {
        assert x !in s[1..];
      }
    }
  }

  /** A permutation of a sequence without repetitions has none either. */
  lemma PermutationKeepsDistinct<T>(s: seq<T>, t: seq<T>)
    requires multiset(s) == multiset(t) && Distinct(s)
    ensures Distinct(t)
  {
    forall i, j | 0 <= i < j < |t|
      ensures t[i] != t[j]
    {
      if t[i] == t[j] {
        assert t == t[..i] + [t[i]] + t[i + 1..j] + [t[j]] + t[j + 1..];
        assert multiset(t)[t[i]] >= 2;
        DistinctOccursOnce(s, t[i]);
        assert false;
      }
    }
  }

  /** A permutation of a sequence whose keys are pairwise different has pairwise different keys too. */
  lemma PermutationKeepsKeysDistinct<T, K>(s: seq<T>, t: seq<T>, key: T -> K)
    requires multiset(s) == multiset(t)
    requires forall i, j :: 0 <= i < j < |s| ==> key(s[i]) != key(s[j])
    ensures forall i, j :: 0 <= i < j < |t| ==> key(t[i]) != key(t[j])
  {
    assert Distinct(s);
    PermutationKeepsDistinct(s, t);
    forall i, j | 0 <= i < j < |t|
      ensures key(t[i]) != key(t[j])
    {
      assert t[i] in multiset(s) && t[j] in multiset(s);
      var a :| 0 <= a < |s| && s[a] == t[i];
      var b :| 0 <= b < |s| && s[b] == t[j];
      assert a == b || key(s[a]) != key(s[b]);
    }
  }

  /** Sorting by a single atom: `a` comes no later than `b` when its atom is not greater. */
  lemma KeyLeSingle(a: Atom, b: Atom)
    ensures KeyLe([a], [b]) <==> AtomLess(a, b) || a == b
  {
    assert [a][1..] == [];
  }
}
