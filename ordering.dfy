/**
 * Orderings the tree relies on: Python's stable `sort` on a boolean key
 * (used to put unconditional children last) and Python's `sorted` on the
 * set of metric names (code-point lexicographic order).
 */
module Ordering {

  /** The elements of `s` whose key is `want`, in their original order. */
  function Keep<T>(s: seq<T>, late: T -> bool, want: bool): (r: seq<T>)
    ensures |r| <= |s|
    ensures forall i :: 0 <= i < |r| ==> late(r[i]) == want
  {
    if s == [] then []
    else Keep(s[..|s| - 1], late, want) + (if late(s[|s| - 1]) == want then [s[|s| - 1]] else [])
  }

  /** `subs.sort(key=late)`: a stable sort on a boolean key lists the elements
      whose key is False, in order, and then those whose key is True, in order. */
  function StablePartition<T>(s: seq<T>, late: T -> bool): seq<T>
  {
    Keep(s, late, false) + Keep(s, late, true)
  }

  /** No element whose key is True precedes one whose key is False. */
  predicate IsPartitioned<T>(s: seq<T>, late: T -> bool)
  {
    forall i, j :: 0 <= i < j < |s| && late(s[i]) ==> late(s[j])
  }

  lemma {:induction false} KeepSplit<T>(s: seq<T>, t: seq<T>, late: T -> bool, want: bool)
    ensures Keep(s + t, late, want) == Keep(s, late, want) + Keep(t, late, want)
  {
    if t != [] {
      var t0 := t[..|t| - 1];
      assert (s + t)[..|s + t| - 1] == s + t0;
      KeepSplit(s, t0, late, want);
    } else {
      assert s + t == s;
    }
  }

  lemma {:induction false} KeepNone<T>(s: seq<T>, late: T -> bool, want: bool)
    requires forall i :: 0 <= i < |s| ==> late(s[i]) != want
    ensures Keep(s, late, want) == []
  {
    if s != [] {
      KeepNone(s[..|s| - 1], late, want);
    }
  }

  lemma {:induction false} KeepAll<T>(s: seq<T>, late: T -> bool, want: bool)
    requires forall i :: 0 <= i < |s| ==> late(s[i]) == want
    ensures Keep(s, late, want) == s
  {
    if s != [] {
      KeepAll(s[..|s| - 1], late, want);
      assert s[..|s| - 1] + [s[|s| - 1]] == s;
    }
  }

  lemma {:induction false} KeepMultiset<T>(s: seq<T>, late: T -> bool)
    ensures multiset(Keep(s, late, false)) + multiset(Keep(s, late, true)) == multiset(s)
  {
    if s != [] {
      var s0 := s[..|s| - 1];
      KeepMultiset(s0, late);
      assert s0 + [s[|s| - 1]] == s;
    }
  }

  /** `Keep` on two elements. */
  lemma KeepPair<T>(x: T, y: T, late: T -> bool, want: bool)
    ensures Keep([x, y], late, want) == (if late(x) == want then [x] else []) + (if late(y) == want then [y] else [])
  {
    assert [x, y][..1] == [x];
    assert [x][..0] == [];
  }

  /** Two elements with different keys end up with the False one first,
      whichever order they came in. */
  lemma PartitionPair<T>(x: T, y: T, late: T -> bool)
    requires !late(x) && late(y)
    ensures StablePartition([x, y], late) == [x, y]
    ensures StablePartition([y, x], late) == [x, y]
  {
    KeepPair(x, y, late, false);
    KeepPair(x, y, late, true);
    KeepPair(y, x, late, false);
    KeepPair(y, x, late, true);
  }

  /** After the sort no unconditional element precedes a conditional one. */
  lemma PartitionIsPartitioned<T>(s: seq<T>, late: T -> bool)
    ensures IsPartitioned(StablePartition(s, late), late)
  {
    var a, b := Keep(s, late, false), Keep(s, late, true);
    assert forall i :: 0 <= i < |a + b| ==> (late((a + b)[i]) <==> i >= |a|);
  }

  /** The sort is a permutation of its input. */
  lemma PartitionIsPermutation<T>(s: seq<T>, late: T -> bool)
    ensures multiset(StablePartition(s, late)) == multiset(s)
    ensures |StablePartition(s, late)| == |s|
    ensures forall x :: x in StablePartition(s, late) <==> x in s
  {
    KeepMultiset(s, late);
    assert |multiset(StablePartition(s, late))| == |multiset(s)|;
    forall x ensures x in StablePartition(s, late) <==> x in s {
      assert x in StablePartition(s, late) <==> x in multiset(StablePartition(s, late));
      assert x in s <==> x in multiset(s);
    }
  }

  /** The sort is stable: each group keeps its relative order. */
  lemma PartitionIsStable<T>(s: seq<T>, late: T -> bool)
    ensures Keep(StablePartition(s, late), late, false) == Keep(s, late, false)
    ensures Keep(StablePartition(s, late), late, true) == Keep(s, late, true)
  {
    var a, b := Keep(s, late, false), Keep(s, late, true);
    KeepSplit(a, b, late, false);
    KeepSplit(a, b, late, true);
    KeepAll(a, late, false);
    KeepNone(a, late, true);
    KeepAll(b, late, true);
    KeepNone(b, late, false);
    assert a + [] == a;
    assert [] + b == b;
  }

  /** Sorting an already partitioned list changes nothing. */
  lemma {:induction false} PartitionOfPartitioned<T>(s: seq<T>, late: T -> bool)
    requires IsPartitioned(s, late)
    ensures StablePartition(s, late) == s
  {
    if s != [] {
      var s0, x := s[..|s| - 1], s[|s| - 1];
      assert s0 + [x] == s;
      PartitionOfPartitioned(s0, late);
      if !late(x) {
        KeepNone(s0, late, true);
      }
    }
  }

  /** `f` applied to every element, in order. */
  function Map<T, U>(s: seq<T>, f: T -> U): (r: seq<U>)
    ensures |r| == |s| && forall i :: 0 <= i < |s| ==> r[i] == f(s[i])
  {
    seq(|s|, i requires 0 <= i < |s| => f(s[i]))
  }

  /** Selecting by key, then mapping, is mapping, then selecting, when `f`
      keeps every element's key. */
  lemma {:induction false} KeepMap<T, U>(s: seq<T>, f: T -> U, key: T -> bool, fkey: U -> bool, want: bool)
    requires forall x :: fkey(f(x)) == key(x)
    ensures Keep(Map(s, f), fkey, want) == Map(Keep(s, key, want), f)
  {
    if s != [] {
      var s0, x := s[..|s| - 1], s[|s| - 1];
      KeepMap(s0, f, key, fkey, want);
      assert Map(s, f)[..|s| - 1] == Map(s0, f);
      var k0 := Keep(s0, key, want);
      var tail := if key(x) == want then [x] else [];
      assert Map(k0 + tail, f) == Map(k0, f) + Map(tail, f);
    }
  }

  /** The stable sort commutes with a key-preserving map. */
  lemma PartitionMap<T, U>(s: seq<T>, f: T -> U, key: T -> bool, fkey: U -> bool)
    requires forall x :: fkey(f(x)) == key(x)
    ensures StablePartition(Map(s, f), fkey) == Map(StablePartition(s, key), f)
  {
    KeepMap(s, f, key, fkey, false);
    KeepMap(s, f, key, fkey, true);
    var a, b := Keep(s, key, false), Keep(s, key, true);
    assert Map(a + b, f) == Map(a, f) + Map(b, f);
  }

  // ---------------------------------------------------------------- strings

  /** Python's `<` on `str`: lexicographic on code points, a proper prefix first. */
  predicate LexLess(a: string, b: string)
  {
    |b| > 0 && (|a| == 0 || a[0] < b[0] || (a[0] == b[0] && LexLess(a[1..], b[1..])))
  }

  lemma {:induction false} LexIrreflexive(a: string)
    ensures !LexLess(a, a)
  {
    if |a| > 0 {
      LexIrreflexive(a[1..]);
    }
  }

  lemma {:induction false} LexTransitive(a: string, b: string, c: string)
    requires LexLess(a, b) && LexLess(b, c)
    ensures LexLess(a, c)
  {
    if |a| > 0 && a[0] == b[0] && b[0] == c[0] {
      LexTransitive(a[1..], b[1..], c[1..]);
    }
  }

  lemma {:induction false} LexTotal(a: string, b: string)
    requires a != b
    ensures LexLess(a, b) || LexLess(b, a)
  {
    if |a| > 0 && |b| > 0 && a[0] == b[0] {
      assert a == [a[0]] + a[1..] && b == [b[0]] + b[1..];
      LexTotal(a[1..], b[1..]);
    }
  }

  /** Strictly increasing, hence also free of duplicates. */
  predicate StrictlySorted(s: seq<string>)
  {
    forall i, j :: 0 <= i < j < |s| ==> LexLess(s[i], s[j])
  }

  /** Insertion of a new name into a strictly sorted list. */
  function Insert(s: seq<string>, x: string): (r: seq<string>)
    requires StrictlySorted(s) && x !in s
    ensures StrictlySorted(r)
    ensures |r| == |s| + 1
    ensures forall y :: y in r <==> y in s || y == x
  {
    if s == [] then [x]
    else if LexLess(x, s[0]) then
      assert forall j :: 0 < j < |s| ==> LexLess(x, s[j]) by {
        forall j | 0 < j < |s| ensures LexLess(x, s[j]) { LexTransitive(x, s[0], s[j]); }
      }
      [x] + s
    else
      LexTotal(x, s[0]);
      var r := [s[0]] + Insert(s[1..], x);
      assert forall j :: 0 < j < |r| ==> LexLess(s[0], r[j]) by {
        forall j | 0 < j < |r| ensures LexLess(s[0], r[j]) {
          assert r[j] in s[1..] || r[j] == x;
        }
      }
      r
  }
}
