/**
 * `features.sort((a, b) => b.importance - a.importance)`: a stable sort on descending importance.
 *
 * The comparator says `x` belongs before `y` exactly when `x.importance > y.importance`; when
 * either importance is NaN it returns NaN, which the sort treats as 0 ("keep the order").
 * The model is an insertion sort that moves an entry left past every entry of strictly smaller
 * importance. For finite importances that is the only stable descending order
 * (`StableSortIsUnique`), so it is what any stable sort with this comparator produces.
 */
module ImportanceSort {
  import opened Numbers
  import opened Types

  /** The comparator puts `x` before `y`. */
  predicate Precedes(x: FeatureImportance, y: FeatureImportance) {
    Less(y.importance, x.importance)
  }

  /** Insert `x` at the end of `t`, then let it move left past every entry it precedes. */
  function Insert(t: seq<FeatureImportance>, x: FeatureImportance): (r: seq<FeatureImportance>)
    ensures |r| == |t| + 1
  {
    if t == [] || !Precedes(x, t[|t| - 1]) then t + [x]
    else Insert(t[..|t| - 1], x) + [t[|t| - 1]]
  }

  /** The insertion sort: the sorted prefix grows by one entry at a time. */
  function SortByImportance(s: seq<FeatureImportance>): (r: seq<FeatureImportance>)
    ensures |r| == |s|
  {
    if s == [] then []
    else Insert(SortByImportance(s[..|s| - 1]), s[|s| - 1])
  }

  lemma {:induction false} InsertPermutes(t: seq<FeatureImportance>, x: FeatureImportance)
    ensures multiset(Insert(t, x)) == multiset(t) + multiset{x}
  {
    if t != [] && Precedes(x, t[|t| - 1]) {
      InsertPermutes(t[..|t| - 1], x);
      assert t == t[..|t| - 1] + [t[|t| - 1]];
    }
  }

  /** The sorted list is a permutation of its input. */
  lemma {:induction false} SortPermutes(s: seq<FeatureImportance>)
    ensures multiset(SortByImportance(s)) == multiset(s)
  {
    if s != [] {
      SortPermutes(s[..|s| - 1]);
      InsertPermutes(SortByImportance(s[..|s| - 1]), s[|s| - 1]);
      assert s == s[..|s| - 1] + [s[|s| - 1]];
    }
  }

  /** The in-place sort of the feature array. */
  method SortFeatures(a: array<FeatureImportance>)
    modifies a
    ensures a[..] == SortByImportance(old(a[..]))
  {
    ghost var input := a[..];
    var i := 0;
    while i < a.Length
      invariant 0 <= i <= a.Length
      invariant a[..i] == SortByImportance(input[..i])
      invariant a[i..] == input[i..]
    {
      assert a[i] == input[i] by { assert a[i..][0] == a[i]; }
      InsertAt(a, i);
      SortStep(input, i);
      i := i + 1;
    }
    assert input[..a.Length] == input;
  }

  lemma SortStep(s: seq<FeatureImportance>, i: nat)
    requires i < |s|
    ensures SortByImportance(s[..i + 1]) == Insert(SortByImportance(s[..i]), s[i])
  {
    assert s[..i + 1][..i] == s[..i];
  }

  /** One pass of the insertion sort: `a[i]` moves left into the sorted prefix `a[..i]`. */
  method InsertAt(a: array<FeatureImportance>, i: nat)
    requires i < a.Length
    modifies a
    ensures a[..i + 1] == Insert(old(a[..i]), old(a[i]))
    ensures a[i + 1..] == old(a[i + 1..])
  {
    ghost var sorted := a[..i];
    var x := a[i];
    var j := i;
    while j > 0 && Precedes(x, a[j - 1])
      invariant 0 <= j <= i
      invariant a[..j] == sorted[..j]
      invariant a[j + 1..i + 1] == sorted[j..]
      invariant a[i + 1..] == old(a[i + 1..])
      invariant Insert(sorted, x) == Insert(sorted[..j], x) + sorted[j..]
    {
      assert a[j - 1] == sorted[j - 1] by { assert a[..j][j - 1] == a[j - 1]; }
      InsertMovesPast(sorted, x, j);
      a[j] := a[j - 1];
      j := j - 1;
    }
    assert j > 0 ==> a[j - 1] == sorted[j - 1] by {
      if j > 0 { assert a[..j][j - 1] == a[j - 1]; }
    }
    InsertStops(sorted, x, j);
    ghost var before := a[..];
    a[j] := x;
    assert a[..] == before[j := x];
    SpliceAt(before, sorted, x, i, j);
  }

  lemma SpliceAt(b: seq<FeatureImportance>, sorted: seq<FeatureImportance>, x: FeatureImportance, i: nat, j: nat)
    requires j <= i < |b| && |sorted| == i
    requires b[..j] == sorted[..j] && b[j + 1..i + 1] == sorted[j..]
    ensures b[j := x][..i + 1] == sorted[..j] + [x] + sorted[j..]
    ensures b[j := x][i + 1..] == b[i + 1..]
  {
    var c := b[j := x];
    assert c[..i + 1] == c[..j] + [c[j]] + c[j + 1..i + 1];
    assert c[..j] == b[..j];
    assert c[j + 1..i + 1] == b[j + 1..i + 1];
  }

  lemma InsertMovesPast(t: seq<FeatureImportance>, x: FeatureImportance, j: nat)
    requires 0 < j <= |t| && Precedes(x, t[j - 1])
    ensures Insert(t[..j], x) + t[j..] == Insert(t[..j - 1], x) + t[j - 1..]
  {
    assert t[..j][..j - 1] == t[..j - 1];
    assert [t[j - 1]] + t[j..] == t[j - 1..];
  }

  lemma InsertStops(t: seq<FeatureImportance>, x: FeatureImportance, j: nat)
    requires j <= |t| && (j == 0 || !Precedes(x, t[j - 1]))
    ensures Insert(t[..j], x) + t[j..] == t[..j] + [x] + t[j..]
  {
  }

  /** The entries with a given importance, in order. */
  function WithImportance(s: seq<FeatureImportance>, v: Number): seq<FeatureImportance>
  {
    if s == [] then []
    else WithImportance(s[..|s| - 1], v) + (if s[|s| - 1].importance == v then [s[|s| - 1]] else [])
  }

  predicate AllFinite(s: seq<FeatureImportance>) {
    forall i :: 0 <= i < |s| ==> s[i].importance.Finite?
  }

  /** No entry has a strictly smaller importance than one after it. */
  predicate NonIncreasing(s: seq<FeatureImportance>) {
    forall i, j :: 0 <= i < j < |s| ==> !Less(s[i].importance, s[j].importance)
  }

  lemma {:induction false} WithImportanceInsert(t: seq<FeatureImportance>, x: FeatureImportance, v: Number)
    ensures WithImportance(Insert(t, x), v) == WithImportance(t, v) + (if x.importance == v then [x] else [])
  {
    if t != [] && Precedes(x, t[|t| - 1]) {
      var t', y := t[..|t| - 1], t[|t| - 1];
      WithImportanceInsert(t', x, v);
      var r := Insert(t', x) + [y];
      assert r[..|r| - 1] == Insert(t', x);
      assert t[..|t| - 1] == t';
      assert y.importance != x.importance;
    } else {
      var r := t + [x];
      assert r[..|r| - 1] == t;
    }
  }

  /** Stability: the entries of any one importance keep their input order. */
  lemma {:induction false} SortIsStable(s: seq<FeatureImportance>, v: Number)
    ensures WithImportance(SortByImportance(s), v) == WithImportance(s, v)
  {
    if s != [] {
      SortIsStable(s[..|s| - 1], v);
      WithImportanceInsert(SortByImportance(s[..|s| - 1]), s[|s| - 1], v);
    }
  }

  /** Every importance in `s` is finite and at least `b`. */
  predicate AllAtLeast(s: seq<FeatureImportance>, b: real) {
    forall i :: 0 <= i < |s| ==> s[i].importance.Finite? && s[i].importance.r >= b
  }

  lemma {:induction false} InsertAtLeast(t: seq<FeatureImportance>, x: FeatureImportance, b: real)
    requires AllAtLeast(t, b) && x.importance.Finite? && x.importance.r >= b
    ensures AllAtLeast(Insert(t, x), b)
  {
    if t != [] && Precedes(x, t[|t| - 1]) {
      var t' := t[..|t| - 1];
      assert AllAtLeast(t', b) by {
        forall i | 0 <= i < |t'| ensures t'[i].importance.Finite? && t'[i].importance.r >= b { assert t'[i] == t[i]; }
      }
      InsertAtLeast(t', x, b);
    }
  }

  lemma {:induction false} InsertKeepsOrder(t: seq<FeatureImportance>, x: FeatureImportance)
    requires AllFinite(t) && NonIncreasing(t) && x.importance.Finite?
    ensures AllFinite(Insert(t, x)) && NonIncreasing(Insert(t, x))
  {
    var r := Insert(t, x);
    if t != [] && Precedes(x, t[|t| - 1]) {
      var t', y := t[..|t| - 1], t[|t| - 1];
      assert AllFinite(t') && NonIncreasing(t') by {
        assert forall i :: 0 <= i < |t'| ==> t'[i] == t[i];
      }
      InsertKeepsOrder(t', x);
      var r' := Insert(t', x);
      assert AllAtLeast(t', y.importance.r) by {
        forall i | 0 <= i < |t'| ensures t'[i].importance.Finite? && t'[i].importance.r >= y.importance.r {
          assert t'[i] == t[i];
          assert !Less(t[i].importance, t[|t| - 1].importance);
        }
      }
      InsertAtLeast(t', x, y.importance.r);
      assert r == r' + [y];
      forall i, j | 0 <= i < j < |r| ensures !Less(r[i].importance, r[j].importance) {
        if j < |r| - 1 {
          assert r[i] == r'[i] && r[j] == r'[j];
        } else {
          assert r[i] == r'[i];
        }
      }
    } else {
      assert r == t + [x];
      forall i, j | 0 <= i < j < |r| ensures !Less(r[i].importance, r[j].importance) {
        if j == |r| - 1 {
          assert r[i] == t[i];
          assert !Less(t[i].importance, t[|t| - 1].importance) || i == |t| - 1;
        } else {
          assert r[i] == t[i] && r[j] == t[j];
        }
      }
    }
  }

  /** With finite importances the result is in non-increasing order of importance. */
  lemma {:induction false} SortOrders(s: seq<FeatureImportance>)
    requires AllFinite(s)
    ensures AllFinite(SortByImportance(s)) && NonIncreasing(SortByImportance(s))
  {
    if s != [] {
      SortOrders(s[..|s| - 1]);
      InsertKeepsOrder(SortByImportance(s[..|s| - 1]), s[|s| - 1]);
    }
  }

  lemma {:induction false} WithImportanceEmpty(s: seq<FeatureImportance>, v: Number)
    ensures WithImportance(s, v) == [] <==> forall i :: 0 <= i < |s| ==> s[i].importance != v
  {
    if s != [] {
      WithImportanceEmpty(s[..|s| - 1], v);
      assert forall i :: 0 <= i < |s| - 1 ==> s[..|s| - 1][i] == s[i];
    }
  }

  /** The last importance of `t2` occurs in `t1`, so it is no smaller than the last of `t1`. */
  lemma LastImportanceBound(t1: seq<FeatureImportance>, t2: seq<FeatureImportance>)
    requires t1 != [] && t2 != []
    requires NonIncreasing(t1)
    requires WithImportance(t1, t2[|t2| - 1].importance) == WithImportance(t2, t2[|t2| - 1].importance)
    ensures !Less(t2[|t2| - 1].importance, t1[|t1| - 1].importance)
  {
    var m := t2[|t2| - 1].importance;
    WithImportanceEmpty(t2, m);
    WithImportanceEmpty(t1, m);
    var k :| 0 <= k < |t1| && t1[k].importance == m;
    if k < |t1| - 1 {
      assert !Less(t1[k].importance, t1[|t1| - 1].importance);
    }
  }

  /** Two such sequences end with the same entry. */
  lemma LastEntriesAgree(t1: seq<FeatureImportance>, t2: seq<FeatureImportance>)
    requires t1 != [] && t2 != []
    requires AllFinite(t1) && NonIncreasing(t1) && AllFinite(t2) && NonIncreasing(t2)
    requires forall v :: WithImportance(t1, v) == WithImportance(t2, v)
    ensures t1[|t1| - 1] == t2[|t2| - 1]
  {
    var n1, n2 := |t1| - 1, |t2| - 1;
    var m1, m2 := t1[n1].importance, t2[n2].importance;
    // the last entry of each carries the smallest importance, which both share
    LastImportanceBound(t1, t2);
    assert WithImportance(t2, m1) == WithImportance(t1, m1);
    LastImportanceBound(t2, t1);
    assert m1.Finite? && m2.Finite?;
    assert m1 == m2;
    var w1, w2 := WithImportance(t1, m1), WithImportance(t2, m1);
    assert w1 == WithImportance(t1[..n1], m1) + [t1[n1]];
    assert w2 == WithImportance(t2[..n2], m1) + [t2[n2]];
    assert t1[n1] == w1[|w1| - 1] == w2[|w2| - 1] == t2[n2];
  }

  /** Dropping a shared last entry keeps the entries of each importance equal. */
  lemma PrefixesAgree(t1: seq<FeatureImportance>, t2: seq<FeatureImportance>, v: Number)
    requires t1 != [] && t2 != [] && t1[|t1| - 1] == t2[|t2| - 1]
    requires WithImportance(t1, v) == WithImportance(t2, v)
    ensures WithImportance(t1[..|t1| - 1], v) == WithImportance(t2[..|t2| - 1], v)
  {
    var n1, n2 := |t1| - 1, |t2| - 1;
    var p1, p2 := WithImportance(t1[..n1], v), WithImportance(t2[..n2], v);
    var e := if t1[n1].importance == v then [t1[n1]] else [];
    assert WithImportance(t1, v) == p1 + e;
    assert WithImportance(t2, v) == p2 + e;
    assert |p1| == |p2|;
    assert p1 == (p1 + e)[..|p1|];
    assert p2 == (p2 + e)[..|p2|];
  }

  /**
   * A sequence in non-increasing order whose entries of each importance are those of `s`,
   * in the same order, is unique: every stable descending sort of `s` gives the same sequence.
   */
  lemma {:induction false} StableSortIsUnique(t1: seq<FeatureImportance>, t2: seq<FeatureImportance>)
    requires AllFinite(t1) && NonIncreasing(t1) && AllFinite(t2) && NonIncreasing(t2)
    requires forall v :: WithImportance(t1, v) == WithImportance(t2, v)
    ensures t1 == t2
    decreases |t1| + |t2|
  {
    if t1 != [] && t2 == [] {
      WithImportanceEmpty(t1, t1[0].importance);
    } else if t1 == [] && t2 != [] {
      WithImportanceEmpty(t2, t2[0].importance);
    } else if t1 != [] {
      var n1, n2 := |t1| - 1, |t2| - 1;
      LastEntriesAgree(t1, t2);
      forall v ensures WithImportance(t1[..n1], v) == WithImportance(t2[..n2], v) {
        PrefixesAgree(t1, t2, v);
      }
      assert AllFinite(t1[..n1]) && NonIncreasing(t1[..n1]) && AllFinite(t2[..n2]) && NonIncreasing(t2[..n2]);
      StableSortIsUnique(t1[..n1], t2[..n2]);
      assert t1 == t1[..n1] + [t1[n1]];
      assert t2 == t2[..n2] + [t2[n2]];
    }
  }

  /** Any stable descending sort of finite importances agrees with the model's. */
  lemma AnyStableSortAgrees(s: seq<FeatureImportance>, t: seq<FeatureImportance>)
    requires AllFinite(s)
    requires AllFinite(t) && NonIncreasing(t)
    requires forall v :: WithImportance(t, v) == WithImportance(s, v)
    ensures t == SortByImportance(s)
  {
    SortOrders(s);
    forall v ensures WithImportance(t, v) == WithImportance(SortByImportance(s), v) {
      SortIsStable(s, v);
    }
    StableSortIsUnique(t, SortByImportance(s));
  }
}
