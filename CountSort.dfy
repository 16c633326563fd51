/** `rows.sort((a, b) => b[key] - a[key])`: the in-place, stable sort of the value
    counts that `statField` returns, largest count first. */
module CountSort {
  import opened Workflow
  import Text

  /** The number a count column holds; anything that is not a number counts as 0. */
  function NumberOf(v: Value): int {
    if v.Num? then v.n else 0
  }

  function CountOf(row: Row, key: string): int {
    NumberOf(Lookup(row, key))
  }

  /** The comparison key of the sort: the count column of a row. */
  function ByCount(key: string): Row -> int {
    row => CountOf(row, key)
  }

  /** Counts never increase along the sequence. */
  predicate SortedByCount<T>(s: seq<T>, count: T -> int) {
    forall i, j :: 0 <= i < j < |s| ==> count(s[i]) >= count(s[j])
  }

  /** `x` placed into `s` after every row whose count is at least its own. */
  function Insert<T>(s: seq<T>, x: T, count: T -> int): (r: seq<T>)
    ensures |r| == |s| + 1
    decreases |s|
  {
    if |s| == 0 || count(s[|s| - 1]) >= count(x) then s + [x]
    else Insert(s[..|s| - 1], x, count) + [s[|s| - 1]]
  }

  /** Inserting adds exactly `x` to the rows. */
  lemma {:induction false} InsertPermutes<T>(s: seq<T>, x: T, count: T -> int)
    ensures multiset(Insert(s, x, count)) == multiset(s) + multiset{x}
    decreases |s|
  {
    if |s| > 0 && count(s[|s| - 1]) < count(x) {
      var p := s[..|s| - 1];
      assert s == p + [s[|s| - 1]];
      InsertPermutes(p, x, count);
    }
  }

  /** A row of the insertion result is `x` or a row of `s`. */
  lemma InsertMember<T>(s: seq<T>, x: T, count: T -> int, k: nat)
    requires k < |Insert(s, x, count)|
    ensures Insert(s, x, count)[k] in s || Insert(s, x, count)[k] == x
  {
    var r := Insert(s, x, count);
    InsertPermutes(s, x, count);
    assert r[k] in multiset(r);
  }

  lemma {:induction false} InsertSorted<T>(s: seq<T>, x: T, count: T -> int)
    requires SortedByCount(s, count)
    ensures SortedByCount(Insert(s, x, count), count)
    decreases |s|
  {
    if |s| > 0 && count(s[|s| - 1]) < count(x) {
      var p, y := s[..|s| - 1], s[|s| - 1];
      InsertSorted(p, x, count);
      var q := Insert(p, x, count);
      assert Insert(s, x, count) == q + [y];
      forall i | 0 <= i < |q| ensures count(q[i]) >= count(y) {
        InsertMember(p, x, count, i);
        if q[i] in p {
          var m :| 0 <= m < |p| && p[m] == q[i];
          assert s[m] == q[i];
        }
      }
      forall i, j | 0 <= i < j < |q| + 1 ensures count((q + [y])[i]) >= count((q + [y])[j]) {
        if j == |q| {
          assert (q + [y])[i] == q[i];
        } else {
          assert (q + [y])[i] == q[i] && (q + [y])[j] == q[j];
        }
      }
    }
  }

  /** The order a stable sort by descending count gives: each row is inserted after
      the rows before it that have at least its count. */
  function SortByCount<T>(s: seq<T>, count: T -> int): (r: seq<T>)
    ensures |r| == |s|
  {
    if |s| == 0 then [] else Insert(SortByCount(s[..|s| - 1], count), s[|s| - 1], count)
  }

  /** Sorting keeps every row, as often as it occurs. */
  lemma {:induction false} SortByCountPermutes<T>(s: seq<T>, count: T -> int)
    ensures multiset(SortByCount(s, count)) == multiset(s)
    decreases |s|
  {
    if |s| > 0 {
      assert s == s[..|s| - 1] + [s[|s| - 1]];
      SortByCountPermutes(s[..|s| - 1], count);
      InsertPermutes(SortByCount(s[..|s| - 1], count), s[|s| - 1], count);
    }
  }

  /** The sorted rows are the same rows, largest count first. */
  lemma {:induction false} SortByCountSorted<T>(s: seq<T>, count: T -> int)
    ensures SortedByCount(SortByCount(s, count), count)
    decreases |s|
  {
    if |s| > 0 {
      SortByCountSorted(s[..|s| - 1], count);
      InsertSorted(SortByCount(s[..|s| - 1], count), s[|s| - 1], count);
    }
  }

  /** `x` goes in at `j` when the row before `j` has at least its count and every
      row from `j` on has a smaller one. */
  lemma {:induction false} InsertPosition<T>(s: seq<T>, x: T, count: T -> int, j: nat)
    requires j <= |s|
    requires j == 0 || count(s[j - 1]) >= count(x)
    requires forall m :: j <= m < |s| ==> count(s[m]) < count(x)
    ensures Insert(s, x, count) == s[..j] + [x] + s[j..]
    decreases |s|
  {
    if |s| > j {
      var p, last := s[..|s| - 1], s[|s| - 1];
      assert p[..j] == s[..j];
      InsertPosition(p, x, count, j);
      assert s[j..] == p[j..] + [last];
      Text.AppendAssoc(s[..j] + [x], p[j..], [last]);
    } else {
      assert s[..j] == s && s[j..] == [];
    }
  }

  /** The rows before `i` with a smaller count than `x` move one place right; `j` is
      the place that is left free for `x`. */
  method ShiftSmaller<T>(a: array<T>, i: nat, x: T, count: T -> int) returns (j: nat)
    requires i < a.Length
    modifies a
    ensures j <= i
    ensures forall m :: 0 <= m < j ==> a[m] == old(a[m])
    ensures forall m :: j < m <= i ==> a[m] == old(a[m - 1])
    ensures forall m :: i < m < a.Length ==> a[m] == old(a[m])
    ensures j == 0 || count(old(a[j - 1])) >= count(x)
    ensures forall m :: j <= m < i ==> count(old(a[m])) < count(x)
  {
    ghost var s := a[..];
    j := i;
    while j > 0 && count(a[j - 1]) < count(x)
      invariant 0 <= j <= i
      invariant forall m :: 0 <= m < j ==> a[m] == s[m]
      invariant forall m :: j < m <= i ==> a[m] == s[m - 1]
      invariant forall m :: i < m < a.Length ==> a[m] == s[m]
      invariant forall m :: j <= m < i ==> count(s[m]) < count(x)
    {
      a[j] := a[j - 1];
      j := j - 1;
    }
  }

  /** One insertion step on the array: `a[i]` moves left past the rows before it
      with a smaller count. */
  method InsertAt<T>(a: array<T>, i: nat, count: T -> int)
    requires i < a.Length
    modifies a
    ensures a[..i + 1] == Insert(old(a[..i]), old(a[i]), count)
    ensures a[i + 1..] == old(a[i + 1..])
  {
    ghost var s, rest := a[..i], a[i + 1..];
    var x := a[i];
    var j := ShiftSmaller(a, i, x, count);
    InsertPosition(s, x, count, j);
    a[j] := x;
    ghost var t := s[..j] + [x] + s[j..];
    forall m | 0 <= m <= i ensures a[m] == t[m] {
      if m < j {
        assert t[m] == s[m];
      } else if m > j {
        assert t[m] == s[m - 1];
      }
    }
    assert a[..i + 1] == t;
    forall m | 0 <= m < |rest| ensures a[i + 1 + m] == rest[m] {
      assert rest[m] == old(a[i + 1 + m]);
    }
    assert a[i + 1..] == rest;
  }

  /** `rows.sort((a, b) => b[key] - a[key])` on the array, in place. */
  method SortByCountInPlace<T>(a: array<T>, count: T -> int)
    modifies a
    ensures a[..] == SortByCount(old(a[..]), count)
  {
    ghost var s := a[..];
    var i := 0;
    while i < a.Length
      invariant 0 <= i <= a.Length
      invariant a[..i] == SortByCount(s[..i], count)
      invariant a[i..] == s[i..]
    {
      assert s[..i + 1][..i] == s[..i];
      InsertAt(a, i, count);
      i := i + 1;
    }
    assert s[..a.Length] == s;
    assert a[..] == a[..a.Length];
  }
}
