/** The in-place insertion sort that `[...tasks].sort(cmp)` runs on a fresh copy of
    the list, proved to compute the stable `Ordering.Sort`. */
module InPlaceSort {
  import opened Tasks
  import opened Ordering

  /** Shifts one cell to the right, from `a[i - 1]` down, every cell of `a[..i]` that
      `cmp` puts after `key`, and returns the gap left open for `key`. */
  method ShiftAfter<T>(a: array<T>, i: int, key: T, cmp: (T, T) -> int) returns (j: int)
    requires 0 <= i < a.Length
    modifies a
    ensures 0 <= j <= i
    ensures forall k :: 0 <= k < j ==> a[k] == old(a[k])
    ensures forall k :: j < k <= i ==> a[k] == old(a[k - 1])
    ensures forall k :: i < k < a.Length ==> a[k] == old(a[k])
    ensures j > 0 ==> cmp(old(a[j - 1]), key) <= 0
    ensures forall k :: j <= k < i ==> cmp(old(a[k]), key) > 0
  {
    ghost var orig := a[..];
    j := i;
    while j > 0 && cmp(a[j - 1], key) > 0
      invariant 0 <= j <= i
      invariant forall k :: 0 <= k < j ==> a[k] == orig[k]
      invariant forall k :: j < k <= i ==> a[k] == orig[k - 1]
      invariant forall k :: i < k < a.Length ==> a[k] == orig[k]
      invariant forall k :: j <= k < i ==> cmp(orig[k], key) > 0
    {
      a[j] := a[j - 1];
      j := j - 1;
    }
  }

  /** Moves `a[i]` left past every cell of `a[..i]` that follows it. */
  method InsertInPlace(a: array<Task>, i: int, cmp: Comparator)
    requires 0 <= i < a.Length
    modifies a
    ensures a[..i + 1] == Insert(old(a[..i]), old(a[i]), cmp)
    ensures forall k :: i < k < a.Length ==> a[k] == old(a[k])
  {
    ghost var prefix := a[..i];
    var key := a[i];
    var j := ShiftAfter(a, i, key, cmp);
    InsertAtGap(prefix, j, key, cmp);
    a[j] := key;
    PlacedKey(a[..i + 1], prefix, j, key, cmp);
  }

  /** Insertion sort in place: the array ends as `Sort` of its old contents. */
  method SortInPlace(a: array<Task>, cmp: Comparator)
    modifies a
    ensures a[..] == Sort(old(a[..]), cmp)
  {
    ghost var orig := a[..];
    var i := 0;
    while i < a.Length
      invariant 0 <= i <= a.Length
      invariant a[..i] == Sort(orig[..i], cmp)
      invariant forall k :: i <= k < a.Length ==> a[k] == orig[k]
    {
      assert orig[..i + 1] == orig[..i] + [orig[i]];
      InsertInPlace(a, i, cmp);
      i := i + 1;
    }
    assert a[..] == a[..a.Length] && orig == orig[..a.Length];
  }

  /** `[...tasks].sort(cmp)`: sorts a fresh copy, leaving the input as it was. */
  method SortedCopy(s: seq<Task>, cmp: Comparator) returns (r: seq<Task>)
    ensures r == Sort(s, cmp)
    ensures multiset(r) == multiset(s)
    ensures ConsistentComparator(cmp) ==> SortedBy(r, cmp)
  {
    var a := new Task[|s|](k requires 0 <= k < |s| => s[k]);
    assert a[..] == s;
    SortInPlace(a, cmp);
    r := a[..];
    SortPermutes(s, cmp);
    if ConsistentComparator(cmp) { SortSorted(s, cmp); }
  }
}
