/** The display ordering both views compute on every render: a copy of `tasks`
    sorted with a three-way comparator chosen by the sort option and order.
    `Array.prototype.sort` is stable, so the order is modelled by a stable
    insertion sort, which the in-place algorithm of `InPlaceSort` is proved to compute. */
module Ordering {
  import opened Tasks

  /** `localeCompare` on titles: host collation, left uninterpreted. */
  type Collation = (string, string) -> int

  type Comparator = (Task, Task) -> int

  /** The comparator of the all-tasks view (page.tsx). By date it orders by id, by
      title it defers to the collation, and by status it puts unfinished tasks first
      ascending and last descending; descending swaps the two tasks. */
  function HomeCompare(option: SortOption, order: SortOrder, collate: Collation, a: Task, b: Task): (r: int)
    ensures option == ByDate ==>
      && (r == 0 <==> a.id == b.id)
      && (r < 0 <==> if order == Asc then a.id < b.id else b.id < a.id)
    ensures option == ByTitle ==>
      r == if order == Asc then collate(a.title, b.title) else collate(b.title, a.title)
    ensures option == ByStatus ==>
      && (r == 0 <==> a.completed == b.completed)
      && (r < 0 <==> if order == Asc then !a.completed && b.completed else a.completed && !b.completed)
  {
    match option
    case ByDate => if order == Asc then a.id - b.id else b.id - a.id
    case ByTitle => if order == Asc then collate(a.title, b.title) else collate(b.title, a.title)
    case ByStatus =>
      if order == Asc then (if a.completed == b.completed then 0 else if a.completed then 1 else -1)
      else (if a.completed == b.completed then 0 else if a.completed then -1 else 1)
  }

  /** JavaScript's `Number` on a boolean. */
  function Number(b: bool): (r: int)
    ensures r == 1 <==> b
    ensures r == 0 <==> !b
  {
    if b then 1 else 0
  }

  /** The comparator of the starred view (starred/page.tsx), whose status case is
      written with `Number`. */
  function StarredCompare(option: SortOption, order: SortOrder, collate: Collation, a: Task, b: Task): (r: int)
    ensures r == HomeCompare(option, order, collate, a, b)
  {
    if option == ByDate then (if order == Asc then a.id - b.id else b.id - a.id)
    else if option == ByTitle then (if order == Asc then collate(a.title, b.title) else collate(b.title, a.title))
    else if order == Asc then Number(a.completed) - Number(b.completed)
    else Number(b.completed) - Number(a.completed)
  }

  function HomeComparator(option: SortOption, order: SortOrder, collate: Collation): Comparator
  {
    (a: Task, b: Task) => HomeCompare(option, order, collate, a, b)
  }

  function StarredComparator(option: SortOption, order: SortOrder, collate: Collation): Comparator
  {
    (a: Task, b: Task) => StarredCompare(option, order, collate, a, b)
  }

  /** A consistent comparator in ECMAScript's sense, the comparators for which
      `Array.prototype.sort` has a defined order: every task compares equal to
      itself, swapping the arguments swaps the sign, and the "not after" relation
      (`cmp(a, b) <= 0`) is total and transitive. */
  ghost predicate ConsistentComparator(cmp: Comparator)
  {
    && (forall a :: cmp(a, a) == 0)
    && (forall a, b :: cmp(a, b) < 0 <==> cmp(b, a) > 0)
    && (forall a, b :: cmp(a, b) <= 0 || cmp(b, a) <= 0)
    && (forall a, b, c :: cmp(a, b) <= 0 && cmp(b, c) <= 0 ==> cmp(a, c) <= 0)
  }

  /** The same requirement on the host's title collation. */
  ghost predicate ConsistentCollation(collate: Collation)
  {
    && (forall x :: collate(x, x) == 0)
    && (forall x, y :: collate(x, y) < 0 <==> collate(y, x) > 0)
    && (forall x, y :: collate(x, y) <= 0 || collate(y, x) <= 0)
    && (forall x, y, z :: collate(x, y) <= 0 && collate(y, z) <= 0 ==> collate(x, z) <= 0)
  }

  ghost predicate SortedBy(s: seq<Task>, cmp: Comparator)
  {
    forall i, j :: 0 <= i < j < |s| ==> cmp(s[i], s[j]) <= 0
  }

  /** Inserts `x` after the sorted prefix `s`, moving left past every element that
      compares greater than `x` and stopping at the first that does not. */
  function Insert(s: seq<Task>, x: Task, cmp: Comparator): (r: seq<Task>)
    ensures |r| == |s| + 1
    decreases |s|
  {
    if s == [] then [x]
    else if cmp(s[|s| - 1], x) > 0 then Insert(s[..|s| - 1], x, cmp) + [s[|s| - 1]]
    else s + [x]
  }

  /** The stable sort of `s`: each element in turn inserted into the sorted prefix. */
  function Sort(s: seq<Task>, cmp: Comparator): (r: seq<Task>)
    ensures |r| == |s|
  {
    if s == [] then [] else Insert(Sort(s[..|s| - 1], cmp), s[|s| - 1], cmp)
  }

  lemma {:induction false} InsertPermutes(s: seq<Task>, x: Task, cmp: Comparator)
    ensures multiset(Insert(s, x, cmp)) == multiset(s) + multiset{x}
    decreases |s|
  {
    if s != [] {
      var init := s[..|s| - 1];
      assert s == init + [s[|s| - 1]];
      if cmp(s[|s| - 1], x) > 0 { InsertPermutes(init, x, cmp); }
    }
  }

  /** The sorted list is a permutation of the input. */
  lemma {:induction false} SortPermutes(s: seq<Task>, cmp: Comparator)
    ensures multiset(Sort(s, cmp)) == multiset(s)
  {
    if s != [] {
      var init := s[..|s| - 1];
      assert s == init + [s[|s| - 1]];
      SortPermutes(init, cmp);
      InsertPermutes(Sort(init, cmp), s[|s| - 1], cmp);
    }
  }

  // ---------------------------------------------------------------------------
  // The comparators

  /** Both views compare any two tasks alike. */
  lemma ComparatorsAgree(option: SortOption, order: SortOrder, collate: Collation, a: Task, b: Task)
    ensures HomeCompare(option, order, collate, a, b) == StarredCompare(option, order, collate, a, b)
  {
  }

  /** Comparators that agree everywhere sort alike. */
  lemma {:induction false} SortAgrees(s: seq<Task>, c1: Comparator, c2: Comparator)
    requires forall a, b :: c1(a, b) == c2(a, b)
    ensures Sort(s, c1) == Sort(s, c2)
  {
    if s != [] {
      SortAgrees(s[..|s| - 1], c1, c2);
      InsertAgrees(Sort(s[..|s| - 1], c1), s[|s| - 1], c1, c2);
    }
  }

  lemma {:induction false} InsertAgrees(s: seq<Task>, x: Task, c1: Comparator, c2: Comparator)
    requires forall a, b :: c1(a, b) == c2(a, b)
    ensures Insert(s, x, c1) == Insert(s, x, c2)
    decreases |s|
  {
    if s != [] { InsertAgrees(s[..|s| - 1], x, c1, c2); }
  }

  /** The two views display the same order for the same list and options. */
  lemma ViewsSortAlike(s: seq<Task>, option: SortOption, order: SortOrder, collate: Collation)
    ensures Sort(s, HomeComparator(option, order, collate)) == Sort(s, StarredComparator(option, order, collate))
  {
    SortAgrees(s, HomeComparator(option, order, collate), StarredComparator(option, order, collate));
  }

  /** Each sort option gives a consistent comparator (the title option as long as the host
      collation is one). */
  lemma ComparatorIsConsistent(option: SortOption, order: SortOrder, collate: Collation)
    requires option == ByTitle ==> ConsistentCollation(collate)
    ensures ConsistentComparator(HomeComparator(option, order, collate))
  {
  }

  /** The starred view's comparators are consistent under the same condition. */
  lemma StarredComparatorIsConsistent(option: SortOption, order: SortOrder, collate: Collation)
    requires option == ByTitle ==> ConsistentCollation(collate)
    ensures ConsistentComparator(StarredComparator(option, order, collate))
  {
  }

  // ---------------------------------------------------------------------------
  // Sortedness

  lemma {:induction false} InsertMembers(s: seq<Task>, x: Task, cmp: Comparator)
    ensures forall y :: y in Insert(s, x, cmp) ==> y == x || y in s
    decreases |s|
  {
    if s != [] {
      var init := s[..|s| - 1];
      if cmp(s[|s| - 1], x) > 0 {
        InsertMembers(init, x, cmp);
        assert forall y :: y in init ==> y in s;
      }
    }
  }

  lemma {:induction false} InsertSorted(s: seq<Task>, x: Task, cmp: Comparator)
    requires ConsistentComparator(cmp) && SortedBy(s, cmp)
    ensures SortedBy(Insert(s, x, cmp), cmp)
    decreases |s|
  {
    if s != [] {
      var last := s[|s| - 1];
      var init := s[..|s| - 1];
      if cmp(last, x) > 0 {
        assert SortedBy(init, cmp) by {
          forall i, j | 0 <= i < j < |init| ensures cmp(init[i], init[j]) <= 0 {
            assert init[i] == s[i] && init[j] == s[j];
          }
        }
        InsertSorted(init, x, cmp);
        InsertMembers(init, x, cmp);
        var ins := Insert(init, x, cmp);
        forall y | y in ins ensures cmp(y, last) <= 0 {
          if y != x {
            var m :| 0 <= m < |init| && init[m] == y;
            assert s[m] == y;
          }
        }
        var r := ins + [last];
        forall i, j | 0 <= i < j < |r| ensures cmp(r[i], r[j]) <= 0 {
          if j < |ins| {
            assert r[i] == ins[i] && r[j] == ins[j];
          } else {
            assert r[i] in ins && r[j] == last;
          }
        }
      } else {
        var r := s + [x];
        forall i, j | 0 <= i < j < |r| ensures cmp(r[i], r[j]) <= 0 {
          if j < |s| {
            assert r[i] == s[i] && r[j] == s[j];
          } else if i < |s| - 1 {
            assert cmp(s[i], last) <= 0 && r[i] == s[i] && r[j] == x;
          }
        }
      }
    }
  }

  /** The result is sorted by the comparator. */
  lemma {:induction false} SortSorted(s: seq<Task>, cmp: Comparator)
    requires ConsistentComparator(cmp)
    ensures SortedBy(Sort(s, cmp), cmp)
  {
    if s != [] {
      SortSorted(s[..|s| - 1], cmp);
      InsertSorted(Sort(s[..|s| - 1], cmp), s[|s| - 1], cmp);
    }
  }

  // ---------------------------------------------------------------------------
  // Stability

  /** The tasks that compare equal to `x` both ways. */
  function EquivalentTo(cmp: Comparator, x: Task): Task -> bool
  {
    (t: Task) => cmp(t, x) <= 0 && cmp(x, t) <= 0
  }

  lemma {:induction false} InsertStable(s: seq<Task>, y: Task, cmp: Comparator, x: Task)
    requires ConsistentComparator(cmp)
    ensures Filter(Insert(s, y, cmp), EquivalentTo(cmp, x))
         == Filter(s, EquivalentTo(cmp, x)) + Filter([y], EquivalentTo(cmp, x))
    decreases |s|
  {
    var e := EquivalentTo(cmp, x);
    if s == [] {
      assert Insert(s, y, cmp) == [y];
    } else {
      var last := s[|s| - 1];
      var init := s[..|s| - 1];
      SplitLast([], s);
      assert s == init + [last];
      if cmp(last, y) > 0 {
        assert Insert(s, y, cmp) == Insert(init, y, cmp) + [last];
        InsertStable(init, y, cmp, x);
        FilterConcat(Insert(init, y, cmp), [last], e);
        FilterConcat(init, [last], e);
        if e(y) { assert !e(last); }
      } else {
        assert Insert(s, y, cmp) == s + [y];
        FilterConcat(s, [y], e);
      }
    }
  }

  /** Stability: the tasks equivalent to any `x` appear in the sorted list in the
      order they had in the input. */
  lemma {:induction false} SortStable(s: seq<Task>, cmp: Comparator, x: Task)
    requires ConsistentComparator(cmp)
    ensures Filter(Sort(s, cmp), EquivalentTo(cmp, x)) == Filter(s, EquivalentTo(cmp, x))
  {
    if s != [] {
      var e := EquivalentTo(cmp, x);
      var init, last := s[..|s| - 1], s[|s| - 1];
      assert s == init + [last];
      assert Sort(s, cmp) == Insert(Sort(init, cmp), last, cmp);
      SortStable(init, cmp, x);
      InsertStable(Sort(init, cmp), last, cmp, x);
      FilterConcat(init, [last], e);
    }
  }

  // ---------------------------------------------------------------------------
  // The sort options

  /** Sorting by date orders by `id`: nondecreasing ascending, nonincreasing descending. */
  lemma SortByDate(s: seq<Task>, collate: Collation)
    ensures var r := Sort(s, HomeComparator(ByDate, Asc, collate));
      forall i, j :: 0 <= i < j < |r| ==> r[i].id <= r[j].id
    ensures var r := Sort(s, HomeComparator(ByDate, Desc, collate));
      forall i, j :: 0 <= i < j < |r| ==> r[i].id >= r[j].id
  {
    ComparatorIsConsistent(ByDate, Asc, collate);
    ComparatorIsConsistent(ByDate, Desc, collate);
    SortSorted(s, HomeComparator(ByDate, Asc, collate));
    SortSorted(s, HomeComparator(ByDate, Desc, collate));
  }

  /** Sorting by title orders by the host collation, in either direction. */
  lemma SortByTitle(s: seq<Task>, collate: Collation)
    requires ConsistentCollation(collate)
    ensures var r := Sort(s, HomeComparator(ByTitle, Asc, collate));
      forall i, j :: 0 <= i < j < |r| ==> collate(r[i].title, r[j].title) <= 0
    ensures var r := Sort(s, HomeComparator(ByTitle, Desc, collate));
      forall i, j :: 0 <= i < j < |r| ==> collate(r[j].title, r[i].title) <= 0
  {
    ComparatorIsConsistent(ByTitle, Asc, collate);
    ComparatorIsConsistent(ByTitle, Desc, collate);
    SortSorted(s, HomeComparator(ByTitle, Asc, collate));
    SortSorted(s, HomeComparator(ByTitle, Desc, collate));
  }

  /** Inserting `x` after a group `a` that does not follow it and before a group
      `b` that all follows it. */
  lemma {:induction false} InsertBetween(a: seq<Task>, b: seq<Task>, x: Task, cmp: Comparator)
    requires a != [] ==> cmp(a[|a| - 1], x) <= 0
    requires forall k :: 0 <= k < |b| ==> cmp(b[k], x) > 0
    ensures Insert(a + b, x, cmp) == a + [x] + b
    decreases |b|
  {
    if b == [] {
      assert a + b == a;
    } else {
      InsertBetween(a, b[..|b| - 1], x, cmp);
      InsertBetweenStep(a, b, x, cmp);
    }
  }

  /** The inductive step of `InsertBetween`: one more follower at the end of `b`. */
  lemma InsertBetweenStep(a: seq<Task>, b: seq<Task>, x: Task, cmp: Comparator)
    requires b != [] && cmp(b[|b| - 1], x) > 0
    requires Insert(a + b[..|b| - 1], x, cmp) == a + [x] + b[..|b| - 1]
    ensures Insert(a + b, x, cmp) == a + [x] + b
  {
    SplitLast(a, b);
    SplitLast(a + [x], b);
    InsertPastLast(a + b[..|b| - 1], b[|b| - 1], x, cmp);
  }

  /** Taking the last element off the second part of a concatenation. */
  lemma SplitLast<T>(a: seq<T>, b: seq<T>)
    requires b != []
    ensures a + b == (a + b[..|b| - 1]) + [b[|b| - 1]]
  {
    assert b == b[..|b| - 1] + [b[|b| - 1]];
  }

  /** A last element that follows `x` stays last. */
  lemma InsertPastLast(s: seq<Task>, y: Task, x: Task, cmp: Comparator)
    requires cmp(y, x) > 0
    ensures Insert(s + [y], x, cmp) == Insert(s, x, cmp) + [y]
  {
    assert (s + [y])[..|s|] == s;
  }

  /** A comparator that only ever puts a `hi` task after a `lo` task sorts a list
      into its `lo` tasks followed by its `hi` tasks, each group in input order. */
  lemma {:induction false} SortTwoGroups(s: seq<Task>, cmp: Comparator, lo: Task -> bool, hi: Task -> bool)
    requires forall t :: hi(t) == !lo(t)
    requires forall a, b :: cmp(a, b) > 0 <==> hi(a) && lo(b)
    ensures Sort(s, cmp) == Filter(s, lo) + Filter(s, hi)
  {
    if s != [] {
      var init := s[..|s| - 1];
      var x := s[|s| - 1];
      assert s == init + [x];
      SortTwoGroups(init, cmp, lo, hi);
      TwoGroupsStep(init, x, cmp, lo, hi);
    }
  }

  /** One insertion step of `SortTwoGroups`: inserting `x` into the two groups of
      `init` gives the two groups of `init + [x]`. */
  lemma TwoGroupsStep(init: seq<Task>, x: Task, cmp: Comparator, lo: Task -> bool, hi: Task -> bool)
    requires forall t :: hi(t) == !lo(t)
    requires forall a, b :: cmp(a, b) > 0 <==> hi(a) && lo(b)
    ensures Insert(Filter(init, lo) + Filter(init, hi), x, cmp) == Filter(init + [x], lo) + Filter(init + [x], hi)
  {
    FilterConcat(init, [x], lo);
    FilterConcat(init, [x], hi);
    assert [x][1..] == [];
    if lo(x) {
      assert Filter([x], lo) == [x] && Filter([x], hi) == [];
      LowJoinsFirstGroup(Filter(init, lo), Filter(init, hi), x, cmp, lo, hi);
    } else {
      assert Filter([x], lo) == [] && Filter([x], hi) == [x];
      HighJoinsSecondGroup(Filter(init, lo), Filter(init, hi), x, cmp, lo, hi);
    }
  }

  /** A `lo` task is inserted right after the `lo` group, before every `hi` task. */
  lemma LowJoinsFirstGroup(a: seq<Task>, b: seq<Task>, x: Task, cmp: Comparator, lo: Task -> bool, hi: Task -> bool)
    requires lo(x) && (a != [] ==> lo(a[|a| - 1])) && (forall k :: 0 <= k < |b| ==> hi(b[k]))
    requires forall t :: hi(t) == !lo(t)
    requires forall a, b :: cmp(a, b) > 0 <==> hi(a) && lo(b)
    ensures Insert(a + b, x, cmp) == (a + [x]) + (b + [])
  {
    InsertBetween(a, b, x, cmp);
    assert b + [] == b;
  }

  /** A `hi` task is inserted after every task of both groups. */
  lemma HighJoinsSecondGroup(a: seq<Task>, b: seq<Task>, x: Task, cmp: Comparator, lo: Task -> bool, hi: Task -> bool)
    requires !lo(x) && (forall t :: hi(t) == !lo(t))
    requires forall a, b :: cmp(a, b) > 0 <==> hi(a) && lo(b)
    ensures Insert(a + b, x, cmp) == (a + []) + (b + [x])
  {
    var ab := a + b;
    assert forall k :: 0 <= k < |ab| ==> cmp(ab[k], x) <= 0;
    InsertBetween(ab, [], x, cmp);
    assert ab + [] == ab;
    assert a + [] == a;
    assert ab + [x] == a + (b + [x]);
  }

  /** Sorting by status: ascending gives every unfinished task, then every completed
      one; descending the reverse; each group keeps its input order. */
  lemma SortByStatus(s: seq<Task>, collate: Collation)
    ensures Sort(s, HomeComparator(ByStatus, Asc, collate)) == Filter(s, IsUnfinished) + Filter(s, IsCompleted)
    ensures Sort(s, HomeComparator(ByStatus, Desc, collate)) == Filter(s, IsCompleted) + Filter(s, IsUnfinished)
  {
    SortTwoGroups(s, HomeComparator(ByStatus, Asc, collate), IsUnfinished, IsCompleted);
    SortTwoGroups(s, HomeComparator(ByStatus, Desc, collate), IsCompleted, IsUnfinished);
  }

  /** Example: ids 3, 1, 2 sort by date ascending to 1, 2, 3. */
  lemma SortByDateAscExample(a: Task, b: Task, c: Task, collate: Collation)
    requires a.id == 3 && b.id == 1 && c.id == 2
    ensures Ids(Sort([a, b, c], HomeComparator(ByDate, Asc, collate))) == [1, 2, 3]
  {
    var up := HomeComparator(ByDate, Asc, collate);
    assert [a, b, c][..2] == [a, b] && [a, b][..1] == [a] && [a][..0] == [];
    assert [b, a][..1] == [b];
    assert Sort([a], up) == [a];
    assert Insert([a], b, up) == Insert([], b, up) + [a];
    assert Sort([a, b], up) == [b, a];
    assert Insert([b, a], c, up) == Insert([b], c, up) + [a];
    assert Insert([b], c, up) == [b, c];
    assert Sort([a, b, c], up) == [b, c, a];
  }

  /** Example: ids 3, 1, 2 sort by date descending to 3, 2, 1. */
  lemma SortByDateDescExample(a: Task, b: Task, c: Task, collate: Collation)
    requires a.id == 3 && b.id == 1 && c.id == 2
    ensures Ids(Sort([a, b, c], HomeComparator(ByDate, Desc, collate))) == [3, 2, 1]
  {
    var down := HomeComparator(ByDate, Desc, collate);
    assert [a, b, c][..2] == [a, b] && [a, b][..1] == [a] && [a][..0] == [];
    assert Sort([a], down) == [a];
    assert Sort([a, b], down) == [a, b];
    assert Insert([a, b], c, down) == Insert([a], c, down) + [b];
    assert Insert([a], c, down) == [a, c];
    assert Sort([a, b, c], down) == [a, c, b];
  }

  // ---------------------------------------------------------------------------
  // The in-place algorithm

  /** `key` is inserted at `j` when the cell before `j` does not follow it and every
      cell from `j` on does. */
  lemma InsertAtGap(prefix: seq<Task>, j: int, key: Task, cmp: Comparator)
    requires 0 <= j <= |prefix|
    requires j > 0 ==> cmp(prefix[j - 1], key) <= 0
    requires forall k :: j <= k < |prefix| ==> cmp(prefix[k], key) > 0
    ensures Insert(prefix, key, cmp) == prefix[..j] + [key] + prefix[j..]
  {
    assert prefix == prefix[..j] + prefix[j..];
    InsertBetween(prefix[..j], prefix[j..], key, cmp);
  }

  /** After the inner loop and the final write, the first `i + 1` cells are the
      insertion of `key` into the prefix. */
  lemma PlacedKey(cur: seq<Task>, prefix: seq<Task>, j: int, key: Task, cmp: Comparator)
    requires 0 <= j <= |prefix| && |cur| == |prefix| + 1
    requires forall k :: 0 <= k < j ==> cur[k] == prefix[k]
    requires cur[j] == key
    requires forall k :: j < k < |cur| ==> cur[k] == prefix[k - 1]
    requires Insert(prefix, key, cmp) == prefix[..j] + [key] + prefix[j..]
    ensures cur == Insert(prefix, key, cmp)
  {
    var goal := prefix[..j] + [key] + prefix[j..];
    assert forall k :: 0 <= k < |cur| ==> cur[k] == goal[k];
  }
}
