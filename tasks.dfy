/** The task record shared by both views, the options the views offer, the remote
    calls a view can issue, and the sequence operations every view builds on
    (JavaScript's `filter` and a `map` that patches the task carrying one `id`). */
module Tasks {

  /** One to-do item as the remote service returns it. The timestamps are kept as
      the service's text and never computed by the client. */
  datatype Task = Task(
    id: int,
    title: string,
    description: string,
    completed: bool,
    starred: bool,
    createdAt: string,
    updatedAt: string)

  datatype Option<T> = None | Some(value: T)

  datatype SortOption = ByDate | ByTitle | ByStatus
  datatype SortOrder = Asc | Desc
  datatype DeleteOption = DeleteAll | DeleteCompleted | DeleteUnfinished

  /** The outcome of one awaited remote call: resolved with a value, or rejected. */
  datatype Reply<T> = Ok(value: T) | Failed

  /** Whether a handler's own promise resolves or rejects. */
  datatype Outcome = Resolved | Rejected

  /** What a create form hands to `onCreate`, and the body of a create request. */
  datatype NewTask = NewTask(title: string, description: Option<string>)

  /** The body of an update request: the all-tasks view also sends the `id`. */
  datatype UpdateBody = UpdateBody(id: Option<int>, title: string, description: Option<string>)

  /** The remote operations a view issues, in the order it issues them. */
  datatype ApiCall =
    | GetTasks
    | CreateTask(task: NewTask)
    | UpdateTask(id: int, body: UpdateBody)
    | DeleteTask(id: int)
    | ToggleStar(id: int)
    | ToggleComplete(id: int)

  /** `prevOrder === 'asc' ? 'desc' : 'asc'` */
  function Flipped(o: SortOrder): (r: SortOrder)
    ensures r != o
  {
    if o == Asc then Desc else Asc
  }

  lemma FlippedTwice(o: SortOrder)
    ensures Flipped(Flipped(o)) == o
  {
  }

  predicate IsCompleted(t: Task) { t.completed }
  predicate IsUnfinished(t: Task) { !t.completed }
  predicate IsStarred(t: Task) { t.starred }

  /** JavaScript's `Array.prototype.filter`: the elements satisfying `p`, in order. */
  function Filter<T(!new)>(s: seq<T>, p: T -> bool): (r: seq<T>)
    ensures |r| <= |s|
    ensures forall x :: x in r <==> x in s && p(x)
    ensures forall i :: 0 <= i < |r| ==> p(r[i])
  {
    if s == [] then []
    else
      var rest := Filter(s[1..], p);
      assert s == [s[0]] + s[1..];
      if p(s[0]) then [s[0]] + rest else rest
  }

  /** Filtering a concatenation filters each part: the kept elements keep their
      relative order. */
  lemma {:induction false} FilterConcat<T(!new)>(a: seq<T>, b: seq<T>, p: T -> bool)
    ensures Filter(a + b, p) == Filter(a, p) + Filter(b, p)
  {
    if a != [] {
      var ab := a + b;
      assert ab[0] == a[0] && ab[1..] == a[1..] + b;
      FilterConcat(a[1..], b, p);
      if p(a[0]) {
        assert Filter(ab, p) == [a[0]] + Filter(a[1..] + b, p);
        assert Filter(a, p) == [a[0]] + Filter(a[1..], p);
      } else {
        assert Filter(ab, p) == Filter(a[1..] + b, p);
        assert Filter(a, p) == Filter(a[1..], p);
      }
    } else {
      assert a + b == b;
    }
  }

  /** A predicate and its negation split a sequence into two parts that together
      hold every element exactly as often as the sequence does. */
  lemma {:induction false} FilterPartition<T(!new)>(s: seq<T>, p: T -> bool, q: T -> bool)
    requires forall x :: q(x) == !p(x)
    ensures multiset(Filter(s, p)) + multiset(Filter(s, q)) == multiset(s)
  {
    if s != [] {
      FilterPartition(s[1..], p, q);
      FilterPartitionStep(s, p, q);
    }
  }

  /** The first element lands in exactly one of the two parts, so a partition of the
      tail extends to one of the whole sequence. */
  lemma FilterPartitionStep<T(!new)>(s: seq<T>, p: T -> bool, q: T -> bool)
    requires s != [] && q(s[0]) == !p(s[0])
    requires multiset(Filter(s[1..], p)) + multiset(Filter(s[1..], q)) == multiset(s[1..])
    ensures multiset(Filter(s, p)) + multiset(Filter(s, q)) == multiset(s)
  {
    assert s == [s[0]] + s[1..];
    var head, a, b := multiset{s[0]}, multiset(Filter(s[1..], p)), multiset(Filter(s[1..], q));
    assert multiset(s) == head + (a + b);
    if p(s[0]) {
      assert Filter(s, p) == [s[0]] + Filter(s[1..], p);
      assert multiset(Filter(s, p)) + multiset(Filter(s, q)) == (head + a) + b;
    } else {
      assert Filter(s, q) == [s[0]] + Filter(s[1..], q);
      assert multiset(Filter(s, p)) + multiset(Filter(s, q)) == a + (head + b);
    }
  }

  /** Two filters commute. */
  lemma {:induction false} FilterCommute<T(!new)>(s: seq<T>, p: T -> bool, q: T -> bool)
    ensures Filter(Filter(s, p), q) == Filter(Filter(s, q), p)
  {
    if s != [] {
      FilterCommute(s[1..], p, q);
      var fp := Filter(s, p);
      var fq := Filter(s, q);
      if p(s[0]) { assert fp[1..] == Filter(s[1..], p); }
      if q(s[0]) { assert fq[1..] == Filter(s[1..], q); }
    }
  }

  /** Filtering twice with the same predicate is filtering once. */
  lemma {:induction false} FilterIdempotent<T(!new)>(s: seq<T>, p: T -> bool)
    ensures Filter(Filter(s, p), p) == Filter(s, p)
  {
    if s != [] {
      FilterIdempotent(s[1..], p);
      var f := Filter(s, p);
      if p(s[0]) { assert f[1..] == Filter(s[1..], p); }
    }
  }

  /** `tasks.map((task) => task.id === id ? f(task) : task)` */
  function PatchById(s: seq<Task>, id: int, f: Task -> Task): (r: seq<Task>)
    ensures |r| == |s|
    ensures forall i :: 0 <= i < |s| ==> r[i] == if s[i].id == id then f(s[i]) else s[i]
  {
    if s == [] then []
    else [if s[0].id == id then f(s[0]) else s[0]] + PatchById(s[1..], id, f)
  }

  /** The ids of a list, in order. */
  function Ids(s: seq<Task>): (r: seq<int>)
    ensures |r| == |s|
    ensures forall i :: 0 <= i < |s| ==> r[i] == s[i].id
  {
    if s == [] then [] else [s[0].id] + Ids(s[1..])
  }

  /** No two tasks of the list share an `id`. */
  predicate UniqueIds(s: seq<Task>)
  {
    forall i, j :: 0 <= i < j < |s| ==> s[i].id != s[j].id
  }

  /** A patch whose change keeps the `id` leaves the list's ids as they were. */
  lemma PatchKeepsIds(s: seq<Task>, id: int, f: Task -> Task)
    requires forall t :: f(t).id == t.id
    ensures Ids(PatchById(s, id, f)) == Ids(s)
  {
    var r := PatchById(s, id, f);
    assert forall i :: 0 <= i < |s| ==> Ids(r)[i] == Ids(s)[i];
  }

  /** Filtering keeps ids unique. */
  lemma {:induction false} FilterKeepsUniqueIds(s: seq<Task>, p: Task -> bool)
    requires UniqueIds(s)
    ensures UniqueIds(Filter(s, p))
  {
    if s != [] {
      FilterKeepsUniqueIds(s[1..], p);
      var rest := Filter(s[1..], p);
      forall t | t in rest ensures t.id != s[0].id {
        var k :| 0 <= k < |s[1..]| && s[1..][k] == t;
        assert s[k + 1] == t;
      }
    }
  }
}
