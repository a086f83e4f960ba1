/** The pure list transformations the two views apply to their `tasks` after a
    remote call: the patches the all-tasks view makes in place of a refetch, the
    bulk-delete subsets, and the starred projection the starred view refetches. */
module Reconcile {
  import opened Tasks

  function FlipStar(t: Task): Task { t.(starred := !t.starred) }
  function FlipCompleted(t: Task): Task { t.(completed := !t.completed) }

  /** The list after a confirmed star toggle (page.tsx `handleToggleStar`):
      the tasks carrying `id` have `starred` negated and nothing else changed;
      every other task, the length and the order stay as they were. */
  function ToggleStarIn(s: seq<Task>, id: int): (r: seq<Task>)
    ensures |r| == |s|
    ensures forall i :: 0 <= i < |s| && s[i].id == id ==> r[i] == s[i].(starred := !s[i].starred)
    ensures forall i :: 0 <= i < |s| && s[i].id != id ==> r[i] == s[i]
  {
    PatchById(s, id, FlipStar)
  }

  /** The list after a confirmed completion toggle: as `ToggleStarIn`, on `completed`. */
  function ToggleCompleteIn(s: seq<Task>, id: int): (r: seq<Task>)
    ensures |r| == |s|
    ensures forall i :: 0 <= i < |s| && s[i].id == id ==> r[i] == s[i].(completed := !s[i].completed)
    ensures forall i :: 0 <= i < |s| && s[i].id != id ==> r[i] == s[i]
  {
    PatchById(s, id, FlipCompleted)
  }

  /** `description || ''`: an absent or empty description becomes the empty string. */
  function OrEmpty(d: Option<string>): (r: string)
    ensures d.None? ==> r == ""
    ensures d.Some? ==> r == d.value
  {
    if d.Some? && d.value != "" then d.value else ""
  }

  /** The list after a confirmed edit (page.tsx `handleEditTask`): the tasks carrying
      `id` get the new title and description; id, flags and timestamps are kept. */
  function EditIn(s: seq<Task>, id: int, title: string, description: Option<string>): (r: seq<Task>)
    ensures |r| == |s|
    ensures forall i :: 0 <= i < |s| && s[i].id == id ==>
      r[i] == s[i].(title := title, description := OrEmpty(description))
    ensures forall i :: 0 <= i < |s| && s[i].id != id ==> r[i] == s[i]
  {
    PatchById(s, id, (t: Task) => t.(title := title, description := OrEmpty(description)))
  }

  /** The list after a confirmed single delete: every task carrying `id` is gone and
      the rest keep their order. */
  function WithoutId(s: seq<Task>, id: int): (r: seq<Task>)
    ensures forall t :: t in r <==> t in s && t.id != id
    ensures |r| <= |s|
  {
    Filter(s, (t: Task) => t.id != id)
  }

  /** Whether a bulk delete with option `opt` targets the task `t`. */
  predicate Targeted(opt: DeleteOption, t: Task)
  {
    match opt
    case DeleteAll => true
    case DeleteCompleted => t.completed
    case DeleteUnfinished => !t.completed
  }

  /** `tasksToDelete`: the tasks a bulk delete sends a DELETE for. */
  function DeleteTargets(s: seq<Task>, opt: DeleteOption): (r: seq<Task>)
    ensures forall t :: t in r <==> t in s && Targeted(opt, t)
  {
    match opt
    case DeleteCompleted => Filter(s, IsCompleted)
    case DeleteUnfinished => Filter(s, IsUnfinished)
    case DeleteAll => s
  }

  /** The list the all-tasks view keeps after a bulk delete succeeded. */
  function Remaining(s: seq<Task>, opt: DeleteOption): (r: seq<Task>)
    ensures forall t :: t in r <==> t in s && !Targeted(opt, t)
  {
    match opt
    case DeleteCompleted => Filter(s, IsUnfinished)
    case DeleteUnfinished => Filter(s, IsCompleted)
    case DeleteAll => []
  }

  /** `Promise.all` of the deletes resolves exactly when no target's DELETE is rejected. */
  predicate BatchSucceeds(targets: seq<Task>, rejected: set<int>): (r: bool)
    ensures r <==> forall i :: 0 <= i < |targets| ==> DeleteCalls(targets)[i].id !in rejected
  {
    DeleteCallsCarryIds(targets, rejected);
    forall i :: 0 <= i < |targets| ==> targets[i].id !in rejected
  }

  /** The DELETEs are for the targets' ids, index by index. */
  lemma DeleteCallsCarryIds(targets: seq<Task>, rejected: set<int>)
    ensures (forall i :: 0 <= i < |targets| ==> targets[i].id !in rejected)
        <==> (forall i :: 0 <= i < |targets| ==> DeleteCalls(targets)[i].id !in rejected)
  {
    var calls := DeleteCalls(targets);
    if forall i :: 0 <= i < |targets| ==> targets[i].id !in rejected {
      forall i | 0 <= i < |targets|
        ensures DeleteCalls(targets)[i].id !in rejected
      {
        assert calls[i] == DeleteTask(targets[i].id);
      }
    } else {
      var i :| 0 <= i < |targets| && targets[i].id in rejected;
      assert calls[i] == DeleteTask(targets[i].id);
      assert DeleteCalls(targets)[i].id in rejected;
    }
  }

  /** `tasksToDelete.map((task) => deleteTask(task.id))`: one DELETE per target, in order. */
  function DeleteCalls(targets: seq<Task>): (r: seq<ApiCall>)
    ensures |r| == |targets|
    ensures forall i :: 0 <= i < |targets| ==> r[i] == DeleteTask(targets[i].id)
  {
    if targets == [] then [] else [DeleteTask(targets[0].id)] + DeleteCalls(targets[1..])
  }

  /** `data.filter((task) => task.starred)` */
  function StarredOnly(data: seq<Task>): (r: seq<Task>)
    ensures forall t :: t in r <==> t in data && t.starred
  {
    Filter(data, IsStarred)
  }

  // ---------------------------------------------------------------------------
  // Laws of the patches

  /** A second star toggle of the same id undoes the first. */
  lemma ToggleStarTwice(s: seq<Task>, id: int)
    ensures ToggleStarIn(ToggleStarIn(s, id), id) == s
  {
    var r := ToggleStarIn(ToggleStarIn(s, id), id);
    assert forall i :: 0 <= i < |s| ==> r[i] == s[i];
  }

  /** A second completion toggle of the same id undoes the first. */
  lemma ToggleCompleteTwice(s: seq<Task>, id: int)
    ensures ToggleCompleteIn(ToggleCompleteIn(s, id), id) == s
  {
    var r := ToggleCompleteIn(ToggleCompleteIn(s, id), id);
    assert forall i :: 0 <= i < |s| ==> r[i] == s[i];
  }

  /** Repeating the same edit changes nothing more. */
  lemma EditTwice(s: seq<Task>, id: int, title: string, description: Option<string>)
    ensures EditIn(EditIn(s, id, title, description), id, title, description)
         == EditIn(s, id, title, description)
  {
  }

  /** Toggles and edits never change which ids the list holds, nor their order. */
  lemma PatchesKeepIds(s: seq<Task>, id: int, title: string, description: Option<string>)
    ensures Ids(ToggleStarIn(s, id)) == Ids(s)
    ensures Ids(ToggleCompleteIn(s, id)) == Ids(s)
    ensures Ids(EditIn(s, id, title, description)) == Ids(s)
  {
    PatchKeepsIds(s, id, FlipStar);
    PatchKeepsIds(s, id, FlipCompleted);
    PatchKeepsIds(s, id, (t: Task) => t.(title := title, description := OrEmpty(description)));
  }

  /** With unique ids, a single delete removes one task if the id is present and
      none otherwise. */
  lemma {:induction false} WithoutIdRemovesOne(s: seq<Task>, id: int)
    requires UniqueIds(s)
    ensures |WithoutId(s, id)| == if id in Ids(s) then |s| - 1 else |s|
    ensures UniqueIds(WithoutId(s, id))
  {
    FilterKeepsUniqueIds(s, (t: Task) => t.id != id);
    if s != [] {
      var rest := s[1..];
      assert UniqueIds(rest) by {
        forall i, j | 0 <= i < j < |rest| ensures rest[i].id != rest[j].id {
          assert rest[i] == s[i + 1] && rest[j] == s[j + 1];
        }
      }
      WithoutIdRemovesOne(rest, id);
      assert Ids(s) == [s[0].id] + Ids(rest);
      if s[0].id == id {
        assert id !in Ids(rest) by {
          forall k | 0 <= k < |rest| ensures Ids(rest)[k] != id {
            assert rest[k] == s[k + 1];
          }
        }
      }
    }
  }

  // ---------------------------------------------------------------------------
  // Laws of the bulk delete

  /** The targets and the remaining tasks partition the prior list: together they
      hold each task exactly as often, and a task of the list is in exactly one. */
  lemma BulkDeletePartition(s: seq<Task>, opt: DeleteOption)
    ensures multiset(DeleteTargets(s, opt)) + multiset(Remaining(s, opt)) == multiset(s)
    ensures forall t :: t in s ==> (t in DeleteTargets(s, opt) <==> t !in Remaining(s, opt))
  {
    match opt
    case DeleteCompleted => FilterPartition(s, IsCompleted, IsUnfinished);
    case DeleteUnfinished => FilterPartition(s, IsUnfinished, IsCompleted);
    case DeleteAll =>
  }

  /** The remaining list is the prior list with exactly the targeted tasks filtered
      out, in the prior order: for `completed` the unfinished tasks, for
      `unfinished` the completed ones, for `all` nothing. */
  lemma RemainingIsUntargeted(s: seq<Task>, opt: DeleteOption)
    ensures Remaining(s, opt) == Filter(s, (t: Task) => !Targeted(opt, t))
  {
    match opt
    case DeleteCompleted => FilterSame(s, IsUnfinished, (t: Task) => !Targeted(opt, t));
    case DeleteUnfinished => FilterSame(s, IsCompleted, (t: Task) => !Targeted(opt, t));
    case DeleteAll => FilterNone(s, (t: Task) => !Targeted(opt, t));
  }

  lemma {:induction false} FilterSame(s: seq<Task>, p: Task -> bool, q: Task -> bool)
    requires forall t :: p(t) == q(t)
    ensures Filter(s, p) == Filter(s, q)
  {
    if s != [] { FilterSame(s[1..], p, q); }
  }

  lemma {:induction false} FilterNone(s: seq<Task>, p: Task -> bool)
    requires forall t :: !p(t)
    ensures Filter(s, p) == []
  {
    if s != [] { FilterNone(s[1..], p); }
  }

  /** Example: on ids 1 (completed), 2 (open), 3 (completed), deleting the
      completed tasks targets 1 and 3 and leaves 2. */
  lemma BulkDeleteCompletedExample(a: Task, b: Task, c: Task)
    requires a.id == 1 && a.completed && b.id == 2 && !b.completed && c.id == 3 && c.completed
    ensures Ids(DeleteTargets([a, b, c], DeleteCompleted)) == [1, 3]
    ensures Ids(Remaining([a, b, c], DeleteCompleted)) == [2]
  {
    assert [a, b, c][1..] == [b, c] && [b, c][1..] == [c] && [c][1..] == [];
    assert Filter([c], IsCompleted) == [c] && Filter([c], IsUnfinished) == [];
    assert Filter([b, c], IsCompleted) == [c] && Filter([b, c], IsUnfinished) == [b];
    assert Filter([a, b, c], IsCompleted) == [a, c] && Filter([a, b, c], IsUnfinished) == [b];
    assert Ids([a, c]) == [1, 3] && Ids([b]) == [2];
  }

  // ---------------------------------------------------------------------------
  // The starred projection and how it relates to the patches

  /** Refetching through the starred filter twice is filtering once. */
  lemma StarredOnlyIdempotent(data: seq<Task>)
    ensures StarredOnly(StarredOnly(data)) == StarredOnly(data)
  {
    FilterIdempotent(data, IsStarred);
  }

  /** A patch that does not change a task's membership commutes with a filter. */
  lemma {:induction false} FilterPatchCommute(s: seq<Task>, id: int, f: Task -> Task, p: Task -> bool)
    requires forall t :: p(f(t)) == p(t)
    ensures Filter(PatchById(s, id, f), p) == PatchById(Filter(s, p), id, f)
  {
    if s != [] {
      FilterPatchCommute(s[1..], id, f, p);
      var ps := PatchById(s, id, f);
      assert ps[1..] == PatchById(s[1..], id, f);
      var fs := Filter(s, p);
      if p(s[0]) { assert fs[1..] == Filter(s[1..], p); }
    }
  }

  /** Starred view refetch after a completion toggle shows what the all-tasks view's
      patch gives, restricted to starred tasks (when the service toggles the same
      list the client holds). */
  lemma StarredAfterToggleComplete(s: seq<Task>, id: int)
    ensures StarredOnly(ToggleCompleteIn(s, id)) == ToggleCompleteIn(StarredOnly(s), id)
  {
    FilterPatchCommute(s, id, FlipCompleted, IsStarred);
  }

  /** The same agreement for an edit. */
  lemma StarredAfterEdit(s: seq<Task>, id: int, title: string, description: Option<string>)
    ensures StarredOnly(EditIn(s, id, title, description)) == EditIn(StarredOnly(s), id, title, description)
  {
    FilterPatchCommute(s, id, (t: Task) => t.(title := title, description := OrEmpty(description)), IsStarred);
  }

  /** The same agreement for a single delete. */
  lemma StarredAfterDelete(s: seq<Task>, id: int)
    ensures StarredOnly(WithoutId(s, id)) == WithoutId(StarredOnly(s), id)
  {
    FilterCommute(s, (t: Task) => t.id != id, IsStarred);
  }

  /** Toggling the star of a starred task makes the starred refetch drop it: the
      result is the starred list without that id. */
  lemma {:induction false} StarredAfterUnstar(s: seq<Task>, id: int)
    requires forall t :: t in s && t.id == id ==> t.starred
    ensures StarredOnly(ToggleStarIn(s, id)) == WithoutId(StarredOnly(s), id)
  {
    if s != [] {
      StarredAfterUnstar(s[1..], id);
      var ps := ToggleStarIn(s, id);
      assert ps[1..] == ToggleStarIn(s[1..], id);
      var fs := StarredOnly(s);
      if s[0].starred { assert fs[1..] == StarredOnly(s[1..]); }
    }
  }
}
