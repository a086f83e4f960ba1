/** The all-tasks page's view model (src/app/page.tsx). After each remote call
    resolves it patches its own `tasks` by `id` instead of refetching. A rejected
    remote call makes the handler reject before any state is touched. */
module AllTasksPage {
  import opened Tasks
  import opened Reconcile
  import opened Ordering
  import opened InPlaceSort

  class AllTasksView {
    var tasks: seq<Task>
    var isLoading: bool
    var sortOption: SortOption
    var sortOrder: SortOrder
    var deleteOption: DeleteOption

    /** The initial state of the five `useState` hooks. */
    constructor ()
      ensures tasks == [] && !isLoading
      ensures sortOption == ByDate && sortOrder == Asc && deleteOption == DeleteAll
    {
      tasks := [];
      isLoading := false;
      sortOption := ByDate;
      sortOrder := Asc;
      deleteOption := DeleteAll;
    }

    /** `fetchTasks`: loads the list; a failure propagates and leaves `tasks` as it was. */
    method FetchTasks(reply: Reply<seq<Task>>) returns (outcome: Outcome, issued: seq<ApiCall>)
      modifies this`tasks, this`isLoading
      ensures issued == [GetTasks]
      ensures outcome == if reply.Ok? then Resolved else Rejected
      ensures tasks == if reply.Ok? then reply.value else old(tasks)
      ensures !isLoading
    {
      isLoading := true;
      issued := [GetTasks];
      if reply.Ok? {
        tasks := reply.value;
        outcome := Resolved;
      } else {
        outcome := Rejected;
      }
      isLoading := false;
    }

    /** `handleCreateTask`: appends the task the service returned, unaltered. */
    method CreateTask(task: NewTask, reply: Reply<Task>) returns (outcome: Outcome, issued: seq<ApiCall>)
      modifies this`tasks, this`isLoading
      ensures issued == [ApiCall.CreateTask(task)]
      ensures outcome == if reply.Ok? then Resolved else Rejected
      ensures tasks == if reply.Ok? then old(tasks) + [reply.value] else old(tasks)
      ensures !isLoading
    {
      isLoading := true;
      issued := [ApiCall.CreateTask(task)];
      if reply.Ok? {
        tasks := tasks + [reply.value];
        outcome := Resolved;
      } else {
        outcome := Rejected;
      }
      isLoading := false;
    }

    /** `handleToggleStar` */
    method ToggleStar(id: int, ack: bool) returns (outcome: Outcome, issued: seq<ApiCall>)
      modifies this`tasks
      ensures issued == [ApiCall.ToggleStar(id)]
      ensures outcome == if ack then Resolved else Rejected
      ensures tasks == if ack then ToggleStarIn(old(tasks), id) else old(tasks)
    {
      issued := [ApiCall.ToggleStar(id)];
      if !ack {
        return Rejected, issued;
      }
      tasks := ToggleStarIn(tasks, id);
      outcome := Resolved;
    }

    /** `handleToggleComplete` */
    method ToggleComplete(id: int, ack: bool) returns (outcome: Outcome, issued: seq<ApiCall>)
      modifies this`tasks
      ensures issued == [ApiCall.ToggleComplete(id)]
      ensures outcome == if ack then Resolved else Rejected
      ensures tasks == if ack then ToggleCompleteIn(old(tasks), id) else old(tasks)
    {
      issued := [ApiCall.ToggleComplete(id)];
      if !ack {
        return Rejected, issued;
      }
      tasks := ToggleCompleteIn(tasks, id);
      outcome := Resolved;
    }

    /** `handleDeleteTask` */
    method DeleteTask(id: int, ack: bool) returns (outcome: Outcome, issued: seq<ApiCall>)
      modifies this`tasks
      ensures issued == [ApiCall.DeleteTask(id)]
      ensures outcome == if ack then Resolved else Rejected
      ensures tasks == if ack then WithoutId(old(tasks), id) else old(tasks)
    {
      issued := [ApiCall.DeleteTask(id)];
      if !ack {
        return Rejected, issued;
      }
      tasks := WithoutId(tasks, id);
      outcome := Resolved;
    }

    /** `handleDeleteAllTasks`: one DELETE per target; the list is reduced to the
        remaining tasks only when none of them is rejected. */
    method DeleteAllTasks(rejected: set<int>) returns (outcome: Outcome, issued: seq<ApiCall>)
      modifies this`tasks
      ensures issued == DeleteCalls(DeleteTargets(old(tasks), deleteOption))
      ensures outcome == if BatchSucceeds(DeleteTargets(old(tasks), deleteOption), rejected) then Resolved else Rejected
      ensures tasks == if outcome == Resolved then Remaining(old(tasks), deleteOption) else old(tasks)
    {
      var targets := DeleteTargets(tasks, deleteOption);
      issued := DeleteCalls(targets);
      if !BatchSucceeds(targets, rejected) {
        return Rejected, issued;
      }
      tasks := Remaining(tasks, deleteOption);
      outcome := Resolved;
    }

    /** `handleEditTask`: sends the id, the title and `description || ''`, then
        patches the same fields locally. */
    method EditTask(id: int, title: string, description: Option<string>, ack: bool)
      returns (outcome: Outcome, issued: seq<ApiCall>)
      modifies this`tasks
      ensures issued == [UpdateTask(id, UpdateBody(Some(id), title, Some(OrEmpty(description))))]
      ensures outcome == if ack then Resolved else Rejected
      ensures tasks == if ack then EditIn(old(tasks), id, title, description) else old(tasks)
    {
      issued := [UpdateTask(id, UpdateBody(Some(id), title, Some(OrEmpty(description))))];
      if !ack {
        return Rejected, issued;
      }
      tasks := EditIn(tasks, id, title, description);
      outcome := Resolved;
    }

    /** `handleSortOptionChange` */
    method SetSortOption(option: SortOption)
      modifies this`sortOption
      ensures sortOption == option
    {
      sortOption := option;
    }

    /** `handleDeleteOptionChange` */
    method SetDeleteOption(option: DeleteOption)
      modifies this`deleteOption
      ensures deleteOption == option
    {
      deleteOption := option;
    }

    /** `toggleSortOrder`: swaps ascending and descending; twice is the identity. */
    method ToggleSortOrder()
      modifies this`sortOrder
      ensures sortOrder == Flipped(old(sortOrder)) && sortOrder != old(sortOrder)
    {
      sortOrder := Flipped(sortOrder);
    }

    /** `sortedTasks`: a sorted copy of `tasks` for display. It is a permutation of
        `tasks`, ordered by the comparator whenever that comparator is
        consistent (always, except for a title sort under an inconsistent collation). */
    method SortedTasks(collate: Collation) returns (r: seq<Task>)
      ensures r == Sort(tasks, HomeComparator(sortOption, sortOrder, collate))
      ensures multiset(r) == multiset(tasks)
      ensures sortOption != ByTitle || ConsistentCollation(collate) ==>
        SortedBy(r, HomeComparator(sortOption, sortOrder, collate))
    {
      var cmp := HomeComparator(sortOption, sortOrder, collate);
      r := SortedCopy(tasks, cmp);
      if sortOption != ByTitle || ConsistentCollation(collate) {
        ComparatorIsConsistent(sortOption, sortOrder, collate);
      }
    }
  }
}
