/** The starred page's view model (src/app/starred/page.tsx). It never patches its
    list: after every confirmed write it refetches and keeps only starred tasks.
    Every handler catches and logs its errors, so none of them rejects. */
module StarredPage {
  import opened Tasks
  import opened Reconcile
  import opened Ordering
  import opened InPlaceSort

  /** The list after a write whose acknowledgement was `ack`, followed (only when
      acknowledged) by a refetch that returned `refetch`. */
  function AfterRefetch(prior: seq<Task>, ack: bool, refetch: Reply<seq<Task>>): (r: seq<Task>)
    ensures ack && refetch.Ok? ==> forall t :: t in r <==> t in refetch.value && t.starred
    ensures !(ack && refetch.Ok?) ==> r == prior
  {
    if ack && refetch.Ok? then StarredOnly(refetch.value) else prior
  }

  /** The starred view's state is replaced only by the starred filter of a server
      list, or kept: it is never patched locally. */
  lemma AfterRefetchNeverPatches(prior: seq<Task>, ack: bool, refetch: Reply<seq<Task>>)
    ensures AfterRefetch(prior, ack, refetch) == prior
         || (refetch.Ok? && AfterRefetch(prior, ack, refetch) == StarredOnly(refetch.value))
  {
  }

  class StarredView {
    var tasks: seq<Task>
    var isLoading: bool
    var deleteOption: DeleteOption
    var sortOption: SortOption
    var sortOrder: SortOrder

    /** Every task the starred view holds is starred. */
    ghost predicate Valid()
      reads this
    {
      forall t :: t in tasks ==> t.starred
    }

    constructor ()
      ensures Valid()
      ensures tasks == [] && !isLoading
      ensures deleteOption == DeleteAll && sortOption == ByDate && sortOrder == Asc
    {
      tasks := [];
      isLoading := false;
      deleteOption := DeleteAll;
      sortOption := ByDate;
      sortOrder := Asc;
    }

    /** `fetchStarredTasks`: the starred tasks of the server's list, in the server's
        order; on failure the list is kept. The loading flag ends false either way. */
    method FetchStarredTasks(reply: Reply<seq<Task>>) returns (issued: seq<ApiCall>)
      requires Valid()
      modifies this`tasks, this`isLoading
      ensures Valid()
      ensures issued == [GetTasks]
      ensures tasks == if reply.Ok? then StarredOnly(reply.value) else old(tasks)
      ensures !isLoading
    {
      isLoading := true;
      issued := [GetTasks];
      if reply.Ok? {
        tasks := StarredOnly(reply.value);
      }
      isLoading := false;
    }

    /** The shared tail of every handler: refetch only if the write was acknowledged. */
    method RefetchIf(ack: bool, refetch: Reply<seq<Task>>) returns (issued: seq<ApiCall>)
      requires Valid()
      modifies this`tasks, this`isLoading
      ensures Valid()
      ensures issued == if ack then [GetTasks] else []
      ensures tasks == AfterRefetch(old(tasks), ack, refetch)
      ensures isLoading == if ack then false else old(isLoading)
    {
      issued := [];
      if ack {
        issued := FetchStarredTasks(refetch);
      }
    }

    /** `handleToggleStar` */
    method ToggleStar(id: int, ack: bool, refetch: Reply<seq<Task>>) returns (issued: seq<ApiCall>)
      requires Valid()
      modifies this`tasks, this`isLoading
      ensures Valid()
      ensures issued == [ApiCall.ToggleStar(id)] + (if ack then [GetTasks] else [])
      ensures tasks == AfterRefetch(old(tasks), ack, refetch)
      ensures isLoading == if ack then false else old(isLoading)
    {
      var more := RefetchIf(ack, refetch);
      issued := [ApiCall.ToggleStar(id)] + more;
    }

    /** `handleToggleComplete` */
    method ToggleComplete(id: int, ack: bool, refetch: Reply<seq<Task>>) returns (issued: seq<ApiCall>)
      requires Valid()
      modifies this`tasks, this`isLoading
      ensures Valid()
      ensures issued == [ApiCall.ToggleComplete(id)] + (if ack then [GetTasks] else [])
      ensures tasks == AfterRefetch(old(tasks), ack, refetch)
      ensures isLoading == if ack then false else old(isLoading)
    {
      var more := RefetchIf(ack, refetch);
      issued := [ApiCall.ToggleComplete(id)] + more;
    }

    /** `handleDeleteTask` */
    method DeleteTask(id: int, ack: bool, refetch: Reply<seq<Task>>) returns (issued: seq<ApiCall>)
      requires Valid()
      modifies this`tasks, this`isLoading
      ensures Valid()
      ensures issued == [ApiCall.DeleteTask(id)] + (if ack then [GetTasks] else [])
      ensures tasks == AfterRefetch(old(tasks), ack, refetch)
      ensures isLoading == if ack then false else old(isLoading)
    {
      var more := RefetchIf(ack, refetch);
      issued := [ApiCall.DeleteTask(id)] + more;
    }

    /** `handleDeleteAllStarredTasks`: one DELETE per target chosen from the starred
        list; the refetch runs only when none of them is rejected. */
    method DeleteAllStarredTasks(rejected: set<int>, refetch: Reply<seq<Task>>) returns (issued: seq<ApiCall>)
      requires Valid()
      modifies this`tasks, this`isLoading
      ensures Valid()
      ensures var targets := DeleteTargets(old(tasks), deleteOption);
        var ok := BatchSucceeds(targets, rejected);
        && issued == DeleteCalls(targets) + (if ok then [GetTasks] else [])
        && tasks == AfterRefetch(old(tasks), ok, refetch)
        && isLoading == if ok then false else old(isLoading)
    {
      var targets := DeleteTargets(tasks, deleteOption);
      var ok := BatchSucceeds(targets, rejected);
      var more := RefetchIf(ok, refetch);
      issued := DeleteCalls(targets) + more;
    }

    /** `handleEditTask`: sends the title and the description as given (no `id` in
        the body, no `''` default), then refetches. */
    method EditTask(id: int, title: string, description: Option<string>, ack: bool, refetch: Reply<seq<Task>>)
      returns (issued: seq<ApiCall>)
      requires Valid()
      modifies this`tasks, this`isLoading
      ensures Valid()
      ensures issued == [UpdateTask(id, UpdateBody(None, title, description))] + (if ack then [GetTasks] else [])
      ensures tasks == AfterRefetch(old(tasks), ack, refetch)
      ensures isLoading == if ack then false else old(isLoading)
    {
      var more := RefetchIf(ack, refetch);
      issued := [UpdateTask(id, UpdateBody(None, title, description))] + more;
    }

    /** `handleDeleteOptionChange` */
    method SetDeleteOption(option: DeleteOption)
      requires Valid()
      modifies this`deleteOption
      ensures Valid()
      ensures deleteOption == option
    {
      deleteOption := option;
    }

    /** `handleSortOptionChange` */
    method SetSortOption(option: SortOption)
      requires Valid()
      modifies this`sortOption
      ensures Valid()
      ensures sortOption == option
    {
      sortOption := option;
    }

    /** `toggleSortOrder` */
    method ToggleSortOrder()
      requires Valid()
      modifies this`sortOrder
      ensures Valid()
      ensures sortOrder == Flipped(old(sortOrder)) && sortOrder != old(sortOrder)
    {
      sortOrder := Flipped(sortOrder);
    }

    /** `sortedTasks`, with this view's comparator: a permutation of `tasks`,
        ordered whenever the comparator is consistent, and the same order the
        all-tasks view would give the same list. */
    method SortedTasks(collate: Collation) returns (r: seq<Task>)
      ensures r == Sort(tasks, StarredComparator(sortOption, sortOrder, collate))
      ensures r == Sort(tasks, HomeComparator(sortOption, sortOrder, collate))
      ensures multiset(r) == multiset(tasks)
      ensures sortOption != ByTitle || ConsistentCollation(collate) ==>
        SortedBy(r, StarredComparator(sortOption, sortOrder, collate))
    {
      var cmp := StarredComparator(sortOption, sortOrder, collate);
      r := SortedCopy(tasks, cmp);
      ViewsSortAlike(tasks, sortOption, sortOrder, collate);
      if sortOption != ByTitle || ConsistentCollation(collate) {
        StarredComparatorIsConsistent(sortOption, sortOrder, collate);
      }
    }
  }
}
