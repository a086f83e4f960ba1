/** One task's card (src/app/components/TaskCard.tsx): an edit buffer with a
    view/editing state, and buttons that report this card's task id. */
module TaskCardComponent {
  import opened Tasks

  /** What a card hands to the callbacks its view passed in. */
  datatype CardEvent =
    | StarClicked(id: int)
    | CompleteClicked(id: int)
    | DeleteClicked(id: int)
    | EditSaved(id: int, title: string, description: Option<string>)

  class TaskCard {
    var task: Task
    var isEditing: bool
    var newTitle: string
    var newDescription: string

    /** Mounting: the drafts start as the task's own title and description. */
    constructor (task: Task)
      ensures this.task == task
      ensures !isEditing && newTitle == task.title && newDescription == task.description
    {
      this.task := task;
      isEditing := false;
      newTitle := task.title;
      newDescription := task.description;
    }

    /** A re-render with a fresh `task` prop for the same key (the same id): the
        drafts are state, so they keep what they held. */
    method ReceiveTask(t: Task)
      requires t.id == task.id
      modifies this`task
      ensures task == t
    {
      task := t;
    }

    /** `handleEditClick`, offered while viewing: enters editing, drafts untouched. */
    method EditClick()
      requires !isEditing
      modifies this`isEditing
      ensures isEditing
    {
      isEditing := true;
    }

    /** Typing into the title field while editing. */
    method TypeTitle(value: string)
      requires isEditing
      modifies this`newTitle
      ensures newTitle == value
    {
      newTitle := value;
    }

    /** Typing into the description field while editing. */
    method TypeDescription(value: string)
      requires isEditing
      modifies this`newDescription
      ensures newDescription == value
    {
      newDescription := value;
    }

    /** `handleSave`, offered while editing: reports the drafts for this card's id
        and leaves editing; the drafts stay as typed. */
    method Save() returns (e: CardEvent)
      requires isEditing
      modifies this`isEditing
      ensures e == EditSaved(task.id, newTitle, Some(newDescription))
      ensures !isEditing
    {
      e := EditSaved(task.id, newTitle, Some(newDescription));
      isEditing := false;
    }

    /** `handleCancel`, offered while editing: discards the drafts and leaves
        editing without reporting anything. */
    method Cancel()
      requires isEditing
      modifies this`newTitle, this`newDescription, this`isEditing
      ensures newTitle == task.title && newDescription == task.description
      ensures !isEditing
    {
      newTitle := task.title;
      newDescription := task.description;
      isEditing := false;
    }

    /** The star button. */
    method ClickStar() returns (e: CardEvent)
      ensures e == StarClicked(task.id)
    {
      e := StarClicked(task.id);
    }

    /** The completion button. */
    method ClickComplete() returns (e: CardEvent)
      ensures e == CompleteClicked(task.id)
    {
      e := CompleteClicked(task.id);
    }

    /** The delete button. */
    method ClickDelete() returns (e: CardEvent)
      ensures e == DeleteClicked(task.id)
    {
      e := DeleteClicked(task.id);
    }
  }
}
