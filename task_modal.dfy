/**
 * The edit dialog: its form state, the effect that loads a task into the form,
 * and the save and delete handlers, which call the store's `update` and
 * `remove`. The dialog is closed (the caller's `onClose`) only after a
 * mutation that did not throw.
 */
module TaskModalForm {
  import opened Wrappers
  import opened Text
  import opened Schema
  import opened Tasks

  /** The dialog's four form fields. */
  datatype FormFields = FormFields(title: string, notes: string, cadence: Cadence, priority: Priority)

  /** The form the dialog shows for a task; absent notes show as an empty box. */
  function FormOf(t: Task): FormFields {
    FormFields(t.title, NotesOrEmpty(t.notes), t.cadence, t.priority)
  }

  /** `notes || undefined`: an empty notes box is sent as no notes at all. */
  function NotesArg(notes: string): Option<string> {
    if notes == "" then None else Some(notes)
  }

  /** The `update` call a save makes: none without a task or with a blank title. */
  function SaveArgs(task: Option<Task>, form: FormFields): Option<UpdateArgs> {
    if task.None? then None
    else
      var trimmedTitle := Trim(form.title);
      if trimmedTitle == "" then None
      else Some(UpdateArgs(task.value.id, Some(trimmedTitle), NotesArg(form.notes),
                           Some(form.cadence), Some(form.priority)))
  }

  class TaskModal {
    var title: string
    var notes: string
    var cadence: Cadence
    var priority: Priority

    function Form(): FormFields
      reads this
    {
      FormFields(title, notes, cadence, priority)
    }

    /** The initial form: empty title and notes, cadence `none`, priority `medium`. */
    constructor ()
      ensures Form() == FormFields("", "", NoCadence, Medium)
    {
      title, notes, cadence, priority := "", "", NoCadence, Medium;
    }

    /** The effect run when the `task` prop changes: a task is copied into the form; no task leaves it as it is. */
    method LoadForm(task: Option<Task>)
      modifies this
      ensures task.Some? ==> Form() == FormOf(task.value)
      ensures task.None? ==> Form() == old(Form())
    {
      if task.Some? {
        title := task.value.title;
        notes := NotesOrEmpty(task.value.notes);
        cadence := task.value.cadence;
        priority := task.value.priority;
      }
    }

    /**
     * `handleSave`: with no task or a blank title nothing is sent and the dialog
     * stays open; otherwise the store's `update` runs with the trimmed title and
     * the dialog closes unless it failed.
     */
    method HandleSave(task: Option<Task>, store: TaskStore, now: int) returns (closed: bool)
      requires store.Valid()
      modifies store
      ensures store.Valid() && store.nextId == old(store.nextId)
      ensures SaveArgs(task, Form()).None? ==> !closed && store.tasks == old(store.tasks)
      ensures SaveArgs(task, Form()).Some? ==>
        var args := SaveArgs(task, Form()).value;
        && (args.id in old(store.tasks) ==>
              closed && store.tasks == old(store.tasks)[args.id := Merged(old(store.tasks)[args.id], args, now)])
        && (args.id !in old(store.tasks) ==> !closed && store.tasks == old(store.tasks))
    {
      if task.None? {
        return false;
      }
      var trimmedTitle := Trim(title);
      if trimmedTitle == "" {
        return false;
      }
      var r := store.Update(UpdateArgs(task.value.id, Some(trimmedTitle), NotesArg(notes),
                                       Some(cadence), Some(priority)), now);
      closed := r.Success?;
    }

    /** `handleDelete`: with no task nothing happens; otherwise exactly that task's id is removed and the dialog closes. */
    method HandleDelete(task: Option<Task>, store: TaskStore) returns (closed: bool)
      requires store.Valid()
      modifies store
      ensures store.Valid() && store.nextId == old(store.nextId)
      ensures task.None? ==> !closed && store.tasks == old(store.tasks)
      ensures task.Some? ==> closed && store.tasks == old(store.tasks) - {task.value.id}
    {
      if task.None? {
        return false;
      }
      store.Remove(task.value.id);
      closed := true;
    }
  }

  /**
   * A save is sent exactly when a task is open and its title is not blank; it
   * carries the task's id, the trimmed (non-empty) title, the notes unless the
   * box is empty, and the current cadence and priority.
   */
  lemma {:induction false} SaveArgsMeaning(task: Option<Task>, form: FormFields)
    ensures SaveArgs(task, form).Some? <==> task.Some? && !AllSpace(form.title)
    ensures SaveArgs(task, form).Some? ==>
      var args := SaveArgs(task, form).value;
      && args.id == task.value.id
      && args.title == Some(Trim(form.title)) && IsTrimmed(Trim(form.title)) && Trim(form.title) != ""
      && (args.notes.None? <==> form.notes == "")
      && (args.notes.Some? ==> args.notes.value == form.notes)
      && args.cadence == Some(form.cadence) && args.priority == Some(form.priority)
  {
    TrimEmptyIffAllSpace(form.title);
    TrimSplit(form.title);
  }

  /**
   * Clearing the notes box does not clear the stored notes: the empty box is
   * sent as no notes, and `update` keeps what was stored.
   */
  lemma {:induction false} ClearedNotesKept(existing: Task, form: FormFields, now: int)
    requires form.notes == ""
    requires SaveArgs(Some(existing), form).Some?
    ensures Merged(existing, SaveArgs(Some(existing), form).value, now).notes == existing.notes
  {
  }

  /**
   * Opening a task whose title is already trimmed and saving without edits
   * changes nothing but its update time.
   */
  lemma {:induction false} SaveUnchangedForm(t: Task, now: int)
    requires SearchTextFresh(t)
    requires IsTrimmed(t.title) && t.title != ""
    ensures SaveArgs(Some(t), FormOf(t)).Some?
    ensures Merged(t, SaveArgs(Some(t), FormOf(t)).value, now) == t.(updatedAt := now)
  {
    TrimOfTrimmed(t.title);
    var args := SaveArgs(Some(t), FormOf(t)).value;
    assert args.notes.Some? ==> args.notes == t.notes;
  }
}
