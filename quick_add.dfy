/**
 * The quick-add dialog: one title box, a submit handler that creates an
 * inbox task through the store's `create`, and a close handler.
 */
module QuickAddForm {
  import opened Wrappers
  import opened Text
  import opened Schema
  import opened Tasks

  /** The `create` call a submit makes: none for a blank title. */
  function QuickAddArgs(title: string): Option<CreateArgs> {
    var trimmedTitle := Trim(title);
    if trimmedTitle == "" then None else Some(CreateArgs(trimmedTitle, None, NoCadence, Medium))
  }

  class QuickAdd {
    /** The typed title. */
    var title: string

    constructor ()
      ensures title == ""
    {
      title := "";
    }

    /** `handleClose`: the typed title is discarded and the dialog closes. */
    method HandleClose() returns (closed: bool)
      modifies this
      ensures title == "" && closed
    {
      title := "";
      closed := true;
    }

    /**
     * `handleSubmit`: a blank title creates nothing and is left in the box;
     * otherwise one task is created from the trimmed title, the box is emptied
     * and the dialog closes.
     */
    method HandleSubmit(store: TaskStore, now: int) returns (created: Option<nat>, closed: bool)
      requires store.Valid()
      modifies this, store
      ensures store.Valid()
      ensures closed <==> created.Some?
      ensures QuickAddArgs(old(title)).None? ==>
        && created.None? && title == old(title)
        && store.tasks == old(store.tasks) && store.nextId == old(store.nextId)
      ensures QuickAddArgs(old(title)).Some? ==>
        && created == Some(old(store.nextId)) && title == ""
        && store.nextId == old(store.nextId) + 1
        && store.tasks == old(store.tasks)[old(store.nextId) :=
             NewTask(old(store.nextId), QuickAddArgs(old(title)).value, now)]
    {
      var trimmedTitle := Trim(title);
      if trimmedTitle == "" {
        return None, false;
      }
      var id := store.Create(CreateArgs(trimmedTitle, None, NoCadence, Medium), now);
      title := "";
      created, closed := Some(id), true;
    }
  }

  /**
   * A submit creates a task exactly when the title is not blank, and then with
   * the trimmed, non-empty title, no notes, cadence `none` and priority `medium`.
   */
  lemma {:induction false} QuickAddArgsMeaning(title: string)
    ensures QuickAddArgs(title).None? <==> AllSpace(title)
    ensures QuickAddArgs(title).Some? ==>
      var args := QuickAddArgs(title).value;
      && args.title == Trim(title) && IsTrimmed(args.title) && args.title != ""
      && args.notes.None? && args.cadence == NoCadence && args.priority == Medium
  {
    TrimEmptyIffAllSpace(title);
    TrimSplit(title);
  }

  /** A quick-added task's search field is its trimmed title. */
  lemma {:induction false} QuickAddSearchText(title: string, id: nat, now: int)
    requires QuickAddArgs(title).Some?
    ensures NewTask(id, QuickAddArgs(title).value, now).searchText == Trim(title)
  {
    TrimSplit(title);
    SearchTextOfBareTitle(Trim(title));
  }
}
