/**
 * The server's task table and its four handlers: `list`, `create`, `update`
 * and `remove`. The database's clock is the `now` parameter and document ids
 * come from a counter, so an id is never handed out twice.
 */
module Tasks {
  import opened Wrappers
  import opened Text
  import opened Schema

  /** The arguments `create` accepts. */
  datatype CreateArgs = CreateArgs(title: string, notes: Option<string>, cadence: Cadence, priority: Priority)

  /** The arguments `update` accepts: the id and each field optionally. */
  datatype UpdateArgs = UpdateArgs(
    id: nat,
    title: Option<string>,
    notes: Option<string>,
    cadence: Option<Cadence>,
    priority: Option<Priority>)

  /** `update`'s `Task <id> not found` error. */
  datatype StoreError = NotFound(id: nat)

  /**
   * The record `update` hands to the database's patch: the two fields it always
   * writes, and the four it writes only when they were supplied.
   */
  datatype Patch = Patch(
    searchText: string,
    updatedAt: int,
    title: Option<string>,
    notes: Option<string>,
    cadence: Option<Cadence>,
    priority: Option<Priority>)

  /** The document `create` inserts under `id` at time `now`. */
  function NewTask(id: nat, args: CreateArgs, now: int): Task {
    Task(id, args.title, args.notes, Inbox, args.cadence, args.priority,
         now, now, None, None, SearchTextOf(args.title, args.notes))
  }

  /**
   * What `update` means for the stored task: each supplied field replaces the
   * stored one (`args.x ?? existing.x`), the search field is recomputed from the
   * result and the update time is `now`; nothing else changes.
   */
  function Merged(existing: Task, args: UpdateArgs, now: int): Task {
    var title := args.title.GetOr(existing.title);
    var notes := if args.notes.Some? then args.notes else existing.notes;
    existing.(
      title := title,
      notes := notes,
      cadence := args.cadence.GetOr(existing.cadence),
      priority := args.priority.GetOr(existing.priority),
      searchText := SearchTextOf(title, notes),
      updatedAt := now)
  }

  /** The database's patch: every field present in `p` overwrites the document's. */
  function Patched(t: Task, p: Patch): Task {
    t.(
      searchText := p.searchText,
      updatedAt := p.updatedAt,
      title := p.title.GetOr(t.title),
      notes := if p.notes.Some? then p.notes else t.notes,
      cadence := p.cadence.GetOr(t.cadence),
      priority := p.priority.GetOr(t.priority))
  }

  /** The tasks of `m` with ids below `bound`, in id (that is, creation) order. */
  function InIdOrder(m: map<nat, Task>, bound: nat): (r: seq<Task>)
    requires forall id :: id in m ==> m[id].id == id
    ensures forall i :: 0 <= i < |r| ==> r[i].id < bound && r[i].id in m && m[r[i].id] == r[i]
    ensures forall id :: id in m && id < bound ==> m[id] in r
    ensures forall i, j :: 0 <= i < j < |r| ==> r[i].id < r[j].id
  {
    if bound == 0 then []
    else
      var r := InIdOrder(m, bound - 1);
      if bound - 1 in m then
        var r' := r + [m[bound - 1]];
        assert forall i :: 0 <= i < |r| ==> r'[i] == r[i];
        assert r'[|r|] == m[bound - 1];
        r'
      else r
  }

  /**
   * Every task of the table sits under its own id, below the next id to hand
   * out, and carries a search field that matches its title and notes.
   */
  ghost predicate WellFormed(m: map<nat, Task>, nextId: nat) {
    forall id :: id in m ==> id < nextId && m[id].id == id && SearchTextFresh(m[id])
  }

  ghost predicate TimesOrderedIn(m: map<nat, Task>) {
    forall id :: id in m ==> m[id].createdAt <= m[id].updatedAt
  }

  ghost predicate ClockNotBeforeIn(m: map<nat, Task>, now: int) {
    forall id :: id in m ==> m[id].updatedAt <= now
  }

  /** Writing one well-formed task, stamped `now`, keeps the table's invariants. */
  lemma {:induction false} WriteKeepsInvariants(m: map<nat, Task>, nextId: nat, id: nat, t: Task, now: int)
    requires WellFormed(m, nextId)
    requires id <= nextId && t.id == id && SearchTextFresh(t)
    requires t.updatedAt == now
    ensures WellFormed(m[id := t], if id == nextId then nextId + 1 else nextId)
    ensures TimesOrderedIn(m) && t.createdAt <= t.updatedAt ==> TimesOrderedIn(m[id := t])
    ensures ClockNotBeforeIn(m, now) ==> ClockNotBeforeIn(m[id := t], now)
  {
  }

  class TaskStore {
    /** The table, keyed by document id. */
    var tasks: map<nat, Task>
    /** The id the next `create` hands out. */
    var nextId: nat

    /**
     * Every stored task sits under its own id, below the next id to hand out,
     * and carries a search field that matches its title and notes.
     */
    ghost predicate Valid()
      reads this
    {
      WellFormed(tasks, nextId)
    }

    /** Every task was last updated no earlier than it was created. */
    ghost predicate TimesOrdered()
      reads this
    {
      TimesOrderedIn(tasks)
    }

    /** The clock reads `now` or later than every stored update time. */
    ghost predicate ClockNotBefore(now: int)
      reads this
    {
      ClockNotBeforeIn(tasks, now)
    }

    constructor ()
      ensures Valid() && tasks == map[] && nextId == 0
    {
      tasks := map[];
      nextId := 0;
    }

    /** `list`: every task, each once, in creation order. */
    method List() returns (r: seq<Task>)
      requires Valid()
      ensures forall i :: 0 <= i < |r| ==> r[i].id in tasks && tasks[r[i].id] == r[i]
      ensures forall id :: id in tasks ==> tasks[id] in r
      ensures forall i, j :: 0 <= i < j < |r| ==> r[i].id < r[j].id
    {
      r := InIdOrder(tasks, nextId);
    }

    /**
     * `create`: inserts the task under a fresh id, in the `inbox` column, stamped
     * `now`, with its fields exactly as given; other tasks are untouched.
     */
    method Create(args: CreateArgs, now: int) returns (id: nat)
      requires Valid()
      modifies this
      ensures Valid()
      ensures id == old(nextId) && id !in old(tasks) && nextId == old(nextId) + 1
      ensures tasks == old(tasks)[id := NewTask(id, args, now)]
      ensures old(TimesOrdered()) ==> TimesOrdered()
      ensures old(ClockNotBefore(now)) ==> ClockNotBefore(now)
    {
      id := nextId;
      WriteKeepsInvariants(tasks, nextId, id, NewTask(id, args, now), now);
      tasks := tasks[id := NewTask(id, args, now)];
      nextId := nextId + 1;
    }

    /**
     * `update`: fails, changing nothing, when the id is absent; otherwise the
     * stored task becomes `Merged(existing, args, now)`.
     */
    method Update(args: UpdateArgs, now: int) returns (r: Result<(), StoreError>)
      requires Valid()
      modifies this
      ensures Valid() && nextId == old(nextId)
      ensures args.id !in old(tasks) ==> r == Failure(NotFound(args.id)) && tasks == old(tasks)
      ensures args.id in old(tasks) ==>
        r.Success? && tasks == old(tasks)[args.id := Merged(old(tasks)[args.id], args, now)]
      ensures old(TimesOrdered()) && old(ClockNotBefore(now)) ==> TimesOrdered() && ClockNotBefore(now)
    {
      if args.id !in tasks {
        return Failure(NotFound(args.id));
      }
      var existing := tasks[args.id];
      var title := args.title.GetOr(existing.title);
      var notes := if args.notes.Some? then args.notes else existing.notes;
      var searchText := SearchTextOf(title, notes);

      var updates := Patch(searchText, now, None, None, None, None);
      if args.title.Some? { updates := updates.(title := args.title); }
      assert updates.title == args.title;
      if args.notes.Some? { updates := updates.(notes := args.notes); }
      assert updates.notes == args.notes;
      if args.cadence.Some? { updates := updates.(cadence := args.cadence); }
      assert updates.cadence == args.cadence;
      if args.priority.Some? { updates := updates.(priority := args.priority); }
      assert updates == Patch(searchText, now, args.title, args.notes, args.cadence, args.priority);

      var patched := Patched(existing, updates);
      assert patched == Merged(existing, args, now);
      MergedFields(existing, args, now);
      WriteKeepsInvariants(tasks, nextId, args.id, patched, now);
      tasks := tasks[args.id := patched];
      return Success(());
    }

    /** `remove`: the task with this id is gone; every other task is untouched. */
    method Remove(id: nat)
      requires Valid()
      modifies this
      ensures Valid() && nextId == old(nextId)
      ensures tasks == old(tasks) - {id}
      ensures old(TimesOrdered()) ==> TimesOrdered()
    {
      tasks := tasks - {id};
    }
  }

  /** A created task is in the inbox, stamped once, and carries its fields verbatim and a fresh search field. */
  lemma {:induction false} NewTaskShape(id: nat, args: CreateArgs, now: int)
    ensures var t := NewTask(id, args, now);
      && t.id == id && t.column == Inbox
      && t.createdAt == now && t.updatedAt == now
      && t.completedAt.None? && t.archivedAt.None?
      && t.title == args.title && t.notes == args.notes
      && t.cadence == args.cadence && t.priority == args.priority
      && SearchTextFresh(t)
  {
  }

  /** Every task `create` writes lies outside the schema's column union. */
  lemma {:induction false} NewTaskOutsideSchema(id: nat, args: CreateArgs, now: int)
    ensures !ConformsToSchema(NewTask(id, args, now))
    ensures ColumnLiteral(NewTask(id, args, now).column) == "inbox"
    ensures ParseSchemaColumn(ColumnLiteral(NewTask(id, args, now).column)).None?
  {
    SchemaColumnRoundTrip(Inbox);
  }

  /**
   * `update` merges: a supplied field replaces the stored value, an omitted one
   * keeps it; the id, column, creation, completion and archive times never change;
   * the search field is recomputed and the update time is `now`.
   */
  lemma {:induction false} MergedFields(existing: Task, args: UpdateArgs, now: int)
    ensures var t := Merged(existing, args, now);
      && t.id == existing.id && t.column == existing.column
      && t.createdAt == existing.createdAt
      && t.completedAt == existing.completedAt && t.archivedAt == existing.archivedAt
      && (args.title.Some? ==> t.title == args.title.value)
      && (args.title.None? ==> t.title == existing.title)
      && (args.notes.Some? ==> t.notes == args.notes)
      && (args.notes.None? ==> t.notes == existing.notes)
      && (args.cadence.Some? ==> t.cadence == args.cadence.value)
      && (args.cadence.None? ==> t.cadence == existing.cadence)
      && (args.priority.Some? ==> t.priority == args.priority.value)
      && (args.priority.None? ==> t.priority == existing.priority)
      && t.updatedAt == now
      && SearchTextFresh(t)
  {
  }

  /**
   * The server checks no title: an explicit empty title is not nullish, so it
   * replaces the stored one, and the search field then holds only the notes.
   */
  lemma {:induction false} UpdateAcceptsEmptyTitle(existing: Task, args: UpdateArgs, now: int)
    requires args.title == Some("")
    ensures Merged(existing, args, now).title == ""
    ensures Merged(existing, args, now).searchText == Trim(NotesOrEmpty(Merged(existing, args, now).notes))
  {
    var t := Merged(existing, args, now);
    var n := NotesOrEmpty(t.notes);
    assert "" + " " + n == " " + n;
    TrimLeadingSpace(" ", n);
  }

  /** With a clock that does not run backwards, an updated task is never updated before it was created. */
  lemma {:induction false} MergedKeepsTimesOrdered(existing: Task, args: UpdateArgs, now: int)
    requires existing.createdAt <= existing.updatedAt <= now
    ensures Merged(existing, args, now).createdAt <= Merged(existing, args, now).updatedAt
  {
  }
}
