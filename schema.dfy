/**
 * The `tasks` table: the task record, the value domains of its enumerated
 * fields, and the derived search field.
 */
module Schema {
  import opened Wrappers
  import opened Text

  /**
   * Every column a task can be in anywhere in the program: the schema's five,
   * plus `inbox` (written by `create`) and `blocked` (shown on the board).
   */
  datatype Column = Inbox | Backlog | InProgress | NeedsInfo | Blocked | Done | Archived

  datatype Cadence = Daily | Weekly | Monthly | NoCadence

  datatype Priority = Low | Medium | High

  /**
   * A stored task document. `id` is the document id; `notes`, `completedAt`
   * and `archivedAt` are optional, every other field is required.
   * Timestamps are milliseconds since the epoch.
   */
  datatype Task = Task(
    id: nat,
    title: string,
    notes: Option<string>,
    column: Column,
    cadence: Cadence,
    priority: Priority,
    createdAt: int,
    updatedAt: int,
    completedAt: Option<int>,
    archivedAt: Option<int>,
    searchText: string)

  /** The string literal that stands for a column. */
  function ColumnLiteral(c: Column): string {
    match c
    case Inbox => "inbox"
    case Backlog => "backlog"
    case InProgress => "in_progress"
    case NeedsInfo => "needs_info"
    case Blocked => "blocked"
    case Done => "done"
    case Archived => "archived"
  }

  /** The columns the schema's `column` union admits. */
  predicate SchemaColumn(c: Column) {
    c in {Backlog, InProgress, NeedsInfo, Done, Archived}
  }

  /** The schema's validator for `column`: accepts exactly its five literals. */
  function ParseSchemaColumn(s: string): Option<Column> {
    if s == "backlog" then Some(Backlog)
    else if s == "in_progress" then Some(InProgress)
    else if s == "needs_info" then Some(NeedsInfo)
    else if s == "done" then Some(Done)
    else if s == "archived" then Some(Archived)
    else None
  }

  /** The column literals the schema accepts are exactly the five. */
  lemma {:induction false} SchemaColumnDomain(s: string)
    ensures ParseSchemaColumn(s).Some? <==> s in ["backlog", "in_progress", "needs_info", "done", "archived"]
    ensures ParseSchemaColumn(s).Some? ==> ColumnLiteral(ParseSchemaColumn(s).value) == s
  {
  }

  /** A column passes the validator exactly when it is one of the schema's columns. */
  lemma {:induction false} SchemaColumnRoundTrip(c: Column)
    ensures ParseSchemaColumn(ColumnLiteral(c)) == if SchemaColumn(c) then Some(c) else None
  {
    match c
    case Inbox =>
    case Blocked =>
    case _ =>
  }

  /** The columns of the board (src/components/Board.tsx), in display order. */
  const BoardColumns: seq<Column> := [Inbox, Backlog, InProgress, NeedsInfo, Blocked, Done]

  /**
   * The board, the schema and `create` disagree: `inbox` and `blocked` are board
   * columns the schema rejects, and `archived` is a schema column the board lacks.
   */
  lemma {:induction false} ColumnMismatch()
    ensures Inbox in BoardColumns && !SchemaColumn(Inbox)
    ensures Blocked in BoardColumns && !SchemaColumn(Blocked)
    ensures Archived !in BoardColumns && SchemaColumn(Archived)
    ensures forall c :: SchemaColumn(c) <==> c == Archived || (c in BoardColumns && c != Inbox && c != Blocked)
  {
  }

  function CadenceLiteral(c: Cadence): string {
    match c
    case Daily => "daily"
    case Weekly => "weekly"
    case Monthly => "monthly"
    case NoCadence => "none"
  }

  /** The validator for `cadence`. */
  function ParseCadence(s: string): Option<Cadence> {
    if s == "daily" then Some(Daily)
    else if s == "weekly" then Some(Weekly)
    else if s == "monthly" then Some(Monthly)
    else if s == "none" then Some(NoCadence)
    else None
  }

  /** `cadence` ranges over exactly daily, weekly, monthly and none. */
  lemma {:induction false} CadenceDomain(s: string, c: Cadence)
    ensures ParseCadence(s).Some? <==> s in ["daily", "weekly", "monthly", "none"]
    ensures ParseCadence(s) == Some(c) <==> s == CadenceLiteral(c)
  {
    match c
    case Daily =>
    case Weekly =>
    case Monthly =>
    case NoCadence =>
  }

  function PriorityLiteral(p: Priority): string {
    match p
    case Low => "low"
    case Medium => "medium"
    case High => "high"
  }

  /** The validator for `priority`. */
  function ParsePriority(s: string): Option<Priority> {
    if s == "low" then Some(Low)
    else if s == "medium" then Some(Medium)
    else if s == "high" then Some(High)
    else None
  }

  /** `priority` ranges over exactly low, medium and high. */
  lemma {:induction false} PriorityDomain(s: string, p: Priority)
    ensures ParsePriority(s).Some? <==> s in ["low", "medium", "high"]
    ensures ParsePriority(s) == Some(p) <==> s == PriorityLiteral(p)
  {
    match p
    case Low =>
    case Medium =>
    case High =>
  }

  /** A stored document the schema admits: the field types are fixed by `Task`; only the column can stray. */
  predicate ConformsToSchema(t: Task) {
    SchemaColumn(t.column)
  }

  /** `notes ?? ""`. */
  function NotesOrEmpty(notes: Option<string>): string {
    notes.GetOr("")
  }

  /** The search field computed at write time: title and notes joined by a space, then trimmed. */
  function SearchTextOf(title: string, notes: Option<string>): string {
    Trim(title + " " + NotesOrEmpty(notes))
  }

  predicate SearchTextFresh(t: Task) {
    t.searchText == SearchTextOf(t.title, t.notes)
  }

  /** Whatever a part of `s` trims to occurs in the trimmed `s`. */
  lemma {:induction false} TrimmedPartSurvives(s: string, off: nat, x: string)
    requires off + |x| <= |s| && s[off..off + |x|] == x
    ensures IsInfix(Trim(x), Trim(s))
  {
    var tx := Trim(x);
    if tx == [] {
      EmptyIsInfix(Trim(s));
    } else {
      TrimSplit(x);
      InnerPartSurvives(s, off, x, LeadingSpaces(x), tx);
    }
  }

  /** A trimmed, non-empty stretch `w` of a part `x` of `s` survives trimming `s`. */
  lemma {:induction false} InnerPartSurvives(s: string, off: nat, x: string, p: nat, w: string)
    requires off + |x| <= |s| && s[off..off + |x|] == x
    requires p + |w| <= |x| && x[p..p + |w|] == w
    requires w != [] && IsTrimmed(w)
    ensures IsInfix(w, Trim(s))
  {
    SliceWithin(s, off, x, p, |w|);
    TrimKeepsInner(s, off + p, w);
  }

  /**
   * The search field holds the title and the notes: each, trimmed, occurs in it,
   * so searching for either finds the task.
   */
  lemma {:induction false} SearchTextHoldsTitleAndNotes(title: string, notes: Option<string>)
    ensures IsInfix(Trim(title), SearchTextOf(title, notes))
    ensures IsInfix(Trim(NotesOrEmpty(notes)), SearchTextOf(title, notes))
  {
    var n := NotesOrEmpty(notes);
    JoinedParts(title, ' ', n);
    TrimmedPartSurvives(title + " " + n, 0, title);
    TrimmedPartSurvives(title + " " + n, |title| + 1, n);
  }

  /** A trimmed title without notes is its own search field. */
  lemma {:induction false} SearchTextOfBareTitle(title: string)
    requires IsTrimmed(title)
    ensures SearchTextOf(title, None) == title
  {
    assert title + " " + NotesOrEmpty(None) == title + " ";
    TrimTrailingSpace(title, " ");
  }

  /** With a trimmed title and trimmed, non-empty notes the search field is exactly "title notes". */
  lemma {:induction false} SearchTextOfTrimmedParts(title: string, notes: string)
    requires IsTrimmed(title) && title != []
    requires IsTrimmed(notes) && notes != []
    ensures SearchTextOf(title, Some(notes)) == title + " " + notes
  {
    var s := title + " " + notes;
    assert s[0] == title[0] && s[|s| - 1] == notes[|notes| - 1];
    TrimOfTrimmed(s);
  }
}
