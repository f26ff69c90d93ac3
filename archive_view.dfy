/**
 * The archive page's logic: the search filter over the archived tasks, the
 * lookup of the task whose dialog is open, and the count line. The archived
 * task list and the debounced search term are inputs.
 */
module ArchiveView {
  import opened Wrappers
  import opened Text
  import opened Schema

  /** `debouncedTerm.trim().length > 0`. */
  predicate IsSearchActive(term: string) {
    |Trim(term)| > 0
  }

  /** The text every search field is searched for: the trimmed term, lower-cased. */
  function Needle(term: string): string {
    ToLower(Trim(term))
  }

  /** `task.searchText.toLowerCase().includes(needle)`. */
  predicate MatchesNeedle(t: Task, needle: string) {
    Includes(ToLower(t.searchText), needle)
  }

  /** `r` is `s` with some elements left out and the rest in their original order. */
  predicate IsSubsequence<T(==)>(r: seq<T>, s: seq<T>)
    decreases |s|
  {
    if r == [] then true
    else if s == [] then false
    else (r[0] == s[0] && IsSubsequence(r[1..], s[1..])) || IsSubsequence(r, s[1..])
  }

  lemma {:induction false} SubsequenceReflexive<T>(s: seq<T>)
    ensures IsSubsequence(s, s)
  {
    if s != [] {
      SubsequenceReflexive(s[1..]);
    }
  }

  /**
   * `tasks.filter(t => MatchesNeedle(t, needle))`: keeps, in order and with
   * their multiplicity, exactly the tasks that match.
   */
  function KeepMatching(ts: seq<Task>, needle: string): (r: seq<Task>)
    ensures IsSubsequence(r, ts)
    ensures forall t :: multiset(r)[t] == if MatchesNeedle(t, needle) then multiset(ts)[t] else 0
  {
    if ts == [] then []
    else
      var rest := KeepMatching(ts[1..], needle);
      assert ts == [ts[0]] + ts[1..];
      if MatchesNeedle(ts[0], needle) then
        assert ([ts[0]] + rest)[1..] == rest;
        [ts[0]] + rest
      else
        rest
  }

  /** The `filtered` list: all archived tasks while no search is active, else the matching ones. */
  function Filtered(ts: seq<Task>, term: string): seq<Task> {
    if IsSearchActive(term) then KeepMatching(ts, Needle(term)) else ts
  }

  /** A search is active exactly when the term has a non-whitespace character. */
  lemma {:induction false} SearchActiveIffNotBlank(term: string)
    ensures IsSearchActive(term) <==> !AllSpace(term)
  {
    TrimEmptyIffAllSpace(term);
  }

  /**
   * The filter keeps the input order; with no active search it returns every
   * archived task (not none); with one it returns exactly the tasks whose
   * lower-cased search field contains the lower-cased trimmed term.
   */
  lemma {:induction false} FilteredMeaning(ts: seq<Task>, term: string)
    ensures IsSubsequence(Filtered(ts, term), ts)
    ensures !IsSearchActive(term) ==> Filtered(ts, term) == ts
    ensures IsSearchActive(term) ==> forall t ::
      t in Filtered(ts, term) <==> t in ts && Includes(ToLower(t.searchText), ToLower(Trim(term)))
  {
    SubsequenceReflexive(ts);
    if IsSearchActive(term) {
      forall t
        ensures t in Filtered(ts, term) <==> t in ts && Includes(ToLower(t.searchText), ToLower(Trim(term)))
      {
        assert t in Filtered(ts, term) <==> multiset(Filtered(ts, term))[t] > 0;
        assert t in ts <==> multiset(ts)[t] > 0;
      }
    }
  }

  /** Typing the term in another letter case gives the same result. */
  lemma {:induction false} FilterIgnoresCase(ts: seq<Task>, a: string, b: string)
    requires ToLower(a) == ToLower(b)
    ensures IsSearchActive(a) <==> IsSearchActive(b)
    ensures Filtered(ts, a) == Filtered(ts, b)
  {
    LowerAlikeSameSpaces(a, b);
    SearchActiveIffNotBlank(a);
    SearchActiveIffNotBlank(b);
    LowerTrimCommute(a);
    LowerTrimCommute(b);
  }

  /**
   * A task is found by its own title, typed in any letter case and with any
   * surrounding whitespace, as long as its search field is fresh (and, with
   * an inactive search, trivially, since then every task is shown).
   */
  lemma {:induction false} FoundByOwnTitle(ts: seq<Task>, t: Task, term: string)
    requires t in ts && SearchTextFresh(t)
    requires ToLower(Trim(term)) == ToLower(Trim(t.title))
    ensures t in Filtered(ts, term)
  {
    FilteredMeaning(ts, term);
    if IsSearchActive(term) {
      SearchTextHoldsTitleAndNotes(t.title, t.notes);
      LowerKeepsInfix(Trim(t.title), t.searchText);
      IncludesIsInfix(ToLower(t.searchText), Needle(term));
    }
  }

  /**
   * `tasks.find(t => t._id === selectedTaskId) ?? null`: the first task with the
   * selected id, or none when no id is selected or no task has it.
   */
  function SelectedTask(ts: seq<Task>, selected: Option<nat>): (r: Option<Task>)
    ensures r.Some? ==> selected == Some(r.value.id)
    ensures r.Some? ==> exists i :: 0 <= i < |ts| && ts[i] == r.value
                          && forall j :: 0 <= j < i ==> Some(ts[j].id) != selected
    ensures r.None? ==> forall i :: 0 <= i < |ts| ==> Some(ts[i].id) != selected
  {
    if ts == [] then None
    else if selected == Some(ts[0].id) then Some(ts[0])
    else
      var r := SelectedTask(ts[1..], selected);
      if r.Some? then
        var i :| 0 <= i < |ts[1..]| && ts[1..][i] == r.value
                 && forall j :: 0 <= j < i ==> Some(ts[1..][j].id) != selected;
        assert ts[i + 1] == r.value;
        assert forall j :: 0 <= j < i + 1 ==> Some(ts[j].id) != selected by {
          forall j | 0 <= j < i + 1 ensures Some(ts[j].id) != selected {
            if j > 0 { assert ts[j] == ts[1..][j - 1]; }
          }
        }
        r
      else
        r
  }

  /** The count line: "`n` archived task", with an "s" unless `n` is 1. */
  function CountLabel(n: nat): string {
    DecimalString(n) + " archived task" + (if n != 1 then "s" else "")
  }

  /** The count line shows the count itself and says "task" for one and "tasks" otherwise. */
  lemma {:induction false} CountLabelMeaning(n: nat)
    ensures var d, l := DecimalString(n), CountLabel(n);
      && |d| < |l| && l[..|d|] == d && DecimalValue(d) == n
      && (n == 1 ==> l == "1 archived task")
      && (n != 1 ==> |l| >= 5 && l[|l| - 5..] == "tasks")
  {
    var d, l := DecimalString(n), CountLabel(n);
    assert l[..|d|] == d;
    DecimalRoundTrip(n);
  }
}
