/**
 * The board's cadence filter: three buttons and a toggle. The active filter
 * (`null` or a cadence) is held by the caller and replaced by what a click
 * reports.
 */
module CadenceFilter {
  import opened Wrappers
  import opened Schema

  datatype FilterButton = FilterButton(value: Cadence, caption: string)

  /** The buttons, in display order; `none` is not offered. */
  const CadenceFilters: seq<FilterButton> := [
    FilterButton(Daily, "Today"),
    FilterButton(Weekly, "This Week"),
    FilterButton(Monthly, "This Month")
  ]

  /** What clicking the button for `clicked` reports: `active === value ? null : value`. */
  function Toggle(active: Option<Cadence>, clicked: Cadence): Option<Cadence> {
    if active == Some(clicked) then None else Some(clicked)
  }

  /** Clicking button `i`. */
  function Click(active: Option<Cadence>, i: nat): Option<Cadence>
    requires i < |CadenceFilters|
  {
    Toggle(active, CadenceFilters[i].value)
  }

  /** The filter after the buttons `clicks` (by position) are clicked in turn. */
  function AfterClicks(active: Option<Cadence>, clicks: seq<nat>): Option<Cadence>
    requires forall k :: 0 <= k < |clicks| ==> clicks[k] < |CadenceFilters|
    decreases |clicks|
  {
    if clicks == [] then active else AfterClicks(Click(active, clicks[0]), clicks[1..])
  }

  /** A filter value a button offers. */
  predicate Offered(c: Cadence) {
    exists i :: 0 <= i < |CadenceFilters| && CadenceFilters[i].value == c
  }

  /** The states the filter can be in: off, or one of the offered cadences. */
  predicate InDomain(active: Option<Cadence>) {
    active.None? || Offered(active.value)
  }

  /** The offered values are daily, weekly and monthly, in that order, and never `none`. */
  lemma {:induction false} OfferedValues()
    ensures |CadenceFilters| == 3
    ensures CadenceFilters[0].value == Daily && CadenceFilters[1].value == Weekly
         && CadenceFilters[2].value == Monthly
    ensures forall c :: Offered(c) <==> c != NoCadence
  {
    assert Offered(Daily) by { assert CadenceFilters[0].value == Daily; }
    assert Offered(Weekly) by { assert CadenceFilters[1].value == Weekly; }
    assert Offered(Monthly) by { assert CadenceFilters[2].value == Monthly; }
  }

  /** Clicking the active filter turns filtering off. */
  lemma {:induction false} ClickActiveClears(v: Cadence)
    ensures Toggle(Some(v), v) == None
  {
  }

  /** Clicking any other filter makes it the active one. */
  lemma {:induction false} ClickInactiveSets(active: Option<Cadence>, v: Cadence)
    requires active != Some(v)
    ensures Toggle(active, v) == Some(v)
  {
  }

  /** From off, or from `v` itself, clicking `v` twice returns to the start. */
  lemma {:induction false} DoubleClickRestores(active: Option<Cadence>, v: Cadence)
    requires active.None? || active == Some(v)
    ensures Toggle(Toggle(active, v), v) == active
  {
  }

  /** Starting in the domain, any sequence of clicks stays in it: never `none`, never anything unoffered. */
  lemma {:induction false} ClicksStayInDomain(active: Option<Cadence>, clicks: seq<nat>)
    requires InDomain(active)
    requires forall k :: 0 <= k < |clicks| ==> clicks[k] < |CadenceFilters|
    ensures InDomain(AfterClicks(active, clicks))
    ensures AfterClicks(active, clicks) != Some(NoCadence)
    decreases |clicks|
  {
    OfferedValues();
    if clicks != [] {
      var next := Click(active, clicks[0]);
      assert InDomain(next);
      ClicksStayInDomain(next, clicks[1..]);
    }
  }

  /** `aria-pressed` of each button, in display order. */
  function AriaPressed(active: Option<Cadence>): (pressed: seq<bool>)
    ensures |pressed| == |CadenceFilters|
  {
    seq(|CadenceFilters|, i requires 0 <= i < |CadenceFilters| => active == Some(CadenceFilters[i].value))
  }

  /** At most one button is pressed: the one whose value is the active filter, and none when filtering is off. */
  lemma {:induction false} AtMostOnePressed(active: Option<Cadence>)
    ensures forall i, j :: 0 <= i < j < |CadenceFilters| ==> !(AriaPressed(active)[i] && AriaPressed(active)[j])
    ensures forall i :: 0 <= i < |CadenceFilters| ==>
      (AriaPressed(active)[i] <==> active == Some(CadenceFilters[i].value))
    ensures active.None? ==> forall i :: 0 <= i < |CadenceFilters| ==> !AriaPressed(active)[i]
  {
    OfferedValues();
  }
}
