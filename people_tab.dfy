/**
 * Opening the People tab of a company page: several XPath locators are tried in
 * order, each with its own bounded wait for a clickable element; the first element
 * found is clicked, and the section is open once the URL shows the people section.
 *
 * The browser is an input: `probe(i)` gives what the wait started for the locator at
 * index `i` ends with; each locator gets a wait of its own, so two locators with the
 * same text may end differently.
 */
module PeopleTab {
  import opened ScraperTypes

  /** The locators tried for the People tab, in order. */
  const PeopleTabXPaths: seq<string> := [
    "//a[contains(@href, '/people/')]",
    "//a[contains(text(), 'People') and contains(@href, '/people/')]",
    "//a[span[contains(text(),'People')]]"
  ]

  /**
   * How the wait for a clickable element under one locator ends: with the element,
   * with a TimeoutException (try the next locator), or with any other exception
   * (which ends the lookup).
   */
  datatype Probe<E> = Clickable(element: E) | TimedOut | Raised

  /** The result of the lookup: the first element found and its locator's index, none, or an exception. */
  datatype TabLookup<E> = Located(index: nat, tab: E) | NotFound | Aborted(index: nat)

  /** The lookup over the locators from index `i` on. */
  function FirstClickableFrom<E>(xpaths: seq<string>, probe: nat -> Probe<E>, i: nat): (r: TabLookup<E>)
    requires i <= |xpaths|
    ensures r.Located? ==> i <= r.index < |xpaths| && probe(r.index) == Clickable(r.tab)
    ensures r.Aborted? ==> i <= r.index < |xpaths| && probe(r.index).Raised?
    decreases |xpaths| - i
  {
    if i == |xpaths| then NotFound
    else
      match probe(i)
      case Clickable(e) => Located(i, e)
      case TimedOut => FirstClickableFrom(xpaths, probe, i + 1)
      case Raised => Aborted(i)
  }

  function FirstClickable<E>(xpaths: seq<string>, probe: nat -> Probe<E>): (r: TabLookup<E>)
    ensures r.Located? ==> r.index < |xpaths| && probe(r.index) == Clickable(r.tab)
    ensures r.Aborted? ==> r.index < |xpaths| && probe(r.index).Raised?
  {
    FirstClickableFrom(xpaths, probe, 0)
  }

  /** Every locator before index `n` timed out. */
  ghost predicate AllTimedOut<E>(xpaths: seq<string>, probe: nat -> Probe<E>, n: nat)
    requires n <= |xpaths|
  {
    forall j :: 0 <= j < n ==> probe(j).TimedOut?
  }

  lemma {:induction false} FirstClickableFromCharacterized<E>(xpaths: seq<string>, probe: nat -> Probe<E>, i: nat)
    requires i <= |xpaths|
    ensures var r := FirstClickableFrom(xpaths, probe, i);
      && (r.NotFound? <==> forall j :: i <= j < |xpaths| ==> probe(j).TimedOut?)
      && (r.Located? ==>
            && i <= r.index < |xpaths| && probe(r.index) == Clickable(r.tab)
            && forall j :: i <= j < r.index ==> probe(j).TimedOut?)
      && (r.Aborted? ==>
            && i <= r.index < |xpaths| && probe(r.index).Raised?
            && forall j :: i <= j < r.index ==> probe(j).TimedOut?)
    decreases |xpaths| - i
  {
    if i < |xpaths| && probe(i).TimedOut? {
      FirstClickableFromCharacterized(xpaths, probe, i + 1);
    }
  }

  /**
   * The lookup yields the element of locator `k` exactly when locator `k` found a
   * clickable element and every earlier locator timed out.
   */
  lemma FoundIsFirstClickable<E>(xpaths: seq<string>, probe: nat -> Probe<E>, k: nat, e: E)
    requires k < |xpaths|
    ensures FirstClickable(xpaths, probe) == Located(k, e) <==>
      probe(k) == Clickable(e) && AllTimedOut(xpaths, probe, k)
  {
    FirstClickableFromCharacterized(xpaths, probe, 0);
  }

  /** The tab is reported missing exactly when every locator timed out. */
  lemma NotFoundIffAllTimedOut<E>(xpaths: seq<string>, probe: nat -> Probe<E>)
    ensures FirstClickable(xpaths, probe).NotFound? <==> AllTimedOut(xpaths, probe, |xpaths|)
  {
    FirstClickableFromCharacterized(xpaths, probe, 0);
  }

  /**
   * The `for` loop over the locators: a timeout moves on to the next one, an element
   * ends the loop, any other exception ends the lookup.
   */
  method FindPeopleTab<E>(xpaths: seq<string>, probe: nat -> Probe<E>) returns (r: TabLookup<E>)
    ensures r == FirstClickable(xpaths, probe)
  {
    for i := 0 to |xpaths|
      invariant FirstClickableFrom(xpaths, probe, i) == FirstClickable(xpaths, probe)
    {
      match probe(i) {
        case Clickable(e) =>
          return Located(i, e);
        case TimedOut =>
          continue;
        case Raised =>
          return Aborted(i);
      }
    }
    return NotFound;
  }

  /**
   * `open_people_section`: succeeds when a locator found the tab and, after the click,
   * the URL came to show the people section (`reachedPeopleUrl`). It returns the
   * element it clicked, if any.
   */
  method OpenPeopleSection<E>(probe: nat -> Probe<E>, reachedPeopleUrl: bool)
    returns (success: bool, clicked: Option<E>)
    ensures var r := FirstClickable(PeopleTabXPaths, probe);
      && (clicked == if r.Located? then Some(r.tab) else None)
      && (success <==> r.Located? && reachedPeopleUrl)
  {
    var lookup := FindPeopleTab(PeopleTabXPaths, probe);
    if !lookup.Located? {
      return false, None;
    }
    clicked := Some(lookup.tab);
    success := reachedPeopleUrl;
  }
}
