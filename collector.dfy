/**
 * The incremental collector: visit the visible list items, deduplicate them by profile
 * URL, scroll, and stop when the target is reached, when the page height stops
 * changing, or on a page-level error, keeping whatever was collected.
 *
 * The browser is an input: a finite sequence of snapshots, one per pass of the loop.
 * `Visit`, `Pass` and `Collect` specify one item, one pass and the whole loop;
 * `ScrapeEmployeeProfiles` is the loop itself, proved to compute `Scrape`.
 */
module Collector {
  import opened ScraperTypes
  import opened Text

  /** The text stored for a name or role lookup that did not raise. */
  function FieldText(l: Lookup): string
    requires !l.Raises?
  {
    match l
    case Found(t) => Strip(t)
    case Absent => NotAvailable
  }

  /** The record an item yields when its URL is new and neither lookup raises. */
  function RecordOf(item: Item, url: Url): EmployeeRecord
    requires !item.name.Raises? && !item.role.Raises?
  {
    EmployeeRecord(FieldText(item.name), FieldText(item.role), url)
  }

  /**
   * One item of the visible list. Without a profile link the item is skipped; a URL
   * already seen is skipped; otherwise the URL is marked seen first, and a record is
   * appended unless the name or role lookup raised.
   */
  function Visit(s: Session, item: Item): (r: Session)
    ensures s.records <= r.records && |r.records| <= |s.records| + 1
    ensures r.seen == if item.link.Some? then s.seen + {item.link.value} else s.seen
    ensures |r.records| > |s.records| ==>
      && item.link.Some? && item.link.value !in s.seen
      && !item.name.Raises? && !item.role.Raises?
      && r.records[|s.records|] == RecordOf(item, item.link.value)
  {
    match item.link
    case None => s
    case Some(url) =>
      if url in s.seen then s
      else if item.name.Raises? || item.role.Raises? then Session(s.records, s.seen + {url})
      else Session(s.records + [RecordOf(item, url)], s.seen + {url})
  }

  /**
   * One pass over the visible items, leaving the remaining items untouched as soon
   * as the session holds `maxProfiles` records.
   */
  function Pass(s: Session, items: seq<Item>, maxProfiles: int): (r: Session)
    ensures s.records <= r.records && s.seen <= r.seen
    ensures |s.records| <= maxProfiles ==> |r.records| <= maxProfiles
    ensures |r.records| <= |s.records| + |items|
    decreases |items|
  {
    if items == [] || |s.records| >= maxProfiles then s
    else Pass(Visit(s, items[0]), items[1..], maxProfiles)
  }

  /**
   * The whole loop from session `s`, the height `lastHeight` read before the
   * snapshots `pages`, and the target `maxProfiles`.
   */
  function Collect(s: Session, lastHeight: int, pages: seq<Snapshot>, maxProfiles: int): (o: Outcome)
    ensures s.records <= o.final.records && s.seen <= o.final.seen
    ensures |s.records| <= maxProfiles ==> |o.final.records| <= maxProfiles
    ensures o.scrolls <= |pages|
    decreases |pages|
  {
    if |s.records| >= maxProfiles then Outcome(s, TargetReached, 0)
    else if pages == [] then Outcome(s, SnapshotsExhausted, 0)
    else
      match pages[0].listing
      case None => Outcome(s, ListNotFound, 0)
      case Some(items) =>
        var t := Pass(s, items, maxProfiles);
        if |t.records| >= maxProfiles then Outcome(t, TargetReached, 0)
        else
          match pages[0].heightAfterScroll
          case None => Outcome(t, ScrollFailed, 1)
          case Some(h) =>
            if h == lastHeight then Outcome(t, HeightUnchanged, 1)
            else
              var o := Collect(t, h, pages[1..], maxProfiles);
              o.(scrolls := o.scrolls + 1)
  }

  /** A scrape from an empty session: never more records than requested. */
  function Scrape(pages: seq<Snapshot>, initialHeight: int, maxProfiles: int): (o: Outcome)
    ensures |o.final.records| <= if maxProfiles < 0 then 0 else maxProfiles
  {
    Collect(Session([], {}), initialHeight, pages, maxProfiles)
  }

  /** One step of `Collect` on a snapshot whose list items were found. */
  lemma CollectUnfold(s: Session, lastHeight: int, pages: seq<Snapshot>, maxProfiles: int)
    requires |s.records| < maxProfiles && pages != [] && pages[0].listing.Some?
    ensures var t := Pass(s, pages[0].listing.value, maxProfiles);
      Collect(s, lastHeight, pages, maxProfiles) ==
        if |t.records| >= maxProfiles then Outcome(t, TargetReached, 0)
        else if pages[0].heightAfterScroll.None? then Outcome(t, ScrollFailed, 1)
        else if pages[0].heightAfterScroll.value == lastHeight then Outcome(t, HeightUnchanged, 1)
        else
          var o := Collect(t, pages[0].heightAfterScroll.value, pages[1..], maxProfiles);
          o.(scrolls := o.scrolls + 1)
  {
  }

  /**
   * The inner `for` loop over the visible items: updates the records and the seen
   * URLs exactly as one `Pass` does.
   */
  method ScrapeVisibleProfiles(
    employeeData: seq<EmployeeRecord>, scrapedUrls: set<Url>, profiles: seq<Item>, maxProfiles: int)
    returns (records: seq<EmployeeRecord>, seen: set<Url>)
    ensures Session(records, seen) == Pass(Session(employeeData, scrapedUrls), profiles, maxProfiles)
  {
    records, seen := employeeData, scrapedUrls;
    for j := 0 to |profiles|
      invariant Pass(Session(records, seen), profiles[j..], maxProfiles) ==
        Pass(Session(employeeData, scrapedUrls), profiles, maxProfiles)
    {
      if |records| >= maxProfiles {
        break;
      }
      var item := profiles[j];
      assert Pass(Session(records, seen), profiles[j..], maxProfiles) ==
        Pass(Visit(Session(records, seen), item), profiles[j + 1..], maxProfiles);
      if item.link.None? {
        continue;
      }
      var profileUrl := item.link.value;
      if profileUrl in seen {
        continue;
      }
      seen := seen + {profileUrl};
      var name: string;
      match item.name {
        case Raises => continue;
        case Absent => name := NotAvailable;
        case Found(t) => name := Strip(t);
      }
      var role: string;
      match item.role {
        case Raises => continue;
        case Absent => role := NotAvailable;
        case Found(t) => role := Strip(t);
      }
      records := records + [EmployeeRecord(name, role, profileUrl)];
    }
  }

  /**
   * The collecting loop. It returns the records, and, as observable effects, why
   * it stopped (the error report or the silent break) and how many scrolls it attempted.
   */
  method ScrapeEmployeeProfiles(pages: seq<Snapshot>, initialHeight: int, maxProfiles: int)
    returns (employeeData: seq<EmployeeRecord>, stop: StopReason, scrolls: nat)
    ensures var o := Scrape(pages, initialHeight, maxProfiles);
      employeeData == o.final.records && stop == o.stop && scrolls == o.scrolls
  {
    employeeData := [];
    var scrapedUrls: set<Url> := {};
    var lastHeight := initialHeight;
    var k := 0;
    stop, scrolls := TargetReached, 0;
    ghost var goal := Scrape(pages, initialHeight, maxProfiles);
    while |employeeData| < maxProfiles
      invariant 0 <= k <= |pages| && scrolls == k
      invariant var o := Collect(Session(employeeData, scrapedUrls), lastHeight, pages[k..], maxProfiles);
        goal == o.(scrolls := o.scrolls + k)
      decreases |pages| - k
    {
      if k == |pages| {
        stop := SnapshotsExhausted;
        break;
      }
      var snapshot := pages[k];
      if snapshot.listing.None? {
        stop := ListNotFound;
        break;
      }
      CollectUnfold(Session(employeeData, scrapedUrls), lastHeight, pages[k..], maxProfiles);
      assert pages[k..][1..] == pages[k + 1..];
      employeeData, scrapedUrls :=
        ScrapeVisibleProfiles(employeeData, scrapedUrls, snapshot.listing.value, maxProfiles);
      if |employeeData| >= maxProfiles {
        stop := TargetReached;
        break;
      }
      scrolls := scrolls + 1;
      if snapshot.heightAfterScroll.None? {
        stop := ScrollFailed;
        break;
      }
      var newHeight := snapshot.heightAfterScroll.value;
      if newHeight == lastHeight {
        stop := HeightUnchanged;
        break;
      }
      lastHeight := newHeight;
      k := k + 1;
    }
  }
}
