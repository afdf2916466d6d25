/**
 * The values the employee-profile collector works on: what the browser shows of one
 * list item, one page snapshot (the visible list plus the height seen after a scroll),
 * and the record produced for one profile.
 */
module ScraperTypes {

  datatype Option<T> = None | Some(value: T)

  /** A profile URL, the key records are deduplicated on. */
  type Url = string

  /** The fallback text of a name or role whose element is missing. */
  const NotAvailable: string := "N/A"

  /**
   * The outcome of looking up the name or the role element inside a list item:
   * its raw (unstripped) text, a NoSuchElementException, or any other exception
   * (for instance a stale element), which aborts the processing of that item.
   */
  datatype Lookup = Found(text: string) | Absent | Raises

  /**
   * One visible list item. `link` is the href of its profile link, or None when the
   * item has no profile link or reading it raised; both skip the item in the same way.
   */
  datatype Item = Item(link: Option<Url>, name: Lookup, role: Lookup)

  /**
   * What one pass of the collector observes. `listing` is None when the wait for the
   * list items timed out; `heightAfterScroll` is the document height read after the
   * scroll of this pass, or None when the scroll or the height read raised.
   */
  datatype Snapshot = Snapshot(listing: Option<seq<Item>>, heightAfterScroll: Option<int>)

  /** One scraped profile: the row of the exported table. */
  datatype EmployeeRecord = EmployeeRecord(name: string, role: string, url: Url)

  /** The transient state of one scrape: the records so far and the URLs already seen. */
  datatype Session = Session(records: seq<EmployeeRecord>, seen: set<Url>)

  /** Why the collecting loop ended. */
  datatype StopReason =
    | TargetReached       // as many records as requested
    | HeightUnchanged     // the page did not grow after a scroll
    | ListNotFound        // page-level error: no list item appeared within the wait
    | ScrollFailed        // page-level error: the scroll or the height read raised
    | SnapshotsExhausted  // the modelled browser has no further snapshot to offer

  /** The end state of a scrape and the number of scrolls it attempted. */
  datatype Outcome = Outcome(final: Session, stop: StopReason, scrolls: nat)
}
