/**
 * Properties of the collector's specification: URL uniqueness, the bound on the
 * number of records, when each stop reason happens, where records come from, and
 * that records are only ever appended.
 */
module CollectorProperties {
  import opened ScraperTypes
  import opened Collector

  /** No two records share a profile URL. */
  ghost predicate UniqueUrls(records: seq<EmployeeRecord>) {
    forall i, j :: 0 <= i < j < |records| ==> records[i].url != records[j].url
  }

  /** The session invariant: unique URLs, each of them marked seen. */
  ghost predicate Consistent(s: Session) {
    UniqueUrls(s.records) && forall i :: 0 <= i < |s.records| ==> s.records[i].url in s.seen
  }

  /** `r` is the record `item` yields. */
  ghost predicate FromItem(r: EmployeeRecord, item: Item) {
    && item.link == Some(r.url)
    && !item.name.Raises? && !item.role.Raises?
    && r.name == FieldText(item.name) && r.role == FieldText(item.role)
  }

  /** Every item of every snapshot whose list was found, in order. */
  ghost function VisibleItems(pages: seq<Snapshot>): seq<Item> {
    if pages == [] then []
    else (match pages[0].listing case None => [] case Some(items) => items) + VisibleItems(pages[1..])
  }

  /** The records a pass over `items` yields from an empty session with no target. */
  function Harvest(items: seq<Item>): seq<EmployeeRecord> {
    Pass(Session([], {}), items, |items|).records
  }

  lemma VisitKeepsConsistent(s: Session, item: Item)
    requires Consistent(s)
    ensures Consistent(Visit(s, item))
  {
  }

  lemma {:induction false} PassKeepsConsistent(s: Session, items: seq<Item>, maxProfiles: int)
    requires Consistent(s)
    ensures Consistent(Pass(s, items, maxProfiles))
    decreases |items|
  {
    if items != [] && |s.records| < maxProfiles {
      VisitKeepsConsistent(s, items[0]);
      PassKeepsConsistent(Visit(s, items[0]), items[1..], maxProfiles);
    }
  }

  lemma {:induction false} CollectKeepsConsistent(s: Session, lastHeight: int, pages: seq<Snapshot>, maxProfiles: int)
    requires Consistent(s)
    ensures Consistent(Collect(s, lastHeight, pages, maxProfiles).final)
    decreases |pages|
  {
    if |s.records| < maxProfiles && pages != [] && pages[0].listing.Some? {
      var t := Pass(s, pages[0].listing.value, maxProfiles);
      PassKeepsConsistent(s, pages[0].listing.value, maxProfiles);
      if |t.records| < maxProfiles && pages[0].heightAfterScroll.Some? &&
         pages[0].heightAfterScroll.value != lastHeight {
        CollectKeepsConsistent(t, pages[0].heightAfterScroll.value, pages[1..], maxProfiles);
      }
    }
  }

  /** No two scraped records share a URL, and every record's URL is in the seen set. */
  lemma ScrapeUrlsUnique(pages: seq<Snapshot>, initialHeight: int, maxProfiles: int)
    ensures var o := Scrape(pages, initialHeight, maxProfiles);
      && UniqueUrls(o.final.records)
      && forall i :: 0 <= i < |o.final.records| ==> o.final.records[i].url in o.final.seen
  {
    CollectKeepsConsistent(Session([], {}), initialHeight, pages, maxProfiles);
  }

  /**
   * A URL once marked seen never gets a record afterwards, not even when its
   * first visit produced none because a lookup raised.
   */
  lemma {:induction false} SeenUrlNeverRecordedAgain(s: Session, items: seq<Item>, maxProfiles: int, u: Url)
    requires u in s.seen
    ensures forall i :: |s.records| <= i < |Pass(s, items, maxProfiles).records| ==>
      Pass(s, items, maxProfiles).records[i].url != u
    decreases |items|
  {
    if items != [] && |s.records| < maxProfiles {
      var v := Visit(s, items[0]);
      assert u in v.seen;
      assert forall i :: |s.records| <= i < |v.records| ==> v.records[i].url != u;
      SeenUrlNeverRecordedAgain(v, items[1..], maxProfiles, u);
      var r := Pass(v, items[1..], maxProfiles).records;
      assert Pass(s, items, maxProfiles).records == r;
      assert v.records <= r;
      forall i | |s.records| <= i < |r|
        ensures r[i].url != u
      {
        if i < |v.records| {
          assert r[i] == v.records[i];
        }
      }
    }
  }

  /** The loop reports reaching the target exactly when it holds that many records. */
  lemma {:induction false} CollectStopsAtTargetIff(s: Session, lastHeight: int, pages: seq<Snapshot>, maxProfiles: int)
    ensures var o := Collect(s, lastHeight, pages, maxProfiles);
      o.stop == TargetReached <==> |o.final.records| >= maxProfiles
    decreases |pages|
  {
    if |s.records| < maxProfiles && pages != [] && pages[0].listing.Some? {
      var t := Pass(s, pages[0].listing.value, maxProfiles);
      if |t.records| < maxProfiles && pages[0].heightAfterScroll.Some? &&
         pages[0].heightAfterScroll.value != lastHeight {
        CollectStopsAtTargetIff(t, pages[0].heightAfterScroll.value, pages[1..], maxProfiles);
      }
    }
  }

  /**
   * A scrape ends by reaching the target exactly when it holds `maxProfiles` records;
   * every other ending (stable height, page error) keeps fewer, and is not an error.
   */
  lemma ScrapeStopReason(pages: seq<Snapshot>, initialHeight: int, maxProfiles: int)
    requires maxProfiles >= 0
    ensures var o := Scrape(pages, initialHeight, maxProfiles);
      && (o.stop == TargetReached <==> |o.final.records| == maxProfiles)
      && (o.stop != TargetReached ==> |o.final.records| < maxProfiles)
  {
    CollectStopsAtTargetIff(Session([], {}), initialHeight, pages, maxProfiles);
  }

  /** A pass over `a + b` is a pass over `a` followed by a pass over `b`. */
  lemma {:induction false} PassConcat(s: Session, a: seq<Item>, b: seq<Item>, maxProfiles: int)
    ensures Pass(s, a + b, maxProfiles) == Pass(Pass(s, a, maxProfiles), b, maxProfiles)
    decreases |a|
  {
    if a == [] {
      assert a + b == b;
    } else if |s.records| < maxProfiles {
      assert (a + b)[0] == a[0] && (a + b)[1..] == a[1..] + b;
      PassConcat(Visit(s, a[0]), a[1..], b, maxProfiles);
    } else {
      assert Pass(s, b, maxProfiles) == s;
    }
  }

  /** Every record a pass adds is the record of one of the items it visited. */
  lemma {:induction false} PassRecordsFromItems(s: Session, items: seq<Item>, maxProfiles: int)
    ensures forall r :: r in Pass(s, items, maxProfiles).records ==>
      r in s.records || exists it :: it in items && FromItem(r, it)
    decreases |items|
  {
    if items != [] && |s.records| < maxProfiles {
      var v := Visit(s, items[0]);
      PassRecordsFromItems(v, items[1..], maxProfiles);
      forall r | r in Pass(s, items, maxProfiles).records
        ensures r in s.records || exists it :: it in items && FromItem(r, it)
      {
        if r !in s.records {
          if r in v.records {
            assert FromItem(r, items[0]);
          } else {
            var it :| it in items[1..] && FromItem(r, it);
            assert it in items;
          }
        }
      }
    }
  }

  lemma {:induction false} CollectRecordsFromItems(s: Session, lastHeight: int, pages: seq<Snapshot>, maxProfiles: int)
    ensures forall r :: r in Collect(s, lastHeight, pages, maxProfiles).final.records ==>
      r in s.records || exists it :: it in VisibleItems(pages) && FromItem(r, it)
    decreases |pages|
  {
    if |s.records| < maxProfiles && pages != [] && pages[0].listing.Some? {
      var items := pages[0].listing.value;
      var t := Pass(s, items, maxProfiles);
      assert VisibleItems(pages) == items + VisibleItems(pages[1..]);
      PassRecordsFromItems(s, items, maxProfiles);
      if |t.records| < maxProfiles && pages[0].heightAfterScroll.Some? &&
         pages[0].heightAfterScroll.value != lastHeight {
        CollectRecordsFromItems(t, pages[0].heightAfterScroll.value, pages[1..], maxProfiles);
      }
    }
  }

  /**
   * Nothing is invented: every scraped record is the record of an item with a
   * profile link in some snapshot whose list was found, "N/A" standing for a
   * missing name or role.
   */
  lemma ScrapeRecordsFromItems(pages: seq<Snapshot>, initialHeight: int, maxProfiles: int)
    ensures forall r :: r in Scrape(pages, initialHeight, maxProfiles).final.records ==>
      exists it :: it in VisibleItems(pages) && FromItem(r, it)
  {
    CollectRecordsFromItems(Session([], {}), initialHeight, pages, maxProfiles);
  }

  /**
   * A smaller target only cuts the list short: a pass with target `m1` yields the
   * first `m1` records the same pass yields with a larger target `m2`.
   */
  lemma {:induction false} PassTruncates(s: Session, items: seq<Item>, m1: int, m2: int)
    requires |s.records| <= m1 <= m2
    ensures var big := Pass(s, items, m2).records;
      Pass(s, items, m1).records == if |big| <= m1 then big else big[..m1]
    decreases |items|
  {
    var big := Pass(s, items, m2).records;
    if items == [] {
    } else if |s.records| == m1 {
      assert s.records <= big;
      if |big| <= m1 {
        assert big == s.records;
      } else {
        assert big[..m1] == s.records;
      }
    } else {
      PassTruncates(Visit(s, items[0]), items[1..], m1, m2);
    }
  }

  /**
   * When the first snapshot alone offers at least `maxProfiles` new profiles, the
   * scrape keeps the first `maxProfiles` of them and ends without scrolling.
   */
  lemma FirstSnapshotSuffices(pages: seq<Snapshot>, initialHeight: int, maxProfiles: int)
    requires pages != [] && pages[0].listing.Some?
    requires 0 <= maxProfiles <= |Harvest(pages[0].listing.value)|
    ensures var o := Scrape(pages, initialHeight, maxProfiles);
      && o.stop == TargetReached && o.scrolls == 0
      && o.final.records == Harvest(pages[0].listing.value)[..maxProfiles]
  {
    var items := pages[0].listing.value;
    PassTruncates(Session([], {}), items, maxProfiles, |items|);
    if maxProfiles == 0 {
      assert Harvest(items)[..0] == [];
    }
  }

  /** Later snapshots never remove nor reorder records: they can only append. */
  lemma {:induction false} MoreSnapshotsExtend(s: Session, lastHeight: int, p: seq<Snapshot>, q: seq<Snapshot>, maxProfiles: int)
    ensures Collect(s, lastHeight, p, maxProfiles).final.records <= Collect(s, lastHeight, p + q, maxProfiles).final.records
    decreases |p|
  {
    if p == [] {
      assert p + q == q;
    } else if |s.records| < maxProfiles {
      assert (p + q)[0] == p[0] && (p + q)[1..] == p[1..] + q;
      if p[0].listing.Some? {
        var t := Pass(s, p[0].listing.value, maxProfiles);
        if |t.records| < maxProfiles && p[0].heightAfterScroll.Some? &&
           p[0].heightAfterScroll.value != lastHeight {
          MoreSnapshotsExtend(t, p[0].heightAfterScroll.value, p[1..], q, maxProfiles);
        }
      }
    }
  }

  /**
   * A page-level error keeps the partial results: when the list cannot be found in
   * the snapshot after `p`, the scrape returns exactly what `p` alone produced.
   */
  lemma {:induction false} ListErrorKeepsPartialResults(
    s: Session, lastHeight: int, p: seq<Snapshot>, bad: Snapshot, rest: seq<Snapshot>, maxProfiles: int)
    requires bad.listing.None?
    ensures var o := Collect(s, lastHeight, p, maxProfiles);
      Collect(s, lastHeight, p + [bad] + rest, maxProfiles) ==
        if o.stop == SnapshotsExhausted then o.(stop := ListNotFound) else o
    decreases |p|
  {
    var full := p + [bad] + rest;
    if p == [] {
      assert full[0] == bad;
    } else if |s.records| < maxProfiles {
      assert full[0] == p[0] && full[1..] == p[1..] + [bad] + rest;
      if p[0].listing.Some? {
        var t := Pass(s, p[0].listing.value, maxProfiles);
        if |t.records| < maxProfiles && p[0].heightAfterScroll.Some? &&
           p[0].heightAfterScroll.value != lastHeight {
          ListErrorKeepsPartialResults(t, p[0].heightAfterScroll.value, p[1..], bad, rest, maxProfiles);
        }
      }
    }
  }

  /** An item with a profile link whose name and role lookups do not raise. */
  ghost predicate Complete(item: Item) {
    item.link.Some? && !item.name.Raises? && !item.role.Raises?
  }

  /** The distinct profile URLs the items link to. */
  ghost function LinkedUrls(items: seq<Item>): set<Url> {
    if items == [] then {}
    else (match items[0].link case None => {} case Some(u) => {u}) + LinkedUrls(items[1..])
  }

  /** The height the loop last read before snapshot `j` (the initial one when none was). */
  ghost function HeightBefore(initialHeight: int, pages: seq<Snapshot>, j: nat): int
    requires j <= |pages|
  {
    if j == 0 then initialHeight
    else match pages[j - 1].heightAfterScroll
      case Some(v) => v
      case None => HeightBefore(initialHeight, pages, j - 1)
  }

  /** An item without a profile link changes nothing, wherever it appears in the list. */
  lemma PassSkipsUnlinked(s: Session, a: seq<Item>, item: Item, b: seq<Item>, maxProfiles: int)
    requires item.link.None?
    ensures Pass(s, a + [item] + b, maxProfiles) == Pass(s, a + b, maxProfiles)
  {
    assert a + [item] + b == a + ([item] + b);
    PassConcat(s, a, [item] + b, maxProfiles);
    PassConcat(s, a, b, maxProfiles);
    assert ([item] + b)[1..] == b;
  }

  /** An item whose URL was already seen changes nothing, wherever it appears in the list. */
  lemma PassSkipsSeenUrl(s: Session, a: seq<Item>, item: Item, b: seq<Item>, maxProfiles: int)
    requires item.link.Some? && item.link.value in Pass(s, a, maxProfiles).seen
    ensures Pass(s, a + [item] + b, maxProfiles) == Pass(s, a + b, maxProfiles)
  {
    assert a + [item] + b == a + ([item] + b);
    PassConcat(s, a, [item] + b, maxProfiles);
    PassConcat(s, a, b, maxProfiles);
    assert ([item] + b)[1..] == b;
  }

  /**
   * An item whose name or role lookup raises yields no record: no record added from
   * that item on carries its URL.
   */
  lemma PassRaisingLookupYieldsNoRecord(s: Session, a: seq<Item>, item: Item, b: seq<Item>, maxProfiles: int)
    requires item.link.Some? && (item.name.Raises? || item.role.Raises?)
    ensures forall i :: |Pass(s, a, maxProfiles).records| <= i < |Pass(s, a + [item] + b, maxProfiles).records| ==>
      Pass(s, a + [item] + b, maxProfiles).records[i].url != item.link.value
  {
    var t := Pass(s, a, maxProfiles);
    assert a + [item] + b == a + ([item] + b);
    PassConcat(s, a, [item] + b, maxProfiles);
    assert ([item] + b)[0] == item && ([item] + b)[1..] == b;
    if |t.records| < maxProfiles {
      var v := Visit(t, item);
      assert v.records == t.records;
      SeenUrlNeverRecordedAgain(v, b, maxProfiles, item.link.value);
    }
  }

  /**
   * An item met below the target, with a profile link not seen before and lookups
   * that do not raise, is recorded: its URL with its stripped name and role, or
   * "N/A" for a missing one.
   */
  lemma PassRecordsNewProfile(s: Session, items: seq<Item>, maxProfiles: int, i: nat)
    requires i < |items| && Complete(items[i])
    requires items[i].link.value !in Pass(s, items[..i], maxProfiles).seen
    requires |Pass(s, items[..i], maxProfiles).records| < maxProfiles
    ensures RecordOf(items[i], items[i].link.value) in Pass(s, items, maxProfiles).records
  {
    var t := Pass(s, items[..i], maxProfiles);
    assert items == items[..i] + items[i..];
    PassConcat(s, items[..i], items[i..], maxProfiles);
    assert items[i..][0] == items[i] && items[i..][1..] == items[i + 1..];
    var v := Visit(t, items[i]);
    assert v.records == t.records + [RecordOf(items[i], items[i].link.value)];
    assert v.records <= Pass(v, items[i + 1..], maxProfiles).records;
    assert v.records[|t.records|] == RecordOf(items[i], items[i].link.value);
  }

  /** A pass that ends below the target has seen the URL of every linked item. */
  lemma {:induction false} PassBelowTargetSeesAll(s: Session, items: seq<Item>, maxProfiles: int)
    requires |Pass(s, items, maxProfiles).records| < maxProfiles
    ensures forall it :: it in items && it.link.Some? ==> it.link.value in Pass(s, items, maxProfiles).seen
    decreases |items|
  {
    if items != [] {
      var v := Visit(s, items[0]);
      PassBelowTargetSeesAll(v, items[1..], maxProfiles);
      forall it | it in items && it.link.Some?
        ensures it.link.value in Pass(s, items, maxProfiles).seen
      {
        if it != items[0] {
          assert it in items[1..];
        }
      }
    }
  }

  lemma VisibleItemsPrefix(pages: seq<Snapshot>, k: nat)
    requires k < |pages| && pages[0].listing.Some?
    ensures VisibleItems(pages[..k + 1]) == pages[0].listing.value + VisibleItems(pages[1..][..k])
  {
    assert pages[..k + 1][0] == pages[0];
    assert pages[..k + 1][1..] == pages[1..][..k];
  }

  lemma {:induction false} CollectBelowTargetSeesAll(s: Session, lastHeight: int, pages: seq<Snapshot>, maxProfiles: int)
    ensures Collect(s, lastHeight, pages, maxProfiles).stop != TargetReached ==>
      forall it :: it in VisibleItems(pages[..Collect(s, lastHeight, pages, maxProfiles).scrolls]) && it.link.Some? ==>
        it.link.value in Collect(s, lastHeight, pages, maxProfiles).final.seen
    decreases |pages|
  {
    var o := Collect(s, lastHeight, pages, maxProfiles);
    if o.stop != TargetReached && o.scrolls > 0 {
      var items := pages[0].listing.value;
      var t := Pass(s, items, maxProfiles);
      PassBelowTargetSeesAll(s, items, maxProfiles);
      if o.scrolls == 1 {
        assert VisibleItems(pages[..1]) == items + VisibleItems([]);
      } else {
        var h := pages[0].heightAfterScroll.value;
        var o' := Collect(t, h, pages[1..], maxProfiles);
        CollectBelowTargetSeesAll(t, h, pages[1..], maxProfiles);
        VisibleItemsPrefix(pages, o'.scrolls);
      }
    }
  }

  /**
   * A scrape that ends below the target has marked seen the URL of every linked
   * item of every snapshot it scrolled past: no shown profile is left unvisited.
   */
  lemma ScrapeSeesEveryShownProfile(pages: seq<Snapshot>, initialHeight: int, maxProfiles: int)
    ensures var o := Scrape(pages, initialHeight, maxProfiles);
      o.stop != TargetReached ==>
        forall it :: it in VisibleItems(pages[..o.scrolls]) && it.link.Some? ==> it.link.value in o.final.seen
  {
    CollectBelowTargetSeesAll(Session([], {}), initialHeight, pages, maxProfiles);
  }

  /** A URL seen at any point of the loop gets no record afterwards, in any later pass. */
  lemma {:induction false} CollectSeenNeverRecorded(s: Session, lastHeight: int, pages: seq<Snapshot>, maxProfiles: int, u: Url)
    requires u in s.seen
    ensures forall i :: |s.records| <= i < |Collect(s, lastHeight, pages, maxProfiles).final.records| ==>
      Collect(s, lastHeight, pages, maxProfiles).final.records[i].url != u
    decreases |pages|
  {
    if |s.records| < maxProfiles && pages != [] && pages[0].listing.Some? {
      var t := Pass(s, pages[0].listing.value, maxProfiles);
      SeenUrlNeverRecordedAgain(s, pages[0].listing.value, maxProfiles, u);
      if |t.records| < maxProfiles && pages[0].heightAfterScroll.Some? &&
         pages[0].heightAfterScroll.value != lastHeight {
        var h := pages[0].heightAfterScroll.value;
        CollectSeenNeverRecorded(t, h, pages[1..], maxProfiles, u);
        var r := Collect(t, h, pages[1..], maxProfiles).final.records;
        forall i | |s.records| <= i < |r|
          ensures r[i].url != u
        {
          if i < |t.records| {
            assert r[i] == t.records[i];
          }
        }
      }
    }
  }

  /** Once the loop has stopped for a reason of its own, later snapshots change nothing. */
  lemma {:induction false} StopIgnoresLaterSnapshots(s: Session, lastHeight: int, p: seq<Snapshot>, q: seq<Snapshot>, maxProfiles: int)
    requires Collect(s, lastHeight, p, maxProfiles).stop != SnapshotsExhausted
    ensures Collect(s, lastHeight, p + q, maxProfiles) == Collect(s, lastHeight, p, maxProfiles)
    decreases |p|
  {
    if |s.records| < maxProfiles {
      assert p != [];
      assert (p + q)[0] == p[0] && (p + q)[1..] == p[1..] + q;
      if p[0].listing.Some? {
        var t := Pass(s, p[0].listing.value, maxProfiles);
        if |t.records| < maxProfiles && p[0].heightAfterScroll.Some? &&
           p[0].heightAfterScroll.value != lastHeight {
          StopIgnoresLaterSnapshots(t, p[0].heightAfterScroll.value, p[1..], q, maxProfiles);
        }
      }
    }
  }

  /**
   * Reaching the target ends the loop without scrolling: the snapshot whose pass
   * reached it is the one after the last scroll, and the height its scroll would
   * have produced is never read.
   */
  lemma {:induction false} TargetReachedWithoutScroll(
    s: Session, lastHeight: int, p: seq<Snapshot>, maxProfiles: int, x: Option<int>)
    requires |s.records| < maxProfiles
    requires Collect(s, lastHeight, p, maxProfiles).stop == TargetReached
    ensures var o := Collect(s, lastHeight, p, maxProfiles);
      && o.scrolls < |p| && p[o.scrolls].listing.Some?
      && Collect(s, lastHeight, p[o.scrolls := p[o.scrolls].(heightAfterScroll := x)], maxProfiles) == o
    decreases |p|
  {
    var o := Collect(s, lastHeight, p, maxProfiles);
    assert p != [] && p[0].listing.Some?;
    var t := Pass(s, p[0].listing.value, maxProfiles);
    if |t.records| < maxProfiles {
      var h := p[0].heightAfterScroll.value;
      var o' := Collect(t, h, p[1..], maxProfiles);
      TargetReachedWithoutScroll(t, h, p[1..], maxProfiles, x);
      var k := o'.scrolls;
      var p' := p[k + 1 := p[k + 1].(heightAfterScroll := x)];
      assert p'[0] == p[0] && p'[1..] == p[1..][k := p[1..][k].(heightAfterScroll := x)];
    }
  }

  lemma HeightBeforeShift(initialHeight: int, pages: seq<Snapshot>, j: nat)
    requires j < |pages| && pages[0].heightAfterScroll.Some?
    ensures HeightBefore(initialHeight, pages, j + 1) ==
      HeightBefore(pages[0].heightAfterScroll.value, pages[1..], j)
  {
    if j > 0 {
      HeightBeforeShift(initialHeight, pages, j - 1);
    }
  }

  /**
   * The stable-height stop: the loop ends on HeightUnchanged only after a pass below
   * the target whose scroll read the same height as the one before, every earlier
   * scroll having changed the height.
   */
  lemma {:induction false} HeightStopIsFirstRepeat(s: Session, lastHeight: int, p: seq<Snapshot>, maxProfiles: int)
    ensures var o := Collect(s, lastHeight, p, maxProfiles);
      o.stop == HeightUnchanged ==>
        && 1 <= o.scrolls <= |p| && |o.final.records| < maxProfiles
        && p[o.scrolls - 1].heightAfterScroll == Some(HeightBefore(lastHeight, p, o.scrolls - 1))
        && forall j :: 0 <= j < o.scrolls - 1 ==>
             p[j].heightAfterScroll.Some? && p[j].heightAfterScroll.value != HeightBefore(lastHeight, p, j)
    decreases |p|
  {
    var o := Collect(s, lastHeight, p, maxProfiles);
    CollectStopsAtTargetIff(s, lastHeight, p, maxProfiles);
    if o.stop == HeightUnchanged && o.scrolls > 1 {
      var t := Pass(s, p[0].listing.value, maxProfiles);
      var h := p[0].heightAfterScroll.value;
      var o' := Collect(t, h, p[1..], maxProfiles);
      HeightStopIsFirstRepeat(t, h, p[1..], maxProfiles);
      HeightBeforeShift(lastHeight, p, o'.scrolls - 1);
      forall j | 0 <= j < o.scrolls - 1
        ensures p[j].heightAfterScroll.Some? && p[j].heightAfterScroll.value != HeightBefore(lastHeight, p, j)
      {
        if j > 0 {
          HeightBeforeShift(lastHeight, p, j - 1);
          assert p[j] == p[1..][j - 1];
        }
      }
    }
  }

  lemma {:induction false} LinkedUrlsHas(items: seq<Item>, it: Item)
    requires it in items && it.link.Some?
    ensures it.link.value in LinkedUrls(items)
    decreases |items|
  {
    if it != items[0] {
      assert it in items[1..];
      LinkedUrlsHas(items[1..], it);
    }
  }

  /** Records with pairwise distinct URLs, all drawn from `urls`, number at most `|urls|`. */
  lemma {:induction false} DistinctUrlsBound(records: seq<EmployeeRecord>, urls: set<Url>)
    requires UniqueUrls(records)
    requires forall i :: 0 <= i < |records| ==> records[i].url in urls
    ensures |records| <= |urls|
    decreases |records|
  {
    if records != [] {
      var rest := urls - {records[0].url};
      forall i | 0 <= i < |records[1..]|
        ensures records[1..][i].url in rest
      {
        assert records[1..][i] == records[i + 1];
      }
      DistinctUrlsBound(records[1..], rest);
    }
  }

  /**
   * A scrape never returns more records than there are distinct profile URLs in the
   * snapshots; so when fewer distinct profiles are shown than requested, it ends
   * below the target, by a stable height or a page-level stop, without failing.
   */
  lemma ScrapeBoundedByDistinctProfiles(pages: seq<Snapshot>, initialHeight: int, maxProfiles: int)
    ensures |Scrape(pages, initialHeight, maxProfiles).final.records| <= |LinkedUrls(VisibleItems(pages))|
    ensures |LinkedUrls(VisibleItems(pages))| < maxProfiles ==>
      Scrape(pages, initialHeight, maxProfiles).stop != TargetReached
  {
    var o := Scrape(pages, initialHeight, maxProfiles);
    ScrapeUrlsUnique(pages, initialHeight, maxProfiles);
    ScrapeRecordsFromItems(pages, initialHeight, maxProfiles);
    CollectStopsAtTargetIff(Session([], {}), initialHeight, pages, maxProfiles);
    forall i | 0 <= i < |o.final.records|
      ensures o.final.records[i].url in LinkedUrls(VisibleItems(pages))
    {
      var r := o.final.records[i];
      assert r in o.final.records;
      var it :| it in VisibleItems(pages) && FromItem(r, it);
      LinkedUrlsHas(VisibleItems(pages), it);
    }
    DistinctUrlsBound(o.final.records, LinkedUrls(VisibleItems(pages)));
  }

  /**
   * Over items that are complete or have no link, with room for all of them, a pass
   * marks seen exactly the items' URLs and adds one record per URL it had not seen.
   */
  lemma {:induction false} PassCountsNewUrls(s: Session, items: seq<Item>, maxProfiles: int)
    requires forall k :: 0 <= k < |items| ==> items[k].link.None? || Complete(items[k])
    requires |s.records| + |items| <= maxProfiles
    ensures var r := Pass(s, items, maxProfiles);
      r.seen == s.seen + LinkedUrls(items) && |r.records| - |s.records| == |r.seen| - |s.seen|
    decreases |items|
  {
    if items != [] {
      var v := Visit(s, items[0]);
      assert forall k :: 0 <= k < |items[1..]| ==> items[1..][k] == items[k + 1];
      PassCountsNewUrls(v, items[1..], maxProfiles);
    }
  }

  /**
   * From an empty session, items that are complete or have no link yield one record
   * per distinct profile URL.
   */
  lemma HarvestCountsDistinctProfiles(items: seq<Item>)
    requires forall k :: 0 <= k < |items| ==> items[k].link.None? || Complete(items[k])
    ensures |Harvest(items)| == |LinkedUrls(items)|
  {
    PassCountsNewUrls(Session([], {}), items, |items|);
  }

  /**
   * When the first snapshot shows at least `maxProfiles` distinct profiles, and every
   * linked item in it has lookups that do not raise (items without a link may be
   * mixed in), the scrape returns exactly `maxProfiles` records and never scrolls.
   */
  lemma FirstSnapshotShowsEnough(pages: seq<Snapshot>, initialHeight: int, maxProfiles: int)
    requires pages != [] && pages[0].listing.Some?
    requires forall k :: 0 <= k < |pages[0].listing.value| ==> pages[0].listing.value[k].link.None? || Complete(pages[0].listing.value[k])
    requires 0 <= maxProfiles <= |LinkedUrls(pages[0].listing.value)|
    ensures var o := Scrape(pages, initialHeight, maxProfiles);
      o.stop == TargetReached && o.scrolls == 0 && |o.final.records| == maxProfiles
  {
    HarvestCountsDistinctProfiles(pages[0].listing.value);
    FirstSnapshotSuffices(pages, initialHeight, maxProfiles);
  }

  lemma {:induction false} LinkedUrlsConcat(a: seq<Item>, b: seq<Item>)
    ensures LinkedUrls(a + b) == LinkedUrls(a) + LinkedUrls(b)
    decreases |a|
  {
    if a != [] {
      assert (a + b)[0] == a[0] && (a + b)[1..] == a[1..] + b;
      LinkedUrlsConcat(a[1..], b);
    } else {
      assert a + b == b;
    }
  }

  /** A pass that ends below the target has marked seen exactly the URLs its items link to. */
  lemma {:induction false} PassBelowTargetSeenExactly(s: Session, items: seq<Item>, maxProfiles: int)
    ensures var r := Pass(s, items, maxProfiles);
      |r.records| < maxProfiles ==> r.seen == s.seen + LinkedUrls(items)
    decreases |items|
  {
    if items != [] && |s.records| < maxProfiles {
      PassBelowTargetSeenExactly(Visit(s, items[0]), items[1..], maxProfiles);
    }
  }

  /**
   * A loop that ends below the target has marked seen exactly the URLs linked from the
   * snapshots it scrolled past, and no other.
   */
  lemma {:induction false} CollectBelowTargetSeenExactly(s: Session, lastHeight: int, pages: seq<Snapshot>, maxProfiles: int)
    ensures var o := Collect(s, lastHeight, pages, maxProfiles);
      o.stop != TargetReached ==> o.final.seen == s.seen + LinkedUrls(VisibleItems(pages[..o.scrolls]))
    decreases |pages|
  {
    var o := Collect(s, lastHeight, pages, maxProfiles);
    if o.stop != TargetReached && o.scrolls > 0 {
      var items := pages[0].listing.value;
      var t := Pass(s, items, maxProfiles);
      PassBelowTargetSeenExactly(s, items, maxProfiles);
      if pages[0].heightAfterScroll.None? || pages[0].heightAfterScroll.value == lastHeight {
        assert VisibleItems(pages[..1]) == items + VisibleItems([]);
        LinkedUrlsConcat(items, []);
      } else {
        var h := pages[0].heightAfterScroll.value;
        var o' := Collect(t, h, pages[1..], maxProfiles);
        CollectBelowTargetSeenExactly(t, h, pages[1..], maxProfiles);
        VisibleItemsPrefix(pages, o'.scrolls);
        LinkedUrlsConcat(items, VisibleItems(pages[1..][..o'.scrolls]));
      }
    }
  }

  /**
   * Over items that are complete or have no link, a pass adds exactly one record per
   * URL it newly marks seen.
   */
  lemma {:induction false} PassCleanCounts(s: Session, items: seq<Item>, maxProfiles: int)
    requires forall it :: it in items ==> it.link.None? || Complete(it)
    ensures var r := Pass(s, items, maxProfiles);
      |r.records| - |s.records| == |r.seen| - |s.seen|
    decreases |items|
  {
    if items != [] && |s.records| < maxProfiles {
      assert items[0] in items;
      assert forall it :: it in items[1..] ==> it in items;
      PassCleanCounts(Visit(s, items[0]), items[1..], maxProfiles);
    }
  }

  /** The same through the whole loop, when every item of every snapshot is clean. */
  lemma {:induction false} CollectCleanCounts(s: Session, lastHeight: int, pages: seq<Snapshot>, maxProfiles: int)
    requires forall it :: it in VisibleItems(pages) ==> it.link.None? || Complete(it)
    ensures var o := Collect(s, lastHeight, pages, maxProfiles);
      |o.final.records| - |s.records| == |o.final.seen| - |s.seen|
    decreases |pages|
  {
    if |s.records| < maxProfiles && pages != [] && pages[0].listing.Some? {
      var items := pages[0].listing.value;
      assert VisibleItems(pages) == items + VisibleItems(pages[1..]);
      PassCleanCounts(s, items, maxProfiles);
      var t := Pass(s, items, maxProfiles);
      if |t.records| < maxProfiles && pages[0].heightAfterScroll.Some?
        && pages[0].heightAfterScroll.value != lastHeight
      {
        CollectCleanCounts(t, pages[0].heightAfterScroll.value, pages[1..], maxProfiles);
      }
    }
  }

  /**
   * When every shown item either has no link or has lookups that do not raise, a
   * scrape that ends below the target returns one record per distinct profile URL in
   * the snapshots it scrolled past: every such profile is recorded.
   */
  lemma ScrapeRecordsEveryCleanProfile(pages: seq<Snapshot>, initialHeight: int, maxProfiles: int)
    requires forall it :: it in VisibleItems(pages) ==> it.link.None? || Complete(it)
    ensures var o := Scrape(pages, initialHeight, maxProfiles);
      o.stop != TargetReached ==> |o.final.records| == |LinkedUrls(VisibleItems(pages[..o.scrolls]))|
  {
    CollectCleanCounts(Session([], {}), initialHeight, pages, maxProfiles);
    CollectBelowTargetSeenExactly(Session([], {}), initialHeight, pages, maxProfiles);
  }
}
