# LinkedIn employee scraper: the incremental collector, modelled in Dafny

The application logs into LinkedIn with Selenium, opens a company's People section and
collects employees' name, role and profile URL up to a requested count. This project
models the two pieces of it that hold logic of their own:

- the collector `scrape_employee_profiles`: a loop that reads the visible list items,
  skips items without a profile link and URLs already seen, fills in `"N/A"` for a
  missing name or role, scrolls, and stops when the target count is reached, when the
  page height does not change after a scroll, or on a page-level error, keeping what it
  has collected;
- the People-tab lookup in `open_people_section`: three XPath locators tried in order,
  the first one that yields a clickable element wins.

The browser is an input. The collector reads a finite sequence of `Snapshot`s, one per
pass of its loop: the visible items (or `None` when the wait for the list timed out) and
the page height read after the pass's scroll (or `None` when the scroll or the read
raised). Each item carries its profile link (or `None`) and the outcome of the name and
role lookups: the raw text, a missing element, or some other exception. The
People-tab lookup reads a function `probe` that says how the wait started for the locator at
each position ends (every iteration runs a wait of its own).

Modules:

- `ScraperTypes` (`scraper_types.dfy`): items, snapshots, records, the scrape session
  (records and seen URLs), stop reasons, outcomes.
- `Text` (`text.dfy`): Python's `str.strip()` over the characters `str.isspace()` accepts.
- `Collector` (`collector.dfy`): `Visit` (one item), `Pass` (one pass), `Collect` and
  `Scrape` (the loop) as functions, and the loop itself as the methods
  `ScrapeEmployeeProfiles` and `ScrapeVisibleProfiles`, proved to compute them.
- `CollectorProperties` (`collector_props.dfy`): lemmas about the collector.
- `CollectorScenarios` (`scenarios.dfy`): a worked scenario on concrete snapshots.
- `PeopleTab` (`people_tab.dfy`): the first-match lookup as a function, the loop as a
  method, and lemmas characterising the result.

Behaviour of the code worth noting:

- The fallback for a missing name or role element is `"N/A"`. A name or role element
  that is present but holds only whitespace yields the empty string, not `"N/A"`.
- A name or role lookup that raises something other than a missing-element error skips
  the item *after* its URL has been marked seen, so that profile is never recorded later
  in the same scrape, in this pass or any later one (`CollectSeenNeverRecorded`).
- A `max_profiles` of zero or less returns an empty list at once, without entering the
  loop and without reporting anything; the model gives it the stop reason `TargetReached`.

## Model

| member | source | states |
|---|---|---|
| `Collector.Pass` | linkedin_scraper_app.py:129-160 | one pass over the visible items only appends records and only adds seen URLs; it never takes the list past `max_profiles`, and adds at most one record per item |
| `Collector.Collect` | linkedin_scraper_app.py:123-175 | the loop only appends records and seen URLs, never goes past `max_profiles`, and scrolls at most once per snapshot |
| `Collector.Scrape` | linkedin_scraper_app.py:114-179 | a scrape from an empty session returns at most `max_profiles` records (none when it is not positive) |
| `Collector.ScrapeVisibleProfiles` | linkedin_scraper_app.py:129-160 | the inner `for` loop, with its `break` and `continue`s, leaves the records and seen URLs exactly as `Pass` specifies |
| `Collector.ScrapeEmployeeProfiles` | linkedin_scraper_app.py:114-179 | the `while` loop returns the records, stop reason and scroll count of `Scrape` over the same snapshots |
| `Collector.Visit` | linkedin_scraper_app.py:133-152 | one item adds its link's URL to the seen set, and adds at most one record; a record is added only for a linked item whose URL was not seen and whose lookups did not raise, and it is that item's URL with its stripped name and role, or `"N/A"` for a missing one |
| `CollectorProperties.PassSkipsUnlinked` | linkedin_scraper_app.py:134 | an item without a profile link leaves the pass's result exactly as if the item were not in the list |
| `CollectorProperties.PassSkipsSeenUrl` | linkedin_scraper_app.py:137-138 | an item whose URL was already seen leaves the pass's result exactly as if the item were not in the list |
| `CollectorProperties.PassRaisingLookupYieldsNoRecord` | linkedin_scraper_app.py:159-160 | an item whose name or role lookup raises gets no record: no record from that point on carries its URL |
| `CollectorProperties.PassRecordsNewProfile` | linkedin_scraper_app.py:137-152 | an item met below the target, with a new URL and lookups that do not raise, is recorded with its URL, its stripped name and role, and `"N/A"` for a missing name or role |
| `CollectorProperties.PassBelowTargetSeesAll` | linkedin_scraper_app.py:129-140 | a pass that ends below the target has marked seen the URL of every linked item |
| `CollectorProperties.CollectBelowTargetSeesAll` | linkedin_scraper_app.py:123-171 | a loop that ends below the target has marked seen the URL of every linked item in the snapshots it scrolled past |
| `CollectorProperties.ScrapeSeesEveryShownProfile` | linkedin_scraper_app.py:123-171 | a scrape that ends below the target leaves no linked profile unvisited in the snapshots it scrolled past |
| `CollectorProperties.PassBelowTargetSeenExactly` | linkedin_scraper_app.py:129-140 | a pass that ends below the target has marked seen exactly the URLs its items link to |
| `CollectorProperties.CollectBelowTargetSeenExactly` | linkedin_scraper_app.py:123-171 | a loop that ends below the target has marked seen exactly the URLs linked from the snapshots it scrolled past, and no other |
| `CollectorProperties.PassCleanCounts` | linkedin_scraper_app.py:129-161 | over items that are complete or have no link, a pass adds exactly one record per URL it newly marks seen |
| `CollectorProperties.CollectCleanCounts` | linkedin_scraper_app.py:123-171 | the same through the whole loop when every shown item is complete or has no link |
| `CollectorProperties.ScrapeRecordsEveryCleanProfile` | linkedin_scraper_app.py:123-171 | when every shown item is complete or has no link, a scrape ending below the target (stable height, list timeout, scroll error) returns one record per distinct profile URL in the snapshots it scrolled past: ten requested and six distinct profiles shown before the height settles yields six records |
| `CollectorProperties.CollectSeenNeverRecorded` | linkedin_scraper_app.py:137-140 | a URL seen at any point of the loop gets no record afterwards, in this pass or any later one |
| `CollectorProperties.StopIgnoresLaterSnapshots` | linkedin_scraper_app.py:162-175 | once the loop stops on the target, a stable height or a page error, later snapshots change nothing |
| `CollectorProperties.TargetReachedWithoutScroll` | linkedin_scraper_app.py:162-165 | in whichever pass the target is reached, the loop ends before the scroll: the height that scroll would read never affects the outcome |
| `CollectorProperties.HeightStopIsFirstRepeat` | linkedin_scraper_app.py:168-171 | a stable-height stop comes after a pass below the target whose scroll read the same height as the one before, every earlier scroll having changed the height |
| `CollectorProperties.ScrapeBoundedByDistinctProfiles` | linkedin_scraper_app.py:137-140 | a scrape returns at most as many records as there are distinct profile URLs shown; with fewer than requested it ends below the target, without failing |
| `CollectorProperties.PassCountsNewUrls` | linkedin_scraper_app.py:137-152 | over items that are complete or have no link, with room for all, a pass marks seen exactly their URLs and adds one record per new URL |
| `CollectorProperties.HarvestCountsDistinctProfiles` | linkedin_scraper_app.py:137-152 | from an empty session, items that are complete or have no link yield one record per distinct profile URL |
| `CollectorProperties.FirstSnapshotShowsEnough` | linkedin_scraper_app.py:162-165 | when the first snapshot shows at least `max_profiles` distinct profiles and none of its linked items has a raising lookup (items without a link may be mixed in), the scrape returns exactly `max_profiles` records and never scrolls |
| `CollectorProperties.PassKeepsConsistent` | linkedin_scraper_app.py:137-152 | a pass keeps record URLs pairwise distinct and every record URL in the seen set |
| `CollectorProperties.CollectKeepsConsistent` | linkedin_scraper_app.py:123-171 | the whole loop keeps the same session invariant |
| `CollectorProperties.ScrapeUrlsUnique` | linkedin_scraper_app.py:137-140 | no two returned records share a URL, and every record's URL is in the seen set |
| `CollectorProperties.SeenUrlNeverRecordedAgain` | linkedin_scraper_app.py:137-140 | within one pass, once a URL is seen no later record carries it, even when its first visit produced no record |
| `CollectorProperties.CollectStopsAtTargetIff` | linkedin_scraper_app.py:123-175 | the loop stops with reason "target reached" if and only if it holds at least `max_profiles` records |
| `CollectorProperties.ScrapeStopReason` | linkedin_scraper_app.py:162-175 | a scrape reaches the target exactly when it returns `max_profiles` records; a stable height or a page error ends it with fewer, without failing |
| `CollectorProperties.PassConcat` | linkedin_scraper_app.py:129-131 | a pass over two lists of items is the pass over the first followed by the pass over the second, so records keep the order in which items are met |
| `CollectorProperties.PassRecordsFromItems` | linkedin_scraper_app.py:133-152 | every record a pass adds is the record of one of the visited items |
| `CollectorProperties.CollectRecordsFromItems` | linkedin_scraper_app.py:123-160 | every record the loop adds is the record of an item of a snapshot whose list was found |
| `CollectorProperties.ScrapeRecordsFromItems` | linkedin_scraper_app.py:133-152 | no record is invented: each has a linked item whose name and role lookups did not raise, and holds its URL and its stripped name and role or `"N/A"` |
| `CollectorProperties.PassTruncates` | linkedin_scraper_app.py:130-131 | a pass with a smaller target yields exactly the first `max_profiles` records of the same pass with a larger target |
| `CollectorProperties.FirstSnapshotSuffices` | linkedin_scraper_app.py:162-165 | when the first snapshot offers at least `max_profiles` new profiles, the scrape returns the first `max_profiles` of them and never scrolls |
| `CollectorProperties.MoreSnapshotsExtend` | linkedin_scraper_app.py:152 | further snapshots never remove or reorder records: the records from a prefix of the snapshots are a prefix of the records from all of them |
| `CollectorProperties.ListErrorKeepsPartialResults` | linkedin_scraper_app.py:173-179 | when the list cannot be found after some snapshots, the scrape returns exactly the records those snapshots produced |
| `CollectorScenarios.StableHeightEndsWithFewer` | linkedin_scraper_app.py:168-171 | ten requested, three distinct profiles shown: the scrape returns the three in first-seen order after two scrolls, ending on the unchanged height |
| `Text.Strip` | linkedin_scraper_app.py:143 | `strip()` returns the slice of the text between its leading and its trailing whitespace, and that slice neither starts nor ends with whitespace |
| `Text.StripOfPadded` | linkedin_scraper_app.py:148 | stripping whitespace-padded text whose ends are not whitespace gives back that text |
| `Text.StripIdempotent` | linkedin_scraper_app.py:143 | stripping twice is stripping once |
| `PeopleTab.FirstClickableFrom` | linkedin_scraper_app.py:94-102 | the lookup from a given locator on returns an element only from a locator whose wait found it clickable, and ends on another exception only at a locator whose wait raised it |
| `PeopleTab.FirstClickable` | linkedin_scraper_app.py:93-105 | the same for the whole locator list |
| `PeopleTab.FirstClickableFromCharacterized` | linkedin_scraper_app.py:94-102 | the lookup reports no tab if and only if every locator timed out; a found tab or an exception comes from a locator all of whose predecessors timed out |
| `PeopleTab.FoundIsFirstClickable` | linkedin_scraper_app.py:94-100 | the lookup yields the element of locator `k` if and only if locator `k` found it and every earlier locator timed out |
| `PeopleTab.NotFoundIffAllTimedOut` | linkedin_scraper_app.py:104-105 | "People tab not found" happens if and only if every locator timed out |
| `PeopleTab.FindPeopleTab` | linkedin_scraper_app.py:93-105 | the `for` loop over the locators returns what the first-match lookup specifies |
| `PeopleTab.OpenPeopleSection` | linkedin_scraper_app.py:85-112 | the section opens if and only if some locator found the tab and the URL then showed the people section; the element clicked is the first one found |

## Left out

- Driver setup, login, company search and opening the company page
  (linkedin_scraper_app.py:36-83): browser I/O with no logic of its own.
- `time.sleep`, the `WebDriverWait` timeouts and the JavaScript calls: each pass's wait,
  scroll and height read are replaced by one `Snapshot`.
- The first height read (linkedin_scraper_app.py:118) is an input; an exception there
  escapes the function and is not modelled.
- The Streamlit progress bar and status text, and the rest of the UI
  (linkedin_scraper_app.py:120-121, 155-157, 177-178, 187-252): presentation.
- `get_download_link` (linkedin_scraper_app.py:181-185): a wrapper over pandas and
  base64 whose behaviour is not visible here.
- `driver.quit()` in `main` (linkedin_scraper_app.py:257-258): cleanup of a foreign process.
- The real browser can be scrolled without end; the modelled one offers finitely many
  snapshots, and running out of them ends the loop with `SnapshotsExhausted`, a stop
  reason the source does not have.
- `Collector.ScrapeEmployeeProfiles` also returns the stop reason (the source reports it
  through `st.error` or silently) and the number of scroll attempts (a side effect on the
  browser; a pass whose scroll script or height read raised counts as one attempt); the
  source returns only the records.
- `PeopleTab.OpenPeopleSection`: the click and the wait for the people URL
  (linkedin_scraper_app.py:107-108) are one boolean input, any failure of either
  counting as the wait failing; the error message text is not modelled.
