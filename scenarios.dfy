/**
 * Worked scenarios of the collector: concrete snapshot sequences and what a scrape
 * over them returns.
 */
module CollectorScenarios {
  import opened ScraperTypes
  import opened Text
  import opened Collector

  function Profile(url: Url): Item {
    Item(Some(url), Absent, Found(" Engineer "))
  }

  function Row(url: Url): EmployeeRecord {
    EmployeeRecord(NotAvailable, "Engineer", url)
  }

  const First: seq<Item> := [Profile("/in/a"), Item(None, Found("x"), Found("y")), Profile("/in/b")]
  const Second: seq<Item> := First + [Profile("/in/b"), Profile("/in/c")]

  lemma StripEngineer()
    ensures Strip(" Engineer ") == "Engineer"
  {
    StripOfPadded(" ", "Engineer", " ");
    assert " " + "Engineer" + " " == " Engineer ";
  }

  lemma FirstPass()
    ensures Pass(Session([], {}), First, 10) == Session([Row("/in/a"), Row("/in/b")], {"/in/a", "/in/b"})
  {
    StripEngineer();
    var s1 := Session([Row("/in/a")], {"/in/a"});
    var s2 := Session([Row("/in/a"), Row("/in/b")], {"/in/a", "/in/b"});
    assert Visit(Session([], {}), First[0]) == s1;
    assert Visit(s1, First[1]) == s1;
    assert Visit(s1, First[2]) == s2;
    assert Pass(s1, First[2..], 10) == s2;
    assert Pass(s1, First[1..], 10) == s2;
  }

  lemma SecondPass()
    ensures Pass(Session([Row("/in/a"), Row("/in/b")], {"/in/a", "/in/b"}), Second, 10) ==
      Session([Row("/in/a"), Row("/in/b"), Row("/in/c")], {"/in/a", "/in/b", "/in/c"})
  {
    StripEngineer();
    var s2 := Session([Row("/in/a"), Row("/in/b")], {"/in/a", "/in/b"});
    var s3 := Session([Row("/in/a"), Row("/in/b"), Row("/in/c")], {"/in/a", "/in/b", "/in/c"});
    assert Visit(s2, Second[4]) == s3;
    assert Pass(s2, Second[4..], 10) == s3;
    assert Pass(s2, Second[3..], 10) == s3;
    assert Pass(s2, Second[2..], 10) == s3;
    assert Pass(s2, Second[1..], 10) == s3;
  }

  /**
   * Ten profiles requested, three distinct ones in all: the second scroll leaves the
   * height unchanged, and the scrape ends with the three, in first-seen order, after
   * two scrolls and without an error. An item without a link and a repeated URL
   * produce nothing; the role text comes back stripped and the missing name as "N/A".
   */
  lemma StableHeightEndsWithFewer()
    ensures
      var o := Scrape([Snapshot(Some(First), Some(200)), Snapshot(Some(Second), Some(200))], 100, 10);
      && o.stop == HeightUnchanged && o.scrolls == 2
      && o.final.records == [Row("/in/a"), Row("/in/b"), Row("/in/c")]
  {
    FirstPass();
    SecondPass();
    var pages := [Snapshot(Some(First), Some(200)), Snapshot(Some(Second), Some(200))];
    var s2 := Session([Row("/in/a"), Row("/in/b")], {"/in/a", "/in/b"});
    var s3 := Session([Row("/in/a"), Row("/in/b"), Row("/in/c")], {"/in/a", "/in/b", "/in/c"});
    assert Collect(s2, 200, pages[1..], 10) == Outcome(s3, HeightUnchanged, 1);
  }
}
