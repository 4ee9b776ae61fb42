/**
 `parse_flow_logs_mmap` as the program runs it: one pass over the lines
 that updates two counters in place and an untagged variable, then two
 loops that write the report line by line.  Its result is proved to be the
 report of the tallies the scan specification computes.
 */
module Pipeline {
  import opened Text
  import opened Counters
  import opened LookupTable
  import opened FlowLog
  import opened Report

  /** The counting half of the loop body: the tag counter or the untagged
      variable, then the pair counter. */
  method CountRecord(key: Key, table: Table, tagCounts: Counter<string>, pairCounts: Counter<Key>, untagged: nat)
    returns (untagged': nat)
    modifies tagCounts, pairCounts
    ensures Tallies(tagCounts.Value(), pairCounts.Value(), untagged')
         == Count(Tallies(old(tagCounts.Value()), old(pairCounts.Value()), untagged), Some(key), table)
  {
    ghost var pairsBefore := pairCounts.Value();
    untagged' := untagged;
    var tags := Lookup(table, key);
    if tags != [] {
      tagCounts.Update(tags);
    } else {
      untagged' := untagged' + 1;
    }
    pairCounts.Update([key]);
    assert pairCounts.Value() == pairsBefore.Add(key) by {
      assert [key][..0] == [];
    }
  }

  /** The scan loop over all lines. */
  method Scan(lines: seq<string>, table: Table)
    returns (tagCounts: Counter<string>, pairCounts: Counter<Key>, untagged: nat)
    ensures fresh(tagCounts) && fresh(pairCounts)
    ensures Tallies(tagCounts.Value(), pairCounts.Value(), untagged) == Run(lines, table)
  {
    tagCounts := new Counter<string>();
    pairCounts := new Counter<Key>();
    untagged := 0;

    var i := 0;
    while i < |lines|
      invariant 0 <= i <= |lines|
      invariant fresh(tagCounts) && fresh(pairCounts)
      invariant Tallies(tagCounts.Value(), pairCounts.Value(), untagged) == Run(lines[..i], table)
    {
      RunSnoc(lines, i, table);
      var record := ParseRecord(lines[i]);
      if record.Some? {
        untagged := CountRecord(record.value, table, tagCounts, pairCounts, untagged);
      }
      i := i + 1;
    }
    assert lines[..|lines|] == lines;
  }

  /** The writing loops: the tag section, the untagged line and the blank
      line, then the pair section, each counter read in its own order. */
  method Write(tagCounts: Counter<string>, pairCounts: Counter<Key>, untagged: nat)
    returns (report: seq<string>)
    ensures report == FormatReport(Tallies(tagCounts.Value(), pairCounts.Value(), untagged))
  {
    report := [TagTitle, TagHeader];
    var order := tagCounts.order;
    var j := 0;
    while j < |order|
      invariant 0 <= j <= |order|
      invariant report == [TagTitle, TagHeader] + TagLines(tagCounts.Value())[..j]
    {
      var tag := order[j];
      report := report + [TagLine(tag, tagCounts.Value().Get(tag))];
      assert TagLines(tagCounts.Value())[..j + 1] == TagLines(tagCounts.Value())[..j] + [TagLines(tagCounts.Value())[j]];
      j := j + 1;
    }
    assert TagLines(tagCounts.Value())[..|order|] == TagLines(tagCounts.Value());
    report := report + [UntaggedLine(untagged), ""];

    report := report + [PairTitle, PairHeader];
    ghost var head := report;
    var pairs := pairCounts.order;
    j := 0;
    while j < |pairs|
      invariant 0 <= j <= |pairs|
      invariant report == head + PairLines(pairCounts.Value())[..j]
    {
      var key := pairs[j];
      report := report + [PairLine(key, pairCounts.Value().Get(key))];
      assert PairLines(pairCounts.Value())[..j + 1] == PairLines(pairCounts.Value())[..j] + [PairLines(pairCounts.Value())[j]];
      j := j + 1;
    }
    assert PairLines(pairCounts.Value())[..|pairs|] == PairLines(pairCounts.Value());
  }

  /** `parse_flow_logs_mmap`: scans `lines` against `table` and returns the
      report lines.  An empty flow log has no lines; memory-mapping it fails
      before anything is counted or written, which is `None` here. */
  method ParseFlowLogs(lines: seq<string>, table: Table) returns (report: Option<seq<string>>)
    ensures report.None? <==> lines == []
    ensures report.Some? ==> report.value == FormatReport(Run(lines, table))
  {
    if lines == [] {
      return None;  // `mmap` refuses a file of length zero
    }
    var tagCounts, pairCounts, untagged := Scan(lines, table);
    var written := Write(tagCounts, pairCounts, untagged);
    return Some(written);
  }
}
