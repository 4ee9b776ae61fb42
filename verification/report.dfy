/**
 The report `parse_flow_logs_mmap` writes once the scan is over, as the
 sequence of its lines without their line terminators: a tag section, the
 untagged count and a blank line, then a port/protocol section.  Counters
 are listed in the order their keys were first seen.
 */
module Report {
  import opened Text
  import opened Counters
  import opened LookupTable
  import opened FlowLog

  const TagTitle := "Tag Counts:"
  const TagHeader := "Tag,Count"
  const PairTitle := "Port/Protocol Combination Counts:"
  const PairHeader := "Port,Protocol,Count"

  /** `f"{tag},{count}"` */
  function TagLine(tag: string, count: nat): string
  {
    tag + "," + NatToString(count)
  }

  /** `f"Untagged,{untagged_count}"` */
  function UntaggedLine(untagged: nat): string
  {
    "Untagged," + NatToString(untagged)
  }

  /** `f"{port},{protocol},{count}"` */
  function PairLine(key: Key, count: nat): string
  {
    key.port + "," + key.protocol + "," + NatToString(count)
  }

  /** One line per tag, in the counter's order. */
  function TagLines(tags: Tally<string>): seq<string>
  {
    seq(|tags.order|, i requires 0 <= i < |tags.order| => TagLine(tags.order[i], tags.Get(tags.order[i])))
  }

  /** One line per pair, in the counter's order. */
  function PairLines(pairs: Tally<Key>): seq<string>
  {
    seq(|pairs.order|, i requires 0 <= i < |pairs.order| => PairLine(pairs.order[i], pairs.Get(pairs.order[i])))
  }

  /** The whole report. */
  function FormatReport(t: Tallies): seq<string>
  {
    [TagTitle, TagHeader] + TagLines(t.tags)
    + [UntaggedLine(t.untagged), ""]
    + [PairTitle, PairHeader] + PairLines(t.pairs)
  }

  /** The layout of the report, line by line: the two tag headings, one
      line per tag, the untagged line (present even when the count is
      zero), a blank line, the two pair headings, one line per pair, and
      nothing after. */
  lemma ReportLayout(t: Tallies)
    ensures var r, n, m := FormatReport(t), |t.tags.order|, |t.pairs.order|;
      && |r| == n + m + 6
      && r[0] == TagTitle && r[1] == TagHeader
      && (forall i :: 0 <= i < n ==> r[2 + i] == TagLine(t.tags.order[i], t.tags.Get(t.tags.order[i])))
      && r[n + 2] == UntaggedLine(t.untagged) && r[n + 3] == ""
      && r[n + 4] == PairTitle && r[n + 5] == PairHeader
      && (forall j :: 0 <= j < m ==> r[n + 6 + j] == PairLine(t.pairs.order[j], t.pairs.Get(t.pairs.order[j])))
  {
    var r, n := FormatReport(t), |t.tags.order|;
    var head := [TagTitle, TagHeader] + TagLines(t.tags) + [UntaggedLine(t.untagged), ""] + [PairTitle, PairHeader];
    assert r == head + PairLines(t.pairs);
    assert |head| == n + 6;
    forall i | 0 <= i < n
      ensures r[2 + i] == TagLine(t.tags.order[i], t.tags.Get(t.tags.order[i]))
    {
      assert r[2 + i] == head[2 + i] == TagLines(t.tags)[i];
    }
  }

  /** The text after the last comma of a line. */
  function AfterLastComma(s: string): string
  {
    if s == [] then []
    else if s[|s| - 1] == ',' then []
    else AfterLastComma(s[..|s| - 1]) + [s[|s| - 1]]
  }

  /** A count line ends in the count: the text after its last comma reads
      back as the number. */
  lemma {:induction false} CountReadsBack(prefix: string, count: nat)
    ensures AfterLastComma(prefix + "," + NatToString(count)) == NatToString(count)
    ensures DigitsValue(AfterLastComma(prefix + "," + NatToString(count))) == count
  {
    NatToStringRoundTrip(count);
    AfterDigits(prefix + ",", NatToString(count));
  }

  lemma {:induction false} AfterDigits(prefix: string, digits: string)
    requires prefix != [] && prefix[|prefix| - 1] == ','
    requires forall i :: 0 <= i < |digits| ==> IsDigit(digits[i])
    ensures AfterLastComma(prefix + digits) == digits
  {
    if digits == [] {
      assert prefix + digits == prefix;
    } else {
      var init := digits[..|digits| - 1];
      assert (prefix + digits)[..|prefix + digits| - 1] == prefix + init;
      AfterDigits(prefix, init);
    }
  }
}
