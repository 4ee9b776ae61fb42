# FlowLogParser, modelled in Dafny

FlowLogParser tags flow-log records. It reads a lookup table of
`(dstport, protocol, tag)` rows and builds a dictionary from
`(port, protocol)` keys to lists of tags. It then scans the flow log line
by line. A line with fewer than fourteen whitespace-separated fields is
skipped. Any other line yields a key: its sixth field is the port and the
name of the protocol numbered by its eighth field is the protocol. The
scan keeps three tallies:
- how many times each tag was found;
- how many times each `(port, protocol)` pair was seen;
- how many lines found no tag.

Finally it writes a two-section report.

The model takes the rows as a `seq<Row>` of already-parsed triples and the
flow log as a `seq<string>` of already-decoded lines. The report is a
`seq<string>` of its lines without their terminators.

- `text.dfy` (module `Text`) covers `str.strip()`, `str.split()`, `str.lower()` and the decimal rendering of counts, all over ASCII.
- `counters.dfy` (module `Counters`) covers `collections.Counter` as the program uses it. Its value is `Tally`, an insertion-ordered map to positive counts. The mutable object is the class `Counter`, whose `Update` loops over its argument.
- `lookup.dfy` (module `LookupTable`) covers `load_lookup_table`. The method `LoadLookupTable` is a loop that appends into a dictionary. It is proved equal to the fold `Fold(Entries(rows))`, and lemmas state what that fold holds.
- `flowlog.dfy` (module `FlowLog`) covers the scan:
  - protocol resolution and line parsing;
  - one iteration of the loop (`Count`/`Step`);
  - the whole scan as a fold (`Run`);
  - the invariants proved about the state once the scan is done.
- `report.dfy` (module `Report`) covers the report lines and their layout.
- `pipeline.dfy` (module `Pipeline`) covers `parse_flow_logs_mmap` as the program runs it:
  - a loop over the lines that updates two `Counter` objects in place and an untagged variable;
  - two writing loops.

  Its result is proved to be `FormatReport(Run(lines, table))`, except for an empty flow log, where it fails as `mmap` does.

## Model

| member | source | states |
|---|---|---|
| LookupTable.LoadLookupTable | src/main.py:18-26 | the loop that appends each row's trimmed tag to the list of its trimmed, lower-cased key, starting missing keys from the empty list, returns exactly the fold of the rows' entries in row order |
| LookupTable.FoldTags | src/main.py:21-25 | appending never overwrites: a key is in the folded table exactly when some entry is filed under it, and its list is then all those entries' tags in order, repeats kept |
| LookupTable.LoadedTable | src/main.py:18-25 | after loading, a key is present exactly when some row's trimmed port and trimmed, lower-cased protocol equal it; its list is those rows' trimmed tags in row order and is never empty; a key no row names is absent, not present with an empty list |
| LookupTable.TagsForAppend | src/main.py:25 | loading more rows appends their tags after the tags already listed under the same key |
| LookupTable.TagsForNonEmpty | src/main.py:21-25 | a key has tags exactly when some entry is filed under it |
| LookupTable.TagsForFrom | src/main.py:21-25 | every tag listed under a key is the tag of an entry filed under that very key |
| LookupTable.RowKeyNormalised | src/main.py:22-23 | a key built from a row is already stripped and lower-cased, so building a key again from its port and protocol gives the same key |
| FlowLog.ResolveProtocol | src/main.py:42-55 | protocol resolution is total: "6" gives "tcp", "17" gives "udp", "1" gives "icmp", and every other string gives "unknown" |
| FlowLog.ParseWords | src/main.py:47-55 | for a line made of words with any runs of whitespace before, between and after them, the line is skipped exactly when it has fewer than 14 words, and otherwise its key is word 5 and the resolved name of word 7 |
| FlowLog.CountEffect | src/main.py:49-65 | a skipped line changes no tally; a counted line adds exactly 1 to its own pair's count and changes no other pair; if its key finds tags, each tag count grows by the tag's number of occurrences in the list and untagged stays; otherwise untagged grows by 1 and no tag count moves |
| FlowLog.CountSummary | src/main.py:58-65 | one iteration extends counters filled from the records so far by exactly one record |
| FlowLog.RunIsCounters | src/main.py:38-65 | after the scan, the pair counter is a counter filled with the keys of the well-formed lines and the tag counter is one filled with the tags those keys find; untagged counts the keys that find none |
| FlowLog.RecordsCount | src/main.py:49-50 | every line with at least 14 fields yields exactly one record and every other line yields none |
| FlowLog.MatchedTagsLength | src/main.py:59-60 | the number of tags found is the sum of the lengths of the lists found |
| FlowLog.UnmatchedIsAbsent | src/main.py:58-59 | in a table with no empty list, a key finds no tags exactly when it is absent |
| FlowLog.RunCounts | src/main.py:49-65 | after the scan, each pair's count is its number of records; the pair counts sum to the number of lines with at least 14 fields; pairs are listed in first-seen order; each tag's count is its number of occurrences among the tags found; the tag counts sum to the total length of the lists found; tags are listed in first-found order; untagged counts the records that find no tags |
| FlowLog.RunUntagged | src/main.py:58-62 | with a table that holds no empty list, untagged is the number of well-formed lines whose key is absent from the table |
| FlowLog.LoadedThenScanned | src/main.py:18-62 | with the table loading builds, untagged is exactly the number of well-formed lines whose key no lookup row names |
| Counters.Tally.Add | src/main.py:65 | one increment adds 1 to the count of its key and to no other, and keeps the counter well formed |
| Counters.AddAllGet | src/main.py:60 | `update(xs)` adds to each key's count its number of occurrences in `xs` |
| Counters.AddAllValid | src/main.py:60 | `update` keeps the counter well formed and only appends to its key order |
| Counters.AddAllTotal | src/main.py:60 | `update(xs)` raises the sum of the counts by the length of `xs` |
| Counters.AddAllAppend | src/main.py:60 | updating with `xs + ys` is updating with `xs` and then with `ys` |
| Counters.AddTotal | src/main.py:65 | one increment raises the sum of the counts by one |
| Counters.FirstSeenStep | src/main.py:60-65 | adding a key keeps the counter's order equal to the first-seen order of the keys added so far |
| Counters.FromEmptyOrder | src/main.py:38-39 | a counter filled from empty lists its keys in the order they were first seen |
| Counters.FromEmpty | src/main.py:38-39 | a counter filled from empty with `xs` is well formed, counts each key once per occurrence in `xs`, has counts summing to the length of `xs`, and lists keys in first-seen order |
| Counters.Counter.constructor | src/main.py:38-39 | a new counter is empty |
| Counters.Counter.Update | src/main.py:60 | updating the counter in place leaves it holding the old value updated with every element in turn |
| Report.ReportLayout | src/main.py:70-80 | the report is "Tag Counts:", "Tag,Count", one `tag,count` line per tag in first-seen order, then "Untagged,n" even when n is 0, a blank line, "Port/Protocol Combination Counts:", "Port,Protocol,Count", one `port,protocol,count` line per pair in first-seen order, and nothing after |
| Report.CountReadsBack | src/main.py:73-80 | a count line ends in the count: the text after its last comma is the decimal form of the count and reads back as the count |
| Pipeline.CountRecord | src/main.py:58-65 | the counting half of the loop body, updating both counters in place and returning the new untagged count, leaves the three tallies as one iteration of the specification does |
| Pipeline.Scan | src/main.py:38-65 | the scan loop returns fresh counters and an untagged count that together equal the tallies of the specified scan of all lines |
| Pipeline.Write | src/main.py:70-80 | the two writing loops and the lines between them produce exactly the specified report of the tallies |
| Pipeline.ParseFlowLogs | src/main.py:29-80 | an empty flow log fails before anything is written, because memory-mapping a file of length zero fails; any other flow log gives the report of the tallies of the specified scan, whose contents `FlowLog.RunCounts` and `Report.ReportLayout` describe |
| Text.StripRemovesSpace | src/main.py:47 | `strip()` removes a whitespace prefix and a whitespace suffix and nothing else |
| Text.StripTrailing | src/main.py:47 | a line terminator or other trailing whitespace is stripped away |
| Text.SplitSpacePrefix | src/main.py:48 | whitespace before the text yields no fields |
| Text.SplitSpaceSuffix | src/main.py:48 | whitespace after the text yields no fields |
| Text.SplitStrip | src/main.py:47-48 | stripping a line before splitting it does not change its fields |
| Text.SplitInterleave | src/main.py:48 | `split()` finds exactly the words of a line laid out as words with whitespace runs of any length before, between and after them, with a non-empty run between two words |
| Text.SplitLayout | src/main.py:48 | every string is such a layout of the fields `split()` finds in it, so the layout lemmas cover every line |
| Text.StripIdempotent | src/main.py:52-53 | stripping an already stripped field changes nothing |
| Text.ToLowerIdempotent | src/main.py:23 | lower-casing twice is lower-casing once |
| Text.NatToStringRoundTrip | src/main.py:73-80 | the decimal text of a count reads back as that count |

## Left out

- Opening the flow log, memory-mapping it and reading it line by line (src/main.py:44-46) are not modelled. Nor is opening and writing the output file (src/main.py:68). The model takes the lines as a sequence and returns the report as a sequence of lines. The one consequence of mapping that is modelled is the failure on an empty file: `Pipeline.ParseFlowLogs` returns `None` for an empty sequence of lines, and the exception itself is not modelled.
- UTF-8 decoding of each line (src/main.py:47) is not modelled, and neither is the abort when decoding fails. Lines are taken as already decoded.
- `csv.DictReader` (src/main.py:19-20) and the exception it raises on a missing column are not modelled. Rows are taken as given `(dstport, protocol, tag)` triples.
- Whitespace and lower-casing are modelled for ASCII only. Python's `str.split()`, `str.strip()` and `str.lower()` also act on non-ASCII whitespace and letters.
- The report's line terminators are not modelled. The report is a sequence of lines, and the blank line after "Untagged,n" is an empty string.
- `main` (src/main.py:83-96) is not modelled: it only joins paths, reads the clock for a timestamp and calls the two functions.
- The lookup table is a `defaultdict`, but the scan reads it only through `.get`, which never inserts. The model therefore treats it as a plain map. It also treats a missing key the same as an empty list, since both fail the `if tags:` test.
- FlowLog.RunUntagged: the untagged count equals the number of absent keys only when no key of the table holds an empty list. `FlowLog.LoadedThenScanned` shows that the table `load_lookup_table` builds always meets that condition.
