/**
 The scan of `parse_flow_logs_mmap`: each flow-log line is split into
 whitespace-separated fields; a line with fewer than fourteen fields is
 skipped, any other yields a `(dstport, protocol)` key that is looked up in
 the table, and three tallies are updated: tag counts, pair counts and the
 untagged counter.  This module states the scan as a fold over the lines and
 proves what the tallies hold once it is done.
 */
module FlowLog {
  import opened Text
  import opened Counters
  import opened LookupTable

  datatype Option<T> = None | Some(value: T)

  /** A line with fewer fields than this is malformed and skipped. */
  const MinFields: nat := 14
  /** Index of the destination port among the fields. */
  const PortField: nat := 5
  /** Index of the IANA protocol number among the fields. */
  const ProtocolField: nat := 7

  /** The protocol numbers the scan knows by name. */
  const ProtocolNames: map<string, string> := map["6" := "tcp", "17" := "udp", "1" := "icmp"]

  /** `protocol_map.get(number, "unknown").lower()`: total, and the name is
      fixed by the number alone. */
  function ResolveProtocol(number: string): (name: string)
    ensures name == (if number == "6" then "tcp"
                     else if number == "17" then "udp"
                     else if number == "1" then "icmp"
                     else "unknown")
  {
    var name := if number in ProtocolNames then ProtocolNames[number] else "unknown";
    ToLowerNoUpper(name);
    ToLower(name)
  }

  /** `line.strip().split()` */
  function Tokens(line: string): seq<string>
  {
    Split(Strip(line))
  }

  /** The key a well-formed line is counted under, or `None` for a line the
      scan skips.  Fields are already free of whitespace, so stripping the
      port and the protocol number changes nothing. */
  function ParseRecord(line: string): (r: Option<Key>)
    ensures r.None? <==> |Tokens(line)| < MinFields
    ensures r.Some? ==> r.value == Key(Tokens(line)[PortField], ResolveProtocol(Tokens(line)[ProtocolField]))
  {
    var parts := Tokens(line);
    if |parts| < MinFields then None
    else
      StripFramed(parts[PortField]);
      StripFramed(parts[ProtocolField]);
      Some(Key(Strip(parts[PortField]), ResolveProtocol(Strip(parts[ProtocolField]))))
  }

  /** A line laid out as words with runs of whitespace before, between and
      after them (spaces, tabs, a carriage return, the line terminator) is
      skipped exactly when it has fewer than `MinFields` words, and
      otherwise is counted under its sixth word and the name of its eighth.
      By `SplitLayout` every line is laid out so, with its own fields as the
      words. */
  lemma ParseWords(gaps: seq<string>, words: seq<string>)
    requires Spaced(gaps, words)
    ensures ParseRecord(Interleave(gaps, words)).None? <==> |words| < MinFields
    ensures |words| >= MinFields ==>
      ParseRecord(Interleave(gaps, words)) == Some(Key(words[PortField], ResolveProtocol(words[ProtocolField])))
  {
    SplitStrip(Interleave(gaps, words));
    SplitInterleave(gaps, words);
  }

  /** `lookup_table.get(key)`, with an absent key reading as no tags: both
      fail the `if tags:` test alike. */
  function Lookup(table: Table, key: Key): seq<string>
  {
    if key in table then table[key] else []
  }

  /** The three running tallies of the scan. */
  datatype Tallies = Tallies(tags: Tally<string>, pairs: Tally<Key>, untagged: nat)
  {
    ghost predicate Valid()
    {
      tags.Valid() && pairs.Valid()
    }
  }

  function Start(): (t: Tallies)
    ensures t.Valid()
  {
    Tallies(Empty(), Empty(), 0)
  }

  /** One iteration of the scan loop, once the line is parsed. */
  function Count(t: Tallies, record: Option<Key>, table: Table): Tallies
  {
    match record
    case None => t
    case Some(key) =>
      var tags := Lookup(table, key);
      Tallies(if tags != [] then t.tags.AddAll(tags) else t.tags,
              t.pairs.Add(key),
              if tags != [] then t.untagged else t.untagged + 1)
  }

  /** One iteration of the scan loop. */
  function Step(t: Tallies, line: string, table: Table): Tallies
  {
    Count(t, ParseRecord(line), table)
  }

  /** What one line does to the tallies.  A skipped line changes nothing.
      A well-formed line adds one to the count of its own pair and to no
      other; then either its key has tags, and each tag's count grows by
      the number of times the tag is listed while untagged stays, or it has
      none, and untagged grows by one while no tag count moves. */
  lemma CountEffect(t: Tallies, record: Option<Key>, table: Table)
    requires t.Valid()
    ensures Count(t, record, table).Valid()
    ensures record.None? ==> Count(t, record, table) == t
    ensures record.Some? ==>
      var key, r := record.value, Count(t, record, table);
      && (forall p :: r.pairs.Get(p) == t.pairs.Get(p) + (if p == key then 1 else 0))
      && (Lookup(table, key) != [] ==>
            (forall g :: r.tags.Get(g) == t.tags.Get(g) + multiset(Lookup(table, key))[g])
            && r.untagged == t.untagged)
      && (Lookup(table, key) == [] ==>
            (forall g :: r.tags.Get(g) == t.tags.Get(g)) && r.untagged == t.untagged + 1)
  {
    if record.Some? {
      var tags := Lookup(table, record.value);
      if tags != [] {
        AddAllValid(t.tags, tags);
        forall g
          ensures t.tags.AddAll(tags).Get(g) == t.tags.Get(g) + multiset(tags)[g]
        {
          AddAllGet(t.tags, tags, g);
        }
      }
    }
  }

  /** The tallies after scanning `lines` in order. */
  function Run(lines: seq<string>, table: Table): Tallies
  {
    if lines == [] then Start()
    else Step(Run(lines[..|lines| - 1], table), lines[|lines| - 1], table)
  }

  /** Scanning one more line is one more step. */
  lemma RunSnoc(lines: seq<string>, i: nat, table: Table)
    requires i < |lines|
    ensures Run(lines[..i + 1], table) == Count(Run(lines[..i], table), ParseRecord(lines[i]), table)
  {
    assert lines[..i + 1][..i] == lines[..i];
  }

  /** The keys of the well-formed lines, in line order. */
  function Records(lines: seq<string>): seq<Key>
  {
    if lines == [] then []
    else
      var keys := Records(lines[..|lines| - 1]);
      match ParseRecord(lines[|lines| - 1])
      case None => keys
      case Some(key) => keys + [key]
  }

  /** The number of lines with at least `MinFields` fields. */
  function CountWellFormed(lines: seq<string>): nat
  {
    if lines == [] then 0
    else CountWellFormed(lines[..|lines| - 1]) + (if |Tokens(lines[|lines| - 1])| >= MinFields then 1 else 0)
  }

  /** The tag lists the records find, one after the other. */
  function MatchedTags(keys: seq<Key>, table: Table): seq<string>
  {
    if keys == [] then []
    else MatchedTags(keys[..|keys| - 1], table) + Lookup(table, keys[|keys| - 1])
  }

  /** The number of records that find no tags. */
  function CountUnmatched(keys: seq<Key>, table: Table): nat
  {
    if keys == [] then 0
    else CountUnmatched(keys[..|keys| - 1], table) + (if Lookup(table, keys[|keys| - 1]) == [] then 1 else 0)
  }

  /** The number of records whose key the table does not hold. */
  function CountAbsent(keys: seq<Key>, table: Table): nat
  {
    if keys == [] then 0
    else CountAbsent(keys[..|keys| - 1], table) + (if keys[|keys| - 1] !in table then 1 else 0)
  }

  /** The tallies of counters filled from empty with the records' keys and
      with the tags those keys find. */
  function Summary(keys: seq<Key>, table: Table): Tallies
  {
    Tallies(Empty<string>().AddAll(MatchedTags(keys, table)),
            Empty<Key>().AddAll(keys),
            CountUnmatched(keys, table))
  }

  /** Counting one more record extends the summary by that record. */
  lemma CountSummary(keys: seq<Key>, key: Key, table: Table)
    ensures Count(Summary(keys, table), Some(key), table) == Summary(keys + [key], table)
  {
    var found, tags := MatchedTags(keys, table), Lookup(table, key);
    var more := keys + [key];
    assert more[..|keys|] == keys;
    assert MatchedTags(more, table) == found + tags;
    assert CountUnmatched(more, table) == CountUnmatched(keys, table) + (if tags == [] then 1 else 0);
    assert Empty<Key>().AddAll(more) == Empty<Key>().AddAll(keys).Add(key);
    assert Empty<string>().AddAll(found + tags) == (if tags != [] then Empty<string>().AddAll(found).AddAll(tags) else Empty<string>().AddAll(found)) by {
      AddAllAppend(Empty<string>(), found, tags);
      if tags == [] {
        assert found + [] == found;
      }
    }
  }

  /** The scan, stated as a whole: the pair counter is a counter filled with
      the records' keys, the tag counter one filled with the tags they
      find, and untagged counts the records that find none. */
  lemma {:induction false} RunIsCounters(lines: seq<string>, table: Table)
    ensures Run(lines, table) == Summary(Records(lines), table)
  {
    if lines != [] {
      var init := lines[..|lines| - 1];
      RunIsCounters(init, table);
      var record := ParseRecord(lines[|lines| - 1]);
      if record.Some? {
        CountSummary(Records(init), record.value, table);
      }
    }
  }

  /** Every line with at least `MinFields` fields yields exactly one record. */
  lemma {:induction false} RecordsCount(lines: seq<string>)
    ensures |Records(lines)| == CountWellFormed(lines)
  {
    if lines != [] {
      RecordsCount(lines[..|lines| - 1]);
    }
  }

  /** The number of tags found is the total length of the lists found. */
  lemma {:induction false} MatchedTagsLength(keys: seq<Key>, table: Table)
    ensures |MatchedTags(keys, table)| == TotalLength(keys, table)
  {
    if keys != [] {
      MatchedTagsLength(keys[..|keys| - 1], table);
    }
  }

  /** The sum over the records of the length of the list each finds. */
  function TotalLength(keys: seq<Key>, table: Table): nat
  {
    if keys == [] then 0
    else TotalLength(keys[..|keys| - 1], table) + |Lookup(table, keys[|keys| - 1])|
  }

  /** In a table with no empty list, finding no tags is the same as the key
      being absent. */
  lemma {:induction false} UnmatchedIsAbsent(keys: seq<Key>, table: Table)
    requires forall k :: k in table ==> table[k] != []
    ensures CountUnmatched(keys, table) == CountAbsent(keys, table)
  {
    if keys != [] {
      UnmatchedIsAbsent(keys[..|keys| - 1], table);
    }
  }

  /** The invariants that hold once the scan is over:
      - each pair is counted once per record with that key, the pair counts
        sum to the number of well-formed lines, and pairs are listed in the
        order they were first seen;
      - each tag is counted once per listing among the tags found, the tag
        counts sum to the total length of the lists found, and tags are
        listed in the order they were first found;
      - untagged counts the records that find no tags. */
  lemma RunCounts(lines: seq<string>, table: Table)
    ensures Run(lines, table).Valid()
    ensures forall p :: Run(lines, table).pairs.Get(p) == multiset(Records(lines))[p]
    ensures Run(lines, table).pairs.Total() == CountWellFormed(lines)
    ensures FirstSeenOrder(Run(lines, table).pairs.order, Records(lines))
    ensures forall g :: Run(lines, table).tags.Get(g) == multiset(MatchedTags(Records(lines), table))[g]
    ensures Run(lines, table).tags.Total() == TotalLength(Records(lines), table)
    ensures FirstSeenOrder(Run(lines, table).tags.order, MatchedTags(Records(lines), table))
    ensures Run(lines, table).untagged == CountUnmatched(Records(lines), table)
  {
    RunIsCounters(lines, table);
    FromEmpty(Records(lines));
    FromEmpty(MatchedTags(Records(lines), table));
    RecordsCount(lines);
    MatchedTagsLength(Records(lines), table);
  }

  /** With a table as loading builds it, where no key holds an empty list,
      untagged counts exactly the records whose key is absent. */
  lemma RunUntagged(lines: seq<string>, table: Table)
    requires forall k :: k in table ==> table[k] != []
    ensures Run(lines, table).untagged == CountAbsent(Records(lines), table)
  {
    RunIsCounters(lines, table);
    UnmatchedIsAbsent(Records(lines), table);
  }

  /** With the table as `load_lookup_table` builds it, untagged counts
      exactly the records whose key no row of the lookup table names. */
  lemma LoadedThenScanned(rows: seq<Row>, lines: seq<string>)
    ensures Run(lines, Fold(Entries(rows))).untagged == CountAbsent(Records(lines), Fold(Entries(rows)))
  {
    var table := Fold(Entries(rows));
    forall k | k in table
      ensures table[k] != []
    {
      LoadedTable(rows, k);
    }
    RunUntagged(lines, table);
  }
}
