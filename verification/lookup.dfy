/**
 The lookup table (`load_lookup_table`): CSV rows `(dstport, protocol, tag)`,
 already parsed, are folded into a dictionary from `(port, protocol)` to the
 list of tags of the rows with that key.
 */
module LookupTable {
  import opened Text

  /** One CSV row, fields as the CSV reader hands them over. */
  datatype Row = Row(dstport: string, protocol: string, tag: string)

  /** A `(port, protocol)` key; equality is on the literal strings, so "80"
      and "080" are different ports. */
  datatype Key = Key(port: string, protocol: string)

  type Table = map<Key, seq<string>>

  /** The key a row files its tag under: port trimmed, protocol trimmed and
      lower-cased. */
  function RowKey(row: Row): Key
  {
    Key(Strip(row.dstport), ToLower(Strip(row.protocol)))
  }

  function RowTag(row: Row): string
  {
    Strip(row.tag)
  }

  /** A key is normalised once: filing a row under the key another row was
      filed under gives that same key back. */
  lemma RowKeyNormalised(row: Row, tag: string)
    ensures RowKey(Row(RowKey(row).port, RowKey(row).protocol, tag)) == RowKey(row)
  {
    var k := RowKey(row);
    StripIdempotent(row.dstport);
    var p := Strip(row.protocol);
    assert Strip(k.protocol) == k.protocol by {
      assert k.protocol == ToLower(p);
      if p != [] {
        assert !IsSpace(k.protocol[0]);
        assert !IsSpace(k.protocol[|p| - 1]);
      }
      StripFramed(k.protocol);
    }
    ToLowerIdempotent(p);
  }

  /** What one row contributes: its key and its trimmed tag. */
  datatype Entry = Entry(key: Key, tag: string)

  function RowEntry(row: Row): (e: Entry)
    ensures e.key == RowKey(row) && e.tag == RowTag(row)
  {
    Entry(RowKey(row), RowTag(row))
  }

  /** The entries of the rows, in row order. */
  function Entries(rows: seq<Row>): (es: seq<Entry>)
    ensures |es| == |rows|
  {
    if rows == [] then [] else Entries(rows[..|rows| - 1]) + [RowEntry(rows[|rows| - 1])]
  }

  lemma EntriesSnoc(rows: seq<Row>, i: nat)
    requires i < |rows|
    ensures Entries(rows[..i + 1]) == Entries(rows[..i]) + [RowEntry(rows[i])]
  {
    assert rows[..i + 1][..i] == rows[..i];
  }

  lemma {:induction false} EntriesAt(rows: seq<Row>, i: nat)
    requires i < |rows|
    ensures Entries(rows)[i] == RowEntry(rows[i])
  {
    if i < |rows| - 1 {
      EntriesAt(rows[..|rows| - 1], i);
    }
  }

  /** The tags of the entries filed under `k`, in order, repeats kept. */
  function TagsFor(es: seq<Entry>, k: Key): (tags: seq<string>)
    ensures |tags| <= |es|
  {
    if es == [] then []
    else
      var init, e := es[..|es| - 1], es[|es| - 1];
      TagsFor(init, k) + (if e.key == k then [e.tag] else [])
  }

  /** Loading more rows appends to each key's list: the tags of earlier rows
      are never overwritten. */
  lemma {:induction false} TagsForAppend(es: seq<Entry>, more: seq<Entry>, k: Key)
    ensures TagsFor(es + more, k) == TagsFor(es, k) + TagsFor(more, k)
  {
    if more == [] {
      assert es + more == es;
    } else {
      var init := more[..|more| - 1];
      assert (es + more)[..|es + more| - 1] == es + init;
      TagsForAppend(es, init, k);
    }
  }

  /** A key has tags exactly when some entry is filed under it. */
  lemma {:induction false} TagsForNonEmpty(es: seq<Entry>, k: Key)
    ensures TagsFor(es, k) != [] <==> exists i :: 0 <= i < |es| && es[i].key == k
  {
    if es != [] {
      var n := |es| - 1;
      var init := es[..n];
      TagsForNonEmpty(init, k);
      if exists i :: 0 <= i < n && init[i].key == k {
        var i :| 0 <= i < n && init[i].key == k;
        assert es[i].key == k;
      }
      if exists i :: 0 <= i < |es| && es[i].key == k {
        var i :| 0 <= i < |es| && es[i].key == k;
        if i < n {
          assert init[i].key == k;
        }
      }
    }
  }

  /** Every tag listed under `k` is the tag of an entry filed under `k`. */
  lemma {:induction false} TagsForFrom(es: seq<Entry>, k: Key, j: nat)
    requires j < |TagsFor(es, k)|
    ensures exists i :: 0 <= i < |es| && es[i] == Entry(k, TagsFor(es, k)[j])
  {
    var n := |es| - 1;
    var init := es[..n];
    if j < |TagsFor(init, k)| {
      TagsForFrom(init, k, j);
      var i :| 0 <= i < n && init[i] == Entry(k, TagsFor(init, k)[j]);
      assert es[i] == init[i];
    }
  }

  /** The dictionary after each entry in turn has appended its tag to the
      list of its key (`defaultdict(list)` then `.append`). */
  function Fold(es: seq<Entry>): Table
  {
    if es == [] then map[]
    else
      var table, e := Fold(es[..|es| - 1]), es[|es| - 1];
      table[e.key := (if e.key in table then table[e.key] else []) + [e.tag]]
  }

  lemma FoldSnoc(es: seq<Entry>, e: Entry)
    ensures Fold(es + [e]) == Fold(es)[e.key := (if e.key in Fold(es) then Fold(es)[e.key] else []) + [e.tag]]
  {
    assert (es + [e])[..|es|] == es;
  }

  /** Folding appends, never overwrites: a key is present exactly when it has
      tags, and then it holds all of them, in order, repeats kept. */
  lemma {:induction false} FoldTags(es: seq<Entry>, k: Key)
    ensures k in Fold(es) <==> TagsFor(es, k) != []
    ensures k in Fold(es) ==> Fold(es)[k] == TagsFor(es, k)
  {
    if es != [] {
      FoldTags(es[..|es| - 1], k);
    }
  }

  /** `load_lookup_table`: each row appends its tag to the list of its key. */
  method LoadLookupTable(rows: seq<Row>) returns (table: Table)
    ensures table == Fold(Entries(rows))
  {
    table := map[];
    ghost var es: seq<Entry> := [];
    var i := 0;
    while i < |rows|
      invariant 0 <= i <= |rows|
      invariant es == Entries(rows[..i])
      invariant table == Fold(es)
    {
      var entry := RowEntry(rows[i]);
      // a missing key starts from the empty list, as `defaultdict(list)` does
      var tags := if entry.key in table then table[entry.key] else [];
      table := table[entry.key := tags + [entry.tag]];
      FoldSnoc(es, entry);
      EntriesSnoc(rows, i);
      es := es + [entry];
      i := i + 1;
    }
    assert rows[..|rows|] == rows;
  }

  /** The loaded table, key by key: a key is present exactly when some row is
      filed under it, and then it lists the trimmed tags of those rows, in
      row order, repeats kept; a key no row names is absent, never present
      with an empty list. */
  lemma LoadedTable(rows: seq<Row>, k: Key)
    ensures k in Fold(Entries(rows)) <==> exists i :: 0 <= i < |rows| && RowKey(rows[i]) == k
    ensures k in Fold(Entries(rows)) ==> Fold(Entries(rows))[k] == TagsFor(Entries(rows), k)
    ensures k in Fold(Entries(rows)) ==> Fold(Entries(rows))[k] != []
  {
    var es := Entries(rows);
    FoldTags(es, k);
    TagsForNonEmpty(es, k);
    if k in Fold(es) {
      var i :| 0 <= i < |es| && es[i].key == k;
      EntriesAt(rows, i);
    }
    if exists i :: 0 <= i < |rows| && RowKey(rows[i]) == k {
      var i :| 0 <= i < |rows| && RowKey(rows[i]) == k;
      EntriesAt(rows, i);
    }
  }
}
