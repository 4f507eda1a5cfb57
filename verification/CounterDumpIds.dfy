/** The order in which the encoder numbers strings, read off the bytes (`soac-eval/src/counter_dump.rs`). */
module CounterDumpIds {
  import opened Prelude
  import opened Bytes
  import opened CounterDumpFormat
  import opened CounterDumpEncode
  import opened CounterDumpRoundTrip
  import opened CounterDumpTheorems
  import opened CounterDumpWire

  // A word of all ones is no id.
  function Present(word: nat): seq<nat> {
    if word == 0xFFFF_FFFF then [] else [word]
  }

  // The string ids in row `i`: scope, kind, site kind, then the qualified name and the block label if it has them.
  function RowIds(b: seq<Byte>, i: nat): seq<nat>
    requires IsRecord(b) && i < Le32(b, 16)
  {
    [Le32(b, Le32(b, 48) + 4 * i), Le32(b, Le32(b, 52) + 4 * i), Le32(b, Le32(b, 56) + 4 * i)]
    + Present(Le32(b, Le32(b, 76) + 4 * i)) + Present(Le32(b, Le32(b, 80) + 4 * i))
  }

  // Those of the module, its package, and the first `n` rows.
  function IdsUpTo(b: seq<Byte>, n: nat): seq<nat>
    requires IsRecord(b) && n <= Le32(b, 16)
  {
    if n == 0 then [Le32(b, 28)] + Present(Le32(b, 32)) else IdsUpTo(b, n - 1) + RowIds(b, n - 1)
  }

  // Every id comes after all smaller ones.
  ghost predicate InOrderOfUse(ids: seq<nat>) {
    forall k, m: nat :: 0 <= k < |ids| && m < ids[k] ==> m in ids[..k]
  }

  // ---- Ids of a list of strings --------------------------------------------

  function IdsOf(table: seq<Str>, strings: seq<Str>): (r: seq<nat>)
    ensures |r| == |strings| && forall k :: 0 <= k < |r| ==> r[k] == StrId(table, strings[k])
  {
    seq(|strings|, k requires 0 <= k < |strings| => StrId(table, strings[k]))
  }

  lemma IdsOfAppend(table: seq<Str>, a: seq<Str>, b: seq<Str>)
    ensures IdsOf(table, a + b) == IdsOf(table, a) + IdsOf(table, b)
  {
  }

  lemma IdOfEntry(strings: seq<Str>, m: nat)
    requires m < |TableUpTo(strings, |strings|)|
    ensures StrId(TableUpTo(strings, |strings|), TableUpTo(strings, |strings|)[m]) == m
  {
    TableHolds(strings, |strings|);
    hide TableUpTo;
  }

  lemma TableNext(strings: seq<Str>, k: nat)
    requires k < |strings|
    ensures TableUpTo(strings, k + 1) == Interned(TableUpTo(strings, k), strings[k])
  {
  }

  // String `k` is in the table already or goes to its end.
  lemma IdIsNextAtMost(strings: seq<Str>, k: nat)
    requires k < |strings|
    ensures StrId(TableUpTo(strings, |strings|), strings[k]) <= |TableUpTo(strings, k)|
    ensures TableUpTo(strings, k) <= TableUpTo(strings, |strings|)
  {
    hide TableUpTo, IndexIn;
    TableNext(strings, k);
    var rest := TableGrows(strings, k + 1, |strings|);
    var whole := TableGrows(strings, k, |strings|);
    IndexStays(TableUpTo(strings, k + 1), rest, strings[k]);
  }

  // So every smaller id belongs to an earlier string.
  lemma SmallerIdIsEarlier(strings: seq<Str>, k: nat, m: nat) returns (j: nat)
    requires k < |strings| && m < StrId(TableUpTo(strings, |strings|), strings[k])
    ensures j < k && StrId(TableUpTo(strings, |strings|), strings[j]) == m
  {
    hide TableUpTo, StrId;
    IdIsNextAtMost(strings, k);
    TableHolds(strings, k);
    var s := TableUpTo(strings, k)[m];
    assert s in TableUpTo(strings, k) && s in strings[..k];
    j :| 0 <= j < k && strings[j] == s;
    IdOfEntry(strings, m);
  }

  lemma IdsAreInOrder(strings: seq<Str>)
    ensures InOrderOfUse(IdsOf(TableUpTo(strings, |strings|), strings))
    ensures forall m: nat :: m < |TableUpTo(strings, |strings|)| <==> m in IdsOf(TableUpTo(strings, |strings|), strings)
  {
    var table := TableUpTo(strings, |strings|);
    var ids := IdsOf(table, strings);
    TableHolds(strings, |strings|);
    assert strings[..|strings|] == strings;
    hide TableUpTo, IndexIn;
    forall k, m: nat | 0 <= k < |ids| && m < ids[k]
      ensures m in ids[..k]
    {
      var j := SmallerIdIsEarlier(strings, k, m);
      assert ids[..k][j] == m;
    }
    forall m: nat | m < |table|
      ensures m in ids
    {
      IdOfEntry(strings, m);
      var j :| 0 <= j < |strings| && strings[j] == table[m];
      assert ids[j] == m;
    }
    forall k | 0 <= k < |ids|
      ensures ids[k] < |table|
    {
      assert strings[k] in table;
    }
  }

  // ---- Reading them off the bytes ------------------------------------------

  lemma PresentId(record: Record, s: Option<Str>)
    requires |TableOf(record)| <= MAX_U32 && (s.Some? ==> s.value in StringsOf(record))
    ensures Present(OptStrId(TableOf(record), s)) == IdsOf(TableOf(record), OptStr(s))
  {
    if s.Some? {
      InTable(record, s.value);
    }
    hide TableOf, StringsOf;
  }

  lemma RowIdsAre(record: Record, b: seq<Byte>, i: nat)
    requires |TableOf(record)| <= MAX_U32 && IsRecord(b) && ViewAt(b, ViewOf(record)) && i < Le32(b, 16) && i < |record.rows|
    ensures RowIds(b, i) == IdsOf(TableOf(record), RowStrings(record.rows[i]))
  {
    hide IsRecord, ViewAt, TableOf, StringsOf, Le32, Present, IndexIn, ViewOf;
    var row, t := record.rows[i], TableOf(record);
    RowWords(b, ViewOf(record), i);
    RowEntry(record, i);
    OptionalsUsed(record, i);
    PresentId(record, row.functionQualname);
    PresentId(record, row.blockLabel);
    IdsOfAppend(t, [row.scope, row.kind, row.siteKind], OptStr(row.functionQualname));
    IdsOfAppend(t, [row.scope, row.kind, row.siteKind] + OptStr(row.functionQualname), OptStr(row.blockLabel));
  }

  lemma OptionalsUsed(record: Record, i: nat)
    requires i < |record.rows|
    ensures var row := record.rows[i];
            && (row.functionQualname.Some? ==> row.functionQualname.value in StringsOf(record))
            && (row.blockLabel.Some? ==> row.blockLabel.value in StringsOf(record))
  {
    hide RowsStrings;
    var row := record.rows[i];
    if row.functionQualname.Some? {
      RowStringsIncluded(record.rows, i, row.functionQualname.value);
    }
    if row.blockLabel.Some? {
      RowStringsIncluded(record.rows, i, row.blockLabel.value);
    }
  }

  // The ids in the header.
  lemma HeadIdsAre(record: Record, b: seq<Byte>)
    requires |TableOf(record)| <= MAX_U32 && IsRecord(b) && ViewAt(b, ViewOf(record))
    ensures IdsUpTo(b, 0) == IdsOf(TableOf(record), [record.moduleName] + OptStr(PackageOf(record)))
  {
    hide IsRecord, TableOf, Le32, Present, IndexIn, ColumnsAt, Column4At;
    assert PackageOf(record).Some? ==> StringsOf(record)[1] == PackageOf(record).value;
    PresentId(record, PackageOf(record));
    IdsOfAppend(TableOf(record), [record.moduleName], OptStr(PackageOf(record)));
  }

  lemma NoRowStrings()
    ensures RowsStrings([]) == []
  {
  }

  lemma IdsNext(b: seq<Byte>, n: nat)
    requires IsRecord(b) && 0 < n <= Le32(b, 16)
    ensures IdsUpTo(b, n) == IdsUpTo(b, n - 1) + RowIds(b, n - 1)
  {
    hide IsRecord, RowIds, Le32;
  }

  lemma NextIds(table: seq<Str>, head: seq<Str>, a: seq<Str>, b: seq<Str>)
    ensures IdsOf(table, head + a) + IdsOf(table, b) == IdsOf(table, head + (a + b))
  {
    IdsOfAppend(table, head + a, b);
    assert head + a + b == head + (a + b);
  }

  lemma {:induction false} IdsUpToAre(record: Record, b: seq<Byte>, n: nat)
    requires |TableOf(record)| <= MAX_U32 && IsRecord(b) && ViewAt(b, ViewOf(record)) && n <= Le32(b, 16) && n <= |record.rows|
    ensures IdsUpTo(b, n)
         == IdsOf(TableOf(record), [record.moduleName] + OptStr(PackageOf(record)) + RowsStrings(record.rows[..n]))
  {
    hide IsRecord, ViewAt, TableOf, StringsOf, Le32, RowIds, RowStrings, RowsStrings, Present, ViewOf, IdsOf, PackageOf, IdsUpTo;
    var t, head := TableOf(record), [record.moduleName] + OptStr(PackageOf(record));
    if n == 0 {
      HeadIdsAre(record, b);
      NoRowStrings();
      assert record.rows[..0] == [] && head + [] == head;
    } else {
      IdsNext(b, n);
      IdsUpToAre(record, b, n - 1);
      RowIdsAre(record, b, n - 1);
      RowsStringsNext(record.rows, n - 1);
      NextIds(t, head, RowsStrings(record.rows[..n - 1]), RowStrings(record.rows[n - 1]));
    }
  }

  // In the encoder's bytes strings are numbered from zero in the order of their first use: module, package, then row by
  // row. The table holds the strings used and no others.
  lemma IdsOnWire(record: Record, utf8: Str -> bool)
    requires Fits(record) && Utf8Record(record, utf8)
    ensures var b := RecordBytes(record);
            && IsRecord(b) && Le32(b, 16) == |record.rows|
            && InOrderOfUse(IdsUpTo(b, |record.rows|))
            && forall m: nat :: m < Le32(b, 20) <==> m in IdsUpTo(b, |record.rows|)
  {
    hide IsRecord, ViewAt, RecordBytes, TableOf, TableUpTo, StringsOf, Le32, Packed, IdsUpTo, InOrderOfUse, RowAtBytes, IdsWritten;
    var b := RecordBytes(record);
    EncodedOnWire(record, utf8);
    WireView(record);
    IdsUpToAre(record, b, |record.rows|);
    assert record.rows[..|record.rows|] == record.rows;
    RecordIds(record);
    StringsCounted(record, b);
  }

  lemma RecordIds(record: Record)
    ensures var ids := IdsOf(TableOf(record), [record.moduleName] + OptStr(PackageOf(record)) + RowsStrings(record.rows));
            InOrderOfUse(ids) && forall m: nat :: m < |TableOf(record)| <==> m in ids
  {
    hide InOrderOfUse, TableUpTo;
    IdsAreInOrder(StringsOf(record));
  }

  lemma StringsCounted(record: Record, b: seq<Byte>)
    requires |b| >= 88 && ViewAt(b, ViewOf(record))
    ensures Le32(b, 20) == |TableOf(record)|
  {
    hide TableOf, Le32, ColumnsAt, HeaderAt, Column4At, Flatten;
  }
}
