/** Encoded dumps read back as the records that were written. */
module CounterDumpTheorems {
  import opened Prelude
  import opened Bytes
  import opened CounterDumpFormat
  import opened CounterDumpEncode
  import opened CounterDumpParse
  import opened CounterDumpRoundTrip

  // ---- Strings -------------------------------------------------------------

  lemma ResolveBack(record: Record, s: Str, utf8: Str -> bool)
    requires s in StringsOf(record) && utf8(s) && |TableOf(record)| <= MAX_U32
    ensures ResolveString(ViewOf(record), StrId(TableOf(record), s), utf8) == Ok(s)
    ensures StrId(TableOf(record), s) != NONE_U32
  {
    hide StringsOf, RecordHeader, ColumnsOf, EndOffsets, Flatten, TableUpTo;
    InTable(record, s);
    var table := TableOf(record);
    var id := StrId(table, s);
    assert id < |table| && table[id] == s;
    hide TableOf, IndexIn;
    EndOffsetAt(table, id);
    EndOffsetAt(table, id + 1);
    SectionCut(table, id);
  }

  lemma InTable(record: Record, s: Str)
    requires s in StringsOf(record)
    ensures s in TableOf(record)
  {
    var all := StringsOf(record);
    hide StringsOf;
    TableHolds(all, |all|);
    assert all[..|all|] == all;
  }

  lemma ResolveOptionalBack(record: Record, s: Option<Str>, utf8: Str -> bool)
    requires s.Some? ==> s.value in StringsOf(record) && utf8(s.value)
    requires |TableOf(record)| <= MAX_U32
    ensures ResolveOptional(ViewOf(record), OptStrId(TableOf(record), s), utf8) == Ok(s)
  {
    if s.Some? {
      ResolveBack(record, s.value, utf8);
      hide ResolveString, ViewOf, TableOf, StringsOf;
    }
  }

  lemma {:induction false} RowStringsIncluded(rows: seq<Row>, i: nat, s: Str)
    requires i < |rows| && s in RowStrings(rows[i])
    ensures s in RowsStrings(rows)
    decreases |rows|
  {
    if i < |rows| - 1 {
      RowStringsIncluded(rows[..|rows| - 1], i, s);
    }
  }

  // ---- Rows ----------------------------------------------------------------

  // What survives of an id: the all-ones value is the format's "none".
  function CanonId(id: Option<U64>): Option<U64> {
    if id == Some(NONE_U64) then None else id
  }

  function CanonInstr(id: Option<InstrId>): Option<InstrId> {
    if id.Some? && (id.value.blockLabel == NONE_U32 || id.value.indexInBlock == NONE_U32) then None else id
  }

  function CanonRow(row: Row): Row {
    row.(functionId := CanonId(row.functionId), currentFunctionId := CanonId(row.currentFunctionId),
         instrId := CanonInstr(row.instrId))
  }

  // What a record reads back as.
  function CanonRecord(record: Record): Record {
    Record(record.moduleName, PackageOf(record), seq(|record.rows|, i requires 0 <= i < |record.rows| => CanonRow(record.rows[i])))
  }

  predicate UsesNone(row: Row) {
    || row.functionId == Some(NONE_U64) || row.currentFunctionId == Some(NONE_U64)
    || (row.instrId.Some? && (row.instrId.value.blockLabel == NONE_U32 || row.instrId.value.indexInBlock == NONE_U32))
  }

  // A record reads back unchanged exactly when it has no empty package name and no id is the "none" value.
  lemma CanonIsIdentityExactly(record: Record)
    ensures CanonRecord(record) == record <==>
            record.packageName != Some([]) && forall i :: 0 <= i < |record.rows| ==> !UsesNone(record.rows[i])
  {
  }

  predicate Utf8Record(record: Record, utf8: Str -> bool) {
    forall s :: s in StringsOf(record) ==> utf8(s)
  }

  lemma RowStringsHeld(record: Record, i: nat)
    requires i < |record.rows|
    ensures forall s :: s in RowStrings(record.rows[i]) ==> s in StringsOf(record)
  {
    forall s | s in RowStrings(record.rows[i])
      ensures s in StringsOf(record)
    {
      RowStringsIncluded(record.rows, i, s);
    }
  }

  lemma RowEntry(record: Record, i: nat)
    requires i < |record.rows|
    ensures var c, row, t := ViewOf(record).columns, record.rows[i], TableOf(record);
            && |c.counterId| == |record.rows| && PerRow(c, |record.rows|)
            && c.counterId[i] == row.counterId && c.scope[i] == StrId(t, row.scope)
            && c.kind[i] == StrId(t, row.kind) && c.siteKind[i] == StrId(t, row.siteKind)
            && c.functionId[i] == OptU64(row.functionId) && c.currentFunctionId[i] == OptU64(row.currentFunctionId)
            && c.instrBlockLabel[i] == (if row.instrId.Some? then row.instrId.value.blockLabel else NONE_U32)
            && c.instrIndex[i] == (if row.instrId.Some? then row.instrId.value.indexInBlock else NONE_U32)
            && c.functionQualname[i] == OptStrId(t, row.functionQualname)
            && c.blockLabel[i] == OptStrId(t, row.blockLabel) && c.value[i] == row.value
  {
    hide TableOf, RecordHeader, EndOffsets, Flatten, IndexIn;
  }

  // A row is read from its column entries and the strings they name.
  lemma ReadRowFrom(v: View, i: nat, row: Row, utf8: Str -> bool)
    requires Sound(v) && i < |v.columns.counterId|
    requires v.columns.counterId[i] == row.counterId && v.columns.value[i] == row.value
    requires v.columns.functionId[i] == OptU64(row.functionId) && v.columns.currentFunctionId[i] == OptU64(row.currentFunctionId)
    requires v.columns.instrBlockLabel[i] == (if row.instrId.Some? then row.instrId.value.blockLabel else NONE_U32)
    requires v.columns.instrIndex[i] == (if row.instrId.Some? then row.instrId.value.indexInBlock else NONE_U32)
    requires ResolveString(v, v.columns.scope[i], utf8) == Ok(row.scope)
    requires ResolveString(v, v.columns.kind[i], utf8) == Ok(row.kind)
    requires ResolveString(v, v.columns.siteKind[i], utf8) == Ok(row.siteKind)
    requires ResolveOptional(v, v.columns.functionQualname[i], utf8) == Ok(row.functionQualname)
    requires ResolveOptional(v, v.columns.blockLabel[i], utf8) == Ok(row.blockLabel)
    ensures ReadRow(v, i, utf8) == Ok(CanonRow(row))
  {
  }

  // Every row reads back.
  lemma RowBack(record: Record, i: nat, utf8: Str -> bool)
    requires Fits(record) && Utf8Record(record, utf8) && i < |record.rows| && Sound(ViewOf(record))
    ensures ReadRow(ViewOf(record), i, utf8) == Ok(CanonRow(record.rows[i]))
  {
    hide ResolveString, ResolveOptional, ViewOf, TableOf, StringsOf, Sound, RecordHeader, OptStrId, StrId, ReadRow, CanonRow;
    var row := record.rows[i];
    RowEntry(record, i);
    RowStringsHeld(record, i);
    assert row.scope in RowStrings(row) && row.kind in RowStrings(row) && row.siteKind in RowStrings(row);
    assert row.functionQualname.Some? ==> row.functionQualname.value in RowStrings(row);
    assert row.blockLabel.Some? ==> row.blockLabel.value in RowStrings(row);
    hide RowStrings;
    ResolveBack(record, row.scope, utf8);
    ResolveBack(record, row.kind, utf8);
    ResolveBack(record, row.siteKind, utf8);
    ResolveOptionalBack(record, row.functionQualname, utf8);
    ResolveOptionalBack(record, row.blockLabel, utf8);
    ReadRowFrom(ViewOf(record), i, row, utf8);
  }

  // The view shows a record: its names and every row.
  ghost predicate Shows(v: View, record: Record, utf8: Str -> bool) {
    && ModuleName(v, utf8) == Ok(record.moduleName)
    && PackageName(v, utf8) == Ok(record.packageName)
    && |v.columns.counterId| == |record.rows|
    && Sound(v)
    && forall i :: 0 <= i < |record.rows| ==> ReadRow(v, i, utf8) == Ok(record.rows[i])
  }

  lemma ViewShows(record: Record, utf8: Str -> bool)
    requires Fits(record) && Utf8Record(record, utf8) && Sound(ViewOf(record))
    ensures Shows(ViewOf(record), CanonRecord(record), utf8)
  {
    hide ReadRow, ResolveString, ResolveOptional, TableOf, StringsOf, Fits, Utf8Record, Sound, CanonRow, Flatten, EndOffsets;
    NamesHeld(record, utf8);
    ResolveBack(record, record.moduleName, utf8);
    ResolveOptionalBack(record, PackageOf(record), utf8);
    forall i | 0 <= i < |record.rows|
      ensures ReadRow(ViewOf(record), i, utf8) == Ok(CanonRecord(record).rows[i])
    {
      RowBack(record, i, utf8);
    }
  }

  lemma NamesHeld(record: Record, utf8: Str -> bool)
    requires Fits(record) && Utf8Record(record, utf8)
    ensures |TableOf(record)| <= MAX_U32
    ensures record.moduleName in StringsOf(record) && utf8(record.moduleName)
    ensures PackageOf(record).Some? ==> PackageOf(record).value in StringsOf(record) && utf8(PackageOf(record).value)
  {
    assert record.moduleName == StringsOf(record)[0];
    if PackageOf(record).Some? {
      assert StringsOf(record)[1] == PackageOf(record).value;
    }
  }

  // ---- Whole dumps ---------------------------------------------------------

  // A dump file: records appended one after another.
  function DumpOf(records: seq<Record>): seq<Byte> {
    if records == [] then [] else RecordBytes(records[0]) + DumpOf(records[1..])
  }

  ghost function ViewsOf(records: seq<Record>): (r: seq<View>)
    ensures |r| == |records|
  {
    seq(|records|, i requires 0 <= i < |records| => ViewOf(records[i]))
  }

  // Parsing the concatenation finds each record, in order.
  lemma {:induction false} DumpParsesBack(records: seq<Record>, base: nat)
    requires forall r :: r in records ==> Fits(r)
    requires Aligned(base, 8)
    ensures ParseAll(DumpOf(records), base) == Ok(ViewsOf(records))
    ensures forall r :: r in records ==> Sound(ViewOf(r))
    decreases |records|
  {
    hide ParseOne, Sound, Fits, Aligned, RecordBytes, ViewOf;
    if records != [] {
      var first, rest := records[0], records[1..];
      ParseOneBack(first, DumpOf(rest), base);
      RecordLengthBack(first, base);
      var bytes := DumpOf(records);
      var n := ViewOf(first).header.recordLen;
      assert bytes[n..] == DumpOf(rest);
      DumpParsesBack(rest, base + n);
      assert ViewsOf(records) == [ViewOf(first)] + ViewsOf(rest);
    }
  }

  lemma RecordLengthBack(record: Record, base: nat)
    requires Aligned(base, 8)
    ensures ViewOf(record).header.recordLen == |RecordBytes(record)|
    ensures Aligned(base + |RecordBytes(record)|, 8)
  {
    hide RecordBytes, RecordHeader, LaidOut, TableOf, ColumnsOf;
    EncodedLength(record);
    AddEights(base, |RecordBytes(record)|, 0);
  }

  lemma EncodedLength(record: Record)
    ensures |RecordBytes(record)| == RecordHeader(record).recordLen && Aligned(|RecordBytes(record)|, 8)
  {
    hide RecordHeader, Sections, Flatten, LaidOut;
    RecordWritten(record);
    InOrder(RecordHeader(record));
  }

  // The round trip: whatever records are encoded and appended, the parser shows exactly those records.
  lemma DumpRoundTrip(records: seq<Record>, base: nat, utf8: Str -> bool)
    requires forall r :: r in records ==> Fits(r) && Utf8Record(r, utf8)
    requires Aligned(base, 8)
    ensures var views := ParseAll(DumpOf(records), base);
            && views.Ok? && |views.value| == |records|
            && forall i :: 0 <= i < |records| ==> Shows(views.value[i], CanonRecord(records[i]), utf8)
  {
    DumpParsesBack(records, base);
    hide ParseAll, ViewOf, Shows, CanonRecord, Fits, Utf8Record, Sound;
    forall i | 0 <= i < |records|
      ensures Shows(ViewsOf(records)[i], CanonRecord(records[i]), utf8)
    {
      assert records[i] in records;
      ViewShows(records[i], utf8);
    }
  }

  // A view shows at most one record, so the bytes of a dump determine what was written up to the lost ids.
  lemma DumpDeterminesRecords(a: seq<Record>, b: seq<Record>)
    requires forall r :: r in a + b ==> Fits(r)
    requires DumpOf(a) == DumpOf(b)
    ensures |a| == |b| && forall i :: 0 <= i < |a| ==> CanonRecord(a[i]) == CanonRecord(b[i])
  {
    // The bytes alone decide, so any notion of valid text serves.
    var any := (s: Str) => true;
    DumpRoundTrip(a, 0, any);
    DumpRoundTrip(b, 0, any);
    hide ParseAll, CanonRecord, Fits, ModuleName, PackageName, ReadRow, Sound;
    forall i | 0 <= i < |a|
      ensures CanonRecord(a[i]) == CanonRecord(b[i])
    {
      var p, q := CanonRecord(a[i]), CanonRecord(b[i]);
      assert p.rows == q.rows;
    }
  }
}
