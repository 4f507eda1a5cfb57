/** Reading back what the encoder wrote. */
module CounterDumpRoundTrip {
  import opened Prelude
  import opened Bytes
  import opened CounterDumpFormat
  import opened CounterDumpEncode
  import opened CounterDumpParse

  // What the parser should see in an encoded record.
  ghost function ViewOf(record: Record): View {
    View(RecordHeader(record), EndOffsets(TableOf(record)), Flatten(TableOf(record)), ColumnsOf(TableOf(record), record.rows))
  }

  // ---- The header ----------------------------------------------------------

  lemma HeaderFieldsFit(record: Record)
    requires Fits(record)
    ensures forall i :: 0 <= i < 19 ==> FieldsOf(RecordHeader(record))[i] < Limit(4)
  {
    hide TableOf, Limit, IndexIn, Flatten;
    LimitOfWords();
    RecordLengthBoundsFields(RecordHeader(record));
    HeaderIds(record);
  }

  lemma HeaderBack(h: Header, rest: seq<Byte>, base: nat)
    requires base % 4 == 0 && forall i :: 0 <= i < 19 ==> FieldsOf(h)[i] < Limit(4)
    ensures ReadHeader(HeaderBytes(h) + rest, base) == Ok(h)
  {
    hide Limit, ReadWords, Words, FieldsOf, HeaderFrom, ToBytes, FromBytes;
    var v, z, w := ToBytes(VERSION, 2), ToBytes(HEADER_SIZE, 2), Words(FieldsOf(h), 4);
    var all := HeaderBytes(h) + rest;
    assert HeaderBytes(h) == MAGIC + v + z + w;
    assert all[..8] == MAGIC && all[8..10] == v && all[10..12] == z && all[12..88] == w;
    SmallWords();
    ReadWordsBack(FieldsOf(h), 4);
    FieldsBack(h);
  }

  lemma SmallWords()
    ensures FromBytes(ToBytes(VERSION, 2)) == VERSION && FromBytes(ToBytes(HEADER_SIZE, 2)) == HEADER_SIZE
  {
    LimitOfWords();
    FromToBytes(VERSION, 2);
    FromToBytes(HEADER_SIZE, 2);
  }

  lemma FieldsBack(h: Header)
    ensures HeaderFrom(FieldsOf(h)) == h
  {
  }

  // ---- Sections ------------------------------------------------------------

  lemma InOrder(h: Header)
    requires LaidOut(h)
    ensures SectionsInOrder(h) && LengthValid(h)
  {
  }

  ghost predicate Aligned(a: nat, w: nat) {
    w > 0 && a % w == 0
  }

  lemma TimesAligned(k: nat, w: nat, a: nat)
    requires w > 0 && a == w * k
    ensures Aligned(a, w)
  {
    MultipleIsAligned(k, w);
  }

  lemma AddFours(base: nat, a: nat, n: nat)
    requires Aligned(base, 8) && Aligned(a, 4)
    ensures Aligned(base + a, 4) && Aligned(a + n * 4, 4)
  {
    var x, y := a / 4, base / 8;
    assert a == x * 4 && base == y * 8;
    TimesAligned(y * 2 + x, 4, base + a);
    TimesAligned(x + n, 4, a + n * 4);
  }

  lemma AddEights(base: nat, a: nat, n: nat)
    requires Aligned(base, 8) && Aligned(a, 8)
    ensures Aligned(base + a, 8) && Aligned(a + n * 8, 8)
  {
    var x, y := a / 8, base / 8;
    assert a == x * 8 && base == y * 8;
    TimesAligned(y + x, 8, base + a);
    TimesAligned(x + n, 8, a + n * 8);
  }

  lemma EightIsFour(a: nat)
    requires Aligned(a, 8)
    ensures Aligned(a, 4)
  {
    var x := a / 8;
    assert a == x * 8;
    TimesAligned(x * 2, 4, a);
  }

  // Sections follow one another, and start on a boundary where the width of their words changes.
  ghost predicate Stepped(h: Header) {
    var n := h.rowCount;
    && Aligned(h.stringOffsetsOffset, 4) && Aligned(h.counterIdOffset, 4)
    && Aligned(h.functionIdOffset, 8) && Aligned(h.valueOffset, 8)
    && h.scopeOffset == h.counterIdOffset + n * 4 && h.kindOffset == h.scopeOffset + n * 4
    && h.siteKindOffset == h.kindOffset + n * 4 && h.currentFunctionIdOffset == h.functionIdOffset + n * 8
    && h.instrBlockLabelOffset == h.currentFunctionIdOffset + n * 8
    && h.instrIndexOffset == h.instrBlockLabelOffset + n * 4
    && h.functionQualnameOffset == h.instrIndexOffset + n * 4 && h.blockLabelOffset == h.functionQualnameOffset + n * 4
  }

  lemma LaidOutIsStepped(h: Header)
    requires LaidOut(h)
    ensures Stepped(h)
  {
  }

  // The four-byte sections before the function ids start on four-byte boundaries.
  lemma NamesAligned(h: Header, base: nat)
    requires Stepped(h) && Aligned(base, 8)
    ensures Aligned(base + h.stringOffsetsOffset, 4) && Aligned(base + h.counterIdOffset, 4)
    ensures Aligned(base + h.scopeOffset, 4) && Aligned(base + h.kindOffset, 4) && Aligned(base + h.siteKindOffset, 4)
  {
    hide Aligned;
    var n := h.rowCount;
    AddFours(base, h.stringOffsetsOffset, n);
    AddFours(base, h.counterIdOffset, n);
    AddFours(base, h.scopeOffset, n);
    AddFours(base, h.kindOffset, n);
    AddFours(base, h.siteKindOffset, n);
  }

  // And so do the later ones, between eight-byte sections on eight-byte boundaries.
  lemma IdsAligned(h: Header, base: nat)
    requires Stepped(h) && Aligned(base, 8)
    ensures Aligned(base + h.functionIdOffset, 8) && Aligned(base + h.currentFunctionIdOffset, 8)
    ensures Aligned(base + h.instrBlockLabelOffset, 4) && Aligned(base + h.instrIndexOffset, 4)
    ensures Aligned(base + h.functionQualnameOffset, 4) && Aligned(base + h.blockLabelOffset, 4)
    ensures Aligned(base + h.valueOffset, 8)
  {
    hide Aligned;
    var n := h.rowCount;
    AddEights(base, h.functionIdOffset, n);
    AddEights(base, h.currentFunctionIdOffset, n);
    AddEights(base, h.valueOffset, n);
    EightIsFour(h.instrBlockLabelOffset);
    AddFours(base, h.instrBlockLabelOffset, n);
    AddFours(base, h.instrIndexOffset, n);
    AddFours(base, h.functionQualnameOffset, n);
    AddFours(base, h.blockLabelOffset, n);
  }

  lemma CastSection(s: seq<seq<Byte>>, h: Header, k: nat, values: seq<nat>, width: nat, base: nat)
    requires Placed(h, s) && k < 17 && s[k] == Words(values, width) && width > 0
    requires forall i :: 0 <= i < |values| ==> values[i] < Limit(width)
    requires Aligned(base + OffsetOf(h, k), width)
    ensures CastSlice(Flatten(s), base, OffsetOf(h, k), |values|, width) == Ok(values)
  {
    hide Flatten, Words, ReadWords, Limit;
    SectionCut(s, k);
    assert StartOf(s, k + 1) == OffsetOf(h, k + 1) && StartOf(s, k) == OffsetOf(h, k);
    ReadWordsBack(values, width);
  }

  lemma SectionCut(s: seq<seq<Byte>>, k: nat)
    requires k < |s|
    ensures StartOf(s, k + 1) == StartOf(s, k) + |s[k]| <= |Flatten(s)|
    ensures Flatten(s)[StartOf(s, k)..StartOf(s, k + 1)] == s[k]
  {
    StartNext(s, k);
    FlattenPart(s, k, []);
    assert Flatten(s) + [] == Flatten(s);
  }

  // ---- Columns -------------------------------------------------------------

  // Every column holds words of its width.
  ghost predicate ColumnsFit(c: Columns) {
    && (forall i :: 0 <= i < |c.counterId| ==> c.counterId[i] < Limit(4))
    && (forall i :: 0 <= i < |c.scope| ==> c.scope[i] < Limit(4))
    && (forall i :: 0 <= i < |c.kind| ==> c.kind[i] < Limit(4))
    && (forall i :: 0 <= i < |c.siteKind| ==> c.siteKind[i] < Limit(4))
    && (forall i :: 0 <= i < |c.functionId| ==> c.functionId[i] < Limit(8))
    && (forall i :: 0 <= i < |c.currentFunctionId| ==> c.currentFunctionId[i] < Limit(8))
    && (forall i :: 0 <= i < |c.instrBlockLabel| ==> c.instrBlockLabel[i] < Limit(4))
    && (forall i :: 0 <= i < |c.instrIndex| ==> c.instrIndex[i] < Limit(4))
    && (forall i :: 0 <= i < |c.functionQualname| ==> c.functionQualname[i] < Limit(4))
    && (forall i :: 0 <= i < |c.blockLabel| ==> c.blockLabel[i] < Limit(4))
    && (forall i :: 0 <= i < |c.value| ==> c.value[i] < Limit(8))
  }

  lemma RowIdsFit(table: seq<Str>, row: Row)
    requires |table| <= MAX_U32
    ensures var e := EntryOf(table, row);
            && e.counterId < Limit(4) && e.scope < Limit(4) && e.kind < Limit(4) && e.siteKind < Limit(4)
            && e.functionId < Limit(8) && e.currentFunctionId < Limit(8) && e.instrBlockLabel < Limit(4)
            && e.instrIndex < Limit(4) && e.functionQualname < Limit(4) && e.blockLabel < Limit(4) && e.value < Limit(8)
  {
  }

  lemma {:induction false} RecordColumnsFit(table: seq<Str>, rows: seq<Row>)
    requires |table| <= MAX_U32
    ensures ColumnsFit(ColumnsOf(table, rows))
    decreases |rows|
  {
    hide Limit, ColumnsOf, EntryOf;
    if rows == [] {
      NoColumns(table);
    } else {
      var n := |rows| - 1;
      assert rows[..n + 1] == rows;
      RecordColumnsFit(table, rows[..n]);
      ColumnsNext(table, rows, n);
      RowIdsFit(table, rows[n]);
    }
  }

  // The sections written for a header, a table and columns.
  ghost predicate Written(s: seq<seq<Byte>>, h: Header, table: seq<Str>, c: Columns) {
    && |s| == 17 && s[0] == HeaderBytes(h) && s[1] == Words(EndOffsets(table), 4) && s[2] == Flatten(table)
    && s[4] == Words(c.counterId, 4) && s[5] == Words(c.scope, 4) && s[6] == Words(c.kind, 4)
    && s[7] == Words(c.siteKind, 4) && s[9] == Words(c.functionId, 8) && s[10] == Words(c.currentFunctionId, 8)
    && s[11] == Words(c.instrBlockLabel, 4) && s[12] == Words(c.instrIndex, 4)
    && s[13] == Words(c.functionQualname, 4) && s[14] == Words(c.blockLabel, 4) && s[16] == Words(c.value, 8)
  }

  lemma ReadColumnsBack(s: seq<seq<Byte>>, h: Header, table: seq<Str>, c: Columns, base: nat)
    requires Placed(h, s) && PerRow(c, h.rowCount) && ColumnsFit(c) && Stepped(h) && Aligned(base, 8)
    requires Written(s, h, table, c)
    ensures ReadColumns(Flatten(s), base, h) == Ok(c)
  {
    hide Placed, Words, Flatten, Limit, CastSlice, Aligned, Stepped, HeaderBytes, EndOffsets;
    NamesAligned(h, base);
    IdsAligned(h, base);
    CastSection(s, h, 4, c.counterId, 4, base);
    CastSection(s, h, 5, c.scope, 4, base);
    CastSection(s, h, 6, c.kind, 4, base);
    CastSection(s, h, 7, c.siteKind, 4, base);
    CastSection(s, h, 9, c.functionId, 8, base);
    CastSection(s, h, 10, c.currentFunctionId, 8, base);
    CastSection(s, h, 11, c.instrBlockLabel, 4, base);
    CastSection(s, h, 12, c.instrIndex, 4, base);
    CastSection(s, h, 13, c.functionQualname, 4, base);
    CastSection(s, h, 14, c.blockLabel, 4, base);
    CastSection(s, h, 16, c.value, 8, base);
  }

  // ---- One record ----------------------------------------------------------

  lemma {:induction false} EndOffsetAt(table: seq<Str>, k: nat)
    requires k <= |table|
    ensures EndOffsets(table)[k] == StartOf(table, k)
    decreases |table|
  {
    if k < |table| {
      EndOffsetAt(table[..|table| - 1], k);
      assert table[..|table| - 1][..k] == table[..k];
    } else {
      assert table[..k] == table;
    }
  }

  lemma FirstOffset(table: seq<Str>)
    ensures EndOffsets(table)[0] == 0
  {
  }

  lemma EndOffsetsFit(table: seq<Str>)
    requires |Flatten(table)| <= MAX_U32
    ensures forall i :: 0 <= i < |EndOffsets(table)| ==> EndOffsets(table)[i] < Limit(4)
  {
  }

  lemma CutStrings(s: seq<seq<Byte>>, h: Header)
    requires Placed(h, s) && h.stringBytesLen == |s[2]|
    ensures h.stringBytesOffset + h.stringBytesLen <= |Flatten(s)|
    ensures Flatten(s)[h.stringBytesOffset..h.stringBytesOffset + h.stringBytesLen] == s[2]
  {
    hide Flatten;
    SectionCut(s, 2);
    assert StartOf(s, 2) == OffsetOf(h, 2);
  }

  lemma ReadStringsBack(s: seq<seq<Byte>>, h: Header, offsets: seq<nat>, base: nat)
    requires Placed(h, s) && Stepped(h) && Aligned(base, 8)
    requires s[1] == Words(offsets, 4) && |s[2]| == h.stringBytesLen
    requires |offsets| == h.stringCount + 1 && forall i :: 0 <= i < |offsets| ==> offsets[i] < Limit(4)
    ensures CastSlice(Flatten(s), base, h.stringOffsetsOffset, h.stringCount + 1, 4) == Ok(offsets)
    ensures h.stringBytesOffset + h.stringBytesLen <= |Flatten(s)|
    ensures Flatten(s)[h.stringBytesOffset..h.stringBytesOffset + h.stringBytesLen] == s[2]
  {
    hide Words, Limit, CastSlice, Aligned, Flatten, Placed, Stepped;
    CutStrings(s, h);
    NamesAligned(h, base);
    CastSection(s, h, 1, offsets, 4, base);
  }

  lemma ReadSectionsBack(s: seq<seq<Byte>>, h: Header, table: seq<Str>, c: Columns, base: nat)
    requires Placed(h, s) && PerRow(c, h.rowCount) && ColumnsFit(c) && Stepped(h) && Aligned(base, 8)
    requires Written(s, h, table, c)
    requires h.stringCount == |table| && h.stringBytesLen == |Flatten(table)| <= MAX_U32
    ensures ReadSections(Flatten(s), base, h) == Ok(View(h, EndOffsets(table), Flatten(table), c))
  {
    hide Placed, Words, Flatten, Limit, CastSlice, Aligned, Stepped, HeaderBytes, EndOffsets, ReadColumns, ColumnsFit, PerRow, InRange;
    ReadColumnsBack(s, h, table, c, base);
    FirstOffset(table);
    EndOffsetsFit(table);
    ReadStringsBack(s, h, EndOffsets(table), base);
  }

  lemma ParseBack(b: seq<Byte>, h: Header, v: View, rest: seq<Byte>, base: nat)
    requires |b| == h.recordLen >= 88 && b[..88] == HeaderBytes(h)
    requires LengthValid(h) && SectionsInOrder(h) && base % 4 == 0
    requires forall i :: 0 <= i < 19 ==> FieldsOf(h)[i] < Limit(4)
    requires ReadSections(b, base, h) == Ok(v)
    ensures ParseOne(b + rest, base) == Ok(v)
  {
    hide Limit, FieldsOf, ReadSections, HeaderBytes, SectionsInOrder, ReadHeader, Sound;
    assert b + rest == HeaderBytes(h) + (b[88..] + rest);
    HeaderBack(h, b[88..] + rest, base);
    assert (b + rest)[..h.recordLen] == b;
  }

  lemma RecordWritten(record: Record)
    ensures Written(Sections(record), RecordHeader(record), TableOf(record), ColumnsOf(TableOf(record), record.rows))
    ensures Placed(RecordHeader(record), Sections(record))
    ensures PerRow(ColumnsOf(TableOf(record), record.rows), |record.rows|)
  {
    hide RecordHeader, TableOf, ColumnsOf, HeaderBytes, Words, Flatten, EndOffsets, LaidOut, Sized;
    SectionsSized(record);
    SectionStarts(Sections(record), RecordHeader(record));
  }

  lemma HeaderCounts(record: Record)
    ensures var h := RecordHeader(record);
            h.rowCount == |record.rows| && h.stringCount == |TableOf(record)| && h.stringBytesLen == |Flatten(TableOf(record))|
  {
  }

  lemma RecordSectionsBack(record: Record, base: nat)
    requires Fits(record) && Aligned(base, 8)
    ensures ReadSections(RecordBytes(record), base, RecordHeader(record)) == Ok(ViewOf(record))
  {
    hide Flatten, Limit, Words, TableOf, ReadSections, LaidOut, HeaderBytes, Written, Placed, ColumnsOf, Stepped, Aligned, ColumnsFit,
      EndOffsets, RecordHeader, Sections;
    var h, table := RecordHeader(record), TableOf(record);
    var c := ColumnsOf(table, record.rows);
    HeaderCounts(record);
    RecordWritten(record);
    RecordLengthBoundsFields(h);
    RecordColumnsFit(table, record.rows);
    LaidOutIsStepped(h);
    ReadSectionsBack(Sections(record), h, table, c, base);
  }

  lemma RecordHead(record: Record)
    ensures var h, b := RecordHeader(record), RecordBytes(record);
            |b| == h.recordLen >= 88 && b[..88] == HeaderBytes(h) && LengthValid(h) && SectionsInOrder(h)
  {
    hide RecordHeader, TableOf, ColumnsOf, EndOffsets, Words, HeaderBytes, Flatten;
    var h, s := RecordHeader(record), Sections(record);
    RecordWritten(record);
    InOrder(h);
    SectionCut(s, 0);
    assert OffsetOf(h, 0) == StartOf(s, 0) == 0;
  }

  // A record that was encoded is parsed back, whatever follows it.
  lemma ParseOneBack(record: Record, rest: seq<Byte>, base: nat)
    requires Fits(record) && Aligned(base, 8)
    ensures ParseOne(RecordBytes(record) + rest, base) == Ok(ViewOf(record))
  {
    HeaderFieldsFit(record);
    EightIsFour(base);
    hide Fits, RecordHeader, RecordBytes, ViewOf, FieldsOf, HeaderBytes, SectionsInOrder, Limit, ReadSections, ParseOne;
    RecordHead(record);
    RecordSectionsBack(record, base);
    ParseBack(RecordBytes(record), RecordHeader(record), ViewOf(record), rest, base);
  }
}
