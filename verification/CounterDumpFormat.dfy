/** The columnar counter-dump record: what it holds and how it is laid out
    (`soac-eval/src/counter_dump.rs`). */
module CounterDumpFormat {
  import opened Prelude
  import opened Bytes

  // The UTF-8 bytes of a string.
  type Str = seq<Byte>

  datatype InstrId = InstrId(blockLabel: U32, indexInBlock: U32)

  datatype Row = Row(
    counterId: U32,
    scope: Str,
    kind: Str,
    siteKind: Str,
    functionId: Option<U64>,
    currentFunctionId: Option<U64>,
    instrId: Option<InstrId>,
    functionQualname: Option<Str>,
    blockLabel: Option<Str>,
    value: U64)

  datatype Record = Record(moduleName: Str, packageName: Option<Str>, rows: seq<Row>)

  const MAGIC: seq<Byte> := [83, 79, 65, 67, 67, 78, 84, 82]   // "SOACCNTR"
  const VERSION: U16 := 4
  const NONE_U32: U32 := MAX_U32
  const NONE_U64: U64 := MAX_U64
  const HEADER_SIZE: nat := 88

  datatype Header = Header(
    recordLen: nat,
    rowCount: nat,
    stringCount: nat,
    stringBytesLen: nat,
    moduleNameId: nat,
    packageNameId: nat,
    stringOffsetsOffset: nat,
    stringBytesOffset: nat,
    counterIdOffset: nat,
    scopeOffset: nat,
    kindOffset: nat,
    siteKindOffset: nat,
    functionIdOffset: nat,
    currentFunctionIdOffset: nat,
    instrBlockLabelOffset: nat,
    instrIndexOffset: nat,
    functionQualnameOffset: nat,
    blockLabelOffset: nat,
    valueOffset: nat)

  // The u32 fields, in order, after the magic, version and header size.
  function FieldsOf(h: Header): (r: seq<nat>)
    ensures |r| == 19
  {
    [h.recordLen, h.rowCount, h.stringCount, h.stringBytesLen, h.moduleNameId, h.packageNameId,
     h.stringOffsetsOffset, h.stringBytesOffset, h.counterIdOffset, h.scopeOffset, h.kindOffset, h.siteKindOffset,
     h.functionIdOffset, h.currentFunctionIdOffset, h.instrBlockLabelOffset, h.instrIndexOffset,
     h.functionQualnameOffset, h.blockLabelOffset, h.valueOffset]
  }

  function HeaderFrom(f: seq<nat>): Header
    requires |f| == 19
  {
    Header(f[0], f[1], f[2], f[3], f[4], f[5], f[6], f[7], f[8], f[9], f[10], f[11], f[12], f[13], f[14], f[15], f[16], f[17], f[18])
  }

  function HeaderBytes(h: Header): (r: seq<Byte>)
    ensures |r| == HEADER_SIZE
  {
    MAGIC + ToBytes(VERSION, 2) + ToBytes(HEADER_SIZE, 2) + Words(FieldsOf(h), 4)
  }

  // ---- The string table ----------------------------------------------------

  // Where a string is in the table, or past its end.
  function IndexIn(table: seq<Str>, s: Str): (i: nat)
    ensures i <= |table|
    ensures i < |table| ==> table[i] == s
    ensures i == |table| <==> s !in table
  {
    if table == [] then 0
    else if table[0] == s then 0
    else 1 + IndexIn(table[1..], s)
  }

  // The table only grows, so an index once issued stays right.
  lemma {:induction false} IndexStays(table: seq<Str>, more: seq<Str>, s: Str)
    requires s in table
    ensures IndexIn(table + more, s) == IndexIn(table, s)
  {
    if table[0] != s {
      assert (table + more)[1..] == table[1..] + more;
      IndexStays(table[1..], more, s);
    }
  }

  function Interned(table: seq<Str>, s: Str): seq<Str> {
    if s in table then table else table + [s]
  }

  // The table after the first `k` strings.
  function TableUpTo(strings: seq<Str>, k: nat): seq<Str>
    requires k <= |strings|
  {
    if k == 0 then [] else Interned(TableUpTo(strings, k - 1), strings[k - 1])
  }

  function OptStr(s: Option<Str>): seq<Str> {
    if s.Some? then [s.value] else []
  }

  // An empty package name is not recorded.
  function PackageOf(record: Record): Option<Str> {
    if record.packageName == Some([]) then None else record.packageName
  }

  function RowStrings(row: Row): seq<Str> {
    [row.scope, row.kind, row.siteKind] + OptStr(row.functionQualname) + OptStr(row.blockLabel)
  }

  function RowsStrings(rows: seq<Row>): seq<Str> {
    if rows == [] then [] else RowsStrings(rows[..|rows| - 1]) + RowStrings(rows[|rows| - 1])
  }

  // The strings of a record in the order they are interned.
  function StringsOf(record: Record): seq<Str> {
    [record.moduleName] + OptStr(PackageOf(record)) + RowsStrings(record.rows)
  }

  function TableOf(record: Record): seq<Str> {
    TableUpTo(StringsOf(record), |StringsOf(record)|)
  }

  // Where each string ends among the concatenated bytes, after a leading zero.
  function EndOffsets(table: seq<Str>): (r: seq<nat>)
    ensures |r| == |table| + 1
    ensures r[|table|] == |Flatten(table)|
  {
    if table == [] then [0]
    else EndOffsets(table[..|table| - 1]) + [|Flatten(table)|]
  }

  // ---- Columns -------------------------------------------------------------

  function StrId(table: seq<Str>, s: Str): nat {
    IndexIn(table, s)
  }

  function OptStrId(table: seq<Str>, s: Option<Str>): nat {
    if s.Some? then IndexIn(table, s.value) else NONE_U32
  }

  function OptU64(v: Option<U64>): nat {
    if v.Some? then v.value else NONE_U64
  }

  datatype Columns = Columns(
    counterId: seq<nat>, scope: seq<nat>, kind: seq<nat>, siteKind: seq<nat>,
    functionId: seq<nat>, currentFunctionId: seq<nat>, instrBlockLabel: seq<nat>, instrIndex: seq<nat>,
    functionQualname: seq<nat>, blockLabel: seq<nat>, value: seq<nat>)

  // Columns have one entry per row.
  predicate PerRow(c: Columns, n: nat) {
    && |c.counterId| == |c.scope| == |c.kind| == |c.siteKind| == |c.functionId| == |c.currentFunctionId| == n
    && |c.instrBlockLabel| == |c.instrIndex| == |c.functionQualname| == |c.blockLabel| == |c.value| == n
  }

  function Column(rows: seq<Row>, field: Row -> nat): (c: seq<nat>)
    ensures |c| == |rows| && forall i :: 0 <= i < |c| ==> c[i] == field(rows[i])
  {
    seq(|rows|, i requires 0 <= i < |rows| => field(rows[i]))
  }

  function ColumnsOf(table: seq<Str>, rows: seq<Row>): (c: Columns)
    ensures PerRow(c, |rows|)
  {
    Columns(
      Column(rows, (row: Row) => row.counterId),
      Column(rows, (row: Row) => StrId(table, row.scope)),
      Column(rows, (row: Row) => StrId(table, row.kind)),
      Column(rows, (row: Row) => StrId(table, row.siteKind)),
      Column(rows, (row: Row) => OptU64(row.functionId)),
      Column(rows, (row: Row) => OptU64(row.currentFunctionId)),
      Column(rows, (row: Row) => if row.instrId.Some? then row.instrId.value.blockLabel else NONE_U32),
      Column(rows, (row: Row) => if row.instrId.Some? then row.instrId.value.indexInBlock else NONE_U32),
      Column(rows, (row: Row) => OptStrId(table, row.functionQualname)),
      Column(rows, (row: Row) => OptStrId(table, row.blockLabel)),
      Column(rows, (row: Row) => row.value))
  }

  // ---- Layout --------------------------------------------------------------

  // Offsets of the sections of a record with `n` rows, `k` strings and `b` string bytes.
  function LayoutOf(n: nat, k: nat, b: nat, moduleNameId: nat, packageNameId: nat): (h: Header) {
    var stringOffsets := AlignUp(HEADER_SIZE, 4);
    var stringBytes := stringOffsets + (k + 1) * 4;
    var counterId := AlignUp(stringBytes + b, 4);
    var scope := counterId + n * 4;
    var kind := scope + n * 4;
    var siteKind := kind + n * 4;
    var functionId := AlignUp(siteKind + n * 4, 8);
    var currentFunctionId := functionId + n * 8;
    var instrBlockLabel := currentFunctionId + n * 8;
    var instrIndex := instrBlockLabel + n * 4;
    var functionQualname := instrIndex + n * 4;
    var blockLabel := functionQualname + n * 4;
    var value := AlignUp(blockLabel + n * 4, 8);
    var recordLen := AlignUp(value + n * 8, 8);
    Header(recordLen, n, k, b, moduleNameId, packageNameId, stringOffsets, stringBytes, counterId, scope, kind, siteKind,
           functionId, currentFunctionId, instrBlockLabel, instrIndex, functionQualname, blockLabel, value)
  }

  predicate LaidOut(h: Header) {
    h == LayoutOf(h.rowCount, h.stringCount, h.stringBytesLen, h.moduleNameId, h.packageNameId)
  }

  function RecordHeader(record: Record): (h: Header)
    ensures LaidOut(h)
  {
    var table := TableOf(record);
    LayoutOf(|record.rows|, |table|, |Flatten(table)|, StrId(table, record.moduleName), OptStrId(table, PackageOf(record)))
  }

  // Everything the header stores fits its field.
  predicate Fits(record: Record) {
    && |record.rows| <= MAX_U32
    && |TableOf(record)| <= MAX_U32
    && RecordHeader(record).recordLen <= MAX_U32
  }

  predicate Padding(k: nat) {
    k == 3 || k == 8 || k == 15
  }

  // Section `k` of a record: the columns, the string table and the padding between them.
  function Section(h: Header, table: seq<Str>, c: Columns, k: nat): seq<Byte>
    requires LaidOut(h) && h.stringBytesLen == |Flatten(table)|
  {
    match k
    case 0 => HeaderBytes(h)
    case 1 => Words(EndOffsets(table), 4)
    case 2 => Flatten(table)
    case 3 => Zeros(h.counterIdOffset - (h.stringBytesOffset + h.stringBytesLen))
    case 4 => Words(c.counterId, 4)
    case 5 => Words(c.scope, 4)
    case 6 => Words(c.kind, 4)
    case 7 => Words(c.siteKind, 4)
    case 8 => Zeros(h.functionIdOffset - (h.siteKindOffset + h.rowCount * 4))
    case 9 => Words(c.functionId, 8)
    case 10 => Words(c.currentFunctionId, 8)
    case 11 => Words(c.instrBlockLabel, 4)
    case 12 => Words(c.instrIndex, 4)
    case 13 => Words(c.functionQualname, 4)
    case 14 => Words(c.blockLabel, 4)
    case 15 => Zeros(h.valueOffset - (h.blockLabelOffset + h.rowCount * 4))
    case _ => Words(c.value, 8)
  }

  // The sections, in order.
  function SectionList(h: Header, table: seq<Str>, c: Columns): (r: seq<seq<Byte>>)
    requires LaidOut(h) && h.stringBytesLen == |Flatten(table)|
    ensures |r| == 17 && forall k :: 0 <= k < 17 ==> r[k] == Section(h, table, c, k)
  {
    seq(17, k requires 0 <= k < 17 => Section(h, table, c, k))
  }

  function Sections(record: Record): (r: seq<seq<Byte>>) {
    SectionList(RecordHeader(record), TableOf(record), ColumnsOf(TableOf(record), record.rows))
  }

  // The bytes of a record.
  function RecordBytes(record: Record): seq<Byte> {
    Flatten(Sections(record))
  }

  // The length each section must have.
  predicate Sized(s: seq<seq<Byte>>, h: Header) {
    && |s| == 17
    && |s[0]| == HEADER_SIZE && |s[1]| == (h.stringCount + 1) * 4 && |s[2]| == h.stringBytesLen
    && |s[3]| == h.counterIdOffset - (h.stringBytesOffset + h.stringBytesLen)
    && |s[4]| == |s[5]| == |s[6]| == |s[7]| == h.rowCount * 4
    && |s[8]| == h.functionIdOffset - (h.siteKindOffset + h.rowCount * 4)
    && |s[9]| == |s[10]| == h.rowCount * 8
    && |s[11]| == |s[12]| == |s[13]| == |s[14]| == h.rowCount * 4
    && |s[15]| == h.valueOffset - (h.blockLabelOffset + h.rowCount * 4)
    && |s[16]| == h.rowCount * 8
  }

  lemma StringSectionStarts(s: seq<seq<Byte>>, h: Header)
    requires Sized(s, h) && LaidOut(h)
    ensures StartOf(s, 0) == 0 && StartOf(s, 1) == h.stringOffsetsOffset && StartOf(s, 2) == h.stringBytesOffset
    ensures StartOf(s, 3) == h.stringBytesOffset + h.stringBytesLen && StartOf(s, 4) == h.counterIdOffset
  {
    assert s[..0] == [];
    StartNext(s, 0);
    StartNext(s, 1);
    StartNext(s, 2);
    StartNext(s, 3);
  }

  lemma NameSectionStarts(s: seq<seq<Byte>>, h: Header)
    requires Sized(s, h) && LaidOut(h) && StartOf(s, 4) == h.counterIdOffset
    ensures StartOf(s, 5) == h.scopeOffset && StartOf(s, 6) == h.kindOffset && StartOf(s, 7) == h.siteKindOffset
    ensures StartOf(s, 8) == h.siteKindOffset + h.rowCount * 4 && StartOf(s, 9) == h.functionIdOffset
  {
    StartNext(s, 4);
    StartNext(s, 5);
    StartNext(s, 6);
    StartNext(s, 7);
    StartNext(s, 8);
  }

  lemma IdSectionStarts(s: seq<seq<Byte>>, h: Header)
    requires Sized(s, h) && LaidOut(h) && StartOf(s, 9) == h.functionIdOffset
    ensures StartOf(s, 10) == h.currentFunctionIdOffset && StartOf(s, 11) == h.instrBlockLabelOffset
    ensures StartOf(s, 12) == h.instrIndexOffset && StartOf(s, 13) == h.functionQualnameOffset
  {
    StartNext(s, 9);
    StartNext(s, 10);
    StartNext(s, 11);
    StartNext(s, 12);
  }

  lemma LayoutTail(h: Header)
    requires LaidOut(h)
    ensures h.blockLabelOffset == h.functionQualnameOffset + h.rowCount * 4
  {
  }

  lemma LastSectionStarts(s: seq<seq<Byte>>, h: Header)
    requires Sized(s, h) && LaidOut(h) && StartOf(s, 13) == h.functionQualnameOffset
    ensures StartOf(s, 14) == h.blockLabelOffset && StartOf(s, 15) == h.blockLabelOffset + h.rowCount * 4
    ensures StartOf(s, 16) == h.valueOffset && StartOf(s, 17) == |Flatten(s)| == h.recordLen
  {
    hide Flatten, LaidOut;
    LayoutTail(h);
    StartNext(s, 13);
    StartNext(s, 14);
    StartNext(s, 15);
    StartNext(s, 16);
    assert s[..17] == s;
    LengthIsAligned(h);
  }

  // The last column needs no padding: eight-byte words after an eight-byte boundary.
  lemma LengthIsAligned(h: Header)
    requires LaidOut(h)
    ensures h.recordLen == h.valueOffset + h.rowCount * 8
  {
    var v, n := h.valueOffset, h.rowCount;
    assert v == 8 * (v / 8);
    assert v + n * 8 == 8 * (v / 8 + n);
    MultipleIsAligned(v / 8 + n, 8);
  }

  lemma SectionSizes(h: Header, table: seq<Str>, c: Columns)
    requires LaidOut(h) && h.stringBytesLen == |Flatten(table)| && h.stringCount == |table| && PerRow(c, h.rowCount)
    ensures Sized(SectionList(h, table, c), h)
  {
    hide HeaderBytes, Words, EndOffsets, Flatten, AlignUp;
    var s := SectionList(h, table, c);
    assert s[0] == HeaderBytes(h) && |s[3]| == h.counterIdOffset - (h.stringBytesOffset + h.stringBytesLen);
  }

  lemma SectionsSized(record: Record)
    ensures Sized(Sections(record), RecordHeader(record)) && LaidOut(RecordHeader(record))
  {
    SectionSizes(RecordHeader(record), TableOf(record), ColumnsOf(TableOf(record), record.rows));
  }

  // The offset the header gives for section `k`; padding has none and is never written.
  function OffsetOf(h: Header, k: nat): nat {
    match k
    case 0 => 0
    case 1 => h.stringOffsetsOffset
    case 2 => h.stringBytesOffset
    case 3 => h.stringBytesOffset + h.stringBytesLen
    case 4 => h.counterIdOffset
    case 5 => h.scopeOffset
    case 6 => h.kindOffset
    case 7 => h.siteKindOffset
    case 8 => h.siteKindOffset + h.rowCount * 4
    case 9 => h.functionIdOffset
    case 10 => h.currentFunctionIdOffset
    case 11 => h.instrBlockLabelOffset
    case 12 => h.instrIndexOffset
    case 13 => h.functionQualnameOffset
    case 14 => h.blockLabelOffset
    case 15 => h.blockLabelOffset + h.rowCount * 4
    case 16 => h.valueOffset
    case _ => h.recordLen
  }

  // Sections laid end to end start where the header says, and end at the record length it says.
  lemma SectionStarts(s: seq<seq<Byte>>, h: Header)
    requires Sized(s, h) && LaidOut(h)
    ensures forall k {:trigger OffsetOf(h, k)} :: 0 <= k <= 17 ==> StartOf(s, k) == OffsetOf(h, k)
    ensures |Flatten(s)| == h.recordLen
  {
    StringSectionStarts(s, h);
    NameSectionStarts(s, h);
    IdSectionStarts(s, h);
    LastSectionStarts(s, h);
  }
}
