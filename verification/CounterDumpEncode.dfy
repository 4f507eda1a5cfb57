/** The counter-dump encoder (`soac-eval/src/counter_dump.rs`). */
module CounterDumpEncode {
  import opened Prelude
  import opened Bytes
  import opened CounterDumpFormat

  // ---- Interning -----------------------------------------------------------

  // The table only grows.
  lemma {:induction false} TableGrows(strings: seq<Str>, j: nat, k: nat) returns (more: seq<Str>)
    requires j <= k <= |strings|
    ensures TableUpTo(strings, k) == TableUpTo(strings, j) + more
    decreases k
  {
    if j == k {
      more := [];
    } else {
      more := TableGrows(strings, j, k - 1);
      if strings[k - 1] !in TableUpTo(strings, k - 1) {
        more := more + [strings[k - 1]];
      }
    }
  }

  // It holds exactly the strings given, each once.
  lemma {:induction false} TableHolds(strings: seq<Str>, k: nat)
    requires k <= |strings|
    ensures forall s :: s in TableUpTo(strings, k) <==> s in strings[..k]
    ensures forall i, j :: 0 <= i < j < |TableUpTo(strings, k)| ==> TableUpTo(strings, k)[i] != TableUpTo(strings, k)[j]
  {
    if k > 0 {
      TableHolds(strings, k - 1);
      assert strings[..k] == strings[..k - 1] + [strings[k - 1]];
    }
  }

  // Each string's index.
  ghost function IndexMap(table: seq<Str>): map<Str, nat> {
    map s | s in table :: IndexIn(table, s)
  }

  lemma IndexMapGrows(table: seq<Str>, s: Str)
    requires s !in table
    ensures IndexMap(table + [s]) == IndexMap(table)[s := |table|]
  {
    hide IndexIn;
    NewIndex(table, s);
    forall x | x in table
      ensures IndexIn(table + [s], x) == IndexIn(table, x)
    {
      IndexStays(table, [s], x);
    }
  }

  class StringTable {
    var ids: map<Str, nat>
    var strings: seq<Str>

    ghost predicate Valid()
      reads this
    {
      ids == IndexMap(strings) && |strings| <= MAX_U32 + 1
    }

    constructor ()
      ensures Valid() && strings == []
    {
      ids, strings := map[], [];
    }

    // Gives a string's index, adding it when it is new; fails once indices no longer fit.
    method Intern(s: Str) returns (r: Result<nat>)
      requires Valid()
      modifies this
      ensures Valid()
      ensures r.Ok? ==> strings == Interned(old(strings), s) && s in strings && r.value == IndexIn(strings, s) <= MAX_U32
      ensures r.Err? ==> strings == old(strings) && |strings| > MAX_U32
    {
      hide IndexIn;
      if s in ids {
        return Ok(ids[s]);
      }
      if |strings| > MAX_U32 {
        return Err("string table exceeds u32 capacity");
      }
      NewIndex(strings, s);
      IndexMapGrows(strings, s);
      ids := ids[s := |strings|];
      strings := strings + [s];
      return Ok(|strings| - 1);
    }
  }

  lemma {:induction false} NewIndex(table: seq<Str>, s: Str)
    requires s !in table
    ensures IndexIn(table + [s], s) == |table|
  {
  }

  // ---- Columns -------------------------------------------------------------

  // One row's entries, in column order.
  datatype Entry = Entry(
    counterId: nat, scope: nat, kind: nat, siteKind: nat, functionId: nat, currentFunctionId: nat,
    instrBlockLabel: nat, instrIndex: nat, functionQualname: nat, blockLabel: nat, value: nat)

  function EntryOf(table: seq<Str>, row: Row): Entry {
    Entry(row.counterId, StrId(table, row.scope), StrId(table, row.kind), StrId(table, row.siteKind),
          OptU64(row.functionId), OptU64(row.currentFunctionId),
          if row.instrId.Some? then row.instrId.value.blockLabel else NONE_U32,
          if row.instrId.Some? then row.instrId.value.indexInBlock else NONE_U32,
          OptStrId(table, row.functionQualname), OptStrId(table, row.blockLabel), row.value)
  }

  function PushEntry(c: Columns, e: Entry): Columns {
    Columns(c.counterId + [e.counterId], c.scope + [e.scope], c.kind + [e.kind], c.siteKind + [e.siteKind],
            c.functionId + [e.functionId], c.currentFunctionId + [e.currentFunctionId],
            c.instrBlockLabel + [e.instrBlockLabel], c.instrIndex + [e.instrIndex],
            c.functionQualname + [e.functionQualname], c.blockLabel + [e.blockLabel], c.value + [e.value])
  }

  lemma ColumnsPush(table: seq<Str>, rows: seq<Row>, row: Row)
    ensures ColumnsOf(table, rows + [row]) == PushEntry(ColumnsOf(table, rows), EntryOf(table, row))
  {
  }

  // ---- Walking the record --------------------------------------------------

  // Interns string `k` of `all`. Its index is the one it has in the finished table.
  method InternNext(table: StringTable, s: Str, ghost all: seq<Str>, ghost k: nat) returns (r: Result<nat>)
    requires table.Valid() && k < |all| && all[k] == s && table.strings == TableUpTo(all, k)
    modifies table
    ensures table.Valid()
    ensures r.Ok? ==> table.strings == TableUpTo(all, k + 1) && r.value == StrId(TableUpTo(all, |all|), s)
    ensures r.Err? ==> |TableUpTo(all, |all|)| > MAX_U32
  {
    ghost var rest := TableGrows(all, k, |all|);
    r := table.Intern(s);
    if r.Ok? {
      ghost var more := TableGrows(all, k + 1, |all|);
      IndexStays(TableUpTo(all, k + 1), more, s);
    }
  }

  method InternOptional(table: StringTable, s: Option<Str>, ghost all: seq<Str>, ghost k: nat) returns (r: Result<nat>)
    requires table.Valid() && k <= |all| && (s.Some? ==> k < |all| && all[k] == s.value)
    requires table.strings == TableUpTo(all, k)
    modifies table
    ensures table.Valid()
    ensures r.Ok? ==> table.strings == TableUpTo(all, if s.Some? then k + 1 else k)
    ensures r.Ok? ==> r.value == OptStrId(TableUpTo(all, |all|), s)
    ensures r.Err? ==> |TableUpTo(all, |all|)| > MAX_U32
  {
    if s.None? {
      return Ok(NONE_U32);
    }
    r := InternNext(table, s.value, all, k);
  }

  datatype Names = Names(scope: nat, kind: nat, siteKind: nat)

  // Interns the three names every row has.
  method InternNames(table: StringTable, row: Row, ghost all: seq<Str>, ghost k: nat)
    returns (r: Result<Names>)
    requires table.Valid() && k + 3 <= |all| && all[k] == row.scope && all[k + 1] == row.kind && all[k + 2] == row.siteKind
    requires table.strings == TableUpTo(all, k)
    modifies table
    ensures table.Valid()
    ensures r.Ok? ==> table.strings == TableUpTo(all, k + 3)
    ensures r.Ok? ==> r.value.scope == StrId(TableUpTo(all, |all|), row.scope)
    ensures r.Ok? ==> r.value.kind == StrId(TableUpTo(all, |all|), row.kind)
    ensures r.Ok? ==> r.value.siteKind == StrId(TableUpTo(all, |all|), row.siteKind)
    ensures r.Err? ==> |TableUpTo(all, |all|)| > MAX_U32
  {
    hide TableUpTo, IndexIn, IndexMap;
    var scope := InternNext(table, row.scope, all, k);
    if scope.Err? { return Err(scope.error); }
    var kind := InternNext(table, row.kind, all, k + 1);
    if kind.Err? { return Err(kind.error); }
    var siteKind := InternNext(table, row.siteKind, all, k + 2);
    if siteKind.Err? { return Err(siteKind.error); }
    r := Ok(Names(scope.value, kind.value, siteKind.value));
  }

  // Where a row's block label would be among the strings, and where its strings end.
  ghost function LabelAt(row: Row, k: nat): nat {
    if row.functionQualname.Some? then k + 4 else k + 3
  }

  ghost function RowEnd(row: Row, k: nat): nat {
    if row.blockLabel.Some? then LabelAt(row, k) + 1 else LabelAt(row, k)
  }

  // The strings from `k` on are the row's, in the order they are interned.
  ghost predicate RowAt(all: seq<Str>, k: nat, row: Row) {
    && RowEnd(row, k) <= |all|
    && all[k] == row.scope && all[k + 1] == row.kind && all[k + 2] == row.siteKind
    && (row.functionQualname.Some? ==> all[k + 3] == row.functionQualname.value)
    && (row.blockLabel.Some? ==> all[LabelAt(row, k)] == row.blockLabel.value)
  }

  // Interns a row's strings in the order its columns are pushed.
  method InternRow(table: StringTable, row: Row, ghost all: seq<Str>, ghost k: nat) returns (r: Result<Entry>)
    requires table.Valid() && RowAt(all, k, row) && table.strings == TableUpTo(all, k)
    modifies table
    ensures table.Valid()
    ensures r.Ok? ==> table.strings == TableUpTo(all, RowEnd(row, k)) && r.value == EntryOf(TableUpTo(all, |all|), row)
    ensures r.Err? ==> |TableUpTo(all, |all|)| > MAX_U32
  {
    hide TableUpTo, IndexIn, IndexMap;
    var names := InternNames(table, row, all, k);
    if names.Err? { return Err(names.error); }
    var qualname := InternOptional(table, row.functionQualname, all, k + 3);
    if qualname.Err? { return Err(qualname.error); }
    var block := InternOptional(table, row.blockLabel, all, LabelAt(row, k));
    if block.Err? { return Err(block.error); }
    r := Ok(Entry(row.counterId, names.value.scope, names.value.kind, names.value.siteKind,
                  OptU64(row.functionId), OptU64(row.currentFunctionId),
                  if row.instrId.Some? then row.instrId.value.blockLabel else NONE_U32,
                  if row.instrId.Some? then row.instrId.value.indexInBlock else NONE_U32,
                  qualname.value, block.value, row.value));
  }

  // How many strings come before those of row `i`.
  function Before(record: Record, i: nat): nat
    requires i <= |record.rows|
  {
    1 + |OptStr(PackageOf(record))| + |RowsStrings(record.rows[..i])|
  }

  lemma RowsAhead(record: Record, i: nat)
    requires i < |record.rows|
    ensures RowAt(StringsOf(record), Before(record, i), record.rows[i])
    ensures Before(record, i + 1) == RowEnd(record.rows[i], Before(record, i)) <= |StringsOf(record)|
  {
    hide RowsStrings, RowStrings, RowAt, RowEnd;
    var rows, part, k := record.rows, RowStrings(record.rows[i]), Before(record, i);
    RowsStringsNext(rows, i);
    var rest := RowsPrefix(rows, i + 1);
    var head := [record.moduleName] + OptStr(PackageOf(record)) + RowsStrings(rows[..i]);
    assert StringsOf(record) == head + (part + rest);
    PartAt(rows[i], head, rest);
  }

  lemma RowsStringsNext(rows: seq<Row>, i: nat)
    requires i < |rows|
    ensures RowsStrings(rows[..i + 1]) == RowsStrings(rows[..i]) + RowStrings(rows[i])
  {
    assert rows[..i + 1][..i] == rows[..i];
  }

  lemma PartAt(row: Row, head: seq<Str>, rest: seq<Str>)
    ensures RowAt(head + (RowStrings(row) + rest), |head|, row)
    ensures RowEnd(row, |head|) == |head| + |RowStrings(row)|
  {
  }

  lemma {:induction false} RowsPrefix(rows: seq<Row>, i: nat) returns (rest: seq<Str>)
    requires i <= |rows|
    ensures RowsStrings(rows) == RowsStrings(rows[..i]) + rest
    decreases |rows|
  {
    if i == |rows| {
      assert rows[..i] == rows;
      rest := [];
    } else {
      var init := rows[..|rows| - 1];
      rest := RowsPrefix(init, i);
      assert init[..i] == rows[..i];
      rest := rest + RowStrings(rows[|rows| - 1]);
    }
  }

  datatype Collected = Collected(moduleNameId: nat, packageNameId: nat, table: seq<Str>, columns: Columns)

  function CollectedFrom(record: Record): Collected {
    Collected(StrId(TableOf(record), record.moduleName), OptStrId(TableOf(record), PackageOf(record)),
              TableOf(record), ColumnsOf(TableOf(record), record.rows))
  }

  // Walks the record once, interning its strings and pushing its columns.
  method Collect(record: Record) returns (r: Result<Collected>)
    ensures r.Ok? ==> r.value == CollectedFrom(record)
    ensures r.Err? ==> |TableOf(record)| > MAX_U32
  {
    ghost var all := StringsOf(record);
    HeadAhead(record);
    var table := new StringTable();
    var name := InternNext(table, record.moduleName, all, 0);
    if name.Err? { return Err(name.error); }
    var package := if record.packageName.Some? && record.packageName.value != [] then record.packageName else None;
    var packageId := InternOptional(table, package, all, 1);
    if packageId.Err? { return Err(packageId.error); }
    var columns := CollectColumns(record, table);
    if columns.Err? { return Err(columns.error); }
    r := Ok(Collected(name.value, packageId.value, table.strings, columns.value));
  }

  lemma HeadAhead(record: Record)
    ensures var all := StringsOf(record);
            && |all| > 0 && all[0] == record.moduleName
            && Before(record, 0) == (if PackageOf(record).Some? then 2 else 1) <= |all|
            && (PackageOf(record).Some? ==> all[1] == PackageOf(record).value)
  {
  }

  method CollectColumns(record: Record, table: StringTable) returns (r: Result<Columns>)
    requires table.Valid() && Before(record, 0) <= |StringsOf(record)|
    requires table.strings == TableUpTo(StringsOf(record), Before(record, 0))
    modifies table
    ensures r.Ok? ==> table.strings == TableOf(record) && r.value == ColumnsOf(TableOf(record), record.rows)
    ensures r.Err? ==> |TableOf(record)| > MAX_U32
  {
    var rows := record.rows;
    ghost var all := StringsOf(record);
    ghost var k := Before(record, 0);
    ghost var whole := TableUpTo(all, |all|);
    var columns := Columns([], [], [], [], [], [], [], [], [], [], []);
    var i := 0;
    NoColumns(whole);
    assert rows[..0] == [];
    while i < |rows|
      invariant 0 <= i <= |rows| && k == Before(record, i) <= |all|
      invariant table.Valid()
      invariant table.strings == TableUpTo(all, k)
      invariant columns == ColumnsOf(whole, rows[..i])
    {
      RowsAhead(record, i);
      var e := InternRow(table, rows[i], all, k);
      if e.Err? { return Err(e.error); }
      ColumnsNext(whole, rows, i);
      columns := PushEntry(columns, e.value);
      i, k := i + 1, RowEnd(rows[i], k);
    }
    assert rows[..i] == rows;
    assert k == |all|;
    r := Ok(columns);
  }

  lemma ColumnsNext(table: seq<Str>, rows: seq<Row>, i: nat)
    requires i < |rows|
    ensures ColumnsOf(table, rows[..i + 1]) == PushEntry(ColumnsOf(table, rows[..i]), EntryOf(table, rows[i]))
  {
    ColumnsPush(table, rows[..i], rows[i]);
    assert rows[..i + 1] == rows[..i] + [rows[i]];
  }

  lemma NoColumns(table: seq<Str>)
    ensures ColumnsOf(table, []) == Columns([], [], [], [], [], [], [], [], [], [], [])
  {
  }

  // ---- The string section --------------------------------------------------

  method StringSection(table: seq<Str>) returns (r: Result<(seq<nat>, seq<Byte>)>)
    ensures r.Ok? <==> |Flatten(table)| <= MAX_U32
    ensures r.Ok? ==> r.value == (EndOffsets(table), Flatten(table))
  {
    var offsets: seq<nat>, bytes: seq<Byte> := [0], [];
    var i := 0;
    while i < |table|
      invariant 0 <= i <= |table|
      invariant offsets == EndOffsets(table[..i]) && bytes == Flatten(table[..i])
      invariant |bytes| <= MAX_U32
    {
      bytes := bytes + table[i];
      assert table[..i + 1][..i] == table[..i];
      if |bytes| > MAX_U32 {
        StartMonotone(table, i + 1, |table|);
        assert table[..|table|] == table;
        return Err("string bytes exceed u32 capacity");
      }
      offsets := offsets + [|bytes|];
      i := i + 1;
    }
    assert table[..i] == table;
    r := Ok((offsets, bytes));
  }

  // ---- The header ----------------------------------------------------------

  predicate FieldsFit(h: Header) {
    && h.recordLen <= MAX_U32 && h.stringBytesLen <= MAX_U32
    && h.stringOffsetsOffset <= MAX_U32 && h.stringBytesOffset <= MAX_U32
    && h.counterIdOffset <= MAX_U32 && h.scopeOffset <= MAX_U32 && h.kindOffset <= MAX_U32 && h.siteKindOffset <= MAX_U32
    && h.functionIdOffset <= MAX_U32 && h.currentFunctionIdOffset <= MAX_U32
    && h.instrBlockLabelOffset <= MAX_U32 && h.instrIndexOffset <= MAX_U32
    && h.functionQualnameOffset <= MAX_U32 && h.blockLabelOffset <= MAX_U32 && h.valueOffset <= MAX_U32
  }

  // No offset exceeds the record length, so that is the only one of these fields that can overflow first.
  lemma RecordLengthBoundsFields(h: Header)
    requires LaidOut(h)
    ensures FieldsFit(h) <==> h.recordLen <= MAX_U32
    ensures h.stringBytesLen <= h.recordLen
  {
  }

  // ---- Writing -------------------------------------------------------------

  // Copies `src` into the buffer at an offset, unless it does not fit there.
  method WriteBytes(dst: array<Byte>, offset: nat, src: seq<Byte>) returns (r: Result<()>)
    modifies dst
    ensures r.Ok? <==> offset + |src| <= dst.Length
    ensures r.Ok? ==> dst[..] == old(dst[..offset]) + src + old(dst[offset + |src|..])
    ensures r.Err? ==> dst[..] == old(dst[..])
  {
    if offset + |src| > dst.Length {
      return Err("byte range is out of bounds");
    }
    forall i | 0 <= i < |src| {
      dst[offset + i] := src[i];
    }
    r := Ok(());
  }

  // The first `k` sections are in place and the rest of the buffer is still zero.
  ghost predicate Filled(dst: seq<Byte>, s: seq<seq<Byte>>, k: nat) {
    && k <= |s|
    && |dst| == |Flatten(s)| >= StartOf(s, k)
    && dst == Flatten(s[..k]) + Zeros(|dst| - StartOf(s, k))
  }

  // Writes section `k` where it belongs.
  method Put(dst: array<Byte>, offset: nat, src: seq<Byte>, ghost s: seq<seq<Byte>>, ghost k: nat)
    requires k < |s| && Filled(dst[..], s, k) && src == s[k] && offset == StartOf(s, k)
    modifies dst
    ensures Filled(dst[..], s, k + 1)
  {
    SectionEnds(s, k);
    var r := WriteBytes(dst, offset, src);
    assert s[..k + 1][..k] == s[..k];
    assert dst[..] == Flatten(s[..k]) + s[k] + Zeros(dst.Length - StartOf(s, k + 1));
  }

  lemma SectionEnds(s: seq<seq<Byte>>, k: nat)
    requires k < |s|
    ensures StartOf(s, k + 1) == StartOf(s, k) + |s[k]| <= |Flatten(s)|
  {
    StartNext(s, k);
    StartMonotone(s, k + 1, |s|);
    assert s[..|s|] == s;
  }

  // Padding is already there.
  lemma Padded(dst: seq<Byte>, s: seq<seq<Byte>>, k: nat)
    requires k < |s| && Filled(dst, s, k) && s[k] == Zeros(|s[k]|)
    ensures Filled(dst, s, k + 1)
  {
    SectionEnds(s, k);
    assert s[..k + 1][..k] == s[..k];
    assert dst == Flatten(s[..k]) + Zeros(|s[k]|) + Zeros(|dst| - StartOf(s, k + 1));
  }

  // Every section goes where the header says.
  ghost predicate Placed(h: Header, parts: seq<seq<Byte>>) {
    && |parts| == 17 && |Flatten(parts)| == h.recordLen
    && forall k {:trigger OffsetOf(h, k)} :: 0 <= k <= 17 ==> StartOf(parts, k) == OffsetOf(h, k)
  }

  // Writes every section but the padding at the offset the header gives for it.
  method WriteSections(h: Header, parts: seq<seq<Byte>>) returns (r: Result<seq<Byte>>)
    requires Placed(h, parts)
    requires forall k :: 0 <= k < 17 && Padding(k) ==> parts[k] == Zeros(|parts[k]|)
    ensures r == Ok(Flatten(parts))
  {
    var dst := new Byte[h.recordLen](_ => 0);
    assert parts[..0] == [];
    assert dst[..] == Flatten(parts[..0]) + Zeros(h.recordLen);
    for k := 0 to 17
      invariant Filled(dst[..], parts, k)
    {
      if Padding(k) {
        Padded(dst[..], parts, k);
      } else {
        var offset := OffsetOf(h, k);
        Put(dst, offset, parts[k], parts, k);
      }
    }
    assert parts[..17] == parts && Zeros(0) == [];
    assert dst[..] == Flatten(parts);
    r := Ok(dst[..]);
  }

  // Encoding succeeds exactly when everything fits, and then lays the sections end to end.
  method Encode(record: Record) returns (r: Result<seq<Byte>>)
    ensures r.Ok? <==> Fits(record)
    ensures r.Ok? ==> r.value == RecordBytes(record)
  {
    hide TableOf, ColumnsOf, HeaderBytes, Sized, EndOffsets, Words, OffsetOf, StartOf, Flatten;
    if |record.rows| > MAX_U32 {
      return Err("row count exceeds u32 capacity");
    }
    var collected := Collect(record);
    if collected.Err? { return Err(collected.error); }
    var Collected(moduleNameId, packageNameId, table, columns) := collected.value;
    if |table| > MAX_U32 {
      return Err("string count exceeds u32 capacity");
    }
    RecordLengthBoundsFields(RecordHeader(record));
    var strings := StringSection(table);
    if strings.Err? {
      return Err(strings.error);
    }
    var h := LayoutOf(|record.rows|, |table|, |strings.value.1|, moduleNameId, packageNameId);
    if !FieldsFit(h) {
      return Err("header field exceeds u32 capacity");
    }
    SectionSizes(h, table, columns);
    SectionStarts(SectionList(h, table, columns), h);
    PaddingIsZero(h, table, columns);
    r := WriteSections(h, SectionList(h, table, columns));
  }

  lemma PaddingIsZero(h: Header, table: seq<Str>, c: Columns)
    requires LaidOut(h) && h.stringBytesLen == |Flatten(table)|
    ensures forall k :: 0 <= k < 17 && Padding(k) ==> Section(h, table, c, k) == Zeros(|Section(h, table, c, k)|)
  {
  }

  // The ids of the record's own strings are issued ones.
  lemma HeaderIds(record: Record)
    requires |TableOf(record)| <= MAX_U32
    ensures StrId(TableOf(record), record.moduleName) <= MAX_U32
    ensures OptStrId(TableOf(record), PackageOf(record)) <= MAX_U32
  {
  }
}
