/** The counter-dump parser (`soac-inspector/src/counter_dump.rs`). */
module CounterDumpParse {
  import opened Prelude
  import opened Bytes
  import opened CounterDumpFormat

  // A parsed record: its header, its string table and its columns.
  datatype View = View(header: Header, stringOffsets: seq<nat>, stringBytes: seq<Byte>, columns: Columns)

  // ---- Casting -------------------------------------------------------------

  // `count` words of `width` bytes at an offset of a buffer whose first byte has address `base`.
  function CastSlice(bytes: seq<Byte>, base: nat, offset: nat, count: nat, width: nat): (r: Result<seq<nat>>)
    requires width > 0
    ensures r.Ok? ==> offset + width * count <= |bytes|
    ensures r.Ok? ==> |r.value| == count && forall i :: 0 <= i < count ==> r.value[i] < Limit(width)
  {
    if offset + width * count > |bytes| then Err("slice is out of bounds")
    else if (base + offset) % width != 0 then Err("slice is not aligned")
    else
      ReadWordsLimit(bytes[offset..offset + width * count], width, count);
      Ok(ReadWords(bytes[offset..offset + width * count], width, count))
  }

  // The header at the start of the remaining bytes, once its fixed fields are checked.
  function ReadHeader(bytes: seq<Byte>, base: nat): (r: Result<Header>)
    ensures r.Ok? ==> |bytes| >= HEADER_SIZE
  {
    if |bytes| < HEADER_SIZE then Err("tail is too short")
    else if base % 4 != 0 then Err("offset is not aligned")
    else if bytes[..8] != MAGIC then Err("invalid magic")
    else if FromBytes(bytes[8..10]) != VERSION then Err("unsupported version")
    else if FromBytes(bytes[10..12]) != HEADER_SIZE then Err("unexpected header size")
    else Ok(HeaderFrom(ReadWords(bytes[12..88], 4, 19)))
  }

  // No section starts before the one that precedes it in the header.
  predicate SectionsInOrder(h: Header) {
    HEADER_SIZE <= h.stringOffsetsOffset <= h.stringBytesOffset <= h.counterIdOffset <= h.scopeOffset
      <= h.kindOffset <= h.siteKindOffset <= h.functionIdOffset <= h.currentFunctionIdOffset
      <= h.instrBlockLabelOffset <= h.instrIndexOffset <= h.functionQualnameOffset <= h.blockLabelOffset
      <= h.valueOffset <= h.recordLen
  }

  function ReadColumns(bytes: seq<Byte>, base: nat, h: Header): (r: Result<Columns>)
    ensures r.Ok? ==> PerRow(r.value, h.rowCount) && InRange(r.value) && ColumnsWithin(h, |bytes|)
  {
    LimitOfWords();
    var counterId :- CastSlice(bytes, base, h.counterIdOffset, h.rowCount, 4);
    var scope :- CastSlice(bytes, base, h.scopeOffset, h.rowCount, 4);
    var kind :- CastSlice(bytes, base, h.kindOffset, h.rowCount, 4);
    var siteKind :- CastSlice(bytes, base, h.siteKindOffset, h.rowCount, 4);
    var functionId :- CastSlice(bytes, base, h.functionIdOffset, h.rowCount, 8);
    var currentFunctionId :- CastSlice(bytes, base, h.currentFunctionIdOffset, h.rowCount, 8);
    var instrBlockLabel :- CastSlice(bytes, base, h.instrBlockLabelOffset, h.rowCount, 4);
    var instrIndex :- CastSlice(bytes, base, h.instrIndexOffset, h.rowCount, 4);
    var functionQualname :- CastSlice(bytes, base, h.functionQualnameOffset, h.rowCount, 4);
    var blockLabel :- CastSlice(bytes, base, h.blockLabelOffset, h.rowCount, 4);
    var value :- CastSlice(bytes, base, h.valueOffset, h.rowCount, 8);
    Ok(Columns(counterId, scope, kind, siteKind, functionId, currentFunctionId, instrBlockLabel, instrIndex,
               functionQualname, blockLabel, value))
  }

  // Every column lies within the record.
  predicate ColumnsWithin(h: Header, n: nat) {
    && h.counterIdOffset + 4 * h.rowCount <= n && h.scopeOffset + 4 * h.rowCount <= n
    && h.kindOffset + 4 * h.rowCount <= n && h.siteKindOffset + 4 * h.rowCount <= n
    && h.functionIdOffset + 8 * h.rowCount <= n && h.currentFunctionIdOffset + 8 * h.rowCount <= n
    && h.instrBlockLabelOffset + 4 * h.rowCount <= n && h.instrIndexOffset + 4 * h.rowCount <= n
    && h.functionQualnameOffset + 4 * h.rowCount <= n && h.blockLabelOffset + 4 * h.rowCount <= n
    && h.valueOffset + 8 * h.rowCount <= n
  }

  // Every column entry is a value of its width.
  predicate InRange(c: Columns) {
    && (forall v :: v in c.counterId ==> v <= MAX_U32)
    && (forall v :: v in c.functionId ==> v <= MAX_U64)
    && (forall v :: v in c.currentFunctionId ==> v <= MAX_U64)
    && (forall v :: v in c.instrBlockLabel ==> v <= MAX_U32)
    && (forall v :: v in c.instrIndex ==> v <= MAX_U32)
    && (forall v :: v in c.value ==> v <= MAX_U64)
  }

  // ---- Records -------------------------------------------------------------

  // The sections of one record's own bytes.
  function ReadSections(bytes: seq<Byte>, base: nat, h: Header): (r: Result<View>)
    ensures r.Ok? ==> r.value.header == h && Sound(r.value) && Within(h, |bytes|)
  {
    var stringOffsets :- CastSlice(bytes, base, h.stringOffsetsOffset, h.stringCount + 1, 4);
    if h.stringBytesOffset + h.stringBytesLen > |bytes| then Err("string bytes are out of bounds")
    else
      var stringBytes := bytes[h.stringBytesOffset..h.stringBytesOffset + h.stringBytesLen];
      var columns :- ReadColumns(bytes, base, h);
      if stringOffsets[0] != 0 then Err("non-zero first string offset")
      else if stringOffsets[h.stringCount] != |stringBytes| then Err("mismatched string byte length")
      else Ok(View(h, stringOffsets, stringBytes, columns))
  }

  // What holds of every record the parser returns.
  predicate Sound(v: View) {
    && PerRow(v.columns, v.header.rowCount) && InRange(v.columns)
    && |v.stringOffsets| == v.header.stringCount + 1 && |v.stringBytes| == v.header.stringBytesLen
    && v.stringOffsets[0] == 0 && v.stringOffsets[v.header.stringCount] == |v.stringBytes|
  }

  // Every section lies within the record.
  predicate Within(h: Header, n: nat) {
    && h.stringOffsetsOffset + 4 * (h.stringCount + 1) <= n && h.stringBytesOffset + h.stringBytesLen <= n
    && ColumnsWithin(h, n)
  }

  predicate LengthValid(h: Header) {
    h.recordLen > 0 && h.recordLen % 8 == 0
  }

  // The first record of the remaining bytes.
  function ParseOne(remaining: seq<Byte>, base: nat): (r: Result<View>)
    ensures r.Ok? ==> Sound(r.value) && LengthValid(r.value.header) && SectionsInOrder(r.value.header)
    ensures r.Ok? ==> Within(r.value.header, r.value.header.recordLen) && HEADER_SIZE <= r.value.header.recordLen <= |remaining|
  {
    var h :- ReadHeader(remaining, base);
    if !LengthValid(h) then Err("invalid length")
    else if h.recordLen > |remaining| then Err("record extends past end of file")
    else if !SectionsInOrder(h) then Err("overlapping sections")
    else ReadSections(remaining[..h.recordLen], base, h)
  }

  function Prepend(views: seq<View>, rest: Result<seq<View>>): Result<seq<View>> {
    if rest.Ok? then Ok(views + rest.value) else rest
  }

  // The records of the whole buffer.
  function ParseAll(bytes: seq<Byte>, base: nat): Result<seq<View>>
    decreases |bytes|
  {
    if bytes == [] then Ok([])
    else
      var v :- ParseOne(bytes, base);
      Prepend([v], ParseAll(bytes[v.header.recordLen..], base + v.header.recordLen))
  }

  // Reads record after record until the bytes run out or one is malformed.
  method ParseRecords(bytes: seq<Byte>, base: nat) returns (r: Result<seq<View>>)
    ensures r == ParseAll(bytes, base)
  {
    hide ParseOne, Sound, Within, SectionsInOrder;
    var records: seq<View> := [];
    var offset := 0;
    assert bytes[0..] == bytes;
    PrependNothing(records, ParseAll(bytes, base));
    while offset < |bytes|
      invariant 0 <= offset <= |bytes|
      invariant ParseAll(bytes, base) == Prepend(records, ParseAll(bytes[offset..], base + offset))
    {
      var v := ParseOne(bytes[offset..], base + offset);
      if v.Err? {
        return Err(v.error);
      }
      var next := offset + v.value.header.recordLen;
      assert bytes[offset..][v.value.header.recordLen..] == bytes[next..];
      PrependTwice(records, v.value, ParseAll(bytes[next..], base + next));
      records := records + [v.value];
      offset := next;
    }
    PrependNothing(records, Ok([]));
    r := Ok(records);
  }

  lemma PrependNothing(views: seq<View>, rest: Result<seq<View>>)
    ensures Prepend([], rest) == rest && Prepend(views, Ok([])) == Ok(views)
  {
    assert views + [] == views;
    assert rest.Ok? ==> [] + rest.value == rest.value;
  }

  lemma PrependTwice(views: seq<View>, v: View, rest: Result<seq<View>>)
    ensures Prepend(views, Prepend([v], rest)) == Prepend(views + [v], rest)
  {
    if rest.Ok? {
      assert views + ([v] + rest.value) == views + [v] + rest.value;
    }
  }

  // ---- Tiling --------------------------------------------------------------

  function TotalLength(views: seq<View>): nat {
    if views == [] then 0 else views[0].header.recordLen + TotalLength(views[1..])
  }

  // Where record `i` starts.
  function RecordStart(views: seq<View>, i: nat): nat
    requires i <= |views|
  {
    TotalLength(views[..i])
  }

  // Whatever the bytes, what is parsed is sound and its records tile the input.
  lemma {:induction false} ParsedRecordsTile(bytes: seq<Byte>, base: nat)
    requires ParseAll(bytes, base).Ok?
    ensures var views := ParseAll(bytes, base).value;
            && TotalLength(views) == |bytes|
            && forall v :: v in views ==> Sound(v) && LengthValid(v.header) && SectionsInOrder(v.header) && Within(v.header, v.header.recordLen)
    decreases |bytes|
  {
    hide ParseOne, Sound, Within, SectionsInOrder;
    if bytes != [] {
      var v := ParseOne(bytes, base).value;
      ParsedRecordsTile(bytes[v.header.recordLen..], base + v.header.recordLen);
      var rest := ParseAll(bytes[v.header.recordLen..], base + v.header.recordLen).value;
      assert ([v] + rest)[1..] == rest;
    }
  }

  // Each record is what parsing finds where the records before it end.
  lemma {:induction false} EachRecordInPlace(bytes: seq<Byte>, base: nat, i: nat)
    requires ParseAll(bytes, base).Ok? && i < |ParseAll(bytes, base).value|
    ensures var views := ParseAll(bytes, base).value;
            && RecordStart(views, i) + views[i].header.recordLen <= |bytes|
            && ParseOne(bytes[RecordStart(views, i)..], base + RecordStart(views, i)) == Ok(views[i])
    decreases |bytes|
  {
    hide ParseOne, Sound, Within, SectionsInOrder;
    var views := ParseAll(bytes, base).value;
    var v := ParseOne(bytes, base).value;
    var n := v.header.recordLen;
    if i == 0 {
      assert views[..0] == [] && bytes[0..] == bytes;
    } else {
      EachRecordInPlace(bytes[n..], base + n, i - 1);
      var rest := ParseAll(bytes[n..], base + n).value;
      var at := RecordStart(rest, i - 1);
      assert views[..i] == [v] + rest[..i - 1] && views[..i][1..] == rest[..i - 1];
      assert bytes[n..][at..] == bytes[n + at..];
    }
  }

  // A record's own bytes decide how it is read; what follows does not matter.
  lemma ParseOneIsLocal(a: seq<Byte>, b: seq<Byte>, base: nat)
    requires ParseOne(a, base).Ok?
    ensures ParseOne(a + b, base) == ParseOne(a, base)
  {
    hide ReadHeader, ReadSections, Sound, SectionsInOrder, Within;
    ReadHeaderIsLocal(a, b, base);
    var h := ReadHeader(a, base).value;
    assert (a + b)[..h.recordLen] == a[..h.recordLen];
  }

  lemma ReadHeaderIsLocal(a: seq<Byte>, b: seq<Byte>, base: nat)
    requires ReadHeader(a, base).Ok?
    ensures ReadHeader(a + b, base) == ReadHeader(a, base)
  {
    hide HeaderFrom, ReadWords, FromBytes;
    assert (a + b)[..8] == a[..8] && (a + b)[8..10] == a[8..10];
    assert (a + b)[10..12] == a[10..12] && (a + b)[12..88] == a[12..88];
  }

  // A dump appended to a well-formed one parses to the records of both.
  lemma {:induction false} AppendedDumps(a: seq<Byte>, b: seq<Byte>, base: nat)
    requires ParseAll(a, base).Ok?
    ensures ParseAll(a + b, base) == Prepend(ParseAll(a, base).value, ParseAll(b, base + |a|))
    decreases |a|
  {
    hide ParseOne, Sound, Within, SectionsInOrder;
    if a == [] {
      assert a + b == b;
      PrependNothing([], ParseAll(b, base));
    } else {
      var v := ParseOne(a, base).value;
      var n := v.header.recordLen;
      ParseOneIsLocal(a, b, base);
      assert (a + b)[n..] == a[n..] + b;
      AppendedDumps(a[n..], b, base + n);
      assert base + n + |a[n..]| == base + |a|;
      PrependAgain(v, ParseAll(a[n..], base + n).value, ParseAll(b, base + |a|));
    }
  }

  lemma PrependAgain(v: View, views: seq<View>, rest: Result<seq<View>>)
    ensures Prepend([v], Prepend(views, rest)) == Prepend([v] + views, rest)
  {
    if rest.Ok? {
      assert [v] + (views + rest.value) == [v] + views + rest.value;
    }
  }

  // ---- Rows ----------------------------------------------------------------

  // The string with an id, if the id, its range and its bytes are all valid.
  function ResolveString(v: View, id: nat, utf8: Str -> bool): Result<Str> {
    if id >= |v.stringOffsets| then Err("string id is out of bounds")
    else if id + 1 >= |v.stringOffsets| then Err("string id is missing its terminal offset")
    else
      var start, end := v.stringOffsets[id], v.stringOffsets[id + 1];
      if start > end || end > |v.stringBytes| then Err("string range is out of bounds")
      else if !utf8(v.stringBytes[start..end]) then Err("string is not utf-8")
      else Ok(v.stringBytes[start..end])
  }

  function ResolveOptional(v: View, id: nat, utf8: Str -> bool): Result<Option<Str>> {
    if id == NONE_U32 then Ok(None)
    else
      var s :- ResolveString(v, id, utf8);
      Ok(Some(s))
  }

  function IdFrom(v: U64): Option<U64> {
    if v != NONE_U64 then Some(v) else None
  }

  function InstrFrom(blockLabel: U32, index: U32): Option<InstrId> {
    if blockLabel == NONE_U32 || index == NONE_U32 then None else Some(InstrId(blockLabel, index))
  }

  function ReadRow(v: View, i: nat, utf8: Str -> bool): Result<Row>
    requires Sound(v)
  {
    if i >= |v.columns.counterId| then Err("row is out of bounds")
    else
      var c := v.columns;
      assert c.counterId[i] in c.counterId && c.functionId[i] in c.functionId;
      assert c.currentFunctionId[i] in c.currentFunctionId && c.value[i] in c.value;
      assert c.instrBlockLabel[i] in c.instrBlockLabel && c.instrIndex[i] in c.instrIndex;
      var scope :- ResolveString(v, c.scope[i], utf8);
      var kind :- ResolveString(v, c.kind[i], utf8);
      var siteKind :- ResolveString(v, c.siteKind[i], utf8);
      var qualname :- ResolveOptional(v, c.functionQualname[i], utf8);
      var block :- ResolveOptional(v, c.blockLabel[i], utf8);
      Ok(Row(c.counterId[i], scope, kind, siteKind, IdFrom(c.functionId[i]), IdFrom(c.currentFunctionId[i]),
             InstrFrom(c.instrBlockLabel[i], c.instrIndex[i]), qualname, block, c.value[i]))
  }

  function ModuleName(v: View, utf8: Str -> bool): Result<Str> {
    ResolveString(v, v.header.moduleNameId, utf8)
  }

  function PackageName(v: View, utf8: Str -> bool): Result<Option<Str>> {
    ResolveOptional(v, v.header.packageNameId, utf8)
  }
}
