/** The counter-dump format byte by byte, at the offsets and with the constants both sides write out for themselves
    (`soac-eval/src/counter_dump.rs`, `soac-inspector/src/counter_dump.rs`). */
module CounterDumpWire {
  import opened Prelude
  import opened Bytes
  import opened CounterDumpFormat
  import opened CounterDumpEncode
  import opened CounterDumpParse
  import opened CounterDumpRoundTrip
  import opened CounterDumpTheorems

  // ---- Little-endian words -------------------------------------------------

  function Le16(b: seq<Byte>, at: nat): nat
    requires at + 2 <= |b|
  {
    b[at] as nat + 0x100 * b[at + 1] as nat
  }

  function Le32(b: seq<Byte>, at: nat): nat
    requires at + 4 <= |b|
  {
    b[at] as nat + 0x100 * b[at + 1] as nat + 0x1_0000 * b[at + 2] as nat + 0x100_0000 * b[at + 3] as nat
  }

  function Le64(b: seq<Byte>, at: nat): nat
    requires at + 8 <= |b|
  {
    Le32(b, at) + 0x1_0000_0000 * Le32(b, at + 4)
  }

  lemma TwoBytes(s: seq<Byte>)
    requires |s| == 2
    ensures FromBytes(s) == Le16(s, 0)
  {
    assert s[1..][1..] == [];
    assert FromBytes(s[1..]) == s[1] + 0x100 * FromBytes([]) && FromBytes(s) == s[0] + 0x100 * FromBytes(s[1..]);
  }

  lemma FourBytes(s: seq<Byte>)
    requires |s| == 4
    ensures FromBytes(s) == Le32(s, 0)
  {
    TwoBytes(s[2..]);
    assert s[1..][1..] == s[2..];
    assert FromBytes(s) == s[0] + 0x100 * FromBytes(s[1..]) && FromBytes(s[1..]) == s[1] + 0x100 * FromBytes(s[2..]);
  }

  lemma EightBytes(s: seq<Byte>)
    requires |s| == 8
    ensures FromBytes(s) == Le64(s, 0)
  {
    FourBytes(s[4..]);
    assert s[1..][1..] == s[2..] && s[2..][1..] == s[3..] && s[3..][1..] == s[4..];
    assert FromBytes(s) == s[0] + 0x100 * FromBytes(s[1..]) && FromBytes(s[1..]) == s[1] + 0x100 * FromBytes(s[2..]);
    assert FromBytes(s[2..]) == s[2] + 0x100 * FromBytes(s[3..]) && FromBytes(s[3..]) == s[3] + 0x100 * FromBytes(s[4..]);
  }

  lemma {:induction false} Multiples(width: nat, i: nat, count: nat)
    requires i < count
    ensures width * i + width <= width * count
  {
    OneMore(width, i);
    if i + 1 < count {
      Multiples(width, i, count - 1);
      OneMore(width, count - 1);
    }
  }

  lemma OneMore(width: nat, i: nat)
    ensures width * (i + 1) == width * i + width
  {
  }

  lemma SliceOfSlice<T>(s: seq<T>, from: nat, to: nat, a: nat, b: nat)
    requires from <= to <= |s| && a <= b <= to - from
    ensures s[from..to][a..b] == s[from + a..from + b]
  {
    forall k | 0 <= k < b - a
      ensures s[from..to][a..b][k] == s[from + a..from + b][k]
    {
      assert s[from..to][a + k] == s[from + a + k];
    }
  }

  lemma {:induction false} ReadWordAt(s: seq<Byte>, width: nat, count: nat, i: nat)
    requires |s| == width * count && i < count
    ensures width * i + width <= |s|
    ensures ReadWords(s, width, count)[i] == FromBytes(s[width * i..width * i + width])
    decreases count, 1
  {
    hide FromBytes;
    Multiples(width, i, count);
    Multiples(width, count - 1, count);
    if i < count - 1 {
      Multiples(width, i, count - 1);
      ReadWordBefore(s, width, count, i);
    } else {
      assert s[width * i..] == s[width * i..width * i + width];
    }
  }

  lemma {:induction false} ReadWordBefore(s: seq<Byte>, width: nat, count: nat, i: nat)
    requires |s| == width * count == width * (count - 1) + width && i < count - 1 && width * i + width <= width * (count - 1)
    ensures ReadWords(s, width, count)[i] == FromBytes(s[width * i..width * i + width])
    decreases count, 0
  {
    hide FromBytes;
    var init := s[..width * (count - 1)];
    ReadWordAt(init, width, count - 1, i);
    assert init[width * i..width * i + width] == s[width * i..width * i + width];
    assert ReadWords(s, width, count)[..count - 1] == ReadWords(init, width, count - 1);
  }

  lemma Word4OnWire(bytes: seq<Byte>, offset: nat, count: nat, i: nat)
    requires offset + 4 * count <= |bytes| && i < count
    ensures ReadWords(bytes[offset..offset + 4 * count], 4, count)[i] == Le32(bytes, offset + 4 * i)
  {
    hide ReadWords, FromBytes, Le32;
    var s := bytes[offset..offset + 4 * count];
    ReadWordAt(s, 4, count, i);
    SliceOfSlice(bytes, offset, offset + 4 * count, 4 * i, 4 * i + 4);
    FourAt(bytes, offset + 4 * i);
  }

  lemma Word8OnWire(bytes: seq<Byte>, offset: nat, count: nat, i: nat)
    requires offset + 8 * count <= |bytes| && i < count
    ensures ReadWords(bytes[offset..offset + 8 * count], 8, count)[i] == Le64(bytes, offset + 8 * i)
  {
    hide ReadWords, FromBytes, Le64;
    var s := bytes[offset..offset + 8 * count];
    ReadWordAt(s, 8, count, i);
    SliceOfSlice(bytes, offset, offset + 8 * count, 8 * i, 8 * i + 8);
    EightAt(bytes, offset + 8 * i);
  }

  // A cast slice holds the little-endian words at its offset; it exists exactly when it is in bounds and aligned.
  lemma CastOnWire4(bytes: seq<Byte>, base: nat, offset: nat, count: nat)
    ensures CastSlice(bytes, base, offset, count, 4).Ok? <==> offset + 4 * count <= |bytes| && (base + offset) % 4 == 0
    ensures CastSlice(bytes, base, offset, count, 4).Ok? ==> forall i :: 0 <= i < count ==>
              offset + 4 * i + 4 <= |bytes| && CastSlice(bytes, base, offset, count, 4).value[i] == Le32(bytes, offset + 4 * i)
  {
    hide ReadWords, Le32;
    if CastSlice(bytes, base, offset, count, 4).Ok? {
      forall i | 0 <= i < count
        ensures ReadWords(bytes[offset..offset + 4 * count], 4, count)[i] == Le32(bytes, offset + 4 * i)
      {
        Word4OnWire(bytes, offset, count, i);
      }
    }
  }

  lemma CastOnWire8(bytes: seq<Byte>, base: nat, offset: nat, count: nat)
    ensures CastSlice(bytes, base, offset, count, 8).Ok? <==> offset + 8 * count <= |bytes| && (base + offset) % 8 == 0
    ensures CastSlice(bytes, base, offset, count, 8).Ok? ==> forall i :: 0 <= i < count ==>
              offset + 8 * i + 8 <= |bytes| && CastSlice(bytes, base, offset, count, 8).value[i] == Le64(bytes, offset + 8 * i)
  {
    hide ReadWords, Le64;
    if CastSlice(bytes, base, offset, count, 8).Ok? {
      forall i | 0 <= i < count
        ensures ReadWords(bytes[offset..offset + 8 * count], 8, count)[i] == Le64(bytes, offset + 8 * i)
      {
        Word8OnWire(bytes, offset, count, i);
      }
    }
  }

  lemma FourAt(b: seq<Byte>, at: nat)
    requires at + 4 <= |b|
    ensures FromBytes(b[at..at + 4]) == Le32(b, at)
  {
    hide FromBytes;
    FourBytes(b[at..at + 4]);
  }

  lemma EightAt(b: seq<Byte>, at: nat)
    requires at + 8 <= |b|
    ensures FromBytes(b[at..at + 8]) == Le64(b, at)
  {
    hide FromBytes;
    var s := b[at..at + 8];
    EightBytes(s);
    assert Le32(s, 0) == Le32(b, at) && Le32(s, 4) == Le32(b, at + 4);
  }

  // ---- Reading the header --------------------------------------------------

  // Magic "SOACCNTR", version 4 and header size 88.
  predicate HeaderBytesRight(b: seq<Byte>) {
    && |b| >= 88
    && b[..8] == [83, 79, 65, 67, 67, 78, 84, 82] && Le16(b, 8) == 4 && Le16(b, 10) == 88
  }

  lemma HeaderWord(b: seq<Byte>, k: nat)
    requires |b| >= 88 && k < 19
    ensures ReadWords(b[12..88], 4, 19)[k] == Le32(b, 12 + 4 * k)
  {
    hide ReadWords, Le32;
    Word4OnWire(b, 12, 19, k);
  }

  // Which bytes a header is read from.
  predicate HeaderAt(b: seq<Byte>, h: Header)
    requires |b| >= 88
  {
    && h.recordLen == Le32(b, 12) && h.rowCount == Le32(b, 16) && h.stringCount == Le32(b, 20)
    && h.stringBytesLen == Le32(b, 24) && h.moduleNameId == Le32(b, 28) && h.packageNameId == Le32(b, 32)
    && h.stringOffsetsOffset == Le32(b, 36) && h.stringBytesOffset == Le32(b, 40)
    && h.counterIdOffset == Le32(b, 44) && h.scopeOffset == Le32(b, 48) && h.kindOffset == Le32(b, 52)
    && h.siteKindOffset == Le32(b, 56) && h.functionIdOffset == Le32(b, 60) && h.currentFunctionIdOffset == Le32(b, 64)
    && h.instrBlockLabelOffset == Le32(b, 68) && h.instrIndexOffset == Le32(b, 72)
    && h.functionQualnameOffset == Le32(b, 76) && h.blockLabelOffset == Le32(b, 80) && h.valueOffset == Le32(b, 84)
  }

  lemma ReadHeaderExactly(b: seq<Byte>, base: nat)
    ensures ReadHeader(b, base).Ok? <==> HeaderBytesRight(b) && base % 4 == 0
    ensures ReadHeader(b, base).Ok? ==> HeaderAt(b, ReadHeader(b, base).value)
  {
    hide ReadWords, FromBytes, Le16, Le32;
    if |b| >= 88 {
      ShortWord(b, 8);
      ShortWord(b, 10);
      HeaderWord(b, 0);
      HeaderWord(b, 1);
      HeaderWord(b, 2);
      HeaderWord(b, 3);
      HeaderWord(b, 4);
      HeaderWord(b, 5);
      HeaderWord(b, 6);
      HeaderWord(b, 7);
      HeaderWord(b, 8);
      HeaderWord(b, 9);
      HeaderWord(b, 10);
      HeaderWord(b, 11);
      HeaderWord(b, 12);
      HeaderWord(b, 13);
      HeaderWord(b, 14);
      HeaderWord(b, 15);
      HeaderWord(b, 16);
      HeaderWord(b, 17);
      HeaderWord(b, 18);
    }
  }

  lemma ShortWord(b: seq<Byte>, at: nat)
    requires at + 2 <= |b|
    ensures FromBytes(b[at..at + 2]) == Le16(b, at)
  {
    TwoBytes(b[at..at + 2]);
  }

  // ---- Reading a record ----------------------------------------------------

  // `count` words of `width` bytes, at the offset the header word at `at` gives, lie in the record.
  predicate InRecord(b: seq<Byte>, at: nat, count: nat, width: nat)
    requires |b| >= 88 && at + 4 <= 88
  {
    Le32(b, at) + width * count <= Le32(b, 12)
  }

  // Sections start after the header and in the order of its words.
  predicate OffsetsInOrder(b: seq<Byte>)
    requires |b| >= 88
  {
    88 <= Le32(b, 36) <= Le32(b, 40) <= Le32(b, 44) <= Le32(b, 48) <= Le32(b, 52) <= Le32(b, 56) <= Le32(b, 60)
      <= Le32(b, 64) <= Le32(b, 68) <= Le32(b, 72) <= Le32(b, 76) <= Le32(b, 80) <= Le32(b, 84) <= Le32(b, 12)
  }

  predicate SectionsInRecord(b: seq<Byte>)
    requires |b| >= 88
  {
    var n := Le32(b, 16);
    && InRecord(b, 36, Le32(b, 20) + 1, 4) && Le32(b, 40) + Le32(b, 24) <= Le32(b, 12)
    && InRecord(b, 44, n, 4) && InRecord(b, 48, n, 4) && InRecord(b, 52, n, 4) && InRecord(b, 56, n, 4)
    && InRecord(b, 60, n, 8) && InRecord(b, 64, n, 8)
    && InRecord(b, 68, n, 4) && InRecord(b, 72, n, 4) && InRecord(b, 76, n, 4) && InRecord(b, 80, n, 4)
    && InRecord(b, 84, n, 8)
  }

  // Every section starts at a multiple of the width of its words.
  predicate SectionsAligned(b: seq<Byte>, base: nat)
    requires |b| >= 88
  {
    && (base + Le32(b, 36)) % 4 == 0 && (base + Le32(b, 44)) % 4 == 0 && (base + Le32(b, 48)) % 4 == 0
    && (base + Le32(b, 52)) % 4 == 0 && (base + Le32(b, 56)) % 4 == 0
    && (base + Le32(b, 60)) % 8 == 0 && (base + Le32(b, 64)) % 8 == 0
    && (base + Le32(b, 68)) % 4 == 0 && (base + Le32(b, 72)) % 4 == 0
    && (base + Le32(b, 76)) % 4 == 0 && (base + Le32(b, 80)) % 4 == 0 && (base + Le32(b, 84)) % 8 == 0
  }

  // What bytes make a record: a header, a length that is a positive multiple of eight and not past the end, sections in
  // order and in the record, and string offsets from zero to the length of the string bytes.
  predicate IsRecord(b: seq<Byte>) {
    && HeaderBytesRight(b)
    && 0 < Le32(b, 12) <= |b| && Le32(b, 12) % 8 == 0
    && OffsetsInOrder(b) && SectionsInRecord(b)
    && Le32(b, Le32(b, 36)) == 0 && Le32(b, Le32(b, 36) + 4 * Le32(b, 20)) == Le32(b, 24)
  }

  // The words of a column.
  predicate Column4At(b: seq<Byte>, offset: nat, c: seq<nat>) {
    offset + 4 * |c| <= |b| && forall i :: 0 <= i < |c| ==> c[i] == Le32(b, offset + 4 * i)
  }

  predicate Column8At(b: seq<Byte>, offset: nat, c: seq<nat>) {
    offset + 8 * |c| <= |b| && forall i :: 0 <= i < |c| ==> c[i] == Le64(b, offset + 8 * i)
  }

  // Where everything in a record is read from.
  predicate ColumnsAt(b: seq<Byte>, c: Columns)
    requires |b| >= 88
  {
    && PerRow(c, Le32(b, 16))
    && Column4At(b, Le32(b, 44), c.counterId) && Column4At(b, Le32(b, 48), c.scope) && Column4At(b, Le32(b, 52), c.kind)
    && Column4At(b, Le32(b, 56), c.siteKind) && Column8At(b, Le32(b, 60), c.functionId)
    && Column8At(b, Le32(b, 64), c.currentFunctionId) && Column4At(b, Le32(b, 68), c.instrBlockLabel)
    && Column4At(b, Le32(b, 72), c.instrIndex) && Column4At(b, Le32(b, 76), c.functionQualname)
    && Column4At(b, Le32(b, 80), c.blockLabel) && Column8At(b, Le32(b, 84), c.value)
  }

  predicate ViewAt(b: seq<Byte>, v: View)
    requires |b| >= 88
  {
    && HeaderAt(b, v.header)
    && |v.stringOffsets| == Le32(b, 20) + 1 && Column4At(b, Le32(b, 36), v.stringOffsets)
    && Le32(b, 40) + Le32(b, 24) <= |b| && v.stringBytes == b[Le32(b, 40)..Le32(b, 40) + Le32(b, 24)]
    && ColumnsAt(b, v.columns)
  }

  // What the column reader takes, and from where.
  predicate Fits4(n: nat, base: nat, offset: nat, count: nat) {
    offset + 4 * count <= n && (base + offset) % 4 == 0
  }

  predicate Fits8(n: nat, base: nat, offset: nat, count: nat) {
    offset + 8 * count <= n && (base + offset) % 8 == 0
  }

  lemma Cast4(b: seq<Byte>, n: nat, base: nat, offset: nat, count: nat)
    requires n <= |b|
    ensures CastSlice(b[..n], base, offset, count, 4).Ok? <==> Fits4(n, base, offset, count)
    ensures CastSlice(b[..n], base, offset, count, 4).Ok? ==> Column4At(b, offset, CastSlice(b[..n], base, offset, count, 4).value)
  {
    CastOnWire4(b[..n], base, offset, count);
  }

  lemma Cast8(b: seq<Byte>, n: nat, base: nat, offset: nat, count: nat)
    requires n <= |b|
    ensures CastSlice(b[..n], base, offset, count, 8).Ok? <==> Fits8(n, base, offset, count)
    ensures CastSlice(b[..n], base, offset, count, 8).Ok? ==> Column8At(b, offset, CastSlice(b[..n], base, offset, count, 8).value)
  {
    CastOnWire8(b[..n], base, offset, count);
  }

  predicate ColumnsFitIn(h: Header, n: nat, base: nat) {
    && Fits4(n, base, h.counterIdOffset, h.rowCount) && Fits4(n, base, h.scopeOffset, h.rowCount)
    && Fits4(n, base, h.kindOffset, h.rowCount) && Fits4(n, base, h.siteKindOffset, h.rowCount)
    && Fits8(n, base, h.functionIdOffset, h.rowCount) && Fits8(n, base, h.currentFunctionIdOffset, h.rowCount)
    && Fits4(n, base, h.instrBlockLabelOffset, h.rowCount) && Fits4(n, base, h.instrIndexOffset, h.rowCount)
    && Fits4(n, base, h.functionQualnameOffset, h.rowCount) && Fits4(n, base, h.blockLabelOffset, h.rowCount)
    && Fits8(n, base, h.valueOffset, h.rowCount)
  }

  predicate ColumnsFrom(b: seq<Byte>, h: Header, c: Columns) {
    && PerRow(c, h.rowCount)
    && Column4At(b, h.counterIdOffset, c.counterId) && Column4At(b, h.scopeOffset, c.scope)
    && Column4At(b, h.kindOffset, c.kind) && Column4At(b, h.siteKindOffset, c.siteKind)
    && Column8At(b, h.functionIdOffset, c.functionId) && Column8At(b, h.currentFunctionIdOffset, c.currentFunctionId)
    && Column4At(b, h.instrBlockLabelOffset, c.instrBlockLabel) && Column4At(b, h.instrIndexOffset, c.instrIndex)
    && Column4At(b, h.functionQualnameOffset, c.functionQualname) && Column4At(b, h.blockLabelOffset, c.blockLabel)
    && Column8At(b, h.valueOffset, c.value)
  }

  lemma ReadColumnsExactly(b: seq<Byte>, n: nat, base: nat, h: Header)
    requires n <= |b|
    ensures ReadColumns(b[..n], base, h).Ok? <==> ColumnsFitIn(h, n, base)
    ensures ReadColumns(b[..n], base, h).Ok? ==> ColumnsFrom(b, h, ReadColumns(b[..n], base, h).value)
  {
    hide CastSlice, Column4At, Column8At, Fits4, Fits8, InRange, ColumnsWithin;
    Cast4(b, n, base, h.counterIdOffset, h.rowCount);
    Cast4(b, n, base, h.scopeOffset, h.rowCount);
    Cast4(b, n, base, h.kindOffset, h.rowCount);
    Cast4(b, n, base, h.siteKindOffset, h.rowCount);
    Cast8(b, n, base, h.functionIdOffset, h.rowCount);
    Cast8(b, n, base, h.currentFunctionIdOffset, h.rowCount);
    Cast4(b, n, base, h.instrBlockLabelOffset, h.rowCount);
    Cast4(b, n, base, h.instrIndexOffset, h.rowCount);
    Cast4(b, n, base, h.functionQualnameOffset, h.rowCount);
    Cast4(b, n, base, h.blockLabelOffset, h.rowCount);
    Cast8(b, n, base, h.valueOffset, h.rowCount);
  }

  predicate StringsAccepted(b: seq<Byte>, n: nat, base: nat, h: Header)
    requires n <= |b|
  {
    && Fits4(n, base, h.stringOffsetsOffset, h.stringCount + 1) && h.stringBytesOffset + h.stringBytesLen <= n
    && Le32(b, h.stringOffsetsOffset) == 0 && Le32(b, h.stringOffsetsOffset + 4 * h.stringCount) == h.stringBytesLen
  }

  lemma ReadSectionsExactly(b: seq<Byte>, n: nat, base: nat, h: Header)
    requires n <= |b|
    ensures ReadSections(b[..n], base, h).Ok? <==> StringsAccepted(b, n, base, h) && ColumnsFitIn(h, n, base)
    ensures ReadSections(b[..n], base, h).Ok? ==>
              var v := ReadSections(b[..n], base, h).value;
              && v.header == h && |v.stringOffsets| == h.stringCount + 1 && Column4At(b, h.stringOffsetsOffset, v.stringOffsets)
              && h.stringBytesOffset + h.stringBytesLen <= |b|
              && v.stringBytes == b[h.stringBytesOffset..h.stringBytesOffset + h.stringBytesLen]
              && ColumnsFrom(b, h, v.columns)
  {
    hide CastSlice, ReadColumns, ColumnsFitIn, ColumnsFrom, InRange, ColumnsWithin, Le32;
    Cast4(b, n, base, h.stringOffsetsOffset, h.stringCount + 1);
    ReadColumnsExactly(b, n, base, h);
    var offsets := CastSlice(b[..n], base, h.stringOffsetsOffset, h.stringCount + 1, 4);
    if offsets.Ok? {
      assert offsets.value[0] == Le32(b, h.stringOffsetsOffset + 4 * 0);
      assert offsets.value[h.stringCount] == Le32(b, h.stringOffsetsOffset + 4 * h.stringCount);
      if h.stringBytesOffset + h.stringBytesLen <= n {
        assert b[..n][h.stringBytesOffset..h.stringBytesOffset + h.stringBytesLen]
            == b[h.stringBytesOffset..h.stringBytesOffset + h.stringBytesLen];
      }
    }
  }

  // The parser accepts exactly these bytes, and reads everything from these places.
  lemma ParseOneExactly(b: seq<Byte>, base: nat)
    ensures ParseOne(b, base).Ok? <==> IsRecord(b) && base % 4 == 0 && SectionsAligned(b, base)
    ensures ParseOne(b, base).Ok? ==> ViewAt(b, ParseOne(b, base).value)
  {
    hide ReadHeader, ReadSections, Le16, Le32, Column4At, Column8At, Sound, Within;
    ReadHeaderExactly(b, base);
    if HeaderBytesRight(b) && base % 4 == 0 {
      var h := ReadHeader(b, base).value;
      if h.recordLen <= |b| {
        ReadSectionsExactly(b, h.recordLen, base, h);
      }
    }
  }

  // ---- Reading rows --------------------------------------------------------

  // The bytes of the string with an id, if there is one and its range makes sense.
  function StringAt(b: seq<Byte>, id: nat): Option<Str>
    requires IsRecord(b)
  {
    if id >= Le32(b, 20) then None
    else
      var from, to := Le32(b, Le32(b, 36) + 4 * id), Le32(b, Le32(b, 36) + 4 * id + 4);
      if from > to || to > Le32(b, 24) then None else Some(b[Le32(b, 40) + from..Le32(b, 40) + to])
  }

  predicate Names(b: seq<Byte>, id: nat, s: Str, utf8: Str -> bool)
    requires IsRecord(b)
  {
    StringAt(b, id) == Some(s) && utf8(s)
  }

  // A word of all ones stands for nothing.
  predicate NamesOptional(b: seq<Byte>, id: nat, s: Option<Str>, utf8: Str -> bool)
    requires IsRecord(b)
  {
    if id == 0xFFFF_FFFF then s == None else s.Some? && Names(b, id, s.value, utf8)
  }

  // What row `i` of a record says, by the bytes.
  predicate RowAtBytes(b: seq<Byte>, i: nat, row: Row, utf8: Str -> bool)
    requires IsRecord(b) && i < Le32(b, 16)
  {
    && row.counterId == Le32(b, Le32(b, 44) + 4 * i)
    && Names(b, Le32(b, Le32(b, 48) + 4 * i), row.scope, utf8)
    && Names(b, Le32(b, Le32(b, 52) + 4 * i), row.kind, utf8)
    && Names(b, Le32(b, Le32(b, 56) + 4 * i), row.siteKind, utf8)
    && row.functionId == WordOrNone(Le64(b, Le32(b, 60) + 8 * i))
    && row.currentFunctionId == WordOrNone(Le64(b, Le32(b, 64) + 8 * i))
    && row.instrId == PairOrNone(Le32(b, Le32(b, 68) + 4 * i), Le32(b, Le32(b, 72) + 4 * i))
    && NamesOptional(b, Le32(b, Le32(b, 76) + 4 * i), row.functionQualname, utf8)
    && NamesOptional(b, Le32(b, Le32(b, 80) + 4 * i), row.blockLabel, utf8)
    && row.value == Le64(b, Le32(b, 84) + 8 * i)
  }

  function WordOrNone(w: nat): Option<nat> {
    if w == 0xFFFF_FFFF_FFFF_FFFF then None else Some(w)
  }

  function PairOrNone(a: nat, b: nat): Option<InstrId>
    requires a <= 0xFFFF_FFFF && b <= 0xFFFF_FFFF
  {
    if a == 0xFFFF_FFFF || b == 0xFFFF_FFFF then None else Some(InstrId(a, b))
  }

  lemma ResolveExactly(b: seq<Byte>, v: View, id: nat, s: Str, utf8: Str -> bool)
    requires IsRecord(b) && ViewAt(b, v)
    ensures ResolveString(v, id, utf8) == Ok(s) <==> Names(b, id, s, utf8)
  {
    hide Le32, OffsetsInOrder, ColumnsAt, HeaderAt, Column4At;
    StringCount(b, v);
    if id < Le32(b, 20) {
      var from, to := v.stringOffsets[id], v.stringOffsets[id + 1];
      ColumnEntry(b, Le32(b, 36), v.stringOffsets, id);
      ColumnEntry(b, Le32(b, 36), v.stringOffsets, id + 1);
      if from <= to <= |v.stringBytes| {
        SliceOfSlice(b, Le32(b, 40), Le32(b, 40) + Le32(b, 24), from, to);
      }
    }
  }

  lemma ColumnEntry(b: seq<Byte>, offset: nat, c: seq<nat>, k: nat)
    requires Column4At(b, offset, c) && k < |c|
    ensures offset + 4 * k + 4 <= |b| && c[k] == Le32(b, offset + 4 * k)
  {
    hide Le32;
  }

  lemma StringCount(b: seq<Byte>, v: View)
    requires IsRecord(b) && ViewAt(b, v)
    ensures |v.stringOffsets| == Le32(b, 20) + 1 && |v.stringBytes| == Le32(b, 24)
  {
  }

  lemma ResolveOptionalExactly(b: seq<Byte>, v: View, id: nat, s: Option<Str>, utf8: Str -> bool)
    requires IsRecord(b) && ViewAt(b, v)
    ensures ResolveOptional(v, id, utf8) == Ok(s) <==> NamesOptional(b, id, s, utf8)
  {
    hide ResolveString, Names, IsRecord, ViewAt;
    if s.Some? {
      ResolveExactly(b, v, id, s.value, utf8);
    }
  }

  // The words of row `i`, column by column.
  lemma RowWords(b: seq<Byte>, v: View, i: nat)
    requires IsRecord(b) && ViewAt(b, v) && i < Le32(b, 16)
    ensures var c := v.columns;
            && PerRow(c, Le32(b, 16))
            && c.counterId[i] == Le32(b, Le32(b, 44) + 4 * i) && c.scope[i] == Le32(b, Le32(b, 48) + 4 * i)
            && c.kind[i] == Le32(b, Le32(b, 52) + 4 * i) && c.siteKind[i] == Le32(b, Le32(b, 56) + 4 * i)
            && c.functionId[i] == Le64(b, Le32(b, 60) + 8 * i) && c.currentFunctionId[i] == Le64(b, Le32(b, 64) + 8 * i)
            && c.instrBlockLabel[i] == Le32(b, Le32(b, 68) + 4 * i) && c.instrIndex[i] == Le32(b, Le32(b, 72) + 4 * i)
            && c.functionQualname[i] == Le32(b, Le32(b, 76) + 4 * i) && c.blockLabel[i] == Le32(b, Le32(b, 80) + 4 * i)
            && c.value[i] == Le64(b, Le32(b, 84) + 8 * i)
  {
    hide Le32, Le64, OffsetsInOrder, HeaderAt;
  }

  // A row is read as the bytes say, and only so.
  lemma ReadRowExactly(b: seq<Byte>, v: View, i: nat, row: Row, utf8: Str -> bool)
    requires IsRecord(b) && ViewAt(b, v) && Sound(v) && i < Le32(b, 16)
    ensures ReadRow(v, i, utf8) == Ok(row) <==> RowAtBytes(b, i, row, utf8)
  {
    hide Le32, Le64, IsRecord, ViewAt, ResolveString, ResolveOptional, Names, NamesOptional;
    RowWords(b, v, i);
    var c := v.columns;
    ResolveExactly(b, v, c.scope[i], row.scope, utf8);
    ResolveExactly(b, v, c.kind[i], row.kind, utf8);
    ResolveExactly(b, v, c.siteKind[i], row.siteKind, utf8);
    ResolveOptionalExactly(b, v, c.functionQualname[i], row.functionQualname, utf8);
    ResolveOptionalExactly(b, v, c.blockLabel[i], row.blockLabel, utf8);
  }

  lemma ReadNamesExactly(b: seq<Byte>, v: View, name: Str, package: Option<Str>, utf8: Str -> bool)
    requires IsRecord(b) && ViewAt(b, v)
    ensures ModuleName(v, utf8) == Ok(name) <==> Names(b, Le32(b, 28), name, utf8)
    ensures PackageName(v, utf8) == Ok(package) <==> NamesOptional(b, Le32(b, 32), package, utf8)
  {
    hide Le32, ResolveString, ResolveOptional, Names, NamesOptional, ColumnsAt;
    ResolveExactly(b, v, v.header.moduleNameId, name, utf8);
    ResolveOptionalExactly(b, v, v.header.packageNameId, package, utf8);
  }

  // ---- Writing a record ----------------------------------------------------

  // The smallest multiple of `align` that is not below `from`.
  predicate Next(from: nat, align: nat, at: nat)
    requires align > 0
  {
    from <= at < from + align && at % align == 0
  }

  // Sections follow one another with no more room between them than their words' width asks for, to the end.
  predicate Packed(b: seq<Byte>)
    requires |b| >= 88
  {
    var n := Le32(b, 16);
    && Le32(b, 36) == 88 && Le32(b, 40) == Le32(b, 36) + 4 * (Le32(b, 20) + 1)
    && Next(Le32(b, 40) + Le32(b, 24), 4, Le32(b, 44))
    && Le32(b, 48) == Le32(b, 44) + 4 * n && Le32(b, 52) == Le32(b, 48) + 4 * n && Le32(b, 56) == Le32(b, 52) + 4 * n
    && Next(Le32(b, 56) + 4 * n, 8, Le32(b, 60))
    && Le32(b, 64) == Le32(b, 60) + 8 * n && Le32(b, 68) == Le32(b, 64) + 8 * n && Le32(b, 72) == Le32(b, 68) + 4 * n
    && Le32(b, 76) == Le32(b, 72) + 4 * n && Le32(b, 80) == Le32(b, 76) + 4 * n
    && Next(Le32(b, 80) + 4 * n, 8, Le32(b, 84))
    && Le32(b, 12) == Le32(b, 84) + 8 * n == |b|
  }

  lemma LayoutIsPacked(b: seq<Byte>, h: Header)
    requires |b| >= 88 && HeaderAt(b, h) && LaidOut(h) && h.recordLen == |b|
    ensures Packed(b)
  {
    hide Le32;
    LengthIsAligned(h);
  }

  // The id columns of a row: each id as it is, and words of all ones for an absent one.
  predicate IdsWritten(b: seq<Byte>, i: nat, row: Row)
    requires IsRecord(b) && i < Le32(b, 16)
  {
    && (row.functionId.Some? ==> Le64(b, Le32(b, 60) + 8 * i) == row.functionId.value)
    && (row.functionId.None? ==> Le64(b, Le32(b, 60) + 8 * i) == 0xFFFF_FFFF_FFFF_FFFF)
    && (row.currentFunctionId.Some? ==> Le64(b, Le32(b, 64) + 8 * i) == row.currentFunctionId.value)
    && (row.currentFunctionId.None? ==> Le64(b, Le32(b, 64) + 8 * i) == 0xFFFF_FFFF_FFFF_FFFF)
    && (row.instrId.Some? ==> Le32(b, Le32(b, 68) + 4 * i) == row.instrId.value.blockLabel)
    && (row.instrId.Some? ==> Le32(b, Le32(b, 72) + 4 * i) == row.instrId.value.indexInBlock)
    && (row.instrId.None? ==> Le32(b, Le32(b, 68) + 4 * i) == 0xFFFF_FFFF && Le32(b, Le32(b, 72) + 4 * i) == 0xFFFF_FFFF)
  }

  lemma IdsAreWritten(record: Record, b: seq<Byte>, i: nat)
    requires IsRecord(b) && ViewAt(b, ViewOf(record)) && i < Le32(b, 16) && i < |record.rows|
    ensures IdsWritten(b, i, record.rows[i])
  {
    hide Le32, Le64, IsRecord, ViewAt, TableOf;
    RowWords(b, ViewOf(record), i);
    RowEntry(record, i);
  }

  // The encoder's bytes are a record, and parsed as what it was made from.
  lemma WireView(record: Record)
    requires Fits(record)
    ensures |RecordBytes(record)| >= 88 && IsRecord(RecordBytes(record)) && ViewAt(RecordBytes(record), ViewOf(record))
    ensures Sound(ViewOf(record))
  {
    hide ViewAt, Le32, OffsetsInOrder, SectionsInRecord, Sound, ParseOne, SectionsAligned, RecordBytes, TableOf;
    var b := RecordBytes(record);
    ParseOneBack(record, [], 0);
    assert b + [] == b;
    ParseOneExactly(b, 0);
  }

  // ---- Padding -------------------------------------------------------------

  predicate ZeroBytes(b: seq<Byte>, from: nat, to: nat) {
    to <= |b| && forall i :: from <= i < to ==> b[i] == 0
  }

  // The room between sections holds zeros.
  predicate Padded(b: seq<Byte>)
    requires |b| >= 88
  {
    var n := Le32(b, 16);
    && ZeroBytes(b, Le32(b, 40) + Le32(b, 24), Le32(b, 44))
    && ZeroBytes(b, Le32(b, 56) + 4 * n, Le32(b, 60))
    && ZeroBytes(b, Le32(b, 80) + 4 * n, Le32(b, 84))
  }

  lemma ZeroSection(s: seq<seq<Byte>>, k: nat)
    requires k < |s| && s[k] == Zeros(|s[k]|)
    ensures ZeroBytes(Flatten(s), StartOf(s, k), StartOf(s, k + 1))
  {
    FlattenPart(s, k, []);
    hide Flatten, StartOf;
    var b, from, to := Flatten(s), StartOf(s, k), StartOf(s, k + 1);
    assert b + [] == b;
    forall i | from <= i < to
      ensures b[i] == 0
    {
      assert b[from..to][i - from] == b[i];
    }
  }

  lemma PaddingSection(record: Record, k: nat)
    requires k == 3 || k == 8 || k == 15
    ensures ZeroBytes(RecordBytes(record), OffsetOf(RecordHeader(record), k), OffsetOf(RecordHeader(record), k + 1))
  {
    hide RecordHeader, TableOf, ColumnsOf, EndOffsets, Words, HeaderBytes, Flatten, StartOf, ZeroBytes, OffsetOf, Written, PerRow, LaidOut;
    var h, table, columns := RecordHeader(record), TableOf(record), ColumnsOf(TableOf(record), record.rows);
    RecordWritten(record);
    HeaderCounts(record);
    PaddingIsZero(h, table, columns);
    ZeroSection(Sections(record), k);
  }

  lemma SectionsPadded(record: Record)
    ensures var b, h := RecordBytes(record), RecordHeader(record);
            && ZeroBytes(b, h.stringBytesOffset + h.stringBytesLen, h.counterIdOffset)
            && ZeroBytes(b, h.siteKindOffset + h.rowCount * 4, h.functionIdOffset)
            && ZeroBytes(b, h.blockLabelOffset + h.rowCount * 4, h.valueOffset)
  {
    hide RecordHeader, RecordBytes, ZeroBytes;
    PaddingSection(record, 3);
    PaddingSection(record, 8);
    PaddingSection(record, 15);
  }

  lemma PaddedOnWire(record: Record)
    requires Fits(record)
    ensures |RecordBytes(record)| >= 88 && Padded(RecordBytes(record))
  {
    hide RecordHeader, RecordBytes, Fits, IsRecord, ColumnsAt, Column4At, ZeroBytes, Sound, Le32, EndOffsets, Flatten, TableOf;
    WireView(record);
    SectionsPadded(record);
  }

  // ---- The whole record ----------------------------------------------------

  // The encoder's bytes: a packed record, zeros between its sections, with one row per row, saying of each row, of the
  // module and of its package what the record says, up to the words that stand for nothing; the first string is the
  // module's name.
  lemma EncodedOnWire(record: Record, utf8: Str -> bool)
    requires Fits(record) && Utf8Record(record, utf8)
    ensures var b := RecordBytes(record);
            && IsRecord(b) && Packed(b) && Padded(b)
            && Le32(b, 16) == |record.rows| && Le32(b, 28) == 0
            && Names(b, Le32(b, 28), record.moduleName, utf8)
            && NamesOptional(b, Le32(b, 32), if record.packageName == Some([]) then None else record.packageName, utf8)
            && forall i :: 0 <= i < |record.rows| ==>
                 RowAtBytes(b, i, CanonRow(record.rows[i]), utf8) && IdsWritten(b, i, record.rows[i])
  {
    hide Le32, Le64, IsRecord, ViewAt, Names, NamesOptional, RowAtBytes, IdsWritten, Packed, Padded, Sound, CanonRow, ReadRow, ParseOne,
      ModuleName, PackageName, SectionsAligned, RecordBytes, TableOf;
    var b, v := RecordBytes(record), ViewOf(record);
    WireView(record);
    WireHeader(record, b);
    PaddedOnWire(record);
    ViewShows(record, utf8);
    ReadNamesExactly(b, v, record.moduleName, PackageOf(record), utf8);
    forall i | 0 <= i < |record.rows|
      ensures RowAtBytes(b, i, CanonRow(record.rows[i]), utf8) && IdsWritten(b, i, record.rows[i])
    {
      IdsAreWritten(record, b, i);
      ReadRowExactly(b, v, i, CanonRow(record.rows[i]), utf8);
      assert CanonRecord(record).rows[i] == CanonRow(record.rows[i]);
    }
  }

  lemma WireHeader(record: Record, b: seq<Byte>)
    requires Fits(record) && b == RecordBytes(record) && |b| >= 88 && ViewAt(b, ViewOf(record))
    ensures Packed(b) && Le32(b, 16) == |record.rows| && Le32(b, 28) == 0
  {
    hide Le32, Packed, ColumnsAt, LaidOut, RecordBytes, TableOf, Column4At;
    var h := RecordHeader(record);
    RecordHead(record);
    LayoutIsPacked(b, h);
    FirstString(record);
  }

  // The module's name is interned first.
  lemma FirstString(record: Record)
    ensures RecordHeader(record).moduleNameId == 0 && RecordHeader(record).rowCount == |record.rows|
  {
    var all := StringsOf(record);
    var more := TableGrows(all, 1, |all|);
    assert TableUpTo(all, 1) == [record.moduleName];
    assert TableOf(record)[0] == record.moduleName;
  }
}
