/** Little-endian integers and concatenated sections. */
module Bytes {

  type Byte = x: nat | x < 0x100

  type U16 = x: nat | x < 0x1_0000

  type U32 = x: nat | x < 0x1_0000_0000

  type U64 = x: nat | x < 0x1_0000_0000_0000_0000

  const MAX_U32: U32 := 0xFFFF_FFFF

  const MAX_U64: U64 := 0xFFFF_FFFF_FFFF_FFFF

  function Limit(n: nat): (r: nat)
    ensures r > 0
  {
    if n == 0 then 1 else 0x100 * Limit(n - 1)
  }

  lemma LimitOfWords()
    ensures Limit(2) == 0x1_0000 && Limit(4) == 0x1_0000_0000 && Limit(8) == 0x1_0000_0000_0000_0000
  {
  }

  // The `n` low bytes of a number, least significant first.
  function ToBytes(v: nat, n: nat): (r: seq<Byte>)
    ensures |r| == n
    decreases n
  {
    if n == 0 then [] else [v % 0x100] + ToBytes(v / 0x100, n - 1)
  }

  function FromBytes(s: seq<Byte>): nat {
    if s == [] then 0 else s[0] + 0x100 * FromBytes(s[1..])
  }

  lemma {:induction false} FromToBytes(v: nat, n: nat)
    requires v < Limit(n)
    ensures FromBytes(ToBytes(v, n)) == v
    decreases n
  {
    if n > 0 {
      FromToBytes(v / 0x100, n - 1);
      assert ToBytes(v, n)[1..] == ToBytes(v / 0x100, n - 1);
    }
  }

  lemma {:induction false} FromBytesLimit(s: seq<Byte>)
    ensures FromBytes(s) < Limit(|s|)
  {
    if s != [] {
      FromBytesLimit(s[1..]);
    }
  }

  // ---- Concatenated sections -----------------------------------------------

  function Flatten(parts: seq<seq<Byte>>): seq<Byte> {
    if parts == [] then [] else Flatten(parts[..|parts| - 1]) + parts[|parts| - 1]
  }

  // Where part `k` starts.
  function StartOf(parts: seq<seq<Byte>>, k: nat): nat
    requires k <= |parts|
  {
    |Flatten(parts[..k])|
  }

  lemma StartNext(parts: seq<seq<Byte>>, k: nat)
    requires k < |parts|
    ensures StartOf(parts, k + 1) == StartOf(parts, k) + |parts[k]|
  {
    assert parts[..k + 1][..k] == parts[..k];
  }

  lemma {:induction false} StartMonotone(parts: seq<seq<Byte>>, j: nat, k: nat)
    requires j <= k <= |parts|
    ensures StartOf(parts, j) <= StartOf(parts, k)
    decreases k - j
  {
    if j < k {
      StartNext(parts, j);
      StartMonotone(parts, j + 1, k);
    }
  }

  // Each part can be cut back out, whatever follows the whole.
  lemma {:induction false} FlattenPart(parts: seq<seq<Byte>>, k: nat, rest: seq<Byte>)
    requires k < |parts|
    ensures StartOf(parts, k) <= StartOf(parts, k + 1) <= |Flatten(parts)|
    ensures (Flatten(parts) + rest)[StartOf(parts, k)..StartOf(parts, k + 1)] == parts[k]
    decreases |parts|
  {
    var init, last := parts[..|parts| - 1], parts[|parts| - 1];
    assert Flatten(parts) == Flatten(init) + last;
    StartNext(parts, k);
    if k == |parts| - 1 {
      assert parts[..k] == init;
      assert Flatten(parts) + rest == Flatten(init) + (last + rest);
    } else {
      FlattenPart(init, k, last + rest);
      assert init[..k] == parts[..k] && init[..k + 1] == parts[..k + 1];
      assert Flatten(parts) + rest == Flatten(init) + (last + rest);
    }
  }

  // ---- Columns -------------------------------------------------------------

  function Words(values: seq<nat>, width: nat): (r: seq<Byte>)
    ensures |r| == width * |values|
  {
    if values == [] then []
    else
      assert width * |values| == width * (|values| - 1) + width;
      Words(values[..|values| - 1], width) + ToBytes(values[|values| - 1], width)
  }

  function ReadWords(s: seq<Byte>, width: nat, count: nat): (r: seq<nat>)
    requires |s| == width * count
    ensures |r| == count
    decreases count
  {
    if count == 0 then []
    else
      assert width * count == width * (count - 1) + width;
      ReadWords(s[..width * (count - 1)], width, count - 1) + [FromBytes(s[width * (count - 1)..])]
  }

  lemma {:induction false} ReadWordsBack(values: seq<nat>, width: nat)
    requires forall i :: 0 <= i < |values| ==> values[i] < Limit(width)
    ensures ReadWords(Words(values, width), width, |values|) == values
    decreases |values|
  {
    if values != [] {
      var init, last := values[..|values| - 1], values[|values| - 1];
      ReadWordsBack(init, width);
      FromToBytes(last, width);
      var s := Words(values, width);
      assert width * |values| == width * (|values| - 1) + width;
      assert s[..width * (|values| - 1)] == Words(init, width);
      assert s[width * (|values| - 1)..] == ToBytes(last, width);
    }
  }

  lemma {:induction false} ReadWordsLimit(s: seq<Byte>, width: nat, count: nat)
    requires |s| == width * count
    ensures forall i :: 0 <= i < count ==> ReadWords(s, width, count)[i] < Limit(width)
    decreases count
  {
    if count > 0 {
      assert width * count == width * (count - 1) + width;
      ReadWordsLimit(s[..width * (count - 1)], width, count - 1);
      FromBytesLimit(s[width * (count - 1)..]);
    }
  }

  function Zeros(n: nat): seq<Byte> {
    seq(n, _ => 0)
  }

  function AlignUp(offset: nat, align: nat): (r: nat)
    requires align > 0
    ensures offset <= r < offset + align && r % align == 0
  {
    if offset % align == 0 then offset
    else
      AlignUpIsAligned(offset, align);
      offset + (align - offset % align)
  }

  lemma AlignUpIsAligned(offset: nat, align: nat)
    requires align > 0 && offset % align != 0
    ensures (offset + (align - offset % align)) % align == 0
  {
    var q := offset / align;
    assert offset == align * q + offset % align;
    assert offset + (align - offset % align) == align * (q + 1);
    MultipleIsAligned(q + 1, align);
  }

  lemma MultipleIsAligned(q: nat, align: nat)
    requires align > 0
    ensures (align * q) % align == 0
  {
    var x := align * q;
    var d := q - x / align;
    assert x == align * (x / align) + x % align;
    assert align * d == x % align;
    if d >= 1 {
      Grow(align, d);
    } else if d <= -1 {
      Grow(align, -d);
    }
  }

  lemma Grow(a: nat, d: nat)
    requires d >= 1
    ensures a * d >= a
  {
  }
}
