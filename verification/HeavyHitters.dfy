/** The fixed-capacity heavy-hitter counter: the space-saving algorithm
    (`soac-eval/src/counter.rs`). */
module HeavyHitters {
  import opened Prelude

  // Counts are u64 in the program: CountsFit bounds them by the length of the stream.
  datatype Slot<T> = Slot(value: T, approxCount: nat, maxOvercount: nat)

  type Table<T> = seq<Option<Slot<T>>>

  function LowerBound<T>(slot: Slot<T>): nat {
    if slot.approxCount >= slot.maxOvercount then slot.approxCount - slot.maxOvercount else 0
  }

  predicate Holds<T(==)>(slot: Option<Slot<T>>, value: T) {
    slot.Some? && slot.value.value == value
  }

  predicate Tracked<T(==)>(table: Table<T>, value: T) {
    exists i :: 0 <= i < |table| && Holds(table[i], value)
  }

  predicate Full<T>(table: Table<T>) {
    forall i :: 0 <= i < |table| ==> table[i].Some?
  }

  // ---- One record ----------------------------------------------------------

  // The first slot holding a value, or |table|.
  function IndexOf<T(==)>(table: Table<T>, value: T): (i: nat)
    ensures i <= |table|
    ensures i < |table| ==> Holds(table[i], value)
    ensures forall k :: 0 <= k < i ==> !Holds(table[k], value)
  {
    if table == [] || Holds(table[0], value) then 0
    else
      var i := 1 + IndexOf(table[1..], value);
      assert forall k :: 0 < k < i ==> table[k] == table[1..][k - 1];
      i
  }

  // The first empty slot, or |table|.
  function FirstEmpty<T>(table: Table<T>): (i: nat)
    ensures i <= |table|
    ensures i < |table| ==> table[i].None?
    ensures forall k :: 0 <= k < i ==> table[k].Some?
  {
    if table == [] || table[0].None? then 0
    else
      var i := 1 + FirstEmpty(table[1..]);
      assert forall k :: 0 < k < i ==> table[k] == table[1..][k - 1];
      i
  }

  // The first slot with the smallest count.
  function MinIndex<T>(table: Table<T>): (i: nat)
    requires table != [] && Full(table)
    ensures i < |table|
    ensures forall k :: 0 <= k < |table| ==> table[i].value.approxCount <= table[k].value.approxCount
    ensures forall k :: 0 <= k < i ==> table[i].value.approxCount < table[k].value.approxCount
  {
    if |table| == 1 then 0
    else
      assert Full(table[..|table| - 1]);
      var i := MinIndex(table[..|table| - 1]);
      assert forall k :: 0 <= k < |table| - 1 ==> table[k] == table[..|table| - 1][k];
      if table[|table| - 1].value.approxCount < table[i].value.approxCount then |table| - 1 else i
  }

  function MinCount<T>(table: Table<T>): nat
    requires table != [] && Full(table)
  {
    table[MinIndex(table)].value.approxCount
  }

  // The table after one more value: count it, or fill an empty slot, or displace the smallest count.
  function Recorded<T(==)>(table: Table<T>, value: T): (r: Table<T>)
    ensures |r| == |table|
  {
    var i := IndexOf(table, value);
    if i < |table| then table[i := Some(table[i].value.(approxCount := table[i].value.approxCount + 1))]
    else
      var e := FirstEmpty(table);
      if e < |table| then table[e := Some(Slot(value, 1, 0))]
      else if table == [] then table
      else
        var m := MinIndex(table);
        table[m := Some(Slot(value, MinCount(table) + 1, MinCount(table)))]
  }

  function Empty<T>(capacity: nat): Table<T> {
    seq(capacity, _ => None)
  }

  // The table after a stream of values.
  function Run<T(==)>(capacity: nat, stream: seq<T>): (r: Table<T>)
    ensures |r| == capacity
  {
    if stream == [] then Empty(capacity)
    else Recorded(Run(capacity, stream[..|stream| - 1]), stream[|stream| - 1])
  }

  lemma RunNext<T>(capacity: nat, stream: seq<T>, value: T)
    ensures Run(capacity, stream + [value]) == Recorded(Run(capacity, stream), value)
  {
    assert (stream + [value])[..|stream|] == stream;
  }

  // How often a value really occurred.
  ghost function TrueCount<T>(stream: seq<T>, value: T): nat {
    multiset(stream)[value]
  }

  class Counter<T(==)> {
    var slots: array<Option<Slot<T>>>
    ghost var stream: seq<T>

    ghost predicate Valid()
      reads this, slots
    {
      slots[..] == Run(slots.Length, stream)
    }

    constructor (capacity: nat)
      ensures Valid() && fresh(slots) && slots.Length == capacity && stream == []
    {
      slots := new Option<Slot<T>>[capacity](_ => None);
      stream := [];
    }

    method Find(value: T) returns (i: nat)
      ensures i == IndexOf(slots[..], value)
    {
      i := 0;
      while i < slots.Length && !Holds(slots[i], value)
        invariant i <= slots.Length
        invariant forall k :: 0 <= k < i ==> !Holds(slots[k], value)
      {
        i := i + 1;
      }
    }

    method FindEmpty() returns (i: nat)
      ensures i == FirstEmpty(slots[..])
    {
      i := 0;
      while i < slots.Length && slots[i].Some?
        invariant i <= slots.Length
        invariant forall k :: 0 <= k < i ==> slots[k].Some?
      {
        i := i + 1;
      }
    }

    // Among equal counts the first slot wins.
    method MinSlotIndex() returns (m: nat)
      requires slots.Length > 0 && Full(slots[..])
      ensures m == MinIndex(slots[..])
    {
      m := 0;
      assert forall k :: 0 <= k < slots.Length ==> slots[..][k].Some?;
      for i := 1 to slots.Length
        invariant 0 <= m < i
        invariant forall k :: 0 <= k < i ==> slots[m].value.approxCount <= slots[k].value.approxCount
        invariant forall k :: 0 <= k < m ==> slots[m].value.approxCount < slots[k].value.approxCount
      {
        if slots[i].value.approxCount < slots[m].value.approxCount {
          m := i;
        }
      }
    }

    method Record(value: T)
      requires Valid()
      modifies this, slots
      ensures Valid() && slots == old(slots)
      ensures slots[..] == Recorded(old(slots[..]), value) && stream == old(stream) + [value]
    {
      hide Run, IndexOf, FirstEmpty, MinIndex;
      ghost var was := slots[..];
      RunNext(slots.Length, stream, value);
      stream := stream + [value];
      var i := Find(value);
      if i < slots.Length {
        slots[i] := Some(slots[i].value.(approxCount := slots[i].value.approxCount + 1));
        assert slots[..] == Recorded(was, value);
        return;
      }
      var e := FindEmpty();
      if e < slots.Length {
        slots[e] := Some(Slot(value, 1, 0));
        assert slots[..] == Recorded(was, value);
        return;
      }
      if slots.Length == 0 {
        return;
      }
      var m := MinSlotIndex();
      var displaced := slots[m].value.approxCount;
      slots[m] := Some(Slot(value, displaced + 1, displaced));
      assert slots[..] == Recorded(was, value);
    }

    method ApproxCount(value: T) returns (r: Option<nat>)
      requires Valid()
      ensures r.Some? <==> Tracked(slots[..], value)
      ensures forall k :: 0 <= k < slots.Length && Holds(slots[k], value) ==> r == Some(slots[k].value.approxCount)
      ensures r.Some? ==> TrueCount(stream, value) <= r.value <= |stream|
    {
      var i := Find(value);
      if i < slots.Length {
        CountsBoundTruth(slots.Length, stream, i);
        CountsFit(slots.Length, stream, i);
        return Some(slots[i].value.approxCount);
      }
      return None;
    }
  }

  // ---- The counts sum to the length of the stream --------------------------

  function Weight<T>(slot: Option<Slot<T>>): nat {
    if slot.Some? then slot.value.approxCount else 0
  }

  function Total<T>(table: Table<T>): nat {
    if table == [] then 0 else Weight(table[0]) + Total(table[1..])
  }

  lemma {:induction false} TotalUpdate<T>(table: Table<T>, i: nat, slot: Option<Slot<T>>)
    requires i < |table|
    ensures Total(table[i := slot]) == Total(table) - Weight(table[i]) + Weight(slot)
  {
    if i == 0 {
      assert table[i := slot][1..] == table[1..];
    } else {
      assert table[i := slot][1..] == table[1..][i - 1 := slot];
      TotalUpdate(table[1..], i - 1, slot);
    }
  }

  lemma {:induction false} TotalEmpty<T>(capacity: nat)
    ensures Total<T>(Empty(capacity)) == 0
  {
    if capacity > 0 {
      assert Empty<T>(capacity)[1..] == Empty(capacity - 1);
      TotalEmpty<T>(capacity - 1);
    }
  }

  // Every value is counted once, whatever is displaced.
  lemma {:induction false} CountsSumToStream<T>(capacity: nat, stream: seq<T>)
    requires capacity > 0
    ensures Total(Run(capacity, stream)) == |stream|
    decreases |stream|
  {
    if stream == [] {
      TotalEmpty<T>(capacity);
    } else {
      var init, v := stream[..|stream| - 1], stream[|stream| - 1];
      var table := Run(capacity, init);
      CountsSumToStream(capacity, init);
      var i, e := IndexOf(table, v), FirstEmpty(table);
      if i < |table| {
        TotalUpdate(table, i, Some(table[i].value.(approxCount := table[i].value.approxCount + 1)));
      } else if e < |table| {
        TotalUpdate(table, e, Some(Slot(v, 1, 0)));
      } else {
        TotalUpdate(table, MinIndex(table), Some(Slot(v, MinCount(table) + 1, MinCount(table))));
      }
    }
  }

  lemma {:induction false} TotalAtLeast<T>(table: Table<T>, i: nat)
    requires i < |table|
    ensures Weight(table[i]) <= Total(table)
  {
    if i > 0 {
      TotalAtLeast(table[1..], i - 1);
    }
  }

  // No count exceeds the length of the stream, so 64 bits are enough for a stream shorter than 2^64.
  lemma CountsFit<T>(capacity: nat, stream: seq<T>, i: nat)
    requires i < capacity && Run(capacity, stream)[i].Some?
    ensures Run(capacity, stream)[i].value.approxCount <= |stream|
  {
  }

  // ---- The invariant -------------------------------------------------------

  ghost predicate Bounded<T>(slot: Option<Slot<T>>, stream: seq<T>) {
    slot.Some? ==>
      && slot.value.maxOvercount <= slot.value.approxCount
      && LowerBound(slot.value) <= TrueCount(stream, slot.value.value) <= slot.value.approxCount
  }

  ghost predicate Sound<T>(table: Table<T>, stream: seq<T>) {
    && (forall i, j :: 0 <= i < j < |table| && table[i].Some? && table[j].Some? ==> table[i].value.value != table[j].value.value)
    && (forall i :: 0 <= i < |table| ==> Bounded(table[i], stream))
    && (forall v :: v in stream && !Tracked(table, v) ==>
          table != [] && Full(table) && TrueCount(stream, v) <= MinCount(table))
  }

  lemma CountNext<T>(stream: seq<T>, v: T, w: T)
    ensures TrueCount(stream + [v], w) == TrueCount(stream, w) + if w == v then 1 else 0
  {
  }

  lemma Absent<T>(stream: seq<T>, v: T)
    ensures v !in stream ==> TrueCount(stream, v) == 0
  {
  }

  lemma {:induction false} RunIsSound<T>(capacity: nat, stream: seq<T>)
    requires capacity > 0
    ensures Sound(Run(capacity, stream), stream)
    decreases |stream|
  {
    if stream != [] {
      var init, v := stream[..|stream| - 1], stream[|stream| - 1];
      assert stream == init + [v];
      RunIsSound(capacity, init);
      RecordedIsSound(Run(capacity, init), init, v);
    }
  }

  lemma RecordedIsSound<T>(table: Table<T>, stream: seq<T>, v: T)
    requires table != [] && Sound(table, stream)
    ensures Sound(Recorded(table, v), stream + [v])
  {
    forall w
      ensures TrueCount(stream + [v], w) == TrueCount(stream, w) + if w == v then 1 else 0
    {
      CountNext(stream, v, w);
    }
    var i, e := IndexOf(table, v), FirstEmpty(table);
    if i < |table| {
      CountTracked(table, stream, v, i);
    } else if e < |table| {
      FillEmpty(table, stream, v, e);
    } else {
      Displace(table, stream, v);
    }
  }

  lemma CountTracked<T>(table: Table<T>, stream: seq<T>, v: T, i: nat)
    requires table != [] && Sound(table, stream) && i == IndexOf(table, v) < |table|
    ensures Sound(Recorded(table, v), stream + [v])
  {
    hide IndexOf, FirstEmpty, MinIndex, TrueCount;
    var r := Recorded(table, v);
    forall k | 0 <= k < |r|
      ensures Bounded(r[k], stream + [v])
    {
      if r[k].Some? {
        CountNext(stream, v, r[k].value.value);
        assert Bounded(table[k], stream);
      }
    }
    forall w | w in stream + [v] && !Tracked(r, w)
      ensures Full(r) && TrueCount(stream + [v], w) <= MinCount(r)
    {
      SameTracked(table, r, w);
      assert Holds(r[i], v);
      CountNext(stream, v, w);
      assert table[MinIndex(r)].value.approxCount <= r[MinIndex(r)].value.approxCount;
    }
  }

  // Tables whose slots hold the same values track the same values.
  lemma SameTracked<T>(a: Table<T>, b: Table<T>, w: T)
    requires |a| == |b| && forall k :: 0 <= k < |a| ==> (a[k].Some? <==> b[k].Some?) && (a[k].Some? ==> a[k].value.value == b[k].value.value)
    ensures Tracked(a, w) <==> Tracked(b, w)
  {
  }

  lemma FillEmpty<T>(table: Table<T>, stream: seq<T>, v: T, e: nat)
    requires Sound(table, stream) && !Tracked(table, v) && e == FirstEmpty(table) < |table|
    ensures Sound(Recorded(table, v), stream + [v])
  {
    var r := Recorded(table, v);
    assert v !in stream;
    assert TrueCount(stream, v) == 0;
    forall k | 0 <= k < |r|
      ensures Bounded(r[k], stream + [v])
    {
      if r[k].Some? {
        CountNext(stream, v, r[k].value.value);
        assert Bounded(table[k], stream);
      }
    }
    forall w | w in stream + [v]
      ensures Tracked(r, w)
    {
      if w == v {
        assert Holds(r[e], v);
      } else {
        assert Tracked(table, w);
        var k :| 0 <= k < |table| && Holds(table[k], w);
        assert Holds(r[k], w);
      }
    }
  }

  lemma StillTracked<T>(table: Table<T>, m: nat, slot: Option<Slot<T>>, w: T, k: nat)
    requires k < |table| && m < |table| && k != m && Holds(table[k], w)
    ensures Tracked(table[m := slot], w)
  {
    assert Holds(table[m := slot][k], w);
  }

  lemma Displace<T>(table: Table<T>, stream: seq<T>, v: T)
    requires table != [] && Sound(table, stream) && !Tracked(table, v) && Full(table)
    ensures Sound(Recorded(table, v), stream + [v])
  {
    hide IndexOf, FirstEmpty, MinIndex, TrueCount;
    Absent(stream, v);
    var r, m, c := Recorded(table, v), MinIndex(table), MinCount(table);
    assert TrueCount(stream, v) <= c;
    forall k | 0 <= k < |r|
      ensures Bounded(r[k], stream + [v])
    {
      CountNext(stream, v, r[k].value.value);
      assert Bounded(table[k], stream);
      if k != m {
        assert !Holds(table[k], v);
      }
    }
    assert c <= MinCount(r);
    forall w | w in stream + [v] && !Tracked(r, w)
      ensures TrueCount(stream + [v], w) <= MinCount(r)
    {
      assert Holds(r[m], v);
      CountNext(stream, v, w);
      if Tracked(table, w) {
        var k :| 0 <= k < |table| && Holds(table[k], w);
        assert Bounded(table[k], stream);
        if k != m {
          StillTracked(table, m, r[m], w, k);
        }
      }
    }
  }

  // ---- What the counter promises -------------------------------------------

  // Tracked values are distinct, and each count is off by at most the recorded overcount.
  lemma CountsBoundTruth<T>(capacity: nat, stream: seq<T>, i: nat)
    requires i < capacity && Run(capacity, stream)[i].Some?
    ensures var slot := Run(capacity, stream)[i].value;
            && slot.approxCount - slot.maxOvercount == LowerBound(slot)
            && LowerBound(slot) <= TrueCount(stream, slot.value) <= slot.approxCount
    ensures forall j :: 0 <= j < capacity && j != i && Run(capacity, stream)[j].Some? ==>
              Run(capacity, stream)[j].value.value != Run(capacity, stream)[i].value.value
  {
    RunIsSound(capacity, stream);
    assert Bounded(Run(capacity, stream)[i], stream);
  }

  // An untracked value has occurred at most the minimum count, and not at all while a slot is empty.
  lemma UntrackedIsRare<T>(capacity: nat, stream: seq<T>, v: T)
    requires capacity > 0 && !Tracked(Run(capacity, stream), v)
    ensures if Full(Run(capacity, stream)) then TrueCount(stream, v) <= MinCount(Run(capacity, stream))
            else TrueCount(stream, v) == 0
  {
    RunIsSound(capacity, stream);
    if v !in stream {
      assert v !in multiset(stream);
    }
  }

  lemma {:induction false} TotalAtLeastMin<T>(table: Table<T>, c: nat)
    requires forall i :: 0 <= i < |table| ==> table[i].Some? && c <= table[i].value.approxCount
    ensures |table| * c <= Total(table)
  {
    if table != [] {
      TotalAtLeastMin(table[1..], c);
      assert |table| * c == c + (|table| - 1) * c;
    }
  }

  // The minimum count of a full table is at most the stream length over the capacity.
  lemma MinCountIsSmall<T>(capacity: nat, stream: seq<T>)
    requires capacity > 0 && Full(Run(capacity, stream))
    ensures capacity * MinCount(Run(capacity, stream)) <= |stream|
  {
    CountsSumToStream(capacity, stream);
    TotalAtLeastMin(Run(capacity, stream), MinCount(Run(capacity, stream)));
  }

  lemma Scale(c: nat, a: nat, b: nat)
    requires a <= b
    ensures c * a <= c * b
  {
  }

  // What a slot's overcount can be after one more value: unchanged, nothing, or the count it displaced.
  lemma OvercountOrigin<T>(table: Table<T>, v: T, i: nat)
    requires i < |table| && Recorded(table, v)[i].Some?
    ensures var over := Recorded(table, v)[i].value.maxOvercount;
            || over == 0
            || (table[i].Some? && over == table[i].value.maxOvercount)
            || (Full(table) && over == MinCount(table))
  {
  }

  // No overcount exceeds the stream length over the capacity.
  lemma {:induction false} OvercountIsSmall<T>(capacity: nat, stream: seq<T>, i: nat)
    requires i < capacity && Run(capacity, stream)[i].Some?
    ensures capacity * Run(capacity, stream)[i].value.maxOvercount <= |stream|
    decreases |stream|
  {
    if stream != [] {
      var init, v := stream[..|stream| - 1], stream[|stream| - 1];
      var table := Run(capacity, init);
      OvercountOrigin(table, v, i);
      hide Recorded, MinCount, Full;
      var over := Run(capacity, stream)[i].value.maxOvercount;
      if table[i].Some? && over == table[i].value.maxOvercount {
        OvercountIsSmall(capacity, init, i);
      } else if over != 0 {
        MinCountIsSmall(capacity, init);
      }
    }
  }

  // Every value that makes up more than one part in `capacity` of the stream is tracked.
  lemma HeavyHittersAreTracked<T>(capacity: nat, stream: seq<T>, v: T)
    requires capacity > 0 && capacity * TrueCount(stream, v) > |stream|
    ensures Tracked(Run(capacity, stream), v)
  {
    if !Tracked(Run(capacity, stream), v) {
      UntrackedIsRare(capacity, stream, v);
      if Full(Run(capacity, stream)) {
        MinCountIsSmall(capacity, stream);
        Scale(capacity, TrueCount(stream, v), MinCount(Run(capacity, stream)));
      }
    }
  }

  // Once full, a table stays full and its minimum count never decreases.
  lemma MinCountGrows<T>(table: Table<T>, v: T)
    requires table != [] && Full(table)
    ensures Full(Recorded(table, v)) && MinCount(table) <= MinCount(Recorded(table, v))
  {
  }

  // Over a whole run: whatever more is recorded, the minimum count of a full table never goes down.
  lemma {:induction false} MinCountNeverDecreases<T>(capacity: nat, stream: seq<T>, more: seq<T>)
    requires capacity > 0 && Full(Run(capacity, stream))
    ensures Full(Run(capacity, stream + more))
    ensures MinCount(Run(capacity, stream)) <= MinCount(Run(capacity, stream + more))
    decreases |more|
  {
    if more == [] {
      assert stream + more == stream;
    } else {
      var init, v := more[..|more| - 1], more[|more| - 1];
      MinCountNeverDecreases(capacity, stream, init);
      assert (stream + more)[..|stream + more| - 1] == stream + init;
      MinCountGrows(Run(capacity, stream + init), v);
    }
  }
}
