/** Reference counts with immortal objects, on 64-bit hosts (`soac-runtime/src/lib.rs`). */
module RefCount {

  const LIMIT: nat := 0x1_0000_0000
  // From here on the field read as a signed word is negative, and decrements are skipped.
  const IMMORTAL: nat := 0x8000_0000
  // From here on increments are skipped too.
  const IMMORTAL_INITIAL: nat := 0xC000_0000

  type Field = n: nat | n < LIMIT

  predicate CanSkipIncref(field: Field) {
    field >= IMMORTAL_INITIAL
  }

  predicate CanSkipDecref(field: Field) {
    AsSigned(field) < 0
  }

  function AsSigned(field: Field): int {
    if field < IMMORTAL then field else field - LIMIT
  }

  function WrappingAdd(a: Field, b: nat): Field {
    (a + b) % LIMIT
  }

  function WrappingSub(a: Field, b: nat): Field {
    (a - b) % LIMIT
  }

  datatype Op = Incref | Decref

  // The field, and how often the object was deallocated.
  datatype State = State(field: Field, deallocs: nat)

  function Step(st: State, op: Op): State {
    match op
    case Incref => if CanSkipIncref(st.field) then st else st.(field := WrappingAdd(st.field, 1))
    case Decref =>
      if CanSkipDecref(st.field) then st
      else
        var next := WrappingSub(st.field, 1);
        State(next, if next == 0 then st.deallocs + 1 else st.deallocs)
  }

  function Run(st: State, ops: seq<Op>): State {
    if ops == [] then st else Step(Run(st, ops[..|ops| - 1]), ops[|ops| - 1])
  }

  class PyObject {
    var refcnt: Field
    // Calls of the deallocator.
    var deallocs: nat

    constructor (refcnt: Field)
      ensures View() == State(refcnt, 0)
    {
      this.refcnt, deallocs := refcnt, 0;
    }

    function View(): State
      reads this
    {
      State(refcnt, deallocs)
    }

    static method IncRef(obj: PyObject?)
      modifies obj
      ensures obj != null ==> obj.View() == Step(old(obj.View()), Incref)
    {
      if obj == null || CanSkipIncref(obj.refcnt) {
        return;
      }
      var cur := obj.refcnt;
      obj.refcnt := WrappingAdd(cur, 1);
    }

    static method DecRef(obj: PyObject?)
      modifies obj
      ensures obj != null ==> obj.View() == Step(old(obj.View()), Decref)
    {
      if obj == null || CanSkipDecref(obj.refcnt) {
        return;
      }
      var next := WrappingSub(obj.refcnt, 1);
      obj.refcnt := next;
      if next == 0 {
        obj.deallocs := obj.deallocs + 1;
      }
    }
  }

  // ---- The true count ------------------------------------------------------

  // How many references there really are.
  function Count(start: int, ops: seq<Op>): int {
    if ops == [] then start
    else Count(start, ops[..|ops| - 1]) + (if ops[|ops| - 1] == Incref then 1 else -1)
  }

  // The count reached the immortal half at some point.
  predicate Crossed(start: int, ops: seq<Op>) {
    Count(start, ops) >= IMMORTAL || (ops != [] && Crossed(start, ops[..|ops| - 1]))
  }

  // No reference is dropped that is not there, unless the object was immortal by then.
  predicate Allowed(start: int, ops: seq<Op>) {
    && (Count(start, ops) >= 0 || Crossed(start, ops))
    && (ops == [] || Allowed(start, ops[..|ops| - 1]))
  }

  // How often the true count fell to zero on an object that had not crossed.
  function Deaths(start: int, ops: seq<Op>): nat {
    if ops == [] then 0
    else
      Deaths(start, ops[..|ops| - 1])
        + (if ops[|ops| - 1] == Decref && Count(start, ops) == 0 && !Crossed(start, ops) then 1 else 0)
  }

  // Until the count crosses, the field is the count; from then on it stays in the immortal half. The
  // object was deallocated once for each time the count of an object that never crossed fell to zero.
  predicate Tracks(start: int, ops: seq<Op>, st: State) {
    && (!Crossed(start, ops) ==> st.field == Count(start, ops))
    && (Crossed(start, ops) ==> st.field >= IMMORTAL)
    && st.deallocs == Deaths(start, ops)
  }

  // The same at every point of the run.
  predicate AlwaysTracks(start: Field, ops: seq<Op>) {
    Tracks(start, ops, Run(State(start, 0), ops)) && (ops == [] || AlwaysTracks(start, ops[..|ops| - 1]))
  }

  // One more operation: what it does to the count, and to whether the object is immortal.
  lemma CountNext(start: int, ops: seq<Op>, op: Op)
    ensures Count(start, ops + [op]) == Count(start, ops) + (if op == Incref then 1 else -1)
    ensures Crossed(start, ops + [op]) <==> Crossed(start, ops) || Count(start, ops + [op]) >= IMMORTAL
    ensures Deaths(start, ops + [op]) == Deaths(start, ops)
              + (if op == Decref && Count(start, ops + [op]) == 0 && !Crossed(start, ops + [op]) then 1 else 0)
  {
    assert (ops + [op])[..|ops|] == ops;
  }

  lemma RunNext(st: State, ops: seq<Op>, op: Op)
    ensures Run(st, ops + [op]) == Step(Run(st, ops), op)
  {
    assert (ops + [op])[..|ops|] == ops;
  }

  // The step itself, without the wrapping: increments are skipped from 3 << 30 on, where None and its like start,
  // decrements from 1 << 31 on; otherwise the field moves by one, except that it wraps below zero.
  lemma StepField(st: State, op: Op)
    ensures op == Incref ==>
              Step(st, op) == if st.field >= 0xC000_0000 then st else State(st.field + 1, st.deallocs)
    ensures op == Decref && st.field >= 0x8000_0000 ==> Step(st, op) == st
    ensures op == Decref && 0 < st.field < 0x8000_0000 ==>
              Step(st, op) == State(st.field - 1, if st.field == 1 then st.deallocs + 1 else st.deallocs)
    ensures op == Decref && st.field == 0 ==> Step(st, op) == State(0xFFFF_FFFF, st.deallocs)
  {
  }

  lemma TracksNext(start: Field, ops: seq<Op>, op: Op, st: State)
    requires Tracks(start, ops, st)
    ensures Count(start, ops + [op]) >= 0 || Crossed(start, ops + [op]) <==> Tracks(start, ops + [op], Step(st, op))
  {
    CountNext(start, ops, op);
    hide Count, Crossed, Deaths, Step;
    StepField(st, op);
    NotCrossedIsBelow(start, ops);
  }

  lemma NotCrossedIsBelow(start: int, ops: seq<Op>)
    ensures Crossed(start, ops) || Count(start, ops) < IMMORTAL
  {
  }

  // The field follows the count through a whole run if and only if the run drops no reference that is not
  // there on an object that is not immortal yet.
  lemma {:induction false} FieldTracksCountExactly(start: Field, ops: seq<Op>)
    ensures Allowed(start, ops) <==> AlwaysTracks(start, ops)
    decreases |ops|
  {
    if ops == [] {
      StartTracks(start);
    } else {
      var init, op := ops[..|ops| - 1], ops[|ops| - 1];
      assert ops == init + [op];
      FieldTracksCountExactly(start, init);
      hide Tracks, Run, Count, Crossed;
      if AlwaysTracks(start, init) {
        AlwaysTracksNow(start, init);
        RunNext(State(start, 0), init, op);
        TracksNext(start, init, op, Run(State(start, 0), init));
      }
    }
  }

  lemma StartTracks(start: Field)
    ensures Allowed(start, []) && AlwaysTracks(start, [])
  {
  }

  lemma AlwaysTracksNow(start: Field, ops: seq<Op>)
    requires AlwaysTracks(start, ops)
    ensures Tracks(start, ops, Run(State(start, 0), ops))
  {
  }

  // In particular at the end of such a run.
  lemma FieldTracksCount(start: Field, ops: seq<Op>)
    requires Allowed(start, ops)
    ensures Tracks(start, ops, Run(State(start, 0), ops))
  {
    hide Tracks, Run, Allowed;
    FieldTracksCountExactly(start, ops);
    AlwaysTracksNow(start, ops);
  }

  // The arithmetic never wraps: each operation moves the field by one, or skips.
  lemma FieldNeverWraps(start: Field, ops: seq<Op>, op: Op)
    requires Allowed(start, ops + [op])
    ensures var before, after := Run(State(start, 0), ops).field, Run(State(start, 0), ops + [op]).field;
            after == before || after == (if op == Incref then before + 1 else before - 1)
  {
    assert (ops + [op])[..|ops|] == ops;
    assert Allowed(start, ops);
    FieldTracksCount(start, ops);
    CountNext(start, ops, op);
    RunNext(State(start, 0), ops, op);
    hide Run, Count, Crossed, Allowed, Step;
    StepField(Run(State(start, 0), ops), op);
  }

  // A run that drops a missing reference before the object is immortal wraps the field: the dead object then
  // looks immortal.
  lemma ExtraDecrefWraps(start: Field, ops: seq<Op>)
    requires Allowed(start, ops) && !Allowed(start, ops + [Decref])
    ensures Run(State(start, 0), ops).field == 0 && Run(State(start, 0), ops + [Decref]).field == LIMIT - 1
  {
    assert (ops + [Decref])[..|ops|] == ops;
    FieldTracksCount(start, ops);
    CountNext(start, ops, Decref);
    RunNext(State(start, 0), ops, Decref);
    assert Count(start, ops + [Decref]) < 0 && !Crossed(start, ops + [Decref]);
    AllowedNow(start, ops);
    hide Run, Count, Crossed, Allowed, Step;
    StepField(Run(State(start, 0), ops), Decref);
  }

  lemma AllowedNow(start: int, ops: seq<Op>)
    requires Allowed(start, ops)
    ensures Count(start, ops) >= 0 || Crossed(start, ops)
  {
  }

  // A field in the upper half stays there, and nothing is deallocated any more.
  lemma {:induction false} HighStays(st: State, ops: seq<Op>, more: seq<Op>)
    requires Run(st, ops).field >= IMMORTAL
    ensures Run(st, ops + more).field >= IMMORTAL && Run(st, ops + more).deallocs == Run(st, ops).deallocs
    decreases |more|
  {
    if more == [] {
      assert ops + more == ops;
    } else {
      var init, op := more[..|more| - 1], more[|more| - 1];
      HighStays(st, ops, init);
      assert ops + more == (ops + init) + [op];
      RunNext(st, ops + init, op);
      StepField(Run(st, ops + init), op);
    }
  }

  // A field that no longer follows the count has wrapped into the upper half.
  lemma {:induction false} StrayIsHigh(start: Field, ops: seq<Op>)
    requires !Allowed(start, ops)
    ensures Run(State(start, 0), ops).field >= IMMORTAL
    decreases |ops|
  {
    if ops != [] {
      var init, op := ops[..|ops| - 1], ops[|ops| - 1];
      assert ops == init + [op];
      if Allowed(start, init) {
        CountNext(start, init, op);
        AllowedNow(start, init);
        ExtraDecrefWraps(start, init);
      } else {
        StrayIsHigh(start, init);
        HighStays(State(start, 0), init, [op]);
      }
    }
  }

  // Once crossed, always crossed: later drops are then allowed, however many.
  lemma {:induction false} CrossedStaysCrossed(start: Field, ops: seq<Op>, more: seq<Op>)
    requires Crossed(start, ops)
    ensures Crossed(start, ops + more) && Deaths(start, ops + more) == Deaths(start, ops)
    ensures Allowed(start, ops) ==> Allowed(start, ops + more)
    decreases |more|
  {
    if more == [] {
      assert ops + more == ops;
    } else {
      var init, op := more[..|more| - 1], more[|more| - 1];
      CrossedStaysCrossed(start, ops, init);
      assert ops + more == (ops + init) + [op];
      assert (ops + more)[..|ops + more| - 1] == ops + init;
      CountNext(start, ops + init, op);
    }
  }

  // Once the count has crossed, no later operations deallocate the object, however many references they drop.
  lemma CrossedIsForever(start: Field, ops: seq<Op>, more: seq<Op>)
    requires Crossed(start, ops)
    ensures Run(State(start, 0), ops + more).field >= IMMORTAL
    ensures Run(State(start, 0), ops + more).deallocs == Run(State(start, 0), ops).deallocs
    ensures Crossed(start, ops + more) && Deaths(start, ops + more) == Deaths(start, ops)
    ensures Allowed(start, ops) ==> Allowed(start, ops + more)
  {
    if Allowed(start, ops) {
      FieldTracksCount(start, ops);
    } else {
      StrayIsHigh(start, ops);
    }
    HighStays(State(start, 0), ops, more);
    CrossedStaysCrossed(start, ops, more);
  }
}
