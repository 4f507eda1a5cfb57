/** The module-global cache in its own form (`soac-eval/src/module_globals.rs`): slots swapped in
    place, pending stacks pushed and popped, and every reference the cache takes or drops. */
module GlobalCache {
  import opened Prelude
  import opened GlobalCacheSpec

  function RefOf(value: Option<Obj>): multiset<Obj> {
    if value.Some? then multiset{value.value} else multiset{}
  }

  // The references the slots own.
  function SlotRefs(slots: seq<Option<Obj>>): multiset<Obj> {
    if slots == [] then multiset{} else RefOf(slots[0]) + SlotRefs(slots[1..])
  }

  lemma {:induction false} SlotRefsAppend(a: seq<Option<Obj>>, b: seq<Option<Obj>>)
    ensures SlotRefs(a + b) == SlotRefs(a) + SlotRefs(b)
  {
    if a == [] {
      assert a + b == b;
    } else {
      assert (a + b)[1..] == a[1..] + b;
      SlotRefsAppend(a[1..], b);
    }
  }

  // The references of all slots but one.
  function OtherRefs(slots: seq<Option<Obj>>, i: nat): multiset<Obj>
    requires i < |slots|
  {
    SlotRefs(slots[..i]) + SlotRefs(slots[i + 1..])
  }

  lemma SlotRefsSplit(slots: seq<Option<Obj>>, i: nat)
    requires i < |slots|
    ensures SlotRefs(slots) == OtherRefs(slots, i) + RefOf(slots[i])
  {
    assert SlotRefs(slots[i..]) == RefOf(slots[i]) + SlotRefs(slots[i..][1..]);
    hide SlotRefs, RefOf;
    assert slots == slots[..i] + slots[i..] && slots[i..][1..] == slots[i + 1..];
    SlotRefsAppend(slots[..i], slots[i..]);
  }

  lemma {:induction false} SlotRefsEmpty(slots: seq<Option<Obj>>)
    requires forall i :: 0 <= i < |slots| ==> slots[i].None?
    ensures SlotRefs(slots) == multiset{}
  {
    if slots != [] {
      SlotRefsEmpty(slots[1..]);
    }
  }

  // Swapping a slot trades the reference it had for the one it is given.
  lemma SwapBalance(refs: multiset<Obj>, slots: seq<Option<Obj>>, i: nat, value: Option<Obj>, given: multiset<Obj>)
    requires i < |slots| && refs == SlotRefs(slots) + given + RefOf(value)
    ensures slots[i].None? ==> refs == SlotRefs(slots[i := value]) + given
    ensures slots[i].Some? ==> slots[i].value in refs && refs - multiset{slots[i].value} == SlotRefs(slots[i := value]) + given
  {
    hide SlotRefs, OtherRefs;
    SlotRefsSplit(slots, i);
    SlotRefsSplit(slots[i := value], i);
    OtherRefsUpdate(slots, i, value);
  }

  lemma OtherRefsUpdate(slots: seq<Option<Obj>>, i: nat, value: Option<Obj>)
    requires i < |slots|
    ensures OtherRefs(slots[i := value], i) == OtherRefs(slots, i)
  {
    assert slots[i := value][..i] == slots[..i] && slots[i := value][i + 1..] == slots[i + 1..];
  }

  // The first `n` slots, cleared.
  function ClearedUpTo(st: CacheState, n: nat): CacheState {
    st.(slots := seq(|st.slots|, i requires 0 <= i < |st.slots| => if i < n then None else st.slots[i]))
  }

  lemma ClearedNext(st: CacheState, i: nat)
    requires i < |st.slots|
    ensures ClearedUpTo(st, i + 1) == SetSlot(ClearedUpTo(st, i), i, None)
  {
  }

  lemma ClearedEnds(st: CacheState)
    ensures ClearedUpTo(st, 0) == st && ClearedUpTo(st, |st.slots|) == ClearAll(st)
  {
  }

  // The unshadowed slots among the first `n`, cleared.
  function UnshadowedUpTo(names: seq<Name>, st: CacheState, n: nat): CacheState {
    st.(slots := seq(|st.slots|, i requires 0 <= i < |st.slots| =>
      if i < n && i < |names| && NulFree(names[i]) && names[i] !in st.globals then None else st.slots[i]))
  }

  lemma UnshadowedNext(names: seq<Name>, st: CacheState, i: nat)
    requires i < |names| == |st.slots|
    ensures UnshadowedUpTo(names, st, 0) == st
    ensures UnshadowedUpTo(names, st, |names|) == ClearUnshadowed(names, st)
    ensures UnshadowedUpTo(names, st, i + 1)
            == if NulFree(names[i]) && names[i] !in st.globals then SetSlot(UnshadowedUpTo(names, st, i), i, None)
               else UnshadowedUpTo(names, st, i)
  {
  }

  lemma StoreUnfolds(names: seq<Name>, st: CacheState, name: Name, slot: nat, value: Obj, result: SetResult, during: seq<Op>)
    ensures Step(names, st, Store(name, slot, value, result, during))
         == FinishStore(Steps(names, DictSet(names, Push(st, slot, Some(value)), name, value, result), during), slot, value, result)
  {
  }

  lemma DeleteUnfolds(names: seq<Name>, st: CacheState, name: Name, slot: nat, quietly: bool, result: DelResult, during: seq<Op>)
    ensures Step(names, st, Delete(name, slot, quietly, result, during))
         == FinishDelete(Steps(names, DictDel(names, Push(st, slot, None), name, result), during), slot,
                         DelSucceeds(st, name, result), quietly && !result.FailsOtherwise?)
    ensures Push(st, slot, None).globals == st.globals
  {
  }

  // The references an operation hands to callers: a load its value and a store that succeeds the stored object, along
  // with what the operations nested in its dict call hand out; a delete only the latter.
  function HandedBy(names: seq<Name>, st: CacheState, op: Op): multiset<Obj>
    decreases op
  {
    match op
    case Store(name, slot, value, result, during) =>
      HandedAll(names, DictSet(names, Push(st, slot, Some(value)), name, value, result), during)
        + HandedOnSuccess(value, result)
    case Delete(name, slot, _, result, during) =>
      HandedAll(names, DictDel(names, Push(st, slot, None), name, result), during)
    case Load(name, slot) => RefOf(LoadValue(st, name, slot))
    case _ => multiset{}
  }

  function HandedAll(names: seq<Name>, st: CacheState, ops: seq<Op>): multiset<Obj>
    decreases ops
  {
    if ops == [] then multiset{} else HandedBy(names, st, ops[0]) + HandedAll(names, Step(names, st, ops[0]), ops[1..])
  }

  function HandedOnSuccess(value: Obj, result: SetResult): multiset<Obj> {
    if result.Wrote? || result.WroteSilently? then multiset{value} else multiset{}
  }

  // Slot indices come from the compiler and are in range.
  predicate InRange(n: nat, op: Op)
    decreases op
  {
    match op
    case Store(_, slot, _, _, during) => slot < n && AllInRange(n, during)
    case Delete(_, slot, _, _, during) => slot < n && AllInRange(n, during)
    case Load(_, slot) => slot < n
    case _ => true
  }

  predicate AllInRange(n: nat, ops: seq<Op>)
    decreases ops
  {
    ops == [] || (InRange(n, ops[0]) && AllInRange(n, ops[1..]))
  }

  class ModuleGlobalCache {
    const names: seq<Name>
    var slots: array<Option<Obj>>
    var pending: seq<seq<Option<Obj>>>
    // The interpreter's dicts.
    var globals: Dict
    var builtins: Dict
    // References taken and not yet dropped: what the slots own, and what callers were given.
    ghost var refs: multiset<Obj>
    ghost var given: multiset<Obj>

    constructor (names: seq<Name>, globals: Dict, builtins: Dict)
      requires DistinctNames(names)
      ensures Valid() && fresh(slots) && this.names == names
      ensures View() == Initial(names, globals, builtins) && given == multiset{}
    {
      this.names, this.globals, this.builtins := names, globals, builtins;
      slots := new Option<Obj>[|names|](_ => None);
      pending := seq(|names|, _ => []);
      refs, given := multiset{}, multiset{};
      new;
      SlotRefsEmpty(slots[..]);
    }

    function View(): CacheState
      reads this, slots
    {
      CacheState(globals, builtins, slots[..], pending)
    }

    // Every reference taken is owned by a slot, was handed to a caller, or is `extra`.
    ghost predicate Balanced(extra: multiset<Obj>)
      reads this, slots
    {
      && DistinctNames(names) && slots.Length == |pending| == |names|
      && refs == SlotRefs(slots[..]) + given + extra
    }

    ghost predicate Valid()
      reads this, slots
    {
      Balanced(multiset{})
    }

    method IncRef(o: Obj)
      modifies this`refs
      ensures refs == old(refs) + multiset{o}
    {
      refs := refs + multiset{o};
    }

    // Never drops a reference that is not held.
    method DecRef(o: Obj)
      requires o in refs
      modifies this`refs
      ensures refs == old(refs) - multiset{o}
    {
      refs := refs - multiset{o};
    }

    // A reference taken for the caller.
    method Give(o: Obj)
      requires Valid()
      modifies this`refs, this`given
      ensures Valid() && given == old(given) + multiset{o}
    {
      IncRef(o);
      given := given + multiset{o};
    }

    // The slot takes over the reference to `value` and drops the one it had.
    method SwapSlot(slot: nat, value: Option<Obj>)
      requires Balanced(RefOf(value)) && slot < slots.Length
      modifies this`refs, slots
      ensures Valid() && View() == SetSlot(old(View()), slot, value)
    {
      hide SlotRefs, RefOf, DistinctNames;
      var was := slots[slot];
      ghost var before := slots[..];
      slots[slot] := value;
      assert slots[..] == before[slot := value];
      SwapBalance(refs, before, slot, value, given);
      if was.Some? {
        DecRef(was.value);
      }
    }

    method ClearSlot(slot: nat)
      requires Valid() && slot < slots.Length
      modifies this`refs, slots
      ensures Valid() && View() == SetSlot(old(View()), slot, None)
    {
      SwapSlot(slot, None);
    }

    // Storing a borrowed value takes a new reference first.
    method StoreBorrowedValue(slot: nat, value: Option<Obj>)
      requires Valid() && slot < slots.Length
      modifies this`refs, slots
      ensures Valid() && View() == SetSlot(old(View()), slot, value)
    {
      if value.None? {
        ClearSlot(slot);
      } else {
        IncRef(value.value);
        SwapSlot(slot, value);
      }
    }

    method ClearAllSlots()
      requires Valid()
      modifies this`refs, slots
      ensures Valid() && View() == ClearAll(old(View()))
    {
      hide ClearAll, SlotRefs, DistinctNames;
      ClearedEnds(View());
      for i := 0 to slots.Length
        invariant Valid() && View() == ClearedUpTo(old(View()), i)
      {
        ClearedNext(old(View()), i);
        ClearSlot(i);
      }
    }

    method ClearUnshadowedSlots()
      requires Valid()
      modifies this`refs, slots
      ensures Valid() && View() == ClearUnshadowed(names, old(View()))
    {
      for i := 0 to slots.Length
        invariant Valid() && View() == UnshadowedUpTo(names, old(View()), i)
      {
        UnshadowedNext(names, old(View()), i);
        if NulFree(names[i]) && names[i] !in globals {
          ClearSlot(i);
        }
      }
    }

    method PushPendingSelfUpdate(slot: nat, value: Option<Obj>)
      requires Valid()
      modifies this`pending
      ensures Valid() && View() == Push(old(View()), slot, value)
    {
      if slot < |pending| {
        pending := pending[slot := pending[slot] + [value]];
      }
    }

    method RemovePendingSelfUpdate(slot: nat, value: Option<Obj>)
      requires Valid()
      modifies this`pending
      ensures Valid() && View() == Pop(old(View()), slot, value)
    {
      var ignored := TryIgnorePendingSelfUpdate(slot, value);
    }

    method TryIgnorePendingSelfUpdate(slot: nat, value: Option<Obj>) returns (ignored: bool)
      requires Valid()
      modifies this`pending
      ensures Valid() && ignored == Expects(old(View()), slot, value)
      ensures View() == Pop(old(View()), slot, value)
    {
      ignored := slot < |pending| && pending[slot] != [] && pending[slot][|pending[slot]| - 1] == value;
      if ignored {
        pending := pending[slot := pending[slot][..|pending[slot]| - 1]];
      }
    }

    method HandleGlobalsEvent(event: DictEvent, key: Key, value: Option<Obj>)
      requires Valid()
      modifies this`refs, this`pending, slots
      ensures Valid() && View() == GlobalsEvent(names, old(View()), event, key, value)
    {
      if event in {Added, Modified, Deleted} {
        var slot := SlotForKey(names, key);
        if slot.None? {
          return;
        }
        var updated := if event == Deleted then None else value;
        var ignored := TryIgnorePendingSelfUpdate(slot.value, updated);
        if !ignored {
          StoreBorrowedValue(slot.value, updated);
        }
      } else {
        ClearAllSlots();
      }
    }

    method HandleBuiltinsEvent(event: DictEvent, key: Key)
      requires Valid()
      modifies this`refs, slots
      ensures Valid() && View() == BuiltinsEvent(names, old(View()), event, key)
    {
      if event in {Added, Modified, Deleted} {
        var slot := SlotForKey(names, key);
        if slot.Some? && key.name !in globals {
          ClearSlot(slot.value);
        }
      } else {
        ClearUnshadowedSlots();
      }
    }

    // The dict's side of PyObject_SetItem.
    method DictSetItem(name: Name, value: Obj, result: SetResult)
      requires Valid()
      modifies this`refs, this`pending, this`globals, slots
      ensures Valid() && View() == DictSet(names, old(View()), name, value, result)
    {
      if result.Wrote? || result.FailedAfterEvent? {
        HandleGlobalsEvent(SetEvent(globals, StrKey(name)), StrKey(name), Some(value));
      }
      if result.Wrote? || result.WroteSilently? {
        globals := globals[name := value];
      }
    }

    method DictDelItem(name: Name, result: DelResult) returns (ok: bool)
      requires Valid()
      modifies this`refs, this`pending, this`globals, slots
      ensures Valid() && View() == DictDel(names, old(View()), name, result)
      ensures ok == DelSucceeds(old(View()), name, result)
    {
      ok := name in globals && !result.FailsOtherwise?;
      if ok {
        if !result.RemovesSilently? {
          HandleGlobalsEvent(Deleted, StrKey(name), None);
        }
        globals := globals - {name};
      }
    }

    // A store's dict call: what the dict does, and what runs inside it.
    method CallSetItem(name: Name, slot: nat, value: Obj, result: SetResult, during: seq<Op>)
      requires Valid() && slot < slots.Length && AllInRange(slots.Length, during)
      modifies this`refs, this`given, this`pending, this`globals, this`builtins, slots
      ensures Valid()
      ensures View() == Steps(names, DictSet(names, Push(old(View()), slot, Some(value)), name, value, result), during)
      ensures given == old(given)
              + HandedAll(names, DictSet(names, Push(old(View()), slot, Some(value)), name, value, result), during)
      decreases during, 2
    {
      PushPendingSelfUpdate(slot, Some(value));
      DictSetItem(name, value, result);
      PerformAll(during);
    }

    // Returns a reference to the value for the caller, or nothing when the dict write failed.
    method StoreGlobalWriteThrough(name: Name, slot: nat, value: Obj, result: SetResult, during: seq<Op>) returns (r: Option<Obj>)
      requires Valid() && slot < slots.Length && AllInRange(slots.Length, during)
      modifies this`refs, this`given, this`pending, this`globals, this`builtins, slots
      ensures Valid() && View() == Step(names, old(View()), Store(name, slot, value, result, during))
      ensures r == if result.Wrote? || result.WroteSilently? then Some(value) else None
      ensures given == old(given) + HandedBy(names, old(View()), Store(name, slot, value, result, during))
      decreases during, 3
    {
      hide Step, Steps, DictSet, FinishStore, SlotRefs, DistinctNames, HandedAll, Push;
      StoreUnfolds(names, View(), name, slot, value, result, during);
      CallSetItem(name, slot, value, result, during);
      r := SettleStore(slot, value, result);
    }

    // Once the dict call returned: withdraw the expectation, or set the slot.
    method SettleStore(slot: nat, value: Obj, result: SetResult) returns (r: Option<Obj>)
      requires Valid() && slot < slots.Length
      modifies this`refs, this`given, this`pending, slots
      ensures Valid() && View() == FinishStore(old(View()), slot, value, result)
      ensures r == if result.Wrote? || result.WroteSilently? then Some(value) else None
      ensures given == old(given) + HandedOnSuccess(value, result)
    {
      if result.FailedBeforeEvent? || result.FailedAfterEvent? {
        RemovePendingSelfUpdate(slot, Some(value));
        return None;
      }
      StoreBorrowedValue(slot, Some(value));
      Give(value);
      return Some(value);
    }

    // Returns whether the delete counts as done: removed, or missing and forgiven.
    method DelGlobalWriteThrough(name: Name, slot: nat, quietly: bool, result: DelResult, during: seq<Op>) returns (done: bool)
      requires Valid() && slot < slots.Length && AllInRange(slots.Length, during)
      modifies this`refs, this`given, this`pending, this`globals, this`builtins, slots
      ensures Valid() && View() == Step(names, old(View()), Delete(name, slot, quietly, result, during))
      ensures done <==> DelSucceeds(old(View()), name, result) || (quietly && !result.FailsOtherwise?)
      ensures given == old(given) + HandedBy(names, old(View()), Delete(name, slot, quietly, result, during))
      decreases during, 3
    {
      hide Step, Steps, DictDel, FinishDelete, Push, SlotRefs, DistinctNames, HandedAll;
      DeleteUnfolds(names, View(), name, slot, quietly, result, during);
      PushPendingSelfUpdate(slot, None);
      var ok := DictDelItem(name, result);
      PerformAll(during);
      done := SettleDelete(slot, ok, quietly && !result.FailsOtherwise?);
    }

    // Once the dict call returned: clear the slot, or withdraw the expectation, or both.
    method SettleDelete(slot: nat, ok: bool, forgiven: bool) returns (done: bool)
      requires Valid() && slot < slots.Length
      modifies this`refs, this`pending, slots
      ensures Valid() && View() == FinishDelete(old(View()), slot, ok, forgiven)
      ensures done <==> ok || forgiven
    {
      if !ok {
        RemovePendingSelfUpdate(slot, None);
        if !forgiven {
          return false;
        }
      }
      ClearSlot(slot);
      return true;
    }

    // The cached load: a hit takes a reference for the caller; a miss steals the looked-up reference
    // for the slot and takes another for the caller.
    method LoadGlobal(name: Name, slot: nat) returns (r: Option<Obj>)
      requires Valid() && slot < slots.Length
      modifies this`refs, this`given, slots
      ensures Valid() && View() == Loaded(old(View()), name, slot)
      ensures r == LoadValue(old(View()), name, slot)
      ensures given == if r.Some? then old(given) + multiset{r.value} else old(given)
    {
      hide SlotRefs, DistinctNames;
      r := slots[slot];
      if r.None? {
        r := LookupIn(globals, builtins, name);
        if r.None? {
          return;
        }
        IncRef(r.value);
        SwapSlot(slot, r);
      }
      Give(r.value);
    }

    // Something else than this cache writes to a dict.
    method PerformExternal(op: Op)
      requires Valid() && !op.Store? && !op.Delete? && !op.Load?
      modifies this`refs, this`pending, this`globals, this`builtins, slots
      ensures Valid() && View() == Step(names, old(View()), op)
    {
      hide Steps, GlobalsEvent, BuiltinsEvent, SetEvent, WriteKey, RemoveKey, FinishStore, FinishDelete, Loaded, SlotRefs, DistinctNames,
        DictSet, DictDel, Push, SlotFor, SlotForKey;
      match op
      case ExternalSet(key, value) =>
        HandleGlobalsEvent(SetEvent(globals, key), key, Some(value));
        globals := WriteKey(globals, key, value);
      case ExternalDel(key) =>
        if key.StrKey? && key.name in globals {
          HandleGlobalsEvent(Deleted, key, None);
          globals := RemoveKey(globals, key);
        }
      case ExternalReplace(event, contents) =>
        HandleGlobalsEvent(event, OtherKey, None);
        globals := contents;
      case BuiltinsSet(key, value) =>
        HandleBuiltinsEvent(SetEvent(builtins, key), key);
        builtins := WriteKey(builtins, key, value);
      case BuiltinsDel(key) =>
        if key.StrKey? && key.name in builtins {
          HandleBuiltinsEvent(Deleted, key);
          builtins := RemoveKey(builtins, key);
        }
      case BuiltinsReplace(event, contents) =>
        HandleBuiltinsEvent(event, OtherKey);
        builtins := contents;
    }

    // One thing that can happen, whoever does it.
    method Perform(op: Op)
      requires Valid() && InRange(slots.Length, op)
      modifies this`refs, this`given, this`pending, this`globals, this`builtins, slots
      ensures Valid() && View() == Step(names, old(View()), op)
      ensures given == old(given) + HandedBy(names, old(View()), op)
      decreases op, 2
    {
      hide Steps, GlobalsEvent, BuiltinsEvent, FinishStore, FinishDelete, SlotRefs, DistinctNames, DictSet, DictDel, HandedAll;
      match op
      case Store(name, slot, value, result, during) =>
        var r := StoreGlobalWriteThrough(name, slot, value, result, during);
      case Delete(name, slot, quietly, result, during) =>
        var done := DelGlobalWriteThrough(name, slot, quietly, result, during);
      case Load(name, slot) =>
        var r := LoadGlobal(name, slot);
      case _ =>
        PerformExternal(op);
    }

    // A whole run: the state the specification gives, with every reference taken owned by a slot or handed to a caller,
    // and exactly those handed out that the run's operations return.
    method PerformAll(ops: seq<Op>)
      requires Valid() && AllInRange(slots.Length, ops)
      modifies this`refs, this`given, this`pending, this`globals, this`builtins, slots
      ensures Valid() && View() == Steps(names, old(View()), ops)
      ensures given == old(given) + HandedAll(names, old(View()), ops)
      decreases ops, 1
    {
      if ops != [] {
        Perform(ops[0]);
        PerformAll(ops[1..]);
      }
    }

    // After drop the cache owns nothing: every reference left is one a caller was given.
    method Drop()
      requires Valid()
      modifies this`refs, slots
      ensures Valid() && refs == given
    {
      ClearAllSlots();
      SlotRefsEmpty(slots[..]);
    }
  }
}
