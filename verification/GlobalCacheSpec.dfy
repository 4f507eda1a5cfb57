/** The module-global cache as a state machine (`soac-eval/src/module_globals.rs`).

    The state holds the two dicts Python resolves a global name in, the cache's slots and
    its pending-self-update stacks. An `Op` is one thing that can happen; the operations
    that call into the dict carry what the dict does and what else runs inside the call. */
module GlobalCacheSpec {
  import opened Prelude

  type Name = string

  // An object's identity.
  type Obj = nat

  type Dict = map<Name, Obj>

  datatype CacheState = CacheState(
    globals: Dict,
    builtins: Dict,
    slots: seq<Option<Obj>>,
    pending: seq<seq<Option<Obj>>>)   // per slot: the new values its own writes expect to be told about

  // Keys that are not strings, or have no UTF-8 form, name no slot.
  datatype Key = StrKey(name: Name) | OtherKey

  datatype DictEvent = Added | Modified | Deleted | Cloned | Cleared | Deallocated

  function GlobalOf(st: CacheState, name: Name): Option<Obj> {
    if name in st.globals then Some(st.globals[name]) else None
  }

  // Python's resolution of a global name: the globals dict, then the builtins.
  function LookupIn(globals: Dict, builtins: Dict, name: Name): Option<Obj> {
    if name in globals then Some(globals[name])
    else if name in builtins then Some(builtins[name])
    else None
  }

  function Lookup(st: CacheState, name: Name): Option<Obj> {
    LookupIn(st.globals, st.builtins, name)
  }

  function SlotFor(names: seq<Name>, name: Name): (r: Option<nat>)
    ensures r.Some? ==> r.value < |names| && names[r.value] == name
    ensures r.None? ==> name !in names
  {
    if names == [] then None
    else if names[|names| - 1] == name then Some(|names| - 1)
    else SlotFor(names[..|names| - 1], name)
  }

  predicate NulFree(s: string) {
    '\0' !in s
  }

  // What is left of a string read as a C string.
  function CutAtNul(s: string): (r: string)
    ensures NulFree(r) && r <= s
    ensures NulFree(s) ==> r == s
  {
    if s == "" || s[0] == '\0' then "" else [s[0]] + CutAtNul(s[1..])
  }

  // The watcher reads a key up to its first NUL.
  function SlotForKey(names: seq<Name>, key: Key): (r: Option<nat>)
    ensures r.Some? ==> key.StrKey? && r.value < |names| && names[r.value] == CutAtNul(key.name)
  {
    if key.StrKey? then SlotFor(names, CutAtNul(key.name)) else None
  }

  predicate DistinctNames(names: seq<Name>) {
    forall i, j :: 0 <= i < j < |names| ==> names[i] != names[j]
  }

  // What the compiler hands over: identifiers, each once.
  predicate ProperNames(names: seq<Name>) {
    DistinctNames(names) && forall i :: 0 <= i < |names| ==> NulFree(names[i])
  }

  lemma SlotForUnique(names: seq<Name>, i: nat)
    requires ProperNames(names) && i < |names|
    ensures SlotFor(names, names[i]) == Some(i) == SlotForKey(names, StrKey(names[i]))
  {
    assert NulFree(names[i]);
  }

  // ---- The cache's own operations ------------------------------------------

  function SetSlot(st: CacheState, slot: nat, value: Option<Obj>): CacheState {
    if slot < |st.slots| then st.(slots := st.slots[slot := value]) else st
  }

  function ClearAll(st: CacheState): CacheState {
    st.(slots := seq(|st.slots|, _ => None))
  }

  // A name with a NUL in it is passed over.
  function ClearUnshadowed(names: seq<Name>, st: CacheState): CacheState {
    st.(slots := seq(|st.slots|, i requires 0 <= i < |st.slots| =>
      if i < |names| && NulFree(names[i]) && names[i] !in st.globals then None else st.slots[i]))
  }

  function Push(st: CacheState, slot: nat, value: Option<Obj>): CacheState {
    if slot < |st.pending| then st.(pending := st.pending[slot := st.pending[slot] + [value]]) else st
  }

  predicate Expects(st: CacheState, slot: nat, value: Option<Obj>) {
    slot < |st.pending| && st.pending[slot] != [] && st.pending[slot][|st.pending[slot]| - 1] == value
  }

  // Drop the expectation on top of a slot's stack, if it is this one.
  function Pop(st: CacheState, slot: nat, value: Option<Obj>): CacheState {
    if Expects(st, slot, value) then
      st.(pending := st.pending[slot := st.pending[slot][..|st.pending[slot]| - 1]])
    else st
  }

  // The watcher callback for the globals dict.
  function GlobalsEvent(names: seq<Name>, st: CacheState, event: DictEvent, key: Key, value: Option<Obj>): CacheState {
    if event in {Added, Modified, Deleted} then
      match SlotForKey(names, key)
      case None => st
      case Some(slot) =>
        var new_ := if event == Deleted then None else value;
        if Expects(st, slot, new_) then Pop(st, slot, new_) else SetSlot(st, slot, new_)
    else ClearAll(st)
  }

  // The watcher callback for the builtins dict.
  function BuiltinsEvent(names: seq<Name>, st: CacheState, event: DictEvent, key: Key): CacheState {
    if event in {Added, Modified, Deleted} then
      match SlotForKey(names, key)
      case None => st
      case Some(slot) => if key.name in st.globals then st else SetSlot(st, slot, None)
    else ClearUnshadowed(names, st)
  }

  // ---- What can happen -----------------------------------------------------

  // What PyObject_SetItem does: a watcher is told before the dict changes.
  datatype SetResult =
    | Wrote                // told once, then written
    | WroteSilently        // written without telling the watcher
    | FailedBeforeEvent    // fails, and the watcher hears nothing
    | FailedAfterEvent     // the watcher is told, then the write fails

  // What PyObject_DelItem does; a name that is not there fails with KeyError.
  datatype DelResult = Removes | RemovesSilently | FailsOtherwise

  datatype Op =
    | ExternalSet(key: Key, value: Obj)        // other code writes the globals dict
    | ExternalDel(key: Key)
    | ExternalReplace(event: DictEvent, contents: Dict)   // clone, clear or deallocation
    | BuiltinsSet(key: Key, value: Obj)
    | BuiltinsDel(key: Key)
    | BuiltinsReplace(event: DictEvent, contents: Dict)
    | Store(name: Name, slot: nat, stored: Obj, setResult: SetResult, during: seq<Op>)
    | Delete(name: Name, slot: nat, quietly: bool, delResult: DelResult, during: seq<Op>)
    | Load(name: Name, slot: nat)

  function WriteKey(dict: Dict, key: Key, value: Obj): Dict {
    if key.StrKey? then dict[key.name := value] else dict
  }

  function RemoveKey(dict: Dict, key: Key): Dict {
    if key.StrKey? then dict - {key.name} else dict
  }

  function SetEvent(dict: Dict, key: Key): DictEvent {
    if key.StrKey? && key.name in dict then Modified else Added
  }

  // A load fills an empty slot with what a lookup returns.
  function Loaded(st: CacheState, name: Name, slot: nat): CacheState {
    if slot < |st.slots| && st.slots[slot].None? && Lookup(st, name).Some? then SetSlot(st, slot, Lookup(st, name)) else st
  }

  // What a load returns: the slot, or a lookup when the slot is empty.
  function LoadValue(st: CacheState, name: Name, slot: nat): Option<Obj> {
    if slot < |st.slots| && st.slots[slot].Some? then st.slots[slot] else Lookup(st, name)
  }

  function Step(names: seq<Name>, st: CacheState, op: Op): CacheState
    decreases op
  {
    match op
    case ExternalSet(key, value) =>
      var told := GlobalsEvent(names, st, SetEvent(st.globals, key), key, Some(value));
      told.(globals := WriteKey(told.globals, key, value))
    case ExternalDel(key) =>
      if key.StrKey? && key.name in st.globals then
        var told := GlobalsEvent(names, st, Deleted, key, None);
        told.(globals := RemoveKey(told.globals, key))
      else st
    case ExternalReplace(event, contents) =>
      GlobalsEvent(names, st, event, OtherKey, None).(globals := contents)
    case BuiltinsSet(key, value) =>
      var told := BuiltinsEvent(names, st, SetEvent(st.builtins, key), key);
      told.(builtins := WriteKey(told.builtins, key, value))
    case BuiltinsDel(key) =>
      if key.StrKey? && key.name in st.builtins then
        var told := BuiltinsEvent(names, st, Deleted, key);
        told.(builtins := RemoveKey(told.builtins, key))
      else st
    case BuiltinsReplace(event, contents) =>
      BuiltinsEvent(names, st, event, OtherKey).(builtins := contents)
    case Store(name, slot, value, result, during) =>
      FinishStore(Steps(names, DictSet(names, Push(st, slot, Some(value)), name, value, result), during), slot, value, result)
    case Delete(name, slot, quietly, result, during) =>
      FinishDelete(Steps(names, DictDel(names, Push(st, slot, None), name, result), during), slot,
                   DelSucceeds(st, name, result), quietly && !result.FailsOtherwise?)
    case Load(name, slot) => Loaded(st, name, slot)
  }

  function Steps(names: seq<Name>, st: CacheState, ops: seq<Op>): CacheState
    decreases ops
  {
    if ops == [] then st else Steps(names, Step(names, st, ops[0]), ops[1..])
  }

  // The dict's side of a write-through store.
  function DictSet(names: seq<Name>, st: CacheState, name: Name, value: Obj, result: SetResult): CacheState {
    var told := GlobalsEvent(names, st, SetEvent(st.globals, StrKey(name)), StrKey(name), Some(value));
    match result
    case Wrote => told.(globals := told.globals[name := value])
    case WroteSilently => st.(globals := st.globals[name := value])
    case FailedBeforeEvent => st
    case FailedAfterEvent => told
  }

  // What a store does once the dict call returns.
  function FinishStore(st: CacheState, slot: nat, value: Obj, result: SetResult): CacheState {
    if result.FailedBeforeEvent? || result.FailedAfterEvent? then Pop(st, slot, Some(value))
    else SetSlot(st, slot, Some(value))
  }

  // What a delete does once the dict call returns. A quiet delete forgives a missing name.
  function FinishDelete(st: CacheState, slot: nat, removed: bool, forgiven: bool): CacheState {
    if removed then SetSlot(st, slot, None)
    else if forgiven then SetSlot(Pop(st, slot, None), slot, None)
    else Pop(st, slot, None)
  }

  predicate DelSucceeds(st: CacheState, name: Name, result: DelResult) {
    name in st.globals && !result.FailsOtherwise?
  }

  // The dict's side of a write-through delete.
  function DictDel(names: seq<Name>, st: CacheState, name: Name, result: DelResult): CacheState {
    if !DelSucceeds(st, name, result) then st
    else
      var told := if result.RemovesSilently? then st else GlobalsEvent(names, st, Deleted, StrKey(name), None);
      told.(globals := told.globals - {name})
  }

  // ---- The invariant -------------------------------------------------------

  // The environment's part, with `busy` the slots whose own write is in progress:
  //  - a write or delete that succeeds tells the watcher exactly once;
  //  - nothing that runs inside a dict call writes the name being written;
  //  - no other code sets a global under a key that, cut at its first NUL, is another tracked name;
  //  - the compiler passes each name with its own slot.
  predicate Allowed(names: seq<Name>, op: Op, busy: set<nat>)
    decreases op
  {
    match op
    case ExternalSet(key, _) => !Touches(names, key, busy) && ReadWhole(names, key)
    case ExternalDel(key) => !Touches(names, key, busy)
    case ExternalReplace(event, contents) =>
      event in {Cloned, Cleared, Deallocated} && busy == {}
    case BuiltinsSet(_, _) => true
    case BuiltinsDel(_) => true
    case BuiltinsReplace(event, _) => event in {Cloned, Cleared, Deallocated}
    case Store(name, slot, _, result, during) =>
      SlotFor(names, name) == Some(slot) && slot !in busy && !result.WroteSilently? && AllAllowed(names, during, busy + {slot})
    case Delete(name, slot, _, result, during) =>
      SlotFor(names, name) == Some(slot) && slot !in busy && !result.RemovesSilently? && AllAllowed(names, during, busy + {slot})
    case Load(name, slot) => SlotFor(names, name) == Some(slot)
  }

  predicate AllAllowed(names: seq<Name>, ops: seq<Op>, busy: set<nat>)
    decreases ops
  {
    ops == [] || (Allowed(names, ops[0], busy) && AllAllowed(names, ops[1..], busy))
  }

  predicate Touches(names: seq<Name>, key: Key, busy: set<nat>) {
    SlotForKey(names, key).Some? && SlotForKey(names, key).value in busy
  }

  predicate ReadWhole(names: seq<Name>, key: Key) {
    SlotForKey(names, key).Some? ==> names[SlotForKey(names, key).value] == key.name
  }

  predicate WellFormed(names: seq<Name>, st: CacheState) {
    |st.slots| == |names| && |st.pending| == |names|
  }

  // A slot is empty or holds what a lookup of its name returns.
  predicate Coherent(names: seq<Name>, st: CacheState, slot: nat)
    requires WellFormed(names, st) && slot < |names|
  {
    st.slots[slot].Some? ==> st.slots[slot] == Lookup(st, names[slot])
  }

  // Outside the writes in progress, slots are coherent and nothing is pending.
  predicate Inv(names: seq<Name>, st: CacheState, busy: set<nat>) {
    && WellFormed(names, st)
    && forall i :: 0 <= i < |names| && i !in busy ==> Coherent(names, st, i) && st.pending[i] == []
  }

  function Initial(names: seq<Name>, globals: Dict, builtins: Dict): CacheState {
    CacheState(globals, builtins, seq(|names|, _ => None), seq(|names|, _ => []))
  }

  // The globals of the names being written are left alone, and a coherent slot among them stays so.
  predicate BusyKept(names: seq<Name>, a: CacheState, b: CacheState, busy: set<nat>)
    requires WellFormed(names, a) && WellFormed(names, b)
  {
    forall i :: 0 <= i < |names| && i in busy ==>
      GlobalOf(a, names[i]) == GlobalOf(b, names[i]) && (Coherent(names, a, i) ==> Coherent(names, b, i))
  }

  // Everything that happens keeps the invariant and leaves every pending stack as it found it.
  lemma {:induction false} StepKeepsInv(names: seq<Name>, st: CacheState, op: Op, busy: set<nat>)
    requires ProperNames(names) && Inv(names, st, busy) && Allowed(names, op, busy)
    ensures Inv(names, Step(names, st, op), busy)
    ensures Step(names, st, op).pending == st.pending && BusyKept(names, st, Step(names, st, op), busy)
    decreases op
  {
    match op
    case ExternalSet(key, value) => ExternalKeepsInv(names, st, op, busy, key);
    case ExternalDel(key) => ExternalKeepsInv(names, st, op, busy, key);
    case ExternalReplace(_, _) =>
    case BuiltinsSet(key, _) => BuiltinsKeepInv(names, st, op, busy, key);
    case BuiltinsDel(key) => BuiltinsKeepInv(names, st, op, busy, key);
    case BuiltinsReplace(_, _) =>
    case Store(name, slot, value, result, during) =>
      var called := DictSet(names, Push(st, slot, Some(value)), name, value, result);
      StoreCallKeepsInv(names, st, name, slot, value, result, busy);
      StepsKeepInv(names, called, during, busy + {slot});
      FinishStoreKeepsInv(names, st, called, Steps(names, called, during), name, slot, value, result, busy);
    case Delete(name, slot, quietly, result, during) =>
      var called := DictDel(names, Push(st, slot, None), name, result);
      DeleteCallKeepsInv(names, st, name, slot, result, busy);
      StepsKeepInv(names, called, during, busy + {slot});
      FinishDeleteKeepsInv(names, st, called, Steps(names, called, during), name, slot, result,
                           quietly && !result.FailsOtherwise?, busy);
    case Load(name, slot) => LoadKeepsInv(names, st, name, slot, busy);
  }

  lemma LoadKeepsInv(names: seq<Name>, st: CacheState, name: Name, slot: nat, busy: set<nat>)
    requires ProperNames(names) && Inv(names, st, busy) && SlotFor(names, name) == Some(slot)
    ensures var after := Loaded(st, name, slot);
            Inv(names, after, busy) && after.pending == st.pending && BusyKept(names, st, after, busy)
  {
  }

  lemma {:induction false} StepsKeepInv(names: seq<Name>, st: CacheState, ops: seq<Op>, busy: set<nat>)
    requires ProperNames(names) && Inv(names, st, busy) && AllAllowed(names, ops, busy)
    ensures Inv(names, Steps(names, st, ops), busy)
    ensures Steps(names, st, ops).pending == st.pending && BusyKept(names, st, Steps(names, st, ops), busy)
    decreases ops
  {
    if ops != [] {
      StepKeepsInv(names, st, ops[0], busy);
      StepsKeepInv(names, Step(names, st, ops[0]), ops[1..], busy);
    }
  }

  // A change that leaves every slot outside `touched` and its lookup alone, and every touched slot right.
  lemma SlotsTouched(names: seq<Name>, st: CacheState, after: CacheState, touched: set<nat>, busy: set<nat>)
    requires Inv(names, st, busy) && WellFormed(names, after) && after.pending == st.pending
    requires forall i :: 0 <= i < |names| && i !in touched ==>
               after.slots[i] == st.slots[i] && Lookup(after, names[i]) == Lookup(st, names[i])
    requires forall i :: 0 <= i < |names| && i in touched ==> Coherent(names, after, i)
    requires forall i :: 0 <= i < |names| && i in busy ==> GlobalOf(st, names[i]) == GlobalOf(after, names[i])
    ensures Inv(names, after, busy) && BusyKept(names, st, after, busy)
  {
  }

  function SlotSet(slot: Option<nat>): set<nat> {
    if slot.Some? then {slot.value} else {}
  }

  // Another writer's change reaches the slot its key is read as, and no other.
  lemma ExternalKeepsInv(names: seq<Name>, st: CacheState, op: Op, busy: set<nat>, key: Key)
    requires ProperNames(names) && Inv(names, st, busy) && Allowed(names, op, busy)
    requires (op.ExternalSet? || op.ExternalDel?) && op.key == key
    ensures Inv(names, Step(names, st, op), busy)
    ensures Step(names, st, op).pending == st.pending && BusyKept(names, st, Step(names, st, op), busy)
  {
    hide SlotForKey, Push, Pop, ClearAll, Loaded, FinishStore, FinishDelete, DictSet, DictDel, AllAllowed, BusyKept, ProperNames;
    if key.StrKey? {
      OtherNames(names, key.name);
    }
    SlotsTouched(names, st, Step(names, st, op), SlotSet(SlotForKey(names, key)), busy);
  }

  lemma BuiltinsKeepInv(names: seq<Name>, st: CacheState, op: Op, busy: set<nat>, key: Key)
    requires ProperNames(names) && Inv(names, st, busy) && Allowed(names, op, busy)
    requires (op.BuiltinsSet? || op.BuiltinsDel?) && op.key == key
    ensures Inv(names, Step(names, st, op), busy)
    ensures Step(names, st, op).pending == st.pending && BusyKept(names, st, Step(names, st, op), busy)
  {
    hide SlotForKey, Push, Pop, ClearAll, Loaded, FinishStore, FinishDelete, DictSet, DictDel, AllAllowed, BusyKept, ProperNames;
    if key.StrKey? {
      OtherNames(names, key.name);
      var after, slot := Step(names, st, op), SlotForKey(names, key);
      SlotsTouched(names, st, after, if key.name in st.globals || after == st then {} else SlotSet(slot), busy);
    } else {
      SlotsTouched(names, st, Step(names, st, op), {}, busy);
    }
  }

  // A name is in its own slot only.
  lemma OtherNames(names: seq<Name>, name: Name)
    requires ProperNames(names)
    ensures forall i :: 0 <= i < |names| && names[i] == name ==> SlotFor(names, name) == Some(i) == SlotForKey(names, StrKey(name))
  {
    forall i | 0 <= i < |names| && names[i] == name
      ensures SlotFor(names, name) == Some(i) == SlotForKey(names, StrKey(name))
    {
      SlotForUnique(names, i);
    }
  }

  // A change to one name's globals and to its slot's stack leaves every other slot as it was.
  lemma OthersKept(names: seq<Name>, st: CacheState, called: CacheState, slot: nat, busy: set<nat>)
    requires ProperNames(names) && Inv(names, st, busy) && slot < |names| && slot !in busy
    requires called.slots == st.slots && called.builtins == st.builtins && |called.pending| == |names|
    requires forall i :: 0 <= i < |names| && i != slot ==> called.pending[i] == st.pending[i]
    requires forall n :: n != names[slot] ==> GlobalOf(called, n) == GlobalOf(st, n)
    ensures Inv(names, called, busy + {slot}) && BusyKept(names, st, called, busy)
  {
    forall i | 0 <= i < |names| && i != slot
      ensures GlobalOf(called, names[i]) == GlobalOf(st, names[i]) && Lookup(called, names[i]) == Lookup(st, names[i])
    {
      assert names[i] != names[slot];
    }
  }

  // The dict call of a store: its own event is consumed.
  lemma StoreCall(names: seq<Name>, st: CacheState, name: Name, slot: nat, value: Obj, result: SetResult)
    requires WellFormed(names, st) && SlotForKey(names, StrKey(name)) == Some(slot) && st.pending[slot] == [] && !result.WroteSilently?
    ensures DictSet(names, Push(st, slot, Some(value)), name, value, result)
            == CacheState(if result.Wrote? then st.globals[name := value] else st.globals, st.builtins, st.slots,
                          if result.FailedBeforeEvent? then st.pending[slot := [Some(value)]] else st.pending)
  {
    hide SlotForKey;
    var pushed := Push(st, slot, Some(value));
    assert st.pending[slot] + [Some(value)] == [Some(value)] && pushed.pending[slot][..0] == [];
    assert pushed.pending == st.pending[slot := [Some(value)]];
    assert pushed.pending[slot := []] == st.pending;
  }

  // And only its own name is written.
  lemma StoreCallKeepsInv(names: seq<Name>, st: CacheState, name: Name, slot: nat, value: Obj, result: SetResult, busy: set<nat>)
    requires ProperNames(names) && Inv(names, st, busy) && SlotFor(names, name) == Some(slot) && slot !in busy
    requires !result.WroteSilently?
    ensures var called := DictSet(names, Push(st, slot, Some(value)), name, value, result);
            && Inv(names, called, busy + {slot}) && BusyKept(names, st, called, busy)
            && called.slots == st.slots && called.builtins == st.builtins
            && called.globals == (if result.Wrote? then st.globals[name := value] else st.globals)
            && called.pending == (if result.FailedBeforeEvent? then st.pending[slot := [Some(value)]] else st.pending)
  {
    hide DictSet, Push, SlotFor, Coherent, BusyKept, DistinctNames, SlotForKey;
    SlotForUnique(names, slot);
    StoreCall(names, st, name, slot, value, result);
    OthersKept(names, st, DictSet(names, Push(st, slot, Some(value)), name, value, result), slot, busy);
  }

  lemma DeleteCall(names: seq<Name>, st: CacheState, name: Name, slot: nat, result: DelResult)
    requires WellFormed(names, st) && SlotForKey(names, StrKey(name)) == Some(slot) && st.pending[slot] == [] && !result.RemovesSilently?
    ensures DictDel(names, Push(st, slot, None), name, result)
            == if DelSucceeds(st, name, result) then st.(globals := st.globals - {name})
               else st.(pending := st.pending[slot := [None]])
  {
    hide SlotForKey;
    var pushed := Push(st, slot, None);
    assert st.pending[slot] + [None] == [None] && pushed.pending[slot][..0] == [];
    assert pushed.pending == st.pending[slot := [None]];
    assert pushed.pending[slot := []] == st.pending;
  }

  lemma DeleteCallKeepsInv(names: seq<Name>, st: CacheState, name: Name, slot: nat, result: DelResult, busy: set<nat>)
    requires ProperNames(names) && Inv(names, st, busy) && SlotFor(names, name) == Some(slot) && slot !in busy
    requires !result.RemovesSilently?
    ensures var called := DictDel(names, Push(st, slot, None), name, result);
            && Inv(names, called, busy + {slot}) && BusyKept(names, st, called, busy)
            && called.slots == st.slots && called.builtins == st.builtins
            && called.pending == (if DelSucceeds(st, name, result) then st.pending else st.pending[slot := [None]])
            && called.globals == (if DelSucceeds(st, name, result) then st.globals - {name} else st.globals)
  {
    hide DictDel, Push, SlotFor, Coherent, BusyKept, DistinctNames, SlotForKey;
    SlotForUnique(names, slot);
    DeleteCall(names, st, name, slot, result);
    OthersKept(names, st, DictDel(names, Push(st, slot, None), name, result), slot, busy);
  }

  // Finishing a write only changes its own slot and stack.
  lemma DoneElsewhere(names: seq<Name>, st: CacheState, called: CacheState, after: CacheState, done: CacheState,
                      slot: nat, busy: set<nat>)
    requires Inv(names, called, busy + {slot}) && WellFormed(names, st) && BusyKept(names, st, called, busy)
    requires Inv(names, after, busy + {slot}) && BusyKept(names, called, after, busy + {slot})
    requires WellFormed(names, done) && done.globals == after.globals && done.builtins == after.builtins
    requires forall i :: 0 <= i < |names| && i != slot ==> done.slots[i] == after.slots[i] && done.pending[i] == after.pending[i]
    requires slot !in busy
    ensures forall i :: 0 <= i < |names| && i !in busy && i != slot ==> Coherent(names, done, i) && done.pending[i] == []
    ensures BusyKept(names, st, done, busy)
  {
  }

  lemma BusyKeptAt(names: seq<Name>, a: CacheState, b: CacheState, busy: set<nat>, i: nat)
    requires WellFormed(names, a) && WellFormed(names, b) && BusyKept(names, a, b, busy) && i < |names| && i in busy
    ensures GlobalOf(a, names[i]) == GlobalOf(b, names[i]) && (Coherent(names, a, i) ==> Coherent(names, b, i))
  {
  }

  // The call's frame: what ran inside it left the name alone.
  lemma FinishStoreKeepsInv(names: seq<Name>, st: CacheState, called: CacheState, after: CacheState,
                            name: Name, slot: nat, value: Obj, result: SetResult, busy: set<nat>)
    requires ProperNames(names) && Inv(names, st, busy) && SlotFor(names, name) == Some(slot) && slot !in busy
    requires !result.WroteSilently? && called == DictSet(names, Push(st, slot, Some(value)), name, value, result)
    requires Inv(names, called, busy + {slot}) && BusyKept(names, st, called, busy)
    requires Inv(names, after, busy + {slot}) && BusyKept(names, called, after, busy + {slot}) && after.pending == called.pending
    ensures var done := FinishStore(after, slot, value, result);
            Inv(names, done, busy) && done.pending == st.pending && BusyKept(names, st, done, busy)
  {
    hide DictSet, Push, BusyKept;
    StoreCallKeepsInv(names, st, name, slot, value, result, busy);
    var done := FinishStore(after, slot, value, result);
    assert done.pending == st.pending;
    DoneElsewhere(names, st, called, after, done, slot, busy);
    BusyKeptAt(names, called, after, busy + {slot}, slot);
  }

  lemma FinishDeleteKeepsInv(names: seq<Name>, st: CacheState, called: CacheState, after: CacheState,
                             name: Name, slot: nat, result: DelResult, forgiven: bool, busy: set<nat>)
    requires ProperNames(names) && Inv(names, st, busy) && SlotFor(names, name) == Some(slot) && slot !in busy
    requires !result.RemovesSilently? && called == DictDel(names, Push(st, slot, None), name, result)
    requires Inv(names, called, busy + {slot}) && BusyKept(names, st, called, busy)
    requires Inv(names, after, busy + {slot}) && BusyKept(names, called, after, busy + {slot}) && after.pending == called.pending
    ensures var done := FinishDelete(after, slot, DelSucceeds(st, name, result), forgiven);
            Inv(names, done, busy) && done.pending == st.pending && BusyKept(names, st, done, busy)
  {
    hide DictDel, Push, BusyKept;
    DeleteCallKeepsInv(names, st, name, slot, result, busy);
    var done := FinishDelete(after, slot, DelSucceeds(st, name, result), forgiven);
    assert done.pending == st.pending;
    DoneElsewhere(names, st, called, after, done, slot, busy);
    BusyKeptAt(names, called, after, busy + {slot}, slot);
  }

  // ---- Refinement ----------------------------------------------------------

  // Over every allowed run from an empty cache: between operations nothing is pending, every slot is
  // empty or right, and so a cached load returns what a plain lookup returns.
  lemma CachedLoadRefinesLookup(names: seq<Name>, globals: Dict, builtins: Dict, ops: seq<Op>, slot: nat)
    requires ProperNames(names) && AllAllowed(names, ops, {}) && slot < |names|
    ensures var st := Steps(names, Initial(names, globals, builtins), ops);
            && WellFormed(names, st) && st.pending[slot] == [] && Coherent(names, st, slot)
            && LoadValue(st, names[slot], slot) == Lookup(st, names[slot])
  {
    StepsKeepInv(names, Initial(names, globals, builtins), ops, {});
  }

  // The same inside a dict call, for every name but those being written.
  lemma NestedLoadRefinesLookup(names: seq<Name>, st: CacheState, ops: seq<Op>, busy: set<nat>, slot: nat)
    requires ProperNames(names) && Inv(names, st, busy) && AllAllowed(names, ops, busy)
    requires slot < |names| && slot !in busy
    ensures var after := Steps(names, st, ops);
            WellFormed(names, after) && LoadValue(after, names[slot], slot) == Lookup(after, names[slot])
  {
    StepsKeepInv(names, st, ops, busy);
  }

  // ---- What the one-event hypothesis buys ----------------------------------

  // The state a store leaves, with nothing else running inside the dict call.
  function Stored(names: seq<Name>, st: CacheState, slot: nat, value: Obj, result: SetResult): CacheState
    requires slot < |names|
  {
    Step(names, st, Store(names[slot], slot, value, result, []))
  }

  function Removed(names: seq<Name>, st: CacheState, slot: nat, result: DelResult): CacheState
    requires slot < |names|
  {
    Step(names, st, Delete(names[slot], slot, false, result, []))
  }

  // Whatever is allowed to happen next, the slot stays empty or right.
  ghost predicate CoherentForever(names: seq<Name>, st: CacheState, slot: nat)
    requires slot < |names|
  {
    forall ops :: AllAllowed(names, ops, {}) ==>
      WellFormed(names, Steps(names, st, ops)) && Coherent(names, Steps(names, st, ops), slot)
  }

  lemma InvCoherentForever(names: seq<Name>, st: CacheState, slot: nat)
    requires ProperNames(names) && Inv(names, st, {}) && slot < |names|
    ensures CoherentForever(names, st, slot)
  {
    forall ops | AllAllowed(names, ops, {})
      ensures WellFormed(names, Steps(names, st, ops)) && Coherent(names, Steps(names, st, ops), slot)
    {
      StepsKeepInv(names, st, ops, {});
    }
  }

  lemma AllowedPair(names: seq<Name>, a: Op, b: Op)
    requires Allowed(names, a, {}) && Allowed(names, b, {})
    ensures AllAllowed(names, [a, b], {})
  {
  }

  lemma Steps2(names: seq<Name>, st: CacheState, a: Op, b: Op)
    ensures Steps(names, st, [a, b]) == Step(names, Step(names, st, a), b)
  {
    var first := Step(names, st, a);
    assert [a, b][1..] == [b];
    assert Steps(names, first, [b]) == Steps(names, Step(names, first, b), []);
  }

  // An external write either updates the slot, or is taken for the cache's own and ignored.
  lemma ExternalSetCases(names: seq<Name>, st: CacheState, slot: nat, value: Obj)
    requires WellFormed(names, st) && slot < |names| && SlotForKey(names, StrKey(names[slot])) == Some(slot)
    ensures var after := Step(names, st, ExternalSet(StrKey(names[slot]), value));
            after == (if Expects(st, slot, Some(value)) then Pop(st, slot, Some(value)) else SetSlot(st, slot, Some(value)))
                     .(globals := st.globals[names[slot] := value])
  {
  }

  lemma ExternalDelCases(names: seq<Name>, st: CacheState, slot: nat)
    requires WellFormed(names, st) && slot < |names| && SlotForKey(names, StrKey(names[slot])) == Some(slot) && names[slot] in st.globals
    ensures var after := Step(names, st, ExternalDel(StrKey(names[slot])));
            after == (if Expects(st, slot, None) then Pop(st, slot, None) else SetSlot(st, slot, None))
                     .(globals := st.globals - {names[slot]})
  {
  }

  lemma SilentStore(names: seq<Name>, st: CacheState, slot: nat, value: Obj)
    requires WellFormed(names, st) && slot < |names| && st.pending[slot] == []
    ensures Stored(names, st, slot, value, WroteSilently)
            == CacheState(st.globals[names[slot] := value], st.builtins, st.slots[slot := Some(value)], st.pending[slot := [Some(value)]])
  {
    assert st.pending[slot] + [Some(value)] == [Some(value)];
    var called := Push(st, slot, Some(value)).(globals := st.globals[names[slot] := value]);
    assert DictSet(names, Push(st, slot, Some(value)), names[slot], value, WroteSilently) == called;
    assert Steps(names, called, []) == called;
  }

  lemma SilentDelete(names: seq<Name>, st: CacheState, slot: nat)
    requires WellFormed(names, st) && slot < |names| && st.pending[slot] == [] && names[slot] in st.globals
    ensures Removed(names, st, slot, RemovesSilently)
            == CacheState(st.globals - {names[slot]}, st.builtins, st.slots[slot := None], st.pending[slot := [None]])
  {
    assert st.pending[slot] + [None] == [None];
    var called := Push(st, slot, None).(globals := st.globals - {names[slot]});
    assert DictDel(names, Push(st, slot, None), names[slot], RemovesSilently) == called;
    assert Steps(names, called, []) == called;
  }

  // A store the watcher hears nothing about leaves its expectation behind: after it, writing another
  // value and then the stored one from outside leaves the slot with the other value.
  lemma SilentStoreGoesStale(names: seq<Name>, st: CacheState, slot: nat, value: Obj, other: Obj)
    requires ProperNames(names) && Inv(names, st, {}) && slot < |names| && other != value
    ensures var key := StrKey(names[slot]);
            var after := Steps(names, Stored(names, st, slot, value, WroteSilently),
                               [ExternalSet(key, other), ExternalSet(key, value)]);
            WellFormed(names, after) && after.slots[slot] == Some(other) && Lookup(after, names[slot]) == Some(value)
  {
    hide Step, Steps, Stored, SlotForKey, Allowed;
    SlotForUnique(names, slot);
    var key := StrKey(names[slot]);
    var stored := Stored(names, st, slot, value, WroteSilently);
    SilentStore(names, st, slot, value);
    ExternalSetCases(names, stored, slot, other);
    ExternalSetCases(names, Step(names, stored, ExternalSet(key, other)), slot, value);
    Steps2(names, stored, ExternalSet(key, other), ExternalSet(key, value));
  }

  // After a store, the slot is right in every allowed future exactly when the store was not silent.
  lemma StoreStaysCoherentExactly(names: seq<Name>, st: CacheState, slot: nat, value: Obj, result: SetResult)
    requires ProperNames(names) && Inv(names, st, {}) && slot < |names|
    ensures !result.WroteSilently? <==>
              CoherentForever(names, Stored(names, st, slot, value, result), slot)
  {
    SlotForUnique(names, slot);
    if result.WroteSilently? {
      var key := StrKey(names[slot]);
      SilentStoreGoesStale(names, st, slot, value, value + 1);
      var ops := [ExternalSet(key, value + 1), ExternalSet(key, value)];
      AllowedPair(names, ops[0], ops[1]);
    } else {
      StepKeepsInv(names, st, Store(names[slot], slot, value, result, []), {});
      InvCoherentForever(names, Stored(names, st, slot, value, result), slot);
    }
  }

  // The same for deletes: a silent one swallows the event of a later external delete.
  lemma SilentDeleteGoesStale(names: seq<Name>, st: CacheState, slot: nat, value: Obj)
    requires ProperNames(names) && Inv(names, st, {}) && slot < |names| && names[slot] in st.globals
    ensures var key := StrKey(names[slot]);
            var after := Steps(names, Removed(names, st, slot, RemovesSilently), [ExternalSet(key, value), ExternalDel(key)]);
            WellFormed(names, after) && after.slots[slot] == Some(value) && names[slot] !in after.globals
            && after.builtins == st.builtins
  {
    hide Step, Steps, Removed, SlotForKey, Allowed;
    SlotForUnique(names, slot);
    var key := StrKey(names[slot]);
    var removed := Removed(names, st, slot, RemovesSilently);
    SilentDelete(names, st, slot);
    ExternalSetCases(names, removed, slot, value);
    ExternalDelCases(names, Step(names, removed, ExternalSet(key, value)), slot);
    Steps2(names, removed, ExternalSet(key, value), ExternalDel(key));
  }

  lemma DeleteStaysCoherentExactly(names: seq<Name>, st: CacheState, slot: nat, result: DelResult)
    requires ProperNames(names) && Inv(names, st, {}) && slot < |names| && names[slot] in st.globals
    ensures !result.RemovesSilently? <==>
              CoherentForever(names, Removed(names, st, slot, result), slot)
  {
    SlotForUnique(names, slot);
    if result.RemovesSilently? {
      var key := StrKey(names[slot]);
      var value := if names[slot] in st.builtins then st.builtins[names[slot]] + 1 else 0;
      SilentDeleteGoesStale(names, st, slot, value);
      var ops := [ExternalSet(key, value), ExternalDel(key)];
      AllowedPair(names, ops[0], ops[1]);
    } else {
      StepKeepsInv(names, st, Delete(names[slot], slot, false, result, []), {});
      InvCoherentForever(names, Removed(names, st, slot, result), slot);
    }
  }

  // ---- A dict that announces every change ----------------------------------

  // What a store does to a dict that announces a write exactly when it puts a different object in place.
  function AnnouncedStore(st: CacheState, name: Name, value: Obj): SetResult {
    if GlobalOf(st, name) == Some(value) then WroteSilently else Wrote
  }

  // With such a dict the slot is right in every allowed future if and only if the global did not hold that very
  // object before the store.
  lemma StoreOfNewObjectExactly(names: seq<Name>, st: CacheState, slot: nat, value: Obj)
    requires ProperNames(names) && Inv(names, st, {}) && slot < |names|
    ensures GlobalOf(st, names[slot]) != Some(value) <==>
              CoherentForever(names, Stored(names, st, slot, value, AnnouncedStore(st, names[slot], value)), slot)
  {
    hide CoherentForever, Inv, Stored;
    StoreStaysCoherentExactly(names, st, slot, value, AnnouncedStore(st, names[slot], value));
  }

  // It announces every delete of a name it holds, so after a delete the slot is always right.
  lemma AnnouncedDeleteStaysCoherent(names: seq<Name>, st: CacheState, slot: nat)
    requires ProperNames(names) && Inv(names, st, {}) && slot < |names| && names[slot] in st.globals
    ensures CoherentForever(names, Removed(names, st, slot, Removes), slot)
  {
    hide CoherentForever, Inv, Removed;
    DeleteStaysCoherentExactly(names, st, slot, Removes);
  }

  // ---- What each operation leaves in its slot ------------------------------

  // A store that succeeds leaves its value in the slot, whatever ran inside the dict call, so the next load is a hit;
  // a delete that removed the name leaves the slot empty; a load that found something leaves that.
  lemma StoreFillsSlot(names: seq<Name>, st: CacheState, name: Name, slot: nat, value: Obj, result: SetResult, during: seq<Op>)
    requires slot < |st.slots| && (result.Wrote? || result.WroteSilently?)
    ensures var after := Step(names, st, Store(name, slot, value, result, during));
            slot < |after.slots| && after.slots[slot] == Some(value) && LoadValue(after, name, slot) == Some(value)
  {
    hide Steps, DictSet, Push;
    CallsKeepWidth(names, st, name, slot, Some(value), value, result, Removes);
    StepsKeepWidth(names, DictSet(names, Push(st, slot, Some(value)), name, value, result), during);
  }

  lemma DeleteEmptiesSlot(names: seq<Name>, st: CacheState, name: Name, slot: nat, quietly: bool, result: DelResult, during: seq<Op>)
    requires slot < |st.slots| && name in st.globals && !result.FailsOtherwise?
    ensures var after := Step(names, st, Delete(name, slot, quietly, result, during));
            slot < |after.slots| && after.slots[slot] == None
  {
    hide Steps, DictDel, Push;
    CallsKeepWidth(names, st, name, slot, None, 0, Wrote, result);
    StepsKeepWidth(names, DictDel(names, Push(st, slot, None), name, result), during);
  }

  lemma LoadFillsSlot(names: seq<Name>, st: CacheState, name: Name, slot: nat)
    requires slot < |st.slots|
    ensures Step(names, st, Load(name, slot)) == st.(slots := st.slots[slot := LoadValue(st, name, slot)])
  {
    assert st.slots[slot := st.slots[slot]] == st.slots;
  }

  // No operation adds or removes slots.
  lemma {:induction false} StepKeepsWidth(names: seq<Name>, st: CacheState, op: Op)
    ensures |Step(names, st, op).slots| == |st.slots|
    decreases op
  {
    hide Steps, DictSet, DictDel, Push, GlobalsEvent, BuiltinsEvent;
    EventsKeepWidth(names, st);
    match op
    case Store(name, slot, value, result, during) =>
      CallsKeepWidth(names, st, name, slot, Some(value), value, result, Removes);
      StepsKeepWidth(names, DictSet(names, Push(st, slot, Some(value)), name, value, result), during);
    case Delete(name, slot, _, result, during) =>
      CallsKeepWidth(names, st, name, slot, None, 0, Wrote, result);
      StepsKeepWidth(names, DictDel(names, Push(st, slot, None), name, result), during);
    case _ =>
  }

  lemma EventsKeepWidth(names: seq<Name>, st: CacheState)
    ensures forall event, key, value :: |GlobalsEvent(names, st, event, key, value).slots| == |st.slots|
    ensures forall event, key :: |BuiltinsEvent(names, st, event, key).slots| == |st.slots|
  {
  }

  lemma CallsKeepWidth(names: seq<Name>, st: CacheState, name: Name, slot: nat, expected: Option<Obj>, value: Obj,
                       setResult: SetResult, delResult: DelResult)
    ensures var pushed := Push(st, slot, expected);
            && pushed.globals == st.globals
            && |DictSet(names, pushed, name, value, setResult).slots| == |st.slots|
            && |DictDel(names, pushed, name, delResult).slots| == |st.slots|
  {
    hide GlobalsEvent;
    EventsKeepWidth(names, Push(st, slot, expected));
  }

  lemma {:induction false} StepsKeepWidth(names: seq<Name>, st: CacheState, ops: seq<Op>)
    ensures |Steps(names, st, ops).slots| == |st.slots|
    decreases ops
  {
    if ops != [] {
      StepKeepsWidth(names, st, ops[0]);
      StepsKeepWidth(names, Step(names, st, ops[0]), ops[1..]);
    }
  }

  // ---- The window inside a write -------------------------------------------

  // Code that runs inside a store's dict call and loads the name being stored gets the new value
  // exactly when the slot was empty or already held it: the slot changes only after the call.
  lemma LoadInsideStoreExactly(names: seq<Name>, st: CacheState, slot: nat, value: Obj)
    requires ProperNames(names) && Inv(names, st, {}) && slot < |names|
    ensures var inside := DictSet(names, Push(st, slot, Some(value)), names[slot], value, Wrote);
            LoadValue(inside, names[slot], slot) == Lookup(inside, names[slot])
            <==> st.slots[slot] in {None, Some(value)}
  {
  }

  // Code that runs inside a delete's dict call and loads the name being deleted gets what a lookup now
  // returns exactly when the slot was empty or the builtins hold the very object it holds.
  lemma LoadInsideDeleteExactly(names: seq<Name>, st: CacheState, slot: nat)
    requires ProperNames(names) && Inv(names, st, {}) && slot < |names| && names[slot] in st.globals
    ensures var inside := DictDel(names, Push(st, slot, None), names[slot], Removes);
            LoadValue(inside, names[slot], slot) == Lookup(inside, names[slot])
            <==> st.slots[slot].None?
                 || (names[slot] in st.builtins && st.builtins[names[slot]] == st.slots[slot].value)
  {
    SlotForUnique(names, slot);
    DeleteCallKeepsInv(names, st, names[slot], slot, Removes, {});
    var inside := DictDel(names, Push(st, slot, None), names[slot], Removes);
    hide DictDel, Inv, DistinctNames;
    assert Lookup(inside, names[slot]) == if names[slot] in st.builtins then Some(st.builtins[names[slot]]) else None;
  }

  // ---- Keys and names with a NUL -------------------------------------------

  // Other code sets a global whose key is read as a tracked name: the slot is right afterwards if and only if the
  // key is that name, or the value is what a lookup of that name returns anyway.
  lemma SetReadAsNameExactly(names: seq<Name>, st: CacheState, key: Name, value: Obj, slot: nat)
    requires ProperNames(names) && Inv(names, st, {}) && SlotForKey(names, StrKey(key)) == Some(slot)
    ensures var after := Step(names, st, ExternalSet(StrKey(key), value));
            && WellFormed(names, after)
            && (Coherent(names, after, slot) <==> key == names[slot] || Lookup(st, names[slot]) == Some(value))
            && (Coherent(names, after, slot) ==> Inv(names, after, {}))
  {
    hide SlotForKey;
    SetReadAsName(names, st, key, value, slot);
    OtherNames(names, key);
  }

  lemma SetReadAsName(names: seq<Name>, st: CacheState, key: Name, value: Obj, slot: nat)
    requires Inv(names, st, {}) && SlotForKey(names, StrKey(key)) == Some(slot)
    ensures Step(names, st, ExternalSet(StrKey(key), value))
            == SetSlot(st, slot, Some(value)).(globals := st.globals[key := value])
  {
    hide SlotForKey;
  }

  // So a key with a NUL after a tracked name makes a load of that name return what no lookup does.
  lemma NulKeyMisleads(names: seq<Name>, st: CacheState, key: Name, value: Obj, slot: nat)
    requires ProperNames(names) && Inv(names, st, {}) && SlotForKey(names, StrKey(key)) == Some(slot)
    requires key != names[slot] && Lookup(st, names[slot]) != Some(value)
    ensures var after := Step(names, st, ExternalSet(StrKey(key), value));
            LoadValue(after, names[slot], slot) == Some(value) && Lookup(after, names[slot]) == Lookup(st, names[slot])
  {
    hide SlotForKey;
    SetReadAsName(names, st, key, value, slot);
  }

  lemma NulKeyExample()
    ensures var names, run := ["x"], [ExternalSet(StrKey("x\0y"), 5)];
            var after := Steps(names, Initial(names, map[], map[]), run);
            ProperNames(names) && LoadValue(after, "x", 0) == Some(5) && Lookup(after, "x") == None
  {
    var names, op := ["x"], ExternalSet(StrKey("x\0y"), 5);
    var st := Initial(names, map[], map[]);
    assert names[0] == "x" && "x\0y"[1..] == "\0y" && CutAtNul("\0y") == "";
    assert CutAtNul("x\0y") == "x";
    SlotForUnique(names, 0);
    NulKeyMisleads(names, st, "x\0y", 5, 0);
    assert Steps(names, Step(names, st, op), [op][1..]) == Step(names, st, op);
  }

  // The cache's own write to a slot is recognised if and only if the slot's name has no NUL: the announcement of
  // any other name is read as some other name, and the expectation stays pending.
  lemma OwnWriteRecognisedExactly(names: seq<Name>, st: CacheState, slot: nat, value: Obj)
    requires DistinctNames(names) && Inv(names, st, {}) && slot < |names|
    ensures DictSet(names, Push(st, slot, Some(value)), names[slot], value, Wrote).pending[slot] == []
            <==> NulFree(names[slot])
  {
    var pushed := Push(st, slot, Some(value));
    assert pushed.pending[slot] == [Some(value)];
    var read := SlotForKey(names, StrKey(names[slot]));
    if NulFree(names[slot]) {
      assert SlotFor(names, names[slot]) == Some(slot);
    } else {
      assert read.Some? ==> read.value != slot;
    }
    hide SlotForKey, SlotFor, CutAtNul, DistinctNames;
  }
}
