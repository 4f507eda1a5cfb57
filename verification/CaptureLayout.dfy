/** Storage layouts of callables: what each captures from its maker
    (`soac-blockpy/src/passes/name_binding.rs`, `soac-blockpy/src/block_py/scope.rs`). */
module CaptureLayout {
  import opened Prelude
  import opened NameOrder

  type FunctionId = nat

  datatype SlotInit = InheritedCapture | ParameterInit | DeletedSentinel

  datatype Slot = Slot(logicalName: Name, storageName: Name, init: SlotInit)

  datatype Layout = Layout(freevars: seq<Slot>, cellvars: seq<Slot>)

  // A callable as name binding sees it. The name lookups of its scope are taken as given.
  datatype Callable = Callable(
    preset: Option<Layout>,
    isClass: bool,
    params: set<Name>,
    capturedNames: seq<Name>,
    cellRefNames: seq<Name>,
    ownedCells: seq<Name>,
    captureSource: Name -> Name,
    cellStorage: Name -> Name,
    logicalForSource: Name -> Option<Name>,
    logicalForStorage: Name -> Option<Name>,
    callees: seq<FunctionId>)

  type Module = map<FunctionId, Callable>

  predicate IsRuntimeName(name: Name) {
    name in {"_dp_pc", "_dp_yieldfrom", "_dp_throw_context"} || "_dp_try_abrupt_kind_" <= name
  }

  // ---- Layouts -------------------------------------------------------------

  function LogicalOfCell(c: Callable, storage: Name): Name {
    match c.logicalForStorage(storage)
    case Some(n) => n
    case None => storage
  }

  function Normalized(c: Callable, name: Name): Name {
    match c.logicalForSource(name)
    case Some(n) => n
    case None => LogicalOfCell(c, name)
  }

  function NormalizedAll(c: Callable, names: seq<Name>): (r: seq<Name>)
    ensures |r| == |names|
  {
    if names == [] then [] else [Normalized(c, names[0])] + NormalizedAll(c, names[1..])
  }

  // A cell reference captures its name unless the name is runtime-managed, a parameter or owned here.
  predicate CapturesRef(c: Callable, name: Name) {
    !IsRuntimeName(name) && name !in c.params && c.captureSource(name) !in c.ownedCells
  }

  function CapturedRefs(c: Callable, names: seq<Name>): seq<Name> {
    if names == [] then []
    else (if CapturesRef(c, names[0]) then [names[0]] else []) + CapturedRefs(c, names[1..])
  }

  // The names a callable captures for itself.
  function ScopeCaptures(c: Callable): (r: seq<Name>)
    ensures Ascending(r)
  {
    SortDedup(NormalizedAll(c, c.capturedNames) + CapturedRefs(c, NormalizedAll(c, c.cellRefNames)))
  }

  function LocalCells(c: Callable, storageNames: seq<Name>): seq<Name> {
    if storageNames == [] then []
    else (if IsRuntimeName(LogicalOfCell(c, storageNames[0])) then [] else [storageNames[0]]) + LocalCells(c, storageNames[1..])
  }

  function FreeSlots(c: Callable, names: seq<Name>): (r: seq<Slot>)
    ensures |r| == |names|
    ensures forall i :: 0 <= i < |r| ==> r[i] == Slot(names[i], c.cellStorage(names[i]), InheritedCapture)
  {
    seq(|names|, i requires 0 <= i < |names| => Slot(names[i], c.cellStorage(names[i]), InheritedCapture))
  }

  function CellSlot(c: Callable, storage: Name): Slot {
    var logical := LogicalOfCell(c, storage);
    Slot(logical, storage, if logical in c.params then ParameterInit else DeletedSentinel)
  }

  function CellSlots(c: Callable, storageNames: seq<Name>): (r: seq<Slot>)
    ensures |r| == |storageNames|
    ensures forall i :: 0 <= i < |r| ==> r[i] == CellSlot(c, storageNames[i])
  {
    seq(|storageNames|, i requires 0 <= i < |storageNames| => CellSlot(c, storageNames[i]))
  }

  // The cells a callable owns, other than runtime-managed ones.
  function OwnCells(c: Callable): seq<Slot> {
    CellSlots(c, LocalCells(c, SortDedup(c.ownedCells)))
  }

  function BuildLayout(c: Callable, captureNames: seq<Name>): Option<Layout> {
    var names := SortDedup(captureNames);
    if names == [] && OwnCells(c) == [] then None
    else Some(Layout(FreeSlots(c, names), OwnCells(c)))
  }

  function ScopeLayout(c: Callable): Option<Layout> {
    BuildLayout(c, ScopeCaptures(c))
  }

  function LogicalNames(slots: seq<Slot>): (r: seq<Name>)
    ensures |r| == |slots| && forall i :: 0 <= i < |r| ==> r[i] == slots[i].logicalName
  {
    seq(|slots|, i requires 0 <= i < |slots| => slots[i].logicalName)
  }

  function Freevars(layout: Option<Layout>): seq<Slot> {
    if layout.Some? then layout.value.freevars else []
  }

  function Cellvars(layout: Option<Layout>): seq<Slot> {
    if layout.Some? then layout.value.cellvars else []
  }

  // One of these cells is the name's: by its logical name, or by the storage its capture would read.
  predicate InCells(c: Callable, cells: seq<Slot>, name: Name) {
    exists i :: 0 <= i < |cells| && (cells[i].logicalName == name || cells[i].storageName == c.captureSource(name))
  }

  predicate Owns(c: Callable, name: Name) {
    InCells(c, Cellvars(ScopeLayout(c)), name)
  }

  // What a callee captures that its maker does not own, and so must capture in turn.
  function PassedOn(c: Callable, freevars: seq<Slot>): seq<Name> {
    if freevars == [] then []
    else
      var last := freevars[|freevars| - 1].logicalName;
      PassedOn(c, freevars[..|freevars| - 1]) + (if Owns(c, last) then [] else [last])
  }

  // The MakeFunction graph is acyclic, as witnessed by a rank, and every callee is in the module.
  // The callees of a callable whose layout is preset are not looked at.
  ghost predicate Ranked(m: Module, rank: FunctionId -> nat) {
    forall id, callee :: id in m && m[id].preset.None? && callee in m[id].callees ==> callee in m && rank(callee) < rank(id)
  }

  // ---- The direct definition -----------------------------------------------

  ghost function LayoutOf(m: Module, rank: FunctionId -> nat, id: FunctionId): Option<Layout>
    requires id in m && Ranked(m, rank)
    decreases rank(id), 1, 0
  {
    if m[id].preset.Some? then m[id].preset
    else BuildLayout(m[id], ScopeCaptures(m[id]) + CalleeNeeds(m, rank, id, |m[id].callees|))
  }

  // What the first `n` callees make their maker capture.
  ghost function CalleeNeeds(m: Module, rank: FunctionId -> nat, id: FunctionId, n: nat): seq<Name>
    requires id in m && Ranked(m, rank) && m[id].preset.None? && n <= |m[id].callees|
    decreases rank(id), 0, n
  {
    if n == 0 then []
    else
      var callee := m[id].callees[n - 1];
      assert callee in m[id].callees;
      CalleeNeeds(m, rank, id, n - 1) + PassedOn(m[id], Freevars(LayoutOf(m, rank, callee)))
  }

  // ---- The memoised search -------------------------------------------------

  // Every callee of a callable whose layout is to be computed is in the module; the search panics otherwise.
  ghost predicate CalleesPresent(m: Module) {
    forall id, callee :: id in m && m[id].preset.None? && callee in m[id].callees ==> callee in m
  }

  ghost predicate HasChain(m: Module, id: FunctionId, name: Name) {
    exists path :: CaptureChain(m, path, name) && path[0] == id
  }

  // What the slots of a computed layout are. Freevars, in ascending order, are inherited and stored where the scope
  // keeps the name. Cellvars, in ascending order of storage, are the owned cells but for the runtime-managed ones; each
  // bears the scope's name for its storage, or else the storage's own; it starts from the parameter of that name if
  // there is one, and deleted otherwise.
  ghost predicate SlotsRight(c: Callable, layout: Option<Layout>) {
    && (layout.Some? ==> layout.value.freevars != [] || layout.value.cellvars != [])
    && Ascending(LogicalNames(Freevars(layout)))
    && (forall i :: 0 <= i < |Freevars(layout)| ==>
          Freevars(layout)[i].init == InheritedCapture
          && Freevars(layout)[i].storageName == c.cellStorage(Freevars(layout)[i].logicalName))
    && (forall i, j :: 0 <= i < j < |Cellvars(layout)| ==> Below(Cellvars(layout)[i].storageName, Cellvars(layout)[j].storageName))
    && (forall i :: 0 <= i < |Cellvars(layout)| ==> CellvarRight(c, Cellvars(layout)[i]))
    && forall s :: s in c.ownedCells && !RuntimeManaged(c, s) ==>
         exists i :: 0 <= i < |Cellvars(layout)| && Cellvars(layout)[i].storageName == s
  }

  predicate CellvarRight(c: Callable, slot: Slot) {
    && slot.storageName in c.ownedCells && !RuntimeManaged(c, slot.storageName)
    && (c.logicalForStorage(slot.storageName).Some? ==> slot.logicalName == c.logicalForStorage(slot.storageName).value)
    && (c.logicalForStorage(slot.storageName).None? ==> slot.logicalName == slot.storageName)
    && (slot.logicalName in c.params ==> slot.init == ParameterInit)
    && (slot.logicalName !in c.params ==> slot.init == DeletedSentinel)
  }

  predicate RuntimeManaged(c: Callable, storage: Name) {
    match c.logicalForStorage(storage)
    case Some(n) => IsRuntimeName(n)
    case None => IsRuntimeName(storage)
  }

  // A layout that is right on any graph, cycles included, as far as it goes: it captures what the scope does, and
  // nothing that no chain of makers asks for. A preset is kept.
  ghost predicate Supported(m: Module, id: FunctionId, layout: Option<Layout>)
    requires id in m
  {
    && (m[id].preset.Some? ==> layout == m[id].preset)
    && (m[id].preset.None? ==> SlotsRight(m[id], layout))
    && (m[id].preset.None? ==> forall n :: n in ScopeCaptures(m[id]) ==> n in LogicalNames(Freevars(layout)))
    && forall n :: n in LogicalNames(Freevars(layout)) ==> HasChain(m, id, n)
  }

  ghost predicate AllChained(m: Module, id: FunctionId, names: seq<Name>) {
    forall n :: n in names ==> HasChain(m, id, n)
  }

  ghost predicate MemoSupported(m: Module, memo: map<FunctionId, Option<Layout>>) {
    forall id :: id in memo ==> id in m && Supported(m, id, memo[id])
  }

  ghost predicate MemoRight(m: Module, rank: FunctionId -> nat, memo: map<FunctionId, Option<Layout>>)
    requires Ranked(m, rank)
  {
    forall id :: id in memo ==> id in m && memo[id] == LayoutOf(m, rank, id)
  }

  lemma OwnChain(m: Module, id: FunctionId, name: Name)
    requires id in m && CapturesItself(m[id], name)
    ensures HasChain(m, id, name)
  {
    assert CaptureChain(m, [id], name);
  }

  lemma LongerChain(m: Module, id: FunctionId, callee: FunctionId, name: Name)
    requires id in m && m[id].preset.None? && callee in m[id].callees && !Owns(m[id], name) && HasChain(m, callee, name)
    ensures HasChain(m, id, name)
  {
    hide Owns;
    var path :| CaptureChain(m, path, name) && path[0] == callee;
    assert ([id] + path)[1..] == path;
    assert CaptureChain(m, [id] + path, name);
  }

  lemma PresetSupported(m: Module, id: FunctionId)
    requires id in m && m[id].preset.Some?
    ensures Supported(m, id, m[id].preset)
  {
    forall n | n in LogicalNames(Freevars(m[id].preset))
      ensures HasChain(m, id, n)
    {
      OwnChain(m, id, n);
    }
  }

  // A layout built from the scope's captures and chained needs.
  lemma BuiltSupported(m: Module, id: FunctionId, needs: seq<Name>)
    requires id in m && m[id].preset.None? && AllChained(m, id, needs)
    ensures Supported(m, id, BuildLayout(m[id], ScopeCaptures(m[id]) + needs))
  {
    BuiltNames(m[id], ScopeCaptures(m[id]) + needs);
    BuiltRight(m[id], ScopeCaptures(m[id]) + needs);
    hide SlotsRight, BuildLayout, ScopeCaptures, HasChain;
    forall n | n in ScopeCaptures(m[id]) + needs
      ensures HasChain(m, id, n)
    {
      if n in ScopeCaptures(m[id]) {
        OwnChain(m, id, n);
      }
    }
  }

  lemma BuiltRight(c: Callable, names: seq<Name>)
    ensures SlotsRight(c, BuildLayout(c, names))
  {
    hide OwnCells, SortDedup, Ascending, CellvarRight, RuntimeManaged, Below;
    var layout := BuildLayout(c, names);
    BuiltNames(c, names);
    CellsAscend(c);
    forall s | s in c.ownedCells && !RuntimeManaged(c, s)
      ensures exists i :: 0 <= i < |OwnCells(c)| && OwnCells(c)[i].storageName == s
    {
      OwnCellsExactly(c, s);
    }
    forall i | 0 <= i < |OwnCells(c)|
      ensures CellvarRight(c, OwnCells(c)[i])
    {
      OwnCellRight(c, i);
    }
    assert Cellvars(layout) == OwnCells(c) && Ascending(LogicalNames(Freevars(layout)));
  }

  lemma OwnCellRight(c: Callable, i: nat)
    requires i < |OwnCells(c)|
    ensures CellvarRight(c, OwnCells(c)[i])
  {
    hide OwnCells, RuntimeManaged;
    OwnCellsExactly(c, OwnCells(c)[i].storageName);
  }

  // Leaving cells out keeps the order.
  lemma CellsAscend(c: Callable)
    ensures forall i, j :: 0 <= i < j < |OwnCells(c)| ==> Below(OwnCells(c)[i].storageName, OwnCells(c)[j].storageName)
  {
    LocalCellsAscend(c, SortDedup(c.ownedCells));
  }

  lemma {:induction false} LocalCellsAscend(c: Callable, names: seq<Name>)
    requires Ascending(names)
    ensures Ascending(LocalCells(c, names))
  {
    hide IsRuntimeName, LogicalOfCell, Below;
    if names != [] {
      assert forall i, j :: 0 <= i < j < |names[1..]| ==> names[1..][i] == names[i + 1] && names[1..][j] == names[j + 1];
      LocalCellsAscend(c, names[1..]);
      var rest := LocalCells(c, names[1..]);
      forall k | 0 <= k < |rest|
        ensures Below(names[0], rest[k])
      {
        InLocalCells(c, names[1..], rest[k]);
        assert rest[k] in rest && rest[k] in names[1..];
        var i :| 0 <= i < |names[1..]| && names[1..][i] == rest[k];
        assert names[i + 1] == rest[k];
      }
    }
  }

  lemma PassedChained(m: Module, id: FunctionId, callee: FunctionId, layout: Option<Layout>)
    requires id in m && m[id].preset.None? && callee in m[id].callees && callee in m && Supported(m, callee, layout)
    ensures AllChained(m, id, PassedOn(m[id], Freevars(layout)))
  {
    hide Owns, PassedOn, HasChain, ScopeCaptures;
    forall n | n in PassedOn(m[id], Freevars(layout))
      ensures HasChain(m, id, n)
    {
      InPassedOn(m[id], Freevars(layout), n);
      LongerChain(m, id, callee, n);
    }
  }

  class LayoutSolver {
    const callables: Module
    var memo: map<FunctionId, Option<Layout>>
    var visiting: set<FunctionId>

    constructor (callables: Module)
      ensures this.callables == callables && memo == map[] && visiting == {}
    {
      this.callables := callables;
      memo, visiting := map[], {};
    }

    // What was computed before is supported and, on an acyclic graph, right.
    ghost predicate Valid(rank: FunctionId -> nat)
      reads this
    {
      && CalleesPresent(callables) && visiting <= callables.Keys && MemoSupported(callables, memo)
      && (Ranked(callables, rank) ==> MemoRight(callables, rank, memo))
    }

    // Terminates with a supported layout on any graph. On an acyclic one, whatever was computed before, the
    // answer is the directly defined layout.
    method ComputeLayout(id: FunctionId, ghost rank: FunctionId -> nat) returns (layout: Option<Layout>)
      requires id in callables && Valid(rank)
      requires Ranked(callables, rank) ==> forall v :: v in visiting ==> rank(v) > rank(id)
      modifies this
      ensures Valid(rank) && visiting == old(visiting)
      ensures Supported(callables, id, layout)
      ensures Ranked(callables, rank) ==> layout == LayoutOf(callables, rank, id)
      ensures memo.Keys >= old(memo).Keys && (id !in visiting ==> id in memo && memo[id] == layout)
      decreases |callables.Keys - visiting|, 0
    {
      hide Ranked, Supported, LayoutOf, BuildLayout, ScopeLayout, MemoSupported, MemoRight, CalleesPresent, AllChained, ScopeCaptures;
      if id in memo {
        Remembered(callables, rank, memo, id);
        return memo[id];
      }
      var callable := callables[id];
      RankedLayout(callables, rank, id);
      if callable.preset.Some? {
        PresetSupported(callables, id);
        Remember(callables, rank, memo, id, callable.preset);
        memo := memo[id := callable.preset];
        return callable.preset;
      }
      if id in visiting {
        ScopeSupported(callables, id);
        return ScopeLayout(callable);
      }
      ghost var before := visiting;
      visiting := visiting + {id};
      FewerUnvisited(callables.Keys, before, id);
      var needs := CollectNeeds(id, rank);
      visiting := visiting - {id};
      assert visiting == before;
      layout := BuildLayout(callable, LogicalNames(Freevars(ScopeLayout(callable))) + needs);
      ScopeNames(callable, needs);
      BuiltSupported(callables, id, needs);
      Remember(callables, rank, memo, id, layout);
      memo := memo[id := layout];
    }

    method CollectNeeds(id: FunctionId, ghost rank: FunctionId -> nat) returns (needs: seq<Name>)
      requires id in callables && callables[id].preset.None? && id in visiting && Valid(rank)
      requires Ranked(callables, rank) ==> forall v :: v in visiting ==> rank(v) >= rank(id)
      modifies this
      ensures Valid(rank) && visiting == old(visiting) && memo.Keys >= old(memo).Keys
      ensures (forall k :: k in old(memo).Keys ==> k in memo)
      ensures AllChained(callables, id, needs)
      ensures Ranked(callables, rank) ==> needs == CalleeNeeds(callables, rank, id, |callables[id].callees|)
      decreases |callables.Keys - visiting|, 1
    {
      hide LayoutOf, BuildLayout, ScopeLayout, IsRuntimeName, Owns, Supported, PassedOn, HasChain, Ranked, CalleesPresent, CalleeNeeds,
        MemoSupported, MemoRight, Freevars;
      var callable := callables[id];
      needs := [];
      NoNeeds(callables, rank, id);
      for i := 0 to |callable.callees|
        invariant Valid(rank) && visiting == old(visiting) && memo.Keys >= old(memo).Keys
        invariant AllChained(callables, id, needs)
        invariant Ranked(callables, rank) ==> needs == CalleeNeeds(callables, rank, id, i)
      {
        var callee := callable.callees[i];
        NeedsNext(callables, rank, id, i);
        var layout := ComputeLayout(callee, rank);
        PassedChained(callables, id, callee, layout);
        var passed := PassOn(callable, Freevars(layout));
        needs := needs + passed;
      }
    }

    // Collects the freevars that are not the maker's own cells.
    static method PassOn(c: Callable, freevars: seq<Slot>) returns (names: seq<Name>)
      ensures names == PassedOn(c, freevars)
    {
      names := [];
      for i := 0 to |freevars|
        invariant names == PassedOn(c, freevars[..i])
      {
        assert freevars[..i + 1][..i] == freevars[..i];
        if !Owns(c, freevars[i].logicalName) {
          names := names + [freevars[i].logicalName];
        }
      }
      assert freevars[..|freevars|] == freevars;
    }
  }

  lemma FewerUnvisited(all: set<FunctionId>, visiting: set<FunctionId>, id: FunctionId)
    requires id in all && id !in visiting
    ensures |all - (visiting + {id})| < |all - visiting|
  {
    assert all - visiting == (all - (visiting + {id})) + {id};
  }

  lemma NoNeeds(m: Module, rank: FunctionId -> nat, id: FunctionId)
    requires id in m && m[id].preset.None?
    ensures Ranked(m, rank) ==> CalleeNeeds(m, rank, id, 0) == []
  {
  }

  // What one more callee needs.
  lemma NeedsNext(m: Module, rank: FunctionId -> nat, id: FunctionId, i: nat)
    requires id in m && m[id].preset.None? && CalleesPresent(m) && i < |m[id].callees|
    ensures m[id].callees[i] in m[id].callees && m[id].callees[i] in m
    ensures Ranked(m, rank) ==> rank(m[id].callees[i]) < rank(id)
    ensures Ranked(m, rank) ==>
              CalleeNeeds(m, rank, id, i + 1)
              == CalleeNeeds(m, rank, id, i) + PassedOn(m[id], Freevars(LayoutOf(m, rank, m[id].callees[i])))
  {
    var callee := m[id].callees[i];
    assert callee in m[id].callees;
    hide LayoutOf, PassedOn;
  }

  // The definition of a layout, one step unfolded.
  lemma RankedLayout(m: Module, rank: FunctionId -> nat, id: FunctionId)
    requires id in m
    ensures Ranked(m, rank) ==>
              LayoutOf(m, rank, id) == if m[id].preset.Some? then m[id].preset
                else BuildLayout(m[id], ScopeCaptures(m[id]) + CalleeNeeds(m, rank, id, |m[id].callees|))
  {
  }

  lemma ScopeSupported(m: Module, id: FunctionId)
    requires id in m && m[id].preset.None?
    ensures Supported(m, id, ScopeLayout(m[id]))
  {
    hide Supported, BuildLayout;
    BuiltSupported(m, id, []);
    assert ScopeCaptures(m[id]) + [] == ScopeCaptures(m[id]);
  }

  lemma Remembered(m: Module, rank: FunctionId -> nat, memo: map<FunctionId, Option<Layout>>, id: FunctionId)
    requires MemoSupported(m, memo) && (Ranked(m, rank) ==> MemoRight(m, rank, memo)) && id in memo
    ensures id in m && Supported(m, id, memo[id]) && (Ranked(m, rank) ==> memo[id] == LayoutOf(m, rank, id))
  {
  }

  lemma Remember(m: Module, rank: FunctionId -> nat, memo: map<FunctionId, Option<Layout>>, id: FunctionId, layout: Option<Layout>)
    requires MemoSupported(m, memo) && (Ranked(m, rank) ==> MemoRight(m, rank, memo))
    requires id in m && Supported(m, id, layout) && (Ranked(m, rank) ==> layout == LayoutOf(m, rank, id))
    ensures MemoSupported(m, memo[id := layout]) && (Ranked(m, rank) ==> MemoRight(m, rank, memo[id := layout]))
  {
    hide Supported, LayoutOf, Ranked;
  }

  // Starting from the scope layout's freevars is starting from the scope's captures.
  lemma ScopeNames(c: Callable, needs: seq<Name>)
    ensures BuildLayout(c, LogicalNames(Freevars(ScopeLayout(c))) + needs) == BuildLayout(c, ScopeCaptures(c) + needs)
  {
    var names := ScopeCaptures(c);
    AscendingUnique(SortDedup(names), names);
    assert LogicalNames(Freevars(ScopeLayout(c))) == names;
  }

  // ---- The module ----------------------------------------------------------

  // `ensure_module_storage_layouts`: the functions are visited in an arbitrary order.
  method EnsureModuleLayouts(callables: Module, order: seq<FunctionId>, ghost rank: FunctionId -> nat) returns (out: Module)
    requires CalleesPresent(callables)
    requires forall id :: id in order <==> id in callables
    ensures out.Keys == callables.Keys
    ensures forall id :: id in callables ==> out[id] == callables[id].(preset := out[id].preset)
    ensures forall id :: id in callables ==> Supported(callables, id, out[id].preset)
    ensures Ranked(callables, rank) ==> forall id :: id in callables ==> out[id].preset == LayoutOf(callables, rank, id)
  {
    hide Ranked, Supported, LayoutOf, CalleesPresent;
    var solver := new LayoutSolver(callables);
    for i := 0 to |order|
      invariant solver.callables == callables && solver.Valid(rank) && solver.visiting == {}
      invariant forall k :: 0 <= k < i ==> order[k] in solver.memo
    {
      assert order[i] in order;
      var layout := solver.ComputeLayout(order[i], rank);
    }
    forall id | id in callables
      ensures id in solver.memo && (callables[id].preset.Some? ==> solver.memo[id] == callables[id].preset)
    {
      assert id in order;
      SupportedPreset(callables, id, solver.memo[id]);
    }
    out := map id | id in callables ::
      if callables[id].preset.None? then callables[id].(preset := solver.memo[id]) else callables[id];
  }

  lemma SupportedPreset(m: Module, id: FunctionId, layout: Option<Layout>)
    requires id in m && Supported(m, id, layout)
    ensures m[id].preset.Some? ==> layout == m[id].preset
  {
  }

  // ---- Who captures what ---------------------------------------------------

  ghost predicate Captures(m: Module, rank: FunctionId -> nat, id: FunctionId, name: Name)
    requires id in m && Ranked(m, rank)
  {
    name in LogicalNames(Freevars(LayoutOf(m, rank, id)))
  }

  // A callable's own cells are the same before and after its callees are looked at.
  lemma OwnsStable(m: Module, rank: FunctionId -> nat, id: FunctionId, name: Name)
    requires id in m && Ranked(m, rank) && m[id].preset.None?
    ensures Owns(m[id], name) <==> InCells(m[id], Cellvars(LayoutOf(m, rank, id)), name)
  {
  }

  lemma {:induction false} InPassedOn(c: Callable, freevars: seq<Slot>, name: Name)
    ensures name in PassedOn(c, freevars) <==> name in LogicalNames(freevars) && !Owns(c, name)
  {
    hide Owns;
    if freevars != [] {
      var init, last := freevars[..|freevars| - 1], freevars[|freevars| - 1];
      InPassedOn(c, init, name);
      assert LogicalNames(freevars) == LogicalNames(init) + [last.logicalName];
    }
  }

  lemma {:induction false} InCalleeNeeds(m: Module, rank: FunctionId -> nat, id: FunctionId, n: nat, name: Name)
    requires id in m && Ranked(m, rank) && m[id].preset.None? && n <= |m[id].callees|
    ensures name in CalleeNeeds(m, rank, id, n) <==>
            !Owns(m[id], name) && exists k :: 0 <= k < n && m[id].callees[k] in m && Captures(m, rank, m[id].callees[k], name)
  {
    hide Owns, LayoutOf, PassedOn, Freevars, LogicalNames;
    if n > 0 {
      InCalleeNeeds(m, rank, id, n - 1, name);
      var callee := m[id].callees[n - 1];
      assert callee in m[id].callees;
      InPassedOn(m[id], Freevars(LayoutOf(m, rank, callee)), name);
    }
  }

  lemma {:induction false} InNormalizedAll(c: Callable, names: seq<Name>, name: Name)
    ensures name in NormalizedAll(c, names) <==> exists n :: n in names && Normalized(c, n) == name
  {
    hide Normalized;
    if names != [] {
      InNormalizedAll(c, names[1..], name);
      assert names == [names[0]] + names[1..];
    }
  }

  lemma {:induction false} InCapturedRefs(c: Callable, names: seq<Name>, name: Name)
    ensures name in CapturedRefs(c, names) <==> name in names && CapturesRef(c, name)
  {
    hide CapturesRef;
    if names != [] {
      InCapturedRefs(c, names[1..], name);
      assert names == [names[0]] + names[1..];
    }
  }

  // The scope knows a name as a capture's source first, then as a cell's storage; another name stands for itself.
  predicate ResolvesTo(c: Callable, used: Name, name: Name) {
    || c.logicalForSource(used) == Some(name)
    || (c.logicalForSource(used).None? && c.logicalForStorage(used) == Some(name))
    || (c.logicalForSource(used).None? && c.logicalForStorage(used).None? && used == name)
  }

  // A callable itself captures the names bound as captures, and the cells it refers to that are neither
  // runtime-managed, nor parameters, nor its own; all under the names its scope resolves them to.
  lemma ScopeCapturesExactly(c: Callable, name: Name)
    ensures name in ScopeCaptures(c) <==>
            || (exists n :: n in c.capturedNames && ResolvesTo(c, n, name))
            || (!IsRuntimeName(name) && name !in c.params && c.captureSource(name) !in c.ownedCells
                && exists n :: n in c.cellRefNames && ResolvesTo(c, n, name))
  {
    forall n
      ensures ResolvesTo(c, n, name) <==> Normalized(c, n) == name
    {
    }
    hide Normalized, ResolvesTo, IsRuntimeName;
    InNormalizedAll(c, c.capturedNames, name);
    InNormalizedAll(c, c.cellRefNames, name);
    InCapturedRefs(c, NormalizedAll(c, c.cellRefNames), name);
  }

  lemma {:induction false} InLocalCells(c: Callable, names: seq<Name>, name: Name)
    ensures name in LocalCells(c, names) <==> name in names && !IsRuntimeName(LogicalOfCell(c, name))
  {
    hide IsRuntimeName, LogicalOfCell;
    if names != [] {
      InLocalCells(c, names[1..], name);
      assert names == [names[0]] + names[1..];
    }
  }

  // Every owned cell but the runtime-managed ones gets a slot, under the scope's name for its storage or else the
  // storage's own; it starts from the parameter of that name if there is one, and deleted otherwise.
  lemma OwnCellsExactly(c: Callable, storage: Name)
    ensures (exists i :: 0 <= i < |OwnCells(c)| && OwnCells(c)[i].storageName == storage)
            <==> storage in c.ownedCells && !RuntimeManaged(c, storage)
    ensures forall i :: 0 <= i < |OwnCells(c)| && OwnCells(c)[i].storageName == storage ==>
              && OwnCells(c)[i].logicalName == (if c.logicalForStorage(storage).Some? then c.logicalForStorage(storage).value else storage)
              && (OwnCells(c)[i].init == ParameterInit <==> OwnCells(c)[i].logicalName in c.params)
              && (OwnCells(c)[i].init == DeletedSentinel <==> OwnCells(c)[i].logicalName !in c.params)
  {
    hide IsRuntimeName;
    var cells := LocalCells(c, SortDedup(c.ownedCells));
    InLocalCells(c, SortDedup(c.ownedCells), storage);
    if storage in cells {
      var i :| 0 <= i < |cells| && cells[i] == storage;
      assert OwnCells(c)[i].storageName == storage;
    }
  }

  predicate NamesCell(c: Callable, storage: Name, name: Name) {
    || c.logicalForStorage(storage) == Some(name)
    || (c.logicalForStorage(storage).None? && storage == name)
    || storage == c.captureSource(name)
  }

  // A callable owns a name when one of its owned cells, not runtime-managed, bears it or is where its capture reads.
  lemma OwnsExactly(c: Callable, name: Name)
    ensures Owns(c, name) <==> exists s :: s in c.ownedCells && !RuntimeManaged(c, s) && NamesCell(c, s, name)
  {
    hide OwnCells, RuntimeManaged, SortDedup;
    var cells := OwnCells(c);
    forall s | s in c.ownedCells
      ensures !RuntimeManaged(c, s) ==> exists i :: 0 <= i < |cells| && cells[i].storageName == s
    {
      OwnCellsExactly(c, s);
    }
    forall i | 0 <= i < |cells|
      ensures CellvarRight(c, cells[i])
    {
      OwnCellRight(c, i);
    }
    assert Cellvars(ScopeLayout(c)) == cells;
    hide ScopeLayout;
    if s :| s in c.ownedCells && !RuntimeManaged(c, s) && NamesCell(c, s, name) {
      var i :| 0 <= i < |cells| && cells[i].storageName == s;
      assert CellvarRight(c, cells[i]);
    }
  }

  // The cells the runtime manages: the generator's resumption point, its delegate, what is thrown into it, and the
  // kinds of pending exits.
  lemma RuntimeNamesExactly(name: Name)
    ensures IsRuntimeName(name) <==>
              || name == "_dp_pc" || name == "_dp_yieldfrom" || name == "_dp_throw_context"
              || (|name| >= 20 && name[..20] == "_dp_try_abrupt_kind_")
  {
    if |name| >= 20 {
      assert name[..20] == "_dp_try_abrupt_kind_" ==> "_dp_try_abrupt_kind_" <= name;
    }
  }

  // A callable captures exactly what its scope does and what its callees capture and it does not own.
  lemma CapturesExactly(m: Module, rank: FunctionId -> nat, id: FunctionId, name: Name)
    requires id in m && Ranked(m, rank) && m[id].preset.None?
    ensures Captures(m, rank, id, name) <==>
            || name in ScopeCaptures(m[id])
            || (!Owns(m[id], name)
                && exists k :: 0 <= k < |m[id].callees| && m[id].callees[k] in m && Captures(m, rank, m[id].callees[k], name))
  {
    hide Owns, ScopeCaptures, OwnCells, CalleeNeeds;
    InCalleeNeeds(m, rank, id, |m[id].callees|, name);
    var needs := ScopeCaptures(m[id]) + CalleeNeeds(m, rank, id, |m[id].callees|);
    BuiltNames(m[id], needs);
    assert LayoutOf(m, rank, id) == BuildLayout(m[id], needs);
    hide LayoutOf, BuildLayout;
  }

  lemma BuiltNames(c: Callable, names: seq<Name>)
    ensures LogicalNames(Freevars(BuildLayout(c, names))) == SortDedup(names)
  {
  }

  // Every freevar of a callee is a freevar of its maker or one of the maker's own cells.
  lemma CalleeFreevarsAreSupplied(m: Module, rank: FunctionId -> nat, maker: FunctionId, callee: FunctionId, name: Name)
    requires Ranked(m, rank) && maker in m && m[maker].preset.None? && callee in m[maker].callees && callee in m
    requires Captures(m, rank, callee, name)
    ensures Captures(m, rank, maker, name) || InCells(m[maker], Cellvars(LayoutOf(m, rank, maker)), name)
  {
    hide Owns, LayoutOf, ScopeCaptures, InCells;
    var k :| 0 <= k < |m[maker].callees| && m[maker].callees[k] == callee;
    CapturesExactly(m, rank, maker, name);
    OwnsStable(m, rank, maker, name);
  }

  // ---- Chains of makers ----------------------------------------------------

  // What a callable captures without looking at its callees.
  predicate CapturesItself(c: Callable, name: Name) {
    match c.preset
    case Some(layout) => name in LogicalNames(layout.freevars)
    case None => name in ScopeCaptures(c)
  }

  // A path of makers to a callable that captures the name, none of the makers on the way owning it.
  ghost predicate CaptureChain(m: Module, path: seq<FunctionId>, name: Name)
    decreases |path|
  {
    && path != [] && path[0] in m
    && if |path| == 1 then CapturesItself(m[path[0]], name)
       else m[path[0]].preset.None? && !Owns(m[path[0]], name) && path[1] in m[path[0]].callees && CaptureChain(m, path[1..], name)
  }

  lemma {:induction false} ChainCaptures(m: Module, rank: FunctionId -> nat, path: seq<FunctionId>, name: Name)
    requires Ranked(m, rank) && CaptureChain(m, path, name)
    ensures Captures(m, rank, path[0], name)
    decreases |path|
  {
    hide Owns, ScopeCaptures;
    if m[path[0]].preset.None? {
      CapturesExactly(m, rank, path[0], name);
      if |path| > 1 {
        ChainCaptures(m, rank, path[1..], name);
        var k :| 0 <= k < |m[path[0]].callees| && m[path[0]].callees[k] == path[1];
      }
    }
  }

  lemma {:induction false} CaptureHasChain(m: Module, rank: FunctionId -> nat, id: FunctionId, name: Name) returns (path: seq<FunctionId>)
    requires Ranked(m, rank) && id in m && Captures(m, rank, id, name)
    ensures CaptureChain(m, path, name) && path[0] == id
    decreases rank(id)
  {
    hide Owns, ScopeCaptures;
    path := [id];
    if m[id].preset.None? {
      CapturesExactly(m, rank, id, name);
      if name !in ScopeCaptures(m[id]) {
        var k :| 0 <= k < |m[id].callees| && m[id].callees[k] in m && Captures(m, rank, m[id].callees[k], name);
        assert m[id].callees[k] in m[id].callees;
        var rest := CaptureHasChain(m, rank, m[id].callees[k], name);
        path := [id] + rest;
        assert path[1..] == rest;
      }
    }
  }

  // A name is captured exactly when some chain of makers, none owning it, leads to a callable that uses it.
  lemma CapturedIffChain(m: Module, rank: FunctionId -> nat, id: FunctionId, name: Name)
    requires Ranked(m, rank) && id in m
    ensures Captures(m, rank, id, name) <==> HasChain(m, id, name)
  {
    if Captures(m, rank, id, name) {
      var path := CaptureHasChain(m, rank, id, name);
    } else if HasChain(m, id, name) {
      var path :| CaptureChain(m, path, name) && path[0] == id;
      ChainCaptures(m, rank, path, name);
    }
  }

  // ---- What MakeFunction passes --------------------------------------------

  datatype CellCapture = CellCapture(logicalName: Name, sourceName: Name)

  // The captures a non-class callable is made with, once its layout is in place.
  function CaptureVector(c: Callable): (r: seq<CellCapture>) {
    var names := if c.preset.Some? then LogicalNames(c.preset.value.freevars) else ScopeCaptures(c);
    seq(|names|, i requires 0 <= i < |names| => CellCapture(names[i], c.captureSource(names[i])))
  }

  // They match its freevar slots, in order and in number, and each reads from where the callable's scope says.
  lemma CaptureVectorMatchesSlots(m: Module, rank: FunctionId -> nat, id: FunctionId)
    requires Ranked(m, rank) && id in m && !m[id].isClass
    ensures var layout := LayoutOf(m, rank, id);
            var vector := CaptureVector(m[id].(preset := layout));
            && |vector| == |Freevars(layout)|
            && forall i :: 0 <= i < |vector| ==>
                 vector[i].logicalName == Freevars(layout)[i].logicalName
                 && vector[i].sourceName == m[id].captureSource(Freevars(layout)[i].logicalName)
  {
    var layout := LayoutOf(m, rank, id);
    if layout.None? {
      var names := ScopeCaptures(m[id]) + CalleeNeeds(m, rank, id, |m[id].callees|);
      NothingCaptured(names);
      assert ScopeCaptures(m[id].(preset := layout)) == ScopeCaptures(m[id]);
    }
  }

  lemma NothingCaptured(names: seq<Name>)
    ensures SortDedup(names) == [] ==> names == []
  {
  }

  // ---- Where a capture comes from ------------------------------------------

  // The maker finds a cell of `name` under `source`: a freevar by its name, its storage or its capture source; a cell
  // of its own by its name or its storage.
  ghost predicate FindsCell(c: Callable, layout: Option<Layout>, name: Name, source: Name) {
    FindsFreevar(c, Freevars(layout), name, source) || FindsOwn(c, Cellvars(layout), name, source)
  }

  ghost predicate FindsFreevar(c: Callable, slots: seq<Slot>, name: Name, source: Name) {
    exists i :: 0 <= i < |slots| && slots[i].logicalName == name
      && (source == name || source == slots[i].storageName || source == c.captureSource(name))
  }

  ghost predicate FindsOwn(c: Callable, slots: seq<Slot>, name: Name, source: Name) {
    exists i :: 0 <= i < |slots| && IsCellOf(c, slots[i], name) && (source == slots[i].logicalName || source == slots[i].storageName)
  }

  predicate IsCellOf(c: Callable, cell: Slot, name: Name) {
    cell.logicalName == name || cell.storageName == c.captureSource(name)
  }

  // A cell of the callable's own that bears the name is the one a capture of the name reads, and the other way round.
  ghost predicate OwnCellsAgree(c: Callable, name: Name) {
    forall i :: 0 <= i < |OwnCells(c)| ==>
      (OwnCells(c)[i].logicalName == name <==> OwnCells(c)[i].storageName == c.captureSource(name))
  }

  // A capture that a callee is made with reads the maker's cell of that name if and only if its source is the name
  // itself, the source the maker would read the name from, or the storage of a freevar of that name.
  lemma CaptureSourcesResolve(m: Module, rank: FunctionId -> nat, maker: FunctionId, callee: FunctionId, k: nat)
    requires Ranked(m, rank) && maker in m && m[maker].preset.None? && callee in m[maker].callees && callee in m && !m[callee].isClass
    requires k < |CaptureVector(m[callee].(preset := LayoutOf(m, rank, callee)))|
    requires OwnCellsAgree(m[maker], CaptureVector(m[callee].(preset := LayoutOf(m, rank, callee)))[k].logicalName)
    ensures var capture := CaptureVector(m[callee].(preset := LayoutOf(m, rank, callee)))[k];
            FindsCell(m[maker], LayoutOf(m, rank, maker), capture.logicalName, capture.sourceName)
            <==> capture.sourceName == capture.logicalName
                 || capture.sourceName == m[maker].captureSource(capture.logicalName)
                 || (Captures(m, rank, maker, capture.logicalName)
                     && capture.sourceName == m[maker].cellStorage(capture.logicalName))
  {
    var vector := CaptureVector(m[callee].(preset := LayoutOf(m, rank, callee)));
    var name, source := vector[k].logicalName, vector[k].sourceName;
    CaptureVectorMatchesSlots(m, rank, callee);
    assert LogicalNames(Freevars(LayoutOf(m, rank, callee)))[k] == name;
    hide LayoutOf, CaptureVector, ScopeCaptures;
    CalleeFreevarsAreSupplied(m, rank, maker, callee, name);
    FoundExactly(m, rank, maker, name, source);
  }

  // For a name the callable captures or owns.
  lemma FoundExactly(m: Module, rank: FunctionId -> nat, id: FunctionId, name: Name, source: Name)
    requires Ranked(m, rank) && id in m && m[id].preset.None? && OwnCellsAgree(m[id], name)
    requires Captures(m, rank, id, name) || InCells(m[id], Cellvars(LayoutOf(m, rank, id)), name)
    ensures FindsCell(m[id], LayoutOf(m, rank, id), name, source)
            <==> source == name || source == m[id].captureSource(name)
                 || (Captures(m, rank, id, name) && source == m[id].cellStorage(name))
  {
    hide LayoutOf, OwnCells, FindsFreevar, FindsOwn, OwnCellsAgree, InCells;
    var c, layout := m[id], LayoutOf(m, rank, id);
    CellvarsAreOwn(m, rank, id);
    FreevarSlots(m, rank, id);
    FreevarFoundExactly(c, Freevars(layout), name, source);
    OwnFoundExactly(c, name, source);
  }

  lemma FreevarFoundExactly(c: Callable, slots: seq<Slot>, name: Name, source: Name)
    requires forall i :: 0 <= i < |slots| ==> slots[i].storageName == c.cellStorage(slots[i].logicalName)
    ensures FindsFreevar(c, slots, name, source)
            <==> name in LogicalNames(slots) && (source == name || source == c.cellStorage(name) || source == c.captureSource(name))
  {
    if name in LogicalNames(slots) {
      var i :| 0 <= i < |slots| && LogicalNames(slots)[i] == name;
      assert slots[i].logicalName == name;
    }
    if FindsFreevar(c, slots, name, source) {
      var i :| 0 <= i < |slots| && slots[i].logicalName == name;
      assert LogicalNames(slots)[i] == name;
    }
  }

  lemma OwnFoundExactly(c: Callable, name: Name, source: Name)
    requires OwnCellsAgree(c, name)
    ensures FindsOwn(c, OwnCells(c), name, source)
            <==> InCells(c, OwnCells(c), name) && (source == name || source == c.captureSource(name))
  {
    hide OwnCells;
  }

  lemma CellvarsAreOwn(m: Module, rank: FunctionId -> nat, id: FunctionId)
    requires Ranked(m, rank) && id in m && m[id].preset.None?
    ensures Cellvars(LayoutOf(m, rank, id)) == OwnCells(m[id])
  {
    hide CalleeNeeds, OwnCells, ScopeCaptures;
  }

  lemma FreevarSlots(m: Module, rank: FunctionId -> nat, id: FunctionId)
    requires Ranked(m, rank) && id in m && m[id].preset.None?
    ensures forall i :: 0 <= i < |Freevars(LayoutOf(m, rank, id))| ==>
              Freevars(LayoutOf(m, rank, id))[i].storageName == m[id].cellStorage(Freevars(LayoutOf(m, rank, id))[i].logicalName)
  {
    hide CalleeNeeds, OwnCells, ScopeCaptures;
  }
}
