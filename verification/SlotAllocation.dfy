/** Local slots of a callable: who gets which, and writing them to a layout and back
    (`soac-blockpy/src/passes/name_binding.rs`, `soac-blockpy/src/block_py/scope.rs`). */
module SlotAllocation {
  import opened Prelude
  import opened NameOrder
  import GlobalCacheSpec

  datatype Binding = LocalBinding | GlobalBinding | CellBinding

  // What the scope says about names.
  datatype Scope = Scope(
    cellStorage: Name -> Option<Name>,
    bindingKind: Name -> Option<Binding>,
    storesToLocal: Name -> bool,
    honorsInternal: Name -> bool,
    hasLocalDef: Name -> bool)

  // The parts of a callable that decide its slots: block params in block order, the names left over in
  // bodies and terminators, and the names stored or deleted.
  datatype Locals = Locals(
    params: seq<Name>, ownedCells: seq<Name>, blockParams: seq<Name>, remaining: seq<Name>, stored: set<Name>, scope: Scope)

  predicate IsRemainingLocal(l: Locals, name: Name) {
    if l.scope.cellStorage(name).Some? then false
    else if name in l.stored then
      l.scope.bindingKind(name) !in {Some(CellBinding), Some(GlobalBinding)} && l.scope.storesToLocal(name)
    else match l.scope.bindingKind(name)
      case Some(LocalBinding) => l.scope.honorsInternal(name)
      case Some(_) => false
      case None => l.scope.hasLocalDef(name)
  }

  type SlotMap = map<Name, nat>

  // Each name at its position; a repeated name keeps its last one.
  function Positions(names: seq<Name>): SlotMap {
    if names == [] then map[] else Positions(names[..|names| - 1])[names[|names| - 1] := |names| - 1]
  }

  datatype Slots = Slots(at: SlotMap, next: nat)

  function Assign(st: Slots, name: Name): Slots {
    if name in st.at then st else Slots(st.at[name := st.next], st.next + 1)
  }

  function AssignAll(st: Slots, names: seq<Name>): Slots {
    if names == [] then st else Assign(AssignAll(st, names[..|names| - 1]), names[|names| - 1])
  }

  function ParamSlots(l: Locals): Slots {
    Slots(Positions(l.params), |Positions(l.params)|)
  }

  // After parameters, owned cells and block params.
  function NamedSlots(l: Locals): Slots {
    AssignAll(AssignAll(ParamSlots(l), SortDedup(l.ownedCells)), l.blockParams)
  }

  function LeftOver(l: Locals, at: SlotMap, names: seq<Name>): seq<Name> {
    if names == [] then []
    else
      var last := names[|names| - 1];
      LeftOver(l, at, names[..|names| - 1]) + (if last !in at && IsRemainingLocal(l, last) then [last] else [])
  }

  function AllSlots(l: Locals): Slots {
    AssignAll(NamedSlots(l), SortDedup(LeftOver(l, NamedSlots(l).at, l.remaining)))
  }

  method AssignNames(slots: SlotMap, next: nat, names: seq<Name>) returns (slots': SlotMap, next': nat)
    ensures Slots(slots', next') == AssignAll(Slots(slots, next), names)
  {
    slots', next' := slots, next;
    for i := 0 to |names|
      invariant Slots(slots', next') == AssignAll(Slots(slots, next), names[..i])
    {
      assert names[..i + 1][..i] == names[..i];
      if names[i] !in slots' {
        slots', next' := slots'[names[i] := next'], next' + 1;
      }
    }
    assert names[..|names|] == names;
  }

  // `compute_local_slot_locations_from_analysis`
  method ComputeLocalSlots(l: Locals) returns (slots: SlotMap)
    ensures slots == AllSlots(l).at
  {
    slots := map[];
    for i := 0 to |l.params|
      invariant slots == Positions(l.params[..i])
    {
      assert l.params[..i + 1][..i] == l.params[..i];
      slots := slots[l.params[i] := i];
    }
    assert l.params[..|l.params|] == l.params;
    var next := |slots|;
    slots, next := AssignNames(slots, next, SortDedup(l.ownedCells));
    slots, next := AssignNames(slots, next, l.blockParams);
    var locals: seq<Name> := [];
    for i := 0 to |l.remaining|
      invariant locals == LeftOver(l, slots, l.remaining[..i])
    {
      assert l.remaining[..i + 1][..i] == l.remaining[..i];
      if l.remaining[i] !in slots && IsRemainingLocal(l, l.remaining[i]) {
        locals := locals + [l.remaining[i]];
      }
    }
    assert l.remaining[..|l.remaining|] == l.remaining;
    slots, next := AssignNames(slots, next, SortDedup(locals));
  }

  // ---- Numberings ----------------------------------------------------------

  predicate Distinct(names: seq<Name>) {
    forall i, j :: 0 <= i < j < |names| ==> names[i] != names[j]
  }

  ghost predicate Taken(at: SlotMap, k: nat) {
    exists a :: a in at && at[a] == k
  }

  // A bijection between the names and the first `|at|` numbers.
  ghost predicate Bijective(at: SlotMap) {
    && (forall a, b :: a in at && b in at && a != b ==> at[a] != at[b])
    && (forall a :: a in at ==> at[a] < |at|)
    && forall k: nat :: k < |at| ==> Taken(at, k)
  }

  // The names in slot order.
  ghost predicate Numbers(at: SlotMap, names: seq<Name>) {
    && Distinct(names) && |at| == |names|
    && (forall a :: a in at ==> a in names)
    && forall i :: 0 <= i < |names| ==> names[i] in at && at[names[i]] == i
  }

  lemma NumbersIsBijective(at: SlotMap, names: seq<Name>)
    requires Numbers(at, names)
    ensures Bijective(at)
  {
    forall k: nat | k < |at|
      ensures Taken(at, k)
    {
      assert names[k] in at && at[names[k]] == k;
    }
    forall a, b | a in at && b in at && a != b
      ensures at[a] != at[b]
    {
      var i :| 0 <= i < |names| && names[i] == a;
      var j :| 0 <= j < |names| && names[j] == b;
    }
  }

  lemma {:induction false} PositionsNumber(names: seq<Name>)
    requires Distinct(names)
    ensures Numbers(Positions(names), names)
  {
    if names != [] {
      var init, last := names[..|names| - 1], names[|names| - 1];
      PositionsNumber(init);
      assert last !in Positions(init);
      assert names == init + [last];
    }
  }

  lemma AssignNumbers(st: Slots, name: Name, names: seq<Name>) returns (more: seq<Name>)
    requires Numbers(st.at, names) && st.next == |names|
    ensures Numbers(Assign(st, name).at, names + more) && Assign(st, name).next == |names + more|
    ensures more == if name in names then [] else [name]
  {
    if name in st.at {
      more := [];
      assert names + more == names;
    } else {
      more := [name];
      assert name !in names;
    }
  }

  // The names of a list that are not among others, each where it first occurs.
  function NewNames(names: seq<Name>, more: seq<Name>): (r: seq<Name>)
    ensures forall n :: n in r <==> n in more && n !in names
  {
    if more == [] then []
    else
      var init, last := more[..|more| - 1], more[|more| - 1];
      assert forall n :: n in more <==> n in init || n == last;
      NewNames(names, init) + if last in names || last in NewNames(names, init) then [] else [last]
  }

  lemma NoNewNames(names: seq<Name>)
    ensures NewNames(names, []) == []
  {
  }

  lemma NewNamesNext(names: seq<Name>, init: seq<Name>, last: Name)
    ensures NewNames(names, init + [last]) == NewNames(names, init) + if last in names + NewNames(names, init) then [] else [last]
  {
    assert (init + [last])[..|init|] == init;
  }

  lemma {:induction false} NewNamesAscend(names: seq<Name>, more: seq<Name>)
    requires Ascending(more)
    ensures Ascending(NewNames(names, more))
  {
    hide Below;
    if more != [] {
      var init, last := more[..|more| - 1], more[|more| - 1];
      NewNamesAscend(names, init);
      var r := NewNames(names, init);
      forall i | 0 <= i < |r|
        ensures Below(r[i], last)
      {
        assert r[i] in init;
        var k :| 0 <= k < |init| && init[k] == r[i];
        assert more[k] == r[i];
      }
    }
  }

  // Of two names the one used first comes first.
  ghost predicate InOrderOfUse(names: seq<Name>, uses: seq<Name>) {
    forall i, j :: 0 <= i < j < |names| ==> UsedBefore(names[i], names[j], uses)
  }

  ghost predicate UsedBefore(a: Name, b: Name, uses: seq<Name>) {
    exists p :: 0 <= p < |uses| && uses[p] == a && b !in uses[..p + 1]
  }

  lemma {:induction false} NewNamesInOrder(names: seq<Name>, more: seq<Name>)
    ensures InOrderOfUse(NewNames(names, more), more)
  {
    if more != [] {
      var init, last := more[..|more| - 1], more[|more| - 1];
      NewNamesInOrder(names, init);
      var r, whole := NewNames(names, init), NewNames(names, more);
      forall i, j | 0 <= i < j < |whole|
        ensures UsedBefore(whole[i], whole[j], more)
      {
        if j < |r| {
          assert UsedBefore(r[i], r[j], init);
          var p :| 0 <= p < |init| && init[p] == r[i] && r[j] !in init[..p + 1];
          assert more[..p + 1] == init[..p + 1] && more[p] == init[p];
        } else {
          assert r[i] in init && last !in init;
          var p :| 0 <= p < |init| && init[p] == r[i];
          assert more[p] == init[p] && more[..p + 1] <= init;
          assert forall k :: 0 <= k < p + 1 ==> more[..p + 1][k] == init[k];
        }
      }
    }
  }

  lemma {:induction false} AssignAllNumbers(st: Slots, more: seq<Name>, names: seq<Name>) returns (added: seq<Name>)
    requires Numbers(st.at, names) && st.next == |names|
    ensures Numbers(AssignAll(st, more).at, names + added) && AssignAll(st, more).next == |names + added|
    ensures forall n :: n in added ==> n in more
    ensures forall n :: n in more ==> n in names + added
    ensures added == NewNames(names, more)
    decreases |more|
  {
    hide Numbers, Assign, NewNames;
    if more == [] {
      NoNewNames(names);
      added := [];
      assert names + added == names;
    } else {
      var init, last := more[..|more| - 1], more[|more| - 1];
      var first := AssignAllNumbers(st, init, names);
      var extra := AssignNumbers(AssignAll(st, init), last, names + first);
      added := first + extra;
      NewNamesNext(names, init, last);
      assert names + added == names + first + extra;
      assert more == init + [last];
    }
  }

  lemma NumberedNames(at: SlotMap, names: seq<Name>)
    requires Numbers(at, names)
    ensures forall n :: n in at <==> n in names
  {
  }

  lemma ParamCount(names: seq<Name>)
    requires Numbers(Positions(names), names)
    ensures |Positions(names)| == |names|
  {
  }

  // With distinct parameter names, slots follow this order, each name once: parameters, owned cells by name, block
  // params by first use, remaining locals by name.
  lemma AllocationOrder(l: Locals) returns (cells: seq<Name>, blockParams: seq<Name>, locals: seq<Name>)
    requires Distinct(l.params)
    ensures Numbers(AllSlots(l).at, l.params + cells + blockParams + locals)
    ensures Ascending(cells) && forall n :: n in cells <==> n in l.ownedCells && n !in l.params
    ensures InOrderOfUse(blockParams, l.blockParams)
    ensures forall n :: n in blockParams <==> n in l.blockParams && n !in l.params + cells
    ensures Ascending(locals)
    ensures forall n :: n in locals <==> n in l.remaining && IsRemainingLocal(l, n) && n !in l.params + cells + blockParams
  {
    hide Numbers, AssignAll, IsRemainingLocal, SortDedup, Ascending, InOrderOfUse, NewNames;
    PositionsNumber(l.params);
    ParamCount(l.params);
    cells := AssignAllNumbers(ParamSlots(l), SortDedup(l.ownedCells), l.params);
    NewNamesAscend(l.params, SortDedup(l.ownedCells));
    blockParams := AssignAllNumbers(AssignAll(ParamSlots(l), SortDedup(l.ownedCells)), l.blockParams, l.params + cells);
    NewNamesInOrder(l.params + cells, l.blockParams);
    var left := LeftOver(l, NamedSlots(l).at, l.remaining);
    InLeftOver(l, NamedSlots(l).at, l.remaining);
    NumberedNames(NamedSlots(l).at, l.params + cells + blockParams);
    locals := AssignAllNumbers(NamedSlots(l), SortDedup(left), l.params + cells + blockParams);
    NewNamesAscend(l.params + cells + blockParams, SortDedup(left));
  }

  // So they number the parameters at their own positions, then everything else that needs a slot: owned cells, block
  // params and the remaining locals.
  lemma AllocationNumbers(l: Locals) returns (added: seq<Name>)
    requires Distinct(l.params)
    ensures Numbers(AllSlots(l).at, l.params + added)
    ensures forall n :: n in l.ownedCells || n in l.blockParams ==> n in l.params + added
    ensures forall n :: n in l.remaining && IsRemainingLocal(l, n) ==> n in l.params + added
    ensures forall n :: n in added ==> n in l.ownedCells || n in l.blockParams || (n in l.remaining && IsRemainingLocal(l, n))
  {
    hide Numbers, AllSlots, IsRemainingLocal, Ascending, InOrderOfUse;
    var cells, blockParams, locals := AllocationOrder(l);
    added := cells + blockParams + locals;
    assert l.params + added == l.params + cells + blockParams + locals;
  }

  // Which of the names left over in the code get a slot, beside parameters, owned cells and block params: with no cell
  // storage, those stored or deleted that are neither cells nor globals and resolve to locals, those never stored that
  // are honoured locals, and the unbound ones with a local definition; and no others.
  lemma RemainingLocalsExactly(l: Locals, n: Name)
    requires Distinct(l.params) && n in l.remaining && n !in l.params && n !in l.ownedCells && n !in l.blockParams
    ensures l.scope.cellStorage(n).Some? ==> n !in AllSlots(l).at
    ensures l.scope.bindingKind(n) in {Some(CellBinding), Some(GlobalBinding)} ==> n !in AllSlots(l).at
    ensures l.scope.cellStorage(n).None? && n in l.stored && l.scope.bindingKind(n) in {Some(LocalBinding), None} ==>
              (n in AllSlots(l).at <==> l.scope.storesToLocal(n))
    ensures l.scope.cellStorage(n).None? && n !in l.stored && l.scope.bindingKind(n) == Some(LocalBinding) ==>
              (n in AllSlots(l).at <==> l.scope.honorsInternal(n))
    ensures l.scope.cellStorage(n).None? && n !in l.stored && l.scope.bindingKind(n) == None ==>
              (n in AllSlots(l).at <==> l.scope.hasLocalDef(n))
  {
    var added := AllocationNumbers(l);
    NumberedNames(AllSlots(l).at, l.params + added);
    hide AllSlots, Numbers;
  }

  lemma {:induction false} InLeftOver(l: Locals, at: SlotMap, names: seq<Name>)
    ensures forall n :: n in LeftOver(l, at, names) <==> n in names && n !in at && IsRemainingLocal(l, n)
  {
    if names != [] {
      InLeftOver(l, at, names[..|names| - 1]);
      assert names == names[..|names| - 1] + [names[|names| - 1]];
    }
  }

  // ---- Repeated parameter names --------------------------------------------

  lemma {:induction false} PositionsCount(names: seq<Name>)
    ensures forall n :: n in names <==> n in Positions(names)
    ensures |Positions(names)| <= |names|
    ensures |Positions(names)| == |names| <==> Distinct(names)
  {
    if names != [] {
      var init, last := names[..|names| - 1], names[|names| - 1];
      PositionsCount(init);
      assert names == init + [last];
      if last in init {
        assert Positions(names).Keys == Positions(init).Keys;
        assert |Positions(names)| == |Positions(names).Keys| == |Positions(init).Keys|;
        var i :| 0 <= i < |init| && init[i] == last;
        assert names[i] == names[|init|];
      } else {
        assert Positions(names).Keys == Positions(init).Keys + {last};
        assert |Positions(names)| == |Positions(names).Keys| == |Positions(init).Keys| + 1;
      }
    }
  }

  ghost predicate TakenByOther(at: SlotMap, params: seq<Name>, v: nat) {
    exists n :: n in at && n !in params && at[n] == v
  }

  // Every slot from the first free one up to the next one belongs to a name that is no parameter.
  ghost predicate Refilled(st: Slots, params: seq<Name>) {
    && params != [] && |st.at| == st.next && params[|params| - 1] in st.at && st.at[params[|params| - 1]] == |params| - 1
    && (forall v: nat :: |Positions(params)| <= v < st.next ==> TakenByOther(st.at, params, v))
    && forall p :: p in params ==> p in st.at
  }

  lemma AssignRefills(st: Slots, params: seq<Name>, name: Name)
    requires Refilled(st, params)
    ensures Refilled(Assign(st, name), params)
  {
    var st2 := Assign(st, name);
    if name !in st.at {
      assert st2.at.Keys == st.at.Keys + {name};
      assert |st2.at| == |st2.at.Keys| == |st.at.Keys| + 1;
      forall v: nat | |Positions(params)| <= v < st2.next
        ensures TakenByOther(st2.at, params, v)
      {
        if v < st.next {
          assert TakenByOther(st.at, params, v);
          var n :| n in st.at && n !in params && st.at[n] == v;
          assert n in st2.at && st2.at[n] == v;
        } else {
          assert name in st2.at && st2.at[name] == v;
        }
      }
    }
  }

  lemma {:induction false} AssignAllRefills(st: Slots, params: seq<Name>, names: seq<Name>)
    requires Refilled(st, params)
    ensures Refilled(AssignAll(st, names), params)
    decreases |names|
  {
    if names != [] {
      AssignAllRefills(st, params, names[..|names| - 1]);
      AssignRefills(AssignAll(st, names[..|names| - 1]), params, names[|names| - 1]);
    }
  }

  // Slots are a bijection exactly when no parameter name is repeated: otherwise the counter starts below
  // the last parameter's position, and that position is either handed out again or left above all others.
  lemma AllocationBijectiveExactly(l: Locals)
    ensures Bijective(AllSlots(l).at) <==> Distinct(l.params)
  {
    if Distinct(l.params) {
      var added := AllocationNumbers(l);
      NumbersIsBijective(AllSlots(l).at, l.params + added);
    } else {
      RepeatedParamClashes(l);
    }
  }

  lemma {:induction false} LastPosition(names: seq<Name>)
    requires names != []
    ensures names[|names| - 1] in Positions(names) && Positions(names)[names[|names| - 1]] == |names| - 1
  {
  }

  lemma RepeatedParamClashes(l: Locals)
    requires !Distinct(l.params)
    ensures !Bijective(AllSlots(l).at)
  {
    var p := l.params;
    PositionsCount(p);
    LastPosition(p);
    assert Refilled(ParamSlots(l), p);
    AssignAllRefills(ParamSlots(l), p, SortDedup(l.ownedCells));
    AssignAllRefills(AssignAll(ParamSlots(l), SortDedup(l.ownedCells)), p, l.blockParams);
    AssignAllRefills(NamedSlots(l), p, SortDedup(LeftOver(l, NamedSlots(l).at, l.remaining)));
    RefilledClashes(AllSlots(l), p);
  }

  // The last parameter's position is handed out again, or is above every number a bijection may use.
  lemma RefilledClashes(st: Slots, params: seq<Name>)
    requires Refilled(st, params) && |Positions(params)| < |params|
    ensures !Bijective(st.at)
  {
    var v := |params| - 1;
    if v < st.next {
      assert TakenByOther(st.at, params, v);
      var n :| n in st.at && n !in params && st.at[n] == v;
      assert n != params[v];
    }
  }

  // ---- Writing the slots down ----------------------------------------------

  // The names of a map sorted by slot.
  ghost predicate SortedBySlot(at: SlotMap, names: seq<Name>) {
    && Distinct(names) && |names| == |at| && (forall n :: n in names <==> n in at)
    && forall i, j :: 0 <= i < j < |names| ==> at[names[i]] <= at[names[j]]
  }

  // Written down in slot order and read back by position, a bijective allocation is unchanged.
  lemma StackSlotsReadBack(at: SlotMap, names: seq<Name>)
    requires Bijective(at) && SortedBySlot(at, names)
    ensures Positions(names) == at
  {
    SortedIsInPlace(at, names, |names|);
    PositionsNumber(names);
  }

  ghost predicate HasSlot(at: SlotMap, name: Name, k: nat) {
    name in at && at[name] == k
  }

  lemma {:induction false} SortedIsInPlace(at: SlotMap, names: seq<Name>, k: nat)
    requires Bijective(at) && SortedBySlot(at, names) && k <= |names|
    ensures forall i :: 0 <= i < k ==> at[names[i]] == i
  {
    if k > 0 {
      var i := k - 1;
      SortedIsInPlace(at, names, i);
      assert Taken(at, i);
      var a :| a in at && at[a] == i;
      var j :| 0 <= j < |names| && names[j] == a;
      assert j >= i && at[names[i]] <= i;
      forall q | 0 <= q < i
        ensures !HasSlot(at, names[i], q)
      {
        assert at[names[q]] == q && names[q] != names[i];
      }
      assert HasSlot(at, names[i], at[names[i]]);
    }
  }

  // Orders the names by repeatedly taking one with the least slot.
  method OrderedSlotNames(at: SlotMap) returns (names: seq<Name>)
    ensures SortedBySlot(at, names)
  {
    names := [];
    var rest := at.Keys;
    while rest != {}
      invariant rest <= at.Keys && |names| + |rest| == |at|
      invariant Distinct(names) && forall n :: n in at <==> n in names || n in rest
      invariant forall n :: n in names ==> n !in rest
      invariant forall i, j :: 0 <= i < j < |names| ==> at[names[i]] <= at[names[j]]
      invariant forall i, r :: 0 <= i < |names| && r in rest ==> at[names[i]] <= at[r]
      decreases |rest|
    {
      LeastSlot(at, rest);
      var next :| next in rest && forall r :: r in rest ==> at[next] <= at[r];
      names, rest := names + [next], rest - {next};
    }
  }

  lemma {:induction false} LeastSlot(at: SlotMap, rest: set<Name>)
    requires rest != {} && rest <= at.Keys
    ensures exists n :: n in rest && forall r :: r in rest ==> at[n] <= at[r]
    decreases |rest|
  {
    var x :| x in rest;
    if rest != {x} {
      LeastSlot(at, rest - {x});
      var n :| n in rest - {x} && forall r :: r in rest - {x} ==> at[n] <= at[r];
      var m := if at[x] <= at[n] then x else n;
      assert forall r :: r in rest ==> r == x || r in rest - {x};
      assert m in rest && forall r :: r in rest ==> at[m] <= at[r];
    }
  }

  class StorageLayout {
    var stackSlots: seq<Name>

    constructor (stackSlots: seq<Name>)
      ensures this.stackSlots == stackSlots
    {
      this.stackSlots := stackSlots;
    }

    method EnsureStackSlot(name: Name)
      modifies this
      ensures stackSlots == if name in old(stackSlots) then old(stackSlots) else old(stackSlots) + [name]
    {
      if name in stackSlots {
        return;
      }
      stackSlots := stackSlots + [name];
    }

    // Gives every block param a slot. No slot already given moves.
    method CoverBlockParams(blockParams: seq<Name>)
      modifies this
      ensures old(stackSlots) <= stackSlots
      ensures Distinct(old(stackSlots)) ==> Distinct(stackSlots)
      ensures forall n :: n in stackSlots <==> n in old(stackSlots) || n in blockParams
    {
      for i := 0 to |blockParams|
        invariant old(stackSlots) <= stackSlots
        invariant Distinct(old(stackSlots)) ==> Distinct(stackSlots)
        invariant forall n :: n in stackSlots <==> n in old(stackSlots) || n in blockParams[..i]
      {
        assert blockParams[..i + 1] == blockParams[..i] + [blockParams[i]];
        EnsureStackSlot(blockParams[i]);
      }
      assert blockParams[..|blockParams|] == blockParams;
    }
  }

  // Growing a list of distinct names keeps every slot read back from it.
  lemma {:induction false} GrowingKeepsSlots(names: seq<Name>, more: seq<Name>, n: Name)
    requires Distinct(names + more) && n in names
    ensures n in Positions(names) && n in Positions(names + more) && Positions(names + more)[n] == Positions(names)[n]
  {
    assert Distinct(names) by {
      forall i, j | 0 <= i < j < |names|
        ensures names[i] != names[j]
      {
        assert (names + more)[i] != (names + more)[j];
      }
    }
    PositionsNumber(names);
    PositionsNumber(names + more);
    var i :| 0 <= i < |names| && names[i] == n;
    assert (names + more)[i] == n;
  }

  // ---- Module globals ------------------------------------------------------

  class ModuleGlobalSlots {
    var slotByName: SlotMap
    var names: seq<Name>

    ghost predicate Valid()
      reads this
    {
      Numbers(slotByName, names)
    }

    constructor ()
      ensures Valid() && names == []
    {
      slotByName, names := map[], [];
    }

    // A name's slot, issued once and never changed; nothing when slots no longer fit.
    method SlotFor(name: Name) returns (slot: Option<nat>)
      requires Valid()
      modifies this
      ensures Valid() && GlobalCacheSpec.DistinctNames(names)
      ensures old(names) <= names && forall n :: n in names <==> n in old(names) || (n == name && slot.Some?)
      ensures slot.Some? ==> slot.value < |names| && names[slot.value] == name
      ensures slot.None? <==> name !in old(names) && |old(names)| > 0xFFFF_FFFF
    {
      if name in slotByName {
        return Some(slotByName[name]);
      }
      if |names| > 0xFFFF_FFFF {
        return None;
      }
      slot := Some(|names|);
      ghost var more := AssignNumbers(Slots(slotByName, |names|), name, names);
      slotByName := slotByName[name := |names|];
      names := names + [name];
    }
  }
}
