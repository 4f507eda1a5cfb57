/** What each dict event and each call does to every slot, pending stack and dict of the module-global cache
    (`soac-eval/src/module_globals.rs`). */
module GlobalCacheEvents {
  import opened Prelude
  import opened GlobalCacheSpec

  // A key is read as a name if it is the name, or goes on with a NUL after it.
  predicate ReadAs(key: Key, name: Name) {
    && key.StrKey? && '\0' !in name
    && (key.name == name || (|name| < |key.name| && key.name[..|name|] == name && key.name[|name|] == '\0'))
  }

  // Every slot has a stack.
  predicate Shaped(names: seq<Name>, st: CacheState) {
    DistinctNames(names) && |st.slots| == |st.pending| == |names|
  }

  // What is on top of a slot's stack.
  predicate OnTop(st: CacheState, i: nat, value: Option<Obj>)
    requires i < |st.pending|
  {
    |st.pending[i]| > 0 && st.pending[i][|st.pending[i]| - 1] == value
  }

  predicate SlotUntouched(a: CacheState, b: CacheState, i: nat)
    requires i < |a.slots| == |a.pending| == |b.slots| == |b.pending|
  {
    b.slots[i] == a.slots[i] && b.pending[i] == a.pending[i]
  }

  lemma {:induction false} CutIsReadAs(s: string, name: Name)
    ensures CutAtNul(s) == name <==> ReadAs(StrKey(s), name)
  {
    if s != "" && s[0] != '\0' && name != "" {
      hide ReadAs;
      CutIsReadAs(s[1..], name[1..]);
      ReadAsNext(s, name);
      assert CutAtNul(s) == [s[0]] + CutAtNul(s[1..]);
      assert name == [name[0]] + name[1..];
    } else {
      ReadAsNothing(s, name);
    }
  }

  lemma ReadAsNothing(s: string, name: Name)
    requires s == "" || s[0] == '\0' || name == ""
    ensures ReadAs(StrKey(s), name) <==> name == "" && (s == "" || s[0] == '\0')
  {
  }

  lemma ReadAsNext(s: string, name: Name)
    requires s != "" && s[0] != '\0' && name != ""
    ensures ReadAs(StrKey(s), name) <==> s[0] == name[0] && ReadAs(StrKey(s[1..]), name[1..])
  {
    assert name == [name[0]] + name[1..] && s == [s[0]] + s[1..];
    assert '\0' in name <==> name[0] == '\0' || '\0' in name[1..];
    if |name| <= |s| {
      assert s[..|name|] == [s[0]] + s[1..][..|name| - 1];
    }
  }

  // The slot an event is about.
  lemma SlotForKeyExactly(names: seq<Name>, key: Key, i: nat)
    requires DistinctNames(names) && i < |names|
    ensures SlotForKey(names, key) == Some(i) <==> ReadAs(key, names[i])
  {
    if key.StrKey? {
      CutIsReadAs(key.name, names[i]);
      assert names[i] in names;
    }
  }

  // Other code sets a global: the slot its key is read as takes the value, unless the value is the one expected, which
  // then is expected no more; no other slot changes.
  lemma SetExactly(names: seq<Name>, st: CacheState, key: Key, value: Obj, i: nat)
    requires Shaped(names, st) && i < |names|
    ensures var after := Step(names, st, ExternalSet(key, value));
            && Shaped(names, after) && after.builtins == st.builtins
            && after.globals == (if key.StrKey? then st.globals[key.name := value] else st.globals)
            && (!ReadAs(key, names[i]) ==> SlotUntouched(st, after, i))
            && (ReadAs(key, names[i]) && !OnTop(st, i, Some(value)) ==> after.slots[i] == Some(value) && after.pending[i] == st.pending[i])
            && (ReadAs(key, names[i]) && OnTop(st, i, Some(value)) ==>
                  after.slots[i] == st.slots[i] && after.pending[i] + [Some(value)] == st.pending[i])
  {
    hide SlotForKey, ReadAs, DistinctNames;
    SlotForKeyExactly(names, key, i);
  }

  // Other code deletes a global: the same with an empty slot.
  lemma DeletedExactly(names: seq<Name>, st: CacheState, key: Key, i: nat)
    requires Shaped(names, st) && i < |names|
    ensures key.OtherKey? || key.name !in st.globals ==> Step(names, st, ExternalDel(key)) == st
    ensures key.StrKey? && key.name in st.globals ==>
              var after := Step(names, st, ExternalDel(key));
              && Shaped(names, after) && after.builtins == st.builtins && after.globals == st.globals - {key.name}
              && (!ReadAs(key, names[i]) ==> SlotUntouched(st, after, i))
              && (ReadAs(key, names[i]) && !OnTop(st, i, None) ==> after.slots[i] == None && after.pending[i] == st.pending[i])
              && (ReadAs(key, names[i]) && OnTop(st, i, None) ==>
                    after.slots[i] == st.slots[i] && after.pending[i] + [None] == st.pending[i])
  {
    hide SlotForKey, ReadAs, DistinctNames;
    SlotForKeyExactly(names, key, i);
  }

  // The globals are cloned over, cleared or deallocated: every slot is emptied and every expectation stays.
  lemma ReplacedExactly(names: seq<Name>, st: CacheState, event: DictEvent, contents: Dict)
    requires event in {Cloned, Cleared, Deallocated}
    ensures var after := Step(names, st, ExternalReplace(event, contents));
            && after.globals == contents && after.builtins == st.builtins && after.pending == st.pending
            && |after.slots| == |st.slots| && forall i :: 0 <= i < |st.slots| ==> after.slots[i] == None
  {
  }

  // A builtin is set or deleted: the slot its key is read as is emptied unless the globals hold the key.
  lemma BuiltinExactly(names: seq<Name>, st: CacheState, key: Key, value: Obj, deletes: bool, i: nat)
    requires Shaped(names, st) && i < |names|
    requires deletes ==> key.StrKey? && key.name in st.builtins
    ensures var after := Step(names, st, if deletes then BuiltinsDel(key) else BuiltinsSet(key, value));
            && |after.slots| == |st.slots| && after.globals == st.globals && after.pending == st.pending
            && after.builtins == (if deletes then st.builtins - {key.name}
                                  else if key.StrKey? then st.builtins[key.name := value] else st.builtins)
            && after.slots[i] == if ReadAs(key, names[i]) && key.name !in st.globals then None else st.slots[i]
  {
    hide SlotForKey, ReadAs, DistinctNames;
    SlotForKeyExactly(names, key, i);
  }

  // The builtins are cloned over, cleared or deallocated: the slots of names the globals lack are emptied.
  lemma BuiltinsReplacedExactly(names: seq<Name>, st: CacheState, event: DictEvent, contents: Dict, i: nat)
    requires Shaped(names, st) && i < |names| && event in {Cloned, Cleared, Deallocated}
    ensures var after := Step(names, st, BuiltinsReplace(event, contents));
            && |after.slots| == |st.slots| && after.globals == st.globals && after.builtins == contents && after.pending == st.pending
            && after.slots[i] == if '\0' !in names[i] && names[i] !in st.globals then None else st.slots[i]
  {
  }

  // A store inside which nothing else runs: on success the name, its slot and nothing else hold the value; when it
  // fails without an event nothing changes.
  lemma StoreExactly(names: seq<Name>, st: CacheState, slot: nat, value: Obj)
    requires ProperNames(names) && Shaped(names, st) && slot < |names|
    ensures Step(names, st, Store(names[slot], slot, value, Wrote, []))
         == st.(globals := st.globals[names[slot] := value], slots := st.slots[slot := Some(value)])
    ensures Step(names, st, Store(names[slot], slot, value, FailedBeforeEvent, [])) == st
  {
    SlotForUnique(names, slot);
    hide SlotForKey, ProperNames, DistinctNames;
    Repushed(st, slot, Some(value));
  }

  // A delete inside which nothing else runs: of a name that is there, it goes and its slot is emptied; of a missing name
  // a quiet delete empties the slot and another changes nothing, nor does one that fails for another reason.
  lemma DeleteExactly(names: seq<Name>, st: CacheState, slot: nat, quietly: bool)
    requires ProperNames(names) && Shaped(names, st) && slot < |names|
    ensures names[slot] in st.globals ==>
              Step(names, st, Delete(names[slot], slot, quietly, Removes, []))
              == st.(globals := st.globals - {names[slot]}, slots := st.slots[slot := None])
    ensures names[slot] !in st.globals ==>
              Step(names, st, Delete(names[slot], slot, quietly, Removes, []))
              == if quietly then st.(slots := st.slots[slot := None]) else st
    ensures Step(names, st, Delete(names[slot], slot, quietly, FailsOtherwise, [])) == st
  {
    SlotForUnique(names, slot);
    hide SlotForKey, ProperNames, DistinctNames;
    Repushed(st, slot, None);
  }

  // What was pushed comes off again.
  lemma Repushed(st: CacheState, slot: nat, value: Option<Obj>)
    requires slot < |st.pending|
    ensures Expects(Push(st, slot, value), slot, value) && Pop(Push(st, slot, value), slot, value) == st
  {
    var pushed := st.pending[slot] + [value];
    assert pushed[..|pushed| - 1] == st.pending[slot];
    assert st.pending[slot := pushed][slot := st.pending[slot]] == st.pending;
  }
}
