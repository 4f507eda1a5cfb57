/** Folding jumps to blocks that only return None (`soac-blockpy/src/block_py/cfg.rs`). */
module CfgFold {
  import opened Prelude
  import opened BlockIr
  import opened BlockSemantics

  // A block that does nothing but return the implicit None.
  predicate TrivialReturn<I>(block: Block<I>, isNone: I -> bool) {
    block.body == [] && block.term.Return? && isNone(block.term.value)
  }

  // The terminators of the trivial returns, by label.
  function TrivialTerms<I>(blocks: seq<Block<I>>, isNone: I -> bool): map<Label, Term<I>> {
    if blocks == [] then map[]
    else
      var b := blocks[|blocks| - 1];
      var terms := TrivialTerms(blocks[..|blocks| - 1], isNone);
      if TrivialReturn(b, isNone) then terms[b.blockLabel := b.term] else terms
  }

  function FoldedBlock<I>(terms: map<Label, Term<I>>, block: Block<I>): Block<I> {
    if block.term.Jump? && block.term.edge.target in terms then block.(term := terms[block.term.edge.target]) else block
  }

  function Folded<I>(blocks: seq<Block<I>>, isNone: I -> bool): (r: seq<Block<I>>)
    ensures |r| == |blocks|
    ensures forall i :: 0 <= i < |r| ==> r[i] == FoldedBlock(TrivialTerms(blocks, isNone), blocks[i])
  {
    seq(|blocks|, i requires 0 <= i < |blocks| => FoldedBlock(TrivialTerms(blocks, isNone), blocks[i]))
  }

  // Loading None cannot raise, changes nothing and always gives the same value.
  ghost predicate LoadsNone<I(!new), S(!new), V>(m: Machine<I, S, V>, isNone: I -> bool, none: V) {
    forall e, s :: isNone(e) ==> m.eval(e, s) == Value(s, none)
  }

  lemma {:induction false} TrivialTermsSound<I>(blocks: seq<Block<I>>, isNone: I -> bool, at: Label)
    requires DistinctLabels(blocks)
    ensures at in TrivialTerms(blocks, isNone) <==>
              at in Labels(blocks) && TrivialReturn(blocks[Find(blocks, at).value], isNone)
    ensures at in TrivialTerms(blocks, isNone) ==>
              TrivialTerms(blocks, isNone)[at] == blocks[Find(blocks, at).value].term
  {
    if blocks != [] {
      var init := blocks[..|blocks| - 1];
      assert forall i :: 0 <= i < |init| ==> init[i] == blocks[i];
      TrivialTermsSound(init, isNone, at);
      assert at in Labels(init) ==> at in Labels(blocks);
      if at in Labels(blocks) && at != blocks[|blocks| - 1].blockLabel {
        assert at in Labels(init);
      }
    }
  }

  // After the pass no jump of the input to a block that only returned None is left: its block returns None itself,
  // and every other block is as it was.
  lemma FoldedExactly<I>(blocks: seq<Block<I>>, isNone: I -> bool, i: nat, j: nat)
    requires DistinctLabels(blocks) && i < |blocks| && j < |blocks|
    requires blocks[i].term.Jump? && blocks[i].term.edge.target == blocks[j].blockLabel
    ensures var t, b := blocks[j], Folded(blocks, isNone)[i];
            if t.body == [] && t.term.Return? && isNone(t.term.value)
            then b == Block(blocks[i].blockLabel, blocks[i].body, Return(t.term.value), blocks[i].params, blocks[i].excEdge)
            else b == blocks[i]
  {
    FindUnique(blocks, j);
    TrivialTermsSound(blocks, isNone, blocks[j].blockLabel);
  }

  lemma NothingElseFolded<I>(blocks: seq<Block<I>>, isNone: I -> bool, i: nat)
    requires DistinctLabels(blocks) && i < |blocks|
    requires blocks[i].term.Jump? ==> blocks[i].term.edge.target !in Labels(blocks)
    ensures Folded(blocks, isNone)[i] == blocks[i]
  {
    if blocks[i].term.Jump? {
      TrivialTermsSound(blocks, isNone, blocks[i].term.edge.target);
    }
  }

  lemma FoldedKeepsLabels<I>(blocks: seq<Block<I>>, isNone: I -> bool)
    ensures Labels(Folded(blocks, isNone)) == Labels(blocks)
    ensures DistinctLabels(blocks) ==> DistinctLabels(Folded(blocks, isNone))
    ensures forall at :: Find(Folded(blocks, isNone), at) == Find(blocks, at)
  {
    var out := Folded(blocks, isNone);
    assert forall i :: 0 <= i < |out| ==> out[i].blockLabel == blocks[i].blockLabel;
    forall l | l in Labels(out) + Labels(blocks)
      ensures l in Labels(out) && l in Labels(blocks)
    {
      var i :| 0 <= i < |out| && (out[i].blockLabel == l || blocks[i].blockLabel == l);
    }
    forall at
      ensures Find(out, at) == Find(blocks, at)
    {
      SameLabelsFind(out, blocks, at);
    }
  }

  lemma {:induction false} SameLabelsFind<I>(a: seq<Block<I>>, b: seq<Block<I>>, at: Label)
    requires |a| == |b| && forall i :: 0 <= i < |a| ==> a[i].blockLabel == b[i].blockLabel
    ensures Find(a, at) == Find(b, at)
  {
    if a != [] {
      SameLabelsFind(a[..|a| - 1], b[..|b| - 1], at);
    }
  }

  // Edges lead to the same place before and after.
  lemma FoldedFollow<I, S, V>(m: Machine<I, S, V>, blocks: seq<Block<I>>, isNone: I -> bool,
                              excEdge: Option<BlockEdge>, exit: Exit<S, V>)
    ensures Follow(m, Folded(blocks, isNone), excEdge, exit) == Follow(m, blocks, excEdge, exit)
  {
    FoldedKeepsLabels(blocks, isNone);
  }

  // A jump to a trivial return ends as the return does, whatever its edge binds.
  lemma JumpToTrivialReturn<I(!new), S(!new), V>(m: Machine<I, S, V>, blocks: seq<Block<I>>, isNone: I -> bool, none: V,
      edge: BlockEdge, s: S)
    requires BindIsLocal(m) && LoadsNone(m, isNone, none)
    requires edge.target in Labels(blocks) && TrivialReturn(blocks[Find(blocks, edge.target).value], isNone)
    ensures Step(m, blocks, FollowEdge(m, blocks, edge, s)) == Done(Returned(m.finish(s), none))
  {
  }

  // A folded block takes one step where the original takes the jump and then the return.
  lemma FoldedJumpStep<I(!new), S(!new), V>(m: Machine<I, S, V>, blocks: seq<Block<I>>, isNone: I -> bool, none: V,
      b: Block<I>, s: S)
    requires DistinctLabels(blocks) && BindIsLocal(m) && LoadsNone(m, isNone, none)
    requires b.term.Jump? && b.term.edge.target in TrivialTerms(blocks, isNone)
    requires ExecStmts(m, b.body, s).Fall?
    ensures Step(m, blocks, Follow(m, blocks, b.excEdge, ExecBody(m, b.body, b.term, s)))
            == Done(Returned(m.finish(ExecStmts(m, b.body, s).state), none))
    ensures ExecBody(m, b.body, TrivialTerms(blocks, isNone)[b.term.edge.target], s)
            == Finished(ExecStmts(m, b.body, s).state, none)
  {
    var s1 := ExecStmts(m, b.body, s).state;
    TrivialTermsSound(blocks, isNone, b.term.edge.target);
    JumpToTrivialReturn(m, blocks, isNone, none, b.term.edge, s1);
    assert m.eval(TrivialTerms(blocks, isNone)[b.term.edge.target].value, s1) == Value(s1, none);
  }

  lemma StepTwice<I, S, V>(m: Machine<I, S, V>, blocks: seq<Block<I>>, c: Config<S, V>)
    ensures StepN(m, blocks, c, 1) == Step(m, blocks, c)
    ensures StepN(m, blocks, c, 2) == Step(m, blocks, Step(m, blocks, c))
  {
  }

  // One step of the folded blocks is one or two steps of the original.
  lemma FoldedStep<I(!new), S(!new), V>(m: Machine<I, S, V>, blocks: seq<Block<I>>, isNone: I -> bool, none: V, at: Label, s: S)
    returns (k: nat)
    requires DistinctLabels(blocks) && BindIsLocal(m) && LoadsNone(m, isNone, none)
    requires at in Labels(blocks)
    ensures k >= 1
    ensures StepN(m, blocks, At(at, s), k) == Step(m, Folded(blocks, isNone), At(at, s))
  {
    var terms := TrivialTerms(blocks, isNone);
    var b := blocks[Find(blocks, at).value];
    FoldedKeepsLabels(blocks, isNone);
    StepTwice(m, blocks, At(at, s));
    FoldedFollow(m, blocks, isNone, b.excEdge, ExecBody(m, b.body, FoldedBlock(terms, b).term, s));
    k := 1;
    if b.term.Jump? && b.term.edge.target in terms && ExecStmts(m, b.body, s).Fall? {
      FoldedJumpStep(m, blocks, isNone, none, b, s);
      k := 2;
    }
  }

  // Folding preserves every run from every label.
  lemma FoldPreservesRuns<I(!new), S(!new), V(!new)>(m: Machine<I, S, V>, blocks: seq<Block<I>>, isNone: I -> bool, none: V, at: Label)
    requires DistinctLabels(blocks) && BindIsLocal(m) && LoadsNone(m, isNone, none)
    requires at in Labels(blocks)
    ensures SameRuns(m, blocks, at, Folded(blocks, isNone), at)
  {
    var out, f := Folded(blocks, isNone), Same(Labels(blocks));
    FoldedKeepsLabels(blocks, isNone);
    forall l, s | l in f
      ensures StepMatches(m, out, blocks, f, l, s)
    {
      var k := FoldedStep(m, blocks, isNone, none, l, s);
      StepStaysInside(m, out, l, s);
    }
    SimulationSameRuns(m, out, blocks, f, at);
  }
}
