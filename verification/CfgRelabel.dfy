/** Renumbering blocks densely (`soac-blockpy/src/block_py/cfg.rs`), and the density the
    validator then demands (`soac-blockpy/src/block_py/validate.rs`). */
module CfgRelabel {
  import opened Prelude
  import opened BlockIr
  import opened BlockSemantics

  // Each label's position; a later block would win, so labels must be distinct.
  function DenseMap<I>(blocks: seq<Block<I>>): (f: map<Label, Label>)
    ensures forall l :: l in f <==> l in Labels(blocks)
    ensures forall l :: l in f ==> Find(blocks, l) == Some(f[l])
  {
    map l | l in Labels(blocks) :: Find(blocks, l).value
  }

  function RelabelEdge(f: map<Label, Label>, edge: BlockEdge): BlockEdge
    requires edge.target in f
  {
    edge.(target := f[edge.target])
  }

  function RelabelTerm<I>(f: map<Label, Label>, term: Term<I>): Term<I>
    requires TermTargets(term) <= f.Keys
  {
    match term
    case Jump(edge) => Jump(RelabelEdge(f, edge))
    case IfTerm(test, thenLabel, elseLabel) => IfTerm(test, f[thenLabel], f[elseLabel])
    case BranchTable(index, targets, defaultLabel) =>
      assert forall t :: t in targets ==> t in TermTargets(term);
      BranchTable(index, seq(|targets|, i requires 0 <= i < |targets| => f[targets[i]]), f[defaultLabel])
    case Raise(_) => term
    case Return(_) => term
  }

  // Every destination is a block of the list; the pass panics otherwise.
  predicate TargetsCovered<I>(blocks: seq<Block<I>>) {
    forall i :: 0 <= i < |blocks| ==> Covered(DenseMap(blocks), blocks[i])
  }

  predicate Covered<I>(f: map<Label, Label>, block: Block<I>) {
    block.blockLabel in f && TermTargets(block.term) <= f.Keys && ExcTargets(block) <= f.Keys
  }

  function RelabelBlock<I>(f: map<Label, Label>, block: Block<I>): Block<I>
    requires Covered(f, block)
  {
    Block(f[block.blockLabel], block.body, RelabelTerm(f, block.term), block.params,
          if block.excEdge.Some? then Some(RelabelEdge(f, block.excEdge.value)) else None)
  }

  function Relabeled<I>(blocks: seq<Block<I>>): (r: seq<Block<I>>)
    requires TargetsCovered(blocks)
    ensures |r| == |blocks|
    ensures forall i :: 0 <= i < |r| ==> r[i] == RelabelBlock(DenseMap(blocks), blocks[i])
  {
    seq(|blocks|, i requires 0 <= i < |blocks| => RelabelBlock(DenseMap(blocks), blocks[i]))
  }

  // Labels are positions.
  predicate Dense<I>(blocks: seq<Block<I>>) {
    forall i :: 0 <= i < |blocks| ==> blocks[i].blockLabel == i
  }

  // The validator's lookup: by position, and the label there must agree.
  function LookupKnownBlock<I>(blocks: seq<Block<I>>, at: Label): Option<Block<I>> {
    if at < |blocks| && blocks[at].blockLabel == at then Some(blocks[at]) else None
  }

  // The renumbering is one-to-one onto 0..n, and the output is dense.
  lemma RelabelIsDense<I>(blocks: seq<Block<I>>)
    requires DistinctLabels(blocks) && TargetsCovered(blocks)
    ensures Dense(Relabeled(blocks)) && DistinctLabels(Relabeled(blocks))
    ensures forall l :: l in DenseMap(blocks) ==> DenseMap(blocks)[l] < |blocks|
    ensures forall l, k :: l in DenseMap(blocks) && k in DenseMap(blocks) && DenseMap(blocks)[l] == DenseMap(blocks)[k] ==> l == k
    ensures forall i :: 0 <= i < |blocks| ==> blocks[i].blockLabel in DenseMap(blocks) && DenseMap(blocks)[blocks[i].blockLabel] == i
  {
    forall i | 0 <= i < |blocks|
      ensures Find(blocks, blocks[i].blockLabel) == Some(i)
      ensures blocks[i].blockLabel in Labels(blocks)
    {
      FindUnique(blocks, i);
    }
  }

  // On dense blocks, looking up by position finds what looking up by label finds.
  lemma DenseLookup<I>(blocks: seq<Block<I>>, at: Label)
    requires Dense(blocks)
    ensures LookupKnownBlock(blocks, at) ==
            match Find(blocks, at) { case Some(i) => Some(blocks[i]) case None => None }
  {
  }

  // Every destination of the output passes the validator's lookup.
  lemma RelabelTargetsKnown<I>(blocks: seq<Block<I>>, i: nat, t: Label)
    requires DistinctLabels(blocks) && TargetsCovered(blocks) && i < |blocks|
    requires t in TermTargets(Relabeled(blocks)[i].term) || t in ExcTargets(Relabeled(blocks)[i])
    ensures LookupKnownBlock(Relabeled(blocks), t).Some?
  {
    hide DenseMap, Labels, DistinctLabels, RelabelTerm;
    RelabelIsDense(blocks);
    var f := DenseMap(blocks);
    assert Covered(f, blocks[i]);
    var l: Label;
    if t in ExcTargets(Relabeled(blocks)[i]) {
      l := blocks[i].excEdge.value.target;
      assert l in ExcTargets(blocks[i]);
    } else {
      l := RelabelTermTarget(f, blocks[i].term, t);
    }
    assert f[l] == t;
  }

  lemma RelabelTermTarget<I>(f: map<Label, Label>, term: Term<I>, t: Label) returns (l: Label)
    requires TermTargets(term) <= f.Keys && t in TermTargets(RelabelTerm(f, term))
    ensures l in TermTargets(term) && l in f && f[l] == t
  {
    match term
    case Jump(edge) => l := edge.target;
    case IfTerm(_, thenLabel, elseLabel) => l := if f[thenLabel] == t then thenLabel else elseLabel;
    case BranchTable(_, targets, defaultLabel) =>
      l := defaultLabel;
      if f[defaultLabel] != t {
        assert forall x :: x in targets ==> x in TermTargets(term);
        var ts := RelabelTerm(f, term).targets;
        var i :| 0 <= i < |ts| && ts[i] == t;
        l := targets[i];
      }
  }

  // ---- Meaning -------------------------------------------------------------

  function RelabelExit<S, V>(f: map<Label, Label>, exit: Exit<S, V>): Exit<S, V>
    requires exit.ToBlock? ==> exit.edge.target in f
  {
    match exit
    case ToBlock(edge, s) => ToBlock(RelabelEdge(f, edge), s)
    case Threw(_) => exit
    case Finished(_, _) => exit
  }

  lemma RelabelTermExit<I, S, V>(m: Machine<I, S, V>, f: map<Label, Label>, term: Term<I>, s: S)
    requires TermTargets(term) <= f.Keys
    ensures ExecTerm(m, term, s).ToBlock? ==> ExecTerm(m, term, s).edge.target in f
    ensures ExecTerm(m, RelabelTerm(f, term), s) == RelabelExit(f, ExecTerm(m, term, s))
  {
  }

  // Following a relabelled edge reaches the relabelled block in the same state.
  lemma RelabelFollowEdge<I, S, V>(m: Machine<I, S, V>, blocks: seq<Block<I>>, edge: BlockEdge, s: S)
    requires DistinctLabels(blocks) && TargetsCovered(blocks) && edge.target in DenseMap(blocks)
    ensures var c := FollowEdge(m, blocks, edge, s);
            c.At? && c.point == edge.target
            && FollowEdge(m, Relabeled(blocks), RelabelEdge(DenseMap(blocks), edge), s)
               == At(DenseMap(blocks)[edge.target], c.state)
  {
    RelabelIsDense(blocks);
    FindUnique(Relabeled(blocks), DenseMap(blocks)[edge.target]);
  }

  lemma RelabelStep<I, S, V>(m: Machine<I, S, V>, blocks: seq<Block<I>>, at: Label, s: S)
    requires DistinctLabels(blocks) && TargetsCovered(blocks) && FlatBlocks(blocks) && at in Labels(blocks)
    ensures StepMatches(m, blocks, Relabeled(blocks), DenseMap(blocks), at, s)
  {
    var f, out := DenseMap(blocks), Relabeled(blocks);
    var b := blocks[f[at]];
    RelabelIsDense(blocks);
    FindUnique(out, f[at]);
    assert Covered(f, b);
    FlatHasNoNestedTargets(b.body);
    ExitTargetMentioned(m, b.body, s);
    var flow := ExecStmts(m, b.body, s);
    if flow.Fall? {
      RelabelTermExit(m, f, b.term, flow.state);
    }
    var exit := ExecBody(m, b.body, b.term, s);
    if exit.ToBlock? {
      RelabelFollowEdge(m, blocks, exit.edge, exit.state);
    } else if exit.Threw? && b.excEdge.Some? {
      assert b.excEdge.value.target in ExcTargets(b);
      RelabelFollowEdge(m, blocks, b.excEdge.value, exit.state);
    }
    assert StepN(m, out, At(f[at], s), 1) == StepN(m, out, Step(m, out, At(f[at], s)), 0);
  }

  // Relabelling preserves every run, each label standing for its position.
  lemma RelabelPreservesRuns<I, S(!new), V(!new)>(m: Machine<I, S, V>, blocks: seq<Block<I>>, at: Label)
    requires DistinctLabels(blocks) && TargetsCovered(blocks) && FlatBlocks(blocks) && at in Labels(blocks)
    ensures SameRuns(m, blocks, at, Relabeled(blocks), DenseMap(blocks)[at])
  {
    forall l, s | l in DenseMap(blocks)
      ensures StepMatches(m, blocks, Relabeled(blocks), DenseMap(blocks), l, s)
    {
      RelabelStep(m, blocks, l, s);
    }
    SimulationSameRuns(m, blocks, Relabeled(blocks), DenseMap(blocks), at);
  }
}
