/** Flattening a whole block list: `linearize_structured_ifs` in `soac-blockpy/src/block_py/cfg.rs`. */
module CfgLinearizeBlocks {
  import opened BlockIr
  import opened BlockSemantics
  import opened CfgLinearize

  function ContextOf<I>(block: Block<I>): Context {
    Context(block.params, block.excEdge)
  }

  // The flattening of one block of the list.
  function LinearizedBlock<I>(next: nat, block: Block<I>): (seq<Block<I>>, nat) {
    Linearized(next, block.blockLabel, block.body, block.term, ContextOf(block))
  }

  // The flattening of the list, in order, drawing labels from one counter.
  function LinearizedBlocks<I>(next: nat, blocks: seq<Block<I>>): (r: (seq<Block<I>>, nat)) {
    if blocks == [] then ([], next)
    else
      var (init, next1) := LinearizedBlocks(next, blocks[..|blocks| - 1]);
      var (last, next2) := LinearizedBlock(next1, blocks[|blocks| - 1]);
      (init + last, next2)
  }

  // The label counter is above every label in use.
  ghost predicate LabelsBelow<I>(blocks: seq<Block<I>>, next: nat) {
    forall i :: 0 <= i < |blocks| ==>
      blocks[i].blockLabel < next && forall t :: t in BlockTargets(blocks[i]) ==> t < next
  }

  // ---- Shape ---------------------------------------------------------------

  lemma DistinctAppend<I>(a: seq<Block<I>>, b: seq<Block<I>>)
    requires DistinctLabels(a) && DistinctLabels(b)
    requires forall i, j :: 0 <= i < |a| && 0 <= j < |b| ==> a[i].blockLabel != b[j].blockLabel
    ensures DistinctLabels(a + b)
  {
  }

  lemma LabelsOfAppend<I>(a: seq<Block<I>>, b: seq<Block<I>>)
    ensures Labels(a + b) == Labels(a) + Labels(b)
  {
    forall l | l in Labels(a)
      ensures l in Labels(a + b)
    {
      var i :| 0 <= i < |a| && a[i].blockLabel == l;
      assert (a + b)[i].blockLabel == l;
    }
    forall l | l in Labels(b)
      ensures l in Labels(a + b)
    {
      var i :| 0 <= i < |b| && b[i].blockLabel == l;
      assert (a + b)[|a| + i].blockLabel == l;
    }
  }

  // Blocks split off one more block join the output so far: nothing clashes and nothing else is labelled.
  lemma AppendSplit<I>(done: seq<Block<I>>, last: seq<Block<I>>, known: set<Label>, at: Label, next: nat, next1: nat, next2: nat, ctx: Context)
    requires DistinctLabels(done) && FlatBlocks(done) && known <= Labels(done)
    requires forall i :: 0 <= i < |done| ==> done[i].blockLabel in known || next <= done[i].blockLabel < next1
    requires SplitFrom(last, at, next1, next2, ctx) && at !in known && at < next <= next1
    requires forall l :: l in known ==> l < next
    ensures DistinctLabels(done + last) && FlatBlocks(done + last) && known + {at} <= Labels(done + last)
    ensures forall i :: 0 <= i < |done + last| ==>
              (done + last)[i].blockLabel in known + {at} || next <= (done + last)[i].blockLabel < next2
  {
    forall i, j | 0 <= i < |done| && 0 <= j < |last|
      ensures done[i].blockLabel != last[j].blockLabel
    {
      assert done[i].blockLabel < next1;
    }
    DistinctAppend(done, last);
    LabelsOfAppend(done, last);
    assert last[0].blockLabel in Labels(last);
    hide DistinctLabels, Labels;
  }

  lemma LabelsGrow<I>(blocks: seq<Block<I>>)
    requires DistinctLabels(blocks) && blocks != []
    ensures var init, b := blocks[..|blocks| - 1], blocks[|blocks| - 1];
            Labels(blocks) == Labels(init) + {b.blockLabel} && b.blockLabel !in Labels(init) && DistinctLabels(init)
  {
  }

  // Output labels are distinct, every original label is kept, the rest are fresh, and no `if` remains.
  lemma {:induction false} LinearizedBlocksShape<I>(next: nat, blocks: seq<Block<I>>)
    requires DistinctLabels(blocks) && LabelsBelow(blocks, next)
    ensures var (out, next') := LinearizedBlocks(next, blocks);
            && next <= next'
            && DistinctLabels(out) && FlatBlocks(out)
            && Labels(blocks) <= Labels(out)
            && forall i :: 0 <= i < |out| ==> out[i].blockLabel in Labels(blocks) || next <= out[i].blockLabel < next'
  {
    if blocks != [] {
      var init, b := blocks[..|blocks| - 1], blocks[|blocks| - 1];
      LabelsGrow(blocks);
      assert forall i :: 0 <= i < |init| ==> init[i] == blocks[i];
      LinearizedBlocksShape(next, init);
      var (done, next1) := LinearizedBlocks(next, init);
      var (last, next2) := LinearizedBlock(next1, b);
      LinearizedShape(next1, b.blockLabel, b.body, b.term, ContextOf(b));
      assert forall l :: l in Labels(init) ==> l < next;
      AppendSplit(done, last, Labels(init), b.blockLabel, next, next1, next2, ContextOf(b));
    }
  }

  // Each block's flattening appears in the output as a unit.
  lemma {:induction false} LinearizedBlocksContain<I>(next: nat, blocks: seq<Block<I>>, j: nat) returns (from: nat)
    requires j < |blocks| && DistinctLabels(blocks) && LabelsBelow(blocks, next)
    ensures next <= from
    ensures forall b :: b in LinearizedBlock(from, blocks[j]).0 ==> b in LinearizedBlocks(next, blocks).0
  {
    var init := blocks[..|blocks| - 1];
    assert forall i :: 0 <= i < |init| ==> init[i] == blocks[i];
    if j < |init| {
      from := LinearizedBlocksContain(next, init, j);
    } else {
      LinearizedBlocksShape(next, init);
      from := LinearizedBlocks(next, init).1;
    }
  }

  lemma DistinctHosts<I>(cfg: seq<Block<I>>, blocks: seq<Block<I>>)
    requires DistinctLabels(cfg)
    requires forall b :: b in blocks ==> b in cfg
    ensures Hosts(cfg, blocks)
  {
  }

  // ---- Meaning -------------------------------------------------------------

  // An edge to a label below the counter leads to the same place before and after.
  lemma EdgeAgrees<I, S, V>(m: Machine<I, S, V>, next: nat, blocks: seq<Block<I>>, edge: BlockEdge, s: S)
    requires DistinctLabels(blocks) && LabelsBelow(blocks, next) && edge.target < next
    ensures FollowEdge(m, blocks, edge, s) == FollowEdge(m, LinearizedBlocks(next, blocks).0, edge, s)
  {
    var out := LinearizedBlocks(next, blocks).0;
    LinearizedBlocksShape(next, blocks);
    match Find(blocks, edge.target)
    case Some(j) =>
      var from := LinearizedBlocksContain(next, blocks, j);
      LinearizedShape(from, edge.target, blocks[j].body, blocks[j].term, ContextOf(blocks[j]));
      var b := LinearizedBlock(from, blocks[j]).0[0];
      DistinctHosts(out, [b]);
      assert b in [b];
    case None =>
      assert edge.target !in Labels(out);
  }

  // Every exit of a block of the list leads to the same place before and after.
  lemma FollowAgrees<I, S, V>(m: Machine<I, S, V>, next: nat, blocks: seq<Block<I>>, j: nat, s: S)
    requires DistinctLabels(blocks) && LabelsBelow(blocks, next) && j < |blocks|
    ensures var b := blocks[j];
            var exit := ExecBody(m, b.body, b.term, s);
            Follow(m, blocks, b.excEdge, exit)
            == Follow(m, LinearizedBlocks(next, blocks).0, b.excEdge, exit)
  {
    var b := blocks[j];
    var exit := ExecBody(m, b.body, b.term, s);
    ExitTargetMentioned(m, b.body, s);
    match exit
    case ToBlock(edge, s1) =>
      assert edge.target in BlockTargets(b);
      EdgeAgrees(m, next, blocks, edge, s1);
    case Threw(s1) =>
      if b.excEdge.Some? {
        assert b.excEdge.value.target in BlockTargets(b);
        EdgeAgrees(m, next, blocks, b.excEdge.value, s1);
      }
    case Finished(_, _) =>
  }

  // One structured step is one or more flat steps.
  lemma LinearizedStep<I, S(!new), V>(m: Machine<I, S, V>, next: nat, blocks: seq<Block<I>>, at: Label, s: S)
    returns (k: nat)
    requires RebindIsIdentity(m) && DistinctLabels(blocks) && LabelsBelow(blocks, next)
    requires at in Labels(blocks)
    ensures k >= 1
    ensures StepN(m, LinearizedBlocks(next, blocks).0, At(at, s), k) == Step(m, blocks, At(at, s))
  {
    var out := LinearizedBlocks(next, blocks).0;
    var j := Find(blocks, at).value;
    LinearizedBlocksShape(next, blocks);
    var from := LinearizedBlocksContain(next, blocks, j);
    DistinctHosts(out, LinearizedBlock(from, blocks[j]).0);
    k := LinearizedRuns(m, out, from, at, blocks[j].body, blocks[j].term, ContextOf(blocks[j]), s);
    FollowAgrees(m, next, blocks, j, s);
  }

  // Flattening preserves every run from every original label: outcomes, handlers and divergence.
  lemma LinearizePreservesRuns<I, S(!new), V(!new)>(m: Machine<I, S, V>, next: nat, blocks: seq<Block<I>>, at: Label)
    requires RebindIsIdentity(m) && DistinctLabels(blocks) && LabelsBelow(blocks, next)
    requires at in Labels(blocks)
    ensures SameRuns(m, blocks, at, LinearizedBlocks(next, blocks).0, at)
  {
    var out, f := LinearizedBlocks(next, blocks).0, Same(Labels(blocks));
    forall l, s | l in f
      ensures StepMatches(m, blocks, out, f, l, s)
    {
      var k := LinearizedStep(m, next, blocks, l, s);
    }
    SimulationSameRuns(m, blocks, out, f, at);
  }
}
