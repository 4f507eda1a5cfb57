/** The control-flow passes composed, in the order the compiler runs them
    (`soac-blockpy/src/passes/ruff_to_blockpy/mod.rs`, `soac-blockpy/src/passes/mod.rs`). */
module CfgPipeline {
  import opened BlockIr
  import opened BlockSemantics
  import opened CfgLinearize
  import opened CfgLinearizeBlocks
  import opened CfgFold
  import opened CfgPrune
  import opened CfgRelabel

  lemma SameRunsTrans<I, S(!new), V(!new)>(m: Machine<I, S, V>, a: seq<Block<I>>, la: Label, b: seq<Block<I>>, lb: Label,
                                           c: seq<Block<I>>, lc: Label)
    requires SameRuns(m, a, la, b, lb) && SameRuns(m, b, lb, c, lc)
    ensures SameRuns(m, a, la, c, lc)
  {
  }

  // Every destination named anywhere in the list, nested branches included, is a block of the list.
  ghost predicate Closed<I>(blocks: seq<Block<I>>) {
    forall i :: 0 <= i < |blocks| ==> BlockTargets(blocks[i]) <= Labels(blocks)
  }

  // The entry and every block's handler.
  function BuilderRoots<I>(blocks: seq<Block<I>>, entry: Label): set<Label> {
    {entry} + set i, l | 0 <= i < |blocks| && l in ExcTargets(blocks[i]) :: l
  }

  // ---- What each pass keeps about destinations -----------------------------

  lemma FoldedTargets<I>(blocks: seq<Block<I>>, isNone: I -> bool, i: nat)
    requires i < |blocks| && DistinctLabels(blocks)
    ensures BlockTargets(Folded(blocks, isNone)[i]) <= BlockTargets(blocks[i])
  {
    if blocks[i].term.Jump? {
      TrivialTermsSound(blocks, isNone, blocks[i].term.edge.target);
    }
  }

  lemma FoldedClosed<I>(blocks: seq<Block<I>>, isNone: I -> bool, next: nat)
    requires DistinctLabels(blocks)
    ensures Closed(blocks) ==> Closed(Folded(blocks, isNone))
    ensures LabelsBelow(blocks, next) ==> LabelsBelow(Folded(blocks, isNone), next)
  {
    FoldedKeepsLabels(blocks, isNone);
    forall i | 0 <= i < |blocks|
      ensures BlockTargets(Folded(blocks, isNone)[i]) <= BlockTargets(blocks[i])
    {
      FoldedTargets(blocks, isNone, i);
    }
  }

  // Kept blocks only name kept blocks.
  lemma PrunedClosed<I>(blocks: seq<Block<I>>, entry: Label, next: nat)
    requires DistinctLabels(blocks) && Closed(blocks) && LabelsBelow(blocks, next)
    requires NestedTargetsKept(blocks, BuilderRoots(blocks, entry))
    ensures var out := Retained(blocks, KeptLabels(blocks, BuilderRoots(blocks, entry)));
            Closed(out) && LabelsBelow(out, next)
  {
    var roots := BuilderRoots(blocks, entry);
    var keep := KeptLabels(blocks, roots);
    var out := Retained(blocks, keep);
    forall k | 0 <= k < |out|
      ensures BlockTargets(out[k]) <= Labels(out) && out[k].blockLabel < next && forall t :: t in BlockTargets(out[k]) ==> t < next
    {
      assert out[k] in out;
      var i :| 0 <= i < |blocks| && blocks[i] == out[k];
      FindUnique(blocks, i);
      forall t | t in BlockTargets(blocks[i])
        ensures t in Labels(out)
      {
        if t in TermTargets(blocks[i].term) {
          ReachesNext(SuccessorMap(blocks), roots, blocks[i].blockLabel, t);
        } else if t in ExcTargets(blocks[i]) {
          ReachesRoot(SuccessorMap(blocks), roots, t);
        }
        assert t in keep;
        RetainedFind(blocks, keep, t);
      }
    }
  }

  // Each terminator goes to an outside label or to one drawn from the counter.
  ghost predicate TermsWithin<I>(blocks: seq<Block<I>>, outside: set<Label>, lo: nat, hi: nat) {
    forall b, t :: b in blocks && t in TermTargets(b.term) ==> t in outside || lo <= t < hi
  }

  lemma TermsWithinJoin<I>(head: Block<I>, thens: seq<Block<I>>, elses: seq<Block<I>>, joins: seq<Block<I>>,
                          outside: set<Label>, lo: nat, hi: nat)
    requires TermsWithin([head], outside, lo, hi) && TermsWithin(thens, outside, lo, hi)
    requires TermsWithin(elses, outside, lo, hi) && TermsWithin(joins, outside, lo, hi)
    ensures TermsWithin([head] + thens + elses + joins, outside, lo, hi)
  {
  }

  lemma {:induction false} LinearizedTargets<I>(next: nat, at: Label, body: seq<Stmt<I>>, term: Term<I>, ctx: Context,
                                                outside: set<Label>, lo: nat, hi: nat)
    requires at < next && NestedTargets(body) <= outside
    requires forall t :: t in TermTargets(term) ==> t in outside || lo <= t < hi
    requires lo <= next && Linearized(next, at, body, term, ctx).1 <= hi
    ensures TermsWithin(Linearized(next, at, body, term, ctx).0, outside, lo, hi)
    decreases body, 1
  {
    hide Linearized, LinearizedFragment, JoinTerm, TermsWithin, NestedTargets, FragmentTargets, StmtTargets, TermTargets, FirstIf;
    var i := FirstIf(body);
    if i == |body| {
      FlatTargets(next, at, body, term, ctx, outside, lo, hi);
    } else {
      assert body[i].body < body[i] && body[i].orelse < body[i] && body[i] in body;
      var head, next1, thens, next2, elses, next3, joins, next4 := Pieces(next, at, body, term, ctx, i);
      PiecesInOrder(next, body, term, ctx, i, next1, next2, next3);
      var fall := JoinTerm(body[i + 1..], term, next + 2);
      BranchTargetsAt(body, i);
      HeadWithin(head, body[i + 1..], term, next, outside, lo, hi);
      FragmentLinearizedTargets(next1, next, body[i].body, fall, ctx, outside, lo, hi);
      FragmentLinearizedTargets(next2, next + 1, body[i].orelse, fall, ctx, outside, lo, hi);
      if i + 1 < |body| {
        LinearizedTargets(next3, next + 2, body[i + 1..], term, ctx, outside, lo, hi);
      }
      TermsWithinJoin(head, thens, elses, joins, outside, lo, hi);
    }
  }

  lemma FlatTargets<I>(next: nat, at: Label, body: seq<Stmt<I>>, term: Term<I>, ctx: Context, outside: set<Label>, lo: nat, hi: nat)
    requires FirstIf(body) == |body|
    requires forall t :: t in TermTargets(term) ==> t in outside || lo <= t < hi
    ensures TermsWithin(Linearized(next, at, body, term, ctx).0, outside, lo, hi)
  {
  }

  lemma BranchTargetsAt<I>(body: seq<Stmt<I>>, i: nat)
    requires i < |body| && body[i].If?
    ensures FragmentTargets(body[i].body) <= NestedTargets(body) && FragmentTargets(body[i].orelse) <= NestedTargets(body)
    ensures NestedTargets(body[i + 1..]) <= NestedTargets(body)
  {
    NestedTargetsAt(body, i);
  }

  lemma HeadWithin<I>(head: Block<I>, rest: seq<Stmt<I>>, term: Term<I>, next: nat, outside: set<Label>, lo: nat, hi: nat)
    requires forall t :: t in TermTargets(term) ==> t in outside || lo <= t < hi
    requires head.term.IfTerm? && head.term.thenLabel == next && head.term.elseLabel == next + 1
    requires lo <= next && next + (if rest == [] then 2 else 3) <= hi
    ensures TermsWithin([head], outside, lo, hi) && TermsWithin([head][1..], outside, lo, hi)
    ensures forall t :: t in TermTargets(JoinTerm(rest, term, next + 2)) ==> t in outside || lo <= t < hi
  {
  }

  // The pieces of a body with an `if` draw labels in order, and each starts with the label the head gives it.
  lemma PiecesInOrder<I>(next: nat, body: seq<Stmt<I>>, term: Term<I>, ctx: Context, i: nat, next1: nat, next2: nat, next3: nat)
    requires i == FirstIf(body) < |body| && next1 == if i + 1 == |body| then next + 2 else next + 3
    requires next2 == LinearizedFragment(next1, next, body[i].body, JoinTerm(body[i + 1..], term, next + 2), ctx).1
    requires next3 == LinearizedFragment(next2, next + 1, body[i].orelse, JoinTerm(body[i + 1..], term, next + 2), ctx).1
    ensures next1 <= next2 <= next3
    ensures StartsAt(LinearizedFragment(next1, next, body[i].body, JoinTerm(body[i + 1..], term, next + 2), ctx).0, next)
    ensures StartsAt(LinearizedFragment(next2, next + 1, body[i].orelse, JoinTerm(body[i + 1..], term, next + 2), ctx).0, next + 1)
    ensures i + 1 < |body| ==> next3 <= Linearized(next3, next + 2, body[i + 1..], term, ctx).1
    ensures i + 1 < |body| ==> StartsAt(Linearized(next3, next + 2, body[i + 1..], term, ctx).0, next + 2)
  {
    hide Linearized, LinearizedFragment, JoinTerm, FirstIf;
    FragmentShape(next1, next, body[i].body, JoinTerm(body[i + 1..], term, next + 2), ctx);
    FragmentShape(next2, next + 1, body[i].orelse, JoinTerm(body[i + 1..], term, next + 2), ctx);
    if i + 1 < |body| {
      LinearizedShape(next3, next + 2, body[i + 1..], term, ctx);
    }
  }

  ghost predicate StartsAt<I>(blocks: seq<Block<I>>, at: Label) {
    blocks != [] && blocks[0].blockLabel == at
  }

  lemma {:induction false} FragmentLinearizedTargets<I>(next: nat, at: Label, fragment: Fragment<I>, fall: Term<I>, ctx: Context,
                                                        outside: set<Label>, lo: nat, hi: nat)
    requires at < next && FragmentTargets(fragment) <= outside
    requires forall t :: t in TermTargets(fall) ==> t in outside || lo <= t < hi
    requires lo <= next && LinearizedFragment(next, at, fragment, fall, ctx).1 <= hi
    ensures TermsWithin(LinearizedFragment(next, at, fragment, fall, ctx).0, outside, lo, hi)
    decreases fragment, 2
  {
    LinearizedTargets(next, at, fragment.body, TermOr(fragment.term, fall), ctx, outside, lo, hi);
  }

  // Every label drawn from the counter ends up on a block.
  lemma {:induction false} LinearizedUsesLabels<I>(next: nat, at: Label, body: seq<Stmt<I>>, term: Term<I>, ctx: Context, l: Label)
    requires at < next && next <= l < Linearized(next, at, body, term, ctx).1
    ensures exists b :: b in Linearized(next, at, body, term, ctx).0 && b.blockLabel == l
    decreases body, 1
  {
    hide Linearized, LinearizedFragment, FirstIf, JoinTerm;
    var i := FirstIf(body);
    if i == |body| {
      FlatPieces(next, at, body, term, ctx);
    } else {
      assert body[i].body < body[i] && body[i].orelse < body[i] && body[i] in body;
      var head, next1, thens, next2, elses, next3, joins, next4 := Pieces(next, at, body, term, ctx, i);
      PiecesInOrder(next, body, term, ctx, i, next1, next2, next3);
      var fall := JoinTerm(body[i + 1..], term, next + 2);
      assert forall b :: b in thens || b in elses || b in joins ==> b in [head] + thens + elses + joins;
      if l < next1 {
        assert l == next ==> thens[0] in thens && thens[0].blockLabel == l;
        assert l == next + 1 ==> elses[0] in elses && elses[0].blockLabel == l;
        assert l == next + 2 ==> joins[0] in joins && joins[0].blockLabel == l;
      } else if l < next2 {
        FragmentUsesLabels(next1, next, body[i].body, fall, ctx, l);
      } else if l < next3 {
        FragmentUsesLabels(next2, next + 1, body[i].orelse, fall, ctx, l);
      } else {
        LinearizedUsesLabels(next3, next + 2, body[i + 1..], term, ctx, l);
      }
    }
  }

  lemma {:induction false} FragmentUsesLabels<I>(next: nat, at: Label, fragment: Fragment<I>, fall: Term<I>, ctx: Context, l: Label)
    requires at < next && next <= l < LinearizedFragment(next, at, fragment, fall, ctx).1
    ensures exists b :: b in LinearizedFragment(next, at, fragment, fall, ctx).0 && b.blockLabel == l
    decreases fragment, 2
  {
    LinearizedUsesLabels(next, at, fragment.body, TermOr(fragment.term, fall), ctx, l);
  }

  lemma {:induction false} NestedTargetsAt<I>(body: seq<Stmt<I>>, i: nat)
    requires i < |body|
    ensures StmtTargets(body[i]) <= NestedTargets(body) && NestedTargets(body[i + 1..]) <= NestedTargets(body)
    decreases body
  {
    if i > 0 {
      NestedTargetsAt(body[1..], i - 1);
      assert body[1..][i..] == body[i + 1..];
    }
  }

  // Flattening a closed list gives a closed list whose handlers are the originals'.
  lemma {:induction false} LinearizedBlocksTargets<I>(next: nat, blocks: seq<Block<I>>, outside: set<Label>)
    requires DistinctLabels(blocks) && LabelsBelow(blocks, next)
    requires forall i :: 0 <= i < |blocks| ==> BlockTargets(blocks[i]) <= outside
    ensures var (out, next') := LinearizedBlocks(next, blocks);
            && TermsWithin(out, outside, next, next')
            && (forall b :: b in out ==> ExcTargets(b) <= outside)
            && forall l :: next <= l < next' ==> l in Labels(out)
  {
    if blocks != [] {
      var init, b := blocks[..|blocks| - 1], blocks[|blocks| - 1];
      assert forall i :: 0 <= i < |init| ==> init[i] == blocks[i];
      LinearizedBlocksTargets(next, init, outside);
      LinearizedBlocksShape(next, init);
      var (done, next1) := LinearizedBlocks(next, init);
      var (last, next2) := LinearizedBlock(next1, b);
      LinearizedShape(next1, b.blockLabel, b.body, b.term, ContextOf(b));
      assert NestedTargets(b.body) <= BlockTargets(b) && TermTargets(b.term) <= BlockTargets(b) && ExcTargets(b) <= BlockTargets(b);
      LinearizedTargets(next1, b.blockLabel, b.body, b.term, ContextOf(b), outside, next, next2);
      LabelsOfAppend(done, last);
      forall l | next <= l < next2
        ensures l in Labels(done + last)
      {
        if l >= next1 {
          LinearizedUsesLabels(next1, b.blockLabel, b.body, b.term, ContextOf(b), l);
          var x :| x in last && x.blockLabel == l;
          var k :| 0 <= k < |last| && last[k] == x;
        }
      }
      forall x | x in done + last
        ensures ExcTargets(x) <= outside
      {
        if x in last {
          var k :| 0 <= k < |last| && last[k] == x;
        }
      }
    }
  }

  // Flattening a closed list gives a closed list, below the new counter.
  lemma LinearizedClosed<I>(next: nat, blocks: seq<Block<I>>)
    requires DistinctLabels(blocks) && LabelsBelow(blocks, next) && Closed(blocks)
    ensures var (out, next') := LinearizedBlocks(next, blocks);
            Closed(out) && LabelsBelow(out, next')
  {
    var (out, next') := LinearizedBlocks(next, blocks);
    LinearizedBlocksShape(next, blocks);
    LinearizedBlocksTargets(next, blocks, Labels(blocks));
    forall l | l in Labels(blocks)
      ensures l < next'
    {
      var i :| 0 <= i < |blocks| && blocks[i].blockLabel == l;
    }
    forall i | 0 <= i < |out|
      ensures BlockTargets(out[i]) <= Labels(out) && forall t :: t in BlockTargets(out[i]) ==> t < next'
    {
      assert out[i] in out;
      FlatHasNoNestedTargets(out[i].body);
    }
  }

  lemma ClosedCovered<I>(blocks: seq<Block<I>>)
    requires Closed(blocks)
    ensures TargetsCovered(blocks)
  {
  }

  lemma FlatNestedKept<I>(blocks: seq<Block<I>>, roots: set<Label>)
    requires FlatBlocks(blocks)
    ensures NestedTargetsKept(blocks, roots)
  {
    forall i | 0 <= i < |blocks|
      ensures NestedTargets(blocks[i].body) == {}
    {
      FlatHasNoNestedTargets(blocks[i].body);
    }
  }

  lemma EntryKept<I>(blocks: seq<Block<I>>, entry: Label)
    requires entry in Labels(blocks) && DistinctLabels(blocks)
    ensures entry in Labels(Retained(blocks, KeptLabels(blocks, BuilderRoots(blocks, entry))))
  {
    var roots := BuilderRoots(blocks, entry);
    ReachesRoot(SuccessorMap(blocks), roots, entry);
    RetainedFind(blocks, KeptLabels(blocks, roots), entry);
  }

  // ---- The chain -----------------------------------------------------------

  // In the compiler's own order the chain preserves every run from the entry, and renumbering never
  // panics, when nested jumps go to blocks the pruning keeps.
  lemma CompilerChainPreservesRuns<I(!new), S(!new), V(!new)>(m: Machine<I, S, V>, isNone: I -> bool, none: V, next: nat,
      blocks: seq<Block<I>>, entry: Label) returns (flat: seq<Block<I>>)
    requires RebindIsIdentity(m) && BindIsLocal(m) && LoadsNone(m, isNone, none)
    requires DistinctLabels(blocks) && LabelsBelow(blocks, next) && Closed(blocks) && entry in Labels(blocks)
    requires NestedTargetsKept(Folded(blocks, isNone), BuilderRoots(Folded(blocks, isNone), entry))
    ensures var folded := Folded(blocks, isNone);
            flat == LinearizedBlocks(next, Retained(folded, KeptLabels(folded, BuilderRoots(folded, entry)))).0
    ensures DistinctLabels(flat) && FlatBlocks(flat) && TargetsCovered(flat) && entry in Labels(flat)
    ensures Dense(Relabeled(flat))
    ensures SameRuns(m, blocks, entry, Relabeled(flat), DenseMap(flat)[entry])
  {
    hide Folded, KeptLabels, Retained, SameRuns, DistinctLabels, Labels, Closed, LabelsBelow, BindIsLocal, LoadsNone, LinearizedBlocks,
      TargetsCovered, Dense, Relabeled, DenseMap, FlatBlocks, RebindIsIdentity;
    var folded := Folded(blocks, isNone);
    var roots := BuilderRoots(folded, entry);
    var keep := KeptLabels(folded, roots);
    var pruned := Retained(folded, keep);
    flat := LinearizedBlocks(next, pruned).0;
    FoldedKeepsLabels(blocks, isNone);
    FoldedClosed(blocks, isNone, next);
    FoldPreservesRuns(m, blocks, isNone, none, entry);
    PruneKeepsLive(folded, roots, entry);
    PruneSafe(m, folded, keep, entry);
    RetainedDistinct(folded, keep);
    PrunedClosed(folded, entry, next);
    EntryKept(folded, entry);
    LinearizedBlocksShape(next, pruned);
    LinearizePreservesRuns(m, next, pruned, entry);
    LinearizedClosed(next, pruned);
    ClosedCovered(flat);
    RelabelIsDense(flat);
    RelabelPreservesRuns(m, flat, entry);
    SameRunsTrans(m, blocks, entry, folded, entry, pruned, entry);
    SameRunsTrans(m, blocks, entry, pruned, entry, flat, entry);
    SameRunsTrans(m, blocks, entry, flat, entry, Relabeled(flat), DenseMap(flat)[entry]);
  }

  // Nested branches leave only by returning or raising, as the compiler's lowering makes them: `break` and
  // `continue` inside an `if` get blocks of their own.
  ghost predicate NestedOnlyLeaves<I>(body: seq<Stmt<I>>)
    decreases body
  {
    forall i :: 0 <= i < |body| ==> StmtOnlyLeaves(body[i])
  }

  ghost predicate StmtOnlyLeaves<I>(stmt: Stmt<I>)
    decreases stmt
  {
    stmt.If? ==> FragmentOnlyLeaves(stmt.body) && FragmentOnlyLeaves(stmt.orelse)
  }

  ghost predicate FragmentOnlyLeaves<I>(fragment: Fragment<I>)
    decreases fragment
  {
    NestedOnlyLeaves(fragment.body) && (fragment.term.Some? ==> fragment.term.value.Return? || fragment.term.value.Raise?)
  }

  lemma {:induction false} OnlyLeavesHasNoTargets<I>(body: seq<Stmt<I>>)
    requires NestedOnlyLeaves(body)
    ensures NestedTargets(body) == {}
    decreases body
  {
    if body != [] {
      assert forall i :: 0 <= i < |body[1..]| ==> body[1..][i] == body[i + 1];
      OnlyLeavesHasNoTargets(body[1..]);
      StmtHasNoTargets(body[0]);
    }
  }

  lemma {:induction false} StmtHasNoTargets<I>(stmt: Stmt<I>)
    requires StmtOnlyLeaves(stmt)
    ensures StmtTargets(stmt) == {}
    decreases stmt
  {
    if stmt.If? {
      FragmentHasNoTargets(stmt.body);
      FragmentHasNoTargets(stmt.orelse);
    }
  }

  lemma {:induction false} FragmentHasNoTargets<I>(fragment: Fragment<I>)
    requires FragmentOnlyLeaves(fragment)
    ensures FragmentTargets(fragment) == {}
    decreases fragment
  {
    OnlyLeavesHasNoTargets(fragment.body);
  }

  // On what the compiler lowers, its chain preserves every run from the entry, with no condition left on nested jumps.
  lemma CompilerChainOnLoweredCode<I(!new), S(!new), V(!new)>(m: Machine<I, S, V>, isNone: I -> bool, none: V, next: nat,
      blocks: seq<Block<I>>, entry: Label) returns (flat: seq<Block<I>>)
    requires RebindIsIdentity(m) && BindIsLocal(m) && LoadsNone(m, isNone, none)
    requires DistinctLabels(blocks) && LabelsBelow(blocks, next) && Closed(blocks) && entry in Labels(blocks)
    requires forall i :: 0 <= i < |blocks| ==> NestedOnlyLeaves(blocks[i].body)
    ensures var folded := Folded(blocks, isNone);
            flat == LinearizedBlocks(next, Retained(folded, KeptLabels(folded, BuilderRoots(folded, entry)))).0
    ensures DistinctLabels(flat) && FlatBlocks(flat) && TargetsCovered(flat) && entry in Labels(flat)
    ensures Dense(Relabeled(flat))
    ensures SameRuns(m, blocks, entry, Relabeled(flat), DenseMap(flat)[entry])
  {
    hide KeptLabels, Retained, SameRuns, DistinctLabels, Labels, Closed, LabelsBelow, BindIsLocal, LoadsNone, LinearizedBlocks,
      TargetsCovered, Dense, Relabeled, DenseMap, FlatBlocks, RebindIsIdentity, NestedTargets, NestedOnlyLeaves;
    var folded := Folded(blocks, isNone);
    forall i | 0 <= i < |folded|
      ensures NestedTargets(folded[i].body) == {}
    {
      OnlyLeavesHasNoTargets(blocks[i].body);
    }
    flat := CompilerChainPreservesRuns(m, isNone, none, next, blocks, entry);
  }

  // On flat blocks, folding and pruning keep every run, every destination and the entry.
  lemma FlatFoldAndPrune<I(!new), S(!new), V(!new)>(m: Machine<I, S, V>, isNone: I -> bool, none: V, next: nat,
      flat: seq<Block<I>>, entry: Label, out: seq<Block<I>>)
    requires BindIsLocal(m) && LoadsNone(m, isNone, none)
    requires DistinctLabels(flat) && FlatBlocks(flat) && LabelsBelow(flat, next) && Closed(flat) && entry in Labels(flat)
    requires out == Retained(Folded(flat, isNone), KeptLabels(Folded(flat, isNone), BuilderRoots(Folded(flat, isNone), entry)))
    ensures DistinctLabels(out) && FlatBlocks(out) && Closed(out) && entry in Labels(out)
    ensures SameRuns(m, flat, entry, out, entry)
  {
    hide Folded, KeptLabels, Retained, SameRuns, DistinctLabels, Labels, Closed, LabelsBelow, BindIsLocal, LoadsNone;
    var folded := Folded(flat, isNone);
    var roots := BuilderRoots(folded, entry);
    var keep := KeptLabels(folded, roots);
    FoldedKeepsLabels(flat, isNone);
    FoldPreservesRuns(m, flat, isNone, none, entry);
    PruneFlatPreservesRuns(m, folded, roots, entry);
    SameRunsTrans(m, flat, entry, folded, entry, out, entry);
    RetainedDistinct(folded, keep);
    EntryKept(folded, entry);
    FoldedClosed(flat, isNone, next);
    FlatNestedKept(folded, roots);
    PrunedClosed(folded, entry, next);
    FlatRetained(folded, keep);
  }

  // Flattening first, the chain preserves every run from the entry with no such condition.
  lemma FlattenFirstChainPreservesRuns<I(!new), S(!new), V(!new)>(m: Machine<I, S, V>, isNone: I -> bool, none: V, next: nat,
      blocks: seq<Block<I>>, entry: Label) returns (out: seq<Block<I>>)
    requires RebindIsIdentity(m) && BindIsLocal(m) && LoadsNone(m, isNone, none)
    requires DistinctLabels(blocks) && LabelsBelow(blocks, next) && Closed(blocks) && entry in Labels(blocks)
    ensures var folded := Folded(LinearizedBlocks(next, blocks).0, isNone);
            out == Retained(folded, KeptLabels(folded, BuilderRoots(folded, entry)))
    ensures DistinctLabels(out) && FlatBlocks(out) && TargetsCovered(out) && entry in Labels(out)
    ensures Dense(Relabeled(out))
    ensures SameRuns(m, blocks, entry, Relabeled(out), DenseMap(out)[entry])
  {
    var (flat, next') := LinearizedBlocks(next, blocks);
    var folded := Folded(flat, isNone);
    out := Retained(folded, KeptLabels(folded, BuilderRoots(folded, entry)));
    LinearizedBlocksShape(next, blocks);
    LinearizedClosed(next, blocks);
    LinearizePreservesRuns(m, next, blocks, entry);
    FlatFoldAndPrune(m, isNone, none, next', flat, entry, out);
    SameRunsTrans(m, blocks, entry, flat, entry, out, entry);
    ClosedCovered(out);
    RelabelIsDense(out);
    RelabelPreservesRuns(m, out, entry);
    SameRunsTrans(m, blocks, entry, out, entry, Relabeled(out), DenseMap(out)[entry]);
  }

  lemma FlatRetained<I>(blocks: seq<Block<I>>, keep: set<Label>)
    requires FlatBlocks(blocks)
    ensures FlatBlocks(Retained(blocks, keep))
  {
  }
}
