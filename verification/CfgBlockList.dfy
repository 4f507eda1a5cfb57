/** The three passes that rewrite a block list in place (`soac-blockpy/src/block_py/cfg.rs`). */
module CfgBlockList {
  import opened BlockIr
  import opened CfgFold
  import opened CfgPrune
  import opened CfgRelabel

  function Elements(labels: seq<Label>): set<Label> {
    set l | l in labels
  }

  function SuccessorList<I>(blocks: seq<Block<I>>): (next: Label -> seq<Label>)
    ensures forall l :: Elements(next(l)) == Successors(blocks, l)
  {
    l => if Find(blocks, l).Some? then BlockSuccessors(blocks[Find(blocks, l).value]) else []
  }

  // Every label the worklist can ever hold.
  function Universe<I>(blocks: seq<Block<I>>, roots: set<Label>): set<Label> {
    roots + set i, l | 0 <= i < |blocks| && l in TermTargets(blocks[i].term) :: l
  }

  // All labels reachable from the roots, blocks or not.
  ghost function AllKept<I>(blocks: seq<Block<I>>, roots: set<Label>): set<Label> {
    set l | l in Universe(blocks, roots) && Kept(blocks, roots, l)
  }

  // They hold the roots, are closed under successors, and are the least such set.
  lemma AllKeptClosed<I>(blocks: seq<Block<I>>, roots: set<Label>)
    ensures roots <= AllKept(blocks, roots)
    ensures forall l :: l in AllKept(blocks, roots) ==> Successors(blocks, l) <= AllKept(blocks, roots)
  {
    forall l | l in roots
      ensures l in AllKept(blocks, roots)
    {
      ReachesRoot(SuccessorMap(blocks), roots, l);
    }
    forall at, l | at in AllKept(blocks, roots) && l in Successors(blocks, at)
      ensures l in AllKept(blocks, roots)
    {
      ReachesNext(SuccessorMap(blocks), roots, at, l);
    }
  }

  lemma AllKeptLeast<I>(blocks: seq<Block<I>>, roots: set<Label>, closed: set<Label>)
    requires roots <= closed <= AllKept(blocks, roots)
    requires forall l :: l in closed ==> Successors(blocks, l) <= closed
    ensures Retained(blocks, closed) == Retained(blocks, KeptLabels(blocks, roots))
  {
    forall i | 0 <= i < |blocks|
      ensures blocks[i].blockLabel in closed <==> blocks[i].blockLabel in KeptLabels(blocks, roots)
    {
      var l := blocks[i].blockLabel;
      assert l in Labels(blocks);
      if Kept(blocks, roots, l) {
        var next := SuccessorMap(blocks);
        var path :| Walk(next, path) && path[0] in roots && path[|path| - 1] == l;
        ClosedHoldsReached(next, roots, closed, path);
      }
    }
    RetainedSame(blocks, closed, KeptLabels(blocks, roots));
  }

  lemma FewerLeft(a: set<Label>, b: set<Label>)
    requires b < a
    ensures |b| < |a|
  {
    var x :| x in a && x !in b;
    FewerOrEqual(a - {x}, b);
  }

  lemma {:induction false} FewerOrEqual(a: set<Label>, b: set<Label>)
    requires b <= a
    ensures |b| <= |a|
  {
    assert a == b + (a - b) && b !! (a - b);
  }

  lemma ElementsAppend(a: seq<Label>, b: seq<Label>)
    ensures Elements(a + b) == Elements(a) + Elements(b)
  {
  }

  class BlockList<I> {
    var blocks: seq<Block<I>>

    constructor (blocks: seq<Block<I>>)
      ensures this.blocks == blocks
    {
      this.blocks := blocks;
    }

    method FoldJumpsToTrivialNoneReturn(isNone: I -> bool)
      modifies this
      ensures blocks == Folded(old(blocks), isNone)
    {
      var terms: map<Label, Term<I>> := map[];
      assert blocks[..0] == [];
      for i := 0 to |blocks|
        invariant blocks == old(blocks)
        invariant terms == TrivialTerms(blocks[..i], isNone)
      {
        assert blocks[..i + 1][..i] == blocks[..i];
        if TrivialReturn(blocks[i], isNone) {
          terms := terms[blocks[i].blockLabel := blocks[i].term];
        }
      }
      assert blocks[..|blocks|] == blocks;
      for i := 0 to |blocks|
        invariant |blocks| == |old(blocks)|
        invariant forall k :: 0 <= k < i ==> blocks[k] == FoldedBlock(terms, old(blocks)[k])
        invariant forall k :: i <= k < |blocks| ==> blocks[k] == old(blocks)[k]
      {
        var b := blocks[i];
        if b.term.Jump? && b.term.edge.target in terms {
          blocks := blocks[i := b.(term := terms[b.term.edge.target])];
        }
      }
    }

    // Keeps exactly the blocks reachable through successors from the entry and the extra roots.
    method PruneUnreachable(entry: Label, extraRoots: seq<Label>)
      modifies this
      ensures blocks == Retained(old(blocks), KeptLabels(old(blocks), Elements([entry] + extraRoots)))
    {
      ghost var roots := Elements([entry] + extraRoots);
      ghost var all := AllKept(blocks, roots);
      AllKeptClosed(blocks, roots);
      var reachable := Reach(SuccessorList(blocks), [entry] + extraRoots, all);
      AllKeptLeast(blocks, roots, reachable);
      blocks := Retained(blocks, reachable);
    }

    // The worklist loop: the least set that holds the start and is closed under `next`.
    static method Reach(next: Label -> seq<Label>, start: seq<Label>, ghost all: set<Label>) returns (reachable: set<Label>)
      requires Elements(start) <= all && forall l :: l in all ==> Elements(next(l)) <= all
      ensures Elements(start) <= reachable <= all
      ensures forall l :: l in reachable ==> Elements(next(l)) <= reachable
    {
      var worklist := start;
      reachable := {};
      while worklist != []
        invariant Elements(start) <= reachable + Elements(worklist) <= all
        invariant forall l :: l in reachable ==> Elements(next(l)) <= reachable + Elements(worklist)
        decreases |all - reachable|, |worklist|
      {
        var at := worklist[|worklist| - 1];
        var rest := worklist[..|worklist| - 1];
        ElementsAppend(rest, [at]);
        assert worklist == rest + [at];
        assert at in Elements([at]);
        worklist := rest;
        if at !in reachable {
          FewerLeft(all - reachable, all - (reachable + {at}));
          reachable := reachable + {at};
          ElementsAppend(rest, next(at));
          worklist := rest + next(at);
        }
      }
    }

    // Panics (here: returns false, leaving the list alone) exactly when a destination is not a block.
    method RelabelDense() returns (ok: bool)
      modifies this
      ensures ok <==> TargetsCovered(old(blocks))
      ensures blocks == if ok then Relabeled(old(blocks)) else old(blocks)
    {
      var f := DenseMap(blocks);
      hide DenseMap, RelabelBlock, Covered;
      for i := 0 to |blocks|
        invariant blocks == old(blocks)
        invariant forall k :: 0 <= k < i ==> Covered(f, blocks[k])
      {
        if !Covered(f, blocks[i]) {
          return false;
        }
      }
      for i := 0 to |blocks|
        invariant |blocks| == |old(blocks)|
        invariant forall k :: 0 <= k < i ==> blocks[k] == RelabelBlock(f, old(blocks)[k])
        invariant forall k :: i <= k < |blocks| ==> blocks[k] == old(blocks)[k]
      {
        blocks := blocks[i := RelabelBlock(f, blocks[i])];
      }
      return true;
    }
  }

  // Retaining depends only on which of the blocks' labels are in the set.
  lemma {:induction false} RetainedSame<I>(blocks: seq<Block<I>>, a: set<Label>, b: set<Label>)
    requires forall i :: 0 <= i < |blocks| ==> (blocks[i].blockLabel in a <==> blocks[i].blockLabel in b)
    ensures Retained(blocks, a) == Retained(blocks, b)
  {
    if blocks != [] {
      RetainedSame(blocks[..|blocks| - 1], a, b);
    }
  }
}
