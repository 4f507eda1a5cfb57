/** When making jump arguments explicit preserves runs (`populate_jump_edge_args` in
    `soac-blockpy/src/passes/name_binding.rs`). The code generator forwards a param without an argument
    under its own name (`soac-eval/src/jit/mod.rs`); the pass may write another name, or None. */
module JumpArgsRuns {
  import opened Prelude
  import opened BlockIr
  import opened BlockSemantics
  import opened CfgPrune
  import opened JumpArgs

  // ---- When the written arguments are the received ones --------------------

  // The source declares every param the jump leaves without an argument.
  predicate Declared(source: seq<BlockParam>, args: seq<BlockArg>, target: seq<BlockParam>) {
    forall i :: 0 <= i < |target| - |args| ==> HasName(source, target[i].name)
  }

  lemma WrittenAsReceivedExactly(source: seq<BlockParam>, args: seq<BlockArg>, target: seq<BlockParam>)
    ensures EdgeArgs(ResolveArgs(source, args, target), target) == ResolveArgs(source, args, target)
    ensures ResolveArgs(source, args, target) == EdgeArgs(args, target) <==> Declared(source, args, target)
  {
    var written, received := ResolveArgs(source, args, target), EdgeArgs(args, target);
    if !Declared(source, args, target) {
      var i :| 0 <= i < |target| - |args| && !HasName(source, target[i].name);
      UndeclaredDiffers(source, target[i]);
      assert written[i] != received[i];
    }
  }

  lemma UndeclaredDiffers(source: seq<BlockParam>, target: BlockParam)
    requires !HasName(source, target.name)
    ensures ImplicitArg(source, target) != NameArg(target.name)
  {
    var p := FirstWithRole(source, target.role);
    if p.Some? {
      var i :| 0 <= i < |source| && source[i] == p.value;
    }
  }

  // ---- The jumps that matter -----------------------------------------------

  // Where the jump of block `i` leads, if it is one to a known block.
  function JumpTarget<I>(blocks: seq<Block<I>>, i: nat): Option<Block<I>>
    requires i < |blocks|
  {
    if blocks[i].term.Jump? then
      match Find(blocks, blocks[i].term.edge.target)
      case Some(t) => Some(blocks[t])
      case None => None
    else None
  }

  // Every jump that control can take leaves only declared params without an argument.
  ghost predicate LiveJumpsDeclare<I>(blocks: seq<Block<I>>, entry: Label) {
    forall i :: 0 <= i < |blocks| && Live(blocks, entry, blocks[i].blockLabel) && JumpTarget(blocks, i).Some? ==>
      Declared(blocks[i].params, blocks[i].term.edge.args, JumpTarget(blocks, i).value.params)
  }

  // A block where a run can end: it returns, raises without a handler, or is none of the list's.
  ghost predicate Ending<I>(blocks: seq<Block<I>>, at: Label) {
    match Find(blocks, at)
    case Some(i) => blocks[i].term.Return? || (CanThrow(blocks[i]) && blocks[i].excEdge.None?)
    case None => true
  }

  // Some run from the label ends.
  ghost predicate CanEnd<I>(blocks: seq<Block<I>>, at: Label) {
    exists path :: Walk(LiveMap(blocks), path) && path[0] == at && Ending(blocks, path[|path| - 1])
  }

  // The same for the jumps from whose target a run can end.
  ghost predicate EndingJumpsDeclare<I>(blocks: seq<Block<I>>, entry: Label) {
    forall i :: 0 <= i < |blocks| && Live(blocks, entry, blocks[i].blockLabel) && JumpTarget(blocks, i).Some?
                && CanEnd(blocks, blocks[i].term.edge.target) ==>
      Declared(blocks[i].params, blocks[i].term.edge.args, JumpTarget(blocks, i).value.params)
  }

  // ---- Steps of the rewritten list -----------------------------------------

  lemma PopulatedFind<I>(blocks: seq<Block<I>>, at: Label)
    ensures Find(Populated(blocks), at) == Find(blocks, at)
    ensures Labels(Populated(blocks)) == Labels(blocks)
  {
    SameFramesFind(Populated(blocks), blocks, at);
    var a, b := Labels(Populated(blocks)), Labels(blocks);
    forall l
      ensures l in a <==> l in b
    {
      if l in b {
        var i :| 0 <= i < |blocks| && blocks[i].blockLabel == l;
        assert Populated(blocks)[i].blockLabel == l;
      }
      if l in a {
        var i :| 0 <= i < |blocks| && Populated(blocks)[i].blockLabel == l;
        assert blocks[i].blockLabel == l;
      }
    }
  }

  // An edge leads to the same place, with the same arguments, in both lists.
  lemma PopulatedEdge<I, S, V>(m: Machine<I, S, V>, blocks: seq<Block<I>>, edge: BlockEdge, s: S)
    ensures FollowEdge(m, Populated(blocks), edge, s) == FollowEdge(m, blocks, edge, s)
  {
    PopulatedFind(blocks, edge.target);
  }

  // Where the jump of block `i` leads in either list.
  lemma PopulatedJump<I, S, V>(m: Machine<I, S, V>, blocks: seq<Block<I>>, i: nat, s: S)
    requires i < |blocks| && JumpTarget(blocks, i).Some?
    ensures var t := JumpTarget(blocks, i).value;
            var edge, edge' := blocks[i].term.edge, PopulatedTerm(blocks, blocks[i].params, blocks[i].term).edge;
            && FollowEdge(m, blocks, edge, s) == At(edge.target, m.bind(ParamNames(t.params), EdgeArgs(edge.args, t.params), s))
            && FollowEdge(m, Populated(blocks), edge', s)
               == At(edge.target, m.bind(ParamNames(t.params), ResolveArgs(blocks[i].params, edge.args, t.params), s))
  {
    var t := JumpTarget(blocks, i).value;
    PopulatedFind(blocks, blocks[i].term.edge.target);
    WrittenAsReceivedExactly(blocks[i].params, blocks[i].term.edge.args, t.params);
    if t.params == [] {
      assert EdgeArgs(blocks[i].term.edge.args, []) == ResolveArgs(blocks[i].params, blocks[i].term.edge.args, []);
    }
  }

  // A block whose jump is declared, or that does not take its jump, steps alike in both lists.
  lemma PopulatedStep<I, S, V>(m: Machine<I, S, V>, blocks: seq<Block<I>>, i: nat, s: S)
    requires i < |blocks| && Find(blocks, blocks[i].blockLabel) == Some(i)
    requires JumpTarget(blocks, i).Some? ==>
               Declared(blocks[i].params, blocks[i].term.edge.args, JumpTarget(blocks, i).value.params)
               || !ExecStmts(m, blocks[i].body, s).Fall?
    ensures Step(m, Populated(blocks), At(blocks[i].blockLabel, s)) == Step(m, blocks, At(blocks[i].blockLabel, s))
  {
    var b := blocks[i];
    PopulatedFind(blocks, b.blockLabel);
    var flow, exit := ExecStmts(m, b.body, s), ExecBody(m, b.body, b.term, s);
    if flow.Fall? && JumpTarget(blocks, i).Some? {
      PopulatedJump(m, blocks, i, flow.state);
      WrittenAsReceivedExactly(b.params, b.term.edge.args, JumpTarget(blocks, i).value.params);
    } else if exit.ToBlock? {
      PopulatedEdge(m, blocks, exit.edge, exit.state);
    } else if exit.Threw? && b.excEdge.Some? {
      PopulatedEdge(m, blocks, b.excEdge.value, exit.state);
    }
  }

  // ---- What a step does to liveness ----------------------------------------

  // A block at a live label steps to live labels only.
  lemma LiveStep<I, S, V>(m: Machine<I, S, V>, blocks: seq<Block<I>>, at: Label, s: S)
    requires at in Labels(blocks)
    ensures Step(m, blocks, At(at, s)).At? ==>
              Step(m, blocks, At(at, s)).point in LiveSuccessors(blocks, at) * Labels(blocks)
  {
    StepIsLive(m, blocks, at, s);
    StepStaysInside(m, blocks, at, s);
  }

  // A run that ends shows that runs can end.
  lemma {:induction false} EndedCanEnd<I, S, V>(m: Machine<I, S, V>, blocks: seq<Block<I>>, at: Label, s: S, n: nat)
    requires FlatBlocks(blocks) && StepN(m, blocks, At(at, s), n).Done?
    ensures CanEnd(blocks, at)
    decreases n
  {
    hide CanEnd, Ending;
    if at !in Labels(blocks) {
      EndsHere(blocks, at);
    } else {
      var c := Step(m, blocks, At(at, s));
      if c.At? {
        LiveStep(m, blocks, at, s);
        EndedCanEnd(m, blocks, c.point, c.state, n - 1);
        EndsLater(blocks, at, c.point);
      } else {
        EndingStep(m, blocks, at, s);
      }
    }
  }

  lemma EndsHere<I>(blocks: seq<Block<I>>, at: Label)
    requires Ending(blocks, at) || at !in Labels(blocks)
    ensures CanEnd(blocks, at)
  {
    assert Walk(LiveMap(blocks), [at]);
  }

  lemma EndsLater<I>(blocks: seq<Block<I>>, at: Label, to: Label)
    requires to in LiveSuccessors(blocks, at) && CanEnd(blocks, to)
    ensures CanEnd(blocks, at)
  {
    var path :| Walk(LiveMap(blocks), path) && path[0] == to && Ending(blocks, path[|path| - 1]);
    var longer := [at] + path;
    forall i | 0 <= i < |longer| - 1
      ensures longer[i + 1] in LiveMap(blocks)(longer[i])
    {
      if i > 0 {
        assert path[i] in LiveMap(blocks)(path[i - 1]);
      }
    }
    assert Walk(LiveMap(blocks), longer);
  }

  // A step that ends the run ends it at an ending block, or leaves the list for a live label.
  lemma EndingStep<I, S, V>(m: Machine<I, S, V>, blocks: seq<Block<I>>, at: Label, s: S)
    requires FlatBlocks(blocks) && at in Labels(blocks) && Step(m, blocks, At(at, s)).Done?
    ensures CanEnd(blocks, at)
  {
    var b := blocks[Find(blocks, at).value];
    var exit := ExecBody(m, b.body, b.term, s);
    StepIsLive(m, blocks, at, s);
    FlowIsLive(m, b.body, s);
    FlatNeverLeaves(m, b.body, s);
    if exit.ToBlock? {
      EndsHere(blocks, exit.edge.target);
      EndsLater(blocks, at, exit.edge.target);
    } else if exit.Threw? && b.excEdge.Some? {
      assert b.excEdge.value.target in ExcTargets(b);
      EndsHere(blocks, b.excEdge.value.target);
      EndsLater(blocks, at, b.excEdge.value.target);
    } else {
      EndsHere(blocks, at);
    }
  }

  // A flat body falls through or raises.
  lemma {:induction false} FlatNeverLeaves<I, S, V>(m: Machine<I, S, V>, body: seq<Stmt<I>>, s: S)
    requires FlatBody(body)
    ensures ExecStmts(m, body, s).Leave? ==> ExecStmts(m, body, s).exit.Threw?
    decreases |body|
  {
    if body != [] {
      var flow := ExecStmt(m, body[0], s);
      if flow.Fall? {
        FlatNeverLeaves(m, body[1..], flow.state);
      }
    }
  }

  // The pass changes neither what is live nor where runs can end.
  lemma PopulatedLive<I>(blocks: seq<Block<I>>, at: Label)
    ensures LiveSuccessors(Populated(blocks), at) == LiveSuccessors(blocks, at)
    ensures Ending(Populated(blocks), at) <==> Ending(blocks, at)
  {
    PopulatedFind(blocks, at);
  }

  lemma PopulatedCanEnd<I>(blocks: seq<Block<I>>, at: Label)
    requires CanEnd(Populated(blocks), at)
    ensures CanEnd(blocks, at)
  {
    hide LiveSuccessors, Ending;
    var a, b := LiveMap(Populated(blocks)), LiveMap(blocks);
    var path :| Walk(a, path) && path[0] == at && Ending(Populated(blocks), path[|path| - 1]);
    forall i | 0 <= i < |path| - 1
      ensures path[i + 1] in b(path[i])
    {
      assert path[i + 1] in a(path[i]);
      PopulatedLive(blocks, path[i]);
    }
    PopulatedLive(blocks, path[|path| - 1]);
    assert Walk(b, path);
  }

  // ---- Sufficiency ---------------------------------------------------------

  // One step from a live block, when the jump it takes is declared.
  lemma DeclaredStep<I, S, V>(m: Machine<I, S, V>, blocks: seq<Block<I>>, entry: Label, at: Label, s: S)
    requires DistinctLabels(blocks) && at in Labels(blocks) && Live(blocks, entry, at)
    requires LiveJumpsDeclare(blocks, entry)
             || (EndingJumpsDeclare(blocks, entry)
                 && (Step(m, blocks, At(at, s)).At? ==> CanEnd(blocks, Step(m, blocks, At(at, s)).point)))
    ensures Step(m, Populated(blocks), At(at, s)) == Step(m, blocks, At(at, s))
  {
    hide CanEnd, Declared, Live;
    var i := Find(blocks, at).value;
    if JumpTarget(blocks, i).Some? && ExecStmts(m, blocks[i].body, s).Fall? {
      assert Step(m, blocks, At(at, s)).point == blocks[i].term.edge.target;
    }
    PopulatedStep(m, blocks, i, s);
  }

  // Where a jump goes does not depend on the pass.
  lemma SamePoint<I, S, V>(m: Machine<I, S, V>, blocks: seq<Block<I>>, at: Label, s: S)
    requires at in Labels(blocks)
    ensures var a, b := Step(m, blocks, At(at, s)), Step(m, Populated(blocks), At(at, s));
            (a.At? <==> b.At?) && (a.At? ==> a.point == b.point)
  {
    var i := Find(blocks, at).value;
    var b := blocks[i];
    PopulatedFind(blocks, at);
    var flow, exit := ExecStmts(m, b.body, s), ExecBody(m, b.body, b.term, s);
    if flow.Fall? && JumpTarget(blocks, i).Some? {
      PopulatedJump(m, blocks, i, flow.state);
    } else if exit.ToBlock? {
      PopulatedEdge(m, blocks, exit.edge, exit.state);
    } else if exit.Threw? && b.excEdge.Some? {
      PopulatedEdge(m, blocks, b.excEdge.value, exit.state);
    }
  }

  // A run of one list that ends is, step by step, a run of the other.
  lemma {:induction false} EndedAlike<I, S, V>(m: Machine<I, S, V>, blocks: seq<Block<I>>, entry: Label, at: Label, s: S, n: nat)
    requires DistinctLabels(blocks) && FlatBlocks(blocks) && EndingJumpsDeclare(blocks, entry)
    requires at in Labels(blocks) && Live(blocks, entry, at)
    requires StepN(m, blocks, At(at, s), n).Done? || StepN(m, Populated(blocks), At(at, s), n).Done?
    ensures StepN(m, Populated(blocks), At(at, s), n) == StepN(m, blocks, At(at, s), n)
    decreases n
  {
    hide Step, Populated, CanEnd, EndingJumpsDeclare, Live, LiveJumpsDeclare, DistinctLabels, FlatBlocks, LiveSuccessors;
    if n > 0 {
      var out := Populated(blocks);
      var c, d := Step(m, blocks, At(at, s)), Step(m, out, At(at, s));
      SamePoint(m, blocks, at, s);
      if c.At? {
        if StepN(m, blocks, c, n - 1).Done? {
          EndedCanEnd(m, blocks, c.point, c.state, n - 1);
        } else {
          PopulatedFlat(blocks);
          EndedCanEnd(m, out, d.point, d.state, n - 1);
          PopulatedCanEnd(blocks, d.point);
        }
      }
      DeclaredStep(m, blocks, entry, at, s);
      if c.At? {
        LiveStep(m, blocks, at, s);
        ReachesLive(blocks, entry, at, c.point);
        EndedAlike(m, blocks, entry, c.point, c.state, n - 1);
      } else {
        DoneStays(m, blocks, c, n - 1);
        DoneStays(m, out, c, n - 1);
      }
    }
  }

  lemma PopulatedFlat<I>(blocks: seq<Block<I>>)
    requires FlatBlocks(blocks)
    ensures FlatBlocks(Populated(blocks))
  {
  }

  lemma ReachesLive<I>(blocks: seq<Block<I>>, entry: Label, at: Label, to: Label)
    requires Live(blocks, entry, at) && to in LiveSuccessors(blocks, at)
    ensures Live(blocks, entry, to)
  {
    ReachesNext(LiveMap(blocks), {entry}, at, to);
  }

  // When the jumps that matter are declared, the pass preserves every run from the entry.
  lemma PopulatePreservesRuns<I, S(!new), V(!new)>(m: Machine<I, S, V>, blocks: seq<Block<I>>, entry: Label)
    requires DistinctLabels(blocks) && FlatBlocks(blocks) && entry in Labels(blocks)
    requires EndingJumpsDeclare(blocks, entry)
    ensures SameRuns(m, blocks, entry, Populated(blocks), entry)
  {
    ReachesRoot(LiveMap(blocks), {entry}, entry);
    hide StepN, Populated, EndingJumpsDeclare, DistinctLabels, FlatBlocks, Labels;
    forall s, o
      ensures Ends(m, blocks, At(entry, s), o) <==> Ends(m, Populated(blocks), At(entry, s), o)
    {
      if Ends(m, blocks, At(entry, s), o) {
        var n: nat :| StepN(m, blocks, At(entry, s), n) == Done(o);
        EndedAlike(m, blocks, entry, entry, s, n);
      }
      if Ends(m, Populated(blocks), At(entry, s), o) {
        var n: nat :| StepN(m, Populated(blocks), At(entry, s), n) == Done(o);
        EndedAlike(m, blocks, entry, entry, s, n);
      }
    }
  }

  // The two lists go through the same configurations.
  ghost predicate SameSteps<I, S(!new), V>(m: Machine<I, S, V>, a: seq<Block<I>>, b: seq<Block<I>>, at: Label) {
    forall s, n: nat :: StepN(m, a, At(at, s), n) == StepN(m, b, At(at, s), n)
  }

  lemma {:induction false} StepsAlike<I, S, V>(m: Machine<I, S, V>, blocks: seq<Block<I>>, entry: Label, at: Label, s: S, n: nat)
    requires DistinctLabels(blocks) && LiveJumpsDeclare(blocks, entry)
    requires at in Labels(blocks) && Live(blocks, entry, at)
    ensures StepN(m, Populated(blocks), At(at, s), n) == StepN(m, blocks, At(at, s), n)
    decreases n
  {
    hide Step, Populated, CanEnd, EndingJumpsDeclare, Live, LiveJumpsDeclare, DistinctLabels, LiveSuccessors;
    if n > 0 {
      var c := Step(m, blocks, At(at, s));
      DeclaredStep(m, blocks, entry, at, s);
      if c.At? {
        LiveStep(m, blocks, at, s);
        ReachesLive(blocks, entry, at, c.point);
        StepsAlike(m, blocks, entry, c.point, c.state, n - 1);
      } else {
        DoneStays(m, blocks, c, n - 1);
        DoneStays(m, Populated(blocks), c, n - 1);
      }
    }
  }
}
