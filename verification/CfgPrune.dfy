/** Dropping unreachable blocks (`soac-blockpy/src/block_py/cfg.rs`). */
module CfgPrune {
  import opened Prelude
  import opened BlockIr
  import opened BlockSemantics

  // The successors pruning follows: those of a block's own terminator, not of nested branches.
  function Successors<I>(blocks: seq<Block<I>>, at: Label): set<Label> {
    match Find(blocks, at)
    case Some(i) => TermTargets(blocks[i].term)
    case None => {}
  }

  // A walk along `next`.
  ghost predicate Walk(next: Label -> set<Label>, path: seq<Label>) {
    path != [] && forall i :: 0 <= i < |path| - 1 ==> path[i + 1] in next(path[i])
  }

  ghost predicate Reaches(next: Label -> set<Label>, roots: set<Label>, to: Label) {
    exists path :: Walk(next, path) && path[0] in roots && path[|path| - 1] == to
  }

  lemma WalkTail(next: Label -> set<Label>, path: seq<Label>)
    requires Walk(next, path) && |path| > 1
    ensures Walk(next, path[1..]) && path[1] in next(path[0])
  {
  }

  lemma WalkInit(next: Label -> set<Label>, path: seq<Label>)
    requires Walk(next, path) && |path| > 1
    ensures Walk(next, path[..|path| - 1]) && path[|path| - 1] in next(path[|path| - 2])
  {
  }

  lemma ReachesRoot(next: Label -> set<Label>, roots: set<Label>, to: Label)
    requires to in roots
    ensures Reaches(next, roots, to)
  {
    assert Walk(next, [to]);
  }

  lemma ReachesNext(next: Label -> set<Label>, roots: set<Label>, at: Label, to: Label)
    requires Reaches(next, roots, at) && to in next(at)
    ensures Reaches(next, roots, to)
  {
    var path :| Walk(next, path) && path[0] in roots && path[|path| - 1] == at;
    var longer := path + [to];
    forall i | 0 <= i < |longer| - 1
      ensures longer[i + 1] in next(longer[i])
    {
      if i < |path| - 1 {
        assert path[i + 1] in next(path[i]);
      }
    }
    assert Walk(next, longer);
  }

  // A set that holds the roots and is closed under `next` holds everything reachable.
  lemma {:induction false} ClosedHoldsReached(next: Label -> set<Label>, roots: set<Label>, closed: set<Label>, path: seq<Label>)
    requires roots <= closed && forall l :: l in closed ==> next(l) <= closed
    requires Walk(next, path) && path[0] in roots
    ensures path[|path| - 1] in closed
    decreases |path|
  {
    if |path| > 1 {
      WalkInit(next, path);
      ClosedHoldsReached(next, roots, closed, path[..|path| - 1]);
    }
  }

  // What is reachable through successors from the roots.
  ghost predicate Kept<I>(blocks: seq<Block<I>>, roots: set<Label>, at: Label) {
    Reaches(SuccessorMap(blocks), roots, at)
  }

  function SuccessorMap<I>(blocks: seq<Block<I>>): Label -> set<Label> {
    l => Successors(blocks, l)
  }

  // The blocks whose label is in a set, in order.
  function Retained<I>(blocks: seq<Block<I>>, keep: set<Label>): (r: seq<Block<I>>)
    ensures forall b :: b in r ==> b in blocks && b.blockLabel in keep
    ensures forall b :: b in blocks && b.blockLabel in keep ==> b in r
  {
    if blocks == [] then []
    else
      var init := Retained(blocks[..|blocks| - 1], keep);
      var b := blocks[|blocks| - 1];
      assert forall x :: x in blocks ==> x in blocks[..|blocks| - 1] || x == b;
      if b.blockLabel in keep then init + [b] else init
  }

  // The blocks that are kept stay in their order.
  lemma {:induction false} RetainedInOrder<I>(blocks: seq<Block<I>>, keep: set<Label>, i: nat, j: nat) returns (p: nat, q: nat)
    requires i < j < |blocks| && blocks[i].blockLabel in keep && blocks[j].blockLabel in keep
    ensures p < q < |Retained(blocks, keep)| && Retained(blocks, keep)[p] == blocks[i] && Retained(blocks, keep)[q] == blocks[j]
    decreases |blocks|
  {
    var init := blocks[..|blocks| - 1];
    if j < |init| {
      p, q := RetainedInOrder(init, keep, i, j);
    } else {
      assert init[i] in Retained(init, keep);
      p :| 0 <= p < |Retained(init, keep)| && Retained(init, keep)[p] == init[i];
      q := |Retained(init, keep)|;
    }
  }

  lemma {:induction false} RetainedDistinct<I>(blocks: seq<Block<I>>, keep: set<Label>)
    requires DistinctLabels(blocks)
    ensures DistinctLabels(Retained(blocks, keep))
  {
    if blocks != [] {
      var init, b := blocks[..|blocks| - 1], blocks[|blocks| - 1];
      assert DistinctLabels(init);
      RetainedDistinct(init, keep);
      var r := Retained(init, keep);
      forall i | 0 <= i < |r|
        ensures r[i].blockLabel != b.blockLabel
      {
        assert r[i] in init;
      }
    }
  }

  // A retained label finds the same block; any other label finds none.
  lemma RetainedFind<I>(blocks: seq<Block<I>>, keep: set<Label>, at: Label)
    requires DistinctLabels(blocks)
    ensures at in keep && at in Labels(blocks) ==>
              Find(Retained(blocks, keep), at).Some? &&
              Retained(blocks, keep)[Find(Retained(blocks, keep), at).value] == blocks[Find(blocks, at).value]
    ensures at !in keep || at !in Labels(blocks) ==> Find(Retained(blocks, keep), at).None?
  {
  }

  // ---- What a run can actually reach ---------------------------------------

  // Whether control can fall out of the end of a structured body.
  predicate Falls<I>(body: seq<Stmt<I>>)
    decreases body
  {
    body == [] || (StmtFalls(body[0]) && Falls(body[1..]))
  }

  predicate StmtFalls<I>(stmt: Stmt<I>)
    decreases stmt
  {
    match stmt
    case Expr(_) => true
    case If(_, body, orelse) => FragmentFalls(body) || FragmentFalls(orelse)
  }

  predicate FragmentFalls<I>(fragment: Fragment<I>)
    decreases fragment
  {
    Falls(fragment.body) && fragment.term.None?
  }

  // The labels a body can transfer control to from inside its branches.
  function LiveNested<I>(body: seq<Stmt<I>>): set<Label>
    decreases body
  {
    if body == [] then {}
    else LiveStmt(body[0]) + if StmtFalls(body[0]) then LiveNested(body[1..]) else {}
  }

  function LiveStmt<I>(stmt: Stmt<I>): set<Label>
    decreases stmt
  {
    match stmt
    case Expr(_) => {}
    case If(_, body, orelse) => LiveFragment(body) + LiveFragment(orelse)
  }

  function LiveFragment<I>(fragment: Fragment<I>): set<Label>
    decreases fragment
  {
    LiveNested(fragment.body) +
    if Falls(fragment.body) && fragment.term.Some? then TermTargets(fragment.term.value) else {}
  }

  // Everything but a lone jump evaluates an instruction or raises.
  predicate CanThrow<I>(block: Block<I>) {
    block.body != [] || !block.term.Jump?
  }

  // The labels control can go to from a block, for some instruction semantics.
  function LiveSuccessors<I>(blocks: seq<Block<I>>, at: Label): set<Label> {
    match Find(blocks, at)
    case Some(i) =>
      LiveNested(blocks[i].body)
      + (if Falls(blocks[i].body) then TermTargets(blocks[i].term) else {})
      + (if CanThrow(blocks[i]) then ExcTargets(blocks[i]) else {})
    case None => {}
  }

  function LiveMap<I>(blocks: seq<Block<I>>): Label -> set<Label> {
    l => LiveSuccessors(blocks, l)
  }

  // The label of some block that a run from `entry` can be at.
  ghost predicate Live<I>(blocks: seq<Block<I>>, entry: Label, at: Label) {
    Reaches(LiveMap(blocks), {entry}, at)
  }

  // Pruning keeps every block a run from the entry can reach.
  ghost predicate KeepsLive<I>(blocks: seq<Block<I>>, entry: Label, keep: set<Label>) {
    forall l :: l in Labels(blocks) && Live(blocks, entry, l) ==> l in keep
  }

  // ---- Sufficiency ---------------------------------------------------------

  lemma {:induction false} FlowIsLive<I, S, V>(m: Machine<I, S, V>, body: seq<Stmt<I>>, s: S)
    ensures var flow := ExecStmts(m, body, s);
            && (flow.Fall? ==> Falls(body))
            && (flow.Leave? && flow.exit.ToBlock? ==> flow.exit.edge.target in LiveNested(body))
            && (flow.Leave? && flow.exit.Threw? ==> body != [])
    decreases body
  {
    if body != [] {
      StmtFlowIsLive(m, body[0], s);
      var flow := ExecStmt(m, body[0], s);
      if flow.Fall? {
        FlowIsLive(m, body[1..], flow.state);
      }
    }
  }

  lemma {:induction false} StmtFlowIsLive<I, S, V>(m: Machine<I, S, V>, stmt: Stmt<I>, s: S)
    ensures var flow := ExecStmt(m, stmt, s);
            && (flow.Fall? ==> StmtFalls(stmt))
            && (flow.Leave? && flow.exit.ToBlock? ==> flow.exit.edge.target in LiveStmt(stmt))
    decreases stmt
  {
    if stmt.If? && EvalTest(m, stmt.test, s).Value? {
      var Value(s1, b) := EvalTest(m, stmt.test, s);
      FlowIsLive(m, stmt.body.body, s1);
      FlowIsLive(m, stmt.orelse.body, s1);
    }
  }

  // A step goes to a live successor, or control leaves the list through one.
  lemma StepIsLive<I, S, V>(m: Machine<I, S, V>, blocks: seq<Block<I>>, at: Label, s: S)
    requires at in Labels(blocks)
    ensures var b := blocks[Find(blocks, at).value];
            var exit := ExecBody(m, b.body, b.term, s);
            && (exit.ToBlock? ==> exit.edge.target in LiveSuccessors(blocks, at))
            && (exit.Threw? ==> ExcTargets(b) <= LiveSuccessors(blocks, at))
  {
    var b := blocks[Find(blocks, at).value];
    FlowIsLive(m, b.body, s);
  }

  // Where an edge leads, when its target is kept or is no block at all.
  lemma RetainedEdge<I, S, V>(m: Machine<I, S, V>, blocks: seq<Block<I>>, keep: set<Label>,
                              edge: BlockEdge, s: S)
    requires DistinctLabels(blocks)
    ensures edge.target in Labels(blocks) ==> edge.target in keep ==>
              FollowEdge(m, Retained(blocks, keep), edge, s) == FollowEdge(m, blocks, edge, s)
    ensures edge.target !in Labels(blocks) ==>
              FollowEdge(m, Retained(blocks, keep), edge, s) == FollowEdge(m, blocks, edge, s)
    ensures edge.target !in keep ==>
              FollowEdge(m, Retained(blocks, keep), edge, s) == Done(Escaped(edge, s))
  {
    RetainedFind(blocks, keep, edge.target);
  }

  // Pruning preserves every run from the entry as soon as it keeps every live block.
  lemma PruneSafe<I, S(!new), V(!new)>(m: Machine<I, S, V>, blocks: seq<Block<I>>, keep: set<Label>, entry: Label)
    requires DistinctLabels(blocks) && entry in Labels(blocks)
    requires KeepsLive(blocks, entry, keep)
    ensures SameRuns(m, blocks, entry, Retained(blocks, keep), entry)
  {
    var out := Retained(blocks, keep);
    var live := set l | l in Labels(blocks) && Live(blocks, entry, l);
    var f := Same(live);
    ReachesRoot(LiveMap(blocks), {entry}, entry);
    forall at, s | at in f
      ensures StepMatches(m, blocks, out, f, at, s)
    {
      RetainedFind(blocks, keep, at);
      var b := blocks[Find(blocks, at).value];
      var exit := ExecBody(m, b.body, b.term, s);
      StepIsLive(m, blocks, at, s);
      if exit.ToBlock? {
        ReachesNext(LiveMap(blocks), {entry}, at, exit.edge.target);
        RetainedEdge(m, blocks, keep, exit.edge, exit.state);
      } else if exit.Threw? && b.excEdge.Some? {
        assert b.excEdge.value.target in ExcTargets(b);
        ReachesNext(LiveMap(blocks), {entry}, at, b.excEdge.value.target);
        RetainedEdge(m, blocks, keep, b.excEdge.value, exit.state);
      }
      assert StepN(m, out, At(at, s), 1) == StepN(m, out, Step(m, out, At(at, s)), 0);
    }
    SimulationSameRuns(m, blocks, out, f, entry);
  }

  // ---- Necessity -----------------------------------------------------------

  // A machine whose state is a script: each evaluation consumes one number, raising when it is
  // negative, and tests and br_tables read the number consumed.
  function Scripted<I>(): Machine<I, seq<int>, int> {
    Machine(
      (e: I, s: seq<int>) => if s == [] then Value([], 0) else if s[0] < 0 then Raised(s[1..]) else Value(s[1..], s[0]),
      (v: int, s: seq<int>) => Value(s, v != 0),
      (v: int, s: seq<int>) => v,
      (v: Option<int>, s: seq<int>) => s,
      (names: seq<string>, args: seq<BlockArg>, s: seq<int>) => s,
      (s: seq<int>) => s)
  }

  lemma ScriptedEval<I>(e: I, n: int, rest: seq<int>)
    ensures Scripted<I>().eval(e, [n] + rest) == if n < 0 then Raised(rest) else Value(rest, n)
    ensures EvalTest(Scripted<I>(), e, [n] + rest) == if n < 0 then Raised(rest) else Value(rest, n != 0)
  {
  }

  // A script that makes a terminator transfer control to one of its targets.
  lemma DriveTerm<I>(term: Term<I>, to: Label, rest: seq<int>) returns (script: seq<int>)
    requires to in TermTargets(term)
    ensures ExecTerm(Scripted(), term, script).ToBlock?
    ensures ExecTerm(Scripted(), term, script).edge.target == to && ExecTerm(Scripted(), term, script).state == rest
  {
    match term
    case Jump(_) => script := rest;
    case IfTerm(test, thenLabel, _) =>
      var n := if to == thenLabel then 1 else 0;
      ScriptedEval(test, n, rest);
      script := [n] + rest;
    case BranchTable(index, targets, defaultLabel) =>
      var i := |targets|;
      if to in targets {
        i :| 0 <= i < |targets| && targets[i] == to;
      }
      ScriptedEval(index, i, rest);
      script := [i] + rest;
  }

  // A script that makes a body fall through.
  lemma {:induction false} DriveFall<I>(body: seq<Stmt<I>>, rest: seq<int>) returns (script: seq<int>)
    requires Falls(body)
    ensures ExecStmts(Scripted(), body, script) == Fall(rest)
    decreases body
  {
    if body == [] {
      script := rest;
    } else {
      var tail := DriveFall(body[1..], rest);
      script := DriveStmtFall(body[0], tail);
    }
  }

  lemma {:induction false} DriveStmtFall<I>(stmt: Stmt<I>, rest: seq<int>) returns (script: seq<int>)
    requires StmtFalls(stmt)
    ensures ExecStmt(Scripted(), stmt, script) == Fall(rest)
    decreases stmt
  {
    match stmt
    case Expr(e) =>
      ScriptedEval(e, 0, rest);
      script := [0] + rest;
    case If(test, body, orelse) =>
      var branch := if FragmentFalls(body) then body else orelse;
      var n := if FragmentFalls(body) then 1 else 0;
      var tail := DriveFall(branch.body, rest);
      ScriptedEval(test, n, tail);
      script := [n] + tail;
  }

  // A script that makes a body transfer control to a live nested target.
  lemma {:induction false} DriveNested<I>(body: seq<Stmt<I>>, to: Label, rest: seq<int>) returns (script: seq<int>, edge: BlockEdge)
    requires to in LiveNested(body)
    ensures edge.target == to && ExecStmts(Scripted(), body, script) == Leave(ToBlock(edge, rest))
    decreases body
  {
    if to in LiveStmt(body[0]) {
      script, edge := DriveStmtNested(body[0], to, rest);
    } else {
      var tail, e := DriveNested(body[1..], to, rest);
      edge := e;
      script := DriveStmtFall(body[0], tail);
    }
  }

  lemma {:induction false} DriveStmtNested<I>(stmt: Stmt<I>, to: Label, rest: seq<int>) returns (script: seq<int>, edge: BlockEdge)
    requires to in LiveStmt(stmt)
    ensures edge.target == to && ExecStmt(Scripted(), stmt, script) == Leave(ToBlock(edge, rest))
    decreases stmt
  {
    var n := if to in LiveFragment(stmt.body) then 1 else 0;
    var branch := if to in LiveFragment(stmt.body) then stmt.body else stmt.orelse;
    var tail: seq<int>;
    if to in LiveNested(branch.body) {
      tail, edge := DriveNested(branch.body, to, rest);
    } else {
      var last := DriveTerm(branch.term.value, to, rest);
      edge := ExecTerm(Scripted<I>(), branch.term.value, last).edge;
      tail := DriveFall(branch.body, last);
    }
    ScriptedEval(stmt.test, n, tail);
    script := [n] + tail;
  }

  // A script that takes a block to one of its live successors, by an edge out of the list or to a block.
  lemma DriveBlock<I>(blocks: seq<Block<I>>, at: Label, to: Label, rest: seq<int>) returns (script: seq<int>, edge: BlockEdge)
    requires at in Labels(blocks) && to in LiveSuccessors(blocks, at)
    ensures edge.target == to
    ensures var b := blocks[Find(blocks, at).value];
            var exit := ExecBody(Scripted(), b.body, b.term, script);
            exit == ToBlock(edge, rest) || (exit == Threw(rest) && b.excEdge == Some(edge))
  {
    var b := blocks[Find(blocks, at).value];
    if to in LiveNested(b.body) {
      script, edge := DriveNested(b.body, to, rest);
    } else if Falls(b.body) && to in TermTargets(b.term) {
      var last := DriveTerm(b.term, to, rest);
      edge := ExecTerm(Scripted<I>(), b.term, last).edge;
      script := DriveFall(b.body, last);
    } else {
      edge := b.excEdge.value;
      script := DriveThrow(b, rest);
    }
  }

  lemma DriveThrow<I>(b: Block<I>, rest: seq<int>) returns (script: seq<int>)
    requires CanThrow(b)
    ensures ExecBody(Scripted(), b.body, b.term, script) == Threw(rest)
  {
    if b.body != [] {
      script := [-1] + rest;
      match b.body[0] {
        case Expr(e) => ScriptedEval(e, -1, rest);
        case If(test, _, _) => ScriptedEval(test, -1, rest);
      }
      assert ExecStmt(Scripted<I>(), b.body[0], script) == Leave(Threw(rest));
    } else {
      script := DriveTermThrow(b.term, rest);
    }
  }

  lemma DriveTermThrow<I>(term: Term<I>, rest: seq<int>) returns (script: seq<int>)
    requires !term.Jump?
    ensures ExecTerm(Scripted(), term, script) == Threw(rest)
  {
    script := [-1] + rest;
    match term
    case IfTerm(test, _, _) => ScriptedEval(test, -1, rest);
    case BranchTable(index, _, _) => ScriptedEval(index, -1, rest);
    case Return(value) => ScriptedEval(value, -1, rest);
    case Raise(Some(exc)) => ScriptedEval(exc, -1, rest);
    case Raise(None) => script := rest;
  }

  // Control that leaves the list leaves it for a label no block has.
  lemma {:induction false} EscapesOutside<I, S, V>(m: Machine<I, S, V>, blocks: seq<Block<I>>, at: Label, s: S, n: nat)
    requires at in Labels(blocks)
    ensures match StepN(m, blocks, At(at, s), n) {
              case Done(Escaped(edge, _)) => edge.target !in Labels(blocks)
              case _ => true
            }
    decreases n
  {
    if n > 0 {
      match Step(m, blocks, At(at, s))
      case At(at', s') => EscapesOutside(m, blocks, at', s', n - 1);
      case Done(o) => DoneStays(m, blocks, Done(o), n - 1);
    }
  }

  // A live block that is not kept is the end of a live walk whose other blocks are kept.
  lemma FirstLost<I>(blocks: seq<Block<I>>, keep: set<Label>, entry: Label) returns (path: seq<Label>)
    requires entry in Labels(blocks) && entry in keep
    requires !KeepsLive(blocks, entry, keep)
    ensures |path| >= 2 && Walk(LiveMap(blocks), path) && path[0] == entry
    ensures forall l :: l in path ==> l in Labels(blocks)
    ensures forall i :: 0 <= i < |path| - 1 ==> path[i] in keep
    ensures path[|path| - 1] !in keep
  {
    var l :| l in Labels(blocks) && Live(blocks, entry, l) && l !in keep;
    path :| Walk(LiveMap(blocks), path) && path[0] in {entry} && path[|path| - 1] == l;
    while exists i :: 0 <= i < |path| - 1 && path[i] !in keep
      invariant path != [] && Walk(LiveMap(blocks), path) && path[0] == entry
      invariant path[|path| - 1] in Labels(blocks) && path[|path| - 1] !in keep
      decreases |path|
    {
      var i :| 0 <= i < |path| - 1 && path[i] !in keep;
      assert path[i + 1] in LiveMap(blocks)(path[i]);
      path := path[..i + 1];
    }
    forall i | 0 <= i < |path|
      ensures path[i] in Labels(blocks)
    {
      if i < |path| - 1 {
        assert path[i + 1] in LiveMap(blocks)(path[i]);
      }
    }
  }

  // While a run stays at kept blocks, the pruned list takes the same steps.
  lemma {:induction false} KeptWalkAgrees<I>(blocks: seq<Block<I>>, keep: set<Label>, path: seq<Label>, rest: seq<int>)
    returns (script: seq<int>)
    requires DistinctLabels(blocks) && Walk(LiveMap(blocks), path)
    requires forall l :: l in path ==> l in Labels(blocks) && l in keep
    ensures StepN(Scripted(), Retained(blocks, keep), At(path[0], script), |path| - 1) == At(path[|path| - 1], rest)
    ensures StepN(Scripted(), blocks, At(path[0], script), |path| - 1) == At(path[|path| - 1], rest)
    decreases |path|
  {
    if |path| == 1 {
      script := rest;
    } else {
      WalkTail(LiveMap(blocks), path);
      var tail := KeptWalkAgrees(blocks, keep, path[1..], rest);
      script := DriveStep(blocks, keep, path[0], path[1], tail);
    }
  }

  // A script for one step between kept blocks, in both lists.
  lemma DriveStep<I>(blocks: seq<Block<I>>, keep: set<Label>, at: Label, to: Label, rest: seq<int>) returns (script: seq<int>)
    requires DistinctLabels(blocks) && at in Labels(blocks) && at in keep && to in Labels(blocks) && to in keep
    requires to in LiveSuccessors(blocks, at)
    ensures Step(Scripted(), blocks, At(at, script)) == At(to, rest)
    ensures Step(Scripted(), Retained(blocks, keep), At(at, script)) == At(to, rest)
  {
    var edge;
    script, edge := DriveBlock(blocks, at, to, rest);
    RetainedFind(blocks, keep, at);
    RetainedFind(blocks, keep, to);
  }

  // When pruning drops a live block, some machine and state tell the two lists apart.
  lemma PruneUnsafe<I>(blocks: seq<Block<I>>, keep: set<Label>, entry: Label)
    requires DistinctLabels(blocks) && entry in Labels(blocks) && entry in keep
    requires !KeepsLive(blocks, entry, keep)
    ensures !SameRuns(Scripted(), blocks, entry, Retained(blocks, keep), entry)
  {
    var m, out := Scripted<I>(), Retained(blocks, keep);
    var path := FirstLost(blocks, keep, entry);
    var last, lost := path[|path| - 2], path[|path| - 1];
    WalkInit(LiveMap(blocks), path);
    var s, edge := DriveBlock(blocks, last, lost, []);
    var init := path[..|path| - 1];
    var script := KeptWalkAgrees(blocks, keep, init, s);
    RetainedFind(blocks, keep, last);
    RetainedFind(blocks, keep, lost);
    var o := Escaped(edge, []);
    assert Step(m, out, At(last, s)) == Done(o);
    StepNAdd(m, out, At(entry, script), |init| - 1, 1);
    assert StepN(m, out, At(last, s), 1) == StepN(m, out, Done(o), 0);
    assert Ends(m, out, At(entry, script), o);
    if Ends(m, blocks, At(entry, script), o) {
      var n: nat :| StepN(m, blocks, At(entry, script), n) == Done(o);
      EscapesOutside(m, blocks, entry, script, n);
    }
  }

  // Pruning preserves the runs from the entry, whatever instructions mean, exactly when it keeps
  // every block that control can go to -- which successor reachability alone does not ensure,
  // because it does not look inside structured ifs.
  lemma PruneExact<I(!new)>(blocks: seq<Block<I>>, keep: set<Label>, entry: Label)
    requires DistinctLabels(blocks) && entry in Labels(blocks) && entry in keep
    ensures KeepsLive(blocks, entry, keep) <==>
              forall m: Machine<I, seq<int>, int> :: SameRuns(m, blocks, entry, Retained(blocks, keep), entry)
  {
    if KeepsLive(blocks, entry, keep) {
      forall m: Machine<I, seq<int>, int>
        ensures SameRuns(m, blocks, entry, Retained(blocks, keep), entry)
      {
        PruneSafe(m, blocks, keep, entry);
      }
    } else {
      PruneUnsafe(blocks, keep, entry);
    }
  }

  // ---- The roots the compiler passes ---------------------------------------

  // The labels of the blocks pruning keeps.
  ghost function KeptLabels<I>(blocks: seq<Block<I>>, roots: set<Label>): set<Label> {
    set l | l in Labels(blocks) && Kept(blocks, roots, l)
  }

  // The entry and every exception target, as the callable builder passes them.
  ghost predicate RootsCoverHandlers<I>(blocks: seq<Block<I>>, roots: set<Label>, entry: Label) {
    entry in roots && forall i :: 0 <= i < |blocks| ==> ExcTargets(blocks[i]) <= roots
  }

  // Jumps out of nested branches go to blocks that successors reach anyway.
  ghost predicate NestedTargetsKept<I>(blocks: seq<Block<I>>, roots: set<Label>) {
    forall i, l :: 0 <= i < |blocks| && l in NestedTargets(blocks[i].body) && l in Labels(blocks) ==> Kept(blocks, roots, l)
  }

  lemma {:induction false} LiveNestedMentioned<I>(body: seq<Stmt<I>>)
    ensures LiveNested(body) <= NestedTargets(body)
    decreases body
  {
    if body != [] {
      LiveStmtMentioned(body[0]);
      LiveNestedMentioned(body[1..]);
    }
  }

  lemma {:induction false} LiveStmtMentioned<I>(stmt: Stmt<I>)
    ensures LiveStmt(stmt) <= StmtTargets(stmt)
    decreases stmt
  {
    match stmt
    case Expr(_) =>
    case If(_, body, orelse) =>
      LiveNestedMentioned(body.body);
      LiveNestedMentioned(orelse.body);
  }

  // With handlers as roots, pruning keeps every live block if nested jumps only go to kept ones.
  lemma PruneKeepsLive<I>(blocks: seq<Block<I>>, roots: set<Label>, entry: Label)
    requires DistinctLabels(blocks) && RootsCoverHandlers(blocks, roots, entry) && NestedTargetsKept(blocks, roots)
    ensures KeepsLive(blocks, entry, KeptLabels(blocks, roots))
  {
    forall l | l in Labels(blocks) && Live(blocks, entry, l)
      ensures Kept(blocks, roots, l)
    {
      var path :| Walk(LiveMap(blocks), path) && path[0] in {entry} && path[|path| - 1] == l;
      LiveWalkKept(blocks, roots, entry, path);
    }
  }

  lemma {:induction false} LiveWalkKept<I>(blocks: seq<Block<I>>, roots: set<Label>, entry: Label, path: seq<Label>)
    requires DistinctLabels(blocks) && RootsCoverHandlers(blocks, roots, entry) && NestedTargetsKept(blocks, roots)
    requires Walk(LiveMap(blocks), path) && path[0] == entry && path[|path| - 1] in Labels(blocks)
    ensures Kept(blocks, roots, path[|path| - 1])
    decreases |path|
  {
    if |path| == 1 {
      ReachesRoot(SuccessorMap(blocks), roots, entry);
    } else {
      var at, to := path[|path| - 2], path[|path| - 1];
      WalkInit(LiveMap(blocks), path);
      var i := Find(blocks, at).value;
      LiveWalkKept(blocks, roots, entry, path[..|path| - 1]);
      LiveNestedMentioned(blocks[i].body);
      if to in TermTargets(blocks[i].term) {
        ReachesNext(SuccessorMap(blocks), roots, at, to);
      } else if to in ExcTargets(blocks[i]) {
        ReachesRoot(SuccessorMap(blocks), roots, to);
      }
    }
  }

  // Flat blocks have no nested jumps: pruning them preserves every run from the entry.
  lemma PruneFlatPreservesRuns<I, S(!new), V(!new)>(m: Machine<I, S, V>, blocks: seq<Block<I>>, roots: set<Label>, entry: Label)
    requires DistinctLabels(blocks) && entry in Labels(blocks) && FlatBlocks(blocks)
    requires RootsCoverHandlers(blocks, roots, entry)
    ensures SameRuns(m, blocks, entry, Retained(blocks, KeptLabels(blocks, roots)), entry)
  {
    forall i | 0 <= i < |blocks|
      ensures NestedTargets(blocks[i].body) == {}
    {
      FlatHasNoNestedTargets(blocks[i].body);
    }
    PruneKeepsLive(blocks, roots, entry);
    PruneSafe(m, blocks, KeptLabels(blocks, roots), entry);
  }

  // Block 0 loops to itself and its nested `if` jumps to block 1, which nothing else mentions. The block
  // language allows this list; the compiler's lowering never emits it, since there a nested branch only
  // returns or raises (see `CfgPipeline.CompilerChainOnLoweredCode`).
  function LoopWithNestedJump<I>(test: I, result: I): seq<Block<I>> {
    [LoopHead(test), Block(1, [], Return(result), [], None)]
  }

  function LoopHead<I>(test: I): Block<I> {
    Block(0, [If(test, JumpingBranch(), Fragment([], None))], Jump(BlockEdge(0, [])), [], None)
  }

  function JumpingBranch<I>(): Fragment<I> {
    Fragment([], Some(Jump(BlockEdge(1, []))))
  }

  lemma LoopWithNestedJumpKept<I>(test: I, result: I, blocks: seq<Block<I>>)
    requires blocks == LoopWithNestedJump(test, result)
    ensures DistinctLabels(blocks) && Labels(blocks) == {0, 1} && Find(blocks, 0) == Some(0)
    ensures RootsCoverHandlers(blocks, {0}, 0)
    ensures KeptLabels(blocks, {0}) == {0}
  {
    assert blocks[0].blockLabel == 0 && blocks[1].blockLabel == 1;
    FindUnique(blocks, 0);
    ReachesRoot(SuccessorMap(blocks), {0}, 0);
    forall l | Kept(blocks, {0}, l)
      ensures l == 0
    {
      var path :| Walk(SuccessorMap(blocks), path) && path[0] in {0} && path[|path| - 1] == l;
      ClosedHoldsReached(SuccessorMap(blocks), {0}, {0}, path);
    }
  }

  lemma NestedJumpIsLive<I>(test: I)
    ensures 1 in LiveNested(LoopHead(test).body)
  {
    var jump := JumpingBranch<I>();
    assert Falls(jump.body) && TermTargets(jump.term.value) == {1};
    assert 1 in LiveFragment(jump);
    assert LoopHead(test).body[0].body == jump;
  }

  lemma LoopWithNestedJumpLive<I>(test: I, result: I, blocks: seq<Block<I>>)
    requires blocks == LoopWithNestedJump(test, result)
    ensures Live(blocks, 0, 1)
  {
    assert Find(blocks, 0) == Some(0) by {
      LoopWithNestedJumpKept(test, result, blocks);
    }
    NestedJumpIsLive(test);
    ReachesRoot(LiveMap(blocks), {0}, 0);
    ReachesNext(LiveMap(blocks), {0}, 0, 1);
  }

  // A live block that is not kept makes a difference.
  lemma LosingALiveBlock<I>(blocks: seq<Block<I>>, roots: set<Label>, entry: Label, lost: Label)
    requires DistinctLabels(blocks) && entry in KeptLabels(blocks, roots)
    requires lost in Labels(blocks) && Live(blocks, entry, lost) && lost !in KeptLabels(blocks, roots)
    ensures !SameRuns(Scripted(), blocks, entry, Retained(blocks, KeptLabels(blocks, roots)), entry)
  {
    PruneUnsafe(blocks, KeptLabels(blocks, roots), entry);
  }

  // Pruning that list from its entry drops the block the nested branch jumps to.
  lemma PruneCanLoseANestedTarget<I>(test: I, result: I) returns (blocks: seq<Block<I>>)
    ensures DistinctLabels(blocks) && RootsCoverHandlers(blocks, {0}, 0)
    ensures 0 in KeptLabels(blocks, {0})
    ensures 1 in Labels(blocks) && Live(blocks, 0, 1) && 1 !in KeptLabels(blocks, {0})
  {
    hide LoopWithNestedJump, Labels, DistinctLabels, RootsCoverHandlers, KeptLabels, Live;
    blocks := LoopWithNestedJump(test, result);
    LoopWithNestedJumpKept(test, result, blocks);
    LoopWithNestedJumpLive(test, result, blocks);
  }

  // So pruning can change the runs from the entry although its roots cover every handler.
  lemma PruneCanChangeRuns<I>(test: I, result: I) returns (blocks: seq<Block<I>>)
    ensures DistinctLabels(blocks) && RootsCoverHandlers(blocks, {0}, 0)
    ensures !SameRuns(Scripted(), blocks, 0, Retained(blocks, KeptLabels(blocks, {0})), 0)
  {
    blocks := PruneCanLoseANestedTarget(test, result);
    LosingALiveBlock(blocks, {0}, 0, 1);
  }
}
