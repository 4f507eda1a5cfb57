/** Making jump arguments explicit preserves the runs exactly when the jumps that matter are declared. */
module JumpArgsExact {
  import opened Prelude
  import opened BlockIr
  import opened BlockSemantics
  import opened CfgPrune
  import opened JumpArgs
  import opened JumpArgsRuns

  // The laws the other passes ask of a machine.
  ghost predicate Lawful<I, S(!new), V>(m: Machine<I, S, V>) {
    RebindIsIdentity(m) && BindIsLocal(m)
  }

  // ---- A machine that records what is bound --------------------------------

  type Bindings = seq<(seq<string>, seq<BlockArg>)>

  // The script decides where control goes. The frame holds what was bound since the last evaluation or raise,
  // which moves it to the heap.
  datatype Tape = Tape(script: seq<int>, heap: seq<Bindings>, frame: Bindings)

  function Settle(t: Tape, script: seq<int>): Tape {
    Tape(script, t.heap + [t.frame], [])
  }

  // Binding names to the values they have leaves no trace.
  function Bind(names: seq<string>, args: seq<BlockArg>, t: Tape): Tape {
    if args == NameArgs(names) then t else t.(frame := t.frame + [(names, args)])
  }

  function Recorder<I>(): Machine<I, Tape, int> {
    Machine(
      (e: I, t: Tape) =>
        match Scripted<I>().eval(e, t.script)
        case Value(s, v) => Value(Settle(t, s), v)
        case Raised(s) => Raised(Settle(t, s)),
      (v: int, t: Tape) => Value(t, v != 0),
      (v: int, t: Tape) => v,
      (v: Option<int>, t: Tape) => Settle(t, t.script),
      Bind,
      (t: Tape) => t.(frame := []))
  }

  lemma RecorderIsLawful<I>()
    ensures Lawful(Recorder<I>())
  {
  }

  // ---- Recording does not change where control goes ------------------------

  function BareExit(exit: Exit<Tape, int>): Exit<seq<int>, int> {
    match exit
    case ToBlock(edge, t) => ToBlock(edge, t.script)
    case Threw(t) => Threw(t.script)
    case Finished(t, v) => Finished(t.script, v)
  }

  function BareFlow(flow: Flow<Tape, int>): Flow<seq<int>, int> {
    match flow
    case Fall(t) => Fall(t.script)
    case Leave(exit) => Leave(BareExit(exit))
  }

  // The script's part of a configuration.
  function Bare(c: Config<Tape, int>): Config<seq<int>, int> {
    match c
    case At(at, t) => At(at, t.script)
    case Done(Returned(t, v)) => Done(Returned(t.script, v))
    case Done(Uncaught(t)) => Done(Uncaught(t.script))
    case Done(Escaped(edge, t)) => Done(Escaped(edge, t.script))
  }

  lemma {:induction false} RecordedStmts<I>(body: seq<Stmt<I>>, t: Tape)
    requires FlatBody(body)
    ensures BareFlow(ExecStmts(Recorder(), body, t)) == ExecStmts(Scripted(), body, t.script)
    decreases |body|
  {
    if body != [] {
      assert body[0].Expr?;
      var flow := ExecStmt(Recorder(), body[0], t);
      if flow.Fall? {
        RecordedStmts(body[1..], flow.state);
      }
    }
  }

  lemma RecordedTerm<I>(term: Term<I>, t: Tape)
    ensures BareExit(ExecTerm(Recorder(), term, t)) == ExecTerm(Scripted(), term, t.script)
  {
  }

  lemma RecordedBody<I>(body: seq<Stmt<I>>, term: Term<I>, t: Tape)
    requires FlatBody(body)
    ensures BareExit(ExecBody(Recorder(), body, term, t)) == ExecBody(Scripted(), body, term, t.script)
  {
    hide Recorder, Scripted, ExecTerm;
    RecordedStmts(body, t);
    var flow := ExecStmts(Recorder(), body, t);
    if flow.Fall? {
      RecordedTerm(term, flow.state);
    }
  }

  lemma RecordedEdge<I>(blocks: seq<Block<I>>, edge: BlockEdge, t: Tape)
    ensures Bare(FollowEdge(Recorder(), blocks, edge, t)) == FollowEdge(Scripted(), blocks, edge, t.script)
  {
  }

  lemma RecordedStep<I>(blocks: seq<Block<I>>, c: Config<Tape, int>)
    requires FlatBlocks(blocks)
    ensures Bare(Step(Recorder(), blocks, c)) == Step(Scripted(), blocks, Bare(c))
  {
    hide ExecBody, Scripted, FollowEdge, Recorder;
    FinishKeepsScript<I>();
    if c.At? && Find(blocks, c.point).Some? {
      var b := blocks[Find(blocks, c.point).value];
      assert FlatBody(b.body);
      RecordedBody(b.body, b.term, c.state);
      var exit := ExecBody(Recorder(), b.body, b.term, c.state);
      if exit.ToBlock? {
        RecordedEdge(blocks, exit.edge, exit.state);
      } else if exit.Threw? && b.excEdge.Some? {
        RecordedEdge(blocks, b.excEdge.value, exit.state);
      }
    }
  }

  lemma FinishKeepsScript<I>()
    ensures forall t :: Recorder<I>().finish(t) == t.(frame := [])
    ensures forall s :: Scripted<I>().finish(s) == s
  {
  }

  lemma {:induction false} RecordedRun<I>(blocks: seq<Block<I>>, c: Config<Tape, int>, n: nat)
    requires FlatBlocks(blocks)
    ensures Bare(StepN(Recorder(), blocks, c, n)) == StepN(Scripted(), blocks, Bare(c), n)
    decreases n
  {
    hide Step, FlatBlocks, Recorder, Scripted, Bare;
    if n > 0 {
      RecordedStep(blocks, c);
      RecordedRun(blocks, Step(Recorder(), blocks, c), n - 1);
    }
  }

  lemma BareKind(c: Config<Tape, int>)
    ensures Bare(c).At? <==> c.At?
  {
  }

  // On the bare script the two lists step alike, since nothing is bound.
  lemma ScriptedAlike<I>(blocks: seq<Block<I>>, c: Config<seq<int>, int>)
    ensures Step(Scripted(), Populated(blocks), c) == Step(Scripted(), blocks, c)
  {
    if c.At? {
      PopulatedFind(blocks, c.point);
      if c.point in Labels(blocks) {
        var i := Find(blocks, c.point).value;
        var b := blocks[i];
        var flow, exit := ExecStmts(Scripted(), b.body, c.state), ExecBody(Scripted(), b.body, b.term, c.state);
        if flow.Fall? && JumpTarget(blocks, i).Some? {
          PopulatedJump(Scripted(), blocks, i, flow.state);
        } else if exit.ToBlock? {
          PopulatedEdge(Scripted(), blocks, exit.edge, exit.state);
        } else if exit.Threw? && b.excEdge.Some? {
          PopulatedEdge(Scripted(), blocks, b.excEdge.value, exit.state);
        }
      }
    }
  }

  lemma {:induction false} ScriptedRunsAlike<I>(blocks: seq<Block<I>>, c: Config<seq<int>, int>, n: nat)
    ensures StepN(Scripted(), Populated(blocks), c, n) == StepN(Scripted(), blocks, c, n)
    decreases n
  {
    hide Step, Populated, Scripted;
    if n > 0 {
      ScriptedAlike(blocks, c);
      ScriptedRunsAlike(blocks, Step(Scripted(), blocks, c), n - 1);
    }
  }

  // ---- Tapes that stay apart -----------------------------------------------

  // The second frame holds more, or as much but something else.
  predicate Fuller(f: Bindings, g: Bindings) {
    |g| > |f| || (|g| == |f| && f != g)
  }

  predicate HeapsApart(t: Tape, u: Tape) {
    t.script == u.script && |t.heap| == |u.heap| && t.heap != u.heap
  }

  predicate Apart(t: Tape, u: Tape) {
    t.script == u.script && |t.heap| == |u.heap| && (t.heap != u.heap || Fuller(t.frame, u.frame))
  }

  // An evaluation or a raise makes the difference permanent.
  lemma SettledApart(t: Tape, u: Tape, script: seq<int>)
    requires Apart(t, u)
    ensures HeapsApart(Settle(t, script), Settle(u, script))
  {
    var a, b := Settle(t, script).heap, Settle(u, script).heap;
    if t.heap != u.heap {
      var k :| 0 <= k < |t.heap| && t.heap[k] != u.heap[k];
      assert a[k] != b[k];
    } else {
      assert a[|t.heap|] == t.frame && b[|t.heap|] == u.frame;
    }
  }

  lemma ApartEval<I>(e: I, t: Tape, u: Tape)
    requires Apart(t, u)
    ensures match (Recorder<I>().eval(e, t), Recorder<I>().eval(e, u)) {
              case (Value(t', v), Value(u', w)) => v == w && HeapsApart(t', u') && Apart(t', u')
              case (Raised(t'), Raised(u')) => HeapsApart(t', u') && Apart(t', u')
              case _ => false
            }
  {
    hide Settle;
    var script := match Scripted<I>().eval(e, t.script) case Value(s, _) => s case Raised(s) => s;
    SettledApart(t, u, script);
  }

  ghost predicate ExitsApart(a: Exit<Tape, int>, b: Exit<Tape, int>) {
    match (a, b)
    case (ToBlock(e, t), ToBlock(f, u)) => e == f && Apart(t, u)
    case (Threw(t), Threw(u)) => HeapsApart(t, u)
    case (Finished(t, v), Finished(u, w)) => v == w && HeapsApart(t, u)
    case _ => false
  }

  lemma {:induction false} ApartStmts<I>(body: seq<Stmt<I>>, t: Tape, u: Tape)
    requires FlatBody(body) && Apart(t, u)
    ensures match (ExecStmts(Recorder(), body, t), ExecStmts(Recorder(), body, u)) {
              case (Fall(t'), Fall(u')) => Apart(t', u')
              case (Leave(a), Leave(b)) => a.Threw? && b.Threw? && ExitsApart(a, b)
              case _ => false
            }
    decreases |body|
  {
    hide Recorder, Apart, HeapsApart;
    if body != [] {
      assert body[0].Expr?;
      ApartEval(body[0].instr, t, u);
      var flow, flow' := ExecStmt(Recorder(), body[0], t), ExecStmt(Recorder(), body[0], u);
      if flow.Fall? {
        ApartStmts(body[1..], flow.state, flow'.state);
      }
    }
  }

  lemma ApartTerm<I>(term: Term<I>, t: Tape, u: Tape)
    requires Apart(t, u)
    ensures ExitsApart(ExecTerm(Recorder(), term, t), ExecTerm(Recorder(), term, u))
  {
    hide Apart, HeapsApart, Settle;
    match term
    case Jump(_) =>
    case IfTerm(test, _, _) => ApartEval(test, t, u);
    case BranchTable(index, _, _) => ApartEval(index, t, u);
    case Raise(None) => ApartRaise<I>(None, t, u);
    case Raise(Some(exc)) =>
      ApartEval(exc, t, u);
      var r, r' := Recorder<I>().eval(exc, t), Recorder<I>().eval(exc, u);
      if r.Value? {
        ApartRaise<I>(Some(r.value), r.state, r'.state);
      }
    case Return(value) => ApartEval(value, t, u);
  }

  lemma ApartRaise<I>(v: Option<int>, t: Tape, u: Tape)
    requires Apart(t, u)
    ensures HeapsApart(Recorder<I>().raise(v, t), Recorder<I>().raise(v, u))
  {
    SettledApart(t, u, t.script);
  }

  lemma HeapsApartIsApart(t: Tape, u: Tape)
    requires HeapsApart(t, u)
    ensures Apart(t, u)
  {
  }

  lemma ApartBody<I>(body: seq<Stmt<I>>, term: Term<I>, t: Tape, u: Tape)
    requires FlatBody(body) && Apart(t, u)
    ensures ExitsApart(ExecBody(Recorder(), body, term, t), ExecBody(Recorder(), body, term, u))
  {
    hide Recorder, ExecTerm, Apart;
    ApartStmts(body, t, u);
    var flow, flow' := ExecStmts(Recorder(), body, t), ExecStmts(Recorder(), body, u);
    if flow.Fall? {
      ApartTerm(term, flow.state, flow'.state);
    }
  }

  // ---- The two lists side by side ------------------------------------------

  // Where what the pass writes would leave no trace, it is what the code generator passes.
  lemma WrittenPlainly(source: seq<BlockParam>, args: seq<BlockArg>, target: seq<BlockParam>)
    requires ResolveArgs(source, args, target) == NameArgs(ParamNames(target))
    ensures EdgeArgs(args, target) == ResolveArgs(source, args, target)
  {
    var written, received := ResolveArgs(source, args, target), EdgeArgs(args, target);
    forall i | 0 <= i < |target|
      ensures received[i] == written[i]
    {
      assert written[i] == NameArg(target[i].name);
    }
  }

  // A binding of the rewritten jump keeps tapes apart, and sets equal ones apart when it is not the one received.
  lemma BoundApart(source: seq<BlockParam>, args: seq<BlockArg>, target: seq<BlockParam>, t: Tape, u: Tape)
    requires Apart(t, u) || (t == u && ResolveArgs(source, args, target) != EdgeArgs(args, target))
    ensures Apart(Bind(ParamNames(target), EdgeArgs(args, target), t),
                  Bind(ParamNames(target), ResolveArgs(source, args, target), u))
  {
    hide ResolveArgs, EdgeArgs, NameArgs;
    if ResolveArgs(source, args, target) == NameArgs(ParamNames(target)) {
      WrittenPlainly(source, args, target);
    }
    var e, r := (ParamNames(target), EdgeArgs(args, target)), (ParamNames(target), ResolveArgs(source, args, target));
    FullerPush(t.frame, u.frame, e, r);
  }

  lemma FullerPush(f: Bindings, g: Bindings, x: (seq<string>, seq<BlockArg>), y: (seq<string>, seq<BlockArg>))
    ensures Fuller(f, g) ==> Fuller(f, g + [y]) && Fuller(f + [x], g + [y])
    ensures f == g ==> Fuller(f, g + [y]) && (x != y ==> Fuller(f + [x], g + [y]))
  {
    assert (f + [x])[|f|] == x && (g + [y])[|g|] == y;
    if |f| == |g| && f != g {
      var k :| 0 <= k < |f| && f[k] != g[k];
      assert (f + [x])[k] != (g + [y])[k];
    }
  }

  lemma BoundAlike(names: seq<string>, args: seq<BlockArg>, t: Tape, u: Tape)
    requires Apart(t, u)
    ensures Apart(Bind(names, args, t), Bind(names, args, u))
  {
    FullerPush(t.frame, u.frame, (names, args), (names, args));
  }

  // Configurations at the same place with tapes apart, or different outcomes.
  ghost predicate ConfigsApart(c: Config<Tape, int>, d: Config<Tape, int>) {
    match (c, d)
    case (At(at, t), At(at', u)) => at == at' && Apart(t, u)
    case (Done(o), Done(p)) => o != p
    case _ => false
  }

  lemma ApartEdge<I>(blocks: seq<Block<I>>, edge: BlockEdge, t: Tape, u: Tape)
    requires Apart(t, u)
    ensures ConfigsApart(FollowEdge(Recorder(), blocks, edge, t), FollowEdge(Recorder(), Populated(blocks), edge, u))
  {
    hide Apart, Bind;
    PopulatedEdge(Recorder(), blocks, edge, u);
    ApartDiffer(t, u);
    if edge.target in Labels(blocks) {
      var params := blocks[Find(blocks, edge.target).value].params;
      BoundAlike(ParamNames(params), EdgeArgs(edge.args, params), t, u);
    }
  }

  lemma ApartDiffer(t: Tape, u: Tape)
    requires Apart(t, u)
    ensures t != u
  {
  }

  // The jump of block `i`, taken in both lists.
  lemma ApartJump<I>(blocks: seq<Block<I>>, i: nat, t: Tape, u: Tape)
    requires i < |blocks| && JumpTarget(blocks, i).Some?
    requires Apart(t, u)
             || (t == u && !Declared(blocks[i].params, blocks[i].term.edge.args, JumpTarget(blocks, i).value.params))
    ensures ConfigsApart(FollowEdge(Recorder(), blocks, blocks[i].term.edge, t),
                         FollowEdge(Recorder(), Populated(blocks), PopulatedTerm(blocks, blocks[i].params, blocks[i].term).edge, u))
  {
    hide Apart, Bind, Declared, EdgeArgs, ResolveArgs, Populated, PopulatedTerm, FollowEdge;
    var source, args, target := blocks[i].params, blocks[i].term.edge.args, JumpTarget(blocks, i).value.params;
    PopulatedJump(Recorder(), blocks, i, t);
    PopulatedJump(Recorder(), blocks, i, u);
    WrittenAsReceivedExactly(source, args, target);
    BoundApart(source, args, target, t, u);
  }

  lemma ApartFollow<I>(blocks: seq<Block<I>>, excEdge: Option<BlockEdge>, a: Exit<Tape, int>, b: Exit<Tape, int>)
    requires ExitsApart(a, b)
    ensures ConfigsApart(Follow(Recorder(), blocks, excEdge, a), Follow(Recorder(), Populated(blocks), excEdge, b))
  {
    hide FollowEdge, Populated, Apart;
    if a.ToBlock? {
      ApartEdge(blocks, a.edge, a.state, b.state);
    } else {
      HeapsApartIsApart(a.state, b.state);
      if a.Threw? && excEdge.Some? {
        ApartEdge(blocks, excEdge.value, a.state, b.state);
      }
    }
  }

  // Once apart, always apart.
  lemma ApartStep<I>(blocks: seq<Block<I>>, c: Config<Tape, int>, d: Config<Tape, int>)
    requires FlatBlocks(blocks) && ConfigsApart(c, d)
    ensures ConfigsApart(Step(Recorder(), blocks, c), Step(Recorder(), Populated(blocks), d))
  {
    hide Recorder, Apart, Follow, FollowEdge, ExecTerm, HeapsApart;
    if c.At? {
      PopulatedFind(blocks, c.point);
      if Find(blocks, c.point).None? {
        ApartDiffer(c.state, d.state);
      } else {
        ApartBlock(blocks, Find(blocks, c.point).value, c.state, d.state);
      }
    }
  }

  lemma ApartBlock<I>(blocks: seq<Block<I>>, i: nat, t: Tape, u: Tape)
    requires i < |blocks| && FlatBlocks(blocks) && Apart(t, u)
    ensures var b := blocks[i];
            ConfigsApart(Follow(Recorder(), blocks, b.excEdge, ExecBody(Recorder(), b.body, b.term, t)),
                         Follow(Recorder(), Populated(blocks), b.excEdge,
                                ExecBody(Recorder(), b.body, PopulatedTerm(blocks, b.params, b.term), u)))
  {
    hide Recorder, Apart, FollowEdge, HeapsApart, ConfigsApart, ResolveArgs;
    var b := blocks[i];
    assert FlatBody(b.body);
    ApartStmts(b.body, t, u);
    var flow, flow' := ExecStmts(Recorder(), b.body, t), ExecStmts(Recorder(), b.body, u);
    if flow.Fall? && JumpTarget(blocks, i).Some? {
      ApartJump(blocks, i, flow.state, flow'.state);
    } else {
      ApartBody(b.body, b.term, t, u);
      ApartFollow(blocks, b.excEdge, ExecBody(Recorder(), b.body, b.term, t), ExecBody(Recorder(), b.body, b.term, u));
    }
  }

  ghost predicate Related(c: Config<Tape, int>, d: Config<Tape, int>) {
    c == d || ConfigsApart(c, d)
  }

  // From the same configuration the two lists step to the same one, or apart.
  lemma RelatedStep<I>(blocks: seq<Block<I>>, c: Config<Tape, int>)
    requires FlatBlocks(blocks)
    ensures Related(Step(Recorder(), blocks, c), Step(Recorder(), Populated(blocks), c))
  {
    hide Recorder, FollowEdge, ConfigsApart, ResolveArgs, Declared;
    if c.At? {
      PopulatedFind(blocks, c.point);
      if Find(blocks, c.point).Some? {
        var i := Find(blocks, c.point).value;
        var b := blocks[i];
        var flow, exit := ExecStmts(Recorder(), b.body, c.state), ExecBody(Recorder(), b.body, b.term, c.state);
        if flow.Fall? && JumpTarget(blocks, i).Some? {
          RelatedJump(blocks, i, flow.state);
        } else if exit.ToBlock? {
          PopulatedEdge(Recorder(), blocks, exit.edge, exit.state);
        } else if exit.Threw? && b.excEdge.Some? {
          PopulatedEdge(Recorder(), blocks, b.excEdge.value, exit.state);
        }
      }
    }
  }

  lemma RelatedJump<I>(blocks: seq<Block<I>>, i: nat, t: Tape)
    requires i < |blocks| && JumpTarget(blocks, i).Some?
    ensures Related(FollowEdge(Recorder(), blocks, blocks[i].term.edge, t),
                    FollowEdge(Recorder(), Populated(blocks), PopulatedTerm(blocks, blocks[i].params, blocks[i].term).edge, t))
  {
    hide Recorder, FollowEdge, ConfigsApart, ResolveArgs, EdgeArgs, Declared, Populated, PopulatedTerm;
    var source, args, target := blocks[i].params, blocks[i].term.edge.args, JumpTarget(blocks, i).value.params;
    WrittenAsReceivedExactly(source, args, target);
    if Declared(source, args, target) {
      PopulatedJump(Recorder(), blocks, i, t);
    } else {
      ApartJump(blocks, i, t, t);
    }
  }

  lemma {:induction false} RelatedRuns<I>(blocks: seq<Block<I>>, c: Config<Tape, int>, d: Config<Tape, int>, n: nat)
    requires FlatBlocks(blocks) && Related(c, d)
    ensures Related(StepN(Recorder(), blocks, c, n), StepN(Recorder(), Populated(blocks), d, n))
    ensures ConfigsApart(c, d) ==> ConfigsApart(StepN(Recorder(), blocks, c, n), StepN(Recorder(), Populated(blocks), d, n))
    decreases n
  {
    hide Step, Populated, FlatBlocks, Recorder, ConfigsApart;
    if n > 0 {
      if ConfigsApart(c, d) {
        ApartStep(blocks, c, d);
      } else {
        RelatedStep(blocks, c);
      }
      RelatedRuns(blocks, Step(Recorder(), blocks, c), Step(Recorder(), Populated(blocks), d), n - 1);
    }
  }

  // ---- Scripts -------------------------------------------------------------

  // A script that takes a run from the start of a live walk to its end.
  lemma WalkScript<I>(blocks: seq<Block<I>>, path: seq<Label>, rest: seq<int>) returns (script: seq<int>)
    requires DistinctLabels(blocks) && Walk(LiveMap(blocks), path) && forall l :: l in path ==> l in Labels(blocks)
    ensures StepN(Scripted(), blocks, At(path[0], script), |path| - 1) == At(path[|path| - 1], rest)
  {
    script := KeptWalkAgrees(blocks, Labels(blocks), path, rest);
  }

  // A script that ends a run at an ending block.
  lemma EndScript<I>(blocks: seq<Block<I>>, at: Label) returns (script: seq<int>)
    requires FlatBlocks(blocks) && Ending(blocks, at)
    ensures Step(Scripted(), blocks, At(at, script)).Done?
  {
    script := [];
    if at in Labels(blocks) {
      var b := blocks[Find(blocks, at).value];
      if b.term.Return? {
        FlatFalls(b.body);
        ScriptedEval(b.term.value, 0, []);
        script := DriveFall(b.body, [0] + []);
      } else {
        script := DriveThrow(b, []);
      }
    }
  }

  lemma {:induction false} FlatFalls<I>(body: seq<Stmt<I>>)
    requires FlatBody(body)
    ensures Falls(body)
    decreases |body|
  {
    if body != [] {
      assert body[0].Expr?;
      FlatFalls(body[1..]);
    }
  }

  // A script that ends a run which follows a live walk to an ending block.
  lemma {:induction false} WalkEndScript<I>(blocks: seq<Block<I>>, path: seq<Label>) returns (script: seq<int>, n: nat)
    requires FlatBlocks(blocks) && Walk(LiveMap(blocks), path) && Ending(blocks, path[|path| - 1])
    ensures StepN(Scripted(), blocks, At(path[0], script), n).Done?
    decreases |path|
  {
    hide Ending;
    n := 1;
    if path[0] !in Labels(blocks) {
      script := [];
      assert StepN(Scripted(), blocks, At(path[0], script), 1) == StepN(Scripted(), blocks, Step(Scripted(), blocks, At(path[0], script)), 0);
    } else if |path| == 1 {
      script := EndScript(blocks, path[0]);
      assert StepN(Scripted(), blocks, At(path[0], script), 1) == StepN(Scripted(), blocks, Step(Scripted(), blocks, At(path[0], script)), 0);
    } else {
      WalkTail(LiveMap(blocks), path);
      var tail, k := WalkEndScript(blocks, path[1..]);
      var edge;
      script, edge := DriveBlock(blocks, path[0], path[1], tail);
      ScriptedFollow(blocks, path[0], path[1], script, tail, edge);
      if path[1] in Labels(blocks) {
        n := k + 1;
      } else {
        assert StepN(Scripted(), blocks, At(path[0], script), 1) == StepN(Scripted(), blocks, Step(Scripted(), blocks, At(path[0], script)), 0);
      }
    }
  }

  lemma ScriptedFollow<I>(blocks: seq<Block<I>>, at: Label, to: Label, script: seq<int>, rest: seq<int>, edge: BlockEdge)
    requires at in Labels(blocks) && edge.target == to
    requires var b := blocks[Find(blocks, at).value];
             var exit := ExecBody(Scripted(), b.body, b.term, script);
             exit == ToBlock(edge, rest) || (exit == Threw(rest) && b.excEdge == Some(edge))
    ensures Step(Scripted(), blocks, At(at, script))
            == if to in Labels(blocks) then At(to, rest) else Done(Escaped(edge, rest))
  {
  }

  // ---- Necessity -----------------------------------------------------------

  // The block at index `i` is live and its jump leaves an undeclared param without an argument.
  ghost predicate Renames<I>(blocks: seq<Block<I>>, entry: Label, i: nat) {
    && i < |blocks| && Live(blocks, entry, blocks[i].blockLabel) && JumpTarget(blocks, i).Some?
    && !Declared(blocks[i].params, blocks[i].term.edge.args, JumpTarget(blocks, i).value.params)
  }

  // A script that takes a recorded run through such a jump; afterwards the tapes are apart.
  lemma RenamedRun<I>(blocks: seq<Block<I>>, entry: Label, i: nat, rest: seq<int>) returns (script: seq<int>, n: nat)
    requires DistinctLabels(blocks) && FlatBlocks(blocks) && entry in Labels(blocks) && Renames(blocks, entry, i)
    ensures var c := StepN(Recorder(), blocks, At(entry, Tape(script, [], [])), n);
            var d := StepN(Recorder(), Populated(blocks), At(entry, Tape(script, [], [])), n);
            ConfigsApart(c, d) && Bare(c) == At(blocks[i].term.edge.target, rest)
  {
    hide Walk, LiveSuccessors, Declared, Step, Populated, Recorder, Scripted, ConfigsApart;
    var at := blocks[i].blockLabel;
    FindUnique(blocks, i);
    var path := LivePath(blocks, entry, at);
    FlatFalls(blocks[i].body);
    var last := DriveFall(blocks[i].body, rest);
    script := WalkScript(blocks, path, last);
    var k := |path| - 1;
    var first := At(entry, Tape(script, [], []));
    var c, d := StepN(Recorder(), blocks, first, k), StepN(Recorder(), Populated(blocks), first, k);
    RecordedRun(blocks, first, k);
    assert Bare(first) == At(entry, script) && Bare(c) == At(at, last);
    BareKind(c);
    RelatedRuns(blocks, first, first, k);
    n := k + 1;
    StepOnce(Recorder(), blocks, first, k);
    StepOnce(Recorder(), Populated(blocks), first, k);
    RenamedStep(blocks, i, last, rest, c, d);
  }

  lemma StepOnce<I, S, V>(m: Machine<I, S, V>, blocks: seq<Block<I>>, c: Config<S, V>, n: nat)
    ensures StepN(m, blocks, c, n + 1) == Step(m, blocks, StepN(m, blocks, c, n))
  {
    StepNAdd(m, blocks, c, n, 1);
    var d := StepN(m, blocks, c, n);
    assert StepN(m, blocks, d, 1) == StepN(m, blocks, Step(m, blocks, d), 0);
  }

  lemma LivePath<I>(blocks: seq<Block<I>>, entry: Label, at: Label) returns (path: seq<Label>)
    requires Live(blocks, entry, at) && at in Labels(blocks)
    ensures Walk(LiveMap(blocks), path) && path[0] == entry && path[|path| - 1] == at
    ensures forall l :: l in path ==> l in Labels(blocks)
  {
    path :| Walk(LiveMap(blocks), path) && path[0] in {entry} && path[|path| - 1] == at;
    forall i | 0 <= i < |path|
      ensures path[i] in Labels(blocks)
    {
      if i < |path| - 1 {
        assert path[i + 1] in LiveMap(blocks)(path[i]);
      }
    }
  }

  // The jump itself: what it binds is not what the other list binds.
  lemma RenamedStep<I>(blocks: seq<Block<I>>, i: nat, script: seq<int>, rest: seq<int>, c: Config<Tape, int>, d: Config<Tape, int>)
    requires FlatBlocks(blocks) && i < |blocks| && Find(blocks, blocks[i].blockLabel) == Some(i)
    requires JumpTarget(blocks, i).Some?
    requires !Declared(blocks[i].params, blocks[i].term.edge.args, JumpTarget(blocks, i).value.params)
    requires ExecStmts(Scripted(), blocks[i].body, script) == Fall(rest)
    requires c.At? && c.point == blocks[i].blockLabel && c.state.script == script && Related(c, d)
    ensures ConfigsApart(Step(Recorder(), blocks, c), Step(Recorder(), Populated(blocks), d))
    ensures Bare(Step(Recorder(), blocks, c)) == At(blocks[i].term.edge.target, rest)
  {
    hide Recorder, ConfigsApart, ResolveArgs, EdgeArgs, Declared, FollowEdge;
    assert FlatBody(blocks[i].body);
    RecordedStmts(blocks[i].body, c.state);
    var flow := ExecStmts(Recorder(), blocks[i].body, c.state);
    PopulatedFind(blocks, c.point);
    if c == d {
      ApartJump(blocks, i, flow.state, flow.state);
    } else {
      ApartStep(blocks, c, d);
    }
    RecordedEdge(blocks, blocks[i].term.edge, flow.state);
    ScriptedJump(blocks, i, rest);
  }

  lemma ScriptedJump<I>(blocks: seq<Block<I>>, i: nat, s: seq<int>)
    requires i < |blocks| && JumpTarget(blocks, i).Some?
    ensures FollowEdge(Scripted(), blocks, blocks[i].term.edge, s) == At(blocks[i].term.edge.target, s)
  {
  }

  // If the renamed run can end, it ends differently in the two lists.
  lemma RenamedRunsDiffer<I>(blocks: seq<Block<I>>, entry: Label, i: nat)
    requires DistinctLabels(blocks) && FlatBlocks(blocks) && entry in Labels(blocks) && Renames(blocks, entry, i)
    requires CanEnd(blocks, blocks[i].term.edge.target)
    ensures !SameRuns(Recorder(), blocks, entry, Populated(blocks), entry)
  {
    hide Recorder, Scripted, Populated, Step, DistinctLabels, FlatBlocks, Labels, Ending, Live, Declared;
    var out, m, to := Populated(blocks), Recorder<I>(), blocks[i].term.edge.target;
    var path :| Walk(LiveMap(blocks), path) && path[0] == to && Ending(blocks, path[|path| - 1]);
    var rest, j := WalkEndScript(blocks, path);
    var script, n := RenamedRun(blocks, entry, i, rest);
    var start := At(entry, Tape(script, [], []));
    var c, d := StepN(m, blocks, start, n), StepN(m, out, start, n);
    RelatedRuns(blocks, c, d, j);
    RecordedRun(blocks, c, j);
    StepNAdd(m, blocks, start, n, j);
    StepNAdd(m, out, start, n, j);
    var c', d' := StepN(m, blocks, start, n + j), StepN(m, out, start, n + j);
    BareKind(c');
    assert Ends(m, blocks, start, c'.outcome) && Ends(m, out, start, d'.outcome);
    if Ends(m, blocks, start, d'.outcome) {
      EndsOnce(m, blocks, start, c'.outcome, d'.outcome);
    }
  }

  // The pass preserves the runs from the entry on every lawful machine, whatever instructions mean, if and only if
  // every live jump from whose target a run can end leaves without an argument only params that its own block declares.
  lemma PopulatePreservesRunsExactly<I(!new)>(blocks: seq<Block<I>>, entry: Label)
    requires DistinctLabels(blocks) && FlatBlocks(blocks) && entry in Labels(blocks)
    ensures EndingJumpsDeclare(blocks, entry) <==>
              forall m: Machine<I, Tape, int> :: Lawful(m) ==> SameRuns(m, blocks, entry, Populated(blocks), entry)
  {
    hide DistinctLabels, FlatBlocks, Labels, SameRuns, CanEnd, Declared, Lawful, Recorder;
    if EndingJumpsDeclare(blocks, entry) {
      forall m: Machine<I, Tape, int>
        ensures SameRuns(m, blocks, entry, Populated(blocks), entry)
      {
        PopulatePreservesRuns(m, blocks, entry);
      }
    } else {
      var i :| 0 <= i < |blocks| && Live(blocks, entry, blocks[i].blockLabel) && JumpTarget(blocks, i).Some?
               && CanEnd(blocks, blocks[i].term.edge.target)
               && !Declared(blocks[i].params, blocks[i].term.edge.args, JumpTarget(blocks, i).value.params);
      RecorderIsLawful<I>();
      RenamedRunsDiffer(blocks, entry, i);
    }
  }

  lemma AllStepsAlike<I, S(!new), V>(m: Machine<I, S, V>, blocks: seq<Block<I>>, entry: Label)
    requires DistinctLabels(blocks) && entry in Labels(blocks) && LiveJumpsDeclare(blocks, entry)
    ensures SameSteps(m, blocks, Populated(blocks), entry)
  {
    ReachesRoot(LiveMap(blocks), {entry}, entry);
    hide LiveJumpsDeclare, DistinctLabels, StepN;
    forall s, n: nat
      ensures StepN(m, blocks, At(entry, s), n) == StepN(m, Populated(blocks), At(entry, s), n)
    {
      StepsAlike(m, blocks, entry, entry, s, n);
    }
  }

  // It preserves every configuration on the way, and not just how runs end, if and only if every live jump does so.
  lemma PopulatePreservesStepsExactly<I(!new)>(blocks: seq<Block<I>>, entry: Label)
    requires DistinctLabels(blocks) && FlatBlocks(blocks) && entry in Labels(blocks)
    ensures LiveJumpsDeclare(blocks, entry) <==>
              forall m: Machine<I, Tape, int> :: Lawful(m) ==> SameSteps(m, blocks, Populated(blocks), entry)
  {
    hide DistinctLabels, FlatBlocks, Labels, Declared, SameSteps, Live, Lawful, Recorder;
    if LiveJumpsDeclare(blocks, entry) {
      forall m: Machine<I, Tape, int>
        ensures SameSteps(m, blocks, Populated(blocks), entry)
      {
        AllStepsAlike(m, blocks, entry);
      }
    } else {
      var i :| 0 <= i < |blocks| && Live(blocks, entry, blocks[i].blockLabel) && JumpTarget(blocks, i).Some?
               && !Declared(blocks[i].params, blocks[i].term.edge.args, JumpTarget(blocks, i).value.params);
      RecorderIsLawful<I>();
      RenamedStepsDiffer(blocks, entry, i);
    }
  }

  lemma RenamedStepsDiffer<I>(blocks: seq<Block<I>>, entry: Label, i: nat)
    requires DistinctLabels(blocks) && FlatBlocks(blocks) && entry in Labels(blocks) && Renames(blocks, entry, i)
    ensures !SameSteps(Recorder(), blocks, Populated(blocks), entry)
  {
    hide DistinctLabels, FlatBlocks, Labels, Renames, StepN, Bare, Recorder, Apart;
    var script, n := RenamedRun(blocks, entry, i, []);
    var start := At(entry, Tape(script, [], []));
    var c, d := StepN(Recorder(), blocks, start, n), StepN(Recorder(), Populated(blocks), start, n);
    if c.At? {
      ApartDiffer(c.state, d.state);
    }
    assert c != d;
  }

  // ---- A frame that copies values ------------------------------------------

  // A frame holds values under names; a name it does not hold is None.
  type Frame = map<string, int>

  function Get(frame: Frame, arg: BlockArg): Option<int> {
    if arg.NameArg? && arg.name in frame then Some(frame[arg.name]) else None
  }

  function Put(frame: Frame, name: string, value: Option<int>): Frame {
    if value.Some? then frame[name := value.value] else frame - {name}
  }

  // Every value is read from the frame as it was before the jump.
  function Copy(names: seq<string>, args: seq<BlockArg>, before: Frame, frame: Frame): Frame {
    if names == [] || args == [] then frame
    else Copy(names[1..], args[1..], before, Put(frame, names[0], Get(before, args[0])))
  }

  // An instruction is a name, and evaluates to the value the frame holds under it.
  function Copying(): Machine<string, Frame, Option<int>> {
    Machine(
      (e: string, f: Frame) => Value(f, Get(f, NameArg(e))),
      (v: Option<int>, f: Frame) => Value(f, v.Some? && v.value != 0),
      (v: Option<int>, f: Frame) => if v.Some? then v.value else 0,
      (v: Option<Option<int>>, f: Frame) => f,
      (names: seq<string>, args: seq<BlockArg>, f: Frame) => Copy(names, args, f, f),
      (f: Frame) => map[])
  }

  lemma {:induction false} CopyNames(names: seq<string>, frame: Frame)
    ensures Copy(names, NameArgs(names), frame, frame) == frame
  {
    if names != [] {
      assert NameArgs(names)[1..] == NameArgs(names[1..]);
      assert Put(frame, names[0], Get(frame, NameArg(names[0]))) == frame;
      CopyNames(names[1..], frame);
    }
  }

  lemma CopyingIsLawful()
    ensures Lawful(Copying())
  {
    forall names, f: Frame
      ensures Copying().bind(names, NameArgs(names), f) == f
    {
      CopyNames(names, f);
    }
  }

  // Two blocks, each with an exception param of its own name, and a jump without arguments: the target's param gets
  // the source's by role, where the code generator keeps what the frame holds under the target's name.
  lemma PopulateCanChangeRuns(e1: string, e2: string, v1: int, v2: int) returns (blocks: seq<Block<string>>)
    requires e1 != e2 && v1 != v2
    ensures Lawful(Copying())
    ensures blocks == [Block(0, [], Jump(BlockEdge(1, [])), [BlockParam(e1, ExceptionRole)], None),
                       Block(1, [], Return(e2), [BlockParam(e2, ExceptionRole)], None)]
    ensures DistinctLabels(blocks) && FlatBlocks(blocks)
    ensures var start := At(0, map[e1 := v1, e2 := v2]);
            && Ends(Copying(), blocks, start, Returned(map[], Some(v2)))
            && Ends(Copying(), Populated(blocks), start, Returned(map[], Some(v1)))
    ensures !SameRuns(Copying(), blocks, 0, Populated(blocks), 0)
  {
    var b0 := Block(0, [], Jump(BlockEdge(1, [])), [BlockParam(e1, ExceptionRole)], None);
    var b1 := Block(1, [], Return(e2), [BlockParam(e2, ExceptionRole)], None);
    blocks := [b0, b1];
    var frame: Frame := map[e1 := v1, e2 := v2];
    CopyingIsLawful();
    TwoBlocks(blocks, b0, b1);
    ReceivedByName(blocks, e1, e2, frame);
    WrittenByRole(blocks, e1, e2, frame);
    var kept, lost := Returned(map[], Some(v2)), Returned(map[], Some(v1));
    hide Copying, Populated;
    if Ends(Copying(), blocks, At(0, frame), lost) {
      EndsOnce(Copying(), blocks, At(0, frame), kept, lost);
    }
  }

  lemma ReceivedByName(blocks: seq<Block<string>>, e1: string, e2: string, frame: Frame)
    requires e2 in frame
    requires blocks == [Block(0, [], Jump(BlockEdge(1, [])), [BlockParam(e1, ExceptionRole)], None),
                        Block(1, [], Return(e2), [BlockParam(e2, ExceptionRole)], None)]
    ensures Ends(Copying(), blocks, At(0, frame), Returned(map[], Some(frame[e2])))
  {
    TwoBlocks(blocks, blocks[0], blocks[1]);
    CopyingIsLawful();
    TransferWithoutArgs(Copying(), blocks[1].params, frame);
    TwoSteps(Copying(), blocks, At(0, frame));
  }

  lemma WrittenByRole(blocks: seq<Block<string>>, e1: string, e2: string, frame: Frame)
    requires e1 != e2 && e1 in frame
    requires blocks == [Block(0, [], Jump(BlockEdge(1, [])), [BlockParam(e1, ExceptionRole)], None),
                        Block(1, [], Return(e2), [BlockParam(e2, ExceptionRole)], None)]
    ensures Ends(Copying(), Populated(blocks), At(0, frame), Returned(map[], Some(frame[e1])))
  {
    var out := Populated(blocks);
    TwoBlocks(blocks, blocks[0], blocks[1]);
    var args := ResolveArgs(blocks[0].params, [], blocks[1].params);
    assert args == [NameArg(e1)];
    assert out[0] == Block(0, [], Jump(BlockEdge(1, args)), blocks[0].params, None) && out[1] == blocks[1];
    assert out == [out[0], out[1]];
    TwoBlocks(out, out[0], out[1]);
    assert EdgeArgs(args, out[1].params) == args;
    assert Copy([e2], [NameArg(e1)], frame, frame) == frame[e2 := frame[e1]];
    assert ParamNames(out[1].params) == [e2];
    TwoSteps(Copying(), out, At(0, frame));
  }

  lemma TwoSteps<I, S, V>(m: Machine<I, S, V>, blocks: seq<Block<I>>, c: Config<S, V>)
    ensures StepN(m, blocks, c, 2) == Step(m, blocks, Step(m, blocks, c))
  {
    hide Step;
    var d := Step(m, blocks, c);
    assert StepN(m, blocks, d, 1) == StepN(m, blocks, Step(m, blocks, d), 0);
  }

  lemma TwoBlocks<I>(blocks: seq<Block<I>>, b0: Block<I>, b1: Block<I>)
    requires blocks == [b0, b1] && b0.blockLabel == 0 && b1.blockLabel == 1
    ensures Find(blocks, 0) == Some(0) && Find(blocks, 1) == Some(1)
    ensures 0 in Labels(blocks) && 1 in Labels(blocks)
  {
    assert DistinctLabels(blocks);
    FindUnique(blocks, 0);
    FindUnique(blocks, 1);
  }
}
