/** An operational semantics of basic blocks, over an uninterpreted machine.

    The same semantics runs blocks that still hold structured ifs and blocks that do
    not, so a pass is correct when the runs of its output have the outcomes of the
    runs of its input. */
module BlockSemantics {
  import opened Prelude
  import opened BlockIr

  // The result of evaluating something: a value, or a raised exception (which the state records).
  datatype Eval<S, V> = Value(state: S, value: V) | Raised(state: S)

  // What instructions mean. Every function is total and otherwise arbitrary.
  datatype Machine<!I, !S, !V> = Machine(
    eval: (I, S) -> Eval<S, V>,             // run one instruction
    truth: (V, S) -> Eval<S, bool>,         // truth test of a value, which may raise
    index: (V, S) -> int,                   // the number a br_table dispatches on
    raise: (Option<V>, S) -> S,             // record a raised (or re-raised) exception
    bind: (seq<string>, seq<BlockArg>, S) -> S,  // bind block params to edge arguments
    finish: S -> S                          // what is left of the state once the frame is gone
  )

  // Binding each name to the value it already has changes nothing.
  ghost predicate RebindIsIdentity<I, S(!new), V>(m: Machine<I, S, V>) {
    forall names, s :: m.bind(names, NameArgs(names), s) == s
  }

  // Block params live in the frame: binding them does not outlive it.
  ghost predicate BindIsLocal<I, S(!new), V>(m: Machine<I, S, V>) {
    forall names, args, s :: m.finish(m.bind(names, args, s)) == m.finish(s)
  }

  function NameArgs(names: seq<string>): (args: seq<BlockArg>)
    ensures |args| == |names|
    ensures forall i :: 0 <= i < |names| ==> args[i] == NameArg(names[i])
  {
    seq(|names|, i requires 0 <= i < |names| => NameArg(names[i]))
  }

  // ---- The argument each target param receives -----------------------------

  // Explicit arguments feed the last params; a param before them gets what the frame holds under its
  // own name, whichever block the edge comes from.
  function EdgeArgs(explicit: seq<BlockArg>, target: seq<BlockParam>): (args: seq<BlockArg>)
    ensures |args| == |target|
  {
    var start := if |explicit| <= |target| then |target| - |explicit| else 0;
    seq(|target|, i requires 0 <= i < |target| =>
      if i >= start then explicit[i - start] else NameArg(target[i].name))
  }

  function Transfer<I, S, V>(m: Machine<I, S, V>, args: seq<BlockArg>, target: seq<BlockParam>, s: S): S {
    m.bind(ParamNames(target), EdgeArgs(args, target), s)
  }

  // An edge without arguments rebinds the params of its target.
  lemma TransferWithoutArgs<I, S(!new), V>(m: Machine<I, S, V>, params: seq<BlockParam>, s: S)
    requires RebindIsIdentity(m)
    ensures Transfer(m, [], params, s) == s
  {
    assert EdgeArgs([], params) == NameArgs(ParamNames(params));
  }

  // ---- One block -----------------------------------------------------------

  // How control leaves a block.
  datatype Exit<S, V> = ToBlock(edge: BlockEdge, state: S) | Threw(state: S) | Finished(state: S, value: V)

  datatype Flow<S, V> = Fall(state: S) | Leave(exit: Exit<S, V>)

  function EvalTest<I, S, V>(m: Machine<I, S, V>, test: I, s: S): Eval<S, bool> {
    match m.eval(test, s)
    case Value(s1, v) => m.truth(v, s1)
    case Raised(s1) => Raised(s1)
  }

  function ExecTerm<I, S, V>(m: Machine<I, S, V>, term: Term<I>, s: S): Exit<S, V> {
    match term
    case Jump(edge) => ToBlock(edge, s)
    case IfTerm(test, thenLabel, elseLabel) =>
      (match EvalTest(m, test, s)
       case Value(s1, b) => ToBlock(BlockEdge(if b then thenLabel else elseLabel, []), s1)
       case Raised(s1) => Threw(s1))
    case BranchTable(index, targets, defaultLabel) =>
      (match m.eval(index, s)
       case Value(s1, v) =>
         var i := m.index(v, s1);
         ToBlock(BlockEdge(if 0 <= i < |targets| then targets[i] else defaultLabel, []), s1)
       case Raised(s1) => Threw(s1))
    case Raise(None) => Threw(m.raise(None, s))
    case Raise(Some(exc)) =>
      (match m.eval(exc, s)
       case Value(s1, v) => Threw(m.raise(Some(v), s1))
       case Raised(s1) => Threw(s1))
    case Return(value) =>
      (match m.eval(value, s)
       case Value(s1, v) => Finished(s1, v)
       case Raised(s1) => Threw(s1))
  }

  // Structured statements run in order; an `if` runs one branch.
  function ExecStmts<I, S, V>(m: Machine<I, S, V>, body: seq<Stmt<I>>, s: S): Flow<S, V>
    decreases body
  {
    if body == [] then Fall(s)
    else match ExecStmt(m, body[0], s)
      case Fall(s1) => ExecStmts(m, body[1..], s1)
      case Leave(exit) => Leave(exit)
  }

  function ExecStmt<I, S, V>(m: Machine<I, S, V>, stmt: Stmt<I>, s: S): Flow<S, V>
    decreases stmt
  {
    match stmt
    case Expr(instr) =>
      (match m.eval(instr, s)
       case Value(s1, _) => Fall(s1)
       case Raised(s1) => Leave(Threw(s1)))
    case If(test, body, orelse) =>
      (match EvalTest(m, test, s)
       case Value(s1, b) => if b then ExecFragment(m, body, s1) else ExecFragment(m, orelse, s1)
       case Raised(s1) => Leave(Threw(s1)))
  }

  function ExecFragment<I, S, V>(m: Machine<I, S, V>, fragment: Fragment<I>, s: S): Flow<S, V>
    decreases fragment
  {
    match ExecStmts(m, fragment.body, s)
    case Fall(s1) => if fragment.term.Some? then Leave(ExecTerm(m, fragment.term.value, s1)) else Fall(s1)
    case Leave(exit) => Leave(exit)
  }

  // A body followed by a terminator.
  function ExecBody<I, S, V>(m: Machine<I, S, V>, body: seq<Stmt<I>>, term: Term<I>, s: S): Exit<S, V> {
    match ExecStmts(m, body, s)
    case Fall(s1) => ExecTerm(m, term, s1)
    case Leave(exit) => exit
  }

  lemma {:induction false} ExecStmtsAppend<I, S, V>(m: Machine<I, S, V>, a: seq<Stmt<I>>, b: seq<Stmt<I>>, s: S)
    ensures ExecStmts(m, a + b, s) ==
            match ExecStmts(m, a, s) case Fall(s1) => ExecStmts(m, b, s1) case Leave(exit) => Leave(exit)
    decreases |a|
  {
    if a == [] {
      assert a + b == b;
    } else {
      assert (a + b)[1..] == a[1..] + b;
      match ExecStmt(m, a[0], s)
      case Fall(s1) => ExecStmtsAppend(m, a[1..], b, s1);
      case Leave(_) =>
    }
  }

  // ---- Runs ----------------------------------------------------------------

  datatype Outcome<S, V> =
    | Returned(heap: S, value: V)
    | Uncaught(heap: S)
    | Escaped(edge: BlockEdge, state: S)   // control left the block list

  datatype Config<S, V> = At(point: Label, state: S) | Done(outcome: Outcome<S, V>)

  // Where an exit from a block leads. A raise goes to the block's exception edge.
  function Follow<I, S, V>(m: Machine<I, S, V>, blocks: seq<Block<I>>, excEdge: Option<BlockEdge>, exit: Exit<S, V>): Config<S, V> {
    match exit
    case ToBlock(edge, s) => FollowEdge(m, blocks, edge, s)
    case Threw(s) =>
      (match excEdge
       case Some(edge) => FollowEdge(m, blocks, edge, s)
       case None => Done(Uncaught(m.finish(s))))
    case Finished(s, v) => Done(Returned(m.finish(s), v))
  }

  function FollowEdge<I, S, V>(m: Machine<I, S, V>, blocks: seq<Block<I>>, edge: BlockEdge, s: S): Config<S, V> {
    match Find(blocks, edge.target)
    case Some(t) => At(edge.target, Transfer(m, edge.args, blocks[t].params, s))
    case None => Done(Escaped(edge, s))
  }

  function Step<I, S, V>(m: Machine<I, S, V>, blocks: seq<Block<I>>, c: Config<S, V>): Config<S, V> {
    match c
    case Done(_) => c
    case At(at, s) =>
      match Find(blocks, at)
      case Some(i) =>
        Follow(m, blocks, blocks[i].excEdge, ExecBody(m, blocks[i].body, blocks[i].term, s))
      case None => Done(Escaped(BlockEdge(at, []), s))
  }

  function StepN<I, S, V>(m: Machine<I, S, V>, blocks: seq<Block<I>>, c: Config<S, V>, n: nat): Config<S, V>
    decreases n
  {
    if n == 0 then c else StepN(m, blocks, Step(m, blocks, c), n - 1)
  }

  // A run from `c` ends with outcome `o`. Runs are deterministic, so a run with no such `o` is infinite.
  ghost predicate Ends<I, S, V>(m: Machine<I, S, V>, blocks: seq<Block<I>>, c: Config<S, V>, o: Outcome<S, V>) {
    exists n: nat :: StepN(m, blocks, c, n) == Done(o)
  }

  // Two block lists have the same runs from a label: the same outcomes and the same divergence.
  ghost predicate SameRuns<I, S(!new), V(!new)>(m: Machine<I, S, V>, a: seq<Block<I>>, la: Label, b: seq<Block<I>>, lb: Label) {
    forall s, o :: Ends(m, a, At(la, s), o) <==> Ends(m, b, At(lb, s), o)
  }

  lemma {:induction false} StepNAdd<I, S, V>(m: Machine<I, S, V>, blocks: seq<Block<I>>, c: Config<S, V>, i: nat, j: nat)
    ensures StepN(m, blocks, c, i + j) == StepN(m, blocks, StepN(m, blocks, c, i), j)
    decreases i
  {
    if i > 0 {
      StepNAdd(m, blocks, Step(m, blocks, c), i - 1, j);
    }
  }

  lemma {:induction false} DoneStays<I, S, V>(m: Machine<I, S, V>, blocks: seq<Block<I>>, c: Config<S, V>, n: nat)
    requires c.Done?
    ensures StepN(m, blocks, c, n) == c
    decreases n
  {
    if n > 0 {
      DoneStays(m, blocks, c, n - 1);
    }
  }

  // Runs are deterministic, so a block list has at most one outcome from a configuration.
  lemma EndsOnce<I, S, V>(m: Machine<I, S, V>, blocks: seq<Block<I>>, c: Config<S, V>, o1: Outcome<S, V>, o2: Outcome<S, V>)
    requires Ends(m, blocks, c, o1) && Ends(m, blocks, c, o2)
    ensures o1 == o2
  {
    var n1: nat :| StepN(m, blocks, c, n1) == Done(o1);
    var n2: nat :| StepN(m, blocks, c, n2) == Done(o2);
    if n1 <= n2 {
      StepNAdd(m, blocks, c, n1, n2 - n1);
      DoneStays(m, blocks, Done(o1), n2 - n1);
    } else {
      StepNAdd(m, blocks, c, n2, n1 - n2);
      DoneStays(m, blocks, Done(o2), n1 - n2);
    }
  }

  // A run may be started any number of steps later.
  lemma EndsShift<I, S, V>(m: Machine<I, S, V>, blocks: seq<Block<I>>, c: Config<S, V>, n: nat, o: Outcome<S, V>)
    ensures Ends(m, blocks, c, o) <==> Ends(m, blocks, StepN(m, blocks, c, n), o)
  {
    hide Step;
    var d := StepN(m, blocks, c, n);
    if Ends(m, blocks, d, o) {
      var k: nat :| StepN(m, blocks, d, k) == Done(o);
      StepNAdd(m, blocks, c, n, k);
    }
    if Ends(m, blocks, c, o) {
      var k: nat :| StepN(m, blocks, c, k) == Done(o);
      if k <= n {
        StepNAdd(m, blocks, c, k, n - k);
        DoneStays(m, blocks, Done(o), n - k);
        assert StepN(m, blocks, d, 0) == Done(o);
      } else {
        StepNAdd(m, blocks, c, n, k - n);
      }
    }
  }

  lemma EndsStep<I, S, V>(m: Machine<I, S, V>, blocks: seq<Block<I>>, at: Label, s: S, o: Outcome<S, V>)
    ensures Ends(m, blocks, At(at, s), o) <==> Ends(m, blocks, Step(m, blocks, At(at, s)), o)
  {
    hide Step, Ends;
    assert StepN(m, blocks, At(at, s), 1) == StepN(m, blocks, Step(m, blocks, At(at, s)), 0);
    EndsShift(m, blocks, At(at, s), 1, o);
  }

  // ---- Simulation ----------------------------------------------------------

  // `f` names, for each label of interest in `a`, the label in `b` that stands for it.
  ghost predicate StepMatches<I, S, V>(m: Machine<I, S, V>, a: seq<Block<I>>, b: seq<Block<I>>, f: map<Label, Label>,
                                       at: Label, s: S)
    requires at in f
  {
    match Step(m, a, At(at, s))
    case Done(o) => exists k: nat :: k >= 1 && StepN(m, b, At(f[at], s), k) == Done(o)
    case At(at', s') => at' in f && exists k: nat :: k >= 1 && StepN(m, b, At(f[at], s), k) == At(f[at'], s')
  }

  // Every step of `a` is one or more steps of `b`.
  ghost predicate Simulates<I, S(!new), V>(m: Machine<I, S, V>, a: seq<Block<I>>, b: seq<Block<I>>, f: map<Label, Label>) {
    forall at, s :: at in f ==> StepMatches(m, a, b, f, at, s)
  }

  lemma {:induction false} SimulationForward<I, S(!new), V>(m: Machine<I, S, V>, a: seq<Block<I>>, b: seq<Block<I>>,
      f: map<Label, Label>, at: Label, s: S, o: Outcome<S, V>, n: nat)
    requires Simulates(m, a, b, f) && at in f
    requires StepN(m, a, At(at, s), n) == Done(o)
    ensures Ends(m, b, At(f[at], s), o)
    decreases n
  {
    assert StepMatches(m, a, b, f, at, s);
    match Step(m, a, At(at, s))
    case Done(o') =>
      DoneStays(m, a, Done(o'), n - 1);
    case At(at', s') =>
      SimulationForward(m, a, b, f, at', s', o, n - 1);
      var k: nat :| k >= 1 && StepN(m, b, At(f[at], s), k) == At(f[at'], s');
      EndsShift(m, b, At(f[at], s), k, o);
  }

  lemma {:induction false} SimulationBackward<I, S(!new), V>(m: Machine<I, S, V>, a: seq<Block<I>>, b: seq<Block<I>>,
      f: map<Label, Label>, at: Label, s: S, o: Outcome<S, V>, n: nat)
    requires Simulates(m, a, b, f) && at in f
    requires StepN(m, b, At(f[at], s), n) == Done(o)
    ensures Ends(m, a, At(at, s), o)
    decreases n
  {
    hide Step;
    assert StepMatches(m, a, b, f, at, s);
    var c := At(f[at], s);
    EndsStep(m, a, at, s, o);
    match Step(m, a, At(at, s))
    case Done(o') =>
      var k: nat :| k >= 1 && StepN(m, b, c, k) == Done(o');
      EndsOnce(m, b, c, o, o');
      assert StepN(m, a, Done(o'), 0) == Done(o);
    case At(at', s') =>
      var k: nat :| k >= 1 && StepN(m, b, c, k) == At(f[at'], s');
      if n < k {
        StepNAdd(m, b, c, n, k - n);
        DoneStays(m, b, Done(o), k - n);
      }
      StepNAdd(m, b, c, k, n - k);
      SimulationBackward(m, a, b, f, at', s', o, n - k);
  }

  // A simulation preserves outcomes both ways, and so divergence too.
  lemma SimulationSameRuns<I, S(!new), V(!new)>(m: Machine<I, S, V>, a: seq<Block<I>>, b: seq<Block<I>>,
      f: map<Label, Label>, at: Label)
    requires Simulates(m, a, b, f) && at in f
    ensures SameRuns(m, a, at, b, f[at])
  {
    forall s, o
      ensures Ends(m, a, At(at, s), o) <==> Ends(m, b, At(f[at], s), o)
    {
      if Ends(m, a, At(at, s), o) {
        var n: nat :| StepN(m, a, At(at, s), n) == Done(o);
        SimulationForward(m, a, b, f, at, s, o, n);
      }
      if Ends(m, b, At(f[at], s), o) {
        var n: nat :| StepN(m, b, At(f[at], s), n) == Done(o);
        SimulationBackward(m, a, b, f, at, s, o, n);
      }
    }
  }

  // Control is only ever at a block of the list.
  lemma StepStaysInside<I, S, V>(m: Machine<I, S, V>, blocks: seq<Block<I>>, at: Label, s: S)
    ensures Step(m, blocks, At(at, s)).At? ==> Step(m, blocks, At(at, s)).point in Labels(blocks)
  {
  }

  function Same(labels: set<Label>): (f: map<Label, Label>)
    ensures f.Keys == labels
    ensures forall l :: l in labels ==> f[l] == l
  {
    map l | l in labels :: l
  }

  // An exit from a body goes to a label the body or its terminator mentions.
  lemma {:induction false} ExitTargetMentioned<I, S, V>(m: Machine<I, S, V>, body: seq<Stmt<I>>, s: S)
    ensures match ExecStmts(m, body, s) {
              case Leave(ToBlock(edge, _)) => edge.target in NestedTargets(body)
              case _ => true
            }
    decreases body
  {
    if body != [] {
      StmtTargetMentioned(m, body[0], s);
      match ExecStmt(m, body[0], s)
      case Fall(s1) => ExitTargetMentioned(m, body[1..], s1);
      case Leave(_) =>
    }
  }

  lemma {:induction false} StmtTargetMentioned<I, S, V>(m: Machine<I, S, V>, stmt: Stmt<I>, s: S)
    ensures match ExecStmt(m, stmt, s) {
              case Leave(ToBlock(edge, _)) => edge.target in StmtTargets(stmt)
              case _ => true
            }
    decreases stmt
  {
    match stmt
    case Expr(_) =>
    case If(test, body, orelse) =>
      match EvalTest(m, test, s)
      case Value(s1, b) =>
        ExitTargetMentioned(m, body.body, s1);
        ExitTargetMentioned(m, orelse.body, s1);
      case Raised(_) =>
  }

  lemma TermTargetMentioned<I, S, V>(m: Machine<I, S, V>, term: Term<I>, s: S)
    ensures ExecTerm(m, term, s).ToBlock? ==> ExecTerm(m, term, s).edge.target in TermTargets(term)
  {
  }

  lemma BodyTargetMentioned<I, S, V>(m: Machine<I, S, V>, body: seq<Stmt<I>>, term: Term<I>, s: S)
    ensures ExecBody(m, body, term, s).ToBlock? ==>
              ExecBody(m, body, term, s).edge.target in NestedTargets(body) + TermTargets(term)
  {
    ExitTargetMentioned(m, body, s);
    if ExecStmts(m, body, s).Fall? {
      TermTargetMentioned(m, term, ExecStmts(m, body, s).state);
    }
  }
}
