/** Flattening structured ifs into basic blocks (`soac-blockpy/src/block_py/cfg.rs`). */
module CfgLinearize {
  import opened Prelude
  import opened BlockIr
  import opened BlockSemantics

  // What every block split off one source block inherits.
  datatype Context = Context(params: seq<BlockParam>, excEdge: Option<BlockEdge>)

  function FirstIf<I>(body: seq<Stmt<I>>): (i: nat)
    ensures i <= |body| && FlatBody(body[..i])
    ensures i < |body| ==> body[i].If?
  {
    if body == [] then 0
    else if body[0].If? then 0
    else
      var i := 1 + FirstIf(body[1..]);
      assert forall k :: 0 < k < i ==> body[k] == body[1..][..i - 1][k - 1];
      i
  }

  function TermOr<I>(term: Option<Term<I>>, fallthrough: Term<I>): Term<I> {
    if term.Some? then term.value else fallthrough
  }

  // With nothing after the `if`, both branches take over the final terminator; else they jump to the join.
  function JoinTerm<I>(rest: seq<Stmt<I>>, term: Term<I>, join: Label): Term<I> {
    if rest == [] then term else Jump(BlockEdge(join, []))
  }

  // The blocks a structured body flattens to, and the label counter afterwards.
  function Linearized<I>(next: nat, at: Label, body: seq<Stmt<I>>, term: Term<I>, ctx: Context): (r: (seq<Block<I>>, nat))
    decreases body
  {
    var i := FirstIf(body);
    if i == |body| then ([Block(at, body, term, ctx.params, ctx.excEdge)], next)
    else
      var If(test, then_, else_) := body[i];
      assert then_ < body[i] && else_ < body[i] && body[i] in body;
      var rest := body[i + 1..];
      var next1 := if rest == [] then next + 2 else next + 3;
      var fall := JoinTerm(rest, term, next + 2);
      var head := Block(at, body[..i], IfTerm(test, next, next + 1), ctx.params, ctx.excEdge);
      var (thens, next2) := LinearizedFragment(next1, next, then_, fall, ctx);
      var (elses, next3) := LinearizedFragment(next2, next + 1, else_, fall, ctx);
      if rest == [] then ([head] + thens + elses, next3)
      else
        var (joins, next4) := Linearized(next3, next + 2, rest, term, ctx);
        ([head] + thens + elses + joins, next4)
  }

  // A branch ends in its own terminator, or else in the one the `if` falls through to.
  function LinearizedFragment<I>(next: nat, at: Label, fragment: Fragment<I>, fallthrough: Term<I>, ctx: Context)
    : (r: (seq<Block<I>>, nat))
    decreases fragment
  {
    Linearized(next, at, fragment.body, TermOr(fragment.term, fallthrough), ctx)
  }

  // ---- Shape ---------------------------------------------------------------

  // The first block keeps the source label; every other label is drawn from the counter.
  ghost predicate SplitFrom<I>(blocks: seq<Block<I>>, at: Label, lo: nat, hi: nat, ctx: Context) {
    && blocks != [] && blocks[0].blockLabel == at
    && lo <= hi
    && DistinctLabels(blocks)
    && (forall i :: 0 < i < |blocks| ==> lo <= blocks[i].blockLabel < hi)
    && Inherits(blocks, ctx)
  }

  ghost predicate Inherits<I>(blocks: seq<Block<I>>, ctx: Context) {
    forall i :: 0 <= i < |blocks| ==>
      FlatBody(blocks[i].body) && blocks[i].params == ctx.params && blocks[i].excEdge == ctx.excEdge
  }

  ghost predicate Avoids<I>(blocks: seq<Block<I>>, l: Label) {
    forall i :: 0 <= i < |blocks| ==> blocks[i].blockLabel != l
  }

  // `a` uses labels below `mid` only, apart from `atB`, which starts `b`.
  lemma SplitFromAppend<I>(a: seq<Block<I>>, b: seq<Block<I>>, at: Label, lo: nat, mid: nat, hi: nat, atB: Label, ctx: Context)
    requires SplitFrom(a, at, lo, mid, ctx) && SplitFrom(b, atB, mid, hi, ctx)
    requires at < lo <= atB < mid && Avoids(a, atB)
    ensures SplitFrom(a + b, at, lo, hi, ctx)
  {
  }

  lemma SplitFromOne<I>(head: Block<I>, lo: nat, hi: nat, ctx: Context)
    requires lo <= hi && Inherits([head], ctx)
    ensures SplitFrom([head], head.blockLabel, lo, hi, ctx)
  {
  }

  lemma SplitOrdered<I>(blocks: seq<Block<I>>, at: Label, lo: nat, hi: nat, ctx: Context)
    requires SplitFrom(blocks, at, lo, hi, ctx)
    ensures lo <= hi
  {
  }

  lemma AvoidsOne<I>(head: Block<I>, l: Label)
    requires head.blockLabel != l
    ensures Avoids([head], l)
  {
  }

  lemma SplitAvoids<I>(blocks: seq<Block<I>>, at: Label, lo: nat, hi: nat, ctx: Context, l: Label)
    requires SplitFrom(blocks, at, lo, hi, ctx) && l != at && !(lo <= l < hi)
    ensures Avoids(blocks, l)
  {
  }

  lemma AvoidsAppend<I>(a: seq<Block<I>>, b: seq<Block<I>>, l: Label)
    requires Avoids(a, l) && Avoids(b, l)
    ensures Avoids(a + b, l)
  {
  }

  lemma SplitFromJoin<I>(head: Block<I>, thens: seq<Block<I>>, elses: seq<Block<I>>, joins: seq<Block<I>>,
      at: Label, next: nat, next1: nat, next2: nat, next3: nat, next4: nat, ctx: Context)
    requires at < next && next + 2 <= next1 && head.blockLabel == at && Inherits([head], ctx)
    requires SplitFrom(thens, next, next1, next2, ctx)
    requires SplitFrom(elses, next + 1, next2, next3, ctx)
    requires if joins == [] then next3 == next4 else next + 3 <= next1 && SplitFrom(joins, next + 2, next3, next4, ctx)
    ensures SplitFrom([head] + thens + elses + joins, at, next, next4, ctx)
  {
    hide SplitFrom, Avoids, Inherits;
    SplitFromOne(head, next, next1, ctx);
    AvoidsOne(head, next);
    SplitOrdered(thens, next, next1, next2, ctx);
    SplitOrdered(elses, next + 1, next2, next3, ctx);
    SplitFromAppend([head], thens, at, next, next1, next2, next, ctx);
    HeadAvoids(head, thens, next, next1, next2, ctx, next + 1);
    SplitFromAppend([head] + thens, elses, at, next, next2, next3, next + 1, ctx);
    if joins == [] {
      assert [head] + thens + elses + joins == [head] + thens + elses;
    } else {
      HeadAvoids(head, thens, next, next1, next2, ctx, next + 2);
      SplitAvoids(elses, next + 1, next2, next3, ctx, next + 2);
      AvoidsAppend([head] + thens, elses, next + 2);
      SplitFromAppend([head] + thens + elses, joins, at, next, next3, next4, next + 2, ctx);
    }
  }

  lemma HeadAvoids<I>(head: Block<I>, thens: seq<Block<I>>, next: nat, lo: nat, hi: nat, ctx: Context, l: Label)
    requires SplitFrom(thens, next, lo, hi, ctx) && head.blockLabel < next < l < lo
    ensures Avoids([head] + thens, l)
  {
    SplitAvoids(thens, next, lo, hi, ctx, l);
    AvoidsAppend([head], thens, l);
  }

  // The pieces a body with an `if` flattens to.
  lemma Pieces<I>(next: nat, at: Label, body: seq<Stmt<I>>, term: Term<I>, ctx: Context, i: nat)
    returns (head: Block<I>, next1: nat, thens: seq<Block<I>>, next2: nat, elses: seq<Block<I>>, next3: nat,
             joins: seq<Block<I>>, next4: nat)
    requires i == FirstIf(body) < |body|
    ensures next1 == if i + 1 == |body| then next + 2 else next + 3
    ensures head == Block(at, body[..i], IfTerm(body[i].test, next, next + 1), ctx.params, ctx.excEdge)
    ensures (thens, next2) == LinearizedFragment(next1, next, body[i].body, JoinTerm(body[i + 1..], term, next + 2), ctx)
    ensures (elses, next3) == LinearizedFragment(next2, next + 1, body[i].orelse, JoinTerm(body[i + 1..], term, next + 2), ctx)
    ensures (joins, next4) == if i + 1 == |body| then ([], next3) else Linearized(next3, next + 2, body[i + 1..], term, ctx)
    ensures Linearized(next, at, body, term, ctx) == ([head] + thens + elses + joins, next4)
  {
    next1 := if i + 1 == |body| then next + 2 else next + 3;
    var fall := JoinTerm(body[i + 1..], term, next + 2);
    head := Block(at, body[..i], IfTerm(body[i].test, next, next + 1), ctx.params, ctx.excEdge);
    var (ts, n2) := LinearizedFragment(next1, next, body[i].body, fall, ctx);
    var (es, n3) := LinearizedFragment(n2, next + 1, body[i].orelse, fall, ctx);
    var (js, n4) := if i + 1 == |body| then ([], n3) else Linearized(n3, next + 2, body[i + 1..], term, ctx);
    thens, next2, elses, next3, joins, next4 := ts, n2, es, n3, js, n4;
    assert [head] + thens + elses + [] == [head] + thens + elses;
  }

  lemma {:induction false} LinearizedShape<I>(next: nat, at: Label, body: seq<Stmt<I>>, term: Term<I>, ctx: Context)
    requires at < next
    ensures SplitFrom(Linearized(next, at, body, term, ctx).0, at, next, Linearized(next, at, body, term, ctx).1, ctx)
    decreases body
  {
    hide Linearized, LinearizedFragment, FirstIf, JoinTerm;
    var i := FirstIf(body);
    if i == |body| {
      FlatShape(next, at, body, term, ctx);
    } else {
      assert body[i].body < body[i] && body[i].orelse < body[i] && body[i] in body;
      var head, next1, thens, next2, elses, next3, joins, next4 := Pieces(next, at, body, term, ctx, i);
      FragmentShape(next1, next, body[i].body, JoinTerm(body[i + 1..], term, next + 2), ctx);
      FragmentShape(next2, next + 1, body[i].orelse, JoinTerm(body[i + 1..], term, next + 2), ctx);
      if i + 1 < |body| {
        LinearizedShape(next3, next + 2, body[i + 1..], term, ctx);
      }
      SplitFromJoin(head, thens, elses, joins, at, next, next1, next2, next3, next4, ctx);
    }
  }

  lemma FlatPieces<I>(next: nat, at: Label, body: seq<Stmt<I>>, term: Term<I>, ctx: Context)
    requires FirstIf(body) == |body|
    ensures Linearized(next, at, body, term, ctx) == ([Block(at, body, term, ctx.params, ctx.excEdge)], next)
  {
  }

  lemma FlatShape<I>(next: nat, at: Label, body: seq<Stmt<I>>, term: Term<I>, ctx: Context)
    requires at < next && FirstIf(body) == |body|
    ensures SplitFrom(Linearized(next, at, body, term, ctx).0, at, next, Linearized(next, at, body, term, ctx).1, ctx)
  {
  }

  lemma {:induction false} FragmentShape<I>(next: nat, at: Label, fragment: Fragment<I>, fallthrough: Term<I>, ctx: Context)
    requires at < next
    ensures SplitFrom(LinearizedFragment(next, at, fragment, fallthrough, ctx).0, at, next,
                      LinearizedFragment(next, at, fragment, fallthrough, ctx).1, ctx)
    decreases fragment
  {
    LinearizedShape(next, at, fragment.body, TermOr(fragment.term, fallthrough), ctx);
  }

  // ---- Meaning -------------------------------------------------------------

  // Looking any of `blocks` up by its label in `cfg` finds that block.
  ghost predicate Hosts<I>(cfg: seq<Block<I>>, blocks: seq<Block<I>>) {
    forall b :: b in blocks ==> Find(cfg, b.blockLabel).Some? && cfg[Find(cfg, b.blockLabel).value] == b
  }

  // Entering a split block by an edge with no arguments keeps the state.
  lemma EnterSplit<I, S(!new), V>(m: Machine<I, S, V>, cfg: seq<Block<I>>, b: Block<I>, s: S)
    requires RebindIsIdentity(m)
    requires Hosts(cfg, [b])
    ensures FollowEdge(m, cfg, BlockEdge(b.blockLabel, []), s) == At(b.blockLabel, s)
  {
    assert b in [b];
    TransferWithoutArgs(m, b.params, s);
  }

  lemma HostsParts<I>(cfg: seq<Block<I>>, a: seq<Block<I>>, b: seq<Block<I>>, c: seq<Block<I>>, d: seq<Block<I>>)
    requires Hosts(cfg, a + b + c + d)
    ensures Hosts(cfg, a) && Hosts(cfg, b) && Hosts(cfg, c) && Hosts(cfg, d)
  {
    hide Find;
    assert forall x :: x in a || x in b || x in c || x in d ==> x in a + b + c + d;
  }

  // The pieces a body with an `if` at `i` flattens to, each of them hosted by `cfg`.
  lemma HostsPieces<I>(cfg: seq<Block<I>>, next: nat, at: Label, body: seq<Stmt<I>>, term: Term<I>, ctx: Context, i: nat)
    returns (next1: nat, next2: nat, next3: nat, fall: Term<I>)
    requires at < next && i == FirstIf(body) < |body|
    requires Hosts(cfg, Linearized(next, at, body, term, ctx).0)
    ensures next + 2 <= next1 <= next2 <= next3 && (body[i + 1..] != [] ==> next + 2 < next1)
    ensures fall == JoinTerm(body[i + 1..], term, next + 2)
    ensures Hosts(cfg, [Block(at, body[..i], IfTerm(body[i].test, next, next + 1), ctx.params, ctx.excEdge)])
    ensures Hosts(cfg, LinearizedFragment(next1, next, body[i].body, fall, ctx).0)
    ensures Hosts(cfg, LinearizedFragment(next2, next + 1, body[i].orelse, fall, ctx).0)
    ensures body[i + 1..] != [] ==> Hosts(cfg, Linearized(next3, next + 2, body[i + 1..], term, ctx).0)
  {
    hide Linearized, LinearizedFragment, JoinTerm, FirstIf, DistinctLabels, Inherits, Hosts;
    var head, n1, thens, n2, elses, n3, joins, n4 := Pieces(next, at, body, term, ctx, i);
    next1, next2, next3, fall := n1, n2, n3, JoinTerm(body[i + 1..], term, next + 2);
    FragmentShape(n1, next, body[i].body, fall, ctx);
    FragmentShape(n2, next + 1, body[i].orelse, fall, ctx);
    HostsParts(cfg, [head], thens, elses, joins);
  }

  // Control enters the first block of a hosted piece with the state unchanged.
  lemma EnterPiece<I, S(!new), V>(m: Machine<I, S, V>, cfg: seq<Block<I>>, next: nat, at: Label,
      body: seq<Stmt<I>>, term: Term<I>, ctx: Context, s: S)
    requires RebindIsIdentity(m) && at < next
    requires Hosts(cfg, Linearized(next, at, body, term, ctx).0)
    ensures FollowEdge(m, cfg, BlockEdge(at, []), s) == At(at, s)
  {
    LinearizedShape(next, at, body, term, ctx);
    var b := Linearized(next, at, body, term, ctx).0[0];
    assert b in Linearized(next, at, body, term, ctx).0;
    EnterSplit(m, cfg, b, s);
  }

  lemma BlockStep<I, S, V>(m: Machine<I, S, V>, cfg: seq<Block<I>>, b: Block<I>, s: S)
    requires Hosts(cfg, [b])
    ensures StepN(m, cfg, At(b.blockLabel, s), 1) == Follow(m, cfg, b.excEdge, ExecBody(m, b.body, b.term, s))
  {
  }

  // The flat blocks reach, in at least one step, exactly the configuration the structured body reaches.
  lemma {:induction false} LinearizedRuns<I, S(!new), V>(m: Machine<I, S, V>, cfg: seq<Block<I>>, next: nat, at: Label,
      body: seq<Stmt<I>>, term: Term<I>, ctx: Context, s: S) returns (n: nat)
    requires RebindIsIdentity(m) && at < next
    requires Hosts(cfg, Linearized(next, at, body, term, ctx).0)
    ensures n >= 1
    ensures StepN(m, cfg, At(at, s), n) == Follow(m, cfg, ctx.excEdge, ExecBody(m, body, term, s))
    decreases body, 1
  {
    hide Linearized, LinearizedFragment, FirstIf, JoinTerm, Follow, FollowEdge, ExecBody, ExecFragment, Resume, RebindIsIdentity, Hosts;
    var i := FirstIf(body);
    if i == |body| {
      n := 1;
      FlatRuns(m, cfg, next, at, body, term, ctx, s);
    } else {
      assert body[i].body < body[i] && body[i].orelse < body[i] && body[i] in body;
      var next1, next2, next3, fall := HostsPieces(cfg, next, at, body, term, ctx, i);
      var head := Block(at, body[..i], IfTerm(body[i].test, next, next + 1), ctx.params, ctx.excEdge);
      n := 1;
      var decided := HeadRuns(m, cfg, head, body, i, term, s);
      if decided.Some? {
        var (b, s2) := decided.value;
        var k: nat;
        if b {
          k := BranchRuns(m, cfg, next1, next, next3, next + 2, body, i, body[i].body, term, ctx, s2);
        } else {
          k := BranchRuns(m, cfg, next2, next + 1, next3, next + 2, body, i, body[i].orelse, term, ctx, s2);
        }
        StepNAdd(m, cfg, At(at, s), 1, k);
        n := 1 + k;
      }
    }
  }

  lemma FlatRuns<I, S, V>(m: Machine<I, S, V>, cfg: seq<Block<I>>, next: nat, at: Label, body: seq<Stmt<I>>, term: Term<I>,
      ctx: Context, s: S)
    requires Hosts(cfg, Linearized(next, at, body, term, ctx).0) && FirstIf(body) == |body|
    ensures StepN(m, cfg, At(at, s), 1) == Follow(m, cfg, ctx.excEdge, ExecBody(m, body, term, s))
  {
  }

  // The head block either leaves as the structured body does, or reaches the branch the test picks.
  lemma HeadRuns<I, S, V>(m: Machine<I, S, V>, cfg: seq<Block<I>>, head: Block<I>, body: seq<Stmt<I>>, i: nat,
      term: Term<I>, s: S) returns (decided: Option<(bool, S)>)
    requires Hosts(cfg, [head]) && i < |body| && body[i].If?
    requires head.body == body[..i] && head.term.IfTerm? && head.term.test == body[i].test
    ensures decided.None? ==>
      StepN(m, cfg, At(head.blockLabel, s), 1) == Follow(m, cfg, head.excEdge, ExecBody(m, body, term, s))
    ensures decided.Some? ==>
      var (b, s2) := decided.value;
      && StepN(m, cfg, At(head.blockLabel, s), 1)
         == FollowEdge(m, cfg, BlockEdge(if b then head.term.thenLabel else head.term.elseLabel, []), s2)
      && ExecBody(m, body, term, s)
         == Resume(m, ExecFragment(m, if b then body[i].body else body[i].orelse, s2), body[i + 1..], term)
  {
    BlockStep(m, cfg, head, s);
    SplitAt(m, body, i, term, s);
    decided := None;
    var flow := ExecStmts(m, body[..i], s);
    if flow.Fall? && EvalTest(m, body[i].test, flow.state).Value? {
      var Value(s2, b) := EvalTest(m, body[i].test, flow.state);
      decided := Some((b, s2));
    }
  }

  // A branch runs to its own end, or to what it falls through to.
  lemma FragmentOrFall<I, S, V>(m: Machine<I, S, V>, fragment: Fragment<I>, fallthrough: Term<I>, s: S)
    ensures ExecBody(m, fragment.body, TermOr(fragment.term, fallthrough), s)
            == Resume(m, ExecFragment(m, fragment, s), [], fallthrough)
  {
  }

  // A branch of the `if` at `i` runs, and then what follows the `if` unless the branch left.
  lemma {:induction false} BranchRuns<I, S(!new), V>(m: Machine<I, S, V>, cfg: seq<Block<I>>, next: nat, at: Label,
      joinNext: nat, join: Label, body: seq<Stmt<I>>, i: nat, branch: Fragment<I>, term: Term<I>, ctx: Context, s: S)
    returns (n: nat)
    requires RebindIsIdentity(m) && at < next && (i + 1 < |body| ==> join < joinNext)
    requires i < |body| && body[i].If? && branch in {body[i].body, body[i].orelse}
    requires Hosts(cfg, LinearizedFragment(next, at, branch, JoinTerm(body[i + 1..], term, join), ctx).0)
    requires body[i + 1..] != [] ==> Hosts(cfg, Linearized(joinNext, join, body[i + 1..], term, ctx).0)
    ensures n >= 1
    ensures StepN(m, cfg, At(at, s), n) ==
            Follow(m, cfg, ctx.excEdge, Resume(m, ExecFragment(m, branch, s), body[i + 1..], term))
    ensures FollowEdge(m, cfg, BlockEdge(at, []), s) == At(at, s)
    decreases body, 0
  {
    hide Linearized, FirstIf, Hosts, RebindIsIdentity, FollowEdge, ExecFragment;
    assert body[i].body < body[i] && body[i].orelse < body[i] && body[i] in body;
    var rest := body[i + 1..];
    FragmentOrFall(m, branch, JoinTerm(rest, term, join), s);
    EnterPiece(m, cfg, next, at, branch.body, TermOr(branch.term, JoinTerm(rest, term, join)), ctx, s);
    n := FragmentRuns(m, cfg, next, at, branch, JoinTerm(rest, term, join), ctx, s);
    if rest != [] && ExecFragment(m, branch, s).Fall? {
      var s1 := ExecFragment(m, branch, s).state;
      EnterPiece(m, cfg, joinNext, join, rest, term, ctx, s1);
      var j := LinearizedRuns(m, cfg, joinNext, join, rest, term, ctx, s1);
      StepNAdd(m, cfg, At(at, s), n, j);
      n := n + j;
    }
  }

  // What follows a flow: nothing once control has left, else the rest of the body.
  function Resume<I, S, V>(m: Machine<I, S, V>, flow: Flow<S, V>, rest: seq<Stmt<I>>, term: Term<I>): Exit<S, V> {
    match flow
    case Leave(exit) => exit
    case Fall(s) => ExecBody(m, rest, term, s)
  }

  // A body runs what precedes position `i`, the statement there, then what follows it.
  lemma SplitAt<I, S, V>(m: Machine<I, S, V>, body: seq<Stmt<I>>, i: nat, term: Term<I>, s: S)
    requires i < |body|
    ensures var flow := ExecStmts(m, body[..i], s);
            && (flow.Leave? ==> ExecBody(m, body, term, s) == flow.exit)
            && (flow.Fall? ==>
                  ExecBody(m, body, term, s) == Resume(m, ExecStmt(m, body[i], flow.state), body[i + 1..], term))
  {
    assert body == body[..i] + body[i..];
    ExecStmtsAppend(m, body[..i], body[i..], s);
    assert body[i..][1..] == body[i + 1..];
  }

  lemma {:induction false} FragmentRuns<I, S(!new), V>(m: Machine<I, S, V>, cfg: seq<Block<I>>, next: nat, at: Label,
      fragment: Fragment<I>, fallthrough: Term<I>, ctx: Context, s: S) returns (n: nat)
    requires RebindIsIdentity(m) && at < next
    requires Hosts(cfg, LinearizedFragment(next, at, fragment, fallthrough, ctx).0)
    ensures n >= 1
    ensures StepN(m, cfg, At(at, s), n) ==
            Follow(m, cfg, ctx.excEdge, ExecBody(m, fragment.body, TermOr(fragment.term, fallthrough), s))
    decreases fragment, 2
  {
    n := LinearizedRuns(m, cfg, next, at, fragment.body, TermOr(fragment.term, fallthrough), ctx, s);
  }
}
