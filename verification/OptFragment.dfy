/** Optimisation fragments and their validator (`soac-blockpy/src/passes/instrument.rs`). */
module OptFragment {
  import opened Prelude
  import opened BlockIr
  import opened BlockSemantics
  import opened CfgPrune

  // The label every path of a fragment must end at: u32::MAX.
  const FALLTHROUGH: Label := 0xFFFF_FFFF

  type BlockMap<I> = map<Label, Block<I>>

  // Where control can go inside the fragment.
  function Inner<I>(blocks: BlockMap<I>, at: Label): set<Label> {
    if at in blocks then TermTargets(blocks[at].term) - {FALLTHROUGH} else {}
  }

  function InnerMap<I>(blocks: BlockMap<I>): Label -> set<Label> {
    l => Inner(blocks, l)
  }

  // A known block that does not return or raise.
  predicate Passes<I>(blocks: BlockMap<I>, at: Label) {
    at in blocks && !blocks[at].term.Raise? && !blocks[at].term.Return?
  }

  // Within `n` blocks, every path from `at` ends at the fallthrough label.
  ghost predicate EndsWithin<I>(blocks: BlockMap<I>, at: Label, n: nat)
    decreases n
  {
    n > 0 && Passes(blocks, at) && forall t :: t in Inner(blocks, at) ==> EndsWithin(blocks, t, n - 1)
  }

  ghost predicate AllPathsEnd<I>(blocks: BlockMap<I>, at: Label) {
    exists n: nat :: EndsWithin(blocks, at, n)
  }

  // A walk that comes back to where it starts.
  ghost predicate OnCycle<I>(blocks: BlockMap<I>, at: Label) {
    exists path :: |path| > 1 && Walk(InnerMap(blocks), path) && path[0] == at && path[|path| - 1] == at
  }

  // The property the validator is for: nothing reachable is unknown, returns, raises or loops.
  ghost predicate StaysInside<I>(blocks: BlockMap<I>, entry: Label) {
    forall l :: Reaches(InnerMap(blocks), {entry}, l) ==> Passes(blocks, l) && !OnCycle(blocks, l)
  }

  // ---- The inductive property and the walk property are the same -----------

  lemma {:induction false} EndsWithinMonotone<I>(blocks: BlockMap<I>, at: Label, n: nat, k: nat)
    requires EndsWithin(blocks, at, n) && n <= k
    ensures EndsWithin(blocks, at, k)
    decreases n
  {
    forall t | t in Inner(blocks, at)
      ensures EndsWithin(blocks, t, k - 1)
    {
      EndsWithinMonotone(blocks, t, n - 1, k - 1);
    }
  }

  // Each step of a walk uses up one block.
  lemma {:induction false} EndsAlongWalk<I>(blocks: BlockMap<I>, path: seq<Label>, n: nat)
    requires Walk(InnerMap(blocks), path) && EndsWithin(blocks, path[0], n)
    ensures |path| <= n && EndsWithin(blocks, path[|path| - 1], n - (|path| - 1))
    decreases |path|
  {
    if |path| > 1 {
      WalkTail(InnerMap(blocks), path);
      EndsAlongWalk(blocks, path[1..], n - 1);
    }
  }

  lemma {:induction false} EndsMeansNoCycle<I>(blocks: BlockMap<I>, at: Label, n: nat)
    requires EndsWithin(blocks, at, n) && OnCycle(blocks, at)
    ensures false
    decreases n
  {
    var path :| |path| > 1 && Walk(InnerMap(blocks), path) && path[0] == at && path[|path| - 1] == at;
    EndsAlongWalk(blocks, path, n);
    EndsMeansNoCycle(blocks, at, n - (|path| - 1));
  }

  // With no cycle, a walk never repeats a block, so the number of blocks bounds every path.
  lemma {:induction false} StaysInsideEnds<I>(blocks: BlockMap<I>, entry: Label, path: seq<Label>)
    requires StaysInside(blocks, entry)
    requires Walk(InnerMap(blocks), path) && path[0] == entry
    requires forall i, j :: 0 <= i < j < |path| ==> path[i] != path[j]
    requires forall i :: 0 <= i < |path| ==> path[i] in blocks
    ensures |path| <= |blocks|
    ensures EndsWithin(blocks, path[|path| - 1], |blocks| - |path| + 1)
    decreases |blocks| - |path|
  {
    var at := path[|path| - 1];
    DistinctFit(path, blocks.Keys);
    assert Reaches(InnerMap(blocks), {entry}, at);
    forall t | t in Inner(blocks, at)
      ensures EndsWithin(blocks, t, |blocks| - |path|)
    {
      var longer := path + [t];
      WalkExtend(InnerMap(blocks), path, t);
      assert Reaches(InnerMap(blocks), {entry}, t);
      forall i | 0 <= i < |path|
        ensures path[i] != t
      {
        if path[i] == t {
          RepeatIsCycle(blocks, longer, i);
        }
      }
      DistinctFit(longer, blocks.Keys);
      StaysInsideEnds(blocks, entry, longer);
    }
  }

  lemma RepeatIsCycle<I>(blocks: BlockMap<I>, path: seq<Label>, i: nat)
    requires Walk(InnerMap(blocks), path) && i < |path| - 1 && path[i] == path[|path| - 1]
    ensures OnCycle(blocks, path[i])
  {
    WalkDrop(InnerMap(blocks), path, i);
    assert |path[i..]| > 1;
  }

  lemma DistinctFit(path: seq<Label>, keys: set<Label>)
    requires forall i, j :: 0 <= i < j < |path| ==> path[i] != path[j]
    requires forall i :: 0 <= i < |path| ==> path[i] in keys
    ensures |path| <= |keys|
  {
    if path != [] {
      DistinctFit(path[1..], keys - {path[0]});
    }
  }

  lemma WalkExtend(next: Label -> set<Label>, path: seq<Label>, t: Label)
    requires Walk(next, path) && t in next(path[|path| - 1])
    ensures Walk(next, path + [t])
  {
  }

  lemma {:induction false} WalkDrop(next: Label -> set<Label>, path: seq<Label>, i: nat)
    requires Walk(next, path) && i < |path|
    ensures Walk(next, path[i..])
    decreases i
  {
  }

  // All paths end at the fallthrough label exactly when nothing reachable is unknown, returns, raises or loops.
  lemma AllPathsEndExactly<I>(blocks: BlockMap<I>, entry: Label)
    ensures AllPathsEnd(blocks, entry) <==> StaysInside(blocks, entry)
    ensures AllPathsEnd(blocks, entry) <==> EndsWithin(blocks, entry, |blocks|)
  {
    if AllPathsEnd(blocks, entry) {
      var n: nat :| EndsWithin(blocks, entry, n);
      forall l | Reaches(InnerMap(blocks), {entry}, l)
        ensures Passes(blocks, l) && !OnCycle(blocks, l)
      {
        var path :| Walk(InnerMap(blocks), path) && path[0] in {entry} && path[|path| - 1] == l;
        EndsAlongWalk(blocks, path, n);
        if OnCycle(blocks, l) {
          EndsMeansNoCycle(blocks, l, n - (|path| - 1));
        }
      }
    }
    if StaysInside(blocks, entry) {
      ReachesRoot(InnerMap(blocks), {entry}, entry);
      assert Walk(InnerMap(blocks), [entry]);
      StaysInsideEnds(blocks, entry, [entry]);
    }
  }

  // ---- The validator -------------------------------------------------------

  // All paths from a block end exactly when it passes and all paths from its inner targets end.
  lemma AllPathsEndStep<I>(blocks: BlockMap<I>, at: Label)
    ensures AllPathsEnd(blocks, at) <==> Passes(blocks, at) && forall t :: t in Inner(blocks, at) ==> AllPathsEnd(blocks, t)
  {
    forall t | t in Inner(blocks, at)
      ensures AllPathsEnd(blocks, t) <==> EndsWithin(blocks, t, |blocks|)
    {
      AllPathsEndExactly(blocks, t);
    }
    if AllPathsEnd(blocks, at) {
      var n: nat :| EndsWithin(blocks, at, n);
      assert forall t :: t in Inner(blocks, at) ==> EndsWithin(blocks, t, n - 1);
    }
    if Passes(blocks, at) && forall t :: t in Inner(blocks, at) ==> AllPathsEnd(blocks, t) {
      assert EndsWithin(blocks, at, |blocks| + 1);
    }
  }

  // The memo is right, and holds what the blocks it accepts lead to; accepted labels are marked.
  ghost predicate MemoValid<I>(blocks: BlockMap<I>, reachable: set<Label>, memo: map<Label, bool>) {
    && (forall l :: l in memo ==> (memo[l] <==> AllPathsEnd(blocks, l)))
    && (forall l :: l in memo && memo[l] ==> l in reachable)
    && (forall l, t :: l in memo && memo[l] && t in Inner(blocks, l) ==> t in memo && memo[t])
  }

  lemma MemoHit<I>(blocks: BlockMap<I>, reachable: set<Label>, memo: map<Label, bool>, at: Label)
    requires MemoValid(blocks, reachable, memo) && at in memo
    ensures memo[at] <==> AllPathsEnd(blocks, at)
  {
  }

  lemma MemoMark<I>(blocks: BlockMap<I>, reachable: set<Label>, memo: map<Label, bool>, at: Label)
    requires MemoValid(blocks, reachable, memo)
    ensures MemoValid(blocks, reachable + {at}, memo)
  {
  }

  // The stack is a walk of distinct known blocks from `entry`.
  ghost predicate StackValid<I>(blocks: BlockMap<I>, stack: seq<Label>, entry: Label) {
    && (stack != [] ==> Walk(InnerMap(blocks), stack) && stack[0] == entry)
    && (forall i :: 0 <= i < |stack| ==> stack[i] in blocks)
    && (forall i, j :: 0 <= i < j < |stack| ==> stack[i] != stack[j])
  }

  // `at` is where the walk on the stack goes next.
  ghost predicate Follows<I>(blocks: BlockMap<I>, stack: seq<Label>, entry: Label, at: Label) {
    if stack == [] then at == entry else at in Inner(blocks, stack[|stack| - 1])
  }

  lemma FollowsReachable<I>(blocks: BlockMap<I>, stack: seq<Label>, entry: Label, at: Label)
    requires StackValid(blocks, stack, entry) && Follows(blocks, stack, entry, at)
    ensures Reaches(InnerMap(blocks), {entry}, at)
  {
    if stack == [] {
      ReachesRoot(InnerMap(blocks), {entry}, entry);
    } else {
      assert Reaches(InnerMap(blocks), {entry}, stack[|stack| - 1]);
      ReachesNext(InnerMap(blocks), {entry}, stack[|stack| - 1], at);
    }
  }

  lemma StackCycle<I>(blocks: BlockMap<I>, stack: seq<Label>, entry: Label, at: Label)
    requires StackValid(blocks, stack, entry) && Follows(blocks, stack, entry, at) && at in stack
    ensures !AllPathsEnd(blocks, at)
  {
    var i :| 0 <= i < |stack| && stack[i] == at;
    WalkExtend(InnerMap(blocks), stack, at);
    RepeatIsCycle(blocks, stack + [at], i);
    if AllPathsEnd(blocks, at) {
      var n: nat :| EndsWithin(blocks, at, n);
      EndsMeansNoCycle(blocks, at, n);
    }
  }

  lemma PushValid<I>(blocks: BlockMap<I>, stack: seq<Label>, entry: Label, at: Label)
    requires StackValid(blocks, stack, entry) && Follows(blocks, stack, entry, at) && at !in stack && at in blocks
    ensures StackValid(blocks, stack + [at], entry) && |stack| < |blocks|
  {
    if stack != [] {
      WalkExtend(InnerMap(blocks), stack, at);
    }
    DistinctFit(stack + [at], blocks.Keys);
  }

  lemma Remember<I>(blocks: BlockMap<I>, reachable: set<Label>, memo: map<Label, bool>, at: Label, valid: bool)
    requires MemoValid(blocks, reachable, memo) && at in reachable
    requires valid <==> AllPathsEnd(blocks, at)
    requires valid ==> forall t :: t in Inner(blocks, at) ==> t in memo && memo[t]
    ensures MemoValid(blocks, reachable, memo[at := valid])
  {
  }

  // Once the entry is accepted, the marks are exactly what it reaches.
  lemma AcceptedMarks<I>(blocks: BlockMap<I>, reachable: set<Label>, memo: map<Label, bool>, entry: Label, l: Label)
    requires MemoValid(blocks, reachable, memo) && entry in memo && memo[entry]
    requires Reaches(InnerMap(blocks), {entry}, l)
    ensures l in reachable
  {
    var accepted := set x | x in memo && memo[x];
    var path :| Walk(InnerMap(blocks), path) && path[0] in {entry} && path[|path| - 1] == l;
    ClosedHoldsReached(InnerMap(blocks), {entry}, accepted, path);
  }

  class FragmentWalk<I> {
    const blocks: BlockMap<I>
    var reachable: set<Label>
    var stack: seq<Label>
    var memo: map<Label, bool>

    constructor (blocks: BlockMap<I>)
      ensures this.blocks == blocks && reachable == {} && stack == [] && memo == map[]
      ensures forall entry :: Valid(entry)
    {
      this.blocks := blocks;
      reachable, stack, memo := {}, [], map[];
    }

    ghost predicate Valid(entry: Label)
      reads this
    {
      && MemoValid(blocks, reachable, memo)
      && StackValid(blocks, stack, entry)
      && forall l :: l in reachable ==> Reaches(InnerMap(blocks), {entry}, l)
    }

    method AllPathsEndInFallthrough(at: Label, ghost entry: Label) returns (valid: bool)
      requires Valid(entry) && Follows(blocks, stack, entry, at)
      modifies this
      ensures Valid(entry) && stack == old(stack)
      ensures valid <==> AllPathsEnd(blocks, at)
      ensures valid ==> at in memo && memo[at]
      ensures forall l :: l in old(memo) ==> l in memo && memo[l] == old(memo)[l]
      ensures old(reachable) <= reachable
      decreases |blocks| - |stack|, 0
    {
      hide AllPathsEnd, Follows, StackValid, MemoValid, Reaches, InnerMap;
      FollowsReachable(blocks, stack, entry, at);
      MemoMark(blocks, reachable, memo, at);
      if at in memo {
        MemoHit(blocks, reachable, memo, at);
        reachable := reachable + {at};
        return memo[at];
      }
      if at in stack {
        StackCycle(blocks, stack, entry, at);
        return false;
      }
      AllPathsEndStep(blocks, at);
      if at !in blocks {
        return false;
      }
      PushValid(blocks, stack, entry, at);
      reachable := reachable + {at};
      stack := stack + [at];
      valid := AllTargetsEnd(BlockSuccessors(blocks[at]), at, entry);
      valid := valid && !blocks[at].term.Raise? && !blocks[at].term.Return?;
      stack := stack[..|stack| - 1];
      Remember(blocks, reachable, memo, at, valid);
      memo := memo[at := valid];
    }

    // Visits targets in order and stops at the first bad one.
    method AllTargetsEnd(targets: seq<Label>, ghost at: Label, ghost entry: Label) returns (valid: bool)
      requires Valid(entry) && stack != [] && stack[|stack| - 1] == at && at in blocks
      requires forall t :: t in targets ==> t in TermTargets(blocks[at].term)
      modifies this
      ensures Valid(entry) && stack == old(stack)
      ensures valid <==> forall t :: t in targets && t != FALLTHROUGH ==> AllPathsEnd(blocks, t)
      ensures valid ==> forall t :: t in targets && t != FALLTHROUGH ==> t in memo && memo[t]
      ensures forall l :: l in old(memo) ==> l in memo && memo[l] == old(memo)[l]
      ensures old(reachable) <= reachable
      decreases |blocks| - |stack|, 1
    {
      for i := 0 to |targets|
        invariant Valid(entry) && stack == old(stack) && old(reachable) <= reachable
        invariant forall k :: 0 <= k < i && targets[k] != FALLTHROUGH ==>
                    AllPathsEnd(blocks, targets[k]) && targets[k] in memo && memo[targets[k]]
        invariant forall l :: l in old(memo) ==> l in memo && memo[l] == old(memo)[l]
      {
        if targets[i] != FALLTHROUGH {
          var ends := AllPathsEndInFallthrough(targets[i], entry);
          if !ends {
            return false;
          }
        }
      }
      return true;
    }
  }

  // ---- Fragments -----------------------------------------------------------

  function MapOf<I>(blocks: seq<Block<I>>): (r: BlockMap<I>)
    ensures r.Keys == Labels(blocks)
    ensures forall l :: l in r ==> r[l] == blocks[Find(blocks, l).value]
  {
    map l | l in Labels(blocks) :: blocks[Find(blocks, l).value]
  }

  // What a fragment (its entry first) must be: labels distinct, every path inside it until the
  // fallthrough label, and every dependency reached from the entry.
  ghost predicate WellFormed<I>(blocks: seq<Block<I>>) {
    && blocks != [] && DistinctLabels(blocks)
    && StaysInside(MapOf(blocks), blocks[0].blockLabel)
    && forall i :: 0 < i < |blocks| ==> Reaches(InnerMap(MapOf(blocks)), {blocks[0].blockLabel}, blocks[i].blockLabel)
  }

  // Accepts exactly the well-formed fragments.
  method ValidateOptBlock<I>(entry: Block<I>, dependencies: seq<Block<I>>) returns (r: Result<()>)
    ensures r.Ok? <==> WellFormed([entry] + dependencies)
  {
    hide MapOf, WellFormed, DistinctLabels, StaysInside, Reaches, AllPathsEnd, MemoValid, StackValid;
    ghost var all := [entry] + dependencies;
    WellFormedParts(entry, dependencies, all);
    var collected := CollectLabels(entry, dependencies, all);
    if collected.None? {
      return Err("optimization fragment reuses a block label");
    }
    var walk := new FragmentWalk(collected.value);
    var valid := walk.AllPathsEndInFallthrough(entry.blockLabel, entry.blockLabel);
    AllPathsEndExactly(collected.value, entry.blockLabel);
    if !valid {
      return Err("optimization fragment must keep every reachable path inside the fragment until its end");
    }
    var reached := AllMarked(walk, entry.blockLabel, dependencies);
    if !reached {
      return Err("optimization fragment dependency is unreachable");
    }
    return Ok(());
  }

  lemma WellFormedParts<I>(entry: Block<I>, dependencies: seq<Block<I>>, all: seq<Block<I>>)
    requires all == [entry] + dependencies
    ensures WellFormed(all) <==>
              && DistinctLabels(all) && StaysInside(MapOf(all), entry.blockLabel)
              && forall i :: 0 <= i < |dependencies| ==>
                   Reaches(InnerMap(MapOf(all)), {entry.blockLabel}, dependencies[i].blockLabel)
  {
    assert forall i :: 0 < i < |all| ==> all[i] == dependencies[i - 1];
    assert forall i :: 0 <= i < |dependencies| ==> dependencies[i] == all[i + 1];
  }

  // Whether the accepted walk marked every dependency, that is, reached it.
  method AllMarked<I>(walk: FragmentWalk<I>, entry: Label, dependencies: seq<Block<I>>) returns (all: bool)
    requires walk.Valid(entry) && entry in walk.memo && walk.memo[entry]
    ensures all <==> forall i :: 0 <= i < |dependencies| ==>
                       Reaches(InnerMap(walk.blocks), {entry}, dependencies[i].blockLabel)
  {
    for i := 0 to |dependencies|
      invariant forall k :: 0 <= k < i ==> Reaches(InnerMap(walk.blocks), {entry}, dependencies[k].blockLabel)
    {
      if dependencies[i].blockLabel !in walk.reachable {
        if Reaches(InnerMap(walk.blocks), {entry}, dependencies[i].blockLabel) {
          AcceptedMarks(walk.blocks, walk.reachable, walk.memo, entry, dependencies[i].blockLabel);
        }
        return false;
      }
    }
    return true;
  }

  // The label map, or nothing when a label is reused.
  method CollectLabels<I>(entry: Block<I>, dependencies: seq<Block<I>>, ghost all: seq<Block<I>>) returns (r: Option<BlockMap<I>>)
    requires all == [entry] + dependencies
    ensures r.Some? <==> DistinctLabels(all)
    ensures r.Some? ==> r.value == MapOf(all)
  {
    hide MapOf, DistinctLabels, Labels;
    var blocksByLabel := map[entry.blockLabel := entry];
    assert all[0] == entry;
    for i := 0 to |dependencies|
      invariant forall k, j :: 0 <= k < j <= i ==> all[k].blockLabel != all[j].blockLabel
      invariant forall k :: 0 <= k <= i ==> all[k].blockLabel in blocksByLabel && blocksByLabel[all[k].blockLabel] == all[k]
      invariant forall l :: l in blocksByLabel ==> exists k :: 0 <= k <= i && all[k].blockLabel == l
    {
      assert all[i + 1] == dependencies[i];
      if dependencies[i].blockLabel in blocksByLabel {
        ReusedLabel(all, i + 1);
        return None;
      }
      blocksByLabel := blocksByLabel[dependencies[i].blockLabel := dependencies[i]];
    }
    AllDistinct(all);
    SameMap(all, blocksByLabel);
    return Some(blocksByLabel);
  }

  lemma ReusedLabel<I>(blocks: seq<Block<I>>, i: nat)
    requires i < |blocks| && exists k :: 0 <= k < i && blocks[k].blockLabel == blocks[i].blockLabel
    ensures !DistinctLabels(blocks)
  {
  }

  lemma AllDistinct<I>(blocks: seq<Block<I>>)
    requires forall k, j :: 0 <= k < j < |blocks| ==> blocks[k].blockLabel != blocks[j].blockLabel
    ensures DistinctLabels(blocks)
  {
  }

  lemma SameMap<I>(blocks: seq<Block<I>>, m: BlockMap<I>)
    requires DistinctLabels(blocks)
    requires forall k :: 0 <= k < |blocks| ==> blocks[k].blockLabel in m && m[blocks[k].blockLabel] == blocks[k]
    requires forall l :: l in m ==> exists k :: 0 <= k < |blocks| && blocks[k].blockLabel == l
    ensures m == MapOf(blocks)
  {
  }

  lemma LabelsPrefix<I>(blocks: seq<Block<I>>, n: nat)
    requires n < |blocks|
    ensures Labels(blocks[..n + 1]) == Labels(blocks[..n]) + {blocks[n].blockLabel}
  {
  }

  class OptBlock<I> {
    var entry: Block<I>
    var dependencies: seq<Block<I>>

    // Built only from what the validator accepted.
    constructor (entry: Block<I>, dependencies: seq<Block<I>>)
      requires WellFormed([entry] + dependencies)
      ensures this.entry == entry && this.dependencies == dependencies
    {
      this.entry, this.dependencies := entry, dependencies;
    }

    function Blocks(): seq<Block<I>>
      reads this
    {
      [entry] + dependencies
    }

    // Redirects every exit, and reports whether there was one.
    method ReplaceFallthroughTarget(target: Label) returns (replaced: bool)
      modifies this
      ensures Blocks() == Redirected(old(Blocks()), target)
      ensures replaced <==> exists b :: b in old(Blocks()) && FALLTHROUGH in TermTargets(b.term)
    {
      replaced := FALLTHROUGH in BlockSuccessors(entry);
      entry := RedirectedBlock(entry, target);
      var i := 0;
      while i < |dependencies|
        invariant i <= |dependencies| == |old(dependencies)|
        invariant entry == RedirectedBlock(old(entry), target)
        invariant forall k :: 0 <= k < i ==> dependencies[k] == RedirectedBlock(old(dependencies)[k], target)
        invariant forall k :: i <= k < |dependencies| ==> dependencies[k] == old(dependencies)[k]
        invariant replaced <==> FALLTHROUGH in TermTargets(old(entry).term) ||
                                exists k :: 0 <= k < i && FALLTHROUGH in TermTargets(old(dependencies)[k].term)
      {
        replaced := replaced || FALLTHROUGH in BlockSuccessors(dependencies[i]);
        dependencies := dependencies[i := RedirectedBlock(dependencies[i], target)];
        i := i + 1;
      }
    }
  }

  function Redirect(at: Label, target: Label): Label {
    if at == FALLTHROUGH then target else at
  }

  // BlockTerm::replace_target, from the fallthrough label.
  function RedirectedTerm<I>(term: Term<I>, target: Label): Term<I> {
    match term
    case Jump(edge) => Jump(edge.(target := Redirect(edge.target, target)))
    case IfTerm(test, thenLabel, elseLabel) => IfTerm(test, Redirect(thenLabel, target), Redirect(elseLabel, target))
    case BranchTable(index, targets, defaultLabel) =>
      BranchTable(index, seq(|targets|, i requires 0 <= i < |targets| => Redirect(targets[i], target)),
                  Redirect(defaultLabel, target))
    case Raise(_) => term
    case Return(_) => term
  }

  function RedirectedBlock<I>(block: Block<I>, target: Label): Block<I> {
    block.(term := RedirectedTerm(block.term, target))
  }

  function Redirected<I>(blocks: seq<Block<I>>, target: Label): (r: seq<Block<I>>)
    ensures |r| == |blocks|
    ensures forall i :: 0 <= i < |r| ==> r[i] == RedirectedBlock(blocks[i], target)
  {
    seq(|blocks|, i requires 0 <= i < |blocks| => RedirectedBlock(blocks[i], target))
  }

  // ---- Meaning -------------------------------------------------------------

  // The fragment with its exception edges cut: an exception ends the run.
  function Cut<I>(blocks: seq<Block<I>>): (r: seq<Block<I>>)
    ensures |r| == |blocks|
    ensures forall i :: 0 <= i < |r| ==> r[i] == blocks[i].(excEdge := None)
  {
    seq(|blocks|, i requires 0 <= i < |blocks| => blocks[i].(excEdge := None))
  }

  lemma {:induction false} CutFind<I>(blocks: seq<Block<I>>, at: Label)
    ensures Find(Cut(blocks), at) == Find(blocks, at)
  {
    if blocks != [] {
      assert Cut(blocks)[..|blocks| - 1] == Cut(blocks[..|blocks| - 1]);
      CutFind(blocks[..|blocks| - 1], at);
    }
  }

  // A run either raises or falls through.
  predicate EndsAt<S, V>(c: Config<S, V>, target: Label) {
    && c.Done?
    && (c.outcome.Uncaught? || (c.outcome.Escaped? && c.outcome.edge.target == target))
  }

  // A normal step from a block whose inner targets are known goes to one of them or falls through.
  lemma FragmentStep<I, S, V>(m: Machine<I, S, V>, blocks: seq<Block<I>>, at: Label, s: S)
    requires FlatBlocks(blocks) && FALLTHROUGH !in Labels(blocks) && Passes(MapOf(blocks), at)
    requires Inner(MapOf(blocks), at) <= Labels(blocks)
    ensures var c := Step(m, Cut(blocks), At(at, s));
            EndsAt(c, FALLTHROUGH) || (c.At? && c.point in Inner(MapOf(blocks), at))
  {
    CutFind(blocks, at);
    var b := blocks[Find(blocks, at).value];
    FlatHasNoNestedTargets(b.body);
    BodyTargetMentioned(m, b.body, b.term, s);
    FragmentNeverFinishes(m, b, s);
    var exit := ExecBody(m, b.body, b.term, s);
    if exit.ToBlock? {
      CutFind(blocks, exit.edge.target);
    }
  }

  lemma FragmentNeverFinishes<I, S, V>(m: Machine<I, S, V>, b: Block<I>, s: S)
    requires FlatBody(b.body) && !b.term.Return?
    ensures !ExecBody(m, b.body, b.term, s).Finished?
  {
    FlatNeverFinishes(m, b.body, s);
  }

  lemma {:induction false} FlatNeverFinishes<I, S, V>(m: Machine<I, S, V>, body: seq<Stmt<I>>, s: S)
    requires FlatBody(body)
    ensures ExecStmts(m, body, s).Leave? ==> ExecStmts(m, body, s).exit.Threw?
    decreases |body|
  {
    if body != [] {
      var flow := ExecStmt(m, body[0], s);
      if flow.Fall? {
        FlatNeverFinishes(m, body[1..], flow.state);
      }
    }
  }

  lemma EndsKnown<I>(blocks: seq<Block<I>>, at: Label, n: nat)
    requires EndsWithin(MapOf(blocks), at, n)
    ensures at in Labels(blocks)
  {
  }

  lemma {:induction false} FragmentEnds<I, S, V>(m: Machine<I, S, V>, blocks: seq<Block<I>>, at: Label, s: S, n: nat)
    requires FlatBlocks(blocks) && FALLTHROUGH !in Labels(blocks)
    requires EndsWithin(MapOf(blocks), at, n)
    ensures EndsAt(StepN(m, Cut(blocks), At(at, s), n), FALLTHROUGH)
    decreases n
  {
    hide Step, Inner, Passes, FlatBlocks, Labels;
    forall t | t in Inner(MapOf(blocks), at)
      ensures t in Labels(blocks)
    {
      assert EndsWithin(MapOf(blocks), t, n - 1);
      EndsKnown(blocks, t, n - 1);
    }
    FragmentStep(m, blocks, at, s);
    var c := Step(m, Cut(blocks), At(at, s));
    if c.Done? {
      DoneStays(m, Cut(blocks), c, n - 1);
    } else {
      FragmentEnds(m, blocks, c.point, c.state, n - 1);
    }
  }

  // Every normal run of a validated fragment falls through (or raises) within as many steps as it has blocks.
  lemma ValidatedFragmentFallsThrough<I, S, V>(m: Machine<I, S, V>, blocks: seq<Block<I>>, s: S)
    requires WellFormed(blocks) && FlatBlocks(blocks) && blocks[0].blockLabel != 0xFFFF_FFFF
    ensures EndsAt(StepN(m, Cut(blocks), At(blocks[0].blockLabel, s), |blocks|), 0xFFFF_FFFF)
  {
    var entry := blocks[0].blockLabel;
    FallthroughIsOutside(blocks);
    AllPathsEndExactly(MapOf(blocks), entry);
    LabelCount(blocks);
    assert |MapOf(blocks)| == |MapOf(blocks).Keys|;
    EndsWithinMonotone(MapOf(blocks), entry, |MapOf(blocks)|, |blocks|);
    FragmentEnds(m, blocks, entry, s, |blocks|);
  }

  // The fallthrough label is never an inner target, so no dependency can have it.
  lemma FallthroughIsOutside<I>(blocks: seq<Block<I>>)
    requires WellFormed(blocks) && blocks[0].blockLabel != FALLTHROUGH
    ensures FALLTHROUGH !in Labels(blocks)
  {
    if FALLTHROUGH in Labels(blocks) {
      var k :| 0 <= k < |blocks| && blocks[k].blockLabel == FALLTHROUGH;
      var next, entry := InnerMap(MapOf(blocks)), blocks[0].blockLabel;
      assert Reaches(next, {entry}, FALLTHROUGH);
      var path :| Walk(next, path) && path[0] in {entry} && path[|path| - 1] == FALLTHROUGH;
      WalkInit(next, path);
    }
  }

  lemma {:induction false} LabelCount<I>(blocks: seq<Block<I>>)
    ensures |Labels(blocks)| <= |blocks|
  {
    if blocks == [] {
      assert Labels(blocks) == {};
    } else {
      LabelCount(blocks[..|blocks| - 1]);
      LabelsPrefix(blocks, |blocks| - 1);
      assert blocks[..|blocks|] == blocks;
    }
  }

  // ---- Redirected fragments ------------------------------------------------

  lemma {:induction false} RedirectedFind<I>(blocks: seq<Block<I>>, target: Label, at: Label)
    ensures Find(Cut(Redirected(blocks, target)), at) == Find(Cut(blocks), at)
  {
    var a, b := Cut(Redirected(blocks, target)), Cut(blocks);
    if blocks != [] {
      assert a[..|a| - 1] == Cut(Redirected(blocks[..|blocks| - 1], target));
      assert b[..|b| - 1] == Cut(blocks[..|blocks| - 1]);
      RedirectedFind(blocks[..|blocks| - 1], target, at);
    }
  }

  // A configuration of the fragment, read after redirection.
  function RedirectedConfig<S, V>(c: Config<S, V>, target: Label): Config<S, V> {
    if c.Done? && c.outcome.Escaped? then
      Done(Escaped(c.outcome.edge.(target := Redirect(c.outcome.edge.target, target)), c.outcome.state))
    else c
  }

  lemma RedirectedEdge<I, S, V>(m: Machine<I, S, V>, blocks: seq<Block<I>>, target: Label,
                                edge: BlockEdge, s: S)
    requires FALLTHROUGH !in Labels(blocks) && target !in Labels(blocks)
    ensures FollowEdge(m, Cut(Redirected(blocks, target)), edge.(target := Redirect(edge.target, target)), s)
            == RedirectedConfig(FollowEdge(m, Cut(blocks), edge, s), target)
  {
    RedirectedFind(blocks, target, Redirect(edge.target, target));
    CutFind(blocks, edge.target);
    CutFind(blocks, target);
  }

  lemma RedirectedTermExit<I, S, V>(m: Machine<I, S, V>, term: Term<I>, target: Label, s: S)
    ensures var exit := ExecTerm(m, term, s);
            ExecTerm(m, RedirectedTerm(term, target), s)
            == if exit.ToBlock? then exit.(edge := exit.edge.(target := Redirect(exit.edge.target, target))) else exit
  {
  }

  lemma RedirectedStep<I, S, V>(m: Machine<I, S, V>, blocks: seq<Block<I>>, target: Label, at: Label, s: S)
    requires FlatBlocks(blocks) && FALLTHROUGH !in Labels(blocks) && target !in Labels(blocks) && at in Labels(blocks)
    ensures Step(m, Cut(Redirected(blocks, target)), At(at, s))
            == RedirectedConfig(Step(m, Cut(blocks), At(at, s)), target)
  {
    RedirectedFind(blocks, target, at);
    CutFind(blocks, at);
    var b := blocks[Find(blocks, at).value];
    FlatNeverFinishes(m, b.body, s);
    if ExecStmts(m, b.body, s).Fall? {
      RedirectedTermExit(m, b.term, target, ExecStmts(m, b.body, s).state);
      var exit := ExecBody(m, b.body, b.term, s);
      if exit.ToBlock? {
        RedirectedEdge(m, blocks, target, exit.edge, exit.state);
      }
    }
  }

  lemma {:induction false} RedirectedRun<I, S, V>(m: Machine<I, S, V>, blocks: seq<Block<I>>, target: Label, c: Config<S, V>, n: nat)
    requires FlatBlocks(blocks) && FALLTHROUGH !in Labels(blocks) && target !in Labels(blocks)
    requires c.At? ==> c.point in Labels(blocks)
    ensures StepN(m, Cut(Redirected(blocks, target)), RedirectedConfig(c, target), n)
            == RedirectedConfig(StepN(m, Cut(blocks), c, n), target)
    decreases n
  {
    hide Step, Cut, Redirected, FlatBlocks;
    if c.Done? {
      DoneStays(m, Cut(blocks), c, n);
      DoneStays(m, Cut(Redirected(blocks, target)), RedirectedConfig(c, target), n);
    } else if n > 0 {
      RedirectedStep(m, blocks, target, c.point, c.state);
      StaysInFragment(m, blocks, c.point, c.state);
      RedirectedRun(m, blocks, target, Step(m, Cut(blocks), c), n - 1);
    }
  }

  lemma StaysInFragment<I, S, V>(m: Machine<I, S, V>, blocks: seq<Block<I>>, at: Label, s: S)
    ensures Step(m, Cut(blocks), At(at, s)).At? ==> Step(m, Cut(blocks), At(at, s)).point in Labels(blocks)
  {
  }

  // After redirection, every normal run of a validated fragment leaves for the target (or raises), in the same state and
  // with the same arguments as it fell through before.
  lemma RedirectedFragmentLeavesForTarget<I, S, V>(m: Machine<I, S, V>, blocks: seq<Block<I>>, target: Label, s: S)
    requires WellFormed(blocks) && FlatBlocks(blocks) && blocks[0].blockLabel != FALLTHROUGH
    requires target !in Labels(blocks)
    ensures EndsAt(StepN(m, Cut(Redirected(blocks, target)), At(blocks[0].blockLabel, s), |blocks|), target)
    ensures var before := StepN(m, Cut(blocks), At(blocks[0].blockLabel, s), |blocks|);
            var after := StepN(m, Cut(Redirected(blocks, target)), At(blocks[0].blockLabel, s), |blocks|);
            && before.Done?
            && (before.outcome.Uncaught? ==> after == before)
            && (before.outcome.Escaped? ==> after == Done(Escaped(BlockEdge(target, before.outcome.edge.args), before.outcome.state)))
  {
    ValidatedFragmentFallsThrough(m, blocks, s);
    FallthroughIsOutside(blocks);
    assert blocks[0].blockLabel in Labels(blocks);
    RedirectedRun(m, blocks, target, At(blocks[0].blockLabel, s), |blocks|);
  }
}
