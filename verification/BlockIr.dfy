/** The basic-block intermediate representation of `soac-blockpy/src/block_py/mod.rs`.

    Instructions are an arbitrary type `I`: nothing in the control-flow passes looks
    inside one, so every theorem holds for every instruction set. */
module BlockIr {
  import opened Prelude

  // A block label is an index drawn from the function's label counter.
  type Label = nat

  datatype BlockParamRole = ExceptionRole | AbruptKindRole | AbruptPayloadRole

  datatype BlockParam = BlockParam(name: string, role: BlockParamRole)

  datatype AbruptKind = FallthroughKind | ReturnKind | ExceptionKind | BreakKind | ContinueKind

  datatype BlockArg = NameArg(name: string) | NoneArg | CurrentException | AbruptArg(kind: AbruptKind)

  datatype BlockEdge = BlockEdge(target: Label, args: seq<BlockArg>)

  datatype Term<I> =
    | Jump(edge: BlockEdge)
    | IfTerm(test: I, thenLabel: Label, elseLabel: Label)
    | BranchTable(index: I, targets: seq<Label>, defaultLabel: Label)
    | Raise(exc: Option<I>)
    | Return(value: I)

  // A structured statement: an instruction, or an `if` whose branches are fragments.
  datatype Stmt<I> = Expr(instr: I) | If(test: I, body: Fragment<I>, orelse: Fragment<I>)

  // A branch either ends in its own terminator or falls through to what follows the `if`.
  datatype Fragment<I> = Fragment(body: seq<Stmt<I>>, term: Option<Term<I>>)

  datatype Block<I> = Block(
    blockLabel: Label,
    body: seq<Stmt<I>>,
    term: Term<I>,
    params: seq<BlockParam>,
    excEdge: Option<BlockEdge>)

  function ParamNames(params: seq<BlockParam>): (names: seq<string>)
    ensures |names| == |params|
    ensures forall i :: 0 <= i < |params| ==> names[i] == params[i].name
  {
    seq(|params|, i requires 0 <= i < |params| => params[i].name)
  }

  function Labels<I>(blocks: seq<Block<I>>): set<Label> {
    set i | 0 <= i < |blocks| :: blocks[i].blockLabel
  }

  predicate DistinctLabels<I>(blocks: seq<Block<I>>) {
    forall i, j :: 0 <= i < j < |blocks| ==> blocks[i].blockLabel != blocks[j].blockLabel
  }

  // The block a label names, as an index. The passes build a label-to-index map.
  function Find<I>(blocks: seq<Block<I>>, at: Label): (r: Option<nat>)
    ensures r.Some? ==> r.value < |blocks| && blocks[r.value].blockLabel == at
    ensures r.None? <==> at !in Labels(blocks)
  {
    if blocks == [] then None
    else if blocks[|blocks| - 1].blockLabel == at then Some(|blocks| - 1)
    else
      assert forall i :: 0 <= i < |blocks| - 1 ==> blocks[i] == blocks[..|blocks| - 1][i];
      Find(blocks[..|blocks| - 1], at)
  }

  lemma FindUnique<I>(blocks: seq<Block<I>>, i: nat)
    requires DistinctLabels(blocks) && i < |blocks|
    ensures Find(blocks, blocks[i].blockLabel) == Some(i)
  {
  }

  // The labels a terminator can transfer control to (blockpy_successors).
  function TermTargets<I>(term: Term<I>): set<Label> {
    match term
    case Jump(edge) => {edge.target}
    case IfTerm(_, thenLabel, elseLabel) => {thenLabel, elseLabel}
    case BranchTable(_, targets, defaultLabel) => (set t | t in targets) + {defaultLabel}
    case Raise(_) => {}
    case Return(_) => {}
  }

  // The same labels in the order the passes visit them.
  function BlockSuccessors<I>(block: Block<I>): (r: seq<Label>)
    ensures forall l :: l in r <==> l in TermTargets(block.term)
  {
    match block.term
    case Jump(edge) => [edge.target]
    case IfTerm(_, thenLabel, elseLabel) => [thenLabel, elseLabel]
    case BranchTable(_, targets, defaultLabel) => targets + [defaultLabel]
    case Raise(_) => []
    case Return(_) => []
  }

  // The labels that terminators nested inside structured ifs can transfer control to.
  function NestedTargets<I>(body: seq<Stmt<I>>): set<Label>
    decreases body
  {
    if body == [] then {}
    else StmtTargets(body[0]) + NestedTargets(body[1..])
  }

  function StmtTargets<I>(stmt: Stmt<I>): set<Label>
    decreases stmt
  {
    match stmt
    case Expr(_) => {}
    case If(_, body, orelse) => FragmentTargets(body) + FragmentTargets(orelse)
  }

  function FragmentTargets<I>(fragment: Fragment<I>): set<Label>
    decreases fragment
  {
    NestedTargets(fragment.body) +
    match fragment.term {
      case Some(term) => TermTargets(term)
      case None => {}
    }
  }

  function ExcTargets<I>(block: Block<I>): set<Label> {
    match block.excEdge
    case Some(edge) => {edge.target}
    case None => {}
  }

  // Every label a block mentions as a destination.
  function BlockTargets<I>(block: Block<I>): set<Label> {
    NestedTargets(block.body) + TermTargets(block.term) + ExcTargets(block)
  }

  // A block with no structured `if` left in it.
  predicate FlatBody<I>(body: seq<Stmt<I>>) {
    forall i :: 0 <= i < |body| ==> body[i].Expr?
  }

  predicate FlatBlocks<I>(blocks: seq<Block<I>>) {
    forall i :: 0 <= i < |blocks| ==> FlatBody(blocks[i].body)
  }

  lemma {:induction false} FlatHasNoNestedTargets<I>(body: seq<Stmt<I>>)
    requires FlatBody(body)
    ensures NestedTargets(body) == {}
  {
    if body != [] {
      FlatHasNoNestedTargets(body[1..]);
    }
  }
}
