/** The flattening pass in its own form: output lists and maps that grow, and labels
    drawn from the function's counter (`soac-blockpy/src/block_py/cfg.rs`). */
module CfgLinearizer {
  import opened Prelude
  import opened BlockIr
  import opened CfgLinearize
  import opened CfgLinearizeBlocks

  // The declared params whose name is wanted, in declaration order.
  function ParamsForLinearizedNames(names: seq<string>, declared: seq<BlockParam>): seq<BlockParam> {
    if declared == [] then []
    else (if declared[0].name in names then [declared[0]] else []) + ParamsForLinearizedNames(names, declared[1..])
  }

  lemma {:induction false} AllNamesKeepAllParams(names: seq<string>, declared: seq<BlockParam>)
    requires forall p :: p in declared ==> p.name in names
    ensures ParamsForLinearizedNames(names, declared) == declared
  {
    if declared != [] {
      AllNamesKeepAllParams(names, declared[1..]);
    }
  }

  function WithRole(params: seq<BlockParam>, role: BlockParamRole): (r: seq<BlockParam>)
    ensures forall p :: p in r <==> p in params && p.role == role
  {
    if params == [] then []
    else (if params[0].role == role then [params[0]] else []) + WithRole(params[1..], role)
  }

  // The block params in role order: exception, abrupt kind, abrupt payload.
  function BbParams(params: seq<BlockParam>): (r: seq<BlockParam>)
    ensures forall p :: p in r <==> p in params
  {
    WithRole(params, ExceptionRole) + WithRole(params, AbruptKindRole) + WithRole(params, AbruptPayloadRole)
  }

  function AllTo<V>(labels: set<Label>, v: V): map<Label, V> {
    map l | l in labels :: v
  }

  function TargetOf(edge: Option<BlockEdge>): Option<Label> {
    if edge.Some? then Some(edge.value.target) else None
  }

  function LookupEdge(edges: map<Label, Option<Label>>, at: Label): Option<Label> {
    if at in edges then edges[at] else None
  }

  // What the pass has produced so far.
  datatype Output<I> = Output(blocks: seq<Block<I>>, params: map<Label, seq<string>>, edges: map<Label, Option<Label>>)

  // Output extended with blocks that all have one set of names and one handler.
  function Extend<I>(out: Output<I>, blocks: seq<Block<I>>, names: seq<string>, excTarget: Option<Label>): Output<I> {
    Output(out.blocks + blocks, out.params + AllTo(Labels(blocks), names), out.edges + AllTo(Labels(blocks), excTarget))
  }

  lemma AllToTwice<V>(m: map<Label, V>, a: set<Label>, b: set<Label>, v: V)
    ensures m + AllTo(a, v) + AllTo(b, v) == m + AllTo(a + b, v)
  {
  }

  lemma AllToOne<V>(m: map<Label, V>, l: Label, v: V)
    ensures m + AllTo({l}, v) == m[l := v]
  {
  }

  lemma LabelsOfOne<I>(block: Block<I>)
    ensures Labels([block]) == {block.blockLabel}
  {
    assert [block][0].blockLabel == block.blockLabel;
  }

  lemma ExtendTwice<I>(out: Output<I>, a: seq<Block<I>>, b: seq<Block<I>>, names: seq<string>, excTarget: Option<Label>)
    ensures Extend(Extend(out, a, names, excTarget), b, names, excTarget) == Extend(out, a + b, names, excTarget)
  {
    hide AllTo, Labels;
    LabelsOfAppend(a, b);
    AllToTwice(out.params, Labels(a), Labels(b), names);
    AllToTwice(out.edges, Labels(a), Labels(b), excTarget);
    assert out.blocks + a + b == out.blocks + (a + b);
  }

  // The names a block's flattening is tracked under: the recorded ones, then any declared param not among them.
  function NamesFor<I>(block: Block<I>, blockParams: map<Label, seq<string>>): (names: seq<string>)
    ensures forall p :: p in block.params ==> p.name in names
  {
    AddMissing(if block.blockLabel in blockParams then blockParams[block.blockLabel] else [], BbParams(block.params))
  }

  function AddMissing(names: seq<string>, params: seq<BlockParam>): (r: seq<string>)
    ensures forall n :: n in names ==> n in r
    ensures forall p :: p in params ==> p.name in r
    decreases params
  {
    if params == [] then names
    else
      var r := AddMissing(if params[0].name in names then names else names + [params[0].name], params[1..]);
      assert forall p :: p in params ==> p == params[0] || p in params[1..];
      r
  }

  // `edges` names each block's handler.
  ghost predicate HandlersOf<I>(edges: map<Label, Option<Label>>, blocks: seq<Block<I>>) {
    forall b :: b in blocks ==> LookupEdge(edges, b.blockLabel) == TargetOf(b.excEdge)
  }

  // Every emitted block is tracked, under names that cover its params.
  ghost predicate Tracks<I>(out: Output<I>) {
    && out.params.Keys == Labels(out.blocks) && out.edges.Keys == Labels(out.blocks)
    && forall b :: b in out.blocks ==> b.blockLabel in Labels(out.blocks) && forall p :: p in b.params ==> p.name in out.params[b.blockLabel]
  }

  lemma MemberLabel<I>(blocks: seq<Block<I>>, b: Block<I>)
    requires b in blocks
    ensures b.blockLabel in Labels(blocks)
  {
  }

  // Extending with freshly labelled blocks keeps everything tracked.
  lemma ExtendTracks<I>(out: Output<I>, blocks: seq<Block<I>>, ctx: Context, names: seq<string>, excTarget: Option<Label>)
    requires Tracks(out) && Inherits(blocks, ctx) && Labels(out.blocks) !! Labels(blocks)
    requires forall p :: p in ctx.params ==> p.name in names
    ensures Tracks(Extend(out, blocks, names, excTarget))
  {
    hide Labels;
    LabelsOfAppend(out.blocks, blocks);
    forall b | b in out.blocks + blocks
      ensures b.blockLabel in Labels(out.blocks + blocks)
      ensures forall p :: p in b.params ==> p.name in Extend(out, blocks, names, excTarget).params[b.blockLabel]
    {
      if b in blocks {
        MemberLabel(blocks, b);
      } else {
        MemberLabel(out.blocks, b);
      }
    }
  }

  // And keeps the handlers right.
  lemma ExtendHandlers<I>(out: Output<I>, blocks: seq<Block<I>>, ctx: Context, names: seq<string>)
    requires HandlersOf(out.edges, out.blocks) && Inherits(blocks, ctx) && Labels(out.blocks) !! Labels(blocks)
    ensures HandlersOf(Extend(out, blocks, names, TargetOf(ctx.excEdge)).edges, out.blocks + blocks)
  {
    hide Labels;
    forall b | b in out.blocks + blocks
      ensures LookupEdge(out.edges + AllTo(Labels(blocks), TargetOf(ctx.excEdge)), b.blockLabel) == TargetOf(b.excEdge)
    {
      if b in blocks {
        MemberLabel(blocks, b);
      } else {
        MemberLabel(out.blocks, b);
      }
    }
  }

  // One more block of the list.
  lemma NextBlock<I>(next: nat, blocks: seq<Block<I>>, j: nat)
    requires j < |blocks| && DistinctLabels(blocks) && LabelsBelow(blocks, next)
    ensures var (done, next1) := LinearizedBlocks(next, blocks[..j]);
            var (last, next2) := LinearizedBlock(next1, blocks[j]);
            && LinearizedBlocks(next, blocks[..j + 1]) == (done + last, next2)
            && Labels(done) !! Labels(last) && Inherits(last, ContextOf(blocks[j]))
  {
    var all := blocks[..j + 1];
    assert all[..|all| - 1] == blocks[..j];
    LinearizedBlocksShape(next, all);
    LinearizedBlocksShape(next, blocks[..j]);
    var (done, next1) := LinearizedBlocks(next, blocks[..j]);
    var (last, next2) := LinearizedBlock(next1, blocks[j]);
    LinearizedShape(next1, blocks[j].blockLabel, blocks[j].body, blocks[j].term, ContextOf(blocks[j]));
    forall i, k | 0 <= i < |done| && 0 <= k < |last|
      ensures done[i].blockLabel != last[k].blockLabel
    {
      assert (done + last)[i] == done[i] && (done + last)[|done| + k] == last[k];
    }
  }

  class Linearizer<I> {
    var nextBlockId: nat
    var outBlocks: seq<Block<I>>
    var outBlockParams: map<Label, seq<string>>
    var outExceptionEdges: map<Label, Option<Label>>

    constructor (next: nat)
      ensures nextBlockId == next && Out() == Output([], map[], map[])
    {
      nextBlockId, outBlocks, outBlockParams, outExceptionEdges := next, [], map[], map[];
    }

    function Out(): Output<I>
      reads this
    {
      Output(outBlocks, outBlockParams, outExceptionEdges)
    }

    method NextBlockName() returns (at: Label)
      modifies this`nextBlockId
      ensures at == old(nextBlockId) && nextBlockId == old(nextBlockId) + 1
    {
      at := nextBlockId;
      nextBlockId := nextBlockId + 1;
    }

    method Emit(block: Block<I>, names: seq<string>, excTarget: Option<Label>)
      modifies this
      ensures nextBlockId == old(nextBlockId)
      ensures Out() == Extend(old(Out()), [block], names, excTarget)
    {
      hide AllTo, Labels;
      LabelsOfOne(block);
      AllToOne(outBlockParams, block.blockLabel, names);
      AllToOne(outExceptionEdges, block.blockLabel, excTarget);
      outBlockParams := outBlockParams[block.blockLabel := names];
      outExceptionEdges := outExceptionEdges[block.blockLabel := excTarget];
      outBlocks := outBlocks + [block];
    }

    method LinearizeIfSequence(at: Label, body: seq<Stmt<I>>, finalTerm: Term<I>, excEdge: Option<BlockEdge>,
                               names: seq<string>, declared: seq<BlockParam>, excTarget: Option<Label>)
      modifies this
      ensures var ctx := Context(ParamsForLinearizedNames(names, declared), excEdge);
              var (blocks, next) := Linearized(old(nextBlockId), at, body, finalTerm, ctx);
              nextBlockId == next && Out() == Extend(old(Out()), blocks, names, excTarget)
      decreases body
    {
      hide LinearizedFragment, Extend, JoinTerm, ParamsForLinearizedNames, FirstIf, Linearized;
      var params := ParamsForLinearizedNames(names, declared);
      var i := FirstIf(body);
      if i == |body| {
        FlatPieces(nextBlockId, at, body, finalTerm, Context(params, excEdge));
        Emit(Block(at, body, finalTerm, params, excEdge), names, excTarget);
        return;
      }
      assert body[i].body < body[i] && body[i].orelse < body[i] && body[i] in body;
      ghost var head, next1, thens, next2, elses, next3, joins, next4 :=
        Pieces(nextBlockId, at, body, finalTerm, Context(params, excEdge), i);
      ghost var was := Out();
      var rest := body[i + 1..];
      var thenLabel := NextBlockName();
      var elseLabel := NextBlockName();
      var joinLabel := elseLabel + 1;
      if rest != [] {
        joinLabel := NextBlockName();
      }
      Emit(Block(at, body[..i], IfTerm(body[i].test, thenLabel, elseLabel), params, excEdge), names, excTarget);
      var fallthrough := JoinTerm(rest, finalTerm, joinLabel);
      LinearizeFragment(thenLabel, body[i].body, fallthrough, excEdge, names, declared, excTarget);
      ExtendTwice(was, [head], thens, names, excTarget);
      LinearizeFragment(elseLabel, body[i].orelse, fallthrough, excEdge, names, declared, excTarget);
      ExtendTwice(was, [head] + thens, elses, names, excTarget);
      if rest != [] {
        LinearizeIfSequence(joinLabel, rest, finalTerm, excEdge, names, declared, excTarget);
        ExtendTwice(was, [head] + thens + elses, joins, names, excTarget);
      } else {
        assert [head] + thens + elses + joins == [head] + thens + elses;
      }
    }

    method LinearizeFragment(at: Label, fragment: Fragment<I>, fallthrough: Term<I>, excEdge: Option<BlockEdge>,
                             names: seq<string>, declared: seq<BlockParam>, excTarget: Option<Label>)
      modifies this
      ensures var ctx := Context(ParamsForLinearizedNames(names, declared), excEdge);
              var (blocks, next) := LinearizedFragment(old(nextBlockId), at, fragment, fallthrough, ctx);
              nextBlockId == next && Out() == Extend(old(Out()), blocks, names, excTarget)
      decreases fragment
    {
      LinearizeIfSequence(at, fragment.body, TermOr(fragment.term, fallthrough), excEdge, names, declared, excTarget);
    }

    // The whole pass. The caller rebuilds each block's exception edge from `outExceptionEdges`, so
    // that map must name, for every block split off, the handler of the block it was split from.
    method LinearizeStructuredIfs(blocks: seq<Block<I>>, blockParams: map<Label, seq<string>>,
                                  exceptionEdges: map<Label, Option<Label>>)
      requires Out() == Output([], map[], map[])
      requires DistinctLabels(blocks) && LabelsBelow(blocks, nextBlockId)
      modifies this
      ensures (outBlocks, nextBlockId) == LinearizedBlocks(old(nextBlockId), blocks)
      ensures Tracks(Out())
      ensures HandlersOf(exceptionEdges, blocks) ==> HandlersOf(outExceptionEdges, outBlocks)
    {
      ghost var next := nextBlockId;
      assert blocks[..0] == [];
      for j := 0 to |blocks|
        invariant (outBlocks, nextBlockId) == LinearizedBlocks(next, blocks[..j])
        invariant Tracks(Out())
        invariant HandlersOf(exceptionEdges, blocks) ==> HandlersOf(outExceptionEdges, outBlocks)
      {
        var names := NamesFor(blocks[j], blockParams);
        var excTarget := LookupEdge(exceptionEdges, blocks[j].blockLabel);
        ghost var last := LinearizedBlock(nextBlockId, blocks[j]).0;
        AllNamesKeepAllParams(names, blocks[j].params);
        NextBlock(next, blocks, j);
        ExtendTracks(Out(), last, ContextOf(blocks[j]), names, excTarget);
        assert blocks[j] in blocks;
        if HandlersOf(exceptionEdges, blocks) {
          ExtendHandlers(Out(), last, ContextOf(blocks[j]), names);
        }
        LinearizeIfSequence(blocks[j].blockLabel, blocks[j].body, blocks[j].term, blocks[j].excEdge, names,
                            blocks[j].params, excTarget);
      }
      assert blocks[..|blocks|] == blocks;
    }
  }
}
