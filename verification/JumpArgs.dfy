/** Making jump arguments explicit (`populate_jump_edge_args` in
    `soac-blockpy/src/passes/name_binding.rs`) and checking them
    (`soac-blockpy/src/block_py/validate.rs`). */
module JumpArgs {
  import opened Prelude
  import opened BlockIr

  predicate HasName(params: seq<BlockParam>, name: string) {
    exists i :: 0 <= i < |params| && params[i].name == name
  }

  // `i` is the first position with a given role.
  predicate FirstOfRole(params: seq<BlockParam>, role: BlockParamRole, i: int) {
    0 <= i < |params| && params[i].role == role && forall k :: 0 <= k < i ==> params[k].role != role
  }

  // The first param with a given role.
  function FirstWithRole(params: seq<BlockParam>, role: BlockParamRole): (r: Option<BlockParam>)
    ensures r.Some? ==> r.value in params && r.value.role == role
    ensures r.None? ==> forall i :: 0 <= i < |params| ==> params[i].role != role
    ensures r.Some? ==> exists i :: FirstOfRole(params, role, i) && params[i] == r.value
  {
    if params == [] then None
    else if params[0].role == role then
      assert FirstOfRole(params, role, 0);
      Some(params[0])
    else
      var r := FirstWithRole(params[1..], role);
      assert r.Some? ==> exists i :: FirstOfRole(params[1..], role, i) && FirstOfRole(params, role, i + 1) && params[i + 1] == r.value;
      r
  }

  // The argument the pass writes for a param without one: by name, then by role, and None otherwise.
  function ImplicitArg(source: seq<BlockParam>, target: BlockParam): BlockArg {
    if HasName(source, target.name) then NameArg(target.name)
    else match FirstWithRole(source, target.role)
      case Some(p) => NameArg(p.name)
      case None => NoneArg
  }

  // Explicit arguments feed the last params; the pass fills in the ones before them.
  function ResolveArgs(source: seq<BlockParam>, explicit: seq<BlockArg>, target: seq<BlockParam>): (args: seq<BlockArg>)
    ensures |args| == |target|
  {
    var start := if |explicit| <= |target| then |target| - |explicit| else 0;
    seq(|target|, i requires 0 <= i < |target| =>
      if i >= start then explicit[i - start] else ImplicitArg(source, target[i]))
  }

  // A jump to a known block with params gets one argument per param.
  function PopulatedTerm<I>(blocks: seq<Block<I>>, params: seq<BlockParam>, term: Term<I>): Term<I> {
    if term.Jump? && Find(blocks, term.edge.target).Some? && blocks[Find(blocks, term.edge.target).value].params != [] then
      Jump(BlockEdge(term.edge.target,
                     ResolveArgs(params, term.edge.args, blocks[Find(blocks, term.edge.target).value].params)))
    else term
  }

  function PopulatedBlock<I>(blocks: seq<Block<I>>, block: Block<I>): Block<I> {
    block.(term := PopulatedTerm(blocks, block.params, block.term))
  }

  function Populated<I>(blocks: seq<Block<I>>): (r: seq<Block<I>>)
    ensures |r| == |blocks|
    ensures forall i :: 0 <= i < |r| ==> r[i] == PopulatedBlock(blocks, blocks[i])
  {
    seq(|blocks|, i requires 0 <= i < |blocks| => PopulatedBlock(blocks, blocks[i]))
  }

  // Labels and params decide where arguments go; the pass changes neither.
  ghost predicate SameFrames<I>(a: seq<Block<I>>, b: seq<Block<I>>) {
    |a| == |b| && forall i :: 0 <= i < |a| ==> a[i].blockLabel == b[i].blockLabel && a[i].params == b[i].params
  }

  lemma {:induction false} SameFramesFind<I>(a: seq<Block<I>>, b: seq<Block<I>>, at: Label)
    requires SameFrames(a, b)
    ensures Find(a, at) == Find(b, at)
  {
    if a != [] {
      SameFramesFind(a[..|a| - 1], b[..|b| - 1], at);
    }
  }

  // The pass reads params while it rewrites terminators in place; the order does not matter.
  method PopulateJumpEdgeArgs<I>(blocks: array<Block<I>>)
    modifies blocks
    ensures blocks[..] == Populated(old(blocks[..]))
  {
    hide ResolveArgs, Find;
    ghost var was := blocks[..];
    for i := 0 to blocks.Length
      invariant SameFrames(blocks[..], was)
      invariant forall k :: 0 <= k < i ==> blocks[k] == PopulatedBlock(was, was[k])
      invariant forall k :: i <= k < blocks.Length ==> blocks[k] == was[k]
    {
      var b := blocks[i];
      if b.term.Jump? {
        var target := Find(blocks[..], b.term.edge.target);
        SameFramesFind(blocks[..], was, b.term.edge.target);
        if target.Some? && blocks[target.value].params != [] {
          var args := ResolveArgs(b.params, b.term.edge.args, blocks[target.value].params);
          blocks[i] := b.(term := Jump(b.term.edge.(args := args)));
        }
      }
    }
    assert |blocks[..]| == |was|;
  }

  // ---- What the new arguments are ------------------------------------------

  // Explicit arguments still feed the params they fed; the params before them are forwarded, by name
  // wherever the source has the name.
  lemma ResolvedFeedSameParams(source: seq<BlockParam>, explicit: seq<BlockArg>, target: seq<BlockParam>)
    requires |explicit| <= |target|
    ensures var args := ResolveArgs(source, explicit, target);
            && (forall k :: 0 <= k < |explicit| ==> args[|target| - |explicit| + k] == explicit[k])
            && (forall i :: 0 <= i < |target| - |explicit| && HasName(source, target[i].name) ==>
                  args[i] == NameArg(target[i].name))
  {
  }

  // What the pass writes for a param that gets no explicit argument: the param's own name where the source declares
  // it, else the name of the first source param of its role, else None.
  lemma WrittenExactly(source: seq<BlockParam>, explicit: seq<BlockArg>, target: seq<BlockParam>, i: nat)
    requires i < |target| - |explicit|
    ensures var arg, param := ResolveArgs(source, explicit, target)[i], target[i];
            && ((exists j :: 0 <= j < |source| && source[j].name == param.name) ==> arg == NameArg(param.name))
            && ((forall j :: 0 <= j < |source| ==> source[j].name != param.name) ==>
                  && (forall j :: FirstOfRole(source, param.role, j) ==> arg == NameArg(source[j].name))
                  && ((forall j :: 0 <= j < |source| ==> source[j].role != param.role) ==> arg == NoneArg))
  {
    var r := FirstWithRole(source, target[i].role);
    if r.Some? {
      var j :| FirstOfRole(source, target[i].role, j) && source[j] == r.value;
      assert forall k :: FirstOfRole(source, target[i].role, k) ==> k == j;
    }
  }

  lemma ResolveTwice(source: seq<BlockParam>, explicit: seq<BlockArg>, target: seq<BlockParam>)
    ensures ResolveArgs(source, ResolveArgs(source, explicit, target), target) == ResolveArgs(source, explicit, target)
  {
  }

  // A jump to a known block ends with one argument per param, unless it passed arguments to a block with no params.
  lemma PopulatedArity<I>(blocks: seq<Block<I>>, i: nat)
    requires i < |blocks| && blocks[i].term.Jump? && blocks[i].term.edge.target in Labels(blocks)
    ensures var target := blocks[Find(blocks, blocks[i].term.edge.target).value];
            |Populated(blocks)[i].term.edge.args| == |target.params|
            <==> (target.params == [] ==> blocks[i].term.edge.args == [])
  {
  }

  // A second application changes nothing.
  lemma PopulateTwice<I>(blocks: seq<Block<I>>)
    ensures Populated(Populated(blocks)) == Populated(blocks)
  {
    var once := Populated(blocks);
    var twice := Populated(once);
    forall i | 0 <= i < |blocks|
      ensures twice[i] == once[i]
    {
      if blocks[i].term.Jump? {
        SameFramesFind(once, blocks, blocks[i].term.edge.target);
        var t := Find(blocks, blocks[i].term.edge.target);
        if t.Some? {
          ResolveTwice(blocks[i].params, blocks[i].term.edge.args, blocks[t.value].params);
        }
      }
    }
  }

  // ---- The validator -------------------------------------------------------

  // Which argument may feed which param.
  predicate RoleCompatible(param: BlockParam, arg: BlockArg) {
    match arg
    case NameArg(_) => true
    case NoneArg => true
    case CurrentException => param.role == ExceptionRole
    case AbruptArg(_) => param.role == AbruptKindRole
  }

  // An implicitly forwarded param must not have to be renamed.
  predicate ForwardsByName(source: seq<BlockParam>, param: BlockParam) {
    match FirstWithRole(source, param.role)
    case None => true
    case Some(p) => p.name == param.name
  }

  function ValidateForwarding(source: seq<BlockParam>, target: seq<BlockParam>, upTo: nat): Result<()>
    requires upTo <= |target|
  {
    if upTo == 0 then Ok(())
    else match ValidateForwarding(source, target, upTo - 1)
      case Err(e) => Err(e)
      case Ok(_) =>
        if ForwardsByName(source, target[upTo - 1]) then Ok(())
        else Err("implicit forwarding would rename a param")
  }

  function ValidateExplicit(params: seq<BlockParam>, args: seq<BlockArg>): Result<()>
    requires |params| == |args|
  {
    if params == [] then Ok(())
    else if RoleCompatible(params[0], args[0]) then ValidateExplicit(params[1..], args[1..])
    else Err("edge arg does not fit the param's role")
  }

  // validate_edge_param_forwarding
  function ValidateEdge(source: seq<BlockParam>, target: seq<BlockParam>, args: seq<BlockArg>): Result<()> {
    if |args| > |target| then Err("too many explicit edge args")
    else
      var start := |target| - |args|;
      match ValidateForwarding(source, target, start)
      case Err(e) => Err(e)
      case Ok(_) => ValidateExplicit(target[start..], args)
  }

  lemma {:induction false} ValidateForwardingAccepts(source: seq<BlockParam>, target: seq<BlockParam>, upTo: nat)
    requires upTo <= |target|
    ensures ValidateForwarding(source, target, upTo).Ok? <==> forall i :: 0 <= i < upTo ==> ForwardsByName(source, target[i])
  {
    if upTo > 0 {
      ValidateForwardingAccepts(source, target, upTo - 1);
    }
  }

  lemma {:induction false} ValidateExplicitAccepts(params: seq<BlockParam>, args: seq<BlockArg>)
    requires |params| == |args|
    ensures ValidateExplicit(params, args).Ok? <==> forall i :: 0 <= i < |args| ==> RoleCompatible(params[i], args[i])
    decreases |args|
  {
    if params != [] {
      ValidateExplicitAccepts(params[1..], args[1..]);
      assert forall i :: 0 <= i < |args[1..]| ==> params[1..][i] == params[i + 1] && args[1..][i] == args[i + 1];
      if ValidateExplicit(params, args).Ok? {
        forall i | 0 < i < |args|
          ensures RoleCompatible(params[i], args[i])
        {
          assert RoleCompatible(params[1..][i - 1], args[1..][i - 1]);
        }
      }
    }
  }

  // What the validator accepts, by roles: where an implicitly forwarded param finds a source param of its role, the
  // first such has its name; an abrupt kind feeds only an abrupt-kind param, the current exception only an exception
  // param; a name or None feeds any.
  lemma ValidateEdgeAccepts(source: seq<BlockParam>, target: seq<BlockParam>, args: seq<BlockArg>)
    ensures ValidateEdge(source, target, args).Ok? <==>
              |args| <= |target| &&
              (forall i, j :: 0 <= i < |target| - |args| && FirstOfRole(source, target[i].role, j) ==>
                 source[j].name == target[i].name) &&
              (forall k :: 0 <= k < |args| && args[k].AbruptArg? ==> target[|target| - |args| + k].role == AbruptKindRole) &&
              (forall k :: 0 <= k < |args| && args[k].CurrentException? ==> target[|target| - |args| + k].role == ExceptionRole)
  {
    ValidateEdgeByParts(source, target, args);
    if |args| <= |target| {
      forall i | 0 <= i < |target| - |args|
        ensures ForwardsByName(source, target[i])
                <==> forall j :: FirstOfRole(source, target[i].role, j) ==> source[j].name == target[i].name
      {
        ForwardsExactly(source, target[i]);
      }
      RolesFitExactly(target, args);
      hide ValidateEdge, RoleCompatible, ForwardsByName;
    }
  }

  lemma ForwardsExactly(source: seq<BlockParam>, param: BlockParam)
    ensures ForwardsByName(source, param) <==> forall j :: FirstOfRole(source, param.role, j) ==> source[j].name == param.name
  {
    if FirstWithRole(source, param.role).Some? {
      var i :| FirstOfRole(source, param.role, i) && source[i] == FirstWithRole(source, param.role).value;
      assert forall j :: FirstOfRole(source, param.role, j) ==> j == i;
    }
  }

  lemma RolesFitExactly(target: seq<BlockParam>, args: seq<BlockArg>)
    requires |args| <= |target|
    ensures (forall k :: 0 <= k < |args| ==> RoleCompatible(target[|target| - |args| + k], args[k])) <==>
              (forall k :: 0 <= k < |args| && args[k].AbruptArg? ==> target[|target| - |args| + k].role == AbruptKindRole) &&
              (forall k :: 0 <= k < |args| && args[k].CurrentException? ==> target[|target| - |args| + k].role == ExceptionRole)
  {
    if forall k :: 0 <= k < |args| ==> RoleCompatible(target[|target| - |args| + k], args[k]) {
      forall k | 0 <= k < |args|
        ensures args[k].AbruptArg? ==> target[|target| - |args| + k].role == AbruptKindRole
        ensures args[k].CurrentException? ==> target[|target| - |args| + k].role == ExceptionRole
      {
        assert RoleCompatible(target[|target| - |args| + k], args[k]);
      }
    }
  }

  lemma ValidateEdgeByParts(source: seq<BlockParam>, target: seq<BlockParam>, args: seq<BlockArg>)
    ensures ValidateEdge(source, target, args).Ok? <==>
              |args| <= |target| &&
              (forall i :: 0 <= i < |target| - |args| ==> ForwardsByName(source, target[i])) &&
              (forall k :: 0 <= k < |args| ==> RoleCompatible(target[|target| - |args| + k], args[k]))
  {
    if |args| <= |target| {
      var start := |target| - |args|;
      ValidateForwardingAccepts(source, target, start);
      ValidateExplicitAccepts(target[start..], args);
      assert forall k :: 0 <= k < |args| ==> target[start..][k] == target[start + k];
    }
  }

  // Forwarded arguments are names or nothing, which fit any param.
  lemma ForwardedFit(source: seq<BlockParam>, args: seq<BlockArg>, target: seq<BlockParam>)
    requires |args| <= |target|
    ensures var out := ResolveArgs(source, args, target);
            |out| == |target| && forall j :: 0 <= j < |target| - |args| ==> RoleCompatible(target[j], out[j])
  {
  }

  lemma ResolvedValidates(source: seq<BlockParam>, args: seq<BlockArg>, target: seq<BlockParam>)
    requires |args| <= |target|
    ensures ValidateEdge(source, target, ResolveArgs(source, args, target)).Ok?
            <==> forall k :: 0 <= k < |args| ==> RoleCompatible(target[|target| - |args| + k], args[k])
  {
    hide RoleCompatible, ValidateEdge, ResolveArgs, ForwardsByName, HasName;
    var out, start := ResolveArgs(source, args, target), |target| - |args|;
    assert |out| == |target|;
    ValidateEdgeByParts(source, target, out);
    ResolvedFeedSameParams(source, args, target);
    ForwardedFit(source, args, target);
    if ValidateEdge(source, target, out).Ok? {
      forall k | 0 <= k < |args|
        ensures RoleCompatible(target[start + k], args[k])
      {
        assert RoleCompatible(target[|target| - |out| + (start + k)], out[start + k]);
      }
    } else {
      var j :| 0 <= j < |out| && !RoleCompatible(target[|target| - |out| + j], out[j]);
      assert j >= start;
      assert out[start + (j - start)] == args[j - start];
    }
  }

  // After the pass the validator accepts a jump exactly when the arguments it was written with fit their params.
  lemma PopulatedJumpValidates<I>(blocks: seq<Block<I>>, i: nat, target: seq<BlockParam>, args: seq<BlockArg>)
    requires i < |blocks| && blocks[i].term.Jump? && blocks[i].term.edge.target in Labels(blocks)
    requires target == blocks[Find(blocks, blocks[i].term.edge.target).value].params
    requires args == blocks[i].term.edge.args && |args| <= |target|
    ensures ValidateEdge(blocks[i].params, target, Populated(blocks)[i].term.edge.args).Ok? <==>
              (forall k :: 0 <= k < |args| && args[k].AbruptArg? ==> target[|target| - |args| + k].role == AbruptKindRole) &&
              (forall k :: 0 <= k < |args| && args[k].CurrentException? ==> target[|target| - |args| + k].role == ExceptionRole)
  {
    RolesFitExactly(target, args);
    ResolvedValidates(blocks[i].params, args, target);
    assert target == [] ==> args == ResolveArgs(blocks[i].params, args, target);
  }

  // A jump the validator accepts as written never passes a param under another name.
  lemma AcceptedForwardingKeepsNames(source: seq<BlockParam>, target: seq<BlockParam>, args: seq<BlockArg>, i: nat)
    requires ValidateEdge(source, target, args).Ok? && i < |target| - |args|
    ensures ResolveArgs(source, args, target)[i] in {NameArg(target[i].name), NoneArg}
  {
    ValidateEdgeByParts(source, target, args);
    assert ForwardsByName(source, target[i]);
  }
}
