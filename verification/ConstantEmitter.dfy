/** What the code generator looks up in the constant pool while it emits a function; a lookup that fails is a panic
    (`soac-eval/src/jit/mod.rs`, `soac-eval/src/jit/intrinsics.rs`). */
module ConstantEmitter {
  import opened Prelude
  import opened ModuleConstants

  datatype PoolValue =
    | Unicode(text: Text)
    | Bytes(text: Text)
    | Int(value: int)
    | BigInt(text: Text)
    | FloatBits(bits: nat)
    | RuntimeNameValue(text: Text)

  datatype Pool = Pool(values: seq<PoolValue>, ids: map<PoolValue, nat>)

  // ---- Code ----------------------------------------------------------------

  // A call's children are its callable, its arguments and its keyword values; an attribute access's are the
  // object, the attribute and, when setting, the value.
  datatype Op =
    | StoreOp(id: Text, location: Location)
    | DelOp(id: Text, location: Location)
    | CallOp(argCount: nat, keywords: seq<Option<Text>>)
    | CallDirectOp(argCount: nat, keywords: seq<Option<Text>>)
    | GetAttrOp
    | SetAttrOp
    | OtherOp(tag: nat)

  // Where control goes from a block: the arguments of a jump may name abrupt kinds, other terminators evaluate
  // at most one expression.
  datatype Exit = JumpExit(kinds: seq<AbruptKind>) | ValueExit(value: Expr<Op>) | BareExit

  datatype AbruptKind = Fallthrough | Return | Exception | Break | Continue

  datatype CodeBlock = CodeBlock(body: seq<Expr<Op>>, exit: Exit)

  // A function to emit: the names of its params with defaults, and its blocks.
  datatype Code = Code(defaults: seq<Text>, blocks: seq<CodeBlock>)

  // `x` is the expression or a part of it, at any depth.
  ghost predicate Within(e: Expr<Op>, x: Expr<Op>)
    decreases e
  {
    e == x || (e.Node? && exists c :: c in e.children && Within(c, x))
  }

  // ---- Lookups -------------------------------------------------------------

  // The expression names a helper, directly or through a pooled runtime name.
  predicate IsHelper(p: Pool, e: Expr<Op>, name: Text) {
    && e.Load?
    && (match e.location
        case RuntimeName => e.id == name
        case Global(_) => e.id == name
        case Constant(i) => i < |p.values| && p.values[i] == RuntimeNameValue(name)
        case Local => false)
  }

  // The expression is a pooled text, possibly passed through `str`.
  predicate Spells(p: Pool, e: Expr<Op>, t: Text)
    decreases e
  {
    match e
    case Load(_, Constant(i)) => i < |p.values| && p.values[i] in {Unicode(t), Bytes(t)}
    case Node(CallOp(argCount, keywords), children) =>
      argCount == 1 && keywords == [] && |children| > 1 && IsHelper(p, children[0], "str") && Spells(p, children[1], t)
    case _ => false
  }

  // A call of the deleted-name helper for this name.
  predicate NamesDeleted(p: Pool, x: Expr<Op>, t: Text) {
    && x.Node? && x.op.CallOp? && x.op.argCount == 2 && |x.children| > 1
    && IsHelper(p, x.children[0], "load_deleted_name") && Spells(p, x.children[1], t)
  }

  // Emitting the node itself looks up this text.
  ghost predicate LooksUp(p: Pool, x: Expr<Op>, t: Text) {
    match x
    case Load(id, location) => (location.Global? || location.RuntimeName?) && t == id
    case Node(StoreOp(id, location), _) => location.Global? && t == id
    case Node(DelOp(id, location), _) => location.Global? && t == id
    case Node(CallOp(argCount, keywords), children) =>
      || Some(t) in keywords
      || Spells(p, x, t)
      || (keywords == [] && NamesDeleted(p, x, t))
    case Node(CallDirectOp(_, keywords), _) => Some(t) in keywords
    case Node(GetAttrOp, children) => |children| > 1 && Spells(p, children[1], t)
    case Node(SetAttrOp, children) => |children| > 1 && Spells(p, children[1], t)
    case _ => false
  }

  // Emitting the expression looks up this text.
  ghost predicate Asks(p: Pool, e: Expr<Op>, t: Text) {
    exists x :: Within(e, x) && LooksUp(p, x, t)
  }

  // Emitting the block looks up this value; an abrupt kind is looked up as its number.
  ghost predicate BlockAsks(p: Pool, b: CodeBlock, v: PoolValue) {
    || (v.Unicode? && exists e :: e in b.body && Asks(p, e, v.text))
    || (match b.exit
        case ValueExit(value) => v.Unicode? && Asks(p, value, v.text)
        case JumpExit(kinds) =>
          || (v == Int(0) && Fallthrough in kinds) || (v == Int(1) && Return in kinds) || (v == Int(2) && Exception in kinds)
          || (v == Int(3) && Break in kinds) || (v == Int(4) && Continue in kinds)
        case BareExit => false)
  }

  // Emitting the function looks up this value: for a param's default, for a block, or for the helpers that calls with
  // unpacked arguments and raises go through.
  ghost predicate CodeAsks(p: Pool, f: Code, v: PoolValue) {
    || (v.Unicode? && v.text in f.defaults)
    || (exists b :: b in f.blocks && BlockAsks(p, b, v))
    || v in {Unicode("dict"), Unicode("list"), Unicode("append"), Unicode("extend"), Unicode("update"),
             Unicode("tuple_from_iter"), Unicode("raise_from")}
  }

  // ---- Deleted names -------------------------------------------------------

  // Some part of the expression is a call of the deleted-name helper for this name.
  ghost predicate MentionsDeleted(p: Pool, e: Expr<Op>, t: Text) {
    exists x :: Within(e, x) && NamesDeleted(p, x, t)
  }

  ghost predicate BlockMentionsDeleted(p: Pool, b: CodeBlock, t: Text) {
    || (exists e :: e in b.body && MentionsDeleted(p, e, t))
    || (b.exit.ValueExit? && MentionsDeleted(p, b.exit.value, t))
  }

  ghost predicate CodeMentionsDeleted(p: Pool, f: Code, t: Text) {
    exists b :: b in f.blocks && BlockMentionsDeleted(p, b, t)
  }
}
