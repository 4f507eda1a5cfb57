/** Constants moved out of bodies and pooled for code generation
    (`soac-blockpy/src/passes/name_binding.rs`, `soac-eval/src/module_constants.rs`). */
module ModuleConstants {
  type Text = string

  const MAX_I64: nat := 0x7FFF_FFFF_FFFF_FFFF

  // Integer literals are at most an unsigned word, or kept as source text.
  datatype IntLiteral = Word(value: nat) | Source(text: Text)

  datatype Literal = StringLiteral(utf8: Text) | BytesLiteral(bytes: Text) | IntegerLiteral(integer: IntLiteral) | FloatLiteral(bits: nat)

  datatype Location = RuntimeName | Global(slot: nat) | Constant(index: nat) | Local

  datatype Expr<+O> =
    | Lit(literal: Literal)
    | Load(id: Text, location: Location)
    | Node(op: O, children: seq<Expr<O>>)

  // ---- Meaning -------------------------------------------------------------

  datatype Outcome<+S, +V> = Value(state: S, value: V) | Raised(exc: S)

  datatype Outcomes<+S, +V> = Values(state: S, values: seq<V>) | Stopped(exc: S)

  // What expressions mean: literals and runtime names have fixed values, other loads read the state,
  // and a node combines its children's values, evaluated left to right.
  datatype Sem<!O, !S, !V> = Sem(
    str: Text -> V,
    bytes: Text -> V,
    integer: int -> V,
    intOfText: Text -> int,
    float: nat -> V,
    runtime: Text -> V,
    load: (Text, Location, S) -> Outcome<S, V>,
    node: (O, seq<V>, S) -> Outcome<S, V>)

  function LiteralValue<O, S, V>(m: Sem<O, S, V>, l: Literal): V {
    match l
    case StringLiteral(s) => m.str(s)
    case BytesLiteral(b) => m.bytes(b)
    case IntegerLiteral(Word(n)) => m.integer(n)
    case IntegerLiteral(Source(t)) => m.integer(m.intOfText(t))
    case FloatLiteral(b) => m.float(b)
  }

  function Eval<O, S, V>(m: Sem<O, S, V>, pool: seq<V>, e: Expr<O>, s: S): Outcome<S, V>
    decreases e
  {
    match e
    case Lit(l) => Value(s, LiteralValue(m, l))
    case Load(id, RuntimeName) => Value(s, m.runtime(id))
    case Load(id, Constant(i)) => if i < |pool| then Value(s, pool[i]) else m.load(id, Constant(i), s)
    case Load(id, location) => m.load(id, location, s)
    case Node(op, children) =>
      match EvalAll(m, pool, children, s)
      case Values(s2, values) => m.node(op, values, s2)
      case Stopped(s2) => Raised(s2)
  }

  function EvalAll<O, S, V>(m: Sem<O, S, V>, pool: seq<V>, es: seq<Expr<O>>, s: S): Outcomes<S, V>
    decreases es
  {
    if es == [] then Values(s, [])
    else match Eval(m, pool, es[0], s)
      case Raised(s2) => Stopped(s2)
      case Value(s2, v) =>
        match EvalAll(m, pool, es[1..], s2)
        case Stopped(s3) => Stopped(s3)
        case Values(s3, vs) => Values(s3, [v] + vs)
  }

  // ---- Extraction ----------------------------------------------------------

  predicate IsConstant<O>(e: Expr<O>) {
    e.Lit? || (e.Load? && e.location.RuntimeName?)
  }

  // The rewritten expression and the constants moved out of it, numbered from `next`.
  function Extracted<O>(e: Expr<O>, next: nat): (Expr<O>, seq<Expr<O>>)
    decreases e
  {
    if IsConstant(e) then (Load("", Constant(next)), [e])
    else match e
      case Node(op, children) =>
        var (out, moved) := ExtractedAll(children, next);
        (Node(op, out), moved)
      case _ => (e, [])
  }

  function ExtractedAll<O>(es: seq<Expr<O>>, next: nat): (r: (seq<Expr<O>>, seq<Expr<O>>))
    ensures |r.0| == |es|
    decreases es
  {
    if es == [] then ([], [])
    else
      var (first, moved) := Extracted(es[0], next);
      var (rest, more) := ExtractedAll(es[1..], next + |moved|);
      ([first] + rest, moved + more)
  }

  class ModuleConstantExtractor<O> {
    var constants: seq<Expr<O>>

    constructor ()
      ensures constants == []
    {
      constants := [];
    }

    method ExtractExpr(e: Expr<O>) returns (out: Expr<O>)
      modifies this
      ensures var (result, moved) := Extracted(e, |old(constants)|);
              out == result && constants == old(constants) + moved
      decreases e
    {
      if IsConstant(e) {
        out := Load("", Constant(|constants|));
        constants := constants + [e];
        return;
      }
      out := e;
      if e.Node? {
        var children := ExtractAll(e.children);
        out := Node(e.op, children);
      }
    }

    // Bodies and terminators, in the order they are visited.
    method ExtractAll(es: seq<Expr<O>>) returns (out: seq<Expr<O>>)
      modifies this
      ensures var (result, moved) := ExtractedAll(es, |old(constants)|);
              out == result && constants == old(constants) + moved
      decreases es
    {
      if es == [] {
        return [];
      }
      var first := ExtractExpr(es[0]);
      var rest := ExtractAll(es[1..]);
      out := [first] + rest;
    }
  }

  // No literal and no load of a runtime name is left, at any depth.
  ghost predicate NothingLeft<O>(e: Expr<O>)
    decreases e
  {
    match e
    case Lit(_) => false
    case Load(_, location) => !location.RuntimeName?
    case Node(_, children) => forall c :: c in children ==> NothingLeft(c)
  }

  // No constant was extracted before.
  ghost predicate Unextracted<O>(e: Expr<O>)
    decreases e
  {
    && (e.Load? ==> !e.location.Constant?)
    && (e.Node? ==> forall c :: c in e.children ==> Unextracted(c))
  }

  lemma {:induction false} ExtractionLeavesNothing<O>(e: Expr<O>, next: nat)
    ensures NothingLeft(Extracted(e, next).0)
    ensures forall c :: c in Extracted(e, next).1 ==> c.Lit? || (c.Load? && c.location.RuntimeName?)
    decreases e
  {
    if !IsConstant(e) && e.Node? {
      AllLeaveNothing(e.children, next);
    }
  }

  lemma {:induction false} AllLeaveNothing<O>(es: seq<Expr<O>>, next: nat)
    ensures forall c :: c in ExtractedAll(es, next).0 ==> NothingLeft(c)
    ensures forall c :: c in ExtractedAll(es, next).1 ==> IsConstant(c)
    decreases es
  {
    if es != [] {
      ExtractionLeavesNothing(es[0], next);
      AllLeaveNothing(es[1..], next + |Extracted(es[0], next).1|);
    }
  }

  // The value of a moved expression.
  function ConstantValue<O, S, V>(m: Sem<O, S, V>, e: Expr<O>): V
    requires IsConstant(e)
  {
    if e.Lit? then LiteralValue(m, e.literal) else m.runtime(e.id)
  }

  // From `next` on the pool holds the values of the moved constants.
  ghost predicate Holds<O, S, V(!new)>(m: Sem<O, S, V>, pool: seq<V>, next: nat, moved: seq<Expr<O>>) {
    && next + |moved| <= |pool|
    && forall k :: 0 <= k < |moved| ==> IsConstant(moved[k]) && pool[next + k] == ConstantValue(m, moved[k])
  }

  lemma {:induction false} ExtractionPreservesMeaning<O, S, V(!new)>(m: Sem<O, S, V>, pool: seq<V>, e: Expr<O>, next: nat, s: S)
    requires Unextracted(e) && Holds(m, pool, next, Extracted(e, next).1)
    ensures Eval(m, pool, Extracted(e, next).0, s) == Eval(m, [], e, s)
    decreases e
  {
    if IsConstant(e) {
      assert Extracted(e, next).1[0] == e;
    } else if e.Node? {
      AllPreserveMeaning(m, pool, e.children, next, s);
    }
  }

  lemma {:induction false} AllPreserveMeaning<O, S, V(!new)>(m: Sem<O, S, V>, pool: seq<V>, es: seq<Expr<O>>, next: nat, s: S)
    requires forall e :: e in es ==> Unextracted(e)
    requires Holds(m, pool, next, ExtractedAll(es, next).1)
    ensures EvalAll(m, pool, ExtractedAll(es, next).0, s) == EvalAll(m, [], es, s)
    decreases es
  {
    if es != [] {
      var (first, moved) := Extracted(es[0], next);
      var (rest, more) := ExtractedAll(es[1..], next + |moved|);
      HoldsParts(m, pool, next, moved, more);
      ExtractionPreservesMeaning(m, pool, es[0], next, s);
      var o := Eval(m, [], es[0], s);
      if o.Value? {
        AllPreserveMeaning(m, pool, es[1..], next + |moved|, o.state);
      }
      assert ([first] + rest)[1..] == rest;
    }
  }

  lemma HoldsParts<O, S, V(!new)>(m: Sem<O, S, V>, pool: seq<V>, next: nat, a: seq<Expr<O>>, b: seq<Expr<O>>)
    requires Holds(m, pool, next, a + b)
    ensures Holds(m, pool, next, a) && Holds(m, pool, next + |a|, b)
  {
    forall k | 0 <= k < |a|
      ensures IsConstant(a[k]) && pool[next + k] == ConstantValue(m, a[k])
    {
      assert (a + b)[k] == a[k];
    }
    forall k | 0 <= k < |b|
      ensures IsConstant(b[k]) && pool[next + |a| + k] == ConstantValue(m, b[k])
    {
      assert (a + b)[|a| + k] == b[k];
    }
  }
}
