/** The code generator's constant pool (`soac-eval/src/module_constants.rs`). */
module ConstantPool {
  import opened Prelude
  import opened ModuleConstants
  import opened ConstantEmitter

  const DIGITS := "0123456789"

  function Decimal(n: nat): Text {
    if n < 10 then [DIGITS[n]] else Decimal(n / 10) + [DIGITS[n % 10]]
  }

  // The pool entry of an explicit constant; anything but a literal or a runtime name is a panic.
  function PoolValueOf<O>(e: Expr<O>): Option<PoolValue> {
    match e
    case Lit(StringLiteral(s)) => Some(Unicode(s))
    case Lit(BytesLiteral(b)) => Some(Bytes(b))
    case Lit(IntegerLiteral(Word(n))) => Some(if n <= MAX_I64 then Int(n) else BigInt(Decimal(n)))
    case Lit(IntegerLiteral(Source(t))) => Some(BigInt(t))
    case Lit(FloatLiteral(b)) => Some(FloatBits(b))
    case Load(id, RuntimeName) => Some(RuntimeNameValue(id))
    case _ => None
  }

  // What the entry is built into.
  function ObjectOf<O, S, V>(m: Sem<O, S, V>, v: PoolValue): V {
    match v
    case Unicode(t) => m.str(t)
    case Bytes(t) => m.bytes(t)
    case Int(n) => m.integer(n)
    case BigInt(t) => m.integer(m.intOfText(t))
    case FloatBits(b) => m.float(b)
    case RuntimeNameValue(t) => m.runtime(t)
  }

  // Decimal digits, with no zero in front of another.
  predicate IsNumeral(t: Text) {
    t != [] && (forall c :: c in t ==> '0' <= c <= '9') && (|t| > 1 ==> t[0] != '0')
  }

  function NumeralValue(t: Text): int {
    if t == [] then 0 else 10 * NumeralValue(t[..|t| - 1]) + (t[|t| - 1] as int - '0' as int)
  }

  // Reading a decimal numeral gives its value.
  ghost predicate ReadsDecimals<O, S, V>(m: Sem<O, S, V>) {
    forall t :: IsNumeral(t) ==> m.intOfText(t) == NumeralValue(t)
  }

  lemma {:induction false} DecimalIsNumeral(n: nat)
    ensures IsNumeral(Decimal(n)) && NumeralValue(Decimal(n)) == n
    ensures n > 0 ==> Decimal(n)[0] != '0'
  {
    DigitIsNumeral(n % 10);
    if n >= 10 {
      DecimalIsNumeral(n / 10);
      assert Decimal(n)[..|Decimal(n)| - 1] == Decimal(n / 10);
    } else {
      assert NumeralValue([DIGITS[n]]) == 10 * NumeralValue([]) + n;
    }
  }

  lemma DigitIsNumeral(d: nat)
    requires d < 10
    ensures '0' <= DIGITS[d] <= '9' && DIGITS[d] as int - '0' as int == d
  {
  }

  // An integer that fits a signed word is kept as one, a larger one as its numeral.
  lemma IntegerEntry<O>(n: nat)
    ensures PoolValueOf<O>(Lit(IntegerLiteral(Word(n)))).Some?
    ensures var v := PoolValueOf<O>(Lit(IntegerLiteral(Word(n)))).value;
            if n <= 9_223_372_036_854_775_807 then v == Int(n) else v.BigInt? && IsNumeral(v.text) && NumeralValue(v.text) == n
  {
    DecimalIsNumeral(n);
  }

  lemma EntryKeepsValue<O, S, V>(m: Sem<O, S, V>, e: Expr<O>)
    requires IsConstant(e) && ReadsDecimals(m)
    ensures PoolValueOf(e).Some? && ObjectOf(m, PoolValueOf(e).value) == ConstantValue(m, e)
  {
    match e
    case Lit(IntegerLiteral(Word(n))) => DecimalIsNumeral(n);
    case _ =>
  }

  // ---- The pool ------------------------------------------------------------

  // Every value has an id, and an id leads back to its value.
  ghost predicate Consistent(p: Pool) {
    && (forall v :: v in p.ids ==> p.ids[v] < |p.values| && p.values[p.ids[v]] == v)
    && forall v :: v in p.values ==> v in p.ids
  }

  // The pool grew: values and issued ids stay as they were.
  ghost predicate Grew(a: Pool, b: Pool) {
    && a.values <= b.values
    && forall v :: v in a.ids ==> v in b.ids && b.ids[v] == a.ids[v]
  }

  lemma GrewTwice(a: Pool, b: Pool, c: Pool)
    requires Grew(a, b) && Grew(b, c)
    ensures Grew(a, c)
  {
  }

  // ---- What the emitter asks for -------------------------------------------

  // The name of a global or runtime object.
  function OwnName(e: Expr<Op>): Option<Text> {
    match e
    case Load(id, RuntimeName) => Some(id)
    case Load(id, Global(_)) => Some(id)
    case Node(StoreOp(id, Global(_)), _) => Some(id)
    case Node(DelOp(id, Global(_)), _) => Some(id)
    case _ => None
  }

  // The helper an expression names, directly or through a pooled runtime name.
  function HelperName(p: Pool, e: Expr<Op>): Option<Text> {
    match e
    case Load(id, RuntimeName) => Some(id)
    case Load(id, Global(_)) => Some(id)
    case Load(_, Constant(i)) => if i < |p.values| && p.values[i].RuntimeNameValue? then Some(p.values[i].text) else None
    case _ => None
  }

  // The text of a pooled string or bytes constant, possibly passed through `str`.
  function StringText(p: Pool, e: Expr<Op>): Option<Text>
    decreases e
  {
    match e
    case Load(_, Constant(i)) =>
      if i < |p.values| && (p.values[i].Unicode? || p.values[i].Bytes?) then Some(p.values[i].text) else None
    case Node(CallOp(argCount, keywords), children) =>
      if |children| > 1 && HelperName(p, children[0]) == Some("str") && argCount == 1 && keywords == []
      then StringText(p, children[1]) else None
    case _ => None
  }

  function OptText(t: Option<Text>): seq<Text> {
    if t.Some? then [t.value] else []
  }

  function KeywordNames(keywords: seq<Option<Text>>): seq<Text> {
    if keywords == [] then [] else OptText(keywords[0]) + KeywordNames(keywords[1..])
  }

  // The name a call of the deleted-name helper is given.
  function DeletedName(p: Pool, argCount: nat, children: seq<Expr<Op>>): Option<Text> {
    if |children| > 1 && HelperName(p, children[0]) == Some("load_deleted_name") && argCount == 2
    then StringText(p, children[1]) else None
  }

  // The texts interned for one node beside its own name.
  function NodeTexts(p: Pool, e: Expr<Op>): seq<Text> {
    match e
    case Node(CallOp(argCount, keywords), children) =>
      OptText(StringText(p, e)) + OptText(DeletedName(p, argCount, children)) + KeywordNames(keywords)
    case Node(CallDirectOp(_, keywords), _) => KeywordNames(keywords)
    case Node(GetAttrOp, children) => if |children| > 1 then OptText(StringText(p, children[1])) else []
    case Node(SetAttrOp, children) => if |children| > 1 then OptText(StringText(p, children[1])) else []
    case _ => []
  }

  // The texts the emitter asks for anywhere in an expression, given the pool.
  ghost predicate Needs(p: Pool, e: Expr<Op>, t: Text)
    decreases e
  {
    OwnName(e) == Some(t) || t in NodeTexts(p, e) || (e.Node? && exists c :: c in e.children && Needs(p, c, t))
  }

  // A pool that grew answers as before where it had an answer.
  lemma {:induction false} StringTextGrew(a: Pool, b: Pool, e: Expr<Op>)
    requires a.values <= b.values
    ensures StringText(a, e).Some? ==> StringText(b, e) == StringText(a, e)
    decreases e
  {
    match e
    case Node(CallOp(argCount, keywords), children) =>
      if |children| > 1 {
        StringTextGrew(a, b, children[1]);
      }
    case _ =>
  }

  lemma NodeTextsGrew(a: Pool, b: Pool, e: Expr<Op>, t: Text)
    requires a.values <= b.values && t in NodeTexts(a, e)
    ensures t in NodeTexts(b, e)
  {
    StringTextGrew(a, b, e);
    if e.Node? && |e.children| > 1 {
      StringTextGrew(a, b, e.children[1]);
    }
    hide StringText, KeywordNames;
  }

  lemma {:induction false} NeedsGrew(a: Pool, b: Pool, e: Expr<Op>, t: Text)
    requires a.values <= b.values && Needs(a, e, t)
    ensures Needs(b, e, t)
    decreases e
  {
    hide NodeTexts;
    if t in NodeTexts(a, e) {
      NodeTextsGrew(a, b, e, t);
    } else if OwnName(e) != Some(t) {
      var c :| c in e.children && Needs(a, c, t);
      NeedsGrew(a, b, c, t);
    }
  }

  // Every constant the expression reads is among the first `n`.
  ghost predicate ConstantsBelow<O>(e: Expr<O>, n: nat)
    decreases e
  {
    && (e.Load? && e.location.Constant? ==> e.location.index < n)
    && (e.Node? ==> forall c :: c in e.children ==> ConstantsBelow(c, n))
  }

  // Then what it needs is settled once those are in the pool.
  lemma {:induction false} StringTextSettled(a: Pool, b: Pool, e: Expr<Op>)
    requires a.values <= b.values && ConstantsBelow(e, |a.values|)
    ensures StringText(b, e) == StringText(a, e) && HelperName(b, e) == HelperName(a, e)
    decreases e
  {
    match e
    case Node(CallOp(argCount, keywords), children) =>
      if |children| > 1 {
        assert children[0] in e.children && children[1] in e.children;
        StringTextSettled(a, b, children[0]);
        StringTextSettled(a, b, children[1]);
      }
    case _ =>
  }

  lemma NodeTextsSettled(a: Pool, b: Pool, e: Expr<Op>)
    requires a.values <= b.values && ConstantsBelow(e, |a.values|)
    ensures NodeTexts(b, e) == NodeTexts(a, e)
  {
    StringTextSettled(a, b, e);
    if e.Node? && |e.children| > 1 {
      assert e.children[0] in e.children && e.children[1] in e.children;
      StringTextSettled(a, b, e.children[0]);
      StringTextSettled(a, b, e.children[1]);
    }
    hide StringText, HelperName, KeywordNames, ConstantsBelow;
  }

  lemma {:induction false} NeedsSettled(a: Pool, b: Pool, e: Expr<Op>, t: Text)
    requires a.values <= b.values && ConstantsBelow(e, |a.values|) && Needs(b, e, t)
    ensures Needs(a, e, t)
    decreases e
  {
    hide NodeTexts;
    NodeTextsSettled(a, b, e);
    if OwnName(e) != Some(t) && t !in NodeTexts(b, e) {
      var c :| c in e.children && Needs(b, c, t);
      NeedsSettled(a, b, c, t);
    }
  }

  function AbruptTag(kind: AbruptKind): int {
    match kind
    case Fallthrough => 0
    case Return => 1
    case Exception => 2
    case Break => 3
    case Continue => 4
  }

  ghost predicate BlockNeeds(p: Pool, b: CodeBlock, v: PoolValue) {
    || (exists e, t :: e in b.body && Needs(p, e, t) && v == Unicode(t))
    || (b.exit.ValueExit? && exists t :: Needs(p, b.exit.value, t) && v == Unicode(t))
    || (b.exit.JumpExit? && exists k :: k in b.exit.kinds && v == Int(AbruptTag(k)))
  }

  // Everything the emitter asks for while emitting a function.
  ghost predicate CodeNeeds(p: Pool, f: Code, v: PoolValue) {
    || (v.Unicode? && v.text in f.defaults)
    || exists b :: b in f.blocks && BlockNeeds(p, b, v)
  }

  ghost predicate BlockConstantsBelow(b: CodeBlock, n: nat) {
    && (forall e :: e in b.body ==> ConstantsBelow(e, n))
    && (b.exit.ValueExit? ==> ConstantsBelow(b.exit.value, n))
  }

  lemma BlockNeedsSettled(a: Pool, b: Pool, block: CodeBlock, v: PoolValue)
    requires a.values <= b.values && BlockConstantsBelow(block, |a.values|) && BlockNeeds(b, block, v)
    ensures BlockNeeds(a, block, v)
  {
    hide Needs, ConstantsBelow;
    if e, t :| e in block.body && Needs(b, e, t) && v == Unicode(t) {
      NeedsSettled(a, b, e, t);
    } else if block.exit.ValueExit? {
      var t :| Needs(b, block.exit.value, t) && v == Unicode(t);
      NeedsSettled(a, b, block.exit.value, t);
    }
  }

  lemma BlockNeedsGrew(a: Pool, b: Pool, block: CodeBlock, v: PoolValue)
    requires a.values <= b.values && BlockNeeds(a, block, v)
    ensures BlockNeeds(b, block, v)
  {
    hide Needs;
    if e, t :| e in block.body && Needs(a, e, t) && v == Unicode(t) {
      NeedsGrew(a, b, e, t);
    } else if block.exit.ValueExit? {
      var t :| Needs(a, block.exit.value, t) && v == Unicode(t);
      NeedsGrew(a, b, block.exit.value, t);
    }
  }

  // ---- The collector meets the emitter -------------------------------------

  lemma HelperMet(p: Pool, e: Expr<Op>, name: Text)
    ensures IsHelper(p, e, name) <==> HelperName(p, e) == Some(name)
  {
  }

  lemma {:induction false} SpellingMet(p: Pool, e: Expr<Op>, t: Text)
    ensures Spells(p, e, t) <==> StringText(p, e) == Some(t)
    decreases e
  {
    if e.Node? && e.op.CallOp? && |e.children| > 1 {
      HelperMet(p, e.children[0], "str");
      SpellingMet(p, e.children[1], t);
    }
  }

  lemma {:induction false} KeywordMet(keywords: seq<Option<Text>>, t: Text)
    ensures Some(t) in keywords <==> t in KeywordNames(keywords)
  {
    if keywords != [] {
      assert keywords == [keywords[0]] + keywords[1..];
      KeywordMet(keywords[1..], t);
    }
  }

  // What is collected at a node is what emitting it looks up, and the name in every call of the deleted-name helper, which
  // with keywords the emitter does not treat specially.
  lemma LookupMet(p: Pool, x: Expr<Op>, t: Text)
    ensures OwnName(x) == Some(t) || t in NodeTexts(p, x) <==> LooksUp(p, x, t) || NamesDeleted(p, x, t)
  {
    hide Spells, StringText, KeywordNames, IsHelper, HelperName;
    match x
    case Node(CallOp(argCount, keywords), children) =>
      KeywordMet(keywords, t);
      SpellingMet(p, x, t);
      if |children| > 1 {
        HelperMet(p, children[0], "load_deleted_name");
        SpellingMet(p, children[1], t);
      }
    case Node(CallDirectOp(_, keywords), _) => KeywordMet(keywords, t);
    case Node(GetAttrOp, children) =>
      if |children| > 1 {
        SpellingMet(p, children[1], t);
      }
    case Node(SetAttrOp, children) =>
      if |children| > 1 {
        SpellingMet(p, children[1], t);
      }
    case _ =>
  }

  lemma {:induction false} AskMet(p: Pool, e: Expr<Op>, x: Expr<Op>, t: Text)
    requires Within(e, x) && (LooksUp(p, x, t) || NamesDeleted(p, x, t))
    ensures Needs(p, e, t)
    decreases e
  {
    hide LooksUp, NamesDeleted, NodeTexts, OwnName;
    if e == x {
      LookupMet(p, x, t);
    } else {
      var c :| c in e.children && Within(c, x);
      AskMet(p, c, x, t);
    }
  }

  lemma AsksMet(p: Pool, e: Expr<Op>, t: Text)
    requires Asks(p, e, t)
    ensures Needs(p, e, t)
  {
    var x :| Within(e, x) && LooksUp(p, x, t);
    AskMet(p, e, x, t);
  }

  lemma {:induction false} NeededAt(p: Pool, e: Expr<Op>, t: Text) returns (x: Expr<Op>)
    requires Needs(p, e, t)
    ensures Within(e, x) && (LooksUp(p, x, t) || NamesDeleted(p, x, t))
    decreases e
  {
    hide LooksUp, NamesDeleted, NodeTexts, OwnName;
    LookupMet(p, e, t);
    x := e;
    if !(LooksUp(p, e, t) || NamesDeleted(p, e, t)) {
      var c :| c in e.children && Needs(p, c, t);
      x := NeededAt(p, c, t);
    }
  }

  // Nothing is collected that no part of the expression asks for, deleted names aside.
  lemma NeedIsAsked(p: Pool, e: Expr<Op>, t: Text)
    requires Needs(p, e, t)
    ensures Asks(p, e, t) || MentionsDeleted(p, e, t)
  {
    hide LooksUp, NamesDeleted, Needs;
    var x := NeededAt(p, e, t);
  }

  lemma BlockNeedIsAsked(p: Pool, b: CodeBlock, v: PoolValue)
    requires BlockNeeds(p, b, v)
    ensures BlockAsks(p, b, v) || (v.Unicode? && BlockMentionsDeleted(p, b, v.text))
  {
    hide Asks, MentionsDeleted, Needs;
    if e, t :| e in b.body && Needs(p, e, t) && v == Unicode(t) {
      NeedIsAsked(p, e, t);
    } else if b.exit.ValueExit? {
      var t :| Needs(p, b.exit.value, t) && v == Unicode(t);
      NeedIsAsked(p, b.exit.value, t);
    }
  }

  lemma CodeNeedIsAsked(p: Pool, f: Code, v: PoolValue)
    requires CodeNeeds(p, f, v)
    ensures CodeAsks(p, f, v) || (v.Unicode? && CodeMentionsDeleted(p, f, v.text))
  {
    hide BlockAsks, BlockMentionsDeleted, BlockNeeds;
    if b :| b in f.blocks && BlockNeeds(p, b, v) {
      BlockNeedIsAsked(p, b, v);
    }
  }

  lemma BlockAsksMet(p: Pool, b: CodeBlock, v: PoolValue)
    requires BlockAsks(p, b, v)
    ensures BlockNeeds(p, b, v)
  {
    hide Asks, Needs;
    if e :| v.Unicode? && e in b.body && Asks(p, e, v.text) {
      AsksMet(p, e, v.text);
    } else if b.exit.ValueExit? {
      AsksMet(p, b.exit.value, v.text);
    } else {
      assert AbruptTag(Fallthrough) == 0 && AbruptTag(Return) == 1 && AbruptTag(Exception) == 2;
      assert AbruptTag(Break) == 3 && AbruptTag(Continue) == 4;
    }
  }

  lemma CodeAsksMet(p: Pool, f: Code, v: PoolValue)
    requires CodeAsks(p, f, v)
    ensures CodeNeeds(p, f, v) || (v.Unicode? && v.text in ALWAYS_REQUIRED)
  {
    hide BlockAsks, BlockNeeds;
    if b :| b in f.blocks && BlockAsks(p, b, v) {
      BlockAsksMet(p, b, v);
    } else if !(v.Unicode? && v.text in f.defaults) {
      AlwaysRequired();
    }
  }

  lemma AlwaysRequired()
    ensures forall t :: t in ALWAYS_REQUIRED <==> t in {"dict", "list", "append", "extend", "update", "tuple_from_iter", "raise_from"}
  {
    var a := ALWAYS_REQUIRED;
    assert a[0] == "dict" && a[1] == "list" && a[2] == "raise_from" && a[3] == "tuple_from_iter";
    assert a[4] == "append" && a[5] == "extend" && a[6] == "update";
  }

  class ConstantCollector {
    var values: seq<PoolValue>
    var ids: map<PoolValue, nat>

    function View(): Pool
      reads this
    {
      Pool(values, ids)
    }

    ghost predicate Valid()
      reads this
    {
      Consistent(View())
    }

    constructor ()
      ensures Valid() && values == []
    {
      values, ids := [], map[];
    }

    // An explicit constant takes the next place even when its value is already pooled; the id issued
    // first stays.
    method PushExplicit<O>(e: Expr<O>) returns (id: Option<nat>)
      requires Valid()
      modifies this
      ensures Valid() && Grew(old(View()), View())
      ensures id.None? <==> !IsConstant(e)
      ensures id.None? ==> View() == old(View())
      ensures id.Some? ==> id.value == |old(values)| && values == old(values) + [PoolValueOf(e).value]
    {
      var value := PoolValueOf(e);
      if value.None? {
        return None;
      }
      id := Some(|values|);
      if value.value !in ids {
        ids := ids[value.value := |values|];
      }
      values := values + [value.value];
    }

    method Intern(v: PoolValue) returns (id: nat)
      requires Valid()
      modifies this
      ensures Valid() && Grew(old(View()), View())
      ensures v in ids && ids[v] == id
      ensures values == if v in old(ids) then old(values) else old(values) + [v]
      ensures ids.Keys == old(ids).Keys + {v}
    {
      if v in ids {
        return ids[v];
      }
      id := |values|;
      ids := ids[v := id];
      values := values + [v];
    }

    method InternTexts(texts: seq<Text>)
      requires Valid()
      modifies this
      ensures Valid() && Grew(old(View()), View())
      ensures forall t :: t in texts ==> Unicode(t) in ids
      ensures forall v :: v in ids ==> v in old(ids) || (v.Unicode? && v.text in texts)
    {
      for i := 0 to |texts|
        invariant Valid() && Grew(old(View()), View())
        invariant forall k :: 0 <= k < i ==> Unicode(texts[k]) in ids
        invariant forall v :: v in ids ==> v in old(ids) || (v.Unicode? && v.text in texts)
      {
        ghost var before := View();
        var id := Intern(Unicode(texts[i]));
        GrewTwice(old(View()), before, View());
      }
    }

    // After collection the pool holds every text that emitting the expression looks up, and nothing was added that is
    // not needed.
    method CollectExpr(e: Expr<Op>)
      requires Valid()
      modifies this
      ensures Valid() && Grew(old(View()), View())
      ensures forall t :: Needs(old(View()), e, t) ==> Unicode(t) in ids
      ensures forall t :: Asks(old(View()), e, t) ==> Unicode(t) in ids
      ensures forall v :: v in ids ==> v in old(ids) || (v.Unicode? && Needs(View(), e, v.text))
      decreases e, 1
    {
      hide Consistent, NodeTexts, Asks;
      ghost var start := View();
      InternTexts(NodeTexts(View(), e));
      ghost var mid := View();
      var own := OwnName(e);
      if own.Some? {
        var id := Intern(Unicode(own.value));
      }
      ghost var named := View();
      GrewTwice(start, mid, named);
      if e.Node? {
        CollectAll(e.children);
      }
      GrewTwice(start, named, View());
      GrewTwice(mid, named, View());
      forall t | Needs(start, e, t)
        ensures Unicode(t) in ids
      {
        if OwnName(e) != Some(t) && t !in NodeTexts(start, e) {
          var c :| c in e.children && Needs(start, c, t);
          NeedsGrew(start, named, c, t);
        }
      }
      forall t | Asks(start, e, t)
        ensures Unicode(t) in ids
      {
        AsksMet(start, e, t);
      }
      forall v | v in ids && v !in start.ids
        ensures v.Unicode? && Needs(View(), e, v.text)
      {
        if v in mid.ids {
          NodeTextsGrew(start, View(), e, v.text);
        }
      }
    }

    method CollectAll(es: seq<Expr<Op>>)
      requires Valid()
      modifies this
      ensures Valid() && Grew(old(View()), View())
      ensures forall e, t :: e in es && Needs(old(View()), e, t) ==> Unicode(t) in ids
      ensures forall v :: v in ids ==> v in old(ids) || (v.Unicode? && exists e :: e in es && Needs(View(), e, v.text))
      decreases es, 0
    {
      hide Consistent, Needs;
      ghost var start := View();
      if es != [] {
        CollectExpr(es[0]);
        ghost var mid := View();
        CollectAll(es[1..]);
        GrewTwice(start, mid, View());
        forall e, t | e in es && Needs(start, e, t)
          ensures Unicode(t) in ids
        {
          if e != es[0] {
            assert e in es[1..];
            NeedsGrew(start, mid, e, t);
          }
        }
        forall v | v in ids && v !in start.ids
          ensures v.Unicode? && exists e :: e in es && Needs(View(), e, v.text)
        {
          if v in mid.ids {
            NeedsGrew(mid, View(), es[0], v.text);
          }
        }
      }
    }

    method CollectBlock(b: CodeBlock)
      requires Valid()
      modifies this
      ensures Valid() && Grew(old(View()), View())
      ensures forall v :: BlockNeeds(old(View()), b, v) ==> v in ids
      ensures forall v :: v in ids ==> v in old(ids) || BlockNeeds(View(), b, v)
    {
      hide Consistent, Needs;
      ghost var start := View();
      CollectAll(b.body);
      ghost var mid := View();
      match b.exit {
        case JumpExit(kinds) => InternKinds(kinds);
        case ValueExit(value) => CollectExpr(value);
        case BareExit =>
      }
      GrewTwice(start, mid, View());
      forall v | BlockNeeds(start, b, v)
        ensures v in ids
      {
        if e, t :| e in b.body && Needs(start, e, t) && v == Unicode(t) {
          assert Unicode(t) in mid.ids;
        } else if b.exit.ValueExit? {
          var t :| Needs(start, b.exit.value, t) && v == Unicode(t);
          NeedsGrew(start, mid, b.exit.value, t);
        }
      }
      forall v | v in mid.ids && v !in start.ids
        ensures BlockNeeds(View(), b, v)
      {
        var e :| e in b.body && Needs(mid, e, v.text);
        NeedsGrew(mid, View(), e, v.text);
      }
    }

    method InternKinds(kinds: seq<AbruptKind>)
      requires Valid()
      modifies this
      ensures Valid() && Grew(old(View()), View())
      ensures forall k :: k in kinds ==> Int(AbruptTag(k)) in ids
      ensures forall v :: v in ids ==> v in old(ids) || exists k :: k in kinds && v == Int(AbruptTag(k))
    {
      hide Consistent, AbruptTag;
      for i := 0 to |kinds|
        invariant Valid() && Grew(old(View()), View())
        invariant forall j :: 0 <= j < i ==> Int(AbruptTag(kinds[j])) in ids
        invariant forall v :: v in ids ==> v in old(ids) || exists k :: k in kinds && v == Int(AbruptTag(k))
      {
        assert kinds[i] in kinds;
        ghost var before := View();
        var id := Intern(Int(AbruptTag(kinds[i])));
        GrewTwice(old(View()), before, View());
      }
    }

    // The default names, then every block's body and exit.
    method CollectFunction(f: Code)
      requires Valid()
      modifies this
      ensures Valid() && Grew(old(View()), View())
      ensures forall v :: CodeNeeds(old(View()), f, v) ==> v in ids
      ensures forall v :: CodeAsks(old(View()), f, v) ==> v in ids || (v.Unicode? && v.text in ALWAYS_REQUIRED)
      ensures forall v :: v in ids ==> v in old(ids) || CodeNeeds(View(), f, v)
    {
      hide Consistent, BlockNeeds, CodeAsks;
      ghost var start := View();
      InternTexts(f.defaults);
      for i := 0 to |f.blocks|
        invariant Valid() && Grew(start, View())
        invariant forall t :: t in f.defaults ==> Unicode(t) in ids
        invariant forall k, v :: 0 <= k < i && BlockNeeds(start, f.blocks[k], v) ==> v in ids
        invariant forall v :: v in ids ==> v in start.ids || CodeNeeds(View(), f, v)
      {
        ghost var before := View();
        CollectBlock(f.blocks[i]);
        GrewTwice(start, before, View());
        forall v | v in ids && v !in start.ids
          ensures CodeNeeds(View(), f, v)
        {
          if v in before.ids {
            CodeNeedsGrew(before, View(), f, v);
          }
        }
        forall v | BlockNeeds(start, f.blocks[i], v)
          ensures v in ids
        {
          BlockNeedsGrew(start, before, f.blocks[i], v);
        }
      }
      forall v | CodeAsks(start, f, v)
        ensures v in ids || (v.Unicode? && v.text in ALWAYS_REQUIRED)
      {
        CodeAsksMet(start, f, v);
      }
    }

    // A lookup the emitter panics on when it fails.
    method RequireUnicode(t: Text) returns (id: Option<nat>)
      requires Valid()
      ensures id.Some? <==> Unicode(t) in values
      ensures id.Some? ==> id.value < |values| && values[id.value] == Unicode(t)
    {
      id := if Unicode(t) in ids then Some(ids[Unicode(t)]) else None;
    }
  }

  const ALWAYS_REQUIRED: seq<Text> := ["dict", "list", "raise_from", "tuple_from_iter", "append", "extend", "update"]

  // Every value in the pool is an explicit constant, one of the helpers of calls and raises, or asked for by a function,
  // deleted names aside.
  ghost predicate NothingElse<O>(p: Pool, explicit: seq<Expr<O>>, functions: seq<Code>) {
    forall v :: v in p.values ==>
      || (exists e :: e in explicit && PoolValueOf(e) == Some(v))
      || v in {Unicode("dict"), Unicode("list"), Unicode("append"), Unicode("extend"), Unicode("update"),
               Unicode("tuple_from_iter"), Unicode("raise_from")}
      || exists f :: f in functions && (CodeAsks(p, f, v) || (v.Unicode? && CodeMentionsDeleted(p, f, v.text)))
  }

  ghost predicate OnlyNeeded(base: Pool, p: Pool, functions: seq<Code>) {
    forall v :: v in p.ids ==>
      v in base.ids || (v.Unicode? && v.text in ALWAYS_REQUIRED) || exists f :: f in functions && CodeNeeds(p, f, v)
  }

  lemma RequiredOnly(base: Pool, p: Pool, functions: seq<Code>)
    requires forall v :: v in p.ids ==> v in base.ids || (v.Unicode? && v.text in ALWAYS_REQUIRED)
    ensures OnlyNeeded(base, p, functions)
  {
  }

  lemma OnlyNeededNext(base: Pool, before: Pool, after: Pool, functions: seq<Code>, f: Code)
    requires OnlyNeeded(base, before, functions) && before.values <= after.values && f in functions
    requires forall v :: v in after.ids ==> v in before.ids || CodeNeeds(after, f, v)
    ensures OnlyNeeded(base, after, functions)
  {
    hide CodeNeeds;
    forall v, g | v in before.ids && g in functions && CodeNeeds(before, g, v)
      ensures CodeNeeds(after, g, v)
    {
      CodeNeedsGrew(before, after, g, v);
    }
  }

  lemma OnlyAsked<O>(base: Pool, p: Pool, explicit: seq<Expr<O>>, functions: seq<Code>)
    requires Consistent(base) && Consistent(p) && OnlyNeeded(base, p, functions)
    requires |base.values| == |explicit| && forall k :: 0 <= k < |explicit| ==> PoolValueOf(explicit[k]) == Some(base.values[k])
    ensures NothingElse(p, explicit, functions)
  {
    hide CodeNeeds, CodeAsks, CodeMentionsDeleted, PoolValueOf;
    AlwaysRequired();
    forall v, f | f in functions && CodeNeeds(p, f, v)
      ensures CodeAsks(p, f, v) || (v.Unicode? && CodeMentionsDeleted(p, f, v.text))
    {
      CodeNeedIsAsked(p, f, v);
    }
    forall v | v in base.ids
      ensures exists e :: e in explicit && PoolValueOf(e) == Some(v)
    {
      assert explicit[base.ids[v]] in explicit;
    }
  }

  // The module's pool: explicit constants first, so each keeps its index, then everything the emitter looks up: no
  // lookup of it fails.
  method CollectFromModule<O>(explicit: seq<Expr<O>>, functions: seq<Code>) returns (pool: Option<Pool>)
    ensures pool.Some? <==> forall e :: e in explicit ==> IsConstant(e)
    ensures pool.Some? ==> Consistent(pool.value) && |explicit| <= |pool.value.values|
    ensures pool.Some? ==> forall k :: 0 <= k < |explicit| ==>
              PoolValueOf(explicit[k]).Some? && pool.value.values[k] == PoolValueOf(explicit[k]).value
    ensures pool.Some? ==> forall t :: t in ALWAYS_REQUIRED ==> Unicode(t) in pool.value.ids
    ensures pool.Some? ==> forall f, v :: f in functions && CodeConstantsBelow(f, |explicit|) && CodeNeeds(pool.value, f, v) ==>
              v in pool.value.ids
    ensures pool.Some? ==> forall f, v :: f in functions && CodeConstantsBelow(f, |explicit|) && CodeAsks(pool.value, f, v) ==>
              v in pool.value.ids
    ensures pool.Some? ==> NothingElse(pool.value, explicit, functions)
  {
    hide Consistent, CodeNeeds, CodeConstantsBelow, CodeAsks, OnlyNeeded, NothingElse;
    var c := new ConstantCollector();
    for i := 0 to |explicit|
      invariant c.Valid() && |c.values| == i && fresh(c)
      invariant forall k :: 0 <= k < i ==> IsConstant(explicit[k]) && PoolValueOf(explicit[k]) == Some(c.values[k])
    {
      var id := c.PushExplicit(explicit[i]);
      if id.None? {
        assert explicit[i] in explicit;
        return None;
      }
    }
    ghost var base := c.View();
    c.InternTexts(ALWAYS_REQUIRED);
    RequiredOnly(base, c.View(), functions);
    for i := 0 to |functions|
      invariant c.Valid() && fresh(c) && Grew(base, c.View())
      invariant forall t :: t in ALWAYS_REQUIRED ==> Unicode(t) in c.ids
      invariant forall k, v :: 0 <= k < i && CodeNeeds(base, functions[k], v) ==> v in c.ids
      invariant OnlyNeeded(base, c.View(), functions)
    {
      ghost var before := c.View();
      c.CollectFunction(functions[i]);
      GrewTwice(base, before, c.View());
      OnlyNeededNext(base, before, c.View(), functions, functions[i]);
      forall v | CodeNeeds(base, functions[i], v)
        ensures v in c.ids
      {
        CodeNeedsGrew(base, before, functions[i], v);
      }
    }
    pool := Some(c.View());
    OnlyAsked(base, pool.value, explicit, functions);
    forall f, v | f in functions && CodeConstantsBelow(f, |explicit|) && CodeNeeds(pool.value, f, v)
      ensures v in pool.value.ids
    {
      CodeNeedsSettled(base, pool.value, f, v);
    }
    forall f, v | f in functions && CodeConstantsBelow(f, |explicit|) && CodeAsks(pool.value, f, v)
      ensures v in pool.value.ids
    {
      CodeAsksMet(pool.value, f, v);
    }
  }

  ghost predicate CodeConstantsBelow(f: Code, n: nat) {
    forall b :: b in f.blocks ==> BlockConstantsBelow(b, n)
  }

  lemma CodeNeedsGrew(a: Pool, b: Pool, f: Code, v: PoolValue)
    requires a.values <= b.values && CodeNeeds(a, f, v)
    ensures CodeNeeds(b, f, v)
  {
    hide BlockNeeds;
    if block :| block in f.blocks && BlockNeeds(a, block, v) {
      BlockNeedsGrew(a, b, block, v);
    }
  }

  lemma CodeNeedsSettled(a: Pool, b: Pool, f: Code, v: PoolValue)
    requires a.values <= b.values && CodeConstantsBelow(f, |a.values|) && CodeNeeds(b, f, v)
    ensures CodeNeeds(a, f, v)
  {
    hide BlockNeeds, BlockConstantsBelow;
    if block :| block in f.blocks && BlockNeeds(b, block, v) {
      BlockNeedsSettled(a, b, block, v);
    }
  }

  // ---- Extraction, then pooling --------------------------------------------

  // What a pool is built into.
  ghost function Objects<O, S, V>(m: Sem<O, S, V>, values: seq<PoolValue>): (r: seq<V>)
    ensures |r| == |values| && forall k :: 0 <= k < |r| ==> r[k] == ObjectOf(m, values[k])
  {
    seq(|values|, k requires 0 <= k < |values| => ObjectOf(m, values[k]))
  }

  // Extracting every constant and reading it back from its place in the pool changes no expression's
  // meaning, repeated constants included, and pooling extracted constants never panics.
  lemma ExtractThenPoolPreservesMeaning<O, S, V(!new)>(m: Sem<O, S, V>, exprs: seq<Expr<O>>, values: seq<PoolValue>, k: nat, s: S)
    requires ReadsDecimals(m) && k < |exprs| && forall e :: e in exprs ==> Unextracted(e)
    requires var moved := ExtractedAll(exprs, 0).1;
             |moved| <= |values| && forall j :: 0 <= j < |moved| ==> PoolValueOf(moved[j]) == Some(values[j])
    ensures Eval(m, Objects(m, values), ExtractedAll(exprs, 0).0[k], s) == Eval(m, [], exprs[k], s)
  {
    var moved := ExtractedAll(exprs, 0).1;
    AllLeaveNothing(exprs, 0);
    forall j | 0 <= j < |moved|
      ensures IsConstant(moved[j]) && Objects(m, values)[j] == ConstantValue(m, moved[j])
    {
      assert moved[j] in moved;
      EntryKeepsValue(m, moved[j]);
    }
    EachPreservesMeaning(m, Objects(m, values), exprs, 0, k, s);
  }

  lemma {:induction false} EachPreservesMeaning<O, S, V(!new)>(m: Sem<O, S, V>, pool: seq<V>, es: seq<Expr<O>>, next: nat, k: nat, s: S)
    requires k < |es| && forall e :: e in es ==> Unextracted(e)
    requires Holds(m, pool, next, ExtractedAll(es, next).1)
    ensures Eval(m, pool, ExtractedAll(es, next).0[k], s) == Eval(m, [], es[k], s)
    decreases k
  {
    var (first, moved) := Extracted(es[0], next);
    var (rest, more) := ExtractedAll(es[1..], next + |moved|);
    HoldsParts(m, pool, next, moved, more);
    if k == 0 {
      ExtractionPreservesMeaning(m, pool, es[0], next, s);
    } else {
      EachPreservesMeaning(m, pool, es[1..], next + |moved|, k - 1, s);
    }
  }

  // The panic on an unsupported constant is unreachable on extracted constants.
  lemma ExtractedConstantsAreSupported<O>(exprs: seq<Expr<O>>)
    ensures forall c :: c in ExtractedAll(exprs, 0).1 ==> PoolValueOf(c).Some?
    ensures forall e :: e in ExtractedAll(exprs, 0).0 ==> NothingLeft(e)
  {
    AllLeaveNothing(exprs, 0);
  }

  // Extracted code reads no constant but the extracted ones, which is what the pool's promise asks for.
  lemma {:induction false} ExtractedConstantsBelow<O>(e: Expr<O>, next: nat, n: nat)
    requires Unextracted(e) && next + |Extracted(e, next).1| <= n
    ensures ConstantsBelow(Extracted(e, next).0, n)
    decreases e
  {
    if !IsConstant(e) && e.Node? {
      AllExtractedConstantsBelow(e.children, next, n);
    }
  }

  lemma {:induction false} AllExtractedConstantsBelow<O>(es: seq<Expr<O>>, next: nat, n: nat)
    requires (forall e :: e in es ==> Unextracted(e)) && next + |ExtractedAll(es, next).1| <= n
    ensures forall e :: e in ExtractedAll(es, next).0 ==> ConstantsBelow(e, n)
    decreases es
  {
    if es != [] {
      ExtractedConstantsBelow(es[0], next, n);
      AllExtractedConstantsBelow(es[1..], next + |Extracted(es[0], next).1|, n);
    }
  }
}
