/** Transform fixtures: the line parser and the printer (`soac-blockpy/src/fixture.rs`). */
module Fixture {
  import opened Prelude

  datatype FixtureBlock = FixtureBlock(name: string, input: string, output: string, seenSeparator: bool)

  // ---- Text ----------------------------------------------------------------

  predicate IsSpace(c: char) {
    || '\t' <= c <= '\r' || c == ' ' || c == '\U{85}' || c == '\U{A0}' || c == '\U{1680}'
    || '\U{2000}' <= c <= '\U{200A}' || c == '\U{2028}' || c == '\U{2029}' || c == '\U{202F}' || c == '\U{205F}' || c == '\U{3000}'
  }

  function TrimEnd(s: string): string {
    if s != "" && IsSpace(s[|s| - 1]) then TrimEnd(s[..|s| - 1]) else s
  }

  function TrimStart(s: string): string {
    if s != "" && IsSpace(s[0]) then TrimStart(s[1..]) else s
  }

  function Trim(s: string): string {
    TrimStart(TrimEnd(s))
  }

  // Newlines removed at both ends.
  function TrimNewlines(s: string): string
    decreases |s|
  {
    if s != "" && s[0] == '\n' then TrimNewlines(s[1..])
    else if s != "" && s[|s| - 1] == '\n' then TrimNewlines(s[..|s| - 1])
    else s
  }

  // The length of the first line, its newline included.
  function LineLength(s: string): (n: nat)
    requires s != ""
    ensures 0 < n <= |s|
  {
    if s[0] == '\n' || |s| == 1 then 1 else 1 + LineLength(s[1..])
  }

  // `split_inclusive('\n')`
  function Lines(s: string): seq<string>
    decreases |s|
  {
    if s == "" then [] else [s[..LineLength(s)]] + Lines(s[LineLength(s)..])
  }

  predicate EndsWith(s: string, c: char) {
    s != "" && s[|s| - 1] == c
  }

  // A line without its newline and, before that, one carriage return.
  function Content(raw: string): string {
    var line := if EndsWith(raw, '\n') then raw[..|raw| - 1] else raw;
    if EndsWith(line, '\r') then line[..|line| - 1] else line
  }

  const SEPARATOR := "# =="

  predicate IsHeader(trimmed: string) {
    "# " <= trimmed && trimmed !in {SEPARATOR, "# -- pre-bb --", "# -- bb --"}
  }

  // ---- Parsing -------------------------------------------------------------

  // Finished blocks and the block being read, if any.
  datatype State = State(blocks: seq<FixtureBlock>, section: Option<FixtureBlock>)

  function Finalize(st: State): Result<seq<FixtureBlock>> {
    match st.section
    case None => Ok(st.blocks)
    case Some(b) => if b.seenSeparator then Ok(st.blocks + [b]) else Err("missing separator")
  }

  function Append(b: FixtureBlock, text: string): FixtureBlock {
    if b.seenSeparator then b.(output := b.output + text) else b.(input := b.input + text)
  }

  function Step(st: State, raw: string): Result<State> {
    var line := Content(raw);
    var trimmed := TrimEnd(line);
    if IsHeader(trimmed) then
      var done :- Finalize(st);
      Ok(State(done, Some(FixtureBlock(Trim(trimmed[2..]), "", "", false))))
    else match st.section
      case None =>
        if trimmed == SEPARATOR then Err("unexpected separator")
        else if trimmed != "" then Err("unexpected content")
        else Ok(st)
      case Some(b) =>
        if trimmed == SEPARATOR then
          if b.seenSeparator then Err("multiple separators")
          else Ok(st.(section := Some(b.(seenSeparator := true))))
        else Ok(st.(section := Some(Append(b, if EndsWith(raw, '\n') then line + "\n" else line))))
  }

  function StepAll(st: State, lines: seq<string>): Result<State>
    decreases |lines|
  {
    if lines == [] then Ok(st)
    else
      var next :- Step(st, lines[0]);
      StepAll(next, lines[1..])
  }

  function Parsed(contents: string): Result<seq<FixtureBlock>> {
    var st :- StepAll(State([], None), Lines(contents));
    Finalize(st)
  }

  method ParseFixture(contents: string) returns (r: Result<seq<FixtureBlock>>)
    ensures r == Parsed(contents)
  {
    var rest := contents;
    var st := State([], None);
    while rest != ""
      invariant StepAll(State([], None), Lines(contents)) == StepAll(st, Lines(rest))
      decreases |rest|
    {
      var n := LineLength(rest);
      var next := Step(st, rest[..n]);
      assert Lines(rest)[0] == rest[..n] && Lines(rest)[1..] == Lines(rest[n..]);
      if next.Err? {
        return Err(next.error);
      }
      st, rest := next.value, rest[n..];
    }
    r := Finalize(st);
  }

  // ---- Rendering -----------------------------------------------------------

  // A body as it is printed: trimmed, on its own lines, or nothing at all.
  function Body(text: string): string {
    if TrimNewlines(text) == "" then "" else TrimNewlines(text) + "\n"
  }

  function RenderedBlock(b: FixtureBlock): string {
    "# " + b.name + "\n\n" + Body(b.input) + "\n" + "# ==\n\n" + Body(b.output)
  }

  function Rendered(blocks: seq<FixtureBlock>): string {
    if blocks == [] then ""
    else
      Rendered(blocks[..|blocks| - 1]) + (if |blocks| > 1 then "\n" else "") + RenderedBlock(blocks[|blocks| - 1])
  }

  lemma Assoc(a: string, b: string, c: string)
    ensures (a + b) + c == a + (b + c)
  {
  }

  method PushBody(output: string, text: string) returns (r: string)
    ensures r == output + Body(text)
  {
    r := output;
    var body := TrimNewlines(text);
    if body != "" {
      Assoc(r, body, "\n");
      r := r + body;
      r := r + "\n";
    }
  }

  method PushBlock(output: string, b: FixtureBlock) returns (r: string)
    ensures r == output + RenderedBlock(b)
  {
    hide Body;
    r := output + "# ";
    Assoc(output, "# ", b.name);
    r := r + b.name;
    Assoc(output, "# " + b.name, "\n\n");
    r := r + "\n\n";
    Assoc(output, "# " + b.name + "\n\n", Body(b.input));
    r := PushBody(r, b.input);
    Assoc(output, "# " + b.name + "\n\n" + Body(b.input), "\n");
    r := r + "\n";
    Assoc(output, "# " + b.name + "\n\n" + Body(b.input) + "\n", "# ==\n\n");
    r := r + "# ==\n\n";
    Assoc(output, "# " + b.name + "\n\n" + Body(b.input) + "\n" + "# ==\n\n", Body(b.output));
    r := PushBody(r, b.output);
  }

  method RenderFixture(blocks: seq<FixtureBlock>) returns (output: string)
    ensures output == Rendered(blocks)
  {
    hide RenderedBlock;
    output := "";
    for i := 0 to |blocks|
      invariant output == Rendered(blocks[..i])
    {
      assert blocks[..i + 1][..i] == blocks[..i];
      if i > 0 {
        output := output + "\n";
      }
      output := PushBlock(output, blocks[i]);
    }
    assert blocks[..|blocks|] == blocks;
  }

  // ---- Trimming ------------------------------------------------------------

  lemma {:induction false} TrimNewlineBefore(s: string)
    ensures TrimNewlines("\n" + s) == TrimNewlines(s)
  {
  }

  lemma {:induction false} TrimNewlineAfter(s: string)
    ensures TrimNewlines(s + "\n") == TrimNewlines(s)
    decreases |s|
  {
    if s == "" {
      assert (s + "\n")[1..] == "";
    } else if s[0] == '\n' {
      TrimNewlineAfter(s[1..]);
      assert (s + "\n")[1..] == s[1..] + "\n";
    } else {
      assert (s + "\n")[..|s|] == s;
    }
  }

  lemma {:induction false} TrimmedEnds(s: string)
    ensures var t := TrimNewlines(s); t == "" || (t[0] != '\n' && t[|t| - 1] != '\n')
    decreases |s|
  {
    if s != "" && s[0] == '\n' {
      TrimmedEnds(s[1..]);
    } else if s != "" && s[|s| - 1] == '\n' {
      TrimmedEnds(s[..|s| - 1]);
    }
  }

  lemma TrimNewlinesTwice(s: string)
    ensures TrimNewlines(TrimNewlines(s)) == TrimNewlines(s)
  {
  }

  // ---- Lines ---------------------------------------------------------------

  predicate WholeLines(s: string) {
    s == "" || s[|s| - 1] == '\n'
  }

  // The first line of a text that ends with one is a whole line.
  lemma {:induction false} FirstLine(a: string, b: string)
    requires a != "" && WholeLines(a)
    ensures LineLength(a + b) == LineLength(a) && a[LineLength(a) - 1] == '\n'
    ensures forall k :: 0 <= k < LineLength(a) - 1 ==> a[k] != '\n'
    decreases |a|
  {
    if a[0] != '\n' {
      assert (a + b)[1..] == a[1..] + b;
      FirstLine(a[1..], b);
    }
  }

  lemma {:induction false} LinesAppend(a: string, b: string)
    requires WholeLines(a)
    ensures Lines(a + b) == Lines(a) + Lines(b)
    decreases |a|
  {
    if a == "" {
      assert a + b == b;
    } else {
      FirstLine(a, b);
      var n := LineLength(a);
      assert (a + b)[..n] == a[..n] && (a + b)[n..] == a[n..] + b;
      LinesAppend(a[n..], b);
    }
  }

  lemma {:induction false} StepAllAppend(st: State, a: seq<string>, b: seq<string>)
    ensures StepAll(st, a + b) == (match StepAll(st, a) case Ok(mid) => StepAll(mid, b) case Err(e) => Err(e))
    decreases |a|
  {
    if a == [] {
      assert a + b == b;
    } else {
      assert (a + b)[1..] == a[1..] + b;
      var next := Step(st, a[0]);
      if next.Ok? {
        StepAllAppend(next.value, a[1..], b);
      }
    }
  }

  // Reading whole lines, and then the rest.
  lemma ReadAppend(st: State, a: string, b: string)
    requires WholeLines(a) && StepAll(st, Lines(a)).Ok?
    ensures StepAll(st, Lines(a + b)) == StepAll(StepAll(st, Lines(a)).value, Lines(b))
  {
    LinesAppend(a, b);
    StepAllAppend(st, Lines(a), Lines(b));
  }

  // ---- Plain text ----------------------------------------------------------

  // A line the parser copies: no header, no separator, no trailing carriage return.
  predicate Plain(raw: string) {
    && EndsWith(raw, '\n') && !EndsWith(raw[..|raw| - 1], '\r')
    && !IsHeader(TrimEnd(raw[..|raw| - 1])) && TrimEnd(raw[..|raw| - 1]) != SEPARATOR
  }

  predicate PlainText(text: string) {
    WholeLines(text) && forall l :: l in Lines(text) ==> Plain(l)
  }

  lemma PlainStep(st: State, raw: string)
    requires Plain(raw) && st.section.Some?
    ensures Step(st, raw) == Ok(st.(section := Some(Append(st.section.value, raw))))
  {
    assert Content(raw) == raw[..|raw| - 1] && raw[..|raw| - 1] + "\n" == raw;
    hide IsHeader, TrimEnd;
  }

  lemma PlainTail(text: string)
    requires PlainText(text) && text != ""
    ensures var n := LineLength(text);
            && Plain(text[..n]) && PlainText(text[n..])
            && Lines(text) == [text[..n]] + Lines(text[n..])
  {
    hide Plain;
    var n := LineLength(text);
    FirstLine(text, "");
    assert Lines(text)[0] == text[..n] && forall l :: l in Lines(text[n..]) ==> l in Lines(text);
  }

  lemma {:induction false} PlainTextIsCopied(st: State, text: string)
    requires PlainText(text) && st.section.Some?
    ensures StepAll(st, Lines(text)) == Ok(st.(section := Some(Append(st.section.value, text))))
    decreases |text|
  {
    hide Plain, Step, PlainText, LineLength;
    if text == "" {
      assert Append(st.section.value, text) == st.section.value;
    } else {
      var n := LineLength(text);
      PlainTail(text);
      var line, rest := text[..n], text[n..];
      PlainStep(st, line);
      var next := st.(section := Some(Append(st.section.value, line)));
      PlainTextIsCopied(next, rest);
      assert text == line + rest;
      AppendTwice(st.section.value, line, rest);
      assert ([line] + Lines(rest))[1..] == Lines(rest);
    }
  }

  lemma AppendTwice(b: FixtureBlock, x: string, y: string)
    ensures Append(Append(b, x), y) == Append(b, x + y)
  {
  }
}
