/** Exactly which fixtures survive printing and parsing. The argument counts what is on each line: parsing
    never invents a character, so if everything comes back, nothing was dropped or taken for something else. */
module FixtureExact {
  import opened Prelude
  import opened Fixture
  import opened FixtureRoundTrip

  // ---- Ink -----------------------------------------------------------------

  // The characters of a text that are no newlines.
  function Ink(s: string): nat {
    if s == "" then 0 else (if s[0] == '\n' then 0 else 1) + Ink(s[1..])
  }

  lemma {:induction false} InkAppend(a: string, b: string)
    ensures Ink(a + b) == Ink(a) + Ink(b)
  {
    if a == "" {
      assert a + b == b;
    } else {
      assert (a + b)[1..] == a[1..] + b;
      InkAppend(a[1..], b);
    }
  }

  lemma {:induction false} InkOfOneLine(s: string)
    ensures Ink(s) <= |s|
    ensures '\n' !in s ==> Ink(s) == |s|
  {
    if s != "" {
      InkOfOneLine(s[1..]);
    }
  }

  lemma {:induction false} InkTrimmed(s: string)
    ensures Ink(TrimNewlines(s)) == Ink(s)
    decreases |s|
  {
    if s != "" && s[0] == '\n' {
      InkTrimmed(s[1..]);
    } else if s != "" && s[|s| - 1] == '\n' {
      InkTrimmed(s[..|s| - 1]);
      assert s == s[..|s| - 1] + "\n";
      InkAppend(s[..|s| - 1], "\n");
    }
  }

  lemma InkBody(text: string)
    ensures Ink(Body(text)) == Ink(text)
  {
    InkTrimmed(text);
    InkAppend(TrimNewlines(text), "\n");
  }

  function InkAll(lines: seq<string>): nat {
    if lines == [] then 0 else Ink(lines[0]) + InkAll(lines[1..])
  }

  lemma {:induction false} InkLines(s: string)
    ensures InkAll(Lines(s)) == Ink(s)
    decreases |s|
  {
    if s != "" {
      var n := LineLength(s);
      InkLines(s[n..]);
      InkAppend(s[..n], s[n..]);
      assert s == s[..n] + s[n..];
    }
  }

  // ---- Lines ---------------------------------------------------------------

  // A line without its newline.
  function Bare(raw: string): string {
    if EndsWith(raw, '\n') then raw[..|raw| - 1] else raw
  }

  // A line holds no newline but at its end.
  predicate IsLine(raw: string) {
    '\n' !in Bare(raw)
  }

  lemma {:induction false} LinesAreLines(s: string)
    ensures forall l :: l in Lines(s) ==> IsLine(l)
    decreases |s|
  {
    if s != "" {
      FirstLineIsLine(s);
      LinesAreLines(s[LineLength(s)..]);
    }
  }

  lemma {:induction false} FirstLineIsLine(s: string)
    requires s != ""
    ensures '\n' !in s[..LineLength(s) - 1]
    ensures IsLine(s[..LineLength(s)])
    decreases |s|
  {
    if s[0] != '\n' && |s| > 1 {
      FirstLineIsLine(s[1..]);
      var n := LineLength(s);
      assert s[..n - 1] == [s[0]] + s[1..][..n - 2];
      assert s[..n] == [s[0]] + s[1..][..n - 1];
    }
  }

  lemma InkOfLine(raw: string)
    requires IsLine(raw)
    ensures Ink(raw) == |Bare(raw)|
  {
    InkOfOneLine(Bare(raw));
    if EndsWith(raw, '\n') {
      InkAppend(Bare(raw), "\n");
      assert raw == Bare(raw) + "\n";
    }
  }

  // What the parser takes a line for.
  predicate HeaderLine(raw: string) {
    IsHeader(TrimEnd(Content(raw)))
  }

  predicate SeparatorLine(raw: string) {
    TrimEnd(Content(raw)) == SEPARATOR
  }

  // Nothing on the line is dropped: no carriage return, and on a header nothing around the name.
  predicate Tight(raw: string) {
    Content(raw) == Bare(raw) && (HeaderLine(raw) ==> Bare(raw) == "# " + Trim(TrimEnd(Bare(raw))[2..]))
  }

  lemma {:induction false} TrimEndShortens(s: string)
    ensures TrimEnd(s) <= s
    ensures TrimEnd(s) == "" || !IsSpace(TrimEnd(s)[|TrimEnd(s)| - 1])
  {
    if s != "" && IsSpace(s[|s| - 1]) {
      TrimEndShortens(s[..|s| - 1]);
    }
  }

  lemma {:induction false} TrimStartShortens(s: string)
    ensures |TrimStart(s)| <= |s| && (|TrimStart(s)| == |s| ==> TrimStart(s) == s)
    ensures TrimStart(s) == s[|s| - |TrimStart(s)|..]
    ensures TrimStart(s) == "" || !IsSpace(TrimStart(s)[0])
  {
    if s != "" && IsSpace(s[0]) {
      TrimStartShortens(s[1..]);
    }
  }

  lemma TrimShortens(s: string)
    ensures |Trim(s)| <= |s| && (|Trim(s)| == |s| ==> Trim(s) == s)
    ensures Trim(s) == "" || (!IsSpace(Trim(s)[0]) && !IsSpace(Trim(s)[|Trim(s)| - 1]))
    ensures '\n' !in s ==> '\n' !in Trim(s)
  {
    hide TrimEnd, TrimStart, IsSpace;
    var kept := TrimEnd(s);
    TrimEndShortens(s);
    TrimStartShortens(kept);
    assert Trim(s) == TrimStart(kept) == kept[|kept| - |Trim(s)|..];
  }

  // ---- One step ------------------------------------------------------------

  // What a block accounts for: its header mark and name, its text, and its separator.
  function Weight(b: FixtureBlock): nat {
    2 + Ink(b.name) + Ink(b.input) + Ink(b.output) + (if b.seenSeparator then 4 else 0)
  }

  function WeightAll(blocks: seq<FixtureBlock>): nat {
    if blocks == [] then 0 else WeightAll(blocks[..|blocks| - 1]) + Weight(blocks[|blocks| - 1])
  }

  // Every block the parser has started.
  function Started(st: State): seq<FixtureBlock> {
    match st.section
    case None => st.blocks
    case Some(b) => st.blocks + [b]
  }

  function Marks(st: State): nat {
    |st.blocks| + (if st.section.Some? && st.section.value.seenSeparator then 1 else 0)
  }

  predicate AllSeen(blocks: seq<FixtureBlock>) {
    forall b :: b in blocks ==> b.seenSeparator
  }

  lemma WeightPush(blocks: seq<FixtureBlock>, b: FixtureBlock)
    ensures WeightAll(blocks + [b]) == WeightAll(blocks) + Weight(b)
  {
    assert (blocks + [b])[..|blocks|] == blocks;
  }

  lemma StartedWeight(st: State)
    ensures WeightAll(Started(st)) == WeightAll(st.blocks) + (if st.section.Some? then Weight(st.section.value) else 0)
  {
    if st.section.Some? {
      WeightPush(st.blocks, st.section.value);
    }
  }

  // A header starts one block, whose name is at most what follows the mark.
  lemma HeaderWeight(st: State, raw: string)
    requires IsLine(raw) && HeaderLine(raw) && Step(st, raw).Ok?
    ensures var next := Step(st, raw).value;
            && next.blocks == Started(st) && next.section.Some?
            && next.section.value == FixtureBlock(Trim(TrimEnd(Content(raw))[2..]), "", "", false)
            && WeightAll(Started(next)) <= WeightAll(Started(st)) + Ink(raw)
            && (WeightAll(Started(next)) == WeightAll(Started(st)) + Ink(raw) ==> Tight(raw))
  {
    var c := Content(raw);
    var trimmed := TrimEnd(c);
    var name := Trim(trimmed[2..]);
    var next := Step(st, raw).value;
    StartedWeight(next);
    InkOfLine(raw);
    TrimEndShortens(c);
    TrimShortens(trimmed[2..]);
    InkOfOneLine(name);
    hide Trim, TrimEnd, WeightAll, Ink, IsHeader;
    assert trimmed == "# " + trimmed[2..];
  }

  // A line appended to a body adds what is left of it.
  lemma AppendWeight(b: FixtureBlock, raw: string)
    requires IsLine(raw)
    ensures var line := Content(raw);
            && Weight(Append(b, if EndsWith(raw, '\n') then line + "\n" else line)) == Weight(b) + |line|
            && |line| <= |Bare(raw)| && (|line| == |Bare(raw)| ==> line == Bare(raw))
  {
    var line := Content(raw);
    InkOfOneLine(line);
    hide Ink;
    InkAppend(line, "\n");
    NewlineHasNoInk();
    InkAppend(b.input, line);
    InkAppend(b.output, line);
    InkAppend(b.input, line + "\n");
    InkAppend(b.output, line + "\n");
  }

  lemma NewlineHasNoInk()
    ensures Ink("\n") == 0
  {
  }

  // Any other line adds at most what is on it.
  lemma TextWeight(st: State, raw: string)
    requires IsLine(raw) && !HeaderLine(raw) && Step(st, raw).Ok?
    ensures var next := Step(st, raw).value;
            && next.blocks == st.blocks && (next.section.Some? <==> st.section.Some?)
            && (st.section.Some? ==> next.section.value.name == st.section.value.name)
            && WeightAll(Started(next)) <= WeightAll(Started(st)) + Ink(raw)
            && (WeightAll(Started(next)) == WeightAll(Started(st)) + Ink(raw) ==> Tight(raw))
            && Marks(next) == Marks(st) + (if SeparatorLine(raw) then 1 else 0)
  {
    var next := Step(st, raw).value;
    StartedWeight(st);
    StartedWeight(next);
    InkOfLine(raw);
    TrimEndShortens(Content(raw));
    ContentShortens(raw);
    hide TrimEnd, WeightAll, IsHeader, Ink, Content;
    if st.section.Some? {
      AppendWeight(st.section.value, raw);
    }
  }

  lemma ContentShortens(raw: string)
    ensures |Content(raw)| <= |Bare(raw)| && (|Content(raw)| == |Bare(raw)| ==> Content(raw) == Bare(raw))
  {
  }

  // ---- A whole parse -------------------------------------------------------

  function Headers(lines: seq<string>): nat {
    if lines == [] then 0 else (if HeaderLine(lines[0]) then 1 else 0) + Headers(lines[1..])
  }

  function Separators(lines: seq<string>): nat {
    if lines == [] then 0 else (if SeparatorLine(lines[0]) then 1 else 0) + Separators(lines[1..])
  }

  // One header for each block started and one separator for each block that has one; and if the blocks
  // account for every character, every line is tight and every name stands on a header line.
  lemma {:induction false} ParseAccounts(st: State, lines: seq<string>)
    requires (forall l :: l in lines ==> IsLine(l)) && StepAll(st, lines).Ok? && AllSeen(st.blocks)
    ensures var end := StepAll(st, lines).value;
            && AllSeen(end.blocks)
            && |Started(end)| == |Started(st)| + Headers(lines)
            && Marks(end) == Marks(st) + Separators(lines)
            && WeightAll(Started(end)) <= WeightAll(Started(st)) + InkAll(lines)
            && (WeightAll(Started(end)) == WeightAll(Started(st)) + InkAll(lines) ==>
                  (forall l :: l in lines ==> Tight(l))
                  && forall b :: b in Started(end) ==> Named(Started(st), b.name) || OnHeader(lines, b.name))
    decreases |lines|
  {
    if lines != [] {
      var next := Step(st, lines[0]).value;
      assert forall l :: l in lines[1..] ==> l in lines;
      StepAccounts(st, lines[0]);
      ParseAccounts(next, lines[1..]);
      hide Step, HeaderLine, SeparatorLine, Tight, WeightAll, Ink, Marks, IsLine, Started;
      var end := StepAll(st, lines).value;
      if WeightAll(Started(end)) == WeightAll(Started(st)) + InkAll(lines) {
        NamesCarry(st, next, end, lines);
      }
    }
  }

  predicate Named(blocks: seq<FixtureBlock>, name: string) {
    exists b :: b in blocks && b.name == name
  }

  // Some header line holds exactly this name.
  predicate OnHeader(lines: seq<string>, name: string) {
    exists l :: l in lines && HeaderFor(l, name)
  }

  predicate HeaderFor(raw: string, name: string) {
    IsLine(raw) && HeaderLine(raw) && Tight(raw) && Bare(raw) == "# " + name
  }

  lemma StepAccounts(st: State, raw: string)
    requires IsLine(raw) && Step(st, raw).Ok? && AllSeen(st.blocks)
    ensures var next := Step(st, raw).value;
            && AllSeen(next.blocks)
            && |Started(next)| == |Started(st)| + (if HeaderLine(raw) then 1 else 0)
            && Marks(next) == Marks(st) + (if SeparatorLine(raw) then 1 else 0)
            && WeightAll(Started(next)) <= WeightAll(Started(st)) + Ink(raw)
            && (WeightAll(Started(next)) == WeightAll(Started(st)) + Ink(raw) ==>
                  Tight(raw) && forall b :: b in Started(next) ==> Named(Started(st), b.name) || HeaderFor(raw, b.name))
  {
    hide TrimEnd, Trim, WeightAll, Ink;
    var next := Step(st, raw).value;
    if HeaderLine(raw) {
      HeaderWeight(st, raw);
      assert Started(next) == Started(st) + [next.section.value];
    } else {
      TextWeight(st, raw);
    }
    forall b | b in Started(next) && b in next.blocks
      ensures Named(Started(st), b.name)
    {
      assert b in Started(st);
    }
  }

  lemma NamesCarry(st: State, next: State, end: State, lines: seq<string>)
    requires lines != []
    requires forall b :: b in Started(next) ==> Named(Started(st), b.name) || HeaderFor(lines[0], b.name)
    requires forall b :: b in Started(end) ==> Named(Started(next), b.name) || OnHeader(lines[1..], b.name)
    ensures forall b :: b in Started(end) ==> Named(Started(st), b.name) || OnHeader(lines, b.name)
  {
    hide HeaderFor, Started;
    forall b | b in Started(end)
      ensures Named(Started(st), b.name) || OnHeader(lines, b.name)
    {
      if Named(Started(next), b.name) {
        var c :| c in Started(next) && c.name == b.name;
        if HeaderFor(lines[0], c.name) {
          assert OnHeader(lines, b.name);
        }
      } else {
        var l :| l in lines[1..] && HeaderFor(l, b.name);
        assert l in lines;
      }
    }
  }

  // ---- A rendering ---------------------------------------------------------

  // Printed, every block has its separator.
  function Sealed(blocks: seq<FixtureBlock>): (r: seq<FixtureBlock>)
    ensures |r| == |blocks| && forall i :: 0 <= i < |r| ==> r[i] == blocks[i].(seenSeparator := true)
  {
    seq(|blocks|, i requires 0 <= i < |blocks| => blocks[i].(seenSeparator := true))
  }

  lemma InkBlock(b: FixtureBlock)
    ensures Ink(RenderedBlock(b)) == Weight(b.(seenSeparator := true))
  {
    var head, input, output := "# " + b.name + "\n", "\n" + Body(b.input) + "\n", "\n" + Body(b.output);
    BlockParts(b);
    InkMarks();
    hide Ink, Body, RenderedBlock;
    InkAppend("# ", b.name);
    InkAppend("# " + b.name, "\n");
    InkAppend("\n", Body(b.input));
    InkAppend("\n" + Body(b.input), "\n");
    InkAppend("\n", Body(b.output));
    InkBody(b.input);
    InkBody(b.output);
    InkAppend(head, input + ("# ==\n" + output));
    InkAppend(input, "# ==\n" + output);
    InkAppend("# ==\n", output);
  }

  lemma InkMarks()
    ensures Ink("# ") == 2 && Ink("\n") == 0 && Ink("# ==\n") == 4
  {
    InkOfOneLine("# ");
    InkOfOneLine("# ==");
    InkAppend("# ==", "\n");
    assert "# ==" + "\n" == "# ==\n";
  }

  lemma {:induction false} InkRendered(blocks: seq<FixtureBlock>)
    ensures Ink(Rendered(blocks)) == WeightAll(Sealed(blocks))
    decreases |blocks|
  {
    hide RenderedBlock, Weight;
    if blocks != [] {
      var init, last := blocks[..|blocks| - 1], blocks[|blocks| - 1];
      InkRendered(init);
      var sep := if |blocks| > 1 then "\n" else "";
      InkMarks();
      InkAppend(Rendered(init), sep);
      InkAppend(Rendered(init) + sep, RenderedBlock(last));
      InkBlock(last);
      assert Sealed(blocks)[..|blocks| - 1] == Sealed(init);
    }
  }

  // What comes back weighs what was printed.
  lemma {:induction false} SameWeight(a: seq<FixtureBlock>, b: seq<FixtureBlock>)
    requires |a| == |b| && AllSeen(a) && AllSeen(b)
    requires forall i :: 0 <= i < |a| ==> a[i].name == b[i].name
    requires forall i :: 0 <= i < |a| ==> TrimNewlines(a[i].input) == TrimNewlines(b[i].input)
    requires forall i :: 0 <= i < |a| ==> TrimNewlines(a[i].output) == TrimNewlines(b[i].output)
    ensures WeightAll(a) == WeightAll(b)
    decreases |a|
  {
    hide TrimNewlines, Ink;
    if a != [] {
      var n := |a| - 1;
      SameWeight(a[..n], b[..n]);
      assert a[n] in a && b[n] in b;
      InkTrimmed(a[n].input);
      InkTrimmed(b[n].input);
      InkTrimmed(a[n].output);
      InkTrimmed(b[n].output);
    }
  }

  // ---- Counting the lines of a rendering -----------------------------------

  function HeadersIn(text: string): nat {
    Headers(Lines(text))
  }

  function SeparatorsIn(text: string): nat {
    Separators(Lines(text))
  }

  lemma {:induction false} CountsAppend(a: seq<string>, b: seq<string>)
    ensures Headers(a + b) == Headers(a) + Headers(b) && Separators(a + b) == Separators(a) + Separators(b)
    decreases |a|
  {
    hide HeaderLine, SeparatorLine;
    if a == [] {
      assert a + b == b;
    } else {
      assert (a + b)[1..] == a[1..] + b;
      CountsAppend(a[1..], b);
    }
  }

  lemma CountsInAppend(a: string, b: string)
    requires WholeLines(a)
    ensures HeadersIn(a + b) == HeadersIn(a) + HeadersIn(b) && SeparatorsIn(a + b) == SeparatorsIn(a) + SeparatorsIn(b)
    ensures forall l :: l in Lines(a + b) <==> l in Lines(a) || l in Lines(b)
  {
    LinesAppend(a, b);
    CountsAppend(Lines(a), Lines(b));
  }

  lemma NameLine(name: string)
    requires PrintableName(name)
    ensures HeadersIn("# " + name + "\n") == 1 && WholeLines("# " + name + "\n")
  {
    var line := "# " + name;
    OneLine(line);
    HeaderNamed(name);
    assert Content(line + "\n") == line by {
      assert (line + "\n")[..|line|] == line && line[|line| - 1] == name[|name| - 1];
    }
    assert TrimEnd(line) == line;
    assert HeaderLine(line + "\n");
    OneHeader(line + "\n");
  }

  lemma OneHeader(raw: string)
    ensures Headers([raw]) == (if HeaderLine(raw) then 1 else 0) && Separators([raw]) == (if SeparatorLine(raw) then 1 else 0)
  {
    hide HeaderLine, SeparatorLine;
    assert [raw][1..] == [];
    assert Headers([]) == 0 && Separators([]) == 0;
  }

  lemma SeparatorIsLine()
    ensures SeparatorsIn("# ==\n") == 1 && WholeLines("# ==\n")
  {
    var line := "# ==";
    OneLine(line);
    assert line + "\n" == "# ==\n";
    assert Content("# ==\n") == line && TrimEnd(line) == line by {
      assert "# ==\n"[..4] == line;
    }
    OneHeader("# ==\n");
    hide TrimEnd, Content;
  }

  lemma BodyIsWhole(text: string)
    ensures WholeLines(Body(text)) && WholeLines("\n" + Body(text)) && WholeLines("\n" + Body(text) + "\n")
  {
  }

  // A printed block has its own header and separator, and whatever its bodies hold.
  lemma BlockCounts(b: FixtureBlock)
    requires PrintableName(b.name)
    ensures HeadersIn(RenderedBlock(b)) >= 1 + HeadersIn(Body(b.input)) + HeadersIn(Body(b.output))
    ensures SeparatorsIn(RenderedBlock(b)) >= 1 + SeparatorsIn(Body(b.input)) + SeparatorsIn(Body(b.output))
    ensures forall l :: l in Lines(Body(b.input)) || l in Lines(Body(b.output)) ==> l in Lines(RenderedBlock(b))
  {
    var head, input, output := "# " + b.name + "\n", "\n" + Body(b.input) + "\n", "\n" + Body(b.output);
    BlockParts(b);
    NameLine(b.name);
    SeparatorIsLine();
    BodyIsWhole(b.input);
    hide Body, RenderedBlock, HeadersIn, SeparatorsIn, Lines, PrintableName;
    CountsInAppend("\n", Body(b.input));
    CountsInAppend("\n" + Body(b.input), "\n");
    CountsInAppend("\n", Body(b.output));
    CountsInAppend("# ==\n", output);
    CountsInAppend(input, "# ==\n" + output);
    CountsInAppend(head, input + ("# ==\n" + output));
  }

  // A rendering has at least a header and a separator for each block, and more if some body holds any.
  lemma {:induction false} RenderedCounts(blocks: seq<FixtureBlock>)
    requires forall b :: b in blocks ==> PrintableName(b.name)
    ensures WholeLines(Rendered(blocks))
    ensures HeadersIn(Rendered(blocks)) >= |blocks| && SeparatorsIn(Rendered(blocks)) >= |blocks|
    ensures forall b :: b in blocks ==>
              && HeadersIn(Rendered(blocks)) >= |blocks| + HeadersIn(Body(b.input)) + HeadersIn(Body(b.output))
              && SeparatorsIn(Rendered(blocks)) >= |blocks| + SeparatorsIn(Body(b.input)) + SeparatorsIn(Body(b.output))
              && forall l :: l in Lines(Body(b.input)) || l in Lines(Body(b.output)) ==> l in Lines(Rendered(blocks))
    decreases |blocks|
  {
    hide RenderedBlock, HeadersIn, SeparatorsIn, Body, Lines, PrintableName;
    if blocks != [] {
      var init, last := blocks[..|blocks| - 1], blocks[|blocks| - 1];
      assert blocks == init + [last];
      RenderedCounts(init);
      var sep := if |blocks| > 1 then "\n" else "";
      CountsInAppend(Rendered(init), sep);
      EndsWithNewline(last);
      CountsInAppend(Rendered(init) + sep, RenderedBlock(last));
      BlockCounts(last);
    }
  }

  // ---- The converse --------------------------------------------------------

  lemma {:induction false} NoneCounted(lines: seq<string>)
    ensures Headers(lines) == 0 ==> forall l :: l in lines ==> !HeaderLine(l)
    ensures Separators(lines) == 0 ==> forall l :: l in lines ==> !SeparatorLine(l)
  {
    hide HeaderLine, SeparatorLine;
    if lines != [] {
      NoneCounted(lines[1..]);
    }
  }

  lemma {:induction false} WholeLinesEnd(s: string)
    requires WholeLines(s)
    ensures forall l :: l in Lines(s) ==> EndsWith(l, '\n')
    decreases |s|
  {
    if s != "" {
      FirstLine(s, "");
      assert s + "" == s;
      WholeLinesEnd(s[LineLength(s)..]);
    }
  }

  // A body without headers, separators and dropped characters is plain text.
  lemma TightBodyIsPlain(text: string)
    requires HeadersIn(Body(text)) == 0 && SeparatorsIn(Body(text)) == 0
    requires forall l :: l in Lines(Body(text)) ==> Tight(l)
    ensures PlainText(Body(text))
  {
    BodyIsWhole(text);
    WholeLinesEnd(Body(text));
    NoneCounted(Lines(Body(text)));
    hide Body, Lines, Headers, Separators, TrimEnd, IsHeader;
    forall l | l in Lines(Body(text))
      ensures Plain(l)
    {
      TightLineIsPlain(l);
    }
  }

  lemma TightLineIsPlain(l: string)
    requires Tight(l) && EndsWith(l, '\n') && !HeaderLine(l) && !SeparatorLine(l)
    ensures Plain(l)
  {
    hide TrimEnd, IsHeader;
    assert Content(l) == l[..|l| - 1];
  }

  // A name that comes back from a header line can be printed.
  lemma HeaderNameIsPrintable(raw: string, name: string)
    requires HeaderFor(raw, name)
    ensures PrintableName(name)
  {
    var line := "# " + name;
    TrimEndShortens(line);
    TrimShortens(TrimEnd(line)[2..]);
    assert name == line[2..] && name == Trim(TrimEnd(line)[2..]);
    assert |TrimEnd(line)| == |line| && TrimEnd(line) == line;
    assert '\n' !in name by {
      forall i | 0 <= i < |name|
        ensures name[i] != '\n'
      {
        assert name[i] == line[i + 2];
      }
    }
    EmptyNameIsNoHeader();
    hide TrimEnd, Trim, IsSpace;
    assert "# " + "==" == SEPARATOR && "# " + "-- pre-bb --" == "# -- pre-bb --" && "# " + "-- bb --" == "# -- bb --";
  }

  lemma EmptyNameIsNoHeader()
    ensures !IsHeader(TrimEnd("# "))
  {
    assert TrimEnd("# ") == TrimEnd("#") == "#" by {
      assert "# "[..1] == "#";
    }
  }

  // Everything printed comes back: the names, and the bodies up to newlines at their ends.
  ghost predicate Survives(blocks: seq<FixtureBlock>) {
    var r := Parsed(Rendered(blocks));
    && r.Ok? && |r.value| == |blocks|
    && forall i :: 0 <= i < |blocks| ==>
         && r.value[i].name == blocks[i].name
         && TrimNewlines(r.value[i].input) == TrimNewlines(blocks[i].input)
         && TrimNewlines(r.value[i].output) == TrimNewlines(blocks[i].output)
  }

  // What a successful parse returns is every block it started.
  lemma ParsedBlocks(contents: string)
    requires Parsed(contents).Ok?
    ensures var end := StepAll(State([], None), Lines(contents));
            && end.Ok? && Started(end.value) == Parsed(contents).value
            && Marks(end.value) == |Parsed(contents).value|
            && (AllSeen(end.value.blocks) ==> AllSeen(Parsed(contents).value))
  {
    hide StepAll, Lines;
  }

  // Then the blocks account for every character printed.
  lemma SurvivingIsTight(blocks: seq<FixtureBlock>)
    requires Survives(blocks)
    ensures var lines := Lines(Rendered(blocks));
            && (forall l :: l in lines ==> Tight(l))
            && (forall b :: b in blocks ==> OnHeader(lines, b.name))
            && Headers(lines) == |blocks| && Separators(lines) == |blocks|
  {
    hide Lines, Rendered, HeaderLine, SeparatorLine, Tight, TrimNewlines, Ink, InkAll, StepAll, IsLine, Parsed, Headers, Separators, Marks,
      WeightAll, Started, OnHeader;
    var start, lines, r := State([], None), Lines(Rendered(blocks)), Parsed(Rendered(blocks)).value;
    LinesAreLines(Rendered(blocks));
    InkLines(Rendered(blocks));
    InkRendered(blocks);
    ParsedBlocks(Rendered(blocks));
    NothingStarted();
    ParseAccounts(start, lines);
    SameWeight(r, Sealed(blocks));
    forall b | b in blocks
      ensures OnHeader(lines, b.name)
    {
      var i :| 0 <= i < |blocks| && blocks[i] == b;
      assert r[i] in r && r[i].name == b.name;
    }
  }

  lemma NothingStarted()
    ensures Started(State([], None)) == [] && Marks(State([], None)) == 0 && WeightAll([]) == 0
  {
  }

  lemma SurvivingIsPrintable(blocks: seq<FixtureBlock>)
    requires Survives(blocks)
    ensures forall b :: b in blocks ==> Printable(b)
  {
    SurvivingIsTight(blocks);
    hide Survives, Tight, OnHeader, PrintableName, PlainText, Lines, Rendered, Headers, Separators, Body;
    forall b | b in blocks
      ensures PrintableName(b.name)
    {
      NameOnHeaderIsPrintable(Lines(Rendered(blocks)), b.name);
    }
    forall b | b in blocks
      ensures Printable(b)
    {
      BodiesArePlain(blocks, b);
    }
  }

  // When a rendering has no headers and separators but its own, and every line is tight, its bodies are plain.
  lemma BodiesArePlain(blocks: seq<FixtureBlock>, b: FixtureBlock)
    requires b in blocks && forall x :: x in blocks ==> PrintableName(x.name)
    requires HeadersIn(Rendered(blocks)) == |blocks| && SeparatorsIn(Rendered(blocks)) == |blocks|
    requires forall l :: l in Lines(Rendered(blocks)) ==> Tight(l)
    ensures PlainText(Body(b.input)) && PlainText(Body(b.output))
  {
    hide Tight, PrintableName, PlainText, Lines, Rendered, HeadersIn, SeparatorsIn, Body;
    RenderedCounts(blocks);
    TightBodyIsPlain(b.input);
    TightBodyIsPlain(b.output);
  }

  lemma NameOnHeaderIsPrintable(lines: seq<string>, name: string)
    requires OnHeader(lines, name)
    ensures PrintableName(name)
  {
    hide HeaderFor, PrintableName;
    var l :| l in lines && HeaderFor(l, name);
    HeaderNameIsPrintable(l, name);
  }

  // A fixture survives printing and parsing if and only if every block of it is printable.
  lemma FixtureSurvivesExactly(blocks: seq<FixtureBlock>)
    ensures Survives(blocks) <==> forall b :: b in blocks ==> Printable(b)
  {
    hide Printable, Parsed, Rendered, TrimNewlines;
    if Survives(blocks) {
      SurvivingIsPrintable(blocks);
    }
    if forall b :: b in blocks ==> Printable(b) {
      FixtureRoundTrip.FixtureRoundTrip(blocks);
    }
  }
}
