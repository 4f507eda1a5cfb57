/** The texts a fixture parser accepts, as a grammar over their lines, and what it reads from them
    (`soac-blockpy/src/fixture.rs`). */
module FixtureGrammar {
  import opened Prelude
  import opened Fixture

  // ---- Lines ---------------------------------------------------------------

  // White space, by code point.
  lemma SpacesExactly(c: char)
    ensures var n := c as int;
            IsSpace(c) <==>
              || 9 <= n <= 13 || n == 32 || n == 0x85 || n == 0xA0 || n == 0x1680 || 0x2000 <= n <= 0x200A
              || n == 0x2028 || n == 0x2029 || n == 0x202F || n == 0x205F || n == 0x3000
  {
  }

  // A line loses its newline and, before that, one carriage return.
  lemma ContentExactly(raw: string, text: string)
    ensures Content(raw) == text <==>
              || raw == text + "\r\n"
              || (raw == text + "\n" && !EndsWith(text, '\r'))
              || raw == text + "\r"
              || (raw == text && !EndsWith(text, '\n') && !EndsWith(text, '\r'))
  {
    assert raw == text + "\r\n" ==> raw[..|raw| - 1] == text + "\r" && (text + "\r")[..|text|] == text;
    assert raw == text + "\n" ==> raw[..|raw| - 1] == text;
    assert raw == text + "\r" ==> raw[..|raw| - 1] == text;
    var line := if EndsWith(raw, '\n') then raw[..|raw| - 1] else raw;
    assert EndsWith(line, '\r') ==> line == line[..|line| - 1] + "\r";
    assert EndsWith(raw, '\n') ==> raw == line + "\n";
    assert line[..|line|] + "\r" + "\n" == line + "\r\n";
  }

  // What is trimmed at the end is white space, and all there is of it.
  lemma {:induction false} TrimEndExactly(s: string)
    ensures TrimEnd(s) <= s && (forall i :: |TrimEnd(s)| <= i < |s| ==> IsSpace(s[i]))
    ensures TrimEnd(s) != "" ==> !IsSpace(TrimEnd(s)[|TrimEnd(s)| - 1])
  {
    hide IsSpace;
    if s != "" && IsSpace(s[|s| - 1]) {
      TrimEndExactly(s[..|s| - 1]);
    }
  }

  lemma {:induction false} TrimStartExactly(s: string) returns (k: nat)
    ensures k <= |s| && TrimStart(s) == s[k..] && forall i :: 0 <= i < k ==> IsSpace(s[i])
    ensures TrimStart(s) != "" ==> !IsSpace(TrimStart(s)[0])
  {
    hide IsSpace;
    k := 0;
    if s != "" && IsSpace(s[0]) {
      var rest := TrimStartExactly(s[1..]);
      k := rest + 1;
      assert s[1..][rest..] == s[k..];
      forall i | 0 <= i < k
        ensures IsSpace(s[i])
      {
        assert i > 0 ==> s[1..][i - 1] == s[i];
      }
    }
  }

  // What is cut off a body is newlines at its ends.
  lemma {:induction false} TrimNewlinesExactly(s: string) returns (from: nat, to: nat)
    ensures from <= to <= |s| && TrimNewlines(s) == s[from..to]
    ensures (forall i :: 0 <= i < from ==> s[i] == '\n') && (forall i :: to <= i < |s| ==> s[i] == '\n')
    decreases |s|
  {
    if s != "" && s[0] == '\n' {
      from, to := TrimNewlinesExactly(s[1..]);
      from, to := from + 1, to + 1;
      assert forall i :: 0 < i < |s| ==> s[1..][i - 1] == s[i];
    } else if s != "" && s[|s| - 1] == '\n' {
      from, to := TrimNewlinesExactly(s[..|s| - 1]);
      assert forall i :: 0 <= i < |s| - 1 ==> s[..|s| - 1][i] == s[i];
    } else {
      from, to := 0, |s|;
    }
  }

  function Joined(lines: seq<string>): string {
    if lines == [] then "" else lines[0] + Joined(lines[1..])
  }

  // A line is not empty and ends at its first newline.
  predicate IsLine(line: string) {
    line != "" && forall k :: 0 <= k < |line| - 1 ==> line[k] != '\n'
  }

  // The lines make up the text, and only the last may have no newline.
  lemma {:induction false} LinesExactly(s: string)
    ensures Joined(Lines(s)) == s
    ensures forall i :: 0 <= i < |Lines(s)| ==> IsLine(Lines(s)[i])
    ensures forall i :: 0 <= i < |Lines(s)| - 1 ==> EndsWith(Lines(s)[i], '\n')
    decreases |s|
  {
    hide IsLine, LineLength;
    if s != "" {
      LineExactly(s);
      LinesExactly(s[LineLength(s)..]);
      var n, rest := LineLength(s), Lines(s[LineLength(s)..]);
      assert Lines(s) == [s[..n]] + rest && Lines(s)[1..] == rest && s[..n] + s[n..] == s;
      assert n == |s| ==> rest == [];
    }
  }

  lemma {:induction false} LineExactly(s: string)
    requires s != ""
    ensures IsLine(s[..LineLength(s)])
    ensures LineLength(s) < |s| ==> EndsWith(s[..LineLength(s)], '\n')
    decreases |s|
  {
    if s[0] != '\n' && |s| > 1 {
      LineExactly(s[1..]);
      assert forall k :: 0 < k < |s| ==> s[1..][k - 1] == s[k];
    }
  }

  // ---- The grammar ---------------------------------------------------------

  predicate Blank(line: string) {
    TrimEnd(Content(line)) == ""
  }

  predicate Separator(line: string) {
    TrimEnd(Content(line)) == "# =="
  }

  // A line that starts with "# " and, trimmed, is none of the reserved ones.
  predicate Header(line: string) {
    var t := TrimEnd(Content(line));
    |t| >= 2 && t[0] == '#' && t[1] == ' ' && t != "# ==" && t != "# -- pre-bb --" && t != "# -- bb --"
  }

  // A block's lines.
  datatype Part = Part(header: string, input: seq<string>, separator: string, output: seq<string>)

  predicate BodyLines(lines: seq<string>) {
    forall l :: l in lines ==> !Header(l) && !Separator(l)
  }

  predicate WellFormed(p: Part) {
    Header(p.header) && BodyLines(p.input) && Separator(p.separator) && BodyLines(p.output)
  }

  predicate AllWellFormed(parts: seq<Part>) {
    forall i :: 0 <= i < |parts| ==> WellFormed(parts[i])
  }

  function PartLines(p: Part): seq<string> {
    [p.header] + p.input + [p.separator] + p.output
  }

  function AllLines(parts: seq<Part>): seq<string> {
    if parts == [] then [] else AllLines(parts[..|parts| - 1]) + PartLines(parts[|parts| - 1])
  }

  // A fixture: blank lines, then blocks.
  predicate IsFixture(lines: seq<string>, blanks: seq<string>, parts: seq<Part>) {
    && lines == blanks + AllLines(parts)
    && (forall l :: l in blanks ==> Blank(l))
    && AllWellFormed(parts)
  }

  // Body lines are copied without their carriage return, newlines kept.
  function Copied(lines: seq<string>): string {
    if lines == [] then ""
    else
      var last := lines[|lines| - 1];
      Copied(lines[..|lines| - 1]) + Content(last) + if EndsWith(last, '\n') then "\n" else ""
  }

  function NameOf(header: string): string
    requires Header(header)
  {
    Trim(TrimEnd(Content(header))[2..])
  }

  // The block's name is what follows "# ", trimmed at both ends.
  function BlockOf(p: Part): FixtureBlock
    requires WellFormed(p)
  {
    FixtureBlock(NameOf(p.header), Copied(p.input), Copied(p.output), true)
  }

  function BlocksOf(parts: seq<Part>): seq<FixtureBlock>
    requires AllWellFormed(parts)
  {
    if parts == [] then [] else BlocksOf(parts[..|parts| - 1]) + [BlockOf(parts[|parts| - 1])]
  }

  lemma HeaderLine(line: string)
    ensures Header(line) <==> IsHeader(TrimEnd(Content(line)))
  {
    hide Content, TrimEnd;
    var t := TrimEnd(Content(line));
    if |t| >= 2 && t[0] == '#' && t[1] == ' ' {
      assert t[..2] == "# ";
    }
  }

  // ---- Reading a line ------------------------------------------------------

  // The block being read.
  datatype Reading =
    | Nothing
    | Input(header: string, lines: seq<string>)
    | Output(header: string, input: seq<string>, separator: string, lines: seq<string>)

  function ReadingLines(r: Reading): seq<string> {
    match r
    case Nothing => []
    case Input(header, lines) => [header] + lines
    case Output(header, input, separator, lines) => [header] + input + [separator] + lines
  }

  predicate ReadingRight(r: Reading) {
    match r
    case Nothing => true
    case Input(header, lines) => Header(header) && BodyLines(lines)
    case Output(header, input, separator, lines) => WellFormed(Part(header, input, separator, lines))
  }

  function SectionOf(r: Reading): Option<FixtureBlock>
    requires ReadingRight(r)
  {
    match r
    case Nothing => None
    case Input(header, lines) => Some(FixtureBlock(NameOf(header), Copied(lines), "", false))
    case Output(header, input, _, lines) => Some(FixtureBlock(NameOf(header), Copied(input), Copied(lines), true))
  }

  // `st` is what is read from blank lines, blocks, and a block being read.
  ghost predicate Describes(st: State, lines: seq<string>, blanks: seq<string>, parts: seq<Part>, r: Reading) {
    && lines == blanks + AllLines(parts) + ReadingLines(r)
    && (forall l :: l in blanks ==> Blank(l)) && AllWellFormed(parts) && ReadingRight(r)
    && (r == Nothing ==> parts == [])
    && st == State(BlocksOf(parts), SectionOf(r))
  }

  lemma CopiedNext(lines: seq<string>, line: string)
    ensures Copied(lines + [line]) == Copied(lines) + (if EndsWith(line, '\n') then Content(line) + "\n" else Content(line))
  {
    hide Content;
    assert (lines + [line])[..|lines|] == lines;
    Assoc(Copied(lines), Content(line), "\n");
  }

  lemma PartsNext(parts: seq<Part>, p: Part)
    requires AllWellFormed(parts) && WellFormed(p)
    ensures AllWellFormed(parts + [p])
    ensures AllLines(parts + [p]) == AllLines(parts) + PartLines(p)
    ensures BlocksOf(parts + [p]) == BlocksOf(parts) + [BlockOf(p)]
  {
    hide WellFormed, PartLines, BlockOf;
    assert (parts + [p])[..|parts|] == parts;
  }

  // The block being read is put with the others when the next header comes, if its separator was seen.
  lemma Finished(st: State, lines: seq<string>, blanks: seq<string>, parts: seq<Part>, r: Reading) returns (done: seq<Part>)
    requires Describes(st, lines, blanks, parts, r) && Finalize(st).Ok?
    ensures IsFixture(lines, blanks, done) && Finalize(st) == Ok(BlocksOf(done))
  {
    hide WellFormed, Header, BodyLines, Blank, NameOf, Copied, AllLines, BlocksOf, AllWellFormed;
    done := parts;
    match r
    case Output(header, input, separator, output) =>
      var p := Part(header, input, separator, output);
      PartsNext(parts, p);
      done := parts + [p];
      assert ReadingLines(r) == PartLines(p) && SectionOf(r) == Some(BlockOf(p));
      assert blanks + AllLines(parts) + PartLines(p) == blanks + (AllLines(parts) + PartLines(p));
    case Nothing => assert blanks + AllLines(parts) + [] == blanks + AllLines(parts);
    case Input(_, _) =>
  }

  // One more line: a header closes the block being read, any other line goes on with it.
  lemma ReadHeader(st: State, lines: seq<string>, blanks: seq<string>, parts: seq<Part>, r: Reading, line: string)
    returns (parts2: seq<Part>)
    requires Describes(st, lines, blanks, parts, r) && Header(line) && Step(st, line).Ok?
    ensures Describes(Step(st, line).value, lines + [line], blanks, parts2, Input(line, []))
  {
    hide Content, TrimEnd, AllLines, BlocksOf, AllWellFormed, Header, IsHeader, Trim, ReadingRight;
    HeaderLine(line);
    parts2 := Finished(st, lines, blanks, parts, r);
    assert Step(st, line).value == State(BlocksOf(parts2), Some(FixtureBlock(NameOf(line), "", "", false)));
    InputStarts(line);
  }

  lemma InputStarts(header: string)
    requires Header(header)
    ensures ReadingRight(Input(header, [])) && ReadingLines(Input(header, [])) == [header]
    ensures SectionOf(Input(header, [])) == Some(FixtureBlock(NameOf(header), "", "", false))
  {
    hide Header, NameOf;
  }

  // A line within a block.
  function Continued(r: Reading, line: string): Reading {
    match r
    case Nothing => Nothing
    case Input(header, lines) => if Separator(line) then Output(header, lines, line, []) else Input(header, lines + [line])
    case Output(header, input, separator, lines) => Output(header, input, separator, lines + [line])
  }

  lemma NothingCopied()
    ensures Copied([]) == ""
  {
  }

  lemma ReadBody(st: State, r: Reading, line: string)
    requires ReadingRight(r) && r != Nothing && st.section == SectionOf(r) && !Header(line) && Step(st, line).Ok?
    ensures ReadingRight(Continued(r, line)) && ReadingLines(Continued(r, line)) == ReadingLines(r) + [line]
    ensures Step(st, line).value == State(st.blocks, SectionOf(Continued(r, line)))
  {
    hide Content, TrimEnd, NameOf, Copied, Header, IsHeader, EndsWith;
    HeaderLine(line);
    NothingCopied();
    match r
    case Input(_, body) => CopiedNext(body, line);
    case Output(_, _, _, body) => CopiedNext(body, line);
  }

  lemma ReadBlank(st: State, line: string)
    requires st.section == None && !Header(line) && Step(st, line).Ok?
    ensures Step(st, line) == Ok(st) && Blank(line)
  {
    hide Content, TrimEnd, Header, IsHeader;
    HeaderLine(line);
  }

  lemma ReadLine(st: State, lines: seq<string>, blanks: seq<string>, parts: seq<Part>, r: Reading, line: string)
    returns (blanks2: seq<string>, parts2: seq<Part>, r2: Reading)
    requires Describes(st, lines, blanks, parts, r) && Step(st, line).Ok?
    ensures Describes(Step(st, line).value, lines + [line], blanks2, parts2, r2)
  {
    hide Step, Header, Blank, ReadingRight, SectionOf, Continued, BlocksOf, AllWellFormed;
    blanks2, parts2, r2 := blanks, parts, r;
    if Header(line) {
      parts2 := ReadHeader(st, lines, blanks, parts, r, line);
      r2 := Input(line, []);
    } else if r == Nothing {
      NoSection();
      ReadBlank(st, line);
      blanks2 := blanks + [line];
      assert blanks + [] + [] + [line] == blanks2 + [] + [];
    } else {
      ReadBody(st, r, line);
      r2 := Continued(r, line);
      assert blanks + AllLines(parts) + (ReadingLines(r) + [line]) == blanks + AllLines(parts) + ReadingLines(r) + [line];
      StillReading(r, line);
    }
  }

  lemma NoSection()
    ensures ReadingRight(Nothing) && SectionOf(Nothing) == None && ReadingLines(Nothing) == []
  {
  }

  lemma StillReading(r: Reading, line: string)
    ensures r != Nothing ==> Continued(r, line) != Nothing
  {
  }

  lemma {:induction false} ReadLines(lines: seq<string>) returns (blanks: seq<string>, parts: seq<Part>, r: Reading)
    requires StepAll(State([], None), lines).Ok?
    ensures Describes(StepAll(State([], None), lines).value, lines, blanks, parts, r)
  {
    hide Step;
    blanks, parts, r := [], [], Nothing;
    if lines != [] {
      var init, last := lines[..|lines| - 1], lines[|lines| - 1];
      StepAllAppend(State([], None), init, [last]);
      assert init + [last] == lines && [last][1..] == [];
      var st := StepAll(State([], None), init).value;
      assert StepAll(State([], None), lines) == Step(st, last) by {
        assert StepAll(st, [last]) == Step(st, last);
      }
      blanks, parts, r := ReadLines(init);
      blanks, parts, r := ReadLine(st, init, blanks, parts, r, last);
    }
  }

  // ---- Reading a fixture ---------------------------------------------------

  lemma {:induction false} ReadBlanks(blanks: seq<string>)
    requires forall l :: l in blanks ==> Blank(l)
    ensures StepAll(State([], None), blanks) == Ok(State([], None))
    decreases |blanks|
  {
    hide Step, Blank;
    if blanks != [] {
      SkipBlank(State([], None), blanks[0]);
      ReadBlanks(blanks[1..]);
    }
  }

  lemma SkipBlank(st: State, line: string)
    requires st.section == None && Blank(line)
    ensures Step(st, line) == Ok(st)
  {
    hide Content, TrimEnd;
  }

  lemma StepHeader(st: State, line: string)
    requires Header(line) && Finalize(st).Ok?
    ensures Step(st, line) == Ok(State(Finalize(st).value, Some(FixtureBlock(NameOf(line), "", "", false))))
  {
    HeaderLine(line);
    hide Content, TrimEnd, Header, IsHeader, Finalize, Trim;
  }

  lemma StepSeparator(st: State, line: string)
    requires Separator(line) && st.section.Some? && !st.section.value.seenSeparator
    ensures Step(st, line) == Ok(State(st.blocks, Some(st.section.value.(seenSeparator := true))))
  {
    hide Content, TrimEnd;
  }

  // Body lines are copied into the block being read.
  lemma {:induction false} ReadBodyLines(st: State, b: FixtureBlock, lines: seq<string>)
    requires st.section == Some(b) && BodyLines(lines)
    ensures StepAll(st, lines) == Ok(State(st.blocks, Some(Append(b, Copied(lines)))))
    decreases |lines|
  {
    if lines == [] {
      assert Append(b, Copied(lines)) == b;
    } else {
      var init, last := lines[..|lines| - 1], lines[|lines| - 1];
      ReadBodyLines(st, b, init);
      StepAllAppend(st, init, [last]);
      assert init + [last] == lines;
      ReadBodyLine(State(st.blocks, Some(Append(b, Copied(init)))), last);
      AppendTwice(b, Copied(init), if EndsWith(last, '\n') then Content(last) + "\n" else Content(last));
      CopiedNext(init, last);
    }
  }

  lemma ReadBodyLine(st: State, line: string)
    requires st.section.Some? && !Header(line) && !Separator(line)
    ensures StepAll(st, [line])
         == Ok(State(st.blocks, Some(Append(st.section.value, if EndsWith(line, '\n') then Content(line) + "\n" else Content(line)))))
  {
    HeaderLine(line);
    hide Content, TrimEnd, Header, IsHeader, EndsWith, Append;
    assert [line][1..] == [];
  }

  lemma ReadPart(st: State, p: Part)
    requires Finalize(st).Ok? && WellFormed(p)
    ensures StepAll(st, PartLines(p)) == Ok(State(Finalize(st).value, Some(BlockOf(p))))
  {
    hide BodyLines, Copied, Step, Header, Separator, Finalize, NameOf, StepAll;
    var s0 := State(Finalize(st).value, Some(FixtureBlock(NameOf(p.header), "", "", false)));
    StepHeader(st, p.header);
    OneLine(st, p.header);
    ReadBodyLines(s0, s0.section.value, p.input);
    var s1 := State(s0.blocks, Some(FixtureBlock(NameOf(p.header), Copied(p.input), "", false)));
    assert Append(s0.section.value, Copied(p.input)) == s1.section.value;
    StepSeparator(s1, p.separator);
    OneLine(s1, p.separator);
    var s2 := State(s0.blocks, Some(FixtureBlock(NameOf(p.header), Copied(p.input), "", true)));
    ReadBodyLines(s2, s2.section.value, p.output);
    assert Append(s2.section.value, Copied(p.output)) == BlockOf(p);
    StepAllAppend(st, [p.header], p.input + ([p.separator] + p.output));
    StepAllAppend(s0, p.input, [p.separator] + p.output);
    StepAllAppend(s1, [p.separator], p.output);
    assert PartLines(p) == [p.header] + (p.input + ([p.separator] + p.output));
  }

  lemma OneLine(st: State, line: string)
    ensures StepAll(st, [line]) == Step(st, line)
  {
    hide Step;
    assert [line][1..] == [];
  }

  lemma {:induction false} ReadParts(parts: seq<Part>)
    requires AllWellFormed(parts)
    ensures StepAll(State([], None), AllLines(parts)).Ok?
    ensures Finalize(StepAll(State([], None), AllLines(parts)).value) == Ok(BlocksOf(parts))
  {
    hide WellFormed, Step;
    if parts != [] {
      var init, last := parts[..|parts| - 1], parts[|parts| - 1];
      assert AllWellFormed(init) && WellFormed(last);
      ReadParts(init);
      StepAllAppend(State([], None), AllLines(init), PartLines(last));
      ReadPart(StepAll(State([], None), AllLines(init)).value, last);
    }
  }

  lemma ReadFixture(contents: string, blanks: seq<string>, parts: seq<Part>)
    requires IsFixture(Lines(contents), blanks, parts)
    ensures Parsed(contents) == Ok(BlocksOf(parts))
  {
    hide Step, StepAll, Finalize, Lines, BlocksOf, AllWellFormed, AllLines, Blank;
    ReadBlanks(blanks);
    StepAllAppend(State([], None), blanks, AllLines(parts));
    ReadParts(parts);
  }

  lemma WasFixture(contents: string) returns (blanks: seq<string>, parts: seq<Part>)
    requires Parsed(contents).Ok?
    ensures IsFixture(Lines(contents), blanks, parts) && Parsed(contents) == Ok(BlocksOf(parts))
  {
    hide Step, StepAll, Finalize, Lines, BlocksOf, AllWellFormed, AllLines, Blank, ReadingLines, ReadingRight, SectionOf;
    var lines := Lines(contents);
    var open, r;
    blanks, open, r := ReadLines(lines);
    parts := Finished(StepAll(State([], None), lines).value, lines, blanks, open, r);
  }

  // A text is read as these blocks if and only if its lines are blank lines and then the lines of these blocks: for each
  // a header, body lines, one separator and body lines. Every other text is refused.
  lemma ParsedExactly(contents: string, blocks: seq<FixtureBlock>)
    ensures Parsed(contents) == Ok(blocks) <==>
              exists blanks, parts :: IsFixture(Lines(contents), blanks, parts) && blocks == BlocksOf(parts)
  {
    hide Parsed, Lines, BlocksOf, AllLines, Blank, AllWellFormed;
    if Parsed(contents) == Ok(blocks) {
      var blanks, parts := WasFixture(contents);
    }
    forall blanks, parts | IsFixture(Lines(contents), blanks, parts)
      ensures Parsed(contents) == Ok(BlocksOf(parts))
    {
      ReadFixture(contents, blanks, parts);
    }
  }

  lemma TrimExamples()
    ensures Body("x\n") == "x\n" && Body("\n") == "" && Body("") == "" && Body("y\nz") == "y\nz\n"
  {
    assert "x\n"[..1] == "x" && "\n"[1..] == "";
    assert TrimNewlines("x\n") == "x" && TrimNewlines("\n") == "";
  }

  lemma PrintedBlockExamples()
    ensures RenderedBlock(FixtureBlock("a", "x\n", "", true)) == "# a\n\nx\n\n# ==\n\n"
    ensures RenderedBlock(FixtureBlock("b", "\n", "y\nz", true)) == "# b\n\n\n# ==\n\ny\nz\n"
  {
    hide Body;
    TrimExamples();
  }

  // Two printed blocks, one with nothing after its separator and one with nothing before it.
  lemma PrintedExample()
    ensures Rendered([FixtureBlock("a", "x\n", "", true), FixtureBlock("b", "\n", "y\nz", true)])
         == "# a\n\nx\n\n# ==\n\n" + "\n" + "# b\n\n\n# ==\n\ny\nz\n"
  {
    hide RenderedBlock;
    PrintedBlockExamples();
    var a, b := FixtureBlock("a", "x\n", "", true), FixtureBlock("b", "\n", "y\nz", true);
    assert [a, b][..1] == [a] && [a][..0] == [];
    assert Rendered([a]) == RenderedBlock(a);
  }
}
