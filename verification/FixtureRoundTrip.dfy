/** Printed fixtures parse back to what was printed. */
module FixtureRoundTrip {
  import opened Prelude
  import opened Fixture

  // A name that fits on a header line and is no marker.
  predicate PrintableName(name: string) {
    && name != "" && '\n' !in name && !IsSpace(name[0]) && !IsSpace(name[|name| - 1])
    && name !in {"==", "-- pre-bb --", "-- bb --"}
  }

  // Bodies hold no header, no separator and no line ending in a carriage return.
  predicate Printable(b: FixtureBlock) {
    PrintableName(b.name) && PlainText(Body(b.input)) && PlainText(Body(b.output))
  }

  // ---- Single lines --------------------------------------------------------

  lemma {:induction false} OneLineLength(s: string)
    requires '\n' !in s
    ensures LineLength(s + "\n") == |s| + 1
  {
    if s != "" {
      assert (s + "\n")[1..] == s[1..] + "\n";
      OneLineLength(s[1..]);
    }
  }

  lemma OneLine(s: string)
    requires '\n' !in s
    ensures Lines(s + "\n") == [s + "\n"]
  {
    OneLineLength(s);
    assert (s + "\n")[..|s| + 1] == s + "\n" && (s + "\n")[|s| + 1..] == "";
  }

  lemma NewlineIsPlain()
    ensures PlainText("\n")
  {
  }

  lemma PlainTexts(a: string, b: string)
    requires PlainText(a) && PlainText(b)
    ensures PlainText(a + b)
  {
    hide Plain;
    LinesAppend(a, b);
    assert b == "" ==> a + b == a;
  }

  lemma HeaderStep(st: State, name: string)
    requires PrintableName(name) && Finalize(st).Ok?
    ensures StepAll(st, Lines("# " + name + "\n")) == Ok(State(Finalize(st).value, Some(FixtureBlock(name, "", "", false))))
  {
    var line := "# " + name;
    OneLine(line);
    assert Content(line + "\n") == line by {
      assert (line + "\n")[..|line|] == line && line[|line| - 1] == name[|name| - 1];
    }
    assert TrimEnd(line) == line && line[2..] == name && Trim(name) == name;
    HeaderNamed(name);
    assert Step(st, line + "\n") == Ok(State(Finalize(st).value, Some(FixtureBlock(name, "", "", false))));
    hide Step;
  }

  lemma HeaderNamed(name: string)
    requires PrintableName(name)
    ensures IsHeader("# " + name)
  {
    var line := "# " + name;
    assert line[2..] == name;
    assert SEPARATOR[2..] == "==" && "# -- pre-bb --"[2..] == "-- pre-bb --" && "# -- bb --"[2..] == "-- bb --";
  }

  lemma SeparatorStep(st: State)
    requires st.section.Some? && !st.section.value.seenSeparator
    ensures StepAll(st, Lines("# ==\n")) == Ok(st.(section := Some(st.section.value.(seenSeparator := true))))
  {
    var line := "# ==";
    OneLine(line);
    assert line + "\n" == "# ==\n";
    assert Content("# ==\n") == line by {
      assert "# ==\n"[..4] == line;
    }
    assert TrimEnd(line) == line && !IsHeader(line);
    assert Step(st, "# ==\n") == Ok(st.(section := Some(st.section.value.(seenSeparator := true))));
    hide Step;
  }

  // ---- One block -----------------------------------------------------------

  // A printed block as it is read back.
  function ReadBack(b: FixtureBlock): FixtureBlock {
    FixtureBlock(b.name, "\n" + Body(b.input) + "\n", "\n" + Body(b.output), true)
  }

  lemma BlockParts(b: FixtureBlock)
    ensures RenderedBlock(b) == "# " + b.name + "\n" + ("\n" + Body(b.input) + "\n" + ("# ==\n" + ("\n" + Body(b.output))))
  {
  }

  lemma BlockIsRead(st: State, b: FixtureBlock)
    requires Printable(b) && Finalize(st).Ok?
    ensures StepAll(st, Lines(RenderedBlock(b))) == Ok(State(Finalize(st).value, Some(ReadBack(b))))
  {
    hide Lines, StepAll, Finalize, Body, PlainText, RenderedBlock, PrintableName;
    var head, input, output := "# " + b.name + "\n", "\n" + Body(b.input) + "\n", "\n" + Body(b.output);
    var st1 := State(Finalize(st).value, Some(FixtureBlock(b.name, "", "", false)));
    var st2 := st1.(section := Some(FixtureBlock(b.name, input, "", false)));
    var st3 := st1.(section := Some(FixtureBlock(b.name, input, "", true)));
    BlockParts(b);
    HeaderStep(st, b.name);
    ReadAppend(st, head, input + ("# ==\n" + output));
    NewlineIsPlain();
    PlainTexts("\n", Body(b.input));
    PlainTexts("\n" + Body(b.input), "\n");
    PlainTextIsCopied(st1, input);
    assert "" + input == input;
    ReadAppend(st1, input, "# ==\n" + output);
    SeparatorStep(st2);
    ReadAppend(st2, "# ==\n", output);
    PlainTexts("\n", Body(b.output));
    PlainTextIsCopied(st3, output);
    assert "" + output == output;
  }

  // ---- Whole fixtures ------------------------------------------------------

  // Between blocks a blank line is printed, which reads as part of the block before it.
  function ReadBacks(blocks: seq<FixtureBlock>): (r: seq<FixtureBlock>)
    ensures |r| == |blocks|
  {
    seq(|blocks|, i requires 0 <= i < |blocks| =>
      var b := ReadBack(blocks[i]);
      if i + 1 < |blocks| then b.(output := b.output + "\n") else b)
  }

  lemma {:induction false} RenderedIsRead(blocks: seq<FixtureBlock>)
    requires blocks != [] && forall b :: b in blocks ==> Printable(b)
    ensures WholeLines(Rendered(blocks))
    ensures StepAll(State([], None), Lines(Rendered(blocks)))
         == Ok(State(ReadBacks(blocks)[..|blocks| - 1], Some(ReadBack(blocks[|blocks| - 1]))))
    decreases |blocks|
  {
    hide Lines, StepAll, RenderedBlock, Body, Printable;
    var n := |blocks| - 1;
    var init, last := blocks[..n], blocks[n];
    var start := State([], None);
    EndsWithNewline(last);
    if n == 0 {
      BlockIsRead(start, last);
      assert Rendered(blocks) == RenderedBlock(last) by {
        assert Rendered(init) == "";
      }
    } else {
      RenderedIsRead(init);
      var st := State(ReadBacks(init)[..n - 1], Some(ReadBack(init[n - 1])));
      ReadAppend(start, Rendered(init), "\n");
      NewlineIsPlain();
      PlainTextIsCopied(st, "\n");
      var b := ReadBack(init[n - 1]);
      var next := State(ReadBacks(init)[..n - 1], Some(b.(output := b.output + "\n")));
      ReadAppend(start, Rendered(init) + "\n", RenderedBlock(last));
      BlockIsRead(next, last);
      assert ReadBacks(blocks)[..n] == ReadBacks(init)[..n - 1] + [b.(output := b.output + "\n")];
    }
  }

  lemma EndsWithNewline(b: FixtureBlock)
    ensures RenderedBlock(b) != "" && WholeLines(RenderedBlock(b))
  {
  }

  lemma RenderedParses(blocks: seq<FixtureBlock>)
    requires forall b :: b in blocks ==> Printable(b)
    ensures Parsed(Rendered(blocks)) == Ok(ReadBacks(blocks))
  {
    hide RenderedBlock, Printable, Step, Body;
    if blocks != [] {
      RenderedIsRead(blocks);
      var n := |blocks| - 1;
      assert ReadBacks(blocks)[..n] + [ReadBack(blocks[n])] == ReadBacks(blocks);
    }
  }

  lemma BodyTrims(text: string)
    ensures TrimNewlines(Body(text)) == TrimNewlines(text)
  {
    TrimNewlinesTwice(text);
    TrimNewlineAfter(TrimNewlines(text));
  }

  lemma ReadBackTrims(blocks: seq<FixtureBlock>, i: nat)
    requires i < |blocks|
    ensures var r := ReadBacks(blocks)[i];
            && r.name == blocks[i].name && r.seenSeparator
            && TrimNewlines(r.input) == TrimNewlines(blocks[i].input)
            && TrimNewlines(r.output) == TrimNewlines(blocks[i].output)
  {
    hide TrimNewlines, Body;
    var b := blocks[i];
    BodyTrims(b.input);
    BodyTrims(b.output);
    TrimNewlineBefore(Body(b.input));
    TrimNewlineAfter("\n" + Body(b.input));
    TrimNewlineBefore(Body(b.output));
    TrimNewlineAfter("\n" + Body(b.output));
  }

  // Parsing a printed fixture gives back each name and each body, newlines at its ends aside.
  lemma FixtureRoundTrip(blocks: seq<FixtureBlock>)
    requires forall b :: b in blocks ==> Printable(b)
    ensures var r := Parsed(Rendered(blocks));
            && r.Ok? && |r.value| == |blocks|
            && forall i :: 0 <= i < |blocks| ==>
                 && r.value[i].name == blocks[i].name
                 && TrimNewlines(r.value[i].input) == TrimNewlines(blocks[i].input)
                 && TrimNewlines(r.value[i].output) == TrimNewlines(blocks[i].output)
  {
    hide Parsed, Rendered, ReadBacks, Printable, TrimNewlines;
    RenderedParses(blocks);
    forall i | 0 <= i < |blocks|
      ensures var r := ReadBacks(blocks)[i];
              && r.name == blocks[i].name
              && TrimNewlines(r.input) == TrimNewlines(blocks[i].input)
              && TrimNewlines(r.output) == TrimNewlines(blocks[i].output)
    {
      ReadBackTrims(blocks, i);
    }
  }

  lemma {:induction false} SameBodiesSameText(a: seq<FixtureBlock>, b: seq<FixtureBlock>)
    requires |a| == |b|
    requires forall i :: 0 <= i < |a| ==> a[i].name == b[i].name && Body(a[i].input) == Body(b[i].input) && Body(a[i].output) == Body(b[i].output)
    ensures Rendered(a) == Rendered(b)
    decreases |a|
  {
    hide Body;
    if a != [] {
      SameBodiesSameText(a[..|a| - 1], b[..|b| - 1]);
    }
  }

  // Printing what was parsed prints the same text again.
  lemma RenderParseRender(blocks: seq<FixtureBlock>)
    requires forall b :: b in blocks ==> Printable(b)
    ensures Parsed(Rendered(blocks)).Ok? && Rendered(Parsed(Rendered(blocks)).value) == Rendered(blocks)
  {
    RenderedParses(blocks);
    var r := ReadBacks(blocks);
    forall i | 0 <= i < |blocks|
      ensures r[i].name == blocks[i].name && Body(r[i].input) == Body(blocks[i].input) && Body(r[i].output) == Body(blocks[i].output)
    {
      ReadBackTrims(blocks, i);
    }
    hide Parsed, Rendered, ReadBacks, Printable, Body;
    SameBodiesSameText(r, blocks);
  }
}
