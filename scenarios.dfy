/**
 * What the model gives for concrete lines and documents: the heading
 * spellings the fuzzy title accepts, lines that are no heading, headings
 * that do not end a section, and the front-matter fence.
 */
module Scenarios {
  import opened Wrappers
  import opened Text
  import opened Title
  import opened Heading
  import opened Sections
  import opened SectionsSpec
  import opened Fence
  import opened MdParser

  const Levels: seq<string> := ["#", "##"]
  const UserWords: seq<string> := ["user", "Prompt"]

  lemma {:induction false} UserSetting()
    ensures ValidLevels(Levels) && ValidWords(UserWords)
  {
    assert IsMarker("#") && IsMarker("##");
  }

  /** A line that is `m`, one space and a title matching the words is a heading at `m`. */
  lemma {:induction false} SimpleHeading(line: string, m: string, t: string)
    requires m in Levels && line == m + " " + t && FuzzyTitle(UserWords, t)
    ensures MatchHeading(line, Levels, UserWords) == Some(m)
  {
    UserSetting();
    assert line == "" + m + " " + t + "";
    assert TitleHeading(line, m, UserWords);
  }

  /** A line that opens with neither whitespace nor `#` is no heading and closes no section. */
  lemma {:induction false} PlainLine(L: seq<string>, W: seq<string>, line: string, m: string)
    requires ValidLevels(L) && ValidWords(W) && m in L
    requires |line| > 0 && !IsSpace(line[0]) && line[0] != '#'
    ensures MatchHeading(line, L, W).None?
    ensures !EndsSection(line, m)
  {
    PlainLineNoHeading(L, W, line);
    PlainLineKeepsSection(line, m);
  }

  lemma {:induction false} PlainLineNoHeading(L: seq<string>, W: seq<string>, line: string)
    requires ValidLevels(L) && ValidWords(W)
    requires |line| > 0 && !IsSpace(line[0]) && line[0] != '#'
    ensures MatchHeading(line, L, W).None?
  {
    assert line == "" + line;
    PeelSpan(line, "", line, IsSpace);
    PeelSpan(line, "", line, IsHash);
    var p := Dissect(line);
    assert p.marker == "";
  }

  lemma {:induction false} PlainLineKeepsSection(line: string, m: string)
    requires IsMarker(m)
    requires |line| > 0 && !IsSpace(line[0]) && line[0] != '#'
    ensures !EndsSection(line, m)
  {
    assert line == "" + line;
    PeelSpan(line, "", line, IsSpace);
  }

  /**
   * Title fuzziness on heading lines: `# User Prompt`, `## user_prompt`,
   * `# USER-PROMPT` and `# UserPrompt` are all `userPrompt` headings, each
   * at its own marker.
   */
  lemma {:induction false} HeadingSpellings()
    ensures && MatchHeading("# User Prompt", Levels, UserWords) == Some("#")
            && MatchHeading("## user_prompt", Levels, UserWords) == Some("##")
            && MatchHeading("# USER-PROMPT", Levels, UserWords) == Some("#")
            && MatchHeading("# UserPrompt", Levels, UserWords) == Some("#")
  {
    SpacedSpelling();
    SnakeSpelling();
    KebabSpelling();
    JoinedSpelling();
  }

  /** Two words, each in some case, with a separator run between them, match a two-word title. */
  lemma {:induction false} TwoWordTitle(a: string, b: string, x: string, sep: string, y: string)
    requires CiEq(a, x) && Every(sep, IsSep) && CiEq(b, y)
    ensures FuzzyTitle([a, b], x + sep + y)
  {
    assert [a, b][1..] == [b];
  }

  lemma {:induction false} SpacedTitle()
    ensures FuzzyTitle(UserWords, "User Prompt")
  {
    assert CiEq("user", "User");
    assert CiEq("Prompt", "Prompt");
    assert Every(" ", IsSep);
    TwoWordTitle("user", "Prompt", "User", " ", "Prompt");
    assert "User" + " " + "Prompt" == "User Prompt";
  }

  lemma {:induction false} SpacedSpelling()
    ensures MatchHeading("# User Prompt", Levels, UserWords) == Some("#")
  {
    SpacedTitle();
    SimpleHeading("# User Prompt", "#", "User Prompt");
  }

  lemma {:induction false} SnakeTitle()
    ensures FuzzyTitle(UserWords, "user_prompt")
  {
    assert CiEq("user", "user");
    assert CiEq("Prompt", "prompt");
    assert Every("_", IsSep);
    TwoWordTitle("user", "Prompt", "user", "_", "prompt");
    assert "user" + "_" + "prompt" == "user_prompt";
  }

  lemma {:induction false} SnakeSpelling()
    ensures MatchHeading("## user_prompt", Levels, UserWords) == Some("##")
  {
    SnakeTitle();
    SimpleHeading("## user_prompt", "##", "user_prompt");
  }

  lemma {:induction false} KebabTitle()
    ensures FuzzyTitle(UserWords, "USER-PROMPT")
  {
    assert CiEq("user", "USER");
    assert CiEq("Prompt", "PROMPT");
    assert Every("-", IsSep);
    TwoWordTitle("user", "Prompt", "USER", "-", "PROMPT");
    assert "USER" + "-" + "PROMPT" == "USER-PROMPT";
  }

  lemma {:induction false} KebabSpelling()
    ensures MatchHeading("# USER-PROMPT", Levels, UserWords) == Some("#")
  {
    KebabTitle();
    SimpleHeading("# USER-PROMPT", "#", "USER-PROMPT");
  }

  lemma {:induction false} JoinedTitle()
    ensures FuzzyTitle(UserWords, "UserPrompt")
  {
    assert CiEq("user", "User");
    assert CiEq("Prompt", "Prompt");
    assert Every("", IsSep);
    TwoWordTitle("user", "Prompt", "User", "", "Prompt");
    assert "User" + "" + "Prompt" == "UserPrompt";
  }

  lemma {:induction false} JoinedSpelling()
    ensures MatchHeading("# UserPrompt", Levels, UserWords) == Some("#")
  {
    JoinedTitle();
    SimpleHeading("# UserPrompt", "#", "UserPrompt");
  }

  /**
   * A line that opens with a run of `#` longer than every requested marker
   * is no heading, whatever follows.
   */
  lemma {:induction false} DeepRunNoHeading(L: seq<string>, W: seq<string>, line: string, n: nat)
    requires ValidLevels(L) && ValidWords(W)
    requires n < |line| && forall j :: 0 <= j < n ==> line[j] == '#'
    requires forall k :: 0 <= k < |L| ==> |L[k]| < n
    ensures MatchHeading(line, L, W).None?
  {
    var r := MatchHeading(line, L, W);
    if r.Some? {
      assert false;
    }
  }

  /** `### User Prompt` is at no requested level, so it is no heading. */
  lemma {:induction false} DeeperLevelIgnored()
    ensures MatchHeading("### User Prompt", Levels, UserWords).None?
  {
    UserSetting();
    DeepRunNoHeading(Levels, UserWords, "### User Prompt", 3);
  }

  /** A deeper heading, such as `## Sub`, does not end a `#` section. */
  lemma {:induction false} DeeperHeadingStays(line: string)
    requires |line| >= 2 && line[0] == '#' && line[1] == '#'
    ensures !EndsSection(line, "#")
  {
    assert IsMarker("#");
    assert Span(line, IsSpace) == 0;
  }

  /** A shallower heading, such as `# x`, does not end a `##` section. */
  lemma {:induction false} ShallowerHeadingStays(line: string)
    requires |line| >= 2 && line[0] == '#' && IsSpace(line[1])
    ensures !EndsSection(line, "##")
  {
    assert IsMarker("##");
    assert Span(line, IsSpace) == 0;
  }

  /** A front-matter block after blank space, tagged `JSON`, captures the text up to its closing fence. */
  lemma {:induction false} FenceAfterSpace()
    ensures JsonFence("  ```JSON\n{}\n```\n# User Prompt") == Some("\n{}\n")
  {
    var cap := "\n{}\n";
    NoTickNoFence(cap + "``");
    assert "  ```JSON\n{}\n```\n# User Prompt" == "  " + "```" + "JSON" + cap + "```" + "\n# User Prompt";
    JsonFenceComplete("  ```JSON\n{}\n```\n# User Prompt", cap, "  ", "JSON", "\n# User Prompt");
  }

  /** The capture is lazy: it stops at the first closing fence. */
  lemma {:induction false} FenceIsLazy()
    ensures JsonFence("```json{}```x```") == Some("{}")
  {
    NoTickNoFence("{}" + "``");
    assert "```json{}```x```" == "" + "```" + "json" + "{}" + "```" + "x```";
    JsonFenceComplete("```json{}```x```", "{}", "", "json", "x```");
  }

  /** A block that does not open the document is no front matter, and gives `{}`. */
  lemma {:induction false} FenceNotAtStart(parse: string -> Json)
    ensures JsonFence("x```json{}```") == None
    ensures RawConfig("x```json{}```", parse) == EmptyObject
  {
    var content := "x```json{}```";
    SpanOfConcat("", content, IsSpace);
    assert "" + content == content;
  }

  /** A blank block gives `{}`, without calling the JSON parser. */
  lemma {:induction false} BlankFence(parse: string -> Json)
    ensures RawConfig("```json \n```", parse) == EmptyObject
  {
    var content := "```json \n```";
    NoTickNoFence(" \n" + "``");
    assert content == "" + "```" + "json" + " \n" + "```" + "";
    JsonFenceComplete(content, " \n", "", "json", "");
    JsonFenceSound(content);
    assert Every(" \n", IsSpace);
  }

  /**
   * A heading, a body line, a line closing the section and a line after it:
   * the record holds only the body line, with its newline, under the
   * heading's marker.
   */
  lemma {:induction false} HeadingBodyCloseAfter(L: seq<string>, W: seq<string>, lines: seq<string>, h: string)
    requires ValidLevels(L) && ValidWords(W) && |lines| == 4
    requires h in L && TitleHeading(lines[0], h, W)
    requires !IsTitleHeading(lines[1], L, W) && !ClosesSection(lines[1], h)
    requires !IsTitleHeading(lines[2], L, W) && ClosesSection(lines[2], h)
    requires !IsTitleHeading(lines[3], L, W)
    ensures ScanLines(L, W, lines).sections == [Entry(h, lines[1] + "\n")]
  {
    forall k | 1 <= k < 4 ensures MatchHeading(lines[k], L, W).None? {
      NotHeadingNoMatch(L, W, lines[k]);
    }
    assert IsMarker(h);
    HeadingBodyCloseAfterSteps(L, W, lines, h);
  }

  /** The executable test matches nothing on a line that is no title heading. */
  lemma {:induction false} NotHeadingNoMatch(L: seq<string>, W: seq<string>, line: string)
    requires ValidLevels(L) && ValidWords(W) && !IsTitleHeading(line, L, W)
    ensures MatchHeading(line, L, W).None?
  {
  }

  lemma {:induction false} HeadingBodyCloseAfterSteps(L: seq<string>, W: seq<string>, lines: seq<string>, h: string)
    requires ValidLevels(L) && ValidWords(W) && |lines| == 4
    requires MatchHeading(lines[0], L, W) == Some(h)
    requires MatchHeading(lines[1], L, W).None? && !EndsSection(lines[1], h)
    requires MatchHeading(lines[2], L, W).None? && EndsSection(lines[2], h)
    requires MatchHeading(lines[3], L, W).None?
    ensures ScanLines(L, W, lines).sections == [Entry(h, lines[1] + "\n")]
  {
    var s2 := ScanState(Some(h), [Entry(h, lines[1] + "\n")]);
    FirstTwoLines(L, W, lines, h);
    ScanLinesSnoc(L, W, lines, 2);
    BoundaryLineStep(L, W, s2, lines[2]);
    IdleLineStep(L, W, ScanState(None, s2.sections), lines[3]);
  }

  lemma {:induction false} FirstTwoLines(L: seq<string>, W: seq<string>, lines: seq<string>, h: string)
    requires ValidLevels(L) && ValidWords(W) && |lines| >= 2
    requires MatchHeading(lines[0], L, W) == Some(h)
    requires MatchHeading(lines[1], L, W).None? && !EndsSection(lines[1], h)
    ensures h in L && IsMarker(h)
    ensures ScanLines(L, W, lines[..2]) == ScanState(Some(h), [Entry(h, lines[1] + "\n")])
  {
    var s0 := ScanState(None, []);
    assert ScanLines(L, W, lines[..0]) == s0;
    ScanLinesSnoc(L, W, lines, 0);
    OpeningStep(L, W, lines[0], h);
    ScanLinesSnoc(L, W, lines, 1);
    FirstBodyStep(L, W, lines[1], h);
  }

  /** In the starting state a heading at `h` makes `h` active with an empty entry. */
  lemma {:induction false} OpeningStep(L: seq<string>, W: seq<string>, line: string, h: string)
    requires ValidLevels(L) && ValidWords(W) && MatchHeading(line, L, W) == Some(h)
    ensures h in L && IsMarker(h)
    ensures Step(L, W, ScanState(None, []), line) == ScanState(Some(h), [Entry(h, "")])
  {
  }

  /** A body line under a fresh entry becomes that entry's text. */
  lemma {:induction false} FirstBodyStep(L: seq<string>, W: seq<string>, line: string, h: string)
    requires ValidLevels(L) && ValidWords(W) && h in L && IsMarker(h)
    requires MatchHeading(line, L, W).None? && !EndsSection(line, h)
    ensures Coherent(L, ScanState(Some(h), [Entry(h, "")]))
    ensures Step(L, W, ScanState(Some(h), [Entry(h, "")]), line) == ScanState(Some(h), [Entry(h, line + "\n")])
  {
    FreshCoherent(L, h);
    AppendToFresh(h, line + "\n");
  }

  lemma {:induction false} FreshCoherent(L: seq<string>, h: string)
    requires h in L
    ensures Coherent(L, ScanState(Some(h), [Entry(h, "")]))
  {
    assert Markers([Entry(h, "")]) == [h];
  }

  lemma {:induction false} AppendToFresh(h: string, text: string)
    ensures AppendBody([Entry(h, "")], h, text) == [Entry(h, text)]
  {
    var sections := [Entry(h, "")];
    assert sections[1..] == [];
    assert AppendBody(sections, h, text) == [Entry(h, "" + text)] + [];
    assert "" + text == text;
  }

  /** `# Other` is no `userPrompt` heading, and it closes a `#` section. */
  lemma {:induction false} OtherLine()
    ensures MatchHeading("# Other", Levels, UserWords).None?
    ensures EndsSection("# Other", "#")
  {
    OtherNoHeading();
    OtherCloses();
  }

  lemma {:induction false} OtherNoHeading()
    ensures MatchHeading("# Other", Levels, UserWords).None?
  {
    UserSetting();
    OtherTitle();
    OtherUntitled();
    UntitledNoHeading(Levels, UserWords, "# Other");
  }

  lemma {:induction false} OtherTitle()
    ensures Dissect("# Other").title == "Other"
  {
    assert "# Other" == "" + ("#" + (" " + ("Other" + "")));
    DissectPieces("# Other", "", "#", " ", "Other", "");
  }

  lemma {:induction false} OtherUntitled()
    ensures !FuzzyTitle(UserWords, "Other")
  {
    UserSetting();
    assert Fold("Other"[0]) != Fold(UserWords[0][0]);
    TitleMismatch(UserWords, "Other");
  }

  /** A title whose first letter is not the first word's, in any case, does not match. */
  lemma {:induction false} TitleMismatch(W: seq<string>, t: string)
    requires ValidWords(W) && |t| > 0 && Fold(t[0]) != Fold(W[0][0])
    ensures !FuzzyTitle(W, t)
  {
    if FuzzyTitle(W, t) && |W| > 1 {
      FuzzyTitleHead(W, t);
    }
  }

  /** A line whose text after the marker does not match the title is no heading. */
  lemma {:induction false} UntitledNoHeading(L: seq<string>, W: seq<string>, line: string)
    requires ValidLevels(L) && ValidWords(W) && !FuzzyTitle(W, Dissect(line).title)
    ensures MatchHeading(line, L, W).None?
  {
  }

  lemma {:induction false} OtherCloses()
    ensures EndsSection("# Other", "#")
  {
    assert "# Other" == "" + "# Other";
    PeelSpan("# Other", "", "# Other", IsSpace);
  }

  const Document: string := "# User Prompt\nHello\n# Other\nWorld"
  const DocumentLines: seq<string> := ["# User Prompt", "Hello", "# Other", "World"]

  lemma {:induction false} DocumentSplits()
    ensures SplitLines(Document) == DocumentLines
  {
    DocumentJoins();
    DocumentLinesHaveNoNewline();
    SplitLinesOfJoin(DocumentLines);
  }

  lemma {:induction false} DocumentJoins()
    ensures |DocumentLines| >= 1 && JoinLines(DocumentLines) == Document
  {
    var parts := DocumentLines;
    assert JoinLines(parts[3..]) == "World";
    assert JoinLines(parts[2..]) == "# Other" + "\n" + "World";
    assert JoinLines(parts[1..]) == "Hello" + "\n" + JoinLines(parts[2..]);
    assert JoinLines(parts) == "# User Prompt" + "\n" + JoinLines(parts[1..]);
  }

  lemma {:induction false} DocumentLinesHaveNoNewline()
    ensures forall k :: 0 <= k < |DocumentLines| ==> '\n' !in DocumentLines[k]
  {
  }

  /** The four lines of the document leave only `Hello` and its newline, under `#`. */
  lemma {:induction false} DocumentScan()
    ensures ValidLevels(Levels) && ValidWords(UserWords)
    ensures ScanLines(Levels, UserWords, DocumentLines).sections == [Entry("#", DocumentLines[1] + "\n")]
  {
    UserSetting();
    DocumentFacts();
    HeadingBodyCloseAfter(Levels, UserWords, DocumentLines, "#");
  }

  lemma {:induction false} DocumentFacts()
    ensures var lines := DocumentLines;
            && TitleHeading(lines[0], "#", UserWords)
            && !IsTitleHeading(lines[1], Levels, UserWords) && !ClosesSection(lines[1], "#")
            && !IsTitleHeading(lines[2], Levels, UserWords) && ClosesSection(lines[2], "#")
            && !IsTitleHeading(lines[3], Levels, UserWords)
  {
    HeadingFact();
    HelloFact();
    OtherFact();
    WorldFact();
  }

  lemma {:induction false} HeadingFact()
    ensures TitleHeading("# User Prompt", "#", UserWords)
  {
    UserSetting();
    SpacedSpelling();
  }

  lemma {:induction false} HelloFact()
    ensures !IsTitleHeading("Hello", Levels, UserWords) && !ClosesSection("Hello", "#")
  {
    UserSetting();
    PlainLine(Levels, UserWords, "Hello", "#");
  }

  lemma {:induction false} OtherFact()
    ensures !IsTitleHeading("# Other", Levels, UserWords) && ClosesSection("# Other", "#")
  {
    UserSetting();
    OtherLine();
  }

  lemma {:induction false} WorldFact()
    ensures !IsTitleHeading("World", Levels, UserWords)
  {
    UserSetting();
    PlainLineNoHeading(Levels, UserWords, "World");
  }

  /**
   * For the document `# User Prompt`, `Hello`, `# Other`, `World` the scanner
   * returns `{'#': "Hello\n"}`, so `userPrompt` is `Hello` with its newline.
   */
  lemma {:induction false} DocumentExample()
    ensures TitlePrompt(ResolveTitleConfig[0], Document) == "Hello\n"
  {
    var item := ResolveTitleConfig[0];
    assert item == TitleConfig("userPrompt", Levels);
    ResolveTitleConfigValid();
    SplitUserPrompt();
    DocumentSplits();
    DocumentScan();
    PromptOfScan(item, Document, DocumentLines, UserWords);
    HelloBody();
  }

  lemma {:induction false} HelloBody()
    ensures DocumentLines[1] + "\n" == "Hello\n"
  {
  }

  /** The value stored for an item, once the document's lines and the title's words are known. */
  lemma {:induction false} PromptOfScan(item: TitleConfig, content: string, lines: seq<string>, words: seq<string>)
    requires ValidItem(item) && SplitLines(content) == lines && SplitCamel(item.title) == words
    ensures TitlePrompt(item, content) == FirstValue(ScanLines(item.levels, words, lines).sections)
  {
  }

  /** The same document gives the resolver `userPrompt: "Hello\n"`, whatever its parser and normaliser do. */
  lemma {:induction false} DocumentConfig(parse: string -> Json, normalize: Json -> Config)
    ensures var c := FileConfig(Document, parse, normalize);
            "userPrompt" in c && c["userPrompt"] == JStr("Hello\n")
  {
    DocumentExample();
    FileConfigFields(Document, parse, normalize);
  }
}
