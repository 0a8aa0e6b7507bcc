/**
 * The two line tests of `findContentByTitleName`: whether a line is a heading
 * with the requested title at one of the requested levels, and whether a
 * line opens with the marker of the active section (and so ends it).
 */
module Heading {
  import opened Wrappers
  import opened Text
  import opened Title

  /** A heading marker: a nonempty run of `#`, as in `#` and `##`. */
  predicate IsMarker(m: string) {
    |m| > 0 && Every(m, IsHash)
  }

  /**
   * The levels the scanner is called with. The source joins them into an
   * alternation unescaped, so the model keeps to `#` markers.
   */
  predicate ValidLevels(levels: seq<string>) {
    |levels| > 0 && forall k :: 0 <= k < |levels| ==> IsMarker(levels[k])
  }

  /**
   * The whole line is optional whitespace, the marker `m`, at least one
   * whitespace character, a title matching `words`, and optional trailing
   * whitespace: `^\s*(m)\s+(title)\s*$`.
   */
  ghost predicate TitleHeading(line: string, m: string, words: seq<string>) {
    exists a, b, t, c {:trigger a + m + b + t + c} :: line == a + m + b + t + c
                         && Every(a, IsSpace) && |b| > 0 && Every(b, IsSpace)
                         && FuzzyTitle(words, t) && Every(c, IsSpace)
  }

  /** The line is a title heading at one of the requested levels. */
  ghost predicate IsTitleHeading(line: string, levels: seq<string>, words: seq<string>) {
    exists m {:trigger TitleHeading(line, m, words)} :: m in levels && TitleHeading(line, m, words)
  }

  /**
   * How a line falls apart around its first run of `#`: indentation, the
   * run of `#`, the whitespace after it, the text up to the trailing
   * whitespace, and that trailing whitespace.
   */
  datatype Parts = Parts(indent: string, marker: string, gap: string, title: string, trail: string)

  function Dissect(line: string): (p: Parts)
    ensures line == p.indent + p.marker + p.gap + p.title + p.trail
    ensures Every(p.indent, IsSpace) && Every(p.marker, IsHash)
    ensures Every(p.gap, IsSpace) && Every(p.trail, IsSpace)
  {
    var i := Span(line, IsSpace);
    var afterIndent := line[i..];
    var h := Span(afterIndent, IsHash);
    var rest := afterIndent[h..];
    var k := Span(rest, IsSpace);
    var body := rest[k..];
    var title := TrimEnd(body);
    Cut4(line, i, h, k, |title|);
    assert body[..|title|] == title;
    Parts(line[..i], afterIndent[..h], rest[..k], title, body[|title|..])
  }

  /**
   * `Dissect` cuts a line made of whitespace, a `#` run, whitespace, a text
   * without whitespace at its ends and whitespace at those very pieces.
   */
  lemma {:induction false} DissectPieces(line: string, a: string, m: string, b: string, t: string, c: string)
    requires line == a + (m + (b + (t + c)))
    requires Every(a, IsSpace) && IsMarker(m) && |b| > 0 && Every(b, IsSpace) && Every(c, IsSpace)
    requires |t| > 0 && !IsSpace(t[0]) && !IsSpace(t[|t| - 1])
    ensures Dissect(line) == Parts(a, m, b, t, c)
  {
    var r3 := t + c;
    var r2 := b + r3;
    var r1 := m + r2;
    PeelSpan(line, a, r1, IsSpace);
    PeelSpan(r1, m, r2, IsHash);
    PeelSpan(r2, b, r3, IsSpace);
    TrimEndOfConcat(t, c);
    assert r3[..|t|] == t && r3[|t|..] == c;
  }

  /** The pieces of a title heading are the ones `Dissect` finds. */
  lemma {:induction false} DissectTitleHeading(line: string, m: string, words: seq<string>,
                                               a: string, b: string, t: string, c: string)
    requires IsMarker(m) && ValidWords(words)
    requires line == a + m + b + t + c
    requires Every(a, IsSpace) && |b| > 0 && Every(b, IsSpace)
    requires FuzzyTitle(words, t) && Every(c, IsSpace)
    ensures Dissect(line) == Parts(a, m, b, t, c)
  {
    FuzzyTitleEnds(words, t);
    Regroup5(a, m, b, t, c);
    DissectPieces(line, a, m, b, t, c);
  }

  /** The pieces `Dissect` finds witness a title heading when they have its shape. */
  lemma {:induction false} DissectedHeading(line: string, words: seq<string>)
    ensures var p := Dissect(line);
            |p.gap| > 0 && FuzzyTitle(words, p.title) ==> TitleHeading(line, p.marker, words)
  {
    var p := Dissect(line);
    if |p.gap| > 0 && FuzzyTitle(words, p.title) {
      assert line == p.indent + p.marker + p.gap + p.title + p.trail;
    }
  }

  /** A title heading at `m` dissects into `m`, a nonempty gap and a matching title. */
  lemma {:induction false} HeadingDissects(line: string, words: seq<string>)
    requires ValidWords(words)
    ensures forall m {:trigger TitleHeading(line, m, words)} :: IsMarker(m) && TitleHeading(line, m, words) ==>
              var p := Dissect(line);
              p.marker == m && |p.gap| > 0 && FuzzyTitle(words, p.title)
  {
    forall m | IsMarker(m) && TitleHeading(line, m, words)
      ensures var p := Dissect(line);
              p.marker == m && |p.gap| > 0 && FuzzyTitle(words, p.title)
    {
      var a, b, t, c :| line == a + m + b + t + c
                        && Every(a, IsSpace) && |b| > 0 && Every(b, IsSpace)
                        && FuzzyTitle(words, t) && Every(c, IsSpace);
      DissectTitleHeading(line, m, words, a, b, t, c);
    }
  }

  /**
   * Executable heading test: the line is a title heading at `r.value`, and a
   * line that is a title heading at a requested level `m` gives exactly `m`.
   */
  function MatchHeading(line: string, levels: seq<string>, words: seq<string>): (r: Option<string>)
    requires ValidLevels(levels) && ValidWords(words)
    ensures r.Some? ==> r.value in levels && TitleHeading(line, r.value, words)
    ensures forall m {:trigger TitleHeading(line, m, words)} :: m in levels && TitleHeading(line, m, words) ==> r == Some(m)
  {
    var p := Dissect(line);
    DissectedHeading(line, words);
    HeadingDissects(line, words);
    if p.marker in levels && |p.gap| > 0 && MatchTitle(words, p.title) then Some(p.marker) else None
  }

  /** `^\s*(m)\s+`: optional whitespace, the marker `m`, then whitespace. */
  ghost predicate ClosesSection(line: string, m: string) {
    exists a, rest {:trigger a + m + rest} :: line == a + m + rest && Every(a, IsSpace) && |rest| > 0 && IsSpace(rest[0])
  }

  /** Where a closing line has its marker: right after the indentation, as the whole `#` run there. */
  lemma {:induction false} ClosesSectionAt(line: string, m: string)
    requires IsMarker(m)
    ensures ClosesSection(line, m) ==>
              var i := Span(line, IsSpace);
              && i + |m| < |line| && line[i..i + |m|] == m && IsSpace(line[i + |m|])
              && Span(line[i..], IsHash) == |m|
  {
    if !ClosesSection(line, m) { return; }
    var a, rest :| line == a + m + rest && Every(a, IsSpace) && |rest| > 0 && IsSpace(rest[0]);
    assert line == a + (m + rest);
    PeelSpan(line, a, m + rest, IsSpace);
    PeelSpan(m + rest, m, rest, IsHash);
    assert line[|a|..|a| + |m|] == m;
  }

  /** Executable section-boundary test. */
  function EndsSection(line: string, m: string): (r: bool)
    requires IsMarker(m)
    ensures r <==> ClosesSection(line, m)
  {
    var i := Span(line, IsSpace);
    var r := i + |m| < |line| && line[i..i + |m|] == m && IsSpace(line[i + |m|]);
    if r then
      assert line == line[..i] + m + line[i + |m|..];
      r
    else
      ClosesSectionAt(line, m);
      r
  }

  /**
   * A line closes a section only of the level it is written at: a deeper
   * heading (`## sub` under `#`) and a shallower one (`# x` under `##`)
   * do not end the section.
   */
  lemma {:induction false} OnlySameLevelCloses(line: string, m: string, n: string)
    requires IsMarker(m) && IsMarker(n)
    requires ClosesSection(line, m) && ClosesSection(line, n)
    ensures m == n
  {
    ClosingMarker(line, m);
    ClosingMarker(line, n);
  }

  /** The marker a line closes a section of is the whole `#` run that opens the line. */
  lemma {:induction false} ClosingMarker(line: string, m: string)
    requires IsMarker(m) && ClosesSection(line, m)
    ensures Dissect(line).marker == m
  {
    var a, rest :| line == a + m + rest && Every(a, IsSpace) && |rest| > 0 && IsSpace(rest[0]);
    assert line == a + (m + rest);
    PeelSpan(line, a, m + rest, IsSpace);
    PeelSpan(m + rest, m, rest, IsHash);
  }
}
