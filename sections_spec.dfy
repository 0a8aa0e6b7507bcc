/**
 * What `findContentByTitleName` computes, said without the loop: which
 * marker is active after a prefix of the lines, which markers have an entry,
 * what each entry holds, and which entry comes first.
 */
module SectionsSpec {
  import opened Wrappers
  import opened Text
  import opened Title
  import opened Heading
  import opened Sections

  /**
   * How the scanner's two tests classify each line: `heads[k]` is the
   * requested marker line `k` is a title heading at, if any, and
   * `closes[k]` the requested markers whose sections line `k` ends.
   */
  ghost function Heads(levels: seq<string>, words: seq<string>, lines: seq<string>): (heads: seq<Option<string>>)
    requires ValidLevels(levels) && ValidWords(words)
  {
    seq(|lines|, k requires 0 <= k < |lines| => MatchHeading(lines[k], levels, words))
  }

  ghost function Closers(levels: seq<string>, lines: seq<string>): (closes: seq<set<string>>)
    requires ValidLevels(levels)
  {
    seq(|lines|, k requires 0 <= k < |lines| => set m | m in levels && EndsSection(lines[k], m))
  }

  /** The classification, stated with the regular-expression shapes of `Heading`. */
  lemma {:induction false} Classification(levels: seq<string>, words: seq<string>, lines: seq<string>, k: nat, m: string)
    requires ValidLevels(levels) && ValidWords(words) && k < |lines|
    ensures |Heads(levels, words, lines)| == |Closers(levels, lines)| == |lines|
    ensures Heads(levels, words, lines)[k] == Some(m) <==> m in levels && TitleHeading(lines[k], m, words)
    ensures Heads(levels, words, lines)[k].None? <==> !IsTitleHeading(lines[k], levels, words)
    ensures m in Closers(levels, lines)[k] <==> m in levels && ClosesSection(lines[k], m)
  {
    assert Heads(levels, words, lines)[k] == MatchHeading(lines[k], levels, words);
  }

  /** The classification of `lines`, one entry per line. */
  ghost predicate Classes(lines: seq<string>, heads: seq<Option<string>>, closes: seq<set<string>>) {
    |heads| == |lines| && |closes| == |lines|
  }

  /**
   * After the first `n` lines the marker `m` is active: some line opened a
   * section at `m`, and no later line was a heading or closed the section.
   */
  ghost predicate ActiveAfter(heads: seq<Option<string>>, closes: seq<set<string>>, n: nat, m: string)
    requires n <= |heads| && n <= |closes|
  {
    exists j :: 0 <= j < n && heads[j] == Some(m)
                && forall k :: j < k < n ==> heads[k].None? && m !in closes[k]
  }

  /** Some line among the first `n` opens a section at `m`. */
  ghost predicate Seen(heads: seq<Option<string>>, n: nat, m: string)
    requires n <= |heads|
  {
    exists j :: 0 <= j < n && heads[j] == Some(m)
  }

  /** Line `k` is body text of a section at `m`. */
  ghost predicate Collects(heads: seq<Option<string>>, closes: seq<set<string>>, k: nat, m: string)
    requires k < |heads| && k < |closes|
  {
    heads[k].None? && ActiveAfter(heads, closes, k, m) && m !in closes[k]
  }

  /** The body text of the sections at `m` among the first `n` lines, each line with its newline. */
  ghost function Gathered(lines: seq<string>, heads: seq<Option<string>>, closes: seq<set<string>>,
                          n: nat, m: string): string
    requires Classes(lines, heads, closes) && n <= |lines|
  {
    if n == 0 then ""
    else
      Gathered(lines, heads, closes, n - 1, m)
      + (if Collects(heads, closes, n - 1, m) then lines[n - 1] + "\n" else "")
  }

  lemma {:induction false} ActiveAfterHeading(heads: seq<Option<string>>, closes: seq<set<string>>, n: nat, m: string)
    requires n < |heads| && n < |closes| && heads[n].Some?
    ensures ActiveAfter(heads, closes, n + 1, m) <==> heads[n] == Some(m)
  {
    if ActiveAfter(heads, closes, n + 1, m) {
      var j :| 0 <= j < n + 1 && heads[j] == Some(m)
               && forall k :: j < k < n + 1 ==> heads[k].None? && m !in closes[k];
      assert j == n;
    }
  }

  lemma {:induction false} ActiveAfterOther(heads: seq<Option<string>>, closes: seq<set<string>>, n: nat, m: string)
    requires n < |heads| && n < |closes| && heads[n].None?
    ensures ActiveAfter(heads, closes, n + 1, m) <==> ActiveAfter(heads, closes, n, m) && m !in closes[n]
  {
    if ActiveAfter(heads, closes, n + 1, m) {
      var j :| 0 <= j < n + 1 && heads[j] == Some(m)
               && forall k :: j < k < n + 1 ==> heads[k].None? && m !in closes[k];
      assert j != n;
      assert ActiveAfter(heads, closes, n, m);
    }
    if ActiveAfter(heads, closes, n, m) && m !in closes[n] {
      var j :| 0 <= j < n && heads[j] == Some(m)
               && forall k :: j < k < n ==> heads[k].None? && m !in closes[k];
      assert forall k :: j < k < n + 1 ==> heads[k].None? && m !in closes[k];
    }
  }

  lemma {:induction false} SeenStep(heads: seq<Option<string>>, n: nat, m: string)
    requires n < |heads|
    ensures Seen(heads, n + 1, m) <==> Seen(heads, n, m) || heads[n] == Some(m)
  {
    if Seen(heads, n + 1, m) && heads[n] != Some(m) {
      var j :| 0 <= j < n + 1 && heads[j] == Some(m);
      assert j < n;
    }
  }

  lemma {:induction false} ActiveSeen(heads: seq<Option<string>>, closes: seq<set<string>>, n: nat, m: string)
    requires n <= |heads| && n <= |closes| && ActiveAfter(heads, closes, n, m)
    ensures Seen(heads, n, m)
  {
  }

  /** Nothing is gathered under a marker that no line has opened. */
  lemma {:induction false} GatheredUnseen(lines: seq<string>, heads: seq<Option<string>>, closes: seq<set<string>>,
                                          n: nat, m: string)
    requires Classes(lines, heads, closes) && n <= |lines| && !Seen(heads, n, m)
    ensures Gathered(lines, heads, closes, n, m) == ""
  {
    if n > 0 {
      SeenStep(heads, n - 1, m);
      GatheredUnseen(lines, heads, closes, n - 1, m);
      assert !ActiveAfter(heads, closes, n - 1, m);
    }
  }

  /** What the scan state after `n` lines means, in the terms above. */
  ghost predicate Meaning(lines: seq<string>, heads: seq<Option<string>>, closes: seq<set<string>>,
                          n: nat, st: ScanState)
    requires Classes(lines, heads, closes) && n <= |lines|
  {
    && (forall m {:trigger ActiveAfter(heads, closes, n, m)} :: st.active == Some(m) <==> ActiveAfter(heads, closes, n, m))
    && (forall m {:trigger Lookup(st.sections, m)} :: Lookup(st.sections, m)
                    == if Seen(heads, n, m) then Some(Gathered(lines, heads, closes, n, m)) else None)
  }

  lemma {:induction false} MeaningAt(lines: seq<string>, heads: seq<Option<string>>, closes: seq<set<string>>,
                                     n: nat, st: ScanState, m: string)
    requires Classes(lines, heads, closes) && n <= |lines| && Meaning(lines, heads, closes, n, st)
    ensures st.active == Some(m) <==> ActiveAfter(heads, closes, n, m)
    ensures Lookup(st.sections, m) == if Seen(heads, n, m) then Some(Gathered(lines, heads, closes, n, m)) else None
  {
  }

  /** After a heading at `h`: `h` is active, it has an entry, and no entry changes text. */
  lemma {:induction false} MeaningOfHeading(lines: seq<string>, heads: seq<Option<string>>, closes: seq<set<string>>,
                                            n: nat, st: ScanState, r: ScanState, h: string)
    requires Classes(lines, heads, closes) && n < |lines| && Meaning(lines, heads, closes, n, st)
    requires heads[n] == Some(h) && r.active == Some(h)
    requires Lookup(r.sections, h) == (if Lookup(st.sections, h).None? then Some("") else Lookup(st.sections, h))
    requires forall m :: m != h ==> Lookup(r.sections, m) == Lookup(st.sections, m)
    ensures Meaning(lines, heads, closes, n + 1, r)
  {
    forall m {:trigger ActiveAfter(heads, closes, n + 1, m)}
      ensures r.active == Some(m) <==> ActiveAfter(heads, closes, n + 1, m)
    {
      ActiveAfterHeading(heads, closes, n, m);
    }
    forall m ensures Lookup(r.sections, m)
                     == if Seen(heads, n + 1, m) then Some(Gathered(lines, heads, closes, n + 1, m)) else None
    {
      SeenStep(heads, n, m);
      MeaningAt(lines, heads, closes, n, st, m);
      assert !Collects(heads, closes, n, m);
      assert Gathered(lines, heads, closes, n + 1, m) == Gathered(lines, heads, closes, n, m) + "";
      assert Gathered(lines, heads, closes, n + 1, m) == Gathered(lines, heads, closes, n, m);
      assert Seen(heads, n + 1, m) <==> Seen(heads, n, m) || m == h;
      if m == h && !Seen(heads, n, m) {
        GatheredUnseen(lines, heads, closes, n, m);
      }
    }
  }

  /** After a line that is no heading while no marker is active, or that ends the active section. */
  lemma {:induction false} MeaningOfSkipped(lines: seq<string>, heads: seq<Option<string>>, closes: seq<set<string>>,
                                            n: nat, st: ScanState)
    requires Classes(lines, heads, closes) && n < |lines| && Meaning(lines, heads, closes, n, st)
    requires heads[n].None? && (st.active.None? || st.active.value in closes[n])
    ensures Meaning(lines, heads, closes, n + 1, ScanState(None, st.sections))
  {
    forall m {:trigger ActiveAfter(heads, closes, n + 1, m)} {:trigger Lookup(st.sections, m)}
      ensures !ActiveAfter(heads, closes, n + 1, m)
              && Lookup(st.sections, m)
                        == if Seen(heads, n + 1, m) then Some(Gathered(lines, heads, closes, n + 1, m)) else None
    {
      ActiveAfterOther(heads, closes, n, m);
      SeenStep(heads, n, m);
      MeaningAt(lines, heads, closes, n, st, m);
      assert !Collects(heads, closes, n, m);
      assert Gathered(lines, heads, closes, n + 1, m) == Gathered(lines, heads, closes, n, m) + "";
      assert Gathered(lines, heads, closes, n + 1, m) == Gathered(lines, heads, closes, n, m);
    }
  }

  /** After a body line of the active section `a`: the line and a newline are added to `a`'s entry. */
  lemma {:induction false} MeaningOfBody(lines: seq<string>, heads: seq<Option<string>>, closes: seq<set<string>>,
                                         n: nat, st: ScanState, r: ScanState)
    requires Classes(lines, heads, closes) && n < |lines| && Meaning(lines, heads, closes, n, st)
    requires heads[n].None? && st.active.Some? && st.active.value !in closes[n]
    requires r.active == st.active && Lookup(st.sections, st.active.value).Some?
    requires Lookup(r.sections, st.active.value) == Some(Lookup(st.sections, st.active.value).value + lines[n] + "\n")
    requires forall m :: m != st.active.value ==> Lookup(r.sections, m) == Lookup(st.sections, m)
    ensures Meaning(lines, heads, closes, n + 1, r)
  {
    var a := st.active.value;
    forall m {:trigger ActiveAfter(heads, closes, n + 1, m)}
      ensures r.active == Some(m) <==> ActiveAfter(heads, closes, n + 1, m)
    {
      ActiveAfterOther(heads, closes, n, m);
      MeaningAt(lines, heads, closes, n, st, m);
    }
    forall m ensures Lookup(r.sections, m)
                     == if Seen(heads, n + 1, m) then Some(Gathered(lines, heads, closes, n + 1, m)) else None
    {
      SeenStep(heads, n, m);
      MeaningAt(lines, heads, closes, n, st, m);
      if m == a {
        assert Collects(heads, closes, n, m);
        ActiveSeen(heads, closes, n, m);
        var g := Gathered(lines, heads, closes, n, m);
        assert g + lines[n] + "\n" == g + (lines[n] + "\n");
        assert Gathered(lines, heads, closes, n + 1, m) == Gathered(lines, heads, closes, n, m) + (lines[n] + "\n");
      } else {
        assert !Collects(heads, closes, n, m);
        assert Gathered(lines, heads, closes, n + 1, m) == Gathered(lines, heads, closes, n, m) + "";
        assert Gathered(lines, heads, closes, n + 1, m) == Gathered(lines, heads, closes, n, m);
      }
    }
  }

  /** The state after a heading line: its marker is active and only it may gain an entry, an empty one. */
  lemma {:induction false} HeadingLineStep(levels: seq<string>, words: seq<string>, st: ScanState, line: string, h: string)
    requires ValidLevels(levels) && ValidWords(words) && Coherent(levels, st)
    requires MatchHeading(line, levels, words) == Some(h)
    ensures var r := Step(levels, words, st, line);
            && r.active == Some(h)
            && Lookup(r.sections, h) == (if Lookup(st.sections, h).None? then Some("") else Lookup(st.sections, h))
            && forall m :: m != h ==> Lookup(r.sections, m) == Lookup(st.sections, m)
  {
    forall m {
      LookupAppended(st.sections, Entry(h, ""), m);
    }
  }

  /** A line that closes the active section clears the active marker and changes no entry. */
  lemma {:induction false} BoundaryLineStep(levels: seq<string>, words: seq<string>, st: ScanState, line: string)
    requires ValidLevels(levels) && ValidWords(words) && Coherent(levels, st)
    requires MatchHeading(line, levels, words).None?
    requires st.active.Some? && IsMarker(st.active.value) && EndsSection(line, st.active.value)
    ensures Step(levels, words, st, line) == ScanState(None, st.sections)
  {
  }

  /** Any other line, while a marker is active, is added with a newline to that marker's entry. */
  lemma {:induction false} BodyLineStep(levels: seq<string>, words: seq<string>, st: ScanState, line: string)
    requires ValidLevels(levels) && ValidWords(words) && Coherent(levels, st)
    requires MatchHeading(line, levels, words).None?
    requires st.active.Some? && IsMarker(st.active.value) && !EndsSection(line, st.active.value)
    ensures var r := Step(levels, words, st, line);
            var a := st.active.value;
            && r.active == st.active
            && Lookup(st.sections, a).Some?
            && Lookup(r.sections, a) == Some(Lookup(st.sections, a).value + line + "\n")
            && forall m :: m != a ==> Lookup(r.sections, m) == Lookup(st.sections, m)
  {
    var a := st.active.value;
    BodyStepState(levels, words, st, line);
    var g := Lookup(st.sections, a).value;
    assert g + (line + "\n") == g + line + "\n";
  }

  lemma {:induction false} BodyStepState(levels: seq<string>, words: seq<string>, st: ScanState, line: string)
    requires ValidLevels(levels) && ValidWords(words) && Coherent(levels, st)
    requires MatchHeading(line, levels, words).None?
    requires st.active.Some? && IsMarker(st.active.value) && !EndsSection(line, st.active.value)
    ensures Step(levels, words, st, line) == ScanState(st.active, AppendBody(st.sections, st.active.value, line + "\n"))
  {
  }

  /** While no marker is active, a line that is not a heading changes nothing. */
  lemma {:induction false} IdleLineStep(levels: seq<string>, words: seq<string>, st: ScanState, line: string)
    requires ValidLevels(levels) && ValidWords(words) && Coherent(levels, st)
    requires MatchHeading(line, levels, words).None? && st.active.None?
    ensures Step(levels, words, st, line) == st
  {
  }

  /** The scan over the first `n` lines has the meaning above. */
  lemma {:induction false} ScanMeaning(levels: seq<string>, words: seq<string>, lines: seq<string>, n: nat)
    requires ValidLevels(levels) && ValidWords(words) && n <= |lines|
    ensures Classes(lines, Heads(levels, words, lines), Closers(levels, lines))
    ensures Meaning(lines, Heads(levels, words, lines), Closers(levels, lines), n, ScanLines(levels, words, lines[..n]))
  {
    var heads, closes := Heads(levels, words, lines), Closers(levels, lines);
    if n > 0 {
      ScanMeaning(levels, words, lines, n - 1);
      ScanLinesSnoc(levels, words, lines, n - 1);
      var st := ScanLines(levels, words, lines[..n - 1]);
      var line := lines[n - 1];
      var r := Step(levels, words, st, line);
      assert heads[n - 1] == MatchHeading(line, levels, words);
      if heads[n - 1].Some? {
        HeadingLineStep(levels, words, st, line, heads[n - 1].value);
        MeaningOfHeading(lines, heads, closes, n - 1, st, r, heads[n - 1].value);
      } else if st.active.None? {
        IdleLineStep(levels, words, st, line);
        MeaningOfSkipped(lines, heads, closes, n - 1, st);
      } else {
        var a := st.active.value;
        ActiveIsMarker(levels, st);
        ActiveInLevels(levels, st);
        assert a in closes[n - 1] <==> EndsSection(line, a);
        if EndsSection(line, a) {
          BoundaryLineStep(levels, words, st, line);
          MeaningOfSkipped(lines, heads, closes, n - 1, st);
        } else {
          BodyLineStep(levels, words, st, line);
          MeaningOfBody(lines, heads, closes, n - 1, st, r);
        }
      }
    }
  }

  /** A step never changes which entry comes first, once there is one. */
  lemma {:induction false} StepKeepsFirst(levels: seq<string>, words: seq<string>, st: ScanState, line: string)
    requires ValidLevels(levels) && ValidWords(words) && Coherent(levels, st) && |st.sections| > 0
    ensures var r := Step(levels, words, st, line);
            |r.sections| > 0 && r.sections[0].marker == st.sections[0].marker
  {
    var r := Step(levels, words, st, line);
    var heading := MatchHeading(line, levels, words);
    if heading.Some? {
      var e := Entry(heading.value, "");
      if Lookup(st.sections, heading.value).None? {
        assert r.sections == st.sections + [e];
        assert (st.sections + [e])[0] == st.sections[0];
      }
    } else if st.active.Some? {
      var m := st.active.value;
      ActiveIsMarker(levels, st);
      if !EndsSection(line, m) {
        var sections := AppendBody(st.sections, m, line + "\n");
        assert r.sections == sections;
        assert sections[0].marker == Markers(sections)[0] == Markers(st.sections)[0];
      }
    }
  }

  /** Before the first heading line the scan has no active marker and no entry. */
  lemma {:induction false} NothingBeforeHeading(levels: seq<string>, words: seq<string>, lines: seq<string>, n: nat)
    requires ValidLevels(levels) && ValidWords(words) && n <= |lines|
    requires forall k :: 0 <= k < n ==> MatchHeading(lines[k], levels, words).None?
    ensures ScanLines(levels, words, lines[..n]) == ScanState(None, [])
  {
    if n > 0 {
      NothingBeforeHeading(levels, words, lines, n - 1);
      ScanLinesSnoc(levels, words, lines, n - 1);
      IdleLineStep(levels, words, ScanState(None, []), lines[n - 1]);
    }
  }

  /** From the first heading line on, the first entry is the one of that heading's marker. */
  lemma {:induction false} FirstEntryMarker(levels: seq<string>, words: seq<string>, lines: seq<string>,
                                            j: nat, n: nat)
    requires ValidLevels(levels) && ValidWords(words) && j < n <= |lines|
    requires MatchHeading(lines[j], levels, words).Some?
    requires forall k :: 0 <= k < j ==> MatchHeading(lines[k], levels, words).None?
    ensures var sections := ScanLines(levels, words, lines[..n]).sections;
            |sections| > 0 && Some(sections[0].marker) == MatchHeading(lines[j], levels, words)
  {
    ScanLinesSnoc(levels, words, lines, n - 1);
    var st := ScanLines(levels, words, lines[..n - 1]);
    if n == j + 1 {
      NothingBeforeHeading(levels, words, lines, j);
      OpeningHeading(levels, words, st, lines[j]);
    } else {
      FirstEntryMarker(levels, words, lines, j, n - 1);
      StepKeepsFirst(levels, words, st, lines[n - 1]);
    }
  }

  /** A heading seen in the starting state makes the first entry, at its marker. */
  lemma {:induction false} OpeningHeading(levels: seq<string>, words: seq<string>, st: ScanState, line: string)
    requires ValidLevels(levels) && ValidWords(words) && Coherent(levels, st) && |st.sections| == 0
    requires MatchHeading(line, levels, words).Some?
    ensures Step(levels, words, st, line).sections == [Entry(MatchHeading(line, levels, words).value, "")]
  {
  }

  /**
   * The record the scanner returns, in declarative terms: it has an entry
   * for `m` exactly when some line is a title heading at `m`, and the entry
   * holds the body lines of the sections at `m`, each with its newline.
   */
  lemma {:induction false} ResultMeaning(levels: seq<string>, words: seq<string>, lines: seq<string>, m: string)
    requires ValidLevels(levels) && ValidWords(words)
    ensures var heads, closes := Heads(levels, words, lines), Closers(levels, lines);
            && Classes(lines, heads, closes)
            && Lookup(ScanLines(levels, words, lines).sections, m)
               == if Seen(heads, |lines|, m) then Some(Gathered(lines, heads, closes, |lines|, m)) else None
  {
    ScanMeaning(levels, words, lines, |lines|);
    assert lines[..|lines|] == lines;
    MeaningAt(lines, Heads(levels, words, lines), Closers(levels, lines), |lines|,
              ScanLines(levels, words, lines), m);
  }

  /** None of the first `n` lines is a title heading at a requested marker. */
  ghost predicate NoTitleHeadingBefore(levels: seq<string>, words: seq<string>, lines: seq<string>, n: nat)
    requires n <= |lines|
  {
    forall k :: 0 <= k < n ==> !IsTitleHeading(lines[k], levels, words)
  }

  /** With no title heading among the lines, the record is empty. */
  lemma {:induction false} NoHeadingNoEntry(levels: seq<string>, words: seq<string>, lines: seq<string>)
    requires ValidLevels(levels) && ValidWords(words)
    requires NoTitleHeadingBefore(levels, words, lines, |lines|)
    ensures ScanLines(levels, words, lines).sections == []
  {
    forall k | 0 <= k < |lines| ensures MatchHeading(lines[k], levels, words).None? {
      Classification(levels, words, lines, k, "");
    }
    NothingBeforeHeading(levels, words, lines, |lines|);
    assert lines[..|lines|] == lines;
  }

  /**
   * Which entry comes first: when line `j` is the first title heading, at
   * marker `h`, the first entry is `h`'s, holding the body of the sections
   * at `h`.
   */
  lemma {:induction false} FirstEntry(levels: seq<string>, words: seq<string>, lines: seq<string>, j: nat, h: string)
    requires ValidLevels(levels) && ValidWords(words) && j < |lines|
    requires h in levels && TitleHeading(lines[j], h, words)
    requires NoTitleHeadingBefore(levels, words, lines, j)
    ensures var heads, closes := Heads(levels, words, lines), Closers(levels, lines);
            var sections := ScanLines(levels, words, lines).sections;
            && Classes(lines, heads, closes)
            && sections != [] && sections[0] == Entry(h, Gathered(lines, heads, closes, |lines|, h))
  {
    FirstEntryOfPrefix(levels, words, lines, j, h);
    assert lines[..|lines|] == lines;
  }

  /** `FirstEntry`, for the scan of `lines[..|lines|]`. */
  lemma {:induction false} FirstEntryOfPrefix(levels: seq<string>, words: seq<string>, lines: seq<string>, j: nat, h: string)
    requires ValidLevels(levels) && ValidWords(words) && j < |lines|
    requires h in levels && TitleHeading(lines[j], h, words)
    requires NoTitleHeadingBefore(levels, words, lines, j)
    ensures var heads, closes := Heads(levels, words, lines), Closers(levels, lines);
            var sections := ScanLines(levels, words, lines[..|lines|]).sections;
            && Classes(lines, heads, closes)
            && sections != [] && sections[0] == Entry(h, Gathered(lines, heads, closes, |lines|, h))
  {
    var heads, closes := Heads(levels, words, lines), Closers(levels, lines);
    var st := ScanLines(levels, words, lines[..|lines|]);
    FirstHeadingMatches(levels, words, lines, j, h);
    FirstEntryMarker(levels, words, lines, j, |lines|);
    ScanMeaning(levels, words, lines, |lines|);
    MeaningAt(lines, heads, closes, |lines|, st, h);
    assert Seen(heads, |lines|, h);
  }

  /** The first title heading is the first line the executable test matches, and it matches at its marker. */
  lemma {:induction false} FirstHeadingMatches(levels: seq<string>, words: seq<string>, lines: seq<string>, j: nat, h: string)
    requires ValidLevels(levels) && ValidWords(words) && j < |lines|
    requires h in levels && TitleHeading(lines[j], h, words)
    requires NoTitleHeadingBefore(levels, words, lines, j)
    ensures forall k :: 0 <= k < j ==> MatchHeading(lines[k], levels, words).None?
    ensures MatchHeading(lines[j], levels, words) == Some(h)
    ensures Heads(levels, words, lines)[j] == Some(h)
  {
    forall k | 0 <= k < j ensures MatchHeading(lines[k], levels, words).None? {
      Classification(levels, words, lines, k, h);
    }
    Classification(levels, words, lines, j, h);
  }
}
