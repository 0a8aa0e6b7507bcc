/**
 * `findContentByTitleName`: a single pass over the lines of the document
 * with one piece of state, the marker of the active section (or none), that
 * collects under each requested marker the lines of the sections whose
 * heading has the requested title.
 */
module Sections {
  import opened Wrappers
  import opened Text
  import opened Title
  import opened Heading

  /** One entry of the result record: a heading marker and the text collected under it. */
  datatype Entry = Entry(marker: string, body: string)

  /** The keys of the result record, in insertion order. */
  function Markers(sections: seq<Entry>): (ms: seq<string>)
    ensures |ms| == |sections|
    ensures forall k :: 0 <= k < |sections| ==> ms[k] == sections[k].marker
  {
    if |sections| == 0 then [] else [sections[0].marker] + Markers(sections[1..])
  }

  /** `result[m]`: the body kept under `m`, if the record has that key. */
  function Lookup(sections: seq<Entry>, m: string): (r: Option<string>)
    ensures r.Some? <==> m in Markers(sections)
    ensures forall k {:trigger Markers(sections[..k])} ::
              0 <= k < |sections| && sections[k].marker == m && m !in Markers(sections[..k])
              ==> r == Some(sections[k].body)
    decreases |sections|
  {
    if |sections| == 0 then None
    else if sections[0].marker == m then Some(sections[0].body)
    else
      MarkersOfPrefixes(sections);
      Lookup(sections[1..], m)
  }

  /** The keys before position `k` are the first key followed by the tail's keys before `k - 1`. */
  lemma {:induction false} MarkersOfPrefixes(sections: seq<Entry>)
    requires |sections| > 0
    ensures forall k {:trigger Markers(sections[..k])} :: 0 < k <= |sections| ==>
              Markers(sections[..k]) == [sections[0].marker] + Markers(sections[1..][..k - 1])
  {
    forall k | 0 < k <= |sections|
      ensures Markers(sections[..k]) == [sections[0].marker] + Markers(sections[1..][..k - 1])
    {
      assert sections[..k][1..] == sections[1..][..k - 1];
    }
  }

  predicate Distinct(ms: seq<string>) {
    forall i, j :: 0 <= i < j < |ms| ==> ms[i] != ms[j]
  }

  /**
   * `if (!result[m]) result[m] = ''`: a missing key is added, empty, at the
   * end; an existing entry keeps its text and its place (an entry holding
   * `''` is set to `''` again, which changes nothing).
   */
  function AddEntry(sections: seq<Entry>, m: string): (r: seq<Entry>)
    ensures Markers(r) == if m in Markers(sections) then Markers(sections) else Markers(sections) + [m]
    ensures Lookup(r, m) == if Lookup(sections, m).Some? then Lookup(sections, m) else Some("")
    ensures forall n :: n != m ==> Lookup(r, n) == Lookup(sections, n)
    ensures Lookup(sections, m).Some? ==> r == sections
    ensures Lookup(sections, m).None? ==> r == sections + [Entry(m, "")]
  {
    if Lookup(sections, m).Some? then sections
    else
      var r := sections + [Entry(m, "")];
      LookupAppendedAll(sections, Entry(m, ""));
      assert Markers(r) == Markers(sections) + [m];
      r
  }

  lemma {:induction false} LookupAppended(sections: seq<Entry>, e: Entry, n: string)
    ensures Lookup(sections + [e], n) ==
              if Lookup(sections, n).Some? then Lookup(sections, n)
              else if n == e.marker then Some(e.body) else None
    decreases |sections|
  {
    if |sections| > 0 {
      assert (sections + [e])[1..] == sections[1..] + [e];
      LookupAppended(sections[1..], e, n);
    } else {
      assert [] + [e] == [e];
    }
  }

  /** Appending an entry leaves every earlier key's lookup as it was. */
  lemma {:induction false} LookupAppendedAll(sections: seq<Entry>, e: Entry)
    ensures forall n :: Lookup(sections + [e], n) ==
              if Lookup(sections, n).Some? then Lookup(sections, n)
              else if n == e.marker then Some(e.body) else None
  {
    forall n {
      LookupAppended(sections, e, n);
    }
  }

  /**
   * `result[m] += text`: the entry under `m` gets `text` at its end, and no
   * key and no other entry changes.
   */
  function AppendBody(sections: seq<Entry>, m: string, text: string): (r: seq<Entry>)
    ensures Markers(r) == Markers(sections)
    ensures Lookup(r, m) == if Lookup(sections, m).Some? then Some(Lookup(sections, m).value + text) else None
    ensures forall n :: n != m ==> Lookup(r, n) == Lookup(sections, n)
    decreases |sections|
  {
    if |sections| == 0 then []
    else if sections[0].marker == m then [Entry(m, sections[0].body + text)] + sections[1..]
    else
      var r := [sections[0]] + AppendBody(sections[1..], m, text);
      assert r[1..] == AppendBody(sections[1..], m, text);
      r
  }

  /** The loop's state: the active marker (`currentLevel`, `''` being none) and the record so far. */
  datatype ScanState = ScanState(active: Option<string>, sections: seq<Entry>)

  /**
   * What the loop keeps true: every key is a requested marker, no key occurs
   * twice, and the active marker always has an entry.
   */
  predicate Coherent(levels: seq<string>, st: ScanState) {
    && (forall k :: 0 <= k < |st.sections| ==> st.sections[k].marker in levels)
    && Distinct(Markers(st.sections))
    && (st.active.Some? ==> st.active.value in Markers(st.sections))
  }

  /** Adding a requested marker keeps the record coherent and makes the marker a key. */
  lemma {:induction false} AddEntryCoherent(levels: seq<string>, st: ScanState, m: string)
    requires Coherent(levels, st) && m in levels
    ensures Coherent(levels, ScanState(Some(m), AddEntry(st.sections, m)))
  {
    var sections := AddEntry(st.sections, m);
    if Lookup(st.sections, m).None? {
      assert Markers(sections) == Markers(st.sections) + [m];
    }
  }

  /** Appending text to an entry keeps the record coherent. */
  lemma {:induction false} AppendBodyCoherent(levels: seq<string>, st: ScanState, m: string, text: string)
    requires Coherent(levels, st) && st.active == Some(m)
    ensures Coherent(levels, ScanState(Some(m), AppendBody(st.sections, m, text)))
  {
    var sections := AppendBody(st.sections, m, text);
    assert Markers(sections) == Markers(st.sections);
    forall k | 0 <= k < |sections| ensures sections[k].marker in levels {
      assert sections[k].marker == Markers(sections)[k] == Markers(st.sections)[k];
    }
  }

  /** The active marker of a coherent state is a requested marker, so a `#` run. */
  lemma {:induction false} ActiveIsMarker(levels: seq<string>, st: ScanState)
    requires ValidLevels(levels) && Coherent(levels, st) && st.active.Some?
    ensures IsMarker(st.active.value)
  {
    var ms := Markers(st.sections);
    var k :| 0 <= k < |ms| && ms[k] == st.active.value;
    assert st.sections[k].marker in levels;
  }

  /** The active marker of a coherent state is one of the requested markers. */
  lemma {:induction false} ActiveInLevels(levels: seq<string>, st: ScanState)
    requires Coherent(levels, st) && st.active.Some?
    ensures st.active.value in levels
  {
    var ms := Markers(st.sections);
    var k :| 0 <= k < |ms| && ms[k] == st.active.value;
    assert st.sections[k].marker in levels;
  }

  /** One turn of the loop at `line`. */
  function Step(levels: seq<string>, words: seq<string>, st: ScanState, line: string): (r: ScanState)
    requires ValidLevels(levels) && ValidWords(words)
    requires Coherent(levels, st)
    ensures Coherent(levels, r)
  {
    match MatchHeading(line, levels, words)
    case Some(m) =>
      AddEntryCoherent(levels, st, m);
      ScanState(Some(m), AddEntry(st.sections, m))
    case None =>
      if st.active.None? then st
      else
        var m := st.active.value;
        ActiveIsMarker(levels, st);
        if EndsSection(line, m) then ScanState(None, st.sections)
        else
          AppendBodyCoherent(levels, st, m, line + "\n");
          ScanState(Some(m), AppendBody(st.sections, m, line + "\n"))
  }

  /** The state after the loop has seen all of `lines`, one `Step` per line in order. */
  function ScanLines(levels: seq<string>, words: seq<string>, lines: seq<string>): (r: ScanState)
    requires ValidLevels(levels) && ValidWords(words)
    ensures Coherent(levels, r)
    decreases |lines|
  {
    if |lines| == 0 then ScanState(None, [])
    else Step(levels, words, ScanLines(levels, words, lines[..|lines| - 1]), lines[|lines| - 1])
  }

  lemma {:induction false} ScanLinesSnoc(levels: seq<string>, words: seq<string>, lines: seq<string>, i: nat)
    requires ValidLevels(levels) && ValidWords(words) && i < |lines|
    ensures ScanLines(levels, words, lines[..i + 1])
            == Step(levels, words, ScanLines(levels, words, lines[..i]), lines[i])
  {
    assert lines[..i + 1][..i] == lines[..i];
  }

  /**
   * The body of the scanner's loop for one line: a heading sets the active
   * marker and gives it an entry if it has none; any other line first ends
   * the active section if it opens with the active marker, and otherwise
   * goes, with a newline, under the active marker.
   */
  method ScanLine(levels: seq<string>, words: seq<string>,
                  currentLevel: Option<string>, result: seq<Entry>, line: string)
    returns (level': Option<string>, result': seq<Entry>)
    requires ValidLevels(levels) && ValidWords(words)
    requires Coherent(levels, ScanState(currentLevel, result))
    ensures ScanState(level', result') == Step(levels, words, ScanState(currentLevel, result), line)
  {
    level', result' := currentLevel, result;
    var heading := MatchHeading(line, levels, words);
    if heading.Some? {
      level' := heading;
      if Lookup(result', level'.value).None? {
        result' := result' + [Entry(level'.value, "")];
      }
    } else if level'.Some? {
      ActiveIsMarker(levels, ScanState(currentLevel, result));
      if EndsSection(line, level'.value) {
        level' := None;
      }
      if level'.Some? {
        result' := AppendBody(result', level'.value, line + "\n");
      }
    }
  }

  /**
   * The loop of the scanner: one `ScanLine` per line, in order, starting
   * with no active marker and an empty record.
   */
  method ScanAll(levels: seq<string>, words: seq<string>, lines: seq<string>) returns (result: seq<Entry>)
    requires ValidLevels(levels) && ValidWords(words)
    ensures result == ScanLines(levels, words, lines).sections
  {
    result := [];
    var currentLevel: Option<string> := None;
    for i := 0 to |lines|
      invariant ScanState(currentLevel, result) == ScanLines(levels, words, lines[..i])
    {
      ScanLinesSnoc(levels, words, lines, i);
      currentLevel, result := ScanLine(levels, words, currentLevel, result, lines[i]);
    }
    assert lines[..|lines|] == lines;
  }

  /**
   * `findContentByTitleName`: the title's words and the document's lines
   * are fed to the loop; the record's keys are distinct requested markers.
   */
  method FindContentByTitleName(titleName: string, levels: seq<string>, content: string)
    returns (result: seq<Entry>)
    requires ValidTitleName(titleName) && ValidLevels(levels)
    ensures result == ScanLines(levels, SplitCamel(titleName), SplitLines(content)).sections
    ensures forall k :: 0 <= k < |result| ==> result[k].marker in levels
    ensures Distinct(Markers(result))
  {
    var words := SplitCamel(titleName);
    var lines := SplitLines(content);
    result := ScanAll(levels, words, lines);
  }
}
