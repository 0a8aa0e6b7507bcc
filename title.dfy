/**
 * The fuzzy title pattern of `findContentByTitleName`: a camelCase title name
 * is cut before each capital letter, and a heading title matches when it
 * spells those words in any case with any run of whitespace, `_` or `-`
 * between them.
 */
module Title {
  import opened Text

  /**
   * The title names the pattern is built from. The source puts the name into
   * a regular expression unescaped, so the model keeps to names made of ASCII
   * letters, as `userPrompt` and `systemPrompt` are.
   */
  predicate ValidTitleName(name: string) {
    |name| > 0 && Every(name, IsLetter)
  }

  /** The words of a title: at least one, each a nonempty run of letters. */
  predicate ValidWords(words: seq<string>) {
    |words| > 0 && forall k :: 0 <= k < |words| ==> |words[k]| > 0 && Every(words[k], IsLetter)
  }

  function Concat(words: seq<string>): string {
    if |words| == 0 then "" else words[0] + Concat(words[1..])
  }

  /**
   * `name.split(/(?=[A-Z])/)`: the pieces spell the name, every piece after
   * the first starts with a capital, and no piece holds a capital anywhere
   * else. These three facts determine the split.
   */
  function SplitCamel(name: string): (words: seq<string>)
    requires ValidTitleName(name)
    ensures ValidWords(words)
    ensures Concat(words) == name
    ensures forall k :: 0 < k < |words| ==> IsUpper(words[k][0])
    ensures forall k, j :: 0 <= k < |words| && 0 < j < |words[k]| ==> !IsUpper(words[k][j])
    decreases |name|
  {
    var n := 1 + Span(name[1..], NotUpper);
    var first := name[..n];
    CamelHead(name, n);
    if n == |name| then
      assert Concat([first]) == first + Concat([]);
      assert CamelWords(name, [first]);
      [first]
    else
      var rest := SplitCamel(name[n..]);
      assert CamelWords(name[n..], rest);
      CamelCons(name, first, rest);
      [first] + rest
  }

  /** The first word of the split: a nonempty run of letters with no capital after its first. */
  lemma {:induction false} CamelHead(name: string, n: nat)
    requires ValidTitleName(name) && n == 1 + Span(name[1..], NotUpper)
    ensures n <= |name| && name == name[..n] + name[n..]
    ensures |name[..n]| > 0 && Every(name[..n], IsLetter)
    ensures forall j :: 0 < j < n ==> !IsUpper(name[..n][j])
    ensures n < |name| ==> IsUpper(name[n]) && ValidTitleName(name[n..])
  {
    var first := name[..n];
    forall j | 0 < j < n ensures !IsUpper(first[j]) {
      assert first[j] == name[1..][..n - 1][j - 1];
    }
    if n < |name| {
      assert name[n] == name[1..][n - 1];
      assert Every(name[n..], IsLetter) by {
        forall j | 0 <= j < |name| - n ensures IsLetter(name[n..][j]) {
          assert name[n..][j] == name[n + j];
        }
      }
    }
  }

  /** A first word followed by the words of the rest of the name gives the words of the name. */
  lemma {:induction false} CamelCons(name: string, first: string, rest: seq<string>)
    requires name == first + Concat(rest) && |first| > 0 && Every(first, IsLetter)
    requires forall j :: 0 < j < |first| ==> !IsUpper(first[j])
    requires CamelWords(Concat(rest), rest) && |rest| > 0 && IsUpper(rest[0][0])
    ensures CamelWords(name, [first] + rest)
  {
    var words := [first] + rest;
    assert words[1..] == rest;
    forall k | 0 < k < |words| ensures IsUpper(words[k][0]) {
      assert words[k] == rest[k - 1];
    }
    forall k, j | 0 <= k < |words| && 0 < j < |words[k]| ensures !IsUpper(words[k][j]) {
      if k > 0 { assert words[k] == rest[k - 1]; }
    }
  }

  /** The three facts `SplitCamel` ensures, for an arbitrary list of words. */
  predicate CamelWords(name: string, words: seq<string>) {
    && ValidWords(words)
    && Concat(words) == name
    && (forall k :: 0 < k < |words| ==> IsUpper(words[k][0]))
    && (forall k, j :: 0 <= k < |words| && 0 < j < |words[k]| ==> !IsUpper(words[k][j]))
  }

  lemma {:induction false} ConcatLength(words: seq<string>)
    requires |words| > 0
    ensures |Concat(words)| >= |words[0]|
    ensures Concat(words) == words[0] + Concat(words[1..])
  {
  }

  /**
   * The split before each capital is the only list of words with those
   * facts, so `SplitCamel` is determined by its contract.
   */
  lemma {:induction false} SplitCamelUnique(name: string, words: seq<string>)
    requires ValidTitleName(name) && CamelWords(name, words)
    ensures words == SplitCamel(name)
    decreases |name|
  {
    var w := words[0];
    ConcatLength(words);
    assert name[..|w|] == w;
    var tail := name[1..];
    var pre := tail[..|w| - 1];
    assert Every(pre, NotUpper) by {
      forall j | 0 <= j < |pre| ensures !IsUpper(pre[j]) {
        assert pre[j] == w[j + 1];
      }
    }
    if |words| > 1 {
      ConcatLength(words[1..]);
      assert name[|w|] == words[1][0];
    } else {
      assert Concat(words[1..]) == "";
    }
    SpanUnique(tail, NotUpper, |w| - 1);
    var n := |w|;
    CamelHead(name, n);
    if |words| > 1 {
      var rest := words[1..];
      CamelTail(words);
      assert name[n..] == Concat(rest);
      SplitCamelUnique(name[n..], rest);
      assert words == [w] + rest;
    }
  }

  /** The words after the first are the words of the rest of the name. */
  lemma {:induction false} CamelTail(words: seq<string>)
    requires |words| > 1 && CamelWords(Concat(words), words)
    ensures CamelWords(Concat(words[1..]), words[1..])
  {
    var rest := words[1..];
    forall k | 0 < k < |rest| ensures IsUpper(rest[k][0]) {
      assert rest[k] == words[k + 1];
    }
    forall k, j | 0 <= k < |rest| && 0 < j < |rest[k]| ensures !IsUpper(rest[k][j]) {
      assert rest[k] == words[k + 1];
    }
  }

  /** `'userPrompt'.split(/(?=[A-Z])/)` is `['user', 'Prompt']`. */
  lemma {:induction false} SplitUserPrompt()
    ensures SplitCamel("userPrompt") == ["user", "Prompt"]
  {
    var words := ["user", "Prompt"];
    assert Concat(words) == "user" + ("Prompt" + Concat([]));
    SplitCamelUnique("userPrompt", words);
  }

  /** `'systemPrompt'.split(/(?=[A-Z])/)` is `['system', 'Prompt']`. */
  lemma {:induction false} SplitSystemPrompt()
    ensures SplitCamel("systemPrompt") == ["system", "Prompt"]
  {
    var words := ["system", "Prompt"];
    assert Concat(words) == "system" + ("Prompt" + Concat([]));
    SplitCamelUnique("systemPrompt", words);
  }

  /**
   * The declarative title pattern `w1[\s_-]*w2...[\s_-]*wn` under the `i`
   * flag: the first word (in any case), a run of separators, then the
   * remaining words.
   */
  ghost predicate FuzzyTitle(words: seq<string>, t: string)
    decreases |words|
  {
    if |words| == 0 then false
    else if |words| == 1 then CiEq(words[0], t)
    else
      exists x, s, y :: t == x + s + y && CiEq(words[0], x) && Every(s, IsSep)
                        && FuzzyTitle(words[1..], y)
  }

  /** A matching title is at least as long as its words together. */
  lemma {:induction false} FuzzyTitleLength(words: seq<string>, t: string)
    requires ValidWords(words) && FuzzyTitle(words, t)
    ensures |t| >= |Concat(words)|
    decreases |words|
  {
    ConcatLength(words);
    if |words| == 1 {
      assert Concat(words[1..]) == "";
    } else {
      var x, s, y :| t == x + s + y && CiEq(words[0], x) && Every(s, IsSep)
                     && FuzzyTitle(words[1..], y);
      FuzzyTitleLength(words[1..], y);
    }
  }

  /** A title that matches starts and ends with a letter. */
  lemma {:induction false} FuzzyTitleEnds(words: seq<string>, t: string)
    requires ValidWords(words)
    requires FuzzyTitle(words, t)
    ensures |t| > 0 && IsLetter(t[0]) && IsLetter(t[|t| - 1])
    decreases |words|
  {
    CiEqKeepsLetters(words[0], words[0]);
    if |words| == 1 {
      CiEqKeepsLetters(words[0], t);
    } else {
      var x, s, y :| t == x + s + y && CiEq(words[0], x) && Every(s, IsSep)
                     && FuzzyTitle(words[1..], y);
      CiEqKeepsLetters(words[0], x);
      FuzzyTitleEnds(words[1..], y);
      assert t[0] == x[0];
      assert t[|t| - 1] == y[|y| - 1];
    }
  }

  /** The facts a match gives about its first word and what follows it. */
  lemma {:induction false} FuzzyTitleHead(words: seq<string>, t: string)
    requires ValidWords(words) && |words| > 1 && FuzzyTitle(words, t)
    ensures |words[0]| <= |t| && CiEq(words[0], t[..|words[0]|])
    ensures var rest := t[|words[0]|..];
            FuzzyTitle(words[1..], rest[Span(rest, IsSep)..])
  {
    var x, s, y :| t == x + s + y && CiEq(words[0], x) && Every(s, IsSep)
                   && FuzzyTitle(words[1..], y);
    CutThree(t, x, s, y);
    ValidWordsTail(words);
    FuzzyTitleEnds(words[1..], y);
    PeelSpan(s + y, s, y, IsSep);
  }

  lemma {:induction false} ValidWordsTail(words: seq<string>)
    requires ValidWords(words) && |words| > 1
    ensures ValidWords(words[1..])
  {
    forall k | 0 <= k < |words| - 1 ensures |words[1..][k]| > 0 && Every(words[1..][k], IsLetter) {
      assert words[1..][k] == words[k + 1];
    }
  }

  lemma {:induction false} CutThree(t: string, x: string, s: string, y: string)
    requires t == x + s + y
    ensures |x| <= |t| && t[..|x|] == x && t[|x|..] == s + y
  {
  }

  /** The longest separator run after the first word is a valid split point. */
  lemma {:induction false} FuzzyTitleFromHead(words: seq<string>, t: string)
    requires ValidWords(words) && |words| > 1
    requires |words[0]| <= |t| && CiEq(words[0], t[..|words[0]|])
    requires var rest := t[|words[0]|..];
             FuzzyTitle(words[1..], rest[Span(rest, IsSep)..])
    ensures FuzzyTitle(words, t)
  {
    var rest := t[|words[0]|..];
    var k := Span(rest, IsSep);
    assert t == t[..|words[0]|] + rest[..k] + rest[k..];
  }

  /** A title of several words matches exactly when the greedy split after the first word does. */
  lemma {:induction false} FuzzyTitleSplit(words: seq<string>, t: string)
    requires ValidWords(words) && |words| > 1
    ensures FuzzyTitle(words, t) <==>
              && |words[0]| <= |t| && CiEq(words[0], t[..|words[0]|])
              && var rest := t[|words[0]|..];
                 FuzzyTitle(words[1..], rest[Span(rest, IsSep)..])
  {
    if FuzzyTitle(words, t) {
      FuzzyTitleHead(words, t);
    }
    if |words[0]| <= |t| && CiEq(words[0], t[..|words[0]|]) {
      var rest := t[|words[0]|..];
      if FuzzyTitle(words[1..], rest[Span(rest, IsSep)..]) {
        FuzzyTitleFromHead(words, t);
      }
    }
  }

  /**
   * Executable form of the pattern. Because every word starts with a letter
   * and a letter is not a separator, the separator run after a word is the
   * longest one, so matching never needs to backtrack.
   */
  function MatchTitle(words: seq<string>, t: string): (r: bool)
    requires ValidWords(words)
    ensures r <==> FuzzyTitle(words, t)
    decreases |words|
  {
    var w := words[0];
    if |words| == 1 then
      CiEq(w, t)
    else
      FuzzyTitleSplit(words, t);
      if |w| > |t| || !CiEq(w, t[..|w|]) then false
      else
        var rest := t[|w|..];
        MatchTitle(words[1..], rest[Span(rest, IsSep)..])
  }

  /** `words[0] + seps[0] + words[1] + ... + words[n-1]`. */
  function Interleave(words: seq<string>, seps: seq<string>): string
    requires |words| > 0 && |seps| == |words| - 1
    decreases |words|
  {
    if |words| == 1 then words[0]
    else words[0] + seps[0] + Interleave(words[1..], seps[1..])
  }

  predicate AllSeps(seps: seq<string>) {
    forall k :: 0 <= k < |seps| ==> Every(seps[k], IsSep)
  }

  lemma {:induction false} CiEqOfConcat(a1: string, a2: string, b: string)
    requires CiEq(a1 + a2, b)
    ensures |a1| <= |b| && CiEq(a1, b[..|a1|]) && CiEq(a2, b[|a1|..])
  {
    forall i | 0 <= i < |a2| ensures Fold(a2[i]) == Fold(b[|a1|..][i]) {
      assert (a1 + a2)[|a1| + i] == a2[i];
    }
  }

  lemma {:induction false} CiEqRefl(a: string)
    ensures CiEq(a, a)
  {
  }

  lemma {:induction false} CiEqOfParts(a1: string, b1: string, a2: string, b2: string)
    requires CiEq(a1, b1) && CiEq(a2, b2)
    ensures CiEq(a1 + a2, b1 + b2)
  {
    forall i | 0 <= i < |a1| + |a2| ensures Fold((a1 + a2)[i]) == Fold((b1 + b2)[i]) {
      if i >= |a1| {
        assert Fold(a2[i - |a1|]) == Fold(b2[i - |a1|]);
      }
    }
  }

  /** A separator string is equal, up to case, only to itself. */
  lemma {:induction false} CiEqSeps(s: string, b: string)
    requires Every(s, IsSep) && CiEq(s, b)
    ensures b == s
  {
    forall i | 0 <= i < |s| ensures b[i] == s[i] {
      assert Fold(s[i]) == Fold(b[i]);
    }
  }

  /**
   * Title fuzziness, one direction: the words joined by any runs of
   * whitespace, `_` or `-`, written in any case, match.
   */
  lemma {:induction false} SeparatedWordsMatch(words: seq<string>, seps: seq<string>, t: string)
    requires ValidWords(words) && |seps| == |words| - 1 && AllSeps(seps)
    requires CiEq(Interleave(words, seps), t)
    ensures FuzzyTitle(words, t)
    decreases |words|
  {
    if |words| > 1 {
      var w, s, rest := words[0], seps[0], Interleave(words[1..], seps[1..]);
      assert Interleave(words, seps) == w + (s + rest);
      CiEqOfConcat(w, s + rest, t);
      var t2 := t[|w|..];
      CiEqOfConcat(s, rest, t2);
      CiEqSeps(s, t2[..|s|]);
      SeparatedWordsMatch(words[1..], seps[1..], t2[|s|..]);
      assert t == t[..|w|] + t2[..|s|] + t2[|s|..];
    }
  }

  /**
   * Title fuzziness, other direction: every matching title is the words,
   * in some case, with separator runs between them.
   */
  lemma {:induction false} MatchIsSeparatedWords(words: seq<string>, t: string)
    requires ValidWords(words) && FuzzyTitle(words, t)
    ensures exists seps :: |seps| == |words| - 1 && AllSeps(seps) && CiEq(Interleave(words, seps), t)
    decreases |words|
  {
    if |words| == 1 {
      assert CiEq(Interleave(words, []), t);
    } else {
      var x, s, y :| t == x + s + y && CiEq(words[0], x) && Every(s, IsSep)
                     && FuzzyTitle(words[1..], y);
      MatchIsSeparatedWords(words[1..], y);
      var seps' :| |seps'| == |words| - 2 && AllSeps(seps') && CiEq(Interleave(words[1..], seps'), y);
      var seps := [s] + seps';
      assert seps[1..] == seps';
      var v := Interleave(words[1..], seps');
      assert Interleave(words, seps) == words[0] + s + v;
      CiEqRefl(s);
      CiEqOfParts(words[0], x, s, s);
      CiEqOfParts(words[0] + s, x + s, v, y);
      assert AllSeps(seps) by {
        forall k | 0 <= k < |seps| ensures Every(seps[k], IsSep) {
          if k > 0 { assert seps[k] == seps'[k - 1]; }
        }
      }
      assert CiEq(Interleave(words, seps), t);
    }
  }

  /** The title name itself, as written, matches its own pattern. */
  lemma {:induction false} NameMatchesItself(name: string)
    requires ValidTitleName(name)
    ensures FuzzyTitle(SplitCamel(name), name)
  {
    var words := SplitCamel(name);
    var seps := seq(|words| - 1, _ => "");
    InterleaveEmpty(words, seps);
    SeparatedWordsMatch(words, seps, name);
  }

  lemma {:induction false} InterleaveEmpty(words: seq<string>, seps: seq<string>)
    requires |words| > 0 && |seps| == |words| - 1
    requires forall k :: 0 <= k < |seps| ==> seps[k] == ""
    ensures Interleave(words, seps) == Concat(words)
    decreases |words|
  {
    if |words| > 1 {
      InterleaveEmpty(words[1..], seps[1..]);
    } else {
      assert Concat(words) == words[0] + Concat([]);
    }
  }
}
