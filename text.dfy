/**
 * Character classes and string helpers shared by the parser: JavaScript's
 * `\s` class, ASCII case folding as a case-insensitive (non-unicode) regular
 * expression applies it, `String.prototype.trim`, and `split('\n')`.
 */
module Text {

  /** JavaScript's `\s`: the WhiteSpace and LineTerminator code points. */
  predicate IsSpace(c: char) {
    || c == '\t' || c == '\n' || c == '\U{000B}' || c == '\U{000C}' || c == '\r'
    || c == ' ' || c == '\U{00A0}' || c == '\U{1680}'
    || ('\U{2000}' <= c <= '\U{200A}')
    || c == '\U{2028}' || c == '\U{2029}' || c == '\U{202F}' || c == '\U{205F}'
    || c == '\U{3000}' || c == '\U{FEFF}'
  }

  /** The class `[\s_-]` allowed between the words of a title. */
  predicate IsSep(c: char) {
    IsSpace(c) || c == '_' || c == '-'
  }

  predicate NotNewline(c: char) {
    c != '\n'
  }

  predicate IsHash(c: char) {
    c == '#'
  }

  predicate IsLower(c: char) {
    'a' <= c <= 'z'
  }

  /** The class `[A-Z]` (no case-insensitive flag: ASCII capitals only). */
  predicate IsUpper(c: char) {
    'A' <= c <= 'Z'
  }

  predicate NotUpper(c: char) {
    !IsUpper(c)
  }

  predicate IsLetter(c: char) {
    IsLower(c) || IsUpper(c)
  }

  /**
   * The canonical form the `i` flag compares. Without the `u` flag a
   * character whose upper case is ASCII but which is not ASCII itself keeps
   * its own form, so only the ASCII letters fold.
   */
  function Fold(c: char): (r: char)
    ensures IsLetter(c) ==> IsUpper(r)
    ensures !IsLetter(c) ==> r == c
  {
    if IsLower(c) then (c as int - 32) as char else c
  }

  /** Case-insensitive equality of two strings of the same length. */
  predicate CiEq(a: string, b: string) {
    |a| == |b| && forall i :: 0 <= i < |a| ==> Fold(a[i]) == Fold(b[i])
  }

  /** A character that folds to the same form as a letter is a letter. */
  lemma {:induction false} CiEqKeepsLetters(a: string, b: string)
    requires CiEq(a, b)
    requires forall i :: 0 <= i < |a| ==> IsLetter(a[i])
    ensures forall i :: 0 <= i < |b| ==> IsLetter(b[i])
  {
    forall i | 0 <= i < |b| ensures IsLetter(b[i]) {
      assert Fold(a[i]) == Fold(b[i]);
    }
  }

  /** Every character of `s` satisfies `p`. */
  predicate Every(s: string, p: char -> bool) {
    forall i :: 0 <= i < |s| ==> p(s[i])
  }

  /** The length of the longest prefix of `s` whose characters satisfy `p`. */
  function Span(s: string, p: char -> bool): (k: nat)
    ensures k <= |s|
    ensures Every(s[..k], p)
    ensures k < |s| ==> !p(s[k])
  {
    if |s| == 0 || !p(s[0]) then 0
    else
      var k := 1 + Span(s[1..], p);
      assert s[..k] == [s[0]] + s[1..][..k - 1];
      k
  }

  /** A prefix of `p`-characters followed by a non-`p` character (or the end) is the span. */
  lemma {:induction false} SpanUnique(s: string, p: char -> bool, i: nat)
    requires i <= |s|
    requires Every(s[..i], p)
    requires i < |s| ==> !p(s[i])
    ensures Span(s, p) == i
  {
    if i > 0 {
      assert s[..i][0] == s[0];
      assert s[1..][..i - 1] == s[..i][1..];
      SpanUnique(s[1..], p, i - 1);
    }
  }

  /** The span of `a + b`, when `a` is all `p` and `b` starts with a non-`p` character. */
  lemma {:induction false} SpanOfConcat(a: string, b: string, p: char -> bool)
    requires Every(a, p)
    requires b != [] ==> !p(b[0])
    ensures Span(a + b, p) == |a|
  {
    var s := a + b;
    assert s[..|a|] == a;
    SpanUnique(s, p, |a|);
  }

  /** Splitting off a maximal prefix of `p`-characters. */
  lemma {:induction false} PeelSpan(s: string, a: string, rest: string, p: char -> bool)
    requires s == a + rest && Every(a, p)
    requires rest != [] ==> !p(rest[0])
    ensures Span(s, p) == |a| && s[..|a|] == a && s[|a|..] == rest
  {
    SpanOfConcat(a, rest, p);
  }

  lemma {:induction false} SplitAt(s: string, k: nat)
    requires k <= |s|
    ensures s == s[..k] + s[k..]
  {
  }

  /** Regrouping a concatenation of five strings. */
  lemma {:induction false} Regroup5(a: string, b: string, c: string, d: string, e: string)
    ensures a + b + c + d + e == a + (b + (c + (d + e)))
  {
  }

  /** Cutting a string four times, one cut after the other, and putting the pieces back. */
  lemma {:induction false} Cut4(s: string, i: nat, h: nat, k: nat, t: nat)
    requires i <= |s| && h <= |s| - i && k <= |s| - i - h && t <= |s| - i - h - k
    ensures var s1 := s[i..]; var s2 := s1[h..]; var s3 := s2[k..];
            s == s[..i] + s1[..h] + s2[..k] + s3[..t] + s3[t..]
  {
    var s1 := s[i..];
    var s2 := s1[h..];
    var s3 := s2[k..];
    SplitAt(s3, t);
    SplitAt(s2, k);
    SplitAt(s1, h);
    SplitAt(s, i);
    Regroup5(s[..i], s1[..h], s2[..k], s3[..t], s3[t..]);
  }

  /** `s` without its leading whitespace. */
  function TrimStart(s: string): (r: string)
    ensures |r| <= |s| && r == s[|s| - |r|..]
    ensures Every(s[..|s| - |r|], IsSpace)
    ensures r != [] ==> !IsSpace(r[0])
  {
    s[Span(s, IsSpace)..]
  }

  /** `s` without its trailing whitespace. */
  function TrimEnd(s: string): (r: string)
    ensures r <= s
    ensures Every(s[|r|..], IsSpace)
    ensures r != [] ==> !IsSpace(r[|r| - 1])
  {
    if |s| > 0 && IsSpace(s[|s| - 1]) then
      var r := TrimEnd(s[..|s| - 1]);
      assert s[|r|..] == s[..|s| - 1][|r|..] + [s[|s| - 1]];
      r
    else s
  }

  /** A string made of a part ending in a non-space and a whitespace tail trims to the part. */
  lemma {:induction false} TrimEndOfConcat(u: string, c: string)
    requires Every(c, IsSpace)
    requires u != [] ==> !IsSpace(u[|u| - 1])
    ensures TrimEnd(u + c) == u
    decreases |c|
  {
    if c == [] {
      assert u + c == u;
    } else {
      var s := u + c;
      assert s[..|s| - 1] == u + c[..|c| - 1];
      TrimEndOfConcat(u, c[..|c| - 1]);
    }
  }

  /** `String.prototype.trim`: whitespace removed at both ends. */
  function Trim(s: string): (r: string)
    ensures exists i :: 0 <= i <= |s| - |r| && s[i..i + |r|] == r
                        && Every(s[..i], IsSpace) && Every(s[i + |r|..], IsSpace)
    ensures r != [] ==> !IsSpace(r[0]) && !IsSpace(r[|r| - 1])
    ensures r == [] <==> Every(s, IsSpace)
  {
    var t := TrimStart(s);
    var r := TrimEnd(t);
    TrimBoth(s, t, r);
    r
  }

  lemma {:induction false} TrimBoth(s: string, t: string, r: string)
    requires t == TrimStart(s) && r == TrimEnd(t)
    ensures var i := |s| - |t|;
            && 0 <= i <= |s| - |r| && s[i..i + |r|] == r
            && Every(s[..i], IsSpace) && Every(s[i + |r|..], IsSpace)
    ensures r != [] ==> !IsSpace(r[0]) && !IsSpace(r[|r| - 1])
    ensures r == [] <==> Every(s, IsSpace)
  {
    var i := |s| - |t|;
    assert s[i..i + |r|] == t[..|r|] == r;
    assert s[i + |r|..] == t[|r|..];
    if r == [] {
      forall j | 0 <= j < |s| ensures IsSpace(s[j]) {
        assert j < i;
        assert s[..i][j] == s[j];
      }
    }
  }

  /** `parts` joined with `'\n'` between consecutive elements. */
  function JoinLines(parts: seq<string>): string
  {
    if |parts| == 0 then ""
    else if |parts| == 1 then parts[0]
    else parts[0] + "\n" + JoinLines(parts[1..])
  }

  /** `s.split('\n')`: never empty, no part holds a newline, and joining gives `s` back. */
  function SplitLines(s: string): (r: seq<string>)
    ensures |r| >= 1
    ensures forall k :: 0 <= k < |r| ==> '\n' !in r[k]
    ensures JoinLines(r) == s
  {
    var k := Span(s, NotNewline);
    if k == |s| then
      assert s[..k] == s;
      [s]
    else
      var rest := SplitLines(s[k + 1..]);
      assert '\n' !in s[..k] by {
        forall j | 0 <= j < k ensures s[..k][j] != '\n' {
        }
      }
      assert s == s[..k] + "\n" + s[k + 1..];
      [s[..k]] + rest
  }

  /** The other round trip: lines without a newline, joined and split again, come back. */
  lemma {:induction false} SplitLinesOfJoin(parts: seq<string>)
    requires |parts| >= 1
    requires forall k :: 0 <= k < |parts| ==> '\n' !in parts[k]
    ensures SplitLines(JoinLines(parts)) == parts
    decreases |parts|
  {
    var s := JoinLines(parts);
    var w := parts[0];
    assert Every(w, NotNewline) by {
      forall j | 0 <= j < |w| ensures w[j] != '\n' {
        assert w[j] in w;
      }
    }
    if |parts| == 1 {
      assert s[..|s|] == s;
      SpanUnique(s, NotNewline, |s|);
    } else {
      var rest := JoinLines(parts[1..]);
      assert s == w + ("\n" + rest);
      SpanOfConcat(w, "\n" + rest, NotNewline);
      assert s[|w| + 1..] == rest;
      SplitLinesOfJoin(parts[1..]);
      assert parts == [w] + parts[1..];
    }
  }
}
