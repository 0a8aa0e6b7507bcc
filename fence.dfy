/**
 * The front-matter block of a prompt file: `/^\s*?```json([\s\S]*?)```/i`
 * captures the text between a fence tagged `json` that opens the document
 * (after optional whitespace) and the first fence after it.
 */
module Fence {
  import opened Wrappers
  import opened Text

  /** A fence, three backticks, starts at `q` in `s`. */
  predicate FenceAt(s: string, q: nat) {
    q + 3 <= |s| && s[q..q + 3] == "```"
  }

  /** No fence starts anywhere in `s`. */
  predicate NoFence(s: string) {
    forall q :: 0 <= q < |s| ==> !FenceAt(s, q)
  }

  /** A string with no backtick before its last two characters has no fence. */
  lemma {:induction false} NoTickNoFence(s: string)
    requires forall q :: 0 <= q < |s| - 2 ==> s[q] != '`'
    ensures NoFence(s)
  {
    forall q | 0 <= q < |s| ensures !FenceAt(s, q) {
      if q + 3 <= |s| {
        assert s[q..q + 3][0] == s[q];
      }
    }
  }

  lemma {:induction false} FenceShift(s: string)
    requires |s| > 0
    ensures forall q :: q > 0 ==> (FenceAt(s, q) <==> FenceAt(s[1..], q - 1))
  {
    forall q | q > 0 ensures FenceAt(s, q) <==> FenceAt(s[1..], q - 1) {
      if q + 3 <= |s| {
        assert s[q..q + 3] == s[1..][q - 1..q + 2];
      }
    }
  }

  /** Where the first fence in `s` starts, if there is one. */
  function FirstFence(s: string): (r: Option<nat>)
    ensures r.Some? ==> FenceAt(s, r.value) && forall q :: 0 <= q < r.value ==> !FenceAt(s, q)
    ensures r.None? ==> NoFence(s)
    decreases |s|
  {
    if |s| < 3 then None
    else if s[..3] == "```" then Some(0)
    else
      FenceShift(s);
      match FirstFence(s[1..])
      case None => None
      case Some(q) => Some(q + 1)
  }

  /**
   * The capture of the pattern, before it is trimmed: the whitespace is
   * skipped, the fence and the tag `json` (in any case) must follow, and the
   * capture runs up to the first fence after the tag.
   */
  function JsonFence(content: string): (r: Option<string>)
  {
    var i := Span(content, IsSpace);
    var rest := content[i..];
    if |rest| < 7 || rest[..3] != "```" || !CiEq(rest[3..7], "json") then None
    else
      var body := rest[7..];
      match FirstFence(body)
      case None => None
      case Some(q) => Some(body[..q])
  }

  /**
   * The pattern's match, declaratively: the document is whitespace, a fence,
   * a tag equal to `json` up to case, the capture, a fence and anything;
   * the capture is lazy, so no fence starts inside it or across its end.
   */
  ghost predicate JsonFenced(content: string, cap: string) {
    exists ws, tag, rest :: content == ws + "```" + tag + cap + "```" + rest
                            && Every(ws, IsSpace) && CiEq(tag, "json") && NoFence(cap + "``")
  }

  /** The text before a fence that no fence starts in, and the fence itself. */
  lemma {:induction false} FirstFenceOfCapture(cap: string, rest: string)
    requires NoFence(cap + "``")
    ensures FirstFence(cap + "```" + rest) == Some(|cap|)
  {
    var body := cap + "```" + rest;
    assert body[|cap|..|cap| + 3] == "```";
    forall q | 0 <= q < |cap| ensures !FenceAt(body, q) {
      assert !FenceAt(cap + "``", q);
      if q + 3 <= |body| {
        assert body[q..q + 3] == (cap + "``")[q..q + 3];
      }
    }
    assert FenceAt(body, |cap|);
  }

  /** A capture ending at the first fence has no fence starting in it or across its end. */
  lemma {:induction false} CaptureHasNoFence(body: string, q: nat)
    requires FenceAt(body, q) && forall p :: 0 <= p < q ==> !FenceAt(body, p)
    ensures NoFence(body[..q] + "``")
  {
    var s := body[..q] + "``";
    assert s == body[..q + 2];
    forall p | 0 <= p < |s| ensures !FenceAt(s, p) {
      if p + 3 <= |s| {
        assert p < q;
        assert !FenceAt(body, p);
        assert s[p..p + 3] == body[p..p + 3];
      }
    }
  }

  /** A string put back together from the pieces the capture cuts it into. */
  lemma {:induction false} FencePieces(content: string, i: nat, q: nat)
    requires i + 7 + q + 3 <= |content|
    ensures var rest := content[i..]; var body := rest[7..];
            content == content[..i] + rest[..3] + rest[3..7] + body[..q] + body[q..q + 3] + body[q + 3..]
  {
    var rest := content[i..];
    var body := rest[7..];
    var ws, open, tag := content[..i], rest[..3], rest[3..7];
    var cap, close, after := body[..q], body[q..q + 3], body[q + 3..];
    assert body == cap + close + after;
    assert rest == open + tag + body;
    assert content == ws + rest;
    assert ws + (open + tag + (cap + close + after)) == ws + open + tag + cap + close + after;
  }

  lemma {:induction false} JsonFenceSound(content: string)
    requires JsonFence(content).Some?
    ensures JsonFenced(content, JsonFence(content).value)
  {
    var i := Span(content, IsSpace);
    var rest := content[i..];
    var body := rest[7..];
    var q := FirstFence(body).value;
    CaptureHasNoFence(body, q);
    FencePieces(content, i, q);
    assert content == content[..i] + "```" + rest[3..7] + body[..q] + "```" + body[q + 3..];
  }

  /** The pieces of a text that opens with a fence, a four-character tag, a capture and a fence. */
  lemma {:induction false} OpeningPieces(x: string, tag: string, cap: string, rest: string)
    requires x == "```" + tag + cap + "```" + rest && |tag| == 4
    ensures |x| >= 7 && x[..3] == "```" && x[3..7] == tag && x[7..] == cap + "```" + rest
  {
    assert x == "```" + tag + (cap + "```" + rest);
  }

  lemma {:induction false} JsonFenceComplete(content: string, cap: string, ws: string, tag: string, rest: string)
    requires content == ws + "```" + tag + cap + "```" + rest
    requires Every(ws, IsSpace) && CiEq(tag, "json") && NoFence(cap + "``")
    ensures JsonFence(content) == Some(cap)
  {
    var x := "```" + tag + cap + "```" + rest;
    assert content == ws + x;
    PeelSpan(content, ws, x, IsSpace);
    OpeningPieces(x, tag, cap, rest);
    var body := cap + "```" + rest;
    FirstFenceOfCapture(cap, rest);
    assert body[..|cap|] == cap;
  }

  /** The capture is exactly what the declarative pattern matches. */
  lemma {:induction false} JsonFenceMatches(content: string, cap: string)
    ensures JsonFence(content) == Some(cap) <==> JsonFenced(content, cap)
  {
    if JsonFence(content) == Some(cap) {
      JsonFenceSound(content);
    }
    if JsonFenced(content, cap) {
      var ws, tag, rest :| content == ws + "```" + tag + cap + "```" + rest
                           && Every(ws, IsSpace) && CiEq(tag, "json") && NoFence(cap + "``");
      JsonFenceComplete(content, cap, ws, tag, rest);
    }
  }

  /** The same, for every capture at once. */
  lemma {:induction false} JsonFenceDecides(content: string)
    ensures forall cap {:trigger JsonFenced(content, cap)} :: JsonFence(content) == Some(cap) <==> JsonFenced(content, cap)
  {
    forall cap ensures JsonFence(content) == Some(cap) <==> JsonFenced(content, cap) {
      JsonFenceMatches(content, cap);
    }
  }
}
