/**
  The code extraction at the end of the send cycle: the finished assistant
  text is matched against the lazy, global regular expression
  /```[\s\S]*?```/g and the matches are joined with a blank line.

  The global match scans left to right. At the first triple backtick it
  takes the nearest following triple backtick that starts after the opener
  as the close (an empty body is allowed), emits the region with both
  delimiters, and resumes after the close. An opener with no close after it
  ends the scan: every later attempt would need a close even further right.
 */
module FenceExtract {
  import opened Wrappers
  import Text

  /** A triple backtick starts at position `i` of `s`. */
  predicate FenceAt(s: string, i: int) {
    0 <= i && i + 3 <= |s| && s[i] == '`' && s[i + 1] == '`' && s[i + 2] == '`'
  }

  /** No triple backtick starts at a position in `[a, b)`. */
  ghost predicate NoFenceIn(s: string, a: int, b: int) {
    forall k :: a <= k < b ==> !FenceAt(s, k)
  }

  /** The leftmost triple backtick at or after `from`. */
  function NextFence(s: string, from: nat): (r: Option<nat>)
    ensures r.Some? ==> from <= r.value && FenceAt(s, r.value) && NoFenceIn(s, from, r.value)
    ensures r.None? ==> NoFenceIn(s, from, |s|)
    decreases |s| - from
  {
    if from + 3 > |s| then None
    else if FenceAt(s, from) then Some(from)
    else NextFence(s, from + 1)
  }

  /** A match of the regular expression: the region `s[start..end]`. */
  datatype Span = Span(start: nat, end: nat)

  /** The matches found by the global scan resumed at `from`, in source order:
      each lies within the text at or after `from` and is at least two fences
      long. */
  function Spans(s: string, from: nat): (r: seq<Span>)
    ensures forall k :: 0 <= k < |r| ==> from <= r[k].start && r[k].start + 6 <= r[k].end <= |s|
    decreases |s| - from
  {
    match NextFence(s, from)
    case None => []
    case Some(i) =>
      match NextFence(s, i + 3)
      case None => []
      case Some(j) => [Span(i, j + 3)] + Spans(s, j + 3)
  }

  /** The matched texts, delimiters included (`text.match(regex)`): one per
      match, each at least two fences long. */
  function Blocks(s: string): (b: seq<string>)
    ensures |b| == |Spans(s, 0)|
    ensures forall k :: 0 <= k < |b| ==> |b[k]| >= 6
  {
    var spans := Spans(s, 0);
    seq(|spans|, k requires 0 <= k < |spans| => s[spans[k].start..spans[k].end])
  }

  /** `generatedCode`: `None` (the source's `null`) when nothing matched,
      otherwise the matches joined with `"\n\n"`, which begins with the first. */
  function GeneratedCode(s: string): (code: Option<string>)
    ensures code.None? <==> Blocks(s) == []
    ensures code.Some? ==> |code.value| >= |Blocks(s)[0]| && code.value[..|Blocks(s)[0]|] == Blocks(s)[0]
  {
    var blocks := Blocks(s);
    if blocks == [] then None
    else Some(Text.Join(blocks, "\n\n"))
  }

  // ---------------------------------------------------------------------
  // The regular expression's own meaning, stated without any search.
  // ---------------------------------------------------------------------

  /** `sp` is a shortest match starting at its start: a triple backtick, then
      the nearest triple backtick beginning at least three characters later. */
  ghost predicate LazyMatch(s: string, sp: Span) {
    sp.start + 6 <= sp.end <= |s| && FenceAt(s, sp.start) && FenceAt(s, sp.end - 3)
    && NoFenceIn(s, sp.start + 3, sp.end - 3)
  }

  /** The text from `p` on holds no triple backtick followed, at least three
      characters later, by another one: no closed pair. */
  ghost predicate NoClosedPairFrom(s: string, p: int) {
    forall i, j :: p <= i && i + 3 <= j && FenceAt(s, i) ==> !FenceAt(s, j)
  }

  /** `spans` are what a global match of the expression finds when its
      `lastIndex` is `p`: either no closed pair is left and there is no match,
      or the first span is the leftmost shortest match at or after `p` (no
      triple backtick before its start) and the others are the global match
      resumed at its end. */
  ghost predicate GlobalMatch(s: string, p: nat, spans: seq<Span>)
    decreases |spans|
  {
    if spans == [] then NoClosedPairFrom(s, p)
    else
      && LazyMatch(s, spans[0]) && p <= spans[0].start && NoFenceIn(s, p, spans[0].start)
      && GlobalMatch(s, spans[0].end, spans[1..])
  }

  /** The scan finds exactly the global lazy match. */
  lemma {:induction false} SpansAreGlobalMatch(s: string, p: nat)
    ensures GlobalMatch(s, p, Spans(s, p))
    decreases |s| - p
  {
    match NextFence(s, p)
    case None =>
    case Some(i) =>
      match NextFence(s, i + 3)
      case None =>
        forall a, b | p <= a && a + 3 <= b && FenceAt(s, a) ensures !FenceAt(s, b) {
          assert i <= a;
        }
      case Some(j) =>
        SpansAreGlobalMatch(s, j + 3);
        var spans := Spans(s, p);
        assert spans[0] == Span(i, j + 3) && spans[1..] == Spans(s, j + 3);
  }

  /** The global lazy match is unique: any spans meeting it are the scan's. */
  lemma {:induction false} GlobalMatchUnique(s: string, p: nat, spans: seq<Span>)
    requires GlobalMatch(s, p, spans)
    ensures spans == Spans(s, p)
    decreases |spans|
  {
    if spans == [] {
      match NextFence(s, p)
      case None =>
      case Some(i) =>
        match NextFence(s, i + 3)
        case None =>
        case Some(j) =>
          assert false;
    } else {
      var sp := spans[0];
      assert NextFence(s, p) == Some(sp.start);
      assert NextFence(s, sp.start + 3) == Some(sp.end - 3);
      GlobalMatchUnique(s, sp.end, spans[1..]);
      assert spans == [sp] + spans[1..];
    }
  }

  /** In a global match started at `p`, every span is a shortest match lying
      at or after `p`, and the spans follow one another without overlap. */
  lemma {:induction false} GlobalMatchOrdered(s: string, p: nat, spans: seq<Span>)
    requires GlobalMatch(s, p, spans)
    ensures forall m :: 0 <= m < |spans| ==> p <= spans[m].start && LazyMatch(s, spans[m])
    ensures forall m, n :: 0 <= m < n < |spans| ==> spans[m].end <= spans[n].start
    decreases |spans|
  {
    if spans != [] {
      GlobalMatchOrdered(s, spans[0].end, spans[1..]);
      forall m | 0 <= m < |spans| ensures p <= spans[m].start && LazyMatch(s, spans[m]) {
        if m > 0 {
          assert spans[m] == spans[1..][m - 1];
        }
      }
      forall m, n | 0 <= m < n < |spans| ensures spans[m].end <= spans[n].start {
        assert spans[n] == spans[1..][n - 1];
        if m > 0 {
          assert spans[m] == spans[1..][m - 1];
        }
      }
    }
  }

  /** `generatedCode` is `null` exactly when the text has no closed pair of
      triple backticks. */
  lemma NoCodeIffNoClosedPair(s: string)
    ensures GeneratedCode(s).None? <==> NoClosedPairFrom(s, 0)
  {
    SpansAreGlobalMatch(s, 0);
    var spans := Spans(s, 0);
    if spans != [] {
      assert FenceAt(s, spans[0].start) && FenceAt(s, spans[0].end - 3);
    }
  }

  /** The text of a shortest match starts and ends with a triple backtick
      and holds none in between. */
  ghost predicate IsFencedBlock(b: string) {
    |b| >= 6 && FenceAt(b, 0) && FenceAt(b, |b| - 3) && NoFenceIn(b, 3, |b| - 3)
  }

  /** The region of a shortest match is a fenced block. */
  lemma LazyMatchIsFencedBlock(s: string, sp: Span)
    requires LazyMatch(s, sp)
    ensures IsFencedBlock(s[sp.start..sp.end])
  {
    var b := s[sp.start..sp.end];
    forall x | 3 <= x < |b| - 3 ensures !FenceAt(b, x) {
      assert !FenceAt(s, sp.start + x);
    }
  }

  /** Each extracted block starts and ends with a triple backtick and holds
      none in between: the lazy quantifier stops at the first close. */
  lemma BlocksAreFenced(s: string)
    ensures forall k :: 0 <= k < |Blocks(s)| ==> IsFencedBlock(Blocks(s)[k])
  {
    SpansAreGlobalMatch(s, 0);
    var spans := Spans(s, 0);
    GlobalMatchOrdered(s, 0, spans);
    var blocks := Blocks(s);
    forall k | 0 <= k < |blocks| ensures IsFencedBlock(blocks[k]) {
      LazyMatchIsFencedBlock(s, spans[k]);
    }
  }

  /** When code is found it is a non-empty string: the chat panel forwards
      every value the extractor produces. */
  lemma GeneratedCodeNonEmpty(s: string)
    ensures GeneratedCode(s).Some? ==> |GeneratedCode(s).value| >= 6
  {
    BlocksAreFenced(s);
    var blocks := Blocks(s);
    if |blocks| > 1 {
      assert (blocks[0] + "\n\n")[..|blocks[0]|] == blocks[0];
    }
  }

  /** Text without any backtick yields no code. */
  lemma NoBacktickNoCode(s: string)
    requires '`' !in s
    ensures GeneratedCode(s) == None
  {
    NoCodeIffNoClosedPair(s);
    forall i | 0 <= i < |s| ensures s[i] != '`' {
      assert s[i] in s;
    }
  }

  // ---------------------------------------------------------------------
  // Prose without backticks around fenced blocks.
  // ---------------------------------------------------------------------

  /** A region of `s` that copies a backtick-free segment holds no fence. */
  lemma TickFreeRegion(s: string, a: nat, seg: string)
    requires a + |seg| <= |s| && s[a..a + |seg|] == seg && '`' !in seg
    ensures NoFenceIn(s, a, a + |seg|)
  {
    forall k | a <= k < a + |seg| ensures !FenceAt(s, k) {
      assert s[k] == seg[k - a];
      assert seg[k - a] in seg;
    }
  }

  /** A copy of "```" + body + "```" with a backtick-free body is a shortest match. */
  lemma FencedRegion(s: string, a: nat, body: string)
    requires '`' !in body
    requires a + |body| + 6 <= |s| && s[a..a + |body| + 6] == "```" + body + "```"
    ensures LazyMatch(s, Span(a, a + |body| + 6))
  {
    var e := a + |body| + 6;
    var r := s[a..e];
    assert r[..3] == "```" && r[3..|r| - 3] == body && r[|r| - 3..] == "```";
    assert s[a] == r[0] && s[a + 1] == r[1] && s[a + 2] == r[2];
    assert s[e - 3] == r[|r| - 3] && s[e - 2] == r[|r| - 2] && s[e - 1] == r[|r| - 1];
    assert s[a + 3..e - 3] == r[3..|r| - 3];
    TickFreeRegion(s, a + 3, body);
  }

  /** An opener with no close after it ends the scan: nothing is matched
      from there on, whatever came before it in the same attempt. */
  lemma UnclosedOpenerEndsScan(s: string, p: nat, i: nat)
    requires p <= i && FenceAt(s, i) && NoFenceIn(s, p, i) && NoFenceIn(s, i + 3, |s|)
    ensures Spans(s, p) == []
  {
    assert NextFence(s, p) == Some(i);
    assert NextFence(s, i + 3) == None;
  }

  /** Backtick-free prose around one fenced block: the global match finds
      that block and nothing more. */
  lemma SingleBlockMatch(s: string, pre: string, body: string, post: string)
    requires '`' !in pre && '`' !in body && '`' !in post
    requires s == pre + ("```" + body + "```") + post
    ensures GlobalMatch(s, 0, [Span(|pre|, |pre| + |body| + 6)])
  {
    var e := |pre| + |body| + 6;
    assert s[..|pre|] == pre;
    assert s[|pre|..e] == "```" + body + "```";
    assert s[e..|s|] == post;
    FencedRegion(s, |pre|, body);
    TickFreeRegion(s, 0, pre);
    TickFreeRegion(s, e, post);
    assert GlobalMatch(s, e, []);
  }

  /** A single fenced block in backtick-free prose is extracted alone, with
      its delimiters and without the prose. */
  lemma SingleBlock(pre: string, body: string, post: string)
    requires '`' !in pre && '`' !in body && '`' !in post
    ensures GeneratedCode(pre + "```" + body + "```" + post) == Some("```" + body + "```")
  {
    var block := "```" + body + "```";
    var s := pre + block + post;
    assert s == pre + "```" + body + "```" + post;
    var sp := Span(|pre|, |pre| + |block|);
    SingleBlockMatch(s, pre, body, post);
    GlobalMatchUnique(s, 0, [sp]);
    assert s[sp.start..sp.end] == block;
    assert Blocks(s) == [block];
  }
}
