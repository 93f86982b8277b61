/** The viewer's helpers over marked-up text: the length of the marked
    spans, and the shortened text that keeps only the spans. */
module ViewerSpans {
  import opened Text
  import opened ViewerRows

  /** The opening the span-length scan looks for. */
  const MARK_PREFIX := "<span class=\"mqm-m"

  /** `mqmSpanLength` from `offset` on: the characters between each opening
      tag that starts with `prefix` and the next closing tag. */
  function SpanLengthFrom(s: string, prefix: string, offset: nat): nat
    requires |prefix| > 0
    decreases if offset <= |s| then |s| - offset else 0, 1
  {
    var index := IndexOf(s, prefix, offset);
    if index < 0 then 0
    else
      var gt := IndexOf(s, ">", index + 1);
      if gt < 0 then 0
      else
        var endSpan := IndexOf(s, CLOSE_SPAN, gt + 1);
        if endSpan < 0 then 0
        else SpanLengthAfter(s, prefix, gt, endSpan)
  }

  /** The length of a span found between `gt` (its opening tag's `>`) and
      `endSpan` (its closing tag), plus the scan from the closing tag on. */
  function SpanLengthAfter(s: string, prefix: string, gt: int, endSpan: int): nat
    requires |prefix| > 0 && 0 <= gt < endSpan && endSpan + |CLOSE_SPAN| <= |s|
    decreases |s| - endSpan - |CLOSE_SPAN|, 2
  {
    (endSpan - (gt + 1)) + SpanLengthFrom(s, prefix, endSpan + |CLOSE_SPAN|)
  }

  /** `mqmSpanLength(s)`. */
  method SpanLength(s: string) returns (span: nat)
    ensures span == SpanLengthFrom(s, MARK_PREFIX, 0)
  {
    var offset := 0;
    span := 0;
    while true
      invariant offset <= |s|
      invariant span + SpanLengthFrom(s, MARK_PREFIX, offset) == SpanLengthFrom(s, MARK_PREFIX, 0)
      decreases |s| - offset
    {
      var index := IndexOf(s, MARK_PREFIX, offset);
      if index < offset {
        break;
      }
      var startSpan := IndexOf(s, ">", index + 1);
      if startSpan < 0 {
        break;
      }
      startSpan := startSpan + 1;
      var endSpan := IndexOf(s, CLOSE_SPAN, startSpan);
      if endSpan < 0 {
        break;
      }
      span := span + (endSpan - startSpan);
      offset := endSpan + |CLOSE_SPAN|;
    }
  }

  /** One marked span: the scan counts exactly the characters between the
      tags, when the opening tag is one it looks for and nothing around the
      span looks like a tag it looks for. */
  lemma SpanLengthOfOneSpan(a: string, open: string, b: string, c: string, prefix: string)
    requires |prefix| > 0 && |open| >= 2 && open[|open| - 1] == '>'
    requires StartsWith(open, prefix) && forall k :: 0 < k < |open| - 1 ==> open[k] != '>'
    requires var t := a + open + b + CLOSE_SPAN + c;
      (forall k :: 0 <= k < |a| ==> !MatchAt(t, prefix, k))
      && (forall k :: |a + open| <= k < |a + open + b| ==> !MatchAt(t, CLOSE_SPAN, k))
      && (forall k :: |a + open + b + CLOSE_SPAN| <= k ==> !MatchAt(t, prefix, k))
    ensures SpanLengthFrom(a + open + b + CLOSE_SPAN + c, prefix, 0) == |b|
  {
    var t := a + open + b + CLOSE_SPAN + c;
    OneSpanOpening(a, open, b, c, prefix);
    OneSpanGt(a, open, b, c);
    OneSpanClosing(a, open, b, c);
    var e := |a + open + b|;
    var after := |a + open + b + CLOSE_SPAN|;
    SpanLengthNone(t, prefix, after);
    assert e + |CLOSE_SPAN| == after;
    SpanLengthStep(t, prefix, 0, |a|, |a + open| - 1, e);
  }

  /** With no opening tag from `offset` on, nothing more is counted. */
  lemma SpanLengthNone(s: string, prefix: string, offset: nat)
    requires |prefix| > 0
    requires forall k :: offset <= k ==> !MatchAt(s, prefix, k)
    ensures SpanLengthFrom(s, prefix, offset) == 0
  {
    IndexOfIsFirst(s, prefix, offset);
  }

  /** The scan finds the opening tag after `a`. */
  lemma OneSpanOpening(a: string, open: string, b: string, c: string, prefix: string)
    requires |prefix| > 0 && StartsWith(open, prefix)
    requires forall k :: 0 <= k < |a| ==> !MatchAt(a + open + b + CLOSE_SPAN + c, prefix, k)
    ensures IndexOf(a + open + b + CLOSE_SPAN + c, prefix, 0) == |a|
  {
    var t := a + open + b + CLOSE_SPAN + c;
    var i := |a|;
    forall j | 0 <= j < |prefix| ensures t[i + j] == prefix[j] {
      assert prefix[j] == open[..|prefix|][j] == open[j];
    }
    IndexOfFirst(t, prefix, 0, i);
  }

  /** Then the `>` that ends the opening tag. */
  lemma OneSpanGt(a: string, open: string, b: string, c: string)
    requires |open| >= 2 && open[|open| - 1] == '>'
    requires forall k :: 0 < k < |open| - 1 ==> open[k] != '>'
    ensures IndexOf(a + open + b + CLOSE_SPAN + c, ">", |a| + 1) == |a + open| - 1
  {
    var t := a + open + b + CLOSE_SPAN + c;
    var i := |a|;
    var g := |a + open| - 1;
    assert t[g] == '>' == ">"[0];
    forall k | i + 1 <= k < g ensures !MatchAt(t, ">", k) {
      assert t[k] == open[k - i];
    }
    IndexOfFirst(t, ">", i + 1, g);
  }

  /** Then the closing tag after `b`. */
  lemma OneSpanClosing(a: string, open: string, b: string, c: string)
    requires |open| >= 1
    requires forall k :: |a + open| <= k < |a + open + b| ==> !MatchAt(a + open + b + CLOSE_SPAN + c, CLOSE_SPAN, k)
    ensures IndexOf(a + open + b + CLOSE_SPAN + c, CLOSE_SPAN, |a + open|) == |a + open + b|
  {
    var t := a + open + b + CLOSE_SPAN + c;
    var e := |a + open + b|;
    forall j | 0 <= j < |CLOSE_SPAN| ensures t[e + j] == CLOSE_SPAN[j] {
    }
    IndexOfFirst(t, CLOSE_SPAN, |a + open|, e);
  }

  /** One round of the scan: a span found from `offset` adds its length. */
  lemma SpanLengthStep(s: string, prefix: string, offset: nat, index: int, gt: int, endSpan: int)
    requires |prefix| > 0
    requires index == IndexOf(s, prefix, offset) && index >= 0
    requires gt == IndexOf(s, ">", index + 1) && gt >= 0
    requires endSpan == IndexOf(s, CLOSE_SPAN, gt + 1) && endSpan >= 0
    ensures SpanLengthFrom(s, prefix, offset)
      == (endSpan - (gt + 1)) + SpanLengthFrom(s, prefix, endSpan + |CLOSE_SPAN|)
  {
    assert SpanLengthFrom(s, prefix, offset) == SpanLengthAfter(s, prefix, gt, endSpan);
  }

  /** No opening the scan looks for occurs at index `k` of a critical
      span. */
  lemma NoMarkInCriticalSpan(b: string, k: nat)
    requires '<' !in b
    ensures !MatchAt(SpanOpen("mqm-critical") + b + CLOSE_SPAN, MARK_PREFIX, k)
  {
    var open := SpanOpen("mqm-critical");
    var t := open + b + CLOSE_SPAN;
    if k + |MARK_PREFIX| <= |t| {
      if k == 0 {
        assert t[17] == open[17] == 'c' && MARK_PREFIX[17] == 'm';
      } else if k < |open| {
        SpanOpenShape("mqm-critical");
        assert t[k] == open[k] && MARK_PREFIX[0] == '<';
      } else {
        assert t[k] == b[k - |open|] && MARK_PREFIX[0] == '<';
      }
    }
  }

  /** The scan looks only for classes starting with `mqm-m`: a span drawn
      for a critical error adds nothing, whatever it covers. */
  lemma CriticalSpanNotCounted(b: string)
    requires '<' !in b
    ensures SpanLengthFrom(SpanOpen("mqm-critical") + b + CLOSE_SPAN, MARK_PREFIX, 0) == 0
  {
    var t := SpanOpen("mqm-critical") + b + CLOSE_SPAN;
    forall k: nat ensures !MatchAt(t, MARK_PREFIX, k) {
      NoMarkInCriticalSpan(b, k);
    }
    IndexOfIsFirst(t, MARK_PREFIX, 0);
  }

  /** What `mqmOnlyKeepSpans` puts where text was cut off. */
  const ELLIPSIS := "&hellip;"
  const MAX_CTX := 10

  function Min(a: int, b: int): int
  {
    if a <= b then a else b
  }

  /** JavaScript's `s.substring(a, b)`: both ends clamped to the string,
      then put in order. */
  function JsSubstring(s: string, a: int, b: int): string
  {
    var x := if a < 0 then 0 else Min(a, |s|);
    var y := if b < 0 then 0 else Min(b, |s|);
    if x <= y then s[x..y] else s[y..x]
  }

  /** JavaScript's `s.substr(start, length)` for a start inside the string. */
  function JsSubstr(s: string, start: nat, length: int): string
    requires start <= |s|
  {
    var n := if length < 0 then 0 else Min(length, |s| - start);
    s[start..start + n]
  }

  /** The context `mqmOnlyKeepSpans` keeps before index `start`: up to
      ten characters, behind an ellipsis when more were cut off. */
  function LeftContext(s: string, start: nat): (r: string)
    requires start <= |s|
    ensures start <= MAX_CTX ==> r == s[..start]
    ensures start > MAX_CTX ==> r == ELLIPSIS + s[start - MAX_CTX..start]
  {
    if start > 0 then
      var ctx := Min(MAX_CTX, start);
      (if ctx < start then ELLIPSIS else "") + JsSubstr(s, start - ctx, ctx)
    else ""
  }

  /** The context `mqmOnlyKeepSpans` keeps from index `stop` on: up to ten
      characters, followed by an ellipsis when more were cut off. */
  function RightContext(s: string, stop: nat): (r: string)
    ensures stop + MAX_CTX >= |s| ==> r == s[Min(stop, |s|)..]
    ensures stop + MAX_CTX < |s| ==> r == s[stop..stop + MAX_CTX] + ELLIPSIS
  {
    if stop < |s| then
      var ctx := Min(MAX_CTX, |s| - stop);
      JsSubstr(s, stop, ctx) + (if stop + ctx < |s| then ELLIPSIS else "")
    else ""
  }

  /** `mqmOnlyKeepSpans(s)`: from the first `<span` to the end of the last
      `</span>`, with up to ten characters of context on either side and an
      ellipsis wherever more was cut off. */
  function OnlyKeepSpans(s: string): (r: string)
    ensures IndexOf(s, "<span", 0) < 0 || LastIndexOf(s, CLOSE_SPAN) < 0 ==> r == ELLIPSIS
  {
    var start := IndexOf(s, "<span", 0);
    var end := LastIndexOf(s, CLOSE_SPAN);
    if start >= 0 && end >= 0 then
      LastIndexOfIsLast(s, CLOSE_SPAN);
      LeftContext(s, start) + JsSubstring(s, start, end + 7) + RightContext(s, end + 7)
    else ELLIPSIS
  }

  /** When the spans are well ordered, the result is the spanned text,
      between the context kept on either side. */
  lemma OnlyKeepSpansKeepsSpans(s: string)
    requires var start := IndexOf(s, "<span", 0); var end := LastIndexOf(s, CLOSE_SPAN);
      start >= 0 && end >= 0 && start <= end
    ensures var start := IndexOf(s, "<span", 0); var end := LastIndexOf(s, CLOSE_SPAN);
      OnlyKeepSpans(s) == LeftContext(s, start) + s[start..end + |CLOSE_SPAN|] + RightContext(s, end + |CLOSE_SPAN|)
  {
    LastIndexOfIsLast(s, CLOSE_SPAN);
  }

  /** Text with both ends within ten characters of the spans is kept
      whole. */
  lemma {:induction false} OnlyKeepSpansShort(s: string)
    requires var start := IndexOf(s, "<span", 0); var end := LastIndexOf(s, CLOSE_SPAN);
      start >= 0 && end >= 0 && start <= end && start <= MAX_CTX && |s| - (end + |CLOSE_SPAN|) <= MAX_CTX
    ensures OnlyKeepSpans(s) == s
  {
    var start := IndexOf(s, "<span", 0);
    var end := LastIndexOf(s, CLOSE_SPAN);
    OnlyKeepSpansKeepsSpans(s);
    assert LeftContext(s, start) == s[..start];
    assert RightContext(s, end + 7) == s[end + 7..];
    Pieces(s, start, end + 7);
  }
}
