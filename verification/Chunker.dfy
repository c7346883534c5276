/** Splitting a long message into chunks of at most `maxLen` bytes, at line breaks where possible. */
module Chunker {

  newtype byte = b: int | 0 <= b < 256

  const NEWLINE: byte := 10

  /** The part of a text from `start` up to `end`. */
  datatype Span = Span(start: nat, end: nat)

  predicate Within(text: seq<byte>, s: Span) {
    s.start <= s.end <= |text|
  }

  /** The last line break strictly inside the window that starts at `from`, or the window's end. */
  function CutPoint(text: seq<byte>, from: nat, maxLen: nat): (cut: nat)
    requires maxLen >= 1 && from + maxLen < |text|
    ensures from < cut <= from + maxLen
    ensures cut < from + maxLen ==> text[cut] == NEWLINE
    ensures forall k :: cut < k < from + maxLen ==> text[k] != NEWLINE
    ensures cut == from + maxLen ==> forall k :: from < k < cut ==> text[k] != NEWLINE
  {
    LastBreak(text, from, from + maxLen, from + maxLen)
  }

  function LastBreak(text: seq<byte>, from: nat, upTo: nat, default: nat): (cut: nat)
    requires from < upTo <= default && upTo <= |text|
    ensures cut == default || (from < cut < upTo && text[cut] == NEWLINE)
    ensures forall k :: from < k < upTo && (cut == default || cut < k) ==> text[k] != NEWLINE
    decreases upTo
  {
    if upTo == from + 1 then default
    else if text[upTo - 1] == NEWLINE then upTo - 1
    else LastBreak(text, from, upTo - 1, default)
  }

  function NextStart(text: seq<byte>, cut: nat): nat
    requires cut < |text|
  {
    if text[cut] == NEWLINE then cut + 1 else cut
  }

  /** The chunks of the text from `from` on. */
  function Spans(text: seq<byte>, from: nat, maxLen: nat): seq<Span>
    requires maxLen >= 1 && from <= |text|
    decreases |text| - from
  {
    if from == |text| then []
    else if |text| - from <= maxLen then [Span(from, |text|)]
    else
      var cut := CutPoint(text, from, maxLen);
      [Span(from, cut)] + Spans(text, NextStart(text, cut), maxLen)
  }

  // ----- the loop -----

  /** `idx` is the last line break of the first `bound` bytes, or -1; it may be their first byte. */
  predicate IsLastBreak(text: seq<byte>, bound: nat, idx: int) {
    && -1 <= idx < bound <= |text|
    && (idx >= 0 ==> text[idx] == NEWLINE)
    && forall k :: 0 <= k < bound && idx < k ==> text[k] != NEWLINE
  }

  method LastIndexOfBreak(text: seq<byte>, bound: nat) returns (idx: int)
    requires 1 <= bound <= |text|
    ensures IsLastBreak(text, bound, idx)
  {
    idx := bound - 1;
    while idx >= 0 && text[idx] != NEWLINE
      invariant -1 <= idx < bound
      invariant forall k :: 0 <= k < bound && idx < k ==> text[k] != NEWLINE
    {
      idx := idx - 1;
    }
  }

  /** A text without the line break it may begin with. */
  function Skip(text: seq<byte>): seq<byte> {
    if |text| > 0 && text[0] == NEWLINE then text[1..] else text
  }

  /** `chunks` are the texts of `spans`. */
  predicate Cover(text: seq<byte>, spans: seq<Span>, chunks: seq<seq<byte>>) {
    && |chunks| == |spans|
    && forall i :: 0 <= i < |spans| ==> Within(text, spans[i]) && chunks[i] == text[spans[i].start..spans[i].end]
  }

  /** The loop's cut, made on the rest of the text, is the cut point of the whole text. */
  lemma CutHere(whole: seq<byte>, from: nat, text: seq<byte>, maxLen: nat, idx: int)
    requires maxLen >= 1 && from <= |whole| && text == whole[from..] && |text| > maxLen
    requires IsLastBreak(text, maxLen, idx)
    ensures var cutAt := if idx > 0 then idx else maxLen; from + cutAt == CutPoint(whole, from, maxLen)
  {
    var cut := CutPoint(whole, from, maxLen);
    assert forall k :: from <= k < |whole| ==> whole[k] == text[k - from];
    if idx > 0 { assert whole[from + idx] == NEWLINE; }
    assert cut < from + maxLen ==> text[cut - from] == NEWLINE;
  }

  lemma SliceTail(whole: seq<byte>, from: nat, text: seq<byte>, n: nat)
    requires from <= |whole| && text == whole[from..] && n < |text|
    ensures text[..n] == whole[from..from + n] && Skip(text[n..]) == whole[NextStart(whole, from + n)..]
  {
    assert text[n] == whole[from + n];
    assert text[n..] == whole[from + n..];
  }

  lemma CoverAppend(text: seq<byte>, spans: seq<Span>, chunks: seq<seq<byte>>, span: Span, chunk: seq<byte>)
    requires Cover(text, spans, chunks) && Within(text, span) && chunk == text[span.start..span.end]
    ensures Cover(text, spans + [span], chunks + [chunk])
  {}

  lemma SpansAppend(done: seq<Span>, span: Span, rest: seq<Span>)
    ensures done + ([span] + rest) == (done + [span]) + rest
  {}

  /** Midway: `chunks` are the texts of the spans done, `text` is the rest, and its spans make up the goal. */
  ghost predicate Midway(whole: seq<byte>, maxLen: nat, goal: seq<Span>,
                         text: seq<byte>, from: nat, done: seq<Span>, chunks: seq<seq<byte>>) {
    && maxLen >= 1 && from <= |whole| && text == whole[from..]
    && done + Spans(whole, from, maxLen) == goal
    && Cover(whole, done, chunks)
  }

  lemma AtTheStart(whole: seq<byte>, maxLen: nat)
    requires maxLen >= 1
    ensures Midway(whole, maxLen, Spans(whole, 0, maxLen), whole, 0, [], [])
  {
    assert [] + Spans(whole, 0, maxLen) == Spans(whole, 0, maxLen);
  }

  lemma AfterOneCut(whole: seq<byte>, maxLen: nat, goal: seq<Span>,
                    text: seq<byte>, from: nat, done: seq<Span>, chunks: seq<seq<byte>>, idx: int)
      returns (next: nat, more: seq<Span>)
    requires Midway(whole, maxLen, goal, text, from, done, chunks)
    requires |text| > maxLen && IsLastBreak(text, maxLen, idx)
    ensures var cutAt := if idx > 0 then idx else maxLen;
            Midway(whole, maxLen, goal, Skip(text[cutAt..]), next, more, chunks + [text[..cutAt]])
  {
    var cutAt := if idx > 0 then idx else maxLen;
    var cut := from + cutAt;
    CutHere(whole, from, text, maxLen, idx);
    SliceTail(whole, from, text, cutAt);
    next, more := NextStart(whole, cut), done + [Span(from, cut)];
    SpansAppend(done, Span(from, cut), Spans(whole, next, maxLen));
    CoverAppend(whole, done, chunks, Span(from, cut), text[..cutAt]);
  }

  lemma AtTheEnd(whole: seq<byte>, maxLen: nat, goal: seq<Span>,
                 text: seq<byte>, from: nat, done: seq<Span>, chunks: seq<seq<byte>>)
    requires Midway(whole, maxLen, goal, text, from, done, chunks) && |text| <= maxLen
    ensures Cover(whole, goal, if |text| > 0 then chunks + [text] else chunks)
  {
    if |text| > 0 {
      CoverAppend(whole, done, chunks, Span(from, |whole|), text);
    }
  }

  method CutAll(whole: seq<byte>, maxLen: nat, ghost goal: seq<Span>) returns (chunks: seq<seq<byte>>)
    requires Midway(whole, maxLen, goal, whole, 0, [], [])
    ensures Cover(whole, goal, chunks)
  {
    chunks := [];
    var text := whole;
    ghost var from: nat, done: seq<Span> := 0, [];
    while |text| > maxLen
      invariant Midway(whole, maxLen, goal, text, from, done, chunks)
      decreases |text|
    {
      var cutAt := maxLen;
      var idx := LastIndexOfBreak(text, maxLen);
      if idx > 0 { cutAt := idx; }
      from, done := AfterOneCut(whole, maxLen, goal, text, from, done, chunks, idx);
      chunks := chunks + [text[..cutAt]];
      text := Skip(text[cutAt..]);
    }
    AtTheEnd(whole, maxLen, goal, text, from, done, chunks);
    if |text| > 0 {
      chunks := chunks + [text];
    }
  }

  method ChunkText(whole: seq<byte>, maxLen: int) returns (chunks: seq<seq<byte>>)
    requires whole == [] || maxLen >= 1
    ensures if whole == [] then chunks == [] else Cover(whole, Spans(whole, 0, maxLen), chunks)
  {
    if whole == [] { return []; }
    if |whole| <= maxLen {
      assert whole == whole[0..|whole|];
      return [whole];
    }
    AtTheStart(whole, maxLen);
    chunks := CutAll(whole, maxLen, Spans(whole, 0, maxLen));
  }

  // ----- what the chunks are -----

  /** Every chunk is non-empty and no longer than allowed. */
  lemma {:induction false} SpansBounded(text: seq<byte>, from: nat, maxLen: nat, i: nat)
    requires maxLen >= 1 && from <= |text| && i < |Spans(text, from, maxLen)|
    ensures var s := Spans(text, from, maxLen)[i];
            from <= s.start < s.end <= |text| && s.end - s.start <= maxLen
    decreases |text| - from
  {
    if i > 0 {
      SpansBounded(text, NextStart(text, CutPoint(text, from, maxLen)), maxLen, i - 1);
    }
  }

  /** The chunks in order, a line break after each chunk that `breaks` marks. */
  function Glue(chunks: seq<seq<byte>>, breaks: seq<bool>, n: nat): seq<byte>
    requires n <= |chunks| == |breaks|
  {
    if n == 0 then [] else Glue(chunks, breaks, n - 1) + chunks[n - 1] + if breaks[n - 1] then [NEWLINE] else []
  }

  /** Where the text goes on after a chunk. */
  function After(text: seq<byte>, spans: seq<Span>, i: nat): nat
    requires i < |spans|
  {
    if i + 1 < |spans| then spans[i + 1].start else |text|
  }

  /** A line break follows this chunk in the text. */
  predicate BreakAfter(text: seq<byte>, s: Span) {
    s.end < |text| && text[s.end] == NEWLINE
  }

  /** After a chunk the text goes on behind one line break, if there is one, and otherwise at once. */
  lemma {:induction false} SpansAdjacent(text: seq<byte>, from: nat, maxLen: nat, i: nat)
    requires maxLen >= 1 && from < |text| && i < |Spans(text, from, maxLen)|
    ensures var spans := Spans(text, from, maxLen);
            && spans[0].start == from
            && After(text, spans, i) == spans[i].end + if BreakAfter(text, spans[i]) then 1 else 0
    decreases |text| - from
  {
    if |text| - from > maxLen {
      var next := NextStart(text, CutPoint(text, from, maxLen));
      if next < |text| {
        SpansAdjacent(text, next, maxLen, if i > 0 then i - 1 else 0);
      }
    }
  }

  lemma {:induction false} GlueIsPrefix(text: seq<byte>, spans: seq<Span>, chunks: seq<seq<byte>>,
                                        breaks: seq<bool>, n: nat)
    requires n <= |spans| == |chunks| == |breaks|
    requires Cover(text, spans, chunks)
    requires forall i :: 0 <= i < |spans| ==> After(text, spans, i) == spans[i].end + (if breaks[i] then 1 else 0)
    requires forall i :: 0 <= i < |spans| && breaks[i] ==> spans[i].end < |text| && text[spans[i].end] == NEWLINE
    requires spans != [] ==> spans[0].start == 0
    ensures n > 0 ==>
              && After(text, spans, n - 1) <= |text|
              && Glue(chunks, breaks, n) == text[..After(text, spans, n - 1)]
  {
    if n > 0 {
      GlueIsPrefix(text, spans, chunks, breaks, n - 1);
      var s, a := spans[n - 1], After(text, spans, n - 1);
      assert n > 1 ==> After(text, spans, n - 2) == s.start;
      OneMore(text, s, a, breaks[n - 1]);
      assert n == 1 ==> text[..s.start] == [];
    }
  }

  lemma OneMore(text: seq<byte>, s: Span, next: nat, broken: bool)
    requires Within(text, s) && next == s.end + (if broken then 1 else 0)
    requires broken ==> s.end < |text| && text[s.end] == NEWLINE
    ensures text[..s.start] + text[s.start..s.end] + (if broken then [NEWLINE] else []) == text[..next]
  {
    assert text[..s.start] + text[s.start..s.end] == text[..s.end];
    assert broken ==> text[..s.end] + [NEWLINE] == text[..next];
  }

  /** Exactly one line break is dropped at every cut that has one, and nothing else is lost. */
  lemma Lossless(text: seq<byte>, chunks: seq<seq<byte>>, maxLen: nat) returns (breaks: seq<bool>)
    requires text != [] && maxLen >= 1
    requires Cover(text, Spans(text, 0, maxLen), chunks)
    ensures |breaks| == |chunks| == |Spans(text, 0, maxLen)| && Glue(chunks, breaks, |chunks|) == text
    ensures forall i :: 0 <= i < |breaks| ==> (breaks[i] <==> BreakAfter(text, Spans(text, 0, maxLen)[i]))
  {
    var spans := Spans(text, 0, maxLen);
    forall i | 0 <= i < |spans|
      ensures After(text, spans, i) == spans[i].end + if BreakAfter(text, spans[i]) then 1 else 0
    {
      SpansAdjacent(text, 0, maxLen, i);
    }
    SpansAdjacent(text, 0, maxLen, 0);
    breaks := seq(|spans|, i requires 0 <= i < |spans| => BreakAfter(text, spans[i]));
    GlueIsPrefix(text, spans, chunks, breaks, |spans|);
    assert text[..|text|] == text;
  }

  predicate IsCut(text: seq<byte>, s: Span, maxLen: nat) {
    && s.start < s.end <= s.start + maxLen <= |text|
    && (forall k :: s.end < k < s.start + maxLen ==> text[k] != NEWLINE)
    && (s.end < s.start + maxLen ==> text[s.end] == NEWLINE)
    && (s.end == s.start + maxLen <==> forall k :: s.start < k < s.start + maxLen ==> text[k] != NEWLINE)
  }

  lemma FirstIsCut(text: seq<byte>, from: nat, maxLen: nat)
    requires maxLen >= 1 && from + maxLen < |text|
    ensures IsCut(text, Spans(text, from, maxLen)[0], maxLen)
  {}

  /** The loop cuts a chunk wherever more than `maxLen` bytes are left; its last chunk may be cut off too. */
  predicate CutInLoop(text: seq<byte>, s: Span, maxLen: nat) {
    s.start + maxLen < |text|
  }

  /**
   A chunk cut off inside the loop ends at the last line break of its window, and has the full
   length exactly when its window holds no line break after the first byte.
   */
  lemma {:induction false} CutAtLastBreak(text: seq<byte>, from: nat, maxLen: nat, i: nat)
    requires maxLen >= 1 && from <= |text| && i < |Spans(text, from, maxLen)|
    requires CutInLoop(text, Spans(text, from, maxLen)[i], maxLen)
    ensures IsCut(text, Spans(text, from, maxLen)[i], maxLen)
    decreases |text| - from
  {
    if i > 0 {
      CutAtLastBreak(text, NextStart(text, CutPoint(text, from, maxLen)), maxLen, i - 1);
    } else {
      FirstIsCut(text, from, maxLen);
    }
  }

  /** A chunk is cut off in the loop exactly when another chunk, or only a line break, follows it. */
  lemma {:induction false} CutExactlyIfFollowed(text: seq<byte>, from: nat, maxLen: nat, i: nat)
    requires maxLen >= 1 && from <= |text| && i < |Spans(text, from, maxLen)|
    ensures var spans := Spans(text, from, maxLen);
            CutInLoop(text, spans[i], maxLen) <==> i + 1 < |spans| || spans[i].end < |text|
    decreases |text| - from
  {
    if i > 0 {
      CutExactlyIfFollowed(text, NextStart(text, CutPoint(text, from, maxLen)), maxLen, i - 1);
    }
  }

  // ----- how many chunks there are -----

  /** Two neighbouring chunks cut off in the loop are together as long as the limit, but for one byte. */
  lemma PairsAreLong(text: seq<byte>, maxLen: nat, i: nat)
    requires maxLen >= 1 && text != [] && i + 1 < |Spans(text, 0, maxLen)|
    requires CutInLoop(text, Spans(text, 0, maxLen)[i + 1], maxLen)
    ensures var spans := Spans(text, 0, maxLen);
            (spans[i].end - spans[i].start) + (spans[i + 1].end - spans[i + 1].start) >= maxLen - 1
  {
    var spans := Spans(text, 0, maxLen);
    CutExactlyIfFollowed(text, 0, maxLen, i);
    CutAtLastBreak(text, 0, maxLen, i);
    CutAtLastBreak(text, 0, maxLen, i + 1);
    SpansAdjacent(text, 0, maxLen, i);
    var s, t := spans[i], spans[i + 1];
    // The second cut is a line break past the first window, or a full length away.
    assert t.end < t.start + maxLen ==> text[t.end] == NEWLINE;
    assert s.end < t.end;
  }

  lemma {:induction false} FirstPairReaches(text: seq<byte>, maxLen: nat, n: nat)
    requires maxLen >= 1 && text != [] && 2 * n < |Spans(text, 0, maxLen)|
    ensures Spans(text, 0, maxLen)[2 * n].start >= n * (maxLen - 1)
  {
    if n > 0 {
      var spans := Spans(text, 0, maxLen);
      FirstPairReaches(text, maxLen, n - 1);
      CutExactlyIfFollowed(text, 0, maxLen, 2 * n - 1);
      PairsAreLong(text, maxLen, 2 * n - 2);
      SpansAdjacent(text, 0, maxLen, 2 * n - 2);
      SpansAdjacent(text, 0, maxLen, 2 * n - 1);
      assert n * (maxLen - 1) == (n - 1) * (maxLen - 1) + (maxLen - 1);
    }
  }

  /** k chunks need a text of at least half of k - 1 times the limit less one. */
  lemma CountBound(text: seq<byte>, maxLen: nat)
    requires maxLen >= 1 && text != []
    ensures (|Spans(text, 0, maxLen)| - 1) / 2 * (maxLen - 1) <= |text|
  {
    var k := |Spans(text, 0, maxLen)|;
    if k > 0 {
      var n := (k - 1) / 2;
      FirstPairReaches(text, maxLen, n);
      SpansBounded(text, 0, maxLen, 2 * n);
    }
  }
}
