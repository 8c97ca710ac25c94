/** Cutting a document into overlapping windows with exact source offsets. */
module Chunking {
  import opened Wrappers

  /** A chunk; its hash and token count are functions of `text`. */
  datatype Chunk = Chunk(ordinal: nat, text: string, start: nat, end: nat)

  /** The sizes the chunker accepts; its constructor refuses all others. */
  predicate ValidSizes(max: int, overlap: int) {
    max >= 100 && 0 <= overlap < max
  }

  // ---------------------------------------------------------------- where a window ends

  predicate OccursAt(text: string, sub: string, i: nat, hi: nat)
    requires hi <= |text|
  {
    i + |sub| <= hi && text[i..i + |sub|] == sub
  }

  /** The largest place at which `sub` occurs wholly inside [lo, hi), or -1. */
  function RFind(text: string, sub: string, lo: nat, hi: nat): (r: int)
    requires sub != [] && hi <= |text|
    ensures r == -1 || (lo <= r && OccursAt(text, sub, r, hi))
    ensures forall i: nat :: lo <= i && OccursAt(text, sub, i, hi) ==> i <= r
    decreases hi
  {
    if hi < lo + |sub| then -1
    else if OccursAt(text, sub, hi - |sub|, hi) then hi - |sub|
    else
      var r := RFind(text, sub, lo, hi - 1);
      assert forall i: nat :: OccursAt(text, sub, i, hi) && i != hi - |sub| ==> OccursAt(text, sub, i, hi - 1);
      r
  }

  function LastBreak(text: string, lo: nat, hi: nat): int
    requires hi <= |text|
  {
    Max(Max(RFind(text, "\n", lo, hi), RFind(text, "\U{3002}", lo, hi)), RFind(text, ". ", lo, hi))
  }

  /** The end of the window that starts at `start`. */
  function WindowEnd(text: string, start: nat, max: nat): nat
    requires start < |text|
  {
    var hard := Min(|text|, start + max);
    if hard < |text| && LastBreak(text, start + max / 2, hard) > start
    then LastBreak(text, start + max / 2, hard) + 1
    else hard
  }

  function NextStart(start: nat, end: nat, overlap: nat): nat {
    Max(start + 1, if end < overlap then 0 else end - overlap)
  }

  /** The chunks from `start` on. */
  function Chunks(text: string, max: nat, overlap: nat, start: nat, ordinal: nat): seq<Chunk>
    requires ValidSizes(max, overlap)
    decreases |text| - start
  {
    if start >= |text| then []
    else
      WindowBounds(text, start, max);
      var end := WindowEnd(text, start, max);
      var c := Chunk(ordinal, text[start..end], start, end);
      if end == |text| then [c]
      else [c] + Chunks(text, max, overlap, NextStart(start, end, overlap), ordinal + 1)
  }

  lemma WindowBounds(text: string, start: nat, max: nat)
    requires start < |text| && max >= 2
    ensures start < WindowEnd(text, start, max) <= Min(|text|, start + max)
    ensures WindowEnd(text, start, max) < |text| ==> WindowEnd(text, start, max) > start + max / 2
  {
  }

  lemma ChunksStep(text: string, max: nat, overlap: nat, start: nat, ordinal: nat)
    requires ValidSizes(max, overlap) && start < |text|
    ensures var end := WindowEnd(text, start, max);
      && start < end <= |text| && end <= start + max
      && (end < |text| ==> end > start + max / 2)
      && Chunks(text, max, overlap, start, ordinal) == [Chunk(ordinal, text[start..end], start, end)] +
           if end == |text| then [] else Chunks(text, max, overlap, NextStart(start, end, overlap), ordinal + 1)
  {
    WindowBounds(text, start, max);
    hide WindowEnd, NextStart;
  }

  /** The chunker. */
  method ChunkText(text: string, max: nat, overlap: nat) returns (chunks: seq<Chunk>)
    requires ValidSizes(max, overlap)
    ensures chunks == Chunks(text, max, overlap, 0, 0)
  {
    if text == [] {
      NoChunksFrom(text, max, overlap, 0, 0);
      return [];
    }
    hide Chunks, LastBreak, RFind, NextStart;
    chunks := [];
    var start, ordinal := 0, 0;
    while start < |text|
      invariant Chunks(text, max, overlap, 0, 0) == chunks + Chunks(text, max, overlap, start, ordinal)
      decreases |text| - start
    {
      ChunksStep(text, max, overlap, start, ordinal);
      var hardEnd := Min(|text|, start + max);
      var end := hardEnd;
      if hardEnd < |text| {
        var boundary := LastBreak(text, start + max / 2, hardEnd);
        if boundary > start {
          end := boundary + 1;
        }
      }
      assert end == WindowEnd(text, start, max);
      var chunk := Chunk(ordinal, text[start..end], start, end);
      if end == |text| {
        return chunks + [chunk];
      }
      ghost var before := chunks;
      chunks := chunks + [chunk];
      start, ordinal := NextStart(start, end, overlap), ordinal + 1;
      Reassociate(before, chunk, Chunks(text, max, overlap, start, ordinal));
    }
    NoChunksFrom(text, max, overlap, start, ordinal);
  }

  lemma Reassociate(before: seq<Chunk>, chunk: Chunk, rest: seq<Chunk>)
    ensures before + ([chunk] + rest) == (before + [chunk]) + rest
  {
  }

  lemma NoChunksFrom(text: string, max: nat, overlap: nat, start: nat, ordinal: nat)
    requires ValidSizes(max, overlap) && start >= |text|
    ensures Chunks(text, max, overlap, start, ordinal) == []
  {
  }

  // ---------------------------------------------------------------- one chunk after another

  /** A place where a window may end, seen in a window that reaches to `hi`. */
  predicate BreakAt(text: string, i: nat, hi: nat)
    requires hi <= |text|
  {
    i < hi && (text[i] == '\n' || text[i] == '\U{3002}' || (text[i] == '.' && i + 1 < hi && text[i + 1] == ' '))
  }

  /** The chosen break is the last one in the window's second half. */
  lemma LastBreakIsLast(text: string, lo: nat, hi: nat)
    requires hi <= |text|
    ensures var b := LastBreak(text, lo, hi);
      && (b == -1 || (lo <= b && BreakAt(text, b, hi)))
      && forall i :: lo <= i < hi && BreakAt(text, i, hi) ==> i <= b
  {
    var b := LastBreak(text, lo, hi);
    if b != -1 {
      BreakOccurs(text, b, hi);
    }
    forall i | lo <= i < hi && BreakAt(text, i, hi) ensures i <= b {
      BreakOccurs(text, i, hi);
    }
  }

  lemma BreakOccurs(text: string, i: nat, hi: nat)
    requires i < hi <= |text|
    ensures BreakAt(text, i, hi) <==>
      OccursAt(text, "\n", i, hi) || OccursAt(text, "\U{3002}", i, hi) || OccursAt(text, ". ", i, hi)
  {
    assert text[i..i + 1] == [text[i]];
    assert i + 1 < hi ==> text[i..i + 2] == [text[i], text[i + 1]];
  }

  /** The next window never ends before the present one. */
  lemma EndsGrow(text: string, start: nat, max: nat, overlap: nat)
    requires ValidSizes(max, overlap) && start < |text| && WindowEnd(text, start, max) < |text|
    ensures var end := WindowEnd(text, start, max);
      var next := NextStart(start, end, overlap);
      start < next <= end && WindowEnd(text, next, max) >= end
  {
    hide LastBreak;
    WindowBounds(text, start, max);
    var end, hard := WindowEnd(text, start, max), start + max;
    var next := NextStart(start, end, overlap);
    var hard' := Min(|text|, next + max);
    LastBreakIsLast(text, start + max / 2, Min(|text|, hard));
    if hard' < |text| {
      LastBreakIsLast(text, next + max / 2, hard');
      var b := LastBreak(text, next + max / 2, hard');
      var first := LastBreak(text, start + max / 2, hard);
      assert first != -1 ==> BreakAt(text, first, hard');
      assert b != -1 && b + 1 < hard ==> BreakAt(text, b, hard);
    }
  }

  /** What holds of each chunk, and of each chunk and the next. */
  predicate Chained(text: string, max: nat, cs: seq<Chunk>) {
    && (forall k :: 0 <= k < |cs| ==> cs[k].start < cs[k].end <= |text|)
    && (forall k :: 0 <= k < |cs| ==> cs[k].text == text[cs[k].start..cs[k].end] && |cs[k].text| <= max)
    && (forall k :: 0 <= k < |cs| - 1 ==> cs[k].start < cs[k + 1].start <= cs[k].end <= cs[k + 1].end)
  }

  lemma Prepend(text: string, max: nat, c: Chunk, cs: seq<Chunk>)
    requires Chained(text, max, cs) && cs != []
    requires c.start < c.end <= |text| && c.text == text[c.start..c.end] && |c.text| <= max
    requires c.start < cs[0].start <= c.end <= cs[0].end
    ensures Chained(text, max, [c] + cs)
  {
  }

  lemma {:induction false} ChunksAreChained(text: string, max: nat, overlap: nat, start: nat, ordinal: nat)
    requires ValidSizes(max, overlap) && start < |text|
    ensures var cs := Chunks(text, max, overlap, start, ordinal);
      && Chained(text, max, cs)
      && cs != [] && cs[0].start == start && cs[|cs| - 1].end == |text|
      && cs[0].end == WindowEnd(text, start, max)
      && forall k :: 0 <= k < |cs| ==> cs[k].ordinal == ordinal + k
    decreases |text| - start
  {
    hide Chunks, WindowEnd, NextStart;
    ChunksStep(text, max, overlap, start, ordinal);
    var end := WindowEnd(text, start, max);
    var cs := Chunks(text, max, overlap, start, ordinal);
    if end < |text| {
      EndsGrow(text, start, max, overlap);
      var next := NextStart(start, end, overlap);
      ChunksAreChained(text, max, overlap, next, ordinal + 1);
      Prepend(text, max, Chunk(ordinal, text[start..end], start, end), Chunks(text, max, overlap, next, ordinal + 1));
    }
  }

  /** Exact slices in order, numbered from 0, starting at the beginning and ending at the end,
      with starts strictly growing, ends never shrinking and nothing left out between. */
  lemma ChunksAreExact(text: string, max: nat, overlap: nat)
    requires ValidSizes(max, overlap)
    ensures var cs := Chunks(text, max, overlap, 0, 0);
      && Chained(text, max, cs)
      && (forall k :: 0 <= k < |cs| ==> cs[k].ordinal == k)
      && (if text == [] then cs == [] else cs != [] && cs[0].start == 0 && cs[|cs| - 1].end == |text|)
  {
    if text != [] {
      ChunksAreChained(text, max, overlap, 0, 0);
    }
  }

  // ---------------------------------------------------------------- where the windows lie

  /** A window that reaches the end of the text ends there. Any other ends after the last break in its second
      half, or is full if there is none. */
  predicate EndsWell(text: string, start: nat, end: nat, max: nat) {
    var full := start + max;
    if |text| <= full then end == |text|
    else if exists i :: start + max / 2 <= i < full && BreakAt(text, i, full) then
      && start + max / 2 < end <= full && BreakAt(text, end - 1, full)
      && forall i :: end <= i < full ==> !BreakAt(text, i, full)
    else end == full
  }

  lemma WindowEndsWell(text: string, start: nat, max: nat)
    requires start < |text| && max >= 2
    ensures EndsWell(text, start, WindowEnd(text, start, max), max)
  {
    hide LastBreak;
    if start + max < |text| {
      LastBreakIsLast(text, start + max / 2, start + max);
    }
  }

  /** Every chunk ends well, and the next starts `overlap` characters before its end, but at least one
      character further on. */
  predicate Windows(text: string, max: nat, overlap: nat, cs: seq<Chunk>) {
    && (forall k :: 0 <= k < |cs| ==> EndsWell(text, cs[k].start, cs[k].end, max))
    && (forall k :: 0 <= k < |cs| - 1 ==> cs[k].end < |text| && cs[k + 1].start == Max(cs[k].start + 1, cs[k].end - overlap))
  }

  lemma WindowFirst(text: string, max: nat, overlap: nat, c: Chunk, rest: seq<Chunk>)
    requires EndsWell(text, c.start, c.end, max) && Windows(text, max, overlap, rest)
    requires rest != [] ==> c.end < |text| && rest[0].start == Max(c.start + 1, c.end - overlap)
    ensures Windows(text, max, overlap, [c] + rest)
  {
    hide EndsWell;
  }

  lemma {:induction false} WindowsFrom(text: string, max: nat, overlap: nat, start: nat, ordinal: nat)
    requires ValidSizes(max, overlap)
    ensures Windows(text, max, overlap, Chunks(text, max, overlap, start, ordinal))
    ensures var cs := Chunks(text, max, overlap, start, ordinal); cs != [] ==> cs[0].start == start
    decreases |text| - start
  {
    if start < |text| {
      ChunksStep(text, max, overlap, start, ordinal);
      WindowEndsWell(text, start, max);
      hide Chunks, WindowEnd, EndsWell, Windows;
      var end := WindowEnd(text, start, max);
      var c, rest := Chunk(ordinal, text[start..end], start, end), [];
      if end < |text| {
        var next := NextStart(start, end, overlap);
        WindowsFrom(text, max, overlap, next, ordinal + 1);
        rest := Chunks(text, max, overlap, next, ordinal + 1);
      } else {
        NoWindows(text, max, overlap);
      }
      WindowFirst(text, max, overlap, c, rest);
    } else {
      NoChunksFrom(text, max, overlap, start, ordinal);
      NoWindows(text, max, overlap);
    }
  }

  lemma NoWindows(text: string, max: nat, overlap: nat)
    ensures Windows(text, max, overlap, [])
  {
  }

  /** The chunks are the windows, each where the one before leaves it. */
  lemma ChunksAreWindows(text: string, max: nat, overlap: nat)
    requires ValidSizes(max, overlap)
    ensures Windows(text, max, overlap, Chunks(text, max, overlap, 0, 0))
  {
    WindowsFrom(text, max, overlap, 0, 0);
  }

  // ---------------------------------------------------------------- nothing is lost

  /** What each chunk adds beyond the end of the one before, put together. */
  function Joined(cs: seq<Chunk>, from: nat): string {
    if cs == [] then []
    else if cs[0].start <= from <= cs[0].start + |cs[0].text| then
      cs[0].text[from - cs[0].start..] + Joined(cs[1..], cs[0].end)
    else []
  }

  lemma {:induction false} JoinedFrom(text: string, max: nat, overlap: nat, start: nat, ordinal: nat, from: nat)
    requires ValidSizes(max, overlap) && start < |text| && start <= from <= WindowEnd(text, start, max)
    ensures from <= |text|
    ensures Joined(Chunks(text, max, overlap, start, ordinal), from) == text[from..]
    decreases |text| - start
  {
    hide Chunks, WindowEnd, NextStart;
    ChunksStep(text, max, overlap, start, ordinal);
    var end := WindowEnd(text, start, max);
    var cs := Chunks(text, max, overlap, start, ordinal);
    assert text[start..end][from - start..] == text[from..end];
    if end < |text| {
      EndsGrow(text, start, max, overlap);
      var next := NextStart(start, end, overlap);
      JoinedFrom(text, max, overlap, next, ordinal + 1, end);
      assert cs[1..] == Chunks(text, max, overlap, next, ordinal + 1);
      assert text[from..] == text[from..end] + text[end..];
    } else {
      assert cs[1..] == [];
    }
  }

  /** The text is rebuilt from the parts of the chunks beyond each previous end. */
  lemma ChunksRebuild(text: string, max: nat, overlap: nat)
    requires ValidSizes(max, overlap)
    ensures Joined(Chunks(text, max, overlap, 0, 0), 0) == text
  {
    if text != [] {
      WindowBounds(text, 0, max);
      JoinedFrom(text, max, overlap, 0, 0, 0);
    }
  }

  // ---------------------------------------------------------------- what the overlap is for

  /** Some chunk holds the whole of text[i..j]. */
  predicate Held(cs: seq<Chunk>, i: nat, j: nat) {
    exists k :: 0 <= k < |cs| && cs[k].start <= i && j <= cs[k].end
  }

  lemma {:induction false} ShortSpanIsHeld(
      text: string, max: nat, overlap: nat, start: nat, ordinal: nat, i: nat, j: nat)
    requires ValidSizes(max, overlap) && overlap <= max / 2
    requires start <= i < j <= |text| && j - i <= overlap + 1
    ensures Held(Chunks(text, max, overlap, start, ordinal), i, j)
    decreases |text| - start
  {
    hide Chunks, WindowEnd;
    ChunksStep(text, max, overlap, start, ordinal);
    var end := WindowEnd(text, start, max);
    var cs := Chunks(text, max, overlap, start, ordinal);
    if j <= end {
      assert cs[0].start <= i && j <= cs[0].end;
    } else {
      var next := NextStart(start, end, overlap);
      ShortSpanIsHeld(text, max, overlap, next, ordinal + 1, i, j);
      var rest := Chunks(text, max, overlap, next, ordinal + 1);
      var k :| 0 <= k < |rest| && rest[k].start <= i && j <= rest[k].end;
      assert cs[k + 1] == rest[k];
    }
  }

  /** Every short span of every text lies wholly inside some chunk. */
  ghost predicate HoldsShortSpans(max: nat, overlap: nat)
    requires ValidSizes(max, overlap)
  {
    forall text: string, i: nat, j: nat :: i < j <= |text| && j - i <= overlap + 1 ==>
      Held(Chunks(text, max, overlap, 0, 0), i, j)
  }

  /** A text whose only break is in the middle of the first window. */
  function BrokenInTheMiddle(max: nat): string {
    seq(max + 1, i => if i == max / 2 then '\n' else 'a')
  }

  lemma MiddleBreakIsChosen(max: nat)
    requires max >= 100
    ensures WindowEnd(BrokenInTheMiddle(max), 0, max) == max / 2 + 1
  {
    var text := BrokenInTheMiddle(max);
    LastBreakIsLast(text, max / 2, max);
    assert BreakAt(text, max / 2, max);
    assert forall i :: 0 <= i < max && BreakAt(text, i, max) ==> i == max / 2;
  }

  lemma LongOverlapLosesSpan(max: nat, overlap: nat)
    requires ValidSizes(max, overlap) && overlap > max / 2
    ensures !Held(Chunks(BrokenInTheMiddle(max), max, overlap, 0, 0), 0, overlap + 1)
  {
    var text := BrokenInTheMiddle(max);
    var cs := Chunks(text, max, overlap, 0, 0);
    MiddleBreakIsChosen(max);
    ChunksAreChained(text, max, overlap, 0, 0);
    hide Chunks, WindowEnd, BrokenInTheMiddle;
    StartsGrow(text, max, cs);
  }

  lemma {:induction false} StartsGrow(text: string, max: nat, cs: seq<Chunk>)
    requires Chained(text, max, cs)
    ensures forall k :: 0 < k < |cs| ==> cs[k].start > cs[0].start
  {
    if |cs| > 1 {
      var init := cs[..|cs| - 1];
      assert forall k :: 0 <= k < |init| ==> init[k] == cs[k];
      StartsGrow(text, max, init);
      assert cs[|init| - 1].start < cs[|init|].start;
    }
  }

  /** The overlap keeps every span of at most `overlap + 1` characters whole, for every text,
      exactly when it is at most half a window. */
  lemma OverlapKeepsSpansIff(max: nat, overlap: nat)
    requires ValidSizes(max, overlap)
    ensures HoldsShortSpans(max, overlap) <==> overlap <= max / 2
  {
    if overlap <= max / 2 {
      forall text: string, i: nat, j: nat | i < j <= |text| && j - i <= overlap + 1
        ensures Held(Chunks(text, max, overlap, 0, 0), i, j)
      {
        ShortSpanIsHeld(text, max, overlap, 0, 0, i, j);
      }
    } else {
      LongOverlapLosesSpan(max, overlap);
      assert |BrokenInTheMiddle(max)| == max + 1;
    }
  }

  lemma ChunkOfShortSpan(text: string, max: nat, overlap: nat, i: nat, j: nat) returns (k: nat)
    requires ValidSizes(max, overlap) && overlap <= max / 2
    requires i < j <= |text| && j - i <= overlap + 1
    ensures k < |Chunks(text, max, overlap, 0, 0)|
    ensures var c := Chunks(text, max, overlap, 0, 0)[k];
      c.start <= i && j <= c.end <= |text| && c.text == text[c.start..c.end]
  {
    hide Chunks, ValidSizes;
    ShortSpanIsHeld(text, max, overlap, 0, 0, i, j);
    ChunksAreExact(text, max, overlap);
    var cs := Chunks(text, max, overlap, 0, 0);
    k :| 0 <= k < |cs| && cs[k].start <= i && j <= cs[k].end;
  }

  // ---------------------------------------------------------------- how many chunks

  lemma {:induction false} FewChunks(text: string, max: nat, overlap: nat, start: nat, ordinal: nat)
    requires ValidSizes(max, overlap) && overlap <= max / 2 && start < |text|
    ensures (|Chunks(text, max, overlap, start, ordinal)| - 1) * (max / 2 + 1 - overlap) < |text| - start
    decreases |text| - start
  {
    hide Chunks, WindowEnd;
    ChunksStep(text, max, overlap, start, ordinal);
    var end := WindowEnd(text, start, max);
    if end < |text| {
      var next, stride := NextStart(start, end, overlap), max / 2 + 1 - overlap;
      FewChunks(text, max, overlap, next, ordinal + 1);
      var rest := Chunks(text, max, overlap, next, ordinal + 1);
      assert |Chunks(text, max, overlap, start, ordinal)| == |rest| + 1;
      OneStride(|rest|, stride);
    }
  }

  lemma OneStride(n: nat, stride: nat)
    ensures n * stride == (n - 1) * stride + stride
  {
  }

  /** With the overlap at most half a window, the number of chunks is bounded by the length. */
  lemma ChunkCount(text: string, max: nat, overlap: nat)
    requires ValidSizes(max, overlap) && overlap <= max / 2
    ensures |Chunks(text, max, overlap, 0, 0)| <= 1 + |text| / (max / 2 + 1 - overlap)
  {
    hide Chunks, ValidSizes;
    var n, stride := |Chunks(text, max, overlap, 0, 0)|, max / 2 + 1 - overlap;
    if text != [] {
      FewChunks(text, max, overlap, 0, 0);
      Quotient(n - 1, stride, |text|);
    } else {
      NoChunksFrom(text, max, overlap, 0, 0);
      Quotient(0, stride, |text|);
    }
  }

  lemma Quotient(n: int, d: nat, m: nat)
    requires d > 0 && n * d <= m
    ensures n <= m / d
  {
    var q := m / d;
    assert m == q * d + m % d;
    assert (n - q) * d == n * d - q * d;
    NoWholeMultiple(n - q, d);
  }

  lemma NoWholeMultiple(x: int, d: nat)
    requires x * d < d
    ensures x <= 0
  {
  }
}
