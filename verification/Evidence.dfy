/** Evidence values, and the builder that grounds a quote in an exact span of a document. */
module Evidence {
  import opened Wrappers
  import opened Chunking

  datatype Direction = Supports | Contradicts

  datatype Authority = Official | Independent | Unknown

  datatype Version = Version(id: nat, tenant: nat, document: nat, text: string)

  datatype Source = Source(
    document: nat, version: nat, chunk: nat, url: string, identity: string, authority: Authority)

  datatype Candidate = Candidate(
    id: nat, tenant: nat, run: nat, fact: nat, source: Source, quote: string, direction: Direction,
    score: real, start: nat, end: nat)

  datatype Verified = Verified(id: nat, candidate: Candidate, accepted: bool)

  /** What the builder is given besides the version and the chunk; `wellFormed` says that the
      URL and the identity pass their syntax checks. */
  datatype Request = Request(
    tenant: nat, run: nat, fact: nat, document: nat, chunkId: nat, url: string, identity: string,
    wellFormed: bool, authority: Authority, direction: Direction, quote: string, quoteStart: int, score: real)

  datatype BuildError =
    | WrongTenant
    | WrongDocument
    | ChunkNotASpan
    | QuoteNotInChunk
    | QuoteNotInVersion
    | BadSource
    | EmptyQuote
    | BadScore

  /** A slice with bounds cut off at the end of the text. */
  function Slice(s: string, lo: nat, hi: nat): string {
    if lo < Min(hi, |s|) then s[lo..Min(hi, |s|)] else []
  }

  function Build(q: Request, version: Version, chunk: Chunk, id: nat): Result<Candidate, BuildError> {
    if version.tenant != q.tenant then Err(WrongTenant)
    else if version.document != q.document then Err(WrongDocument)
    else if Slice(version.text, chunk.start, chunk.end) != chunk.text then Err(ChunkNotASpan)
    else if q.quoteStart < 0 || Slice(chunk.text, q.quoteStart, q.quoteStart + |q.quote|) != q.quote then
      Err(QuoteNotInChunk)
    else
      var start := chunk.start + q.quoteStart;
      var end := start + |q.quote|;
      if Slice(version.text, start, end) != q.quote then Err(QuoteNotInVersion)
      else if !q.wellFormed then Err(BadSource)
      else if q.quote == [] then Err(EmptyQuote)
      else if !(0.0 <= q.score <= 1.0) then Err(BadScore)
      else
        var source := Source(q.document, version.id, q.chunkId, q.url, q.identity, q.authority);
        Ok(Candidate(id, q.tenant, q.run, q.fact, source, q.quote, q.direction, q.score, start, end))
  }

  /** A candidate's quote is what its document version holds at its offsets. */
  predicate Grounded(c: Candidate, version: Version) {
    && c.source.version == version.id
    && c.tenant == version.tenant
    && c.source.document == version.document
    && c.start < c.end <= |version.text|
    && version.text[c.start..c.end] == c.quote
  }

  lemma SliceInside(s: string, lo: nat, hi: nat, from: nat, to: nat)
    requires from < to && Slice(Slice(s, lo, hi), from, to) != [] && |Slice(Slice(s, lo, hi), from, to)| == to - from
    ensures lo + to <= |s| && Slice(s, lo + from, lo + to) == Slice(Slice(s, lo, hi), from, to)
  {
  }

  /** `piece` is what `s` holds from `lo` up to `hi`, or up to its end. */
  predicate Spans(s: string, lo: nat, hi: nat, piece: string) {
    && |piece| == Max(0, Min(hi, |s|) - lo)
    && forall k :: 0 <= k < |piece| ==> piece[k] == s[lo + k]
  }

  lemma SliceSpans(s: string, lo: nat, hi: nat, piece: string)
    ensures Slice(s, lo, hi) == piece <==> Spans(s, lo, hi, piece)
  {
  }

  /** The request fits the version, the chunk is a span of the version, and the quote stands in the
      chunk at the declared place. */
  predicate Quotes(q: Request, version: Version, chunk: Chunk) {
    && q.tenant == version.tenant && q.document == version.document
    && Spans(version.text, chunk.start, chunk.end, chunk.text)
    && q.quote != [] && 0 <= q.quoteStart && q.quoteStart + |q.quote| <= |chunk.text|
    && chunk.text[q.quoteStart..q.quoteStart + |q.quote|] == q.quote
  }

  /** The builder succeeds exactly on such a request with a well-formed source and a score in range.
      What it makes is grounded, at the offset of the chunk plus the offset in the chunk, and says of
      its fact, in its run, what the request says, with the source the request names. The final look
      at the whole document never fails. */
  lemma BuiltIsGrounded(q: Request, version: Version, chunk: Chunk, id: nat)
    ensures Build(q, version, chunk, id).Ok? <==>
              Quotes(q, version, chunk) && q.wellFormed && 0.0 <= q.score <= 1.0
    ensures Build(q, version, chunk, id).Ok? ==>
      var c := Build(q, version, chunk, id).value;
      && Grounded(c, version)
      && c.quote == q.quote && c.start == chunk.start + q.quoteStart && c.end - c.start == |q.quote|
      && c.id == id && c.tenant == q.tenant && c.run == q.run && c.fact == q.fact
      && c.direction == q.direction && c.score == q.score
      && c.source.document == q.document && c.source.chunk == q.chunkId && c.source.url == q.url
      && c.source.identity == q.identity && c.source.authority == q.authority
    ensures Build(q, version, chunk, id) != Err(QuoteNotInVersion)
  {
    SliceSpans(version.text, chunk.start, chunk.end, chunk.text);
    if q.quoteStart >= 0 && q.quote != [] && Slice(version.text, chunk.start, chunk.end) == chunk.text
      && Slice(chunk.text, q.quoteStart, q.quoteStart + |q.quote|) == q.quote
    {
      SliceInside(version.text, chunk.start, chunk.end, q.quoteStart, q.quoteStart + |q.quote|);
    }
  }

  /** The right tenant and document, a well-formed source and a score in range. */
  predicate Admissible(q: Request, version: Version) {
    q.tenant == version.tenant && q.document == version.document && q.wellFormed && 0.0 <= q.score <= 1.0
  }

  /** Any occurrence of a quote inside an exact span of the text can be built from that span. */
  lemma QuoteInsideIsBuildable(q: Request, version: Version, c: Chunk, i: nat, id: nat)
    requires Admissible(q, version) && q.quote != []
    requires c.start <= i && i + |q.quote| <= c.end <= |version.text|
    requires c.text == version.text[c.start..c.end] && version.text[i..i + |q.quote|] == q.quote
    ensures var r := Build(q.(quoteStart := i - c.start), version, c, id);
      r.Ok? && r.value.start == i && r.value.end == i + |q.quote| && Grounded(r.value, version)
  {
    var j := i + |q.quote|;
    assert c.text[i - c.start..j - c.start] == version.text[i..j];
    assert Slice(c.text, i - c.start, j - c.start) == q.quote;
    SliceSpans(version.text, c.start, c.end, c.text);
    BuiltIsGrounded(q.(quoteStart := i - c.start), version, c, id);
  }

  /** From text to evidence: with an overlap of at most half a window, every occurrence of a
      quote of at most `overlap + 1` characters lies in some chunk, from which the builder makes
      a candidate with the very offsets of that occurrence. */
  lemma {:induction false} ShortQuotesAreBuildable(
      q: Request, version: Version, max: nat, overlap: nat, i: nat, id: nat) returns (k: nat, at: Request)
    requires ValidSizes(max, overlap) && overlap <= max / 2 && Admissible(q, version)
    requires 0 < |q.quote| <= overlap + 1 && i + |q.quote| <= |version.text|
    requires version.text[i..i + |q.quote|] == q.quote
    ensures k < |Chunks(version.text, max, overlap, 0, 0)|
    ensures at == q.(quoteStart := at.quoteStart)
    ensures var r := Build(at, version, Chunks(version.text, max, overlap, 0, 0)[k], id);
      r.Ok? && r.value.start == i && r.value.end == i + |q.quote| && Grounded(r.value, version)
  {
    hide *;
    k := ChunkOfShortSpan(version.text, max, overlap, i, i + |q.quote|);
    var c := Chunks(version.text, max, overlap, 0, 0)[k];
    at := q.(quoteStart := i - c.start);
    QuoteInsideIsBuildable(q, version, c, i, id);
  }
}
