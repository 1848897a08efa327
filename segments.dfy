/**
 * Turning the recogniser's result into speech segments with embeddings
 * (`_process_asr_result`): validate the result's shape, merge each item's
 * tokens, and ask the embedding extractor for every merged segment, dropping
 * the segments it has no embedding for.
 */
module Segments {
  import opened Wrappers
  import opened Seqs
  import opened Cosine
  import opened Merger

  /** One item of the recogniser's list: a dictionary, possibly lacking `'timestamp'` or `'text'`, or anything else. */
  datatype AsrItem = NotADict | Record(timestamp: Option<seq<Stamp>>, text: Option<string>)

  /** The recogniser's result: a list of items, or a value of any other type. */
  datatype AsrResult = NotAList | AsrList(items: seq<AsrItem>)

  /** `_extract_embedding` for the file being processed: the extractor's vector for `[start_ms, end_ms]`, or None. */
  type Extractor = (int, int) -> Option<Embedding>

  /** A speech segment: its span in milliseconds, its merged text, and its embedding. */
  datatype Segment = Segment(startMs: int, endMs: int, text: string, embedding: Option<Embedding>)

  /** The merged segments of one item; items that are not dictionaries or lack `'timestamp'` give none. */
  function ItemSegments(item: AsrItem): seq<MergedSegment> {
    match item
    case Record(Some(ts), text) => Merge(ts, text.GetOr(""))
    case _ => []
  }

  /** The merged segments of all items, in discovery order. */
  function Candidates(items: seq<AsrItem>): seq<MergedSegment> {
    if items == [] then []
    else Candidates(items[..|items| - 1]) + ItemSegments(items[|items| - 1])
  }

  /** The extractor found an embedding for this merged segment. */
  function HasEmbedding(extract: Extractor): MergedSegment -> bool {
    (c: MergedSegment) => extract(c.startMs, c.endMs).Some?
  }

  /** The segment for one merged segment: none when the extractor has no embedding for its span. */
  function Attached(c: MergedSegment, extract: Extractor): seq<Segment> {
    match extract(c.startMs, c.endMs)
    case Some(e) => [Segment(c.startMs, c.endMs, c.text, Some(e))]
    case None => []
  }

  /** Ask the extractor for each merged segment in turn and keep those it answers, with their embedding. */
  function Attach(candidates: seq<MergedSegment>, extract: Extractor): seq<Segment> {
    if candidates == [] then []
    else Attach(candidates[..|candidates| - 1], extract) + Attached(candidates[|candidates| - 1], extract)
  }

  /** What `_process_asr_result` returns: nothing for a non-list or empty result. */
  function SegmentsOf(asr: AsrResult, extract: Extractor): seq<Segment> {
    match asr
    case NotAList => []
    case AsrList(items) => if items == [] then [] else Attach(Candidates(items), extract)
  }

  /** The merged segment a segment was built from. */
  function Span(s: Segment): MergedSegment {
    MergedSegment(s.startMs, s.endMs, s.text)
  }

  function Spans(segments: seq<Segment>): (r: seq<MergedSegment>)
    ensures |r| == |segments|
    ensures forall k :: 0 <= k < |segments| ==> r[k] == Span(segments[k])
  {
    if segments == [] then [] else Spans(segments[..|segments| - 1]) + [Span(segments[|segments| - 1])]
  }

  /** The inner loop of `_process_asr_result`: ask the extractor for each merged segment of one item. */
  method AttachEmbeddings(merged: seq<MergedSegment>, extract: Extractor) returns (kept: seq<Segment>)
    ensures kept == Attach(merged, extract)
  {
    kept := [];
    for j := 0 to |merged|
      invariant kept == Attach(merged[..j], extract)
    {
      var seg := merged[j];
      AttachStep(merged, j, extract);
      var embedding := extract(seg.startMs, seg.endMs);
      if embedding.Some? {
        kept := kept + [Segment(seg.startMs, seg.endMs, seg.text, embedding)];
      }
    }
    assert merged[..|merged|] == merged;
  }

  /** Walk the items, merge each valid one, and keep the segments the extractor has an embedding for. */
  method ProcessAsrResult(asr: AsrResult, extract: Extractor) returns (segments: seq<Segment>)
    ensures segments == SegmentsOf(asr, extract)
  {
    segments := [];
    if asr.NotAList? || asr.items == [] {
      return;
    }
    var items := asr.items;
    for i := 0 to |items|
      invariant segments == Attach(Candidates(items[..i]), extract)
    {
      var item := items[i];
      var merged := [];
      if item.Record? && item.timestamp.Some? {
        merged := MergeContinuousSegments(item.timestamp.value, item.text.GetOr(""));
      }
      var kept := AttachEmbeddings(merged, extract);
      CandidatesStep(items, i);
      AttachAppend(Candidates(items[..i]), merged, extract);
      segments := segments + kept;
    }
    assert items[..|items|] == items;
  }

  /** Attaching one more merged segment. */
  lemma AttachStep(ms: seq<MergedSegment>, j: nat, extract: Extractor)
    requires j < |ms|
    ensures Attach(ms[..j + 1], extract) == Attach(ms[..j], extract) + Attached(ms[j], extract)
  {
    assert ms[..j + 1][..j] == ms[..j];
  }

  /** The candidates of one more item. */
  lemma CandidatesStep(items: seq<AsrItem>, i: nat)
    requires i < |items|
    ensures Candidates(items[..i + 1]) == Candidates(items[..i]) + ItemSegments(items[i])
  {
    assert items[..i + 1][..i] == items[..i];
  }

  /** The extractor is consulted segment by segment, so attaching distributes over concatenation. */
  lemma {:induction false} AttachAppend(a: seq<MergedSegment>, b: seq<MergedSegment>, extract: Extractor)
    ensures Attach(a + b, extract) == Attach(a, extract) + Attach(b, extract)
    decreases |b|
  {
    if b == [] {
      assert a + b == a;
    } else {
      assert (a + b)[..|a + b| - 1] == a + b[..|b| - 1];
      AttachAppend(a, b[..|b| - 1], extract);
    }
  }

  /** Every kept segment carries the embedding the extractor gave for its span. */
  lemma {:induction false} AttachEmbedded(candidates: seq<MergedSegment>, extract: Extractor)
    ensures forall s <- Attach(candidates, extract) :: s.embedding.Some? && s.embedding == extract(s.startMs, s.endMs)
  {
    if candidates != [] {
      AttachEmbedded(candidates[..|candidates| - 1], extract);
    }
  }

  /**
   * Exactly the merged segments without an embedding are dropped; the others
   * are kept in their order with their span and text unchanged.
   */
  lemma {:induction false} AttachIsFilter(candidates: seq<MergedSegment>, extract: Extractor)
    ensures Spans(Attach(candidates, extract)) == Filter(HasEmbedding(extract), candidates)
  {
    if candidates != [] {
      var init, c := candidates[..|candidates| - 1], candidates[|candidates| - 1];
      AttachIsFilter(init, extract);
      var previous := Attach(init, extract);
      assert Spans(previous + Attached(c, extract)) == Spans(previous) + Spans(Attached(c, extract));
    }
  }

  /**
   * `_process_asr_result` yields no segments for a result that is not a
   * non-empty list; otherwise its segments are the embedded ones among the
   * merged segments of the items that carry a timestamp, in order, each with
   * its extractor embedding, and never more than there are merged segments.
   */
  lemma SegmentsOfShape(asr: AsrResult, extract: Extractor)
    ensures asr.NotAList? || asr.items == [] ==> SegmentsOf(asr, extract) == []
    ensures asr.AsrList? ==> Spans(SegmentsOf(asr, extract)) == Filter(HasEmbedding(extract), Candidates(asr.items))
    ensures asr.AsrList? ==> |SegmentsOf(asr, extract)| <= |Candidates(asr.items)|
    ensures forall s <- SegmentsOf(asr, extract) :: s.embedding.Some? && s.embedding == extract(s.startMs, s.endMs)
  {
    if asr.AsrList? {
      AttachIsFilter(Candidates(asr.items), extract);
      AttachEmbedded(Candidates(asr.items), extract);
    }
  }

  /** An item without `'timestamp'`, or one that is not a dictionary, contributes nothing. */
  lemma CandidatesSkipInvalid(items: seq<AsrItem>, item: AsrItem)
    requires item.NotADict? || item.timestamp.None?
    ensures Candidates(items + [item]) == Candidates(items)
  {
    assert (items + [item])[..|items|] == items;
  }
}
