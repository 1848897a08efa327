/**
 * `_assign_speaker_ids`: run the clusterer over the segments in order,
 * skipping those without an embedding, and label each remaining segment with
 * the speaker id the clusterer returns.
 */
module Labelling {
  import opened Wrappers
  import opened Seqs
  import opened Merger
  import opened Segments
  import opened Speakers

  /** One line of the dialogue: speaker id, text and span in milliseconds. */
  datatype Dialogue = Dialogue(speaker: string, text: string, startMs: int, endMs: int)

  /** The clusterer's table after the labelling, and the dialogue lines in segment order. */
  datatype Labelled = Labelled(table: Table, dialogues: seq<Dialogue>)

  /** The segment carries an embedding. */
  predicate IsEmbedded(s: Segment) {
    s.embedding.Some?
  }

  /** The span and text of a dialogue line. */
  function DialogueSpan(d: Dialogue): MergedSegment {
    MergedSegment(d.startMs, d.endMs, d.text)
  }

  function DialogueSpans(ds: seq<Dialogue>): (r: seq<MergedSegment>)
    ensures |r| == |ds|
    ensures forall k :: 0 <= k < |ds| ==> r[k] == DialogueSpan(ds[k])
  {
    if ds == [] then [] else DialogueSpans(ds[..|ds| - 1]) + [DialogueSpan(ds[|ds| - 1])]
  }

  /** The labelling of `segments` starting from table `t`. */
  function LabelAll(sim: Similarity, t: Table, segments: seq<Segment>): Labelled {
    if segments == [] then Labelled(t, [])
    else
      var previous := LabelAll(sim, t, segments[..|segments| - 1]);
      var s := segments[|segments| - 1];
      match s.embedding
      case None => previous
      case Some(e) =>
        var a := Assign(sim, previous.table, e);
        Labelled(a.table, previous.dialogues + [Dialogue(a.id, s.text, s.startMs, s.endMs)])
  }

  /**
   * One dialogue line per embedded segment, in segment order and with the
   * segment's span and text: the segments without an embedding are exactly
   * the ones skipped.
   */
  lemma {:induction false} LabelAllSpans(sim: Similarity, t: Table, segments: seq<Segment>)
    ensures DialogueSpans(LabelAll(sim, t, segments).dialogues) == Spans(Filter(IsEmbedded, segments))
  {
    if segments != [] {
      var init, s := segments[..|segments| - 1], segments[|segments| - 1];
      LabelAllSpans(sim, t, init);
      var previous := LabelAll(sim, t, init);
      match s.embedding
      case None =>
      case Some(e) =>
        var a := Assign(sim, previous.table, e);
        var d := Dialogue(a.id, s.text, s.startMs, s.endMs);
        assert DialogueSpans(previous.dialogues + [d]) == DialogueSpans(previous.dialogues) + [Span(s)] by {
          assert (previous.dialogues + [d])[..|previous.dialogues|] == previous.dialogues;
        }
        assert Spans(Filter(IsEmbedded, init) + [s]) == Spans(Filter(IsEmbedded, init)) + [Span(s)] by {
          var kept := Filter(IsEmbedded, init);
          assert (kept + [s])[..|kept|] == kept;
        }
    }
  }

  /**
   * Labelling keeps the clusterer's invariant, only appends to the table, adds
   * at most one speaker per dialogue line, and labels every line with an id
   * the final table holds.
   */
  lemma {:induction false} LabelAllPreserves(sim: Similarity, t: Table, segments: seq<Segment>)
    requires WellFormed(t)
    ensures var l := LabelAll(sim, t, segments);
      && WellFormed(l.table)
      && |t.profiles| <= |l.table.profiles| <= |t.profiles| + |l.dialogues|
      && l.table.profiles[..|t.profiles|] == t.profiles
      && forall d <- l.dialogues :: d.speaker in Ids(l.table.profiles)
  {
    if segments != [] {
      var init, s := segments[..|segments| - 1], segments[|segments| - 1];
      LabelAllPreserves(sim, t, init);
      var previous := LabelAll(sim, t, init);
      match s.embedding
      case None =>
      case Some(e) =>
        AssignPreserves(sim, previous.table, e);
        var a := Assign(sim, previous.table, e);
        var before := previous.table.profiles;
        assert a.table.profiles[..|before|] == before;
        assert a.table.profiles[..|t.profiles|] == before[..|t.profiles|];
        forall d <- previous.dialogues
          ensures d.speaker in Ids(a.table.profiles)
        {
          var k :| 0 <= k < |before| && Ids(before)[k] == d.speaker;
          assert Ids(a.table.profiles)[k] == d.speaker;
        }
    }
  }

  /** Segments without an embedding are skipped: no line, and the table is left as it was. */
  lemma {:induction false} LabelAllSkips(sim: Similarity, t: Table, segments: seq<Segment>)
    requires forall s <- segments :: s.embedding.None?
    ensures LabelAll(sim, t, segments) == Labelled(t, [])
  {
    if segments != [] {
      var init := segments[..|segments| - 1];
      assert forall s <- init :: s in segments;
      LabelAllSkips(sim, t, init);
    }
  }

  /**
   * The system's state carries over: labelling `a + b` is labelling `a` and
   * then labelling `b` from the table `a` left behind.
   */
  lemma {:induction false} LabelAllAppend(sim: Similarity, t: Table, a: seq<Segment>, b: seq<Segment>)
    ensures var first := LabelAll(sim, t, a);
      var second := LabelAll(sim, first.table, b);
      LabelAll(sim, t, a + b) == Labelled(second.table, first.dialogues + second.dialogues)
    decreases |b|
  {
    if b == [] {
      assert a + b == a;
    } else {
      assert (a + b)[..|a + b| - 1] == a + b[..|b| - 1];
      LabelAllAppend(sim, t, a, b[..|b| - 1]);
    }
  }
}
