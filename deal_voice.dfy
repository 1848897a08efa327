/**
 * `DialogueRecognitionSystem`: the object that keeps the speakers it has seen
 * (`speaker_embeddings`, in insertion order, and `next_speaker_id`) across
 * calls, and `process_audio_file`, which runs the whole pipeline on one
 * recogniser result.
 */
module DealVoice {
  import opened Wrappers
  import opened Seqs
  import opened Cosine
  import opened Speakers
  import opened Segments
  import opened Labelling
  import opened Assembly

  class DialogueRecognitionSystem {
    /** The similarity `_cosine_similarity` computes. */
    const sim: Similarity
    /** `speaker_embeddings`: speaker id and representative, in insertion order. */
    var speakers: seq<Profile>
    /** `next_speaker_id`. */
    var nextSpeakerId: nat

    /** The clusterer's table the fields hold. */
    function Current(): Table
      reads this
    {
      Table(speakers, nextSpeakerId)
    }

    /** The fields form a well-formed table. */
    ghost predicate Valid()
      reads this
    {
      WellFormed(Current())
    }

    /** A fresh system knows no speaker and will call the first one `Speaker_1`. */
    constructor(sim: Similarity)
      ensures this.sim == sim
      ensures Current() == EmptyTable
      ensures Valid()
    {
      this.sim := sim;
      speakers := [];
      nextSpeakerId := 1;
    }

    /** `_create_new_speaker`: store the embedding under the next id and bump the counter. */
    method CreateNewSpeaker(embedding: Embedding) returns (id: string)
      requires Valid()
      modifies this
      ensures Valid()
      ensures Assignment(Current(), id) == NewSpeaker(old(Current()), embedding)
    {
      NewSpeakerPreserves(Current(), embedding);
      id := SpeakerLabel(nextSpeakerId);
      speakers := speakers + [Profile(id, embedding)];
      nextSpeakerId := nextSpeakerId + 1;
    }

    /**
     * `_identify_speaker`: with no speaker yet, create one; otherwise scan the
     * speakers in insertion order for the first most similar one, and return
     * it when its similarity is above 0.7, or create a new speaker.
     */
    method IdentifySpeaker(embedding: Embedding) returns (id: string)
      requires Valid()
      modifies this
      ensures Valid()
      ensures Assignment(Current(), id) == Assign(sim, old(Current()), embedding)
    {
      if speakers == [] {
        id := CreateNewSpeaker(embedding);
        return;
      }
      var maxSimilarity := -1.0;
      var bestMatch: Option<string> := None;
      for i := 0 to |speakers|
        invariant maxSimilarity == Scan(sim, speakers[..i], embedding).maxSimilarity
        invariant bestMatch == BestId(speakers, Scan(sim, speakers[..i], embedding).best)
      {
        assert speakers[..i + 1][..i] == speakers[..i];
        var known := speakers[i];
        var similarity := sim(embedding, known.embedding);
        if similarity > maxSimilarity {
          maxSimilarity := similarity;
          bestMatch := Some(known.id);
        }
      }
      assert speakers[..|speakers|] == speakers;
      ScanFindsFirstMaximum(sim, speakers, embedding);
      if maxSimilarity > MatchThreshold {
        id := bestMatch.value;
      } else {
        id := CreateNewSpeaker(embedding);
      }
    }

    /**
     * `_assign_speaker_ids`: label each segment that has an embedding with
     * the speaker the clusterer identifies, in segment order.
     */
    method AssignSpeakerIds(segments: seq<Segment>) returns (dialogues: seq<Dialogue>)
      requires Valid()
      modifies this
      ensures Valid()
      ensures Labelled(Current(), dialogues) == LabelAll(sim, old(Current()), segments)
    {
      dialogues := [];
      for i := 0 to |segments|
        invariant Valid()
        invariant Labelled(Current(), dialogues) == LabelAll(sim, old(Current()), segments[..i])
      {
        assert segments[..i + 1][..i] == segments[..i];
        var segment := segments[i];
        if segment.embedding.Some? {
          var speakerId := IdentifySpeaker(segment.embedding.value);
          dialogues := dialogues + [Dialogue(speakerId, segment.text, segment.startMs, segment.endMs)];
        }
      }
      assert segments[..|segments|] == segments;
    }

    /**
     * `process_audio_file` on the recogniser's result: segment, label,
     * punctuate, and sort by start time. The speakers found stay in the
     * system for the next call.
     */
    method ProcessAudioFile(asr: AsrResult, extract: Extractor, punctuate: Punctuator) returns (result: seq<Dialogue>)
      requires Valid()
      modifies this
      ensures Valid()
      ensures var l := LabelAll(sim, old(Current()), SegmentsOf(asr, extract));
        && Current() == l.table
        && result == SortByStart(PunctuateAll(l.dialogues, punctuate))
    {
      var segments := ProcessAsrResult(asr, extract);
      var dialogues := AssignSpeakerIds(segments);
      var punctuated := PunctuateDialogues(dialogues, punctuate);
      var lines := new Dialogue[|punctuated|](k requires 0 <= k < |punctuated| => punctuated[k]);
      assert lines[..] == punctuated;
      SortInPlace(lines);
      result := lines[..];
    }
  }

  /** The id of the profile the scan picked, as `best_match` holds it. */
  function BestId(profiles: seq<Profile>, best: Option<nat>): Option<string> {
    match best
    case Some(b) => if b < |profiles| then Some(profiles[b].id) else None
    case None => None
  }

  /** The lines the punctuation stage outputs come from its input lines' speakers and spans. */
  lemma PunctuatedFrom(ds: seq<Dialogue>, punctuate: Punctuator)
    ensures forall d <- PunctuateAll(ds, punctuate) ::
      exists o <- ds :: o.speaker == d.speaker && o.startMs == d.startMs && o.endMs == d.endMs
  {
    PunctuateAllKeeps(ds, punctuate);
    FilterSound(Punctuates(punctuate), ds);
    var r, kept := PunctuateAll(ds, punctuate), Filter(Punctuates(punctuate), ds);
    forall d <- r
      ensures exists o <- ds :: o.speaker == d.speaker && o.startMs == d.startMs && o.endMs == d.endMs
    {
      var k :| 0 <= k < |r| && r[k] == d;
      assert kept[k] in ds;
    }
  }

  /**
   * What one call of `process_audio_file` guarantees, from a well-formed
   * table: every segment becomes a dialogue line before punctuation; the
   * output is ordered by start time, is a permutation of the punctuated lines,
   * and names only speakers the system now knows; the known speakers are kept
   * and only ever extended; and a result that is not a non-empty list leaves
   * the system unchanged and yields nothing.
   */
  lemma ProcessAudioFileProperties(sim: Similarity, t: Table, asr: AsrResult, extract: Extractor, punctuate: Punctuator)
    requires WellFormed(t)
    ensures var segments := SegmentsOf(asr, extract);
      var l := LabelAll(sim, t, segments);
      var out := SortByStart(PunctuateAll(l.dialogues, punctuate));
      && DialogueSpans(l.dialogues) == Spans(segments)
      && SortedByStart(out)
      && multiset(out) == multiset(PunctuateAll(l.dialogues, punctuate))
      && |out| <= |segments|
      && WellFormed(l.table)
      && |t.profiles| <= |l.table.profiles|
      && l.table.profiles[..|t.profiles|] == t.profiles
      && (forall d <- out :: d.speaker in Ids(l.table.profiles))
      && (asr.NotAList? || asr.items == [] ==> out == [] && l.table == t)
  {
    var segments := SegmentsOf(asr, extract);
    var l := LabelAll(sim, t, segments);
    var punctuated := PunctuateAll(l.dialogues, punctuate);
    var out := SortByStart(punctuated);
    SegmentsOfShape(asr, extract);
    FilterKeepsAll(IsEmbedded, segments);
    LabelAllSpans(sim, t, segments);
    LabelAllPreserves(sim, t, segments);
    SortByStartSorts(punctuated);
    PunctuateAllKeeps(l.dialogues, punctuate);
    PunctuatedFrom(l.dialogues, punctuate);
    forall d <- out
      ensures d.speaker in Ids(l.table.profiles)
    {
      assert d in multiset(out);
      assert d in punctuated;
    }
  }

  /** A fresh system labels a lone embedded segment `Speaker_1` and then holds exactly that profile. */
  lemma LoneSpeaker(sim: Similarity, s: Segment)
    requires s.embedding.Some?
    ensures LabelAll(sim, EmptyTable, [s]) ==
            Labelled(Table([Profile("Speaker_1", s.embedding.value)], 2),
                     [Dialogue("Speaker_1", s.text, s.startMs, s.endMs)])
  {
    assert [s][..0] == [];
    AssignFirst(sim, s.embedding.value);
  }

  /**
   * A fresh system labels its first embedded segment `Speaker_1`, whatever
   * unembedded segments come before it and whatever segments follow, and
   * after that segment it knows exactly that speaker.
   */
  lemma FirstSpeaker(sim: Similarity, skipped: seq<Segment>, s: Segment, rest: seq<Segment>)
    requires forall p <- skipped :: p.embedding.None?
    requires s.embedding.Some?
    ensures LabelAll(sim, EmptyTable, skipped + [s]) ==
            Labelled(Table([Profile("Speaker_1", s.embedding.value)], 2),
                     [Dialogue("Speaker_1", s.text, s.startMs, s.endMs)])
    ensures var l := LabelAll(sim, EmptyTable, skipped + [s] + rest);
      l.dialogues != [] && l.dialogues[0] == Dialogue("Speaker_1", s.text, s.startMs, s.endMs)
  {
    LabelAllSkips(sim, EmptyTable, skipped);
    LoneSpeaker(sim, s);
    LabelAllAppend(sim, EmptyTable, skipped, [s]);
    LabelAllAppend(sim, EmptyTable, skipped + [s], rest);
  }

  /**
   * A worked example: a second segment more than 0.7 similar to the first
   * joins `Speaker_1`; a third at most 0.7 similar to it becomes `Speaker_2`.
   */
  lemma ClusteringExample(sim: Similarity, s1: Segment, s2: Segment, s3: Segment)
    requires s1.embedding.Some? && s2.embedding.Some? && s3.embedding.Some?
    requires sim(s2.embedding.value, s1.embedding.value) > MatchThreshold
    requires sim(s3.embedding.value, s1.embedding.value) <= MatchThreshold
    ensures var l := LabelAll(sim, EmptyTable, [s1, s2, s3]);
      && |l.dialogues| == 3
      && l.dialogues[0].speaker == "Speaker_1"
      && l.dialogues[1].speaker == "Speaker_1"
      && l.dialogues[2].speaker == "Speaker_2"
      && |l.table.profiles| == 2
  {
    var e1, e2, e3 := s1.embedding.value, s2.embedding.value, s3.embedding.value;
    var one := Table([Profile("Speaker_1", e1)], 2);
    LoneSpeaker(sim, s1);
    assert [s1, s2][..1] == [s1];
    assert [s1, s2, s3][..2] == [s1, s2];
    assert IsFirstMaximum(sim, one.profiles, e2, 0);
    AssignMatches(sim, one, e2, 0);
    AssignCreates(sim, one, e3);
    assert Decimal(2) == "2";
  }
}
