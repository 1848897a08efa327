/**
 * The online speaker clusterer of `_identify_speaker` and
 * `_create_new_speaker`, as functions on the clusterer's table: an
 * insertion-ordered list of (speaker id, first embedding) and the next id.
 * The similarity is a parameter standing for `_cosine_similarity`.
 */
module Speakers {
  import opened Wrappers
  import opened Cosine

  /** `sim(embedding, known_embedding)`, the similarity the clusterer compares. */
  type Similarity = (Embedding, Embedding) -> real

  /** A speaker and its representative embedding: the first one assigned to it. */
  datatype Profile = Profile(id: string, embedding: Embedding)

  /** The clusterer's state: `speaker_embeddings` in insertion order and `next_speaker_id`. */
  datatype Table = Table(profiles: seq<Profile>, nextId: nat)

  /** The table after one assignment, and the id it returned. */
  datatype Assignment = Assignment(table: Table, id: string)

  /** The outcome of the scan: the best profile's index (None while nothing beat -1) and its similarity. */
  datatype ScanResult = ScanResult(best: Option<nat>, maxSimilarity: real)

  /** The state of a fresh system: no speakers, next id 1. */
  const EmptyTable: Table := Table([], 1)

  /** The decimal digits of `n`, as Python's `str(n)` writes them. */
  function Decimal(n: nat): (s: string)
    ensures |s| >= 1
    ensures n >= 10 ==> |s| >= 2
  {
    if n < 10 then [('0' as int + n) as char]
    else Decimal(n / 10) + [('0' as int + n % 10) as char]
  }

  /** `f"Speaker_{n}"`. */
  function SpeakerLabel(n: nat): string {
    "Speaker_" + Decimal(n)
  }

  /** Different numbers have different decimal representations. */
  lemma {:induction false} DecimalInjective(a: nat, b: nat)
    requires Decimal(a) == Decimal(b)
    ensures a == b
  {
    var da, db := Decimal(a), Decimal(b);
    if a >= 10 && b >= 10 {
      assert da[|da| - 1] == db[|db| - 1];
      assert a % 10 == b % 10;
      assert da[..|da| - 1] == Decimal(a / 10);
      assert db[..|db| - 1] == Decimal(b / 10);
      DecimalInjective(a / 10, b / 10);
    } else if a < 10 && b < 10 {
      assert da[0] == db[0];
    }
  }

  /** Different counters give different speaker ids, so a new id never overwrites a dictionary entry. */
  lemma LabelInjective(a: nat, b: nat)
    requires SpeakerLabel(a) == SpeakerLabel(b)
    ensures a == b
  {
    var la, lb := SpeakerLabel(a), SpeakerLabel(b);
    assert la[8..] == Decimal(a) && lb[8..] == Decimal(b);
    DecimalInjective(a, b);
  }

  /** The ids of the profiles, in insertion order. */
  function Ids(profiles: seq<Profile>): (ids: seq<string>)
    ensures |ids| == |profiles|
    ensures forall k :: 0 <= k < |profiles| ==> ids[k] == profiles[k].id
  {
    if profiles == [] then [] else Ids(profiles[..|profiles| - 1]) + [profiles[|profiles| - 1].id]
  }

  /**
   * The clusterer's invariant: the k-th profile (from 0) is `Speaker_<k+1>`,
   * so the table holds `next_speaker_id - 1` speakers.
   */
  ghost predicate WellFormed(t: Table) {
    && t.nextId == |t.profiles| + 1
    && forall k :: 0 <= k < |t.profiles| ==> t.profiles[k].id == SpeakerLabel(k + 1)
  }

  /** In a well-formed table no two profiles share an id: the list is a faithful image of the dictionary. */
  lemma IdsDistinct(t: Table)
    requires WellFormed(t)
    ensures forall j, k :: 0 <= j < k < |t.profiles| ==> t.profiles[j].id != t.profiles[k].id
  {
    forall j, k | 0 <= j < k < |t.profiles|
      ensures t.profiles[j].id != t.profiles[k].id
    {
      if t.profiles[j].id == t.profiles[k].id {
        LabelInjective(j + 1, k + 1);
      }
    }
  }

  /** `_create_new_speaker`: store the embedding under `Speaker_<next>` and bump the counter. */
  function NewSpeaker(t: Table, e: Embedding): Assignment {
    var id := SpeakerLabel(t.nextId);
    Assignment(Table(t.profiles + [Profile(id, e)], t.nextId + 1), id)
  }

  /** The similarity of `e` to the `j`-th representative. */
  function SimTo(sim: Similarity, profiles: seq<Profile>, e: Embedding, j: nat): real
    requires j < |profiles|
  {
    sim(e, profiles[j].embedding)
  }

  /**
   * The scan of deal_voice.py:197-204 over the profiles in insertion order:
   * start at -1 with no match, take a profile only when it is strictly better.
   */
  function Scan(sim: Similarity, profiles: seq<Profile>, e: Embedding): (r: ScanResult)
    ensures r.best.Some? ==> r.best.value < |profiles|
  {
    if profiles == [] then ScanResult(None, -1.0)
    else
      var previous := Scan(sim, profiles[..|profiles| - 1], e);
      var s := sim(e, profiles[|profiles| - 1].embedding);
      if s > previous.maxSimilarity then ScanResult(Some(|profiles| - 1), s) else previous
  }

  /** Index `b` holds the first maximum of the similarities, and that maximum beats the initial -1. */
  ghost predicate IsFirstMaximum(sim: Similarity, profiles: seq<Profile>, e: Embedding, b: nat) {
    && b < |profiles|
    && SimTo(sim, profiles, e, b) > -1.0
    && (forall j :: 0 <= j < b ==> SimTo(sim, profiles, e, j) < SimTo(sim, profiles, e, b))
    && (forall j :: 0 <= j < |profiles| ==> SimTo(sim, profiles, e, j) <= SimTo(sim, profiles, e, b))
  }

  /**
   * The scan finds the earliest profile of maximal similarity, or nothing
   * when every similarity is at most -1 (then the maximum stays -1).
   */
  lemma {:induction false} ScanFindsFirstMaximum(sim: Similarity, profiles: seq<Profile>, e: Embedding)
    ensures var r := Scan(sim, profiles, e);
      && r.maxSimilarity >= -1.0
      && (r.best.None? <==> forall j :: 0 <= j < |profiles| ==> SimTo(sim, profiles, e, j) <= -1.0)
      && (r.best.None? ==> r.maxSimilarity == -1.0)
      && (r.best.Some? ==> IsFirstMaximum(sim, profiles, e, r.best.value)
                           && r.maxSimilarity == SimTo(sim, profiles, e, r.best.value))
  {
    if profiles != [] {
      var init := profiles[..|profiles| - 1];
      var last := |profiles| - 1;
      ScanFindsFirstMaximum(sim, init, e);
      assert forall j :: 0 <= j < |init| ==> SimTo(sim, init, e, j) == SimTo(sim, profiles, e, j);
      assert SimTo(sim, profiles, e, last) == sim(e, profiles[last].embedding);
    }
  }

  /** The first maximum is unique, so the scan's answer is determined by it (ties go to the earliest profile). */
  lemma ScanIsFirstMaximum(sim: Similarity, profiles: seq<Profile>, e: Embedding, b: nat)
    requires IsFirstMaximum(sim, profiles, e, b)
    ensures Scan(sim, profiles, e) == ScanResult(Some(b), SimTo(sim, profiles, e, b))
  {
    ScanFindsFirstMaximum(sim, profiles, e);
    var r := Scan(sim, profiles, e);
    assert r.best.Some?;
    var b' := r.best.value;
    assert SimTo(sim, profiles, e, b') <= SimTo(sim, profiles, e, b);
    assert SimTo(sim, profiles, e, b) <= SimTo(sim, profiles, e, b');
  }

  /** `_identify_speaker`: return the best match if its similarity is above 0.7, else create a new speaker. */
  function Assign(sim: Similarity, t: Table, e: Embedding): Assignment {
    if t.profiles == [] then NewSpeaker(t, e)
    else
      var r := Scan(sim, t.profiles, e);
      match r.best
      case Some(b) => if r.maxSimilarity > MatchThreshold then Assignment(t, t.profiles[b].id) else NewSpeaker(t, e)
      case None => NewSpeaker(t, e)
  }

  /**
   * With the exact cosine as the similarity at the first maximum `b`, the
   * clusterer reuses `b`'s speaker exactly when the square-root-free test
   * `AboveThreshold` holds, and otherwise creates a new speaker.
   */
  lemma AssignByCosine(sim: Similarity, t: Table, e: Embedding, b: nat)
    requires IsFirstMaximum(sim, t.profiles, e, b)
    requires |e| == |t.profiles[b].embedding|
    requires IsCosine(e, t.profiles[b].embedding, SimTo(sim, t.profiles, e, b))
    ensures Assign(sim, t, e) ==
      if AboveThreshold(e, t.profiles[b].embedding) then Assignment(t, t.profiles[b].id) else NewSpeaker(t, e)
  {
    ThresholdBySquares(e, t.profiles[b].embedding, SimTo(sim, t.profiles, e, b));
    ScanIsFirstMaximum(sim, t.profiles, e, b);
  }

  /** The first embedding on an empty table becomes `Speaker_1`, whatever it is. */
  lemma AssignFirst(sim: Similarity, e: Embedding)
    ensures Assign(sim, EmptyTable, e) == Assignment(Table([Profile("Speaker_1", e)], 2), "Speaker_1")
  {
    assert Decimal(1) == "1";
    assert SpeakerLabel(1) == "Speaker_1";
  }

  /**
   * Match rule: when the first maximum `b` is strictly above 0.7, the
   * assignment returns `b`'s id and leaves the table as it was.
   */
  lemma AssignMatches(sim: Similarity, t: Table, e: Embedding, b: nat)
    requires IsFirstMaximum(sim, t.profiles, e, b) && SimTo(sim, t.profiles, e, b) > MatchThreshold
    ensures Assign(sim, t, e) == Assignment(t, t.profiles[b].id)
  {
    ScanIsFirstMaximum(sim, t.profiles, e, b);
  }

  /** Creation rule: when no similarity is strictly above 0.7 (exactly 0.7 included) a new speaker is created. */
  lemma AssignCreates(sim: Similarity, t: Table, e: Embedding)
    requires forall j :: 0 <= j < |t.profiles| ==> SimTo(sim, t.profiles, e, j) <= MatchThreshold
    ensures Assign(sim, t, e) == NewSpeaker(t, e)
  {
    ScanFindsFirstMaximum(sim, t.profiles, e);
  }

  /**
   * The table is left unchanged exactly when some representative is more
   * than 0.7 similar; otherwise exactly one profile is appended.
   */
  lemma AssignMatchIff(sim: Similarity, t: Table, e: Embedding)
    ensures var a := Assign(sim, t, e);
      && (a.table == t <==> exists j :: 0 <= j < |t.profiles| && SimTo(sim, t.profiles, e, j) > MatchThreshold)
      && (a.table != t ==> a == NewSpeaker(t, e))
  {
    ScanFindsFirstMaximum(sim, t.profiles, e);
    var r := Scan(sim, t.profiles, e);
    if r.best.Some? && r.maxSimilarity > MatchThreshold {
      var b := r.best.value;
      assert SimTo(sim, t.profiles, e, b) > MatchThreshold;
    } else {
      assert |NewSpeaker(t, e).table.profiles| != |t.profiles|;
    }
  }

  /** Creating a speaker keeps the invariant and appends exactly the new profile. */
  lemma NewSpeakerPreserves(t: Table, e: Embedding)
    requires WellFormed(t)
    ensures var a := NewSpeaker(t, e);
      && WellFormed(a.table)
      && |a.table.profiles| == |t.profiles| + 1
      && a.table.profiles[..|t.profiles|] == t.profiles
      && a.table.profiles[|t.profiles|] == Profile(a.id, e)
      && a.id in Ids(a.table.profiles)
  {
    var a := NewSpeaker(t, e);
    assert a.table.profiles[..|t.profiles|] == t.profiles;
    assert Ids(a.table.profiles)[|t.profiles|] == a.id;
  }

  /**
   * An assignment keeps the invariant, only ever appends (existing
   * representatives are never modified), grows the table by at most one,
   * and returns an id the new table holds.
   */
  lemma AssignPreserves(sim: Similarity, t: Table, e: Embedding)
    requires WellFormed(t)
    ensures var a := Assign(sim, t, e);
      && WellFormed(a.table)
      && |t.profiles| <= |a.table.profiles| <= |t.profiles| + 1
      && a.table.profiles[..|t.profiles|] == t.profiles
      && a.id in Ids(a.table.profiles)
  {
    var a := Assign(sim, t, e);
    var r := Scan(sim, t.profiles, e);
    if t.profiles != [] && r.best.Some? && r.maxSimilarity > MatchThreshold {
      var b := r.best.value;
      assert a == Assignment(t, t.profiles[b].id);
      assert Ids(t.profiles)[b] == a.id;
      assert t.profiles[..|t.profiles|] == t.profiles;
    } else {
      assert a == NewSpeaker(t, e);
      NewSpeakerPreserves(t, e);
    }
  }
}
