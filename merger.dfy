/**
 * The token-to-segment merger (`_merge_continuous_segments`): one forward
 * pass that glues a recognised word onto the running segment when the pause
 * before it is at most 300 ms, and otherwise closes the segment and opens a
 * new one. Times are integer milliseconds.
 */
module Merger {
  import opened Words

  /** The merge threshold: a gap of at most this many milliseconds keeps a token in the running segment. */
  const MergeGapMs: int := 300

  /** One `[start_ms, end_ms]` timestamp pair of the recogniser. */
  datatype Stamp = Stamp(startMs: int, endMs: int)

  /** A merged segment: its first token's start, its last token's end, and its words joined by spaces. */
  datatype MergedSegment = MergedSegment(startMs: int, endMs: int, text: string)

  /** The segment opened by a single token. */
  function Opening(t: Stamp, w: string): MergedSegment {
    MergedSegment(t.startMs, t.endMs, w)
  }

  /** One iteration of the merge loop: glue token `t` onto the running (last) segment, or open a new one. */
  function Step(segments: seq<MergedSegment>, t: Stamp, w: string): seq<MergedSegment>
    requires segments != []
  {
    var current := segments[|segments| - 1];
    if t.startMs - current.endMs <= MergeGapMs then
      segments[..|segments| - 1] + [MergedSegment(current.startMs, t.endMs, current.text + " " + w)]
    else
      segments + [Opening(t, w)]
  }

  /** The segments after the loop has consumed tokens `0 .. n-1`, the last one still open. */
  function MergeUpTo(ts: seq<Stamp>, ws: seq<string>, n: nat): (r: seq<MergedSegment>)
    requires |ts| == |ws| && 1 <= n <= |ts|
    ensures r != []
  {
    if n == 1 then [Opening(ts[0], ws[0])]
    else Step(MergeUpTo(ts, ws, n - 1), ts[n - 1], ws[n - 1])
  }

  /** What `_merge_continuous_segments(timestamps, text)` returns. */
  function Merge(ts: seq<Stamp>, text: string): seq<MergedSegment> {
    if ts == [] || text == [] then []
    else
      var ws := Split(text);
      if |ws| != |ts| then [] else MergeUpTo(ts, ws, |ts|)
  }

  /** Checks the input shape, then folds the tokens left to right into segments. */
  method MergeContinuousSegments(timestamps: seq<Stamp>, text: string) returns (merged: seq<MergedSegment>)
    ensures merged == Merge(timestamps, text)
    ensures merged == [] <==> timestamps == [] || text == [] || |Split(text)| != |timestamps|
  {
    if timestamps == [] || text == [] {
      return [];
    }
    var words := Split(text);
    if |words| != |timestamps| {
      return [];
    }
    merged := [];
    var current := Opening(timestamps[0], words[0]);
    for i := 1 to |timestamps|
      invariant merged + [current] == MergeUpTo(timestamps, words, i)
    {
      var currentEnd := current.endMs;
      var nextStart := timestamps[i].startMs;
      assert (merged + [current])[..|merged|] == merged;
      if nextStart - currentEnd <= MergeGapMs {
        current := MergedSegment(current.startMs, timestamps[i].endMs, current.text + " " + words[i]);
      } else {
        merged := merged + [current];
        current := Opening(timestamps[i], words[i]);
      }
    }
    merged := merged + [current];
  }

  // ---------------------------------------------------------------------------
  // An independent description of the result, by token indices.

  /** Token `i` opens a new segment: the pause after the previous token exceeds the threshold. */
  predicate Breaks(ts: seq<Stamp>, i: nat)
    requires 0 < i < |ts|
  {
    ts[i].startMs - ts[i - 1].endMs > MergeGapMs
  }

  /** The indices of the tokens among `0 .. n-1` that open a segment, ascending. */
  function Openers(ts: seq<Stamp>, n: nat): seq<nat>
    requires 1 <= n <= |ts|
  {
    if n == 1 then [0]
    else Openers(ts, n - 1) + (if Breaks(ts, n - 1) then [n - 1] else [])
  }

  /** Where the run of segment `k` ends (exclusive): the next opener, or `n` for the last. */
  function RunEnd(openers: seq<nat>, k: nat, n: nat): nat
    requires k < |openers|
  {
    if k + 1 < |openers| then openers[k + 1] else n
  }

  /** The segment made of tokens `i .. e-1`. */
  function Covering(ts: seq<Stamp>, ws: seq<string>, i: nat, e: nat): MergedSegment
    requires |ts| == |ws| && i < e <= |ts|
  {
    MergedSegment(ts[i].startMs, ts[e - 1].endMs, Join(ws[i..e]))
  }

  /**
   * The openers start at token 0, ascend strictly, stay below `n`, and are
   * exactly token 0 and the tokens whose preceding gap exceeds 300 ms.
   */
  lemma {:induction false} OpenersShape(ts: seq<Stamp>, n: nat)
    requires 1 <= n <= |ts|
    ensures var s := Openers(ts, n);
      && |s| >= 1 && s[0] == 0
      && (forall a, b :: 0 <= a < b < |s| ==> s[a] < s[b])
      && (forall a :: 0 <= a < |s| ==> s[a] < n)
      && (forall i :: 0 <= i < n ==> (i in s <==> i == 0 || Breaks(ts, i)))
  {
    if n > 1 {
      OpenersShape(ts, n - 1);
    }
  }

  /** `r` is the segmentation of tokens `0 .. n-1` into the runs that start at the openers `s`. */
  ghost predicate Describes(ts: seq<Stamp>, ws: seq<string>, n: nat, r: seq<MergedSegment>, s: seq<nat>)
    requires |ts| == |ws| && n <= |ts|
  {
    && |r| == |s|
    && forall k :: 0 <= k < |r| ==> s[k] < RunEnd(s, k, n) <= n && r[k] == Covering(ts, ws, s[k], RunEnd(s, k, n))
  }

  /** Opening a segment at token `n-1` adds the one-token run that starts there. */
  lemma DescribesAfterBreak(ts: seq<Stamp>, ws: seq<string>, n: nat, r: seq<MergedSegment>, s: seq<nat>)
    requires |ts| == |ws| && 2 <= n <= |ts|
    requires Describes(ts, ws, n - 1, r, s)
    ensures Describes(ts, ws, n, r + [Opening(ts[n - 1], ws[n - 1])], s + [n - 1])
  {
    var r1, s1 := r + [Opening(ts[n - 1], ws[n - 1])], s + [n - 1];
    assert ws[n - 1..n] == [ws[n - 1]];
    forall k | 0 <= k < |r1|
      ensures s1[k] < RunEnd(s1, k, n) <= n && r1[k] == Covering(ts, ws, s1[k], RunEnd(s1, k, n))
    {
      if k < |r| {
        assert RunEnd(s1, k, n) == RunEnd(s, k, n - 1);
      }
    }
  }

  /** Gluing token `n-1` onto the last segment extends the last run by that token. */
  lemma DescribesAfterGlue(ts: seq<Stamp>, ws: seq<string>, n: nat, r: seq<MergedSegment>, s: seq<nat>)
    requires |ts| == |ws| && 2 <= n <= |ts|
    requires Describes(ts, ws, n - 1, r, s) && r != []
    ensures var last := r[|r| - 1];
      Describes(ts, ws, n, r[..|r| - 1] + [MergedSegment(last.startMs, ts[n - 1].endMs, last.text + " " + ws[n - 1])], s)
  {
    var m := |r|;
    var last := r[m - 1];
    var r1 := r[..m - 1] + [MergedSegment(last.startMs, ts[n - 1].endMs, last.text + " " + ws[n - 1])];
    var i := s[m - 1];
    assert RunEnd(s, m - 1, n - 1) == n - 1;
    assert ws[i..n] == ws[i..n - 1] + [ws[n - 1]];
    JoinSnoc(ws[i..n - 1], ws[n - 1]);
    forall k | 0 <= k < |r1|
      ensures s[k] < RunEnd(s, k, n) <= n && r1[k] == Covering(ts, ws, s[k], RunEnd(s, k, n))
    {
      if k < m - 1 {
        assert RunEnd(s, k, n) == RunEnd(s, k, n - 1);
      }
    }
  }

  /**
   * The running end of the open segment is always the end of the last token
   * consumed, so the loop's test against it is the gap between consecutive
   * tokens; segment `k` is exactly the run of tokens from opener `k` to just
   * before opener `k+1`.
   */
  lemma {:induction false} MergeRuns(ts: seq<Stamp>, ws: seq<string>, n: nat)
    requires |ts| == |ws| && 1 <= n <= |ts|
    ensures Describes(ts, ws, n, MergeUpTo(ts, ws, n), Openers(ts, n))
  {
    if n == 1 {
      assert ws[0..1] == [ws[0]];
    } else {
      MergeRuns(ts, ws, n - 1);
      var r, s := MergeUpTo(ts, ws, n - 1), Openers(ts, n - 1);
      var last := r[|r| - 1];
      assert RunEnd(s, |r| - 1, n - 1) == n - 1;
      assert last.endMs == ts[n - 2].endMs;
      assert MergeUpTo(ts, ws, n) == Step(r, ts[n - 1], ws[n - 1]);
      if Breaks(ts, n - 1) {
        assert Openers(ts, n) == s + [n - 1];
        assert Step(r, ts[n - 1], ws[n - 1]) == r + [Opening(ts[n - 1], ws[n - 1])];
        DescribesAfterBreak(ts, ws, n, r, s);
      } else {
        assert Openers(ts, n) == s;
        DescribesAfterGlue(ts, ws, n, r, s);
      }
    }
  }

  /** The number of segments is between 1 and the number of tokens, and they span the first start to the last end. */
  lemma MergeSpan(ts: seq<Stamp>, ws: seq<string>, n: nat)
    requires |ts| == |ws| && 1 <= n <= |ts|
    ensures var r := MergeUpTo(ts, ws, n);
      && 1 <= |r| <= n
      && r[0].startMs == ts[0].startMs
      && r[|r| - 1].endMs == ts[n - 1].endMs
  {
    MergeRuns(ts, ws, n);
    OpenersShape(ts, n);
    var s := Openers(ts, n);
    StrictlyAscendingBelow(s, n);
  }

  /** A strictly ascending sequence of naturals below `n` has at most `n` elements. */
  lemma {:induction false} StrictlyAscendingBelow(s: seq<nat>, n: nat)
    requires forall a, b :: 0 <= a < b < |s| ==> s[a] < s[b]
    requires forall a :: 0 <= a < |s| ==> s[a] < n
    ensures |s| <= n
    decreases n
  {
    if s != [] {
      var init := s[..|s| - 1];
      assert forall a :: 0 <= a < |init| ==> init[a] < s[|s| - 1] <= n - 1;
      StrictlyAscendingBelow(init, n - 1);
    }
  }

  /** Consecutive segments are separated by a pause of more than 300 ms. */
  lemma MergeGaps(ts: seq<Stamp>, ws: seq<string>, n: nat)
    requires |ts| == |ws| && 1 <= n <= |ts|
    ensures var r := MergeUpTo(ts, ws, n);
      forall k :: 0 <= k < |r| - 1 ==> r[k + 1].startMs - r[k].endMs > MergeGapMs
  {
    MergeRuns(ts, ws, n);
    OpenersShape(ts, n);
    var r, s := MergeUpTo(ts, ws, n), Openers(ts, n);
    forall k | 0 <= k < |r| - 1
      ensures r[k + 1].startMs - r[k].endMs > MergeGapMs
    {
      assert s[k + 1] in s;
    }
  }

  /** The texts of the segments, in order. */
  function Texts(segments: seq<MergedSegment>): (texts: seq<string>)
    ensures |texts| == |segments|
    ensures forall k :: 0 <= k < |segments| ==> texts[k] == segments[k].text
  {
    if segments == [] then [] else Texts(segments[..|segments| - 1]) + [segments[|segments| - 1].text]
  }

  /** Extending the last text `t` by a space and `w` appends a space and `w` to the joined texts. */
  lemma JoinExtendLast(init: seq<string>, t: string, w: string)
    ensures Join(init + [t + " " + w]) == Join(init + [t]) + " " + w
  {
    if init == [] {
      assert init + [t + " " + w] == [t + " " + w] && init + [t] == [t];
    } else {
      JoinSnoc(init, t);
      JoinSnoc(init, t + " " + w);
    }
  }

  /** Each loop step appends a space and the consumed word to the joined texts. */
  lemma JoinTextsStep(r: seq<MergedSegment>, t: Stamp, w: string)
    requires r != []
    ensures Join(Texts(Step(r, t, w))) == Join(Texts(r)) + " " + w
  {
    var m := |r|;
    var last := r[m - 1];
    var texts := Texts(r);
    if t.startMs - last.endMs <= MergeGapMs {
      var glued := MergedSegment(last.startMs, t.endMs, last.text + " " + w);
      assert Texts(r[..m - 1] + [glued]) == texts[..m - 1] + [last.text + " " + w];
      assert texts == texts[..m - 1] + [last.text];
      JoinExtendLast(texts[..m - 1], last.text, w);
    } else {
      assert Texts(r + [Opening(t, w)]) == texts + [w];
      JoinSnoc(texts, w);
    }
  }

  /** Joining the segment texts with spaces gives back the consumed words joined with spaces. */
  lemma {:induction false} MergeText(ts: seq<Stamp>, ws: seq<string>, n: nat)
    requires |ts| == |ws| && 1 <= n <= |ts|
    ensures Join(Texts(MergeUpTo(ts, ws, n))) == Join(ws[..n])
  {
    if n == 1 {
      MergeTextBase(ts, ws);
    } else {
      MergeText(ts, ws, n - 1);
      MergeTextStep(ts, ws, n);
    }
  }

  /** The base case of `MergeText`: the first token alone. */
  lemma MergeTextBase(ts: seq<Stamp>, ws: seq<string>)
    requires |ts| == |ws| && 1 <= |ts|
    ensures Join(Texts(MergeUpTo(ts, ws, 1))) == Join(ws[..1])
  {
    assert ws[..1] == [ws[0]];
  }

  /** The inductive step of `MergeText`. */
  lemma MergeTextStep(ts: seq<Stamp>, ws: seq<string>, n: nat)
    requires |ts| == |ws| && 2 <= n <= |ts|
    requires Join(Texts(MergeUpTo(ts, ws, n - 1))) == Join(ws[..n - 1])
    ensures Join(Texts(MergeUpTo(ts, ws, n))) == Join(ws[..n])
  {
    var r := MergeUpTo(ts, ws, n - 1);
    assert MergeUpTo(ts, ws, n) == Step(r, ts[n - 1], ws[n - 1]);
    JoinTextsStep(r, ts[n - 1], ws[n - 1]);
    JoinPrefix(ws, n);
  }

  /**
   * For a well-formed input (as many words as timestamps, both non-empty) the
   * merged segments span the input, are separated by pauses over 300 ms, and
   * their texts, joined and re-split, give back exactly the input's words.
   */
  lemma MergeWellFormed(ts: seq<Stamp>, text: string)
    requires ts != [] && text != [] && |Split(text)| == |ts|
    ensures var r := Merge(ts, text);
      && 1 <= |r| <= |ts|
      && r[0].startMs == ts[0].startMs
      && r[|r| - 1].endMs == ts[|ts| - 1].endMs
      && (forall k :: 0 <= k < |r| - 1 ==> r[k + 1].startMs - r[k].endMs > MergeGapMs)
      && Split(Join(Texts(r))) == Split(text)
  {
    var ws := Split(text);
    var r := MergeUpTo(ts, ws, |ts|);
    assert Merge(ts, text) == r;
    MergeSpan(ts, ws, |ts|);
    MergeGaps(ts, ws, |ts|);
    MergeText(ts, ws, |ts|);
    assert ws[..|ts|] == ws;
    SplitJoin(ws);
    assert Split(Join(Texts(r))) == ws;
  }

  /** The three words of the worked example. */
  lemma SplitExample()
    ensures Split("a b c") == ["a", "b", "c"]
  {
    var bc := "b" + [' '] + "c";
    assert Split(bc) == ["b", "c"] by {
      SplitAtSpace("b", ' ', "c");
      SplitWord("b");
      SplitWord("c");
    }
    assert Split("a" + [' '] + bc) == ["a", "b", "c"] by {
      SplitAtSpace("a", ' ', bc);
      SplitWord("a");
    }
    assert "a" + [' '] + bc == "a b c";
  }

  /**
   * A worked example: the pause of 50 ms after the first word is glued over,
   * the pause of 400 ms before the third opens a new segment.
   */
  lemma MergeExample()
    ensures Merge([Stamp(0, 200), Stamp(250, 400), Stamp(800, 950)], "a b c")
         == [MergedSegment(0, 400, "a b"), MergedSegment(800, 950, "c")]
  {
    SplitExample();
    var ts := [Stamp(0, 200), Stamp(250, 400), Stamp(800, 950)];
    var ws := ["a", "b", "c"];
    assert MergeUpTo(ts, ws, 1) == [MergedSegment(0, 200, "a")];
    assert "a" + " " + "b" == "a b";
    assert MergeUpTo(ts, ws, 2) == [MergedSegment(0, 400, "a b")];
    assert MergeUpTo(ts, ws, 3) == [MergedSegment(0, 400, "a b"), MergedSegment(800, 950, "c")];
  }
}
