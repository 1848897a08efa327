/**
 * The last stage of `process_audio_file`: punctuate each dialogue line,
 * dropping the lines the punctuation model fails on, then sort the lines by
 * start time with a stable sort, as Python's `list.sort` is.
 */
module Assembly {
  import opened Wrappers
  import opened Seqs
  import opened Labelling

  /**
   * The punctuation model on one text: the text of its first result, or None
   * when the call raises or returns an empty result.
   */
  type Punctuator = string -> Option<string>

  /** The punctuation model accepts this line. */
  function Punctuates(punctuate: Punctuator): Dialogue -> bool {
    (d: Dialogue) => punctuate(d.text).Some?
  }

  /** The accepted lines, in order, with their text replaced by the punctuated one. */
  function PunctuateAll(ds: seq<Dialogue>, punctuate: Punctuator): seq<Dialogue> {
    if ds == [] then []
    else
      var previous := PunctuateAll(ds[..|ds| - 1], punctuate);
      var d := ds[|ds| - 1];
      match punctuate(d.text)
      case None => previous
      case Some(p) => previous + [Dialogue(d.speaker, p, d.startMs, d.endMs)]
  }

  /**
   * The k-th output line is the k-th accepted input line with its speaker and
   * span kept and its text punctuated.
   */
  lemma {:induction false} PunctuateAllKeeps(ds: seq<Dialogue>, punctuate: Punctuator)
    ensures var r, kept := PunctuateAll(ds, punctuate), Filter(Punctuates(punctuate), ds);
      && |r| == |kept|
      && forall k :: 0 <= k < |r| ==>
           && punctuate(kept[k].text) == Some(r[k].text)
           && r[k] == Dialogue(kept[k].speaker, r[k].text, kept[k].startMs, kept[k].endMs)
  {
    if ds != [] {
      PunctuateAllKeeps(ds[..|ds| - 1], punctuate);
    }
  }

  /** Punctuate line by line, skipping the lines the model fails on. */
  method PunctuateDialogues(ds: seq<Dialogue>, punctuate: Punctuator) returns (out: seq<Dialogue>)
    ensures out == PunctuateAll(ds, punctuate)
  {
    out := [];
    for i := 0 to |ds|
      invariant out == PunctuateAll(ds[..i], punctuate)
    {
      assert ds[..i + 1][..i] == ds[..i];
      var d := ds[i];
      var result := punctuate(d.text);
      if result.Some? {
        out := out + [Dialogue(d.speaker, result.value, d.startMs, d.endMs)];
      }
    }
    assert ds[..|ds|] == ds;
  }

  /** Lines ordered by start time. */
  ghost predicate SortedByStart(s: seq<Dialogue>) {
    forall i, j :: 0 <= i < j < |s| ==> s[i].startMs <= s[j].startMs
  }

  /** The lines starting at `k`. */
  function WithStart(k: int): Dialogue -> bool {
    (d: Dialogue) => d.startMs == k
  }

  /** Insert `x` after every line that starts no later than it. */
  function Insert(s: seq<Dialogue>, x: Dialogue): (r: seq<Dialogue>)
    ensures |r| == |s| + 1
  {
    if s == [] || s[|s| - 1].startMs <= x.startMs then s + [x]
    else Insert(s[..|s| - 1], x) + [s[|s| - 1]]
  }

  /** `sort(key=lambda x: x['start'])`: a stable sort, written as insertion from the left. */
  function SortByStart(s: seq<Dialogue>): (r: seq<Dialogue>)
    ensures |r| == |s|
  {
    if s == [] then [] else Insert(SortByStart(s[..|s| - 1]), s[|s| - 1])
  }

  /** Inserting adds exactly `x`. */
  lemma {:induction false} InsertPermutes(s: seq<Dialogue>, x: Dialogue)
    ensures multiset(Insert(s, x)) == multiset(s) + multiset{x}
  {
    if s != [] && s[|s| - 1].startMs > x.startMs {
      var init, last := s[..|s| - 1], s[|s| - 1];
      InsertPermutes(init, x);
      assert s == init + [last];
    }
  }

  /** Appending a line that starts no earlier than any other keeps the order. */
  lemma SortedSnoc(r: seq<Dialogue>, last: Dialogue)
    requires SortedByStart(r)
    requires forall d <- r :: d.startMs <= last.startMs
    ensures SortedByStart(r + [last])
  {
    assert forall i :: 0 <= i < |r| ==> r[i] in r;
  }

  /** Inserting into a sorted sequence keeps it sorted. */
  lemma {:induction false} InsertSorted(s: seq<Dialogue>, x: Dialogue)
    requires SortedByStart(s)
    ensures SortedByStart(Insert(s, x))
  {
    if s == [] || s[|s| - 1].startMs <= x.startMs {
      SortedSnoc(s, x);
    } else {
      var init, last := s[..|s| - 1], s[|s| - 1];
      InsertSorted(init, x);
      InsertPermutes(init, x);
      var r := Insert(init, x);
      forall d <- r
        ensures d.startMs <= last.startMs
      {
        assert d in multiset(r);
        if d != x {
          assert d in multiset(init);
          assert d in init;
        }
      }
      SortedSnoc(r, last);
    }
  }

  /** Only the lines with the key of `x` see it; `x` comes after all of them. */
  lemma {:induction false} InsertStable(s: seq<Dialogue>, x: Dialogue, k: int)
    requires SortedByStart(s)
    ensures Filter(WithStart(k), Insert(s, x)) ==
            Filter(WithStart(k), s) + (if x.startMs == k then [x] else [])
  {
    if s != [] && s[|s| - 1].startMs > x.startMs {
      var init, last := s[..|s| - 1], s[|s| - 1];
      InsertStable(init, x, k);
      var r := Insert(init, x);
      assert r[..|r|] == r;
      assert (r + [last])[..|r|] == r;
      if x.startMs == k {
        assert last.startMs != k;
      }
    }
  }

  /** The result is ordered by start time and is a permutation of the input. */
  lemma {:induction false} SortByStartSorts(s: seq<Dialogue>)
    ensures SortedByStart(SortByStart(s))
    ensures multiset(SortByStart(s)) == multiset(s)
  {
    if s != [] {
      var init, last := s[..|s| - 1], s[|s| - 1];
      SortByStartSorts(init);
      InsertSorted(SortByStart(init), last);
      InsertPermutes(SortByStart(init), last);
      assert s == init + [last];
    }
  }

  /** Stability: for every start time, the lines with that start keep their relative order. */
  lemma {:induction false} SortByStartStable(s: seq<Dialogue>, k: int)
    ensures Filter(WithStart(k), SortByStart(s)) == Filter(WithStart(k), s)
  {
    if s != [] {
      var init := s[..|s| - 1];
      SortByStartStable(init, k);
      SortByStartSorts(init);
      InsertStable(SortByStart(init), s[|s| - 1], k);
    }
  }

  /** In a sorted sequence containing a line that starts at `k`, the last line starts no earlier. */
  lemma LastIsLatest(s: seq<Dialogue>, k: int)
    requires SortedByStart(s) && Filter(WithStart(k), s) != []
    ensures s != [] && k <= s[|s| - 1].startMs
  {
    FilterSound(WithStart(k), s);
    var d := Filter(WithStart(k), s)[0];
    assert d in s;
  }

  /** The last line of a sorted sequence is the last one with its start. */
  lemma LastOfLatest(s: seq<Dialogue>)
    requires s != []
    ensures var last := s[|s| - 1];
      Filter(WithStart(last.startMs), s) == Filter(WithStart(last.startMs), s[..|s| - 1]) + [last]
  {
  }

  /**
   * A sorted sequence is determined by its lines per start time: any two
   * sorted sequences that agree on every `Filter(WithStart(k), ·)` are equal.
   */
  lemma {:induction false} SortedUnique(r: seq<Dialogue>, q: seq<Dialogue>)
    requires SortedByStart(r) && SortedByStart(q)
    requires forall k :: Filter(WithStart(k), r) == Filter(WithStart(k), q)
    ensures r == q
    decreases |r|
  {
    if r == [] || q == [] {
      if r != [] {
        LastOfLatest(r);
      } else if q != [] {
        LastOfLatest(q);
      }
    } else {
      var lr, lq := r[|r| - 1], q[|q| - 1];
      LastOfLatest(r);
      LastOfLatest(q);
      LastIsLatest(q, lr.startMs);
      LastIsLatest(r, lq.startMs);
      var m := lr.startMs;
      assert lq.startMs == m;
      var ir, iq := r[..|r| - 1], q[..|q| - 1];
      var fr := Filter(WithStart(m), r);
      assert fr == Filter(WithStart(m), ir) + [lr];
      assert fr == Filter(WithStart(m), iq) + [lq];
      assert lr == fr[|fr| - 1] == lq;
      forall k
        ensures Filter(WithStart(k), ir) == Filter(WithStart(k), iq)
      {
        if k == m {
          assert Filter(WithStart(m), ir) == fr[..|fr| - 1] == Filter(WithStart(m), iq);
        } else {
          assert Filter(WithStart(k), r) == Filter(WithStart(k), ir);
          assert Filter(WithStart(k), q) == Filter(WithStart(k), iq);
        }
      }
      SortedUnique(ir, iq);
      assert r == ir + [lr] && q == iq + [lq];
    }
  }

  /**
   * `SortByStart` is the only stable sort by start time: any sorted sequence
   * that keeps each start time's lines in their input order is it.
   */
  lemma SortByStartUnique(s: seq<Dialogue>, r: seq<Dialogue>)
    requires SortedByStart(r)
    requires forall k :: Filter(WithStart(k), r) == Filter(WithStart(k), s)
    ensures r == SortByStart(s)
  {
    SortByStartSorts(s);
    forall k
      ensures Filter(WithStart(k), r) == Filter(WithStart(k), SortByStart(s))
    {
      SortByStartStable(s, k);
    }
    SortedUnique(r, SortByStart(s));
  }

  /**
   * Where `x` lands: after the lines up to `j`, when all lines from `j` on
   * start later than `x` and the line before `j` does not.
   */
  lemma {:induction false} InsertAt(s: seq<Dialogue>, j: nat, x: Dialogue)
    requires j <= |s|
    requires forall k :: j <= k < |s| ==> s[k].startMs > x.startMs
    requires j == 0 || s[j - 1].startMs <= x.startMs
    ensures Insert(s, x) == s[..j] + [x] + s[j..]
    decreases |s|
  {
    if j < |s| {
      var init := s[..|s| - 1];
      InsertAt(init, j, x);
      assert init[..j] == s[..j];
      assert s[j..] == init[j..] + [s[|s| - 1]];
    } else {
      assert s[..j] == s;
    }
  }

  /** The array during the insertion of `x`: `s` split at `j` around `x`, then the unsorted rest. */
  ghost function Arranged(s: seq<Dialogue>, j: nat, x: Dialogue, rest: seq<Dialogue>): seq<Dialogue>
    requires j <= |s|
  {
    s[..j] + [x] + s[j..] + rest
  }

  /** Swapping `x` with the line before it moves the split point one to the left. */
  lemma SwapStep(s: seq<Dialogue>, j: nat, x: Dialogue, rest: seq<Dialogue>)
    requires 0 < j <= |s|
    ensures Arranged(s, j, x, rest)[j - 1] == s[j - 1]
    ensures Arranged(s, j, x, rest)[j - 1 := x][j := s[j - 1]] == Arranged(s, j - 1, x, rest)
  {
    var before := Arranged(s, j, x, rest);
    var after := Arranged(s, j - 1, x, rest);
    assert |before[j - 1 := x][j := s[j - 1]]| == |after|;
    forall k | 0 <= k < |after|
      ensures before[j - 1 := x][j := s[j - 1]][k] == after[k]
    {
      if k < j - 1 {
      } else if k == j - 1 || k == j {
      } else if k <= |s| {
        assert before[k] == s[k - 1] == after[k];
      } else {
        assert before[k] == rest[k - |s| - 1] == after[k];
      }
    }
  }

  /** Move `a[i]` left past the earlier lines that start later than it. */
  method InsertInPlace(a: array<Dialogue>, i: nat)
    requires i < a.Length
    modifies a
    ensures a[..] == Insert(old(a[..i]), old(a[i])) + old(a[i + 1..])
  {
    ghost var s := a[..i];
    ghost var rest := a[i + 1..];
    var x := a[i];
    assert a[..] == Arranged(s, i, x, rest);
    var j := i;
    while j > 0 && a[j - 1].startMs > x.startMs
      invariant 0 <= j <= i
      invariant a[..] == Arranged(s, j, x, rest)
      invariant forall k :: j <= k < i ==> s[k].startMs > x.startMs
    {
      SwapStep(s, j, x, rest);
      var y := a[j - 1];
      a[j - 1] := x;
      a[j] := y;
      j := j - 1;
    }
    InsertAt(s, j, x);
  }

  /** Sorting one more line inserts it into the sorted prefix. */
  lemma SortByStartStep(s: seq<Dialogue>, i: nat)
    requires i < |s|
    ensures SortByStart(s[..i + 1]) == Insert(SortByStart(s[..i]), s[i])
  {
    assert s[..i + 1][..i] == s[..i];
  }

  /** Reading back the parts of a concatenation. */
  lemma SplitAround(c: seq<Dialogue>, p: seq<Dialogue>, q: seq<Dialogue>)
    requires c == p + q && q != []
    ensures c[..|p|] == p && c[|p|] == q[0] && c[|p| + 1..] == q[1..]
  {
  }

  /** Sort the lines in place by start time, stably, by insertion with adjacent swaps. */
  method SortInPlace(a: array<Dialogue>)
    modifies a
    ensures a[..] == SortByStart(old(a[..]))
  {
    ghost var input := a[..];
    for i := 0 to a.Length
      invariant a[..] == SortByStart(input[..i]) + input[i..]
    {
      ghost var sorted := SortByStart(input[..i]);
      SplitAround(a[..], sorted, input[i..]);
      assert input[i..][1..] == input[i + 1..];
      InsertInPlace(a, i);
      SortByStartStep(input, i);
    }
    assert input[..a.Length] == input;
  }
}
