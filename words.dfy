/**
 * Splitting a transcript into words and joining words back, as the merger
 * does with Python's `str.split()` (no argument) and `" " + word`.
 */
module Words {

  /** The characters for which Python's `str.isspace()` holds: `str.split()` splits on runs of them. */
  predicate IsSpace(c: char) {
    || c == ' ' || c == '\t' || c == '\n' || c == '\r' || c == '\U{B}' || c == '\U{C}'
    || ('\U{1C}' <= c <= '\U{1F}')
    || c == '\U{85}' || c == '\U{A0}' || c == '\U{1680}'
    || ('\U{2000}' <= c <= '\U{200A}')
    || c == '\U{2028}' || c == '\U{2029}' || c == '\U{202F}' || c == '\U{205F}' || c == '\U{3000}'
  }

  predicate NoSpace(w: string) {
    forall i :: 0 <= i < |w| ==> !IsSpace(w[i])
  }

  /** A word as `str.split()` produces it: non-empty and free of whitespace. */
  predicate IsWord(w: string) {
    w != [] && NoSpace(w)
  }

  /** The length of the longest whitespace-free prefix of `s`. */
  function WordLength(s: string): (n: nat)
    ensures n <= |s|
    ensures NoSpace(s[..n])
    ensures n < |s| ==> IsSpace(s[n])
    ensures s != [] && !IsSpace(s[0]) ==> n > 0
  {
    if s == [] || IsSpace(s[0]) then 0
    else
      var n := 1 + WordLength(s[1..]);
      assert s[..n] == [s[0]] + s[1..][..n - 1];
      n
  }

  /** Python's `s.split()`: the maximal whitespace-free runs of `s`, in order. */
  function Split(s: string): (words: seq<string>)
    ensures forall w <- words :: IsWord(w)
    decreases |s|
  {
    if s == [] then []
    else if IsSpace(s[0]) then Split(s[1..])
    else
      var n := WordLength(s);
      [s[..n]] + Split(s[n..])
  }

  /** Python's `" ".join(words)`; the merger builds each text as `text += " " + word`. */
  function Join(words: seq<string>): string {
    if words == [] then ""
    else if |words| == 1 then words[0]
    else Join(words[..|words| - 1]) + " " + words[|words| - 1]
  }

  /** Joining a non-empty list with one more word appends a space and that word. */
  lemma JoinSnoc(words: seq<string>, w: string)
    requires words != []
    ensures Join(words + [w]) == Join(words) + " " + w
  {
    assert (words + [w])[..|words|] == words;
  }

  /** Joining a longer prefix appends a space and the next word. */
  lemma JoinPrefix(words: seq<string>, n: nat)
    requires 2 <= n <= |words|
    ensures Join(words[..n]) == Join(words[..n - 1]) + " " + words[n - 1]
  {
    assert words[..n][..n - 1] == words[..n - 1];
  }

  /** A whitespace character ends the word that starts the string before it. */
  lemma {:induction false} WordLengthStopsAtSpace(x: string, c: char, y: string)
    requires IsSpace(c)
    ensures WordLength(x + [c] + y) == WordLength(x)
    decreases |x|
  {
    if x == [] {
    } else if IsSpace(x[0]) {
    } else {
      assert (x + [c] + y)[1..] == x[1..] + [c] + y;
      WordLengthStopsAtSpace(x[1..], c, y);
    }
  }

  /** Splitting at a whitespace character splits the two sides independently. */
  lemma {:induction false} SplitAtSpace(x: string, c: char, y: string)
    requires IsSpace(c)
    ensures Split(x + [c] + y) == Split(x) + Split(y)
    decreases |x|
  {
    var s := x + [c] + y;
    if x == [] {
      assert s[1..] == y;
    } else if IsSpace(x[0]) {
      assert s[1..] == x[1..] + [c] + y;
      SplitAtSpace(x[1..], c, y);
    } else {
      var n := WordLength(s);
      WordLengthStopsAtSpace(x, c, y);
      assert n == WordLength(x) && 0 < n <= |x|;
      assert s[..n] == x[..n];
      assert s[n..] == x[n..] + [c] + y;
      SplitAtSpace(x[n..], c, y);
    }
  }

  /** A single word splits into itself. */
  lemma SplitWord(w: string)
    requires IsWord(w)
    ensures Split(w) == [w]
  {
    var n := WordLength(w);
    assert w[..n] == w && w[n..] == [];
  }

  /** Round trip: splitting the space-joined words gives the words back. */
  lemma {:induction false} SplitJoin(words: seq<string>)
    requires forall w <- words :: IsWord(w)
    ensures Split(Join(words)) == words
    decreases |words|
  {
    if words == [] {
    } else if |words| == 1 {
      SplitWord(words[0]);
    } else {
      var init, last := words[..|words| - 1], words[|words| - 1];
      assert forall w <- init :: w in words;
      SplitJoin(init);
      SplitWord(last);
      assert Join(words) == Join(init) + [' '] + last;
      SplitAtSpace(Join(init), ' ', last);
      assert words == init + [last];
    }
  }
}
