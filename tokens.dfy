/** `text.split(" ")` as JavaScript's String.prototype.split does it for a
    one-character separator: the text is cut at every space, so adjacent,
    leading and trailing spaces produce empty tokens, and the text without
    spaces is a single token. */
module Tokens {

  function SplitOnSpaces(s: string): (parts: seq<string>)
    ensures |parts| >= 1
    ensures forall i :: 0 <= i < |parts| ==> ' ' !in parts[i]
    decreases |s|
  {
    if s == [] then [""]
    else
      var rest := SplitOnSpaces(s[1..]);
      if s[0] == ' ' then [""] + rest else [[s[0]] + rest[0]] + rest[1..]
  }

  /** `parts.join(" ")`: the inverse of the split. */
  function JoinWithSpaces(parts: seq<string>): string
    requires |parts| >= 1
    decreases |parts|
  {
    if |parts| == 1 then parts[0] else parts[0] + " " + JoinWithSpaces(parts[1..])
  }

  /** Joining the tokens back with single spaces restores the text. */
  lemma {:induction false} JoinSplit(s: string)
    ensures JoinWithSpaces(SplitOnSpaces(s)) == s
  {
    if s != [] {
      var rest := SplitOnSpaces(s[1..]);
      JoinSplit(s[1..]);
      var parts := SplitOnSpaces(s);
      if s[0] == ' ' {
        assert parts[1..] == rest;
      } else if |rest| > 1 {
        assert parts[1..] == rest[1..];
        assert JoinWithSpaces(rest) == rest[0] + " " + JoinWithSpaces(rest[1..]);
      }
    }
  }

  /** A first token without spaces, then a space, then the rest of the text. */
  lemma {:induction false} SplitAfterWord(w: string, t: string)
    requires ' ' !in w
    ensures SplitOnSpaces(w + " " + t) == [w] + SplitOnSpaces(t)
    decreases |w|
  {
    if w == [] {
      assert w + " " + t == " " + t;
      assert (" " + t)[1..] == t;
    } else {
      SplitAfterWord(w[1..], t);
      assert (w + " " + t)[1..] == w[1..] + " " + t;
      assert [w[0]] + w[1..] == w;
    }
  }

  /** A text without spaces is one token. */
  lemma {:induction false} SplitWord(w: string)
    requires ' ' !in w
    ensures SplitOnSpaces(w) == [w]
    decreases |w|
  {
    if w != [] {
      SplitWord(w[1..]);
      assert [w[0]] + w[1..] == w;
    }
  }

  /** Splitting a join of space-free tokens gives those tokens back. */
  lemma {:induction false} SplitJoin(parts: seq<string>)
    requires |parts| >= 1
    requires forall i :: 0 <= i < |parts| ==> ' ' !in parts[i]
    ensures SplitOnSpaces(JoinWithSpaces(parts)) == parts
    decreases |parts|
  {
    if |parts| == 1 {
      SplitWord(parts[0]);
    } else {
      SplitJoin(parts[1..]);
      SplitAfterWord(parts[0], JoinWithSpaces(parts[1..]));
      assert [parts[0]] + parts[1..] == parts;
    }
  }
}
