/** Taking concatenated texts apart. */
module Texts {

  /** How many characters of a kind a text starts with. */
  function SpanLength(t: string, kind: char -> bool): (n: nat)
    ensures n <= |t| && (n > 0 <==> |t| > 0 && kind(t[0]))
  {
    if |t| == 0 || !kind(t[0]) then 0 else 1 + SpanLength(t[1..], kind)
  }

  ghost predicate All(s: string, kind: char -> bool) {
    forall i :: 0 <= i < |s| ==> kind(s[i])
  }

  lemma {:induction false} SpanEnds(s: string, r: string, kind: char -> bool)
    requires All(s, kind) && (|r| > 0 ==> !kind(r[0]))
    ensures SpanLength(s + r, kind) == |s|
  {
    if |s| == 0 {
      assert s + r == r;
    } else {
      assert (s + r)[1..] == s[1..] + r;
      SpanEnds(s[1..], r, kind);
    }
  }

  /** A text of one kind ends where the kind ends. */
  lemma SpanSplits(s: string, r: string, t: string, q: string, kind: char -> bool)
    requires All(s, kind) && (|r| > 0 ==> !kind(r[0]))
    requires All(t, kind) && (|q| > 0 ==> !kind(q[0]))
    requires s + r == t + q
    ensures s == t && r == q
  {
    SpanEnds(s, r, kind);
    SpanEnds(t, q, kind);
    assert s == (s + r)[..|s|] && t == (t + q)[..|t|] && r == (s + r)[|s|..] && q == (t + q)[|t|..];
  }

  /** How many characters of a kind a text ends with. */
  ghost function TailLength(t: string, kind: char -> bool): nat {
    if |t| == 0 || !kind(t[|t| - 1]) then 0 else 1 + TailLength(t[..|t| - 1], kind)
  }

  lemma {:induction false} TailStarts(r: string, s: string, kind: char -> bool)
    requires All(s, kind) && |r| > 0 && !kind(r[|r| - 1])
    ensures TailLength(r + s, kind) == |s|
  {
    if |s| == 0 {
      assert r + s == r;
    } else {
      assert (r + s)[..|r + s| - 1] == r + s[..|s| - 1];
      TailStarts(r, s[..|s| - 1], kind);
    }
  }

  lemma TailSplits(r: string, s: string, q: string, t: string, kind: char -> bool)
    requires All(s, kind) && |r| > 0 && !kind(r[|r| - 1])
    requires All(t, kind) && |q| > 0 && !kind(q[|q| - 1])
    requires r + s == q + t
    ensures r == q && s == t
  {
    TailStarts(r, s, kind);
    TailStarts(q, t, kind);
    assert r == (r + s)[..|r|] && q == (q + t)[..|q|] && s == (r + s)[|r|..] && t == (q + t)[|q|..];
  }

  /** Text that starts with a character, taken apart. */
  lemma HeadAndTail(c: char, x: string, d: char, y: string)
    requires [c] + x == [d] + y
    ensures c == d && x == y
  {
    assert ([c] + x)[0] == c && ([d] + y)[0] == d;
    assert ([c] + x)[1..] == x && ([d] + y)[1..] == y;
  }
}
