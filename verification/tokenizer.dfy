/** java.util.StringTokenizer with one delimiter character and
    returnDelims false: the tokens are the maximal runs of characters
    other than the delimiter, so empty pieces between adjacent delimiters
    (or at either end) never come out as tokens. */
module Tokenizer {
  import opened Wrappers
  import Strings

  /** End of the token that starts at the front of `s`: the first delimiter, or the end. */
  function TokenEnd(s: string, d: char): (n: nat)
    ensures n <= |s| && d !in s[..n]
    ensures n < |s| ==> s[n] == d
  {
    match Strings.IndexOf(s, d)
    case None => |s|
    case Some(i) => i
  }

  /** The tokens `hasMoreTokens`/`nextToken` hand out, in order. */
  function Tokens(s: string, d: char): (ts: seq<string>)
    ensures forall i :: 0 <= i < |ts| ==> |ts[i]| > 0 && d !in ts[i]
    decreases |s|
  {
    if |s| == 0 then []
    else if s[0] == d then Tokens(s[1..], d)
    else
      var n := TokenEnd(s, d);
      [s[..n]] + Tokens(s[n..], d)
  }

  /** Reference definition: cut `s` at every delimiter, keeping empty pieces. */
  function Pieces(s: string, d: char): (ps: seq<string>)
    ensures |ps| > 0
    decreases |s|
  {
    match Strings.IndexOf(s, d)
    case None => [s]
    case Some(i) => [s[..i]] + Pieces(s[i + 1..], d)
  }

  /** The pieces that are not empty, in order. */
  function NonEmpty(ps: seq<string>): seq<string> {
    if |ps| == 0 then []
    else if |ps[0]| == 0 then NonEmpty(ps[1..])
    else [ps[0]] + NonEmpty(ps[1..])
  }

  /** Glue tokens back together with one delimiter between neighbours. */
  function Join(ts: seq<string>, d: char): string {
    if |ts| == 0 then ""
    else if |ts| == 1 then ts[0]
    else ts[0] + [d] + Join(ts[1..], d)
  }

  lemma {:induction false} NonEmptyAppend(a: seq<string>, b: seq<string>)
    ensures NonEmpty(a + b) == NonEmpty(a) + NonEmpty(b)
    decreases |a|
  {
    if |a| == 0 {
      assert a + b == b;
    } else {
      assert (a + b)[1..] == a[1..] + b;
      NonEmptyAppend(a[1..], b);
    }
  }

  /** The tokenizer yields exactly the non-empty pieces of a full split. */
  lemma {:induction false} TokensAreNonEmptyPieces(s: string, d: char)
    ensures Tokens(s, d) == NonEmpty(Pieces(s, d))
    decreases |s|
  {
    if |s| == 0 {
    } else if s[0] == d {
      assert Strings.IndexOf(s, d) == Some(0);
      assert Pieces(s, d) == [""] + Pieces(s[1..], d);
      NonEmptyAppend([""], Pieces(s[1..], d));
      TokensAreNonEmptyPieces(s[1..], d);
    } else {
      var n := TokenEnd(s, d);
      if n == |s| {
        assert s[..n] == s;
        assert Tokens(s[n..], d) == [];
      } else {
        assert s[n..][0] == d && s[n..][1..] == s[n + 1..];
        assert Tokens(s[n..], d) == Tokens(s[n + 1..], d);
        assert Pieces(s, d) == [s[..n]] + Pieces(s[n + 1..], d);
        NonEmptyAppend([s[..n]], Pieces(s[n + 1..], d));
        TokensAreNonEmptyPieces(s[n + 1..], d);
      }
    }
  }

  /** Splitting and re-joining with the delimiter gives back the original string. */
  lemma {:induction false} JoinPieces(s: string, d: char)
    ensures Join(Pieces(s, d), d) == s
    decreases |s|
  {
    match Strings.IndexOf(s, d)
    case None =>
    case Some(i) =>
      JoinPieces(s[i + 1..], d);
      assert s == s[..i] + [d] + s[i + 1..];
  }

  /** Joining non-empty, delimiter-free tokens and tokenizing gives them back. */
  lemma {:induction false} TokensOfJoin(ts: seq<string>, d: char)
    requires forall i :: 0 <= i < |ts| ==> |ts[i]| > 0 && d !in ts[i]
    ensures Tokens(Join(ts, d), d) == ts
    decreases |ts|
  {
    if |ts| == 0 {
    } else if |ts| == 1 {
      var s := ts[0];
      assert TokenEnd(s, d) == |s|;
      assert s[..|s|] == s && s[|s|..] == [];
    } else {
      var rest := Join(ts[1..], d);
      var s := ts[0] + [d] + rest;
      var n := |ts[0]|;
      assert s[..n] == ts[0];
      assert s[n] == d;
      assert d !in s[..n];
      assert TokenEnd(s, d) == n;
      assert s[n..][0] == d && s[n..][1..] == rest;
      TokensOfJoin(ts[1..], d);
      assert Tokens(s, d) == [ts[0]] + Tokens(s[n..], d);
      assert Tokens(s[n..], d) == Tokens(rest, d);
    }
  }
}
