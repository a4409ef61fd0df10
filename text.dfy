/** Joining tokens with single spaces, as `" ".join(tokens)` does, and splitting them back. */
module Text {

  function JoinSpaces(tokens: seq<string>): string
    decreases |tokens|
  {
    if tokens == [] then ""
    else if |tokens| == 1 then tokens[0]
    else tokens[0] + " " + JoinSpaces(tokens[1..])
  }

  /** Cuts a string at every space; a string without spaces is one piece. */
  function SplitSpaces(s: string): (pieces: seq<string>)
    ensures |pieces| >= 1
    decreases |s|
  {
    if s == [] then [""]
    else
      var rest := SplitSpaces(s[1..]);
      if s[0] == ' ' then [""] + rest else [[s[0]] + rest[0]] + rest[1..]
  }

  lemma {:induction false} SplitWord(w: string, tail: string)
    requires ' ' !in w
    ensures SplitSpaces(w + tail) == [w + SplitSpaces(tail)[0]] + SplitSpaces(tail)[1..]
    decreases |w|
  {
    var p := SplitSpaces(tail);
    if w != [] {
      var rest := w[1..] + tail;
      assert w + tail == [w[0]] + rest;
      SplitWord(w[1..], tail);
      SplitNonSpace(w[0], rest);
      assert [w[0]] + (w[1..] + p[0]) == w + p[0];
    } else {
      assert w + tail == tail && w + p[0] == p[0];
      assert [p[0]] + p[1..] == p;
    }
  }

  /** A character other than a space joins the first piece. */
  lemma SplitNonSpace(c: char, s: string)
    requires c != ' '
    ensures SplitSpaces([c] + s) == [[c] + SplitSpaces(s)[0]] + SplitSpaces(s)[1..]
  {
    assert ([c] + s)[0] == c && ([c] + s)[1..] == s;
  }

  /**
   * Joining tokens that contain no space and splitting the result gives the
   * tokens back, so the joined text loses nothing.
   */
  lemma {:induction false} SplitJoin(tokens: seq<string>)
    requires tokens != []
    requires forall i :: 0 <= i < |tokens| ==> ' ' !in tokens[i]
    ensures SplitSpaces(JoinSpaces(tokens)) == tokens
    decreases |tokens|
  {
    if |tokens| == 1 {
      SplitWord(tokens[0], "");
      assert tokens[0] + "" == tokens[0];
    } else {
      var w, rest := tokens[0], JoinSpaces(tokens[1..]);
      SplitJoin(tokens[1..]);
      assert JoinSpaces(tokens) == w + (" " + rest);
      SplitWord(w, " " + rest);
      assert (" " + rest)[1..] == rest;
      assert SplitSpaces(" " + rest) == [""] + SplitSpaces(rest);
      assert w + "" == w;
      assert [w] + tokens[1..] == tokens;
    }
  }
}
