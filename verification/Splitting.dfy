/** Splitting a string at a separator character, as `str.split` does. */
module Splitting {
  function SplitOn(s: string, c: char): (parts: seq<string>)
    ensures parts != []
  {
    if s == [] then [""]
    else
      var before := SplitOn(s[..|s| - 1], c);
      var last := |before| - 1;
      if s[|s| - 1] == c then before + [""] else before[last := before[last] + [s[|s| - 1]]]
  }

  lemma {:induction false} SplitPiece(s: string, c: char, piece: string)
    requires c !in piece
    ensures SplitOn(s + piece, c) == SplitOn(s, c)[|SplitOn(s, c)| - 1 := SplitOn(s, c)[|SplitOn(s, c)| - 1] + piece]
  {
    if piece == "" {
      assert s + piece == s;
      assert SplitOn(s, c)[|SplitOn(s, c)| - 1] + "" == SplitOn(s, c)[|SplitOn(s, c)| - 1];
    } else {
      var shorter, x := piece[..|piece| - 1], piece[|piece| - 1];
      SplitPiece(s, c, shorter);
      assert (s + piece)[..|s + piece| - 1] == s + shorter;
      assert shorter + [x] == piece;
      var last := SplitOn(s, c)[|SplitOn(s, c)| - 1];
      assert (last + shorter) + [x] == last + piece;
    }
  }

  /** Pieces without the separator, joined by it, are found again. */
  lemma SplitThree(a: string, b: string, d: string, c: char)
    requires c !in a && c !in b && c !in d
    ensures SplitOn(a + [c] + b + [c] + d, c) == [a, b, d]
  {
    SplitPiece("", c, a);
    assert "" + a == a && [""][0 := a] == [a];
    assert (a + [c])[..|a|] == a;
    assert SplitOn(a + [c], c) == [a, ""];
    SplitPiece(a + [c], c, b);
    assert "" + b == b && "" + d == d;
    assert [a, ""][1 := b] == [a, b] && [a, b, ""][2 := d] == [a, b, d];
    assert SplitOn(a + [c] + b, c) == [a, b];
    var ab := a + [c] + b;
    assert (ab + [c])[..|ab|] == ab;
    assert SplitOn(ab + [c], c) == [a, b, ""];
    SplitPiece(ab + [c], c, d);
    assert ab + [c] + d == a + [c] + b + [c] + d;
  }

  /** The pieces with the separator between them again. */
  function JoinOn(parts: seq<string>, c: char): string {
    if parts == [] then "" else if |parts| == 1 then parts[0] else JoinOn(parts[..|parts| - 1], c) + [c] + parts[|parts| - 1]
  }

  /** Splitting loses nothing and leaves no separator in a piece. */
  lemma {:induction false} SplitIsJoined(s: string, c: char)
    ensures JoinOn(SplitOn(s, c), c) == s
    ensures forall i :: 0 <= i < |SplitOn(s, c)| ==> c !in SplitOn(s, c)[i]
  {
    if s != "" {
      var front, x := s[..|s| - 1], s[|s| - 1];
      SplitIsJoined(front, c);
      var before, parts := SplitOn(front, c), SplitOn(s, c);
      assert s == front + [x];
      if x == c {
        assert parts[..|parts| - 1] == before;
        assert front + [c] + "" == s;
      } else {
        var last := |before| - 1;
        assert parts[..last] == before[..last] && parts[last] == before[last] + [x];
        assert c !in before[last];
        if last > 0 {
          var head := JoinOn(before[..last], c) + [c];
          assert head + (before[last] + [x]) == (head + before[last]) + [x];
        }
      }
    }
  }
}
