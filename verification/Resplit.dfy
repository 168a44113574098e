/** When splitting the gateway body again gives the very same chunks, for every text. */
module Resplit {
  import opened TextSplit

  /** No cut of an oversized paragraph falls next to whitespace. */
  predicate CutsClean(p: string, m: nat)
    requires m > 0
    decreases |p|
  {
    |p| <= m || (!IsSpace(p[m - 1]) && !IsSpace(p[m]) && CutsClean(p[m..], m))
  }

  /** The pieces a paragraph is cut into. */
  function Pieces(p: string, m: nat): seq<string>
    requires m > 0
    decreases |p|
  {
    if |p| > m then [p[..m]] + Pieces(p[m..], m) else [p]
  }

  function AllPieces(ps: seq<string>, m: nat): seq<string>
    requires m > 0
  {
    if ps == [] then [] else Pieces(ps[0], m) + AllPieces(ps[1..], m)
  }

  // ----- packing pieces is packing paragraphs ---------------------------------------------------

  /** Two fills that differ only in whether a full chunk has been emitted yet. */
  ghost predicate Alike(f: Fill, g: Fill, m: nat) {
    f == g || (f == Fill(Finish(g), "") && |g.current| == m)
  }

  lemma {:induction false} AddAlike(f: Fill, g: Fill, p: string, m: nat)
    requires m > 0 && p != "" && Alike(f, g, m)
    ensures Alike(Add(f, p, m), AddAll(g, Pieces(p, m), m), m)
    decreases |p|
  {
    if |p| > m {
      var piece, rest := p[..m], p[m..];
      var f1, g1 := Fill(Finish(f) + [piece], ""), Add(g, piece, m);
      assert Finish(g1) == Finish(f) + [piece];
      AddAlike(f1, g1, rest, m);
      assert ([piece] + Pieces(rest, m))[1..] == Pieces(rest, m);
    } else {
      assert [p][1..] == [];
      assert AddAll(Add(g, p, m), [], m) == Add(g, p, m);
    }
  }

  lemma {:induction false} AddAllConcat(f: Fill, a: seq<string>, b: seq<string>, m: nat)
    requires m > 0
    ensures AddAll(f, a + b, m) == AddAll(AddAll(f, a, m), b, m)
    decreases |a|
  {
    if a == [] {
      assert [] + b == b;
    } else {
      assert (a + b)[0] == a[0] && (a + b)[1..] == a[1..] + b;
      AddAllConcat(Add(f, a[0], m), a[1..], b, m);
    }
  }

  lemma {:induction false} PiecesPackAlike(f: Fill, g: Fill, ps: seq<string>, m: nat)
    requires m > 0 && Alike(f, g, m) && forall p :: p in ps ==> p != ""
    ensures Finish(AddAll(f, ps, m)) == Finish(AddAll(g, AllPieces(ps, m), m))
    decreases |ps|
  {
    if ps != [] {
      assert ps[0] in ps;
      assert forall p :: p in ps[1..] ==> p in ps;
      AddAlike(f, g, ps[0], m);
      AddAllConcat(g, Pieces(ps[0], m), AllPieces(ps[1..], m), m);
      PiecesPackAlike(Add(f, ps[0], m), AddAll(g, Pieces(ps[0], m), m), ps[1..], m);
    }
  }

  // ----- clean cuts ---------------------------------------------------------------------------------

  lemma {:induction false} PiecesAreShort(p: string, m: nat)
    requires m > 0 && p != ""
    ensures Pieces(p, m) != [] && forall q :: q in Pieces(p, m) ==> q != "" && |q| <= m && forall c :: c in q ==> c in p
    decreases |p|
  {
    if |p| > m {
      PiecesAreShort(p[m..], m);
    }
  }

  lemma {:induction false} CleanPiecesAreParagraphs(p: string, m: nat)
    requires m > 0 && IsParagraph(p) && CutsClean(p, m)
    ensures forall q :: q in Pieces(p, m) ==> IsParagraph(q)
    decreases |p|
  {
    if |p| > m {
      forall i | 0 <= i < m - 1 ensures !(p[..m][i] == p[..m][i + 1] == '\n') {
        assert p[..m][i] == p[i] && p[..m][i + 1] == p[i + 1];
      }
      forall i | 0 <= i < |p| - m - 1 ensures !(p[m..][i] == p[m..][i + 1] == '\n') {
        assert p[m..][i] == p[m + i] && p[m..][i + 1] == p[m + i + 1];
      }
      CleanPiecesAreParagraphs(p[m..], m);
    }
  }

  ghost predicate AllClean(ps: seq<string>, m: nat)
    requires m > 0
  {
    forall p :: p in ps ==> CutsClean(p, m)
  }

  lemma {:induction false} AllPiecesShape(ps: seq<string>, m: nat)
    requires m > 0 && forall p :: p in ps ==> IsParagraph(p)
    ensures forall q :: q in AllPieces(ps, m) ==> q != "" && |q| <= m && '\r' !in q
    ensures AllClean(ps, m) ==> forall q :: q in AllPieces(ps, m) ==> IsParagraph(q)
    ensures ps != [] ==> AllPieces(ps, m) != []
    decreases |ps|
  {
    if ps != [] {
      assert ps[0] in ps;
      assert forall p :: p in ps[1..] ==> p in ps;
      AllPiecesShape(ps[1..], m);
      PiecesAreShort(ps[0], m);
      if AllClean(ps, m) {
        CleanPiecesAreParagraphs(ps[0], m);
      }
    }
  }

  /** The gateway body is the pieces joined by blank lines. */
  lemma BodyIsThePieces(text: string, m: nat)
    requires m > 0
    ensures var pieces := AllPieces(Paragraphs(text), m);
      && Join(SplitText(text, m)) == Join(pieces)
      && SplitText(text, m) == Finish(AddAll(Fill([], ""), pieces, m))
  {
    var ps := Paragraphs(text);
    var pieces := AllPieces(ps, m);
    ParagraphsAreParagraphs(text);
    AllPiecesShape(ps, m);
    PiecesPackAlike(Fill([], ""), Fill([], ""), ps, m);
    if ps != [] {
      AddAllBody(Fill([], ""), pieces, m);
      assert "" + Join(pieces) == Join(pieces);
    }
  }

  // ----- what comes back is trimmed ------------------------------------------------------------------

  predicate Trimmed(s: string) {
    s != "" && !IsSpace(s[0]) && !IsSpace(s[|s| - 1])
  }

  ghost predicate AllTrimmed(chunks: seq<string>) {
    forall c :: c in chunks ==> Trimmed(c)
  }

  lemma {:induction false} ShortParagraphsStayTrimmed(f: Fill, ps: seq<string>, m: nat)
    requires m > 0 && forall p :: p in ps ==> Trimmed(p) && |p| <= m
    requires AllTrimmed(Finish(f))
    ensures AllTrimmed(Finish(AddAll(f, ps, m)))
    decreases |ps|
  {
    if ps != [] {
      var p := ps[0];
      assert p in ps;
      assert forall q :: q in ps[1..] ==> q in ps;
      var g := Add(f, p, m);
      assert f.current != "" ==> Trimmed(f.current) by {
        assert f.current != "" ==> Finish(f)[|f.out|] == f.current;
      }
      forall c | c in Finish(g) ensures Trimmed(c) {
        assert c in f.out ==> c in Finish(f);
      }
      ShortParagraphsStayTrimmed(g, ps[1..], m);
    }
  }

  lemma AcrossTheBreak(s: string, a: nat, b: nat, n: nat)
    requires a <= n && n + 2 <= b <= |s| && s[n] == s[n + 1] == '\n'
    ensures !NoBlankLine(s[a..b])
  {
    assert s[a..b][n - a] == s[n] && s[a..b][n - a + 1] == s[n + 1];
  }

  /** Without a blank line inside and with ink at both ends, a window of a joined list lies in one part. */
  lemma {:induction false} WindowIsInOnePart(parts: seq<string>, a: nat, b: nat, m: nat)
    requires forall q :: q in parts ==> |q| <= m
    requires a < b <= |Join(parts)| && Trimmed(Join(parts)[a..b]) && NoBlankLine(Join(parts)[a..b])
    ensures b - a <= m
    decreases |parts|
  {
    var s := Join(parts);
    var n := |parts[0]|;
    assert parts[0] in parts;
    assert s[a..b][0] == s[a] && s[a..b][b - a - 1] == s[b - 1];
    if |parts| > 1 {
      var rest := Join(parts[1..]);
      assert s[n] == s[n + 1] == '\n' && s[n + 2..] == rest;
      if b <= n {
      } else if a >= n + 2 {
        assert s[a..b] == rest[a - n - 2..b - n - 2];
        assert forall q :: q in parts[1..] ==> q in parts;
        WindowIsInOnePart(parts[1..], a - n - 2, b - n - 2, m);
      } else {
        AcrossTheBreak(s, a, b, n);
      }
    }
  }

  ghost predicate IsWindow(p: string, s: string) {
    exists a, b :: 0 <= a <= b <= |s| && p == s[a..b]
  }

  lemma WindowShift(s: string, a: nat, b: nat, c: nat, d: nat)
    requires c <= d <= |s| && a <= b <= d - c
    ensures s[c..d][a..b] == s[c + a..c + b]
  {
    forall k | 0 <= k < b - a ensures s[c..d][a..b][k] == s[c + a..c + b][k] {
      assert s[c..d][a + k] == s[c + a + k];
    }
  }

  lemma WindowOfWindow(p: string, q: string, s: string)
    requires IsWindow(p, q) && IsWindow(q, s)
    ensures IsWindow(p, s)
  {
    var a, b :| 0 <= a <= b <= |q| && p == q[a..b];
    var c, d :| 0 <= c <= d <= |s| && q == s[c..d];
    WindowShift(s, a, b, c, d);
  }

  lemma {:induction false} SkipIsWindow(s: string)
    ensures IsWindow(SkipNewlines(s), s)
  {
    if s != "" && s[0] == '\n' {
      SkipIsWindow(s[1..]);
      assert s[1..] == s[1..|s|];
      WindowOfWindow(SkipNewlines(s), s[1..], s);
    } else {
      assert s == s[0..|s|];
    }
  }

  lemma {:induction false} PartsAreWindows(s: string)
    ensures forall p :: p in SplitBlank(s) ==> IsWindow(p, s)
    decreases |s|
  {
    var i := BreakAt(s);
    assert s == s[0..|s|] && s[..i] == s[0..i] && s[i..] == s[i..|s|];
    if i < |s| {
      SkipShortens(s[i..]);
      var rest := SkipNewlines(s[i..]);
      SkipIsWindow(s[i..]);
      WindowOfWindow(rest, s[i..], s);
      PartsAreWindows(rest);
      forall p | p in SplitBlank(rest) ensures IsWindow(p, s) {
        WindowOfWindow(p, rest, s);
      }
    }
  }

  lemma {:induction false} KeptAreWindows(parts: seq<string>, s: string)
    requires forall p :: p in parts ==> IsWindow(p, s)
    ensures forall p :: p in Kept(parts) ==> IsWindow(p, s)
  {
    if parts != [] {
      assert parts[0] in parts;
      assert forall p :: p in parts[1..] ==> p in parts;
      KeptAreWindows(parts[1..], s);
      InkOfStripped(parts[0]);
      WindowOfWindow(Strip(parts[0]), parts[0], s);
    }
  }

  lemma ParagraphsAreWindows(text: string)
    requires '\r' !in text
    ensures forall p :: p in Paragraphs(text) ==> IsWindow(p, text)
  {
    NoReturns(text);
    var s := Normalize(text);
    InkOfStripped(text);
    PartsAreWindows(s);
    KeptAreWindows(SplitBlank(s), s);
    forall p | p in Paragraphs(text) ensures IsWindow(p, text) {
      WindowOfWindow(p, s, text);
    }
  }

  lemma {:induction false} NoReturnInJoin(parts: seq<string>)
    requires forall q :: q in parts ==> '\r' !in q
    ensures '\r' !in Join(parts)
  {
    if |parts| > 1 {
      assert forall q :: q in parts[1..] ==> q in parts;
      NoReturnInJoin(parts[1..]);
      assert parts[0] in parts;
    } else if |parts| == 1 {
      assert parts[0] in parts;
    }
  }

  lemma ShortWindow(parts: seq<string>, p: string, m: nat)
    requires (forall q :: q in parts ==> |q| <= m) && IsWindow(p, Join(parts)) && IsParagraph(p)
    ensures |p| <= m
  {
    var a, b :| 0 <= a <= b <= |Join(parts)| && p == Join(parts)[a..b];
    WindowIsInOnePart(parts, a, b, m);
  }

  /** Splitting the body of any text again cuts nothing, so the chunks it gives are trimmed. */
  lemma ResplitIsTrimmed(text: string, m: nat)
    requires m > 0
    ensures AllTrimmed(SplitText(Join(SplitText(text, m)), m))
  {
    var pieces := AllPieces(Paragraphs(text), m);
    var body := Join(pieces);
    ParagraphsAreParagraphs(text);
    AllPiecesShape(Paragraphs(text), m);
    BodyIsThePieces(text, m);
    NoReturnInJoin(pieces);
    ParagraphsAreWindows(body);
    ParagraphsAreParagraphs(body);
    forall p | p in Paragraphs(body) ensures Trimmed(p) && |p| <= m {
      ShortWindow(pieces, p, m);
    }
    ShortParagraphsStayTrimmed(Fill([], ""), Paragraphs(body), m);
  }

  // ----- a cut next to whitespace shows in the chunks ------------------------------------------------

  /** Emitted chunks are trimmed, and the one being filled starts with ink. */
  ghost predicate Inked(f: Fill) {
    AllTrimmed(f.out) && (f.current != "" ==> !IsSpace(f.current[0]))
  }

  lemma {:induction false} AddInked(f: Fill, p: string, m: nat)
    requires m > 0 && p != "" && Inked(Add(f, p, m))
    ensures Inked(f) && CutsClean(p, m) && (f.current == "" || |p| > m ==> !IsSpace(p[0]))
    decreases |p|
  {
    if |p| > m {
      var g := Fill(Finish(f) + [p[..m]], "");
      AddInked(g, p[m..], m);
      assert p[..m] in g.out && (f.current != "" ==> f.current in g.out);
      assert forall c :: c in f.out ==> c in g.out;
      assert p[..m][m - 1] == p[m - 1] && p[..m][0] == p[0];
    } else {
      var g := Add(f, p, m);
      assert forall c :: c in f.out ==> c in g.out;
      assert f.current != "" && g.out != f.out ==> f.current in g.out;
    }
  }

  lemma {:induction false} AddAllInked(f: Fill, ps: seq<string>, m: nat)
    requires m > 0 && (forall p :: p in ps ==> p != "") && Inked(AddAll(f, ps, m))
    ensures Inked(f) && AllClean(ps, m)
    decreases |ps|
  {
    if ps != [] {
      assert ps[0] in ps;
      assert forall p :: p in ps[1..] ==> p in ps;
      AddAllInked(Add(f, ps[0], m), ps[1..], m);
      AddInked(f, ps[0], m);
    }
  }

  /** Splitting the gateway body again gives the same chunks exactly when no cut of an oversized
      paragraph fell next to whitespace. */
  lemma ResplittingGivesTheSameIff(text: string, m: nat)
    requires m > 0
    ensures SplitText(Join(SplitText(text, m)), m) == SplitText(text, m) <==> forall p :: p in Paragraphs(text) ==> CutsClean(p, m)
  {
    var ps := Paragraphs(text);
    var pieces := AllPieces(ps, m);
    ParagraphsAreParagraphs(text);
    BodyIsThePieces(text, m);
    if AllClean(ps, m) {
      AllPiecesShape(ps, m);
      ParagraphsOfJoin(pieces);
    } else if SplitText(Join(SplitText(text, m)), m) == SplitText(text, m) {
      ResplitIsTrimmed(text, m);
      TrimmedIsInked(AddAll(Fill([], ""), ps, m));
      AddAllInked(Fill([], ""), ps, m);
    }
  }

  lemma TrimmedIsInked(f: Fill)
    requires AllTrimmed(Finish(f))
    ensures Inked(f)
  {
    if f.current != "" {
      assert Finish(f)[|f.out|] == f.current;
      assert Trimmed(f.current);
    }
    assert forall c :: c in f.out ==> c in Finish(f);
  }

  /** The smallest example: a cut before a space loses the space. */
  lemma ResplittingAfterACutDiffers()
    ensures SplitText(Join(SplitText("ab c", 2)), 2) != SplitText("ab c", 2)
  {
    var text := "ab c";
    ParagraphsOfJoin([text]) by { assert NoBlankLine(text); }
    assert Join([text]) == text && text in Paragraphs(text) && text[2] == ' ';
    ResplittingGivesTheSameIff(text, 2);
  }
}
