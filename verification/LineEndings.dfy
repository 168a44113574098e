/** What the chunker makes of line endings: texts that differ in them only are read the same. */
module LineEndings {
  import opened Wrappers
  import opened TextSplit

  /** The code points `IsSpace` accepts, one by one. */
  const SPACES: string :=
    "\t\n\U{b}\U{c}\r\U{1c}\U{1d}\U{1e}\U{1f} \U{85}\U{a0}\U{1680}\U{2000}\U{2001}\U{2002}\U{2003}\U{2004}\U{2005}"
    + "\U{2006}\U{2007}\U{2008}\U{2009}\U{200a}\U{2028}\U{2029}\U{202f}\U{205f}\U{3000}"

  lemma SpacesAre(c: char)
    ensures IsSpace(c) <==> c in SPACES
  {
    assert SPACES[..10] == "\t\n\U{b}\U{c}\r\U{1c}\U{1d}\U{1e}\U{1f} ";
    assert SPACES[10..19] == "\U{85}\U{a0}\U{1680}\U{2000}\U{2001}\U{2002}\U{2003}\U{2004}\U{2005}";
    assert SPACES[19..] == "\U{2006}\U{2007}\U{2008}\U{2009}\U{200a}\U{2028}\U{2029}\U{202f}\U{205f}\U{3000}";
    assert SPACES == SPACES[..10] + SPACES[10..19] + SPACES[19..];
  }

  // ----- one line ending ----------------------------------------------------------------------

  /** A text with its line endings unified, told from each character and the one before it: a
      return is a newline, and a newline after a return is the same line ending. */
  function Unified(s: string, afterReturn: bool): string {
    if s == "" then ""
    else if s[0] == '\n' && afterReturn then Unified(s[1..], false)
    else [if s[0] == '\r' then '\n' else s[0]] + Unified(s[1..], s[0] == '\r')
  }

  lemma {:induction false} ReplacedIsUnified(s: string)
    ensures ReplaceCr(ReplaceCrLf(s)) == Unified(s, false)
    decreases |s|
  {
    if s == "" {
    } else if |s| >= 2 && s[0] == '\r' && s[1] == '\n' {
      ReplacedIsUnified(s[2..]);
      assert s[1..][1..] == s[2..];
      assert ReplaceCrLf(s)[1..] == ReplaceCrLf(s[2..]);
    } else {
      ReplacedIsUnified(s[1..]);
      assert ReplaceCrLf(s)[1..] == ReplaceCrLf(s[1..]);
      assert Unified(s[1..], s[0] == '\r') == Unified(s[1..], false);
    }
  }

  /** Texts that are the same once their line endings are unified have the same paragraphs. */
  lemma SameOnceUnified(a: string, b: string)
    requires Unified(a, false) == Unified(b, false)
    ensures Paragraphs(a) == Paragraphs(b)
    ensures forall m: nat :: m > 0 ==> SplitText(a, m) == SplitText(b, m)
  {
    ReplacedIsUnified(a);
    ReplacedIsUnified(b);
  }

  // ----- a text written with another line ending ------------------------------------------------

  predicate IsEnding(eol: string) {
    eol == "\n" || eol == "\r\n" || eol == "\r"
  }

  function Written(text: string, eol: string): string {
    if text == "" then "" else (if text[0] == '\n' then eol else [text[0]]) + Written(text[1..], eol)
  }

  lemma {:induction false} UnifiedUndoesWritten(text: string, eol: string, afterReturn: bool)
    requires '\r' !in text && IsEnding(eol) && (afterReturn ==> eol == "\r")
    ensures Unified(Written(text, eol), afterReturn) == text
    decreases |text|
  {
    if text != "" {
      var rest := Written(text[1..], eol);
      if text[0] == '\n' && eol == "\r\n" {
        assert Written(text, eol)[1..] == "\n" + rest && ("\n" + rest)[1..] == rest;
        UnifiedUndoesWritten(text[1..], eol, false);
      } else {
        assert Written(text, eol)[1..] == rest;
        UnifiedUndoesWritten(text[1..], eol, text[0] == '\n' && eol == "\r");
      }
    }
  }

  /** A text without returns has the same paragraphs, and at every size the same chunks, whichever
      line ending it is written with. */
  lemma EndingsDoNotMatter(text: string, eol: string)
    requires '\r' !in text && IsEnding(eol)
    ensures Paragraphs(Written(text, eol)) == Paragraphs(text)
    ensures forall m: nat :: m > 0 ==> SplitText(Written(text, eol), m) == SplitText(text, m)
  {
    UnifiedUndoesWritten(text, eol, false);
    UnifiedUndoesWritten(text, "\n", false);
    NewlinesStay(text);
    SameOnceUnified(Written(text, eol), text);
  }

  lemma {:induction false} NewlinesStay(text: string)
    ensures Written(text, "\n") == text
  {
    if text != "" {
      NewlinesStay(text[1..]);
    }
  }

  // ----- paragraphs joined with another line ending ----------------------------------------------

  function JoinedBy(ps: seq<string>, gap: string): string {
    if ps == [] then "" else if |ps| == 1 then ps[0] else ps[0] + gap + JoinedBy(ps[1..], gap)
  }

  lemma UnifiedCons(c: char, s: string, afterReturn: bool)
    requires c != '\r' && (afterReturn ==> c != '\n')
    ensures Unified([c] + s, afterReturn) == [c] + Unified(s, false)
  {
    assert ([c] + s)[1..] == s;
  }

  /** A paragraph is read as it stands. */
  lemma {:induction false} UnifiedParagraph(p: string, rest: string, afterReturn: bool)
    requires '\r' !in p && p != "" && (afterReturn ==> p[0] != '\n')
    ensures Unified(p + rest, afterReturn) == p + Unified(rest, false)
    decreases |p|
  {
    var tail := p[1..];
    assert p + rest == [p[0]] + (tail + rest);
    UnifiedCons(p[0], tail + rest, afterReturn);
    if tail != "" {
      UnifiedParagraph(tail, rest, false);
      assert [p[0]] + (tail + Unified(rest, false)) == p + Unified(rest, false);
    } else {
      assert tail + rest == rest;
    }
  }

  lemma {:induction false} UnifiedUndoesJoined(ps: seq<string>, gap: string, afterReturn: bool)
    requires (forall p :: p in ps ==> IsParagraph(p)) && (gap == "\r\n\r\n" || gap == "\r\r")
    ensures Unified(JoinedBy(ps, gap), afterReturn) == Join(ps)
    decreases |ps|
  {
    if ps != [] {
      assert IsParagraph(ps[0]);
      if |ps| == 1 {
        UnifiedParagraph(ps[0], "", afterReturn);
        assert ps[0] + "" == ps[0];
      } else {
        var rest := JoinedBy(ps[1..], gap);
        assert ps[0] + gap + rest == ps[0] + (gap + rest);
        UnifiedParagraph(ps[0], gap + rest, afterReturn);
        UnifiedGap(gap, rest);
        UnifiedUndoesJoined(ps[1..], gap, gap == "\r\r");
        assert ps[0] + ("\n\n" + Join(ps[1..])) == ps[0] + PARAGRAPH_BREAK + Join(ps[1..]);
      }
    }
  }

  lemma UnifiedGap(gap: string, rest: string)
    requires gap == "\r\n\r\n" || gap == "\r\r"
    ensures Unified(gap + rest, false) == "\n\n" + Unified(rest, gap == "\r\r")
  {
    if gap == "\r\r" {
      assert (gap + rest)[1..] == "\r" + rest && ("\r" + rest)[1..] == rest;
    } else {
      assert (gap + rest)[1..] == "\n\r\n" + rest && ("\n\r\n" + rest)[1..] == "\r\n" + rest;
      assert ("\r\n" + rest)[1..] == "\n" + rest && ("\n" + rest)[1..] == rest;
      assert Unified("\n\r\n" + rest, true) == Unified("\r\n" + rest, false);
      assert Unified("\r\n" + rest, false) == "\n" + Unified("\n" + rest, true);
    }
  }

  /** Paragraphs joined by blank lines of either foreign kind are read back as they were. */
  lemma ParagraphsOfJoined(ps: seq<string>, gap: string)
    requires (forall p :: p in ps ==> IsParagraph(p)) && (gap == "\r\n\r\n" || gap == "\r\r")
    ensures Paragraphs(JoinedBy(ps, gap)) == ps
  {
    UnifiedUndoesJoined(ps, gap, false);
    NothingToUnify(ps);
    SameOnceUnified(JoinedBy(ps, gap), Join(ps));
    ParagraphsOfJoin(ps);
  }

  /** Joined paragraphs have no line ending to unify. */
  lemma NothingToUnify(ps: seq<string>)
    requires forall p :: p in ps ==> IsParagraph(p)
    ensures Unified(Join(ps), false) == Join(ps)
  {
    JoinHasNoReturn(ps);
    UnifiedUndoesWritten(Join(ps), "\n", false);
    NewlinesStay(Join(ps));
  }

  lemma {:induction false} JoinHasNoReturn(ps: seq<string>)
    requires forall p :: p in ps ==> IsParagraph(p)
    ensures '\r' !in Join(ps)
    decreases |ps|
  {
    if ps != [] {
      assert IsParagraph(ps[0]);
      if |ps| > 1 {
        JoinHasNoReturn(ps[1..]);
      }
    }
  }
}
