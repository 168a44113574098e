/**
 The deterministic text chunker, the gateway that reassembles its output, and what
 the two promise together.  Text is a sequence of code points.
 */
module TextSplit {
  import opened Wrappers

  const PARAGRAPH_BREAK: string := "\n\n"

  /** The code points that Python's `str.strip` removes. */
  predicate IsSpace(c: char) {
    || '\t' <= c <= '\r' || '\U{1c}' <= c <= ' ' || c == '\U{85}' || c == '\U{a0}'
    || c == '\U{1680}' || '\U{2000}' <= c <= '\U{200a}' || c == '\U{2028}' || c == '\U{2029}'
    || c == '\U{202f}' || c == '\U{205f}' || c == '\U{3000}'
  }

  // ----- normalization and paragraphs ---------------------------------------

  function ReplaceCrLf(s: string): string {
    if s == "" then ""
    else if |s| >= 2 && s[0] == '\r' && s[1] == '\n' then "\n" + ReplaceCrLf(s[2..])
    else [s[0]] + ReplaceCrLf(s[1..])
  }

  function ReplaceCr(s: string): string {
    if s == "" then "" else [if s[0] == '\r' then '\n' else s[0]] + ReplaceCr(s[1..])
  }

  function StripLeft(s: string): string {
    if s != "" && IsSpace(s[0]) then StripLeft(s[1..]) else s
  }

  function StripRight(s: string): string {
    if s != "" && IsSpace(s[|s| - 1]) then StripRight(s[..|s| - 1]) else s
  }

  function Strip(s: string): string {
    StripRight(StripLeft(s))
  }

  function Normalize(text: string): string {
    Strip(ReplaceCr(ReplaceCrLf(text)))
  }

  /** Where the first run of two or more newlines starts; the length when there is none. */
  function BreakAt(s: string): (i: nat)
    ensures i <= |s|
    ensures i < |s| ==> i + 1 < |s| && s[i] == s[i + 1] == '\n'
  {
    if |s| < 2 then |s|
    else if s[0] == s[1] == '\n' then 0
    else 1 + BreakAt(s[1..])
  }

  function SkipNewlines(s: string): string {
    if s != "" && s[0] == '\n' then SkipNewlines(s[1..]) else s
  }

  /** Splitting at every maximal run of two or more newlines. */
  function SplitBlank(s: string): seq<string>
    decreases |s|
  {
    var i := BreakAt(s);
    if i == |s| then [s]
    else
      SkipShortens(s[i..]);
      [s[..i]] + SplitBlank(SkipNewlines(s[i..]))
  }

  function Kept(parts: seq<string>): seq<string> {
    if parts == [] then []
    else (if Strip(parts[0]) == "" then [] else [Strip(parts[0])]) + Kept(parts[1..])
  }

  function Paragraphs(text: string): seq<string> {
    var normalized := Normalize(text);
    if normalized == "" then [] else Kept(SplitBlank(normalized))
  }

  // ----- packing paragraphs into chunks -------------------------------------

  /** The chunks already emitted and the chunk being filled. */
  datatype Fill = Fill(out: seq<string>, current: string)

  function Add(f: Fill, paragraph: string, maxChars: nat): Fill
    requires maxChars > 0
    decreases |paragraph|
  {
    if |paragraph| > maxChars then
      Add(Fill(Finish(f) + [paragraph[..maxChars]], ""), paragraph[maxChars..], maxChars)
    else if paragraph == "" then f
    else
      var candidate := if f.current != "" then f.current + PARAGRAPH_BREAK + paragraph else paragraph;
      if f.current != "" && |candidate| > maxChars then Fill(f.out + [f.current], paragraph)
      else Fill(f.out, candidate)
  }

  function AddAll(f: Fill, paragraphs: seq<string>, maxChars: nat): Fill
    requires maxChars > 0
    decreases |paragraphs|
  {
    if paragraphs == [] then f else AddAll(Add(f, paragraphs[0], maxChars), paragraphs[1..], maxChars)
  }

  function Finish(f: Fill): seq<string> {
    if f.current != "" then f.out + [f.current] else f.out
  }

  function SplitText(text: string, maxChars: nat): seq<string>
    requires maxChars > 0
  {
    Finish(AddAll(Fill([], ""), Paragraphs(text), maxChars))
  }

  /** The chunker as the program runs it: two nested loops over a growing list. */
  method SplitTextInto(text: string, maxChars: int) returns (r: Result<seq<string>>)
    ensures maxChars <= 0 ==> r == Raised
    ensures maxChars > 0 ==> r == Ok(SplitText(text, maxChars))
  {
    if maxChars <= 0 {
      return Raised;
    }
    var paragraphs := Paragraphs(text);
    var chunks: seq<string>, current := [], "";
    ghost var result := AddAll(Fill([], ""), paragraphs, maxChars);
    for i := 0 to |paragraphs|
      invariant AddAll(Fill(chunks, current), paragraphs[i..], maxChars) == result
    {
      var paragraph := paragraphs[i];
      assert paragraphs[i..][0] == paragraph && paragraphs[i..][1..] == paragraphs[i + 1..];
      ghost var after := Add(Fill(chunks, current), paragraph, maxChars);
      while |paragraph| > maxChars
        invariant Add(Fill(chunks, current), paragraph, maxChars) == after
      {
        if current != "" {
          chunks := chunks + [current];
          current := "";
        }
        chunks := chunks + [paragraph[..maxChars]];
        paragraph := paragraph[maxChars..];
      }
      if paragraph == "" {
        continue;
      }
      var candidate := if current != "" then current + PARAGRAPH_BREAK + paragraph else paragraph;
      if current != "" && |candidate| > maxChars {
        chunks := chunks + [current];
        current := paragraph;
      } else {
        current := candidate;
      }
    }
    if current != "" {
      chunks := chunks + [current];
    }
    return Ok(chunks);
  }

  /** The download gateway's reassembly: chunks joined by a blank line. */
  function Join(parts: seq<string>): string {
    if parts == [] then "" else if |parts| == 1 then parts[0] else parts[0] + PARAGRAPH_BREAK + Join(parts[1..])
  }

  // ----- auxiliary facts about the text functions ----------------------------

  /** The non-whitespace code points, in order. */
  function Ink(s: string): string {
    if s == "" then "" else (if IsSpace(s[0]) then "" else [s[0]]) + Ink(s[1..])
  }

  function Flat(parts: seq<string>): string {
    if parts == [] then "" else parts[0] + Flat(parts[1..])
  }

  lemma SkipShortens(s: string)
    ensures |SkipNewlines(s)| <= |s|
    ensures s != "" && s[0] == '\n' ==> |SkipNewlines(s)| < |s|
    ensures |s| >= 2 && s[0] == s[1] == '\n' ==> |SkipNewlines(s)| + 2 <= |s|
  {}

  lemma {:induction false} InkConcat(a: string, b: string)
    ensures Ink(a + b) == Ink(a) + Ink(b)
  {
    if a == "" {
      assert a + b == b;
    } else {
      assert (a + b)[1..] == a[1..] + b;
      InkConcat(a[1..], b);
    }
  }

  lemma FlatConcat(a: seq<string>, b: seq<string>)
    ensures Flat(a + b) == Flat(a) + Flat(b)
  {
    if a == [] {
      assert a + b == b;
    } else {
      assert (a + b)[1..] == a[1..] + b;
      FlatConcat(a[1..], b);
    }
  }

  lemma InkAcrossBreak(a: string, b: string)
    ensures Ink(a + PARAGRAPH_BREAK + b) == Ink(a) + Ink(b)
  {
    var gap := PARAGRAPH_BREAK;
    BreakHasNoInk();
    InkConcat(a + gap, b);
    InkConcat(a, gap);
    assert Ink(a) + "" == Ink(a);
  }

  lemma BreakHasNoInk()
    ensures Ink(PARAGRAPH_BREAK) == ""
  {
    assert PARAGRAPH_BREAK[1..] == "\n";
    assert Ink("\n") == Ink("");
  }

  lemma InkOfReplaced(s: string)
    ensures Ink(ReplaceCrLf(s)) == Ink(s) == Ink(ReplaceCr(s))
    ensures |ReplaceCrLf(s)| <= |s| == |ReplaceCr(s)|
    decreases |s|
  {
    if s == "" {
    } else {
      InkOfReplaced(s[1..]);
      if |s| >= 2 && s[0] == '\r' && s[1] == '\n' {
        InkOfReplaced(s[2..]);
        assert s[1..][1..] == s[2..];
      }
    }
  }

  lemma InkOfStripped(s: string)
    ensures Ink(Strip(s)) == Ink(s)
    ensures exists a, b :: 0 <= a <= b <= |s| && Strip(s) == s[a..b]
    ensures Strip(s) != "" ==> !IsSpace(Strip(s)[0]) && !IsSpace(Strip(s)[|Strip(s)| - 1])
  {
    InkOfStripLeft(s);
    InkOfStripRight(StripLeft(s));
    var a := |s| - |StripLeft(s)|;
    var b := a + |Strip(s)|;
    assert Strip(s) == s[a..b];
  }

  lemma InkOfStripLeft(s: string)
    ensures Ink(StripLeft(s)) == Ink(s)
    ensures |StripLeft(s)| <= |s| && StripLeft(s) == s[|s| - |StripLeft(s)|..]
    ensures StripLeft(s) != "" ==> !IsSpace(StripLeft(s)[0])
  {}

  lemma {:induction false} InkOfStripRight(s: string)
    ensures Ink(StripRight(s)) == Ink(s)
    ensures |StripRight(s)| <= |s| && StripRight(s) == s[..|StripRight(s)|]
    ensures StripRight(s) != "" ==> !IsSpace(StripRight(s)[|StripRight(s)| - 1])
  {
    if s != "" && IsSpace(s[|s| - 1]) {
      var front := s[..|s| - 1];
      InkOfStripRight(front);
      assert s == front + [s[|s| - 1]];
      InkConcat(front, [s[|s| - 1]]);
      assert Ink([s[|s| - 1]]) == "";
    } else {
      assert s[..|s|] == s;
    }
  }

  lemma InkOfSkipped(s: string)
    ensures Ink(SkipNewlines(s)) == Ink(s)
    ensures |SkipNewlines(s)| <= |s| && SkipNewlines(s) == s[|s| - |SkipNewlines(s)|..]
  {}

  lemma {:induction false} InkOfSplit(s: string)
    ensures Ink(Flat(SplitBlank(s))) == Ink(s)
    decreases |s|
  {
    var i := BreakAt(s);
    if i == |s| {
      assert Flat([s]) == s + Flat([]) == s;
    } else {
      SkipShortens(s[i..]);
      var rest := SkipNewlines(s[i..]);
      InkOfSplit(rest);
      InkOfSkipped(s[i..]);
      InkConcat(s[..i], s[i..]);
      InkConcat(s[..i], Flat(SplitBlank(rest)));
      assert s == s[..i] + s[i..];
      FlatConcat([s[..i]], SplitBlank(rest));
    }
  }

  lemma {:induction false} InkOfKept(parts: seq<string>)
    ensures Ink(Flat(Kept(parts))) == Ink(Flat(parts))
  {
    if parts != [] {
      InkOfKept(parts[1..]);
      InkOfStripped(parts[0]);
      InkConcat(parts[0], Flat(parts[1..]));
      var head := Strip(parts[0]);
      InkConcat(head, Flat(Kept(parts[1..])));
      if head != "" {
        FlatConcat([head], Kept(parts[1..]));
        assert Flat([head]) == head + Flat([]) == head;
      } else {
        assert Kept(parts) == Kept(parts[1..]);
      }
    }
  }

  lemma InkOfParagraphs(text: string)
    ensures Ink(Flat(Paragraphs(text))) == Ink(text)
  {
    InkOfReplaced(text);
    InkOfReplaced(ReplaceCrLf(text));
    InkOfStripped(ReplaceCr(ReplaceCrLf(text)));
    InkOfSplit(Normalize(text));
    InkOfKept(SplitBlank(Normalize(text)));
  }

  // ----- round trip: no character is lost or reordered ------------------------

  function Held(f: Fill): string {
    Flat(Finish(f))
  }

  lemma {:induction false} InkOfAdd(f: Fill, p: string, m: nat)
    requires m > 0
    ensures Ink(Held(Add(f, p, m))) == Ink(Held(f)) + Ink(p)
    decreases |p|
  {
    FlatSnoc(f.out, f.current);
    if |p| > m {
      var g := Fill(Finish(f) + [p[..m]], "");
      InkOfAdd(g, p[m..], m);
      FlatSnoc(Finish(f), p[..m]);
      InkConcat(Held(f), p[..m]);
      InkConcat(p[..m], p[m..]);
      assert p == p[..m] + p[m..];
    } else if p != "" {
      if f.current == "" {
        FlatSnoc(f.out, p);
        InkConcat(Held(f), p);
      } else {
        var candidate := f.current + PARAGRAPH_BREAK + p;
        if |candidate| > m {
          FlatSnoc(f.out + [f.current], p);
          InkConcat(Held(f), p);
        } else {
          FlatSnoc(f.out, candidate);
          InkConcat(Flat(f.out), candidate);
          InkAcrossBreak(f.current, p);
          InkConcat(Flat(f.out), f.current);
        }
      }
    }
  }

  lemma FlatSnoc(parts: seq<string>, last: string)
    ensures Flat(parts + [last]) == Flat(parts) + last
  {
    FlatConcat(parts, [last]);
    assert Flat([last]) == last + Flat([]) == last;
  }

  lemma {:induction false} InkOfAddAll(f: Fill, ps: seq<string>, m: nat)
    requires m > 0
    ensures Ink(Held(AddAll(f, ps, m))) == Ink(Held(f)) + Ink(Flat(ps))
    decreases |ps|
  {
    if ps != [] {
      InkOfAdd(f, ps[0], m);
      InkOfAddAll(Add(f, ps[0], m), ps[1..], m);
      InkConcat(ps[0], Flat(ps[1..]));
    }
  }

  lemma {:induction false} InkOfJoin(parts: seq<string>)
    ensures Ink(Join(parts)) == Ink(Flat(parts))
  {
    if |parts| == 1 {
      assert Flat(parts) == parts[0] + Flat([]) == parts[0];
    } else if parts != [] {
      InkOfJoin(parts[1..]);
      InkAcrossBreak(parts[0], Join(parts[1..]));
      InkConcat(parts[0], Flat(parts[1..]));
    }
  }

  /** Whatever the text and the chunk size, the gateway body carries exactly the text's
      non-whitespace characters, in order. */
  lemma GatewayKeepsEveryCharacter(text: string, maxChars: nat)
    requires maxChars > 0
    ensures Ink(Join(SplitText(text, maxChars))) == Ink(text)
  {
    InkOfParagraphs(text);
    InkOfAddAll(Fill([], ""), Paragraphs(text), maxChars);
    InkOfJoin(SplitText(text, maxChars));
  }

  // ----- packing: sizes and density -------------------------------------------

  /** Two chunks that could not have shared one. */
  predicate Crowded(a: string, b: string, maxChars: nat) {
    |a| + 2 + |b| > maxChars
  }

  ghost predicate WellPacked(chunks: seq<string>, maxChars: nat) {
    && (forall i :: 0 <= i < |chunks| ==> 1 <= |chunks[i]| <= maxChars)
    && (forall i :: 0 <= i < |chunks| - 1 ==> Crowded(chunks[i], chunks[i + 1], maxChars))
  }

  /** A full piece is the only chunk ever emitted while none is open. */
  ghost predicate Packing(f: Fill, maxChars: nat) {
    && WellPacked(Finish(f), maxChars)
    && (f.current == "" && f.out != [] ==> |f.out[|f.out| - 1]| == maxChars)
  }

  lemma {:induction false} AddPacks(f: Fill, p: string, m: nat)
    requires m > 0
    requires Packing(f, m)
    ensures Packing(Add(f, p, m), m)
    decreases |p|
  {
    if |p| > m {
      AddPacks(Fill(Finish(f) + [p[..m]], ""), p[m..], m);
    } else if p != "" {
      var before, after := Finish(f), Finish(Add(f, p, m));
      forall i | 0 <= i < |after| ensures 1 <= |after[i]| <= m {
        assert i < |before| ==> 1 <= |before[i]| <= m;
      }
      forall i | 0 <= i < |after| - 1 ensures Crowded(after[i], after[i + 1], m) {
        assert i < |before| - 1 ==> Crowded(before[i], before[i + 1], m);
      }
    }
  }

  lemma {:induction false} AddAllPacks(f: Fill, ps: seq<string>, m: nat)
    requires m > 0
    requires Packing(f, m)
    ensures Packing(AddAll(f, ps, m), m)
    decreases |ps|
  {
    if ps != [] {
      AddPacks(f, ps[0], m);
      AddAllPacks(Add(f, ps[0], m), ps[1..], m);
    }
  }

  /** Every chunk has 1 to maxChars characters and no two neighbours could be merged. */
  lemma ChunksAreWellPacked(text: string, maxChars: nat)
    requires maxChars > 0
    ensures WellPacked(SplitText(text, maxChars), maxChars)
  {
    AddAllPacks(Fill([], ""), Paragraphs(text), maxChars);
  }

  function Total(parts: seq<string>): nat {
    if parts == [] then 0 else |parts[0]| + Total(parts[1..])
  }

  lemma {:induction false} TotalConcat(a: seq<string>, b: seq<string>)
    ensures Total(a + b) == Total(a) + Total(b)
  {
    if a == [] {
      assert a + b == b;
    } else {
      assert (a + b)[1..] == a[1..] + b;
      TotalConcat(a[1..], b);
    }
  }

  lemma TotalSnoc(parts: seq<string>, last: string)
    ensures Total(parts + [last]) == Total(parts) + |last|
  {
    TotalConcat(parts, [last]);
  }

  /** A paragraph costs its own characters, plus the blank line when it joins an open chunk. */
  lemma {:induction false} AddTotal(f: Fill, p: string, m: nat)
    requires m > 0
    ensures Total(Finish(Add(f, p, m))) <= Total(Finish(f)) + |p| + (if f.current == "" then 0 else 2)
    decreases |p|
  {
    TotalSnoc(f.out, f.current);
    if |p| > m {
      TotalSnoc(Finish(f), p[..m]);
      AddTotal(Fill(Finish(f) + [p[..m]], ""), p[m..], m);
    } else if p != "" {
      TotalSnoc(f.out, p);
      TotalSnoc(f.out + [f.current], p);
      TotalSnoc(f.out, f.current + PARAGRAPH_BREAK + p);
    }
  }

  lemma {:induction false} AddAllTotal(f: Fill, ps: seq<string>, m: nat)
    requires m > 0
    ensures Total(Finish(AddAll(f, ps, m))) <= Total(Finish(f)) + Total(ps) + 2 * |ps|
    ensures f.current == "" && ps != [] ==> Total(Finish(AddAll(f, ps, m))) + 2 <= Total(Finish(f)) + Total(ps) + 2 * |ps|
    decreases |ps|
  {
    if ps != [] {
      AddTotal(f, ps[0], m);
      AddAllTotal(Add(f, ps[0], m), ps[1..], m);
    }
  }

  lemma {:induction false} SplitTotal(s: string)
    ensures Total(SplitBlank(s)) + 2 * |SplitBlank(s)| <= |s| + 2
    decreases |s|
  {
    var i := BreakAt(s);
    if i == |s| {
      assert Total([s]) == |s| + Total([]) == |s|;
    } else {
      SkipShortens(s[i..]);
      SplitTotal(SkipNewlines(s[i..]));
      TotalConcat([s[..i]], SplitBlank(SkipNewlines(s[i..])));
    }
  }

  lemma {:induction false} KeptTotal(parts: seq<string>)
    ensures Total(Kept(parts)) + 2 * |Kept(parts)| <= Total(parts) + 2 * |parts|
  {
    if parts != [] {
      KeptTotal(parts[1..]);
      InkOfStripped(parts[0]);
      if Strip(parts[0]) == "" {
        assert Kept(parts) == Kept(parts[1..]);
      } else {
        TotalConcat([Strip(parts[0])], Kept(parts[1..]));
      }
    }
  }

  /** The chunks together are never longer than the text. */
  lemma ChunksFitInText(text: string, maxChars: nat)
    requires maxChars > 0
    ensures Total(SplitText(text, maxChars)) <= |text|
  {
    InkOfReplaced(text);
    InkOfReplaced(ReplaceCrLf(text));
    InkOfStripped(ReplaceCr(ReplaceCrLf(text)));
    SplitTotal(Normalize(text));
    KeptTotal(SplitBlank(Normalize(text)));
    AddAllTotal(Fill([], ""), Paragraphs(text), maxChars);
  }

  lemma {:induction false} PackedTotal(chunks: seq<string>, m: nat)
    requires m > 0 && WellPacked(chunks, m)
    ensures |chunks| / 2 * (m - 1) <= Total(chunks)
    decreases |chunks|
  {
    if |chunks| >= 2 {
      var rest := chunks[2..];
      PackedTotal(rest, m);
      assert Crowded(chunks[0], chunks[1], m);
      assert chunks[1..][1..] == rest;
      assert |chunks| / 2 == |rest| / 2 + 1;
      assert (|rest| / 2 + 1) * (m - 1) == |rest| / 2 * (m - 1) + (m - 1);
    }
  }

  /** Packing density: k chunks need a text of at least floor(k/2) * (maxChars - 1) characters. */
  lemma ChunkCountBound(text: string, maxChars: nat)
    requires maxChars > 0
    ensures |SplitText(text, maxChars)| / 2 * (maxChars - 1) <= |text|
  {
    ChunksAreWellPacked(text, maxChars);
    PackedTotal(SplitText(text, maxChars), maxChars);
    ChunksFitInText(text, maxChars);
  }

  // ----- re-splitting the gateway body ----------------------------------------

  ghost predicate NoBlankLine(s: string) {
    forall i :: 0 <= i < |s| - 1 ==> !(s[i] == s[i + 1] == '\n')
  }

  /** What every paragraph looks like: trimmed, without a blank line or a carriage return. */
  ghost predicate IsParagraph(p: string) {
    && p != "" && !IsSpace(p[0]) && !IsSpace(p[|p| - 1])
    && NoBlankLine(p)
    && '\r' !in p
  }

  lemma BreakAtIsFirst(s: string, n: nat)
    requires n <= |s| && NoBlankLine(s[..n]) && (n == |s| || (n + 1 < |s| && s[n] == s[n + 1] == '\n'))
    requires 0 < n ==> s[n - 1] != '\n'
    ensures BreakAt(s) == n
  {
    if n > 0 && |s| >= 2 {
      assert NoBlankLine(s[1..][..n - 1]) by {
        forall i | 0 <= i < n - 2 ensures !(s[1..][i] == s[1..][i + 1] == '\n') {
          assert s[..n][i + 1] == s[1..][i] && s[..n][i + 2] == s[1..][i + 1];
        }
      }
      assert !(s[0] == s[1] == '\n') by {
        if n > 1 {
          assert !(s[..n][0] == s[..n][1] == '\n');
        }
      }
      BreakAtIsFirst(s[1..], n - 1);
    }
  }

  lemma BreakAtPrefix(s: string)
    ensures NoBlankLine(s[..BreakAt(s)])
  {
    if |s| >= 2 && !(s[0] == s[1] == '\n') {
      BreakAtPrefix(s[1..]);
      var n := BreakAt(s);
      forall i | 0 <= i < n - 1 ensures !(s[..n][i] == s[..n][i + 1] == '\n') {
        if i > 0 {
          assert s[1..][..n - 1][i - 1] == s[i] && s[1..][..n - 1][i] == s[i + 1];
        }
      }
    }
  }

  lemma {:induction false} PartsAreClean(s: string)
    requires '\r' !in s
    ensures forall p :: p in SplitBlank(s) ==> NoBlankLine(p) && '\r' !in p
    decreases |s|
  {
    var i := BreakAt(s);
    BreakAtPrefix(s);
    if i == |s| {
      assert s[..i] == s;
    } else {
      SkipShortens(s[i..]);
      InkOfSkipped(s[i..]);
      PartsAreClean(SkipNewlines(s[i..]));
    }
  }

  lemma StrippedIsParagraph(part: string)
    requires NoBlankLine(part) && '\r' !in part && Strip(part) != ""
    ensures IsParagraph(Strip(part))
  {
    InkOfStripped(part);
    var a, b :| 0 <= a <= b <= |part| && Strip(part) == part[a..b];
    assert forall c :: c in part[a..b] ==> c in part;
    forall i | 0 <= i < b - a - 1 ensures !(part[a..b][i] == part[a..b][i + 1] == '\n') {
      assert part[a..b][i] == part[a + i] && part[a..b][i + 1] == part[a + i + 1];
    }
  }

  lemma {:induction false} KeptAreParagraphs(parts: seq<string>)
    requires forall p :: p in parts ==> NoBlankLine(p) && '\r' !in p
    ensures forall p :: p in Kept(parts) ==> IsParagraph(p)
  {
    if parts != [] {
      KeptAreParagraphs(parts[1..]);
      assert parts[0] in parts;
      if Strip(parts[0]) != "" {
        StrippedIsParagraph(parts[0]);
      }
    }
  }

  lemma NoReturns(s: string)
    ensures '\r' !in ReplaceCr(s)
    ensures '\r' !in s ==> ReplaceCr(s) == s == ReplaceCrLf(s)
  {}

  lemma ParagraphsAreParagraphs(text: string)
    ensures forall p :: p in Paragraphs(text) ==> IsParagraph(p)
  {
    var replaced := ReplaceCr(ReplaceCrLf(text));
    NoReturns(ReplaceCrLf(text));
    InkOfStripped(replaced);
    PartsAreClean(Normalize(text));
    KeptAreParagraphs(SplitBlank(Normalize(text)));
  }

  lemma StripIsIdentity(s: string)
    requires s != "" ==> !IsSpace(s[0]) && !IsSpace(s[|s| - 1])
    ensures Strip(s) == s
  {}

  lemma JoinShape(ps: seq<string>)
    requires forall p :: p in ps ==> IsParagraph(p)
    ensures '\r' !in Join(ps)
    ensures ps != [] ==> |Join(ps)| > 0 && !IsSpace(Join(ps)[0]) && !IsSpace(Join(ps)[|Join(ps)| - 1])
  {
    if |ps| > 1 {
      JoinShape(ps[1..]);
      assert ps[0] in ps;
    } else if |ps| == 1 {
      assert ps[0] in ps;
    }
  }

  lemma {:induction false} SplitsAfterFirst(p: string, rest: string)
    requires IsParagraph(p) && rest != "" && rest[0] != '\n'
    ensures SplitBlank(p + PARAGRAPH_BREAK + rest) == [p] + SplitBlank(rest)
  {
    var s := p + PARAGRAPH_BREAK + rest;
    assert s[..|p|] == p;
    BreakAtIsFirst(s, |p|);
    var tail := s[|p|..];
    assert tail[0] == tail[1] == '\n' && tail[2..] == rest && tail[1..][1..] == tail[2..];
    assert SkipNewlines(tail) == SkipNewlines(tail[1..]) == SkipNewlines(tail[1..][1..]) == rest;
    assert SplitBlank(s) == [s[..|p|]] + SplitBlank(SkipNewlines(tail));
  }

  lemma {:induction false} KeptUndoesJoin(ps: seq<string>)
    requires ps != [] && forall p :: p in ps ==> IsParagraph(p)
    ensures Kept(SplitBlank(Join(ps))) == ps
  {
    var p := ps[0];
    assert p in ps;
    StripIsIdentity(p);
    if |ps| == 1 {
      BreakAtIsFirst(p, |p|) by { assert p[..|p|] == p; }
      assert Kept([p]) == [p] + Kept([]);
    } else {
      var rest := Join(ps[1..]);
      JoinShape(ps[1..]);
      KeptUndoesJoin(ps[1..]);
      SplitsAfterFirst(p, rest);
      assert ([p] + SplitBlank(rest))[1..] == SplitBlank(rest);
      assert Kept([p] + SplitBlank(rest)) == [p] + Kept(SplitBlank(rest));
    }
  }

  /** Reading a joined list of paragraphs gives back that list. */
  lemma ParagraphsOfJoin(ps: seq<string>)
    requires forall p :: p in ps ==> IsParagraph(p)
    ensures Paragraphs(Join(ps)) == ps
  {
    JoinShape(ps);
    NoReturns(Join(ps));
    StripIsIdentity(Join(ps));
    if ps != [] {
      KeptUndoesJoin(ps);
    }
  }

  /** How many blank lines cutting an oversized paragraph adds. */
  function Cuts(p: string, maxChars: nat): nat
    requires maxChars > 0
    decreases |p|
  {
    if |p| > maxChars then 1 + Cuts(p[maxChars..], maxChars) else 0
  }

  function AllCuts(ps: seq<string>, maxChars: nat): nat
    requires maxChars > 0
  {
    if ps == [] then 0 else Cuts(ps[0], maxChars) + AllCuts(ps[1..], maxChars)
  }

  lemma JoinCons(first: string, rest: seq<string>)
    requires rest != []
    ensures Join([first] + rest) == first + PARAGRAPH_BREAK + Join(rest)
  {
    assert ([first] + rest)[1..] == rest;
  }

  lemma GapsRegroup(a: string, gap: string, b: string, c: string)
    ensures a + gap + (b + gap + c) == a + gap + b + gap + c
  {}

  lemma {:induction false} JoinSnoc(parts: seq<string>, last: string)
    ensures Join(parts + [last]) == if parts == [] then last else Join(parts) + PARAGRAPH_BREAK + last
  {
    if |parts| > 1 {
      JoinSnoc(parts[1..], last);
      JoinCons(parts[0], parts[1..] + [last]);
      JoinCons(parts[0], parts[1..]);
      GapsRegroup(parts[0], PARAGRAPH_BREAK, Join(parts[1..]), last);
      assert parts == [parts[0]] + parts[1..] && parts + [last] == [parts[0]] + (parts[1..] + [last]);
    } else if |parts| == 1 {
      assert (parts + [last])[1..] == [last];
    } else {
      assert parts + [last] == [last];
    }
  }

  /** A paragraph that fits goes into the current chunk or starts the next. */
  lemma AddJoinsWhole(f: Fill, p: string, m: nat)
    requires m > 0 && p != "" && |p| <= m
    ensures Join(Finish(Add(f, p, m))) == if Finish(f) == [] then p else Join(Finish(f)) + PARAGRAPH_BREAK + p
    ensures Finish(Add(f, p, m)) != []
  {
    if f.current == "" {
      JoinSnoc(f.out, p);
    } else if |f.current + PARAGRAPH_BREAK + p| > m {
      JoinSnoc(f.out + [f.current], p);
    } else {
      JoinSnoc(f.out, f.current);
      JoinSnoc(f.out, f.current + PARAGRAPH_BREAK + p);
      GapsRegroup(Join(f.out), PARAGRAPH_BREAK, f.current, p);
    }
  }

  lemma {:induction false} AddJoins(f: Fill, p: string, m: nat)
    requires m > 0 && p != ""
    ensures var body := Join(Finish(f)); var body' := Join(Finish(Add(f, p, m)));
      && |body'| == |body| + (if Finish(f) == [] then 0 else 2) + |p| + 2 * Cuts(p, m)
      && (|p| <= m ==> body' == if Finish(f) == [] then p else body + PARAGRAPH_BREAK + p)
      && Finish(Add(f, p, m)) != []
    decreases |p|
  {
    if |p| > m {
      JoinSnoc(Finish(f), p[..m]);
      AddJoins(Fill(Finish(f) + [p[..m]], ""), p[m..], m);
    } else {
      AddJoinsWhole(f, p, m);
    }
  }

  lemma {:induction false} AddAllBodyLength(f: Fill, ps: seq<string>, m: nat)
    requires m > 0 && forall p :: p in ps ==> p != ""
    ensures |Join(Finish(AddAll(f, ps, m)))| ==
            |Join(Finish(f))| + (if Finish(f) == [] || ps == [] then 0 else 2) + |Join(ps)| + 2 * AllCuts(ps, m)
    decreases |ps|
  {
    if ps != [] {
      assert ps[0] in ps;
      assert forall p :: p in ps[1..] ==> p in ps;
      AddJoins(f, ps[0], m);
      AddAllBodyLength(Add(f, ps[0], m), ps[1..], m);
    }
  }

  lemma {:induction false} AddAllBody(f: Fill, ps: seq<string>, m: nat)
    requires m > 0 && ps != [] && forall p :: p in ps ==> p != "" && |p| <= m
    ensures Join(Finish(AddAll(f, ps, m))) ==
            (if Finish(f) == [] then "" else Join(Finish(f)) + PARAGRAPH_BREAK) + Join(ps)
    decreases |ps|
  {
    assert ps[0] in ps;
    assert forall p :: p in ps[1..] ==> p in ps;
    AddJoins(f, ps[0], m);
    var g := Add(f, ps[0], m);
    if |ps| == 1 {
      assert AddAll(g, ps[1..], m) == g;
    } else {
      AddAllBody(g, ps[1..], m);
      JoinAssoc(if Finish(f) == [] then "" else Join(Finish(f)) + PARAGRAPH_BREAK, ps[0], Join(ps[1..]));
    }
  }

  lemma JoinAssoc(a: string, b: string, c: string)
    ensures a + b + PARAGRAPH_BREAK + c == a + (b + PARAGRAPH_BREAK + c)
  {}

  lemma {:induction false} NoCutsIff(ps: seq<string>, m: nat)
    requires m > 0
    ensures AllCuts(ps, m) == 0 <==> forall p :: p in ps ==> |p| <= m
  {
    if ps != [] {
      NoCutsIff(ps[1..], m);
      assert ps == [ps[0]] + ps[1..];
    }
  }

  /** The body is the paragraphs themselves, whatever the chunk size, exactly when no
      paragraph is longer than a chunk; each cut of a longer one adds a blank line. */
  lemma BodyIsTheParagraphs(text: string, maxChars: nat)
    requires maxChars > 0
    ensures var body := Join(SplitText(text, maxChars)); var ps := Paragraphs(text);
      && |body| == |Join(ps)| + 2 * AllCuts(ps, maxChars)
      && (body == Join(ps) <==> forall p :: p in ps ==> |p| <= maxChars)
  {
    var ps := Paragraphs(text);
    ParagraphsAreParagraphs(text);
    AddAllBodyLength(Fill([], ""), ps, maxChars);
    NoCutsIff(ps, maxChars);
    if ps != [] && AllCuts(ps, maxChars) == 0 {
      AddAllBody(Fill([], ""), ps, maxChars);
      assert "" + Join(ps) == Join(ps);
    }
  }

  /** When no paragraph is longer than a chunk, splitting the gateway body again, at the
      same or any other size, gives the chunks of the original text. */
  lemma {:induction false} ResplittingTheBody(text: string, maxChars: nat, otherMax: nat)
    requires maxChars > 0 && otherMax > 0
    requires forall p :: p in Paragraphs(text) ==> |p| <= maxChars
    ensures SplitText(Join(SplitText(text, maxChars)), otherMax) == SplitText(text, otherMax)
  {
    BodyIsTheParagraphs(text, maxChars);
    ParagraphsAreParagraphs(text);
    ParagraphsOfJoin(Paragraphs(text));
  }
}
