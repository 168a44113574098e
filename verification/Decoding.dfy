/** The lenient base64 decoder, told from the whole input: where reading ends, and what the digits
    before that end make as one number. */
module Decoding {
  import opened Wrappers
  import opened Tokens
  import opened Alphabet

  predicate IsDigit(c: char) {
    Value(c).Some?
  }

  function DigitOf(c: char): (v: nat)
    requires IsDigit(c)
    ensures v < 64
  {
    Value(c).value
  }

  /** The digits read are those of the URL-safe alphabet, each at its place, and two of the other one. */
  lemma DigitsAre(c: char)
    ensures IsDigit(c) <==> c in ALPHABET || c == '+' || c == '/'
    ensures c == '+' ==> DigitOf(c) == 62
    ensures c == '/' ==> DigitOf(c) == 63
    ensures forall v: nat :: v < |ALPHABET| && ALPHABET[v] == c ==> IsDigit(c) && DigitOf(c) == v
  {
    forall v: nat | v < |ALPHABET| && ALPHABET[v] == c ensures Value(c) == Some(v) {
      DigitsInOrder(v);
      CharValue(v);
    }
    if Value(c).Some? && c != '+' && c != '/' {
      DigitsInOrder(DigitOf(c));
      CharOfValue(c);
    }
  }

  lemma CharOfValue(c: char)
    requires IsDigit(c) && c != '+' && c != '/'
    ensures Char(DigitOf(c)) == c
  {}

  // ----- what a text reads as -----------------------------------------------------------------

  function Count(s: string): nat {
    if s == "" then 0 else Count(s[..|s| - 1]) + if IsDigit(s[|s| - 1]) then 1 else 0
  }

  /** The digits as one number, everything else skipped. */
  ghost function Value64(s: string): nat {
    if s == "" then 0
    else if IsDigit(s[|s| - 1]) then Value64(s[..|s| - 1]) * 64 + DigitOf(s[|s| - 1])
    else Value64(s[..|s| - 1])
  }

  /** The padding characters after the last digit. */
  function Trailing(s: string): nat {
    if s == "" || IsDigit(s[|s| - 1]) then 0 else Trailing(s[..|s| - 1]) + if s[|s| - 1] == '=' then 1 else 0
  }

  /** A padding character that completes a group of four. */
  predicate Closes(s: string, i: nat)
    requires i < |s|
  {
    s[i] == '=' && Count(s[..i]) % 4 >= 2 && Count(s[..i]) % 4 + Trailing(s[..i]) + 1 >= 4
  }

  /** Reading ends at the first such character, or at the end of the text. */
  ghost predicate EndsAt(s: string, k: nat) {
    k <= |s| && (forall i :: 0 <= i < k ==> !Closes(s, i)) && (k < |s| ==> Closes(s, k))
  }

  lemma {:induction false} SomewhereItEnds(s: string, i: nat) returns (k: nat)
    requires i <= |s| && forall j :: 0 <= j < i ==> !Closes(s, j)
    ensures EndsAt(s, k)
    decreases |s| - i
  {
    if i < |s| && !Closes(s, i) {
      k := SomewhereItEnds(s, i + 1);
    } else {
      k := i;
    }
  }

  lemma OneMore(s: string, i: nat)
    requires i < |s|
    ensures Count(s[..i + 1]) == Count(s[..i]) + if IsDigit(s[i]) then 1 else 0
    ensures Value64(s[..i + 1]) == if IsDigit(s[i]) then Value64(s[..i]) * 64 + DigitOf(s[i]) else Value64(s[..i])
    ensures Trailing(s[..i + 1]) == if IsDigit(s[i]) then 0 else Trailing(s[..i]) + if s[i] == '=' then 1 else 0
  {
    assert s[..i + 1][..i] == s[..i];
  }

  // ----- the decoder on its way ----------------------------------------------------------------------

  /** A number of whole bytes with the bits left over behind it. */
  function WithBits(n: nat, pos: nat, left: nat): nat {
    if pos == 1 then n * 64 + left else if pos == 2 then n * 16 + left else if pos == 3 then n * 4 + left else n + left
  }

  /** The whole bytes of a number whose last group has `pos` digits. */
  function WholeBytes(value: nat, pos: nat): nat {
    if pos == 1 then value / 64 else if pos == 2 then value / 16 else if pos == 3 then value / 4 else value
  }

  function Octets(count: nat): nat {
    count * 3 / 4
  }

  /** `size` bytes that make the number `n`, and the bits left over, are all the digits so far. */
  predicate Fits(count: nat, value: nat, size: nat, n: nat, pos: nat, left: nat) {
    Quad(pos, left) && pos == count % 4 && size == Octets(count) && value == WithBits(n, pos, left)
  }

  /** The decoder's state after `i` characters. */
  ghost predicate Holds(s: string, i: nat, done: seq<Byte>, pos: nat, left: nat, pads: nat) {
    && i <= |s| && Fits(Count(s[..i]), Value64(s[..i]), |done|, Number(done), pos, left)
    && (pos >= 2 ==> pads == Trailing(s[..i]))
  }

  /** What the rest of the text adds to the bytes so far. */
  ghost predicate Reads(s: string, k: nat, done: seq<Byte>, r: Option<seq<Byte>>)
    requires k <= |s|
  {
    var count := Count(s[..k]);
    && (r.Some? <==> k < |s| || count % 4 == 0)
    && (r.Some? ==> |done| + |r.value| == Octets(count) && Number(done + r.value) == WholeBytes(Value64(s[..k]), count % 4))
  }

  lemma NumberGrows(done: seq<Byte>, b: nat)
    requires b < 256
    ensures Number(done + [b]) == Number(done) * 256 + b
  {
    assert (done + [b])[..|done|] == done;
  }

  /** The positions of a digit in its group. */
  lemma Second(n: nat, left: nat, v: nat)
    requires v < 64
    ensures (n * 64 + left) * 64 + v == (n * 256 + (left * 4 + v / 16)) * 16 + v % 16
  {
    var q, r := v / 16, v % 16;
    assert v == q * 16 + r;
  }

  lemma Third(n: nat, left: nat, v: nat)
    requires v < 64
    ensures (n * 16 + left) * 64 + v == (n * 256 + (left * 16 + v / 4)) * 4 + v % 4
  {
    var q, r := v / 4, v % 4;
    assert v == q * 4 + r;
  }

  lemma OctetsGrow(count: nat)
    ensures Octets(count + 1) == Octets(count) + (if count % 4 == 0 then 0 else 1) && (count + 1) % 4 == (count % 4 + 1) % 4
  {
    var q, r := count / 4, count % 4;
    assert count == 4 * q + r;
    assert Octets(count) == 3 * q + r * 3 / 4;
    assert r < 3 ==> Octets(count + 1) == 3 * q + (r + 1) * 3 / 4;
  }

  lemma TheEnd(s: string, i: nat, done: seq<Byte>, pos: nat, left: nat, pads: nat)
    requires Holds(s, i, done, pos, left, pads) && pos != 1
    ensures WholeBytes(Value64(s[..i]), pos) == Number(done) && done + [] == done
  {}

  datatype After = After(byte: Byte, pos: nat, left: nat)

  /** What a digit that completes a byte completes, and leaves over. */
  function AfterDigit(pos: nat, left: nat, v: nat): After
    requires Quad(pos, left) && pos > 0 && v < 64
  {
    if pos == 1 then After(left * 4 + v / 16, 2, v % 16)
    else if pos == 2 then After(left * 16 + v / 4, 3, v % 4)
    else After(left * 64 + v, 0, 0)
  }

  /** One step of the decoder. */
  lemma DigitRead(s: string, pos: nat, left: nat, pads: nat, v: nat)
    requires s != "" && Value(s[0]) == Some(v) && v < 64 && s[0] != '=' && Quad(pos, left)
    ensures Decode64(s, pos, left, pads) ==
      if pos == 0 then Decode64(s[1..], 1, v, 0)
      else var next := AfterDigit(pos, left, v); Before(next.byte, Decode64(s[1..], next.pos, next.left, 0))
  {}

  lemma OtherRead(s: string, pos: nat, left: nat, pads: nat)
    requires s != "" && !IsDigit(s[0]) && Quad(pos, left)
    ensures Decode64(s, pos, left, pads) ==
      if s[0] == '=' && pos >= 2 && pos + pads + 1 >= 4 then Some([])
      else Decode64(s[1..], pos, left, if s[0] == '=' && pos >= 2 then pads + 1 else pads)
  {
  }

  lemma {:induction false} DecodesFrom(s: string, i: nat, k: nat, done: seq<Byte>, pos: nat, left: nat, pads: nat)
    requires Holds(s, i, done, pos, left, pads) && EndsAt(s, k) && i <= k
    ensures Reads(s, k, done, Decode64(s[i..], pos, left, pads))
    decreases |s| - i
  {
    if i == |s| {
      if pos == 0 {
        TheEnd(s, i, done, pos, left, pads);
      }
    } else if IsDigit(s[i]) {
      DecodesDigit(s, i, k, done, pos, left, pads);
    } else {
      OneMore(s, i);
      OtherRead(s[i..], pos, left, pads);
      assert s[i..][0] == s[i] && s[i..][1..] == s[i + 1..];
      if i == k {
        assert Closes(s, i);
        TheEnd(s, i, done, pos, left, pads);
      } else {
        assert !Closes(s, i);
        DecodesFrom(s, i + 1, k, done, pos, left, if s[i] == '=' && pos >= 2 then pads + 1 else pads);
      }
    }
  }

  lemma {:induction false} DecodesDigit(s: string, i: nat, k: nat, done: seq<Byte>, pos: nat, left: nat, pads: nat)
    requires Holds(s, i, done, pos, left, pads) && EndsAt(s, k) && i <= k && i < |s| && IsDigit(s[i])
    ensures Reads(s, k, done, Decode64(s[i..], pos, left, pads))
    decreases |s| - i, 0
  {
    var v := DigitOf(s[i]);
    assert i < k;
    assert s[i..][0] == s[i] && s[i..][1..] == s[i + 1..];
    DigitRead(s[i..], pos, left, pads, v);
    if pos == 0 {
      FirstFits(Count(s[..i]), Value64(s[..i]), |done|, Number(done), v);
      FirstHolds(s, i, done, Count(s[..i]), Value64(s[..i]), v);
      DecodesFrom(s, i + 1, k, done, 1, v, 0);
    } else {
      var next := AfterDigit(pos, left, v);
      NextFits(Count(s[..i]), Value64(s[..i]), |done|, Number(done), pos, left, v);
      NextHolds(s, i, done, Count(s[..i]), Value64(s[..i]), Number(done), next.byte, next.pos, next.left, v);
      DecodesFrom(s, i + 1, k, done + [next.byte], next.pos, next.left, 0);
      Regroup(s, k, done, next.byte, Decode64(s[i + 1..], next.pos, next.left, 0));
    }
  }

  lemma HoldsThen(s: string, i: nat, done: seq<Byte>, pos: nat, left: nat, count: nat, value: nat, n: nat)
    requires i <= |s| && count == Count(s[..i]) && value == Value64(s[..i]) && n == Number(done) && Trailing(s[..i]) == 0
    requires Fits(count, value, |done|, n, pos, left)
    ensures Holds(s, i, done, pos, left, 0)
  {}

  lemma FirstHolds(s: string, i: nat, done: seq<Byte>, count: nat, value: nat, v: nat)
    requires i < |s| && IsDigit(s[i]) && v == DigitOf(s[i]) && count == Count(s[..i]) && value == Value64(s[..i])
    requires Fits(count + 1, value * 64 + v, |done|, Number(done), 1, v)
    ensures Holds(s, i + 1, done, 1, v, 0)
  {
    OneMore(s, i);
    HoldsThen(s, i + 1, done, 1, v, count + 1, value * 64 + v, Number(done));
  }

  lemma NextHolds(s: string, i: nat, done: seq<Byte>, count: nat, value: nat, n: nat, byte: nat, pos: nat, left: nat, v: nat)
    requires i < |s| && IsDigit(s[i]) && v == DigitOf(s[i]) && count == Count(s[..i]) && value == Value64(s[..i])
    requires n == Number(done) && byte < 256 && Fits(count + 1, value * 64 + v, |done| + 1, n * 256 + byte, pos, left)
    ensures Holds(s, i + 1, done + [byte], pos, left, 0)
  {
    OneMore(s, i);
    NumberGrows(done, byte);
    HoldsThen(s, i + 1, done + [byte], pos, left, count + 1, value * 64 + v, n * 256 + byte);
  }

  lemma FirstFits(count: nat, value: nat, size: nat, n: nat, v: nat)
    requires Fits(count, value, size, n, 0, 0) && v < 64
    ensures Fits(count + 1, value * 64 + v, size, n, 1, v)
  {
    OctetsGrow(count);
  }

  lemma NextFits(count: nat, value: nat, size: nat, n: nat, pos: nat, left: nat, v: nat)
    requires Fits(count, value, size, n, pos, left) && pos > 0 && v < 64
    ensures var next := AfterDigit(pos, left, v);
      Fits(count + 1, value * 64 + v, size + 1, n * 256 + next.byte as nat, next.pos, next.left)
  {
    OctetsGrow(count);
    ValueGrows(n, pos, left, v);
  }

  lemma ValueGrows(n: nat, pos: nat, left: nat, v: nat)
    requires Quad(pos, left) && pos > 0 && v < 64
    ensures var next := AfterDigit(pos, left, v);
      WithBits(n, pos, left) * 64 + v == WithBits(n * 256 + next.byte as nat, next.pos, next.left)
  {
    if pos == 1 {
      Second(n, left, v);
    } else if pos == 2 {
      Third(n, left, v);
    }
  }

  lemma Regroup(s: string, k: nat, done: seq<Byte>, b: Byte, r: Option<seq<Byte>>)
    requires k <= |s| && Reads(s, k, done + [b], r)
    ensures Reads(s, k, done, Before(b, r))
  {
    if r.Some? {
      assert (done + [b]) + r.value == done + ([b] + r.value);
    }
  }

  /** A text is decoded exactly when a padding character completes its last group or it ends between
      groups.  The bytes are, as one number of as many bytes as the digits fill, the digits before that
      end, without the last bits that fill none; characters outside the alphabets are skipped. */
  lemma DecodingIff(s: string, k: nat)
    requires EndsAt(s, k)
    ensures var r, count := Decode64(s, 0, 0, 0), Count(s[..k]);
      && (r.Some? <==> k < |s| || count % 4 == 0)
      && (r.Some? ==> |r.value| == Octets(count) && Number(r.value) == WholeBytes(Value64(s[..k]), count % 4))
  {
    DecodesFrom(s, 0, k, [], 0, 0, 0);
    assert s[0..] == s;
    var r := Decode64(s, 0, 0, 0);
    if r.Some? {
      assert [] + r.value == r.value;
    }
  }

  /** Bytes are determined by how many they are and by their number. */
  lemma {:induction false} NumbersAreInjective(a: seq<Byte>, b: seq<Byte>)
    requires |a| == |b| && Number(a) == Number(b)
    ensures a == b
  {
    if a != [] {
      var last := |a| - 1;
      LastIsFixed(Number(a[..last]), a[last], Number(b[..last]), b[last]);
      NumbersAreInjective(a[..last], b[..last]);
      assert a == a[..last] + [a[last]] && b == b[..last] + [b[last]];
    }
  }

  lemma LastIsFixed(m: nat, x: nat, n: nat, y: nat)
    requires x < 256 && y < 256 && m * 256 + x == n * 256 + y
    ensures m == n && x == y
  {}

  // ----- unpadded texts ---------------------------------------------------------------------------

  ghost predicate AllDigits(s: string) {
    forall i :: 0 <= i < |s| ==> IsDigit(s[i]) && s[i] < 128 as char
  }

  lemma {:induction false} CountOfDigits(s: string)
    requires AllDigits(s)
    ensures Count(s) == |s| && Trailing(s) == 0
  {
    if s != "" {
      assert IsDigit(s[|s| - 1]);
      CountOfDigits(s[..|s| - 1]);
    }
  }

  lemma OnePad(s: string)
    ensures Count(s + "=") == Count(s) && Trailing(s + "=") == Trailing(s) + 1 && Value64(s + "=") == Value64(s)
  {
    assert (s + "=")[..|s|] == s;
  }

  lemma MorePadding(s: string, n: nat)
    requires 0 < n < 4
    ensures s + Padding(n) == (s + Padding(n - 1)) + "="
  {}

  lemma {:induction false} CountOfPadded(s: string, n: nat)
    requires AllDigits(s) && n < 4
    ensures Count(s + Padding(n)) == |s| && Trailing(s + Padding(n)) == n && Value64(s + Padding(n)) == Value64(s)
    decreases n
  {
    if n == 0 {
      assert s + "" == s;
      CountOfDigits(s);
    } else {
      CountOfPadded(s, n - 1);
      MorePadding(s, n);
      OnePad(s + Padding(n - 1));
    }
  }

  lemma PrefixOfPadding(n: nat, m: nat)
    requires m <= n < 4
    ensures |Padding(n)| == n && Padding(n)[..m] == Padding(m)
  {}

  lemma PrefixOfPadded(s: string, n: nat, i: nat)
    requires AllDigits(s) && n < 4 && |s| <= i <= |s| + n && |Padding(n)| == n
    ensures var t := (s + Padding(n))[..i]; Count(t) == |s| && Trailing(t) == i - |s| && Value64(t) == Value64(s)
  {
    PrefixOfPadding(n, i - |s|);
    assert (s + Padding(n))[..i] == s + Padding(i - |s|);
    CountOfPadded(s, i - |s|);
  }

  /** Behind a text of digits, padding ends the reading where it completes the last group. */
  lemma ClosesPadded(s: string, n: nat, i: nat)
    requires AllDigits(s) && n < 4 && i < |s| + n && |Padding(n)| == n
    ensures Closes(s + Padding(n), i) <==> i >= |s| && |s| % 4 >= 2 && |s| % 4 + (i - |s|) + 1 >= 4
  {
    var t := s + Padding(n);
    if i < |s| {
      assert t[i] == s[i] && IsDigit(s[i]);
    } else {
      PrefixOfPadded(s, n, i);
      assert t[i] == Padding(n)[i - |s|] == '=';
    }
  }

  /** Where a text of digits ends once it is padded to whole groups. */
  function PaddedEnd(size: nat): nat {
    if size % 4 == 2 then size + 1 else if size % 4 == 1 then size + 3 else size
  }

  lemma PaddedEnds(s: string, n: nat)
    requires AllDigits(s) && n == -|s| % 4
    ensures var t, k := s + Padding(n), PaddedEnd(|s|);
      EndsAt(t, k) && Count(t[..k]) == |s| && Value64(t[..k]) == Value64(s) && (k < |t| <==> |s| % 4 >= 2)
  {
    var t, k := s + Padding(n), PaddedEnd(|s|);
    PadsTo(|s|, n);
    PrefixOfPadding(n, 0);
    PrefixOfPadded(s, n, k);
    forall i | 0 <= i < |t| ensures Closes(t, i) <==> i >= |s| && |s| % 4 >= 2 && |s| % 4 + (i - |s|) + 1 >= 4 {
      ClosesPadded(s, n, i);
    }
  }

  lemma PadsTo(size: int, n: nat)
    requires size >= 0 && n == -size % 4
    ensures n == if size % 4 == 0 then 0 else 4 - size % 4
  {
    var q, r := size / 4, size % 4;
    assert -size == -4 * q - r;
  }

  /** A text of digits decodes unless its last group has just one, and to the bytes those digits make. */
  lemma UrlDecodesIff(s: string)
    requires AllDigits(s)
    ensures B64UrlDecode(s).Some? <==> |s| % 4 != 1
    ensures var r := B64UrlDecode(s); r.Some? ==> |r.value| == Octets(|s|) && Number(r.value) == WholeBytes(Value64(s), |s| % 4)
  {
    var t, k := s + Padding(-|s| % 4), PaddedEnd(|s|);
    DigitsAreAscii(s);
    assert B64UrlDecode(s) == Decode64(t, 0, 0, 0);
    PaddedEnds(s, -|s| % 4);
    DecodingIff(t, k);
  }

  lemma DigitsAreAscii(s: string)
    requires AllDigits(s)
    ensures IsAscii(s)
  {}
}
