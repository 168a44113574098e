/** The unpadded encoding as numbers: section 5 of RFC 4648 writes each group of bytes in base 64. */
module Alphabet {
  import opened Tokens

  /** The digits 0 to 63 in their order. */
  const ALPHABET: string := "ABCDEFGHIJKLMNOPQRSTUVWXYZ" + "abcdefghijklmnopqrstuvwxyz" + "0123456789-_"

  lemma DigitsInOrder(v: nat)
    requires v < 64
    ensures |ALPHABET| == 64 && ALPHABET[v] == Char(v)
  {
    var upper, lower, rest := "ABCDEFGHIJKLMNOPQRSTUVWXYZ", "abcdefghijklmnopqrstuvwxyz", "0123456789-_";
    assert |upper| == 26 && |lower| == 26 && |rest| == 12;
    if v < 26 {
      assert ALPHABET[v] == upper[v];
    } else if v < 52 {
      assert ALPHABET[v] == lower[v - 26];
    } else {
      assert ALPHABET[v] == rest[v - 52];
    }
  }

  /** The digits of `n` in base 64, as many as asked for, the most significant first. */
  ghost function Digits(n: nat, count: nat): (s: string)
    ensures |s| == count
  {
    DigitsInOrder(n % 64);
    if count == 0 then "" else Digits(n / 64, count - 1) + [ALPHABET[n % 64]]
  }

  lemma OneMoreDigit(m: nat, v: nat, n: nat, count: nat)
    requires v < 64 && n == m * 64 + v
    ensures Digits(n, count + 1) == Digits(m, count) + [Char(v)]
  {
    DigitsInOrder(v);
    assert n % 64 == v && n / 64 == m;
  }

  lemma TwoDigits(x: nat, y: nat, n: nat)
    requires x < 64 && y < 64 && n == x * 64 + y
    ensures Digits(n, 2) == [Char(x), Char(y)]
  {
    OneMoreDigit(0, x, x, 0);
    OneMoreDigit(x, y, n, 1);
  }

  lemma ThreeDigits(x: nat, y: nat, z: nat, n: nat)
    requires x < 64 && y < 64 && z < 64 && n == (x * 64 + y) * 64 + z
    ensures Digits(n, 3) == [Char(x), Char(y), Char(z)]
  {
    var m := x * 64 + y;
    TwoDigits(x, y, m);
    OneMoreDigit(m, z, n, 2);
  }

  lemma FourDigits(w: nat, x: nat, y: nat, z: nat, n: nat)
    requires w < 64 && x < 64 && y < 64 && z < 64 && n == ((w * 64 + x) * 64 + y) * 64 + z
    ensures Digits(n, 4) == [Char(w), Char(x), Char(y), Char(z)]
  {
    var m := (w * 64 + x) * 64 + y;
    ThreeDigits(w, x, y, m);
    OneMoreDigit(m, z, n, 3);
  }

  /** Bytes as one number, the first the most significant. */
  function Number(data: seq<Byte>): nat {
    if data == [] then 0 else Number(data[..|data| - 1]) * 256 + data[|data| - 1] as nat
  }

  lemma NumberOfOne(a: nat)
    requires a < 256
    ensures Number([a]) == a
  {
    assert [a][..0] == [];
  }

  lemma NumberOfTwo(a: nat, b: nat)
    requires a < 256 && b < 256
    ensures Number([a, b]) == a * 256 + b
  {
    NumberOfOne(a);
    assert [a, b][..1] == [a];
  }

  lemma NumberOfThree(a: nat, b: nat, c: nat)
    requires a < 256 && b < 256 && c < 256
    ensures Number([a, b, c]) == (a * 256 + b) * 256 + c
  {
    NumberOfTwo(a, b);
    assert [a, b, c][..2] == [a, b];
  }

  lemma SameBits(a: nat, b: nat, c: nat)
    requires a < 256 && b < 256 && c < 256
    ensures (((a / 4) * 64 + (a % 4 * 16 + b / 16)) * 64 + (b % 16 * 4 + c / 64)) * 64 + c % 64 == (a * 256 + b) * 256 + c
  {}

  lemma LastOne(a: nat)
    requires a < 256
    ensures Unpadded([a]) == Digits(Number([a]) * 16, 2)
  {
    NumberOfOne(a);
    TwoDigits(a / 4, a % 4 * 16, a * 16);
  }

  lemma LastTwo(a: nat, b: nat)
    requires a < 256 && b < 256
    ensures Unpadded([a, b]) == Digits(Number([a, b]) * 4, 3)
  {
    NumberOfTwo(a, b);
    ThreeDigits(a / 4, a % 4 * 16 + b / 16, b % 16 * 4, (a * 256 + b) * 4);
  }

  lemma ThreeBytes(a: nat, b: nat, c: nat)
    requires a < 256 && b < 256 && c < 256
    ensures Unpadded([a, b, c]) == Digits(Number([a, b, c]), 4)
  {
    NumberOfThree(a, b, c);
    SameBits(a, b, c);
    FourDigits(a / 4, a % 4 * 16 + b / 16, b % 16 * 4 + c / 64, c % 64, (a * 256 + b) * 256 + c);
    assert [a, b, c][3..] == [];
  }

  lemma OneGroup(data: seq<Byte>)
    requires |data| >= 3
    ensures Unpadded(data) == Unpadded(data[..3]) + Unpadded(data[3..])
  {
    var group := data[..3];
    assert group[3..] == [] && group[0] == data[0] && group[1] == data[1] && group[2] == data[2];
  }

  /** The encoding by numbers: every three bytes are written as the number they make, in four digits,
      and a last one or two bytes with zero bits filled in, in two or three. */
  ghost function Written(data: seq<Byte>): string {
    if data == [] then ""
    else if |data| == 1 then Digits(Number(data) * 16, 2)
    else if |data| == 2 then Digits(Number(data) * 4, 3)
    else Digits(Number(data[..3]), 4) + Written(data[3..])
  }

  lemma {:induction false} UnpaddedIsWritten(data: seq<Byte>)
    ensures Unpadded(data) == Written(data)
    decreases |data|
  {
    if |data| == 1 {
      LastOne(data[0]);
      assert data == [data[0]];
    } else if |data| == 2 {
      LastTwo(data[0], data[1]);
      assert data == [data[0], data[1]];
    } else if |data| >= 3 {
      OneGroup(data);
      ThreeBytes(data[0], data[1], data[2]);
      assert data[..3] == [data[0], data[1], data[2]];
      UnpaddedIsWritten(data[3..]);
    }
  }

  /** Every byte string is written in base 64 with the digits of the alphabet. */
  lemma EncodingIsBase64(data: seq<Byte>)
    ensures B64Url(data) == Written(data)
  {
    UrlIsUnpadded(data);
    UnpaddedIsWritten(data);
  }
}
