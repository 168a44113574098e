/**
 Signed tokens: unpadded base64url (section 5 of RFC 4648), three parts joined by dots
 (Appendix C of RFC 7515), and verification against the clock.  JSON and HMAC are given functions.
 Decoding is the lenient base64 state machine of Python's standard library.
 */
module Tokens {
  import opened Wrappers
  import opened Splitting

  type Byte = b: nat | b < 256

  // ----- base64url ---------------------------------------------------------------------------

  function Char(v: nat): char
    requires v < 64
  {
    if v < 26 then 'A' + v as char
    else if v < 52 then 'a' + (v - 26) as char
    else if v < 62 then '0' + (v - 52) as char
    else if v == 62 then '-' else '_'
  }

  function Value(c: char): (r: Option<nat>)
    ensures r.Some? ==> r.value < 64
  {
    if 'A' <= c <= 'Z' then Some(c as nat - 'A' as nat)
    else if 'a' <= c <= 'z' then Some(c as nat - 'a' as nat + 26)
    else if '0' <= c <= '9' then Some(c as nat - '0' as nat + 52)
    else if c == '-' || c == '+' then Some(62)
    else if c == '_' || c == '/' then Some(63)
    else None
  }

  /** The padded encoding, three bytes to four characters. */
  function Encode64(data: seq<Byte>): string {
    if data == [] then ""
    else if |data| == 1 then
      [Char(data[0] / 4), Char(data[0] % 4 * 16), '=', '=']
    else if |data| == 2 then
      [Char(data[0] / 4), Char(data[0] % 4 * 16 + data[1] / 16), Char(data[1] % 16 * 4), '=']
    else
      [Char(data[0] / 4), Char(data[0] % 4 * 16 + data[1] / 16), Char(data[1] % 16 * 4 + data[2] / 64), Char(data[2] % 64)]
        + Encode64(data[3..])
  }

  function StripPadding(s: string): string {
    if s != "" && s[|s| - 1] == '=' then StripPadding(s[..|s| - 1]) else s
  }

  function B64Url(data: seq<Byte>): string {
    StripPadding(Encode64(data))
  }

  /** Where the decoder is inside a group of four, with the bits it has not output yet. */
  predicate Quad(pos: nat, left: nat) {
    (pos == 0 && left == 0) || (pos == 1 && left < 64) || (pos == 2 && left < 16) || (pos == 3 && left < 4)
  }

  function Before(b: Byte, rest: Option<seq<Byte>>): Option<seq<Byte>> {
    if rest.Some? then Some([b] + rest.value) else None
  }

  /** Characters outside the alphabet are skipped; enough padding ends the input. */
  function Decode64(s: string, pos: nat, left: nat, pads: nat): Option<seq<Byte>>
    requires Quad(pos, left)
    decreases |s|
  {
    if s == "" then (if pos == 0 then Some([]) else None)
    else if s[0] == '=' then
      (if pos >= 2 && pos + pads + 1 >= 4 then Some([]) else Decode64(s[1..], pos, left, if pos >= 2 then pads + 1 else pads))
    else if Value(s[0]).None? then Decode64(s[1..], pos, left, pads)
    else
      var v := Value(s[0]).value;
      if pos == 0 then Decode64(s[1..], 1, v, 0)
      else if pos == 1 then Before(left * 4 + v / 16, Decode64(s[1..], 2, v % 16, 0))
      else if pos == 2 then Before(left * 16 + v / 4, Decode64(s[1..], 3, v % 4, 0))
      else Before(left * 64 + v, Decode64(s[1..], 0, 0, 0))
  }

  predicate IsAscii(s: string) {
    forall c :: c in s ==> c < 128 as char
  }

  function Padding(n: nat): string
    requires n < 4
  {
    ["", "=", "==", "==="][n]
  }

  function B64UrlDecode(value: string): Option<seq<Byte>> {
    if IsAscii(value) then Decode64(value + Padding(-|value| % 4), 0, 0, 0) else None
  }

  // ----- the round trip ----------------------------------------------------------------------------

  lemma CharValue(v: nat)
    requires v < 64
    ensures Value(Char(v)) == Some(v) && Char(v) != '=' && Char(v) != '.' && Char(v) < 128 as char
  {}

  /** The bits of three bytes, regrouped and grouped back. */
  lemma Regrouped(a: Byte, b: Byte, c: Byte)
    ensures var w, x, y, z := a / 4, a % 4 * 16 + b / 16, b % 16 * 4 + c / 64, c % 64;
      && w < 64 && x < 64 && y < 64 && z < 64
      && w * 4 + x / 16 == a && x % 16 * 16 + y / 4 == b && y % 4 * 64 + z == c
  {}

  /** One character of a group. */
  lemma OneChar(v: nat, rest: string, pos: nat, left: nat, pads: nat)
    requires v < 64 && Quad(pos, left)
    ensures Decode64([Char(v)] + rest, pos, left, pads) ==
      if pos == 0 then Decode64(rest, 1, v, 0)
      else if pos == 1 then Before(left * 4 + v / 16, Decode64(rest, 2, v % 16, 0))
      else if pos == 2 then Before(left * 16 + v / 4, Decode64(rest, 3, v % 4, 0))
      else Before(left * 64 + v, Decode64(rest, 0, 0, 0))
  {
    CharValue(v);
    assert ([Char(v)] + rest)[1..] == rest;
  }

  lemma FourSextets(w: nat, x: nat, y: nat, z: nat, rest: string)
    requires w < 64 && x < 64 && y < 64 && z < 64
    ensures Decode64([Char(w), Char(x), Char(y), Char(z)] + rest, 0, 0, 0) ==
      Before(w * 4 + x / 16, Before(x % 16 * 16 + y / 4, Before(y % 4 * 64 + z, Decode64(rest, 0, 0, 0))))
  {
    var s2 := [Char(y), Char(z)] + rest;
    var s1 := [Char(x)] + s2;
    LastTwoSextets(y, z, x % 16, rest);
    OneChar(x, s2, 1, w, 0);
    OneChar(w, s1, 0, 0, 0);
    assert [Char(w), Char(x), Char(y), Char(z)] + rest == [Char(w)] + s1;
  }

  lemma LastTwoSextets(y: nat, z: nat, left: nat, rest: string)
    requires y < 64 && z < 64 && left < 16
    ensures Decode64([Char(y), Char(z)] + rest, 2, left, 0) == Before(left * 16 + y / 4, Before(y % 4 * 64 + z, Decode64(rest, 0, 0, 0)))
  {
    var s3 := [Char(z)] + rest;
    OneChar(z, rest, 3, y % 4, 0);
    OneChar(y, s3, 2, left, 0);
    assert [Char(y), Char(z)] + rest == [Char(y)] + s3;
  }

  /** Four characters that encode three bytes are decoded to them. */
  lemma FourChars(a: Byte, b: Byte, c: Byte, rest: string)
    ensures var s := [Char(a / 4), Char(a % 4 * 16 + b / 16), Char(b % 16 * 4 + c / 64), Char(c % 64)] + rest;
      Decode64(s, 0, 0, 0) == Before(a, Before(b, Before(c, Decode64(rest, 0, 0, 0))))
  {
    Regrouped(a, b, c);
    FourSextets(a / 4, a % 4 * 16 + b / 16, b % 16 * 4 + c / 64, c % 64, rest);
  }

  lemma LastByte(a: Byte)
    ensures Decode64([Char(a / 4), Char(a % 4 * 16), '=', '='], 0, 0, 0) == Some([a])
  {
    var w, x := a / 4, a % 4 * 16;
    Regrouped(a, 0, 0);
    assert ['=', '='][1..] == ['='];
    assert Decode64(['='], 2, 0, 1) == Some([]) && Decode64(['=', '='], 2, 0, 0) == Decode64(['='], 2, 0, 1);
    OneChar(x, ['=', '='], 1, w, 0);
    OneChar(w, [Char(x)] + ['=', '='], 0, 0, 0);
    assert [Char(w)] + ([Char(x)] + ['=', '=']) == [Char(w), Char(x), '=', '='] && [a] + [] == [a];
  }

  lemma LastTwoBytes(a: Byte, b: Byte)
    ensures Decode64([Char(a / 4), Char(a % 4 * 16 + b / 16), Char(b % 16 * 4), '='], 0, 0, 0) == Some([a, b])
  {
    var w, x, y := a / 4, a % 4 * 16 + b / 16, b % 16 * 4;
    Regrouped(a, b, 0);
    OneChar(y, ['='], 2, x % 16, 0);
    assert Decode64(['='], 3, y % 4, 0) == Some([]);
    OneChar(x, [Char(y)] + ['='], 1, w, 0);
    OneChar(w, [Char(x)] + ([Char(y)] + ['=']), 0, 0, 0);
    assert [Char(w)] + ([Char(x)] + ([Char(y)] + ['='])) == [Char(w), Char(x), Char(y), '='];
    assert [b] + [] == [b] && [a] + [b] == [a, b];
  }

  lemma ThreeAndRest(a: Byte, b: Byte, c: Byte, rest: Option<seq<Byte>>)
    ensures Before(a, Before(b, Before(c, rest))) == if rest.Some? then Some([a, b, c] + rest.value) else None
  {
    if rest.Some? {
      assert [a] + ([b] + ([c] + rest.value)) == [a, b, c] + rest.value;
    }
  }

  lemma {:induction false} DecodePadded(data: seq<Byte>)
    ensures Decode64(Encode64(data), 0, 0, 0) == Some(data)
    decreases |data|
  {
    if data == [] {
    } else if |data| == 1 {
      LastByte(data[0]);
      assert data == [data[0]];
    } else if |data| == 2 {
      LastTwoBytes(data[0], data[1]);
      assert data == [data[0], data[1]];
    } else {
      var rest := Encode64(data[3..]);
      DecodePadded(data[3..]);
      FourChars(data[0], data[1], data[2], rest);
      ThreeAndRest(data[0], data[1], data[2], Decode64(rest, 0, 0, 0));
      assert [data[0], data[1], data[2]] + data[3..] == data;
    }
  }

  /** The encoding without its padding, the padding, and the number of groups of four together. */
  function Unpadded(data: seq<Byte>): string {
    if data == [] then ""
    else if |data| == 1 then [Char(data[0] / 4), Char(data[0] % 4 * 16)]
    else if |data| == 2 then [Char(data[0] / 4), Char(data[0] % 4 * 16 + data[1] / 16), Char(data[1] % 16 * 4)]
    else
      [Char(data[0] / 4), Char(data[0] % 4 * 16 + data[1] / 16), Char(data[1] % 16 * 4 + data[2] / 64), Char(data[2] % 64)]
        + Unpadded(data[3..])
  }

  function Pads(data: seq<Byte>): (n: nat)
    ensures n < 3
  {
    if |data| >= 3 then Pads(data[3..]) else if data == [] then 0 else 3 - |data|
  }

  function Quads(data: seq<Byte>): nat {
    if |data| >= 3 then 1 + Quads(data[3..]) else if data == [] then 0 else 1
  }

  predicate IsEncoded(s: string) {
    forall i :: 0 <= i < |s| ==> s[i] != '=' && s[i] != '.' && s[i] < 128 as char
  }

  lemma {:induction false} UnpaddedCount(data: seq<Byte>)
    ensures |Unpadded(data)| + Pads(data) == 4 * Quads(data)
    decreases |data|
  {
    if |data| >= 3 {
      UnpaddedCount(data[3..]);
    }
  }

  lemma {:induction false} UnpaddedChars(data: seq<Byte>)
    ensures IsEncoded(Unpadded(data))
    decreases |data|
  {
    forall v | 0 <= v < 64 ensures Char(v) != '=' && Char(v) != '.' && Char(v) < 128 as char {
      CharValue(v);
    }
    if |data| >= 3 {
      UnpaddedChars(data[3..]);
    }
  }

  lemma {:induction false} PaddingIsAdded(data: seq<Byte>)
    ensures Encode64(data) == Unpadded(data) + Padding(Pads(data))
    decreases |data|
  {
    if |data| >= 3 {
      PaddingIsAdded(data[3..]);
    }
  }

  lemma StripOne(s: string)
    ensures StripPadding(s + "=") == StripPadding(s)
  {
    assert (s + "=")[..|s|] == s;
  }

  lemma StripIsExact(s: string, n: nat)
    requires n <= 3 && IsEncoded(s)
    ensures StripPadding(s + Padding(n)) == s
  {
    assert s + "" == s && StripPadding(s) == s;
    StripOne(s);
    if n >= 2 {
      StripOne(s + "=");
      assert s + "=" + "=" == s + "==";
    }
    if n == 3 {
      StripOne(s + "==");
      assert s + "==" + "=" == s + "===";
    }
  }

  lemma PadCount(value: string, n: nat, quads: nat)
    requires n < 4 && |value| + n == 4 * quads
    ensures Padding(-|value| % 4) == Padding(n)
  {
    assert -|value| == n - 4 * quads;
  }

  lemma UrlIsUnpadded(data: seq<Byte>)
    ensures B64Url(data) == Unpadded(data)
  {
    PaddingIsAdded(data);
    UnpaddedChars(data);
    StripIsExact(Unpadded(data), Pads(data));
  }

  /** Stripping removes exactly the padding, and the length alone tells how much it was. */
  lemma PaddingIsRestored(data: seq<Byte>)
    ensures var value := B64Url(data); IsEncoded(value) && value + Padding(-|value| % 4) == Encode64(data)
  {
    UrlIsUnpadded(data);
    UnpaddedChars(data);
    UnpaddedCount(data);
    PadCount(Unpadded(data), Pads(data), Quads(data));
    PaddingIsAdded(data);
  }

  /** Decoding undoes encoding, for every byte string. */
  lemma DecodeUndoesEncode(data: seq<Byte>)
    ensures B64UrlDecode(B64Url(data)) == Some(data)
  {
    PaddingIsRestored(data);
    DecodePadded(data);
  }

  // ----- tokens --------------------------------------------------------------------------------------

  const ROLES := {"admin", "node", "mobile", "search", "flywheel", "download", "mqtt_bridge"}

  datatype Claims = Claims(sub: string, roles: seq<string>, iat: int, exp: int)

  /** The JSON coder, the encoded header, and HMAC-SHA256 under the signing key. */
  datatype Signer = Signer(dump: Claims -> seq<Byte>, load: seq<Byte> -> Option<Claims>, header: seq<Byte>, mac: string -> seq<Byte>)

  ghost predicate IsCoder(g: Signer) {
    forall c: Claims :: g.load(g.dump(c)) == Some(c)
  }

  function Known(roles: seq<string>): seq<string> {
    if roles == [] then []
    else Known(roles[..|roles| - 1]) + (if roles[|roles| - 1] in ROLES then [roles[|roles| - 1]] else [])
  }

  function SigningInput(g: Signer, c: Claims): string {
    B64Url(g.header) + "." + B64Url(g.dump(c))
  }

  function CreateToken(g: Signer, principal: string, roles: seq<string>, ttl: int, now: int): string {
    var input := SigningInput(g, Claims(principal, Known(roles), now, now + ttl));
    input + "." + B64Url(g.mac(input))
  }

  /** What verification returns; signing a text that is not ASCII raises. */
  function VerifyToken(g: Signer, token: string, now: int): Result<Option<Claims>> {
    var parts := SplitOn(token, '.');
    if |parts| != 3 then Ok(None)
    else
      var input := parts[0] + "." + parts[1];
      if !IsAscii(input) then Raised
      else if B64UrlDecode(parts[2]) != Some(g.mac(input)) then Ok(None)
      else
        var payload := B64UrlDecode(parts[1]);
        if payload.None? || g.load(payload.value).None? then Ok(None)
        else
          var claims := g.load(payload.value).value;
          Ok(if claims.exp < now then None else Some(claims))
  }

  lemma EncodedIsAscii(a: string, b: string)
    requires IsEncoded(a) && IsEncoded(b)
    ensures IsAscii(a + "." + b) && '.' !in a && '.' !in b
  {
    forall c | c in a + "." + b ensures c < 128 as char {
      assert c in a || c == '.' || c in b;
    }
  }

  /** A created token splits into exactly the three parts it was made of. */
  lemma TokenHasThreeParts(g: Signer, principal: string, roles: seq<string>, ttl: int, now: int)
    ensures var claims := Claims(principal, Known(roles), now, now + ttl);
      SplitOn(CreateToken(g, principal, roles, ttl, now), '.')
        == [B64Url(g.header), B64Url(g.dump(claims)), B64Url(g.mac(SigningInput(g, claims)))]
  {
    var claims := Claims(principal, Known(roles), now, now + ttl);
    var a, b, d := B64Url(g.header), B64Url(g.dump(claims)), B64Url(g.mac(SigningInput(g, claims)));
    PaddingIsRestored(g.header);
    PaddingIsRestored(g.dump(claims));
    PaddingIsRestored(g.mac(SigningInput(g, claims)));
    EncodedIsAscii(a, b);
    EncodedIsAscii(b, d);
    SplitThree(a, b, d, '.');
    assert CreateToken(g, principal, roles, ttl, now) == a + ['.'] + b + ['.'] + d;
  }

  /** A created token verifies to its claims exactly while the clock has not passed `iat + ttl`. */
  lemma VerifiesWhileItLives(g: Signer, principal: string, roles: seq<string>, ttl: int, iat: int, now: int)
    requires IsCoder(g)
    ensures VerifyToken(g, CreateToken(g, principal, roles, ttl, iat), now) ==
      Ok(if now <= iat + ttl then Some(Claims(principal, Known(roles), iat, iat + ttl)) else None)
  {
    var claims := Claims(principal, Known(roles), iat, iat + ttl);
    TokenHasThreeParts(g, principal, roles, ttl, iat);
    PaddingIsRestored(g.header);
    PaddingIsRestored(g.dump(claims));
    EncodedIsAscii(B64Url(g.header), B64Url(g.dump(claims)));
    DecodeUndoesEncode(g.dump(claims));
    DecodeUndoesEncode(g.mac(SigningInput(g, claims)));
  }

  /** The one way to read a text as three parts. */
  ghost predicate HasParts(token: string, a: string, b: string, d: string) {
    '.' !in a && '.' !in b && '.' !in d && token == a + "." + b + "." + d
  }

  lemma PartsAreUnique(token: string, a: string, b: string, d: string)
    ensures HasParts(token, a, b, d) <==> SplitOn(token, '.') == [a, b, d]
  {
    if HasParts(token, a, b, d) {
      SplitThree(a, b, d, '.');
    }
    if SplitOn(token, '.') == [a, b, d] {
      SplitIsJoined(token, '.');
      JoinThree(a, b, d);
      assert [a, b, d][0] == a && [a, b, d][1] == b && [a, b, d][2] == d;
    }
  }

  lemma JoinThree(a: string, b: string, d: string)
    ensures JoinOn([a, b, d], '.') == a + "." + b + "." + d
  {
    assert [a, b, d][..2] == [a, b] && [a, b][..1] == [a];
    assert JoinOn([a, b], '.') == JoinOn([a], '.') + ['.'] + b == a + "." + b;
    assert JoinOn([a, b, d], '.') == JoinOn([a, b], '.') + ['.'] + d;
  }

  /** What makes a token with these three parts good for `claims`. */
  ghost predicate IsGoodFor(g: Signer, a: string, b: string, d: string, now: int, claims: Claims) {
    && IsAscii(a + "." + b) && B64UrlDecode(d) == Some(g.mac(a + "." + b))
    && B64UrlDecode(b).Some? && g.load(B64UrlDecode(b).value) == Some(claims) && now <= claims.exp
  }

  /** A text is accepted exactly when it has three parts, of which the third is the MAC of the first
      two, the second carries the claims, and these have not expired; it raises exactly when the first
      two of its three parts are not ASCII. */
  lemma AcceptedIff(g: Signer, token: string, now: int, claims: Claims)
    ensures VerifyToken(g, token, now) == Ok(Some(claims)) <==>
      exists a, b, d :: HasParts(token, a, b, d) && IsGoodFor(g, a, b, d, now, claims)
    ensures VerifyToken(g, token, now).Raised? <==> exists a, b, d :: HasParts(token, a, b, d) && !IsAscii(a + "." + b)
  {
    var parts := SplitOn(token, '.');
    if |parts| == 3 {
      var a, b, d := parts[0], parts[1], parts[2];
      assert parts == [a, b, d];
      PartsAreUnique(token, a, b, d);
    }
    forall a, b, d | HasParts(token, a, b, d) ensures parts == [a, b, d] {
      PartsAreUnique(token, a, b, d);
    }
  }

  predicate IsRole(r: string) {
    r == "admin" || r == "node" || r == "mobile" || r == "search" || r == "flywheel" || r == "download" || r == "mqtt_bridge"
  }

  /** Exactly the known roles get into a token, in the order and as often as they were asked for. */
  lemma {:induction false} OnlyKnownRoles(roles: seq<string>)
    ensures forall r :: multiset(Known(roles))[r] == if IsRole(r) then multiset(roles)[r] else 0
  {
    if roles != [] {
      OnlyKnownRoles(roles[..|roles| - 1]);
      assert roles == roles[..|roles| - 1] + [roles[|roles| - 1]];
    }
  }

  /** A signature binds header and payload: an accepted token that carries a created token's
      signature has first two parts with the same MAC as the created token's. */
  lemma SignatureBindsPayload(g: Signer, a: string, b: string, now: int, principal: string, roles: seq<string>, ttl: int, iat: int)
    requires '.' !in a && '.' !in b
    requires var claims := Claims(principal, Known(roles), iat, iat + ttl);
      var v := VerifyToken(g, a + "." + b + "." + B64Url(g.mac(SigningInput(g, claims))), now);
      v.Ok? && v.value.Some?
    ensures g.mac(a + "." + b) == g.mac(SigningInput(g, Claims(principal, Known(roles), iat, iat + ttl)))
  {
    var mac := g.mac(SigningInput(g, Claims(principal, Known(roles), iat, iat + ttl)));
    DecodeUndoesEncode(mac);
    PaddingIsRestored(mac);
    SplitThree(a, b, B64Url(mac), '.');
  }
}
