/** The idempotency keys as the strings the center stores, and why structured keys may stand for them. */
module Keys {
  import opened Rows

  function Digit(d: nat): char
    requires d < 10
  {
    "0123456789"[d]
  }

  /** The decimal numeral of a row id. */
  function Decimal(n: nat): string {
    if n < 10 then [Digit(n)] else Decimal(n / 10) + [Digit(n % 10)]
  }

  function Tagged(prefix: string, fileId: nat, rest: string): string {
    prefix + (Decimal(fileId + 1) + (":" + rest))
  }

  const REGISTER_PREFIX: string := "file-register:"
  const PARSE_PREFIX: string := "file-parse:"
  const EMBED_PREFIX: string := "file-embed:"
  const REPAIR_PREFIX: string := "replica-repair:"

  /** The stored key; the row at index i has id i + 1. */
  function Render(key: TaskKey): string {
    match key
    case FileRegister(f, hash) => Tagged(REGISTER_PREFIX, f, hash)
    case FileParse(f, hash) => Tagged(PARSE_PREFIX, f, hash)
    case FileEmbed(f, hash) => Tagged(EMBED_PREFIX, f, hash)
    case ReplicaRepair(f, hash, node) => Tagged(REPAIR_PREFIX, f, hash + (":" + node))
    case ClientTask(name) => name
  }

  predicate HasPrefix(s: string, prefix: string) {
    prefix <= s
  }

  /** A client key that keeps out of the reserved names. */
  predicate Unreserved(name: string) {
    !HasPrefix(name, REGISTER_PREFIX) && !HasPrefix(name, PARSE_PREFIX) && !HasPrefix(name, EMBED_PREFIX) && !HasPrefix(name, REPAIR_PREFIX)
  }

  lemma DecimalHasNoColon(n: nat)
    ensures ':' !in Decimal(n) && Decimal(n) != ""
  {}

  lemma DigitIsInjective(a: nat, b: nat)
    requires a < 10 && b < 10 && Digit(a) == Digit(b)
    ensures a == b
  {}

  lemma {:induction false} DecimalIsInjective(a: nat, b: nat)
    requires Decimal(a) == Decimal(b)
    ensures a == b
    decreases a
  {
    DecimalHasNoColon(a / 10);
    DecimalHasNoColon(b / 10);
    var s, t := Decimal(a), Decimal(b);
    assert s[|s| - 1] == Digit(a % 10) && t[|t| - 1] == Digit(b % 10);
    DigitIsInjective(a % 10, b % 10);
    OneDigit(a);
    OneDigit(b);
    if a >= 10 && b >= 10 {
      assert s[..|s| - 1] == Decimal(a / 10) && t[..|t| - 1] == Decimal(b / 10);
      DecimalIsInjective(a / 10, b / 10);
    }
  }

  lemma OneDigit(n: nat)
    ensures |Decimal(n)| == 1 <==> n < 10
  {
    DecimalHasNoColon(n / 10);
  }

  /** The first colon splits a string in only one way. */
  lemma FirstColon(a: string, x: string, b: string, y: string)
    requires ':' !in a && ':' !in b && a + (":" + x) == b + (":" + y)
    ensures a == b && x == y
  {
    var s := a + (":" + x);
    assert s[|a|] == ':' && s[|b|] == ':';
    assert forall i :: 0 <= i < |a| ==> s[i] == a[i] && a[i] in a;
    assert forall i :: 0 <= i < |b| ==> s[i] == b[i] && b[i] in b;
    assert a == s[..|a|] && b == s[..|b|];
    assert x == s[|a| + 1..] && y == s[|b| + 1..];
  }

  lemma TaggedIsInjective(prefix: string, f: nat, x: string, g: nat, y: string)
    requires Tagged(prefix, f, x) == Tagged(prefix, g, y)
    ensures f == g && x == y
  {
    assert Tagged(prefix, f, x)[|prefix|..] == Decimal(f + 1) + (":" + x);
    assert Tagged(prefix, g, y)[|prefix|..] == Decimal(g + 1) + (":" + y);
    DecimalHasNoColon(f + 1);
    DecimalHasNoColon(g + 1);
    FirstColon(Decimal(f + 1), x, Decimal(g + 1), y);
    DecimalIsInjective(f + 1, g + 1);
  }

  function PrefixOf(key: TaskKey): string
    requires !key.ClientTask?
  {
    match key
    case FileRegister(_, _) => REGISTER_PREFIX
    case FileParse(_, _) => PARSE_PREFIX
    case FileEmbed(_, _) => EMBED_PREFIX
    case ReplicaRepair(_, _, _) => REPAIR_PREFIX
  }

  lemma PrefixesDiffer(k: TaskKey, l: TaskKey)
    requires !k.ClientTask? && !l.ClientTask? && PrefixOf(k) != PrefixOf(l)
    ensures Render(k) != Render(l)
  {
    var s, t := Render(k), Render(l);
    assert s[..|PrefixOf(k)|] == PrefixOf(k) && t[..|PrefixOf(l)|] == PrefixOf(l);
    assert REGISTER_PREFIX[0] == 'f' && PARSE_PREFIX[0] == 'f' && EMBED_PREFIX[0] == 'f' && REPAIR_PREFIX[0] == 'r';
    assert REGISTER_PREFIX[5] == 'r' && PARSE_PREFIX[5] == 'p' && EMBED_PREFIX[5] == 'e';
    assert s[0] == PrefixOf(k)[0] && s[5] == PrefixOf(k)[5] && t[0] == PrefixOf(l)[0] && t[5] == PrefixOf(l)[5];
  }

  /** Whether a key is one the center or a well-behaved client writes: file hashes are those of the records. */
  ghost predicate Regular(key: TaskKey, hashOf: nat -> string) {
    match key
    case ClientTask(name) => Unreserved(name)
    case _ => key.fileHash == hashOf(key.fileId)
  }

  /** Stored keys are equal only for equal keys.  A hash may itself contain colons, but the decimal
      id before it ends at the first colon and fixes the hash, so the node is what is left. */
  lemma StoredKeysAreInjective(k: TaskKey, l: TaskKey, hashOf: nat -> string)
    requires Regular(k, hashOf) && Regular(l, hashOf) && Render(k) == Render(l)
    ensures k == l
  {
    if k.ClientTask? && l.ClientTask? {
    } else if k.ClientTask? {
      ReservedIsNotClient(l, k.name);
    } else if l.ClientTask? {
      ReservedIsNotClient(k, l.name);
    } else if PrefixOf(k) != PrefixOf(l) {
      PrefixesDiffer(k, l);
    } else {
      PrefixFixesKind(k, l);
      RestIsInjective(k, l);
      if k.ReplicaRepair? {
        assert k.node == Rest(k)[|k.fileHash| + 1..] && l.node == Rest(l)[|l.fileHash| + 1..];
      }
    }
  }

  lemma ReservedIsNotClient(k: TaskKey, name: string)
    requires !k.ClientTask? && Unreserved(name)
    ensures Render(k) != name
  {
    assert HasPrefix(Render(k), PrefixOf(k));
  }

  lemma PrefixFixesKind(k: TaskKey, l: TaskKey)
    requires !k.ClientTask? && !l.ClientTask? && PrefixOf(k) == PrefixOf(l)
    ensures k.FileRegister? == l.FileRegister? && k.FileParse? == l.FileParse? && k.FileEmbed? == l.FileEmbed?
  {
    assert REGISTER_PREFIX[5] == 'r' && PARSE_PREFIX[5] == 'p' && EMBED_PREFIX[5] == 'e' && REPAIR_PREFIX[5] == 'c';
    assert PrefixOf(k)[5] == PrefixOf(l)[5];
  }

  function Rest(key: TaskKey): string
    requires !key.ClientTask?
  {
    if key.ReplicaRepair? then key.fileHash + (":" + key.node) else key.fileHash
  }

  lemma RestIsInjective(k: TaskKey, l: TaskKey)
    requires !k.ClientTask? && !l.ClientTask? && PrefixOf(k) == PrefixOf(l) && Render(k) == Render(l)
    ensures k.fileId == l.fileId && Rest(k) == Rest(l)
  {
    TaggedIsInjective(PrefixOf(k), k.fileId, Rest(k), l.fileId, Rest(l));
  }

  /** A numeral read back, digit by digit. */
  function Read(s: string): int {
    if s == "" then 0 else Read(s[..|s| - 1]) * 10 + (s[|s| - 1] as int - '0' as int)
  }

  /** Numerals are decimal: digits, without a leading zero, that make the number. */
  lemma {:induction false} DecimalIsRead(n: nat)
    ensures Read(Decimal(n)) == n && |Decimal(n)| > 0
    ensures forall i :: 0 <= i < |Decimal(n)| ==> '0' <= Decimal(n)[i] <= '9'
    ensures n > 0 ==> Decimal(n)[0] != '0'
  {
    var s := Decimal(n);
    if n >= 10 {
      DecimalIsRead(n / 10);
      assert s[..|s| - 1] == Decimal(n / 10);
    } else {
      assert s[..0] == "" && Read("") == 0;
    }
  }

  /** The stored keys of the record with row id `id`. */
  lemma KeysAreWritten(id: nat, hash: string, node: string) returns (numeral: string)
    requires id > 0
    ensures Read(numeral) == id && numeral != "" && numeral[0] != '0' && forall i :: 0 <= i < |numeral| ==> '0' <= numeral[i] <= '9'
    ensures
      && Render(FileRegister(id - 1, hash)) == "file-register:" + numeral + ":" + hash
      && Render(FileParse(id - 1, hash)) == "file-parse:" + numeral + ":" + hash
      && Render(FileEmbed(id - 1, hash)) == "file-embed:" + numeral + ":" + hash
      && Render(ReplicaRepair(id - 1, hash, node)) == "replica-repair:" + numeral + ":" + hash + ":" + node
  {
    numeral := Decimal(id);
    DecimalIsRead(id);
    Reassociated("file-register:", numeral, hash);
    Reassociated("file-parse:", numeral, hash);
    Reassociated("file-embed:", numeral, hash);
    Reassociated("replica-repair:", numeral, hash + (":" + node));
    assert "replica-repair:" + numeral + ":" + (hash + (":" + node)) == "replica-repair:" + numeral + ":" + hash + ":" + node;
  }

  lemma Reassociated(prefix: string, numeral: string, rest: string)
    ensures prefix + (numeral + (":" + rest)) == prefix + numeral + ":" + rest
  {}
}
