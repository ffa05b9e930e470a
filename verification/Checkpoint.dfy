/** The hash chain over journal lines, its printed form, and the signed
    checkpoint record. SHA-256 is a parameter `sha`, so that statements about
    tampering can name the colliding inputs instead of assuming there are none. */
module Checkpoints {
  import opened Bytes
  import opened Decimal

  type Digest = d: Bytes | |d| == 32 witness seq(32, _ => 0 as byte)

  type Hash = Bytes -> Digest

  function Ascii(s: string): (b: Bytes)
    ensures |b| == |s|
  {
    seq(|s|, i requires 0 <= i < |s| => (s[i] as int % 256) as byte)
  }

  const SEED: Bytes := Ascii("mcp-devtools/audit-journal/chain/v1")

  function Genesis(sha: Hash): Digest { sha(SEED) }

  function Extend(sha: Hash, chain: Digest, line: Bytes): Digest { sha(chain + line) }

  /** The chain value after every line of `lines`. */
  function ChainOf(sha: Hash, lines: seq<Bytes>): Digest {
    if lines == [] then Genesis(sha)
    else Extend(sha, ChainOf(sha, lines[..|lines| - 1]), lines[|lines| - 1])
  }

  /** The i-th string handed to SHA-256 while the chain over `lines` is computed. */
  function HashInput(sha: Hash, lines: seq<Bytes>, i: nat): Bytes
    requires i <= |lines|
  {
    if i == 0 then SEED else ChainOf(sha, lines[..i - 1]) + lines[i - 1]
  }

  /** Computing the two chains hashes two different strings to one digest. */
  ghost predicate ChainsCollide(sha: Hash, a: seq<Bytes>, b: seq<Bytes>) {
    exists i, j :: 0 <= i <= |a| && 0 <= j <= |b| &&
      HashInput(sha, a, i) != HashInput(sha, b, j) && sha(HashInput(sha, a, i)) == sha(HashInput(sha, b, j))
  }

  lemma HashInputPrefix(sha: Hash, lines: seq<Bytes>, k: nat, i: nat)
    requires i <= k <= |lines|
    ensures HashInput(sha, lines[..k], i) == HashInput(sha, lines, i)
  {
    if i > 0 { assert lines[..k][..i - 1] == lines[..i - 1]; }
  }

  lemma CollidePrefix(sha: Hash, a: seq<Bytes>, b: seq<Bytes>, m: nat, n: nat)
    requires m <= |a| && n <= |b| && ChainsCollide(sha, a[..m], b[..n])
    ensures ChainsCollide(sha, a, b)
  {
    var i, j :| 0 <= i <= m && 0 <= j <= n &&
      HashInput(sha, a[..m], i) != HashInput(sha, b[..n], j) &&
      sha(HashInput(sha, a[..m], i)) == sha(HashInput(sha, b[..n], j));
    HashInputPrefix(sha, a, m, i);
    HashInputPrefix(sha, b, n, j);
  }

  lemma Collision(sha: Hash, a: seq<Bytes>, b: seq<Bytes>)
    requires ChainOf(sha, a) == ChainOf(sha, b)
    requires HashInput(sha, a, |a|) != HashInput(sha, b, |b|)
    ensures ChainsCollide(sha, a, b)
  {
    assert ChainOf(sha, a) == sha(HashInput(sha, a, |a|));
    assert ChainOf(sha, b) == sha(HashInput(sha, b, |b|));
  }

  lemma SameParts(c: Digest, a: Bytes, d: Digest, b: Bytes)
    requires c + a == d + b
    ensures c == d && a == b
  {
    assert c == (c + a)[..32] && d == (d + b)[..32];
    assert a == (c + a)[32..] && b == (d + b)[32..];
  }

  lemma LastInputs(sha: Hash, lines: seq<Bytes>)
    requires AllLines(lines)
    ensures var x := HashInput(sha, lines, |lines|); |x| > 0 && (x[|x| - 1] == NL <==> lines != [])
  {
    assert SEED[|SEED| - 1] != NL;
  }

  /** One chain value binds the whole history: two line sequences with the same
      chain value are the same sequence, unless computing the two chains
      exhibits a SHA-256 collision. Their lengths need not be known. */
  lemma {:induction false} ChainBinds(sha: Hash, a: seq<Bytes>, b: seq<Bytes>)
    requires AllLines(a) && AllLines(b) && ChainOf(sha, a) == ChainOf(sha, b)
    ensures a == b || ChainsCollide(sha, a, b)
    decreases |a|
  {
    hide ChainsCollide, IsLine, ChainOf;
    LastInputs(sha, a);
    LastInputs(sha, b);
    if HashInput(sha, a, |a|) != HashInput(sha, b, |b|) {
      Collision(sha, a, b);
    } else if a != [] {
      var m, n := |a| - 1, |b| - 1;
      SameParts(ChainOf(sha, a[..m]), a[m], ChainOf(sha, b[..n]), b[n]);
      ChainBinds(sha, a[..m], b[..n]);
      if a[..m] == b[..n] {
        assert a == a[..m] + [a[m]] && b == b[..n] + [b[n]];
      } else {
        CollidePrefix(sha, a, b, m, n);
      }
    }
  }

  // ---- Printed chain values -------------------------------------------------

  const LABEL_PREFIX: Bytes := Ascii("sha256:")

  function HexDigit(n: nat): byte
    requires n < 16
  {
    if n < 10 then (48 + n) as byte else (87 + n) as byte
  }

  function HexValue(b: byte): Option<nat> {
    if 48 <= b <= 57 then Some(b as int - 48)
    else if 97 <= b <= 102 then Some(b as int - 87)
    else if 65 <= b <= 70 then Some(b as int - 55)
    else None
  }

  /** `u8::from_str_radix(_, 16)` on two characters; it allows a leading `+`. */
  function HexPair(a: byte, b: byte): Option<byte> {
    match (HexValue(a), HexValue(b))
    case (Some(x), Some(y)) => Some((16 * x + y) as byte)
    case (None, Some(y)) => if a == 43 then Some(y as byte) else None
    case _ => None
  }

  function Hex(bytes: Bytes): (h: Bytes)
    ensures |h| == 2 * |bytes|
  {
    seq(2 * |bytes|, i requires 0 <= i < 2 * |bytes| =>
      if i % 2 == 0 then HexDigit(bytes[i / 2] as int / 16) else HexDigit(bytes[i / 2] as int % 16))
  }

  function Label(chain: Digest): Bytes { LABEL_PREFIX + Hex(chain) }

  /** `Chain::label`. */
  method PrintLabel(chain: Digest) returns (text: Bytes)
    ensures text == Label(chain) && |text| == 71
  {
    text := LABEL_PREFIX;
    for i := 0 to |chain|
      invariant text == LABEL_PREFIX + Hex(chain[..i])
    {
      text := text + [HexDigit(chain[i] as int / 16), HexDigit(chain[i] as int % 16)];
      assert Hex(chain[..i + 1]) == Hex(chain[..i]) + text[|text| - 2..];
    }
    assert chain[..|chain|] == chain;
  }

  /** What the parser reads a label as. */
  ghost predicate Denotes(text: Bytes, chain: Digest) {
    && |text| == 71 && text[..7] == LABEL_PREFIX
    && forall i :: 0 <= i < 32 ==> HexPair(text[7 + 2 * i], text[8 + 2 * i]) == Some(chain[i])
  }

  /** `Chain::parse`: finds the one chain a label denotes, or reports that it denotes none. */
  method ParseLabel(text: Bytes) returns (r: Option<Digest>)
    ensures r.Some? ==> Denotes(text, r.value)
    ensures r.None? ==> !exists c: Digest :: Denotes(text, c)
  {
    if |text| < 7 || text[..7] != LABEL_PREFIX || |text| != 71 { return None; }
    var bytes: Bytes := [];
    for i := 0 to 32
      invariant |bytes| == i
      invariant forall k :: 0 <= k < i ==> HexPair(text[7 + 2 * k], text[8 + 2 * k]) == Some(bytes[k])
    {
      var pair := HexPair(text[7 + 2 * i], text[8 + 2 * i]);
      if pair.None? {
        forall c: Digest ensures !Denotes(text, c) {
          assert HexPair(text[7 + 2 * i], text[8 + 2 * i]) != Some(c[i]);
        }
        return None;
      }
      bytes := bytes + [pair.value];
    }
    r := Some(bytes);
  }

  lemma HexPairRoundTrip(b: byte)
    ensures HexPair(HexDigit(b as int / 16), HexDigit(b as int % 16)) == Some(b)
  {
  }

  lemma HexAt(bytes: Bytes, i: nat)
    requires i < |bytes|
    ensures HexPair(Hex(bytes)[2 * i], Hex(bytes)[2 * i + 1]) == Some(bytes[i])
  {
    assert 2 * i / 2 == i && (2 * i + 1) / 2 == i;
    HexPairRoundTrip(bytes[i]);
    hide HexPair, HexDigit;
  }

  /** Printing then parsing gives the chain back, and no other. */
  lemma LabelRoundTrip(chain: Digest, other: Digest)
    ensures Denotes(Label(chain), chain)
    ensures Denotes(Label(chain), other) ==> other == chain
  {
    var text := Label(chain);
    forall i | 0 <= i < 32 ensures HexPair(text[7 + 2 * i], text[8 + 2 * i]) == Some(chain[i]) {
      assert text[7 + 2 * i] == Hex(chain)[2 * i] && text[8 + 2 * i] == Hex(chain)[2 * i + 1];
      HexAt(chain, i);
    }
    assert text[..7] == LABEL_PREFIX;
    hide HexPair, Hex;
    if Denotes(text, other) {
      assert forall i :: 0 <= i < 32 ==> Some(other[i]) == HexPair(text[7 + 2 * i], text[8 + 2 * i]) == Some(chain[i]);
    }
  }

  lemma LabelInjective(a: Digest, b: Digest)
    requires Label(a) == Label(b)
    ensures a == b
  {
    LabelRoundTrip(a, b);
    LabelRoundTrip(b, a);
  }

  lemma LabelClean(chain: Digest)
    ensures Clean(Label(chain))
    ensures forall i :: 7 <= i < 71 ==> 48 <= Label(chain)[i] <= 57 || 97 <= Label(chain)[i] <= 102
  {
  }

  // ---- Checkpoint records ---------------------------------------------------

  datatype Checkpoint = Checkpoint(
    timestamp: Bytes,
    coversFrom: nat,
    coversTo: nat,
    chain: Bytes,
    previous: Option<nat>,
    keyId: Option<Bytes>,
    signature: Option<Bytes>)

  datatype Signer = Signer(keyId: Bytes, sign: Bytes -> Bytes)

  datatype VerifyingKey = VerifyingKey(keyId: Bytes, accepts: (Bytes, Bytes) -> bool)

  /** No control characters: what timestamps, labels, key ids and base64 hold. */
  predicate Clean(b: Bytes) { forall i :: 0 <= i < |b| ==> b[i] >= 32 }

  predicate CleanOption(b: Option<Bytes>) { b.Some? ==> Clean(b.value) }

  predicate CleanCheckpoint(cp: Checkpoint) {
    && Clean(cp.timestamp) && Clean(cp.chain) && CleanOption(cp.keyId) && CleanOption(cp.signature)
    && cp.coversFrom <= U64_MAX && cp.coversTo <= U64_MAX
    && (cp.previous.Some? ==> cp.previous.value <= U64_MAX)
  }

  function NewCheckpoint(at: nat, from: nat, chain: Digest, previous: Option<nat>, timestamp: Bytes): Checkpoint {
    Checkpoint(timestamp, from, if at == 0 then 0 else at - 1, Label(chain), previous, None, None)
  }

  /** What a new checkpoint says: when it was made, which lines it covers, their
      chain value, and the checkpoint before it. */
  lemma NewCheckpointSays(at: nat, from: nat, chain: Digest, previous: Option<nat>, timestamp: Bytes)
    ensures var cp := NewCheckpoint(at, from, chain, previous, timestamp);
      && cp.timestamp == timestamp && cp.coversFrom == from && (at > 0 ==> cp.coversTo + 1 == at)
      && Denotes(cp.chain, chain) && cp.previous == previous && cp.keyId.None? && cp.signature.None?
  {
    LabelRoundTrip(chain, chain);
  }

  function PreviousText(previous: Option<nat>): Bytes {
    match previous case None => [] case Some(n) => Digits(n)
  }

  /** The fields a signature covers, one per payload line. */
  function PayloadFields(cp: Checkpoint, at: nat): seq<Bytes> {
    [Ascii("checkpoint"), Digits(at), Digits(cp.coversFrom), Digits(cp.coversTo), cp.chain,
     PreviousText(cp.previous), cp.timestamp]
  }

  function Terminated(fields: seq<Bytes>): (lines: seq<Bytes>)
    ensures |lines| == |fields|
  {
    seq(|fields|, i requires 0 <= i < |fields| => fields[i] + [NL])
  }

  /** `signing_payload`. */
  function Payload(cp: Checkpoint, at: nat): Bytes { Flat(Terminated(PayloadFields(cp, at))) }

  function Sign(cp: Checkpoint, at: nat, key: Signer): Checkpoint {
    cp.(keyId := Some(key.keyId), signature := Some(key.sign(Payload(cp, at))))
  }

  function FindKey(keys: seq<VerifyingKey>, keyId: Bytes): Option<VerifyingKey> {
    if keys == [] then None
    else if keys[0].keyId == keyId then Some(keys[0])
    else FindKey(keys[1..], keyId)
  }

  datatype SignatureCheck = Unsigned | Valid | Bad

  /** `Checkpoint::verify`. */
  function CheckSignature(cp: Checkpoint, at: nat, keys: seq<VerifyingKey>): SignatureCheck {
    match (cp.keyId, cp.signature)
    case (None, None) => Unsigned
    case (Some(id), Some(signature)) =>
      (match FindKey(keys, id)
       case None => Bad
       case Some(key) => if key.accepts(Payload(cp, at), signature) then Valid else Bad)
    case _ => Bad
  }

  /** The first key with the id, if any, is the one that judges. */
  ghost predicate Judges(keys: seq<VerifyingKey>, keyId: Bytes, k: nat) {
    k < |keys| && keys[k].keyId == keyId && forall i :: 0 <= i < k ==> keys[i].keyId != keyId
  }

  lemma {:induction false} FindKeyJudges(keys: seq<VerifyingKey>, keyId: Bytes)
    ensures forall k: nat :: Judges(keys, keyId, k) ==> FindKey(keys, keyId) == Some(keys[k])
    ensures FindKey(keys, keyId).Some? ==> exists k: nat :: Judges(keys, keyId, k)
  {
    if keys != [] {
      var rest := keys[1..];
      FindKeyJudges(rest, keyId);
      forall k: nat | Judges(keys, keyId, k) ensures FindKey(keys, keyId) == Some(keys[k]) {
        if k > 0 {
          assert keys[0].keyId != keyId;
          assert forall i :: 0 <= i < k - 1 ==> rest[i] == keys[i + 1];
          assert Judges(rest, keyId, k - 1);
        }
      }
      if keys[0].keyId == keyId {
        assert Judges(keys, keyId, 0);
      } else if FindKey(keys, keyId).Some? {
        var k: nat :| Judges(rest, keyId, k);
        assert forall i :: 0 < i <= k ==> keys[i] == rest[i - 1];
        assert Judges(keys, keyId, k + 1);
      }
    }
  }

  /** A signature is valid exactly if the checkpoint names a key and carries a
      signature that the first key of that name accepts for its payload; a
      checkpoint with neither is unsigned; everything else is bad. */
  lemma SignatureMeans(cp: Checkpoint, at: nat, keys: seq<VerifyingKey>)
    ensures CheckSignature(cp, at, keys).Valid? <==>
      cp.keyId.Some? && cp.signature.Some? &&
      exists k: nat :: Judges(keys, cp.keyId.value, k) && keys[k].accepts(Payload(cp, at), cp.signature.value)
    ensures CheckSignature(cp, at, keys).Unsigned? <==> cp.keyId.None? && cp.signature.None?
  {
    hide Payload, FindKey, Judges;
    if cp.keyId.Some? {
      FindKeyJudges(keys, cp.keyId.value);
      if FindKey(keys, cp.keyId.value).Some? {
        var k: nat :| Judges(keys, cp.keyId.value, k);
      }
    }
  }

  // ---- The signed payload determines the record -----------------------------

  function CountNL(b: Bytes): nat {
    if b == [] then 0 else CountNL(b[..|b| - 1]) + if b[|b| - 1] == NL then 1 else 0
  }

  lemma {:induction false} CountNLConcat(a: Bytes, b: Bytes)
    ensures CountNL(a + b) == CountNL(a) + CountNL(b)
    decreases |b|
  {
    if b == [] {
      assert a + b == a;
    } else {
      CountNLConcat(a, b[..|b| - 1]);
      assert (a + b)[..|a + b| - 1] == a + b[..|b| - 1];
    }
  }

  lemma {:induction false} CountNLZero(b: Bytes)
    ensures CountNL(b) == 0 <==> NL !in b
  {
    if b != [] {
      CountNLZero(b[..|b| - 1]);
      assert b == b[..|b| - 1] + [b[|b| - 1]];
    }
  }

  /** The payload has one newline per field, plus those inside the fields. */
  lemma {:induction false} CountTerminated(fields: seq<Bytes>)
    ensures CountNL(Flat(Terminated(fields))) >= |fields|
    ensures CountNL(Flat(Terminated(fields))) == |fields| <==> (forall i :: 0 <= i < |fields| ==> NL !in fields[i])
    decreases |fields|
  {
    if fields != [] {
      var init, last := fields[..|fields| - 1], fields[|fields| - 1];
      CountTerminated(init);
      assert Terminated(fields) == Terminated(init) + [last + [NL]];
      hide Terminated, Flat, CountNL;
      FlatPush(Terminated(init), last + [NL]);
      CountNLConcat(Flat(Terminated(init)), last + [NL]);
      CountField(last);
      assert forall i :: 0 <= i < |init| ==> init[i] == fields[i];
    }
  }

  lemma CountField(field: Bytes)
    ensures CountNL(field + [NL]) >= 1 && (CountNL(field + [NL]) == 1 <==> NL !in field)
  {
    CountNLZero(field);
    CountNLConcat(field, [NL]);
    assert CountNL([NL]) == CountNL([]) + 1;
  }

  lemma TerminatedLines(fields: seq<Bytes>)
    requires forall i :: 0 <= i < |fields| ==> NL !in fields[i]
    ensures AllLines(Terminated(fields))
    ensures Lines(Flat(Terminated(fields))) == Terminated(fields) && Tail(Flat(Terminated(fields))) == []
  {
    var lines := Terminated(fields);
    forall i | 0 <= i < |lines| ensures IsLine(lines[i]) {
      assert lines[i][..|lines[i]| - 1] == fields[i];
    }
    assert Flat(lines) + [] == Flat(lines);
    CutUnique(Flat(lines), lines, []);
  }

  lemma NewlineFreeFields(cp: Checkpoint, at: nat)
    requires NL !in cp.chain && NL !in cp.timestamp
    ensures forall i :: 0 <= i < 7 ==> NL !in PayloadFields(cp, at)[i]
  {
    DigitsShape(at);
    DigitsShape(cp.coversFrom);
    DigitsShape(cp.coversTo);
    if cp.previous.Some? { DigitsShape(cp.previous.value); }
  }

  /** What is signed, read back line by line: the kind, the checkpoint's number, the
      first and the last line it covers, the chain, the checkpoint before it if any,
      and the time. */
  lemma PayloadSays(cp: Checkpoint, at: nat)
    requires NL !in cp.chain && NL !in cp.timestamp
    ensures var lines := Lines(Payload(cp, at));
      && |lines| == 7 && Tail(Payload(cp, at)) == []
      && lines[0] == Ascii("checkpoint") + [NL] && lines[1] == Digits(at) + [NL]
      && lines[2] == Digits(cp.coversFrom) + [NL] && lines[3] == Digits(cp.coversTo) + [NL]
      && lines[4] == cp.chain + [NL] && lines[6] == cp.timestamp + [NL]
      && lines[5] == (if cp.previous.Some? then Digits(cp.previous.value) else []) + [NL]
  {
    hide Lines, Tail, Flat, Digits, Ascii, IsLine, AllLines;
    NewlineFreeFields(cp, at);
    TerminatedLines(PayloadFields(cp, at));
  }

  /** If a payload equals that of a checkpoint whose chain and timestamp have
      no newline, then every covered field is the same. Nothing is assumed of
      the other checkpoint, whose text fields may come from a forged file. */
  lemma PayloadBinds(genuine: Checkpoint, at: nat, other: Checkpoint, otherAt: nat)
    requires NL !in genuine.chain && NL !in genuine.timestamp
    requires Payload(genuine, at) == Payload(other, otherAt)
    ensures at == otherAt
    ensures other == genuine.(keyId := other.keyId, signature := other.signature)
  {
    var fields, others := PayloadFields(genuine, at), PayloadFields(other, otherAt);
    NewlineFreeFields(genuine, at);
    CountTerminated(fields);
    CountTerminated(others);
    TerminatedLines(fields);
    TerminatedLines(others);
    forall i | 0 <= i < 7 ensures fields[i] == others[i] {
      assert Terminated(fields)[i] == Terminated(others)[i];
      assert fields[i] == Terminated(fields)[i][..|fields[i]|];
    }
    assert fields[1] == others[1] && fields[2] == others[2] && fields[3] == others[3];
    assert fields[4] == others[4] && fields[5] == others[5] && fields[6] == others[6];
    DigitsInjective(at, otherAt);
    DigitsInjective(genuine.coversFrom, other.coversFrom);
    DigitsInjective(genuine.coversTo, other.coversTo);
    if genuine.previous.Some? { DigitsShape(genuine.previous.value); }
    if other.previous.Some? { DigitsShape(other.previous.value); }
    if genuine.previous.Some? && other.previous.Some? {
      DigitsInjective(genuine.previous.value, other.previous.value);
    }
  }

  /** The newline condition is needed: two checkpoints with newlines inside
      their text can differ and still sign the same bytes. */
  lemma PayloadAmbiguousWithNewlines(a: Checkpoint, b: Checkpoint, at: nat)
    requires a == Checkpoint([65], 1, at, [66, NL], None, None, None)
    requires b == Checkpoint([NL, 65], 1, at, [66], None, None, None)
    ensures a != b && Payload(a, at) == Payload(b, at)
  {
    assert a.chain != b.chain;
    var f, g := Terminated(PayloadFields(a, at)), Terminated(PayloadFields(b, at));
    assert PayloadFields(a, at)[..4] == PayloadFields(b, at)[..4];
    assert forall i :: 0 <= i < 4 ==> f[i] == PayloadFields(a, at)[..4][i] + [NL] == g[i];
    assert f[4] == [66, NL, NL] && f[5] == [NL] && f[6] == [65, NL];
    assert g[4] == [66, NL] && g[5] == [NL] && g[6] == [NL, 65, NL];
    assert f == f[..4] + [[66, NL, NL], [NL], [65, NL]];
    assert g == f[..4] + [[66, NL], [NL], [NL, 65, NL]];
    FlatConcat(f[..4], [[66, NL, NL], [NL], [65, NL]]);
    FlatConcat(f[..4], [[66, NL], [NL], [NL, 65, NL]]);
    FlatThree([66, NL, NL], [NL], [65, NL]);
    FlatThree([66, NL], [NL], [NL, 65, NL]);
    assert [66, NL, NL] + [NL] + [65, NL] == [66, NL] + [NL] + [NL, 65, NL];
  }

  lemma FlatThree(x: Bytes, y: Bytes, z: Bytes)
    ensures Flat([x, y, z]) == x + y + z
  {
    FlatOne(x);
    FlatPush([x], y);
    FlatPush([x, y], z);
    assert [x] + [y] == [x, y] && [x, y] + [z] == [x, y, z];
  }
}
