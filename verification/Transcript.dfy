/** The signed transcripts of src/access/approval_v2.rs: hex decoding, length framing, and what a
    transcript binds. */
module Transcript {
  import opened ByteStrings
  import opened CanonicalJson

  // ----- lowercase hex -----

  predicate IsHexDigit(b: byte) { 0x30 <= b <= 0x39 || 0x61 <= b <= 0x66 }

  predicate ValidSha256(value: Bytes) {
    |value| == 64 && forall i :: 0 <= i < 64 ==> IsHexDigit(value[i])
  }

  function ByteHex(b: byte): (pair: Bytes)
    ensures |pair| == 2
  {
    [HexDigit(b / 16, false), HexDigit(b % 16, false)]
  }

  /** Two lowercase hex digits per byte. */
  function Hex(bytes: Bytes): (text: Bytes)
    ensures |text| == 2 * |bytes|
  {
    if bytes == [] then [] else ByteHex(bytes[0]) + Hex(bytes[1..])
  }

  ghost predicate AllHex(text: Bytes) {
    forall i :: 0 <= i < |text| ==> IsHexDigit(text[i])
  }

  function PairValue(high: byte, low: byte): (b: byte)
    requires IsHexDigit(high) && IsHexDigit(low)
  {
    16 * HexValue(high) + HexValue(low)
  }

  /** Two characters for every byte, the high half first. */
  lemma {:induction false} HexMeansDigits(bytes: Bytes, i: nat)
    requires i < |bytes|
    ensures Hex(bytes)[2 * i] == Octets("0123456789abcdef")[bytes[i] / 16]
    ensures Hex(bytes)[2 * i + 1] == Octets("0123456789abcdef")[bytes[i] % 16]
  {
    if i == 0 {
      HexMeaning(bytes[0] / 16);
      HexMeaning(bytes[0] % 16);
    } else {
      HexMeansDigits(bytes[1..], i - 1);
    }
  }

  /** The bytes that a hex text spells, two digits each. */
  function Unhex(text: Bytes): (raw: Bytes)
    requires AllHex(text) && |text| % 2 == 0
    ensures 2 * |raw| == |text|
  {
    if text == [] then [] else [PairValue(text[0], text[1])] + Unhex(text[2..])
  }

  /** A lowercase digit is the digit of its value. */
  lemma LowerHex(b: byte)
    requires IsHexDigit(b)
    ensures HexValue(b) >= 0 && HexDigit(HexValue(b), false) == b
  {}

  lemma HexOfPair(high: byte, low: byte)
    requires IsHexDigit(high) && IsHexDigit(low)
    ensures ByteHex(PairValue(high, low)) == [high, low]
  {
    LowerHex(high);
    LowerHex(low);
  }

  lemma PairOfHex(b: byte)
    ensures AllHex(ByteHex(b)) && PairValue(ByteHex(b)[0], ByteHex(b)[1]) == b
  {}

  lemma {:induction false} HexOfUnhex(text: Bytes)
    requires AllHex(text) && |text| % 2 == 0
    ensures Hex(Unhex(text)) == text
  {
    if text != [] {
      HexOfUnhex(text[2..]);
      HexOfPair(text[0], text[1]);
      assert Unhex(text)[1..] == Unhex(text[2..]);
      assert text == [text[0], text[1]] + text[2..];
    }
  }

  lemma {:induction false} UnhexOfHex(bytes: Bytes)
    ensures AllHex(Hex(bytes)) && Unhex(Hex(bytes)) == bytes
  {
    if bytes != [] {
      UnhexOfHex(bytes[1..]);
      PairOfHex(bytes[0]);
      assert Hex(bytes)[2..] == Hex(bytes[1..]);
      assert bytes == [bytes[0]] + bytes[1..];
    }
  }

  /** The 32 bytes that a valid digest text spells. */
  ghost function Raw(value: Bytes): (raw: Digest)
    requires ValidSha256(value)
  {
    Unhex(value)
  }

  /** Decodes a digest text into a 32-byte array; refuses anything but 64 lowercase hex digits. */
  method Hex32(value: Bytes) returns (raw: Option<Digest>)
    ensures raw.Some? <==> ValidSha256(value)
    ensures raw.Some? ==> raw.value == Raw(value) && Hex(raw.value) == value
  {
    if !ValidSha256(value) {
      return None;
    }
    var out := new byte[32](_ => 0);
    var index := 0;
    UnhexStart(value);
    assert out[..0] == [];
    while index < 32
      invariant index <= 32 && Decoded(value, index, out[..index])
    {
      var pair := value[2 * index..2 * index + 2];
      var decoded := PairValue(pair[0], pair[1]);
      UnhexStep(value, index, out[..index], decoded);
      out[index] := decoded;
      assert out[..index + 1] == out[..index] + [decoded];
      index := index + 1;
    }
    UnhexEnd(value, out[..32]);
    assert out[..] == out[..32];
    return Some(out[..]);
  }

  /** The first `i` bytes are decoded. */
  ghost predicate Decoded(value: Bytes, i: nat, done: Bytes)
    requires ValidSha256(value) && i <= 32
  {
    done + Unhex(value[2 * i..]) == Raw(value)
  }

  lemma UnhexStart(value: Bytes)
    requires ValidSha256(value)
    ensures Decoded(value, 0, [])
  {
    assert value[0..] == value && [] + Raw(value) == Raw(value);
  }

  lemma UnhexStep(value: Bytes, i: nat, done: Bytes, decoded: byte)
    requires ValidSha256(value) && i < 32 && Decoded(value, i, done)
    requires decoded == PairValue(value[2 * i], value[2 * i + 1])
    ensures Decoded(value, i + 1, done + [decoded])
  {
    var rest := value[2 * i..];
    assert rest[0] == value[2 * i] && rest[1] == value[2 * i + 1] && rest[2..] == value[2 * (i + 1)..];
    Associate(done, [decoded], Unhex(rest[2..]));
  }

  lemma UnhexEnd(value: Bytes, done: Bytes)
    requires ValidSha256(value) && Decoded(value, 32, done)
    ensures done == Raw(value) && Hex(done) == value
  {
    assert value[64..] == [] && done + [] == done;
    HexOfUnhex(value);
  }

  /** `hex32` and `hex` are inverse to each other on the texts and digests they accept. */
  lemma Hex32Inverse(d: Digest, value: Bytes)
    ensures ValidSha256(Hex(d)) && Raw(Hex(d)) == d
    ensures ValidSha256(value) ==> Hex(Raw(value)) == value
  {
    UnhexOfHex(d);
    if ValidSha256(value) { HexOfUnhex(value); }
  }

  // ----- framing -----

  /** `field.len() as u32` keeps only the low 32 bits of the length. */
  const LENGTH_LIMIT := 0x1_0000_0000

  function Header(length: nat): (header: Bytes)
    ensures |header| == 4
  {
    ToBigEndian(length % LENGTH_LIMIT, 4)
  }

  function FrameOf(field: Bytes): (framed: Bytes)
    ensures |framed| == 4 + |field|
  {
    Header(|field|) + field
  }

  function FrameAll(fields: seq<Bytes>): (framed: Bytes) {
    if fields == [] then [] else FrameOf(fields[0]) + FrameAll(fields[1..])
  }

  method Frame(out: Buffer, field: Bytes)
    modifies out
    ensures out.text == old(out.text) + FrameOf(field)
  {
    Associate(out.text, Header(|field|), field);
    out.Push(Header(|field|));
    out.Push(field);
  }

  lemma FrameAllAppend(fields: seq<Bytes>, field: Bytes)
    ensures FrameAll(fields + [field]) == FrameAll(fields) + FrameOf(field)
  {
    if fields == [] {
      assert [field][1..] == [];
    } else {
      FrameAllAppend(fields[1..], field);
      assert (fields + [field])[1..] == fields[1..] + [field];
      Associate(FrameOf(fields[0]), FrameAll(fields[1..]), FrameOf(field));
    }
  }

  /** The loop shared by both transcript builders. */
  method BuildFrames(fields: seq<Bytes>) returns (text: Bytes)
    ensures text == FrameAll(fields)
  {
    var out := new Buffer();
    for i := 0 to |fields|
      invariant out.text == FrameAll(fields[..i])
    {
      Frame(out, fields[i]);
      FrameAllAppend(fields[..i], fields[i]);
      assert fields[..i + 1] == fields[..i] + [fields[i]];
    }
    assert fields[..|fields|] == fields;
    return out.text;
  }

  ghost predicate Framable(fields: seq<Bytes>) {
    forall i :: 0 <= i < |fields| ==> |fields[i]| < LENGTH_LIMIT
  }

  lemma HeaderInjective(m: nat, n: nat)
    requires m < LENGTH_LIMIT && n < LENGTH_LIMIT && Header(m) == Header(n)
    ensures m == n
  {
    FourBytes();
    WidthInjective(m % LENGTH_LIMIT, n % LENGTH_LIMIT, 4);
  }

  lemma FourBytes()
    ensures Pow(256, 4) == LENGTH_LIMIT
  {
    assert Pow(256, 2) == 65536;
  }

  lemma WidthInjective(m: nat, n: nat, width: nat)
    requires m < Pow(256, width) && n < Pow(256, width) && ToBigEndian(m, width) == ToBigEndian(n, width)
    ensures m == n
  {
    ToBigEndianInverse(m, width);
    ToBigEndianInverse(n, width);
  }

  lemma HeadersSplit(h: Bytes, k: Bytes, f: Bytes, g: Bytes, r: Bytes, s: Bytes)
    requires |h| == |k| && (h + f) + r == (k + g) + s
    ensures h == k && f + r == g + s
  {
    Associate(h, f, r);
    Associate(k, g, s);
    SplitEqual(h, f + r, k, g + s);
  }

  lemma FrameOfInjective(f: Bytes, g: Bytes, r: Bytes, s: Bytes)
    requires |f| < LENGTH_LIMIT && |g| < LENGTH_LIMIT && FrameOf(f) + r == FrameOf(g) + s
    ensures f == g && r == s
  {
    HeadersSplit(Header(|f|), Header(|g|), f, g, r, s);
    HeaderInjective(|f|, |g|);
    SplitEqual(f, r, g, s);
  }

  /** Framed lists of any lengths are equal only when the lists are, if every field is below 4 GiB. */
  lemma {:induction false} FramingInjective(fs: seq<Bytes>, gs: seq<Bytes>)
    requires Framable(fs) && Framable(gs) && FrameAll(fs) == FrameAll(gs)
    ensures fs == gs
  {
    assert fs != [] ==> |FrameAll(fs)| >= 4;
    assert gs != [] ==> |FrameAll(gs)| >= 4;
    if fs != [] && gs != [] {
      FrameOfInjective(fs[0], gs[0], FrameAll(fs[1..]), FrameAll(gs[1..]));
      FramingInjective(fs[1..], gs[1..]);
      assert fs == [fs[0]] + fs[1..] && gs == [gs[0]] + gs[1..];
    }
  }

  // ----- reading frames -----

  /** A receiver's reader: a length in four bytes, then that many bytes, to the end of the text. */
  function ReadFrames(t: Bytes): (fields: Option<seq<Bytes>>) {
    if t == [] then Some([])
    else if |t| < 4 || |t| < 4 + Word(t[0], t[1], t[2], t[3]) then None
    else
      var end := 4 + Word(t[0], t[1], t[2], t[3]);
      var rest := ReadFrames(t[end..]);
      if rest.None? then None else Some([t[4..end]] + rest.value)
  }

  lemma HeaderSpells(length: nat)
    requires length < LENGTH_LIMIT
    ensures BigEndian(Header(length)) == length
  {
    FourBytes();
    var low := length % LENGTH_LIMIT;
    ToBigEndianInverse(low, 4);
  }

  lemma ReadsHeader(length: nat)
    requires length < LENGTH_LIMIT
    ensures var h := Header(length); Word(h[0], h[1], h[2], h[3]) == length
  {
    HeaderSpells(length);
    WordOfBytes(Header(length));
  }

  /** Frames read back as the fields that were framed. */
  lemma {:induction false} FramesReadBack(fields: seq<Bytes>)
    requires Framable(fields)
    ensures ReadFrames(FrameAll(fields)) == Some(fields)
  {
    if fields != [] {
      var h, rest := Header(|fields[0]|), FrameAll(fields[1..]);
      var t := FrameAll(fields);
      ReadsHeader(|fields[0]|);
      FramesReadBack(fields[1..]);
      assert t[..4] == h && t[0] == h[0] && t[1] == h[1] && t[2] == h[2] && t[3] == h[3];
      assert t[4..4 + |fields[0]|] == fields[0] && t[4 + |fields[0]|..] == rest;
      assert fields == [fields[0]] + fields[1..];
    }
  }

  // ----- the bound of the framing is sharp -----

  function Zeros(n: nat): (z: Bytes)
    ensures |z| == n
  {
    seq(n, _ => 0)
  }

  function Empties(k: nat): (fields: seq<Bytes>)
    ensures |fields| == k
  {
    if k == 0 then [] else [[]] + Empties(k - 1)
  }

  lemma {:induction false} EmptyFramesAreZeros(k: nat)
    ensures FrameAll(Empties(k)) == Zeros(4 * k)
  {
    if k > 0 {
      EmptyFramesAreZeros(k - 1);
      ZeroHeader();
      assert Empties(k)[1..] == Empties(k - 1);
      assert FrameOf([]) == Zeros(4);
      assert Zeros(4) + Zeros(4 * (k - 1)) == Zeros(4 * k);
    }
  }

  lemma ZeroHeader()
    ensures ToBigEndian(0, 4) == Zeros(4)
  {
    assert ToBigEndian(0, 1) == [0];
    assert ToBigEndian(0, 2) == [0, 0];
    assert ToBigEndian(0, 3) == [0, 0, 0];
  }

  /** A field of 2^32 bytes can be mistaken for a list of empty fields: the length is truncated. */
  lemma FramingBoundIsSharp(k: nat)
    requires 4 * k == LENGTH_LIMIT
    ensures FrameAll([Zeros(LENGTH_LIMIT)]) == FrameAll(Empties(k + 1))
  {
    EmptyFramesAreZeros(k + 1);
    ZeroHeader();
    assert [Zeros(LENGTH_LIMIT)][1..] == [];
  }

  // ----- identifiers and keys -----

  /** A character of the URL-safe Base64 alphabet, by its 6-bit value. */
  function Base64Value(b: byte): (n: int)
    ensures -1 <= n < 64
  {
    if 0x41 <= b <= 0x5a then b - 0x41
    else if 0x61 <= b <= 0x7a then b - 0x61 + 26
    else if 0x30 <= b <= 0x39 then b - 0x30 + 52
    else if b == 0x2d then 62
    else if b == 0x5f then 63
    else -1
  }

  /** Unpadded URL-safe Base64 of 32 bytes: 43 characters, the last carrying two zero bits. */
  predicate ValidRequestId(id: Bytes) {
    |id| == 43 && (forall i :: 0 <= i < 43 ==> Base64Value(id[i]) >= 0) && Base64Value(id[42]) % 4 == 0
  }

  /** The URL-safe alphabet (section 5 of RFC 4648). */
  function Base64Symbol(v: int): (b: byte)
    requires 0 <= v < 64
    ensures Base64Value(b) == v
  {
    if v < 26 then 'A' as int + v
    else if v < 52 then 'a' as int + (v - 26)
    else if v < 62 then '0' as int + (v - 52)
    else if v == 62 then '-' as int else '_' as int
  }

  /** The `m` lowest base-64 digits of `n`, most significant first, in the alphabet. */
  function Base64Text(n: nat, m: nat): (text: Bytes)
    ensures |text| == m
  {
    if m == 0 then [] else Base64Text(n / 64, m - 1) + [Base64Symbol(n % 64)]
  }

  /** Unpadded Base64 of 32 bytes: their 256 bits, and two zero bits, in 43 groups of six. */
  function Base64Of32(raw: Digest): (text: Bytes) {
    Base64Text(4 * BigEndian(raw), 43)
  }

  /** The number that a text spells in base 64. */
  function Base64Number(text: Bytes): (n: nat)
    requires forall i :: 0 <= i < |text| ==> Base64Value(text[i]) >= 0
  {
    if text == [] then 0 else 64 * Base64Number(text[..|text| - 1]) + Base64Value(text[|text| - 1])
  }

  lemma SymbolOfValue(b: byte)
    requires Base64Value(b) >= 0
    ensures Base64Symbol(Base64Value(b)) == b
  {}

  lemma {:induction false} TextOfNumber(text: Bytes)
    requires forall i :: 0 <= i < |text| ==> Base64Value(text[i]) >= 0
    ensures Base64Text(Base64Number(text), |text|) == text && Base64Number(text) < Pow(64, |text|)
  {
    if text != [] {
      var before, last := text[..|text| - 1], text[|text| - 1];
      TextOfNumber(before);
      SymbolOfValue(last);
      assert text == before + [last];
    }
  }

  lemma {:induction false} Base64TextIsValid(n: nat, m: nat)
    ensures forall i :: 0 <= i < m ==> Base64Value(Base64Text(n, m)[i]) >= 0
  {
    if m > 0 { Base64TextIsValid(n / 64, m - 1); }
  }

  lemma {:induction false} SextetsAndBytes(k: nat)
    ensures Pow(64, 4 * k) == Pow(256, 3 * k)
  {
    if k > 0 {
      SextetsAndBytes(k - 1);
      assert Pow(64, 4 * k) == 64 * Pow(64, 4 * k - 1) == 4096 * Pow(64, 4 * k - 2);
      assert Pow(64, 4 * k - 2) == 64 * Pow(64, 4 * k - 3) == 4096 * Pow(64, 4 * k - 4);
      assert Pow(256, 3 * k) == 256 * Pow(256, 3 * k - 1) == 65536 * Pow(256, 3 * k - 2);
      assert Pow(256, 3 * k - 2) == 256 * Pow(256, 3 * k - 3);
    }
  }

  lemma BitsOf43(m: nat, k: nat)
    requires m == 43 && k == 32
    ensures Pow(64, m) == 4 * Pow(256, k)
  {
    SextetsAndBytes(10);
    assert Pow(64, m) == 64 * Pow(64, m - 1) == 4096 * Pow(64, m - 2) == 262144 * Pow(64, m - 3);
    assert Pow(256, k) == 256 * Pow(256, k - 1) == 65536 * Pow(256, k - 2);
  }

  lemma ValidIsCanonical(id: Bytes) returns (raw: Digest)
    requires ValidRequestId(id)
    ensures Base64Of32(raw) == id
  {
    TextOfNumber(id);
    var q := QuarterOf(id);
    ToBigEndianInverse(q, 32);
    raw := ToBigEndian(q, 32);
  }

  lemma QuarterOf(id: Bytes) returns (q: nat)
    requires ValidRequestId(id)
    ensures Base64Number(id) == 4 * q && q < Pow(256, 32)
  {
    var k := 32;
    TextOfNumber(id);
    BitsOf43(|id|, k);
    LastSextet(id);
    QuarterFits(Base64Number(id), Base64Number(id[..|id| - 1]), Base64Value(id[|id| - 1]), Pow(256, k));
    q := Base64Number(id) / 4;
  }

  lemma LastSextet(id: Bytes)
    requires ValidRequestId(id)
    ensures Base64Number(id) == 64 * Base64Number(id[..|id| - 1]) + Base64Value(id[|id| - 1])
  {}

  lemma QuarterFits(n: nat, before: nat, last: nat, limit: nat)
    requires n == 64 * before + last && last % 4 == 0 && n < 4 * limit
    ensures 4 * (n / 4) == n && n / 4 < limit
  {}

  lemma CanonicalIsValid(raw: Digest)
    ensures ValidRequestId(Base64Of32(raw))
  {
    var n := 4 * BigEndian(raw);
    Base64TextIsValid(n, 43);
    assert Base64Of32(raw)[42] == Base64Symbol(n % 64);
  }

  /** A request id is valid exactly if it is the canonical text of some 32 bytes. */
  lemma RequestIdMeaning(id: Bytes)
    ensures ValidRequestId(id) <==> exists raw: Digest :: Base64Of32(raw) == id
  {
    if ValidRequestId(id) {
      var raw := ValidIsCanonical(id);
      assert Base64Of32(raw) == id;
    }
    forall raw: Digest | Base64Of32(raw) == id ensures ValidRequestId(id) { CanonicalIsValid(raw); }
  }

  predicate ValidPublicKey(key: Bytes) { |key| == 65 && key[0] == 0x04 }

  // ----- the two transcripts -----

  const APPROVAL_DOMAIN: Bytes := Octets("dev.vaultwarden.provider.approval.v2")
  const ENROLL_DOMAIN: Bytes := Octets("dev.vaultwarden.provider.approval-enroll.v2")
  const APPROVE_ACTION: Bytes := Octets("approve")

  /** A review: its request id and the JSON value serde makes of the whole structure. */
  datatype Review = Review(id: Bytes, value: Json)

  datatype Approval = Approval(
    providerIdentity: Bytes,
    approvalClient: Bytes,
    keyId: Bytes,
    requestId: Bytes,
    recordDigest: Bytes,
    policyDigest: Bytes,
    argumentsDigest: Bytes,
    expiresAt: U64,
    generation: U64,
    ticket: Bytes,
    ticketDeadline: U64,
    review: Review)

  /** Everything the provider must own in well-formed shape before it signs anything. */
  ghost predicate Approvable(a: Approval) {
    && ValidSha256(a.providerIdentity) && ValidSha256(a.approvalClient) && ValidSha256(a.keyId)
    && ValidSha256(a.recordDigest) && ValidSha256(a.policyDigest) && ValidSha256(a.argumentsDigest)
    && ValidSha256(a.ticket) && FloatFree(a.review.value)
    && ValidRequestId(a.requestId) && a.review.id == a.requestId
  }

  ghost function ApprovalFields(a: Approval, sha256: Bytes -> Digest): (fields: seq<Bytes>)
    requires Approvable(a)
    ensures Framable(fields)
  {
    [APPROVAL_DOMAIN, APPROVE_ACTION, Raw(a.providerIdentity), Raw(a.approvalClient), Raw(a.keyId),
     a.requestId, Raw(a.recordDigest), Raw(a.policyDigest), Raw(a.argumentsDigest),
     ToBigEndian(a.expiresAt, 8), ToBigEndian(a.generation, 8), Raw(a.ticket),
     ToBigEndian(a.ticketDeadline, 8), sha256(Print(a.review.value))]
  }

  /** The text is the frames of an approval: reading it gives 14 fields, and each of them says what stands
      at its place. */
  ghost predicate SignsApproval(text: Bytes, a: Approval, sha256: Bytes -> Digest)
    requires FloatFree(a.review.value)
  {
    var frames := ReadFrames(text);
    && frames.Some? && |frames.value| == 14
    && var f := frames.value;
    && f[0] == Octets("dev.vaultwarden.provider.approval.v2") && f[1] == Octets("approve")
    && Hex(f[2]) == a.providerIdentity && Hex(f[3]) == a.approvalClient && Hex(f[4]) == a.keyId
    && f[5] == a.requestId
    && Hex(f[6]) == a.recordDigest && Hex(f[7]) == a.policyDigest && Hex(f[8]) == a.argumentsDigest
    && Spells(f[9], a.expiresAt) && Spells(f[10], a.generation)
    && Hex(f[11]) == a.ticket && Spells(f[12], a.ticketDeadline)
    && f[13] == sha256(Print(a.review.value))
  }

  /** An unsigned 64-bit number in eight bytes. */
  ghost predicate Spells(field: Bytes, n: nat) { |field| == 8 && BigEndian(field) == n }

  lemma SpellsU64(n: U64)
    ensures Spells(ToBigEndian(n, 8), n)
  {
    assert Pow(256, 8) == 0x1_0000_0000_0000_0000 by {
      assert Pow(256, 2) == 0x1_0000 && Pow(256, 4) == 0x1_0000_0000 && Pow(256, 6) == 0x1_0000_0000_0000;
    }
    ToBigEndianInverse(n, 8);
  }

  /** Every field stands at its place. */
  lemma ApprovalFieldsInOrder(a: Approval, sha256: Bytes -> Digest)
    requires Approvable(a)
    ensures SignsApproval(FrameAll(ApprovalFields(a, sha256)), a, sha256)
  {
    FramesReadBack(ApprovalFields(a, sha256));
    HexOfUnhex(a.providerIdentity);
    HexOfUnhex(a.approvalClient);
    HexOfUnhex(a.keyId);
    HexOfUnhex(a.recordDigest);
    HexOfUnhex(a.policyDigest);
    HexOfUnhex(a.argumentsDigest);
    HexOfUnhex(a.ticket);
    SpellsU64(a.expiresAt);
    SpellsU64(a.generation);
    SpellsU64(a.ticketDeadline);
  }

  /** Builds the approval transcript; absent exactly when some provider-owned value is malformed. */
  method ApprovalTranscript(a: Approval, sha256: Bytes -> Digest) returns (text: Option<Bytes>)
    ensures text.Some? <==> Approvable(a)
    ensures text.Some? ==> text.value == FrameAll(ApprovalFields(a, sha256)) && SignsApproval(text.value, a, sha256)
  {
    var provider := Hex32(a.providerIdentity);
    var client := Hex32(a.approvalClient);
    var key := Hex32(a.keyId);
    var record := Hex32(a.recordDigest);
    var policy := Hex32(a.policyDigest);
    var arguments := Hex32(a.argumentsDigest);
    var ticket := Hex32(a.ticket);
    var review := ReviewDigest(a.review.value, sha256);
    if provider.None? || client.None? || key.None? || record.None? || policy.None?
       || arguments.None? || ticket.None? || review.None?
       || !ValidRequestId(a.requestId) || a.review.id != a.requestId {
      return None;
    }
    var framed := BuildFrames(
      [APPROVAL_DOMAIN, APPROVE_ACTION, provider.value, client.value, key.value,
       a.requestId, record.value, policy.value, arguments.value,
       ToBigEndian(a.expiresAt, 8), ToBigEndian(a.generation, 8), ticket.value,
       ToBigEndian(a.ticketDeadline, 8), review.value]);
    ApprovalFieldsInOrder(a, sha256);
    return Some(framed);
  }

  datatype Enrollment = Enrollment(
    providerIdentity: Bytes, approvalClient: Bytes, publicKey: Bytes, ticket: Bytes, actionId: Bytes)

  ghost predicate Enrollable(e: Enrollment) {
    && ValidSha256(e.providerIdentity) && ValidSha256(e.approvalClient) && ValidSha256(e.ticket)
    && ValidPublicKey(e.publicKey) && ValidRequestId(e.actionId)
  }

  ghost function EnrollmentFields(e: Enrollment): (fields: seq<Bytes>)
    requires Enrollable(e)
    ensures Framable(fields)
  {
    [ENROLL_DOMAIN, Raw(e.providerIdentity), Raw(e.approvalClient), e.publicKey, Raw(e.ticket), e.actionId]
  }

  /** The text is the frames of an enrollment: reading it gives six fields, each at its place. */
  ghost predicate SignsEnrollment(text: Bytes, e: Enrollment) {
    var frames := ReadFrames(text);
    && frames.Some? && |frames.value| == 6
    && var f := frames.value;
    && f[0] == Octets("dev.vaultwarden.provider.approval-enroll.v2")
    && Hex(f[1]) == e.providerIdentity && Hex(f[2]) == e.approvalClient
    && f[3] == e.publicKey && Hex(f[4]) == e.ticket && f[5] == e.actionId
  }

  lemma EnrollmentFieldsInOrder(e: Enrollment)
    requires Enrollable(e)
    ensures SignsEnrollment(FrameAll(EnrollmentFields(e)), e)
  {
    FramesReadBack(EnrollmentFields(e));
    HexOfUnhex(e.providerIdentity);
    HexOfUnhex(e.approvalClient);
    HexOfUnhex(e.ticket);
  }

  method EnrollTranscript(e: Enrollment) returns (text: Option<Bytes>)
    ensures text.Some? <==> Enrollable(e)
    ensures text.Some? ==> text.value == FrameAll(EnrollmentFields(e)) && SignsEnrollment(text.value, e)
  {
    var provider := Hex32(e.providerIdentity);
    var client := Hex32(e.approvalClient);
    var ticket := Hex32(e.ticket);
    if provider.None? || client.None? || ticket.None?
       || !ValidPublicKey(e.publicKey) || !ValidRequestId(e.actionId) {
      return None;
    }
    var framed := BuildFrames(
      [ENROLL_DOMAIN, provider.value, client.value, e.publicKey, ticket.value, e.actionId]);
    EnrollmentFieldsInOrder(e);
    return Some(framed);
  }

  // ----- what a transcript binds -----

  lemma RawInjective(a: Bytes, b: Bytes)
    requires ValidSha256(a) && ValidSha256(b) && Raw(a) == Raw(b)
    ensures a == b
  {
    HexOfUnhex(a);
    HexOfUnhex(b);
  }

  lemma U64Injective(m: U64, n: U64)
    requires ToBigEndian(m, 8) == ToBigEndian(n, 8)
    ensures m == n
  {
    SpellsU64(m);
    SpellsU64(n);
  }

  /** Equal approval transcripts bind equal inputs, all of them, unless the two reviews exhibit a
      SHA-256 collision. */
  lemma ApprovalBindsEverything(a: Approval, b: Approval, sha256: Bytes -> Digest)
    requires Approvable(a) && Approvable(b)
    requires FrameAll(ApprovalFields(a, sha256)) == FrameAll(ApprovalFields(b, sha256))
    ensures a == b
      || (Print(a.review.value) != Print(b.review.value)
          && sha256(Print(a.review.value)) == sha256(Print(b.review.value)))
  {
    var fs, gs := ApprovalFields(a, sha256), ApprovalFields(b, sha256);
    FramingInjective(fs, gs);
    assert forall i :: 0 <= i < 14 ==> fs[i] == gs[i];
    RawInjective(a.providerIdentity, b.providerIdentity);
    RawInjective(a.approvalClient, b.approvalClient);
    RawInjective(a.keyId, b.keyId);
    RawInjective(a.recordDigest, b.recordDigest);
    RawInjective(a.policyDigest, b.policyDigest);
    RawInjective(a.argumentsDigest, b.argumentsDigest);
    RawInjective(a.ticket, b.ticket);
    U64Injective(a.expiresAt, b.expiresAt);
    U64Injective(a.generation, b.generation);
    U64Injective(a.ticketDeadline, b.ticketDeadline);
    ReviewDigestBinds(a.review.value, b.review.value, sha256);
  }

  lemma EnrollmentBindsEverything(d: Enrollment, e: Enrollment)
    requires Enrollable(d) && Enrollable(e)
    requires FrameAll(EnrollmentFields(d)) == FrameAll(EnrollmentFields(e))
    ensures d == e
  {
    var fs, gs := EnrollmentFields(d), EnrollmentFields(e);
    FramingInjective(fs, gs);
    assert forall i :: 0 <= i < 6 ==> fs[i] == gs[i];
    RawInjective(d.providerIdentity, e.providerIdentity);
    RawInjective(d.approvalClient, e.approvalClient);
    RawInjective(d.ticket, e.ticket);
  }

  /** A signature over one kind of transcript is never a signature over the other. */
  lemma DomainsAreSeparate(a: Approval, e: Enrollment, sha256: Bytes -> Digest)
    requires Approvable(a) && Enrollable(e)
    ensures FrameAll(ApprovalFields(a, sha256)) != FrameAll(EnrollmentFields(e))
  {
    if FrameAll(ApprovalFields(a, sha256)) == FrameAll(EnrollmentFields(e)) {
      FramingInjective(ApprovalFields(a, sha256), EnrollmentFields(e));
    }
  }
}
