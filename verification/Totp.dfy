/** Seeds and one-time codes (src/totp.rs): every seed that parses yields a code at every time, and
    what the code's text means (section 5.3 of RFC 4226, section 4.2 of RFC 6238). */
module Totp {
  import opened ByteStrings
  import opened Base32

  datatype Algorithm = Sha1 | Sha256 | Sha512
  datatype TotpConfig = TotpConfig(secret: Bytes, algorithm: Algorithm, digits: nat, period: U64, steam: bool)

  // ----- percent decoding -----

  const PERCENT: byte := 0x25

  /** The bytes that a percent-encoded text stands for, if every `%` is followed by two hex digits. */
  function Unescaped(value: Bytes): (decoded: Option<Bytes>)
    decreases |value|
  {
    if value == [] then Some([])
    else if value[0] != PERCENT then
      var rest := Unescaped(value[1..]);
      if rest.None? then None else Some([value[0]] + rest.value)
    else if |value| < 3 || HexValue(value[1]) < 0 || HexValue(value[2]) < 0 then None
    else
      var rest := Unescaped(value[3..]);
      if rest.None? then None else Some([16 * HexValue(value[1]) + HexValue(value[2])] + rest.value)
  }

  function Prepend(done: Bytes, rest: Option<Bytes>): (all: Option<Bytes>) {
    if rest.None? then None else Some(done + rest.value)
  }

  lemma PrependNothing(rest: Option<Bytes>)
    ensures Prepend([], rest) == rest
  {
    if rest.Some? { assert [] + rest.value == rest.value; }
  }

  lemma PrependStep(done: Bytes, one: byte, rest: Option<Bytes>)
    ensures Prepend(done, if rest.None? then None else Some([one] + rest.value)) == Prepend(done + [one], rest)
  {
    if rest.Some? { Associate(done, [one], rest.value); }
  }

  /** One character, plain or escaped, moves from the text still to read to the decoded part. */
  lemma DecodeStep(value: Bytes, index: nat)
    requires index < |value|
    ensures value[index] != PERCENT ==>
      forall done: Bytes ::
        Prepend(done, Unescaped(value[index..])) == Prepend(done + [value[index]], Unescaped(value[index + 1..]))
    ensures value[index] == PERCENT && (index + 2 >= |value| || HexValue(value[index + 1]) < 0 || HexValue(value[index + 2]) < 0)
      ==> Unescaped(value[index..]).None?
    ensures value[index] == PERCENT && index + 2 < |value| && HexValue(value[index + 1]) >= 0 && HexValue(value[index + 2]) >= 0 ==>
      var one := 16 * HexValue(value[index + 1]) + HexValue(value[index + 2]);
      forall done: Bytes ::
        Prepend(done, Unescaped(value[index..])) == Prepend(done + [one], Unescaped(value[index + 3..]))
  {
    var rest := value[index..];
    if value[index] != PERCENT {
      assert rest[1..] == value[index + 1..];
      forall done: Bytes
        ensures Prepend(done, Unescaped(rest)) == Prepend(done + [value[index]], Unescaped(rest[1..]))
      {
        PrependStep(done, value[index], Unescaped(rest[1..]));
      }
    } else if index + 2 < |value| && HexValue(value[index + 1]) >= 0 && HexValue(value[index + 2]) >= 0 {
      assert rest[3..] == value[index + 3..];
      var one := 16 * HexValue(value[index + 1]) + HexValue(value[index + 2]);
      forall done: Bytes
        ensures Prepend(done, Unescaped(rest)) == Prepend(done + [one], Unescaped(rest[3..]))
      {
        PrependStep(done, one, Unescaped(rest[3..]));
      }
    }
  }

  /** What decoding returns; `utf8` decides which byte strings are text. */
  function Text(decoded: Option<Bytes>, utf8: Bytes -> bool): (text: Option<Bytes>) {
    if decoded.Some? && utf8(decoded.value) then decoded else None
  }

  method PercentDecode(value: Bytes, utf8: Bytes -> bool) returns (decoded: Option<Bytes>)
    ensures decoded == Text(Unescaped(value), utf8)
  {
    var done: Bytes := [];
    var index := 0;
    assert value[0..] == value;
    PrependNothing(Unescaped(value));
    while index < |value|
      invariant index <= |value|
      invariant Unescaped(value) == Prepend(done, Unescaped(value[index..]))
    {
      DecodeStep(value, index);
      if value[index] == PERCENT {
        var high := if index + 1 < |value| then HexValue(value[index + 1]) else -1;
        if high < 0 {
          return None;
        }
        var low := if index + 2 < |value| then HexValue(value[index + 2]) else -1;
        if low < 0 {
          return None;
        }
        done := done + [16 * high + low];
        index := index + 3;
      } else {
        done := done + [value[index]];
        index := index + 1;
      }
    }
    assert value[index..] == [] && done + [] == done;
    return if utf8(done) then Some(done) else None;
  }

  /** A percent encoding: the bytes chosen by `escape`, `%` always among them, become `%XX`. */
  function Escaped(b: Bytes, escape: byte -> bool, upper: bool): (value: Bytes) {
    if b == [] then []
    else if b[0] == PERCENT || escape(b[0])
    then [PERCENT, HexDigit(b[0] / 16, upper), HexDigit(b[0] % 16, upper)] + Escaped(b[1..], escape, upper)
    else [b[0]] + Escaped(b[1..], escape, upper)
  }

  /** Decoding inverts every such encoding; a plus sign stays a plus sign. */
  lemma {:induction false} UnescapedInverse(b: Bytes, escape: byte -> bool, upper: bool)
    ensures Unescaped(Escaped(b, escape, upper)) == Some(b)
  {
    if b != [] {
      UnescapedInverse(b[1..], escape, upper);
      var value := Escaped(b, escape, upper);
      if b[0] == PERCENT || escape(b[0]) {
        assert value[3..] == Escaped(b[1..], escape, upper);
      } else {
        assert value[1..] == Escaped(b[1..], escape, upper);
      }
      assert b == [b[0]] + b[1..];
    }
  }

  // ----- seeds -----

  predicate HasPrefix(text: Bytes, prefix: Bytes) {
    |prefix| <= |text| && SameIgnoringCase(text[..|prefix|], prefix)
  }

  /** Where `sep` first occurs, or the length of the text. */
  function IndexOf(text: Bytes, sep: byte): (i: nat)
    ensures i <= |text|
    ensures forall k :: 0 <= k < i ==> text[k] != sep
    ensures i < |text| ==> text[i] == sep
  {
    if text == [] then 0 else if text[0] == sep then 0 else 1 + IndexOf(text[1..], sep)
  }

  function SplitAll(text: Bytes, sep: byte): (pieces: seq<Bytes>)
    ensures |pieces| >= 1
    decreases |text|
  {
    var i := IndexOf(text, sep);
    if i == |text| then [text] else [text[..i]] + SplitAll(text[i + 1..], sep)
  }

  predicate AllDigits(text: Bytes) {
    forall i :: 0 <= i < |text| ==> IsDigit(text[i])
  }

  /** Rust's unsigned `parse`: an optional plus sign and decimal digits, within the bound. */
  function ParseUnsigned(text: Bytes, bound: nat): (n: Option<nat>) {
    var digits := if text != [] && text[0] == 0x2b then text[1..] else text;
    if digits == [] || !AllDigits(digits) then None
    else if DecimalValue(digits) < bound then Some(DecimalValue(digits)) else None
  }

  /** Library functions on text: Unicode trimming and UTF-8 validity. */
  datatype TextLibrary = TextLibrary(trim: Bytes -> Bytes, utf8: Bytes -> bool)

  const OTPAUTH: Bytes := Octets("otpauth://")
  const STEAM: Bytes := Octets("steam://")
  const TOTP: Bytes := Octets("totp")
  const SECRET: Bytes := Octets("secret")
  const ALGORITHM: Bytes := Octets("algorithm")
  const DIGITS: Bytes := Octets("digits")
  const PERIOD: Bytes := Octets("period")
  const SHA256: Bytes := Octets("SHA256")
  const SHA512: Bytes := Octets("SHA512")

  function ClampDigits(parsed: Option<nat>): (d: nat)
    ensures 1 <= d <= 10
  {
    if parsed.Some? && parsed.value > 10 then 10
    else if parsed.Some? && parsed.value > 0 then parsed.value
    else 6
  }

  function ClampPeriod(parsed: Option<nat>): (p: U64)
    requires parsed.Some? ==> parsed.value < 0x1_0000_0000_0000_0000
    ensures p >= 1
  {
    if parsed.Some? && parsed.value > 0 then parsed.value else 30
  }

  /** A usable configuration: a non-empty secret, 1 to 10 digits, a positive period. */
  predicate Usable(c: TotpConfig) {
    c.secret != [] && 1 <= c.digits <= 10 && c.period >= 1
  }

  // ----- what the parameters of a URI say -----

  /** A parameter's decoded name and value, split at the first equals sign. */
  function Pair(parameter: Bytes, lib: TextLibrary): (pair: Option<(Bytes, Bytes)>) {
    var eq := IndexOf(parameter, 0x3d);
    var name := Text(Unescaped(parameter[..eq]), lib.utf8);
    var value := Text(Unescaped(if eq < |parameter| then parameter[eq + 1..] else []), lib.utf8);
    if name.None? || value.None? then None else Some((name.value, value.value))
  }

  /** A parameter that does not make parsing fail: it decodes, and a secret has enough letters. */
  predicate Acceptable(parameter: Bytes, lib: TextLibrary) {
    var pair := Pair(parameter, lib);
    && pair.Some?
    && (SameIgnoringCase(pair.value.0, SECRET) ==> |Digits(lib.trim(pair.value.1))| > 1)
  }

  predicate AllAcceptable(ps: seq<Bytes>, lib: TextLibrary) {
    forall i :: 0 <= i < |ps| ==> Acceptable(ps[i], lib)
  }

  /** The value of the last parameter of that name. */
  function LastValue(parameters: seq<Bytes>, name: Bytes, lib: TextLibrary): (value: Option<Bytes>) {
    if parameters == [] then None
    else
      var pair := Pair(parameters[|parameters| - 1], lib);
      if pair.Some? && SameIgnoringCase(pair.value.0, name) then Some(pair.value.1)
      else LastValue(parameters[..|parameters| - 1], name, lib)
  }

  ghost function SecretOf(value: Option<Bytes>, lib: TextLibrary): (secret: Option<Bytes>) {
    if value.None? then None else Some(Decoded(Digits(lib.trim(value.value))))
  }

  function AlgorithmOf(value: Option<Bytes>): (a: Algorithm) {
    if value.Some? && SameIgnoringCase(value.value, SHA256) then Sha256
    else if value.Some? && SameIgnoringCase(value.value, SHA512) then Sha512 else Sha1
  }

  function UnsignedOf(value: Option<Bytes>, bound: nat, lib: TextLibrary): (n: Option<nat>)
    ensures n.Some? ==> n.value < bound
  {
    if value.None? then None else ParseUnsigned(lib.trim(value.value), bound)
  }

  const U32_BOUND := 0x1_0000_0000
  const U64_BOUND := 0x1_0000_0000_0000_0000

  /** The four names are different in any case. */
  lemma OneName(name: Bytes)
    ensures SameIgnoringCase(name, SECRET) ==>
      !SameIgnoringCase(name, ALGORITHM) && !SameIgnoringCase(name, DIGITS) && !SameIgnoringCase(name, PERIOD)
    ensures SameIgnoringCase(name, ALGORITHM) ==> !SameIgnoringCase(name, DIGITS) && !SameIgnoringCase(name, PERIOD)
    ensures SameIgnoringCase(name, DIGITS) ==> !SameIgnoringCase(name, PERIOD)
  {
    assert Lower(SECRET[0]) != Lower(DIGITS[0]) && Lower(DIGITS[0]) != Lower(PERIOD[0]);
    assert Lower(SECRET[0]) != Lower(PERIOD[0]);
  }

  /** One more parameter decides its own name and no other. */
  lemma LastValueStep(parameters: seq<Bytes>, i: nat, name: Bytes, lib: TextLibrary)
    requires i < |parameters|
    ensures var pair := Pair(parameters[i], lib);
      LastValue(parameters[..i + 1], name, lib) ==
        if pair.Some? && SameIgnoringCase(pair.value.0, name) then Some(pair.value.1)
        else LastValue(parameters[..i], name, lib)
  {
    assert parameters[..i + 1][..i] == parameters[..i];
  }

  datatype Settings = Settings(secret: Option<Bytes>, algorithm: Algorithm, digits: nat, period: U64)

  /** The settings that a parameter list makes, the last parameter of a name deciding. */
  ghost function Settled(ps: seq<Bytes>, lib: TextLibrary): (s: Settings) {
    Settings(
      SecretOf(LastValue(ps, SECRET, lib), lib),
      AlgorithmOf(LastValue(ps, ALGORITHM, lib)),
      ClampDigits(UnsignedOf(LastValue(ps, DIGITS, lib), U32_BOUND, lib)),
      ClampPeriod(UnsignedOf(LastValue(ps, PERIOD, lib), U64_BOUND, lib)))
  }

  /** The settings after one more parameter. */
  ghost function Changed(s: Settings, name: Bytes, value: Bytes, lib: TextLibrary): (next: Settings) {
    if SameIgnoringCase(name, SECRET) then s.(secret := SecretOf(Some(value), lib))
    else if SameIgnoringCase(name, ALGORITHM) then s.(algorithm := AlgorithmOf(Some(value)))
    else if SameIgnoringCase(name, DIGITS) then s.(digits := ClampDigits(UnsignedOf(Some(value), U32_BOUND, lib)))
    else if SameIgnoringCase(name, PERIOD) then s.(period := ClampPeriod(UnsignedOf(Some(value), U64_BOUND, lib)))
    else s
  }

  /** One more parameter changes the setting of its name and no other. */
  lemma SettledStep(ps: seq<Bytes>, i: nat, lib: TextLibrary)
    requires i < |ps| && Pair(ps[i], lib).Some?
    ensures Settled(ps[..i + 1], lib)
      == Changed(Settled(ps[..i], lib), Pair(ps[i], lib).value.0, Pair(ps[i], lib).value.1, lib)
  {
    OneName(Pair(ps[i], lib).value.0);
    LastValueStep(ps, i, SECRET, lib);
    LastValueStep(ps, i, ALGORITHM, lib);
    LastValueStep(ps, i, DIGITS, lib);
    LastValueStep(ps, i, PERIOD, lib);
  }

  method ReadPair(parameter: Bytes, lib: TextLibrary) returns (pair: Option<(Bytes, Bytes)>)
    ensures pair == Pair(parameter, lib)
  {
    var eq := IndexOf(parameter, 0x3d);
    var name := PercentDecode(parameter[..eq], lib.utf8);
    var value := PercentDecode(if eq < |parameter| then parameter[eq + 1..] else [], lib.utf8);
    return if name.None? || value.None? then None else Some((name.value, value.value));
  }

  lemma SettledByNone(lib: TextLibrary)
    ensures Settled([], lib) == Settings(None, Sha1, 6, 30)
  {}

  lemma AcceptableStep(ps: seq<Bytes>, i: nat, lib: TextLibrary)
    requires i < |ps| && AllAcceptable(ps[..i], lib)
    ensures Acceptable(ps[i], lib) ==> AllAcceptable(ps[..i + 1], lib)
    ensures !Acceptable(ps[i], lib) ==> !AllAcceptable(ps, lib)
  {}

  /** One turn of the parameter loop; it fails exactly on a parameter that is not acceptable. */
  method ReadParameter(s: Settings, parameter: Bytes, lib: TextLibrary) returns (next: Option<Settings>)
    ensures next.Some? <==> Acceptable(parameter, lib)
    ensures next.Some? ==>
      next.value == Changed(s, Pair(parameter, lib).value.0, Pair(parameter, lib).value.1, lib)
  {
    var pair := ReadPair(parameter, lib);
    if pair.None? {
      return None;
    }
    var (name, value) := pair.value;
    var trimmed := lib.trim(value);
    if SameIgnoringCase(name, SECRET) {
      var secret := DecodeBase32(trimmed);
      return if secret.None? then None else Some(s.(secret := secret));
    } else if SameIgnoringCase(name, ALGORITHM) {
      var algorithm :=
        if SameIgnoringCase(value, SHA256) then Sha256
        else if SameIgnoringCase(value, SHA512) then Sha512 else Sha1;
      return Some(s.(algorithm := algorithm));
    } else if SameIgnoringCase(name, DIGITS) {
      return Some(s.(digits := ClampDigits(ParseUnsigned(trimmed, U32_BOUND))));
    } else if SameIgnoringCase(name, PERIOD) {
      return Some(s.(period := ClampPeriod(ParseUnsigned(trimmed, U64_BOUND))));
    }
    return Some(s);
  }

  method ReadParameters(parameters: seq<Bytes>, lib: TextLibrary) returns (settings: Option<Settings>)
    ensures settings == if AllAcceptable(parameters, lib) then Some(Settled(parameters, lib)) else None
  {
    var s := Settings(None, Sha1, 6, 30);
    SettledByNone(lib);
    for i := 0 to |parameters|
      invariant AllAcceptable(parameters[..i], lib)
      invariant s == Settled(parameters[..i], lib)
    {
      var next := ReadParameter(s, parameters[i], lib);
      AcceptableStep(parameters, i, lib);
      if next.None? {
        return None;
      }
      SettledStep(parameters, i, lib);
      s := next.value;
    }
    assert parameters[..|parameters|] == parameters;
    return Some(s);
  }

  /** The configuration of an otpauth URI: every parameter must be acceptable, and there must be a secret. */
  ghost function OtpauthConfig(uri: Bytes, lib: TextLibrary): (config: Option<TotpConfig>)
    requires |uri| >= 10
  {
    var rest := uri[10..];
    var mark := IndexOf(rest, 0x3f);
    if mark == |rest| || !SameIgnoringCase(SplitAll(rest[..mark], 0x2f)[0], TOTP) then None
    else
      var ps := SplitAll(rest[mark + 1..], 0x26);
      var s := Settled(ps, lib);
      if s.secret.None? || !AllAcceptable(ps, lib) then None
      else Some(TotpConfig(s.secret.value, s.algorithm, s.digits, s.period, false))
  }

  method ParseOtpauth(uri: Bytes, lib: TextLibrary) returns (config: Option<TotpConfig>)
    requires |uri| >= 10
    ensures config == OtpauthConfig(uri, lib)
  {
    var rest := uri[10..];
    var mark := IndexOf(rest, 0x3f);
    if mark == |rest| {
      return None;
    }
    var kind := SplitAll(rest[..mark], 0x2f)[0];
    if !SameIgnoringCase(kind, TOTP) {
      return None;
    }
    var read := ReadParameters(SplitAll(rest[mark + 1..], 0x26), lib);
    if read.None? || read.value.secret.None? {
      return None;
    }
    var s := read.value;
    return Some(TotpConfig(s.secret.value, s.algorithm, s.digits, s.period, false));
  }

  lemma {:induction false} LastSecretHasLetters(parameters: seq<Bytes>, lib: TextLibrary)
    requires forall i :: 0 <= i < |parameters| ==> Acceptable(parameters[i], lib)
    ensures var value := LastValue(parameters, SECRET, lib); value.Some? ==> |Digits(lib.trim(value.value))| > 1
  {
    if parameters != [] {
      assert Acceptable(parameters[|parameters| - 1], lib);
      LastSecretHasLetters(parameters[..|parameters| - 1], lib);
    }
  }

  /** What every seed means. */
  ghost function SeedConfig(text: Bytes, lib: TextLibrary): (config: Option<TotpConfig>) {
    var seed := lib.trim(text);
    if HasPrefix(seed, OTPAUTH) then OtpauthConfig(seed, lib)
    else
      var steam := HasPrefix(seed, STEAM);
      var ds := Digits(if steam then seed[8..] else seed);
      if |ds| <= 1 then None else Some(TotpConfig(Decoded(ds), Sha1, if steam then 5 else 6, 30, steam))
  }

  /** What each kind of seed stands for; the kind is told by its beginning in any case. */
  lemma SeedMeaning(text: Bytes, lib: TextLibrary)
    ensures var seed := lib.trim(text);
      && (HasPrefix(seed, Octets("otpauth://")) ==> SeedConfig(text, lib) == OtpauthConfig(seed, lib))
      && (HasPrefix(seed, Octets("steam://")) ==> SeedConfig(text, lib) == SecretConfig(seed[8..], 5, true))
      && (!HasPrefix(seed, Octets("otpauth://")) && !HasPrefix(seed, Octets("steam://")) ==>
        SeedConfig(text, lib) == SecretConfig(seed, 6, false))
  {
    var seed := lib.trim(text);
    if HasPrefix(seed, STEAM) && HasPrefix(seed, OTPAUTH) {
      assert Lower(seed[0]) == Lower(STEAM[0]) && Lower(seed[0]) == Lower(OTPAUTH[0]) by {
        assert seed[..8][0] == seed[0] && seed[..10][0] == seed[0];
      }
    }
  }

  /** A bare secret: SHA-1 and periods of 30 seconds. */
  ghost function SecretConfig(letters: Bytes, digits: nat, steam: bool): (config: Option<TotpConfig>) {
    if |Digits(letters)| <= 1 then None else Some(TotpConfig(Decoded(Digits(letters)), Sha1, digits, 30, steam))
  }

  /** A time-based otpauth URI is read from what stands behind its question mark; other kinds are refused. */
  lemma OtpauthMeaning(kind: Bytes, account: Bytes, query: Bytes, lib: TextLibrary)
    requires '/' as int !in kind && '?' as int !in kind && '?' as int !in account
    ensures var uri := Octets("otpauth://") + (kind + Octets("/") + account + Octets("?") + query);
      OtpauthConfig(uri, lib) ==
        var ps := SplitAll(query, '&' as int);
        var s := Settled(ps, lib);
        if !SameIgnoringCase(kind, Octets("totp")) || s.secret.None? || !AllAcceptable(ps, lib) then None
        else Some(TotpConfig(s.secret.value, s.algorithm, s.digits, s.period, false))
  {
    var path := kind + Octets("/") + account;
    var rest := path + Octets("?") + query;
    var uri := Octets("otpauth://") + (kind + Octets("/") + account + Octets("?") + query);
    assert uri[10..] == rest;
    FirstOf(path, '?' as int, query);
    assert Octets("?") == ['?' as int];
    assert rest[..|path|] == path && rest[|path| + 1..] == query;
    FirstOf(kind, '/' as int, account);
    assert Octets("/") == ['/' as int];
    assert path[..|kind|] == kind;
  }

  lemma FirstOf(before: Bytes, sep: byte, after: Bytes)
    requires sep !in before
    ensures IndexOf(before + [sep] + after, sep) == |before|
  {
    var text := before + [sep] + after;
    assert forall k :: 0 <= k < |before| ==> text[k] == before[k];
    assert text[|before|] == sep;
  }

  /** What the parameters say, the last of a name deciding; the names are read in any case. */
  lemma SettingsMeaning(ps: seq<Bytes>, lib: TextLibrary)
    ensures var s, a := Settled(ps, lib), LastValue(ps, Octets("algorithm"), lib);
      && s.algorithm == (if a.Some? && SameIgnoringCase(a.value, Octets("SHA256")) then Sha256
                         else if a.Some? && SameIgnoringCase(a.value, Octets("SHA512")) then Sha512 else Sha1)
    ensures var s, d := Settled(ps, lib), LastValue(ps, Octets("digits"), lib);
      && (d.None? || !(exists n :: 0 < n < 0x1_0000_0000 && Spells(lib.trim(d.value), n)) ==> s.digits == 6)
      && (forall n: nat :: d.Some? && 0 < n < 0x1_0000_0000 && Spells(lib.trim(d.value), n) ==>
        s.digits == if n > 10 then 10 else n)
    ensures var s, p := Settled(ps, lib), LastValue(ps, Octets("period"), lib);
      && (p.None? || !(exists n :: 0 < n < 0x1_0000_0000_0000_0000 && Spells(lib.trim(p.value), n)) ==> s.period == 30)
      && (forall n: nat :: p.Some? && 0 < n < 0x1_0000_0000_0000_0000 && Spells(lib.trim(p.value), n) ==> s.period == n)
    ensures var s, x := Settled(ps, lib), LastValue(ps, Octets("secret"), lib);
      s.secret == if x.None? then None else Some(Decoded(Digits(lib.trim(x.value))))
  {
    var d, p := LastValue(ps, DIGITS, lib), LastValue(ps, PERIOD, lib);
    if d.Some? { UnsignedMeaning(lib.trim(d.value), U32_BOUND); }
    if p.Some? { UnsignedMeaning(lib.trim(p.value), U64_BOUND); }
  }

  /** Decimal digits, perhaps behind a plus sign, that denote `n`. */
  ghost predicate Spells(text: Bytes, n: int) {
    exists sign: Bytes, digits: Bytes :: SpellsWith(text, sign, digits, n)
  }

  ghost predicate SpellsWith(text: Bytes, sign: Bytes, digits: Bytes, n: int) {
    && text == sign + digits && (sign == [] || sign == Octets("+")) && digits != []
    && AllDigits(digits) && DecimalValue(digits) == n
  }

  lemma UnsignedMeaning(text: Bytes, bound: nat)
    ensures forall n :: ParseUnsigned(text, bound) == Some(n) <==> n < bound && Spells(text, n)
  {
    var plus := text != [] && text[0] == 0x2b;
    var digits := if plus then text[1..] else text;
    assert Octets("+") == [0x2b];
    forall n | Spells(text, n) ensures digits != [] && AllDigits(digits) && DecimalValue(digits) == n
    {
      var sign: Bytes, ds: Bytes :| SpellsWith(text, sign, ds, n);
      if sign == [] { assert text == ds && IsDigit(ds[0]); } else { assert text[1..] == ds; }
      assert ds == digits;
    }
    forall n: nat | ParseUnsigned(text, bound) == Some(n) ensures Spells(text, n) {
      if plus {
        assert text == [0x2b] + digits;
        assert SpellsWith(text, [0x2b], digits, n);
      } else {
        assert text == [] + digits;
        assert SpellsWith(text, [], digits, n);
      }
    }
  }

  /** The pieces between the separators. */
  lemma {:induction false} SplitAllMeaning(text: Bytes, sep: byte)
    ensures var pieces := SplitAll(text, sep);
      && Rejoined(pieces, sep) == text && forall i :: 0 <= i < |pieces| ==> sep !in pieces[i]
    decreases |text|
  {
    var i := IndexOf(text, sep);
    if i < |text| {
      SplitAllMeaning(text[i + 1..], sep);
      var rest := SplitAll(text[i + 1..], sep);
      assert SplitAll(text, sep)[1..] == rest;
      assert text == text[..i] + [sep] + text[i + 1..];
    }
  }

  function Rejoined(pieces: seq<Bytes>, sep: byte): (text: Bytes)
    requires pieces != []
  {
    if |pieces| == 1 then pieces[0] else pieces[0] + [sep] + Rejoined(pieces[1..], sep)
  }

  /** The last parameter of a name that can be decoded decides. */
  lemma {:induction false} LastValueMeaning(ps: seq<Bytes>, name: Bytes, lib: TextLibrary) returns (i: nat)
    ensures LastValue(ps, name, lib).None? ==> forall k :: 0 <= k < |ps| ==> !Names(ps[k], name, lib)
    ensures LastValue(ps, name, lib).Some? ==>
      i < |ps| && LastNames(ps, i, name, lib) && LastValue(ps, name, lib) == Some(Pair(ps[i], lib).value.1)
  {
    i := 0;
    if ps != [] {
      var before, n := ps[..|ps| - 1], |ps| - 1;
      if Names(ps[n], name, lib) {
        i := n;
      } else {
        i := LastValueMeaning(before, name, lib);
        NamesExtend(ps, i, name, lib);
      }
    }
  }

  lemma NamesExtend(ps: seq<Bytes>, i: nat, name: Bytes, lib: TextLibrary)
    requires ps != [] && !Names(ps[|ps| - 1], name, lib)
    ensures var before := ps[..|ps| - 1];
      && ((forall k :: 0 <= k < |before| ==> !Names(before[k], name, lib)) ==>
        forall k :: 0 <= k < |ps| ==> !Names(ps[k], name, lib))
      && (i < |before| && LastNames(before, i, name, lib) ==> LastNames(ps, i, name, lib))
  {
    assert forall k :: 0 <= k < |ps| - 1 ==> ps[..|ps| - 1][k] == ps[k];
  }

  predicate LastNames(ps: seq<Bytes>, i: nat, name: Bytes, lib: TextLibrary)
    requires i < |ps|
  {
    Names(ps[i], name, lib) && forall k :: i < k < |ps| ==> !Names(ps[k], name, lib)
  }

  predicate Names(parameter: Bytes, name: Bytes, lib: TextLibrary) {
    Pair(parameter, lib).Some? && SameIgnoringCase(Pair(parameter, lib).value.0, name)
  }

  /** A parameter is split at its first equals sign, and both sides are decoded. */
  lemma PairMeaning(name: Bytes, value: Bytes, lib: TextLibrary)
    requires '=' as int !in name
    ensures var n, v := Text(Unescaped(name), lib.utf8), Text(Unescaped(value), lib.utf8);
      Pair(name + Octets("=") + value, lib) == if n.None? || v.None? then None else Some((n.value, v.value))
  {
    var parameter := name + Octets("=") + value;
    FirstOf(name, '=' as int, value);
    assert Octets("=") == ['=' as int];
    assert parameter[..|name|] == name && parameter[|name| + 1..] == value;
  }

  /** A seed that parses gives a usable configuration. */
  lemma SeedIsUsable(text: Bytes, lib: TextLibrary)
    requires SeedConfig(text, lib).Some?
    ensures Usable(SeedConfig(text, lib).value)
  {
    var seed := lib.trim(text);
    if HasPrefix(seed, OTPAUTH) {
      var rest := seed[10..];
      var ps := SplitAll(rest[IndexOf(rest, 0x3f) + 1..], 0x26);
      assert forall i :: 0 <= i < |ps| ==> Acceptable(ps[i], lib);
      LastSecretHasLetters(ps, lib);
      DecodedNonEmpty(Digits(lib.trim(LastValue(ps, SECRET, lib).value)));
    } else {
      DecodedNonEmpty(Digits(if HasPrefix(seed, STEAM) then seed[8..] else seed));
    }
  }

  lemma DecodedNonEmpty(ds: seq<Quint>)
    requires |ds| > 1
    ensures Decoded(ds) != []
  {
    assert |Decoded(ds)| == 5 * |ds| / 8;
  }

  method Parse(text: Bytes, lib: TextLibrary) returns (config: Option<TotpConfig>)
    ensures config == SeedConfig(text, lib)
    ensures config.Some? ==> Usable(config.value)
  {
    var seed := lib.trim(text);
    if SeedConfig(text, lib).Some? { SeedIsUsable(text, lib); }
    if HasPrefix(seed, OTPAUTH) {
      config := ParseOtpauth(seed, lib);
      return;
    }
    var steam := HasPrefix(seed, STEAM);
    var secret := DecodeBase32(if steam then seed[8..] else seed);
    return if secret.None? then None else Some(TotpConfig(secret.value, Sha1, if steam then 5 else 6, 30, steam));
  }

  // ----- codes -----

  type Digest20 = d: Bytes | |d| == 20 witness seq(20, _ => 0)
  type Digest32 = d: Bytes | |d| == 32 witness seq(32, _ => 0)
  type Digest64 = d: Bytes | |d| == 64 witness seq(64, _ => 0)

  /** The three keyed hashes, as any functions of secret and counter with digests of the right length. */
  datatype Hmacs = Hmacs(
    sha1: (Bytes, Bytes) -> Digest20, sha256: (Bytes, Bytes) -> Digest32, sha512: (Bytes, Bytes) -> Digest64)

  function DigestOf(c: TotpConfig, counter: Bytes, h: Hmacs): (d: Bytes)
    ensures |d| in {20, 32, 64}
  {
    match c.algorithm
    case Sha1 => h.sha1(c.secret, counter)
    case Sha256 => h.sha256(c.secret, counter)
    case Sha512 => h.sha512(c.secret, counter)
  }

  const CODE_LIMIT := 0x8000_0000

  /** Dynamic truncation: four bytes at the offset in the last byte's low half, the top bit cleared. */
  function Truncated(d: Bytes): (code: nat)
    requires |d| >= 20
    ensures code < CODE_LIMIT
  {
    var offset := d[|d| - 1] % 16;
    Remainder(BigEndian(d[offset..offset + 4]), CODE_LIMIT)
  }

  /** The truncation of section 5.3 of RFC 4226, byte by byte: only the top bit of the first byte is lost. */
  lemma TruncatedMeaning(d: Bytes)
    requires |d| >= 20
    ensures var o := d[|d| - 1] % 16; Truncated(d) == Word(d[o] % 128, d[o + 1], d[o + 2], d[o + 3])
  {
    var o := d[|d| - 1] % 16;
    WordOfBytes(d[o..o + 4]);
    TopBit(d[o], d[o + 1], d[o + 2], d[o + 3]);
  }

  lemma TopBit(a: byte, b: byte, c: byte, d: byte)
    ensures Remainder(Word(a, b, c, d), CODE_LIMIT) == Word(a % 128, b, c, d)
  {
    var q: nat, r: nat := a / 128, a % 128;
    assert a == 128 * q + r;
    assert Word(a, b, c, d) == q * CODE_LIMIT + Word(r, b, c, d);
    DivisionUnique(q, Word(r, b, c, d), CODE_LIMIT);
  }

  lemma DivisionUnique(q: nat, r: nat, d: nat)
    requires r < d
    ensures Remainder(q * d + r, d) == r
  {
    QuotientIs(q, r, d);
    DivisionLaw(q * d + r, d);
  }

  /** The keyed hash of the algorithm, over the counter in eight bytes, truncated (sections 4 of RFC 6238 and
      5.3 of RFC 4226). */
  lemma CodeMeaning(c: TotpConfig, timestamp: U64, h: Hmacs)
    requires c.period >= 1
    ensures var counter := ToBigEndian(timestamp / c.period, 8);
      var d: Bytes := if c.algorithm == Sha1 then h.sha1(c.secret, counter)
        else if c.algorithm == Sha256 then h.sha256(c.secret, counter) else h.sha512(c.secret, counter);
      var o := d[|d| - 1] % 16;
      && BigEndian(counter) == timestamp / c.period
      && CodeAt(c, timestamp, h) == Word(d[o] % 128, d[o + 1], d[o + 2], d[o + 3])
  {
    var steps := Quotient(timestamp, c.period);
    QuotientFits(timestamp, c.period);
    EightBytes();
    ToBigEndianInverse(steps, 8);
    TruncatedMeaning(DigestOf(c, ToBigEndian(steps, 8), h));
  }

  lemma EightBytes()
    ensures Pow(256, 8) == 0x1_0000_0000_0000_0000
  {
    assert Pow(256, 2) == 0x1_0000 && Pow(256, 4) == 0x1_0000_0000 && Pow(256, 6) == 0x1_0000_0000_0000;
  }

  lemma QuotientFits(n: nat, d: nat)
    requires d >= 1
    ensures n / d <= n
  {
    DivisionLaw(n, d);
    Grows(n / d, d);
  }

  lemma Grows(q: nat, d: nat)
    requires d >= 1
    ensures q <= q * d
  {
    assert q * d == q * (d - 1) + q;
  }

  function CodeAt(c: TotpConfig, timestamp: U64, h: Hmacs): (code: nat)
    requires c.period >= 1
    ensures code < CODE_LIMIT
  {
    Truncated(DigestOf(c, ToBigEndian(Quotient(timestamp, c.period), 8), h))
  }

  /** The `width` decimal digits of a number, zeros in front. */
  function Padded(n: nat, width: nat): (text: Bytes)
    ensures |text| == width && forall i :: 0 <= i < width ==> IsDigit(text[i])
  {
    if width == 0 then [] else Padded(n / 10, width - 1) + [0x30 + n % 10]
  }

  lemma {:induction false} PaddedMeaning(n: nat, width: nat)
    requires n < Pow(10, width)
    ensures DecimalValue(Padded(n, width)) == n
  {
    if width > 0 {
      PaddedMeaning(n / 10, width - 1);
      assert Padded(n, width)[..width - 1] == Padded(n / 10, width - 1);
    }
  }

  const STEAM_ALPHABET: Bytes := // 23456789BCDFGHJKMNPQRTVWXY
    [0x32, 0x33, 0x34, 0x35, 0x36, 0x37, 0x38, 0x39, 0x42, 0x43, 0x44, 0x46, 0x47,
     0x48, 0x4a, 0x4b, 0x4d, 0x4e, 0x50, 0x51, 0x52, 0x54, 0x56, 0x57, 0x58, 0x59]

  lemma SteamAlphabetText()
    ensures STEAM_ALPHABET == Octets("23456789BCDFGHJKMNPQRTVWXY")
  {}

  /** The base-26 digit of weight `26^i`. */
  function SteamDigit(code: nat, i: nat): (d: nat)
    ensures d < 26
  {
    code / Pow(26, i) % 26
  }

  lemma SteamDigitStep(code: nat, i: nat)
    ensures SteamDigit(code, 0) == code % 26 && SteamDigit(code, i + 1) == SteamDigit(code / 26, i)
  {
    DivideTwice(code, Pow(26, i));
    assert Pow(26, 0) == 1;
  }

  /** Letter `i` is that digit. */
  lemma {:induction false} SteamLetterMeaning(code: nat, count: nat, i: nat)
    requires i < count
    ensures SteamText(code, count)[i] == STEAM_ALPHABET[SteamDigit(code, i)]
  {
    SteamDigitStep(code, if i > 0 then i - 1 else 0);
    if i > 0 { SteamLetterMeaning(code / 26, count - 1, i - 1); }
  }

  lemma DivideTwice(n: nat, m: nat)
    requires m > 0
    ensures n / 26 / m == n / (26 * m)
  {
    var q, r := n / 26, n % 26;
    var u, v := q / m, q % m;
    DivisionLaw(q, m);
    Regroup(u, m);
    assert n == u * (26 * m) + (26 * v + r);
    QuotientIs(u, 26 * v + r, 26 * m);
  }

  /** The `count` base-26 digits of a code in the Steam alphabet, least significant first. */
  function SteamText(code: nat, count: nat): (text: Bytes)
    ensures |text| == count
  {
    if count == 0 then [] else [STEAM_ALPHABET[code % 26]] + SteamText(code / 26, count - 1)
  }

  /** The code as five letters, taken off the low end one at a time. */
  method SteamLetters(code: nat) returns (output: Bytes)
    ensures output == SteamText(code, 5)
  {
    var value := code;
    output := [];
    for i := 0 to 5
      invariant output + SteamText(value, 5 - i) == SteamText(code, 5)
    {
      Associate(output, [STEAM_ALPHABET[value % 26]], SteamText(value / 26, 4 - i));
      output := output + [STEAM_ALPHABET[value % 26]];
      value := value / 26;
    }
    assert output + [] == output;
  }

  /** The code as decimal digits, unless the power of ten leaves 64 bits. */
  method DecimalDigits(code: nat, digits: nat) returns (text: Option<Bytes>)
    ensures digits <= 10 ==> text.Some?
    ensures text.Some? ==> ReadsAs(text.value, digits, Remainder(code, Pow(10, digits)))
  {
    var modulus := Pow(10, digits);
    if digits <= 10 { TenDigitsFit(digits); }
    if modulus >= 0x1_0000_0000_0000_0000 {
      return None;
    }
    var shown := Remainder(code, modulus);
    PaddedMeaning(shown, digits);
    return Some(Padded(shown, digits));
  }

  /** Exactly `width` decimal characters that denote `n`. */
  predicate ReadsAs(text: Bytes, width: nat, n: nat) {
    && |text| == width
    && (forall i :: 0 <= i < width ==> IsDigit(text[i]))
    && DecimalValue(text) == n
  }

  /** The text is the code of the configuration at that time: five Steam letters, or exactly the configured
      number of decimal characters denoting the code modulo that power of ten. */
  ghost predicate IsCode(text: Bytes, c: TotpConfig, timestamp: U64, h: Hmacs)
    requires c.period >= 1
  {
    if c.steam then text == SteamText(CodeAt(c, timestamp, h), 5)
    else ReadsAs(text, c.digits, Remainder(CodeAt(c, timestamp, h), Pow(10, c.digits)))
  }

  /** Every usable configuration yields its code at every time: the division, the truncation slice and
      the power of ten never fail. */
  method GenerateConfig(c: TotpConfig, timestamp: U64, h: Hmacs) returns (text: Option<Bytes>)
    ensures Usable(c) ==> text.Some?
    ensures c.period == 0 ==> text.None?
    ensures text.Some? ==> IsCode(text.value, c, timestamp, h)
  {
    if c.period == 0 {
      return None;
    }
    var counter := ToBigEndian(Quotient(timestamp, c.period), 8);
    var digest := DigestOf(c, counter, h);
    var offset := digest[|digest| - 1] % 16;
    var code := Remainder(BigEndian(digest[offset..offset + 4]), CODE_LIMIT);
    if c.steam {
      var letters := SteamLetters(code);
      return Some(letters);
    }
    text := DecimalDigits(code, c.digits);
  }

  /** Every seed that parses yields the code of its configuration at every time. */
  method Generate(seed: Bytes, timestamp: U64, lib: TextLibrary, h: Hmacs) returns (text: Option<Bytes>)
    ensures text.Some? <==> SeedConfig(seed, lib).Some?
    ensures text.Some? ==>
      Usable(SeedConfig(seed, lib).value) && IsCode(text.value, SeedConfig(seed, lib).value, timestamp, h)
  {
    var config := Parse(seed, lib);
    if config.None? {
      return None;
    }
    text := GenerateConfig(config.value, timestamp, h);
  }

  lemma {:induction false} TenDigitsFit(digits: nat)
    requires digits <= 10
    ensures Pow(10, digits) <= 10000000000
    decreases 10 - digits
  {
    if digits < 10 {
      TenDigitsFit(digits + 1);
    } else {
      assert Pow(10, 5) == 100000 && Pow(10, 10) == 100000 * Pow(10, 5);
    }
  }

  lemma SteamAlphabetInjective(i: int, j: int)
    requires 0 <= i < 26 && 0 <= j < 26 && STEAM_ALPHABET[i] == STEAM_ALPHABET[j]
    ensures i == j
  {}

  /** Two Steam codes read the same exactly when they agree modulo 26^5. */
  lemma SteamTextMeaning(a: nat, b: nat)
    ensures SteamText(a, 5) == SteamText(b, 5) <==> a % 11881376 == b % 11881376
  {
    SteamTextModulo(a, b, 5);
    assert Pow(26, 5) == 11881376 by { assert Pow(26, 2) == 676 && Pow(26, 4) == 456976; }
  }

  lemma {:induction false} SteamTextModulo(a: nat, b: nat, count: nat)
    ensures SteamText(a, count) == SteamText(b, count) <==> a % Pow(26, count) == b % Pow(26, count)
  {
    if count > 0 {
      SteamTextModulo(a / 26, b / 26, count - 1);
      ModuloStep(a, Pow(26, count - 1));
      ModuloStep(b, Pow(26, count - 1));
      var s, t := SteamText(a, count), SteamText(b, count);
      assert s[1..] == SteamText(a / 26, count - 1) && t[1..] == SteamText(b / 26, count - 1);
      if s == t { SteamAlphabetInjective(a % 26, b % 26); }
    }
  }

  /** The last digit and the remainder of the rest make up the remainder. */
  lemma ModuloStep(a: nat, m: nat)
    requires m > 0
    ensures a % (26 * m) == 26 * ((a / 26) % m) + a % 26
  {
    var q, r := a / 26, a % 26;
    var u, v := q / m, q % m;
    DivisionLaw(q, m);
    Regroup(u, m);
    assert a == u * (26 * m) + (26 * v + r);
    QuotientIs(u, 26 * v + r, 26 * m);
    DivisionLaw(a, 26 * m);
  }

  lemma Regroup(u: nat, m: nat)
    ensures 26 * (u * m) == u * (26 * m)
  {}

  lemma DivisionLaw(a: nat, d: nat)
    requires d > 0
    ensures a == (a / d) * d + a % d
  {}
}
