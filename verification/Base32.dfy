/** The Base32 reader of src/totp.rs: a bit accumulator over the alphabet characters of a text, and
    its agreement with section 6 of RFC 4648. */
module Base32 {
  import opened ByteStrings

  type U32 = x: int | 0 <= x < 0x1_0000_0000

  // ----- the alphabet -----

  /** The value of a character in any case, or -1 outside the alphabet. */
  function Value(b: byte): (v: int)
    ensures -1 <= v < 32
  {
    var u := Upper(b);
    if 0x41 <= u <= 0x5a then u - 0x41 else if 0x32 <= u <= 0x37 then u - 0x32 + 26 else -1
  }

  /** The alphabet character of a value. */
  function Symbol(v: int): (b: byte)
    requires 0 <= v < 32
    ensures Value(b) == v && Upper(b) == b
  {
    if v < 26 then 0x41 + v else 0x32 + v - 26
  }

  /** The alphabet of section 6 of RFC 4648, in either case. */
  lemma AlphabetMeaning(v: int, b: byte)
    requires 0 <= v < 32
    ensures Symbol(v) == if v < 26 then 'A' as int + v else '2' as int + (v - 26)
    ensures Value(b) == v <==> b == Symbol(v) || (v < 26 && b == 'a' as int + v)
  {}

  type Quint = v: int | 0 <= v < 32

  /** The values of the alphabet characters of a text, everything else skipped. */
  function Digits(text: Bytes): (ds: seq<Quint>) {
    if text == [] then []
    else
      var before, v := Digits(text[..|text| - 1]), Value(text[|text| - 1]);
      if v >= 0 then before + [v] else before
  }

  /** The big-endian number that the digits spell. */
  function Number(ds: seq<Quint>): (n: nat) {
    if ds == [] then 0 else 32 * Number(ds[..|ds| - 1]) + ds[|ds| - 1]
  }

  /** The first digit weighs most. */
  lemma {:induction false} NumberMeaning(first: Quint, rest: seq<Quint>)
    ensures Number([first] + rest) == first * Pow(32, |rest|) + Number(rest)
  {
    var all := [first] + rest;
    if rest == [] {
      assert all[..0] == [];
    } else {
      NumberMeaning(first, rest[..|rest| - 1]);
      assert all[..|all| - 1] == [first] + rest[..|rest| - 1];
      Weigh(32, first, Pow(32, |rest| - 1), Number(rest[..|rest| - 1]), rest[|rest| - 1]);
    }
  }

  /** Powers of two, for the shifts of the accumulator. */
  function TwoTo(k: nat): (p: nat)
    ensures p > 0
  {
    if k == 0 then 1 else 2 * TwoTo(k - 1)
  }

  // ----- the accumulator -----

  /** `out` and the low `bits` bits in `acc` together spell the digits read so far. */
  ghost predicate Spelled(out: Bytes, acc: int, bits: nat, ds: seq<Quint>) {
    && bits < 8 && 0 <= acc < TwoTo(bits)
    && 8 * |out| + bits == 5 * |ds|
    && BigEndian(out) * TwoTo(bits) + acc == Number(ds)
  }

  /** The decoded bytes: the first whole ones of the number's `5 * n` bits. */
  ghost function Decoded(ds: seq<Quint>): (b: Bytes) {
    ToBigEndian(Quotient(Number(ds), TwoTo(5 * |ds| % 8)), 5 * |ds| / 8)
  }

  function Quotient(n: nat, q: nat): (r: nat)
    requires q > 0
  {
    n / q
  }

  function Remainder(n: nat, q: nat): (r: nat)
    requires q > 0
  {
    n % q
  }

  /** The cast to a byte. */
  function LowByte(n: nat): (b: byte) {
    n % 256
  }

  lemma TwoToTable()
    ensures TwoTo(0) == 1 && TwoTo(1) == 2 && TwoTo(2) == 4 && TwoTo(3) == 8
    ensures TwoTo(4) == 16 && TwoTo(5) == 32 && TwoTo(6) == 64 && TwoTo(7) == 128
  {
    assert TwoTo(3) == 8 && TwoTo(6) == 8 * TwoTo(3);
  }

  /** Shifting in five bits: the accumulator stays far below 32 bits. */
  lemma ShiftIn(v: nat, acc: int, bits: nat, n: nat, d: Quint)
    requires bits < 8 && 0 <= acc < TwoTo(bits) && v * TwoTo(bits) + acc == n
    ensures 0 <= acc * 32 + d < 0x1000
    ensures bits < 3 ==> acc * 32 + d < TwoTo(bits + 5) && v * TwoTo(bits + 5) + (acc * 32 + d) == 32 * n + d
  {
    TwoToTable();
  }

  /** Taking out a whole byte keeps the number; the byte fits without truncation. */
  lemma TakeByte(v: nat, acc: int, bits: nat, n: nat, d: Quint, top: nat, low: nat)
    requires 3 <= bits < 8 && 0 <= acc < TwoTo(bits) && v * TwoTo(bits) + acc == n
    requires top == Quotient(acc * 32 + d, TwoTo(bits - 3)) && low == Remainder(acc * 32 + d, TwoTo(bits - 3))
    ensures top < 256 && low < TwoTo(bits - 3)
    ensures (256 * v + top) * TwoTo(bits - 3) + low == 32 * n + d
  {
    TwoToTable();
    var a := acc * 32 + d;
    if bits == 3 {
    } else if bits == 4 {
      assert a == 2 * (a / 2) + a % 2;
    } else if bits == 5 {
      assert a == 4 * (a / 4) + a % 4;
    } else if bits == 6 {
      assert a == 8 * (a / 8) + a % 8;
    } else {
      assert a == 16 * (a / 16) + a % 16;
    }
  }

  /** The loop's variables. */
  datatype Reader = Reader(output: Bytes, accumulator: nat, bits: nat)

  /** One turn of the loop for an alphabet character, with the cast to a byte written out. */
  ghost function Turn(r: Reader, d: Quint): (next: Reader) {
    var a := r.accumulator * 32 + d;
    if r.bits < 3 then Reader(r.output, a, r.bits + 5)
    else
      var q := TwoTo(r.bits - 3);
      Reader(r.output + [LowByte(Quotient(a, q))], Remainder(a, q), r.bits - 3)
  }

  ghost function Run(text: Bytes): (r: Reader) {
    if text == [] then Reader([], 0, 0)
    else
      var before, v := Run(text[..|text| - 1]), Value(text[|text| - 1]);
      if v >= 0 then Turn(before, v) else before
  }

  lemma ReadBits(r: Reader, ds: seq<Quint>, d: Quint)
    requires Spelled(r.output, r.accumulator, r.bits, ds) && r.bits < 3
    ensures Spelled(r.output, r.accumulator * 32 + d, r.bits + 5, ds + [d])
  {
    assert (ds + [d])[..|ds|] == ds;
    ShiftIn(BigEndian(r.output), r.accumulator, r.bits, Number(ds), d);
  }

  lemma AppendByte(out: Bytes, top: byte)
    ensures BigEndian(out + [top]) == 256 * BigEndian(out) + top
  {
    assert (out + [top])[..|out|] == out;
  }

  lemma NumberAppend(ds: seq<Quint>, d: Quint)
    ensures Number(ds + [d]) == 32 * Number(ds) + d
  {
    assert (ds + [d])[..|ds|] == ds;
  }

  lemma ReadByte(r: Reader, ds: seq<Quint>, d: Quint, top: nat, low: nat)
    requires Spelled(r.output, r.accumulator, r.bits, ds) && r.bits >= 3
    requires top == Quotient(r.accumulator * 32 + d, TwoTo(r.bits - 3))
    requires low == Remainder(r.accumulator * 32 + d, TwoTo(r.bits - 3))
    ensures LowByte(top) == top
    ensures Spelled(r.output + [LowByte(top)], low, r.bits - 3, ds + [d])
  {
    TakeByte(BigEndian(r.output), r.accumulator, r.bits, Number(ds), d, top, low);
    NumberAppend(ds, d);
    AppendByte(r.output, top);
  }

  lemma ReadDigit(r: Reader, ds: seq<Quint>, d: Quint)
    requires Spelled(r.output, r.accumulator, r.bits, ds)
    ensures var t := Turn(r, d); Spelled(t.output, t.accumulator, t.bits, ds + [d])
  {
    if r.bits < 3 {
      ReadBits(r, ds, d);
    } else {
      var a, q := r.accumulator * 32 + d, TwoTo(r.bits - 3);
      ReadByte(r, ds, d, Quotient(a, q), Remainder(a, q));
    }
  }

  lemma {:induction false} RunSpells(text: Bytes)
    ensures Spelled(Run(text).output, Run(text).accumulator, Run(text).bits, Digits(text))
  {
    if text != [] {
      var before, v := text[..|text| - 1], Value(text[|text| - 1]);
      RunSpells(before);
      if v >= 0 { ReadDigit(Run(before), Digits(before), v); }
    }
  }

  lemma RunFits(text: Bytes)
    ensures Run(text).accumulator < 0x80 && Run(text).bits < 8
  {
    RunSpells(text);
    TwoToTable();
  }

  /** The accumulator loop. It fails exactly when fewer than two alphabet characters occur. */
  method DecodeBase32(value: Bytes) returns (decoded: Option<Bytes>)
    ensures decoded == if |Digits(value)| <= 1 then None else Some(Decoded(Digits(value)))
  {
    var output: Bytes := [];
    var accumulator: U32 := 0;
    var bits: U32 := 0;
    for i := 0 to |value|
      invariant accumulator < 0x80 && bits < 8
      invariant Reader(output, accumulator, bits) == Run(value[..i])
    {
      assert value[..i + 1][..i] == value[..i];
      RunFits(value[..i + 1]);
      var digit := Value(value[i]);
      if digit >= 0 {
        accumulator := accumulator * 32 + digit;
        bits := bits + 5;
        if bits >= 8 {
          bits := bits - 8;
          output := output + [LowByte(Quotient(accumulator, TwoTo(bits)))];
          accumulator := Remainder(accumulator, TwoTo(bits));
        }
      }
    }
    assert value[..|value|] == value;
    RunSpells(value);
    SpelledIsDecoded(output, accumulator, bits, Digits(value));
    return if output == [] then None else Some(output);
  }

  lemma SpelledIsDecoded(out: Bytes, acc: int, bits: nat, ds: seq<Quint>)
    requires Spelled(out, acc, bits, ds)
    ensures out == Decoded(ds)
  {
    var q, v := TwoTo(bits), BigEndian(out);
    assert bits == 5 * |ds| % 8 && |out| == 5 * |ds| / 8;
    QuotientIs(v, acc, q);
    BigEndianBound(out);
    ToBigEndianInverse(v, |out|);
    BigEndianInjective(out, ToBigEndian(v, |out|));
  }

  lemma QuotientIs(v: nat, acc: int, q: nat)
    requires q > 0 && 0 <= acc < q
    ensures (v * q + acc) / q == v
  {
    var n := v * q + acc;
    assert n == (n / q) * q + n % q;
    var d := n / q - v;
    assert d * q == acc - n % q;
    WithinOne(d, q);
  }

  lemma WithinOne(d: int, q: int)
    requires q > 0 && -q < d * q < q
    ensures d == 0
  {
    assert d >= 1 ==> d * q >= q;
    assert d <= -1 ==> d * q <= -1 * q;
  }

  lemma {:induction false} BigEndianBound(b: Bytes)
    ensures BigEndian(b) < Pow(256, |b|)
  {
    if b != [] { BigEndianBound(b[..|b| - 1]); }
  }

  // ----- section 6 of RFC 4648 -----

  /** The `m` lowest base-32 digits of `n`, most significant first. */
  function ToDigits(n: nat, m: nat): (ds: seq<Quint>)
    ensures |ds| == m
  {
    if m == 0 then [] else ToDigits(n / 32, m - 1) + [n % 32]
  }

  function DigitCount(bytes: nat): (m: nat) { (8 * bytes + 4) / 5 }

  function PaddingOf(bytes: nat): (p: nat) { 5 * DigitCount(bytes) - 8 * bytes }

  /** The bits of `b`, padded on the right with zeros to a multiple of five, in groups of five. */
  function EncodedDigits(b: Bytes): (ds: seq<Quint>) {
    ToDigits(BigEndian(b) * TwoTo(PaddingOf(|b|)), DigitCount(|b|))
  }

  function Symbols(ds: seq<Quint>): (text: Bytes)
    ensures |text| == |ds|
  {
    if ds == [] then [] else Symbols(ds[..|ds| - 1]) + [Symbol(ds[|ds| - 1])]
  }

  /** The encoding without its padding. */
  function Encoded(b: Bytes): (text: Bytes) {
    Symbols(EncodedDigits(b))
  }

  /** The alphabet characters of a text in upper case, all others removed: padding, blanks, dashes. */
  function Letters(text: Bytes): (letters: Bytes) {
    if text == [] then []
    else
      var before, last := Letters(text[..|text| - 1]), text[|text| - 1];
      if Value(last) >= 0 then before + [Upper(last)] else before
  }

  lemma {:induction false} DigitsOfLetters(text: Bytes)
    ensures Digits(Letters(text)) == Digits(text)
  {
    if text != [] {
      DigitsOfLetters(text[..|text| - 1]);
      var before, last := Letters(text[..|text| - 1]), text[|text| - 1];
      if Value(last) >= 0 {
        assert (before + [Upper(last)])[..|before|] == before;
      }
    }
  }

  lemma {:induction false} DigitsOfSymbols(ds: seq<Quint>)
    ensures Digits(Symbols(ds)) == ds
  {
    if ds != [] {
      DigitsOfSymbols(ds[..|ds| - 1]);
      assert Symbols(ds)[..|ds| - 1] == Symbols(ds[..|ds| - 1]);
      assert ds == ds[..|ds| - 1] + [ds[|ds| - 1]];
    }
  }

  lemma {:induction false} ToDigitsInverse(n: nat, m: nat)
    requires n < Pow(32, m)
    ensures Number(ToDigits(n, m)) == n
  {
    if m > 0 {
      ToDigitsInverse(n / 32, m - 1);
      assert ToDigits(n, m)[..m - 1] == ToDigits(n / 32, m - 1);
    }
  }

  lemma {:induction false} PowersOfTwo(k: nat)
    ensures Pow(256, k) == TwoTo(8 * k) && Pow(32, k) == TwoTo(5 * k)
  {
    if k > 0 {
      PowersOfTwo(k - 1);
      TwoToTable();
      TwoToAdd(8, 8 * (k - 1));
      TwoToAdd(5, 5 * (k - 1));
      assert TwoTo(8) == 2 * TwoTo(7);
    }
  }

  lemma {:induction false} TwoToAdd(a: nat, b: nat)
    ensures TwoTo(a + b) == TwoTo(a) * TwoTo(b)
  {
    if a > 0 {
      TwoToAdd(a - 1, b);
      assert TwoTo(a + b) == 2 * TwoTo(a - 1 + b);
      assert 2 * (TwoTo(a - 1) * TwoTo(b)) == (2 * TwoTo(a - 1)) * TwoTo(b);
    }
  }

  lemma PaddingBits(k: nat)
    ensures PaddingOf(k) < 5 && 5 * DigitCount(k) % 8 == PaddingOf(k) && 5 * DigitCount(k) / 8 == k
  {}

  lemma DigitsOfShifted(n: nat, k: nat, p: nat, m: nat)
    requires n < Pow(256, k) && 8 * k + p == 5 * m
    ensures Number(ToDigits(n * TwoTo(p), m)) == n * TwoTo(p)
  {
    PowersOfTwo(k);
    PowersOfTwo(m);
    TwoToAdd(8 * k, p);
    Scale(n, TwoTo(8 * k), TwoTo(p));
    ToDigitsInverse(n * TwoTo(p), m);
  }

  /** The digits spell the number of the bytes, shifted by the padding. */
  lemma NumberOfEncoded(b: Bytes)
    ensures |EncodedDigits(b)| == DigitCount(|b|)
    ensures Number(EncodedDigits(b)) == BigEndian(b) * TwoTo(PaddingOf(|b|))
  {
    BigEndianBound(b);
    DigitsOfShifted(BigEndian(b), |b|, PaddingOf(|b|), DigitCount(|b|));
  }

  lemma BytesOfNumber(b: Bytes)
    ensures ToBigEndian(BigEndian(b), |b|) == b
  {
    BigEndianBound(b);
    ToBigEndianInverse(BigEndian(b), |b|);
    BigEndianInjective(b, ToBigEndian(BigEndian(b), |b|));
  }

  lemma DecodedOfEncodedDigits(b: Bytes)
    ensures Decoded(EncodedDigits(b)) == b
  {
    PaddingBits(|b|);
    NumberOfEncoded(b);
    QuotientIs(BigEndian(b), 0, TwoTo(PaddingOf(|b|)));
    BytesOfNumber(b);
  }

  lemma Scale(a: nat, b: nat, c: nat)
    requires a < b && c > 0
    ensures a * c < b * c
  {
    assert (b - a) * c > 0;
    assert b * c == a * c + (b - a) * c;
  }

  /** Round trip: a text whose letters are the encoding of a non-empty byte string, in any case, with or
      without padding, with foreign characters anywhere, decodes to that byte string. */
  lemma DecodesEncoded(text: Bytes, b: Bytes)
    ensures b != [] && Letters(text) == Encoded(b) ==> |Digits(text)| > 1 && Decoded(Digits(text)) == b
  {
    DigitsOfLetters(text);
    DigitsOfSymbols(EncodedDigits(b));
    DecodedOfEncodedDigits(b);
  }

  /** Padding characters do not change the letters of a text. */
  function Padding(k: nat): (p: Bytes) {
    if k == 0 then [] else Padding(k - 1) + [0x3d]
  }

  lemma {:induction false} LettersOfPadded(text: Bytes, k: nat)
    ensures Letters(text + Padding(k)) == Letters(text)
  {
    var padded := text + Padding(k);
    if k == 0 {
      assert padded == text;
    } else {
      LettersOfPadded(text, k - 1);
      assert padded[..|padded| - 1] == text + Padding(k - 1);
    }
  }

  /** In particular the encoding itself decodes, padded or not. */
  lemma DecodesPadded(b: Bytes, k: nat)
    requires b != []
    ensures |Digits(Encoded(b) + Padding(k))| > 1 && Decoded(Digits(Encoded(b) + Padding(k))) == b
  {
    LettersOfPadded(Encoded(b), k);
    LettersOfSymbols(EncodedDigits(b));
    DecodesEncoded(Encoded(b) + Padding(k), b);
  }

  lemma {:induction false} LettersOfSymbols(ds: seq<Quint>)
    ensures Letters(Symbols(ds)) == Symbols(ds)
  {
    if ds != [] {
      LettersOfSymbols(ds[..|ds| - 1]);
      assert Symbols(ds)[..|ds| - 1] == Symbols(ds[..|ds| - 1]);
    }
  }
}
