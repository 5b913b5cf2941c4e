/** Byte strings: the encodings every other module shares. */
module ByteStrings {

  type byte = x: int | 0 <= x < 256
  type Bytes = seq<byte>
  type U64 = n: int | 0 <= n < 0x1_0000_0000_0000_0000

  datatype Option<+T> = None | Some(value: T)

  /** The growable buffer (`String` or `Vec<u8>`) that printers append to. */
  class Buffer {
    var text: Bytes

    constructor ()
      ensures text == []
    {
      text := [];
    }

    method Push(more: Bytes)
      modifies this
      ensures text == old(text) + more
    {
      text := text + more;
    }
  }

  /** Removing an equal prefix keeps an equation. */
  lemma Cancel<T>(p: seq<T>, r: seq<T>, s: seq<T>)
    requires p + r == p + s
    ensures r == s
  {
    assert r == (p + r)[|p|..];
  }

  lemma Associate<T>(a: seq<T>, b: seq<T>, c: seq<T>)
    ensures (a + b) + c == a + (b + c)
  {}

  lemma SliceHead<T>(s: seq<T>, i: nat)
    requires i < |s|
    ensures s[i..] == [s[i]] + s[i + 1..]
  {}

  /** Two equal concatenations whose first parts have equal length agree part by part. */
  lemma SplitEqual<T>(p: seq<T>, r: seq<T>, q: seq<T>, s: seq<T>)
    requires |p| == |q| && p + r == q + s
    ensures p == q && r == s
  {
    assert p == (p + r)[..|p|];
    Cancel(p, r, s);
  }

  // ----- ASCII characters -----

  /** The bytes of a text. */
  function Octets(text: string): (b: Bytes) {
    seq(|text|, i requires 0 <= i < |text| => text[i] as int % 256)
  }

  predicate IsDigit(b: byte) { 0x30 <= b <= 0x39 }

  /** The number that decimal digits spell. */
  function DecimalValue(digits: Bytes): (n: nat)
    requires forall i :: 0 <= i < |digits| ==> IsDigit(digits[i])
  {
    if digits == [] then 0
    else
      assert IsDigit(digits[|digits| - 1]);
      10 * DecimalValue(digits[..|digits| - 1]) + (digits[|digits| - 1] - 0x30)
  }

  /** One more digit multiplies every weight by the base. */
  lemma Weigh(base: nat, first: nat, weight: nat, rest: nat, last: nat)
    ensures base * (first * weight + rest) + last == first * (base * weight) + (base * rest + last)
  {
    assert base * (first * weight) == first * (base * weight);
  }

  /** The first digit weighs most. */
  lemma {:induction false} DecimalValueMeaning(first: byte, rest: Bytes)
    requires IsDigit(first) && forall i :: 0 <= i < |rest| ==> IsDigit(rest[i])
    ensures DecimalValue([first] + rest) == (first - Octets("0")[0]) * Pow(10, |rest|) + DecimalValue(rest)
  {
    var all := [first] + rest;
    if rest == [] {
      assert all[..0] == [];
    } else {
      var before := rest[..|rest| - 1];
      DecimalValueMeaning(first, before);
      assert all[..|all| - 1] == [first] + before;
      Weigh(10, first - 0x30, Pow(10, |before|), DecimalValue(before), rest[|rest| - 1] - 0x30);
    }
  }

  function Upper(b: byte): (u: byte) {
    if 0x61 <= b <= 0x7a then b - 0x20 else b
  }

  function Lower(b: byte): (l: byte) {
    if 0x41 <= b <= 0x5a then b + 0x20 else b
  }

  /** Changing case exchanges the letters and leaves every other byte alone. */
  lemma CaseMeaning(b: byte)
    ensures Upper(b) == if 'a' as int <= b <= 'z' as int then 'A' as int + (b - 'a' as int) else b
    ensures Lower(b) == if 'A' as int <= b <= 'Z' as int then 'a' as int + (b - 'A' as int) else b
  {}

  /** `eq_ignore_ascii_case`. */
  predicate SameIgnoringCase(a: Bytes, b: Bytes) {
    |a| == |b| && forall i :: 0 <= i < |a| ==> Lower(a[i]) == Lower(b[i])
  }

  /** The value of a hex digit in either case, or -1. */
  function HexValue(b: byte): (v: int)
    ensures -1 <= v < 16
  {
    if IsDigit(b) then b - 0x30
    else if 0x61 <= b <= 0x66 then b - 0x61 + 10
    else if 0x41 <= b <= 0x46 then b - 0x41 + 10
    else -1
  }

  function HexDigit(v: int, upper: bool): (b: byte)
    requires 0 <= v < 16
    ensures HexValue(b) == v
  {
    if v < 10 then 0x30 + v else if upper then 0x41 + v - 10 else 0x61 + v - 10
  }

  /** The digits of both cases, in order. */
  lemma HexMeaning(v: int)
    requires 0 <= v < 16
    ensures HexDigit(v, false) == Octets("0123456789abcdef")[v]
  {}

  lemma HexValueMeaning(v: int, b: byte)
    requires 0 <= v < 16
    ensures HexValue(b) == v <==> b == HexDigit(v, false) || b == HexDigit(v, true)
    ensures HexDigit(v, true) == Upper(HexDigit(v, false))
  {}

  const BACKSLASH: byte := 0x5c

  /** An ASCII letter or digit, given by its code. */
  predicate Alphanumeric(code: int) {
    0x61 <= code <= 0x7a || 0x41 <= code <= 0x5a || 0x30 <= code <= 0x39
  }

  lemma AlphanumericMeaning(c: char)
    ensures Alphanumeric(c as int) <==> 'a' <= c <= 'z' || 'A' <= c <= 'Z' || '0' <= c <= '9'
  {}

  // ----- byte order -----

  /** Lexicographic byte order. */
  predicate Less(a: Bytes, b: Bytes) {
    b != [] && (a == [] || a[0] < b[0] || (a[0] == b[0] && Less(a[1..], b[1..])))
  }

  lemma LessTotal(a: Bytes, b: Bytes)
    ensures Less(a, b) || a == b || Less(b, a)
  {
    if a != [] && b != [] && a[0] == b[0] {
      LessTotal(a[1..], b[1..]);
      assert a == [a[0]] + a[1..] && b == [b[0]] + b[1..];
    }
  }

  lemma LessTransitive(a: Bytes, b: Bytes, c: Bytes)
    requires Less(a, b) && Less(b, c)
    ensures Less(a, c)
  {}

  lemma LessIrreflexive(a: Bytes)
    ensures !Less(a, a)
  {}

  /** The texts agree up to `k`, where the first ends or has the smaller byte. */
  ghost predicate Before(a: Bytes, b: Bytes, k: nat) {
    k <= |a| && k < |b| && a[..k] == b[..k] && (k == |a| || a[k] < b[k])
  }

  /** The order is decided at the first difference. */
  lemma {:induction false} LessMeaning(a: Bytes, b: Bytes)
    ensures Less(a, b) <==> exists k: nat :: Before(a, b, k)
  {
    if a == [] {
      if b != [] { assert Before(a, b, 0); }
    } else if b != [] && a[0] == b[0] {
      LessMeaning(a[1..], b[1..]);
      if Less(a, b) {
        var k: nat :| Before(a[1..], b[1..], k);
        assert a == [a[0]] + a[1..] && b == [b[0]] + b[1..];
        assert Before(a, b, k + 1);
      }
      forall k: nat | Before(a, b, k) ensures Less(a, b) {
        assert a[..k][1..] == a[1..][..k - 1] && b[..k][1..] == b[1..][..k - 1];
        assert Before(a[1..], b[1..], k - 1);
      }
    } else if b != [] {
      if Less(a, b) { assert Before(a, b, 0); }
      forall k: nat | Before(a, b, k) ensures k == 0 {}
    }
  }

  // ----- positional numbers -----

  /** The number a byte string spells in base 256, most significant byte first. */
  function BigEndian(b: Bytes): (n: nat)
  {
    if b == [] then 0 else 256 * BigEndian(b[..|b| - 1]) + b[|b| - 1]
  }

  /** The first byte weighs most. */
  lemma {:induction false} BigEndianMeaning(first: byte, rest: Bytes)
    ensures BigEndian([first] + rest) == first * Pow(256, |rest|) + BigEndian(rest)
  {
    var all := [first] + rest;
    if rest == [] {
      assert all[..0] == [];
    } else {
      BigEndianMeaning(first, rest[..|rest| - 1]);
      assert all[..|all| - 1] == [first] + rest[..|rest| - 1];
      Weigh(256, first, Pow(256, |rest| - 1), BigEndian(rest[..|rest| - 1]), rest[|rest| - 1]);
    }
  }

  /** Four bytes, most significant first. */
  function Word(a: nat, b: nat, c: nat, d: nat): (n: nat) {
    0x100_0000 * a + 0x1_0000 * b + 0x100 * c + d
  }

  lemma WordOfBytes(b: Bytes)
    requires |b| == 4
    ensures BigEndian(b) == Word(b[0], b[1], b[2], b[3])
  {
    assert b[..3][..2] == b[..2] && b[..2][..1] == b[..1] && b[..1][..0] == [];
    assert BigEndian(b[..1]) == b[0];
    assert BigEndian(b[..2]) == 0x100 * BigEndian(b[..1]) + b[1];
    assert BigEndian(b[..3]) == 0x100 * BigEndian(b[..2]) + b[2];
  }

  /** The `width` low bytes of `n`, most significant first (`to_be_bytes`). */
  function ToBigEndian(n: nat, width: nat): (b: Bytes)
    ensures |b| == width
  {
    if width == 0 then [] else ToBigEndian(n / 256, width - 1) + [n % 256]
  }

  function Pow(base: nat, e: nat): (p: nat)
    ensures base > 0 ==> p > 0
  {
    if e == 0 then 1 else base * Pow(base, e - 1)
  }

  lemma {:induction false} ToBigEndianInverse(n: nat, width: nat)
    requires n < Pow(256, width)
    ensures BigEndian(ToBigEndian(n, width)) == n
  {
    if width > 0 {
      ToBigEndianInverse(n / 256, width - 1);
      var b := ToBigEndian(n, width);
      assert b[..|b| - 1] == ToBigEndian(n / 256, width - 1);
    }
  }

  lemma {:induction false} BigEndianInjective(a: Bytes, b: Bytes)
    requires |a| == |b| && BigEndian(a) == BigEndian(b)
    ensures a == b
  {
    if a != [] {
      BigEndianInjective(a[..|a| - 1], b[..|b| - 1]);
      assert a == a[..|a| - 1] + [a[|a| - 1]];
      assert b == b[..|b| - 1] + [b[|b| - 1]];
    }
  }
}
