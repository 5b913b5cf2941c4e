/** A reader for JSON (RFC 8259), for texts without insignificant white space, fractions and exponents,
    whose object members ascend by key. It shares no table with the printer, and it reads every printed
    value back. */
module JsonReader {
  import opened ByteStrings
  import CanonicalJson

  type Json = CanonicalJson.Json

  // ----- numbers -----

  /** The digits a text starts with. */
  function LeadingDigits(t: Bytes): (n: nat)
    ensures n <= |t| && forall i :: 0 <= i < n ==> IsDigit(t[i])
    ensures n < |t| ==> !IsDigit(t[n])
  {
    if t == [] || !IsDigit(t[0]) then 0 else 1 + LeadingDigits(t[1..])
  }

  /** A decimal integer without leading zeros (section 6 of RFC 8259). */
  function ReadInteger(t: Bytes): (r: Option<(nat, Bytes)>)
    ensures r.Some? ==> |r.value.1| < |t|
  {
    var n := LeadingDigits(t);
    if n == 0 || (n > 1 && t[0] == '0' as int) then None
    else Some((DecimalValue(t[..n]), t[n..]))
  }

  // ----- strings -----

  /** The character that a two-character escape stands for (section 7 of RFC 8259). */
  function ShortEscape(letter: byte): (b: Option<byte>) {
    if letter == '"' as int then Some('"' as int)
    else if letter == '\\' as int then Some('\\' as int)
    else if letter == '/' as int then Some('/' as int)
    else if letter == 'b' as int then Some(8)
    else if letter == 'f' as int then Some(12)
    else if letter == 'n' as int then Some(10)
    else if letter == 'r' as int then Some(13)
    else if letter == 't' as int then Some(9)
    else None
  }

  /** One character of a string: plain, or escaped. `\u` is read for code points of one byte. */
  function ReadCharacter(t: Bytes): (r: Option<(byte, Bytes)>)
    ensures r.Some? ==> |r.value.1| < |t|
  {
    if t == [] || t[0] < 0x20 || t[0] == '"' as int then None
    else if t[0] != '\\' as int then Some((t[0], t[1..]))
    else if |t| >= 2 && ShortEscape(t[1]).Some? then Some((ShortEscape(t[1]).value, t[2..]))
    else if |t| >= 6 && t[1] == 'u' as int && t[2] == '0' as int && t[3] == '0' as int
      && 0 <= HexValue(t[4]) < 8 && HexValue(t[5]) >= 0
    then Some((16 * HexValue(t[4]) + HexValue(t[5]), t[6..]))
    else None
  }

  /** The rest of a string, up to its closing quotation mark. */
  function ReadString(t: Bytes): (r: Option<(Bytes, Bytes)>)
    ensures r.Some? ==> |r.value.1| < |t|
    decreases |t|
  {
    if t != [] && t[0] == '"' as int then Some(([], t[1..]))
    else
      var first := ReadCharacter(t);
      if first.None? then None
      else
        var more := ReadString(first.value.1);
        if more.None? then None else Some(([first.value.0] + more.value.0, more.value.1))
  }

  // ----- values -----

  function Starts(t: Bytes, c: char): (b: bool) {
    t != [] && t[0] == c as int
  }

  ghost function ReadJson(t: Bytes): (r: Option<(Json, Bytes)>)
    ensures r.Some? ==> |r.value.1| < |t|
    decreases |t|, 1
  {
    if Octets("null") <= t then Some((CanonicalJson.Null, t[4..]))
    else if Octets("true") <= t then Some((CanonicalJson.Bool(true), t[4..]))
    else if Octets("false") <= t then Some((CanonicalJson.Bool(false), t[5..]))
    else if Starts(t, '"') then
      var s := ReadString(t[1..]);
      if s.None? then None else Some((CanonicalJson.Str(s.value.0), s.value.1))
    else if Starts(t, '[') then
      var items := if Starts(t[1..], ']') then Some(([], t[2..])) else ReadItems(t[1..]);
      if items.None? then None else Some((CanonicalJson.Arr(items.value.0), items.value.1))
    else if Starts(t, '{') then
      var members := if Starts(t[1..], '}') then Some((map[], t[2..])) else ReadMembers(t[1..], None);
      if members.None? then None else Some((CanonicalJson.Obj(members.value.0), members.value.1))
    else if Starts(t, '-') then
      var n := ReadInteger(t[1..]);
      if n.None? || n.value.0 == 0 || n.value.0 > 0x8000_0000_0000_0000 then None
      else Some((CanonicalJson.Num(CanonicalJson.NegInt(0 - n.value.0)), n.value.1))
    else
      var n := ReadInteger(t);
      if n.None? || n.value.0 >= 0x1_0000_0000_0000_0000 then None
      else Some((CanonicalJson.Num(CanonicalJson.PosInt(n.value.0)), n.value.1))
  }

  /** Values separated by commas, up to the closing bracket. */
  ghost function ReadItems(t: Bytes): (r: Option<(seq<Json>, Bytes)>)
    ensures r.Some? ==> |r.value.1| < |t|
    decreases |t|, 2
  {
    var first := ReadJson(t);
    if first.None? then None
    else if Starts(first.value.1, ']') then Some(([first.value.0], first.value.1[1..]))
    else if Starts(first.value.1, ',') then
      var more := ReadItems(first.value.1[1..]);
      if more.None? then None else Some(([first.value.0] + more.value.0, more.value.1))
    else None
  }

  /** The first text comes before the second, byte by byte. */
  ghost predicate Precedes(a: Bytes, b: Bytes) {
    exists k: nat :: Before(a, b, k)
  }

  /** Members separated by commas, each key after the one above, up to the closing brace. */
  ghost function ReadMembers(t: Bytes, above: Option<Bytes>): (r: Option<(map<Bytes, Json>, Bytes)>)
    ensures r.Some? ==> |r.value.1| < |t|
    decreases |t|, 2
  {
    var key := if Starts(t, '"') then ReadString(t[1..]) else None;
    if key.None? || !Starts(key.value.1, ':') || (above.Some? && !Precedes(above.value, key.value.0)) then None
    else
      var value := ReadJson(key.value.1[1..]);
      if value.None? then None
      else if Starts(value.value.1, '}') then Some((map[key.value.0 := value.value.0], value.value.1[1..]))
      else if Starts(value.value.1, ',') then
        var more := ReadMembers(value.value.1[1..], Some(key.value.0));
        if more.None? then None else Some((more.value.0[key.value.0 := value.value.0], more.value.1))
      else None
  }

  // ----- the printer's texts -----

  /** Nothing that continues a number follows. */
  predicate NoDigit(r: Bytes) { r == [] || !IsDigit(r[0]) }

  lemma {:induction false} LeadingDigitsOf(d: Bytes, r: Bytes)
    requires (forall i :: 0 <= i < |d| ==> IsDigit(d[i])) && NoDigit(r)
    ensures LeadingDigits(d + r) == |d|
  {
    if d != [] {
      LeadingDigitsOf(d[1..], r);
      assert (d + r)[1..] == d[1..] + r;
    } else {
      assert d + r == r;
    }
  }

  lemma {:induction false} NoLeadingZero(n: nat)
    ensures n > 0 ==> CanonicalJson.Decimal(n)[0] != '0' as int
  {
    if n >= 10 { NoLeadingZero(n / 10); }
  }

  lemma ReadsInteger(n: nat, r: Bytes)
    requires NoDigit(r)
    ensures ReadInteger(CanonicalJson.Decimal(n) + r) == Some((n, r))
  {
    var d := CanonicalJson.Decimal(n);
    LeadingDigitsOf(d, r);
    NoLeadingZero(n);
    CanonicalJson.DecimalInverse(n);
    assert (d + r)[..|d|] == d && (d + r)[|d|..] == r;
  }

  lemma ReadsCharacter(b: byte, r: Bytes)
    ensures ReadCharacter(CanonicalJson.EscapeByte(b) + r) == Some((b, r))
    ensures CanonicalJson.EscapeByte(b)[0] != '"' as int
  {
    var e := CanonicalJson.EscapeByte(b);
    var t := e + r;
    assert t[0] == e[0] && t[|e|..] == r;
    if |e| >= 2 { assert t[1] == e[1]; }
    if |e| == 6 { assert t[2] == e[2] && t[3] == e[3] && t[4] == e[4] && t[5] == e[5]; }
  }

  lemma {:induction false} ReadsString(s: Bytes, r: Bytes)
    ensures ReadString(CanonicalJson.Escape(s, [CanonicalJson.QUOTE] + r)) == Some((s, r))
  {
    if s != [] {
      ReadsString(s[1..], r);
      ReadsCharacter(s[0], CanonicalJson.Escape(s[1..], [CanonicalJson.QUOTE] + r));
      assert s == [s[0]] + s[1..];
    }
  }

  lemma ReadsQuoted(s: Bytes, r: Bytes)
    ensures Starts(CanonicalJson.Quoted(s, r), '"') && ReadString(CanonicalJson.Quoted(s, r)[1..]) == Some((s, r))
  {
    ReadsString(s, r);
    var rest := CanonicalJson.Escape(s, [CanonicalJson.QUOTE] + r);
    assert ([CanonicalJson.QUOTE] + rest)[1..] == rest;
  }

  /** The reader tells the kinds of values apart by their first byte. */
  lemma Kinds(t: Bytes)
    ensures Octets("null") <= t ==> Starts(t, 'n')
    ensures Octets("true") <= t ==> Starts(t, 't')
    ensures Octets("false") <= t ==> Starts(t, 'f')
  {
    if Octets("null") <= t { assert t[0] == Octets("null")[0]; }
    if Octets("true") <= t { assert t[0] == Octets("true")[0]; }
    if Octets("false") <= t { assert t[0] == Octets("false")[0]; }
  }

  lemma ReadsLiteral(text: Bytes, r: Bytes)
    ensures text <= text + r && (text + r)[|text|..] == r
  {}

  lemma ReadsNumber(n: CanonicalJson.Number, r: Bytes)
    requires !n.Float? && NoDigit(r)
    ensures ReadJson(CanonicalJson.Integer(n, r)) == Some((CanonicalJson.Num(n), r))
  {
    var t := CanonicalJson.Integer(n, r);
    Kinds(t);
    if n.PosInt? {
      ReadsInteger(n.u, r);
      assert IsDigit(t[0]);
    } else {
      ReadsInteger(0 - n.i, r);
      assert t[1..] == CanonicalJson.Decimal(0 - n.i) + r;
    }
  }

  lemma ReadsNull(r: Bytes)
    ensures ReadJson(CanonicalJson.PrintThen(CanonicalJson.Null, r)) == Some((CanonicalJson.Null, r))
  {
    ReadsLiteral(Octets("null"), r);
  }

  lemma ReadsBool(b: bool, r: Bytes)
    ensures ReadJson(CanonicalJson.PrintThen(CanonicalJson.Bool(b), r)) == Some((CanonicalJson.Bool(b), r))
  {
    Kinds(CanonicalJson.PrintThen(CanonicalJson.Bool(b), r));
    ReadsLiteral(if b then Octets("true") else Octets("false"), r);
  }

  /** Every printed value reads back, whatever may follow it. */
  lemma {:induction false} ReadsValue(v: Json, r: Bytes)
    requires CanonicalJson.FloatFree(v) && CanonicalJson.Ends(r)
    ensures ReadJson(CanonicalJson.PrintThen(v, r)) == Some((v, r))
    decreases v, 2, 0
  {
    match v
    case Null => ReadsNull(r);
    case Bool(b) => ReadsBool(b, r);
    case Num(n) => ReadsNumber(n, r);
    case Str(s) => Kinds(CanonicalJson.PrintThen(v, r)); ReadsQuoted(s, r);
    case Arr(items) => ReadsArray(v, r);
    case Obj(m) => ReadsObject(v, r);
  }

  /** A text in brackets reads as the array of its items. */
  lemma ReadsBrackets(t: Bytes, v: Json, r: Bytes)
    requires v.Arr? && Starts(t, '[')
    requires if Starts(t[1..], ']') then v.items == [] && t[2..] == r else ReadItems(t[1..]) == Some((v.items, r))
    ensures ReadJson(t) == Some((v, r))
  {
    Kinds(t);
  }

  lemma {:induction false} ReadsArray(v: Json, r: Bytes)
    requires v.Arr? && CanonicalJson.FloatFree(v) && CanonicalJson.Ends(r)
    ensures ReadJson(CanonicalJson.PrintThen(v, r)) == Some((v, r))
    decreases v, 1, 0
  {
    var t, rest := CanonicalJson.PrintThen(v, r), CanonicalJson.ItemsThen(v, 0, r);
    assert t[1..] == rest;
    CanonicalJson.ItemsLeading(v, 0, r);
    if v.items == [] {
      assert t[2..] == rest[1..] == r;
    } else {
      ReadsItems(v, 0, r);
      assert rest == CanonicalJson.PrintThen(v.items[0], CanonicalJson.ItemsThen(v, 1, r));
      assert v.items[0..] == v.items;
    }
    ReadsBrackets(t, v, r);
  }

  lemma {:induction false} ReadsItems(v: Json, i: nat, r: Bytes)
    requires v.Arr? && CanonicalJson.FloatFree(v) && i < |v.items| && CanonicalJson.Ends(r)
    ensures ReadItems(CanonicalJson.PrintThen(v.items[i], CanonicalJson.ItemsThen(v, i + 1, r))) == Some((v.items[i..], r))
    decreases v, 0, |v.items| - i
  {
    var rest := CanonicalJson.ItemsThen(v, i + 1, r);
    ReadsValue(v.items[i], rest);
    SliceHead(v.items, i);
    if i + 1 < |v.items| {
      ReadsItems(v, i + 1, r);
      assert rest[1..] == CanonicalJson.PrintThen(v.items[i + 1], CanonicalJson.ItemsThen(v, i + 2, r));
    } else {
      assert rest[1..] == r && v.items[i..] == [v.items[i]];
    }
  }

  lemma {:induction false} ReadsObject(v: Json, r: Bytes)
    requires v.Obj? && CanonicalJson.FloatFree(v) && CanonicalJson.Ends(r)
    ensures ReadJson(CanonicalJson.PrintThen(v, r)) == Some((v, r))
    decreases v, 1, 0
  {
    var ks := CanonicalJson.SortedKeys(v.members.Keys);
    ObjectText(v, r);
    if ks != [] {
      CanonicalJson.SortedKeysAscend(v.members.Keys);
      ReadsMembers(v, ks, None, r);
    }
    AllPicked(v.members, ks);
    ReadsBraces(CanonicalJson.PrintThen(v, r), v, r);
  }

  /** A text in braces reads as the object of its members. */
  lemma ReadsBraces(t: Bytes, v: Json, r: Bytes)
    requires v.Obj? && Starts(t, '{')
    requires if Starts(t[1..], '}') then v.members == map[] && t[2..] == r
      else ReadMembers(t[1..], None) == Some((v.members, r))
    ensures ReadJson(t) == Some((v, r))
  {
    Kinds(t);
  }

  /** The text of an object: a brace, and then the closing one or the members. */
  lemma ObjectText(v: Json, r: Bytes)
    requires v.Obj? && CanonicalJson.FloatFree(v)
    ensures var t, ks := CanonicalJson.PrintThen(v, r), CanonicalJson.SortedKeys(v.members.Keys);
      && Starts(t, '{')
      && (Starts(t[1..], '}') <==> ks == [])
      && (if ks == [] then t[2..] == r else t[1..] == MemberText(v, ks, r))
  {
    var t, ks := CanonicalJson.PrintThen(v, r), CanonicalJson.SortedKeys(v.members.Keys);
    var rest := CanonicalJson.MembersThen(v, ks, true, r);
    assert t[1..] == rest;
    if ks == [] {
      assert t[2..] == rest[1..];
    } else {
      assert rest == MemberText(v, ks, r);
    }
  }

  lemma AllPicked(m: map<Bytes, Json>, ks: seq<Bytes>)
    requires CanonicalJson.Elements(ks) == m.Keys
    ensures Picked(m, ks) == m && (ks == [] ==> m == map[])
  {
    assert forall k :: k in ks <==> k in CanonicalJson.Elements(ks);
    if ks == [] { assert m.Keys == {}; }
  }

  /** The members under these keys. */
  ghost function Picked(m: map<Bytes, Json>, ks: seq<Bytes>): (p: map<Bytes, Json>) {
    map k | k in m && k in ks :: m[k]
  }

  lemma PickedStep(m: map<Bytes, Json>, ks: seq<Bytes>)
    requires ks != [] && ks[0] in m
    ensures Picked(m, ks) == Picked(m, ks[1..])[ks[0] := m[ks[0]]]
  {
    assert forall k :: k in ks <==> k == ks[0] || k in ks[1..] by { assert ks == [ks[0]] + ks[1..]; }
  }

  /** The text of the members under `ks`, without a separator in front. */
  ghost function MemberText(v: Json, ks: seq<Bytes>, r: Bytes): (t: Bytes)
    requires v.Obj? && CanonicalJson.FloatFree(v) && ks != [] && CanonicalJson.Elements(ks) <= v.members.Keys
  {
    assert ks[0] in CanonicalJson.Elements(ks);
    assert CanonicalJson.Elements(ks[1..]) <= CanonicalJson.Elements(ks);
    CanonicalJson.Quoted(ks[0],
      [CanonicalJson.COLON] + CanonicalJson.PrintThen(v.members[ks[0]], CanonicalJson.MembersThen(v, ks[1..], false, r)))
  }

  /** What stands behind the value of the first member. */
  ghost function Behind(v: Json, ks: seq<Bytes>, r: Bytes): (t: Bytes)
    requires v.Obj? && CanonicalJson.FloatFree(v) && ks != [] && CanonicalJson.Elements(ks) <= v.members.Keys
  {
    assert CanonicalJson.Elements(ks[1..]) <= CanonicalJson.Elements(ks);
    CanonicalJson.MembersThen(v, ks[1..], false, r)
  }

  lemma MemberTextParts(v: Json, ks: seq<Bytes>, r: Bytes)
    requires v.Obj? && CanonicalJson.FloatFree(v) && ks != [] && CanonicalJson.Elements(ks) <= v.members.Keys
    ensures ks[0] in v.members
    ensures var t, rest := MemberText(v, ks, r), Behind(v, ks, r);
      && Starts(t, '"')
      && var key := ReadString(t[1..]);
      && key.Some? && key.value.0 == ks[0] && Starts(key.value.1, ':')
      && key.value.1[1..] == CanonicalJson.PrintThen(v.members[ks[0]], rest)
  {
    assert ks[0] in CanonicalJson.Elements(ks);
    var tail := [CanonicalJson.COLON] + CanonicalJson.PrintThen(v.members[ks[0]], Behind(v, ks, r));
    ReadsQuoted(ks[0], tail);
    assert tail[1..] == CanonicalJson.PrintThen(v.members[ks[0]], Behind(v, ks, r));
  }

  lemma BehindParts(v: Json, ks: seq<Bytes>, r: Bytes)
    requires v.Obj? && CanonicalJson.FloatFree(v) && ks != [] && CanonicalJson.Elements(ks) <= v.members.Keys
    ensures var rest := Behind(v, ks, r);
      && CanonicalJson.Ends(rest) && rest != []
      && (if ks[1..] == [] then Starts(rest, '}') && rest[1..] == r
          else Starts(rest, ',') && CanonicalJson.Elements(ks[1..]) <= v.members.Keys && rest[1..] == MemberText(v, ks[1..], r))
  {
    assert CanonicalJson.Elements(ks[1..]) <= CanonicalJson.Elements(ks);
  }

  lemma {:induction false} ReadsMembers(v: Json, ks: seq<Bytes>, above: Option<Bytes>, r: Bytes)
    requires v.Obj? && CanonicalJson.FloatFree(v) && CanonicalJson.Ends(r)
    requires ks != [] && CanonicalJson.Elements(ks) <= v.members.Keys && CanonicalJson.Ascending(ks)
    requires above.Some? ==> Less(above.value, ks[0])
    ensures ReadMembers(MemberText(v, ks, r), above) == Some((Picked(v.members, ks), r))
    decreases v, 0, |ks|
  {
    if above.Some? { LessMeaning(above.value, ks[0]); }
    MemberTextParts(v, ks, r);
    BehindParts(v, ks, r);
    ReadsValue(v.members[ks[0]], Behind(v, ks, r));
    PickedStep(v.members, ks);
    if ks[1..] == [] {
      assert Picked(v.members, ks[1..]) == map[];
    } else {
      ReadsMembers(v, ks[1..], Some(ks[0]), r);
    }
  }

  /** The text of every value is JSON, and reads as that value. */
  lemma PrintReadsBack(v: Json, r: Bytes)
    requires CanonicalJson.FloatFree(v) && CanonicalJson.Ends(r)
    ensures ReadJson(CanonicalJson.Print(v) + r) == Some((v, r))
  {
    CanonicalJson.PrintThenIsPrint(v, r);
    ReadsValue(v, r);
  }

  /** Which of its spellings each byte of a string has: only the quotation mark, the backslash and the control
      characters are escaped, five of these by a letter and the others by `\u00` and two lowercase digits. */
  lemma EscapeForm(b: byte)
    ensures var e := CanonicalJson.EscapeByte(b);
      if b == '"' as int || b == '\\' as int then e == Octets("\\") + [b]
      else if b >= 0x20 then e == [b]
      else if b in {8, 9, 10, 12, 13} then |e| == 2
      else e == Octets("\\u00") + [Octets("01")[b / 16], Octets("0123456789abcdef")[b % 16]]
  {
    var e := CanonicalJson.EscapeByte(b);
    if b < 0x20 && b !in {8, 9, 10, 12, 13} {
      HexMeaning(b / 16);
      HexMeaning(b % 16);
      assert e[..4] == Octets("\\u00") && e[4] == Octets("01")[b / 16];
    }
  }
}
