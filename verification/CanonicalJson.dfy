/** The canonical JSON printer of src/access/approval_v2.rs: what it prints, when it fails,
    and why no two values share a text. */
module CanonicalJson {
  import opened ByteStrings

  /** serde_json's number representation; `NegInt` holds negative values only. */
  type Negative = n: int | -0x8000_0000_0000_0000 <= n < 0 witness -1
  datatype Number = PosInt(u: U64) | NegInt(i: Negative) | Float(approx: real)

  datatype Json =
    | Null
    | Bool(b: bool)
    | Num(number: Number)
    | Str(text: Bytes)
    | Arr(items: seq<Json>)
    | Obj(members: map<Bytes, Json>)

  /** No floating-point number at any depth. */
  ghost predicate FloatFree(v: Json) {
    match v
    case Num(n) => !n.Float?
    case Arr(items) => forall i :: 0 <= i < |items| ==> FloatFree(items[i])
    case Obj(m) => forall k :: k in m ==> FloatFree(m[k])
    case _ => true
  }

  // ----- literals -----

  const COMMA: byte := 0x2c
  const COLON: byte := 0x3a
  const QUOTE: byte := 0x22
  const MINUS: byte := 0x2d
  const OPEN_ARRAY: byte := 0x5b
  const CLOSE_ARRAY: byte := 0x5d
  const OPEN_OBJECT: byte := 0x7b
  const CLOSE_OBJECT: byte := 0x7d
  const NULL_TEXT: Bytes := [0x6e, 0x75, 0x6c, 0x6c]
  const TRUE_TEXT: Bytes := [0x74, 0x72, 0x75, 0x65]
  const FALSE_TEXT: Bytes := [0x66, 0x61, 0x6c, 0x73, 0x65]

  // ----- integers -----

  function Decimal(n: nat): (d: Bytes)
    ensures d != [] && forall i :: 0 <= i < |d| ==> IsDigit(d[i])
  {
    if n < 10 then [0x30 + n] else Decimal(n / 10) + [0x30 + n % 10]
  }

  lemma {:induction false} DecimalInverse(n: nat)
    ensures DecimalValue(Decimal(n)) == n
  {
    var d := Decimal(n);
    if n < 10 {
      assert d[..|d| - 1] == [];
    } else {
      DecimalInverse(n / 10);
      assert d[..|d| - 1] == Decimal(n / 10);
    }
  }

  /** An integer's text in front of `rest`. */
  function Integer(n: Number, rest: Bytes): (text: Bytes)
    requires !n.Float?
  {
    if n.PosInt? then Decimal(n.u) + rest else [MINUS] + (Decimal(0 - n.i) + rest)
  }

  // ----- strings -----

  /** What serde_json writes for one byte of a string. */
  function EscapeByte(b: byte): (e: Bytes) {
    if b == QUOTE then [BACKSLASH, QUOTE]
    else if b == BACKSLASH then [BACKSLASH, BACKSLASH]
    else if b == 0x08 then [BACKSLASH, 0x62]
    else if b == 0x0c then [BACKSLASH, 0x66]
    else if b == 0x0a then [BACKSLASH, 0x6e]
    else if b == 0x0d then [BACKSLASH, 0x72]
    else if b == 0x09 then [BACKSLASH, 0x74]
    else if b < 0x20 then [BACKSLASH, 0x75, 0x30, 0x30, HexDigit(b / 16, false), HexDigit(b % 16, false)]
    else [b]
  }

  /** A string's escaped bytes in front of `rest`. */
  function Escape(s: Bytes, rest: Bytes): (text: Bytes) {
    if s == [] then rest else EscapeByte(s[0]) + Escape(s[1..], rest)
  }

  function Quoted(s: Bytes, rest: Bytes): (text: Bytes) {
    [QUOTE] + Escape(s, [QUOTE] + rest)
  }

  // ----- key order -----

  ghost predicate Ascending(ks: seq<Bytes>) {
    forall i, j :: 0 <= i < j < |ks| ==> Less(ks[i], ks[j])
  }

  ghost function Elements(ks: seq<Bytes>): set<Bytes> {
    set k | k in ks
  }

  /** A set of keys has at most one ascending listing. */
  lemma {:induction false} AscendingUnique(ks: seq<Bytes>, ls: seq<Bytes>)
    requires Ascending(ks) && Ascending(ls) && Elements(ks) == Elements(ls)
    ensures ks == ls
  {
    assert ks != [] ==> ks[0] in Elements(ks);
    assert ls != [] ==> ls[0] in Elements(ls);
    if ks != [] && ls != [] {
      var i :| 0 <= i < |ls| && ls[i] == ks[0];
      var j :| 0 <= j < |ks| && ks[j] == ls[0];
      if i > 0 && j > 0 {
        LessTransitive(ls[0], ls[i], ls[0]);
        LessIrreflexive(ls[0]);
      }
      assert ks[0] == ls[0];
      forall x ensures x in Elements(ks[1..]) <==> x in Elements(ls[1..]) {
        TailElements(ks, x);
        TailElements(ls, x);
      }
      AscendingUnique(ks[1..], ls[1..]);
      assert ks == [ks[0]] + ks[1..] && ls == [ls[0]] + ls[1..];
    }
  }

  lemma TailElements(ks: seq<Bytes>, x: Bytes)
    requires Ascending(ks) && ks != []
    ensures x in Elements(ks[1..]) <==> x in Elements(ks) && x != ks[0]
  {
    LessIrreflexive(ks[0]);
    if x in ks && x != ks[0] {
      var i :| 0 <= i < |ks| && ks[i] == x;
      assert ks[1..][i - 1] == x;
    }
    if x in ks[1..] {
      var i :| 0 <= i < |ks[1..]| && ks[1..][i] == x;
      assert ks[i + 1] == x;
      assert Less(ks[0], x);
    }
  }

  /** The keys of a map in ascending order, whatever order the map iterates in. */
  ghost function SortedKeys(keys: set<Bytes>): (ks: seq<Bytes>)
    ensures Elements(ks) == keys
  {
    if keys == {} then []
    else
      var k := Least(keys);
      var rest := SortedKeys(keys - {k});
      assert forall x :: x in rest <==> x in Elements(rest);
      [k] + rest
  }

  lemma {:induction false} SortedKeysAscend(keys: set<Bytes>)
    ensures Ascending(SortedKeys(keys))
  {
    if keys != {} {
      var k := Least(keys);
      SortedKeysAscend(keys - {k});
      var rest := SortedKeys(keys - {k});
      assert forall i :: 0 <= i < |rest| ==> rest[i] in Elements(rest);
    }
  }

  ghost function Least(keys: set<Bytes>): (k: Bytes)
    requires keys != {}
    ensures k in keys && forall x :: x in keys && x != k ==> Less(k, x)
  {
    LeastExists(keys);
    var k :| k in keys && forall x :: x in keys && x != k ==> Less(k, x);
    k
  }

  lemma {:induction false} LeastExists(keys: set<Bytes>)
    requires keys != {}
    ensures exists k :: k in keys && forall x :: x in keys && x != k ==> Less(k, x)
  {
    var a :| a in keys;
    if keys != {a} {
      var rest := keys - {a};
      assert rest != {};
      LeastExists(rest);
      var k :| k in rest && forall x :: x in rest && x != k ==> Less(k, x);
      LessTotal(a, k);
      var least := if Less(a, k) then a else k;
      forall x | x in keys && x != least ensures Less(least, x) {
        if x != a && x != k && least == a { LessTransitive(a, k, x); }
      }
    }
  }

  // ----- the printed text -----

  /** The canonical text of a value. */
  ghost function Print(v: Json): (text: Bytes)
    requires FloatFree(v)
  {
    PrintThen(v, [])
  }

  /** The canonical text of `v` in front of `rest`. */
  ghost function PrintThen(v: Json, rest: Bytes): (text: Bytes)
    requires FloatFree(v)
    decreases v, 1, 0
  {
    match v
    case Null => NULL_TEXT + rest
    case Bool(b) => (if b then TRUE_TEXT else FALSE_TEXT) + rest
    case Num(n) => Integer(n, rest)
    case Str(s) => Quoted(s, rest)
    case Arr(items) => [OPEN_ARRAY] + ItemsThen(v, 0, rest)
    case Obj(m) => [OPEN_OBJECT] + MembersThen(v, SortedKeys(m.Keys), true, rest)
  }

  /** The items of array `v` from index `i` on, separated and closed, in front of `rest`. */
  ghost function ItemsThen(v: Json, i: nat, rest: Bytes): (text: Bytes)
    requires v.Arr? && FloatFree(v) && i <= |v.items|
    decreases v, 0, |v.items| - i
  {
    if i == |v.items| then [CLOSE_ARRAY] + rest
    else Separator(i == 0) + PrintThen(v.items[i], ItemsThen(v, i + 1, rest))
  }

  /** The members of object `v` under the keys `ks`, separated and closed, in front of `rest`. */
  ghost function MembersThen(v: Json, ks: seq<Bytes>, first: bool, rest: Bytes): (text: Bytes)
    requires v.Obj? && FloatFree(v) && Elements(ks) <= v.members.Keys
    decreases v, 0, |ks|
  {
    if ks == [] then [CLOSE_OBJECT] + rest
    else
      assert ks[0] in Elements(ks);
      assert Elements(ks[1..]) <= Elements(ks);
      Separator(first)
      + Quoted(ks[0], [COLON] + PrintThen(v.members[ks[0]], MembersThen(v, ks[1..], false, rest)))
  }

  function Separator(first: bool): (sep: Bytes) {
    if first then [] else [COMMA]
  }

  // ----- unambiguity -----

  /** What may follow a printed value inside a larger text: nothing, a separator or a closing bracket. */
  predicate Ends(r: Bytes) {
    r == [] || r[0] == COMMA || r[0] == CLOSE_ARRAY || r[0] == CLOSE_OBJECT
  }

  /** A digit run is delimited by the first byte that is not a digit. */
  lemma {:induction false} DigitRun(d: Bytes, r: Bytes, e: Bytes, s: Bytes)
    requires forall i :: 0 <= i < |d| ==> IsDigit(d[i])
    requires forall i :: 0 <= i < |e| ==> IsDigit(e[i])
    requires Ends(r) && Ends(s) && d + r == e + s
    ensures d == e && r == s
  {
    if d == [] || e == [] {
      assert d == [] ==> d + r == r;
      assert e == [] ==> e + s == s;
    } else {
      assert d + r == [d[0]] + (d[1..] + r);
      assert e + s == [e[0]] + (e[1..] + s);
      SplitEqual([d[0]], d[1..] + r, [e[0]], e[1..] + s);
      DigitRun(d[1..], r, e[1..], s);
      assert d == [d[0]] + d[1..] && e == [e[0]] + e[1..];
    }
  }

  lemma IntegerInjective(m: Number, n: Number, r: Bytes, s: Bytes)
    requires !m.Float? && !n.Float? && Ends(r) && Ends(s)
    requires Integer(m, r) == Integer(n, s)
    ensures m == n && r == s
  {
    var x, y := Integer(m, r)[0], Integer(n, s)[0];
    if m.PosInt? && n.PosInt? {
      DigitRun(Decimal(m.u), r, Decimal(n.u), s);
      DecimalInverse(m.u);
      DecimalInverse(n.u);
    } else if m.NegInt? && n.NegInt? {
      Cancel([MINUS], Decimal(0 - m.i) + r, Decimal(0 - n.i) + s);
      DigitRun(Decimal(0 - m.i), r, Decimal(0 - n.i), s);
      DecimalInverse(0 - m.i);
      DecimalInverse(0 - n.i);
    }
  }

  /** The escapes form a prefix code. */
  lemma EscapeByteInjective(a: byte, b: byte, r: Bytes, s: Bytes)
    requires EscapeByte(a) + r == EscapeByte(b) + s
    ensures a == b && r == s
  {
    var x, y := EscapeByte(a), EscapeByte(b);
    assert x[0] == (x + r)[0] == (y + s)[0] == y[0];
    if |x| > 1 {
      assert x[1] == (x + r)[1] == (y + s)[1] == y[1];
      if |x| > 2 {
        assert x[4] == (x + r)[4] == (y + s)[4] == y[4];
        assert x[5] == (x + r)[5] == (y + s)[5] == y[5];
      }
    }
    assert a == b;
    Cancel(x, r, s);
  }

  lemma {:induction false} EscapeInjective(a: Bytes, b: Bytes, r: Bytes, s: Bytes)
    requires Escape(a, [QUOTE] + r) == Escape(b, [QUOTE] + s)
    ensures a == b && r == s
  {
    assert a != [] ==> Escape(a, [QUOTE] + r)[0] == EscapeByte(a[0])[0];
    assert b != [] ==> Escape(b, [QUOTE] + s)[0] == EscapeByte(b[0])[0];
    if a == [] && b == [] {
      Cancel([QUOTE], r, s);
    } else if a != [] && b != [] {
      EscapeByteInjective(a[0], b[0], Escape(a[1..], [QUOTE] + r), Escape(b[1..], [QUOTE] + s));
      EscapeInjective(a[1..], b[1..], r, s);
      assert a == [a[0]] + a[1..] && b == [b[0]] + b[1..];
    }
  }

  lemma QuotedInjective(a: Bytes, b: Bytes, r: Bytes, s: Bytes)
    requires Quoted(a, r) == Quoted(b, s)
    ensures a == b && r == s
  {
    Cancel([QUOTE], Escape(a, [QUOTE] + r), Escape(b, [QUOTE] + s));
    EscapeInjective(a, b, r, s);
  }

  /** The first byte of a text tells the kind of value. */
  lemma Leading(v: Json, r: Bytes)
    requires FloatFree(v)
    ensures PrintThen(v, r) != []
    ensures var b := PrintThen(v, r)[0];
      && (v.Null? <==> b == 0x6e)
      && (v.Bool? <==> b == 0x74 || b == 0x66)
      && (v.Num? <==> b == MINUS || IsDigit(b))
      && (v.Str? <==> b == QUOTE)
      && (v.Arr? <==> b == OPEN_ARRAY)
      && (v.Obj? <==> b == OPEN_OBJECT)
  {}

  /** A text, together with what follows it, determines the value. */
  lemma {:induction false} PrintThenInjective(v: Json, w: Json, r: Bytes, s: Bytes)
    requires FloatFree(v) && FloatFree(w) && Ends(r) && Ends(s)
    requires PrintThen(v, r) == PrintThen(w, s)
    ensures v == w && r == s
    decreases v, 2, 0
  {
    Leading(v, r);
    Leading(w, s);
    match v
    case Null => Cancel(NULL_TEXT, r, s);
    case Bool(b) => Cancel(if b then TRUE_TEXT else FALSE_TEXT, r, s);
    case Num(n) => IntegerInjective(n, w.number, r, s);
    case Str(t) => QuotedInjective(t, w.text, r, s);
    case Arr(items) =>
      Cancel([OPEN_ARRAY], ItemsThen(v, 0, r), ItemsThen(w, 0, s));
      ItemsInjective(v, w, 0, r, s);
      assert items[0..] == items && w.items[0..] == w.items;
    case Obj(m) =>
      ObjectInjective(v, w, r, s);
  }

  lemma ItemsLeading(v: Json, i: nat, r: Bytes)
    requires v.Arr? && FloatFree(v) && i <= |v.items|
    ensures ItemsThen(v, i, r) != []
    ensures i == |v.items| <==> ItemsThen(v, i, r)[0] == CLOSE_ARRAY
  {
    if i < |v.items| { Leading(v.items[i], ItemsThen(v, i + 1, r)); }
  }

  lemma MembersLeading(v: Json, ks: seq<Bytes>, first: bool, r: Bytes)
    requires v.Obj? && FloatFree(v) && Elements(ks) <= v.members.Keys
    ensures MembersThen(v, ks, first, r) != []
    ensures ks == [] <==> MembersThen(v, ks, first, r)[0] == CLOSE_OBJECT
  {
    if ks != [] { assert ks[0] in Elements(ks) && Elements(ks[1..]) <= Elements(ks); }
  }

  lemma {:induction false} ItemsInjective(v: Json, w: Json, i: nat, r: Bytes, s: Bytes)
    requires v.Arr? && w.Arr? && FloatFree(v) && FloatFree(w) && Ends(r) && Ends(s)
    requires i <= |v.items| && i <= |w.items| && ItemsThen(v, i, r) == ItemsThen(w, i, s)
    ensures v.items[i..] == w.items[i..] && r == s
    decreases v, 0, |v.items| - i
  {
    ItemsLeading(v, i, r);
    ItemsLeading(w, i, s);
    if i == |v.items| && i == |w.items| {
      Cancel([CLOSE_ARRAY], r, s);
    } else if i < |v.items| && i < |w.items| {
      var r', s' := ItemsThen(v, i + 1, r), ItemsThen(w, i + 1, s);
      Cancel(Separator(i == 0), PrintThen(v.items[i], r'), PrintThen(w.items[i], s'));
      PrintThenInjective(v.items[i], w.items[i], r', s');
      ItemsInjective(v, w, i + 1, r, s);
      SliceHead(v.items, i);
      SliceHead(w.items, i);
    }
  }

  lemma {:induction false} ObjectInjective(v: Json, w: Json, r: Bytes, s: Bytes)
    requires v.Obj? && w.Obj? && FloatFree(v) && FloatFree(w) && Ends(r) && Ends(s)
    requires PrintThen(v, r) == PrintThen(w, s)
    ensures v == w && r == s
    decreases v, 1, 0
  {
    var ks, ls := SortedKeys(v.members.Keys), SortedKeys(w.members.Keys);
    Cancel([OPEN_OBJECT], MembersThen(v, ks, true, r), MembersThen(w, ls, true, s));
    MembersInjective(v, w, ks, ls, true, r, s);
    assert forall k :: k in v.members ==> k in Elements(ks);
    assert v.members == w.members;
  }

  lemma {:induction false} MembersInjective(
      v: Json, w: Json, ks: seq<Bytes>, ls: seq<Bytes>, first: bool, r: Bytes, s: Bytes)
    requires v.Obj? && w.Obj? && FloatFree(v) && FloatFree(w) && Ends(r) && Ends(s)
    requires Elements(ks) <= v.members.Keys && Elements(ls) <= w.members.Keys
    requires MembersThen(v, ks, first, r) == MembersThen(w, ls, first, s)
    ensures ks == ls && r == s
    ensures forall k :: k in ks ==> k in v.members && k in w.members && v.members[k] == w.members[k]
    decreases v, 0, |ks|
  {
    MembersLeading(v, ks, first, r);
    MembersLeading(w, ls, first, s);
    if ks == [] && ls == [] {
      Cancel([CLOSE_OBJECT], r, s);
    } else if ks != [] && ls != [] {
      assert ks[0] in Elements(ks) && ls[0] in Elements(ls);
      assert Elements(ks[1..]) <= Elements(ks) && Elements(ls[1..]) <= Elements(ls);
      var x, y := v.members[ks[0]], w.members[ls[0]];
      var r', s' := MembersThen(v, ks[1..], false, r), MembersThen(w, ls[1..], false, s);
      var p, q := [COLON] + PrintThen(x, r'), [COLON] + PrintThen(y, s');
      Cancel(Separator(first), Quoted(ks[0], p), Quoted(ls[0], q));
      QuotedInjective(ks[0], ls[0], p, q);
      Cancel([COLON], PrintThen(x, r'), PrintThen(y, s'));
      PrintThenInjective(x, y, r', s');
      MembersInjective(v, w, ks[1..], ls[1..], false, r, s);
      assert ks == [ks[0]] + ks[1..] && ls == [ls[0]] + ls[1..];
    }
  }

  // ----- text first, rest later -----

  lemma {:induction false} EscapeAppend(t: Bytes, r: Bytes, s: Bytes)
    ensures Escape(t, r + s) == Escape(t, r) + s
  {
    if t != [] {
      EscapeAppend(t[1..], r, s);
      Associate(EscapeByte(t[0]), Escape(t[1..], r), s);
    }
  }

  lemma QuotedAppend(t: Bytes, r: Bytes, s: Bytes)
    ensures Quoted(t, r + s) == Quoted(t, r) + s
  {
    Associate([QUOTE], r, s);
    EscapeAppend(t, [QUOTE] + r, s);
    Associate([QUOTE], Escape(t, [QUOTE] + r), s);
  }

  lemma {:induction false} PrintThenAppend(v: Json, r: Bytes, s: Bytes)
    requires FloatFree(v)
    ensures PrintThen(v, r + s) == PrintThen(v, r) + s
    decreases v, 1, 0
  {
    match v
    case Null => Associate(NULL_TEXT, r, s);
    case Bool(b) => Associate(if b then TRUE_TEXT else FALSE_TEXT, r, s);
    case Num(n) =>
      if n.PosInt? {
        Associate(Decimal(n.u), r, s);
      } else {
        Associate(Decimal(0 - n.i), r, s);
        Associate([MINUS], Decimal(0 - n.i) + r, s);
      }
    case Str(t) => QuotedAppend(t, r, s);
    case Arr(items) =>
      ItemsAppend(v, 0, r, s);
      Associate([OPEN_ARRAY], ItemsThen(v, 0, r), s);
    case Obj(m) =>
      MembersAppend(v, SortedKeys(m.Keys), true, r, s);
      Associate([OPEN_OBJECT], MembersThen(v, SortedKeys(m.Keys), true, r), s);
  }

  lemma {:induction false} ItemsAppend(v: Json, i: nat, r: Bytes, s: Bytes)
    requires v.Arr? && FloatFree(v) && i <= |v.items|
    ensures ItemsThen(v, i, r + s) == ItemsThen(v, i, r) + s
    decreases v, 0, |v.items| - i
  {
    if i == |v.items| {
      Associate([CLOSE_ARRAY], r, s);
    } else {
      ItemsAppend(v, i + 1, r, s);
      PrintThenAppend(v.items[i], ItemsThen(v, i + 1, r), s);
      Associate(Separator(i == 0), PrintThen(v.items[i], ItemsThen(v, i + 1, r)), s);
    }
  }

  lemma {:induction false} MembersAppend(v: Json, ks: seq<Bytes>, first: bool, r: Bytes, s: Bytes)
    requires v.Obj? && FloatFree(v) && Elements(ks) <= v.members.Keys
    ensures MembersThen(v, ks, first, r + s) == MembersThen(v, ks, first, r) + s
    decreases v, 0, |ks|
  {
    if ks == [] {
      Associate([CLOSE_OBJECT], r, s);
    } else {
      assert ks[0] in Elements(ks);
      assert Elements(ks[1..]) <= Elements(ks);
      var x, rest := v.members[ks[0]], MembersThen(v, ks[1..], false, r);
      MembersAppend(v, ks[1..], false, r, s);
      PrintThenAppend(x, rest, s);
      Associate([COLON], PrintThen(x, rest), s);
      QuotedAppend(ks[0], [COLON] + PrintThen(x, rest), s);
      Associate(Separator(first), Quoted(ks[0], [COLON] + PrintThen(x, rest)), s);
    }
  }

  /** Printing in front of `r` is printing and then appending `r`. */
  lemma PrintThenIsPrint(v: Json, r: Bytes)
    requires FloatFree(v)
    ensures PrintThen(v, r) == Print(v) + r
  {
    assert [] + r == r;
    PrintThenAppend(v, [], r);
  }

  /** The core theorem: whatever may follow, equal printed prefixes come from equal values. */
  lemma PrintInjective(v: Json, w: Json, r: Bytes, s: Bytes)
    requires FloatFree(v) && FloatFree(w) && Ends(r) && Ends(s)
    requires Print(v) + r == Print(w) + s
    ensures v == w && r == s
  {
    PrintThenIsPrint(v, r);
    PrintThenIsPrint(w, s);
    PrintThenInjective(v, w, r, s);
  }

  // ----- the printer itself -----

  /** `map.keys().collect()` followed by the byte-order sort. */
  method CollectSorted(keys: set<Bytes>) returns (ks: seq<Bytes>)
    ensures ks == SortedKeys(keys)
  {
    ks := [];
    var left := keys;
    while left != {}
      invariant left <= keys && Ascending(ks) && Elements(ks) == keys - left
      decreases |left|
    {
      var k :| k in left;
      ks := InsertSorted(ks, k);
      left := left - {k};
    }
    SortedKeysAscend(keys);
    AscendingUnique(ks, SortedKeys(keys));
  }

  method InsertSorted(ks: seq<Bytes>, k: Bytes) returns (out: seq<Bytes>)
    requires Ascending(ks) && k !in Elements(ks)
    ensures Ascending(out) && Elements(out) == Elements(ks) + {k}
  {
    var i := 0;
    while i < |ks| && Less(ks[i], k)
      invariant i <= |ks| && forall j :: 0 <= j < i ==> Less(ks[j], k)
    {
      i := i + 1;
    }
    forall j | i <= j < |ks| ensures Less(k, ks[j]) {
      LessTotal(k, ks[i]);
      if j > i { LessTransitive(k, ks[i], ks[j]); }
    }
    out := ks[..i] + [k] + ks[i..];
    assert Elements(out) == Elements(ks) + {k} by {
      assert forall x :: x in out <==> x in ks[..i] || x == k || x in ks[i..];
      assert forall x :: x in ks <==> x in ks[..i] || x in ks[i..] by { assert ks == ks[..i] + ks[i..]; }
    }
  }

  /** Prints `value` behind what `out` already holds; fails exactly on a float at some depth. */
  method Canonical(value: Json, out: Buffer) returns (ok: bool)
    modifies out
    ensures ok <==> FloatFree(value)
    ensures ok ==> out.text == old(out.text) + Print(value)
    decreases value, 2
  {
    match value
    case Null => out.Push(NULL_TEXT); return true;
    case Bool(b) => out.Push(if b then TRUE_TEXT else FALSE_TEXT); return true;
    case Num(n) =>
      match n {
        case PosInt(u) => out.Push(Decimal(u)); return true;
        case NegInt(i) => out.Push([MINUS] + Decimal(0 - i)); return true;
        case Float(_) => return false;
      }
    case Str(s) => out.Push(Quoted(s, [])); return true;
    case Arr(_) => ok := CanonicalArray(value, out);
    case Obj(_) => ok := CanonicalObject(value, out);
  }

  method CanonicalArray(value: Json, out: Buffer) returns (ok: bool)
    requires value.Arr?
    modifies out
    ensures ok <==> FloatFree(value)
    ensures ok ==> out.text == old(out.text) + Print(value)
    decreases value, 0
  {
    var items := value.items;
    ghost var start := out.text;
    out.Push([OPEN_ARRAY]);
    if FloatFree(value) { Associate(start, [OPEN_ARRAY], ItemsThen(value, 0, [])); }
    var index := 0;
    while index < |items|
      invariant index <= |items| && forall j :: 0 <= j < index ==> FloatFree(items[j])
      invariant FloatFree(value) ==> out.text + ItemsThen(value, index, []) == start + Print(value)
    {
      ghost var before := out.text;
      if index > 0 {
        out.Push([COMMA]);
      }
      ghost var separated := out.text;
      assert separated == before + Separator(index == 0);
      var done := Canonical(items[index], out);
      if !done {
        return false;
      }
      if FloatFree(value) {
        var rest := ItemsThen(value, index + 1, []);
        PrintThenIsPrint(items[index], rest);
        Associate(separated, Print(items[index]), rest);
        Associate(before, Separator(index == 0), PrintThen(items[index], rest));
      }
      index := index + 1;
    }
    out.Push([CLOSE_ARRAY]);
    return true;
  }

  method CanonicalObject(value: Json, out: Buffer) returns (ok: bool)
    requires value.Obj?
    modifies out
    ensures ok <==> FloatFree(value)
    ensures ok ==> out.text == old(out.text) + Print(value)
    decreases value, 1
  {
    var keys := CollectSorted(value.members.Keys);
    ghost var start := out.text;
    out.Push([OPEN_OBJECT]);
    ok := CanonicalMembers(value, keys, out);
    if ok { Associate(start, [OPEN_OBJECT], MembersThen(value, keys, true, [])); }
  }

  method CanonicalMembers(value: Json, keys: seq<Bytes>, out: Buffer) returns (ok: bool)
    requires value.Obj? && Elements(keys) == value.members.Keys
    modifies out
    ensures ok <==> FloatFree(value)
    ensures ok ==> out.text == old(out.text) + MembersThen(value, keys, true, [])
    decreases value, 1, 0
  {
    ghost var goal := Goal(value, keys, out.text);
    MembersStart(value, keys, out.text);
    var index := 0;
    while index < |keys|
      invariant index <= |keys| && Printing(value, keys, index, out.text, goal)
    {
      KeyIsMember(value, keys, index);
      var done := CanonicalMember(value, keys, index, goal, out);
      if !done {
        return false;
      }
      index := index + 1;
    }
    MembersDone(value, keys, out.text, goal);
    out.Push([CLOSE_OBJECT]);
    assert out.text == goal;
    return true;
  }

  ghost predicate FloatFreeAt(v: Json, k: Bytes)
    requires v.Obj?
  {
    k in v.members && FloatFree(v.members[k])
  }

  lemma KeyIsMember(v: Json, keys: seq<Bytes>, i: nat)
    requires v.Obj? && i < |keys| && Elements(keys) == v.members.Keys
    ensures keys[i] in v.members
  {
    assert keys[i] in Elements(keys);
  }

  /** What the buffer is to hold at the end of the object, if it can be printed. */
  ghost function Goal(v: Json, keys: seq<Bytes>, text: Bytes): (goal: Bytes)
    requires v.Obj? && Elements(keys) == v.members.Keys
  {
    if FloatFree(v) then text + MembersThen(v, keys, true, []) else []
  }

  /** The first `i` members are free of floats and printed. */
  ghost predicate Printing(v: Json, keys: seq<Bytes>, i: nat, text: Bytes, goal: Bytes)
    requires v.Obj? && i <= |keys|
  {
    && (forall j :: 0 <= j < i ==> FloatFreeAt(v, keys[j]))
    && (FloatFree(v) ==> MembersLeft(v, keys, i, text, goal))
  }

  lemma MembersStart(v: Json, keys: seq<Bytes>, text: Bytes)
    requires v.Obj? && Elements(keys) == v.members.Keys
    ensures Printing(v, keys, 0, text, Goal(v, keys, text))
  {
    assert keys[0..] == keys;
  }

  lemma MembersDone(v: Json, keys: seq<Bytes>, text: Bytes, goal: Bytes)
    requires v.Obj? && Elements(keys) == v.members.Keys && Printing(v, keys, |keys|, text, goal)
    ensures FloatFree(v) && text + [CLOSE_OBJECT] == goal
    ensures forall start :: goal == Goal(v, keys, start) ==> goal == start + MembersThen(v, keys, true, [])
  {
    assert keys[|keys|..] == [];
    assert forall k :: k in v.members ==> k in Elements(keys);
  }

  /** Once the members of `v` under `keys[i..]` are appended to `text`, it is `goal`. */
  ghost predicate MembersLeft(v: Json, keys: seq<Bytes>, i: nat, text: Bytes, goal: Bytes)
    requires v.Obj? && FloatFree(v) && i <= |keys|
  {
    Elements(keys[i..]) <= v.members.Keys && text + MembersThen(v, keys[i..], i == 0, []) == goal
  }

  /** One turn of the object loop: separator, quoted key, colon and value. */
  method CanonicalMember(value: Json, keys: seq<Bytes>, index: nat, ghost goal: Bytes, out: Buffer) returns (ok: bool)
    requires value.Obj? && index < |keys| && keys[index] in value.members
    requires Printing(value, keys, index, out.text, goal)
    modifies out
    ensures if ok then Printing(value, keys, index + 1, out.text, goal) else !FloatFree(value)
    decreases value, 0
  {
    var key := keys[index];
    ghost var before := out.text;
    if FloatFree(value) { MemberStep(value, keys, index, before, goal); }
    if index > 0 {
      out.Push([COMMA]);
    }
    assert out.text == before + Separator(index == 0);
    out.Push(Quoted(key, []));
    out.Push([COLON]);
    ok := Canonical(value.members[key], out);
  }

  lemma MemberStep(v: Json, keys: seq<Bytes>, i: nat, before: Bytes, goal: Bytes)
    requires v.Obj? && FloatFree(v) && i < |keys| && MembersLeft(v, keys, i, before, goal)
    ensures keys[i] in v.members
    ensures MembersLeft(v, keys, i + 1,
              before + Separator(i == 0) + Quoted(keys[i], []) + [COLON] + Print(v.members[keys[i]]), goal)
  {
    var ks := keys[i..];
    assert ks[0] == keys[i] && ks[0] in Elements(ks) && ks[1..] == keys[i + 1..];
    assert Elements(ks[1..]) <= Elements(ks);
    var sep, x, rest := Separator(i == 0), v.members[ks[0]], MembersThen(v, ks[1..], false, []);
    var p := [COLON] + PrintThen(x, rest);
    PrintThenIsPrint(x, rest);
    assert [] + p == p;
    QuotedAppend(ks[0], [], p);
    Associate(before, sep, Quoted(ks[0], []) + p);
    Associate(before + sep, Quoted(ks[0], []), p);
    Associate(before + sep + Quoted(ks[0], []), [COLON], PrintThen(x, rest));
    Associate(before + sep + Quoted(ks[0], []) + [COLON], Print(x), rest);
  }

  /** SHA-256, as any function from texts to 32-byte digests. */
  type Digest = d: Bytes | |d| == 32 witness seq(32, _ => 0)

  /** The digest of a review's canonical text; absent exactly when the text is. */
  method ReviewDigest(value: Json, sha256: Bytes -> Digest) returns (digest: Option<Digest>)
    ensures digest.Some? <==> FloatFree(value)
    ensures digest.Some? ==> digest.value == sha256(Print(value))
  {
    var out := new Buffer();
    var ok := Canonical(value, out);
    if !ok {
      return None;
    }
    assert out.text == Print(value);
    return Some(sha256(out.text));
  }

  /** Equal review digests mean equal reviews, unless they exhibit a SHA-256 collision. */
  lemma ReviewDigestBinds(v: Json, w: Json, sha256: Bytes -> Digest)
    requires FloatFree(v) && FloatFree(w) && sha256(Print(v)) == sha256(Print(w))
    ensures v == w || Print(v) != Print(w)
  {
    if Print(v) == Print(w) {
      PrintInjective(v, w, [], []);
    }
  }
}
