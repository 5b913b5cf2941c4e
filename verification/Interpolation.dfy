/** Placeholder interpolation (`interpolate` and its helpers in src/commands.rs): the indexes against a
    scan of the items, and the one pass over the text. */
module Interpolation {
  import opened ByteStrings
  import opened Profiles

  const OPEN: byte := 0x28
  const CLOSE: byte := 0x29
  const DOT: byte := 0x2e

  /** What interpolation takes from elsewhere: the keys of an item, Unicode lowercasing, and whether a
      white-space character starts at a byte position. */
  datatype Vault = Vault(
    keys: Cipher -> Option<Keys>, lower: Bytes -> Bytes, blank: (Bytes, nat) -> bool)

  // ----- the indexes -----

  /** The name of an item that the index can read. */
  function ReadableName(c: Cipher, v: Vault): (name: Option<Bytes>) {
    var keys := v.keys(c);
    if keys.None? then None
    else
      var output := DecryptCipher(c, keys.value, LIST_ENV_NAMES);
      if output.None? then None else Some(output.value.name)
  }

  /** The last readable item with that id. */
  function LastWithId(ciphers: seq<Cipher>, id: Bytes, v: Vault): (c: Option<Cipher>) {
    if ciphers == [] then None
    else
      var last := ciphers[|ciphers| - 1];
      if ReadableName(last, v).Some? && last.id == id then Some(last)
      else LastWithId(ciphers[..|ciphers| - 1], id, v)
  }

  /** The readable items whose lowercased name is `key`, in order. */
  function NamedLike(ciphers: seq<Cipher>, key: Bytes, v: Vault): (cs: seq<Cipher>) {
    if ciphers == [] then []
    else
      var before, last := NamedLike(ciphers[..|ciphers| - 1], key, v), ciphers[|ciphers| - 1];
      var name := ReadableName(last, v);
      if name.Some? && v.lower(name.value) == key then before + [last] else before
  }

  function Found<T>(index: map<Bytes, T>, key: Bytes): (value: Option<T>) {
    if key in index then Some(index[key]) else None
  }

  function AllFound(index: map<Bytes, seq<Cipher>>, key: Bytes): (cs: seq<Cipher>) {
    if key in index then index[key] else []
  }

  /** The two indexes answer every key as a scan of the items does; the name index has no empty entry. */
  ghost predicate Indexed(
    byName: map<Bytes, seq<Cipher>>, byId: map<Bytes, Cipher>, ciphers: seq<Cipher>, v: Vault)
  {
    && (forall id :: Found(byId, id) == LastWithId(ciphers, id, v))
    && (forall key :: AllFound(byName, key) == NamedLike(ciphers, key, v))
    && (forall key :: key in byName ==> byName[key] != [])
  }

  predicate Matches(c: Cipher, key: Bytes, v: Vault) {
    ReadableName(c, v).Some? && v.lower(ReadableName(c, v).value) == key
  }

  lemma ScanStep(ciphers: seq<Cipher>, i: nat, key: Bytes, v: Vault)
    requires i < |ciphers|
    ensures LastWithId(ciphers[..i + 1], key, v)
      == if ReadableName(ciphers[i], v).Some? && ciphers[i].id == key then Some(ciphers[i])
         else LastWithId(ciphers[..i], key, v)
    ensures NamedLike(ciphers[..i + 1], key, v)
      == NamedLike(ciphers[..i], key, v) + if Matches(ciphers[i], key, v) then [ciphers[i]] else []
  {
    assert ciphers[..i + 1][..i] == ciphers[..i];
  }

  lemma IndexReadable(
    byName: map<Bytes, seq<Cipher>>, byId: map<Bytes, Cipher>, ciphers: seq<Cipher>, i: nat, key: Bytes, v: Vault)
    requires i < |ciphers| && Indexed(byName, byId, ciphers[..i], v) && Matches(ciphers[i], key, v)
    ensures Indexed(
      byName[key := AllFound(byName, key) + [ciphers[i]]], byId[ciphers[i].id := ciphers[i]], ciphers[..i + 1], v)
  {
    var names, ids := byName[key := AllFound(byName, key) + [ciphers[i]]], byId[ciphers[i].id := ciphers[i]];
    forall id ensures Found(ids, id) == LastWithId(ciphers[..i + 1], id, v) {
      ScanStep(ciphers, i, id, v);
      assert Found(byId, id) == LastWithId(ciphers[..i], id, v);
    }
    forall k ensures AllFound(names, k) == NamedLike(ciphers[..i + 1], k, v) {
      ScanStep(ciphers, i, k, v);
      assert AllFound(byName, k) == NamedLike(ciphers[..i], k, v);
    }
  }

  lemma IndexUnreadable(
    byName: map<Bytes, seq<Cipher>>, byId: map<Bytes, Cipher>, ciphers: seq<Cipher>, i: nat, v: Vault)
    requires i < |ciphers| && Indexed(byName, byId, ciphers[..i], v) && ReadableName(ciphers[i], v).None?
    ensures Indexed(byName, byId, ciphers[..i + 1], v)
  {
    forall id ensures Found(byId, id) == LastWithId(ciphers[..i + 1], id, v) {
      ScanStep(ciphers, i, id, v);
      assert Found(byId, id) == LastWithId(ciphers[..i], id, v);
    }
    forall k ensures AllFound(byName, k) == NamedLike(ciphers[..i + 1], k, v) {
      ScanStep(ciphers, i, k, v);
      assert AllFound(byName, k) == NamedLike(ciphers[..i], k, v);
    }
  }

  method BuildIndexes(ciphers: seq<Cipher>, v: Vault)
    returns (byName: map<Bytes, seq<Cipher>>, byId: map<Bytes, Cipher>)
    ensures Indexed(byName, byId, ciphers, v)
  {
    byName, byId := map[], map[];
    for i := 0 to |ciphers|
      invariant Indexed(byName, byId, ciphers[..i], v)
    {
      var c := ciphers[i];
      var keys := v.keys(c);
      var output := if keys.Some? then DecryptCipher(c, keys.value, LIST_ENV_NAMES) else None;
      if output.Some? {
        var key := v.lower(output.value.name);
        IndexReadable(byName, byId, ciphers, i, key, v);
        byId := byId[output.value.id := c];
        byName := byName[key := AllFound(byName, key) + [c]];
      } else {
        IndexUnreadable(byName, byId, ciphers, i, v);
      }
    }
    assert ciphers[..|ciphers|] == ciphers;
  }

  // ----- resolving one placeholder -----

  function ReadComponent(c: Cipher, component: Bytes, v: Vault): (value: Option<Bytes>) {
    var keys := v.keys(c);
    if keys.None? then None
    else
      var output := DecryptCipher(c, keys.value, InterpolationProfile(v.lower(component)));
      if output.None? then None else ResolveComponent(output.value, component, v.lower)
  }

  /** What a placeholder means: the last readable item with that id, or else the only readable item with
      that name in any case. */
  function Meaning(name: Bytes, component: Bytes, ciphers: seq<Cipher>, v: Vault): (value: Option<Bytes>) {
    var byId := LastWithId(ciphers, name, v);
    var named := NamedLike(ciphers, v.lower(name), v);
    if byId.Some? then ReadComponent(byId.value, component, v)
    else if |named| == 1 then ReadComponent(named[0], component, v)
    else None
  }

  /** Item `i` can be read, and has that id. */
  ghost predicate HasId(ciphers: seq<Cipher>, i: nat, id: Bytes, v: Vault)
    requires i < |ciphers|
  {
    ReadableName(ciphers[i], v).Some? && ciphers[i].id == id
  }

  /** Item `i` is the last one with that id. */
  ghost predicate LastHasId(ciphers: seq<Cipher>, i: nat, id: Bytes, v: Vault)
    requires i < |ciphers|
  {
    HasId(ciphers, i, id, v) && forall k :: i < k < |ciphers| ==> !HasId(ciphers, k, id, v)
  }

  /** Item `i` can be read, and is the only one with that name in any case. */
  ghost predicate OnlyNamed(ciphers: seq<Cipher>, i: nat, name: Bytes, v: Vault)
    requires i < |ciphers|
  {
    && Matches(ciphers[i], v.lower(name), v)
    && forall k :: 0 <= k < |ciphers| && k != i ==> !Matches(ciphers[k], v.lower(name), v)
  }

  lemma {:induction false} LastWithIdMeaning(ciphers: seq<Cipher>, id: Bytes, v: Vault) returns (i: nat)
    ensures LastWithId(ciphers, id, v).None? ==> forall k :: 0 <= k < |ciphers| ==> !HasId(ciphers, k, id, v)
    ensures LastWithId(ciphers, id, v).Some? ==>
      i < |ciphers| && LastHasId(ciphers, i, id, v) && LastWithId(ciphers, id, v) == Some(ciphers[i])
  {
    i := 0;
    if ciphers != [] {
      var before := ciphers[..|ciphers| - 1];
      if HasId(ciphers, |ciphers| - 1, id, v) {
        i := |ciphers| - 1;
      } else {
        i := LastWithIdMeaning(before, id, v);
        assert forall k :: 0 <= k < |before| ==> (HasId(before, k, id, v) <==> HasId(ciphers, k, id, v));
      }
    }
  }

  lemma {:induction false} NamedLikeMeaning(ciphers: seq<Cipher>, name: Bytes, v: Vault)
    ensures NamedLike(ciphers, v.lower(name), v) == [] <==>
      forall k :: 0 <= k < |ciphers| ==> !Matches(ciphers[k], v.lower(name), v)
    ensures forall i :: 0 <= i < |ciphers| && OnlyNamed(ciphers, i, name, v) ==>
      NamedLike(ciphers, v.lower(name), v) == [ciphers[i]]
    ensures |NamedLike(ciphers, v.lower(name), v)| == 1 ==>
      exists i :: 0 <= i < |ciphers| && OnlyNamed(ciphers, i, name, v)
  {
    if ciphers != [] {
      var before, n := ciphers[..|ciphers| - 1], |ciphers| - 1;
      NamedLikeMeaning(before, name, v);
      assert forall k :: 0 <= k < n ==> before[k] == ciphers[k];
      if Matches(ciphers[n], v.lower(name), v) {
        if NamedLike(before, v.lower(name), v) == [] { assert OnlyNamed(ciphers, n, name, v); }
      } else {
        forall i | 0 <= i < n && OnlyNamed(before, i, name, v) ensures OnlyNamed(ciphers, i, name, v) {}
        forall i | 0 <= i < n && OnlyNamed(ciphers, i, name, v) ensures OnlyNamed(before, i, name, v) {}
      }
    }
  }

  /** A placeholder names an item by its id, the last of several deciding, or else, if no readable item has
      that id, by a name that no other readable item has; it is replaced by that item's component. */
  lemma MeaningExactly(name: Bytes, component: Bytes, ciphers: seq<Cipher>, v: Vault)
    ensures forall i :: 0 <= i < |ciphers| && LastHasId(ciphers, i, name, v) ==>
      Meaning(name, component, ciphers, v) == ReadComponent(ciphers[i], component, v)
    ensures (forall i :: 0 <= i < |ciphers| ==> !HasId(ciphers, i, name, v)) ==>
      && (forall i :: 0 <= i < |ciphers| && OnlyNamed(ciphers, i, name, v) ==>
        Meaning(name, component, ciphers, v) == ReadComponent(ciphers[i], component, v))
      && ((forall i :: 0 <= i < |ciphers| ==> !OnlyNamed(ciphers, i, name, v)) ==>
        Meaning(name, component, ciphers, v) == None)
  {
    var last := LastWithIdMeaning(ciphers, name, v);
    NamedLikeMeaning(ciphers, name, v);
    forall i | 0 <= i < |ciphers| && LastHasId(ciphers, i, name, v) ensures i == last {
      assert HasId(ciphers, i, name, v);
    }
  }

  /** Which items can be read: those whose keys are known, that are not deleted, and whose name and field
      names open, the latter being distinct. */
  lemma ReadableMeaning(c: Cipher, v: Vault)
    ensures ReadableName(c, v).Some? <==>
      && v.keys(c).Some? && !c.deleted && c.name.Some? && v.keys(c).value(c.name.value).Some?
      && (c.fields.Some? ==> FieldsOpen(v.keys(c).value, Named(c.fields.value), false))
    ensures ReadableName(c, v).Some? ==> ReadableName(c, v) == v.keys(c).value(c.name.value)
  {
    if v.keys(c).Some? {
      DecryptSucceeds(c, v.keys(c).value, LIST_ENV_NAMES);
      if ReadableName(c, v).Some? {
        DecryptMeaning(c, v.keys(c).value, LIST_ENV_NAMES, DecryptCipher(c, v.keys(c).value, LIST_ENV_NAMES).value);
      }
    }
  }

  /** The lookup in the indexes. */
  function ResolvePlaceholder(
    name: Bytes, component: Bytes, byName: map<Bytes, seq<Cipher>>, byId: map<Bytes, Cipher>, v: Vault)
    : (value: Option<Bytes>)
  {
    if name in byId then ReadComponent(byId[name], component, v)
    else
      var key := v.lower(name);
      if key in byName && |byName[key]| == 1 then ReadComponent(byName[key][0], component, v) else None
  }

  /** The lookup finds what the scan finds. */
  lemma LookupIsScan(
    name: Bytes, component: Bytes, byName: map<Bytes, seq<Cipher>>, byId: map<Bytes, Cipher>,
    ciphers: seq<Cipher>, v: Vault)
    requires Indexed(byName, byId, ciphers, v)
    ensures ResolvePlaceholder(name, component, byName, byId, v) == Meaning(name, component, ciphers, v)
  {
    assert Found(byId, name) == LastWithId(ciphers, name, v);
    assert AllFound(byName, v.lower(name)) == NamedLike(ciphers, v.lower(name), v);
  }

  /** Where an item can be decrypted in full, a component read from it is the component of the full item. */
  lemma ReadFromFull(c: Cipher, component: Bytes, v: Vault)
    requires v.keys(c).Some? && DecryptCipher(c, v.keys(c).value, FULL).Some?
    ensures ReadComponent(c, component, v)
      == ResolveComponent(DecryptCipher(c, v.keys(c).value, FULL).value, component, v.lower)
  {
    InterpolationAgrees(c, v.keys(c).value, component, v.lower);
  }

  // ----- the parts of a placeholder -----

  /** Where the last dot is, or -1. */
  function LastDot(text: Bytes): (i: int)
    ensures -1 <= i < |text|
    ensures i >= 0 ==> text[i] == DOT
    ensures forall k :: i < k < |text| ==> text[k] != DOT
  {
    if text == [] then -1
    else if text[|text| - 1] == DOT then |text| - 1 else LastDot(text[..|text| - 1])
  }

  /** The name and the component of a placeholder. */
  function ParsePlaceholder(text: Bytes): (parts: Option<(Bytes, Bytes)>) {
    var i := LastDot(text);
    if i <= 0 || i == |text| - 1 then None else Some((text[..i], text[i + 1..]))
  }

  /** Parsing takes apart exactly the texts `name.component` of two non-empty parts, the component without a dot. */
  lemma ParsesExactly(text: Bytes, name: Bytes, component: Bytes)
    ensures ParsePlaceholder(text) == Some((name, component)) <==>
      && text == name + ['.' as int] + component && name != [] && component != [] && '.' as int !in component
  {
    if text == name + [DOT] + component && DOT !in component { DotBetween(text, name, component); }
    if ParsePlaceholder(text) == Some((name, component)) { PartsOf(text); }
  }

  lemma DotBetween(text: Bytes, name: Bytes, component: Bytes)
    requires text == name + [DOT] + component && DOT !in component
    ensures LastDot(text) == |name| && text[..|name|] == name && text[|name| + 1..] == component
  {
    assert text[|name|] == DOT;
    assert forall k :: |name| < k < |text| ==> text[k] == component[k - |name| - 1];
  }

  lemma PartsOf(text: Bytes)
    requires ParsePlaceholder(text).Some?
    ensures var (name, component) := ParsePlaceholder(text).value;
      text == name + [DOT] + component && DOT !in component
  {
    var i := LastDot(text);
    assert text == text[..i] + [DOT] + text[i + 1..];
  }

  // ----- placeholders in a text -----

  predicate Inner(text: Bytes, i: nat, blank: (Bytes, nat) -> bool) {
    i < |text| && text[i] != OPEN && text[i] != CLOSE && !blank(text, i)
  }

  /** Where the run of inner characters from `i` ends. */
  function RunEnd(text: Bytes, i: nat, blank: (Bytes, nat) -> bool): (end: nat)
    requires i <= |text|
    ensures i <= end <= |text| && !Inner(text, end, blank)
    ensures forall k :: i <= k < end ==> Inner(text, k, blank)
    decreases |text| - i
  {
    if Inner(text, i, blank) then RunEnd(text, i + 1, blank) else i
  }

  /** The end of a placeholder that starts at `i`: two opening parentheses, a non-empty run, two closing ones. */
  function PlaceholderEnd(text: Bytes, i: nat, blank: (Bytes, nat) -> bool): (end: Option<nat>)
    ensures end.Some? ==> i + 5 <= end.value <= |text|
  {
    if i + 2 > |text| || text[i] != OPEN || text[i + 1] != OPEN then None
    else
      var e := RunEnd(text, i + 2, blank);
      if e == i + 2 || e + 2 > |text| || text[e] != CLOSE || text[e + 1] != CLOSE then None
      else Some(e + 2)
  }

  datatype Piece = Literal(b: byte) | Placeholder(at: nat, inner: Bytes)

  /** The text from `i` on, cut into placeholders and the characters between them. */
  function Pieces(text: Bytes, i: nat, blank: (Bytes, nat) -> bool): (pieces: seq<Piece>)
    requires i <= |text|
    decreases |text| - i
  {
    if i == |text| then []
    else
      var end := PlaceholderEnd(text, i, blank);
      if end.Some? then [Placeholder(i, text[i + 2..end.value - 2])] + Pieces(text, end.value, blank)
      else [Literal(text[i])] + Pieces(text, i + 1, blank)
  }

  function Original(p: Piece): (text: Bytes) {
    match p
    case Literal(b) => [b]
    case Placeholder(_, inner) => [OPEN, OPEN] + inner + [CLOSE, CLOSE]
  }

  /** What an inner text resolves to; the closure of the pass. */
  type Resolver = Bytes -> Option<Bytes>

  function Scanning(ciphers: seq<Cipher>, v: Vault): (r: Resolver) {
    inner => var parts := ParsePlaceholder(inner);
      if parts.None? then None else Meaning(parts.value.0, parts.value.1, ciphers, v)
  }

  function Lookup(byName: map<Bytes, seq<Cipher>>, byId: map<Bytes, Cipher>, v: Vault): (r: Resolver) {
    inner => var parts := ParsePlaceholder(inner);
      if parts.None? then None else ResolvePlaceholder(parts.value.0, parts.value.1, byName, byId, v)
  }

  predicate Missing(p: Piece, resolve: Resolver) {
    p.Placeholder? && resolve(p.inner).None?
  }

  /** A placeholder that resolves becomes its value; everything else stays as it is. */
  function Replaced(p: Piece, resolve: Resolver): (text: Bytes) {
    if p.Placeholder? && resolve(p.inner).Some? then resolve(p.inner).value else Original(p)
  }

  function Missed(p: Piece, resolve: Resolver): (texts: seq<Bytes>) {
    if Missing(p, resolve) then [Original(p)] else []
  }

  function Originals(pieces: seq<Piece>): (text: Bytes) {
    if pieces == [] then [] else Original(pieces[0]) + Originals(pieces[1..])
  }

  function Substituted(pieces: seq<Piece>, resolve: Resolver): (text: Bytes) {
    if pieces == [] then [] else Replaced(pieces[0], resolve) + Substituted(pieces[1..], resolve)
  }

  /** The placeholders that do not resolve, in order, as they stand in the text. */
  function Unresolved(pieces: seq<Piece>, resolve: Resolver): (texts: seq<Bytes>) {
    if pieces == [] then [] else Missed(pieces[0], resolve) + Unresolved(pieces[1..], resolve)
  }

  /** Piece by piece: a character stays, a placeholder becomes its value, or stays with its parentheses and is
      listed if it has none. */
  lemma SubstitutionMeaning(p: Piece, resolve: Resolver)
    ensures p.Literal? ==> Substituted([p], resolve) == [p.b] && Unresolved([p], resolve) == []
    ensures p.Placeholder? && resolve(p.inner).Some? ==>
      Substituted([p], resolve) == resolve(p.inner).value && Unresolved([p], resolve) == []
    ensures p.Placeholder? && resolve(p.inner).None? ==>
      Substituted([p], resolve) == Whole(p.inner) && Unresolved([p], resolve) == [Whole(p.inner)]
  {
    assert Octets("((") == [OPEN, OPEN] && Octets("))") == [CLOSE, CLOSE];
    var rest := [p][1..];
    assert rest == [];
    assert Replaced(p, resolve) + [] == Replaced(p, resolve) && Missed(p, resolve) + [] == Missed(p, resolve);
  }

  function Whole(inner: Bytes): (text: Bytes) {
    Octets("((") + inner + Octets("))")
  }

  /** And so on through the text, in order. */
  lemma SubstitutionInOrder(a: seq<Piece>, b: seq<Piece>, resolve: Resolver)
    ensures Substituted(a + b, resolve) == Substituted(a, resolve) + Substituted(b, resolve)
    ensures Unresolved(a + b, resolve) == Unresolved(a, resolve) + Unresolved(b, resolve)
  {
    SubstitutedJoin(a, b, resolve);
    UnresolvedJoin(a, b, resolve);
  }

  lemma {:induction false} SubstitutedJoin(a: seq<Piece>, b: seq<Piece>, resolve: Resolver)
    ensures Substituted(a + b, resolve) == Substituted(a, resolve) + Substituted(b, resolve)
  {
    if a == [] {
      assert a + b == b;
    } else {
      SubstitutedJoin(a[1..], b, resolve);
      assert (a + b)[1..] == a[1..] + b;
      Associate(Replaced(a[0], resolve), Substituted(a[1..], resolve), Substituted(b, resolve));
    }
  }

  lemma {:induction false} UnresolvedJoin(a: seq<Piece>, b: seq<Piece>, resolve: Resolver)
    ensures Unresolved(a + b, resolve) == Unresolved(a, resolve) + Unresolved(b, resolve)
  {
    if a == [] {
      assert a + b == b;
    } else {
      UnresolvedJoin(a[1..], b, resolve);
      assert (a + b)[1..] == a[1..] + b;
      Associate(Missed(a[0], resolve), Unresolved(a[1..], resolve), Unresolved(b, resolve));
    }
  }

  /** Cutting loses nothing. */
  lemma {:induction false} PiecesAreTheText(text: Bytes, i: nat, blank: (Bytes, nat) -> bool)
    requires i <= |text|
    ensures Originals(Pieces(text, i, blank)) == text[i..]
    decreases |text| - i
  {
    if i < |text| {
      var end := PlaceholderEnd(text, i, blank);
      if end.Some? {
        PiecesAreTheText(text, end.value, blank);
        PlaceholderShape(text, i, blank);
        assert text[i..] == text[i..end.value] + text[end.value..];
      } else {
        PiecesAreTheText(text, i + 1, blank);
        SliceHead(text, i);
      }
    }
  }

  /** A placeholder is its parentheses around a non-empty run of inner characters. */
  lemma PlaceholderShape(text: Bytes, i: nat, blank: (Bytes, nat) -> bool)
    requires i <= |text| && PlaceholderEnd(text, i, blank).Some?
    ensures var end := PlaceholderEnd(text, i, blank).value;
      && text[i..end] == [OPEN, OPEN] + text[i + 2..end - 2] + [CLOSE, CLOSE]
      && end - 2 > i + 2
      && forall k :: i + 2 <= k < end - 2 ==> Inner(text, k, blank)
  {}

  /** No placeholder starts inside another, so no choice between overlapping matches ever arises. */
  lemma PlaceholdersAreDisjoint(text: Bytes, i: nat, k: nat, blank: (Bytes, nat) -> bool)
    requires i < |text| && PlaceholderEnd(text, i, blank).Some?
    requires i < k < PlaceholderEnd(text, i, blank).value
    ensures PlaceholderEnd(text, k, blank).None?
  {
    PlaceholderShape(text, i, blank);
    var end := PlaceholderEnd(text, i, blank).value;
    assert Inner(text, i + 2, blank);
    if i + 2 <= k < end - 2 { assert Inner(text, k, blank); }
  }

  /** The first piece from `i` on. */
  function PieceAt(text: Bytes, i: nat, blank: (Bytes, nat) -> bool): (p: Piece)
    requires i < |text|
  {
    var end := PlaceholderEnd(text, i, blank);
    if end.Some? then Placeholder(i, text[i + 2..end.value - 2]) else Literal(text[i])
  }

  function PieceEnd(text: Bytes, i: nat, blank: (Bytes, nat) -> bool): (end: nat)
    requires i < |text|
    ensures i < end <= |text|
  {
    var end := PlaceholderEnd(text, i, blank);
    if end.Some? then end.value else i + 1
  }

  lemma PiecesHead(text: Bytes, i: nat, blank: (Bytes, nat) -> bool)
    requires i < |text|
    ensures Pieces(text, i, blank) == [PieceAt(text, i, blank)] + Pieces(text, PieceEnd(text, i, blank), blank)
    ensures Original(PieceAt(text, i, blank)) == text[i..PieceEnd(text, i, blank)]
  {
    if PlaceholderEnd(text, i, blank).Some? { PlaceholderShape(text, i, blank); }
  }

  lemma {:induction false} PiecesStartAfter(text: Bytes, i: nat, k: nat, inner: Bytes, blank: (Bytes, nat) -> bool)
    requires i <= |text| && k < i
    ensures Placeholder(k, inner) !in Pieces(text, i, blank)
    decreases |text| - i
  {
    if i < |text| {
      PiecesHead(text, i, blank);
      PiecesStartAfter(text, PieceEnd(text, i, blank), k, inner, blank);
    }
  }

  /** The placeholder pattern, read off the text: two opening parentheses, a non-empty run without
      parentheses or white space, two closing parentheses. */
  predicate IsPlaceholder(text: Bytes, k: nat, inner: Bytes, blank: (Bytes, nat) -> bool) {
    && inner != [] && k + |inner| + 4 <= |text|
    && text[k..k + |inner| + 4] == ['(' as int, '(' as int] + inner + [')' as int, ')' as int]
    && forall i :: k + 2 <= i < k + 2 + |inner| ==> Inner(text, i, blank)
  }

  lemma RunEndIs(text: Bytes, i: nat, end: nat, blank: (Bytes, nat) -> bool)
    requires i <= end <= |text| && !Inner(text, end, blank)
    requires forall k :: i <= k < end ==> Inner(text, k, blank)
    ensures RunEnd(text, i, blank) == end
  {}

  /** The scanner finds a placeholder exactly where the pattern matches, and with that inner text. */
  lemma ScannerMatchesPattern(text: Bytes, k: nat, inner: Bytes, blank: (Bytes, nat) -> bool)
    requires k <= |text|
    ensures IsPlaceholder(text, k, inner, blank) <==>
      var end := PlaceholderEnd(text, k, blank); end.Some? && inner == text[k + 2..end.value - 2]
  {
    if IsPlaceholder(text, k, inner, blank) {
      var whole := text[k..k + |inner| + 4];
      var e := k + 2 + |inner|;
      assert text[k] == whole[0] && text[k + 1] == whole[1] && text[e] == whole[2 + |inner|] && text[e + 1] == whole[3 + |inner|];
      RunEndIs(text, k + 2, e, blank);
      assert forall j :: 0 <= j < |inner| ==> inner[j] == whole[2 + j];
      assert text[k + 2..e] == inner;
    }
    if PlaceholderEnd(text, k, blank).Some? { PlaceholderShape(text, k, blank); }
  }

  /** The cut finds every placeholder of the text and nothing else. */
  lemma {:induction false} PiecesFindAll(text: Bytes, i: nat, k: nat, inner: Bytes, blank: (Bytes, nat) -> bool)
    requires i <= k <= |text|
    ensures Placeholder(k, inner) in Pieces(text, i, blank) <==> IsPlaceholder(text, k, inner, blank)
    decreases |text| - i
  {
    ScannerMatchesPattern(text, k, inner, blank);
    if i < |text| {
      var next := PieceEnd(text, i, blank);
      PiecesHead(text, i, blank);
      if k >= next {
        PiecesFindAll(text, next, k, inner, blank);
      } else {
        PiecesStartAfter(text, next, k, inner, blank);
        if i < k { PlaceholdersAreDisjoint(text, i, k, blank); }
      }
    }
  }

  // ----- the pass over the text -----

  /** What the pass has done when it stands at `i`. */
  ghost predicate Passed(
    text: Bytes, i: nat, output: Bytes, unmatched: seq<Bytes>, resolve: Resolver, blank: (Bytes, nat) -> bool)
  {
    && i <= |text|
    && Substituted(Pieces(text, 0, blank), resolve) == output + Substituted(Pieces(text, i, blank), resolve)
    && Unresolved(Pieces(text, 0, blank), resolve) == unmatched + Unresolved(Pieces(text, i, blank), resolve)
  }

  lemma PassPiece(
    text: Bytes, i: nat, output: Bytes, unmatched: seq<Bytes>, resolve: Resolver, blank: (Bytes, nat) -> bool)
    requires i < |text| && Passed(text, i, output, unmatched, resolve, blank)
    ensures var p := PieceAt(text, i, blank);
      Passed(text, PieceEnd(text, i, blank), output + Replaced(p, resolve), unmatched + Missed(p, resolve),
        resolve, blank)
  {
    var p, rest := PieceAt(text, i, blank), Pieces(text, PieceEnd(text, i, blank), blank);
    PiecesHead(text, i, blank);
    assert ([p] + rest)[1..] == rest;
    Associate(output, Replaced(p, resolve), Substituted(rest, resolve));
    Associate(unmatched, Missed(p, resolve), Unresolved(rest, resolve));
  }

  lemma PassStep(
    text: Bytes, i: nat, output: Bytes, unmatched: seq<Bytes>, resolve: Resolver, blank: (Bytes, nat) -> bool)
    requires i < |text| && Passed(text, i, output, unmatched, resolve, blank)
    ensures var end := PlaceholderEnd(text, i, blank);
      && (end.None? ==> Passed(text, i + 1, output + [text[i]], unmatched, resolve, blank))
      && (end.Some? ==>
        var value := resolve(text[i + 2..end.value - 2]);
        if value.Some? then Passed(text, end.value, output + value.value, unmatched, resolve, blank)
        else Passed(text, end.value, output + text[i..end.value], unmatched + [text[i..end.value]], resolve, blank))
  {
    PassPiece(text, i, output, unmatched, resolve, blank);
    PiecesHead(text, i, blank);
    assert unmatched + [] == unmatched;
    SliceHead(text, i);
  }

  lemma PassStart(text: Bytes, resolve: Resolver, blank: (Bytes, nat) -> bool)
    ensures Passed(text, 0, [], [], resolve, blank)
  {
    var pieces := Pieces(text, 0, blank);
    assert [] + Substituted(pieces, resolve) == Substituted(pieces, resolve);
    assert [] + Unresolved(pieces, resolve) == Unresolved(pieces, resolve);
  }

  lemma PassEnd(text: Bytes, output: Bytes, unmatched: seq<Bytes>, resolve: Resolver, blank: (Bytes, nat) -> bool)
    requires Passed(text, |text|, output, unmatched, resolve, blank)
    ensures output == Substituted(Pieces(text, 0, blank), resolve)
    ensures unmatched == Unresolved(Pieces(text, 0, blank), resolve)
  {
    assert output + [] == output && unmatched + [] == unmatched;
  }

  /** The replacement pass: inserted values are never read again. */
  method ReplaceAll(text: Bytes, resolve: Resolver, blank: (Bytes, nat) -> bool)
    returns (output: Bytes, unmatched: seq<Bytes>)
    ensures output == Substituted(Pieces(text, 0, blank), resolve)
    ensures unmatched == Unresolved(Pieces(text, 0, blank), resolve)
  {
    output, unmatched := [], [];
    var i := 0;
    PassStart(text, resolve, blank);
    while i < |text|
      invariant Passed(text, i, output, unmatched, resolve, blank)
    {
      PassStep(text, i, output, unmatched, resolve, blank);
      var end := PlaceholderEnd(text, i, blank);
      if end.Some? {
        var value := resolve(text[i + 2..end.value - 2]);
        if value.Some? {
          output := output + value.value;
        } else {
          output := output + text[i..end.value];
          unmatched := unmatched + [text[i..end.value]];
        }
        i := end.value;
      } else {
        output := output + [text[i]];
        i := i + 1;
      }
    }
    PassEnd(text, output, unmatched, resolve, blank);
  }

  ghost predicate AllResolve(pieces: seq<Piece>, resolve: Resolver) {
    forall p :: p in pieces ==> !Missing(p, resolve)
  }

  lemma {:induction false} NothingUnresolved(pieces: seq<Piece>, resolve: Resolver)
    ensures Unresolved(pieces, resolve) == [] <==> AllResolve(pieces, resolve)
  {
    if pieces != [] {
      NothingUnresolved(pieces[1..], resolve);
      assert pieces == [pieces[0]] + pieces[1..];
    }
  }

  ghost predicate SameAnswers(f: Resolver, g: Resolver) {
    forall inner :: f(inner) == g(inner)
  }

  lemma {:induction false} SameAnswersSubstitute(pieces: seq<Piece>, f: Resolver, g: Resolver)
    requires SameAnswers(f, g)
    ensures Substituted(pieces, f) == Substituted(pieces, g) && Unresolved(pieces, f) == Unresolved(pieces, g)
  {
    if pieces != [] { SameAnswersSubstitute(pieces[1..], f, g); }
  }

  lemma LookupAnswersAsScan(
    byName: map<Bytes, seq<Cipher>>, byId: map<Bytes, Cipher>, ciphers: seq<Cipher>, v: Vault)
    requires Indexed(byName, byId, ciphers, v)
    ensures SameAnswers(Lookup(byName, byId, v), Scanning(ciphers, v))
  {
    forall inner ensures Lookup(byName, byId, v)(inner) == Scanning(ciphers, v)(inner) {
      var parts := ParsePlaceholder(inner);
      if parts.Some? { LookupIsScan(parts.value.0, parts.value.1, byName, byId, ciphers, v); }
    }
  }

  /** Interpolation fails exactly on a placeholder that does not resolve, unless those are to be skipped; the
      output is the text with every placeholder that resolves replaced by what a scan of the items finds. */
  method Interpolate(text: Bytes, ciphers: seq<Cipher>, skipMissing: bool, v: Vault)
    returns (output: Option<Bytes>, unmatched: seq<Bytes>)
    ensures output.Some? <==> skipMissing || AllResolve(Pieces(text, 0, v.blank), Scanning(ciphers, v))
    ensures output.Some? ==> output.value == Substituted(Pieces(text, 0, v.blank), Scanning(ciphers, v))
    ensures unmatched == Unresolved(Pieces(text, 0, v.blank), Scanning(ciphers, v))
  {
    var byName, byId := BuildIndexes(ciphers, v);
    var replaced;
    replaced, unmatched := ReplaceAll(text, Lookup(byName, byId, v), v.blank);
    LookupAnswersAsScan(byName, byId, ciphers, v);
    SameAnswersSubstitute(Pieces(text, 0, v.blank), Lookup(byName, byId, v), Scanning(ciphers, v));
    NothingUnresolved(Pieces(text, 0, v.blank), Scanning(ciphers, v));
    return if !skipMissing && unmatched != [] then None else Some(replaced), unmatched;
  }

  /** A text in which no placeholder resolves comes back unchanged. */
  lemma {:induction false} NothingReplaced(pieces: seq<Piece>, resolve: Resolver)
    requires forall p :: p in pieces && p.Placeholder? ==> Missing(p, resolve)
    ensures Substituted(pieces, resolve) == Originals(pieces)
  {
    if pieces != [] { NothingReplaced(pieces[1..], resolve); }
  }
}
