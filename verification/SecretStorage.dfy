/** Create-only encrypted storage (src/secret_storage.rs): what is encrypted, what is read back, and
    what the check of a created item proves. Encryption is symbolic and authenticated. */
module SecretStorage {
  import opened ByteStrings
  import opened Destinations

  // ----- symbolic authenticated encryption -----

  type Key = nat
  datatype Plain = Text(text: string) | KeyBytes(key: Key)
  datatype Sealed = Sealed(key: Key, nonce: nat, plain: Plain) | Forged(bytes: string)

  /** `decrypt_authenticated_to_string`. */
  function Open(key: Key, c: Sealed): (text: Option<string>) {
    if c.Sealed? && c.key == key && c.plain.Text? then Some(c.plain.text) else None
  }

  /** `CryptoKeys::item_keys`. */
  function ItemKeys(parent: Key, wrapped: Option<Sealed>): (key: Option<Key>) {
    if wrapped.None? then Some(parent)
    else if wrapped.value.Sealed? && wrapped.value.key == parent && wrapped.value.plain.KeyBytes?
    then Some(wrapped.value.plain.key)
    else None
  }

  // ----- imports -----

  datatype NamedSecret = NamedSecret(name: string, value: string)
  datatype SecretImport = SecretImport(
    password: Option<string>, notes: Option<string>, fields: seq<NamedSecret>)

  const MAX_IMPORT_BYTES := 65536
  const MARKER_NAME := "vw-access"

  predicate ValidFieldName(name: string) {
    && 0 < |name| <= 128
    && forall i :: 0 <= i < |name| ==> Alphanumeric(name[i] as int) || name[i] in "-_."
  }

  function Length(text: Option<string>): nat {
    if text.Some? then |text.value| else 0
  }

  function FieldBytes(fields: seq<NamedSecret>): nat {
    if fields == [] then 0
    else FieldBytes(fields[..|fields| - 1]) + |fields[|fields| - 1].name| + |fields[|fields| - 1].value|
  }

  ghost predicate DistinctNames(fields: seq<NamedSecret>) {
    forall i, j :: 0 <= i < j < |fields| ==> fields[i].name != fields[j].name
  }

  predicate GoodName(name: string) { ValidFieldName(name) && name != MARKER_NAME }

  ghost predicate GoodNames(fields: seq<NamedSecret>) {
    (forall i :: 0 <= i < |fields| ==> GoodName(fields[i].name)) && DistinctNames(fields)
  }

  ghost function NamesOf(fields: seq<NamedSecret>): (names: set<string>) {
    set f | f in fields :: f.name
  }

  /** One more field. */
  lemma GoodNamesStep(before: seq<NamedSecret>, f: NamedSecret)
    ensures GoodNames(before + [f]) <==> GoodNames(before) && GoodName(f.name) && f.name !in NamesOf(before)
    ensures NamesOf(before + [f]) == NamesOf(before) + {f.name}
    ensures FieldBytes(before + [f]) == FieldBytes(before) + |f.name| + |f.value|
  {
    var all := before + [f];
    assert all[..|before|] == before;
    if GoodNames(all) {
      assert forall i :: 0 <= i < |before| ==> all[i] == before[i];
      assert all[|before|] == f;
    }
  }

  lemma GoodNamesPrefix(fields: seq<NamedSecret>, i: nat)
    requires i <= |fields|
    ensures GoodNames(fields) ==> GoodNames(fields[..i])
  {}

  ghost predicate ValidImport(input: SecretImport) {
    && (input.password.Some? || input.fields != [])
    && |input.fields| <= 32
    && GoodNames(input.fields)
    && Length(input.password) + Length(input.notes) + FieldBytes(input.fields) <= MAX_IMPORT_BYTES
  }

  /** The rules for an import, in numbers and characters. */
  lemma ImportMeaning(input: SecretImport)
    ensures ValidImport(input) <==>
      && (input.password.Some? || |input.fields| >= 1) && |input.fields| <= 32
      && (forall i :: 0 <= i < |input.fields| ==>
        var name := input.fields[i].name;
        1 <= |name| <= 128 && name != "vw-access"
        && forall k :: 0 <= k < |name| ==>
          'a' <= name[k] <= 'z' || 'A' <= name[k] <= 'Z' || '0' <= name[k] <= '9' || name[k] == '-' || name[k] == '_'
          || name[k] == '.')
      && (forall i, j :: 0 <= i < j < |input.fields| ==> input.fields[i].name != input.fields[j].name)
      && Length(input.password) + Length(input.notes) + FieldBytes(input.fields) <= 65536
  {
    forall i | 0 <= i < |input.fields|
      ensures ValidFieldName(input.fields[i].name) <==> LegalName(input.fields[i].name) {}
  }

  predicate LegalName(name: string) {
    1 <= |name| <= 128
    && forall k :: 0 <= k < |name| ==>
      'a' <= name[k] <= 'z' || 'A' <= name[k] <= 'Z' || '0' <= name[k] <= '9' || name[k] == '-' || name[k] == '_'
      || name[k] == '.'
  }

  /** The bytes of all names and values. */
  lemma {:induction false} FieldBytesMeaning(a: seq<NamedSecret>, b: seq<NamedSecret>, f: NamedSecret)
    ensures FieldBytes([f]) == |f.name| + |f.value| && FieldBytes(a + b) == FieldBytes(a) + FieldBytes(b)
  {
    assert [f][..0] == [];
    if b == [] {
      assert a + b == a;
    } else {
      FieldBytesMeaning(a, b[..|b| - 1], f);
      assert (a + b)[..|a + b| - 1] == a + b[..|b| - 1];
    }
  }

  method Validate(input: SecretImport) returns (ok: bool)
    ensures ok <==> ValidImport(input)
  {
    if input.password.None? && input.fields == [] {
      return false;
    }
    if |input.fields| > 32 {
      return false;
    }
    var names: set<string> := {};
    var total := Length(input.password) + Length(input.notes);
    for i := 0 to |input.fields|
      invariant names == NamesOf(input.fields[..i]) && GoodNames(input.fields[..i])
      invariant total == Length(input.password) + Length(input.notes) + FieldBytes(input.fields[..i])
    {
      var f := input.fields[i];
      assert input.fields[..i + 1] == input.fields[..i] + [f];
      GoodNamesStep(input.fields[..i], f);
      GoodNamesPrefix(input.fields, i + 1);
      if !ValidFieldName(f.name) || f.name == MARKER_NAME || f.name in names {
        return false;
      }
      names := names + {f.name};
      total := total + |f.name| + |f.value|;
    }
    assert input.fields[..|input.fields|] == input.fields;
    return total <= MAX_IMPORT_BYTES;
  }

  // ----- selectors -----

  predicate Follows(a: string, b: string) { Less(Octets(b), Octets(a)) }

  function Insert(x: string, texts: seq<string>): (r: seq<string>) {
    if texts == [] || !Follows(x, texts[0]) then [x] + texts else [texts[0]] + Insert(x, texts[1..])
  }

  /** `sort`: by bytes. */
  function Sorted(texts: seq<string>): (r: seq<string>) {
    if texts == [] then [] else Insert(texts[0], Sorted(texts[1..]))
  }

  ghost predicate Ordered(texts: seq<string>) {
    forall i, j :: 0 <= i < j < |texts| ==> !Follows(texts[i], texts[j])
  }

  lemma PrependOrdered(x: string, texts: seq<string>)
    requires Ordered(texts) && forall y :: y in texts ==> !Follows(x, y)
    ensures Ordered([x] + texts)
  {}

  lemma {:induction false} InsertCounts(x: string, texts: seq<string>)
    ensures multiset(Insert(x, texts)) == multiset(texts) + multiset{x}
  {
    if texts != [] && Follows(x, texts[0]) {
      InsertCounts(x, texts[1..]);
      assert texts == [texts[0]] + texts[1..];
    }
  }

  lemma InsertMembers(x: string, texts: seq<string>)
    ensures forall y :: y in Insert(x, texts) ==> y == x || y in texts
  {
    InsertCounts(x, texts);
    assert forall y :: y in Insert(x, texts) ==> y in multiset(Insert(x, texts));
  }

  lemma {:induction false} InsertOrders(x: string, texts: seq<string>)
    requires Ordered(texts)
    ensures Ordered(Insert(x, texts))
  {
    if texts != [] {
      var rest := texts[1..];
      assert forall y :: y in rest ==> !Follows(texts[0], y);
      if Follows(x, texts[0]) {
        InsertOrders(x, rest);
        InsertMembers(x, rest);
        FollowsAsymmetric(x, texts[0]);
        PrependOrdered(texts[0], Insert(x, rest));
      } else {
        forall y | y in texts ensures !Follows(x, y) {
          if y in rest { NotFollowsTransitive(x, texts[0], y); }
        }
        PrependOrdered(x, texts);
      }
    }
  }

  lemma FollowsAsymmetric(a: string, b: string)
    requires Follows(a, b)
    ensures !Follows(b, a)
  {
    if Follows(b, a) {
      LessTransitive(Octets(b), Octets(a), Octets(b));
      LessIrreflexive(Octets(b));
    }
  }

  lemma NotFollowsTransitive(a: string, b: string, c: string)
    requires !Follows(a, b) && !Follows(b, c)
    ensures !Follows(a, c)
  {
    LessTotal(Octets(a), Octets(b));
    if Follows(a, c) && Less(Octets(a), Octets(b)) { LessTransitive(Octets(c), Octets(a), Octets(b)); }
  }

  lemma {:induction false} SortedMeaning(texts: seq<string>)
    ensures Ordered(Sorted(texts)) && multiset(Sorted(texts)) == multiset(texts)
  {
    if texts != [] {
      SortedMeaning(texts[1..]);
      InsertOrders(texts[0], Sorted(texts[1..]));
      InsertCounts(texts[0], Sorted(texts[1..]));
      assert texts == [texts[0]] + texts[1..];
    }
  }

  function CustomSelectors(fields: seq<NamedSecret>): (s: seq<string>) {
    seq(|fields|, i requires 0 <= i < |fields| => CUSTOM + fields[i].name)
  }

  /** The selectors by which an import's values can be read back, as they are recorded. */
  function Selectors(input: SecretImport): (s: seq<string>) {
    var password := if input.password.Some? then ["password"] else [];
    var notes := if input.notes.Some? then ["notes"] else [];
    Sorted(password + notes + CustomSelectors(input.fields))
  }

  ghost predicate SelectsField(fields: seq<NamedSecret>, selector: string) {
    exists i :: 0 <= i < |fields| && selector == CUSTOM + fields[i].name
  }

  ghost predicate Selects(input: SecretImport, selector: string) {
    || (input.password.Some? && selector == "password")
    || (input.notes.Some? && selector == "notes")
    || SelectsField(input.fields, selector)
  }

  lemma CustomSelectorsMeaning(fields: seq<NamedSecret>, selector: string)
    ensures selector in CustomSelectors(fields) <==> SelectsField(fields, selector)
  {
    var custom := CustomSelectors(fields);
    if SelectsField(fields, selector) {
      var i :| 0 <= i < |fields| && selector == CUSTOM + fields[i].name;
      assert custom[i] == selector;
    }
  }

  lemma SortedMembers(texts: seq<string>, x: string)
    ensures x in Sorted(texts) <==> x in texts
    ensures |Sorted(texts)| == |texts|
  {
    SortedMeaning(texts);
    assert x in Sorted(texts) <==> x in multiset(Sorted(texts));
    assert |multiset(Sorted(texts))| == |Sorted(texts)|;
  }

  /** One selector for every value of the import, in the order of their bytes. */
  lemma SelectorsMeaning(input: SecretImport)
    ensures Ordered(Selectors(input))
    ensures forall selector :: selector in Selectors(input) <==> Selects(input, selector)
    ensures |Selectors(input)| ==
      (if input.password.Some? then 1 else 0) + (if input.notes.Some? then 1 else 0) + |input.fields|
  {
    var password := if input.password.Some? then ["password"] else [];
    var notes := if input.notes.Some? then ["notes"] else [];
    var all := password + notes + CustomSelectors(input.fields);
    SortedMeaning(all);
    SortedMembers(all, "");
    forall selector ensures selector in Selectors(input) <==> Selects(input, selector) {
      SortedMembers(all, selector);
      CustomSelectorsMeaning(input.fields, selector);
      assert selector in all <==> selector in password || selector in notes || selector in CustomSelectors(input.fields);
    }
  }

  // ----- vault items -----

  datatype Field = Field(name: Option<Sealed>, value: Option<Sealed>, hidden: bool)
  datatype Cipher = Cipher(
    id: string, deleted: bool, organizationId: Option<string>, folderId: Option<string>,
    login: bool, itemKey: Option<Sealed>, name: Option<Sealed>, notes: Option<Sealed>,
    password: Option<Sealed>, fields: seq<Field>)

  /** The creation request; `fields` and all texts are already encrypted. */
  datatype EncryptedCreate = EncryptedCreate(
    folderId: string, name: Sealed, key: Sealed, notes: Option<Sealed>, password: Option<Sealed>,
    fields: seq<Field>)

  // ----- creating -----

  /** A fresh item key and the nonces drawn while encrypting. */
  datatype Randomness = Randomness(itemKey: Key, nonce: nat -> nat)

  function Seal(r: Randomness, i: nat, text: string): (c: Sealed)
    ensures Open(r.itemKey, c) == Some(text)
  {
    Sealed(r.itemKey, r.nonce(i), Text(text))
  }

  function SealOptional(r: Randomness, i: nat, text: Option<string>): (c: Option<Sealed>) {
    if text.None? then None else Some(Seal(r, i, text.value))
  }

  method EncryptCreate(
      parent: Key, destination: Destination, input: SecretImport, marker: Option<string>, r: Randomness)
    returns (request: Option<EncryptedCreate>)
    ensures request.Some? <==> ValidImport(input) && ItemName(destination).Some?
    ensures request.Some? ==> Encrypts(parent, destination, input, marker, request.value)
  {
    var valid := Validate(input);
    if !valid {
      return None;
    }
    var fields: seq<Field> := [];
    for i := 0 to |input.fields|
      invariant |fields| == i
      invariant forall j :: 0 <= j < i ==> SealsField(r.itemKey, fields[j], input.fields[j], true)
    {
      fields := fields + [Field(Some(Seal(r, 2 * i, input.fields[i].name)),
                                Some(Seal(r, 2 * i + 1, input.fields[i].value)), true)];
    }
    if marker.Some? {
      fields := fields + [Field(Some(Seal(r, 64, MARKER_NAME)), Some(Seal(r, 65, marker.value)), false)];
    }
    var name := ItemName(destination);
    if name.None? {
      return None;
    }
    return Some(EncryptedCreate(
      destination.folderId, Seal(r, 66, name.value), Sealed(parent, r.nonce(67), KeyBytes(r.itemKey)),
      SealOptional(r, 68, input.notes), SealOptional(r, 69, input.password), fields));
  }

  ghost predicate SealsField(key: Key, f: Field, secret: NamedSecret, hidden: bool) {
    && f.name.Some? && Open(key, f.name.value) == Some(secret.name)
    && f.value.Some? && Open(key, f.value.value) == Some(secret.value)
    && f.hidden == hidden
  }

  ghost predicate SealsOptional(key: Key, c: Option<Sealed>, text: Option<string>) {
    if text.None? then c.None? else c.Some? && Open(key, c.value) == text
  }

  /** The secrets an item carries: the import's own, then the marker. */
  ghost function Carried(input: SecretImport, marker: Option<string>): (all: seq<NamedSecret>) {
    input.fields + if marker.Some? then [NamedSecret(MARKER_NAME, marker.value)] else []
  }

  /** The request carries exactly the import, the marker and the item name, under a wrapped item key. */
  ghost predicate Encrypts(
      parent: Key, d: Destination, input: SecretImport, marker: Option<string>, e: EncryptedCreate)
  {
    var key := ItemKeys(parent, Some(e.key));
    && key.Some? && ItemName(d).Some?
    && e.folderId == d.folderId
    && Open(key.value, e.name) == ItemName(d)
    && SealsOptional(key.value, e.notes, input.notes)
    && SealsOptional(key.value, e.password, input.password)
    && SealsAll(key.value, e.fields, Carried(input, marker), |input.fields|)
  }

  /** Field by field the secrets `all`, the first `hidden` of them marked hidden. */
  ghost predicate SealsAll(key: Key, fields: seq<Field>, all: seq<NamedSecret>, hidden: nat) {
    && |fields| == |all|
    && forall i :: 0 <= i < |all| ==> SealsField(key, fields[i], all[i], i < hidden)
  }

  /** What an honest server returns for the request. */
  function Echo(e: EncryptedCreate, id: string): (c: Cipher) {
    Cipher(id, false, None, Some(e.folderId), true, Some(e.key), Some(e.name), e.notes, e.password, e.fields)
  }

  // ----- reading -----

  /** The name of a field, if it can be decrypted. */
  function NameOf(key: Key, f: Field): (name: Option<string>) {
    if f.name.None? then None else Open(key, f.name.value)
  }

  ghost predicate ReadableNames(key: Key, fields: seq<Field>) {
    && (forall i :: 0 <= i < |fields| ==> NameOf(key, fields[i]).Some?)
    && (forall i, j :: 0 <= i < j < |fields| ==> NameOf(key, fields[i]) != NameOf(key, fields[j]))
  }

  ghost function NamesRead(key: Key, fields: seq<Field>): (names: set<string>) {
    set f | f in fields && NameOf(key, f).Some? :: NameOf(key, f).value
  }

  /** One more field. */
  lemma ReadableStep(key: Key, before: seq<Field>, f: Field)
    ensures ReadableNames(key, before + [f]) <==>
      ReadableNames(key, before) && NameOf(key, f).Some? && NameOf(key, f).value !in NamesRead(key, before)
    ensures NameOf(key, f).Some? ==> NamesRead(key, before + [f]) == NamesRead(key, before) + {NameOf(key, f).value}
    ensures forall name :: (
      CustomValue(key, before + [f], name) == if NameOf(key, f) == Some(name) then f.value else CustomValue(key, before, name))
  {
    var all := before + [f];
    assert all[..|before|] == before;
    if ReadableNames(key, all) {
      assert forall i :: 0 <= i < |before| ==> all[i] == before[i];
      assert all[|before|] == f;
    }
  }

  lemma ReadablePrefix(key: Key, fields: seq<Field>, i: nat)
    requires i <= |fields|
    ensures ReadableNames(key, fields) ==> ReadableNames(key, fields[..i])
  {}

  /** The encrypted value under a custom name: that of the last field so named. */
  function CustomValue(key: Key, fields: seq<Field>, name: string): (value: Option<Sealed>) {
    if fields == [] then None
    else if NameOf(key, fields[|fields| - 1]) == Some(name) then fields[|fields| - 1].value
    else CustomValue(key, fields[..|fields| - 1], name)
  }

  const CUSTOM := "custom:"

  ghost function Select(c: Cipher, key: Key, selector: string): (value: Option<string>) {
    if c.deleted || !ReadableNames(key, c.fields) then None
    else
      var sealed :=
        if selector == "password" then c.password
        else if selector == "notes" then c.notes
        else if CUSTOM <= selector then CustomValue(key, c.fields, selector[|CUSTOM|..])
        else None;
      if sealed.None? then None else Open(key, sealed.value)
  }

  /** What a selector reads: the password, the notes, or the field of the name behind `custom:`; nothing from a
      deleted item or one whose field names cannot be told apart. */
  lemma SelectMeaning(c: Cipher, key: Key, selector: string)
    ensures c.deleted || !ReadableNames(key, c.fields) ==> Select(c, key, selector) == None
    ensures !c.deleted && ReadableNames(key, c.fields) ==>
      && Select(c, key, "password") == OpenOptional(key, c.password)
      && Select(c, key, "notes") == OpenOptional(key, c.notes)
      && (forall j :: 0 <= j < |c.fields| && NameOf(key, c.fields[j]).Some? && selector == "custom:" + NameOf(key, c.fields[j]).value ==>
        Select(c, key, selector) == OpenOptional(key, c.fields[j].value))
    ensures selector != "password" && selector != "notes"
      && (forall j :: 0 <= j < |c.fields| && NameOf(key, c.fields[j]).Some? ==>
        selector != "custom:" + NameOf(key, c.fields[j]).value)
      ==> Select(c, key, selector) == None
  {
    var name := if CUSTOM <= selector then selector[|CUSTOM|..] else "";
    if CUSTOM <= selector {
      assert selector == CUSTOM + name;
      if CustomValue(key, c.fields, name).Some? { var j := CustomValueFound(key, c.fields, name); }
    }
    if !c.deleted && ReadableNames(key, c.fields) {
      forall j | 0 <= j < |c.fields| && selector == "custom:" + NameOf(key, c.fields[j]).value
        ensures Select(c, key, selector) == OpenOptional(key, c.fields[j].value)
      {
        assert selector[0] == 'c' && selector[|CUSTOM|..] == NameOf(key, c.fields[j]).value;
        CustomValueFinds(key, c.fields, name, j);
      }
    }
  }

  function OpenOptional(key: Key, sealed: Option<Sealed>): (text: Option<string>) {
    if sealed.None? then None else Open(key, sealed.value)
  }

  method SelectedValue(c: Cipher, key: Key, selector: string) returns (value: Option<string>)
    ensures value == Select(c, key, selector)
  {
    if c.deleted {
      return None;
    }
    var names: set<string> := {};
    var custom: Option<Sealed> := None;
    for i := 0 to |c.fields|
      invariant names == NamesRead(key, c.fields[..i]) && ReadableNames(key, c.fields[..i])
      invariant CUSTOM <= selector ==> custom == CustomValue(key, c.fields[..i], selector[|CUSTOM|..])
    {
      var name := NameOf(key, c.fields[i]);
      assert c.fields[..i + 1] == c.fields[..i] + [c.fields[i]];
      ReadableStep(key, c.fields[..i], c.fields[i]);
      ReadablePrefix(key, c.fields, i + 1);
      if name.None? || name.value in names {
        return None;
      }
      names := names + {name.value};
      if CUSTOM <= selector && selector[|CUSTOM|..] == name.value {
        custom := c.fields[i].value;
      }
    }
    assert c.fields[..|c.fields|] == c.fields;
    var sealed :=
      if selector == "password" then c.password
      else if selector == "notes" then c.notes
      else if CUSTOM <= selector then custom
      else None;
    if sealed.None? {
      return None;
    }
    return Open(key, sealed.value);
  }

  // ----- checking the vault before and after -----

  datatype Folder = Folder(id: string, name: Sealed)
  datatype Sync = Sync(accountId: string, folders: seq<Folder>, ciphers: seq<Cipher>)

  ghost predicate FolderNamed(key: Key, f: Folder, title: string) {
    Open(key, f.name) == Some(title)
  }

  /** Every folder name opens, and the destination's folder is the only one with its label. */
  ghost predicate FolderBound(d: Destination, sync: Sync, key: Key) {
    && (forall i :: 0 <= i < |sync.folders| ==> Open(key, sync.folders[i].name).Some?)
    && exists i :: 0 <= i < |sync.folders|
        && FolderNamed(key, sync.folders[i], d.folder) && sync.folders[i].id == d.folderId
        && forall j :: 0 <= j < |sync.folders| && j != i ==> !FolderNamed(key, sync.folders[j], d.folder)
  }

  /** A personal item of the destination's folder whose label is readable and is not `name`. */
  ghost predicate NotInTheWay(d: Destination, c: Cipher, parent: Key, name: string) {
    c.organizationId.None? && c.folderId == Some(d.folderId) ==>
      var key := ItemKeys(parent, c.itemKey);
      && key.Some? && c.name.Some?
      && Open(key.value, c.name.value).Some? && Open(key.value, c.name.value).value != name
  }

  ghost predicate Synced(d: Destination, sync: Sync, parent: Key, creating: bool) {
    && ItemName(d).Some? && sync.accountId == d.accountId && FolderBound(d, sync, parent)
    && (creating ==> forall i :: 0 <= i < |sync.ciphers| ==>
          NotInTheWay(d, sync.ciphers[i], parent, ItemName(d).value))
  }

  method CheckSync(d: Destination, sync: Sync, parent: Key, creating: bool) returns (ok: bool)
    ensures ok <==> Synced(d, sync, parent, creating)
  {
    var name := ItemName(d);
    if name.None? || sync.accountId != d.accountId {
      return false;
    }
    var matches: seq<nat> := [];
    for i := 0 to |sync.folders|
      invariant forall j :: 0 <= j < i ==> Open(parent, sync.folders[j].name).Some?
      invariant forall j :: j in matches <==> 0 <= j < i && FolderNamed(parent, sync.folders[j], d.folder)
      invariant forall j, k :: 0 <= j < k < |matches| ==> matches[j] != matches[k]
    {
      var title := Open(parent, sync.folders[i].name);
      if title.None? {
        return false;
      }
      if title.value == d.folder {
        matches := matches + [i];
      }
    }
    if FolderBound(d, sync, parent) {
      ghost var i :| 0 <= i < |sync.folders|
        && FolderNamed(parent, sync.folders[i], d.folder) && sync.folders[i].id == d.folderId
        && forall j :: 0 <= j < |sync.folders| && j != i ==> !FolderNamed(parent, sync.folders[j], d.folder);
      OnlyMember(matches, i);
    }
    if |matches| != 1 {
      return false;
    }
    assert matches[0] in matches;
    if sync.folders[matches[0]].id != d.folderId {
      return false;
    }
    if creating {
      for i := 0 to |sync.ciphers|
        invariant forall j :: 0 <= j < i ==> NotInTheWay(d, sync.ciphers[j], parent, name.value)
      {
        var c := sync.ciphers[i];
        if c.organizationId.None? && c.folderId == Some(d.folderId) {
          var key := ItemKeys(parent, c.itemKey);
          if key.None? || c.name.None? {
            assert !NotInTheWay(d, c, parent, name.value);
            return false;
          }
          var title := Open(key.value, c.name.value);
          if title.None? || title.value == name.value {
            assert !NotInTheWay(d, c, parent, name.value);
            return false;
          }
        }
      }
    }
    return true;
  }

  lemma OnlyMember(s: seq<nat>, x: nat)
    requires x in s && (forall y :: y in s ==> y == x)
    requires forall j, k :: 0 <= j < k < |s| ==> s[j] != s[k]
    ensures s == [x]
  {
    var first, last := s[0], s[|s| - 1];
    assert first in s && last in s;
  }

  /** `check_item`: the item's own key, if the item is the personal, undeleted one at the destination. */
  function CheckItem(d: Destination, c: Cipher, id: string, parent: Key): (key: Option<Key>) {
    if c.id != id || c.deleted || c.organizationId.Some? || c.folderId != Some(d.folderId) then None
    else
      var key := ItemKeys(parent, c.itemKey);
      if key.None? || c.name.None? || ItemName(d).None? || Open(key.value, c.name.value) != ItemName(d)
      then None
      else key
  }

  // ----- verifying a created item -----

  /** The checks of `verify_created`, in terms of what selectors read back. */
  ghost predicate Accepts(
      parent: Key, d: Destination, id: string, c: Cipher, input: SecretImport, marker: Option<string>)
  {
    var key := CheckItem(d, c, id, parent);
    && c.login && c.itemKey.Some? && key.Some?
    && (c.password.Some? <==> input.password.Some?)
    && (c.notes.Some? <==> input.notes.Some?)
    && |c.fields| == |Carried(input, marker)|
    && (forall i :: 0 <= i < |c.fields| ==> AcceptableField(key.value, c.fields[i], marker))
    && (input.password.Some? ==> Select(c, key.value, "password") == input.password)
    && (input.notes.Some? ==> Select(c, key.value, "notes") == input.notes)
    && forall i :: 0 <= i < |Carried(input, marker)| ==> ReadsBack(c, key.value, Carried(input, marker)[i])
  }

  ghost predicate AcceptableField(key: Key, f: Field, marker: Option<string>) {
    NameOf(key, f).Some? && ((NameOf(key, f) == Some(MARKER_NAME) && marker.Some?) || f.hidden)
  }

  ghost predicate ReadsBack(c: Cipher, key: Key, secret: NamedSecret) {
    Select(c, key, CUSTOM + secret.name) == Some(secret.value)
  }

  method VerifyCreated(
      parent: Key, d: Destination, id: string, c: Cipher, input: SecretImport, marker: Option<string>)
    returns (ok: bool)
    ensures ok <==> Accepts(parent, d, id, c, input, marker)
  {
    if !c.login || c.itemKey.None? {
      return false;
    }
    var key := CheckItem(d, c, id, parent);
    if key.None? {
      return false;
    }
    var expected := |input.fields| + if marker.Some? then 1 else 0;
    if c.password.Some? != input.password.Some? || c.notes.Some? != input.notes.Some?
       || |c.fields| != expected {
      return false;
    }
    for i := 0 to |c.fields|
      invariant forall j :: 0 <= j < i ==> AcceptableField(key.value, c.fields[j], marker)
    {
      var name := NameOf(key.value, c.fields[i]);
      if name.None? || !((name.value == MARKER_NAME && marker.Some?) || c.fields[i].hidden) {
        assert !AcceptableField(key.value, c.fields[i], marker);
        return false;
      }
    }
    if input.password.Some? {
      var value := SelectedValue(c, key.value, "password");
      if value != input.password {
        return false;
      }
    }
    if input.notes.Some? {
      var value := SelectedValue(c, key.value, "notes");
      if value != input.notes {
        return false;
      }
    }
    ghost var all := Carried(input, marker);
    for i := 0 to |input.fields|
      invariant forall j :: 0 <= j < i ==> ReadsBack(c, key.value, all[j])
    {
      assert all[i] == input.fields[i];
      var value := SelectedValue(c, key.value, CUSTOM + input.fields[i].name);
      if value != Some(input.fields[i].value) {
        assert !ReadsBack(c, key.value, all[i]);
        return false;
      }
    }
    if marker.Some? {
      assert all[|input.fields|] == NamedSecret(MARKER_NAME, marker.value);
      var value := SelectedValue(c, key.value, CUSTOM + MARKER_NAME);
      if value != marker {
        assert !ReadsBack(c, key.value, all[|input.fields|]);
        return false;
      }
    }
    return true;
  }

  // ----- what acceptance means -----

  /** The item carries exactly the secrets `all`, each under a name of its own, in some order. */
  ghost predicate Holds(key: Key, fields: seq<Field>, all: seq<NamedSecret>) {
    && ReadableNames(key, fields) && |fields| == |all|
    && (forall i :: 0 <= i < |all| ==> Held(key, fields, all[i]))
    && (forall j :: 0 <= j < |fields| ==> Known(key, fields[j], all))
  }

  ghost predicate Held(key: Key, fields: seq<Field>, secret: NamedSecret) {
    exists j :: 0 <= j < |fields| && Carries(key, fields[j], secret)
  }

  ghost predicate Known(key: Key, f: Field, all: seq<NamedSecret>) {
    exists i :: 0 <= i < |all| && Carries(key, f, all[i])
  }

  ghost predicate Carries(key: Key, f: Field, secret: NamedSecret) {
    && NameOf(key, f) == Some(secret.name)
    && f.value.Some? && Open(key, f.value.value) == Some(secret.value)
  }

  /** The item is the one at the destination and holds the import and the marker, no more and no
      less, everything but the marker hidden. */
  ghost predicate Faithful(
      parent: Key, d: Destination, id: string, c: Cipher, input: SecretImport, marker: Option<string>)
  {
    exists key :: Placed(d, c, id, parent, key) && HoldsImport(c, key, input, marker)
  }

  /** The personal, undeleted item with that id in the destination's folder, under the name below the folder
      that the reference spells; `key` is its key. */
  ghost predicate Placed(d: Destination, c: Cipher, id: string, parent: Key, key: Key) {
    && c.id == id && !c.deleted && c.organizationId.None? && c.folderId == Some(d.folderId)
    && ItemKeys(parent, c.itemKey) == Some(key)
    && c.name.Some? && Open(key, c.name.value).Some? && Destinations.WellFormed(d)
    && d.reference == d.folder + "/" + Open(key, c.name.value).value
  }

  ghost predicate HoldsImport(c: Cipher, key: Key, input: SecretImport, marker: Option<string>) {
    && c.login && c.itemKey.Some?
    && SealsOptional(key, c.password, input.password)
    && SealsOptional(key, c.notes, input.notes)
    && Holds(key, c.fields, Carried(input, marker))
    && forall i :: 0 <= i < |c.fields| ==> NameOf(key, c.fields[i]) != Some(MARKER_NAME) ==> c.fields[i].hidden
  }

  /** `check_item` finds exactly the key of an item at the destination. */
  lemma CheckItemMeaning(d: Destination, c: Cipher, id: string, parent: Key, key: Key)
    ensures CheckItem(d, c, id, parent) == Some(key) <==> Placed(d, c, id, parent, key)
  {
    if Destinations.WellFormed(d) {
      ItemNameMeaning(d);
      if Placed(d, c, id, parent, key) {
        var name := Open(key, c.name.value).value;
        assert d.folder + "/" <= d.reference;
        NonEmptyName(d, name);
        Cancel(d.folder + "/", ItemName(d).value, name);
      }
    }
  }

  lemma NonEmptyName(d: Destination, name: string)
    requires Destinations.WellFormed(d) && d.reference == d.folder + "/" + name
    ensures ItemName(d).Some?
  {
    assert d.folder + "/" <= d.reference;
    ItemNameMeaning(d);
  }

  lemma {:induction false} CustomValueFinds(key: Key, fields: seq<Field>, name: string, j: nat)
    requires ReadableNames(key, fields) && j < |fields| && NameOf(key, fields[j]) == Some(name)
    ensures CustomValue(key, fields, name) == fields[j].value
  {
    if j < |fields| - 1 {
      assert NameOf(key, fields[j]) != NameOf(key, fields[|fields| - 1]);
      CustomValueFinds(key, fields[..|fields| - 1], name, j);
    }
  }

  lemma {:induction false} CustomValueFound(key: Key, fields: seq<Field>, name: string) returns (j: nat)
    requires CustomValue(key, fields, name).Some?
    ensures j < |fields| && NameOf(key, fields[j]) == Some(name) && fields[j].value == CustomValue(key, fields, name)
  {
    if NameOf(key, fields[|fields| - 1]) == Some(name) {
      j := |fields| - 1;
    } else {
      j := CustomValueFound(key, fields[..|fields| - 1], name);
    }
  }

  /** A selector `custom:<name>` reads `value` exactly when some field carries that pair. */
  lemma ReadsBackMeaning(c: Cipher, key: Key, secret: NamedSecret)
    requires !c.deleted && ReadableNames(key, c.fields)
    ensures ReadsBack(c, key, secret) <==> Held(key, c.fields, secret)
  {
    var selector := CUSTOM + secret.name;
    assert selector[0] == 'c' && CUSTOM <= selector && selector[|CUSTOM|..] == secret.name;
    if ReadsBack(c, key, secret) {
      var j := CustomValueFound(key, c.fields, secret.name);
      assert Carries(key, c.fields[j], secret);
    }
    forall j | 0 <= j < |c.fields| && Carries(key, c.fields[j], secret) ensures ReadsBack(c, key, secret) {
      CustomValueFinds(key, c.fields, secret.name, j);
    }
  }

  /** Counting: when the distinct names of `all` occur among equally many distinct field names, no
      field name is left over. */
  lemma {:induction false} NoNameLeftOver(names: seq<string>, all: seq<NamedSecret>, x: string)
    requires |names| == |all| && DistinctNames(all) && x in names
    requires forall i, j :: 0 <= i < j < |names| ==> names[i] != names[j]
    requires forall i :: 0 <= i < |all| ==> all[i].name in names
    ensures exists i :: 0 <= i < |all| && all[i].name == x
  {
    var last := all[|all| - 1].name;
    if last != x {
      var k :| 0 <= k < |names| && names[k] == last;
      var fewer := names[..k] + names[k + 1..];
      forall i | 0 <= i < |all| - 1 ensures all[i].name in fewer {
        var m :| 0 <= m < |names| && names[m] == all[i].name;
        assert if m < k then fewer[m] == names[m] else fewer[m - 1] == names[m];
      }
      var m :| 0 <= m < |names| && names[m] == x;
      assert if m < k then fewer[m] == names[m] else fewer[m - 1] == names[m];
      NoNameLeftOver(fewer, all[..|all| - 1], x);
    }
  }

  lemma CarriedDistinct(input: SecretImport, marker: Option<string>)
    requires ValidImport(input)
    ensures DistinctNames(Carried(input, marker))
  {}

  /** Reading back every secret, with no field to spare, is holding exactly the secrets. */
  lemma HoldsMeaning(c: Cipher, key: Key, all: seq<NamedSecret>)
    requires !c.deleted && ReadableNames(key, c.fields) && |c.fields| == |all| && DistinctNames(all)
    ensures Holds(key, c.fields, all) <==> forall i :: 0 <= i < |all| ==> ReadsBack(c, key, all[i])
  {
    forall i | 0 <= i < |all| ensures ReadsBack(c, key, all[i]) <==> Held(key, c.fields, all[i]) {
      ReadsBackMeaning(c, key, all[i]);
    }
    if forall i :: 0 <= i < |all| ==> ReadsBack(c, key, all[i]) {
      forall j | 0 <= j < |c.fields| ensures Known(key, c.fields[j], all) {
        var i := SecretOf(c, key, all, j);
      }
    }
  }

  lemma SecretOf(c: Cipher, key: Key, all: seq<NamedSecret>, j: nat) returns (i: nat)
    requires ReadableNames(key, c.fields) && |c.fields| == |all| && DistinctNames(all) && j < |c.fields|
    requires forall i :: 0 <= i < |all| ==> Held(key, c.fields, all[i])
    ensures i < |all| && Carries(key, c.fields[j], all[i])
  {
    var names := seq(|c.fields|, m requires 0 <= m < |c.fields| => NameOf(key, c.fields[m]).value);
    forall k | 0 <= k < |all| ensures all[k].name in names {
      assert Held(key, c.fields, all[k]);
      var m :| 0 <= m < |c.fields| && Carries(key, c.fields[m], all[k]);
      assert names[m] == all[k].name;
    }
    NoNameLeftOver(names, all, names[j]);
    i :| 0 <= i < |all| && all[i].name == names[j];
    assert Held(key, c.fields, all[i]);
    var m :| 0 <= m < |c.fields| && Carries(key, c.fields[m], all[i]);
    assert NameOf(key, c.fields[m]) == NameOf(key, c.fields[j]);
  }

  lemma AcceptedIsFaithful(
      parent: Key, d: Destination, id: string, c: Cipher, input: SecretImport, marker: Option<string>)
    requires ValidImport(input) && Accepts(parent, d, id, c, input, marker)
    ensures Faithful(parent, d, id, c, input, marker)
  {
    var key, all := CheckItem(d, c, id, parent).value, Carried(input, marker);
    CheckItemMeaning(d, c, id, parent, key);
    CarriedDistinct(input, marker);
    if input.password.None? { assert ReadsBack(c, key, all[0]); }
    HoldsMeaning(c, key, all);
    forall i | 0 <= i < |c.fields| && NameOf(key, c.fields[i]) != Some(MARKER_NAME) ensures c.fields[i].hidden {
      assert AcceptableField(key, c.fields[i], marker);
    }
    assert Placed(d, c, id, parent, key) && HoldsImport(c, key, input, marker);
  }

  lemma FaithfulIsAccepted(
      parent: Key, d: Destination, id: string, c: Cipher, input: SecretImport, marker: Option<string>)
    requires ValidImport(input) && Faithful(parent, d, id, c, input, marker)
    ensures Accepts(parent, d, id, c, input, marker)
  {
    var key :| Placed(d, c, id, parent, key) && HoldsImport(c, key, input, marker);
    var all := Carried(input, marker);
    CheckItemMeaning(d, c, id, parent, key);
    CarriedDistinct(input, marker);
    HoldsMeaning(c, key, all);
    forall j | 0 <= j < |c.fields| ensures AcceptableField(key, c.fields[j], marker) {
      assert Known(key, c.fields[j], all);
      var i :| 0 <= i < |all| && Carries(key, c.fields[j], all[i]);
    }
  }

  /** Acceptance is exactly faithfulness: every selector reads its value, and no field is left over. */
  lemma AcceptanceMeaning(
      parent: Key, d: Destination, id: string, c: Cipher, input: SecretImport, marker: Option<string>)
    requires ValidImport(input)
    ensures Accepts(parent, d, id, c, input, marker) <==> Faithful(parent, d, id, c, input, marker)
  {
    if Accepts(parent, d, id, c, input, marker) { AcceptedIsFaithful(parent, d, id, c, input, marker); }
    if Faithful(parent, d, id, c, input, marker) { FaithfulIsAccepted(parent, d, id, c, input, marker); }
  }

  lemma SealedFieldsHeld(key: Key, fields: seq<Field>, all: seq<NamedSecret>, hidden: nat)
    requires DistinctNames(all) && SealsAll(key, fields, all, hidden)
    requires forall i :: hidden <= i < |all| ==> all[i].name == MARKER_NAME
    ensures Holds(key, fields, all)
    ensures forall i :: 0 <= i < |fields| ==> NameOf(key, fields[i]) != Some(MARKER_NAME) ==> fields[i].hidden
  {
    assert forall i :: 0 <= i < |all| ==> SealsField(key, fields[i], all[i], i < hidden);
    forall i | 0 <= i < |all| ensures Held(key, fields, all[i]) {
      assert Carries(key, fields[i], all[i]);
    }
    forall i | 0 <= i < |fields| ensures Known(key, fields[i], all) {
      assert Carries(key, fields[i], all[i]);
    }
  }

  /** The echo of a request is accepted: creation and verification fit together. */
  lemma HonestEchoAccepted(
      parent: Key, d: Destination, id: string, input: SecretImport, marker: Option<string>, e: EncryptedCreate)
    requires ValidImport(input) && Encrypts(parent, d, input, marker, e)
    ensures Accepts(parent, d, id, Echo(e, id), input, marker)
  {
    var key := ItemKeys(parent, Some(e.key)).value;
    CarriedDistinct(input, marker);
    SealedFieldsHeld(key, e.fields, Carried(input, marker), |input.fields|);
    assert CheckItem(d, Echo(e, id), id, parent) == Some(key);
    CheckItemMeaning(d, Echo(e, id), id, parent, key);
    assert HoldsImport(Echo(e, id), key, input, marker);
    FaithfulIsAccepted(parent, d, id, Echo(e, id), input, marker);
  }
}
