/** Decryption profiles (`CipherDecryptionProfile`, `decrypt_cipher_with_profile` and
    `resolve_component` of src/commands.rs): a narrower profile never fails where a wider one succeeds
    and shows the same item. */
module Profiles {
  import opened ByteStrings
  import opened CipherOutputs
  import EnvNames

  /** An encrypted item, its values as the getters of src/models.rs find them. */
  datatype FieldData = FieldData(name: Option<Bytes>, value: Option<Bytes>, hidden: bool)
  datatype Cipher = Cipher(
    id: Bytes, kind: Bytes, deleted: bool, name: Option<Bytes>,
    username: Option<Bytes>, password: Option<Bytes>, uri: Option<Bytes>, notes: Option<Bytes>,
    fields: Option<seq<FieldData>>,
    sshPublicKey: Option<Bytes>, sshPrivateKey: Option<Bytes>, sshFingerprint: Option<Bytes>)

  /** Decryption with an item's keys: any partial function. */
  type Keys = Bytes -> Option<Bytes>

  datatype Profile = Profile(
    username: bool, password: bool, uri: bool, notes: bool, fieldNames: bool, fieldValues: bool,
    sshPublicKey: bool, sshPrivateKey: bool, sshFingerprint: bool, decryptPresent: bool)

  const FULL := Profile(true, true, true, true, true, true, true, true, true, true)
  const RUN_ENV := Profile(true, true, true, false, true, true, true, true, true, true)
  const LIST_ENV_NAMES := Profile(true, true, true, false, true, false, true, true, true, false)

  const USERNAME_NAME: Bytes := Octets("username")
  const PASSWORD_NAME: Bytes := Octets("password")
  const URI_NAME: Bytes := Octets("uri")
  const NOTES_NAME: Bytes := Octets("notes")
  const NOTE_NAME: Bytes := Octets("note")
  const SSH_PUBLIC_KEY_NAME: Bytes := Octets("ssh_public_key")
  const PUBLIC_KEY_NAME: Bytes := Octets("public_key")
  const PUBLICKEY_NAME: Bytes := Octets("publickey")
  const SSH_PRIVATE_KEY_NAME: Bytes := Octets("ssh_private_key")
  const PRIVATE_KEY_NAME: Bytes := Octets("private_key")
  const PRIVATEKEY_NAME: Bytes := Octets("privatekey")
  const SSH_FINGERPRINT_NAME: Bytes := Octets("ssh_fingerprint")
  const FINGERPRINT_NAME: Bytes := Octets("fingerprint")

  function InterpolationProfile(component: Bytes): (p: Profile) {
    Profile(
      component == USERNAME_NAME,
      component == PASSWORD_NAME,
      component == URI_NAME,
      component == NOTES_NAME || component == NOTE_NAME,
      true, true,
      component == SSH_PUBLIC_KEY_NAME || component == PUBLIC_KEY_NAME || component == PUBLICKEY_NAME,
      component == SSH_PRIVATE_KEY_NAME || component == PRIVATE_KEY_NAME || component == PRIVATEKEY_NAME,
      component == SSH_FINGERPRINT_NAME || component == FINGERPRINT_NAME,
      true)
  }

  // ----- decryption -----

  /** Decrypting an optional value: the outer option is failure, the inner one absence. */
  function DecryptOptional(keys: Keys, encrypted: Option<Bytes>, wanted: bool, decrypt: bool)
    : (r: Option<Option<Bytes>>)
  {
    if !wanted || encrypted.None? then Some(None)
    else if !decrypt then Some(Some([]))
    else if keys(encrypted.value).None? then None else Some(keys(encrypted.value))
  }

  /** A field's name and value; an absent value is empty. */
  function DecryptField(keys: Keys, f: FieldData, values: bool): (r: Option<Field>)
    requires f.name.Some?
  {
    var name := keys(f.name.value);
    if name.None? then None
    else if f.value.None? || !values then Some(Field(name.value, [], f.hidden))
    else
      var value := keys(f.value.value);
      if value.None? then None else Some(Field(name.value, value.value, f.hidden))
  }

  /** All named fields in order; fields without a name are left out. */
  function DecryptFields(keys: Keys, fields: seq<FieldData>, values: bool): (r: Option<seq<Field>>) {
    if fields == [] then Some([])
    else
      var before, last := DecryptFields(keys, fields[..|fields| - 1], values), fields[|fields| - 1];
      if last.name.None? || before.None? then before
      else
        var field := DecryptField(keys, last, values);
        if field.None? then None else Some(before.value + [field.value])
  }

  function FieldNames(fields: seq<Field>): (names: seq<Bytes>)
    ensures |names| == |fields| && forall i :: 0 <= i < |fields| ==> names[i] == fields[i].name
  {
    seq(|fields|, i requires 0 <= i < |fields| => fields[i].name)
  }

  function DecryptCipherFields(c: Cipher, keys: Keys, p: Profile): (r: Option<Option<seq<Field>>>) {
    if !p.fieldNames || c.fields.None? then Some(None)
    else
      var fields := DecryptFields(keys, c.fields.value, p.fieldValues);
      if fields.None? || !Distinct(FieldNames(fields.value)) then None else Some(fields)
  }

  /** The login values and notes. */
  datatype Login = Login(username: Option<Bytes>, password: Option<Bytes>, uri: Option<Bytes>, notes: Option<Bytes>)
  datatype SshKey = SshKey(publicKey: Option<Bytes>, privateKey: Option<Bytes>, fingerprint: Option<Bytes>)

  function DecryptLogin(c: Cipher, keys: Keys, p: Profile): (r: Option<Login>) {
    var username := DecryptOptional(keys, c.username, p.username, p.decryptPresent);
    var password := DecryptOptional(keys, c.password, p.password, p.decryptPresent);
    var uri := DecryptOptional(keys, c.uri, p.uri, p.decryptPresent);
    var notes := DecryptOptional(keys, c.notes, p.notes, p.decryptPresent);
    if username.None? || password.None? || uri.None? || notes.None? then None
    else Some(Login(username.value, password.value, uri.value, notes.value))
  }

  function DecryptSshKey(c: Cipher, keys: Keys, p: Profile): (r: Option<SshKey>) {
    var publicKey := DecryptOptional(keys, c.sshPublicKey, p.sshPublicKey, p.decryptPresent);
    var privateKey := DecryptOptional(keys, c.sshPrivateKey, p.sshPrivateKey, p.decryptPresent);
    var fingerprint := DecryptOptional(keys, c.sshFingerprint, p.sshFingerprint, p.decryptPresent);
    if publicKey.None? || privateKey.None? || fingerprint.None? then None
    else Some(SshKey(publicKey.value, privateKey.value, fingerprint.value))
  }

  function Output(c: Cipher, name: Bytes, login: Login, fields: Option<seq<Field>>, ssh: SshKey): (o: CipherOutput) {
    CipherOutput(c.id, c.kind, name, login.username, login.password, login.uri, login.notes, fields,
      ssh.publicKey, ssh.privateKey, ssh.fingerprint)
  }

  /** An item under a profile. It fails on a deleted or unnamed item, on duplicate field names, and on any
      wanted value that does not decrypt. */
  function DecryptCipher(c: Cipher, keys: Keys, p: Profile): (r: Option<CipherOutput>) {
    if c.deleted || c.name.None? then None
    else
      var name := keys(c.name.value);
      var login := DecryptLogin(c, keys, p);
      var fields := DecryptCipherFields(c, keys, p);
      var ssh := DecryptSshKey(c, keys, p);
      if name.None? || login.None? || fields.None? || ssh.None? then None
      else Some(Output(c, name.value, login.value, fields.value, ssh.value))
  }

  // ----- what is shown -----

  /** Where the value is wanted and present, and to be decrypted, it must open. */
  ghost predicate Opens(keys: Keys, encrypted: Option<Bytes>, wanted: bool, decrypt: bool) {
    wanted && decrypt && encrypted.Some? ==> keys(encrypted.value).Some?
  }

  /** A value that is wanted and present is shown decrypted, or empty; any other is absent. */
  ghost predicate Shows(keys: Keys, encrypted: Option<Bytes>, wanted: bool, decrypt: bool, shown: Option<Bytes>) {
    if !wanted || encrypted.None? then shown.None?
    else if decrypt then shown.Some? && keys(encrypted.value) == shown
    else shown == Some([])
  }

  /** The fields that have a name, in order. */
  function Named(fields: seq<FieldData>): (named: seq<FieldData>)
    ensures forall i :: 0 <= i < |named| ==> named[i].name.Some?
  {
    if fields == [] then []
    else if fields[0].name.Some? then [fields[0]] + Named(fields[1..]) else Named(fields[1..])
  }

  ghost predicate ShowsField(keys: Keys, f: FieldData, values: bool, shown: Field) {
    && f.name.Some? && keys(f.name.value) == Some(shown.name) && shown.hidden == f.hidden
    && if values && f.value.Some? then keys(f.value.value) == Some(shown.value) else shown.value == []
  }

  ghost predicate ShowsFields(keys: Keys, fields: seq<FieldData>, values: bool, shown: seq<Field>) {
    && |shown| == |Named(fields)|
    && forall i :: 0 <= i < |shown| ==> ShowsField(keys, Named(fields)[i], values, shown[i])
  }

  /** What an item shows under a profile, value by value. */
  ghost predicate ShowsItem(c: Cipher, keys: Keys, p: Profile, o: CipherOutput) {
    var decrypt := p.decryptPresent;
    && !c.deleted && c.name.Some? && keys(c.name.value) == Some(o.name) && o.id == c.id && o.kind == c.kind
    && Shows(keys, c.username, p.username, decrypt, o.username)
    && Shows(keys, c.password, p.password, decrypt, o.password)
    && Shows(keys, c.uri, p.uri, decrypt, o.uri)
    && Shows(keys, c.notes, p.notes, decrypt, o.notes)
    && Shows(keys, c.sshPublicKey, p.sshPublicKey, decrypt, o.sshPublicKey)
    && Shows(keys, c.sshPrivateKey, p.sshPrivateKey, decrypt, o.sshPrivateKey)
    && Shows(keys, c.sshFingerprint, p.sshFingerprint, decrypt, o.sshFingerprint)
    && if !p.fieldNames || c.fields.None? then o.fields.None?
       else o.fields.Some? && ShowsFields(keys, c.fields.value, p.fieldValues, o.fields.value)
            && forall i, k :: 0 <= i < k < |o.fields.value| ==> o.fields.value[i].name != o.fields.value[k].name
  }

  lemma OptionalMeaning(keys: Keys, encrypted: Option<Bytes>, wanted: bool, decrypt: bool, shown: Option<Bytes>)
    ensures DecryptOptional(keys, encrypted, wanted, decrypt) == Some(shown)
      <==> Shows(keys, encrypted, wanted, decrypt, shown)
    ensures DecryptOptional(keys, encrypted, wanted, decrypt).Some? <==> Opens(keys, encrypted, wanted, decrypt)
  {}

  lemma {:induction false} NamedAppend(fields: seq<FieldData>, last: FieldData)
    ensures Named(fields + [last]) == Named(fields) + if last.name.Some? then [last] else []
  {
    if fields == [] {
      assert [last][1..] == [];
    } else {
      NamedAppend(fields[1..], last);
      assert (fields + [last])[1..] == fields[1..] + [last];
    }
  }

  lemma {:induction false} FieldsMeaning(keys: Keys, fields: seq<FieldData>, values: bool, shown: seq<Field>)
    ensures DecryptFields(keys, fields, values) == Some(shown) <==> ShowsFields(keys, fields, values, shown)
  {
    if fields != [] {
      var before, last := fields[..|fields| - 1], fields[|fields| - 1];
      NamedAppend(before, last);
      assert fields == before + [last];
      if last.name.None? {
        FieldsMeaning(keys, before, values, shown);
      } else {
        if shown != [] {
          FieldsMeaning(keys, before, values, shown[..|shown| - 1]);
          assert shown == shown[..|shown| - 1] + [shown[|shown| - 1]];
        }
        if DecryptFields(keys, before, values).Some? {
          FieldsMeaning(keys, before, values, DecryptFields(keys, before, values).value);
        }
      }
    }
  }

  lemma LoginMeaning(c: Cipher, keys: Keys, p: Profile, l: Login)
    ensures DecryptLogin(c, keys, p) == Some(l) <==>
      && Shows(keys, c.username, p.username, p.decryptPresent, l.username)
      && Shows(keys, c.password, p.password, p.decryptPresent, l.password)
      && Shows(keys, c.uri, p.uri, p.decryptPresent, l.uri)
      && Shows(keys, c.notes, p.notes, p.decryptPresent, l.notes)
  {
    OptionalMeaning(keys, c.username, p.username, p.decryptPresent, l.username);
    OptionalMeaning(keys, c.password, p.password, p.decryptPresent, l.password);
    OptionalMeaning(keys, c.uri, p.uri, p.decryptPresent, l.uri);
    OptionalMeaning(keys, c.notes, p.notes, p.decryptPresent, l.notes);
  }

  lemma SshKeyMeaning(c: Cipher, keys: Keys, p: Profile, k: SshKey)
    ensures DecryptSshKey(c, keys, p) == Some(k) <==>
      && Shows(keys, c.sshPublicKey, p.sshPublicKey, p.decryptPresent, k.publicKey)
      && Shows(keys, c.sshPrivateKey, p.sshPrivateKey, p.decryptPresent, k.privateKey)
      && Shows(keys, c.sshFingerprint, p.sshFingerprint, p.decryptPresent, k.fingerprint)
  {
    OptionalMeaning(keys, c.sshPublicKey, p.sshPublicKey, p.decryptPresent, k.publicKey);
    OptionalMeaning(keys, c.sshPrivateKey, p.sshPrivateKey, p.decryptPresent, k.privateKey);
    OptionalMeaning(keys, c.sshFingerprint, p.sshFingerprint, p.decryptPresent, k.fingerprint);
  }

  lemma CipherFieldsMeaning(c: Cipher, keys: Keys, p: Profile, shown: Option<seq<Field>>)
    ensures DecryptCipherFields(c, keys, p) == Some(shown) <==>
      if !p.fieldNames || c.fields.None? then shown.None?
      else shown.Some? && ShowsFields(keys, c.fields.value, p.fieldValues, shown.value)
           && forall i, k :: 0 <= i < k < |shown.value| ==> shown.value[i].name != shown.value[k].name
  {
    if p.fieldNames && c.fields.Some? && shown.Some? {
      FieldsMeaning(keys, c.fields.value, p.fieldValues, shown.value);
    }
  }

  /** Decryption under a profile shows exactly this, each value from its own ciphertext. */
  lemma DecryptMeaning(c: Cipher, keys: Keys, p: Profile, o: CipherOutput)
    ensures DecryptCipher(c, keys, p) == Some(o) <==> ShowsItem(c, keys, p, o)
  {
    LoginMeaning(c, keys, p, Login(o.username, o.password, o.uri, o.notes));
    SshKeyMeaning(c, keys, p, SshKey(o.sshPublicKey, o.sshPrivateKey, o.sshFingerprint));
    CipherFieldsMeaning(c, keys, p, o.fields);
  }

  /** Decryption under a profile succeeds exactly when the item is not deleted, its name opens, every value
      opens that is wanted and to be decrypted, and the names of its fields open and are distinct. */
  lemma DecryptSucceeds(c: Cipher, keys: Keys, p: Profile)
    ensures DecryptCipher(c, keys, p).Some? <==>
      && !c.deleted && c.name.Some? && keys(c.name.value).Some?
      && Opens(keys, c.username, p.username, p.decryptPresent)
      && Opens(keys, c.password, p.password, p.decryptPresent)
      && Opens(keys, c.uri, p.uri, p.decryptPresent)
      && Opens(keys, c.notes, p.notes, p.decryptPresent)
      && Opens(keys, c.sshPublicKey, p.sshPublicKey, p.decryptPresent)
      && Opens(keys, c.sshPrivateKey, p.sshPrivateKey, p.decryptPresent)
      && Opens(keys, c.sshFingerprint, p.sshFingerprint, p.decryptPresent)
      && (p.fieldNames && c.fields.Some? ==> FieldsOpen(keys, Named(c.fields.value), p.fieldValues))
  {
    LoginSucceeds(c, keys, p);
    SshKeySucceeds(c, keys, p);
    CipherFieldsSucceed(c, keys, p);
  }

  lemma LoginSucceeds(c: Cipher, keys: Keys, p: Profile)
    ensures DecryptLogin(c, keys, p).Some? <==>
      && Opens(keys, c.username, p.username, p.decryptPresent)
      && Opens(keys, c.password, p.password, p.decryptPresent)
      && Opens(keys, c.uri, p.uri, p.decryptPresent)
      && Opens(keys, c.notes, p.notes, p.decryptPresent)
  {}

  lemma SshKeySucceeds(c: Cipher, keys: Keys, p: Profile)
    ensures DecryptSshKey(c, keys, p).Some? <==>
      && Opens(keys, c.sshPublicKey, p.sshPublicKey, p.decryptPresent)
      && Opens(keys, c.sshPrivateKey, p.sshPrivateKey, p.decryptPresent)
      && Opens(keys, c.sshFingerprint, p.sshFingerprint, p.decryptPresent)
  {}

  lemma CipherFieldsSucceed(c: Cipher, keys: Keys, p: Profile)
    ensures DecryptCipherFields(c, keys, p).Some? <==>
      (p.fieldNames && c.fields.Some? ==> FieldsOpen(keys, Named(c.fields.value), p.fieldValues))
  {
    if c.fields.Some? { FieldsSucceed(keys, c.fields.value, p.fieldValues); }
  }

  /** The names open and are distinct, and the values open if they are wanted. */
  ghost predicate FieldsOpen(keys: Keys, named: seq<FieldData>, values: bool)
    requires forall i :: 0 <= i < |named| ==> named[i].name.Some?
  {
    && (forall i :: 0 <= i < |named| ==> keys(named[i].name.value).Some? && Opens(keys, named[i].value, values, true))
    && forall i, k :: 0 <= i < k < |named| ==> keys(named[i].name.value) != keys(named[k].name.value)
  }

  lemma FieldsSucceed(keys: Keys, fields: seq<FieldData>, values: bool)
    ensures FieldsOpen(keys, Named(fields), values) <==>
      DecryptFields(keys, fields, values).Some? && Distinct(FieldNames(DecryptFields(keys, fields, values).value))
  {
    var named := Named(fields);
    if DecryptFields(keys, fields, values).Some? {
      var shown := DecryptFields(keys, fields, values).value;
      FieldsMeaning(keys, fields, values, shown);
      assert forall i :: 0 <= i < |shown| ==> ShowsField(keys, named[i], values, shown[i]);
      assert forall i :: 0 <= i < |shown| ==> FieldNames(shown)[i] == keys(named[i].name.value).value;
    }
    if FieldsOpen(keys, named, values) {
      var shown := seq(|named|, i requires 0 <= i < |named| => Field(keys(named[i].name.value).value,
        if values && named[i].value.Some? then keys(named[i].value.value).value else [], named[i].hidden));
      FieldsMeaning(keys, fields, values, shown);
    }
  }

  /** A present value opened. */
  ghost function Opened(keys: Keys, encrypted: Option<Bytes>): (value: Option<Bytes>) {
    if encrypted.None? then None else keys(encrypted.value)
  }

  /** The standard values are those of the item, decrypted, except the notes where they are not wanted. */
  ghost predicate ShowsStandard(c: Cipher, keys: Keys, o: CipherOutput, notes: bool) {
    && o.username == Opened(keys, c.username) && o.password == Opened(keys, c.password) && o.uri == Opened(keys, c.uri)
    && o.notes == (if notes then Opened(keys, c.notes) else None)
    && o.sshPublicKey == Opened(keys, c.sshPublicKey) && o.sshPrivateKey == Opened(keys, c.sshPrivateKey)
    && o.sshFingerprint == Opened(keys, c.sshFingerprint)
  }

  /** What the fixed profiles are for: everything; everything but the notes, which need not even open; and
      which values there are, for which no value is opened. */
  lemma FixedProfiles(c: Cipher, keys: Keys, o: CipherOutput)
    ensures DecryptCipher(c, keys, FULL) == Some(o) ==>
      && ShowsStandard(c, keys, o, true)
      && (c.fields.Some? <==> o.fields.Some?)
      && (c.fields.Some? ==> ShowsFields(keys, c.fields.value, true, o.fields.value))
    ensures DecryptCipher(c, keys, RUN_ENV) == Some(o) ==>
      && ShowsStandard(c, keys, o, false)
      && (c.fields.Some? <==> o.fields.Some?)
      && (c.fields.Some? ==> ShowsFields(keys, c.fields.value, true, o.fields.value))
    ensures forall notes :: DecryptCipher(c, keys, RUN_ENV) == DecryptCipher(c.(notes := notes), keys, RUN_ENV)
    ensures DecryptCipher(c, keys, LIST_ENV_NAMES) == Some(o) ==>
      && o.username == Blank(c.username) && o.password == Blank(c.password) && o.uri == Blank(c.uri) && o.notes == None
      && o.sshPublicKey == Blank(c.sshPublicKey) && o.sshPrivateKey == Blank(c.sshPrivateKey)
      && o.sshFingerprint == Blank(c.sshFingerprint)
      && (c.fields.Some? <==> o.fields.Some?)
      && (c.fields.Some? ==> ShowsFields(keys, c.fields.value, false, o.fields.value))
  {
    DecryptMeaning(c, keys, FULL, o);
    DecryptMeaning(c, keys, RUN_ENV, o);
    DecryptMeaning(c, keys, LIST_ENV_NAMES, o);
  }

  /** Present, but empty. */
  function Blank(encrypted: Option<Bytes>): (value: Option<Bytes>) {
    if encrypted.None? then None else Some([])
  }

  /** Listing opens nothing but the item's name and its field names. */
  lemma ListingOpensNames(c: Cipher, keys: Keys, other: Keys)
    requires c.name.Some? ==> keys(c.name.value) == other(c.name.value)
    requires c.fields.Some? ==> forall i :: 0 <= i < |c.fields.value| && c.fields.value[i].name.Some? ==>
      keys(c.fields.value[i].name.value) == other(c.fields.value[i].name.value)
    ensures DecryptCipher(c, keys, LIST_ENV_NAMES) == DecryptCipher(c, other, LIST_ENV_NAMES)
  {
    if c.fields.Some? { ListedFields(keys, other, c.fields.value); }
  }

  lemma {:induction false} ListedFields(keys: Keys, other: Keys, fields: seq<FieldData>)
    requires forall i :: 0 <= i < |fields| && fields[i].name.Some? ==>
      keys(fields[i].name.value) == other(fields[i].name.value)
    ensures DecryptFields(keys, fields, false) == DecryptFields(other, fields, false)
  {
    if fields != [] { ListedFields(keys, other, fields[..|fields| - 1]); }
  }

  // ----- narrowing -----

  /** `p` asks for nothing that `q` does not ask for. */
  predicate Narrower(p: Profile, q: Profile) {
    && (p.username ==> q.username) && (p.password ==> q.password) && (p.uri ==> q.uri)
    && (p.notes ==> q.notes) && (p.fieldNames ==> q.fieldNames) && (p.fieldValues ==> q.fieldValues)
    && (p.sshPublicKey ==> q.sshPublicKey) && (p.sshPrivateKey ==> q.sshPrivateKey)
    && (p.sshFingerprint ==> q.sshFingerprint) && (p.decryptPresent ==> q.decryptPresent)
  }

  function Masked(value: Option<Bytes>, wanted: bool, decrypt: bool): (m: Option<Bytes>) {
    if !wanted || value.None? then None else if decrypt then value else Some([])
  }

  function MaskedFields(fields: seq<Field>, values: bool): (m: seq<Field>)
    ensures |m| == |fields|
  {
    if values then fields else seq(|fields|, i requires 0 <= i < |fields| => fields[i].(value := []))
  }

  function MaskedLogin(l: Login, p: Profile): (m: Login) {
    Login(
      Masked(l.username, p.username, p.decryptPresent), Masked(l.password, p.password, p.decryptPresent),
      Masked(l.uri, p.uri, p.decryptPresent), Masked(l.notes, p.notes, p.decryptPresent))
  }

  function MaskedSshKey(k: SshKey, p: Profile): (m: SshKey) {
    SshKey(
      Masked(k.publicKey, p.sshPublicKey, p.decryptPresent), Masked(k.privateKey, p.sshPrivateKey, p.decryptPresent),
      Masked(k.fingerprint, p.sshFingerprint, p.decryptPresent))
  }

  function MaskedCipherFields(fields: Option<seq<Field>>, p: Profile): (m: Option<seq<Field>>) {
    if !p.fieldNames || fields.None? then None else Some(MaskedFields(fields.value, p.fieldValues))
  }

  /** An item with what a profile does not ask for taken out or blanked. */
  function MaskedOutput(o: CipherOutput, p: Profile): (m: CipherOutput) {
    var login := MaskedLogin(Login(o.username, o.password, o.uri, o.notes), p);
    var ssh := MaskedSshKey(SshKey(o.sshPublicKey, o.sshPrivateKey, o.sshFingerprint), p);
    CipherOutput(o.id, o.kind, o.name, login.username, login.password, login.uri, login.notes,
      MaskedCipherFields(o.fields, p), ssh.publicKey, ssh.privateKey, ssh.fingerprint)
  }

  lemma NarrowOptional(keys: Keys, e: Option<Bytes>, wanted: bool, decrypt: bool, wide: bool, wideDecrypt: bool)
    requires (wanted ==> wide) && (decrypt ==> wideDecrypt)
    requires DecryptOptional(keys, e, wide, wideDecrypt).Some?
    ensures DecryptOptional(keys, e, wanted, decrypt)
      == Some(Masked(DecryptOptional(keys, e, wide, wideDecrypt).value, wanted, decrypt))
  {}

  lemma {:induction false} NarrowFields(keys: Keys, fields: seq<FieldData>, values: bool, wide: bool)
    requires values ==> wide
    requires DecryptFields(keys, fields, wide).Some?
    ensures DecryptFields(keys, fields, values) == Some(MaskedFields(DecryptFields(keys, fields, wide).value, values))
  {
    if fields != [] {
      var before, last := fields[..|fields| - 1], fields[|fields| - 1];
      NarrowFields(keys, before, values, wide);
      if last.name.Some? {
        var f := DecryptFields(keys, before, wide).value;
        var field := DecryptField(keys, last, wide).value;
        MaskedAppend(f, field, values);
        assert DecryptField(keys, last, values) == Some(if values then field else field.(value := []));
      }
    }
  }

  lemma MaskedAppend(fields: seq<Field>, field: Field, values: bool)
    ensures MaskedFields(fields + [field], values)
      == MaskedFields(fields, values) + [if values then field else field.(value := [])]
  {}

  lemma MaskedNames(fields: seq<Field>, values: bool)
    ensures FieldNames(MaskedFields(fields, values)) == FieldNames(fields)
  {}

  lemma NarrowCipherFields(c: Cipher, keys: Keys, p: Profile, q: Profile)
    requires Narrower(p, q) && DecryptCipherFields(c, keys, q).Some?
    ensures DecryptCipherFields(c, keys, p) == Some(MaskedCipherFields(DecryptCipherFields(c, keys, q).value, p))
  {
    if p.fieldNames && c.fields.Some? {
      NarrowFields(keys, c.fields.value, p.fieldValues, q.fieldValues);
      MaskedNames(DecryptFields(keys, c.fields.value, q.fieldValues).value, p.fieldValues);
    }
  }

  lemma NarrowLogin(c: Cipher, keys: Keys, p: Profile, q: Profile)
    requires Narrower(p, q) && DecryptLogin(c, keys, q).Some?
    ensures DecryptLogin(c, keys, p) == Some(MaskedLogin(DecryptLogin(c, keys, q).value, p))
  {
    NarrowOptional(keys, c.username, p.username, p.decryptPresent, q.username, q.decryptPresent);
    NarrowOptional(keys, c.password, p.password, p.decryptPresent, q.password, q.decryptPresent);
    NarrowOptional(keys, c.uri, p.uri, p.decryptPresent, q.uri, q.decryptPresent);
    NarrowOptional(keys, c.notes, p.notes, p.decryptPresent, q.notes, q.decryptPresent);
  }

  lemma NarrowSshKey(c: Cipher, keys: Keys, p: Profile, q: Profile)
    requires Narrower(p, q) && DecryptSshKey(c, keys, q).Some?
    ensures DecryptSshKey(c, keys, p) == Some(MaskedSshKey(DecryptSshKey(c, keys, q).value, p))
  {
    NarrowOptional(keys, c.sshPublicKey, p.sshPublicKey, p.decryptPresent, q.sshPublicKey, q.decryptPresent);
    NarrowOptional(keys, c.sshPrivateKey, p.sshPrivateKey, p.decryptPresent, q.sshPrivateKey, q.decryptPresent);
    NarrowOptional(keys, c.sshFingerprint, p.sshFingerprint, p.decryptPresent, q.sshFingerprint, q.decryptPresent);
  }

  lemma MaskedParts(c: Cipher, name: Bytes, l: Login, fields: Option<seq<Field>>, k: SshKey, p: Profile)
    ensures MaskedOutput(Output(c, name, l, fields, k), p)
      == Output(c, name, MaskedLogin(l, p), MaskedCipherFields(fields, p), MaskedSshKey(k, p))
  {}

  /** Where a profile succeeds, every narrower profile succeeds and shows the same item, masked. */
  lemma Narrowing(c: Cipher, keys: Keys, p: Profile, q: Profile)
    requires Narrower(p, q) && DecryptCipher(c, keys, q).Some?
    ensures DecryptCipher(c, keys, p) == Some(MaskedOutput(DecryptCipher(c, keys, q).value, p))
  {
    NarrowLogin(c, keys, p, q);
    NarrowCipherFields(c, keys, p, q);
    NarrowSshKey(c, keys, p, q);
    MaskedParts(c, keys(c.name.value).value, DecryptLogin(c, keys, q).value, DecryptCipherFields(c, keys, q).value,
      DecryptSshKey(c, keys, q).value, p);
  }

  // ----- one component -----

  /** The value of the first field of that name, in any ASCII case. */
  function FieldNamed(fields: seq<Field>, name: Bytes): (value: Option<Bytes>) {
    if fields == [] then None
    else if SameIgnoringCase(fields[0].name, name) then Some(fields[0].value)
    else FieldNamed(fields[1..], name)
  }

  /** The component of an item; `lower` is Unicode lowercasing. */
  function ResolveComponent(o: CipherOutput, component: Bytes, lower: Bytes -> Bytes): (value: Option<Bytes>) {
    var l := lower(component);
    if l == USERNAME_NAME then o.username
    else if l == PASSWORD_NAME then o.password
    else if l == URI_NAME then o.uri
    else if l == NOTES_NAME || l == NOTE_NAME then o.notes
    else if l == SSH_PUBLIC_KEY_NAME || l == PUBLIC_KEY_NAME || l == PUBLICKEY_NAME then o.sshPublicKey
    else if l == SSH_PRIVATE_KEY_NAME || l == PRIVATE_KEY_NAME || l == PRIVATEKEY_NAME then o.sshPrivateKey
    else if l == SSH_FINGERPRINT_NAME || l == FINGERPRINT_NAME then o.sshFingerprint
    else if o.fields.Some? then FieldNamed(o.fields.value, component) else None
  }

  /** The value of the first field whose name is the one asked for, ASCII case aside. */
  lemma {:induction false} FieldNamedMeaning(fields: seq<Field>, name: Bytes)
    ensures FieldNamed(fields, name).None? <==>
      forall i :: 0 <= i < |fields| ==> !SameIgnoringCase(fields[i].name, name)
    ensures FieldNamed(fields, name).Some? ==>
      exists i :: 0 <= i < |fields| && SameIgnoringCase(fields[i].name, name)
        && FieldNamed(fields, name) == Some(fields[i].value)
        && forall k :: 0 <= k < i ==> !SameIgnoringCase(fields[k].name, name)
  {
    if fields != [] && !SameIgnoringCase(fields[0].name, name) {
      FieldNamedMeaning(fields[1..], name);
      if FieldNamed(fields, name).Some? {
        var i :| 0 <= i < |fields[1..]| && SameIgnoringCase(fields[1..][i].name, name)
          && FieldNamed(fields[1..], name) == Some(fields[1..][i].value)
          && forall k :: 0 <= k < i ==> !SameIgnoringCase(fields[1..][k].name, name);
        forall k | 0 <= k < i + 1 ensures !SameIgnoringCase(fields[k].name, name) {
          if k > 0 { assert fields[1..][k - 1] == fields[k]; }
        }
        assert fields[i + 1] == fields[1..][i];
      } else {
        forall i | 0 <= i < |fields| ensures !SameIgnoringCase(fields[i].name, name) {
          if i > 0 { assert fields[1..][i - 1] == fields[i]; }
        }
      }
    }
  }

  /** The names of the seven standard values, two and three of them having others besides, are different. */
  lemma ComponentNamesDiffer()
    ensures USERNAME_NAME != PASSWORD_NAME && PUBLIC_KEY_NAME != PRIVATEKEY_NAME
    ensures SSH_PRIVATE_KEY_NAME != SSH_FINGERPRINT_NAME && PRIVATE_KEY_NAME != FINGERPRINT_NAME
  {
    assert USERNAME_NAME[0] != PASSWORD_NAME[0] && PUBLIC_KEY_NAME[1] != PRIVATEKEY_NAME[1];
    assert SSH_PRIVATE_KEY_NAME[4] != SSH_FINGERPRINT_NAME[4] && PRIVATE_KEY_NAME[0] != FINGERPRINT_NAME[0];
  }

  /** Which component a name asks for: the standard value of that name, and only that one is decrypted, or
      else the custom field. */
  lemma ComponentMeaning(o: CipherOutput, component: Bytes, lower: Bytes -> Bytes)
    ensures var l, value, p := lower(component), ResolveComponent(o, component, lower), InterpolationProfile(lower(component));
      && (l == Octets("username") ==> value == o.username && p == Only(1))
      && (l == Octets("password") ==> value == o.password && p == Only(2))
      && (l == Octets("uri") ==> value == o.uri && p == Only(3))
      && (l == Octets("notes") || l == Octets("note") ==> value == o.notes && p == Only(4))
      && (l == Octets("ssh_public_key") || l == Octets("public_key") || l == Octets("publickey") ==>
        value == o.sshPublicKey && p == Only(5))
      && (l == Octets("ssh_private_key") || l == Octets("private_key") || l == Octets("privatekey") ==>
        value == o.sshPrivateKey && p == Only(6))
      && (l == Octets("ssh_fingerprint") || l == Octets("fingerprint") ==> value == o.sshFingerprint && p == Only(7))
      && (p == Only(0) ==> value == if o.fields.Some? then FieldNamed(o.fields.value, component) else None)
      && exists i :: 0 <= i < 8 && p == Only(i)
  {
    ComponentNamesDiffer();
    var p := InterpolationProfile(lower(component));
    assert p == Only(0) || p == Only(1) || p == Only(2) || p == Only(3) || p == Only(4) || p == Only(5) || p == Only(6)
      || p == Only(7);
  }

  /** All fields, and the standard value with this number. */
  function Only(i: int): (p: Profile) {
    Profile(i == 1, i == 2, i == 3, i == 4, true, true, i == 5, i == 6, i == 7, true)
  }

  /** Where full decryption succeeds, decrypting only the requested component gives the same result for it. */
  lemma InterpolationAgrees(c: Cipher, keys: Keys, component: Bytes, lower: Bytes -> Bytes)
    requires DecryptCipher(c, keys, FULL).Some?
    ensures var narrow := DecryptCipher(c, keys, InterpolationProfile(lower(component)));
      && narrow.Some?
      && ResolveComponent(narrow.value, component, lower)
        == ResolveComponent(DecryptCipher(c, keys, FULL).value, component, lower)
  {
    Narrowing(c, keys, InterpolationProfile(lower(component)), FULL);
  }

  // ----- the names of environment variables -----

  lemma MaskedStandardNames(prefix: Bytes, suffix: Bytes, value: Option<Bytes>, decrypt: bool)
    ensures Names(Standard(prefix, suffix, Masked(value, true, decrypt))) == Names(Standard(prefix, suffix, value))
  {}

  lemma NamesJoin(a: seq<Variable>, b: seq<Variable>)
    ensures Names(a + b) == Names(a) + Names(b)
  {}

  lemma {:induction false} MaskedFieldNames(prefix: Bytes, fields: seq<Field>, values: bool)
    ensures Names(FieldVariables(prefix, MaskedFields(fields, values))) == Names(FieldVariables(prefix, fields))
  {
    if fields != [] {
      var before, last := fields[..|fields| - 1], fields[|fields| - 1];
      MaskedFieldNames(prefix, before, values);
      assert before + [last] == fields;
      MaskedAppend(before, last, values);
      var masked := if values then last else last.(value := []);
      assert MaskedFields(fields, values)[..|fields| - 1] == MaskedFields(before, values);
      NamesJoin(FieldVariables(prefix, before), [FieldVariable(prefix, last)]);
      NamesJoin(FieldVariables(prefix, MaskedFields(before, values)), [FieldVariable(prefix, masked)]);
    }
  }

  lemma MaskedStandardVariables(o: CipherOutput, p: Profile)
    requires p.username && p.password && p.uri && p.sshPublicKey && p.sshPrivateKey && p.sshFingerprint
    ensures Names(StandardVariables(MaskedOutput(o, p))) == Names(StandardVariables(o))
  {
    var m, x, d := MaskedOutput(o, p), EnvNames.Sanitized(o.name), p.decryptPresent;
    MaskedStandardNames(x, URI, o.uri, d);
    MaskedStandardNames(x, USERNAME, o.username, d);
    MaskedStandardNames(x, PASSWORD, o.password, d);
    MaskedStandardNames(x, SSH_PUBLIC_KEY, o.sshPublicKey, d);
    MaskedStandardNames(x, SSH_PRIVATE_KEY, o.sshPrivateKey, d);
    MaskedStandardNames(x, SSH_FINGERPRINT, o.sshFingerprint, d);
    StandardNamesOf(o);
    StandardNamesOf(m);
  }

  lemma StandardNamesOf(o: CipherOutput)
    ensures var x := EnvNames.Sanitized(o.name);
      Names(StandardVariables(o)) ==
        Names(Standard(x, URI, o.uri)) + Names(Standard(x, USERNAME, o.username))
        + Names(Standard(x, PASSWORD, o.password)) + Names(Standard(x, SSH_PUBLIC_KEY, o.sshPublicKey))
        + Names(Standard(x, SSH_PRIVATE_KEY, o.sshPrivateKey)) + Names(Standard(x, SSH_FINGERPRINT, o.sshFingerprint))
  {
    var x := EnvNames.Sanitized(o.name);
    var v := Standard(x, URI, o.uri);
    NamesJoin(v, Standard(x, USERNAME, o.username));
    v := v + Standard(x, USERNAME, o.username);
    NamesJoin(v, Standard(x, PASSWORD, o.password));
    v := v + Standard(x, PASSWORD, o.password);
    NamesJoin(v, Standard(x, SSH_PUBLIC_KEY, o.sshPublicKey));
    v := v + Standard(x, SSH_PUBLIC_KEY, o.sshPublicKey);
    NamesJoin(v, Standard(x, SSH_PRIVATE_KEY, o.sshPrivateKey));
    v := v + Standard(x, SSH_PRIVATE_KEY, o.sshPrivateKey);
    NamesJoin(v, Standard(x, SSH_FINGERPRINT, o.sshFingerprint));
  }

  /** A profile that asks for every exported value, decrypted or not, names the same variables in the same order. */
  lemma MaskingKeepsNames(o: CipherOutput, p: Profile)
    requires p.username && p.password && p.uri && p.sshPublicKey && p.sshPrivateKey && p.sshFingerprint && p.fieldNames
    ensures Names(Variables(MaskedOutput(o, p))) == Names(Variables(o))
  {
    var m, x := MaskedOutput(o, p), EnvNames.Sanitized(o.name);
    MaskedStandardVariables(o, p);
    if o.fields.Some? {
      MaskedFieldNames(x, o.fields.value, p.fieldValues);
      NamesJoin(StandardVariables(o), FieldVariables(x, o.fields.value));
      NamesJoin(StandardVariables(m), FieldVariables(x, m.fields.value));
    } else {
      NamesJoin(StandardVariables(o), []);
      NamesJoin(StandardVariables(m), []);
    }
  }

  /** Whenever the values of an item can be exported, its variable names can be listed without decrypting
      them, and they are the same names in the same order. */
  lemma ListedNamesAgree(c: Cipher, keys: Keys)
    requires DecryptCipher(c, keys, RUN_ENV).Some?
    ensures var listed := DecryptCipher(c, keys, LIST_ENV_NAMES);
      listed.Some? && Names(Variables(listed.value)) == Names(Variables(DecryptCipher(c, keys, RUN_ENV).value))
  {
    Narrowing(c, keys, LIST_ENV_NAMES, RUN_ENV);
    MaskingKeepsNames(DecryptCipher(c, keys, RUN_ENV).value, LIST_ENV_NAMES);
  }

  /** Whenever full decryption succeeds, the run profile exports the same variables with the same values. */
  lemma RunExportsEverything(c: Cipher, keys: Keys)
    requires DecryptCipher(c, keys, FULL).Some?
    ensures var run := DecryptCipher(c, keys, RUN_ENV);
      run.Some? && Variables(run.value) == Variables(DecryptCipher(c, keys, FULL).value)
  {
    Narrowing(c, keys, RUN_ENV, FULL);
  }
}
