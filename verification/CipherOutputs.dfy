/** Decrypted items and the environment variables they stand for (`cipher_to_env_vars`,
    `cipher_env_var_names` of src/commands.rs). */
module CipherOutputs {
  import opened ByteStrings
  import EnvNames

  datatype Field = Field(name: Bytes, value: Bytes, hidden: bool)

  datatype CipherOutput = CipherOutput(
    id: Bytes, kind: Bytes, name: Bytes,
    username: Option<Bytes>, password: Option<Bytes>, uri: Option<Bytes>, notes: Option<Bytes>,
    fields: Option<seq<Field>>,
    sshPublicKey: Option<Bytes>, sshPrivateKey: Option<Bytes>, sshFingerprint: Option<Bytes>)

  datatype Variable = Variable(name: Bytes, value: Bytes)

  const URI: Bytes := Octets("URI")
  const USERNAME: Bytes := Octets("USERNAME")
  const PASSWORD: Bytes := Octets("PASSWORD")
  const SSH_PUBLIC_KEY: Bytes := Octets("SSH_PUBLIC_KEY")
  const SSH_PRIVATE_KEY: Bytes := Octets("SSH_PRIVATE_KEY")
  const SSH_FINGERPRINT: Bytes := Octets("SSH_FINGERPRINT")

  function VariableName(prefix: Bytes, suffix: Bytes): (name: Bytes) {
    prefix + [EnvNames.UNDERSCORE] + suffix
  }

  /** The variable of a standard value, if the item has it. */
  function Standard(prefix: Bytes, suffix: Bytes, value: Option<Bytes>): (vars: seq<Variable>) {
    if value.None? then [] else [Variable(VariableName(prefix, suffix), value.value)]
  }

  function FieldVariable(prefix: Bytes, field: Field): (v: Variable) {
    Variable(VariableName(prefix, EnvNames.Sanitized(field.name)), field.value)
  }

  function FieldVariables(prefix: Bytes, fields: seq<Field>): (vars: seq<Variable>) {
    if fields == [] then []
    else
      FieldVariables(prefix, fields[..|fields| - 1]) + [FieldVariable(prefix, fields[|fields| - 1])]
  }

  function StandardVariables(o: CipherOutput): (vars: seq<Variable>) {
    var prefix := EnvNames.Sanitized(o.name);
    Standard(prefix, URI, o.uri)
    + Standard(prefix, USERNAME, o.username)
    + Standard(prefix, PASSWORD, o.password)
    + Standard(prefix, SSH_PUBLIC_KEY, o.sshPublicKey)
    + Standard(prefix, SSH_PRIVATE_KEY, o.sshPrivateKey)
    + Standard(prefix, SSH_FINGERPRINT, o.sshFingerprint)
  }

  /** The variables of an item: its standard values, then its custom fields in order. */
  function Variables(o: CipherOutput): (vars: seq<Variable>) {
    StandardVariables(o)
    + if o.fields.Some? then FieldVariables(EnvNames.Sanitized(o.name), o.fields.value) else []
  }

  /** A variable for a present value: the item's name, an underscore, and the ending. */
  function Entry(prefix: Bytes, ending: string, value: Option<Bytes>): (vars: seq<Variable>) {
    if value.None? then [] else [Variable(prefix + Octets("_") + Octets(ending), value.value)]
  }

  function FieldEntry(prefix: Bytes, field: Field): (v: Variable) {
    Variable(prefix + Octets("_") + EnvNames.Sanitized(field.name), field.value)
  }

  lemma EntryIsStandard(prefix: Bytes, ending: string, value: Option<Bytes>)
    ensures Standard(prefix, Octets(ending), value) == Entry(prefix, ending, value)
  {
    assert Octets("_") == [EnvNames.UNDERSCORE];
  }

  /** Which variable says what: at most six for the standard values, and then one for every field. */
  lemma VariablesMeaning(o: CipherOutput)
    ensures var p := EnvNames.Sanitized(o.name);
      StandardVariables(o) ==
        Entry(p, "URI", o.uri) + Entry(p, "USERNAME", o.username) + Entry(p, "PASSWORD", o.password)
        + Entry(p, "SSH_PUBLIC_KEY", o.sshPublicKey) + Entry(p, "SSH_PRIVATE_KEY", o.sshPrivateKey)
        + Entry(p, "SSH_FINGERPRINT", o.sshFingerprint)
    ensures var fields := if o.fields.Some? then o.fields.value else [];
      && |Variables(o)| == |StandardVariables(o)| + |fields|
      && Variables(o)[..|StandardVariables(o)|] == StandardVariables(o)
      && forall i :: 0 <= i < |fields| ==>
          Variables(o)[|StandardVariables(o)| + i] == FieldEntry(EnvNames.Sanitized(o.name), fields[i])
  {
    var p := EnvNames.Sanitized(o.name);
    EntryIsStandard(p, "URI", o.uri);
    EntryIsStandard(p, "USERNAME", o.username);
    EntryIsStandard(p, "PASSWORD", o.password);
    EntryIsStandard(p, "SSH_PUBLIC_KEY", o.sshPublicKey);
    EntryIsStandard(p, "SSH_PRIVATE_KEY", o.sshPrivateKey);
    EntryIsStandard(p, "SSH_FINGERPRINT", o.sshFingerprint);
    if o.fields.Some? { FieldVariablesMeaning(p, o.fields.value); }
  }

  lemma {:induction false} FieldVariablesMeaning(prefix: Bytes, fields: seq<Field>)
    ensures |FieldVariables(prefix, fields)| == |fields|
    ensures forall i :: 0 <= i < |fields| ==> FieldVariables(prefix, fields)[i] == FieldEntry(prefix, fields[i])
  {
    assert Octets("_") == [EnvNames.UNDERSCORE];
    if fields != [] { FieldVariablesMeaning(prefix, fields[..|fields| - 1]); }
  }

  function Names(vars: seq<Variable>): (names: seq<Bytes>)
    ensures |names| == |vars| && forall i :: 0 <= i < |vars| ==> names[i] == vars[i].name
  {
    seq(|vars|, i requires 0 <= i < |vars| => vars[i].name)
  }

  predicate Distinct(names: seq<Bytes>) {
    forall i, k :: 0 <= i < k < |names| ==> names[i] != names[k]
  }

  method AllNew(names: seq<Bytes>) returns (ok: bool)
    ensures ok <==> Distinct(names)
  {
    var seen: set<Bytes> := {};
    for i := 0 to |names|
      invariant forall n :: n in seen <==> n in names[..i]
      invariant Distinct(names[..i])
    {
      if names[i] in seen {
        return false;
      }
      seen := seen + {names[i]};
    }
    return true;
  }

  lemma PushStandard(vars: seq<Variable>, prefix: Bytes, suffix: Bytes, value: Option<Bytes>)
    ensures value.None? ==> vars + Standard(prefix, suffix, value) == vars
  {}

  lemma NamesOfPush(vars: seq<Variable>, prefix: Bytes, suffix: Bytes, value: Option<Bytes>)
    ensures value.None? ==> Names(vars + Standard(prefix, suffix, value)) == Names(vars)
    ensures value.Some? ==> Names(vars + Standard(prefix, suffix, value)) == Names(vars) + [VariableName(prefix, suffix)]
  {
    PushStandard(vars, prefix, suffix, value);
  }

  method StandardEnvVars(o: CipherOutput, prefix: Bytes) returns (vars: seq<Variable>)
    requires prefix == EnvNames.Sanitized(o.name)
    ensures vars == StandardVariables(o)
  {
    vars := [];
    PushStandard(vars, prefix, URI, o.uri);
    if o.uri.Some? { vars := vars + [Variable(VariableName(prefix, URI), o.uri.value)]; }
    assert vars == Standard(prefix, URI, o.uri);
    PushStandard(vars, prefix, USERNAME, o.username);
    if o.username.Some? { vars := vars + [Variable(VariableName(prefix, USERNAME), o.username.value)]; }
    PushStandard(vars, prefix, PASSWORD, o.password);
    if o.password.Some? { vars := vars + [Variable(VariableName(prefix, PASSWORD), o.password.value)]; }
    PushStandard(vars, prefix, SSH_PUBLIC_KEY, o.sshPublicKey);
    if o.sshPublicKey.Some? { vars := vars + [Variable(VariableName(prefix, SSH_PUBLIC_KEY), o.sshPublicKey.value)]; }
    PushStandard(vars, prefix, SSH_PRIVATE_KEY, o.sshPrivateKey);
    if o.sshPrivateKey.Some? {
      vars := vars + [Variable(VariableName(prefix, SSH_PRIVATE_KEY), o.sshPrivateKey.value)];
    }
    PushStandard(vars, prefix, SSH_FINGERPRINT, o.sshFingerprint);
    if o.sshFingerprint.Some? {
      vars := vars + [Variable(VariableName(prefix, SSH_FINGERPRINT), o.sshFingerprint.value)];
    }
  }

  method CipherToEnvVars(o: CipherOutput) returns (vars: seq<Variable>)
    ensures vars == Variables(o)
  {
    var prefix := EnvNames.SanitizeEnvName(o.name);
    vars := StandardEnvVars(o, prefix);
    if o.fields.Some? {
      var fields := o.fields.value;
      for i := 0 to |fields|
        invariant vars == StandardVariables(o) + FieldVariables(prefix, fields[..i])
      {
        assert fields[..i + 1][..i] == fields[..i];
        var name := EnvNames.SanitizeEnvName(fields[i].name);
        vars := vars + [Variable(VariableName(prefix, name), fields[i].value)];
      }
      assert fields[..|fields|] == fields;
    }
  }

  method StandardEnvNames(o: CipherOutput, prefix: Bytes) returns (names: seq<Bytes>)
    requires prefix == EnvNames.Sanitized(o.name)
    ensures names == Names(StandardVariables(o))
  {
    ghost var v0: seq<Variable> := [];
    names := [];
    NamesOfPush(v0, prefix, URI, o.uri);
    if o.uri.Some? { names := names + [VariableName(prefix, URI)]; }
    ghost var v1 := Standard(prefix, URI, o.uri);
    assert v0 + v1 == v1;
    NamesOfPush(v1, prefix, USERNAME, o.username);
    if o.username.Some? { names := names + [VariableName(prefix, USERNAME)]; }
    ghost var v2 := v1 + Standard(prefix, USERNAME, o.username);
    NamesOfPush(v2, prefix, PASSWORD, o.password);
    if o.password.Some? { names := names + [VariableName(prefix, PASSWORD)]; }
    ghost var v3 := v2 + Standard(prefix, PASSWORD, o.password);
    NamesOfPush(v3, prefix, SSH_PUBLIC_KEY, o.sshPublicKey);
    if o.sshPublicKey.Some? { names := names + [VariableName(prefix, SSH_PUBLIC_KEY)]; }
    ghost var v4 := v3 + Standard(prefix, SSH_PUBLIC_KEY, o.sshPublicKey);
    NamesOfPush(v4, prefix, SSH_PRIVATE_KEY, o.sshPrivateKey);
    if o.sshPrivateKey.Some? { names := names + [VariableName(prefix, SSH_PRIVATE_KEY)]; }
    NamesOfPush(v4 + Standard(prefix, SSH_PRIVATE_KEY, o.sshPrivateKey), prefix, SSH_FINGERPRINT, o.sshFingerprint);
    if o.sshFingerprint.Some? { names := names + [VariableName(prefix, SSH_FINGERPRINT)]; }
  }

  /** The names alone, computed without the values, are the names of the variables. */
  method CipherEnvVarNames(o: CipherOutput) returns (names: seq<Bytes>)
    ensures names == Names(Variables(o))
  {
    var prefix := EnvNames.SanitizeEnvName(o.name);
    names := StandardEnvNames(o, prefix);
    ghost var vars := StandardVariables(o);
    if o.fields.Some? {
      var fields := o.fields.value;
      assert vars + [] == vars;
      for i := 0 to |fields|
        invariant names == Names(vars + FieldVariables(prefix, fields[..i]))
      {
        assert fields[..i + 1][..i] == fields[..i];
        var name := EnvNames.SanitizeEnvName(fields[i].name);
        NamesOfField(vars + FieldVariables(prefix, fields[..i]), prefix, fields[i]);
        Associate(vars, FieldVariables(prefix, fields[..i]), [FieldVariable(prefix, fields[i])]);
        names := names + [VariableName(prefix, name)];
      }
      assert fields[..|fields|] == fields;
    } else {
      assert vars + [] == vars;
    }
  }

  lemma NamesOfField(vars: seq<Variable>, prefix: Bytes, field: Field)
    ensures Names(vars + [FieldVariable(prefix, field)])
      == Names(vars) + [VariableName(prefix, EnvNames.Sanitized(field.name))]
  {}
}
