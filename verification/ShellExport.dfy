/** The `export` lines of an item (`format_cipher_output` and `shell_quote_env_value` of
    src/commands.rs) against a reader of the POSIX shell's words. */
module ShellExport {
  import opened ByteStrings
  import opened CipherOutputs
  import EnvNames

  const NUL: byte := 0
  const NEWLINE: byte := 0x0a
  const SPACE: byte := 0x20
  const SINGLE_QUOTE: byte := 0x27
  const EQUALS: byte := 0x3d
  const EXPORT: Bytes := Octets("export")

  /** The characters that matter to a POSIX shell here, and its command. */
  lemma ShellCharacters()
    ensures SINGLE_QUOTE == '\'' as int && BACKSLASH == '\\' as int && SPACE == ' ' as int
    ensures NEWLINE == '\n' as int && EQUALS == '=' as int && NUL == 0 && EXPORT == Octets("export")
  {}

  // ----- the shell -----

  /** The unquoted characters that stand for themselves; the reader refuses every other one. */
  predicate Plain(b: byte) {
    Alphanumeric(b) || b == EnvNames.UNDERSCORE || b == EQUALS
  }

  function Grown(word: Option<Bytes>, b: byte): (more: Option<Bytes>) {
    Some((if word.Some? then word.value else []) + [b])
  }

  function Closed(words: seq<Bytes>, word: Option<Bytes>): (all: seq<Bytes>) {
    if word.Some? then words + [word.value] else words
  }

  function Ended(commands: seq<seq<Bytes>>, words: seq<Bytes>): (all: seq<seq<Bytes>>) {
    if words == [] then commands else commands + [words]
  }

  /** The commands of a shell text as lists of words (sections 2.2 and 2.3 of the POSIX shell command
      language): single quotes keep every character but the next quote, a backslash keeps the next
      character, an escaped newline disappears. NUL and unquoted special characters are refused. */
  ghost function Read(
    text: Bytes, quoted: bool, word: Option<Bytes>, words: seq<Bytes>, commands: seq<seq<Bytes>>)
    : (read: Option<seq<seq<Bytes>>>)
    decreases |text|
  {
    if text == [] then
      if quoted then None else Some(Ended(commands, Closed(words, word)))
    else
      var c, rest := text[0], text[1..];
      if c == NUL then None
      else if quoted then
        if c == SINGLE_QUOTE then Read(rest, false, word, words, commands)
        else Read(rest, true, Grown(word, c), words, commands)
      else if c == SINGLE_QUOTE then Read(rest, true, Opened(word), words, commands)
      else if c == BACKSLASH then
        if rest == [] || rest[0] == NUL then None
        else if rest[0] == NEWLINE then Read(rest[1..], false, word, words, commands)
        else Read(rest[1..], false, Grown(word, rest[0]), words, commands)
      else if c == NEWLINE then Read(rest, false, None, [], Ended(commands, Closed(words, word)))
      else if c == SPACE then Read(rest, false, None, Closed(words, word), commands)
      else if Plain(c) then Read(rest, false, Grown(word, c), words, commands)
      else None
  }

  /** A quote starts a word, even an empty one. */
  function Opened(word: Option<Bytes>): (w: Option<Bytes>) {
    if word.Some? then word else Some([])
  }

  predicate Identifier(name: Bytes) {
    && name != [] && !IsDigit(name[0])
    && forall i :: 0 <= i < |name| ==> Alphanumeric(name[i]) || name[i] == EnvNames.UNDERSCORE
  }

  /** Where the first equals sign is. */
  function EqualsAt(word: Bytes): (i: nat)
    ensures i <= |word|
  {
    if word == [] || word[0] == EQUALS then 0 else 1 + EqualsAt(word[1..])
  }

  /** The variable that one command exports, if that is what it does. */
  function Exported(command: seq<Bytes>): (v: Option<Variable>) {
    if |command| != 2 || command[0] != EXPORT then None
    else
      var word := command[1];
      var i := EqualsAt(word);
      if i < |word| && Identifier(word[..i]) then Some(Variable(word[..i], word[i + 1..])) else None
  }

  function AllExported(commands: seq<seq<Bytes>>): (vars: Option<seq<Variable>>) {
    if commands == [] then Some([])
    else
      var before, last := AllExported(commands[..|commands| - 1]), Exported(commands[|commands| - 1]);
      if before.None? || last.None? then None else Some(before.value + [last.value])
  }

  /** The variables, in order, that a shell exports when it runs the text; none if the text does anything else. */
  ghost function ShellReads(text: Bytes): (vars: Option<seq<Variable>>) {
    var commands := Read(text, false, None, [], []);
    if commands.None? then None else AllExported(commands.value)
  }

  // ----- the printer -----

  const ESCAPED_QUOTE: Bytes := [SINGLE_QUOTE, BACKSLASH, SINGLE_QUOTE, SINGLE_QUOTE]

  function Escape(c: byte): (e: Bytes) {
    if c == SINGLE_QUOTE then ESCAPED_QUOTE else [c]
  }

  function Body(value: Bytes): (body: Bytes) {
    if value == [] then [] else Escape(value[0]) + Body(value[1..])
  }

  function Quoted(value: Bytes): (quoted: Bytes) {
    [SINGLE_QUOTE] + Body(value) + [SINGLE_QUOTE]
  }

  lemma {:induction false} BodyAppend(value: Bytes, c: byte)
    ensures Body(value + [c]) == Body(value) + Escape(c)
  {
    var all := value + [c];
    if value == [] {
      assert all[1..] == [];
      assert Escape(c) + [] == Escape(c);
    } else {
      assert all[1..] == value[1..] + [c];
      BodyAppend(value[1..], c);
      Associate(Escape(value[0]), Body(value[1..]), Escape(c));
    }
  }

  /** Quoting fails exactly on a NUL. */
  method ShellQuoteEnvValue(value: Bytes) returns (quoted: Option<Bytes>)
    ensures quoted == if NUL in value then None else Some(Quoted(value))
  {
    if NUL in value {
      return None;
    }
    var out := new Buffer();
    out.Push([SINGLE_QUOTE]);
    for i := 0 to |value|
      invariant fresh(out)
      invariant out.text == [SINGLE_QUOTE] + Body(value[..i])
    {
      BodyAppend(value[..i], value[i]);
      assert value[..i + 1] == value[..i] + [value[i]];
      Associate([SINGLE_QUOTE], Body(value[..i]), Escape(value[i]));
      if value[i] == SINGLE_QUOTE {
        out.Push(ESCAPED_QUOTE);
      } else {
        out.Push([value[i]]);
      }
    }
    assert value[..|value|] == value;
    out.Push([SINGLE_QUOTE]);
    return Some(out.text);
  }

  function Line(v: Variable): (line: Bytes) {
    EXPORT + [SPACE] + v.name + [EQUALS] + Quoted(v.value) + [NEWLINE]
  }

  function Lines(vars: seq<Variable>): (text: Bytes) {
    if vars == [] then [] else Lines(vars[..|vars| - 1]) + Line(vars[|vars| - 1])
  }

  // ----- reading what was printed -----

  /** A word grown by several characters. */
  function GrownBy(word: Option<Bytes>, more: Bytes): (all: Option<Bytes>)
    decreases |more|
  {
    if more == [] then word else GrownBy(Grown(word, more[0]), more[1..])
  }

  lemma {:induction false} GrownByIs(word: Bytes, more: Bytes)
    ensures GrownBy(Some(word), more) == Some(word + more)
    decreases |more|
  {
    if more == [] {
      assert word + more == word;
    } else {
      GrownByIs(word + [more[0]], more[1..]);
      Associate(word, [more[0]], more[1..]);
      assert [more[0]] + more[1..] == more;
    }
  }

  lemma {:induction false} ReadPlain(
    run: Bytes, rest: Bytes, word: Option<Bytes>, words: seq<Bytes>, commands: seq<seq<Bytes>>)
    requires forall i :: 0 <= i < |run| ==> Plain(run[i])
    ensures Read(run + rest, false, word, words, commands) == Read(rest, false, GrownBy(word, run), words, commands)
    decreases |run|
  {
    if run == [] {
      assert run + rest == rest;
    } else {
      assert (run + rest)[1..] == run[1..] + rest;
      ReadPlain(run[1..], rest, Grown(word, run[0]), words, commands);
    }
  }

  /** One escaped character reads as the character, inside the quotes before and after. */
  lemma ReadEscape(c: byte, rest: Bytes, word: Bytes, words: seq<Bytes>, commands: seq<seq<Bytes>>)
    requires c != NUL
    ensures Read(Escape(c) + rest, true, Some(word), words, commands)
      == Read(rest, true, Some(word + [c]), words, commands)
  {
    if c == SINGLE_QUOTE {
      var t3 := [SINGLE_QUOTE] + rest;
      var t2 := [BACKSLASH, SINGLE_QUOTE] + t3;
      assert ESCAPED_QUOTE + rest == [SINGLE_QUOTE] + t2;
      assert ([SINGLE_QUOTE] + t2)[1..] == t2;
      assert t2[1..] == [SINGLE_QUOTE] + t3;
      assert t2[1..][1..] == t3;
      assert t3[1..] == rest;
      assert Read([SINGLE_QUOTE] + t2, true, Some(word), words, commands) == Read(t2, false, Some(word), words, commands);
      assert Read(t2, false, Some(word), words, commands) == Read(t3, false, Some(word + [c]), words, commands);
    } else {
      assert ([c] + rest)[1..] == rest;
    }
  }

  lemma {:induction false} ReadBody(
    value: Bytes, rest: Bytes, word: Bytes, words: seq<Bytes>, commands: seq<seq<Bytes>>)
    requires NUL !in value
    ensures Read(Body(value) + rest, true, Some(word), words, commands)
      == Read(rest, true, Some(word + value), words, commands)
    decreases |value|
  {
    if value == [] {
      assert Body(value) + rest == rest && word + value == word;
    } else {
      var c, more := value[0], value[1..];
      Associate(Escape(c), Body(more), rest);
      ReadEscape(c, Body(more) + rest, word, words, commands);
      ReadBody(more, rest, word + [c], words, commands);
      Associate(word, [c], more);
      assert [c] + more == value;
    }
  }

  /** Quoting is undone by the shell, whatever stands before in the word. */
  lemma ReadQuoted(value: Bytes, rest: Bytes, word: Bytes, words: seq<Bytes>, commands: seq<seq<Bytes>>)
    requires NUL !in value
    ensures Read(Quoted(value) + rest, false, Some(word), words, commands)
      == Read(rest, false, Some(word + value), words, commands)
  {
    var tail := [SINGLE_QUOTE] + rest;
    assert Quoted(value) + rest == [SINGLE_QUOTE] + (Body(value) + tail);
    assert ([SINGLE_QUOTE] + (Body(value) + tail))[1..] == Body(value) + tail;
    ReadBody(value, tail, word, words, commands);
    assert tail[1..] == rest;
  }

  function Command(v: Variable): (words: seq<Bytes>) {
    [EXPORT, v.name + [EQUALS] + v.value]
  }

  lemma ReadSpace(rest: Bytes, word: Bytes, commands: seq<seq<Bytes>>)
    ensures Read([SPACE] + rest, false, Some(word), [], commands) == Read(rest, false, None, [word], commands)
  {
    assert ([SPACE] + rest)[1..] == rest;
    assert [] + [word] == [word];
  }

  lemma ReadNewline(rest: Bytes, word: Bytes, words: seq<Bytes>, commands: seq<seq<Bytes>>)
    ensures Read([NEWLINE] + rest, false, Some(word), words, commands)
      == Read(rest, false, None, [], commands + [words + [word]])
  {
    assert ([NEWLINE] + rest)[1..] == rest;
  }

  lemma ReadLine(v: Variable, rest: Bytes, commands: seq<seq<Bytes>>)
    requires Identifier(v.name) && NUL !in v.value
    ensures Read(Line(v) + rest, false, None, [], commands) == Read(rest, false, None, [], commands + [Command(v)])
  {
    var end := [NEWLINE] + rest;
    var quoted := Quoted(v.value) + end;
    var lhs := v.name + [EQUALS];
    var spaced := [SPACE] + (lhs + quoted);
    LineParts(v, rest);
    ReadPlain(EXPORT, spaced, None, [], commands);
    GrownFromNothing(EXPORT);
    ReadSpace(lhs + quoted, EXPORT, commands);
    ReadPlain(lhs, quoted, None, [EXPORT], commands);
    GrownFromNothing(lhs);
    ReadQuoted(v.value, end, lhs, [EXPORT], commands);
    ReadNewline(rest, lhs + v.value, [EXPORT], commands);
    assert [EXPORT] + [lhs + v.value] == Command(v);
  }

  lemma LineParts(v: Variable, rest: Bytes)
    ensures Line(v) + rest
      == EXPORT + ([SPACE] + ((v.name + [EQUALS]) + (Quoted(v.value) + ([NEWLINE] + rest))))
  {}

  lemma GrownFromNothing(word: Bytes)
    requires word != []
    ensures GrownBy(None, word) == Some(word)
  {
    GrownByIs([word[0]], word[1..]);
    assert [] + [word[0]] == [word[0]];
    assert [word[0]] + word[1..] == word;
  }

  function Commands(vars: seq<Variable>): (commands: seq<seq<Bytes>>) {
    if vars == [] then [] else Commands(vars[..|vars| - 1]) + [Command(vars[|vars| - 1])]
  }

  predicate Printable(v: Variable) {
    Identifier(v.name) && NUL !in v.value
  }

  lemma {:induction false} ReadLines(vars: seq<Variable>, rest: Bytes)
    requires forall i :: 0 <= i < |vars| ==> Printable(vars[i])
    ensures Read(Lines(vars) + rest, false, None, [], []) == Read(rest, false, None, [], Commands(vars))
  {
    if vars == [] {
      assert Lines(vars) + rest == rest;
    } else {
      var before, last := vars[..|vars| - 1], vars[|vars| - 1];
      Associate(Lines(before), Line(last), rest);
      ReadLines(before, Line(last) + rest);
      ReadLine(last, rest, Commands(before));
    }
  }

  lemma {:induction false} EqualsAfter(name: Bytes, rest: Bytes)
    requires EQUALS !in name
    ensures EqualsAt(name + [EQUALS] + rest) == |name|
  {
    var word := name + [EQUALS] + rest;
    if name != [] {
      assert word[1..] == name[1..] + [EQUALS] + rest;
      EqualsAfter(name[1..], rest);
    }
  }

  lemma ExportedCommand(v: Variable)
    requires Identifier(v.name)
    ensures Exported(Command(v)) == Some(v)
  {
    var word := v.name + [EQUALS] + v.value;
    EqualsAfter(v.name, v.value);
    assert word[..|v.name|] == v.name && word[|v.name| + 1..] == v.value;
  }

  lemma {:induction false} AllExportedCommands(vars: seq<Variable>)
    requires forall i :: 0 <= i < |vars| ==> Printable(vars[i])
    ensures AllExported(Commands(vars)) == Some(vars)
  {
    if vars != [] {
      var before, last := vars[..|vars| - 1], vars[|vars| - 1];
      AllExportedCommands(before);
      ExportedCommand(last);
      assert Commands(vars)[..|Commands(vars)| - 1] == Commands(before);
      assert before + [last] == vars;
    }
  }

  /** A shell that runs the printed lines exports exactly the variables, in order, with their exact values. */
  lemma ShellReadsLines(vars: seq<Variable>)
    requires forall i :: 0 <= i < |vars| ==> Printable(vars[i])
    ensures ShellReads(Lines(vars)) == Some(vars)
  {
    ReadLines(vars, []);
    assert Lines(vars) + [] == Lines(vars);
    AllExportedCommands(vars);
  }

  // ----- the whole output -----

  predicate NameCharacters(name: Bytes) {
    forall i :: 0 <= i < |name| ==> Alphanumeric(name[i]) || name[i] == EnvNames.UNDERSCORE
  }

  lemma NameIsIdentifier(item: Bytes, suffix: Bytes)
    requires NameCharacters(suffix)
    ensures Identifier(VariableName(EnvNames.Sanitized(item), suffix))
  {
    EnvNames.SanitizedIsPortable(item);
  }

  predicate AllIdentifiers(vars: seq<Variable>) {
    forall i :: 0 <= i < |vars| ==> Identifier(vars[i].name)
  }

  lemma AllIdentifiersJoin(a: seq<Variable>, b: seq<Variable>)
    requires AllIdentifiers(a) && AllIdentifiers(b)
    ensures AllIdentifiers(a + b)
  {}

  lemma {:induction false} FieldNamesAreIdentifiers(item: Bytes, fields: seq<Field>)
    ensures AllIdentifiers(FieldVariables(EnvNames.Sanitized(item), fields))
  {
    if fields != [] {
      var before, last := fields[..|fields| - 1], fields[|fields| - 1];
      FieldNamesAreIdentifiers(item, before);
      EnvNames.SanitizedIsPortable(last.name);
      NameIsIdentifier(item, EnvNames.Sanitized(last.name));
      var prefix := EnvNames.Sanitized(item);
      assert Identifier(FieldVariable(prefix, last).name);
      AllIdentifiersJoin(FieldVariables(prefix, before), [FieldVariable(prefix, last)]);
    }
  }

  lemma StandardIdentifier(item: Bytes, suffix: Bytes, value: Option<Bytes>)
    requires NameCharacters(suffix)
    ensures AllIdentifiers(Standard(EnvNames.Sanitized(item), suffix, value))
  {
    NameIsIdentifier(item, suffix);
  }

  lemma SuffixIsName(text: string)
    requires forall i :: 0 <= i < |text| ==> 'A' <= text[i] <= 'Z' || text[i] == '_'
    ensures NameCharacters(Octets(text))
  {}

  lemma StandardNamesAreIdentifiers(o: CipherOutput)
    ensures AllIdentifiers(StandardVariables(o))
  {
    var prefix := EnvNames.Sanitized(o.name);
    SuffixIsName("URI");
    SuffixIsName("USERNAME");
    SuffixIsName("PASSWORD");
    SuffixIsName("SSH_PUBLIC_KEY");
    SuffixIsName("SSH_PRIVATE_KEY");
    SuffixIsName("SSH_FINGERPRINT");
    StandardIdentifier(o.name, URI, o.uri);
    StandardIdentifier(o.name, USERNAME, o.username);
    StandardIdentifier(o.name, PASSWORD, o.password);
    StandardIdentifier(o.name, SSH_PUBLIC_KEY, o.sshPublicKey);
    StandardIdentifier(o.name, SSH_PRIVATE_KEY, o.sshPrivateKey);
    StandardIdentifier(o.name, SSH_FINGERPRINT, o.sshFingerprint);
    var v := Standard(prefix, URI, o.uri);
    AllIdentifiersJoin(v, Standard(prefix, USERNAME, o.username));
    v := v + Standard(prefix, USERNAME, o.username);
    AllIdentifiersJoin(v, Standard(prefix, PASSWORD, o.password));
    v := v + Standard(prefix, PASSWORD, o.password);
    AllIdentifiersJoin(v, Standard(prefix, SSH_PUBLIC_KEY, o.sshPublicKey));
    v := v + Standard(prefix, SSH_PUBLIC_KEY, o.sshPublicKey);
    AllIdentifiersJoin(v, Standard(prefix, SSH_PRIVATE_KEY, o.sshPrivateKey));
    v := v + Standard(prefix, SSH_PRIVATE_KEY, o.sshPrivateKey);
    AllIdentifiersJoin(v, Standard(prefix, SSH_FINGERPRINT, o.sshFingerprint));
  }

  lemma NamesAreIdentifiers(o: CipherOutput)
    ensures AllIdentifiers(Variables(o))
  {
    StandardNamesAreIdentifiers(o);
    if o.fields.Some? {
      FieldNamesAreIdentifiers(o.name, o.fields.value);
      AllIdentifiersJoin(StandardVariables(o), FieldVariables(EnvNames.Sanitized(o.name), o.fields.value));
    }
  }

  predicate NoNul(vars: seq<Variable>) {
    forall i :: 0 <= i < |vars| ==> NUL !in vars[i].value
  }

  method PrintLines(vars: seq<Variable>) returns (text: Option<Bytes>)
    ensures text == if NoNul(vars) then Some(Lines(vars)) else None
  {
    var lines: Bytes := [];
    for i := 0 to |vars|
      invariant NoNul(vars[..i]) && lines == Lines(vars[..i])
    {
      assert vars[..i + 1][..i] == vars[..i];
      var quoted := ShellQuoteEnvValue(vars[i].value);
      if quoted.None? {
        return None;
      }
      lines := lines + (EXPORT + [SPACE] + vars[i].name + [EQUALS] + quoted.value + [NEWLINE]);
    }
    assert vars[..|vars|] == vars;
    return Some(lines);
  }

  /** The Env output: it fails exactly on colliding names or a NUL in a value, and otherwise a shell reads
      back exactly the item's variables. */
  method FormatEnv(o: CipherOutput) returns (text: Option<Bytes>)
    ensures text.Some? <==> Distinct(Names(Variables(o))) && NoNul(Variables(o))
    ensures text.Some? ==> ShellReads(text.value) == Some(Variables(o))
  {
    var names := CipherEnvVarNames(o);
    var ok := AllNew(names);
    if !ok {
      return None;
    }
    var vars := CipherToEnvVars(o);
    text := PrintLines(vars);
    if text.Some? {
      NamesAreIdentifiers(o);
      ShellReadsLines(vars);
    }
  }
}
