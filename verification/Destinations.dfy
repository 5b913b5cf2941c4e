/** Storage destinations (src/secret_storage.rs) and the journal name derived from them
    (src/write_journal.rs). A text is the sequence of its UTF-8 bytes, one `char` per byte. */
module Destinations {
  import opened ByteStrings

  // ----- paths -----

  /** Rust's `split(sep)`: always at least one piece. */
  function Split(s: string, sep: char): (pieces: seq<string>)
    ensures |pieces| >= 1
  {
    if s == "" then [""]
    else if s[0] == sep then [""] + Split(s[1..], sep)
    else
      var rest := Split(s[1..], sep);
      [[s[0]] + rest[0]] + rest[1..]
  }

  predicate PathChar(c: char) { 'a' <= c <= 'z' || '0' <= c <= '9' || c == '-' }

  predicate Segment(s: string) {
    && 0 < |s| <= 64 && (forall i :: 0 <= i < |s| ==> PathChar(s[i]))
    && Alphanumeric(s[0] as int) && Alphanumeric(s[|s| - 1] as int)
  }

  predicate Plain(c: char) { 'a' <= c <= 'z' || '0' <= c <= '9' }

  /** A segment has lowercase letters and digits, and hyphens inside. */
  lemma SegmentMeaning(s: string)
    ensures Segment(s) <==>
      && 1 <= |s| <= 64 && Plain(s[0]) && Plain(s[|s| - 1])
      && forall i :: 0 <= i < |s| ==> Plain(s[i]) || s[i] == '-'
  {}

  /** The pieces between the separators. */
  lemma {:induction false} SplitMeaning(s: string, sep: char)
    ensures Rejoined(Split(s, sep), sep) == s && forall i :: 0 <= i < |Split(s, sep)| ==> sep !in Split(s, sep)[i]
  {
    if s != "" {
      SplitMeaning(s[1..], sep);
      var rest := Split(s[1..], sep);
      if s[0] == sep {
        assert Split(s, sep)[1..] == rest;
      } else {
        assert Split(s, sep)[1..] == rest[1..];
        assert s == [s[0]] + s[1..];
      }
    }
  }

  function Rejoined(pieces: seq<string>, sep: char): (s: string)
    requires pieces != []
  {
    if |pieces| == 1 then pieces[0] else pieces[0] + [sep] + Rejoined(pieces[1..], sep)
  }

  predicate CanonicalPath(value: string) {
    && 0 < |value| <= 256
    && forall i :: 0 <= i < |Split(value, '/')| ==> Segment(Split(value, '/')[i])
  }

  predicate ValidId(value: string) {
    && |value| == 36
    && forall i :: 0 <= i < 36 ==>
        if i in {8, 13, 18, 23} then value[i] == '-'
        else '0' <= value[i] <= '9' || 'a' <= value[i] <= 'f'
  }

  predicate LowerHex(s: string) {
    forall i :: 0 <= i < |s| ==> '0' <= s[i] <= '9' || 'a' <= s[i] <= 'f'
  }

  /** An id has five groups of lowercase hex digits, of lengths 8, 4, 4, 4 and 12. */
  lemma ValidIdMeaning(value: string)
    ensures ValidId(value) <==> exists a, b, c, d, e :: IdGroups(value, a, b, c, d, e)
  {
    if ValidId(value) {
      var a, b, c, d, e := value[..8], value[9..13], value[14..18], value[19..23], value[24..];
      assert value == a + "-" + b + "-" + c + "-" + d + "-" + e;
      assert IdGroups(value, a, b, c, d, e);
    }
    forall a, b, c, d, e | IdGroups(value, a, b, c, d, e) ensures ValidId(value) {}
  }

  ghost predicate IdGroups(value: string, a: string, b: string, c: string, d: string, e: string) {
    && value == a + "-" + b + "-" + c + "-" + d + "-" + e
    && |a| == 8 && |b| == 4 && |c| == 4 && |d| == 4 && |e| == 12
    && LowerHex(a) && LowerHex(b) && LowerHex(c) && LowerHex(d) && LowerHex(e)
  }

  lemma {:induction false} SplitJoined(a: string, b: string, sep: char)
    ensures Split(a + [sep] + b, sep) == Split(a, sep) + Split(b, sep)
  {
    var s := a + [sep] + b;
    if a == "" {
      assert s[1..] == b;
    } else {
      assert s[1..] == a[1..] + [sep] + b;
      SplitJoined(a[1..], b, sep);
    }
  }

  /** Every character of a path is the separator or a character of one of its pieces. */
  lemma {:induction false} SplitChars(s: string, sep: char, i: nat)
    requires i < |s| && s[i] != sep
    ensures exists k :: 0 <= k < |Split(s, sep)| && s[i] in Split(s, sep)[k]
  {
    var pieces, rest := Split(s, sep), Split(s[1..], sep);
    if i == 0 {
      assert s[0] in pieces[0];
    } else {
      SplitChars(s[1..], sep, i - 1);
      var k :| 0 <= k < |rest| && s[1..][i - 1] in rest[k];
      if s[0] == sep {
        assert pieces[k + 1] == rest[k];
      } else {
        assert s[i] in pieces[k];
      }
    }
  }

  lemma CanonicalPathChars(value: string)
    requires CanonicalPath(value)
    ensures forall i :: 0 <= i < |value| ==> value[i] == '/' || PathChar(value[i])
  {
    forall i | 0 <= i < |value| && value[i] != '/' ensures PathChar(value[i]) {
      SplitChars(value, '/', i);
      var k :| 0 <= k < |Split(value, '/')| && value[i] in Split(value, '/')[k];
      assert Segment(Split(value, '/')[k]);
    }
  }

  // ----- destinations -----

  datatype Destination = Destination(accountId: string, folder: string, folderId: string, reference: string)

  predicate WellFormed(d: Destination) {
    ValidId(d.accountId) && ValidId(d.folderId) && CanonicalPath(d.folder) && CanonicalPath(d.reference)
  }

  /** The item name inside the folder, if the reference lies inside the folder. */
  function ItemName(d: Destination): (name: Option<string>) {
    if !WellFormed(d) then None
    else if !(d.folder <= d.reference) then None
    else
      var inside := d.reference[|d.folder|..];
      if !("/" <= inside) then None
      else if inside[1..] == "" then None
      else Some(inside[1..])
  }

  /** A well-formed destination has a name exactly when its reference lies below its folder; folder
      and name spell the reference, and the name is a canonical path again. */
  lemma ItemNameMeaning(d: Destination)
    requires WellFormed(d)
    ensures ItemName(d).Some? <==> d.folder + "/" <= d.reference
    ensures ItemName(d).Some? ==>
      d.folder + "/" + ItemName(d).value == d.reference && CanonicalPath(ItemName(d).value)
  {
    var prefix := d.folder + "/";
    if prefix <= d.reference {
      var name := d.reference[|prefix|..];
      assert d.reference == d.folder + "/" + name;
      assert d.reference[|d.folder|..] == "/" + name;
      SplitJoined(d.folder, name, '/');
      var pieces, whole := Split(name, '/'), Split(d.reference, '/');
      forall i | 0 <= i < |pieces| ensures Segment(pieces[i]) {
        assert pieces[i] == whole[|Split(d.folder, '/')| + i];
      }
      assert Segment(pieces[0]);
    }
  }

  // ----- the journal key -----

  /** `trim_end_matches('/')`. */
  function TrimSlashes(s: string): (t: string)
    ensures t <= s && (t == "" || t[|t| - 1] != '/')
    ensures forall i :: |t| <= i < |s| ==> s[i] == '/'
  {
    if s != "" && s[|s| - 1] == '/' then TrimSlashes(s[..|s| - 1]) else s
  }

  function KeyText(server: string, d: Destination): (text: string) {
    TrimSlashes(server) + "\0" + d.accountId + "\0" + d.folderId + "\0" + d.reference
  }

  predicate NoNul(s: string) { forall i :: 0 <= i < |s| ==> s[i] != '\0' }

  lemma {:induction false} NoSeparator(s: string, sep: char)
    requires sep !in s
    ensures Split(s, sep) == [s]
  {
    if s != "" {
      NoSeparator(s[1..], sep);
      assert s == [s[0]] + s[1..];
    }
  }

  /** What is hashed for a journal's name: server, account, folder id and reference, between NUL characters. */
  lemma JournalNameMeaning(server: string, d: Destination, sha256Hex: string -> string)
    requires '\0' !in server && '\0' !in d.accountId && '\0' !in d.folderId && '\0' !in d.reference
    ensures exists text :: (
      && Split(text, '\0') == [TrimSlashes(server), d.accountId, d.folderId, d.reference]
      && JournalName(server, d, sha256Hex) == "create-" + sha256Hex(text) + ".json")
  {
    var server' := TrimSlashes(server);
    NoSeparator(server', '\0');
    NoSeparator(d.accountId, '\0');
    NoSeparator(d.folderId, '\0');
    NoSeparator(d.reference, '\0');
    SplitJoined(server', d.accountId, '\0');
    SplitJoined(server' + "\0" + d.accountId, d.folderId, '\0');
    SplitJoined(server' + "\0" + d.accountId + "\0" + d.folderId, d.reference, '\0');
    var text := KeyText(server, d);
    assert text == server' + "\0" + d.accountId + "\0" + d.folderId + "\0" + d.reference;
    assert Split(text, '\0') == [server', d.accountId, d.folderId, d.reference];
  }

  /** The last NUL splits a text in one way only. */
  lemma LastNul(x: string, a: string, y: string, b: string)
    requires NoNul(a) && NoNul(b) && x + "\0" + a == y + "\0" + b
    ensures x == y && a == b
  {
    var left, right := x + "\0" + a, y + "\0" + b;
    assert left[|x|] == '\0' && right[|y|] == '\0';
    assert forall i :: |x| < i < |left| ==> left[i] == a[i - |x| - 1];
    assert forall i :: |y| < i < |right| ==> right[i] == b[i - |y| - 1];
    assert |x| == |y|;
    SplitEqual(x + "\0", a, y + "\0", b);
    SplitEqual(x, "\0", y, "\0");
  }

  /** Two valid destinations share a key text only if they are the same place on the same server,
      trailing slashes of the server aside. */
  lemma KeyTextInjective(s: string, d: Destination, t: string, e: Destination)
    requires WellFormed(d) && WellFormed(e)
    ensures KeyText(s, d) == KeyText(t, e) <==>
      TrimSlashes(s) == TrimSlashes(t) && d.accountId == e.accountId
      && d.folderId == e.folderId && d.reference == e.reference
  {
    if KeyText(s, d) == KeyText(t, e) {
      CanonicalPathChars(d.reference);
      CanonicalPathChars(e.reference);
      var x, y := TrimSlashes(s) + "\0" + d.accountId, TrimSlashes(t) + "\0" + e.accountId;
      LastNul(x + "\0" + d.folderId, d.reference, y + "\0" + e.folderId, e.reference);
      SplitEqual(x + "\0", d.folderId, y + "\0", e.folderId);
      SplitEqual(x, "\0", y, "\0");
      SplitEqual(TrimSlashes(s) + "\0", d.accountId, TrimSlashes(t) + "\0", e.accountId);
      SplitEqual(TrimSlashes(s), "\0", TrimSlashes(t), "\0");
    }
  }

  /** The journal's file name: `create-<digest>.json`, with SHA-256 as any function. */
  function JournalName(server: string, d: Destination, sha256Hex: string -> string): (name: string) {
    "create-" + sha256Hex(KeyText(server, d)) + ".json"
  }

  /** Attempts for one place always meet in one journal name; two places meet only on a collision. */
  lemma JournalNameIdentifies(
      s: string, d: Destination, t: string, e: Destination, sha256Hex: string -> string)
    requires WellFormed(d) && WellFormed(e)
    ensures TrimSlashes(s) == TrimSlashes(t) && d.accountId == e.accountId
            && d.folderId == e.folderId && d.reference == e.reference
      ==> JournalName(s, d, sha256Hex) == JournalName(t, e, sha256Hex)
    ensures JournalName(s, d, sha256Hex) == JournalName(t, e, sha256Hex)
      ==> (TrimSlashes(s) == TrimSlashes(t) && d.accountId == e.accountId
           && d.folderId == e.folderId && d.reference == e.reference)
          || (KeyText(s, d) != KeyText(t, e) && sha256Hex(KeyText(s, d)) == sha256Hex(KeyText(t, e)))
  {
    KeyTextInjective(s, d, t, e);
    var g, h := sha256Hex(KeyText(s, d)), sha256Hex(KeyText(t, e));
    if JournalName(s, d, sha256Hex) == JournalName(t, e, sha256Hex) {
      assert |g| == |h|;
      SplitEqual("create-" + g, ".json", "create-" + h, ".json");
      SplitEqual("create-", g, "create-", h);
    }
  }
}
