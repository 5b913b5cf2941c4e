/** Saved tokens (src/config.rs) and their refresh by one process (src/commands.rs): a keyring with a
    file to fall back on, and when the two behave as one register. */
module TokenStore {
  import opened ByteStrings

  datatype Tokens = Tokens(access: string, refresh: Option<string>, expiry: Option<int>)

  /** A stored text: tokens, or something that cannot be read as such. */
  datatype Entry = Readable(tokens: Tokens) | Garbled

  /** What the keyring and the fallback file hold. */
  datatype Stored = Stored(keyring: Option<Entry>, file: Option<Entry>)

  /** What writing the file does: `write_secure` empties it before it writes. */
  datatype FileWrite = Succeeds | Refused | Breaks

  /** What a save meets: whether the keyring answers, whether a stale file can be removed, and how a write
      of the file goes. */
  datatype Medium = Medium(keyring: bool, removable: bool, write: FileWrite)

  function Saved(s: Stored, t: Tokens, m: Medium): (r: Stored) {
    if m.keyring then Stored(Some(Readable(t)), if m.removable then None else s.file)
    else
      match m.write
      case Succeeds => s.(file := Some(Readable(t)))
      case Refused => s
      case Breaks => s.(file := Some(Garbled))
  }

  predicate SaveSucceeds(m: Medium) { m.keyring || m.write == Succeeds }

  /** What a load finds: the keyring's entry if it answers and has one, else the file's. */
  function Loaded(s: Stored, keyring: bool): (e: Option<Entry>) {
    if keyring && s.keyring.Some? then s.keyring else s.file
  }

  /** The token fields of a process. */
  datatype Memory = Memory(access: Option<string>, refresh: Option<string>, expiry: Option<int>)

  function MemoryOf(t: Tokens): (m: Memory) {
    Memory(Some(t.access), t.refresh, t.expiry)
  }

  /** The fields after a load: those stored, or the old ones if nothing readable is. */
  function Reloaded(m: Memory, s: Stored, keyring: bool): (r: Memory) {
    match Loaded(s, keyring)
    case Some(Readable(t)) => MemoryOf(t)
    case _ => m
  }

  class Store {
    var keyring: Option<Entry>
    var file: Option<Entry>

    function View(): (s: Stored)
      reads this
    {
      Stored(keyring, file)
    }
  }

  class Config {
    var accessToken: Option<string>
    var refreshToken: Option<string>
    var tokenExpiry: Option<int>
    const clientId: Option<string>

    /** The token fields in memory. */
    function Fields(): (m: Memory)
      reads this
    {
      Memory(accessToken, refreshToken, tokenExpiry)
    }

    /** Without a client id the keyring is not asked. */
    function Asking(m: Medium): (n: Medium) {
      m.(keyring := clientId.Some? && m.keyring)
    }

    function Asked(c: Circumstances): (d: Circumstances) {
      c.(saving := Asking(c.saving), loading := clientId.Some? && c.loading)
    }

    method SaveTokens(store: Store, m: Medium) returns (ok: bool)
      modifies store
      ensures accessToken.None? ==> ok && store.View() == old(store.View())
      ensures accessToken.Some? ==>
        ok == SaveSucceeds(Asking(m))
        && store.View() == Saved(old(store.View()), Tokens(accessToken.value, refreshToken, tokenExpiry), Asking(m))
      ensures accessToken.Some? && clientId.Some? && m.keyring ==>
        ok && Holds(store.keyring, Fields()) && store.file == if m.removable then None else old(store.file)
      ensures accessToken.Some? && !(clientId.Some? && m.keyring) ==>
        && store.keyring == old(store.keyring)
        && (m.write == Succeeds ==> ok && Holds(store.file, Fields()))
        && (m.write == Refused ==> !ok && store.file == old(store.file))
        && (m.write == Breaks ==> !ok && store.file == Some(Garbled))
    {
      if accessToken.None? {
        return true;
      }
      var saved := Readable(Tokens(accessToken.value, refreshToken, tokenExpiry));
      if clientId.Some? && m.keyring {
        store.keyring := Some(saved);
        if m.removable {
          store.file := None;
        }
        return true;
      }
      if m.write == Refused {
        return false;
      }
      store.file := Some(Garbled);
      if m.write == Breaks {
        return false;
      }
      store.file := Some(saved);
      return true;
    }

    /** An unreadable entry is an error; the other place is not tried then. */
    method LoadSavedTokens(store: Store, keyringAnswers: bool) returns (ok: bool)
      modifies this
      ensures Fields() == Reloaded(old(Fields()), store.View(), clientId.Some? && keyringAnswers)
      ensures ok <==> Loaded(store.View(), clientId.Some? && keyringAnswers) != Some(Garbled)
      ensures ok <==> Finds(old(Fields()), store.View(), clientId.Some? && keyringAnswers, Fields())
      ensures !ok ==> unchanged(this)
    {
      var entry := store.file;
      if clientId.Some? && keyringAnswers && store.keyring.Some? {
        entry := store.keyring;
      }
      if entry.None? {
        return true;
      }
      if entry.value.Garbled? {
        return false;
      }
      var saved := entry.value.tokens;
      accessToken, refreshToken, tokenExpiry := Some(saved.access), saved.refresh, saved.expiry;
      return true;
    }

    /** `ensure_valid_token`. `world` is what the run meets: what other processes have stored by the time
        the lock is granted, the server's answer, and which calls work. Returns the token to use and the
        refresh token presented to the server. */
    method EnsureValidToken(store: Store, now: int, world: Circumstances)
      returns (token: Option<string>, presented: Option<string>)
      modifies this, store
      ensures !NeedsRefresh(old(tokenExpiry), now) || !world.lockGranted ==>
        presented.None? && unchanged(this) && unchanged(store)
        && token == if NeedsRefresh(old(tokenExpiry), now) then None else old(accessToken)
      ensures NeedsRefresh(old(tokenExpiry), now) && world.lockGranted ==>
        Refreshed(old(Fields()), Asked(world), token, presented, Fields(), store.View())
      ensures Decides(old(Fields()), now, Asked(world), token, presented, Fields(), store.View())
    {
      DueExactly(tokenExpiry, now);
      if !NeedsRefresh(tokenExpiry, now) {
        return accessToken, None;
      }
      if !world.lockGranted {
        return None, None;
      }
      RefreshedDecides(Fields(), now, Asked(world));
      store.keyring, store.file := world.atLock.keyring, world.atLock.file;
      var loaded := LoadSavedTokens(store, world.loading);
      if !loaded {
        return None, None;
      }
      if !NeedsRefresh(tokenExpiry, world.nowLocked) {
        return accessToken, None;
      }
      if refreshToken.None? || !world.clientBuilt {
        return None, None;
      }
      presented := refreshToken;
      if world.answer.None? {
        return None, presented;
      }
      var response := world.answer.value;
      var newExpiry := ExpiryFromLifetime(world.nowAnswered, response.expiresIn);
      if newExpiry.None? {
        return None, presented;
      }
      accessToken, refreshToken, tokenExpiry := Some(response.access), response.refresh, newExpiry;
      if !world.configWritten {
        return None, presented;
      }
      var saved := SaveTokens(store, world.saving);
      return if saved then Some(response.access) else None, presented;
    }
  }

  datatype Response = Response(access: string, refresh: Option<string>, expiresIn: int)

  /** What one refreshing run meets. */
  datatype Circumstances = Circumstances(
    lockGranted: bool, atLock: Stored, loading: bool, nowLocked: int, clientBuilt: bool,
    answer: Option<Response>, nowAnswered: int, configWritten: bool, saving: Medium)

  const I64_MIN := -0x8000_0000_0000_0000
  const I64_MAX := 0x7fff_ffff_ffff_ffff

  /** `now >= expiry.saturating_sub(60)`; no expiry means no refresh. */
  predicate NeedsRefresh(expiry: Option<int>, now: int) {
    expiry.Some? && now >= if expiry.value - 60 < I64_MIN then I64_MIN else expiry.value - 60
  }

  function ExpiryFromLifetime(now: int, expiresIn: int): (expiry: Option<int>) {
    if expiresIn <= 0 || now + expiresIn > I64_MAX then None else Some(now + expiresIn)
  }

  /** The tokens of a usable answer. */
  function TokensOf(c: Circumstances): (t: Option<Tokens>) {
    if c.answer.None? || ExpiryFromLifetime(c.nowAnswered, c.answer.value.expiresIn).None? then None
    else Some(Tokens(c.answer.value.access, c.answer.value.refresh, ExpiryFromLifetime(c.nowAnswered, c.answer.value.expiresIn)))
  }

  /** What a process does behind the lock, having brought `m`: it presents the refresh token it finds stored,
      only if the tokens are due by then and an HTTP client can be built, and replaces stored tokens only by answered ones. A token comes
      out only if it is fresh, or saved. */
  ghost predicate Refreshed(
      m: Memory, c: Circumstances, token: Option<string>, presented: Option<string>, memory: Memory, after: Stored)
  {
    var found := Reloaded(m, c.atLock, c.loading);
    if Loaded(c.atLock, c.loading) == Some(Garbled) then
      token.None? && presented.None? && memory == m && after == c.atLock
    else if !NeedsRefresh(found.expiry, c.nowLocked) then
      token == found.access && presented.None? && memory == found && after == c.atLock
    else if found.refresh.None? || !c.clientBuilt then
      token.None? && presented.None? && memory == found && after == c.atLock
    else if TokensOf(c).None? then
      token.None? && presented == found.refresh && memory == found && after == c.atLock
    else
      && presented == found.refresh && memory == MemoryOf(TokensOf(c).value)
      && after == (if c.configWritten then Saved(c.atLock, TokensOf(c).value, c.saving) else c.atLock)
      && token == if c.configWritten && SaveSucceeds(c.saving) then memory.access else None
  }

  // ----- what is decided, in numbers -----

  /** The clock has reached the last minute before the expiry (the difference stops at the least 64-bit number). */
  ghost predicate Due(expiry: Option<int>, now: int) {
    expiry.Some? && now >= expiry.value - 60 && now >= -0x8000_0000_0000_0000
  }

  lemma DueExactly(expiry: Option<int>, now: int)
    ensures NeedsRefresh(expiry, now) <==> Due(expiry, now)
  {}

  /** The entry holds the tokens of these fields. */
  ghost predicate Holds(e: Option<Entry>, m: Memory) {
    && e.Some? && e.value.Readable?
    && Some(e.value.tokens.access) == m.access && e.value.tokens.refresh == m.refresh
    && e.value.tokens.expiry == m.expiry
  }

  /** A load succeeds and leaves these fields: those in the keyring, if it answers and has any, else those
      in the file, else those from before. */
  ghost predicate Finds(before: Memory, s: Stored, keyring: bool, found: Memory) {
    if keyring && s.keyring.Some? then Holds(s.keyring, found)
    else if s.file.Some? then Holds(s.file, found) else found == before
  }

  /** The answer can be used: a positive lifetime that ends within 64 bits. */
  ghost predicate Usable(c: Circumstances) {
    && c.answer.Some? && c.answer.value.expiresIn > 0
    && c.nowAnswered + c.answer.value.expiresIn <= 0x7fff_ffff_ffff_ffff
  }

  /** These are the fields that the answer calls for. */
  ghost predicate Answers(c: Circumstances, fields: Memory) {
    && c.answer.Some?
    && fields.access == Some(c.answer.value.access) && fields.refresh == c.answer.value.refresh
    && fields.expiry == Some(c.nowAnswered + c.answer.value.expiresIn)
  }

  /** Tokens that are not due are used as they are. Otherwise the refresh token that is found behind the lock
      is presented, exactly if the tokens found are still due and a client can be built. A token comes out
      only from fields that are not due, or from a usable answer that is stored. */
  ghost predicate Decides(
      before: Memory, now: int, c: Circumstances, token: Option<string>, presented: Option<string>, fields: Memory,
      after: Stored)
  {
    && (!Due(before.expiry, now) ==> token == before.access && presented.None? && fields == before)
    && (presented.Some? <==>
      Due(before.expiry, now) && c.lockGranted && c.clientBuilt && exists found :: FoundDue(before, c, found))
    && (presented.Some? ==> exists found :: FoundDue(before, c, found) && presented == found.refresh)
    && (token.Some? && presented.None? ==>
      token == fields.access && (!Due(before.expiry, now) || !Due(fields.expiry, c.nowLocked)))
    && (presented.Some? ==>
      (token.Some? <==> Usable(c) && c.configWritten && (c.saving.keyring || c.saving.write == Succeeds)))
    && (presented.Some? && token.Some? ==>
      token == fields.access && Answers(c, fields)
      && Holds(if c.saving.keyring then after.keyring else after.file, fields))
  }

  /** Behind the lock these fields are found, with a refresh token, and are due. */
  ghost predicate FoundDue(before: Memory, c: Circumstances, found: Memory) {
    Finds(before, c.atLock, c.loading, found) && Due(found.expiry, c.nowLocked) && found.refresh.Some?
  }

  /** Whatever a refreshing run does is decided so. */
  lemma RefreshedDecides(before: Memory, now: int, c: Circumstances)
    requires c.lockGranted && Due(before.expiry, now)
    ensures forall token, presented, fields, after ::
      Refreshed(before, c, token, presented, fields, after) ==> Decides(before, now, c, token, presented, fields, after)
  {
    var found := Reloaded(before, c.atLock, c.loading);
    DueExactly(found.expiry, c.nowLocked);
    assert Loaded(c.atLock, c.loading) != Some(Garbled) <==> Finds(before, c.atLock, c.loading, found);
    assert FoundDue(before, c, found) <==>
      Loaded(c.atLock, c.loading) != Some(Garbled) && NeedsRefresh(found.expiry, c.nowLocked) && found.refresh.Some?;
    forall other | FoundDue(before, c, other) ensures other == found {}
  }

  // ----- one register -----

  /** A save and what it met. */
  datatype SaveCall = SaveCall(tokens: Tokens, medium: Medium)

  function AfterSaves(s: Stored, saves: seq<SaveCall>): (r: Stored) {
    if saves == [] then s
    else
      var last := saves[|saves| - 1];
      Saved(AfterSaves(s, saves[..|saves| - 1]), last.tokens, last.medium)
  }

  /** Save `n` is the last one that succeeded. */
  ghost predicate LastSuccess(saves: seq<SaveCall>, n: nat) {
    && n < |saves| && SaveSucceeds(saves[n].medium)
    && forall i :: n < i < |saves| ==> !SaveSucceeds(saves[i].medium)
  }

  /** A write of the file broke off after save `n`. */
  ghost predicate BreaksAfter(saves: seq<SaveCall>, n: int) {
    exists i :: 0 <= i && n < i < |saves| && saves[i].medium.write == Breaks
  }

  /** The tokens of save `n` are nowhere else: not in the store before, and not among the earlier saves. */
  ghost predicate IsNew(s: Stored, saves: seq<SaveCall>, n: nat)
    requires n < |saves|
  {
    var t := saves[n].tokens;
    && s.keyring != Some(Readable(t)) && s.file != Some(Readable(t))
    && forall i :: 0 <= i < n ==> saves[i].tokens != t
  }

  /** The keyring holds nothing at first, and no save finds it answering. */
  ghost predicate KeyringNeverUsed(s: Stored, saves: seq<SaveCall>) {
    s.keyring.None? && forall i :: 0 <= i < |saves| ==> !saves[i].medium.keyring
  }

  lemma {:induction false} StoredFromSaves(s: Stored, saves: seq<SaveCall>, t: Tokens)
    requires s.keyring != Some(Readable(t)) && s.file != Some(Readable(t))
    requires forall i :: 0 <= i < |saves| ==> saves[i].tokens != t
    ensures var r := AfterSaves(s, saves);
      && r.keyring != Some(Readable(t)) && r.file != Some(Readable(t))
      && (r.keyring.None? <==> KeyringNeverUsed(s, saves))
  {
    if saves != [] {
      var before := saves[..|saves| - 1];
      StoredFromSaves(s, before, t);
      assert forall i :: 0 <= i < |before| ==> before[i] == saves[i];
    }
  }

  lemma {:induction false} AfterMoreSaves(s: Stored, saves: seq<SaveCall>, more: seq<SaveCall>)
    ensures AfterSaves(s, saves + more) == AfterSaves(AfterSaves(s, saves), more)
  {
    if more == [] {
      assert saves + more == saves;
    } else {
      AfterMoreSaves(s, saves, more[..|more| - 1]);
      assert (saves + more)[..|saves + more| - 1] == saves + more[..|more| - 1];
    }
  }

  /** Saves that fail leave the keyring alone, and the file too unless a write breaks off. */
  lemma {:induction false} AfterFailures(s: Stored, saves: seq<SaveCall>)
    requires forall i :: 0 <= i < |saves| ==> !SaveSucceeds(saves[i].medium)
    ensures AfterSaves(s, saves) == if BreaksAfter(saves, -1) then s.(file := Some(Garbled)) else s
  {
    if saves != [] {
      var before := saves[..|saves| - 1];
      AfterFailures(s, before);
      assert saves == before + [saves[|saves| - 1]];
    }
  }

  /** What is stored after any saves: what the last successful one left, the file being unreadable if a
      write broke off since. */
  lemma AfterLastSuccess(s: Stored, saves: seq<SaveCall>, n: nat)
    requires LastSuccess(saves, n)
    ensures var r := Saved(AfterSaves(s, saves[..n]), saves[n].tokens, saves[n].medium);
      AfterSaves(s, saves) == if BreaksAfter(saves, n) then r.(file := Some(Garbled)) else r
  {
    var upto, failed := saves[..n + 1], saves[n + 1..];
    assert saves == upto + failed && upto[..n] == saves[..n];
    AfterMoreSaves(s, upto, failed);
    AfterFailures(AfterSaves(s, upto), failed);
    if BreaksAfter(failed, -1) {
      var i :| 0 <= i < |failed| && failed[i].medium.write == Breaks;
      assert saves[n + 1 + i].medium.write == Breaks;
    }
    if BreaksAfter(saves, n) {
      var i :| 0 <= i && n < i < |saves| && saves[i].medium.write == Breaks;
      assert failed[i - n - 1].medium.write == Breaks;
    }
  }

  /** Keyring and file are one register exactly under two conditions. Whatever was stored before, and
      whatever each save met, a load finds what the last successful save saved if and only if it meets the
      keyring as that save did, or the keyring has never held anything; and, if that save went to the file,
      no write of the file has broken off since. */
  lemma RegisterExactly(s: Stored, saves: seq<SaveCall>, n: nat, keyring: bool)
    requires LastSuccess(saves, n) && IsNew(s, saves, n)
    ensures Loaded(AfterSaves(s, saves), keyring) == Some(Readable(saves[n].tokens)) <==>
      && (keyring == saves[n].medium.keyring || KeyringNeverUsed(s, saves))
      && (saves[n].medium.keyring || !BreaksAfter(saves, n))
  {
    AfterLastSuccess(s, saves, n);
    StoredFromSaves(s, saves[..n], saves[n].tokens);
    assert forall i :: 0 <= i < n ==> saves[..n][i] == saves[i];
    assert KeyringNeverUsed(s, saves) <==> KeyringNeverUsed(s, saves[..n]) && !saves[n].medium.keyring;
  }

  /** With a keyring that answers every call of a run or none, a load finds the last saved tokens unless a
      write of the file broke off since, and then it fails. */
  lemma {:induction false} SteadyKeyringIsARegister(s: Stored, saves: seq<SaveCall>, n: nat, keyring: bool)
    requires LastSuccess(saves, n) && forall i :: 0 <= i < |saves| ==> saves[i].medium.keyring == keyring
    ensures Loaded(AfterSaves(s, saves), keyring) ==
      if BreaksAfter(saves, n) then Some(Garbled) else Some(Readable(saves[n].tokens))
  {
    AfterLastSuccess(s, saves, n);
    assert keyring ==> forall i :: 0 <= i < |saves| ==> SaveSucceeds(saves[i].medium);
  }

  /** Older tokens come back: saved first through the keyring, then, while it did not answer, to the file. */
  lemma StaleTokensComeBack(s: Stored, first: Tokens, second: Tokens, removable: bool)
    ensures Loaded(AfterSaves(s, [SaveCall(first, Medium(true, removable, Succeeds)),
                                  SaveCall(second, Medium(false, removable, Succeeds))]), true)
      == Some(Readable(first))
  {
    var saves := [SaveCall(first, Medium(true, removable, Succeeds)), SaveCall(second, Medium(false, removable, Succeeds))];
    assert saves[..1][..0] == [];
  }

  /** Tokens are lost: saved to the file, then a later save breaks off; the next load fails. */
  lemma BrokenWriteLosesTokens(s: Stored, first: Tokens, second: Tokens, removable: bool)
    ensures Loaded(AfterSaves(s, [SaveCall(first, Medium(false, removable, Succeeds)),
                                  SaveCall(second, Medium(false, removable, Breaks))]), false)
      == Some(Garbled)
  {
    var saves := [SaveCall(first, Medium(false, removable, Succeeds)), SaveCall(second, Medium(false, removable, Breaks))];
    SteadyKeyringIsARegister(s, saves, 0, false);
    assert saves[1].medium.write == Breaks;
  }
}
