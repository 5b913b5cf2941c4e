/** The agent registry validator (src/access/agent_binding.rs, Linux): the one-pass check, the
    histories it accepts, and what stays fixed when the audit log grows. */
module AgentRegistry {
  import opened ByteStrings

  datatype Status = Enabled | Revoked
  datatype Action = Paired | Revoked

  datatype Binding = Binding(
    id: string, title: string, publicKey: string, fingerprint: string, uid: nat, gid: nat, status: Status)

  datatype Event = Event(
    actorUid: nat, bindingId: string, title: string, fingerprint: string, uid: nat, gid: nat,
    timestamp: nat, action: Action)

  /** The library codecs: unpadded URL-safe Base64, the Ed25519 public-key reader and hex SHA-256.
      A key text that is read is the canonical text of the bytes read from it. */
  datatype Codecs = Codecs(
    decode: string -> Option<string>,
    encode: string -> string,
    readKey: string -> Option<string>,
    sha256Hex: string -> string)

  const U32_MAX := 0xffff_ffff
  const MAX_TITLE := 128

  predicate Graphic(c: char) { '!' <= c <= '~' }

  predicate ValidTitle(title: string) {
    && 0 < |title| <= MAX_TITLE
    && (forall i :: 0 <= i < |title| ==> Graphic(title[i]) || title[i] == ' ')
    && exists i :: 0 <= i < |title| && Graphic(title[i])
  }

  predicate ValidOsId(id: nat) { id != 0 && id != U32_MAX }

  predicate ValidBinding(b: Binding, providerUid: nat, lib: Codecs) {
    var id, key := lib.decode(b.id), lib.readKey(b.publicKey);
    && id.Some? && key.Some?
    && |id.value| == 32 && lib.encode(id.value) == b.id
    && ValidTitle(b.title) && ValidOsId(b.uid) && ValidOsId(b.gid)
    && b.uid != providerUid
    && b.fingerprint == lib.sha256Hex(key.value)
  }

  function Audit(b: Binding, actorUid: nat, now: nat, action: Action): (e: Event) {
    Event(actorUid, b.id, b.title, b.fingerprint, b.uid, b.gid, now, action)
  }

  // ----- the declarative specification -----

  /** The actions recorded for one binding, oldest first. */
  function History(audit: seq<Event>, id: string): (actions: seq<Action>) {
    if audit == [] then []
    else
      var before, last := History(audit[..|audit| - 1], id), audit[|audit| - 1];
      if last.bindingId == id then before + [last.action] else before
  }

  function ExpectedHistory(s: Status): (actions: seq<Action>) {
    if s == Enabled then [Paired] else [Paired, Action.Revoked]
  }

  ghost predicate UniqueBindings(bindings: seq<Binding>) {
    forall i :: 0 <= i < |bindings| ==> ApartFromFirst(bindings, i, i)
  }

  /** None of the first `n` bindings clashes with binding `i`. */
  ghost predicate ApartFromFirst(bindings: seq<Binding>, n: nat, i: nat)
    requires n <= i < |bindings|
  {
    forall j :: 0 <= j < n ==> Apart(bindings[j], bindings[i])
  }

  ghost predicate Apart(a: Binding, b: Binding) {
    && a.id != b.id && a.publicKey != b.publicKey
    && (a.status == Enabled && b.status == Enabled ==> a.title != b.title)
  }

  /** The event is the snapshot of some registered binding, made by the provider. */
  ghost predicate Snapshot(bindings: seq<Binding>, e: Event, providerUid: nat) {
    exists i :: 0 <= i < |bindings| && e == Audit(bindings[i], providerUid, e.timestamp, e.action)
  }

  ghost predicate WellFormed(bindings: seq<Binding>, audit: seq<Event>, providerUid: nat, lib: Codecs) {
    && (forall i :: 0 <= i < |bindings| ==> ValidBinding(bindings[i], providerUid, lib))
    && UniqueBindings(bindings)
    && (forall k :: 0 <= k < |audit| ==> Snapshot(bindings, audit[k], providerUid))
    && forall i :: 0 <= i < |bindings| ==>
        History(audit, bindings[i].id) == ExpectedHistory(bindings[i].status)
  }

  // ----- the specification in plain terms -----

  /** A valid binding: its id is the canonical text of 32 bytes, its fingerprint that of its key, its title 1 to
      128 printable ASCII characters that are not all blanks, its user and group ids neither 0 nor 2^32 - 1, and
      its user not the provider's own. */
  lemma BindingMeaning(b: Binding, providerUid: nat, lib: Codecs)
    ensures ValidBinding(b, providerUid, lib) <==>
      && (exists raw :: lib.decode(b.id) == Some(raw) && |raw| == 32 && lib.encode(raw) == b.id)
      && (exists key :: lib.readKey(b.publicKey) == Some(key) && lib.sha256Hex(key) == b.fingerprint)
      && 1 <= |b.title| <= 128 && (forall i :: 0 <= i < |b.title| ==> ' ' <= b.title[i] <= '~')
      && (exists i :: 0 <= i < |b.title| && b.title[i] != ' ')
      && b.uid !in {0, 4294967295} && b.gid !in {0, 4294967295} && b.uid != providerUid
  {
    forall i | 0 <= i < |b.title|
      ensures ' ' <= b.title[i] <= '~' <==> Graphic(b.title[i]) || b.title[i] == ' '
    {}
  }

  /** An event is a snapshot exactly if the provider made it and it repeats what some binding says. */
  lemma SnapshotMeaning(bindings: seq<Binding>, e: Event, providerUid: nat)
    ensures Snapshot(bindings, e, providerUid) <==>
      e.actorUid == providerUid && exists i :: 0 <= i < |bindings| && Repeats(e, bindings[i])
  {
    if Snapshot(bindings, e, providerUid) {
      var i :| 0 <= i < |bindings| && e == Audit(bindings[i], providerUid, e.timestamp, e.action);
      assert Repeats(e, bindings[i]);
    }
    forall i | e.actorUid == providerUid && 0 <= i < |bindings| && Repeats(e, bindings[i])
      ensures Snapshot(bindings, e, providerUid)
    {
      assert e == Audit(bindings[i], providerUid, e.timestamp, e.action);
    }
  }

  ghost predicate Repeats(e: Event, b: Binding) {
    && e.bindingId == b.id && e.title == b.title && e.fingerprint == b.fingerprint && e.uid == b.uid && e.gid == b.gid
  }

  /** Histories list the actions recorded under an id, in the order of the log. */
  lemma {:induction false} HistoryMeaning(a: seq<Event>, b: seq<Event>, e: Event, id: string)
    ensures History([e], id) == (if e.bindingId == id then [e.action] else [])
    ensures History(a + b, id) == History(a, id) + History(b, id)
  {
    assert [e][..0] == [];
    if b == [] {
      assert a + b == a;
    } else {
      HistoryMeaning(a, b[..|b| - 1], e, id);
      assert (a + b)[..|a + b| - 1] == a + b[..|b| - 1];
    }
  }

  /** In an accepted registry a binding is enabled exactly if its history is a pairing, and revoked exactly if
      it is a pairing and a revocation. */
  lemma StatusMeaning(bindings: seq<Binding>, audit: seq<Event>, providerUid: nat, lib: Codecs, i: nat)
    requires WellFormed(bindings, audit, providerUid, lib) && i < |bindings|
    ensures bindings[i].status == Enabled <==> History(audit, bindings[i].id) == [Paired]
    ensures bindings[i].status == Status.Revoked <==> History(audit, bindings[i].id) == [Paired, Action.Revoked]
  {}

  // ----- the validator -----

  /** The histories the event loop lets through. */
  predicate Lawful(actions: seq<Action>) {
    actions == [] || actions == [Paired] || actions == [Paired, Action.Revoked]
  }

  function LastAction(actions: seq<Action>): (last: Option<Action>) {
    if actions == [] then None else Some(actions[|actions| - 1])
  }

  method ValidateRegistry(bindings: seq<Binding>, audit: seq<Event>, providerUid: nat, lib: Codecs)
    returns (ok: bool)
    ensures ok <==> WellFormed(bindings, audit, providerUid, lib)
  {
    var byId := IndexBindings(bindings, providerUid, lib);
    if byId.None? {
      return false;
    }
    forall k | 0 <= k < |audit|
      ensures Snapshot(bindings, audit[k], providerUid) <==> MatchesIndex(byId.value, audit[k], providerUid)
    {
      SnapshotByIndex(bindings, audit[k], providerUid);
    }
    var actions := ReplayAudit(byId.value, audit, providerUid);
    if actions.None? {
      if WellFormed(bindings, audit, providerUid, lib) {
        forall id { WellFormedIsLawful(bindings, audit, providerUid, lib, id); }
      }
      return false;
    }
    ok := StatusesMatch(bindings, audit, actions.value);
  }

  /** The third loop: the newest action of every binding is the one its status calls for. */
  method StatusesMatch(bindings: seq<Binding>, audit: seq<Event>, actions: map<string, Action>) returns (ok: bool)
    requires forall id :: Replayed(audit, actions, id)
    ensures ok <==> forall i :: 0 <= i < |bindings| ==>
      History(audit, bindings[i].id) == ExpectedHistory(bindings[i].status)
  {
    for i := 0 to |bindings|
      invariant forall j :: 0 <= j < i ==>
        History(audit, bindings[j].id) == ExpectedHistory(bindings[j].status)
    {
      var id := bindings[i].id;
      var expected := if bindings[i].status == Enabled then Paired else Action.Revoked;
      assert Replayed(audit, actions, id);
      if id !in actions || actions[id] != expected {
        return false;
      }
    }
    return true;
  }

  /** The first loop: valid bindings, unique ids and keys, unique titles among the enabled. */
  method IndexBindings(bindings: seq<Binding>, providerUid: nat, lib: Codecs)
    returns (byId: Option<map<string, Binding>>)
    ensures byId.Some? <==>
      (forall i :: 0 <= i < |bindings| ==> ValidBinding(bindings[i], providerUid, lib)) && UniqueBindings(bindings)
    ensures byId.Some? ==> byId.value == IndexOf(bindings, |bindings|)
  {
    FitMeaning(bindings, providerUid, lib);
    var index: map<string, Binding> := map[];
    var keys: set<string> := {};
    var titles: set<string> := {};
    for i := 0 to |bindings|
      invariant forall j :: 0 <= j < i ==> Fits(bindings, j, providerUid, lib)
      invariant index == IndexOf(bindings, i) && keys == KeysOf(bindings, i) && titles == TitlesOf(bindings, i)
    {
      var b := bindings[i];
      ClashMeaning(bindings, i, i);
      var valid := ValidBinding(b, providerUid, lib);
      var clash := b.id in index || b.publicKey in keys || (b.status == Enabled && b.title in titles);
      assert Fits(bindings, i, providerUid, lib) <==> valid && !clash;
      if !valid || clash {
        return None;
      }
      index := index[b.id := b];
      keys := keys + {b.publicKey};
      if b.status == Enabled {
        titles := titles + {b.title};
      }
    }
    return Some(index);
  }

  ghost predicate Fits(bindings: seq<Binding>, i: nat, providerUid: nat, lib: Codecs)
    requires i < |bindings|
  {
    ValidBinding(bindings[i], providerUid, lib) && ApartFromFirst(bindings, i, i)
  }

  lemma FitMeaning(bindings: seq<Binding>, providerUid: nat, lib: Codecs)
    ensures (forall i :: 0 <= i < |bindings| ==> Fits(bindings, i, providerUid, lib)) <==>
      (forall i :: 0 <= i < |bindings| ==> ValidBinding(bindings[i], providerUid, lib)) && UniqueBindings(bindings)
  {
    if forall i :: 0 <= i < |bindings| ==> Fits(bindings, i, providerUid, lib) {
      forall i | 0 <= i < |bindings|
        ensures ValidBinding(bindings[i], providerUid, lib) && ApartFromFirst(bindings, i, i)
      {
        assert Fits(bindings, i, providerUid, lib);
      }
    }
  }

  ghost function IndexOf(bindings: seq<Binding>, n: nat): (index: map<string, Binding>)
    requires n <= |bindings|
  {
    if n == 0 then map[] else IndexOf(bindings, n - 1)[bindings[n - 1].id := bindings[n - 1]]
  }

  ghost function KeysOf(bindings: seq<Binding>, n: nat): (keys: set<string>)
    requires n <= |bindings|
  {
    if n == 0 then {} else KeysOf(bindings, n - 1) + {bindings[n - 1].publicKey}
  }

  ghost function TitlesOf(bindings: seq<Binding>, n: nat): (titles: set<string>)
    requires n <= |bindings|
  {
    if n == 0 then {}
    else if bindings[n - 1].status == Enabled then TitlesOf(bindings, n - 1) + {bindings[n - 1].title}
    else TitlesOf(bindings, n - 1)
  }

  /** The three lookups find a clash exactly when some earlier binding clashes. */
  lemma {:induction false} ClashMeaning(bindings: seq<Binding>, n: nat, i: nat)
    requires n <= i < |bindings|
    ensures (bindings[i].id in IndexOf(bindings, n) || bindings[i].publicKey in KeysOf(bindings, n)
             || (bindings[i].status == Enabled && bindings[i].title in TitlesOf(bindings, n)))
      <==> !ApartFromFirst(bindings, n, i)
  {
    if n > 0 {
      ClashMeaning(bindings, n - 1, i);
      assert ApartFromFirst(bindings, n, i)
        <==> ApartFromFirst(bindings, n - 1, i) && Apart(bindings[n - 1], bindings[i]);
    }
  }

  /** The index finds each binding under its id, and nothing else. */
  lemma {:induction false} IndexFinds(bindings: seq<Binding>, n: nat, i: nat)
    requires i < n <= |bindings| && UniqueBindings(bindings)
    ensures bindings[i].id in IndexOf(bindings, n) && IndexOf(bindings, n)[bindings[i].id] == bindings[i]
  {
    if i < n - 1 {
      IndexFinds(bindings, n - 1, i);
      assert ApartFromFirst(bindings, n - 1, n - 1) && Apart(bindings[i], bindings[n - 1]);
    }
  }

  lemma {:induction false} IndexFound(bindings: seq<Binding>, n: nat, id: string) returns (i: nat)
    requires n <= |bindings| && id in IndexOf(bindings, n)
    ensures i < n && bindings[i] == IndexOf(bindings, n)[id] && bindings[i].id == id
  {
    if bindings[n - 1].id == id {
      i := n - 1;
    } else {
      i := IndexFound(bindings, n - 1, id);
    }
  }

  /** The second loop: every event is its binding's snapshot, and pairs or revokes in order. */
  method ReplayAudit(byId: map<string, Binding>, audit: seq<Event>, providerUid: nat)
    returns (actions: Option<map<string, Action>>)
    ensures actions.Some? <==>
      (forall k :: 0 <= k < |audit| ==> MatchesIndex(byId, audit[k], providerUid))
      && forall id :: Lawful(History(audit, id))
    ensures actions.Some? ==> forall id :: Replayed(audit, actions.value, id)
  {
    var last: map<string, Action> := map[];
    for k := 0 to |audit|
      invariant forall m :: 0 <= m < k ==> MatchesIndex(byId, audit[m], providerUid)
      invariant forall id :: Replayed(audit[..k], last, id)
    {
      var e := audit[k];
      if e.bindingId !in byId || e != Audit(byId[e.bindingId], providerUid, e.timestamp, e.action) {
        assert !MatchesIndex(byId, e, providerUid);
        return None;
      }
      var previous := if e.bindingId in last then Some(last[e.bindingId]) else None;
      assert Replayed(audit[..k], last, e.bindingId);
      LawfulStep(History(audit[..k], e.bindingId), e.action);
      if !((previous.None? && e.action == Paired) || (previous == Some(Paired) && e.action == Action.Revoked)) {
        StaysUnlawful(audit, k);
        return None;
      }
      ReplayStep(audit, k, last, audit[..k + 1], last[e.bindingId := e.action]);
      last := last[e.bindingId := e.action];
    }
    assert audit[..|audit|] == audit;
    forall id ensures Lawful(History(audit, id)) { assert Replayed(audit, last, id); }
    return Some(last);
  }

  ghost predicate MatchesIndex(byId: map<string, Binding>, e: Event, providerUid: nat) {
    e.bindingId in byId && e == Audit(byId[e.bindingId], providerUid, e.timestamp, e.action)
  }

  /** The binding's history so far is lawful and `last` holds its newest action. */
  ghost predicate Replayed(audit: seq<Event>, last: map<string, Action>, id: string) {
    && Lawful(History(audit, id))
    && LastAction(History(audit, id)) == if id in last then Some(last[id]) else None
  }

  lemma HistoryStep(audit: seq<Event>, k: nat, id: string)
    requires k < |audit|
    ensures audit[k].bindingId == id ==> History(audit[..k + 1], id) == History(audit[..k], id) + [audit[k].action]
    ensures audit[k].bindingId != id ==> History(audit[..k + 1], id) == History(audit[..k], id)
  {
    assert audit[..k + 1][..k] == audit[..k];
  }

  lemma ReplayStep(
      audit: seq<Event>, k: nat, last: map<string, Action>, longer: seq<Event>, newer: map<string, Action>)
    requires k < |audit| && forall id :: Replayed(audit[..k], last, id)
    requires Lawful(History(audit[..k], audit[k].bindingId) + [audit[k].action])
    requires longer == audit[..k + 1] && newer == last[audit[k].bindingId := audit[k].action]
    ensures forall id :: Replayed(longer, newer, id)
  {
    forall id ensures Replayed(longer, newer, id) {
      assert Replayed(audit[..k], last, id);
      HistoryStep(audit, k, id);
    }
  }

  lemma LawfulStep(actions: seq<Action>, action: Action)
    requires Lawful(actions)
    ensures Lawful(actions + [action]) <==>
      (LastAction(actions) == None && action == Paired)
      || (LastAction(actions) == Some(Paired) && action == Action.Revoked)
  {
    var longer := actions + [action];
    assert |longer| > 0 && longer[|longer| - 1] == action;
    assert |actions| > 0 ==> longer[0] == actions[0];
  }

  /** A history that leaves the lawful ones never comes back. */
  lemma StaysUnlawful(audit: seq<Event>, k: nat)
    requires k < |audit| && !Lawful(History(audit[..k], audit[k].bindingId) + [audit[k].action])
    ensures !Lawful(History(audit, audit[k].bindingId))
  {
    HistoryStep(audit, k, audit[k].bindingId);
    HistoryPrefix(audit, k + 1, audit[k].bindingId);
  }

  lemma SnapshotByIndex(bindings: seq<Binding>, e: Event, providerUid: nat)
    requires UniqueBindings(bindings)
    ensures Snapshot(bindings, e, providerUid) <==> MatchesIndex(IndexOf(bindings, |bindings|), e, providerUid)
  {
    var byId := IndexOf(bindings, |bindings|);
    if Snapshot(bindings, e, providerUid) {
      var i :| 0 <= i < |bindings| && e == Audit(bindings[i], providerUid, e.timestamp, e.action);
      IndexFinds(bindings, |bindings|, i);
    }
    if e.bindingId in byId {
      var i := IndexFound(bindings, |bindings|, e.bindingId);
    }
  }

  /** In a well-formed registry every history is lawful, those of unknown ids being empty. */
  lemma WellFormedIsLawful(
      bindings: seq<Binding>, audit: seq<Event>, providerUid: nat, lib: Codecs, id: string)
    requires WellFormed(bindings, audit, providerUid, lib)
    ensures Lawful(History(audit, id))
  {
    if History(audit, id) != [] {
      var k := FirstEvent(audit, id);
      assert Snapshot(bindings, audit[k], providerUid);
      var i :| 0 <= i < |bindings| && audit[k] == Audit(bindings[i], providerUid, audit[k].timestamp, audit[k].action);
      assert History(audit, bindings[i].id) == ExpectedHistory(bindings[i].status);
    }
  }

  /** Histories only grow with the log. */
  lemma {:induction false} HistoryPrefix(audit: seq<Event>, k: nat, id: string)
    requires k <= |audit|
    ensures History(audit[..k], id) <= History(audit, id)
  {
    if k < |audit| {
      HistoryPrefix(audit[..|audit| - 1], k, id);
      assert audit[..|audit| - 1][..k] == audit[..k];
    } else {
      assert audit[..k] == audit;
    }
  }

  // ----- permanence -----

  /** A read key determines its text, so two key texts share a fingerprint only on a collision. */
  ghost predicate CanonicalKeys(lib: Codecs, a: string, b: string) {
    lib.readKey(a).Some? && lib.readKey(b).Some? && lib.readKey(a) == lib.readKey(b) ==> a == b
  }

  ghost predicate Collision(lib: Codecs, a: string, b: string) {
    && lib.readKey(a).Some? && lib.readKey(b).Some? && lib.readKey(a) != lib.readKey(b)
    && lib.sha256Hex(lib.readKey(a).value) == lib.sha256Hex(lib.readKey(b).value)
  }

  /** The identity of `prior` lives on in `b`, and a revoked status with it. */
  ghost predicate Continues(prior: Binding, b: Binding) {
    && b.id == prior.id && b.title == prior.title && b.fingerprint == prior.fingerprint
    && b.uid == prior.uid && b.gid == prior.gid
    && (prior.status == Status.Revoked ==> b.status == Status.Revoked)
  }

  lemma DifferentBindings(bindings: seq<Binding>, i: nat, j: nat)
    requires UniqueBindings(bindings) && i < |bindings| && j < |bindings|
    ensures i != j ==> bindings[i].id != bindings[j].id && bindings[i].publicKey != bindings[j].publicKey
  {
    if i < j {
      assert ApartFromFirst(bindings, j, j) && Apart(bindings[i], bindings[j]);
    } else if j < i {
      assert ApartFromFirst(bindings, i, i) && Apart(bindings[j], bindings[i]);
    }
  }

  /** An event is the snapshot of the one binding that carries its id. */
  lemma SnapshotOf(bindings: seq<Binding>, e: Event, providerUid: nat, i: nat)
    requires UniqueBindings(bindings) && Snapshot(bindings, e, providerUid)
    requires i < |bindings| && e.bindingId == bindings[i].id
    ensures e == Audit(bindings[i], providerUid, e.timestamp, e.action)
  {
    var m :| 0 <= m < |bindings| && e == Audit(bindings[m], providerUid, e.timestamp, e.action);
    DifferentBindings(bindings, i, m);
  }

  /** Every binding of an accepted registry survives in every accepted registry whose log extends
      the first one's; a revoked binding stays revoked. */
  lemma BindingsSurvive(
      bindings: seq<Binding>, audit: seq<Event>, later: seq<Binding>, log: seq<Event>,
      providerUid: nat, lib: Codecs, i: nat)
    returns (j: nat)
    requires WellFormed(bindings, audit, providerUid, lib) && WellFormed(later, log, providerUid, lib)
    requires audit <= log && i < |bindings|
    ensures j < |later| && Continues(bindings[i], later[j])
  {
    var id := bindings[i].id;
    var k := FirstEvent(audit, id);
    assert log[k] == audit[k];
    assert Snapshot(bindings, audit[k], providerUid);
    SnapshotOf(bindings, audit[k], providerUid, i);
    assert Snapshot(later, log[k], providerUid);
    j :| 0 <= j < |later| && log[k] == Audit(later[j], providerUid, log[k].timestamp, log[k].action);
    RevokedStays(audit, log, id, bindings[i].status, later[j].status);
  }

  lemma RevokedStays(audit: seq<Event>, log: seq<Event>, id: string, before: Status, after: Status)
    requires audit <= log
    requires History(audit, id) == ExpectedHistory(before) && History(log, id) == ExpectedHistory(after)
    ensures before == Status.Revoked ==> after == Status.Revoked
  {
    assert log[..|audit|] == audit;
    HistoryPrefix(log, |audit|, id);
  }

  lemma {:induction false} FirstEvent(audit: seq<Event>, id: string) returns (k: nat)
    requires History(audit, id) != []
    ensures k < |audit| && audit[k].bindingId == id
  {
    if audit[|audit| - 1].bindingId == id {
      k := |audit| - 1;
    } else {
      k := FirstEvent(audit[..|audit| - 1], id);
    }
  }

  /** The key of an earlier binding is never held by a different one, collisions of SHA-256 aside:
      in particular a revoked key never comes back. */
  lemma KeysAreNotReused(
      bindings: seq<Binding>, audit: seq<Event>, later: seq<Binding>, log: seq<Event>,
      providerUid: nat, lib: Codecs, i: nat, n: nat)
    requires WellFormed(bindings, audit, providerUid, lib) && WellFormed(later, log, providerUid, lib)
    requires audit <= log && i < |bindings| && n < |later| && later[n].publicKey == bindings[i].publicKey
    requires forall j :: 0 <= j < |later| ==> CanonicalKeys(lib, later[j].publicKey, bindings[i].publicKey)
    ensures Continues(bindings[i], later[n])
      || exists j :: 0 <= j < |later| && Collision(lib, later[j].publicKey, bindings[i].publicKey)
  {
    var j := BindingsSurvive(bindings, audit, later, log, providerUid, lib, i);
    assert ValidBinding(later[j], providerUid, lib) && ValidBinding(bindings[i], providerUid, lib);
    if j != n {
      DifferentBindings(later, j, n);
      assert CanonicalKeys(lib, later[j].publicKey, bindings[i].publicKey);
      assert Collision(lib, later[j].publicKey, bindings[i].publicKey);
    }
  }

  /** Whoever lost the right to act never regains it: no enabled binding of any accepted extension
      holds the key or the id of a revoked one. */
  lemma RevocationIsPermanent(
      bindings: seq<Binding>, audit: seq<Event>, later: seq<Binding>, log: seq<Event>,
      providerUid: nat, lib: Codecs, i: nat, n: nat)
    requires WellFormed(bindings, audit, providerUid, lib) && WellFormed(later, log, providerUid, lib)
    requires audit <= log && i < |bindings| && n < |later|
    requires forall j :: 0 <= j < |later| ==> CanonicalKeys(lib, later[j].publicKey, bindings[i].publicKey)
    requires forall j :: 0 <= j < |later| ==> !Collision(lib, later[j].publicKey, bindings[i].publicKey)
    requires bindings[i].status == Status.Revoked && later[n].status == Enabled
    ensures later[n].publicKey != bindings[i].publicKey && later[n].id != bindings[i].id
  {
    var j := BindingsSurvive(bindings, audit, later, log, providerUid, lib, i);
    if later[n].publicKey == bindings[i].publicKey {
      KeysAreNotReused(bindings, audit, later, log, providerUid, lib, i, n);
    }
  }
}
