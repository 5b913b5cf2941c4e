/** `create_secret` and `reconcile_secret` of src/commands.rs, over the journal store: what must hold
    before anything is written, one request at most per run, only behind a journal that survives a
    power loss, and what each saved receipt says about the item. Both commands are runs of the write
    protocol, which they carry along as a ghost execution. */
module SecretCommands {
  import opened ByteStrings
  import opened Destinations
  import opened Journals
  import opened FileSystem
  import opened JournalStore
  import opened WriteProtocol
  import opened ProtocolProgress
  import opened JournalSteps
  import Vault = SecretStorage

  // ----- before anything is written -----

  /** What a creation run is given: arguments, keys, configuration, the first sync, the import, the fresh
      attempt id, what the human typed, and the sync after that. Whatever fails to arrive is absent. */
  datatype Request = Request(
    account: string, folder: string, reference: string, keys: Option<Vault.Key>, server: Option<string>,
    first: Option<Vault.Sync>, input: Option<Vault.SecretImport>, attempt: string, typed: Option<string>,
    latest: Option<Vault.Sync>)

  predicate AllArrive(q: Request) {
    q.keys.Some? && q.server.Some? && q.first.Some? && q.input.Some? && q.latest.Some?
  }

  /** The run may go on with destination `d`: canonical arguments, one folder of that name, a free item
      name both before and after the human typed this attempt's authorization, and a valid import. */
  ghost predicate Admitted(q: Request, d: Destination) {
    && AllArrive(q)
    && ValidId(q.account) && CanonicalPath(q.folder) && CanonicalPath(q.reference)
    && d.accountId == q.account && d.folder == q.folder && d.reference == q.reference
    && Vault.Synced(d, q.first.value, q.keys.value, true)
    && Vault.Synced(d, q.latest.value, q.keys.value, true)
    && Vault.ValidImport(q.input.value)
    && q.typed == Some("create " + q.attempt)
  }

  /** The id of the one folder of that name; it binds every destination that the sync binds. */
  method FolderId(sync: Vault.Sync, key: Vault.Key, title: string) returns (id: Option<string>)
    ensures forall d: Destination :: d.folder == title ==> (Vault.FolderBound(d, sync, key) <==> id == Some(d.folderId))
  {
    var found: seq<nat> := [];
    for i := 0 to |sync.folders|
      invariant forall j :: 0 <= j < i ==> Vault.Open(key, sync.folders[j].name).Some?
      invariant forall j :: j in found <==> 0 <= j < i && Vault.FolderNamed(key, sync.folders[j], title)
      invariant forall j, k :: 0 <= j < k < |found| ==> found[j] != found[k]
    {
      var name := Vault.Open(key, sync.folders[i].name);
      if name.None? {
        return None;
      }
      if name.value == title {
        found := found + [i];
      }
    }
    forall d: Destination | d.folder == title && Vault.FolderBound(d, sync, key)
      ensures |found| == 1 && sync.folders[found[0]].id == d.folderId
    {
      OnlyFolder(d, sync, key, found);
    }
    if |found| != 1 {
      return None;
    }
    assert found[0] in found;
    return Some(sync.folders[found[0]].id);
  }

  lemma OnlyFolder(d: Destination, sync: Vault.Sync, key: Vault.Key, found: seq<nat>)
    requires Vault.FolderBound(d, sync, key)
    requires forall j :: j in found <==> 0 <= j < |sync.folders| && Vault.FolderNamed(key, sync.folders[j], d.folder)
    requires forall j, k :: 0 <= j < k < |found| ==> found[j] != found[k]
    ensures |found| == 1 && found[0] < |sync.folders| && sync.folders[found[0]].id == d.folderId
  {
    var i :| 0 <= i < |sync.folders|
      && Vault.FolderNamed(key, sync.folders[i], d.folder) && sync.folders[i].id == d.folderId
      && forall j :: 0 <= j < |sync.folders| && j != i ==> !Vault.FolderNamed(key, sync.folders[j], d.folder);
    Vault.OnlyMember(found, i);
  }

  /** Everything that `create_secret` checks before it records the attempt. */
  method Admit(q: Request) returns (d: Option<Destination>)
    ensures d.Some? ==> Admitted(q, d.value)
    ensures d.None? ==> forall e :: !Admitted(q, e)
    ensures d.Some? ==> forall e :: Admitted(q, e) ==> e == d.value
  {
    if !ValidId(q.account) || !CanonicalPath(q.folder) || !CanonicalPath(q.reference) || !AllArrive(q) {
      return None;
    }
    var key := q.keys.value;
    var id := FolderId(q.first.value, key, q.folder);
    if id.None? {
      return None;
    }
    var place := Destination(q.account, q.folder, id.value, q.reference);
    assert forall e :: Admitted(q, e) ==> e == place;
    var free := Vault.CheckSync(place, q.first.value, key, true);
    var valid := Vault.Validate(q.input.value);
    if !free || !valid || q.typed != Some("create " + q.attempt) {
      return None;
    }
    var still := Vault.CheckSync(place, q.latest.value, key, true);
    return if still then Some(place) else None;
  }

  // ----- the run after its request -----

  /** What comes back during one creation run: the answer, the sync after it, and the fetched item. */
  datatype Exchange = Exchange(response: Response, sync: Option<Vault.Sync>, fetched: Option<Vault.Cipher>)

  /** One attempt: its journal as begun, the key and the import it was made with, what came back, and how
      a body spells a cipher's id. */
  datatype Attempt = Attempt(
    begun: WriteJournal, key: Vault.Key, input: Vault.SecretImport, exchange: Exchange,
    parse: string -> Option<string>)

  ghost function AnswerOf(a: Attempt): (answer: Answer) {
    Conclusion(a.exchange.response, a.parse)
  }

  /** The check of the created item: a sync that binds the destination, and a fetched item that carries
      exactly the import. */
  ghost predicate Verifies(a: Attempt, id: string) {
    && a.exchange.sync.Some? && Vault.Synced(a.begun.destination, a.exchange.sync.value, a.key, false)
    && a.exchange.fetched.Some?
    && Vault.Accepts(a.key, a.begun.destination, id, a.exchange.fetched.value, a.input, None)
  }

  method Check(a: Attempt, id: string) returns (ok: bool)
    ensures ok <==> Verifies(a, id)
  {
    if a.exchange.sync.None? {
      return false;
    }
    var bound := Vault.CheckSync(a.begun.destination, a.exchange.sync.value, a.key, false);
    if !bound || a.exchange.fetched.None? {
      return false;
    }
    ok := Vault.VerifyCreated(a.key, a.begun.destination, id, a.exchange.fetched.value, a.input, None);
  }

  /** The receipt is saved first as the answer calls for, then as the check does. */
  ghost function Answered(a: Attempt): (k: WriteJournal) {
    AfterAnswer(a.begun, AnswerOf(a))
  }

  ghost function Final(a: Attempt): (k: WriteJournal) {
    if AnswerOf(a).Created? && Verifies(a, AnswerOf(a).id)
    then WithReceipt(Answered(a), Answered(a).receipt.itemId, Verified) else Answered(a)
  }

  /** A journal that a run may leave at any moment after its request: the same attempt at the same place,
      an item id exactly when the item is known, `Failed` only after an explicit refusal, `Verified` only
      after the check of the item with that id. */
  ghost predicate Trustworthy(a: Attempt, k: WriteJournal) {
    && Begun(k) == Begun(a.begun)
    && Consistent(k.receipt)
    && (k.receipt.itemId.Some? ==> AnswerOf(a) == Created(k.receipt.itemId.value))
    && (k.receipt.status == Failed ==>
      a.exchange.response.Refused? && a.exchange.response.code in DEFINITE_REJECTIONS)
    && (k.receipt.status == Verified ==> Verifies(a, k.receipt.itemId.value))
  }

  /** The server names the item: a complete answer of at most a mebibyte that spells a valid id. */
  ghost predicate ServerNames(a: Attempt, id: string) {
    var r := a.exchange.response;
    && r.Success? && !r.broken && |Concat(r.chunks)| <= 1048576
    && a.parse(Concat(r.chunks)) == Some(id) && ValidId(id)
  }

  /** The server refuses the request itself. */
  predicate Refuses(a: Attempt) {
    a.exchange.response.Refused? && a.exchange.response.code in {400, 401, 403, 404, 405, 422}
  }

  /** What a run reports: the id that the server names, and `Verified` exactly if the item with that id passes
      the check, `Failed` exactly after a refusal, `Uncertain` in all other cases. */
  ghost predicate Reports(a: Attempt, r: WriteReceipt) {
    && r.attemptId == a.begun.receipt.attemptId
    && (forall id :: r.itemId == Some(id) <==> ServerNames(a, id))
    && (r.status == Verified <==> exists id :: ServerNames(a, id) && Verifies(a, id))
    && (r.status == CreatedUnverified <==> exists id :: ServerNames(a, id) && !Verifies(a, id))
    && (r.status == Failed <==> Refuses(a))
  }

  lemma AnswerMeaning(a: Attempt)
    ensures forall id :: AnswerOf(a) == Created(id) <==> ServerNames(a, id)
    ensures AnswerOf(a) == NotCreated(Failed) <==> Refuses(a)
    ensures AnswerOf(a).Created? || AnswerOf(a).status in {Failed, Uncertain}
  {}

  /** The last receipt of a run is the one it has to report. */
  lemma FinalReports(a: Attempt)
    requires IsNew(a.begun)
    ensures Reports(a, Final(a).receipt) && Final(a) == a.begun.(receipt := Final(a).receipt)
  {
    AnswerMeaning(a);
    if AnswerOf(a).Created? { assert ServerNames(a, AnswerOf(a).id); }
  }

  /** End to end: if the server names the item, the folder is still bound and the honest echo of the request
      is fetched, the receipt says `Verified` with that id. */
  lemma HonestRunIsVerified(a: Attempt, request: Vault.EncryptedCreate, id: string, r: WriteReceipt)
    requires Vault.ValidImport(a.input) && Vault.Encrypts(a.key, a.begun.destination, a.input, None, request)
    requires ServerNames(a, id)
    requires a.exchange.sync.Some? && Vault.Synced(a.begun.destination, a.exchange.sync.value, a.key, false)
    requires a.exchange.fetched == Some(Vault.Echo(request, id))
    requires Reports(a, r)
    ensures r == WriteReceipt(a.begun.receipt.attemptId, Some(id), Verified)
  {
    Vault.HonestEchoAccepted(a.key, a.begun.destination, id, a.input, None, request);
    assert ServerNames(a, id) && Verifies(a, id);
  }

  predicate IsNew(j: WriteJournal) { j.receipt.status == Uncertain && j.receipt.itemId.None? }

  lemma StagesTrustworthy(a: Attempt)
    requires IsNew(a.begun)
    ensures Trustworthy(a, a.begun) && Trustworthy(a, Answered(a)) && Trustworthy(a, Final(a))
  {
    ConclusionIsHonest(a.exchange.response, a.parse);
  }

  /** A receipt that says `Verified` is backed by the item itself: the fetched item is the one at the
      destination, and holds the import, each secret with its exact value, and nothing else. */
  lemma VerifiedIsFaithful(a: Attempt, k: WriteJournal)
    requires Vault.ValidImport(a.input) && Trustworthy(a, k) && k.receipt.status == Verified
    ensures a.exchange.fetched.Some?
    ensures Vault.Faithful(
      a.key, a.begun.destination, k.receipt.itemId.value, a.exchange.fetched.value, a.input, None)
  {
    Vault.AcceptanceMeaning(
      a.key, a.begun.destination, k.receipt.itemId.value, a.exchange.fetched.value, a.input, None);
  }

  /** Whatever a power loss in state `t` may leave under `n` is a trustworthy journal of the attempt. */
  ghost predicate SafeAfterSend(t: Fs, n: Name, a: Attempt) {
    forall c :: MayFind(t, n, c) ==> c.Some? && c.value.Whole? && Trustworthy(a, c.value.journal)
  }

  /** From its request on, a run never exposes anything but trustworthy journals. */
  ghost predicate SafeSince(trace: seq<Fs>, sentAt: nat, n: Name, a: Attempt) {
    0 < sentAt <= |trace| && forall k :: sentAt - 1 <= k < |trace| ==> SafeAfterSend(trace[k], n, a)
  }

  lemma HarmlessKeepsSafe(before: Fs, t: Fs, n: Name, k: WriteJournal, a: Attempt)
    requires n.JournalFile? && SafeAfterSend(before, n, a) && Harmless(before, t, n, k) && Trustworthy(a, k)
    ensures SafeAfterSend(t, n, a)
  {}

  /** Behind a durable journal the request may be sent. */
  lemma DurableIsSafe(trace: seq<Fs>, n: Name, a: Attempt)
    requires trace != [] && Durable(trace[|trace| - 1], n, a.begun) && IsNew(a.begun)
    ensures SafeSince(trace, |trace|, n, a)
  {
    StagesTrustworthy(a);
  }

  /** A harmless continuation of the trace by a trustworthy journal keeps the run safe. */
  lemma StaysSafe(trace: seq<Fs>, longer: seq<Fs>, sentAt: nat, n: Name, k: WriteJournal, a: Attempt)
    requires n.JournalFile? && SafeSince(trace, sentAt, n, a) && trace <= longer && Trustworthy(a, k)
    requires forall i :: |trace| <= i < |longer| ==> Harmless(trace[|trace| - 1], longer[i], n, k)
    ensures SafeSince(longer, sentAt, n, a)
  {
    forall i | sentAt - 1 <= i < |longer| ensures SafeAfterSend(longer[i], n, a) {
      if i >= |trace| {
        HarmlessKeepsSafe(trace[|trace| - 1], longer[i], n, k, a);
      } else {
        assert longer[i] == trace[i];
      }
    }
  }

  /** One `journal.save(&path)` of the run. */
  method SaveStage(
      disk: Disk, journal: WriteJournal, path: Name, io: Io, ghost sentAt: nat, ghost a: Attempt,
      ghost pid: nat, ghost ws0: seq<World>, ghost steps0: seq<Step>)
    returns (ok: bool, ghost ws: seq<World>, ghost steps: seq<Step>)
    requires disk.Valid() && path == JournalFile(FileOf(journal, disk.sha))
    requires Trustworthy(a, journal) && SafeSince(disk.trace, sentAt, path, a)
    requires Mirrors(ws0, steps0, disk.trace, disk.sha) && IsSaving(Last(ws0), pid, path, journal)
    modifies disk
    ensures disk.Valid() && old(disk.trace) <= disk.trace
    ensures SafeSince(disk.trace, sentAt, path, a)
    ensures ok <==> Saves(old(disk.fs), io)
    ensures disk.fs.rootExists == old(disk.fs.rootExists)
    ensures ok ==> Shows(disk.fs, path, journal)
    ensures Mirrors(ws, steps, disk.trace, disk.sha) && ws0 <= ws
    ensures Reaches(Last(ws0), Last(ws), pid, disk.fs, ok && !Last(ws0).procs[pid].pc.final, Checking)
  {
    ghost var before := disk.trace;
    MirrorsEnds(ws0, steps0, disk.trace, disk.sha);
    ws, steps := SavingMirrors(
      ws0, steps0, disk.trace, pid, journal, path, disk.serial, disk.inode, io, disk.sha);
    ok := disk.Save(journal, path, io);
    StaysSafe(before, disk.trace, sentAt, path, journal, a);
  }

  /** In the protocol: the run saves its journal. */
  lemma SavingMirrors(
      ws0: seq<World>, steps0: seq<Step>, trace: seq<Fs>, pid: nat, journal: WriteJournal, path: Name, t: nat,
      ino: Inode, io: Io, sha: string -> string)
    returns (ws: seq<World>, steps: seq<Step>)
    requires Mirrors(ws0, steps0, trace, sha) && IsSaving(Last(ws0), pid, path, journal)
    requires TempFile(t) !in Last(ws0).fs.names && ino !in Last(ws0).fs.files
    ensures var fs, states := Last(ws0).fs, SaveTrace(Last(ws0).fs, t, ino, journal, path, io);
      && Mirrors(ws, steps, trace + states, sha) && ws0 <= ws
      && Reaches(Last(ws0), Last(ws), pid, After(fs, states), Saves(fs, io) && !Last(ws0).procs[pid].pc.final, Checking)
  {
    ws, steps := SaveMirrors(ws0, steps0, trace, pid, t, ino, io, sha);
  }

  ghost predicate IsSaving(w: World, pid: nat, path: Name, journal: WriteJournal) {
    path.JournalFile? && pid in w.procs && w.procs[pid].file == path.file && w.procs[pid].journal == journal
    && w.procs[pid].pc.Save?
  }

  /** In the protocol: the answer arrives. */
  lemma AnswerMirrors(
      ws0: seq<World>, steps0: seq<Step>, trace: seq<Fs>, pid: nat, a: Attempt, file: string, sha: string -> string)
    returns (ws: seq<World>, steps: seq<Step>)
    requires Mirrors(ws0, steps0, trace, sha)
    requires pid in Last(ws0).procs && Last(ws0).procs[pid] == Proc(file, a.begun, Sent)
    ensures Mirrors(ws, steps, trace, sha) && ws0 <= ws && Last(ws).posts == Last(ws0).posts
    ensures Last(ws).procs == Last(ws0).procs[pid := Proc(file, Answered(a), Save(!AnswerOf(a).Created?))]
  {
    var w, answer := Last(ws0), AnswerOf(a);
    ConclusionIsHonest(a.exchange.response, a.parse);
    var r := With(w, pid, w.fs, Proc(file, Answered(a), Save(!answer.Created?))).(
      facts := if answer == NotCreated(Failed) then w.facts + {Rejected(a.begun.receipt.attemptId)} else w.facts);
    ws, steps := Still(ws0, steps0, trace, r, DoReceive(pid, answer), sha);
  }

  /** In the protocol: the item is checked. */
  lemma CheckMirrors(
      ws0: seq<World>, steps0: seq<Step>, trace: seq<Fs>, pid: nat, a: Attempt, file: string, sha: string -> string)
    returns (ws: seq<World>, steps: seq<Step>)
    requires Mirrors(ws0, steps0, trace, sha) && AnswerOf(a).Created?
    requires pid in Last(ws0).procs && Last(ws0).procs[pid] == Proc(file, Answered(a), Checking)
    ensures Mirrors(ws, steps, trace, sha) && ws0 <= ws && Last(ws).posts == Last(ws0).posts
    ensures Last(ws).procs == Last(ws0).procs[pid := Proc(file, Final(a), Save(true))]
  {
    var w, id := Last(ws0), AnswerOf(a).id;
    var ok := Verifies(a, id);
    var r := With(w, pid, w.fs, Proc(file, Final(a), Save(true))).(
      facts := if ok then w.facts + {Checked(a.begun.receipt.attemptId, id)} else w.facts);
    ws, steps := Still(ws0, steps0, trace, r, DoCheck(pid, ok), sha);
  }

  /** The run has come to the point of saving the last receipt, or has ended. */
  ghost predicate ComesTo(w: World, r: World, pid: nat, file: string, journal: Option<WriteJournal>) {
    && r.posts == w.posts
    && r.procs == if journal.Some? then w.procs[pid := Proc(file, journal.value, Save(true))] else w.procs - {pid}
  }

  /** The answer, the first receipt if an item was created, and the check of that item. Returns the journal
      to be saved last. */
  method FirstStage(
      disk: Disk, a: Attempt, path: Name, ghost sentAt: nat, firstSave: Io,
      ghost pid: nat, ghost ws0: seq<World>, ghost steps0: seq<Step>)
    returns (journal: Option<WriteJournal>, ghost ws: seq<World>, ghost steps: seq<Step>)
    requires disk.Valid() && path == JournalFile(FileOf(a.begun, disk.sha)) && IsNew(a.begun)
    requires SafeSince(disk.trace, sentAt, path, a)
    requires Mirrors(ws0, steps0, disk.trace, disk.sha)
    requires pid in Last(ws0).procs && Last(ws0).procs[pid] == Proc(path.file, a.begun, Sent)
    modifies disk
    ensures disk.Valid() && old(disk.trace) <= disk.trace
    ensures SafeSince(disk.trace, sentAt, path, a)
    ensures journal.Some? ==> journal.value == Final(a)
    ensures journal.Some? <==> (AnswerOf(a).Created? ==> Saves(old(disk.fs), firstSave))
    ensures disk.fs.rootExists == old(disk.fs.rootExists)
    ensures Mirrors(ws, steps, disk.trace, disk.sha) && ws0 <= ws
    ensures ComesTo(Last(ws0), Last(ws), pid, path.file, journal)
  {
    StagesTrustworthy(a);
    var answer := CreateCipher(a.exchange.response, a.parse);
    ws, steps := AnswerMirrors(ws0, steps0, disk.trace, pid, a, path.file, disk.sha);
    var k := AfterAnswer(a.begun, answer);
    if answer.NotCreated? {
      return Some(k), ws, steps;
    }
    var saved;
    saved, ws, steps := SaveStage(disk, k, path, firstSave, sentAt, a, pid, ws, steps);
    if !saved {
      return None, ws, steps;
    }
    var verified := Check(a, answer.id);
    ws, steps := CheckMirrors(ws, steps, disk.trace, pid, a, path.file, disk.sha);
    return Some(if verified then WithReceipt(k, k.receipt.itemId, Verified) else k), ws, steps;
  }

  lemma FinalPlace(a: Attempt, sha: string -> string)
    requires IsNew(a.begun)
    ensures Trustworthy(a, Final(a)) && FileOf(Final(a), sha) == FileOf(a.begun, sha)
  {
    StagesTrustworthy(a);
  }

  /** The last save works, and so does the first, if there is one. */
  ghost predicate SavesWork(a: Attempt, firstSave: Io, lastSave: Io) {
    ((exists id :: ServerNames(a, id)) ==> SaveWorks(firstSave)) && SaveWorks(lastSave)
  }

  /** The rest of the run, from the request on: the answer, the first receipt, the check, the last one. */
  method Settle(
      disk: Disk, a: Attempt, path: Name, ghost sentAt: nat, firstSave: Io, lastSave: Io,
      ghost pid: nat, ghost ws0: seq<World>, ghost steps0: seq<Step>)
    returns (receipt: Option<WriteReceipt>, ghost ws: seq<World>, ghost steps: seq<Step>)
    requires disk.Valid() && path == JournalFile(FileOf(a.begun, disk.sha)) && IsNew(a.begun)
    requires SafeSince(disk.trace, sentAt, path, a)
    requires Mirrors(ws0, steps0, disk.trace, disk.sha)
    requires pid in Last(ws0).procs && Last(ws0).procs[pid] == Proc(path.file, a.begun, Sent)
    modifies disk
    ensures disk.Valid() && old(disk.trace) <= disk.trace
    ensures SafeSince(disk.trace, sentAt, path, a)
    ensures receipt.Some? <==> old(disk.fs.rootExists) && SavesWork(a, firstSave, lastSave)
    ensures receipt.Some? ==> Reports(a, receipt.value) && Shows(disk.fs, path, a.begun.(receipt := receipt.value))
    ensures Mirrors(ws, steps, disk.trace, disk.sha) && ws0 <= ws
    ensures ComesTo(Last(ws0), Last(ws), pid, path.file, None)
  {
    var journal;
    journal, ws, steps := FirstStage(disk, a, path, sentAt, firstSave, pid, ws0, steps0);
    AnswerMeaning(a);
    if journal.None? {
      return None, ws, steps;
    }
    FinalPlace(a, disk.sha);
    FinalReports(a);
    var saved;
    saved, ws, steps := SaveStage(disk, journal.value, path, lastSave, sentAt, a, pid, ws, steps);
    assert Last(ws).procs == Last(ws0).procs - {pid};
    return if saved then Some(journal.value.receipt) else None, ws, steps;
  }

  /** The attempt of an admitted request at its place. */
  function AttemptAt(q: Request, d: Destination, e: Exchange, parse: string -> Option<string>): (a: Attempt)
    requires AllArrive(q)
  {
    Attempt(
      WriteJournal(q.server.value, d, Vault.Selectors(q.input.value), WriteReceipt(q.attempt, None, Uncertain)),
      q.keys.value, q.input.value, e, parse)
  }

  /** The attempt is that of the request: its journal names the configured server, the place, a selector for
      each value of the import, and this attempt without an outcome. */
  ghost predicate IsAttemptAt(q: Request, d: Destination, e: Exchange, parse: string -> Option<string>, a: Attempt) {
    && q.server == Some(a.begun.server) && a.begun.destination == d
    && q.keys == Some(a.key) && q.input == Some(a.input) && a.exchange == e && a.parse == parse
    && Vault.Ordered(a.begun.fields)
    && (forall selector :: selector in a.begun.fields <==> Vault.Selects(a.input, selector))
    && a.begun.receipt == WriteReceipt(q.attempt, None, Uncertain)
  }

  lemma AttemptIsAtPlace(q: Request, d: Destination, e: Exchange, parse: string -> Option<string>)
    requires AllArrive(q)
    ensures IsAttemptAt(q, d, e, parse, AttemptAt(q, d, e, parse))
  {
    Vault.SelectorsMeaning(q.input.value);
  }

  /** In the protocol: a run starts. */
  lemma StartMirrors(
      ws0: seq<World>, steps0: seq<Step>, trace: seq<Fs>, pid: nat, journal: WriteJournal, sha: string -> string)
    returns (ws: seq<World>, steps: seq<Step>)
    requires Mirrors(ws0, steps0, trace, sha) && pid !in Last(ws0).procs && IsNew(journal)
    ensures Mirrors(ws, steps, trace, sha) && ws0 <= ws
    ensures Last(ws) == With(Last(ws0), pid, Last(ws0).fs, Proc(FileOf(journal, sha), journal, Starting))
  {
    var r := With(Last(ws0), pid, Last(ws0).fs, Proc(FileOf(journal, sha), journal, Starting));
    ws, steps := Still(ws0, steps0, trace, r, StartCreate(pid, journal), sha);
  }

  function PostOf(j: WriteJournal): (post: Post) {
    Post(j.server, j.destination, j.receipt.attemptId)
  }

  /** In the protocol: the request is sent. */
  lemma SendMirrors(
      ws0: seq<World>, steps0: seq<Step>, trace: seq<Fs>, pid: nat, p: Proc, sha: string -> string)
    returns (ws: seq<World>, steps: seq<Step>)
    requires Mirrors(ws0, steps0, trace, sha)
    requires pid in Last(ws0).procs && Last(ws0).procs[pid] == p && p.pc == Ready
    ensures Mirrors(ws, steps, trace, sha) && ws0 <= ws
    ensures Last(ws).posts == Last(ws0).posts + [PostOf(p.journal)]
    ensures Last(ws).procs == Last(ws0).procs[pid := p.(pc := Sent)]
  {
    var w := Last(ws0);
    var r := With(w, pid, w.fs, p.(pc := Sent)).(posts := w.posts + [PostOf(p.journal)]);
    ws, steps := Still(ws0, steps0, trace, r, DoSend(pid), sha);
  }

  /** In the protocol: a run starts and publishes its journal, or ends. */
  lemma PublishMirrors(
      ws0: seq<World>, steps0: seq<Step>, trace: seq<Fs>, pid: nat, journal: WriteJournal, t: nat, ino: Inode, io: Io,
      sha: string -> string)
    returns (ws: seq<World>, steps: seq<Step>)
    requires Mirrors(ws0, steps0, trace, sha) && pid !in Last(ws0).procs && IsNew(journal)
    requires TempFile(t) !in Last(ws0).fs.names && ino !in Last(ws0).fs.files
    ensures var fs, file := Last(ws0).fs, FileOf(journal, sha);
      && Mirrors(ws, steps, trace + BeginTrace(fs, t, ino, journal, JournalFile(file), io), sha) && ws0 <= ws
      && Last(ws).procs == (if Begins(fs, journal, JournalFile(file), io)
        then Last(ws0).procs[pid := Proc(file, journal, Ready)] else Last(ws0).procs)
      && Last(ws).posts == Last(ws0).posts
  {
    var p := Proc(FileOf(journal, sha), journal, Starting);
    ws, steps := StartMirrors(ws0, steps0, trace, pid, journal, sha);
    ws, steps := BeginMirrors(ws, steps, trace, pid, journal, t, ino, io, sha);
    Leaves(Last(ws0).procs, pid, p, p.(pc := Ready));
  }

  /** And sends its request. */
  lemma PostMirrors(
      ws0: seq<World>, steps0: seq<Step>, trace: seq<Fs>, pid: nat, journal: WriteJournal, t: nat, ino: Inode, io: Io,
      sha: string -> string)
    returns (ws: seq<World>, steps: seq<Step>)
    requires Mirrors(ws0, steps0, trace, sha) && pid !in Last(ws0).procs && IsNew(journal)
    requires TempFile(t) !in Last(ws0).fs.names && ino !in Last(ws0).fs.files
    ensures var fs, file := Last(ws0).fs, FileOf(journal, sha);
      && Mirrors(ws, steps, trace + BeginTrace(fs, t, ino, journal, JournalFile(file), io), sha)
      && ws0 <= ws && Requested(Last(ws0), Last(ws), pid, journal, file, Begins(fs, journal, JournalFile(file), io))
  {
    var fs, n := Last(ws0).fs, JournalFile(FileOf(journal, sha));
    var p := Proc(n.file, journal, Ready);
    ws, steps := PublishMirrors(ws0, steps0, trace, pid, journal, t, ino, io, sha);
    if Begins(fs, journal, n, io) {
      ws, steps := SendMirrors(ws, steps, trace + BeginTrace(fs, t, ino, journal, n, io), pid, p, sha);
      Leaves(Last(ws0).procs, pid, p, p.(pc := Sent));
    }
  }

  /** The process waits for the answer to its one request, or has ended without one. */
  ghost predicate Requested(w: World, r: World, pid: nat, journal: WriteJournal, file: string, sent: bool) {
    && r.procs == (if sent then w.procs[pid := Proc(file, journal, Sent)] else w.procs)
    && r.posts == w.posts + if sent then [PostOf(journal)] else []
  }

  lemma Leaves(procs: map<nat, Proc>, pid: nat, p: Proc, q: Proc)
    requires pid !in procs
    ensures procs[pid := p] - {pid} == procs && procs[pid := p][pid := q] - {pid} == procs
    ensures procs[pid := p][pid := q] == procs[pid := q]
  {}

  /** The request was sent behind a durable journal, and nothing untrustworthy is exposed since. */
  ghost predicate SentBehind(trace: seq<Fs>, sentAt: nat, n: Name, a: Attempt) {
    SafeSince(trace, sentAt, n, a) && Durable(trace[sentAt - 1], n, a.begun)
  }

  /** What an attempt does: it sends its request exactly if its journal is published, and a receipt that it
      reports is the one on the disk. */
  ghost predicate Attempts(
      before: Fs, trace: seq<Fs>, fs: Fs, n: Name, a: Attempt, begin: Io, firstSave: Io, lastSave: Io, sent: bool,
      sentAt: nat, receipt: Option<WriteReceipt>)
  {
    && (sent <==> Begins(before, a.begun, n, begin))
    && (sent ==> SentBehind(trace, sentAt, n, a))
    && (receipt.Some? <==> sent && SavesWork(a, firstSave, lastSave))
    && (receipt.Some? ==> Reports(a, receipt.value) && Shows(fs, n, a.begun.(receipt := receipt.value)))
  }

  /** The journal of an attempt is published, and its request is sent. */
  method BeginStage(
      disk: Disk, a: Attempt, begin: Io, ghost pid: nat, ghost ws0: seq<World>, ghost steps0: seq<Step>)
    returns (path: Option<Name>, ghost ws: seq<World>, ghost steps: seq<Step>)
    requires disk.Valid() && IsNew(a.begun)
    requires Mirrors(ws0, steps0, disk.trace, disk.sha) && pid !in Last(ws0).procs
    modifies disk
    ensures disk.Valid() && old(disk.trace) <= disk.trace
    ensures path == if Begins(old(disk.fs), a.begun, JournalFile(FileOf(a.begun, disk.sha)), begin)
      then Some(JournalFile(FileOf(a.begun, disk.sha))) else None
    ensures path.Some? ==> disk.fs.rootExists && SentBehind(disk.trace, |disk.trace|, path.value, a)
    ensures Mirrors(ws, steps, disk.trace, disk.sha) && ws0 <= ws
    ensures Requested(Last(ws0), Last(ws), pid, a.begun, FileOf(a.begun, disk.sha), path.Some?)
  {
    MirrorsEnds(ws0, steps0, disk.trace, disk.sha);
    ws, steps := PostMirrors(
      ws0, steps0, disk.trace, pid, a.begun, disk.serial, disk.inode, begin, disk.sha);
    path := disk.Begin(a.begun, begin);
    if path.Some? { DurableIsSafe(disk.trace, path.value, a); }
  }

  /** An attempt: its journal, and if that is durable, its request and what follows. */
  method Attempted(
      disk: Disk, a: Attempt, begin: Io, firstSave: Io, lastSave: Io,
      ghost pid: nat, ghost ws0: seq<World>, ghost steps0: seq<Step>)
    returns (
      begun: bool, ghost sentAt: nat, receipt: Option<WriteReceipt>, ghost ws: seq<World>, ghost steps: seq<Step>)
    requires disk.Valid() && IsNew(a.begun)
    requires Mirrors(ws0, steps0, disk.trace, disk.sha) && pid !in Last(ws0).procs
    modifies disk
    ensures disk.Valid() && old(disk.trace) <= disk.trace
    ensures Attempts(
      old(disk.fs), disk.trace, disk.fs, JournalFile(FileOf(a.begun, disk.sha)), a, begin, firstSave, lastSave, begun,
      sentAt, receipt)
    ensures Mirrors(ws, steps, disk.trace, disk.sha) && ws0 <= ws && Last(ws).procs == Last(ws0).procs
    ensures Last(ws).posts == Last(ws0).posts + if begun then [PostOf(a.begun)] else []
  {
    sentAt, receipt := 0, None;
    var path;
    path, ws, steps := BeginStage(disk, a, begin, pid, ws0, steps0);
    begun := path.Some?;
    if !begun {
      return;
    }
    sentAt := |disk.trace|;
    Leaves(Last(ws0).procs, pid, Proc(path.value.file, a.begun, Sent), Proc(path.value.file, a.begun, Sent));
    receipt, ws, steps := Settle(disk, a, path.value, sentAt, firstSave, lastSave, pid, ws, steps);
  }

  /** One creation run. `sent` is the single request, if it is sent; `sentAt` is then the length of the
      disk's history. The run continues an execution of the protocol by a process of its own, which sends
      that request and ends. */
  method CreateSecret(
      disk: Disk, q: Request, r: Vault.Randomness, e: Exchange, parse: string -> Option<string>,
      begin: Io, firstSave: Io, lastSave: Io, ghost pid: nat, ghost ws0: seq<World>, ghost steps0: seq<Step>)
    returns (
      sent: Option<Vault.EncryptedCreate>, place: Option<Destination>, ghost sentAt: nat, receipt: Option<WriteReceipt>,
      ghost ws: seq<World>, ghost steps: seq<Step>)
    requires disk.Valid()
    requires Mirrors(ws0, steps0, disk.trace, disk.sha) && pid !in Last(ws0).procs
    modifies disk
    ensures Mirrors(ws, steps, disk.trace, disk.sha) && ws0 <= ws && Last(ws).procs == Last(ws0).procs
    ensures disk.Valid() && old(disk.trace) <= disk.trace
    ensures place.Some? ==> Admitted(q, place.value)
    ensures place.None? ==> sent.None? && forall d :: !Admitted(q, d)
    ensures place.Some? ==> (
      var a := AttemptAt(q, place.value, e, parse);
      && IsAttemptAt(q, place.value, e, parse, a)
      && Attempts(
        old(disk.fs), disk.trace, disk.fs, JournalFile(FileOf(a.begun, disk.sha)), a, begin, firstSave, lastSave,
        sent.Some?, sentAt, receipt)
      && Last(ws).posts == Last(ws0).posts + if sent.Some? then [PostOf(a.begun)] else [])
    ensures place.None? ==> receipt.None? && unchanged(disk) && Last(ws).posts == Last(ws0).posts
    ensures sent.Some? ==> Vault.Encrypts(q.keys.value, place.value, q.input.value, None, sent.value)
  {
    sent, sentAt, receipt := None, 0, None;
    ws, steps := ws0, steps0;
    place := Admit(q);
    if place.None? {
      return;
    }
    var request := Vault.EncryptCreate(q.keys.value, place.value, q.input.value, None, r);
    var a := AttemptAt(q, place.value, e, parse);
    AttemptIsAtPlace(q, place.value, e, parse);
    var begun;
    begun, sentAt, receipt, ws, steps := Attempted(disk, a, begin, firstSave, lastSave, pid, ws0, steps0);
    sent := if begun then request else None;
  }

  // ----- reconciling -----

  /** What a reconcile run finds: the configured server, the keys, a sync and the item it asked for. */
  datatype Findings = Findings(
    server: Option<string>, keys: Option<Vault.Key>, sync: Option<Vault.Sync>, item: Option<Vault.Cipher>)

  /** The item may be bound to the journal: the journal's own server, its destination unchanged, the item
      there, and every recorded selector readable. */
  ghost predicate Bindable(j: WriteJournal, id: string, f: Findings) {
    && f.server == Some(j.server) && f.keys.Some?
    && f.sync.Some? && Vault.Synced(j.destination, f.sync.value, f.keys.value, false)
    && f.item.Some?
    && var key := Vault.CheckItem(j.destination, f.item.value, id, f.keys.value);
    && key.Some?
    && forall i :: 0 <= i < |j.fields| ==> Vault.Select(f.item.value, key.value, j.fields[i]).Some?
  }

  method CheckBinding(j: WriteJournal, id: string, f: Findings) returns (ok: bool)
    ensures ok <==> Bindable(j, id, f)
  {
    if f.server != Some(j.server) || f.keys.None? || f.sync.None? {
      return false;
    }
    var bound := Vault.CheckSync(j.destination, f.sync.value, f.keys.value, false);
    if !bound || f.item.None? {
      return false;
    }
    var key := Vault.CheckItem(j.destination, f.item.value, id, f.keys.value);
    if key.None? {
      return false;
    }
    for i := 0 to |j.fields|
      invariant forall k :: 0 <= k < i ==> Vault.Select(f.item.value, key.value, j.fields[k]).Some?
    {
      var value := Vault.SelectedValue(f.item.value, key.value, j.fields[i]);
      if value.None? {
        return false;
      }
    }
    return true;
  }

  /** An item that passed the creation check can be bound by reconciling, as long as it and its folder
      stay as they were. */
  lemma VerifiedIsBindable(a: Attempt, id: string, f: Findings)
    requires a.begun.fields == Vault.Selectors(a.input) && Verifies(a, id)
    requires f == Findings(Some(a.begun.server), Some(a.key), a.exchange.sync, a.exchange.fetched)
    ensures Bindable(a.begun, id, f)
  {
    var c, key := f.item.value, Vault.CheckItem(a.begun.destination, f.item.value, id, a.key).value;
    var all := Vault.Carried(a.input, None);
    Vault.SelectorsMeaning(a.input);
    forall selector | selector in a.begun.fields ensures Vault.Select(c, key, selector).Some? {
      if Vault.SelectsField(a.input.fields, selector) {
        var i :| 0 <= i < |a.input.fields| && selector == Vault.CUSTOM + a.input.fields[i].name;
        assert Vault.ReadsBack(c, key, all[i]);
      }
    }
  }

  /** In the protocol: a run reads the journal that it is to bind, and has checked the item. */
  lemma ReadMirrors(
      ws0: seq<World>, steps0: seq<Step>, trace: seq<Fs>, pid: nat, before: WriteJournal, file: string, id: string,
      sha: string -> string)
    returns (ws: seq<World>, steps: seq<Step>)
    requires Mirrors(ws0, steps0, trace, sha) && pid !in Last(ws0).procs
    requires Shows(Last(ws0).fs, JournalFile(file), before) && Reconciled(before, id).Some?
    ensures Mirrors(ws, steps, trace, sha) && ws0 <= ws
    ensures Last(ws) == With(Last(ws0), pid, Last(ws0).fs, Proc(file, Reconciled(before, id).value, Save(true)))
  {
    var w := Last(ws0);
    var r := With(w, pid, w.fs, Proc(file, before, Reading(id)));
    ws, steps := Still(ws0, steps0, trace, r, StartReconcile(pid, file, id), sha);
    var read := With(w, pid, w.fs, Proc(file, Reconciled(before, id).value, Save(true)));
    ws, steps := Still(ws, steps, trace, read, DoRead(pid), sha);
  }

  /** In the protocol: a run reads its journal, binds it and saves it, and ends. */
  lemma BindMirrors(
      ws0: seq<World>, steps0: seq<Step>, trace: seq<Fs>, pid: nat, before: WriteJournal, file: string, id: string,
      t: nat, ino: Inode, io: Io, sha: string -> string)
    returns (ws: seq<World>, steps: seq<Step>)
    requires Mirrors(ws0, steps0, trace, sha) && pid !in Last(ws0).procs
    requires Shows(Last(ws0).fs, JournalFile(file), before) && Reconciled(before, id).Some?
    requires TempFile(t) !in Last(ws0).fs.names && ino !in Last(ws0).fs.files
    ensures var states := SaveTrace(Last(ws0).fs, t, ino, Reconciled(before, id).value, JournalFile(file), io);
      Mirrors(ws, steps, trace + states, sha)
    ensures ws0 <= ws && Last(ws).procs == Last(ws0).procs && Last(ws).posts == Last(ws0).posts
  {
    var p := Proc(file, Reconciled(before, id).value, Save(true));
    ws, steps := ReadMirrors(ws0, steps0, trace, pid, before, file, id, sha);
    ws, steps := SaveMirrors(ws, steps, trace, pid, t, ino, io, sha);
    Leaves(Last(ws0).procs, pid, p, p);
  }

  /** The journal that binds the item is saved. */
  method SaveBound(
      disk: Disk, path: Name, before: WriteJournal, id: string, io: Io,
      ghost pid: nat, ghost ws0: seq<World>, ghost steps0: seq<Step>)
    returns (ok: bool, ghost ws: seq<World>, ghost steps: seq<Step>)
    requires disk.Valid() && path == JournalFile(FileOf(before, disk.sha))
    requires Shows(disk.fs, path, before) && Reconciled(before, id).Some?
    requires Mirrors(ws0, steps0, disk.trace, disk.sha) && pid !in Last(ws0).procs
    modifies disk
    ensures disk.Valid() && old(disk.trace) <= disk.trace
    ensures forall k :: |old(disk.trace)| <= k < |disk.trace| ==>
      Harmless(old(disk.fs), disk.trace[k], path, Reconciled(before, id).value)
    ensures ok <==> Saves(old(disk.fs), io)
    ensures ok ==> Shows(disk.fs, path, Reconciled(before, id).value)
    ensures Shows(disk.fs, path, before) || Shows(disk.fs, path, Reconciled(before, id).value)
    ensures Mirrors(ws, steps, disk.trace, disk.sha) && ws0 <= ws
    ensures Last(ws).procs == Last(ws0).procs && Last(ws).posts == Last(ws0).posts
  {
    ghost var first := disk.fs;
    MirrorsEnds(ws0, steps0, disk.trace, disk.sha);
    ws, steps := BindMirrors(
      ws0, steps0, disk.trace, pid, before, path.file, id, disk.serial, disk.inode, io, disk.sha);
    ok := disk.Save(Reconciled(before, id).value, path, io);
    if !ok && SameName(first, disk.fs, path) { SameNameShows(first, disk.fs, path, before, disk.sha); }
  }

  /** One reconcile run. It continues an execution of the protocol by a process of its own, which never
      sends a creation request. */
  method ReconcileSecret(
      disk: Disk, path: Name, id: Option<string>, f: Findings, io: Io,
      ghost pid: nat, ghost ws0: seq<World>, ghost steps0: seq<Step>)
    returns (receipt: Option<WriteReceipt>, ghost ws: seq<World>, ghost steps: seq<Step>)
    requires disk.Valid() && path.JournalFile?
    requires Mirrors(ws0, steps0, disk.trace, disk.sha) && pid !in Last(ws0).procs
    modifies disk
    ensures disk.Valid() && old(disk.trace) <= disk.trace
    ensures Mirrors(ws, steps, disk.trace, disk.sha) && ws0 <= ws
    ensures Last(ws).procs == Last(ws0).procs && Last(ws).posts == Last(ws0).posts
    ensures forall before, k, c ::
      Shows(old(disk.fs), path, before) && |old(disk.trace)| <= k < |disk.trace| && MayFind(disk.trace[k], path, c)
      ==> MayFind(old(disk.fs), path, c) || LeftByRun(before, id, f, c)
    ensures forall before ::
      Shows(old(disk.fs), path, before) ==> Outcome(before, disk.fs, path, id, f, receipt)
    ensures receipt.Some? && id.Some? ==> forall before :: Shows(old(disk.fs), path, before) ==>
      Binds(before, id.value, receipt.value) && Shows(disk.fs, path, before.(receipt := receipt.value))
    ensures receipt.Some? <==>
      && path in old(disk.fs).names
      && (id.Some? ==> Saves(old(disk.fs), io))
      && forall before :: Shows(old(disk.fs), path, before) ==> Accepted(disk, before, id, f)
  {
    ws, steps := ws0, steps0;
    receipt := None;
    var read := disk.Read(path);
    if read.None? {
      return;
    }
    var journal := read.value;
    if id.None? {
      receipt := Some(journal.receipt);
      return;
    }
    var next := Reconciled(journal, id.value);
    var checked := CheckBinding(journal, id.value, f);
    if next.None? || !checked {
      return;
    }
    var saved;
    saved, ws, steps := SaveBound(disk, path, journal, id.value, io, pid, ws0, steps0);
    if saved {
      receipt := Some(next.value.receipt);
    }
  }

  /** The run accepts the journal it read, and the item, if one is given. */
  ghost predicate Accepted(disk: Disk, j: WriteJournal, id: Option<string>, f: Findings) {
    disk.size(j) <= MAX_JOURNAL && (id.Some? ==> Reconciled(j, id.value).Some? && Bindable(j, id.value, f))
  }

  /** The receipt names the item, of the same attempt, and is verified only if it was. */
  ghost predicate Binds(before: WriteJournal, id: string, r: WriteReceipt) {
    && ValidId(id) && (before.receipt.itemId.None? || before.receipt.itemId == Some(id))
    && r.attemptId == before.receipt.attemptId && r.itemId == Some(id)
    && r.status == if before.receipt.status == Verified then Verified else CreatedUnverified
  }

  /** After a power loss the name holds the journal of a run that bound the item. */
  ghost predicate LeftByRun(before: WriteJournal, id: Option<string>, f: Findings, c: Option<Content>) {
    && id.Some? && Bindable(before, id.value, f)
    && Reconciled(before, id.value).Some? && c == Some(Whole(Reconciled(before, id.value).value))
  }

  /** The run left the journal as it was or bound to the item, and a receipt that it reports is the one
      it left. */
  ghost predicate Outcome(
      before: WriteJournal, fs: Fs, path: Name, id: Option<string>, f: Findings, receipt: Option<WriteReceipt>)
  {
    || (Shows(fs, path, before) && (receipt.Some? ==> id.None? && receipt.value == before.receipt))
    || (id.Some? && Bindable(before, id.value, f) && Reconciled(before, id.value).Some?
        && Shows(fs, path, Reconciled(before, id.value).value)
        && (receipt.Some? ==> receipt.value == Reconciled(before, id.value).value.receipt))
  }

  /** So a reconcile run is one of the runs that only ever advance the journal, one after the other. */
  lemma OutcomeAdvances(
      before: WriteJournal, fs: Fs, path: Name, id: Option<string>, f: Findings, receipt: Option<WriteReceipt>)
    returns (after: WriteJournal)
    requires Outcome(before, fs, path, id, f, receipt)
    ensures ReconcileRun(before, after) && Shows(fs, path, after) && Advances(before, after)
  {
    after := if Shows(fs, path, before) then before else Reconciled(before, id.value).value;
    assert ReconcileRuns([before, after]);
    ReconcileRunsAdvance([before, after]);
  }

  lemma SameNameShows(a: Fs, b: Fs, n: Name, j: WriteJournal, sha: string -> string)
    requires Sound(a, sha) && SameName(a, b, n) && Shows(a, n, j)
    ensures Shows(b, n, j)
  {
    assert SoundName(a, n, sha);
  }
}
