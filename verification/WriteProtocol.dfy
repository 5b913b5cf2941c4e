/** Any number of creation and reconcile runs over one journal directory, interleaved system call by
    system call, with processes dying and the power failing at any moment: at most one creation
    request is ever sent for a place, and each is sent behind a durable journal. */
module WriteProtocol {
  import opened ByteStrings
  import opened Destinations
  import opened Journals
  import opened FileSystem

  // ----- states -----

  datatype Use = Publishing | Saving(last: bool)

  datatype Pc =
    | Starting                                   // `begin` not entered
    | Rooted                                     // the directory exists
    | Drafting(use: Use, temp: nat, ino: Inode)  // temporary file open, perhaps partly written
    | Drafted(use: Use, temp: nat, ino: Inode)   // written completely
    | Synced(use: Use, temp: nat, ino: Inode)    // and synced
    | Published                                  // the journal has its name
    | Listed                                     // the directory is synced
    | Ready                                      // its parent is synced: `begin` returned
    | Sent                                       // the request is out
    | Save(final: bool)                          // about to save the receipt
    | Renamed(final: bool)                       // saved, directory not yet synced
    | Checking                                   // first receipt saved, item being checked
    | Reading(id: string)                        // a reconcile run

  /** A run: the journal file it works on and the journal it holds in memory. */
  datatype Proc = Proc(file: string, journal: WriteJournal, pc: Pc)

  datatype Post = Post(server: string, destination: Destination, attempt: string)

  /** What has come to be known: a server rejected an attempt explicitly, or the item with this id passed
      the check of the attempt. */
  datatype Fact = Rejected(attempt: string) | Checked(attempt: string, id: string)

  datatype World = World(fs: Fs, procs: map<nat, Proc>, posts: seq<Post>, facts: set<Fact>)

  datatype Step =
    | StartCreate(pid: nat, journal: WriteJournal)
    | StartReconcile(pid: nat, file: string, id: string)
    | DoMakeRoot(pid: nat)
    | DoOpen(pid: nat, temp: nat, ino: Inode)
    | DoWrite(pid: nat, whole: bool)
    | DoSyncFile(pid: nat)
    | DoPublish(pid: nat)
    | DoRename(pid: nat)
    | DoSyncRoot(pid: nat)
    | DoSyncParent(pid: nat)
    | DoSend(pid: nat)
    | DoReceive(pid: nat, answer: Answer)
    | DoCheck(pid: nat, ok: bool)
    | DoRead(pid: nat)
    | Die(pid: nat, cleanup: bool)
    | PowerFails(after: Fs)

  ghost function PostFile(p: Post, sha: string -> string): (file: string) {
    JournalName(p.server, p.destination, sha)
  }

  predicate HasDraft(pc: Pc) { pc.Drafting? || pc.Drafted? || pc.Synced? }

  function Draft(pc: Pc): (ino: Option<Inode>) {
    if HasDraft(pc) then Some(pc.ino) else None
  }

  // ----- steps -----

  ghost function With(w: World, pid: nat, fs: Fs, p: Proc): (r: World) {
    w.(fs := fs, procs := w.procs[pid := p])
  }

  ghost predicate Next(w: World, r: World, step: Step, sha: string -> string) {
    match step
    case StartCreate(pid, journal) => StartsCreate(w, r, pid, journal, sha)
    case StartReconcile(pid, file, id) => StartsReconcile(w, r, pid, file, id)
    case DoMakeRoot(pid) => MakesRoot(w, r, pid)
    case DoOpen(pid, temp, ino) => Opens(w, r, pid, temp, ino)
    case DoWrite(pid, whole) => Writes(w, r, pid, whole)
    case DoSyncFile(pid) => SyncsFile(w, r, pid)
    case DoPublish(pid) => Publishes(w, r, pid)
    case DoRename(pid) => Renames(w, r, pid)
    case DoSyncRoot(pid) => SyncsRoot(w, r, pid)
    case DoSyncParent(pid) => SyncsParent(w, r, pid)
    case DoSend(pid) => Sends(w, r, pid)
    case DoReceive(pid, answer) => Receives(w, r, pid, answer)
    case DoCheck(pid, ok) => Checks(w, r, pid, ok)
    case DoRead(pid) => Reads(w, r, pid)
    case Die(pid, cleanup) => Dies(w, r, pid, cleanup)
    case PowerFails(after) => LosesPower(w, r, after)
  }

  ghost predicate StartsCreate(w: World, r: World, pid: nat, journal: WriteJournal, sha: string -> string) {
    && pid !in w.procs && journal.receipt.status == Uncertain && journal.receipt.itemId.None?
    && r == With(w, pid, w.fs, Proc(FileOf(journal, sha), journal, Starting))
  }

  ghost predicate StartsReconcile(w: World, r: World, pid: nat, file: string, id: string) {
    exists journal :: pid !in w.procs && r == With(w, pid, w.fs, Proc(file, journal, Reading(id)))
  }

  ghost predicate MakesRoot(w: World, r: World, pid: nat) {
    && pid in w.procs && w.procs[pid].pc == Starting
    && r == With(w, pid, MakeRoot(w.fs), w.procs[pid].(pc := Rooted))
  }

  ghost predicate Opens(w: World, r: World, pid: nat, t: nat, ino: Inode) {
    && pid in w.procs && w.fs.rootExists && TempFile(t) !in w.fs.names && ino !in w.fs.files
    && var p := w.procs[pid];
    && (p.pc == Rooted || p.pc.Save?)
    && r == With(w, pid, OpenTemp(w.fs, t, ino),
                 p.(pc := Drafting(if p.pc.Save? then Saving(p.pc.final) else Publishing, t, ino)))
  }

  ghost predicate Writes(w: World, r: World, pid: nat, whole: bool) {
    && pid in w.procs && w.procs[pid].pc.Drafting?
    && var p := w.procs[pid];
    && r == With(w, pid, Write(w.fs, p.pc.ino, if whole then Whole(p.journal) else Torn),
                 if whole then p.(pc := Drafted(p.pc.use, p.pc.temp, p.pc.ino)) else p)
  }

  ghost predicate SyncsFile(w: World, r: World, pid: nat) {
    && pid in w.procs && w.procs[pid].pc.Drafted? && w.procs[pid].pc.ino in w.fs.files
    && var p := w.procs[pid];
    && r == With(w, pid, SyncFile(w.fs, p.pc.ino), p.(pc := Synced(p.pc.use, p.pc.temp, p.pc.ino)))
  }

  ghost predicate Publishes(w: World, r: World, pid: nat) {
    && pid in w.procs && w.procs[pid].pc.Synced? && w.procs[pid].pc.use == Publishing
    && var p := w.procs[pid];
    && w.fs.rootExists && JournalFile(p.file) !in w.fs.names
    && r == With(w, pid, Install(w.fs, p.pc.temp, JournalFile(p.file), p.pc.ino), p.(pc := Published))
  }

  ghost predicate Renames(w: World, r: World, pid: nat) {
    && pid in w.procs && w.procs[pid].pc.Synced? && w.procs[pid].pc.use.Saving?
    && var p := w.procs[pid];
    && w.fs.rootExists
    && r == With(w, pid, Install(w.fs, p.pc.temp, JournalFile(p.file), p.pc.ino), p.(pc := Renamed(p.pc.use.last)))
  }

  ghost predicate SyncsRoot(w: World, r: World, pid: nat) {
    && pid in w.procs
    && var p := w.procs[pid];
    || (p.pc == Published && r == With(w, pid, SyncRoot(w.fs), p.(pc := Listed)))
    || (p.pc == Renamed(false) && r == With(w, pid, SyncRoot(w.fs), p.(pc := Checking)))
    || (p.pc == Renamed(true) && r == w.(fs := SyncRoot(w.fs), procs := w.procs - {pid}))
  }

  ghost predicate SyncsParent(w: World, r: World, pid: nat) {
    && pid in w.procs && w.procs[pid].pc == Listed
    && r == With(w, pid, SyncParent(w.fs), w.procs[pid].(pc := Ready))
  }

  ghost predicate Sends(w: World, r: World, pid: nat) {
    && pid in w.procs && w.procs[pid].pc == Ready
    && var p := w.procs[pid];
    && r == With(w, pid, w.fs, p.(pc := Sent)).(
         posts := w.posts + [Post(p.journal.server, p.journal.destination, p.journal.receipt.attemptId)])
  }

  ghost predicate Receives(w: World, r: World, pid: nat, a: Answer) {
    && pid in w.procs && w.procs[pid].pc == Sent && (a.NotCreated? ==> a.status in {Failed, Uncertain})
    && var p := w.procs[pid];
    && r == With(w, pid, w.fs, p.(journal := AfterAnswer(p.journal, a), pc := Save(!a.Created?))).(
         facts := if a == NotCreated(Failed) then w.facts + {Rejected(p.journal.receipt.attemptId)} else w.facts)
  }

  ghost predicate Checks(w: World, r: World, pid: nat, ok: bool) {
    && pid in w.procs && w.procs[pid].pc == Checking
    && var p := w.procs[pid];
    && r == With(w, pid, w.fs,
         p.(journal := if ok then WithReceipt(p.journal, p.journal.receipt.itemId, Verified) else p.journal,
            pc := Save(true))).(
         facts := if ok && p.journal.receipt.itemId.Some?
           then w.facts + {Checked(p.journal.receipt.attemptId, p.journal.receipt.itemId.value)} else w.facts)
  }

  ghost predicate Reads(w: World, r: World, pid: nat) {
    && pid in w.procs && w.procs[pid].pc.Reading?
    && var p, n := w.procs[pid], JournalFile(w.procs[pid].file);
    && n in w.fs.names && w.fs.names[n] in w.fs.files && w.fs.files[w.fs.names[n]].content.Whole?
    && var next := Reconciled(w.fs.files[w.fs.names[n]].content.journal, p.pc.id);
    && next.Some? && r == With(w, pid, w.fs, p.(journal := next.value, pc := Save(true)))
  }

  ghost predicate Dies(w: World, r: World, pid: nat, cleanup: bool) {
    && pid in w.procs
    && var p := w.procs[pid];
    && r == w.(fs := if cleanup && HasDraft(p.pc) then Unlink(w.fs, p.pc.temp) else w.fs, procs := w.procs - {pid})
  }

  ghost predicate LosesPower(w: World, r: World, after: Fs) {
    PowerLoss(w.fs, after) && r == w.(fs := after, procs := map[])
  }

  // ----- the invariant -----

  /** The run owns the right to send the request of its journal file. */
  predicate Claims(pc: Pc) { pc == Published || pc == Listed || pc == Ready }

  /** The run holds a later version of the journal that stands under its file name. */
  predicate Holds(pc: Pc) {
    || Claims(pc) || pc == Sent || pc.Save? || pc.Renamed? || pc == Checking
    || (HasDraft(pc) && pc.use.Saving?)
  }

  /** A receipt that may be saved: consistent, failed only if rejected, and verified only if checked. */
  ghost predicate Honest(j: WriteJournal, facts: set<Fact>) {
    && Consistent(j.receipt)
    && (j.receipt.status == Failed ==> Rejected(j.receipt.attemptId) in facts)
    && (j.receipt.status == Verified ==> Checked(j.receipt.attemptId, j.receipt.itemId.value) in facts)
  }

  ghost predicate Carries(fs: Fs, i: Inode, attempt: WriteJournal, facts: set<Fact>) {
    && i in fs.files && fs.files[i].content.Whole?
    && Begun(fs.files[i].content.journal) == attempt
    && Honest(fs.files[i].content.journal, facts)
  }

  /** Every file that may come to stand under the name is an honest journal of one attempt: the same place,
      fields and attempt id. */
  ghost predicate OneAttempt(fs: Fs, file: string, attempt: WriteJournal, facts: set<Fact>) {
    forall i :: Some(i) in Candidates(fs, JournalFile(file)) ==> Carries(fs, i, attempt, facts)
  }

  ghost predicate NameOk(fs: Fs, file: string, facts: set<Fact>) {
    exists attempt :: OneAttempt(fs, file, attempt, facts)
  }

  ghost predicate DraftOk(fs: Fs, p: Proc) {
    && (HasDraft(p.pc) ==> p.pc.ino in fs.files && Private(fs, p.pc.ino))
    && (p.pc.Drafted? ==> fs.files[p.pc.ino].content == Whole(p.journal))
    && (p.pc.Synced? ==> fs.files[p.pc.ino] == File(Whole(p.journal), true))
  }

  ghost predicate ProcOk(fs: Fs, p: Proc, facts: set<Fact>, sha: string -> string) {
    && DraftOk(fs, p)
    && (!p.pc.Reading? ==> FileOf(p.journal, sha) == p.file && Honest(p.journal, facts))
    && (!Holds(p.pc) || Claims(p.pc) || p.pc == Sent ==>
          p.pc.Reading? || (p.journal.receipt.status == Uncertain && p.journal.receipt.itemId.None?))
    && (p.pc == Checking || p.pc == Renamed(false) || p.pc == Save(false) || (HasDraft(p.pc) && p.pc.use == Saving(false))
        ==> p.journal.receipt.itemId.Some?)
    && (Holds(p.pc) ==>
          JournalFile(p.file) in fs.names && OneAttempt(fs, p.file, Begun(p.journal), facts))
    && (p.pc == Listed ==> Settled(fs, JournalFile(p.file)))
    && (p.pc == Ready ==> Anchored(fs, JournalFile(p.file)))
  }

  ghost predicate Compatible(p: Proc, q: Proc) {
    && (Draft(p.pc).Some? ==> Draft(p.pc) != Draft(q.pc))
    && (Claims(p.pc) && Claims(q.pc) ==> p.file != q.file)
  }

  ghost predicate PostOk(w: World, k: nat, sha: string -> string)
    requires k < |w.posts|
  {
    && Anchored(w.fs, JournalFile(PostFile(w.posts[k], sha)))
    && (forall pid :: pid in w.procs && Claims(w.procs[pid].pc) ==> w.procs[pid].file != PostFile(w.posts[k], sha))
    && forall m :: 0 <= m < k ==> PostFile(w.posts[m], sha) != PostFile(w.posts[k], sha)
  }

  ghost predicate Inv(w: World, sha: string -> string) {
    && Sound(w.fs, sha)
    && (forall file :: NameOk(w.fs, file, w.facts))
    && (forall pid :: pid in w.procs ==> ProcOk(w.fs, w.procs[pid], w.facts, sha))
    && (forall x, y :: x in w.procs && y in w.procs && x != y ==> Compatible(w.procs[x], w.procs[y]))
    && forall k :: 0 <= k < |w.posts| ==> PostOk(w, k, sha)
  }

  // ----- what one run's call does to the others -----

  /** From `a` to `b`, files other than `own` and all journal names are kept, and no journal name gains
      a candidate other than `own` under `file`. */
  ghost predicate Calm(a: Fs, b: Fs, own: Option<Inode>, file: Option<string>) {
    && (forall i :: i in a.files && Some(i) != own ==> i in b.files && b.files[i] == a.files[i])
    && forall f: string :: CalmName(a, b, f, own, file)
  }

  ghost predicate CalmName(a: Fs, b: Fs, f: string, own: Option<Inode>, file: Option<string>) {
    && (JournalFile(f) in a.names ==> JournalFile(f) in b.names)
    && (Settled(a, JournalFile(f)) ==> Settled(b, JournalFile(f)))
    && (Anchored(a, JournalFile(f)) ==> Anchored(b, JournalFile(f)))
    && forall i :: Some(i) in Candidates(b, JournalFile(f)) ==>
        Some(i) in Candidates(a, JournalFile(f)) || (Some(i) == own && Some(f) == file)
  }

  lemma MakeRootCalm(fs: Fs, sha: string -> string)
    requires Sound(fs, sha)
    ensures Calm(fs, MakeRoot(fs), None, None)
  {
    forall f: string ensures CalmName(fs, MakeRoot(fs), f, None, None) { assert SoundName(fs, JournalFile(f), sha); }
  }

  lemma OpenTempCalm(fs: Fs, t: nat, ino: Inode)
    requires ino !in fs.files
    ensures Calm(fs, OpenTemp(fs, t, ino), Some(ino), None)
  {}

  lemma WriteCalm(fs: Fs, ino: Inode, content: Content)
    ensures Calm(fs, Write(fs, ino, content), Some(ino), None)
  {}

  lemma SyncFileCalm(fs: Fs, ino: Inode)
    requires ino in fs.files
    ensures Calm(fs, SyncFile(fs, ino), Some(ino), None)
  {}

  lemma InstallCalm(fs: Fs, t: nat, file: string, ino: Inode)
    ensures Calm(fs, Install(fs, t, JournalFile(file), ino), Some(ino), Some(file))
    ensures JournalFile(file) in Install(fs, t, JournalFile(file), ino).names
    ensures forall i: Inode :: i in fs.files ==>
      i in Install(fs, t, JournalFile(file), ino).files && Install(fs, t, JournalFile(file), ino).files[i] == fs.files[i]
  {}

  lemma UnlinkCalm(fs: Fs, t: nat)
    ensures Calm(fs, Unlink(fs, t), None, None)
  {}

  lemma SyncRootCalm(fs: Fs, sha: string -> string)
    requires Sound(fs, sha)
    ensures Calm(fs, SyncRoot(fs), None, None)
  {
    SyncRootSound(fs, sha);
    forall f: string ensures CalmName(fs, SyncRoot(fs), f, None, None) { assert SoundName(fs, JournalFile(f), sha); }
  }

  lemma SyncParentCalm(fs: Fs)
    ensures Calm(fs, SyncParent(fs), None, None)
  {}

  /** A run that does not own the file, and whose name gains at most its own attempt, is not disturbed. */
  lemma ProcFrame(
      a: Fs, b: Fs, own: Option<Inode>, file: Option<string>, p: Proc, facts: set<Fact>, more: set<Fact>,
      sha: string -> string)
    requires ProcOk(a, p, facts, sha) && Calm(a, b, own, file) && facts <= more
    requires own.Some? ==> Draft(p.pc) != own && Private(a, own.value)
    requires own.Some? && file == Some(p.file) && Holds(p.pc) ==>
      Carries(b, own.value, Begun(p.journal), more)
    ensures ProcOk(b, p, more, sha)
  {
    assert CalmName(a, b, p.file, own, file);
    if HasDraft(p.pc) {
      assert Some(p.pc.ino) != own;
      forall f: string ensures Some(p.pc.ino) !in Candidates(b, JournalFile(f)) {
        assert CalmName(a, b, f, own, file);
        assert Some(p.pc.ino) !in Candidates(a, JournalFile(f));
      }
    }
    if Holds(p.pc) {
      OneAttemptFrame(a, b, own, file, p.file, Begun(p.journal), facts, more);
    }
  }

  lemma OneAttemptFrame(
      a: Fs, b: Fs, own: Option<Inode>, file: Option<string>, f: string, attempt: WriteJournal,
      facts: set<Fact>, more: set<Fact>)
    requires OneAttempt(a, f, attempt, facts) && Calm(a, b, own, file) && facts <= more
    requires own.Some? ==> Private(a, own.value)
    requires own.Some? && Some(f) == file ==> Carries(b, own.value, attempt, more)
    ensures OneAttempt(b, f, attempt, more)
  {
    assert CalmName(a, b, f, own, file);
    forall i | Some(i) in Candidates(b, JournalFile(f)) ensures Carries(b, i, attempt, more) {
      if Some(i) in Candidates(a, JournalFile(f)) { assert Carries(a, i, attempt, facts); }
    }
  }

  // ----- every step keeps the invariant -----

  /** What a step must show: its own run is in order, and it disturbs no other one. */
  ghost predicate Orderly(
      w: World, r: World, pid: nat, own: Option<Inode>, file: Option<string>, attempt: WriteJournal, sha: string -> string)
  {
    && Sound(r.fs, sha) && Calm(w.fs, r.fs, own, file)
    && r.posts == w.posts && w.facts <= r.facts
    && (forall q :: q in r.procs && q != pid ==> q in w.procs && r.procs[q] == w.procs[q])
    && (own.Some? ==> OwnFile(w, pid, own.value))
    && (file.Some? ==> own.Some? && OwnName(w, r, pid, own.value, file.value, attempt))
    && (pid in r.procs ==> ProcOk(r.fs, r.procs[pid], r.facts, sha) && FitsIn(w, pid, r.procs[pid], sha))
  }

  /** The file is no journal's and no other run's. */
  ghost predicate OwnFile(w: World, pid: nat, ino: Inode) {
    Private(w.fs, ino) && forall q :: q in w.procs && q != pid ==> Draft(w.procs[q].pc) != Some(ino)
  }

  /** The file now stands under a name whose other holders work on the same attempt. */
  ghost predicate OwnName(w: World, r: World, pid: nat, ino: Inode, file: string, attempt: WriteJournal) {
    && OneAttempt(w.fs, file, attempt, w.facts) && Carries(r.fs, ino, attempt, r.facts)
    && forall q :: q in w.procs && q != pid && Holds(w.procs[q].pc) && w.procs[q].file == file ==>
        Begun(w.procs[q].journal) == attempt
  }

  ghost predicate FitsIn(w: World, pid: nat, p: Proc, sha: string -> string) {
    && (forall q :: q in w.procs && q != pid ==> Compatible(p, w.procs[q]) && Compatible(w.procs[q], p))
    && (Claims(p.pc) ==> forall k :: 0 <= k < |w.posts| ==> PostFile(w.posts[k], sha) != p.file)
  }

  lemma OrderlyKeeps(
      w: World, r: World, pid: nat, own: Option<Inode>, file: Option<string>, attempt: WriteJournal, sha: string -> string)
    requires Inv(w, sha) && Orderly(w, r, pid, own, file, attempt, sha)
    ensures Inv(r, sha)
  {
    forall f: string ensures NameOk(r.fs, f, r.facts) {
      assert NameOk(w.fs, f, w.facts);
      var a :| OneAttempt(w.fs, f, a, w.facts);
      var kept := if file == Some(f) then attempt else a;
      OneAttemptFrame(w.fs, r.fs, own, file, f, kept, w.facts, r.facts);
    }
    forall q | q in r.procs ensures ProcOk(r.fs, r.procs[q], r.facts, sha) {
      if q != pid {
        ProcFrame(w.fs, r.fs, own, file, w.procs[q], w.facts, r.facts, sha);
      }
    }
    forall x, y | x in r.procs && y in r.procs && x != y ensures Compatible(r.procs[x], r.procs[y]) {}
    forall k | 0 <= k < |r.posts| ensures PostOk(r, k, sha) {
      assert PostOk(w, k, sha);
      assert CalmName(w.fs, r.fs, PostFile(w.posts[k], sha), own, file);
    }
  }

  /** Stands for the attempt where no journal name is touched. */
  const UNBEGUN := WriteJournal("", Destination("", "", "", ""), [], WriteReceipt("", None, Uncertain))

  lemma FreshPrivate(fs: Fs, ino: Inode, sha: string -> string)
    requires Sound(fs, sha) && ino !in fs.files
    ensures Private(fs, ino)
  {
    forall f: string ensures Some(ino) !in Candidates(fs, JournalFile(f)) { assert SoundName(fs, JournalFile(f), sha); }
  }

  /** Runs that hold the journal under one name work on one attempt. */
  lemma SameAttempt(fs: Fs, file: string, a: WriteJournal, b: WriteJournal, facts: set<Fact>, sha: string -> string)
    requires Sound(fs, sha) && JournalFile(file) in fs.names
    requires OneAttempt(fs, file, a, facts) && OneAttempt(fs, file, b, facts)
    ensures a == b
  {
    assert SoundName(fs, JournalFile(file), sha);
    var i := fs.names[JournalFile(file)];
    assert Carries(fs, i, a, facts) && Carries(fs, i, b, facts);
  }

  lemma CalmRefl(fs: Fs)
    ensures Calm(fs, fs, None, None)
  {}

  /** Steps that leave the disk alone, on a run that keeps its file and does not start to claim it. */
  lemma QuietStep(w: World, r: World, pid: nat, p: Proc, sha: string -> string)
    requires Inv(w, sha) && r.fs == w.fs && r.posts == w.posts && w.facts <= r.facts
    requires r.procs == w.procs[pid := p] && Draft(p.pc).None? && !Claims(p.pc)
    requires ProcOk(r.fs, p, r.facts, sha)
    ensures Inv(r, sha)
  {
    CalmRefl(w.fs);
    assert Orderly(w, r, pid, None, None, UNBEGUN, sha);
    OrderlyKeeps(w, r, pid, None, None, UNBEGUN, sha);
  }

  lemma CreateKeeps(w: World, r: World, pid: nat, journal: WriteJournal, sha: string -> string)
    requires Inv(w, sha) && StartsCreate(w, r, pid, journal, sha)
    ensures Inv(r, sha)
  {
    QuietStep(w, r, pid, r.procs[pid], sha);
  }

  lemma ReconcileKeeps(w: World, r: World, pid: nat, file: string, id: string, sha: string -> string)
    requires Inv(w, sha) && StartsReconcile(w, r, pid, file, id)
    ensures Inv(r, sha)
  {
    QuietStep(w, r, pid, r.procs[pid], sha);
  }

  lemma MakeRootKeeps(w: World, r: World, pid: nat, sha: string -> string)
    requires Inv(w, sha) && MakesRoot(w, r, pid)
    ensures Inv(r, sha)
  {
    MakeRootSound(w.fs, sha);
    MakeRootCalm(w.fs, sha);
    ProcFrame(w.fs, r.fs, None, None, w.procs[pid], w.facts, w.facts, sha);
    DirectoryStep(w, r, pid, Rooted, sha);
  }

  /** Steps on the run's own temporary file. */
  lemma DraftStep(w: World, r: World, pid: nat, ino: Inode, p: Proc, sha: string -> string)
    requires Inv(w, sha) && r == With(w, pid, r.fs, p) && Draft(p.pc) == Some(ino)
    requires Sound(r.fs, sha) && Calm(w.fs, r.fs, Some(ino), None) && OwnFile(w, pid, ino)
    requires ProcOk(r.fs, p, w.facts, sha)
    ensures Inv(r, sha)
  {
    assert FitsIn(w, pid, p, sha);
    assert Orderly(w, r, pid, Some(ino), None, UNBEGUN, sha);
    OrderlyKeeps(w, r, pid, Some(ino), None, UNBEGUN, sha);
  }

  lemma OpenProcOk(fs: Fs, p: Proc, t: nat, ino: Inode, facts: set<Fact>, sha: string -> string)
    requires Sound(fs, sha) && ProcOk(fs, p, facts, sha) && (p.pc == Rooted || p.pc.Save?)
    requires fs.rootExists && ino !in fs.files
    ensures ProcOk(OpenTemp(fs, t, ino), p.(pc := Drafting(if p.pc.Save? then Saving(p.pc.final) else Publishing, t, ino)),
                   facts, sha)
  {
    OpenTempSound(fs, t, ino, sha);
    OpenTempCalm(fs, t, ino);
    FreshPrivate(fs, ino, sha);
    ProcFrame(fs, OpenTemp(fs, t, ino), Some(ino), None, p, facts, facts, sha);
  }

  lemma OpenKeeps(w: World, r: World, pid: nat, temp: nat, ino: Inode, sha: string -> string)
    requires Inv(w, sha) && Opens(w, r, pid, temp, ino)
    ensures Inv(r, sha)
  {
    var p := w.procs[pid];
    OpenProcOk(w.fs, p, temp, ino, w.facts, sha);
    OpenTempSound(w.fs, temp, ino, sha);
    OpenTempCalm(w.fs, temp, ino);
    FreshPrivate(w.fs, ino, sha);
    forall q | q in w.procs && q != pid ensures Draft(w.procs[q].pc) != Some(ino) {
      assert ProcOk(w.fs, w.procs[q], w.facts, sha);
    }
    DraftStep(w, r, pid, ino, r.procs[pid], sha);
  }

  /** A change of its own draft leaves a run everything else it relies on. */
  lemma OwnDraft(a: Fs, b: Fs, p: Proc, facts: set<Fact>, sha: string -> string)
    requires ProcOk(a, p, facts, sha) && HasDraft(p.pc) && Calm(a, b, Some(p.pc.ino), None)
    ensures Private(b, p.pc.ino)
    ensures Holds(p.pc) ==>
      JournalFile(p.file) in b.names && OneAttempt(b, p.file, Begun(p.journal), facts)
  {
    forall f: string ensures Some(p.pc.ino) !in Candidates(b, JournalFile(f)) {
      assert CalmName(a, b, f, Some(p.pc.ino), None);
      assert Some(p.pc.ino) !in Candidates(a, JournalFile(f));
    }
    if Holds(p.pc) {
      assert CalmName(a, b, p.file, Some(p.pc.ino), None);
      OneAttemptFrame(a, b, Some(p.pc.ino), None, p.file, Begun(p.journal), facts, facts);
    }
  }

  lemma OwnDraftIsOwn(w: World, pid: nat, sha: string -> string)
    requires Inv(w, sha) && pid in w.procs && HasDraft(w.procs[pid].pc)
    ensures OwnFile(w, pid, w.procs[pid].pc.ino)
  {
    assert ProcOk(w.fs, w.procs[pid], w.facts, sha);
    forall q | q in w.procs && q != pid ensures Draft(w.procs[q].pc) != Some(w.procs[pid].pc.ino) {
      assert Compatible(w.procs[pid], w.procs[q]);
    }
  }

  lemma WriteKeeps(w: World, r: World, pid: nat, whole: bool, sha: string -> string)
    requires Inv(w, sha) && Writes(w, r, pid, whole)
    ensures Inv(r, sha)
  {
    var p := w.procs[pid];
    var content := if whole then Whole(p.journal) else Torn;
    OwnDraftIsOwn(w, pid, sha);
    WriteSound(w.fs, p.pc.ino, content, sha);
    WriteCalm(w.fs, p.pc.ino, content);
    OwnDraft(w.fs, r.fs, p, w.facts, sha);
    DraftStep(w, r, pid, p.pc.ino, r.procs[pid], sha);
  }

  lemma SyncFileKeeps(w: World, r: World, pid: nat, sha: string -> string)
    requires Inv(w, sha) && SyncsFile(w, r, pid)
    ensures Inv(r, sha)
  {
    var p := w.procs[pid];
    OwnDraftIsOwn(w, pid, sha);
    SyncFileSound(w.fs, p.pc.ino, sha);
    SyncFileCalm(w.fs, p.pc.ino);
    OwnDraft(w.fs, r.fs, p, w.facts, sha);
    DraftStep(w, r, pid, p.pc.ino, r.procs[pid], sha);
  }

  /** A name that nobody sees is nobody's claim and nobody's post. */
  lemma FreeName(w: World, file: string, sha: string -> string)
    requires Inv(w, sha) && JournalFile(file) !in w.fs.names
    ensures forall q :: q in w.procs ==> !(Holds(w.procs[q].pc) && w.procs[q].file == file)
    ensures forall k :: 0 <= k < |w.posts| ==> PostFile(w.posts[k], sha) != file
    ensures forall attempt :: OneAttempt(w.fs, file, attempt, w.facts)
  {
    assert SoundName(w.fs, JournalFile(file), sha);
    forall q | q in w.procs ensures !(Holds(w.procs[q].pc) && w.procs[q].file == file) {
      assert ProcOk(w.fs, w.procs[q], w.facts, sha);
    }
    forall k | 0 <= k < |w.posts| ensures PostFile(w.posts[k], sha) != file {
      assert PostOk(w, k, sha);
    }
  }

  /** A run whose synced file has got its name is in order. */
  lemma InstalledProc(fs: Fs, p: Proc, pc: Pc, facts: set<Fact>, sha: string -> string)
    requires ProcOk(fs, p, facts, sha) && p.pc.Synced? && OneAttempt(fs, p.file, Begun(p.journal), facts)
    requires (pc == Published && p.pc.use == Publishing) || (pc.Renamed? && p.pc.use == Saving(pc.final))
    ensures var r := Install(fs, p.pc.temp, JournalFile(p.file), p.pc.ino);
      Carries(r, p.pc.ino, Begun(p.journal), facts) && ProcOk(r, p.(pc := pc), facts, sha)
  {
    var r := Install(fs, p.pc.temp, JournalFile(p.file), p.pc.ino);
    InstallCalm(fs, p.pc.temp, p.file, p.pc.ino);
    assert Carries(r, p.pc.ino, Begun(p.journal), facts);
    OneAttemptFrame(fs, r, Some(p.pc.ino), Some(p.file), p.file, Begun(p.journal), facts, facts);
  }

  /** Installing the run's own synced file under its own name. */
  lemma InstallStep(w: World, r: World, pid: nat, pc: Pc, sha: string -> string)
    requires Inv(w, sha) && pid in w.procs && w.procs[pid].pc.Synced? && w.fs.rootExists
    requires pc == Published || pc.Renamed?
    requires r == With(w, pid, Install(w.fs, w.procs[pid].pc.temp, JournalFile(w.procs[pid].file), w.procs[pid].pc.ino),
                       w.procs[pid].(pc := pc))
    requires OneAttempt(w.fs, w.procs[pid].file, Begun(w.procs[pid].journal), w.facts)
    requires forall q :: q in w.procs && q != pid && Holds(w.procs[q].pc) && w.procs[q].file == w.procs[pid].file ==>
      Begun(w.procs[q].journal) == Begun(w.procs[pid].journal)
    requires FitsIn(w, pid, w.procs[pid].(pc := pc), sha)
    requires pc == Published ==> w.procs[pid].pc.use == Publishing
    requires pc.Renamed? ==> w.procs[pid].pc.use == Saving(pc.final)
    ensures Inv(r, sha)
  {
    var p := w.procs[pid];
    var ino, attempt := p.pc.ino, Begun(p.journal);
    assert ProcOk(w.fs, p, w.facts, sha);
    OwnDraftIsOwn(w, pid, sha);
    InstallSound(w.fs, p.pc.temp, p.file, ino, sha);
    InstallCalm(w.fs, p.pc.temp, p.file, ino);
    InstalledProc(w.fs, p, pc, w.facts, sha);
    assert Orderly(w, r, pid, Some(ino), Some(p.file), attempt, sha);
    OrderlyKeeps(w, r, pid, Some(ino), Some(p.file), attempt, sha);
  }

  lemma PublishKeeps(w: World, r: World, pid: nat, sha: string -> string)
    requires Inv(w, sha) && Publishes(w, r, pid)
    ensures Inv(r, sha)
  {
    FreeName(w, w.procs[pid].file, sha);
    InstallStep(w, r, pid, Published, sha);
  }

  lemma RenameKeeps(w: World, r: World, pid: nat, sha: string -> string)
    requires Inv(w, sha) && Renames(w, r, pid)
    ensures Inv(r, sha)
  {
    var p := w.procs[pid];
    assert ProcOk(w.fs, p, w.facts, sha);
    forall q | q in w.procs && Holds(w.procs[q].pc) && w.procs[q].file == p.file
      ensures Begun(w.procs[q].journal) == Begun(p.journal)
    {
      assert ProcOk(w.fs, w.procs[q], w.facts, sha);
      SameAttempt(w.fs, p.file, Begun(w.procs[q].journal), Begun(p.journal), w.facts, sha);
    }
    InstallStep(w, r, pid, Renamed(p.pc.use.last), sha);
  }

  /** Steps on the directory that change no file and add no candidate, by a run past its draft. */
  lemma DirectoryStep(w: World, r: World, pid: nat, pc: Pc, sha: string -> string)
    requires Inv(w, sha) && pid in w.procs && Sound(r.fs, sha) && Calm(w.fs, r.fs, None, None)
    requires r == With(w, pid, r.fs, w.procs[pid].(pc := pc)) && !HasDraft(pc)
    requires Claims(pc) ==> Claims(w.procs[pid].pc)
    requires ProcOk(r.fs, w.procs[pid].(pc := pc), w.facts, sha)
    ensures Inv(r, sha)
  {
    forall k | Claims(pc) && 0 <= k < |w.posts| ensures PostFile(w.posts[k], sha) != w.procs[pid].file {
      assert PostOk(w, k, sha);
    }
    assert FitsIn(w, pid, w.procs[pid].(pc := pc), sha);
    assert Orderly(w, r, pid, None, None, UNBEGUN, sha);
    OrderlyKeeps(w, r, pid, None, None, UNBEGUN, sha);
  }

  /** A run ends, the directory being left calm. */
  lemma LeaveStep(w: World, r: World, pid: nat, sha: string -> string)
    requires Inv(w, sha) && Sound(r.fs, sha) && Calm(w.fs, r.fs, None, None)
    requires r == w.(fs := r.fs, procs := w.procs - {pid})
    ensures Inv(r, sha)
  {
    assert Orderly(w, r, pid, None, None, UNBEGUN, sha);
    OrderlyKeeps(w, r, pid, None, None, UNBEGUN, sha);
  }

  lemma SyncedProc(fs: Fs, p: Proc, facts: set<Fact>, sha: string -> string)
    requires Sound(fs, sha) && ProcOk(fs, p, facts, sha)
    ensures p.pc == Published ==> ProcOk(SyncRoot(fs), p.(pc := Listed), facts, sha)
    ensures p.pc == Renamed(false) ==> ProcOk(SyncRoot(fs), p.(pc := Checking), facts, sha)
  {
    SyncRootSound(fs, sha);
    SyncRootCalm(fs, sha);
    ProcFrame(fs, SyncRoot(fs), None, None, p, facts, facts, sha);
    assert SoundName(fs, JournalFile(p.file), sha);
  }

  lemma SyncRootKeeps(w: World, r: World, pid: nat, sha: string -> string)
    requires Inv(w, sha) && SyncsRoot(w, r, pid)
    ensures Inv(r, sha)
  {
    var p := w.procs[pid];
    SyncRootSound(w.fs, sha);
    SyncRootCalm(w.fs, sha);
    SyncedProc(w.fs, p, w.facts, sha);
    if p.pc == Renamed(true) {
      LeaveStep(w, r, pid, sha);
    } else {
      DirectoryStep(w, r, pid, if p.pc == Published then Listed else Checking, sha);
    }
  }

  lemma SyncParentKeeps(w: World, r: World, pid: nat, sha: string -> string)
    requires Inv(w, sha) && SyncsParent(w, r, pid)
    ensures Inv(r, sha)
  {
    var p := w.procs[pid];
    SyncParentSound(w.fs, sha);
    SyncParentCalm(w.fs);
    ProcFrame(w.fs, r.fs, None, None, p, w.facts, w.facts, sha);
    DirectoryStep(w, r, pid, Ready, sha);
  }

  lemma DieKeeps(w: World, r: World, pid: nat, cleanup: bool, sha: string -> string)
    requires Inv(w, sha) && Dies(w, r, pid, cleanup)
    ensures Inv(r, sha)
  {
    var p := w.procs[pid];
    if cleanup && HasDraft(p.pc) {
      UnlinkSound(w.fs, p.pc.temp, sha);
      UnlinkCalm(w.fs, p.pc.temp);
    } else {
      CalmRefl(w.fs);
    }
    LeaveStep(w, r, pid, sha);
  }

  lemma SendKeeps(w: World, r: World, pid: nat, sha: string -> string)
    requires Inv(w, sha) && Sends(w, r, pid)
    ensures Inv(r, sha)
  {
    var p := w.procs[pid];
    assert ProcOk(w.fs, p, w.facts, sha);
    forall x, y | x in r.procs && y in r.procs && x != y ensures Compatible(r.procs[x], r.procs[y]) {
      assert Compatible(w.procs[x], w.procs[y]);
    }
    forall k | 0 <= k < |r.posts| ensures PostOk(r, k, sha) {
      if k < |w.posts| {
        assert PostOk(w, k, sha);
      } else {
        assert PostFile(r.posts[k], sha) == p.file;
        forall q | q in r.procs && Claims(r.procs[q].pc) ensures r.procs[q].file != p.file {
          assert Compatible(w.procs[q], p);
        }
        forall m | 0 <= m < k ensures PostFile(r.posts[m], sha) != p.file { assert PostOk(w, m, sha); }
      }
    }
  }

  lemma OneAttemptMore(fs: Fs, file: string, attempt: WriteJournal, facts: set<Fact>, more: set<Fact>)
    requires OneAttempt(fs, file, attempt, facts) && facts <= more
    ensures OneAttempt(fs, file, attempt, more)
  {
    forall i | Some(i) in Candidates(fs, JournalFile(file)) ensures Carries(fs, i, attempt, more) {
      assert Carries(fs, i, attempt, facts);
    }
  }

  lemma ReceiveKeeps(w: World, r: World, pid: nat, answer: Answer, sha: string -> string)
    requires Inv(w, sha) && Receives(w, r, pid, answer)
    ensures Inv(r, sha)
  {
    var p := w.procs[pid];
    assert ProcOk(w.fs, p, w.facts, sha);
    OneAttemptMore(w.fs, p.file, Begun(p.journal), w.facts, r.facts);
    QuietStep(w, r, pid, r.procs[pid], sha);
  }

  lemma CheckKeeps(w: World, r: World, pid: nat, ok: bool, sha: string -> string)
    requires Inv(w, sha) && Checks(w, r, pid, ok)
    ensures Inv(r, sha)
  {
    var p := w.procs[pid];
    assert ProcOk(w.fs, p, w.facts, sha);
    OneAttemptMore(w.fs, p.file, Begun(p.journal), w.facts, r.facts);
    QuietStep(w, r, pid, r.procs[pid], sha);
  }

  lemma ReadKeeps(w: World, r: World, pid: nat, sha: string -> string)
    requires Inv(w, sha) && Reads(w, r, pid)
    ensures Inv(r, sha)
  {
    var p := w.procs[pid];
    var n := JournalFile(p.file);
    assert SoundName(w.fs, n, sha) && NameOk(w.fs, p.file, w.facts);
    var attempt :| OneAttempt(w.fs, p.file, attempt, w.facts);
    assert Carries(w.fs, w.fs.names[n], attempt, w.facts);
    QuietStep(w, r, pid, r.procs[pid], sha);
  }

  lemma PowerKeeps(w: World, r: World, after: Fs, sha: string -> string)
    requires Inv(w, sha) && LosesPower(w, r, after)
    ensures Inv(r, sha)
  {
    PowerLossSound(w.fs, r.fs, sha);
    forall file ensures NameOk(r.fs, file, r.facts) {
      assert NameOk(w.fs, file, w.facts);
      var attempt :| OneAttempt(w.fs, file, attempt, w.facts);
      var n := JournalFile(file);
      forall i | Some(i) in Candidates(r.fs, n) ensures Carries(r.fs, i, attempt, r.facts) {
        assert i == r.fs.names[n];
        assert Carries(w.fs, i, attempt, w.facts);
      }
      assert OneAttempt(r.fs, file, attempt, r.facts);
    }
    forall k | 0 <= k < |r.posts| ensures PostOk(r, k, sha) { assert PostOk(w, k, sha); }
  }

  lemma StepKeeps(w: World, r: World, step: Step, sha: string -> string)
    requires Inv(w, sha) && Next(w, r, step, sha)
    ensures Inv(r, sha)
  {
    match step
    case StartCreate(pid, journal) => CreateKeeps(w, r, pid, journal, sha);
    case StartReconcile(pid, file, id) => ReconcileKeeps(w, r, pid, file, id, sha);
    case DoMakeRoot(pid) => MakeRootKeeps(w, r, pid, sha);
    case DoOpen(pid, temp, ino) => OpenKeeps(w, r, pid, temp, ino, sha);
    case DoWrite(pid, whole) => WriteKeeps(w, r, pid, whole, sha);
    case DoSyncFile(pid) => SyncFileKeeps(w, r, pid, sha);
    case DoPublish(pid) => PublishKeeps(w, r, pid, sha);
    case DoRename(pid) => RenameKeeps(w, r, pid, sha);
    case DoSyncRoot(pid) => SyncRootKeeps(w, r, pid, sha);
    case DoSyncParent(pid) => SyncParentKeeps(w, r, pid, sha);
    case DoSend(pid) => SendKeeps(w, r, pid, sha);
    case DoReceive(pid, answer) => ReceiveKeeps(w, r, pid, answer, sha);
    case DoCheck(pid, ok) => CheckKeeps(w, r, pid, ok, sha);
    case DoRead(pid) => ReadKeeps(w, r, pid, sha);
    case Die(pid, cleanup) => DieKeeps(w, r, pid, cleanup, sha);
    case PowerFails(after) => PowerKeeps(w, r, after, sha);
  }

  // ----- whole runs -----

  const EMPTY_DISK := Fs(false, false, map[], map[], map[])

  /** Worlds that follow one another, by any steps. */
  ghost predicate IsExecution(ws: seq<World>, steps: seq<Step>, sha: string -> string) {
    && |ws| == |steps| + 1
    && forall k :: 0 <= k < |steps| ==> StepAt(ws, steps, k, sha)
  }

  /** A run of the system: it starts with no journal directory. */
  ghost predicate IsRun(ws: seq<World>, steps: seq<Step>, sha: string -> string) {
    IsExecution(ws, steps, sha) && ws[0] == World(EMPTY_DISK, map[], [], {})
  }

  ghost predicate StepAt(ws: seq<World>, steps: seq<Step>, k: nat, sha: string -> string)
    requires |ws| == |steps| + 1 && k < |steps|
  {
    Next(ws[k], ws[k + 1], steps[k], sha)
  }

  lemma {:induction false} RunInvariant(ws: seq<World>, steps: seq<Step>, k: nat, sha: string -> string)
    requires IsRun(ws, steps, sha) && k < |ws|
    ensures Inv(ws[k], sha)
  {
    if k == 0 {
      forall file ensures NameOk(ws[0].fs, file, {}) { assert OneAttempt(ws[0].fs, file, UNBEGUN, {}); }
    } else {
      RunInvariant(ws, steps, k - 1, sha);
      assert StepAt(ws, steps, k - 1, sha);
      StepKeeps(ws[k - 1], ws[k], steps[k - 1], sha);
    }
  }

  /** The same place: the same server up to trailing slashes, account, folder and reference. */
  predicate SamePlace(a: Post, b: Post) {
    && TrimSlashes(a.server) == TrimSlashes(b.server)
    && a.destination.accountId == b.destination.accountId
    && a.destination.folderId == b.destination.folderId
    && a.destination.reference == b.destination.reference
  }

  /** Safety of the protocol: in no run are two creation requests ever sent for the same place. */
  lemma AtMostOnce(ws: seq<World>, steps: seq<Step>, k: nat, i: nat, j: nat, sha: string -> string)
    requires IsRun(ws, steps, sha) && k < |ws| && i < j < |ws[k].posts|
    ensures !SamePlace(ws[k].posts[i], ws[k].posts[j])
  {
    RunInvariant(ws, steps, k, sha);
    assert PostOk(ws[k], j, sha);
    SamePlaceSameFile(ws[k].posts[i], ws[k].posts[j], sha);
  }

  lemma SamePlaceSameFile(a: Post, b: Post, sha: string -> string)
    ensures SamePlace(a, b) ==> PostFile(a, sha) == PostFile(b, sha)
  {
    assert SamePlace(a, b) ==> KeyText(a.server, a.destination) == KeyText(b.server, b.destination);
  }

  /** When a request is sent, its journal is durable: any power loss leaves under its name a complete,
      honest journal of this very attempt at this very place. */
  lemma SentBehindDurableJournal(
      ws: seq<World>, steps: seq<Step>, k: nat, c: Option<Content>, sha: string -> string)
    requires IsRun(ws, steps, sha) && k < |steps| && steps[k].DoSend? && steps[k].pid in ws[k].procs
    requires MayFind(ws[k].fs, JournalFile(ws[k].procs[steps[k].pid].file), c)
    ensures c.Some? && c.value.Whole?
    ensures |ws[k + 1].posts| == |ws[k].posts| + 1
    ensures FileOf(c.value.journal, sha) == PostFile(ws[k + 1].posts[|ws[k].posts|], sha)
    ensures Begun(c.value.journal) == Begun(ws[k].procs[steps[k].pid].journal)
    ensures c.value.journal.receipt.attemptId == ws[k + 1].posts[|ws[k].posts|].attempt
    ensures Honest(c.value.journal, ws[k].facts)
  {
    RunInvariant(ws, steps, k, sha);
    var w := ws[k];
    var p := w.procs[steps[k].pid];
    var n := JournalFile(p.file);
    assert StepAt(ws, steps, k, sha);
    assert ProcOk(w.fs, p, w.facts, sha);
    MayFindExactly(w.fs, n, c, sha);
    var i :| Some(i) in Candidates(w.fs, n) && i in w.fs.files && w.fs.files[i].content == c.value;
    assert Carries(w.fs, i, Begun(p.journal), w.facts) && SoundName(w.fs, n, sha);
  }

  /** At no moment of any run can a power loss leave a torn, foreign or dishonest journal under a journal
      name; and a name whose request was sent is never found empty again. */
  lemma NeverTorn(
      ws: seq<World>, steps: seq<Step>, k: nat, file: string, c: Option<Content>, sha: string -> string)
    requires IsRun(ws, steps, sha) && k < |ws| && MayFind(ws[k].fs, JournalFile(file), c)
    ensures c.Some? ==> c.value.Whole? && FileOf(c.value.journal, sha) == file && Honest(c.value.journal, ws[k].facts)
    ensures c.None? ==> forall i :: 0 <= i < |ws[k].posts| ==> PostFile(ws[k].posts[i], sha) != file
  {
    RunInvariant(ws, steps, k, sha);
    var fs, n := ws[k].fs, JournalFile(file);
    MayFindExactly(fs, n, c, sha);
    if c.Some? {
      var i :| Some(i) in Candidates(fs, n) && i in fs.files && fs.files[i].content == c.value;
      assert SoundName(fs, n, sha) && NameOk(fs, file, ws[k].facts);
      var attempt :| OneAttempt(fs, file, attempt, ws[k].facts);
      assert Carries(fs, i, attempt, ws[k].facts);
    } else {
      forall i | 0 <= i < |ws[k].posts| ensures PostFile(ws[k].posts[i], sha) != file { assert PostOk(ws[k], i, sha); }
    }
  }

  /** Step `m` is the one by which the fact came to be known. */
  ghost predicate Shown(ws: seq<World>, steps: seq<Step>, m: nat, fact: Fact)
    requires |ws| == |steps| + 1 && m < |steps|
  {
    match steps[m]
    case DoReceive(pid, answer) =>
      && fact.Rejected? && answer == NotCreated(Failed)
      && pid in ws[m].procs && ws[m].procs[pid].journal.receipt.attemptId == fact.attempt
    case DoCheck(pid, ok) =>
      && fact.Checked? && ok
      && pid in ws[m].procs && ws[m].procs[pid].journal.receipt.attemptId == fact.attempt
      && ws[m].procs[pid].journal.receipt.itemId == Some(fact.id)
    case _ => false
  }

  lemma FactShown(ws: seq<World>, steps: seq<Step>, k: nat, fact: Fact, sha: string -> string)
    requires IsExecution(ws, steps, sha) && k < |steps|
    ensures fact in ws[k + 1].facts ==> fact in ws[k].facts || Shown(ws, steps, k, fact)
  {
    assert StepAt(ws, steps, k, sha);
  }

  lemma {:induction false} FactsAreShown(ws: seq<World>, steps: seq<Step>, k: nat, fact: Fact, sha: string -> string)
    returns (m: nat)
    requires IsRun(ws, steps, sha) && k < |ws| && fact in ws[k].facts
    ensures m < k && Shown(ws, steps, m, fact)
  {
    FactShown(ws, steps, k - 1, fact, sha);
    if fact in ws[k - 1].facts {
      m := FactsAreShown(ws, steps, k - 1, fact, sha);
    } else {
      m := k - 1;
    }
  }

  /** At no moment of any run can a power loss leave a receipt that claims what has not happened: one that
      says `Verified` stands behind a passed check of its own attempt and item, one that says `Failed`
      behind an explicit rejection of its own attempt. */
  lemma ReceiptsAreBacked(
      ws: seq<World>, steps: seq<Step>, k: nat, file: string, j: WriteJournal, sha: string -> string)
    returns (m: nat)
    requires IsRun(ws, steps, sha) && k < |ws| && MayFind(ws[k].fs, JournalFile(file), Some(Whole(j)))
    requires j.receipt.status == Verified || j.receipt.status == Failed
    ensures j.receipt.status == Verified ==>
      j.receipt.itemId.Some? && m < k && Shown(ws, steps, m, Checked(j.receipt.attemptId, j.receipt.itemId.value))
    ensures j.receipt.status == Failed ==> m < k && Shown(ws, steps, m, Rejected(j.receipt.attemptId))
  {
    NeverTorn(ws, steps, k, file, Some(Whole(j)), sha);
    var fact := if j.receipt.status == Failed then Rejected(j.receipt.attemptId)
      else Checked(j.receipt.attemptId, j.receipt.itemId.value);
    m := FactsAreShown(ws, steps, k, fact, sha);
  }
}
