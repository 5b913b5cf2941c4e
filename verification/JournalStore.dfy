/** `begin`, `save` and `read` of src/write_journal.rs as sequences of system calls that may each
    fail, and what a power loss between any two of them can leave. Each operation is a method on the
    disk, whose states are those of a trace; the lemmas say what the traces mean. */
module JournalStore {
  import opened ByteStrings
  import opened Journals
  import opened FileSystem

  /** After a power loss in state `t`, the journal name `n` may hold only what it might have held after
      one in state `before`, or the complete new journal `j`; every other journal name only the former. */
  ghost predicate Harmless(before: Fs, t: Fs, n: Name, j: WriteJournal) {
    forall m: Name, c :: m.JournalFile? && MayFind(t, m, c) ==>
      MayFind(before, m, c) || (m == n && c == Some(Whole(j)))
  }

  /** The same in terms of candidate entries. */
  ghost predicate Builds(before: Fs, t: Fs, n: Name, j: WriteJournal) {
    && (forall m: Name :: m.JournalFile? && Anchored(before, m) ==> Anchored(t, m))
    && forall m: Name, i :: m.JournalFile? && Some(i) in Candidates(t, m) ==> FromBefore(before, t, m, n, i, j)
  }

  ghost predicate FromBefore(before: Fs, t: Fs, m: Name, n: Name, i: Inode, j: WriteJournal) {
    && i in t.files
    && ((Some(i) in Candidates(before, m) && i in before.files && t.files[i] == before.files[i])
        || (m == n && t.files[i].content == Whole(j)))
  }

  lemma BuildsIsHarmless(before: Fs, t: Fs, n: Name, j: WriteJournal, sha: string -> string)
    requires Sound(before, sha) && Sound(t, sha) && Builds(before, t, n, j)
    ensures Harmless(before, t, n, j)
  {
    forall m: Name, c | m.JournalFile? && MayFind(t, m, c)
      ensures MayFind(before, m, c) || (m == n && c == Some(Whole(j)))
    {
      MayFindExactly(t, m, c, sha);
      MayFindExactly(before, m, c, sha);
      if c.Some? {
        var i :| Some(i) in Candidates(t, m) && i in t.files && t.files[i].content == c.value;
        assert FromBefore(before, t, m, n, i, j);
      }
    }
  }

  /** Nothing changed under any journal name, now or after a power loss. */
  ghost predicate SamePublic(a: Fs, b: Fs) {
    && a.rootExists == b.rootExists && a.rootDurable == b.rootDurable
    && forall file :: SameName(a, b, JournalFile(file))
  }

  ghost predicate SameName(a: Fs, b: Fs, m: Name) {
    && Entry(b, m) == Entry(a, m) && Candidates(b, m) == Candidates(a, m)
    && forall i :: Some(i) in Candidates(a, m) && i in a.files ==> i in b.files && b.files[i] == a.files[i]
  }

  lemma SamePublicBuilds(before: Fs, a: Fs, b: Fs, n: Name, j: WriteJournal, sha: string -> string)
    requires Sound(a, sha) && Builds(before, a, n, j) && SamePublic(a, b)
    ensures Builds(before, b, n, j)
  {
    forall m: Name | m.JournalFile? && Anchored(before, m) ensures Anchored(b, m) {
      assert SameName(a, b, JournalFile(m.file));
    }
    forall m: Name, i | m.JournalFile? && Some(i) in Candidates(b, m) ensures FromBefore(before, b, m, n, i, j) {
      assert SameName(a, b, JournalFile(m.file)) && SoundName(a, m, sha);
      assert FromBefore(before, a, m, n, i, j);
    }
  }

  lemma MakeRootBuilds(fs: Fs, n: Name, j: WriteJournal, sha: string -> string)
    requires Sound(fs, sha)
    ensures Builds(fs, MakeRoot(fs), n, j)
  {
    MakeRootSound(fs, sha);
    forall m: Name, i | m.JournalFile? && Some(i) in Candidates(MakeRoot(fs), m)
      ensures FromBefore(fs, MakeRoot(fs), m, n, i, j)
    {
      assert SoundName(fs, m, sha);
    }
  }

  lemma InstallBuilds(before: Fs, fs: Fs, t: nat, file: string, ino: Inode, j: WriteJournal, sha: string -> string)
    requires Sound(fs, sha) && Builds(before, fs, JournalFile(file), j)
    requires ino in fs.files && fs.files[ino] == File(Whole(j), true)
    ensures Builds(before, Install(fs, t, JournalFile(file), ino), JournalFile(file), j)
  {
    var r := Install(fs, t, JournalFile(file), ino);
    forall m: Name, i | m.JournalFile? && Some(i) in Candidates(r, m)
      ensures FromBefore(before, r, m, JournalFile(file), i, j)
    {
      if Some(i) in Candidates(fs, m) { assert FromBefore(before, fs, m, JournalFile(file), i, j); }
    }
  }

  lemma SyncRootBuilds(before: Fs, fs: Fs, n: Name, j: WriteJournal, sha: string -> string)
    requires Sound(fs, sha) && Builds(before, fs, n, j)
    ensures Builds(before, SyncRoot(fs), n, j)
  {
    SyncRootSound(fs, sha);
    forall m: Name, i | m.JournalFile? && Some(i) in Candidates(SyncRoot(fs), m)
      ensures FromBefore(before, SyncRoot(fs), m, n, i, j)
    {
      assert SoundName(fs, m, sha);
      assert FromBefore(before, fs, m, n, i, j);
    }
  }

  /** Which of the system calls of one operation succeed. */
  datatype Io = Io(
    makeRoot: bool, safeRoot: bool, openFile: bool, writeFile: bool, syncFile: bool, persist: bool, syncRoot: bool,
    syncParent: bool)

  /** The temporary file is made, written and synced. */
  predicate MakesFile(io: Io) { io.openFile && io.writeFile && io.syncFile }

  // ----- the states an operation goes through -----

  function After(fs: Fs, states: seq<Fs>): (r: Fs) {
    if states == [] then fs else states[|states| - 1]
  }

  /** `write_temporary` with temporary name `t` and file `ino`; on an error the name is removed again. */
  function TempTrace(fs: Fs, t: nat, ino: Inode, j: WriteJournal, io: Io): (states: seq<Fs>) {
    if !fs.rootExists || !io.openFile then []
    else
      var a := OpenTemp(fs, t, ino);
      var b := Write(a, ino, if io.writeFile then Whole(j) else Torn);
      [a, b, if io.writeFile && io.syncFile then SyncFile(b, ino) else Unlink(b, t)]
  }

  /** What `begin` does once the file is ready. */
  function PublishTrace(fs: Fs, t: nat, ino: Inode, n: Name, io: Io): (states: seq<Fs>) {
    if n in fs.names || !io.persist then [Unlink(fs, t)]
    else
      var a := Install(fs, t, n, ino);
      if !io.syncRoot then [a]
      else if !io.syncParent then [a, SyncRoot(a)] else [a, SyncRoot(a), SyncParent(SyncRoot(a))]
  }

  predicate ReachesFile(j: WriteJournal, io: Io) {
    j.receipt.status == Uncertain && io.makeRoot && io.safeRoot && io.openFile
  }

  /** `begin` up to the ready file. */
  function DraftTrace(fs: Fs, t: nat, ino: Inode, j: WriteJournal, io: Io): (states: seq<Fs>) {
    if j.receipt.status != Uncertain || !io.makeRoot then []
    else [MakeRoot(fs)] + if io.safeRoot then TempTrace(MakeRoot(fs), t, ino, j, io) else []
  }

  function BeginTrace(fs: Fs, t: nat, ino: Inode, j: WriteJournal, n: Name, io: Io): (states: seq<Fs>) {
    var draft := DraftTrace(fs, t, ino, j, io);
    draft
    + if ReachesFile(j, io) && MakesFile(io) then PublishTrace(After(fs, draft), t, ino, n, io) else []
  }

  /** What `save` does once the file is ready. */
  function ReplaceTrace(fs: Fs, t: nat, ino: Inode, n: Name, io: Io): (states: seq<Fs>) {
    if !io.persist then [Unlink(fs, t)]
    else
      var a := Install(fs, t, n, ino);
      if io.syncRoot then [a, SyncRoot(a)] else [a]
  }

  function SaveTrace(fs: Fs, t: nat, ino: Inode, j: WriteJournal, n: Name, io: Io): (states: seq<Fs>) {
    var temp := TempTrace(fs, t, ino, j, io);
    temp + if fs.rootExists && MakesFile(io) then ReplaceTrace(After(fs, temp), t, ino, n, io) else []
  }

  // ----- what the states are -----

  /** Temporary names and files from these numbers on are free. */
  ghost predicate Free(fs: Fs, serial: nat, inode: Inode) {
    (forall t: nat :: TempFile(t) in fs.names ==> t < serial) && forall i :: i in fs.files ==> i < inode
  }

  ghost predicate AllHidden(fs: Fs, states: seq<Fs>, sha: string -> string) {
    forall x :: x in states ==> Sound(x, sha) && SamePublic(fs, x)
  }

  /** A ready file: complete and synced, under no journal name. */
  ghost predicate ReadyFile(fs: Fs, ino: Inode, j: WriteJournal) {
    fs.rootExists && ino in fs.files && fs.files[ino] == File(Whole(j), true)
  }

  lemma UnlinkHidden(start: Fs, fs: Fs, t: nat, sha: string -> string)
    requires Sound(fs, sha) && SamePublic(start, fs)
    ensures Sound(Unlink(fs, t), sha) && SamePublic(start, Unlink(fs, t))
  {
    UnlinkSound(fs, t, sha);
    forall file ensures SameName(start, Unlink(fs, t), JournalFile(file)) {
      assert SameName(start, fs, JournalFile(file));
    }
  }

  /** Writing a temporary file changes nothing public, and leaves it complete and synced on success. */
  lemma TempTraceHidden(fs: Fs, t: nat, ino: Inode, j: WriteJournal, io: Io, sha: string -> string)
    requires Sound(fs, sha) && Free(fs, t, ino)
    ensures AllHidden(fs, TempTrace(fs, t, ino, j, io), sha)
    ensures Free(After(fs, TempTrace(fs, t, ino, j, io)), t + 1, ino + 1)
    ensures fs.rootExists && MakesFile(io) ==> ReadyFile(After(fs, TempTrace(fs, t, ino, j, io)), ino, j)
    ensures SamePublic(fs, After(fs, TempTrace(fs, t, ino, j, io))) && Sound(After(fs, TempTrace(fs, t, ino, j, io)), sha)
  {
    forall file ensures SameName(fs, fs, JournalFile(file)) {}
    if fs.rootExists && io.openFile {
      var a := OpenTemp(fs, t, ino);
      var content := if io.writeFile then Whole(j) else Torn;
      var b := Write(a, ino, content);
      OpenTempHidden(fs, fs, t, ino, sha);
      WriteHidden(fs, a, ino, content, sha);
      SyncHidden(fs, b, ino, sha);
      UnlinkHidden(fs, b, t, sha);
    }
  }

  ghost predicate AllBuilt(before: Fs, states: seq<Fs>, n: Name, j: WriteJournal, sha: string -> string) {
    forall x :: x in states ==> Sound(x, sha) && Builds(before, x, n, j)
  }

  lemma HiddenIsBuilt(before: Fs, fs: Fs, states: seq<Fs>, n: Name, j: WriteJournal, sha: string -> string)
    requires Sound(fs, sha) && Builds(before, fs, n, j) && AllHidden(fs, states, sha)
    ensures AllBuilt(before, states, n, j, sha)
  {
    forall x | x in states ensures Builds(before, x, n, j) { SamePublicBuilds(before, fs, x, n, j, sha); }
  }

  lemma BuiltIsHarmless(before: Fs, states: seq<Fs>, n: Name, j: WriteJournal, sha: string -> string)
    requires Sound(before, sha) && AllBuilt(before, states, n, j, sha)
    ensures forall x :: x in states ==> Sound(x, sha) && Harmless(before, x, n, j)
  {
    forall x | x in states ensures Harmless(before, x, n, j) { BuildsIsHarmless(before, x, n, j, sha); }
  }

  /** The states from the installation of a ready file on. */
  lemma InstalledStates(before: Fs, fs: Fs, t: nat, ino: Inode, j: WriteJournal, sha: string -> string)
    requires Sound(fs, sha) && Builds(before, fs, JournalFile(FileOf(j, sha)), j) && ReadyFile(fs, ino, j)
    ensures var n := JournalFile(FileOf(j, sha));
      var a := Install(fs, t, n, ino);
      && AllBuilt(before, [a, SyncRoot(a), SyncParent(SyncRoot(a))], n, j, sha)
      && Shows(a, n, j) && Shows(SyncRoot(a), n, j) && Shows(SyncParent(SyncRoot(a)), n, j)
  {
    var n := JournalFile(FileOf(j, sha));
    var a := Install(fs, t, n, ino);
    InstallSound(fs, t, n.file, ino, sha);
    InstallBuilds(before, fs, t, n.file, ino, j, sha);
    SyncRootSound(a, sha);
    SyncRootBuilds(before, a, n, j, sha);
    SyncParentSound(SyncRoot(a), sha);
    SyncParentBuilds(before, SyncRoot(a), n, j);
  }

  /** Once the directory is synced, a power loss leaves the installed journal, or nothing in a directory
      that can be lost; once its parent is, the journal. */
  lemma InstalledOutcome(fs: Fs, t: nat, ino: Inode, j: WriteJournal, sha: string -> string)
    requires Sound(fs, sha) && ReadyFile(fs, ino, j)
    ensures var n := JournalFile(FileOf(j, sha));
      var b := SyncRoot(Install(fs, t, n, ino));
      && SafeIfRooted(b, n, j, fs.rootDurable)
      && Durable(SyncParent(b), n, j)
  {
    var n := JournalFile(FileOf(j, sha));
    var a := Install(fs, t, n, ino);
    InstallSound(fs, t, n.file, ino, sha);
    SyncRootSound(a, sha);
    SyncParentSound(SyncRoot(a), sha);
    OnlyOutcome(SyncRoot(a), n, ino, j, sha);
    OnlyOutcome(SyncParent(SyncRoot(a)), n, ino, j, sha);
  }

  lemma UnlinkBuilt(before: Fs, fs: Fs, t: nat, n: Name, j: WriteJournal, sha: string -> string)
    requires Sound(fs, sha) && Builds(before, fs, n, j)
    ensures AllBuilt(before, [Unlink(fs, t)], n, j, sha) && SamePublic(fs, Unlink(fs, t))
  {
    forall file ensures SameName(fs, fs, JournalFile(file)) {}
    UnlinkHidden(fs, fs, t, sha);
    SamePublicBuilds(before, fs, Unlink(fs, t), n, j, sha);
  }

  lemma PublishTraceBuilt(before: Fs, fs: Fs, t: nat, ino: Inode, j: WriteJournal, io: Io, sha: string -> string)
    requires Sound(fs, sha) && Builds(before, fs, JournalFile(FileOf(j, sha)), j) && ReadyFile(fs, ino, j)
    ensures var n := JournalFile(FileOf(j, sha));
      var states := PublishTrace(fs, t, ino, n, io);
      && AllBuilt(before, states, n, j, sha)
      && (if n in fs.names || !io.persist then SamePublic(fs, After(fs, states)) else Shows(After(fs, states), n, j))
  {
    InstalledStates(before, fs, t, ino, j, sha);
    UnlinkBuilt(before, fs, t, JournalFile(FileOf(j, sha)), j, sha);
  }

  lemma ReplaceTraceBuilt(before: Fs, fs: Fs, t: nat, ino: Inode, j: WriteJournal, io: Io, sha: string -> string)
    requires Sound(fs, sha) && Builds(before, fs, JournalFile(FileOf(j, sha)), j) && ReadyFile(fs, ino, j)
    ensures var n := JournalFile(FileOf(j, sha));
      var states := ReplaceTrace(fs, t, ino, n, io);
      && AllBuilt(before, states, n, j, sha)
      && (if !io.persist then SamePublic(fs, After(fs, states)) else Shows(After(fs, states), n, j))
  {
    InstalledStates(before, fs, t, ino, j, sha);
    UnlinkBuilt(before, fs, t, JournalFile(FileOf(j, sha)), j, sha);
  }

  // ----- what the operations mean -----

  /** A power loss in state `t` leaves exactly journal `j` under the entry `n`. */
  ghost predicate Durable(t: Fs, n: Name, j: WriteJournal) {
    forall c :: MayFind(t, n, c) <==> c == Some(Whole(j))
  }

  /** A power loss leaves `j` under `n`, or nothing where the directory itself can be lost. */
  ghost predicate SafeIfRooted(t: Fs, n: Name, j: WriteJournal, rootDurable: bool) {
    forall c :: MayFind(t, n, c) <==> c == Some(Whole(j)) || (c.None? && !rootDurable)
  }

  predicate AllSucceed(io: Io) { io == Io(true, true, true, true, true, true, true, true) }

  ghost predicate Begins(fs: Fs, j: WriteJournal, n: Name, io: Io) {
    j.receipt.status == Uncertain && n !in fs.names && AllSucceed(io)
  }

  /** Every state of `begin` is harmless. */
  lemma BeginIsHarmless(fs: Fs, t: nat, ino: Inode, j: WriteJournal, io: Io, sha: string -> string)
    requires Sound(fs, sha) && Free(fs, t, ino)
    ensures var n := JournalFile(FileOf(j, sha));
      forall x :: x in BeginTrace(fs, t, ino, j, n, io) ==> Sound(x, sha) && Harmless(fs, x, n, j)
  {
    var n := JournalFile(FileOf(j, sha));
    var r := MakeRoot(fs);
    MakeRootSound(fs, sha);
    MakeRootBuilds(fs, n, j, sha);
    var temp := TempTrace(r, t, ino, j, io);
    TempTraceHidden(r, t, ino, j, io, sha);
    HiddenIsBuilt(fs, r, temp, n, j, sha);
    if MakesFile(io) {
      SamePublicBuilds(fs, r, After(r, temp), n, j, sha);
      PublishTraceBuilt(fs, After(r, temp), t, ino, j, io, sha);
    }
    BuiltIsHarmless(fs, BeginTrace(fs, t, ino, j, n, io), n, j, sha);
  }

  lemma BeginEnds(fs: Fs, t: nat, ino: Inode, j: WriteJournal, n: Name, io: Io)
    ensures var r := After(fs, DraftTrace(fs, t, ino, j, io));
      After(fs, BeginTrace(fs, t, ino, j, n, io)) ==
        if ReachesFile(j, io) && MakesFile(io) then After(r, PublishTrace(r, t, ino, n, io)) else r
  {}

  /** Writing the temporary file of `begin` leaves its journal's name as it was. */
  lemma BeginDraft(fs: Fs, t: nat, ino: Inode, j: WriteJournal, io: Io, sha: string -> string)
    requires Sound(fs, sha) && Free(fs, t, ino)
    ensures var n := JournalFile(FileOf(j, sha));
      var r := After(fs, DraftTrace(fs, t, ino, j, io));
      && SameName(fs, r, n) && Sound(r, sha) && Builds(fs, r, n, j)
      && (ReachesFile(j, io) && MakesFile(io) ==> ReadyFile(r, ino, j))
  {
    Unchanged(fs, JournalFile(FileOf(j, sha)), j, sha);
    var n, r := JournalFile(FileOf(j, sha)), MakeRoot(fs);
    MakeRootSound(fs, sha);
    MakeRootBuilds(fs, n, j, sha);
    TempTraceHidden(r, t, ino, j, io, sha);
    assert SoundName(fs, n, sha) && SameName(fs, r, n);
    assert SameName(r, After(r, TempTrace(r, t, ino, j, io)), JournalFile(n.file));
    SamePublicBuilds(fs, r, After(r, TempTrace(r, t, ino, j, io)), n, j, sha);
  }

  /** Where `begin` succeeds, every power loss leaves exactly the journal. */
  lemma BeginSucceeds(fs: Fs, t: nat, ino: Inode, j: WriteJournal, io: Io, sha: string -> string)
    requires Sound(fs, sha) && Free(fs, t, ino) && Begins(fs, j, JournalFile(FileOf(j, sha)), io)
    ensures var n := JournalFile(FileOf(j, sha));
      var end := After(fs, BeginTrace(fs, t, ino, j, n, io));
      Shows(end, n, j) && Durable(end, n, j)
  {
    var r := After(fs, DraftTrace(fs, t, ino, j, io));
    BeginEnds(fs, t, ino, j, JournalFile(FileOf(j, sha)), io);
    BeginDraft(fs, t, ino, j, io, sha);
    InstalledStates(fs, r, t, ino, j, sha);
    InstalledOutcome(r, t, ino, j, sha);
  }

  /** Where `begin` fails, its name is as it was, or shows the journal if it was free. */
  lemma BeginFails(fs: Fs, t: nat, ino: Inode, j: WriteJournal, io: Io, sha: string -> string)
    requires Sound(fs, sha) && Free(fs, t, ino)
    ensures var n := JournalFile(FileOf(j, sha)); Untried(fs, After(fs, BeginTrace(fs, t, ino, j, n, io)), n, j)
  {
    var n := JournalFile(FileOf(j, sha));
    var r := After(fs, DraftTrace(fs, t, ino, j, io));
    BeginEnds(fs, t, ino, j, n, io);
    BeginDraft(fs, t, ino, j, io, sha);
    if ReachesFile(j, io) && MakesFile(io) {
      PublishFails(fs, r, t, ino, j, io, sha);
    }
  }

  lemma PublishFails(before: Fs, fs: Fs, t: nat, ino: Inode, j: WriteJournal, io: Io, sha: string -> string)
    requires Sound(fs, sha) && Builds(before, fs, JournalFile(FileOf(j, sha)), j) && ReadyFile(fs, ino, j)
    requires SameName(before, fs, JournalFile(FileOf(j, sha)))
    ensures var n := JournalFile(FileOf(j, sha)); Untried(before, After(fs, PublishTrace(fs, t, ino, n, io)), n, j)
  {
    var n := JournalFile(FileOf(j, sha));
    PublishTraceBuilt(before, fs, t, ino, j, io, sha);
    if n in fs.names || !io.persist { assert SameName(fs, Unlink(fs, t), JournalFile(n.file)); }
  }

  /** Every call of a `save` succeeds. */
  predicate SaveWorks(io: Io) { MakesFile(io) && io.persist && io.syncRoot }

  predicate Saves(fs: Fs, io: Io) { fs.rootExists && SaveWorks(io) }

  /** Every state of `save` is harmless. */
  lemma SaveIsHarmless(fs: Fs, t: nat, ino: Inode, j: WriteJournal, io: Io, sha: string -> string)
    requires Sound(fs, sha) && Free(fs, t, ino)
    ensures var n := JournalFile(FileOf(j, sha));
      forall x :: x in SaveTrace(fs, t, ino, j, n, io) ==> Sound(x, sha) && Harmless(fs, x, n, j)
  {
    var n := JournalFile(FileOf(j, sha));
    var temp := TempTrace(fs, t, ino, j, io);
    Unchanged(fs, n, j, sha);
    TempTraceHidden(fs, t, ino, j, io, sha);
    HiddenIsBuilt(fs, fs, temp, n, j, sha);
    if fs.rootExists && MakesFile(io) {
      SamePublicBuilds(fs, fs, After(fs, temp), n, j, sha);
      ReplaceTraceBuilt(fs, After(fs, temp), t, ino, j, io, sha);
    }
    BuiltIsHarmless(fs, SaveTrace(fs, t, ino, j, n, io), n, j, sha);
  }

  /** After `save`, readers see the old journal or the new one; after success the new one, and a power
      loss leaves it unless the directory itself can be lost. */
  lemma SaveOutcome(fs: Fs, t: nat, ino: Inode, j: WriteJournal, io: Io, sha: string -> string)
    requires Sound(fs, sha) && Free(fs, t, ino)
    ensures var n := JournalFile(FileOf(j, sha));
      var end := After(fs, SaveTrace(fs, t, ino, j, n, io));
      && (SameName(fs, end, n) || Shows(end, n, j))
      && (Saves(fs, io) ==>
        Shows(end, n, j) && SafeIfRooted(end, n, j, fs.rootDurable))
  {
    var n := JournalFile(FileOf(j, sha));
    var temp := TempTrace(fs, t, ino, j, io);
    Unchanged(fs, n, j, sha);
    TempTraceHidden(fs, t, ino, j, io, sha);
    assert SameName(fs, After(fs, temp), JournalFile(n.file));
    if fs.rootExists && MakesFile(io) {
      SamePublicBuilds(fs, fs, After(fs, temp), n, j, sha);
      ReplaceTraceBuilt(fs, After(fs, temp), t, ino, j, io, sha);
      InstalledOutcome(After(fs, temp), t, ino, j, sha);
      if !io.persist { assert SameName(After(fs, temp), Unlink(After(fs, temp), t), JournalFile(n.file)); }
    }
  }

  lemma PublishStaysFree(fs: Fs, t: nat, ino: Inode, n: Name, io: Io, serial: nat, inode: Inode)
    requires Free(fs, serial, inode) && n.JournalFile?
    ensures Free(After(fs, PublishTrace(fs, t, ino, n, io)), serial, inode)
    ensures Free(After(fs, ReplaceTrace(fs, t, ino, n, io)), serial, inode)
  {}

  lemma DraftStaysFree(fs: Fs, t: nat, ino: Inode, j: WriteJournal, io: Io, sha: string -> string)
    requires Sound(fs, sha) && Free(fs, t, ino)
    ensures var r := After(fs, DraftTrace(fs, t, ino, j, io));
      Free(r, t + 1, ino + 1) && (!ReachesFile(j, io) ==> Free(r, t, ino))
  {
    MakeRootSound(fs, sha);
    TempTraceHidden(MakeRoot(fs), t, ino, j, io, sha);
  }

  /** Each operation uses up one number. */
  lemma BeginStaysFree(fs: Fs, t: nat, ino: Inode, j: WriteJournal, n: Name, io: Io, sha: string -> string)
    requires Sound(fs, sha) && Free(fs, t, ino) && n.JournalFile?
    ensures var r := After(fs, BeginTrace(fs, t, ino, j, n, io));
      Free(r, t + 1, ino + 1) && (!ReachesFile(j, io) ==> Free(r, t, ino))
  {
    DraftStaysFree(fs, t, ino, j, io, sha);
    BeginEnds(fs, t, ino, j, n, io);
    PublishStaysFree(After(fs, DraftTrace(fs, t, ino, j, io)), t, ino, n, io, t + 1, ino + 1);
  }

  lemma SaveStaysFree(fs: Fs, t: nat, ino: Inode, j: WriteJournal, n: Name, io: Io, sha: string -> string)
    requires Sound(fs, sha) && Free(fs, t, ino) && n.JournalFile?
    ensures Free(After(fs, SaveTrace(fs, t, ino, j, n, io)), t + 1, ino + 1)
  {
    TempTraceHidden(fs, t, ino, j, io, sha);
    PublishStaysFree(After(fs, TempTrace(fs, t, ino, j, io)), t, ino, n, io, t + 1, ino + 1);
  }

  // ----- the disk -----

  const MAX_JOURNAL := 65536

  class Disk {
    var fs: Fs
    var serial: nat
    var inode: Inode
    /** Every state the disk has been in, oldest first. */
    ghost var trace: seq<Fs>
    const sha: string -> string
    /** The length of a serialized journal. */
    const size: WriteJournal -> nat

    ghost predicate Valid()
      reads this
    {
      Sound(fs, sha) && trace != [] && trace[|trace| - 1] == fs && Free(fs, serial, inode)
    }

    /** One system call. */
    method Call(next: Fs)
      modifies this`fs, this`trace
      ensures fs == next && trace == old(trace) + [next]
    {
      fs := next;
      trace := trace + [fs];
    }

    /** `write_temporary`: a private file with the complete journal, synced before it has a name that
        anyone looks at. On an error the temporary name is removed again. */
    method WriteTemporary(journal: WriteJournal, io: Io) returns (temporary: Option<(nat, Inode)>)
      modifies this
      ensures trace == old(trace) + TempTrace(old(fs), old(serial), old(inode), journal, io)
      ensures fs == After(old(fs), TempTrace(old(fs), old(serial), old(inode), journal, io))
      ensures temporary ==
        if old(fs.rootExists) && MakesFile(io) then Some((old(serial), old(inode))) else None
      ensures (serial, inode) ==
        if old(fs.rootExists) && io.openFile then (old(serial) + 1, old(inode) + 1) else (old(serial), old(inode))
    {
      if !fs.rootExists || !io.openFile {
        return None;
      }
      var t, ino := serial, inode;
      serial, inode := serial + 1, inode + 1;
      Call(OpenTemp(fs, t, ino));
      Call(Write(fs, ino, if io.writeFile then Whole(journal) else Torn));
      if !io.writeFile || !io.syncFile {
        Call(Unlink(fs, t));
        return None;
      }
      Call(SyncFile(fs, ino));
      return Some((t, ino));
    }

    /** The file of a ready journal gets its name: `persist_noclobber` and the two directory syncs. */
    method Publish(n: Name, t: nat, ino: Inode, io: Io) returns (ok: bool)
      modifies this`fs, this`trace
      ensures trace == old(trace) + PublishTrace(old(fs), t, ino, n, io)
      ensures fs == After(old(fs), PublishTrace(old(fs), t, ino, n, io))
      ensures ok <==> n !in old(fs).names && io.persist && io.syncRoot && io.syncParent
    {
      if n in fs.names || !io.persist {
        Call(Unlink(fs, t));
        return false;
      }
      Call(Install(fs, t, n, ino));
      if !io.syncRoot {
        return false;
      }
      Call(SyncRoot(fs));
      if !io.syncParent {
        return false;
      }
      Call(SyncParent(fs));
      return true;
    }

    /** The system calls of `begin` up to the ready file. */
    method DraftCalls(journal: WriteJournal, io: Io) returns (temporary: Option<(nat, Inode)>)
      modifies this
      ensures trace == old(trace) + DraftTrace(old(fs), old(serial), old(inode), journal, io)
      ensures fs == After(old(fs), DraftTrace(old(fs), old(serial), old(inode), journal, io))
      ensures temporary ==
        if ReachesFile(journal, io) && MakesFile(io) then Some((old(serial), old(inode))) else None
      ensures (serial, inode) ==
        if ReachesFile(journal, io) then (old(serial) + 1, old(inode) + 1) else (old(serial), old(inode))
    {
      if journal.receipt.status != Uncertain || !io.makeRoot {
        return None;
      }
      Call(MakeRoot(fs));
      if !io.safeRoot {
        return None;
      }
      temporary := WriteTemporary(journal, io);
    }

    /** The system calls of `begin`. */
    method BeginCalls(journal: WriteJournal, io: Io) returns (ok: bool)
      modifies this
      ensures var n, t, ino := JournalFile(FileOf(journal, sha)), old(serial), old(inode);
        trace == old(trace) + BeginTrace(old(fs), t, ino, journal, n, io)
        && fs == After(old(fs), BeginTrace(old(fs), t, ino, journal, n, io))
      ensures (serial, inode) ==
        if ReachesFile(journal, io) then (old(serial) + 1, old(inode) + 1) else (old(serial), old(inode))
      ensures ok <==> Begins(old(fs), journal, JournalFile(FileOf(journal, sha)), io)
    {
      var n := JournalFile(FileOf(journal, sha));
      DraftKeepsNames(fs, serial, inode, journal, io, n);
      var temporary := DraftCalls(journal, io);
      if temporary.None? {
        return false;
      }
      ok := Publish(n, temporary.value.0, temporary.value.1, io);
    }

    /** `begin`: publishes a new journal, once, and returns only when it survives a power loss. At no
        moment could one leave anything but the old state or the complete journal. */
    method Begin(journal: WriteJournal, io: Io) returns (path: Option<Name>)
      requires Valid()
      modifies this
      ensures Valid()
      ensures trace == old(trace)
        + BeginTrace(old(fs), old(serial), old(inode), journal, JournalFile(FileOf(journal, sha)), io)
      ensures ReachesFile(journal, io) ==> (serial, inode) == (old(serial) + 1, old(inode) + 1)
      ensures forall k :: |old(trace)| <= k < |trace| ==>
        Harmless(old(fs), trace[k], JournalFile(FileOf(journal, sha)), journal)
      ensures path == if Begins(old(fs), journal, JournalFile(FileOf(journal, sha)), io)
        then Some(JournalFile(FileOf(journal, sha))) else None
      ensures path.Some? ==>
        fs.rootExists && Shows(fs, path.value, journal) && Durable(fs, path.value, journal)
      ensures path.None? ==> Untried(old(fs), fs, JournalFile(FileOf(journal, sha)), journal)
    {
      var n := JournalFile(FileOf(journal, sha));
      ghost var before, t, ino := fs, serial, inode;
      var ok := BeginCalls(journal, io);
      BeginMeans(before, t, ino, journal, io, sha);
      BeginStaysFree(before, t, ino, journal, n, io, sha);
      return if ok then Some(n) else None;
    }

    /** The name of a ready file is given to it, replacing what was there: `persist` and the directory sync. */
    method Replace(n: Name, t: nat, ino: Inode, io: Io) returns (ok: bool)
      modifies this`fs, this`trace
      ensures trace == old(trace) + ReplaceTrace(old(fs), t, ino, n, io)
      ensures fs == After(old(fs), ReplaceTrace(old(fs), t, ino, n, io))
      ensures ok <==> io.persist && io.syncRoot
    {
      if !io.persist {
        Call(Unlink(fs, t));
        return false;
      }
      Call(Install(fs, t, n, ino));
      if !io.syncRoot {
        return false;
      }
      Call(SyncRoot(fs));
      return true;
    }

    /** The system calls of `save`. */
    method SaveCalls(journal: WriteJournal, path: Name, io: Io) returns (ok: bool)
      modifies this
      ensures var t, ino := old(serial), old(inode);
        trace == old(trace) + SaveTrace(old(fs), t, ino, journal, path, io)
        && fs == After(old(fs), SaveTrace(old(fs), t, ino, journal, path, io))
      ensures (serial, inode) ==
        if old(fs.rootExists) && io.openFile then (old(serial) + 1, old(inode) + 1) else (old(serial), old(inode))
      ensures ok <==> Saves(old(fs), io)
    {
      var temporary := WriteTemporary(journal, io);
      if temporary.None? {
        return false;
      }
      ok := Replace(path, temporary.value.0, temporary.value.1, io);
    }

    /** `save`: replaces the journal. A power loss at any moment leaves the old journal or the new one,
        and after success the new one. */
    method Save(journal: WriteJournal, path: Name, io: Io) returns (ok: bool)
      requires Valid() && path == JournalFile(FileOf(journal, sha))
      modifies this
      ensures Valid()
      ensures trace == old(trace) + SaveTrace(old(fs), old(serial), old(inode), journal, path, io)
      ensures fs.rootExists == old(fs.rootExists)
      ensures Saves(old(fs), io) ==> (serial, inode) == (old(serial) + 1, old(inode) + 1)
      ensures forall k :: |old(trace)| <= k < |trace| ==> Harmless(old(fs), trace[k], path, journal)
      ensures ok <==> Saves(old(fs), io)
      ensures ok ==> Shows(fs, path, journal) && SafeIfRooted(fs, path, journal, old(fs.rootDurable))
      ensures !ok ==> SameName(old(fs), fs, path) || Shows(fs, path, journal)
    {
      ghost var before, t, ino := fs, serial, inode;
      ok := SaveCalls(journal, path, io);
      SaveMeans(before, t, ino, journal, io, sha);
      SaveStaysFree(before, t, ino, journal, path, io, sha);
    }

    /** `read`: the journal under the name, if there is one, it is complete and not too large. */
    method Read(path: Name) returns (journal: Option<WriteJournal>)
      requires Valid() && path.JournalFile?
      ensures journal.Some? <==> path in fs.names && forall j :: Shows(fs, path, j) ==> size(j) <= 65536
      ensures journal.Some? ==> Shows(fs, path, journal.value) && JournalFile(FileOf(journal.value, sha)) == path
    {
      assert SoundName(fs, path, sha);
      if path !in fs.names {
        return None;
      }
      assert Some(fs.names[path]) in Candidates(fs, path);
      var content := fs.files[fs.names[path]].content;
      assert Shows(fs, path, content.journal);
      return if content.Whole? && size(content.journal) <= MAX_JOURNAL then Some(content.journal) else None;
    }
  }

  lemma DraftKeepsNames(fs: Fs, t: nat, ino: Inode, j: WriteJournal, io: Io, n: Name)
    requires n.JournalFile?
    ensures n in After(fs, DraftTrace(fs, t, ino, j, io)).names <==> n in fs.names
  {}

  lemma BeginMeans(fs: Fs, t: nat, ino: Inode, j: WriteJournal, io: Io, sha: string -> string)
    requires Sound(fs, sha) && Free(fs, t, ino)
    ensures var n := JournalFile(FileOf(j, sha));
      var states := BeginTrace(fs, t, ino, j, n, io);
      && Sound(After(fs, states), sha)
      && (forall k :: 0 <= k < |states| ==> Harmless(fs, states[k], n, j))
      && Untried(fs, After(fs, states), n, j)
      && (Begins(fs, j, n, io) ==>
        After(fs, states).rootExists && Shows(After(fs, states), n, j) && Durable(After(fs, states), n, j))
  {
    BeginIsHarmless(fs, t, ino, j, io, sha);
    BeginFails(fs, t, ino, j, io, sha);
    if Begins(fs, j, JournalFile(FileOf(j, sha)), io) { BeginSucceeds(fs, t, ino, j, io, sha); }
  }

  lemma SaveMeans(fs: Fs, t: nat, ino: Inode, j: WriteJournal, io: Io, sha: string -> string)
    requires Sound(fs, sha) && Free(fs, t, ino)
    ensures var n := JournalFile(FileOf(j, sha));
      var states := SaveTrace(fs, t, ino, j, n, io);
      && Sound(After(fs, states), sha) && After(fs, states).rootExists == fs.rootExists
      && (forall k :: 0 <= k < |states| ==> Harmless(fs, states[k], n, j))
      && (SameName(fs, After(fs, states), n) || Shows(After(fs, states), n, j))
      && (Saves(fs, io) ==>
        Shows(After(fs, states), n, j) && SafeIfRooted(After(fs, states), n, j, fs.rootDurable))
  {
    SaveIsHarmless(fs, t, ino, j, io, sha);
    SaveOutcome(fs, t, ino, j, io, sha);
  }

  /** A failed publication leaves the name as it was, or the new journal under a name that was free. */
  ghost predicate Untried(before: Fs, after: Fs, n: Name, j: WriteJournal) {
    SameName(before, after, n) || (n !in before.names && Shows(after, n, j))
  }

  /** Processes see the complete journal `j` under `n`. */
  ghost predicate Shows(fs: Fs, n: Name, j: WriteJournal) {
    n in fs.names && fs.names[n] in fs.files && fs.files[fs.names[n]].content == Whole(j)
  }

  lemma Unchanged(fs: Fs, n: Name, j: WriteJournal, sha: string -> string)
    requires Sound(fs, sha)
    ensures Builds(fs, fs, n, j)
  {
    forall m: Name, i | m.JournalFile? && Some(i) in Candidates(fs, m) ensures FromBefore(fs, fs, m, n, i, j) {
      assert SoundName(fs, m, sha);
    }
  }

  lemma SyncParentBuilds(before: Fs, fs: Fs, n: Name, j: WriteJournal)
    requires Builds(before, fs, n, j)
    ensures Builds(before, SyncParent(fs), n, j)
  {
    forall m: Name, i | m.JournalFile? && Some(i) in Candidates(SyncParent(fs), m)
      ensures FromBefore(before, SyncParent(fs), m, n, i, j)
    {
      assert Candidates(fs, m) == Candidates(SyncParent(fs), m);
      assert FromBefore(before, fs, m, n, i, j);
    }
  }

  /** With a single synced candidate, only its content, or nothing in a directory that can be lost, can
      be found. */
  lemma OnlyOutcome(fs: Fs, n: Name, ino: Inode, j: WriteJournal, sha: string -> string)
    requires Sound(fs, sha) && n.JournalFile? && fs.rootExists && Candidates(fs, n) == {Some(ino)}
    requires ino in fs.files && fs.files[ino].content == Whole(j)
    ensures forall c :: MayFind(fs, n, c) <==> c == Some(Whole(j)) || (c.None? && !fs.rootDurable)
  {
    forall c ensures MayFind(fs, n, c) <==> c == Some(Whole(j)) || (c.None? && !fs.rootDurable) {
      MayFindExactly(fs, n, c, sha);
      assert Some(ino) in Candidates(fs, n);
    }
  }

  lemma OpenTempHidden(start: Fs, fs: Fs, t: nat, ino: Inode, sha: string -> string)
    requires Sound(fs, sha) && fs.rootExists && ino !in fs.files && SamePublic(start, fs)
    ensures Sound(OpenTemp(fs, t, ino), sha) && Private(OpenTemp(fs, t, ino), ino)
    ensures SamePublic(start, OpenTemp(fs, t, ino))
  {
    OpenTempSound(fs, t, ino, sha);
    forall file ensures SameName(start, OpenTemp(fs, t, ino), JournalFile(file)) {
      assert SameName(start, fs, JournalFile(file)) && SoundName(fs, JournalFile(file), sha);
    }
  }

  lemma WriteHidden(start: Fs, fs: Fs, ino: Inode, content: Content, sha: string -> string)
    requires Sound(fs, sha) && Private(fs, ino) && ino in fs.files && SamePublic(start, fs)
    ensures Sound(Write(fs, ino, content), sha) && Private(Write(fs, ino, content), ino)
    ensures SamePublic(start, Write(fs, ino, content))
  {
    WriteSound(fs, ino, content, sha);
    forall file ensures SameName(start, Write(fs, ino, content), JournalFile(file)) {
      assert SameName(start, fs, JournalFile(file)) && Some(ino) !in Candidates(fs, JournalFile(file));
    }
    forall file ensures Some(ino) !in Candidates(Write(fs, ino, content), JournalFile(file)) {
      assert Some(ino) !in Candidates(fs, JournalFile(file));
    }
  }

  lemma SyncHidden(start: Fs, fs: Fs, ino: Inode, sha: string -> string)
    requires Sound(fs, sha) && Private(fs, ino) && ino in fs.files && SamePublic(start, fs)
    ensures Sound(SyncFile(fs, ino), sha) && SamePublic(start, SyncFile(fs, ino))
  {
    SyncFileSound(fs, ino, sha);
    forall file ensures SameName(start, SyncFile(fs, ino), JournalFile(file)) {
      assert SameName(start, fs, JournalFile(file)) && Some(ino) !in Candidates(fs, JournalFile(file));
    }
  }
}
