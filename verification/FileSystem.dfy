/** The journal directory as the operating system keeps it: what processes see, and what a power loss
    may leave. Directory entries are durable after the directory is synced, the directory itself after
    its parent is synced, file contents after the file is synced. */
module FileSystem {
  import opened ByteStrings
  import opened Journals

  type Inode = nat
  datatype Name = JournalFile(file: string) | TempFile(serial: nat)

  /** File contents: a complete serialized journal, or anything else. */
  datatype Content = Torn | Whole(journal: WriteJournal)
  datatype File = File(content: Content, synced: bool)

  /** `names` is what processes see; `candidates` lists, per name, the entries a power loss may leave. */
  datatype Fs = Fs(
    rootExists: bool,
    rootDurable: bool,
    files: map<Inode, File>,
    names: map<Name, Inode>,
    candidates: map<Name, set<Option<Inode>>>)

  function Entry(fs: Fs, n: Name): (e: Option<Inode>) {
    if n in fs.names then Some(fs.names[n]) else None
  }

  function Candidates(fs: Fs, n: Name): (c: set<Option<Inode>>) {
    if n in fs.candidates then fs.candidates[n] else {None}
  }

  // ----- system calls -----

  /** `create_dir_all`. */
  function MakeRoot(fs: Fs): (r: Fs) {
    if fs.rootExists then fs else fs.(rootExists := true, rootDurable := false)
  }

  function SetEntry(fs: Fs, n: Name, e: Option<Inode>): (r: Fs) {
    fs.(names := if e.Some? then fs.names[n := e.value] else fs.names - {n},
        candidates := fs.candidates[n := Candidates(fs, n) + {e}])
  }

  function OpenTemp(fs: Fs, t: nat, ino: Inode): (r: Fs) {
    SetEntry(fs.(files := fs.files[ino := File(Torn, false)]), TempFile(t), Some(ino))
  }

  function Write(fs: Fs, ino: Inode, content: Content): (r: Fs) {
    fs.(files := fs.files[ino := File(content, false)])
  }

  function SyncFile(fs: Fs, ino: Inode): (r: Fs)
    requires ino in fs.files
  {
    fs.(files := fs.files[ino := fs.files[ino].(synced := true)])
  }

  /** Moves a temporary file to its final name, replacing what is there (`persist`) or, when the caller
      saw no entry, publishing it (`persist_noclobber`). */
  function Install(fs: Fs, t: nat, n: Name, ino: Inode): (r: Fs) {
    SetEntry(SetEntry(fs, n, Some(ino)), TempFile(t), None)
  }

  function Unlink(fs: Fs, t: nat): (r: Fs) {
    SetEntry(fs, TempFile(t), None)
  }

  function SyncRoot(fs: Fs): (r: Fs) {
    fs.(candidates := map n | n in fs.names :: {Some(fs.names[n])})
  }

  function SyncParent(fs: Fs): (r: Fs) {
    fs.(rootDurable := fs.rootExists)
  }

  // ----- power loss -----

  /** `after` is a state that a power loss in state `before` may leave on the disk. */
  ghost predicate PowerLoss(before: Fs, after: Fs) {
    && (after.rootExists ==> before.rootExists)
    && (before.rootExists && before.rootDurable ==> after.rootExists)
    && after.rootDurable == after.rootExists
    && after.files.Keys == before.files.Keys
    && (forall i :: i in before.files ==>
          if before.files[i].synced then after.files[i] == before.files[i] else after.files[i].synced)
    && (if after.rootExists then forall n :: Entry(after, n) in Candidates(before, n) else after.names == map[])
    && after.candidates == map n | n in after.names :: {Some(after.names[n])}
  }

  /** What reading a name finds. */
  function Look(fs: Fs, n: Name): (c: Option<Content>)
    requires n in fs.names ==> fs.names[n] in fs.files
  {
    if n in fs.names then Some(fs.files[fs.names[n]].content) else None
  }

  // ----- the invariant of the directory -----

  /** A file that may stand under the journal name `file`: complete and synced, for that very place. */
  ghost predicate Complete(f: File, file: string, sha: string -> string) {
    f.synced && f.content.Whole? && FileOf(f.content.journal, sha) == file
  }

  ghost predicate SoundName(fs: Fs, n: Name, sha: string -> string) {
    && Entry(fs, n) in Candidates(fs, n)
    && (forall i :: Some(i) in Candidates(fs, n) ==>
          i in fs.files && (n.JournalFile? ==> Complete(fs.files[i], n.file, sha)))
    && (n.JournalFile? && n !in fs.names ==> Candidates(fs, n) == {None})
    && (!fs.rootExists ==> n !in fs.names && Candidates(fs, n) == {None})
  }

  /** Nothing but complete journals ever stands, or can come to stand, under a journal name. */
  ghost predicate Sound(fs: Fs, sha: string -> string) {
    forall n :: SoundName(fs, n, sha)
  }

  /** The entry under `n` cannot be lost with the directory's unsynced changes. */
  ghost predicate Settled(fs: Fs, n: Name) {
    fs.rootExists && None !in Candidates(fs, n)
  }

  /** The entry under `n` survives any power loss. */
  ghost predicate Anchored(fs: Fs, n: Name) {
    Settled(fs, n) && fs.rootDurable
  }

  /** No journal name leads, or can come to lead, to this file. */
  ghost predicate Private(fs: Fs, ino: Inode) {
    forall file :: Some(ino) !in Candidates(fs, JournalFile(file))
  }

  // ----- what each call keeps -----

  lemma MakeRootSound(fs: Fs, sha: string -> string)
    requires Sound(fs, sha)
    ensures Sound(MakeRoot(fs), sha)
    ensures forall n :: Anchored(fs, n) ==> Anchored(MakeRoot(fs), n)
  {
    forall n ensures SoundName(MakeRoot(fs), n, sha) { assert SoundName(fs, n, sha); }
  }

  lemma OpenTempSound(fs: Fs, t: nat, ino: Inode, sha: string -> string)
    requires Sound(fs, sha) && fs.rootExists && ino !in fs.files
    ensures Sound(OpenTemp(fs, t, ino), sha) && Private(OpenTemp(fs, t, ino), ino)
  {
    var r := OpenTemp(fs, t, ino);
    forall n ensures SoundName(r, n, sha) { assert SoundName(fs, n, sha); }
    forall file ensures Some(ino) !in Candidates(r, JournalFile(file)) { assert SoundName(fs, JournalFile(file), sha); }
  }

  lemma WriteSound(fs: Fs, ino: Inode, content: Content, sha: string -> string)
    requires Sound(fs, sha) && Private(fs, ino) && ino in fs.files
    ensures Sound(Write(fs, ino, content), sha)
  {
    forall n ensures SoundName(Write(fs, ino, content), n, sha) { assert SoundName(fs, n, sha); }
  }

  lemma SyncFileSound(fs: Fs, ino: Inode, sha: string -> string)
    requires Sound(fs, sha) && ino in fs.files
    ensures Sound(SyncFile(fs, ino), sha)
  {
    forall n ensures SoundName(SyncFile(fs, ino), n, sha) { assert SoundName(fs, n, sha); }
  }

  lemma InstallSound(fs: Fs, t: nat, file: string, ino: Inode, sha: string -> string)
    requires Sound(fs, sha) && fs.rootExists && ino in fs.files && Complete(fs.files[ino], file, sha)
    ensures Sound(Install(fs, t, JournalFile(file), ino), sha)
    ensures forall n: Name :: n.JournalFile? && Settled(fs, n) ==> Settled(Install(fs, t, JournalFile(file), ino), n)
  {
    var r := Install(fs, t, JournalFile(file), ino);
    forall n ensures SoundName(r, n, sha) { assert SoundName(fs, n, sha); }
  }

  lemma UnlinkSound(fs: Fs, t: nat, sha: string -> string)
    requires Sound(fs, sha)
    ensures Sound(Unlink(fs, t), sha)
  {
    forall n ensures SoundName(Unlink(fs, t), n, sha) { assert SoundName(fs, n, sha); }
  }

  lemma SyncRootSound(fs: Fs, sha: string -> string)
    requires Sound(fs, sha)
    ensures Sound(SyncRoot(fs), sha)
    ensures forall n :: Candidates(SyncRoot(fs), n) == {Entry(fs, n)}
    ensures forall n :: Settled(fs, n) ==> Settled(SyncRoot(fs), n)
  {
    forall n ensures Candidates(SyncRoot(fs), n) == {Entry(fs, n)} {}
    forall n ensures SoundName(SyncRoot(fs), n, sha) { assert SoundName(fs, n, sha); }
    forall n | Settled(fs, n) ensures Settled(SyncRoot(fs), n) { assert SoundName(fs, n, sha); }
  }

  lemma SyncParentSound(fs: Fs, sha: string -> string)
    requires Sound(fs, sha)
    ensures Sound(SyncParent(fs), sha)
    ensures forall n :: Settled(fs, n) ==> Anchored(SyncParent(fs), n)
  {
    forall n ensures SoundName(SyncParent(fs), n, sha) { assert SoundName(fs, n, sha); }
  }

  /** A power loss leaves a sound directory, keeps every anchored entry, and tears no journal: what
      then stands under a journal name is complete and stood or was to stand there before. */
  lemma PowerLossSound(before: Fs, after: Fs, sha: string -> string)
    requires Sound(before, sha) && PowerLoss(before, after)
    ensures Sound(after, sha)
    ensures forall n :: Anchored(before, n) ==> Anchored(after, n)
    ensures forall n: Name :: n.JournalFile? && n in after.names ==>
      Some(after.names[n]) in Candidates(before, n) && after.names[n] in before.files
      && after.files[after.names[n]] == before.files[after.names[n]]
  {
    forall n ensures SoundName(after, n, sha) {
      assert SoundName(before, n, sha);
      if after.rootExists { assert Entry(after, n) in Candidates(before, n); }
    }
    forall n | Anchored(before, n) ensures Anchored(after, n) {
      assert Entry(after, n) in Candidates(before, n);
    }
    forall n: Name | n.JournalFile? && n in after.names
      ensures Some(after.names[n]) in Candidates(before, n) && after.names[n] in before.files
        && after.files[after.names[n]] == before.files[after.names[n]]
    {
      assert SoundName(before, n, sha) && Entry(after, n) in Candidates(before, n);
    }
  }

  // ----- what may be found after a power loss -----

  /** Reading `n` after a power loss in `fs` may give `c`. */
  ghost predicate MayFind(fs: Fs, n: Name, c: Option<Content>) {
    exists after ::
      PowerLoss(fs, after) && (n in after.names ==> after.names[n] in after.files) && Look(after, n) == c
  }

  /** Some candidate file of `n` holds `content`. */
  ghost predicate CandidateHolds(fs: Fs, n: Name, content: Content) {
    exists i :: Some(i) in Candidates(fs, n) && i in fs.files && fs.files[i].content == content
  }

  /** Exactly what a journal name may hold after a power loss: nothing, if its entry or the directory
      can be lost, and any candidate file as it is now. */
  lemma MayFindExactly(fs: Fs, n: Name, c: Option<Content>, sha: string -> string)
    requires Sound(fs, sha) && n.JournalFile?
    ensures MayFind(fs, n, c) <==> if c.None? then !Anchored(fs, n) else CandidateHolds(fs, n, c.value)
  {
    if MayFind(fs, n, c) {
      MayFindOnly(fs, n, c, sha);
    }
    if c.None? && !Anchored(fs, n) {
      LossPossible(fs, n, sha);
    }
    if c.Some? && CandidateHolds(fs, n, c.value) {
      var i :| Some(i) in Candidates(fs, n) && i in fs.files && fs.files[i].content == c.value;
      SurvivalPossible(fs, n, i, sha);
    }
  }

  lemma MayFindOnly(fs: Fs, n: Name, c: Option<Content>, sha: string -> string)
    requires Sound(fs, sha) && n.JournalFile? && MayFind(fs, n, c)
    ensures if c.None? then !Anchored(fs, n) else CandidateHolds(fs, n, c.value)
  {
    var after :| PowerLoss(fs, after) && (n in after.names ==> after.names[n] in after.files) && Look(after, n) == c;
    PowerLossSound(fs, after, sha);
    if c.Some? {
      assert fs.files[after.names[n]].content == c.value;
    } else {
      assert SoundName(after, n, sha);
    }
  }

  /** The disk after a power loss that kept the directory with exactly these entries. */
  ghost function Surviving(fs: Fs, names: map<Name, Inode>): (after: Fs) {
    Fs(true, true, map i | i in fs.files :: fs.files[i].(synced := true), names,
       map n | n in names :: {Some(names[n])})
  }

  lemma LossPossible(fs: Fs, n: Name, sha: string -> string)
    requires Sound(fs, sha) && !Anchored(fs, n)
    ensures MayFind(fs, n, None)
  {
    var after :=
      if fs.rootExists && fs.rootDurable then Surviving(fs, fs.names - {n})
      else Surviving(fs, map[]).(rootExists := false, rootDurable := false);
    forall m ensures Entry(fs, m) in Candidates(fs, m) { assert SoundName(fs, m, sha); }
    assert PowerLoss(fs, after);
    assert Look(after, n) == None;
  }

  lemma SurvivalPossible(fs: Fs, n: Name, i: Inode, sha: string -> string)
    requires Sound(fs, sha) && Some(i) in Candidates(fs, n) && i in fs.files
    ensures MayFind(fs, n, Some(fs.files[i].content))
  {
    var after := Surviving(fs, fs.names[n := i]);
    assert SoundName(fs, n, sha);
    forall m ensures Entry(after, m) in Candidates(fs, m) { assert SoundName(fs, m, sha); }
    assert PowerLoss(fs, after);
    assert Look(after, n) == Some(fs.files[i].content);
  }
}
