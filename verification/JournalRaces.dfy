/** Reconciling takes no lock. A run that saves a journal may so undo what another run has saved since
    it read; this is when, over all runs of the protocol, and one run in which it happens. */
module JournalRaces {
  import opened ByteStrings
  import opened Destinations
  import opened Journals
  import opened FileSystem
  import opened WriteProtocol
  import opened ProtocolProgress

  /** The journal that processes see under a file name. */
  ghost function Visible(fs: Fs, file: string): (j: Option<WriteJournal>) {
    var n := JournalFile(file);
    if n in fs.names && fs.names[n] in fs.files && fs.files[fs.names[n]].content.Whole?
    then Some(fs.files[fs.names[n]].content.journal) else None
  }

  /** The run publishes, reads or saves its journal: what it holds is then up to date. */
  predicate Takes(step: Step, pid: nat) {
    step == DoPublish(pid) || step == DoRead(pid) || step == DoRename(pid)
  }

  /** Another run saves its own journal under the file name. */
  ghost predicate Overwrites(w: World, step: Step, pid: nat, file: string) {
    step.DoRename? && step.pid != pid && step.pid in w.procs && w.procs[step.pid].file == file
  }

  /** What the run holds, it has from the visible journal. */
  ghost predicate Tracks(w: World, pid: nat, file: string) {
    pid in w.procs && w.procs[pid].file == file && Holds(w.procs[pid].pc) ==>
      Visible(w.fs, file).Some? && Advances(Visible(w.fs, file).value, w.procs[pid].journal)
  }

  // ----- what the system calls do to the visible journal -----

  /** A visible journal stays as it is. */
  ghost predicate Kept(a: Fs, b: Fs, file: string) {
    Visible(a, file).Some? ==> Visible(b, file) == Visible(a, file)
  }

  lemma WriteKept(fs: Fs, ino: Inode, content: Content, file: string, sha: string -> string)
    requires Sound(fs, sha) && Private(fs, ino)
    ensures Kept(fs, Write(fs, ino, content), file)
  {
    assert SoundName(fs, JournalFile(file), sha);
    assert Some(ino) !in Candidates(fs, JournalFile(file));
  }

  lemma InstallShows(fs: Fs, t: nat, file: string, ino: Inode, j: WriteJournal)
    requires ino in fs.files && fs.files[ino].content == Whole(j)
    ensures Visible(Install(fs, t, JournalFile(file), ino), file) == Some(j)
    ensures forall other :: other != file ==> Kept(fs, Install(fs, t, JournalFile(file), ino), other)
  {}

  lemma OpenStepKept(w: World, r: World, pid: nat, temp: nat, ino: Inode, file: string)
    requires Opens(w, r, pid, temp, ino)
    ensures Kept(w.fs, r.fs, file)
  {}

  lemma WriteStepKept(w: World, r: World, pid: nat, whole: bool, file: string, sha: string -> string)
    requires Inv(w, sha) && Writes(w, r, pid, whole)
    ensures Kept(w.fs, r.fs, file)
  {
    var p := w.procs[pid];
    assert ProcOk(w.fs, p, w.facts, sha);
    WriteKept(w.fs, p.pc.ino, if whole then Whole(p.journal) else Torn, file, sha);
  }

  lemma SyncFileStepKept(w: World, r: World, pid: nat, file: string)
    requires SyncsFile(w, r, pid)
    ensures Kept(w.fs, r.fs, file)
  {}

  lemma DieStepKept(w: World, r: World, pid: nat, cleanup: bool, file: string)
    requires Dies(w, r, pid, cleanup)
    ensures Kept(w.fs, r.fs, file)
  {}

  lemma DirectoryStepKept(w: World, r: World, pid: nat, file: string)
    requires MakesRoot(w, r, pid) || SyncsRoot(w, r, pid) || SyncsParent(w, r, pid)
    ensures Kept(w.fs, r.fs, file)
  {}

  lemma QuietStepKept(w: World, r: World, file: string)
    requires r.fs == w.fs
    ensures Kept(w.fs, r.fs, file)
  {}

  /** No step but a power failure and an installation under its own name changes what is visible there. */
  lemma StepKept(w: World, r: World, step: Step, file: string, sha: string -> string)
    requires Inv(w, sha) && Next(w, r, step, sha) && !step.PowerFails?
    requires step.DoPublish? || step.DoRename? ==> w.procs[step.pid].file != file
    ensures Kept(w.fs, r.fs, file)
  {
    match step
    case DoMakeRoot(pid) => DirectoryStepKept(w, r, pid, file);
    case DoOpen(pid, temp, ino) => OpenStepKept(w, r, pid, temp, ino, file);
    case DoWrite(pid, whole) => WriteStepKept(w, r, pid, whole, file, sha);
    case DoSyncFile(pid) => SyncFileStepKept(w, r, pid, file);
    case DoPublish(pid) => StepInstalls(w, r, step, sha); InstallVisible(w.fs, r.fs, w.procs[pid]);
    case DoRename(pid) => StepInstalls(w, r, step, sha); InstallVisible(w.fs, r.fs, w.procs[pid]);
    case DoSyncRoot(pid) => DirectoryStepKept(w, r, pid, file);
    case DoSyncParent(pid) => DirectoryStepKept(w, r, pid, file);
    case Die(pid, cleanup) => DieStepKept(w, r, pid, cleanup, file);
    case _ => QuietStepKept(w, r, file);
  }

  /** A process with a ready file installs it under its own name. */
  ghost predicate Installs(fs: Fs, after: Fs, p: Proc) {
    p.pc.Synced? && DraftOk(fs, p) && after == Install(fs, p.pc.temp, JournalFile(p.file), p.pc.ino)
  }

  /** Publishing and saving make the run's own journal visible, and keep what is visible elsewhere. */
  lemma InstallVisible(fs: Fs, after: Fs, p: Proc)
    requires Installs(fs, after, p)
    ensures Visible(after, p.file) == Some(p.journal)
    ensures forall file :: file != p.file ==> Kept(fs, after, file)
  {
    InstallShows(fs, p.pc.temp, p.file, p.pc.ino, p.journal);
  }

  lemma StepInstalls(w: World, r: World, step: Step, sha: string -> string)
    requires Inv(w, sha) && Next(w, r, step, sha) && (step.DoPublish? || step.DoRename?)
    ensures step.pid in w.procs && Installs(w.fs, r.fs, w.procs[step.pid])
  {
    assert ProcOk(w.fs, w.procs[step.pid], w.facts, sha);
  }

  // ----- one run against the others -----

  lemma AdvancesRefl(j: WriteJournal)
    ensures Advances(j, j)
  {}

  /** A run that publishes, reads or saves holds what is visible, or a later version of it. */
  lemma TakeTracks(w: World, r: World, step: Step, pid: nat, file: string, sha: string -> string)
    requires Inv(w, sha) && Next(w, r, step, sha) && Takes(step, pid)
    ensures Tracks(r, pid, file)
  {
    if step != DoRead(pid) {
      StepInstalls(w, r, step, sha);
      InstallVisible(w.fs, r.fs, w.procs[pid]);
      AdvancesRefl(w.procs[pid].journal);
    }
  }

  lemma OthersStepKeeps(w: World, r: World, step: Step, pid: nat, sha: string -> string)
    requires Next(w, r, step, sha) && !step.PowerFails? && step.pid != pid && pid in w.procs
    ensures pid in r.procs ==> r.procs[pid] == w.procs[pid]
  {}

  lemma ReceiveAdvances(w: World, r: World, pid: nat, answer: Answer, sha: string -> string)
    requires pid in w.procs && ProcOk(w.fs, w.procs[pid], w.facts, sha) && Receives(w, r, pid, answer)
    ensures r.procs[pid].file == w.procs[pid].file && Holds(w.procs[pid].pc)
    ensures forall j :: Advances(j, w.procs[pid].journal) ==> Advances(j, r.procs[pid].journal)
  {
  }

  lemma CheckAdvances(w: World, r: World, pid: nat, ok: bool, sha: string -> string)
    requires pid in w.procs && ProcOk(w.fs, w.procs[pid], w.facts, sha) && Checks(w, r, pid, ok)
    ensures r.procs[pid].file == w.procs[pid].file && Holds(w.procs[pid].pc)
    ensures forall j :: Advances(j, w.procs[pid].journal) ==> Advances(j, r.procs[pid].journal)
  {
  }

  /** Between its takes, a run only moves on in what it holds. */
  lemma OwnStepMovesOn(w: World, r: World, step: Step, pid: nat, sha: string -> string)
    requires Next(w, r, step, sha) && !step.PowerFails? && step.pid == pid && !Takes(step, pid)
    requires !step.DoReceive? && !step.DoCheck?
    requires pid in w.procs && pid in r.procs && Holds(r.procs[pid].pc)
    ensures r.procs[pid].file == w.procs[pid].file && Holds(w.procs[pid].pc)
    ensures r.procs[pid].journal == w.procs[pid].journal
  {}

  /** What a run does to the journal in its own memory. */
  lemma OwnStepAdvances(w: World, r: World, step: Step, pid: nat, sha: string -> string)
    requires pid in w.procs && ProcOk(w.fs, w.procs[pid], w.facts, sha)
    requires Next(w, r, step, sha) && !step.PowerFails? && !Takes(step, pid)
    requires pid in r.procs && Holds(r.procs[pid].pc)
    ensures r.procs[pid].file == w.procs[pid].file && Holds(w.procs[pid].pc)
    ensures forall j :: Advances(j, w.procs[pid].journal) ==> Advances(j, r.procs[pid].journal)
  {
    if step.pid != pid {
      OthersStepKeeps(w, r, step, pid, sha);
    } else if step.DoReceive? {
      ReceiveAdvances(w, r, pid, step.answer, sha);
    } else if step.DoCheck? {
      CheckAdvances(w, r, pid, step.ok, sha);
    } else {
      OwnStepMovesOn(w, r, step, pid, sha);
    }
  }

  /** Nothing but another run's save separates a run from the visible journal. */
  lemma StepTracks(w: World, r: World, step: Step, pid: nat, file: string, sha: string -> string)
    requires Inv(w, sha) && Next(w, r, step, sha)
    requires Tracks(w, pid, file) && !Overwrites(w, step, pid, file)
    ensures Tracks(r, pid, file)
  {
    if Takes(step, pid) {
      TakeTracks(w, r, step, pid, file, sha);
    } else if pid in r.procs && r.procs[pid].file == file && Holds(r.procs[pid].pc) {
      NewRunsHoldNothing(w, r, step, pid, sha);
      assert ProcOk(w.fs, w.procs[pid], w.facts, sha);
      OwnStepAdvances(w, r, step, pid, sha);
      StepKept(w, r, step, file, sha);
    }
  }

  lemma NewRunsHoldNothing(w: World, r: World, step: Step, pid: nat, sha: string -> string)
    requires Next(w, r, step, sha) && pid in r.procs && Holds(r.procs[pid].pc)
    ensures pid in w.procs && !step.PowerFails?
  {}

  // ----- whole runs -----

  /** The run with this pid last took its journal at step `s`, seen from step `k`. */
  ghost predicate LastTake(steps: seq<Step>, s: nat, k: nat, pid: nat) {
    s < k <= |steps| && Takes(steps[s], pid) && forall i :: s < i < k ==> !Takes(steps[i], pid)
  }

  /** No other run saves under the file name from step `i` up to step `k`. */
  ghost predicate Undisturbed(ws: seq<World>, steps: seq<Step>, i: nat, k: nat, pid: nat, file: string)
    requires |ws| == |steps| + 1 && k <= |steps|
  {
    forall m :: i <= m < k ==> !Overwrites(ws[m], steps[m], pid, file)
  }

  /** The lemmas about one step, at a step of a run. */
  lemma StepInRun(ws: seq<World>, steps: seq<Step>, k: nat, sha: string -> string)
    requires IsRun(ws, steps, sha) && k < |steps|
    ensures Inv(ws[k], sha) && Next(ws[k], ws[k + 1], steps[k], sha)
  {
    RunInvariant(ws, steps, k, sha);
    assert StepAt(ws, steps, k, sha);
  }

  lemma TakeInRun(ws: seq<World>, steps: seq<Step>, k: nat, pid: nat, file: string, sha: string -> string)
    requires IsRun(ws, steps, sha) && k < |steps| && Takes(steps[k], pid)
    ensures Tracks(ws[k + 1], pid, file)
  {
    StepInRun(ws, steps, k, sha);
    TakeTracks(ws[k], ws[k + 1], steps[k], pid, file, sha);
  }

  lemma TrackInRun(ws: seq<World>, steps: seq<Step>, k: nat, pid: nat, file: string, sha: string -> string)
    requires IsRun(ws, steps, sha) && k < |steps|
    requires Tracks(ws[k], pid, file) && !Overwrites(ws[k], steps[k], pid, file)
    ensures Tracks(ws[k + 1], pid, file)
  {
    StepInRun(ws, steps, k, sha);
    StepTracks(ws[k], ws[k + 1], steps[k], pid, file, sha);
  }

  lemma SaveInRun(ws: seq<World>, steps: seq<Step>, k: nat, pid: nat, sha: string -> string)
    requires IsRun(ws, steps, sha) && k < |steps| && steps[k] == DoRename(pid) && pid in ws[k].procs
    ensures Visible(ws[k + 1].fs, ws[k].procs[pid].file) == Some(ws[k].procs[pid].journal)
    ensures Holds(ws[k].procs[pid].pc)
  {
    StepInRun(ws, steps, k, sha);
    StepInstalls(ws[k], ws[k + 1], steps[k], sha);
    InstallVisible(ws[k].fs, ws[k + 1].fs, ws[k].procs[pid]);
  }

  lemma HoldInRun(ws: seq<World>, steps: seq<Step>, k: nat, pid: nat, sha: string -> string)
    requires IsRun(ws, steps, sha) && k < |steps| && !Takes(steps[k], pid)
    requires pid in ws[k + 1].procs && Holds(ws[k + 1].procs[pid].pc)
    ensures !steps[k].PowerFails? && pid in ws[k].procs && Holds(ws[k].procs[pid].pc)
    ensures ws[k].procs[pid].file == ws[k + 1].procs[pid].file
  {
    StepInRun(ws, steps, k, sha);
    NewRunsHoldNothing(ws[k], ws[k + 1], steps[k], pid, sha);
    assert ProcOk(ws[k].fs, ws[k].procs[pid], ws[k].facts, sha);
    OwnStepAdvances(ws[k], ws[k + 1], steps[k], pid, sha);
  }

  lemma KeptInRun(ws: seq<World>, steps: seq<Step>, k: nat, pid: nat, sha: string -> string)
    requires IsRun(ws, steps, sha) && k < |steps| && !Takes(steps[k], pid) && !steps[k].PowerFails?
    requires pid in ws[k].procs && Holds(ws[k].procs[pid].pc)
    requires !Overwrites(ws[k], steps[k], pid, ws[k].procs[pid].file)
    ensures Kept(ws[k].fs, ws[k + 1].fs, ws[k].procs[pid].file)
  {
    StepInRun(ws, steps, k, sha);
    assert ProcOk(ws[k].fs, ws[k].procs[pid], ws[k].facts, sha);
    NobodyElseInstalls(ws[k], ws[k + 1], steps[k], pid, sha);
    StepKept(ws[k], ws[k + 1], steps[k], ws[k].procs[pid].file, sha);
  }

  /** Under a name that a run holds, only a save by some other run installs anything but its own takes. */
  lemma NobodyElseInstalls(w: World, r: World, step: Step, pid: nat, sha: string -> string)
    requires pid in w.procs && ProcOk(w.fs, w.procs[pid], w.facts, sha)
    requires Next(w, r, step, sha) && !Takes(step, pid)
    requires Holds(w.procs[pid].pc) && !Overwrites(w, step, pid, w.procs[pid].file)
    ensures step.DoPublish? || step.DoRename? ==> w.procs[step.pid].file != w.procs[pid].file
  {
  }

  lemma {:induction false} RunTracks(
      ws: seq<World>, steps: seq<Step>, s: nat, k: nat, pid: nat, file: string, sha: string -> string)
    requires IsRun(ws, steps, sha) && s < k <= |steps| && Takes(steps[s], pid)
    requires Undisturbed(ws, steps, s + 1, k, pid, file)
    ensures Tracks(ws[k], pid, file)
  {
    if s == k - 1 {
      TakeInRun(ws, steps, s, pid, file, sha);
    } else {
      RunTracks(ws, steps, s, k - 1, pid, file, sha);
      TrackInRun(ws, steps, k - 1, pid, file, sha);
    }
  }

  /** A save advances the visible journal whenever no other run has saved under that name since the
      saving run published it, read it or last saved it. */
  lemma UndisturbedSaveAdvances(
      ws: seq<World>, steps: seq<Step>, s: nat, k: nat, pid: nat, sha: string -> string)
    requires IsRun(ws, steps, sha) && s < k < |steps| && Takes(steps[s], pid) && steps[k] == DoRename(pid)
    requires pid in ws[k].procs && Undisturbed(ws, steps, s + 1, k, pid, ws[k].procs[pid].file)
    ensures var before, after := Visible(ws[k].fs, ws[k].procs[pid].file), Visible(ws[k + 1].fs, ws[k].procs[pid].file);
      before.Some? && after == Some(ws[k].procs[pid].journal) && Advances(before.value, after.value)
  {
    var file := ws[k].procs[pid].file;
    RunTracks(ws, steps, s, k, pid, file, sha);
    SaveInRun(ws, steps, k, pid, sha);
  }

  /** A run that holds its journal has held it ever since it took it. */
  lemma {:induction false} HeldSince(
      ws: seq<World>, steps: seq<Step>, s: nat, i: nat, k: nat, pid: nat, sha: string -> string)
    requires IsRun(ws, steps, sha) && LastTake(steps, s, k, pid) && s < i <= k
    requires pid in ws[k].procs && Holds(ws[k].procs[pid].pc)
    ensures pid in ws[i].procs && Holds(ws[i].procs[pid].pc) && ws[i].procs[pid].file == ws[k].procs[pid].file
    ensures i < k ==> !steps[i].PowerFails?
    decreases k - i
  {
    if i < k {
      HeldSince(ws, steps, s, i + 1, k, pid, sha);
      HoldInRun(ws, steps, i, pid, sha);
    }
  }

  /** What another run saved stays visible until somebody saves again. */
  lemma {:induction false} SavedStaysVisible(
      ws: seq<World>, steps: seq<Step>, s: nat, m: nat, i: nat, k: nat, pid: nat, sha: string -> string)
    requires IsRun(ws, steps, sha) && LastTake(steps, s, k, pid) && s < m < i <= k
    requires pid in ws[k].procs && Holds(ws[k].procs[pid].pc)
    requires Overwrites(ws[m], steps[m], pid, ws[k].procs[pid].file)
    requires Undisturbed(ws, steps, m + 1, k, pid, ws[k].procs[pid].file)
    ensures Visible(ws[i].fs, ws[k].procs[pid].file) == Some(ws[m].procs[steps[m].pid].journal)
  {
    if i == m + 1 {
      SaveInRun(ws, steps, m, steps[m].pid, sha);
    } else {
      SavedStaysVisible(ws, steps, s, m, i - 1, k, pid, sha);
      HeldSince(ws, steps, s, i - 1, k, pid, sha);
      KeptInRun(ws, steps, i - 1, pid, sha);
    }
  }

  /** The first receipt binds nothing that the second does not. */
  predicate Compatible(first: WriteReceipt, second: WriteReceipt) {
    && (first.itemId.Some? ==> second.itemId == first.itemId)
    && (first.status == Verified ==> second.status == Verified)
  }

  /** Since the run took its journal, other runs saved, and the last of them saved a receipt that this
      one does not carry on. */
  ghost predicate Overtaken(ws: seq<World>, steps: seq<Step>, s: nat, k: nat, pid: nat)
    requires |ws| == |steps| + 1 && k < |steps| && pid in ws[k].procs
  {
    exists m :: s < m < k && OvertakenBy(ws, steps, m, k, pid)
  }

  ghost predicate OvertakenBy(ws: seq<World>, steps: seq<Step>, m: nat, k: nat, pid: nat)
    requires |ws| == |steps| + 1 && m < k < |steps| && pid in ws[k].procs
  {
    && Overwrites(ws[m], steps[m], pid, ws[k].procs[pid].file)
    && Undisturbed(ws, steps, m + 1, k, pid, ws[k].procs[pid].file)
    && !Compatible(ws[m].procs[steps[m].pid].journal.receipt, ws[k].procs[pid].journal.receipt)
  }

  /** All that ever stands under a name was begun as one journal. */
  lemma HeldIsOneAttempt(w: World, pid: nat, sha: string -> string)
    requires Inv(w, sha) && pid in w.procs && Holds(w.procs[pid].pc)
    requires Visible(w.fs, w.procs[pid].file).Some?
    ensures var j := Visible(w.fs, w.procs[pid].file).value;
      Begun(j) == Begun(w.procs[pid].journal) && Consistent(j.receipt) && Consistent(w.procs[pid].journal.receipt)
  {
    var p := w.procs[pid];
    assert ProcOk(w.fs, p, w.facts, sha);
    assert SoundName(w.fs, JournalFile(p.file), sha);
    assert Carries(w.fs, w.fs.names[JournalFile(p.file)], Begun(p.journal), w.facts);
  }

  lemma SameBeginning(j: WriteJournal, k: WriteJournal)
    requires Begun(j) == Begun(k) && Consistent(j.receipt) && Consistent(k.receipt)
    ensures Advances(j, k) <==> Compatible(j.receipt, k.receipt)
  {
    var base := Begun(j);
    assert base.server == j.server && base.destination == j.destination && base.fields == j.fields;
    assert base.server == k.server && base.destination == k.destination && base.fields == k.fields;
    assert j.receipt.attemptId == base.receipt.attemptId == k.receipt.attemptId;
  }

  /** The last step of a stretch at which another run saved, if there is one. */
  lemma {:induction false} LastOverwrite(
      ws: seq<World>, steps: seq<Step>, i: nat, k: nat, pid: nat, file: string) returns (m: nat)
    requires |ws| == |steps| + 1 && i <= k <= |steps| && !Undisturbed(ws, steps, i, k, pid, file)
    ensures i <= m < k && Overwrites(ws[m], steps[m], pid, file) && Undisturbed(ws, steps, m + 1, k, pid, file)
    decreases k - i
  {
    if Undisturbed(ws, steps, i + 1, k, pid, file) {
      m := i;
    } else {
      m := LastOverwrite(ws, steps, i + 1, k, pid, file);
    }
  }

  /** In every run, a save keeps what the visible journal binds exactly when the saving run has not been
      overtaken since it took its journal. */
  lemma SaveAdvancesExactly(ws: seq<World>, steps: seq<Step>, s: nat, k: nat, pid: nat, sha: string -> string)
    requires IsRun(ws, steps, sha) && k < |steps| && LastTake(steps, s, k, pid) && steps[k] == DoRename(pid)
    requires pid in ws[k].procs
    ensures var before, after := Visible(ws[k].fs, ws[k].procs[pid].file), Visible(ws[k + 1].fs, ws[k].procs[pid].file);
      && before.Some? && after == Some(ws[k].procs[pid].journal)
      && (Advances(before.value, after.value) <==> !Overtaken(ws, steps, s, k, pid))
  {
    var file := ws[k].procs[pid].file;
    SaveInRun(ws, steps, k, pid, sha);
    if Undisturbed(ws, steps, s + 1, k, pid, file) {
      UndisturbedSaveAdvances(ws, steps, s, k, pid, sha);
    } else {
      var m := LastOverwrite(ws, steps, s + 1, k, pid, file);
      SavedStaysVisible(ws, steps, s, m, k, k, pid, sha);
      RunInvariant(ws, steps, k, sha);
      HeldIsOneAttempt(ws[k], pid, sha);
      SameBeginning(ws[m].procs[steps[m].pid].journal, ws[k].procs[pid].journal);
      OnlyLast(ws, steps, s, m, k, pid);
    }
  }

  lemma OnlyLast(ws: seq<World>, steps: seq<Step>, s: nat, m: nat, k: nat, pid: nat)
    requires |ws| == |steps| + 1 && s < m < k < |steps| && pid in ws[k].procs
    requires Overwrites(ws[m], steps[m], pid, ws[k].procs[pid].file)
    requires Undisturbed(ws, steps, m + 1, k, pid, ws[k].procs[pid].file)
    ensures Overtaken(ws, steps, s, k, pid) <==>
      !Compatible(ws[m].procs[steps[m].pid].journal.receipt, ws[k].procs[pid].journal.receipt)
  {
    if Overtaken(ws, steps, s, k, pid) {
      var n :| s < n < k && OvertakenBy(ws, steps, n, k, pid);
      assert n == m;
    }
    if !Compatible(ws[m].procs[steps[m].pid].journal.receipt, ws[k].procs[pid].journal.receipt) {
      assert OvertakenBy(ws, steps, m, k, pid);
    }
  }

  /** Every run that holds a journal has taken it. */
  lemma {:induction false} HasTaken(ws: seq<World>, steps: seq<Step>, k: nat, pid: nat, sha: string -> string)
    returns (s: nat)
    requires IsRun(ws, steps, sha) && k <= |steps| && pid in ws[k].procs && Holds(ws[k].procs[pid].pc)
    ensures LastTake(steps, s, k, pid)
  {
    if Takes(steps[k - 1], pid) {
      s := k - 1;
    } else {
      HoldInRun(ws, steps, k - 1, pid, sha);
      s := HasTaken(ws, steps, k - 1, pid, sha);
    }
  }

  // ----- a run in which it happens -----

  /** A world in which a run is about to save, with a free temporary name and a free file number. */
  ghost predicate AboutToSave(w: World, pid: nat, temp: nat, ino: Inode) {
    && pid in w.procs && w.procs[pid].pc.Save? && w.fs.rootExists
    && TempFile(temp) !in w.fs.names && ino !in w.fs.files
  }

  /** The run has saved, and nothing else has changed. */
  ghost predicate HasSaved(w: World, r: World, pid: nat, temp: nat, ino: Inode)
    requires pid in w.procs && w.procs[pid].pc.Save?
  {
    && r.procs == w.procs[pid := w.procs[pid].(pc := Renamed(w.procs[pid].pc.final))] && r.fs.rootExists
    && Visible(r.fs, w.procs[pid].file) == Some(w.procs[pid].journal)
    && r.fs.names == (w.fs.names - {TempFile(temp)})[JournalFile(w.procs[pid].file) := ino]
    && r.fs.files.Keys == w.fs.files.Keys + {ino}
  }

  /** The run has its journal in a complete, synced draft, and nothing else has changed. */
  ghost predicate HasDrafted(w: World, r: World, pid: nat, temp: nat, ino: Inode)
    requires pid in w.procs && w.procs[pid].pc.Save?
  {
    && r.procs == w.procs[pid := w.procs[pid].(pc := Synced(Saving(w.procs[pid].pc.final), temp, ino))] && r.fs.rootExists
    && r.fs.names == w.fs.names[TempFile(temp) := ino]
    && r.fs.files == w.fs.files[ino := File(Whole(w.procs[pid].journal), true)]
  }

  lemma DraftOn(ws0: seq<World>, steps0: seq<Step>, pid: nat, temp: nat, ino: Inode, sha: string -> string)
    returns (ws: seq<World>, steps: seq<Step>)
    requires IsRun(ws0, steps0, sha) && AboutToSave(Last(ws0), pid, temp, ino)
    ensures IsRun(ws, steps, sha) && ws0 <= ws && |ws0| < |ws|
    ensures HasDrafted(Last(ws0), Last(ws), pid, temp, ino)
  {
    var w0 := Last(ws0);
    var p := w0.procs[pid];
    var use := Saving(p.pc.final);
    var w1 := With(w0, pid, OpenTemp(w0.fs, temp, ino), p.(pc := Drafting(use, temp, ino)));
    ws, steps := Extend(ws0, steps0, w1, DoOpen(pid, temp, ino), sha);
    var w2 := With(w1, pid, Write(w1.fs, ino, Whole(p.journal)), p.(pc := Drafted(use, temp, ino)));
    ws, steps := Extend(ws, steps, w2, DoWrite(pid, true), sha);
    var w3 := With(w2, pid, SyncFile(w2.fs, ino), p.(pc := Synced(use, temp, ino)));
    ws, steps := Extend(ws, steps, w3, DoSyncFile(pid), sha);
  }

  /** A run that is about to save may do so while all others stand still. */
  lemma SaveOn(ws0: seq<World>, steps0: seq<Step>, pid: nat, temp: nat, ino: Inode, sha: string -> string)
    returns (ws: seq<World>, steps: seq<Step>)
    requires IsRun(ws0, steps0, sha) && AboutToSave(Last(ws0), pid, temp, ino)
    ensures IsRun(ws, steps, sha) && ws0 <= ws && |ws0| < |ws|
    ensures HasSaved(Last(ws0), Last(ws), pid, temp, ino)
  {
    ws, steps := DraftOn(ws0, steps0, pid, temp, ino, sha);
    var w := Last(ws);
    var p := w.procs[pid];
    var r := With(w, pid, Install(w.fs, temp, JournalFile(p.file), ino), p.(pc := Renamed(p.pc.use.last)));
    InstallShows(w.fs, temp, p.file, ino, p.journal);
    ws, steps := Extend(ws, steps, r, DoRename(pid), sha);
  }

  /** A creating run that has died after its request. */
  lemma CreatorGone(journal: WriteJournal, sha: string -> string) returns (ws: seq<World>, steps: seq<Step>)
    requires journal.receipt.status == Uncertain && journal.receipt.itemId.None?
    ensures IsRun(ws, steps, sha)
    ensures var w, file := Last(ws), FileOf(journal, sha);
      && w.procs == map[] && w.fs.rootExists
      && w.fs.names == map[JournalFile(file) := 0] && w.fs.files == map[0 := File(Whole(journal), true)]
  {
    ws, steps := SomeRunSends(journal, sha);
    var w := Last(ws).(procs := map[]);
    ws, steps := Extend(ws, steps, w, Die(0, false), sha);
  }

  /** Two reconcile runs, for different items, that have both read one unbound journal. */
  lemma TwoHaveRead(journal: WriteJournal, a: string, b: string, sha: string -> string)
    returns (ws: seq<World>, steps: seq<Step>)
    requires journal.receipt.status == Uncertain && journal.receipt.itemId.None? && ValidId(a) && ValidId(b)
    ensures IsRun(ws, steps, sha)
    ensures var w, file := Last(ws), FileOf(journal, sha);
      && w.procs == map[1 := Proc(file, WithReceipt(journal, Some(a), CreatedUnverified), Save(true)),
                        2 := Proc(file, WithReceipt(journal, Some(b), CreatedUnverified), Save(true))]
      && w.fs.rootExists && w.fs.names == map[JournalFile(file) := 0] && w.fs.files.Keys == {0}
  {
    ws, steps := CreatorGone(journal, sha);
    var file, w1 := FileOf(journal, sha), Last(ws);
    var p, q := Proc(file, journal, Reading(a)), Proc(file, journal, Reading(b));
    var w2 := With(w1, 1, w1.fs, p);
    ws, steps := Extend(ws, steps, w2, StartReconcile(1, file, a), sha);
    var w3 := With(w2, 2, w2.fs, q);
    ws, steps := Extend(ws, steps, w3, StartReconcile(2, file, b), sha);
    var w4 := With(w3, 1, w3.fs, p.(journal := Reconciled(journal, a).value, pc := Save(true)));
    ws, steps := Extend(ws, steps, w4, DoRead(1), sha);
    var w5 := With(w4, 2, w4.fs, q.(journal := Reconciled(journal, b).value, pc := Save(true)));
    ws, steps := Extend(ws, steps, w5, DoRead(2), sha);
  }

  /** For every unbound journal and any two items there is a run in which the visible journal is bound to
      the one and later to the other. */
  lemma BoundIdCanChange(journal: WriteJournal, a: string, b: string, sha: string -> string)
    returns (ws: seq<World>, steps: seq<Step>, i: nat, k: nat)
    requires journal.receipt.status == Uncertain && journal.receipt.itemId.None? && ValidId(a) && ValidId(b)
    ensures IsRun(ws, steps, sha) && i < k < |ws|
    ensures Visible(ws[i].fs, FileOf(journal, sha)) == Some(WithReceipt(journal, Some(a), CreatedUnverified))
    ensures Visible(ws[k].fs, FileOf(journal, sha)) == Some(WithReceipt(journal, Some(b), CreatedUnverified))
  {
    ws, steps := TwoHaveRead(journal, a, b, sha);
    ws, steps := SaveOn(ws, steps, 1, 0, 1, sha);
    i := |ws| - 1;
    ws, steps := SaveOn(ws, steps, 2, 0, 2, sha);
    k := |ws| - 1;
  }

  /** A creating run whose item has been named, and the receipt saved. */
  lemma NamedRun(journal: WriteJournal, id: string, sha: string -> string)
    returns (ws: seq<World>, steps: seq<Step>)
    requires journal.receipt.status == Uncertain && journal.receipt.itemId.None?
    ensures IsRun(ws, steps, sha)
    ensures var w, file := Last(ws), FileOf(journal, sha);
      && w.procs == map[0 := Proc(file, WithReceipt(journal, Some(id), CreatedUnverified), Renamed(false))]
      && w.fs.rootExists && w.fs.names == map[JournalFile(file) := 1] && w.fs.files.Keys == {0, 1}
  {
    ws, steps := SomeRunSends(journal, sha);
    var w := Last(ws);
    var p := Proc(FileOf(journal, sha), WithReceipt(journal, Some(id), CreatedUnverified), Save(false));
    ws, steps := Extend(ws, steps, With(w, 0, w.fs, p), DoReceive(0, Created(id)), sha);
    ws, steps := SaveOn(ws, steps, 0, 0, 1, sha);
  }

  /** And the item checked. */
  lemma CheckedRun(journal: WriteJournal, id: string, sha: string -> string)
    returns (ws: seq<World>, steps: seq<Step>)
    requires journal.receipt.status == Uncertain && journal.receipt.itemId.None?
    ensures IsRun(ws, steps, sha)
    ensures var w, file := Last(ws), FileOf(journal, sha);
      && w.procs == map[0 := Proc(file, WithReceipt(journal, Some(id), Verified), Save(true))]
      && w.fs.rootExists && w.fs.names == map[JournalFile(file) := 1] && w.fs.files.Keys == {0, 1}
  {
    ws, steps := NamedRun(journal, id, sha);
    var w := Last(ws);
    var p := w.procs[0];
    var r := With(w, 0, SyncRoot(w.fs), p.(pc := Checking));
    ws, steps := Extend(ws, steps, r, DoSyncRoot(0), sha);
    var k := WithReceipt(journal, Some(id), Verified);
    var checked := With(r, 0, r.fs, p.(journal := k, pc := Save(true))).(
      facts := r.facts + {Checked(journal.receipt.attemptId, id)});
    ws, steps := Extend(ws, steps, checked, DoCheck(0, true), sha);
  }

  /** For every new journal and every item there is a run that creates the item and leaves a visible journal
      that says `Verified`. */
  lemma SomeRunVerifies(journal: WriteJournal, id: string, sha: string -> string)
    returns (ws: seq<World>, steps: seq<Step>)
    requires journal.receipt.status == Uncertain && journal.receipt.itemId.None?
    ensures IsRun(ws, steps, sha)
    ensures Visible(Last(ws).fs, FileOf(journal, sha)) == Some(WithReceipt(journal, Some(id), Verified))
  {
    ws, steps := CheckedRun(journal, id, sha);
    ws, steps := SaveOn(ws, steps, 0, 0, 2, sha);
  }
}
