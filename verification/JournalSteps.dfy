/** The operations of the journal store are runs of the write protocol: every trace that `begin` or
    `save` can leave on a disk is the sequence of disks of protocol steps by one process. */
module JournalSteps {
  import opened ByteStrings
  import opened Journals
  import opened FileSystem
  import opened JournalStore
  import opened WriteProtocol
  import opened ProtocolProgress

  /** The disks of an execution. */
  ghost function Disks(ws: seq<World>): (ds: seq<Fs>)
    ensures |ds| == |ws|
  {
    seq(|ws|, k requires 0 <= k < |ws| => ws[k].fs)
  }

  /** An execution goes on by one step, and so do its disks. */
  lemma Go(ws0: seq<World>, steps0: seq<Step>, r: World, step: Step, sha: string -> string)
    returns (ws: seq<World>, steps: seq<Step>)
    requires IsExecution(ws0, steps0, sha) && Next(Last(ws0), r, step, sha)
    ensures IsExecution(ws, steps, sha) && ws0 <= ws && Last(ws) == r && Disks(ws) == Disks(ws0) + [r.fs]
  {
    ws, steps := Extend(ws0, steps0, r, step, sha);
  }

  /** The process stands where a temporary file is about to be written, and the numbers are free. */
  ghost predicate MayDraft(w: World, pid: nat, t: nat, ino: Inode) {
    && pid in w.procs && (w.procs[pid].pc == Rooted || w.procs[pid].pc.Save?)
    && TempFile(t) !in w.fs.names && ino !in w.fs.files
  }

  function UseOf(pc: Pc): (u: Use) {
    if pc.Save? then Saving(pc.final) else Publishing
  }

  /** After the states of `write_temporary`: with the file ready, or, on an error, the process gone. */
  ghost predicate Drafts(w: World, r: World, pid: nat, t: nat, ino: Inode, io: Io)
    requires pid in w.procs
  {
    var p := w.procs[pid];
    r == w.(fs := After(w.fs, TempTrace(w.fs, t, ino, p.journal, io)),
            procs := if io.writeFile && io.syncFile then w.procs[pid := p.(pc := Synced(UseOf(p.pc), t, ino))]
                     else w.procs - {pid})
  }

  /** The draft is written, as far as the write succeeds. */
  ghost function Written(w: World, pid: nat, t: nat, ino: Inode, io: Io): (r: World)
    requires pid in w.procs
  {
    var p := w.procs[pid];
    var u := UseOf(p.pc);
    With(w, pid, Write(OpenTemp(w.fs, t, ino), ino, if io.writeFile then Whole(p.journal) else Torn),
      p.(pc := if io.writeFile then Drafted(u, t, ino) else Drafting(u, t, ino)))
  }

  lemma WriteSteps(
      ws0: seq<World>, steps0: seq<Step>, pid: nat, t: nat, ino: Inode, io: Io, sha: string -> string)
    returns (ws: seq<World>, steps: seq<Step>)
    requires IsExecution(ws0, steps0, sha) && MayDraft(Last(ws0), pid, t, ino) && Last(ws0).fs.rootExists
    ensures IsExecution(ws, steps, sha) && ws0 <= ws && Last(ws) == Written(Last(ws0), pid, t, ino, io)
    ensures Disks(ws) == Disks(ws0) + [OpenTemp(Last(ws0).fs, t, ino), Last(ws).fs]
  {
    var w := Last(ws0);
    var p := w.procs[pid];
    var a := With(w, pid, OpenTemp(w.fs, t, ino), p.(pc := Drafting(UseOf(p.pc), t, ino)));
    ws, steps := Go(ws0, steps0, a, DoOpen(pid, t, ino), sha);
    ws, steps := Go(ws, steps, Written(w, pid, t, ino, io), DoWrite(pid, io.writeFile), sha);
    Associate(Disks(ws0), [a.fs], [Last(ws).fs]);
    assert [a.fs] + [Last(ws).fs] == [a.fs, Last(ws).fs];
  }

  /** `write_temporary`: open, write, and sync or give up. */
  lemma TempSteps(
      ws0: seq<World>, steps0: seq<Step>, pid: nat, t: nat, ino: Inode, io: Io, sha: string -> string)
    returns (ws: seq<World>, steps: seq<Step>)
    requires IsExecution(ws0, steps0, sha) && MayDraft(Last(ws0), pid, t, ino)
    requires Last(ws0).fs.rootExists && io.openFile
    ensures IsExecution(ws, steps, sha) && ws0 <= ws
    ensures Drafts(Last(ws0), Last(ws), pid, t, ino, io)
    ensures Disks(ws) == Disks(ws0) + TempTrace(Last(ws0).fs, t, ino, Last(ws0).procs[pid].journal, io)
  {
    var w := Last(ws0);
    var b := Written(w, pid, t, ino, io);
    ws, steps := WriteSteps(ws0, steps0, pid, t, ino, io, sha);
    var c, step;
    if io.writeFile && io.syncFile {
      c, step := With(b, pid, SyncFile(b.fs, ino), b.procs[pid].(pc := Synced(UseOf(w.procs[pid].pc), t, ino))), DoSyncFile(pid);
    } else {
      c, step := b.(fs := Unlink(b.fs, t), procs := b.procs - {pid}), Die(pid, true);
    }
    ws, steps := Go(ws, steps, c, step, sha);
    Associate(Disks(ws0), [OpenTemp(w.fs, t, ino), b.fs], [c.fs]);
  }

  /** The process has its file ready. */
  ghost predicate MayInstall(w: World, pid: nat, t: nat, ino: Inode) {
    pid in w.procs && w.procs[pid].pc.Synced? && w.procs[pid].pc.temp == t && w.procs[pid].pc.ino == ino && w.fs.rootExists
  }

  /** The process ends without another system call. */
  lemma Quit(ws0: seq<World>, steps0: seq<Step>, pid: nat, sha: string -> string)
    returns (ws: seq<World>, steps: seq<Step>)
    requires IsExecution(ws0, steps0, sha) && pid in Last(ws0).procs
    ensures IsExecution(ws, steps, sha) && ws0 <= ws
    ensures Last(ws) == Last(ws0).(procs := Last(ws0).procs - {pid}) && Disks(ws) == Disks(ws0) + [Last(ws0).fs]
  {
    ws, steps := Go(ws0, steps0, Last(ws0).(procs := Last(ws0).procs - {pid}), Die(pid, false), sha);
  }

  /** The process ends and removes its temporary file. */
  lemma GiveUp(ws0: seq<World>, steps0: seq<Step>, pid: nat, t: nat, ino: Inode, sha: string -> string)
    returns (ws: seq<World>, steps: seq<Step>)
    requires IsExecution(ws0, steps0, sha) && MayInstall(Last(ws0), pid, t, ino)
    ensures IsExecution(ws, steps, sha) && ws0 <= ws
    ensures Last(ws) == Last(ws0).(fs := Unlink(Last(ws0).fs, t), procs := Last(ws0).procs - {pid})
    ensures Disks(ws) == Disks(ws0) + [Unlink(Last(ws0).fs, t)]
  {
    var w := Last(ws0);
    ws, steps := Go(ws0, steps0, w.(fs := Unlink(w.fs, t), procs := w.procs - {pid}), Die(pid, true), sha);
  }

  /** The disks since `before` are these states, the last one perhaps twice. */
  ghost predicate Traced(before: seq<Fs>, ws: seq<World>, states: seq<Fs>) {
    ws != [] && (Disks(ws) == before + states || Disks(ws) == before + states + [Last(ws).fs])
  }

  /** The process has reached `pc`, or has ended; nothing else has changed but the disk. */
  ghost predicate Reaches(w: World, r: World, pid: nat, fs: Fs, ok: bool, pc: Pc)
    requires pid in w.procs
  {
    r == w.(fs := fs, procs := if ok then w.procs[pid := w.procs[pid].(pc := pc)] else w.procs - {pid})
  }

  /** From a ready file to the durable name: `persist_noclobber` and the two directory syncs. */
  lemma PublishSteps(
      ws0: seq<World>, steps0: seq<Step>, pid: nat, t: nat, ino: Inode, io: Io, sha: string -> string)
    returns (ws: seq<World>, steps: seq<Step>)
    requires IsExecution(ws0, steps0, sha) && MayInstall(Last(ws0), pid, t, ino)
    requires Last(ws0).procs[pid].pc.use == Publishing
    ensures IsExecution(ws, steps, sha) && ws0 <= ws
    ensures var w := Last(ws0);
      var n := JournalFile(w.procs[pid].file);
      var states := PublishTrace(w.fs, t, ino, n, io);
      && Traced(Disks(ws0), ws, states)
      && Reaches(w, Last(ws), pid, After(w.fs, states),
           n !in w.fs.names && io.persist && io.syncRoot && io.syncParent, Ready)
  {
    var w := Last(ws0);
    var p := w.procs[pid];
    var n := JournalFile(p.file);
    if n in w.fs.names || !io.persist {
      ws, steps := GiveUp(ws0, steps0, pid, t, ino, sha);
    } else {
      var a := With(w, pid, Install(w.fs, t, n, ino), p.(pc := Published));
      ws, steps := Go(ws0, steps0, a, DoPublish(pid), sha);
      ws, steps := SettleSteps(ws, steps, pid, io, sha);
      Associate(Disks(ws0), [a.fs], SettleTrace(a.fs, io));
      assert [a.fs] + SettleTrace(a.fs, io) == PublishTrace(w.fs, t, ino, n, io);
    }
  }

  /** The two directory syncs, as far as they succeed. */
  function SettleTrace(fs: Fs, io: Io): (states: seq<Fs>) {
    if !io.syncRoot then [] else if !io.syncParent then [SyncRoot(fs)] else [SyncRoot(fs), SyncParent(SyncRoot(fs))]
  }

  lemma SettleSteps(ws0: seq<World>, steps0: seq<Step>, pid: nat, io: Io, sha: string -> string)
    returns (ws: seq<World>, steps: seq<Step>)
    requires IsExecution(ws0, steps0, sha) && pid in Last(ws0).procs && Last(ws0).procs[pid].pc == Published
    ensures IsExecution(ws, steps, sha) && ws0 <= ws
    ensures Traced(Disks(ws0), ws, SettleTrace(Last(ws0).fs, io))
    ensures Reaches(Last(ws0), Last(ws), pid, After(Last(ws0).fs, SettleTrace(Last(ws0).fs, io)),
      io.syncRoot && io.syncParent, Ready)
  {
    var w := Last(ws0);
    if !io.syncRoot {
      ws, steps := Quit(ws0, steps0, pid, sha);
      return;
    }
    var b := With(w, pid, SyncRoot(w.fs), w.procs[pid].(pc := Listed));
    ws, steps := Go(ws0, steps0, b, DoSyncRoot(pid), sha);
    if io.syncParent {
      ws, steps := Go(ws, steps, With(b, pid, SyncParent(b.fs), w.procs[pid].(pc := Ready)), DoSyncParent(pid), sha);
      Associate(Disks(ws0), [b.fs], [SyncParent(b.fs)]);
    } else {
      ws, steps := Quit(ws, steps, pid, sha);
    }
  }

  lemma TracedJoin(before: seq<Fs>, first: seq<Fs>, ws: seq<World>, states: seq<Fs>)
    requires Traced(before + first, ws, states)
    ensures Traced(before, ws, first + states)
  {
    Associate(before, first, states);
    Associate(before, first + states, [Last(ws).fs]);
  }

  /** `begin` up to the ready file, by a process of its own. */
  lemma DraftSteps(
      ws0: seq<World>, steps0: seq<Step>, pid: nat, journal: WriteJournal, t: nat, ino: Inode, io: Io,
      sha: string -> string)
    returns (ws: seq<World>, steps: seq<Step>)
    requires IsExecution(ws0, steps0, sha) && MayBegin(Last(ws0), pid, journal, t, ino, sha)
    ensures IsExecution(ws, steps, sha) && ws0 <= ws
    ensures var w := Last(ws0);
      var states := DraftTrace(w.fs, t, ino, journal, io);
      && Traced(Disks(ws0), ws, states)
      && Reaches(w, Last(ws), pid, After(w.fs, states), ReachesFile(journal, io) && MakesFile(io),
           Synced(Publishing, t, ino))
    ensures ReachesFile(journal, io) && MakesFile(io) ==>
      Disks(ws) == Disks(ws0) + DraftTrace(Last(ws0).fs, t, ino, journal, io)
  {
    var w := Last(ws0);
    var p := w.procs[pid];
    if !io.makeRoot {
      ws, steps := Quit(ws0, steps0, pid, sha);
    } else {
      var a := With(w, pid, MakeRoot(w.fs), p.(pc := Rooted));
      ws, steps := Go(ws0, steps0, a, DoMakeRoot(pid), sha);
      if !io.safeRoot || !io.openFile {
        ws, steps := Quit(ws, steps, pid, sha);
      } else {
        ws, steps := TempSteps(ws, steps, pid, t, ino, io, sha);
        Associate(Disks(ws0), [a.fs], TempTrace(a.fs, t, ino, journal, io));
      }
    }
  }

  /** A process that has just started with a new journal, and free numbers. */
  ghost predicate MayBegin(w: World, pid: nat, journal: WriteJournal, t: nat, ino: Inode, sha: string -> string) {
    && pid in w.procs && w.procs[pid] == Proc(FileOf(journal, sha), journal, Starting)
    && journal.receipt.status == Uncertain
    && TempFile(t) !in w.fs.names && ino !in w.fs.files
  }

  /** `begin` is an execution of the protocol: whichever of its calls succeed, the disks it goes through
      are those of steps by the calling process, which stands before its request if `begin` succeeds
      and has ended if it fails. */
  lemma BeginIsExecution(
      ws0: seq<World>, steps0: seq<Step>, pid: nat, journal: WriteJournal, t: nat, ino: Inode, io: Io,
      sha: string -> string)
    returns (ws: seq<World>, steps: seq<Step>)
    requires IsExecution(ws0, steps0, sha) && MayBegin(Last(ws0), pid, journal, t, ino, sha)
    ensures IsExecution(ws, steps, sha) && ws0 <= ws
    ensures var w, n := Last(ws0), JournalFile(FileOf(journal, sha));
      var states := BeginTrace(w.fs, t, ino, journal, n, io);
      && Traced(Disks(ws0), ws, states)
      && Reaches(w, Last(ws), pid, After(w.fs, states), Begins(w.fs, journal, n, io), Ready)
  {
    if ReachesFile(journal, io) && MakesFile(io) {
      ws, steps := WholeBegin(ws0, steps0, pid, journal, t, ino, io, sha);
    } else {
      ws, steps := DraftSteps(ws0, steps0, pid, journal, t, ino, io, sha);
      BeginParts(Last(ws0).fs, t, ino, journal, JournalFile(FileOf(journal, sha)), io);
    }
  }

  /** `begin` where the file gets ready. */
  lemma WholeBegin(
      ws0: seq<World>, steps0: seq<Step>, pid: nat, journal: WriteJournal, t: nat, ino: Inode, io: Io,
      sha: string -> string)
    returns (ws: seq<World>, steps: seq<Step>)
    requires IsExecution(ws0, steps0, sha) && MayBegin(Last(ws0), pid, journal, t, ino, sha)
    requires ReachesFile(journal, io) && MakesFile(io)
    ensures IsExecution(ws, steps, sha) && ws0 <= ws
    ensures var w, n := Last(ws0), JournalFile(FileOf(journal, sha));
      var states := BeginTrace(w.fs, t, ino, journal, n, io);
      && Traced(Disks(ws0), ws, states)
      && Reaches(w, Last(ws), pid, After(w.fs, states), Begins(w.fs, journal, n, io), Ready)
  {
    ws, steps := DraftSteps(ws0, steps0, pid, journal, t, ino, io, sha);
    var draft := DraftTrace(Last(ws0).fs, t, ino, journal, io);
    BeginParts(Last(ws0).fs, t, ino, journal, JournalFile(FileOf(journal, sha)), io);
    ws, steps := PublishAfter(ws, steps, Disks(ws0), draft, pid, t, ino, io, sha);
  }

  /** The trace of `begin` in its two parts. */
  lemma BeginParts(fs: Fs, t: nat, ino: Inode, j: WriteJournal, n: Name, io: Io)
    requires n.JournalFile?
    ensures var draft, all := DraftTrace(fs, t, ino, j, io), BeginTrace(fs, t, ino, j, n, io);
      var r := After(fs, draft);
      && (if ReachesFile(j, io) && MakesFile(io)
          then all == draft + PublishTrace(r, t, ino, n, io) && After(fs, all) == After(r, PublishTrace(r, t, ino, n, io))
          else all == draft)
      && (n in r.names <==> n in fs.names)
  {
    DraftKeepsNames(fs, t, ino, j, io, n);
    BeginEnds(fs, t, ino, j, n, io);
  }

  /** The publication as the second part of a trace. */
  lemma PublishAfter(
      ws0: seq<World>, steps0: seq<Step>, before: seq<Fs>, draft: seq<Fs>, pid: nat, t: nat, ino: Inode, io: Io,
      sha: string -> string)
    returns (ws: seq<World>, steps: seq<Step>)
    requires IsExecution(ws0, steps0, sha) && MayInstall(Last(ws0), pid, t, ino)
    requires Last(ws0).procs[pid].pc.use == Publishing && Disks(ws0) == before + draft
    ensures IsExecution(ws, steps, sha) && ws0 <= ws
    ensures var w := Last(ws0);
      var n := JournalFile(w.procs[pid].file);
      var states := PublishTrace(w.fs, t, ino, n, io);
      && Traced(before, ws, draft + states)
      && Reaches(w, Last(ws), pid, After(w.fs, states),
           n !in w.fs.names && io.persist && io.syncRoot && io.syncParent, Ready)
  {
    ws, steps := PublishSteps(ws0, steps0, pid, t, ino, io, sha);
    TracedJoin(before, draft, ws, PublishTrace(Last(ws0).fs, t, ino, JournalFile(Last(ws0).procs[pid].file), io));
  }

  /** From a ready file to its place: `persist` and the directory sync. */
  lemma ReplaceSteps(
      ws0: seq<World>, steps0: seq<Step>, pid: nat, t: nat, ino: Inode, io: Io, sha: string -> string)
    returns (ws: seq<World>, steps: seq<Step>)
    requires IsExecution(ws0, steps0, sha) && MayInstall(Last(ws0), pid, t, ino)
    requires Last(ws0).procs[pid].pc.use.Saving?
    ensures IsExecution(ws, steps, sha) && ws0 <= ws
    ensures var w := Last(ws0);
      var states := ReplaceTrace(w.fs, t, ino, JournalFile(w.procs[pid].file), io);
      && Traced(Disks(ws0), ws, states)
      && Reaches(w, Last(ws), pid, After(w.fs, states),
           io.persist && io.syncRoot && !w.procs[pid].pc.use.last, Checking)
  {
    var w := Last(ws0);
    var p := w.procs[pid];
    if !io.persist {
      ws, steps := GiveUp(ws0, steps0, pid, t, ino, sha);
    } else {
      var a := With(w, pid, Install(w.fs, t, JournalFile(p.file), ino), p.(pc := Renamed(p.pc.use.last)));
      ws, steps := Go(ws0, steps0, a, DoRename(pid), sha);
      if !io.syncRoot {
        ws, steps := Quit(ws, steps, pid, sha);
      } else {
        var b := if p.pc.use.last then a.(fs := SyncRoot(a.fs), procs := a.procs - {pid})
          else With(a, pid, SyncRoot(a.fs), p.(pc := Checking));
        ws, steps := Go(ws, steps, b, DoSyncRoot(pid), sha);
        Associate(Disks(ws0), [a.fs], [b.fs]);
      }
    }
  }

  /** `save` is an execution of the protocol; after a last save, and on an error, the process has ended. */
  lemma SaveIsExecution(
      ws0: seq<World>, steps0: seq<Step>, pid: nat, t: nat, ino: Inode, io: Io, sha: string -> string)
    returns (ws: seq<World>, steps: seq<Step>)
    requires IsExecution(ws0, steps0, sha) && MayDraft(Last(ws0), pid, t, ino) && Last(ws0).procs[pid].pc.Save?
    ensures IsExecution(ws, steps, sha) && ws0 <= ws
    ensures var w := Last(ws0);
      var p := w.procs[pid];
      var states := SaveTrace(w.fs, t, ino, p.journal, JournalFile(p.file), io);
      && Traced(Disks(ws0), ws, states)
      && Reaches(w, Last(ws), pid, After(w.fs, states), Saves(w.fs, io) && !p.pc.final, Checking)
  {
    var w := Last(ws0);
    var p := w.procs[pid];
    if !w.fs.rootExists || !io.openFile {
      ws, steps := Quit(ws0, steps0, pid, sha);
    } else {
      var temp := TempTrace(w.fs, t, ino, p.journal, io);
      ws, steps := TempSteps(ws0, steps0, pid, t, ino, io, sha);
      if io.writeFile && io.syncFile {
        var mid := Last(ws);
        ws, steps := ReplaceSteps(ws, steps, pid, t, ino, io, sha);
        TracedJoin(Disks(ws0), temp, ws, ReplaceTrace(mid.fs, t, ino, JournalFile(p.file), io));
      } else {
        assert temp + [] == temp;
      }
    }
  }

  // ----- the history of a disk -----

  /** These disks are that history, states perhaps repeated. */
  ghost predicate Repeats(ds: seq<Fs>, trace: seq<Fs>) {
    && ds != [] && trace != [] && ds[|ds| - 1] == trace[|trace| - 1]
    && (|ds| == 1 ==> |trace| == 1)
    && (|ds| > 1 ==>
      || Repeats(ds[..|ds| - 1], trace)
      || (|trace| > 1 && Repeats(ds[..|ds| - 1], trace[..|trace| - 1])))
  }

  /** The execution goes through the history of a disk, in other steps standing still. */
  ghost predicate Mirrors(ws: seq<World>, steps: seq<Step>, trace: seq<Fs>, sha: string -> string) {
    IsExecution(ws, steps, sha) && Repeats(Disks(ws), trace)
  }

  /** To begin with: one state. */
  lemma MirrorsFirst(w: World, sha: string -> string)
    ensures Mirrors([w], [], [w.fs], sha)
  {}

  lemma MirrorsEnds(ws: seq<World>, steps: seq<Step>, trace: seq<Fs>, sha: string -> string)
    requires Mirrors(ws, steps, trace, sha)
    ensures trace != [] && Last(ws).fs == trace[|trace| - 1]
  {}

  lemma RepeatsStill(ds: seq<Fs>, trace: seq<Fs>)
    requires Repeats(ds, trace)
    ensures Repeats(ds + [trace[|trace| - 1]], trace)
  {
    var more := ds + [trace[|trace| - 1]];
    assert more[..|more| - 1] == ds;
  }

  lemma {:induction false} RepeatsMore(ds: seq<Fs>, trace: seq<Fs>, states: seq<Fs>)
    requires Repeats(ds, trace)
    ensures Repeats(ds + states, trace + states)
  {
    if states == [] {
      assert ds + states == ds && trace + states == trace;
    } else {
      var before := states[..|states| - 1];
      RepeatsMore(ds, trace, before);
      assert (ds + states)[..|ds + states| - 1] == ds + before;
      assert (trace + states)[..|trace + states| - 1] == trace + before;
    }
  }

  lemma RepeatsTraced(ws0: seq<World>, ws: seq<World>, trace: seq<Fs>, states: seq<Fs>)
    requires ws0 != [] && Repeats(Disks(ws0), trace) && Traced(Disks(ws0), ws, states)
    requires Last(ws).fs == After(Last(ws0).fs, states)
    ensures Repeats(Disks(ws), trace + states)
  {
    RepeatsMore(Disks(ws0), trace, states);
    RepeatsStill(Disks(ws0) + states, trace + states);
    assert (trace + states)[|trace + states| - 1] == Last(ws).fs;
  }

  /** A step that leaves the disk alone. */
  lemma Still(ws0: seq<World>, steps0: seq<Step>, trace: seq<Fs>, r: World, step: Step, sha: string -> string)
    returns (ws: seq<World>, steps: seq<Step>)
    requires Mirrors(ws0, steps0, trace, sha) && Next(Last(ws0), r, step, sha) && r.fs == Last(ws0).fs
    ensures Mirrors(ws, steps, trace, sha) && ws0 <= ws && Last(ws) == r
  {
    ws, steps := Go(ws0, steps0, r, step, sha);
    RepeatsStill(Disks(ws0), trace);
  }

  lemma SaveMirrors(
      ws0: seq<World>, steps0: seq<Step>, trace: seq<Fs>, pid: nat, t: nat, ino: Inode, io: Io, sha: string -> string)
    returns (ws: seq<World>, steps: seq<Step>)
    requires Mirrors(ws0, steps0, trace, sha)
    requires MayDraft(Last(ws0), pid, t, ino) && Last(ws0).procs[pid].pc.Save?
    ensures var w := Last(ws0);
      var p := w.procs[pid];
      var states := SaveTrace(w.fs, t, ino, p.journal, JournalFile(p.file), io);
      && Mirrors(ws, steps, trace + states, sha) && ws0 <= ws
      && Reaches(w, Last(ws), pid, After(w.fs, states), Saves(w.fs, io) && !p.pc.final, Checking)
  {
    ws, steps := SaveIsExecution(ws0, steps0, pid, t, ino, io, sha);
    var w := Last(ws0);
    var p := w.procs[pid];
    RepeatsTraced(ws0, ws, trace, SaveTrace(w.fs, t, ino, p.journal, JournalFile(p.file), io));
  }

  lemma BeginMirrors(
      ws0: seq<World>, steps0: seq<Step>, trace: seq<Fs>, pid: nat, journal: WriteJournal, t: nat, ino: Inode, io: Io,
      sha: string -> string)
    returns (ws: seq<World>, steps: seq<Step>)
    requires Mirrors(ws0, steps0, trace, sha) && MayBegin(Last(ws0), pid, journal, t, ino, sha)
    ensures var w, n := Last(ws0), JournalFile(FileOf(journal, sha));
      var states := BeginTrace(w.fs, t, ino, journal, n, io);
      && Mirrors(ws, steps, trace + states, sha) && ws0 <= ws
      && Reaches(w, Last(ws), pid, After(w.fs, states), Begins(w.fs, journal, n, io), Ready)
  {
    ws, steps := BeginIsExecution(ws0, steps0, pid, journal, t, ino, io, sha);
    var w, n := Last(ws0), JournalFile(FileOf(journal, sha));
    RepeatsTraced(ws0, ws, trace, BeginTrace(w.fs, t, ino, journal, n, io));
  }
}
