/** The write protocol is not only safe: from the empty disk, every new journal has a run that sends
    its request. */
module ProtocolProgress {
  import opened Journals
  import opened FileSystem
  import opened WriteProtocol

  /** An execution goes on by one more step. */
  lemma Extend(ws: seq<World>, steps: seq<Step>, r: World, step: Step, sha: string -> string)
    returns (all: seq<World>, taken: seq<Step>)
    requires IsExecution(ws, steps, sha) && Next(Last(ws), r, step, sha)
    ensures IsExecution(all, taken, sha) && all == ws + [r] && Last(all) == r
  {
    all, taken := ws + [r], steps + [step];
    forall k | 0 <= k < |taken| ensures StepAt(all, taken, k, sha) {
      if k < |steps| { assert StepAt(ws, steps, k, sha); }
    }
  }

  function Last(ws: seq<World>): (w: World)
    requires ws != []
  {
    ws[|ws| - 1]
  }

  /** A new run up to its complete, synced draft. */
  lemma DraftRun(journal: WriteJournal, sha: string -> string) returns (ws: seq<World>, steps: seq<Step>)
    requires journal.receipt.status == Uncertain && journal.receipt.itemId.None?
    ensures IsRun(ws, steps, sha)
    ensures var w := Last(ws);
      && w.procs == map[0 := Proc(FileOf(journal, sha), journal, Synced(Publishing, 0, 0))]
      && w.posts == [] && w.fs.rootExists
      && w.fs.names == map[TempFile(0) := 0] && w.fs.files == map[0 := File(Whole(journal), true)]
  {
    var p := Proc(FileOf(journal, sha), journal, Starting);
    var w0 := World(EMPTY_DISK, map[], [], {});
    ws, steps := [w0], [];
    var w1 := With(w0, 0, w0.fs, p);
    ws, steps := Extend(ws, steps, w1, StartCreate(0, journal), sha);
    var w2 := With(w1, 0, MakeRoot(w1.fs), p.(pc := Rooted));
    ws, steps := Extend(ws, steps, w2, DoMakeRoot(0), sha);
    var w3 := With(w2, 0, OpenTemp(w2.fs, 0, 0), p.(pc := Drafting(Publishing, 0, 0)));
    ws, steps := Extend(ws, steps, w3, DoOpen(0, 0, 0), sha);
    var w4 := With(w3, 0, Write(w3.fs, 0, Whole(journal)), p.(pc := Drafted(Publishing, 0, 0)));
    ws, steps := Extend(ws, steps, w4, DoWrite(0, true), sha);
    var w5 := With(w4, 0, SyncFile(w4.fs, 0), p.(pc := Synced(Publishing, 0, 0)));
    ws, steps := Extend(ws, steps, w5, DoSyncFile(0), sha);
  }

  /** Every new journal has a run that publishes it and sends its request. */
  lemma SomeRunSends(journal: WriteJournal, sha: string -> string) returns (ws: seq<World>, steps: seq<Step>)
    requires journal.receipt.status == Uncertain && journal.receipt.itemId.None?
    ensures IsRun(ws, steps, sha)
    ensures Last(ws).posts == [Post(journal.server, journal.destination, journal.receipt.attemptId)]
    ensures var w, file := Last(ws), FileOf(journal, sha);
      && w.procs == map[0 := Proc(file, journal, Sent)] && w.fs.rootExists
      && w.fs.names == map[JournalFile(file) := 0] && w.fs.files == map[0 := File(Whole(journal), true)]
  {
    ws, steps := DraftRun(journal, sha);
    var w5 := Last(ws);
    var p := w5.procs[0];
    var w6 := With(w5, 0, Install(w5.fs, 0, JournalFile(p.file), 0), p.(pc := Published));
    ws, steps := Extend(ws, steps, w6, DoPublish(0), sha);
    var w7 := With(w6, 0, SyncRoot(w6.fs), p.(pc := Listed));
    ws, steps := Extend(ws, steps, w7, DoSyncRoot(0), sha);
    var w8 := With(w7, 0, SyncParent(w7.fs), p.(pc := Ready));
    ws, steps := Extend(ws, steps, w8, DoSyncParent(0), sha);
    var w9 := With(w8, 0, w8.fs, p.(pc := Sent)).(
      posts := w8.posts + [Post(journal.server, journal.destination, journal.receipt.attemptId)]);
    ws, steps := Extend(ws, steps, w9, DoSend(0), sha);
  }
}
