/** Any number of processes refreshing one rotating token under the refresh lock (src/commands.rs),
    over keyring and file (src/config.rs), where the keyring answers every call of the run or none. */
module TokenRefresh {
  import opened ByteStrings
  import opened TokenStore

  datatype Pc =
    | Waiting                  // found its tokens due, wants the lock
    | Locked                   // has the lock
    | Current                  // has loaded the saved tokens
    | Asked(token: string)     // has presented this refresh token
    | Answered(token: string)  // has the answer in memory, not yet saved
    | Leaving                  // about to release the lock

  /** A process: the token fields it brought to the lock, and those it has now. */
  datatype Proc = Proc(brought: Memory, memory: Memory, pc: Pc)

  /** `asked` counts every presentation of a refresh token to the server, `lost` those whose answer was
      not delivered and saved; `saves` lists what was saved, the tokens stored at first in front. */
  datatype World = World(
    store: Stored,
    keyring: bool,
    holder: Option<nat>,
    procs: map<nat, Proc>,
    issued: set<string>,
    asked: multiset<string>,
    lost: multiset<string>,
    saves: seq<Tokens>)

  datatype Step =
    | Start(pid: nat, memory: Memory, now: int)
    | Lock(pid: nat)
    | Reload(pid: nat)
    | FailLoad(pid: nat)
    | FindFresh(pid: nat, now: int)
    | Ask(pid: nat, now: int)
    | GiveUp(pid: nat, now: int)
    | Answer(pid: nat, answer: Tokens)
    | LoseAnswer(pid: nat)
    | SaveAnswer(pid: nat, removable: bool)
    | BreakSave(pid: nat)
    | Unlock(pid: nat)
    | Die(pid: nat)

  predicate InLock(pc: Pc) { !pc.Waiting? }

  /** The token whose answer is under way. */
  function InFlight(pc: Pc): (t: multiset<string>) {
    if pc.Asked? || pc.Answered? then multiset{pc.token} else multiset{}
  }

  /** The tokens that a load finds. */
  function Found(w: World): (t: Option<Tokens>) {
    match Loaded(w.store, w.keyring)
    case Some(Readable(t)) => Some(t)
    case _ => None
  }

  /** What a load finds is unreadable, and the load fails. */
  predicate Broken(w: World) { Loaded(w.store, w.keyring) == Some(Garbled) }

  ghost function Put(w: World, pid: nat, p: Proc): (r: World) {
    w.(procs := w.procs[pid := p])
  }

  ghost function Remove(w: World, pid: nat): (r: World) {
    w.(procs := w.procs - {pid}, holder := if w.holder == Some(pid) then None else w.holder)
  }

  ghost predicate Next(w: World, r: World, step: Step) {
    match step
    case Start(pid, memory, now) => Starts(w, r, pid, memory, now)
    case Lock(pid) => Locks(w, r, pid)
    case Reload(pid) => Reloads(w, r, pid)
    case FailLoad(pid) => FailsLoad(w, r, pid)
    case FindFresh(pid, now) => FindsFresh(w, r, pid, now)
    case Ask(pid, now) => Asks(w, r, pid, now)
    case GiveUp(pid, now) => GivesUp(w, r, pid, now)
    case Answer(pid, answer) => Answers(w, r, pid, answer)
    case LoseAnswer(pid) => LosesAnswer(w, r, pid)
    case SaveAnswer(pid, removable) => SavesAnswer(w, r, pid, removable)
    case BreakSave(pid) => BreaksSave(w, r, pid)
    case Unlock(pid) => Unlocks(w, r, pid)
    case Die(pid) => Dies(w, r, pid)
  }

  /** A process brings due tokens that the server issued at some time. */
  ghost predicate Starts(w: World, r: World, pid: nat, memory: Memory, now: int) {
    && pid !in w.procs && NeedsRefresh(memory.expiry, now)
    && (memory.refresh.Some? ==> memory.refresh.value in w.issued)
    && r == Put(w, pid, Proc(memory, memory, Waiting))
  }

  ghost predicate Locks(w: World, r: World, pid: nat) {
    && pid in w.procs && w.procs[pid].pc == Waiting && w.holder == None
    && r == Put(w, pid, w.procs[pid].(pc := Locked)).(holder := Some(pid))
  }

  ghost predicate Reloads(w: World, r: World, pid: nat) {
    && pid in w.procs && w.procs[pid].pc == Locked && !Broken(w)
    && r == Put(w, pid, w.procs[pid].(memory := Reloaded(w.procs[pid].memory, w.store, w.keyring), pc := Current))
  }

  ghost predicate FailsLoad(w: World, r: World, pid: nat) {
    pid in w.procs && w.procs[pid].pc == Locked && Broken(w) && r == Put(w, pid, w.procs[pid].(pc := Leaving))
  }

  ghost predicate FindsFresh(w: World, r: World, pid: nat, now: int) {
    && pid in w.procs && w.procs[pid].pc == Current && !NeedsRefresh(w.procs[pid].memory.expiry, now)
    && r == Put(w, pid, w.procs[pid].(pc := Leaving))
  }

  ghost predicate Asks(w: World, r: World, pid: nat, now: int) {
    && pid in w.procs && w.procs[pid].pc == Current && NeedsRefresh(w.procs[pid].memory.expiry, now)
    && var t := w.procs[pid].memory.refresh;
    && t.Some? && r == Put(w, pid, w.procs[pid].(pc := Asked(t.value))).(asked := w.asked + multiset{t.value})
  }

  /** There is no refresh token, or no HTTP client can be built. */
  ghost predicate GivesUp(w: World, r: World, pid: nat, now: int) {
    && pid in w.procs && w.procs[pid].pc == Current && NeedsRefresh(w.procs[pid].memory.expiry, now)
    && r == Put(w, pid, w.procs[pid].(pc := Leaving))
  }

  /** The server issues tokens that it never issued before, or no refresh token. */
  ghost predicate Answers(w: World, r: World, pid: nat, answer: Tokens) {
    && pid in w.procs && w.procs[pid].pc.Asked? && (answer.refresh.Some? ==> answer.refresh.value !in w.issued)
    && r == Put(w, pid, w.procs[pid].(memory := MemoryOf(answer), pc := Answered(w.procs[pid].pc.token))).(
         issued := if answer.refresh.Some? then w.issued + {answer.refresh.value} else w.issued)
  }

  /** No answer, a useless one, or one whose save fails before the store is touched. */
  ghost predicate LosesAnswer(w: World, r: World, pid: nat) {
    && pid in w.procs && (w.procs[pid].pc.Asked? || w.procs[pid].pc.Answered?)
    && r == Put(w, pid, w.procs[pid].(pc := Leaving)).(lost := w.lost + multiset{w.procs[pid].pc.token})
  }

  ghost predicate SavesAnswer(w: World, r: World, pid: nat, removable: bool) {
    && pid in w.procs && w.procs[pid].pc.Answered? && w.procs[pid].memory.access.Some?
    && var m := w.procs[pid].memory;
    && var t := Tokens(m.access.value, m.refresh, m.expiry);
    && r == Put(w, pid, w.procs[pid].(pc := Leaving)).(
         store := Saved(w.store, t, Medium(w.keyring, removable, Succeeds)), saves := w.saves + [t])
  }

  /** The file is emptied, and the write breaks off. */
  ghost predicate BreaksSave(w: World, r: World, pid: nat) {
    && pid in w.procs && w.procs[pid].pc.Answered? && !w.keyring
    && r == Put(w, pid, w.procs[pid].(pc := Leaving)).(
         store := w.store.(file := Some(Garbled)), lost := w.lost + multiset{w.procs[pid].pc.token})
  }

  ghost predicate Unlocks(w: World, r: World, pid: nat) {
    pid in w.procs && w.procs[pid].pc == Leaving && r == Remove(w, pid)
  }

  ghost predicate Dies(w: World, r: World, pid: nat) {
    pid in w.procs && r == Remove(w, pid).(lost := w.lost + InFlight(w.procs[pid].pc))
  }

  // ----- the invariant -----

  ghost predicate ProcOk(w: World, pid: nat)
    requires pid in w.procs
  {
    var p := w.procs[pid];
    && (InLock(p.pc) ==> w.holder == Some(pid))
    && (p.memory.refresh.Some? ==> p.memory.refresh.value in w.issued)
    && (p.pc.Waiting? || p.pc.Locked? ==> p.memory == p.brought)
    && (p.pc == Current || p.pc.Asked? || p.pc.Answered? ==> !Broken(w))
    && (p.pc == Current || p.pc.Asked? ==> p.memory == Reloaded(p.brought, w.store, w.keyring))
    && (p.pc.Asked? ==> p.memory.refresh == Some(p.pc.token))
    && (p.pc.Answered? ==> AnsweredOk(w, p))
  }

  /** The token presented is still the stored one, if one is stored, and the answer's was never presented. */
  ghost predicate AnsweredOk(w: World, p: Proc)
    requires p.pc.Answered?
  {
    && (Found(w).Some? ==> Found(w).value.refresh == Some(p.pc.token))
    && (p.memory.refresh.Some? ==>
      var u := p.memory.refresh.value; u != p.pc.token && w.asked[u] == 0 && w.lost[u] == 0)
  }

  /** The presentation whose answer is still under way. */
  ghost function Pending(w: World): (t: multiset<string>) {
    if w.holder.Some? && w.holder.value in w.procs then InFlight(w.procs[w.holder.value].pc) else multiset{}
  }

  /** The stored token, or any token as long as nothing is stored, was presented exactly as often as its
      answer was lost or is under way; any other token once more at most. */
  ghost predicate Accounted(w: World, t: string) {
    && (t !in w.issued ==> w.asked[t] == 0 && w.lost[t] == 0)
    && (MayBeAsked(w, t) ==> w.asked[t] == w.lost[t] + Pending(w)[t])
    && (!MayBeAsked(w, t) ==> w.asked[t] <= w.lost[t] + 1)
  }

  ghost predicate MayBeAsked(w: World, t: string) {
    !Broken(w) && (Found(w).None? || Found(w).value.refresh == Some(t))
  }

  /** The store holds what was saved last, or cannot be read. */
  ghost predicate HoldsLast(w: World) {
    || Broken(w)
    || (Found(w) == (if w.saves == [] then None else Some(w.saves[|w.saves| - 1]))
        && (Found(w).Some? && Found(w).value.refresh.Some? ==> Found(w).value.refresh.value in w.issued))
  }

  ghost predicate Inv(w: World) {
    && (w.holder.Some? ==> w.holder.value in w.procs && InLock(w.procs[w.holder.value].pc))
    && (forall pid :: pid in w.procs ==> ProcOk(w, pid))
    && (forall t :: Accounted(w, t))
    && HoldsLast(w)
  }

  /** While one process is behind the lock, all others wait. */
  lemma OthersWait(w: World, pid: nat)
    requires Inv(w) && (w.holder == Some(pid) || w.holder == None)
    ensures forall q :: q in w.procs && q != pid ==> w.procs[q].pc == Waiting
  {
    forall q | q in w.procs && q != pid ensures w.procs[q].pc == Waiting { assert ProcOk(w, q); }
  }

  /** A step of the process behind the lock, `p` being what it becomes. */
  lemma HolderStep(w: World, r: World, pid: nat, p: Proc)
    requires Inv(w) && (w.holder == Some(pid) || w.holder == None)
    requires r.procs == w.procs[pid := p] && r.holder == Some(pid) && InLock(p.pc) && ProcOk(r, pid)
    requires w.issued <= r.issued && HoldsLast(r)
    requires forall t :: Accounted(r, t)
    ensures Inv(r)
  {
    OthersWait(w, pid);
    forall q | q in r.procs ensures ProcOk(r, q) {
      if q != pid { assert ProcOk(w, q); }
    }
  }

  lemma HolderOf(w: World, pid: nat)
    requires Inv(w) && pid in w.procs && InLock(w.procs[pid].pc)
    ensures w.holder == Some(pid) && ProcOk(w, pid) && Pending(w) == InFlight(w.procs[pid].pc)
  {
    assert ProcOk(w, pid);
  }

  /** Steps that change no count and leave no answer under way that was not. */
  lemma PlainStep(w: World, r: World, pid: nat, p: Proc)
    requires Inv(w) && pid in w.procs && InLock(p.pc) && InFlight(p.pc) == InFlight(w.procs[pid].pc)
    requires w.holder == None || InLock(w.procs[pid].pc)
    requires r == w.(procs := w.procs[pid := p], holder := Some(pid)) && ProcOk(r, pid)
    ensures Inv(r)
  {
    if InLock(w.procs[pid].pc) { HolderOf(w, pid); }
    forall t ensures Accounted(r, t) { assert Accounted(w, t); }
    HolderStep(w, r, pid, p);
  }

  lemma StartKeeps(w: World, r: World, pid: nat, memory: Memory, now: int)
    requires Inv(w) && Starts(w, r, pid, memory, now)
    ensures Inv(r)
  {
    assert w.holder != Some(pid);
    forall q | q in r.procs ensures ProcOk(r, q) {
      if q != pid { assert ProcOk(w, q); }
    }
    forall t ensures Accounted(r, t) { assert Accounted(w, t); }
  }

  lemma LockKeeps(w: World, r: World, pid: nat)
    requires Inv(w) && Locks(w, r, pid)
    ensures Inv(r)
  {
    assert ProcOk(w, pid);
    PlainStep(w, r, pid, r.procs[pid]);
  }

  lemma ReloadKeeps(w: World, r: World, pid: nat)
    requires Inv(w) && Reloads(w, r, pid)
    ensures Inv(r)
  {
    HolderOf(w, pid);
    PlainStep(w, r, pid, r.procs[pid]);
  }

  lemma FailLoadKeeps(w: World, r: World, pid: nat)
    requires Inv(w) && FailsLoad(w, r, pid)
    ensures Inv(r)
  {
    HolderOf(w, pid);
    PlainStep(w, r, pid, r.procs[pid]);
  }

  lemma FindFreshKeeps(w: World, r: World, pid: nat, now: int)
    requires Inv(w) && FindsFresh(w, r, pid, now)
    ensures Inv(r)
  {
    HolderOf(w, pid);
    PlainStep(w, r, pid, r.procs[pid]);
  }

  lemma GiveUpKeeps(w: World, r: World, pid: nat, now: int)
    requires Inv(w) && GivesUp(w, r, pid, now)
    ensures Inv(r)
  {
    HolderOf(w, pid);
    PlainStep(w, r, pid, r.procs[pid]);
  }

  lemma AskKeeps(w: World, r: World, pid: nat, now: int)
    requires Inv(w) && Asks(w, r, pid, now)
    ensures Inv(r)
  {
    HolderOf(w, pid);
    forall t ensures Accounted(r, t) { assert Accounted(w, t); }
    HolderStep(w, r, pid, r.procs[pid]);
  }

  lemma AnswerKeeps(w: World, r: World, pid: nat, answer: Tokens)
    requires Inv(w) && Answers(w, r, pid, answer)
    ensures Inv(r)
  {
    HolderOf(w, pid);
    assert Accounted(w, w.procs[pid].pc.token);
    if answer.refresh.Some? { assert Accounted(w, answer.refresh.value); }
    forall t ensures Accounted(r, t) { assert Accounted(w, t); }
    HolderStep(w, r, pid, r.procs[pid]);
  }

  lemma LoseKeeps(w: World, r: World, pid: nat)
    requires Inv(w) && LosesAnswer(w, r, pid)
    ensures Inv(r)
  {
    HolderOf(w, pid);
    forall t ensures Accounted(r, t) { assert Accounted(w, t); }
    HolderStep(w, r, pid, r.procs[pid]);
  }

  lemma SaveKeeps(w: World, r: World, pid: nat, removable: bool)
    requires Inv(w) && SavesAnswer(w, r, pid, removable)
    ensures Inv(r)
  {
    HolderOf(w, pid);
    forall t ensures Accounted(r, t) { assert Accounted(w, t); }
    HolderStep(w, r, pid, r.procs[pid]);
  }

  lemma BreakKeeps(w: World, r: World, pid: nat)
    requires Inv(w) && BreaksSave(w, r, pid)
    ensures Inv(r)
  {
    HolderOf(w, pid);
    forall t ensures Accounted(r, t) { assert Accounted(w, t); }
    HolderStep(w, r, pid, r.procs[pid]);
  }

  /** A process leaves; an answer under way is lost with it. */
  lemma LeaveKeeps(w: World, r: World, pid: nat)
    requires Inv(w) && pid in w.procs && r == Remove(w, pid).(lost := w.lost + InFlight(w.procs[pid].pc))
    ensures Inv(r)
  {
    if InLock(w.procs[pid].pc) {
      HolderOf(w, pid);
      OthersWait(w, pid);
    } else {
      assert ProcOk(w, pid) && w.holder != Some(pid);
    }
    LeaversAccount(w, r, pid);
    forall q | q in r.procs ensures ProcOk(r, q) { assert ProcOk(w, q); }
  }

  lemma LeaversAccount(w: World, r: World, pid: nat)
    requires Inv(w) && pid in w.procs && r == Remove(w, pid).(lost := w.lost + InFlight(w.procs[pid].pc))
    ensures forall t :: Accounted(r, t)
  {
    assert ProcOk(w, pid);
    forall t ensures Accounted(r, t) { assert Accounted(w, t); }
  }

  lemma UnlockKeeps(w: World, r: World, pid: nat)
    requires Inv(w) && Unlocks(w, r, pid)
    ensures Inv(r)
  {
    assert w.lost + multiset{} == w.lost;
    LeaveKeeps(w, r, pid);
  }

  lemma StepKeeps(w: World, r: World, step: Step)
    requires Inv(w) && Next(w, r, step)
    ensures Inv(r)
  {
    match step
    case Start(pid, memory, now) => StartKeeps(w, r, pid, memory, now);
    case Lock(pid) => LockKeeps(w, r, pid);
    case Reload(pid) => ReloadKeeps(w, r, pid);
    case FailLoad(pid) => FailLoadKeeps(w, r, pid);
    case FindFresh(pid, now) => FindFreshKeeps(w, r, pid, now);
    case Ask(pid, now) => AskKeeps(w, r, pid, now);
    case GiveUp(pid, now) => GiveUpKeeps(w, r, pid, now);
    case Answer(pid, answer) => AnswerKeeps(w, r, pid, answer);
    case LoseAnswer(pid) => LoseKeeps(w, r, pid);
    case SaveAnswer(pid, removable) => SaveKeeps(w, r, pid, removable);
    case BreakSave(pid) => BreakKeeps(w, r, pid);
    case Unlock(pid) => UnlockKeeps(w, r, pid);
    case Die(pid) => LeaveKeeps(w, r, pid);
  }

  // ----- whole runs -----

  /** A run starts with anything stored, or nothing, and no process. */
  ghost predicate Initial(w: World) {
    && w.holder == None && w.procs == map[] && w.asked == multiset{} && w.lost == multiset{}
    && HoldsLast(w) && |w.saves| <= 1
  }

  ghost predicate StepAt(ws: seq<World>, steps: seq<Step>, k: nat)
    requires |ws| == |steps| + 1 && k < |steps|
  {
    Next(ws[k], ws[k + 1], steps[k])
  }

  ghost predicate IsRun(ws: seq<World>, steps: seq<Step>) {
    && |ws| == |steps| + 1 && Initial(ws[0])
    && forall k :: 0 <= k < |steps| ==> StepAt(ws, steps, k)
  }

  lemma {:induction false} RunInvariant(ws: seq<World>, steps: seq<Step>, k: nat)
    requires IsRun(ws, steps) && k < |ws|
    ensures Inv(ws[k])
  {
    if k > 0 {
      RunInvariant(ws, steps, k - 1);
      assert StepAt(ws, steps, k - 1);
      StepKeeps(ws[k - 1], ws[k], steps[k - 1]);
    }
  }

  /** In every run a refresh token is presented at most once more than its answers were lost; so where
      every answer is delivered and saved, no refresh token is ever presented twice. */
  lemma PresentedOncePerLoss(ws: seq<World>, steps: seq<Step>, k: nat, t: string)
    requires IsRun(ws, steps) && k < |ws|
    ensures ws[k].asked[t] <= ws[k].lost[t] + 1
  {
    RunInvariant(ws, steps, k);
    assert Accounted(ws[k], t);
    var w := ws[k];
    if w.holder.Some? { assert ProcOk(w, w.holder.value); }
  }

  /** The bound is exact: whoever asks presents a token that has been presented exactly as often as its
      answer was lost. */
  lemma LostAnswersAreRepeated(ws: seq<World>, steps: seq<Step>, k: nat)
    requires IsRun(ws, steps) && k < |steps| && steps[k].Ask?
    requires steps[k].pid in ws[k].procs && ws[k].procs[steps[k].pid].memory.refresh.Some?
    ensures var t := ws[k].procs[steps[k].pid].memory.refresh.value; ws[k + 1].asked[t] == ws[k].lost[t] + 1
  {
    RunInvariant(ws, steps, k);
    assert StepAt(ws, steps, k);
    HolderOf(ws[k], steps[k].pid);
    assert Accounted(ws[k], ws[k].procs[steps[k].pid].memory.refresh.value);
  }

  /** In every run a refresh token is presented only when the tokens it belongs to, those saved last or the
      process's own, are in their last minute or expired, and a process that uses stored tokens uses them
      before that. */
  lemma AskedTokensAreDue(ws: seq<World>, steps: seq<Step>, k: nat)
    requires IsRun(ws, steps) && k < |steps| && (steps[k].Ask? || steps[k].FindFresh?)
    requires steps[k].pid in ws[k].procs
    ensures var w, p := ws[k], ws[k].procs[steps[k].pid];
      var last := if w.saves == [] then p.brought else MemoryOf(w.saves[|w.saves| - 1]);
      && (steps[k].Ask? <==> last.refresh.Some? && ws[k + 1].asked == w.asked + multiset{last.refresh.value})
      && (steps[k].Ask? <==> Due(last.expiry, steps[k].now))
  {
    ContinuesFromLastSave(ws, steps, k, steps[k].pid);
    assert StepAt(ws, steps, k);
    DueExactly(ws[k].procs[steps[k].pid].memory.expiry, steps[k].now);
  }

  /** A process that has waited for the lock goes on from the tokens that were saved last, in keyring or
      file, or from its own if none ever were, and presents only the refresh token among them. */
  lemma ContinuesFromLastSave(ws: seq<World>, steps: seq<Step>, k: nat, pid: nat)
    requires IsRun(ws, steps) && k < |ws| && pid in ws[k].procs
    ensures var w, p := ws[k], ws[k].procs[pid];
      var last := if w.saves == [] then p.brought else MemoryOf(w.saves[|w.saves| - 1]);
      && (p.pc == Current ==> p.memory == last)
      && (p.pc.Asked? ==> last.refresh == Some(p.pc.token))
  {
    RunInvariant(ws, steps, k);
    assert ProcOk(ws[k], pid);
  }

  /** Once a broken write has made the store unreadable, no refresh token is ever presented again. */
  lemma {:induction false} BrokenStopsAsking(ws: seq<World>, steps: seq<Step>, i: nat, k: nat)
    requires IsRun(ws, steps) && i <= k < |ws| && Broken(ws[i])
    ensures Broken(ws[k]) && ws[k].asked == ws[i].asked
    decreases k - i
  {
    if i < k {
      BrokenStopsAsking(ws, steps, i, k - 1);
      RunInvariant(ws, steps, k - 1);
      assert StepAt(ws, steps, k - 1);
      BrokenStep(ws[k - 1], ws[k], steps[k - 1]);
    }
  }

  lemma BrokenStep(w: World, r: World, step: Step)
    requires Inv(w) && Broken(w) && Next(w, r, step)
    ensures Broken(r) && r.asked == w.asked
  {
    if step.pid in w.procs { assert ProcOk(w, step.pid); }
  }

  // ----- a run that presents a token twice -----

  function Last(ws: seq<World>): (w: World)
    requires ws != []
  {
    ws[|ws| - 1]
  }

  lemma Extend(ws: seq<World>, steps: seq<Step>, r: World, step: Step) returns (all: seq<World>, taken: seq<Step>)
    requires IsRun(ws, steps) && Next(Last(ws), r, step)
    ensures IsRun(all, taken) && all == ws + [r]
  {
    all, taken := ws + [r], steps + [step];
    forall k | 0 <= k < |taken| ensures StepAt(all, taken, k) {
      if k < |steps| { assert StepAt(ws, steps, k); }
    }
  }

  /** The due tokens in the keyring, presented by process `pid`, which dies before it is answered. */
  lemma AskAndDie(ws0: seq<World>, steps0: seq<Step>, pid: nat, t: Tokens, now: int)
    returns (ws: seq<World>, steps: seq<Step>)
    requires IsRun(ws0, steps0) && NeedsRefresh(t.expiry, now) && t.refresh.Some?
    requires var w := Last(ws0);
      w.procs == map[] && w.holder == None && t.refresh.value in w.issued
      && Loaded(w.store, w.keyring) == Some(Readable(t))
    ensures IsRun(ws, steps)
    ensures var w, token := Last(ws0), multiset{t.refresh.value};
      Last(ws) == w.(asked := w.asked + token, lost := w.lost + token)
  {
    var w := Last(ws0);
    var p := Proc(MemoryOf(t), MemoryOf(t), Waiting);
    var token := multiset{t.refresh.value};
    var w1 := Put(w, pid, p);
    ws, steps := Extend(ws0, steps0, w1, Start(pid, MemoryOf(t), now));
    var w2 := Put(w1, pid, p.(pc := Locked)).(holder := Some(pid));
    ws, steps := Extend(ws, steps, w2, Lock(pid));
    var w3 := Put(w2, pid, p.(pc := Current));
    ws, steps := Extend(ws, steps, w3, Reload(pid));
    var w4 := Put(w3, pid, p.(pc := Asked(t.refresh.value))).(asked := w.asked + token);
    ws, steps := Extend(ws, steps, w4, Ask(pid, now));
    var w5 := Remove(w4, pid).(lost := w.lost + token);
    ws, steps := Extend(ws, steps, w5, Die(pid));
    assert w5.procs == map[];
  }

  /** For any due tokens there is a run in which their refresh token is presented twice: the first
      process dies before its answer is saved, the second loads the same tokens. */
  lemma TokenPresentedTwice(t: Tokens, now: int, keyring: bool) returns (ws: seq<World>, steps: seq<Step>)
    requires NeedsRefresh(t.expiry, now) && t.refresh.Some?
    ensures IsRun(ws, steps) && Last(ws).asked[t.refresh.value] == 2
  {
    var store := if keyring then Stored(Some(Readable(t)), None) else Stored(None, Some(Readable(t)));
    var w := World(store, keyring, None, map[], {t.refresh.value}, multiset{}, multiset{}, [t]);
    ws, steps := [w], [];
    ws, steps := AskAndDie(ws, steps, 0, t, now);
    ws, steps := AskAndDie(ws, steps, 1, t, now);
  }

  // ----- one call of `ensure_valid_token` is such a run -----

  /** The process waits for a lock that is free, with these fields; what it meets is the state of the run,
      and the server does not repeat itself. */
  ghost predicate Meets(w: World, pid: nat, m: Memory, c: Circumstances) {
    && pid in w.procs && w.procs[pid] == Proc(m, m, Waiting) && w.holder == None
    && w.store == c.atLock && w.keyring == c.loading && w.keyring == c.saving.keyring
    && (c.answer.Some? && c.answer.value.refresh.Some? ==> c.answer.value.refresh.value !in w.issued)
  }

  /** The process has done its work behind the lock: it has presented this refresh token, if any, and
      stored what it says. */
  ghost predicate Works(w: World, r: World, pid: nat, presented: Option<string>, saved: bool, after: Stored) {
    var token := if presented.Some? then multiset{presented.value} else multiset{};
    && pid in r.procs && r.procs[pid].pc == Leaving && r.procs == w.procs[pid := r.procs[pid]]
    && r.holder == w.holder && r.keyring == w.keyring && r.store == after
    && r.asked == w.asked + token && r.lost == w.lost + (if saved then multiset{} else token)
    && |r.saves| == |w.saves| + (if saved then 1 else 0)
  }

  /** And has left. */
  ghost predicate Leaves(w: World, r: World, pid: nat, presented: Option<string>, saved: bool, after: Stored) {
    var token := if presented.Some? then multiset{presented.value} else multiset{};
    && r.procs == w.procs - {pid} && r.holder == None && r.keyring == w.keyring && r.store == after
    && r.asked == w.asked + token && r.lost == w.lost + (if saved then multiset{} else token)
    && |r.saves| == |w.saves| + (if saved then 1 else 0)
  }

  lemma UnlockStep(ws0: seq<World>, steps0: seq<Step>, pid: nat) returns (ws: seq<World>, steps: seq<Step>)
    requires IsRun(ws0, steps0) && pid in Last(ws0).procs && Last(ws0).procs[pid].pc == Leaving
    ensures IsRun(ws, steps) && ws == ws0 + [Remove(Last(ws0), pid)]
  {
    ws, steps := Extend(ws0, steps0, Remove(Last(ws0), pid), Unlock(pid));
  }

  /** The lock is taken, and the stored tokens are loaded if they can be read. */
  lemma LoadSteps(ws0: seq<World>, steps0: seq<Step>, pid: nat, m: Memory, c: Circumstances)
    returns (ws: seq<World>, steps: seq<Step>)
    requires IsRun(ws0, steps0) && Meets(Last(ws0), pid, m, c)
    ensures IsRun(ws, steps) && ws0 <= ws
    ensures Last(ws) == Put(Last(ws0), pid, Proc(m, Reloaded(m, c.atLock, c.loading),
      if Broken(Last(ws0)) then Leaving else Current)).(holder := Some(pid))
  {
    var w := Last(ws0);
    var a := Put(w, pid, Proc(m, m, Locked)).(holder := Some(pid));
    ws, steps := Extend(ws0, steps0, a, Lock(pid));
    if Broken(w) {
      ws, steps := Extend(ws, steps, Put(a, pid, Proc(m, m, Leaving)), FailLoad(pid));
    } else {
      ws, steps := Extend(ws, steps, Put(a, pid, Proc(m, Reloaded(m, c.atLock, c.loading), Current)), Reload(pid));
    }
  }

  function StoreAfter(s: Stored, c: Circumstances): (r: Stored) {
    if TokensOf(c).Some? && c.configWritten then Saved(s, TokensOf(c).value, c.saving) else s
  }

  /** From the presentation of the token on. */
  lemma AskSteps(ws0: seq<World>, steps0: seq<Step>, pid: nat, c: Circumstances)
    returns (ws: seq<World>, steps: seq<Step>)
    requires IsRun(ws0, steps0) && pid in Last(ws0).procs && Last(ws0).procs[pid].pc == Current
    requires NeedsRefresh(Last(ws0).procs[pid].memory.expiry, c.nowLocked)
    requires Last(ws0).procs[pid].memory.refresh.Some? && Last(ws0).keyring == c.saving.keyring
    requires c.answer.Some? && c.answer.value.refresh.Some? ==> c.answer.value.refresh.value !in Last(ws0).issued
    ensures IsRun(ws, steps) && ws0 <= ws
    ensures Works(Last(ws0), Last(ws), pid, Last(ws0).procs[pid].memory.refresh,
      TokensOf(c).Some? && c.configWritten && SaveSucceeds(c.saving), StoreAfter(Last(ws0).store, c))
  {
    var w := Last(ws0);
    var p := w.procs[pid];
    var token := p.memory.refresh.value;
    var a := Put(w, pid, p.(pc := Asked(token))).(asked := w.asked + multiset{token});
    ws, steps := Extend(ws0, steps0, a, Ask(pid, c.nowLocked));
    if TokensOf(c).None? {
      var b := Put(a, pid, p.(pc := Leaving)).(lost := a.lost + multiset{token});
      ws, steps := Extend(ws, steps, b, LoseAnswer(pid));
    } else {
      ws, steps := AnswerSteps(ws, steps, pid, TokensOf(c).value, c.configWritten, c.saving);
    }
  }

  /** The process has finished with this answer: it is saved, or lost. */
  ghost predicate Finishes(w: World, r: World, pid: nat, token: string, t: Tokens, configWritten: bool, m: Medium) {
    var saved := configWritten && SaveSucceeds(m);
    && pid in r.procs && r.procs[pid].pc == Leaving && r.procs == w.procs[pid := r.procs[pid]]
    && r.holder == w.holder && r.keyring == w.keyring && r.asked == w.asked
    && r.store == (if configWritten then Saved(w.store, t, m) else w.store)
    && r.lost == w.lost + (if saved then multiset{} else multiset{token})
    && |r.saves| == |w.saves| + (if saved then 1 else 0)
  }

  /** A usable answer comes in, and is saved as far as that succeeds. */
  lemma AnswerSteps(ws0: seq<World>, steps0: seq<Step>, pid: nat, t: Tokens, configWritten: bool, m: Medium)
    returns (ws: seq<World>, steps: seq<Step>)
    requires IsRun(ws0, steps0) && pid in Last(ws0).procs && Last(ws0).procs[pid].pc.Asked?
    requires Last(ws0).keyring == m.keyring && (t.refresh.Some? ==> t.refresh.value !in Last(ws0).issued)
    ensures IsRun(ws, steps) && ws0 <= ws
    ensures Finishes(Last(ws0), Last(ws), pid, Last(ws0).procs[pid].pc.token, t, configWritten, m)
  {
    var w := Last(ws0);
    var p := w.procs[pid].(memory := MemoryOf(t), pc := Answered(w.procs[pid].pc.token));
    var a := Put(w, pid, p).(issued := if t.refresh.Some? then w.issued + {t.refresh.value} else w.issued);
    ws, steps := Extend(ws0, steps0, a, Answer(pid, t));
    ws, steps := FinishStep(ws, steps, pid, t, configWritten, m);
  }

  lemma FinishStep(ws0: seq<World>, steps0: seq<Step>, pid: nat, t: Tokens, configWritten: bool, m: Medium)
    returns (ws: seq<World>, steps: seq<Step>)
    requires IsRun(ws0, steps0) && pid in Last(ws0).procs && Last(ws0).procs[pid].pc.Answered?
    requires Last(ws0).keyring == m.keyring && Last(ws0).procs[pid].memory == MemoryOf(t)
    ensures IsRun(ws, steps) && ws0 <= ws
    ensures Finishes(Last(ws0), Last(ws), pid, Last(ws0).procs[pid].pc.token, t, configWritten, m)
  {
    var a := Last(ws0);
    var lost := a.lost + multiset{a.procs[pid].pc.token};
    var b, step := Put(a, pid, a.procs[pid].(pc := Leaving)), LoseAnswer(pid);
    if configWritten && SaveSucceeds(m) {
      b := b.(store := Saved(a.store, t, Medium(a.keyring, m.removable, Succeeds)), saves := a.saves + [t]);
      step := SaveAnswer(pid, m.removable);
    } else if configWritten && m.write == Breaks {
      b, step := b.(store := a.store.(file := Some(Garbled)), lost := lost), BreakSave(pid);
    } else {
      b := b.(lost := lost);
    }
    ws, steps := Extend(ws0, steps0, b, step);
  }

  /** From the load to the release. */
  lemma WorkSteps(
      ws0: seq<World>, steps0: seq<Step>, pid: nat, m: Memory, c: Circumstances, token: Option<string>,
      presented: Option<string>, memory: Memory, after: Stored)
    returns (ws: seq<World>, steps: seq<Step>)
    requires IsRun(ws0, steps0) && pid in Last(ws0).procs && Last(ws0).keyring == c.saving.keyring
    requires Last(ws0).procs[pid] == Proc(m, Reloaded(m, c.atLock, c.loading), Current)
    requires Last(ws0).store == c.atLock && Loaded(c.atLock, c.loading) != Some(Garbled)
    requires c.answer.Some? && c.answer.value.refresh.Some? ==> c.answer.value.refresh.value !in Last(ws0).issued
    requires Refreshed(m, c, token, presented, memory, after)
    ensures IsRun(ws, steps) && ws0 <= ws
    ensures Works(Last(ws0), Last(ws), pid, presented, presented.Some? && token.Some?, after)
  {
    var w := Last(ws0);
    var p := w.procs[pid];
    if !NeedsRefresh(p.memory.expiry, c.nowLocked) {
      ws, steps := Extend(ws0, steps0, Put(w, pid, p.(pc := Leaving)), FindFresh(pid, c.nowLocked));
    } else if p.memory.refresh.None? || !c.clientBuilt {
      ws, steps := Extend(ws0, steps0, Put(w, pid, p.(pc := Leaving)), GiveUp(pid, c.nowLocked));
    } else {
      ws, steps := AskSteps(ws0, steps0, pid, c);
    }
  }

  /** Whatever `ensure_valid_token` meets behind the lock, what it does there is a run of the steps above:
      it presents, loses and saves exactly what its contract says. */
  lemma RefreshIsRun(
      ws0: seq<World>, steps0: seq<Step>, pid: nat, m: Memory, c: Circumstances, token: Option<string>,
      presented: Option<string>, memory: Memory, after: Stored)
    returns (ws: seq<World>, steps: seq<Step>)
    requires IsRun(ws0, steps0) && Meets(Last(ws0), pid, m, c)
    requires Refreshed(m, c, token, presented, memory, after)
    ensures IsRun(ws, steps) && ws0 <= ws
    ensures Leaves(Last(ws0), Last(ws), pid, presented, presented.Some? && token.Some?, after)
  {
    var w := Last(ws0);
    ws, steps := LoadSteps(ws0, steps0, pid, m, c);
    if !Broken(w) {
      ws, steps := WorkSteps(ws, steps, pid, m, c, token, presented, memory, after);
    }
    ws, steps := UnlockStep(ws, steps, pid);
    assert Last(ws).procs == w.procs - {pid};
  }
}
