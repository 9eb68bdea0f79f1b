/**
Dismissing a job: the dismissers write a mark into the registry and then read the state that
Celery stores; the worker stores its state first and then reads the mark.  The model follows one
job, one worker and any number of dismissers; one step is one operation on the registry, the
lock or the result backend.
 */
module Dismissal {
  import opened Wrappers

  /** The task state kept by the result backend. */
  datatype CeleryState = PENDING | STARTED | UPDATED | SUCCESS | FAILURE | REVOKED

  /** The registry entry of the job. */
  datatype RegistryEntry = Absent | Present(dismissed: bool)

  /** Where the task is; `Started` is between storing STARTED and the `before_start` check. */
  datatype TaskStage = NotSent | Queued | Started | Running | Finished | Refused | Killed | Discarded

  /**
  `Crashed` is a failure between the mark and the protected block; `Failed` is one inside it, and
  `markLeft` says that resetting the mark failed as well.
   */
  datatype Answer =
    | NotFound
    | AlreadyDismissed
    | Unavailable
    | Dismissed(revokeLost: bool)
    | Failed(markLeft: bool)
    | Crashed

  /** The points of `_dismiss` between two remote operations. */
  datatype DismissStage =
    | Idle
    | Locked
    | Found
    | Marked(holdsLock: bool)
    | Read(seen: CeleryState)
    | Decided(active: bool)
    | Cleaning(revokeLost: bool)
    | Ended(answer: Answer)

  datatype System = System(
    entry: RegistryEntry,
    registered: bool,
    task: TaskStage,
    celery: CeleryState,
    locked: Option<nat>,
    ds: seq<DismissStage>)

  datatype WorkerEvent = Receive | Check | Report | Finish(ok: bool)

  datatype ExecutorEvent = Send | Register

  datatype DismissEvent =
    | Acquire
    | Look(online: bool)
    | Mark
    | Unlock
    | ReadState
    | Decide(queryFindsIt: bool)
    | Crash
    | Revoke(delivered: bool)
    | SkipRevoke
    | Delete
    | Fail(reset: bool)

  datatype Event = Worker(w: WorkerEvent) | Executor(x: ExecutorEvent) | Dismisser(i: nat, d: DismissEvent)

  function Init(n: nat): System {
    System(Absent, false, NotSent, PENDING, None, seq(n, _ => Idle))
  }

  // ------------------------------------------------------------------
  // Steps
  // ------------------------------------------------------------------

  predicate WorkerEnabled(s: System, e: WorkerEvent) {
    match e
    case Receive => s.task == Queued
    case Check => s.task == Started
    case Report => s.task == Running
    case Finish(_) => s.task == Running
  }

  function WorkerStep(s: System, e: WorkerEvent): System
    requires WorkerEnabled(s, e)
  {
    match e
    case Receive => s.(task := Started, celery := STARTED)
    case Check =>
      if s.entry == Present(false) then s.(task := Running) else s.(task := Refused, celery := FAILURE)
    case Report => s.(celery := UPDATED)
    case Finish(ok) => s.(task := Finished, celery := if ok then SUCCESS else FAILURE)
  }

  /** The task is sent first and registered afterwards. */
  predicate ExecutorEnabled(s: System, e: ExecutorEvent) {
    match e
    case Send => s.task == NotSent
    case Register => s.task != NotSent && !s.registered
  }

  function ExecutorStep(s: System, e: ExecutorEvent): System
    requires ExecutorEnabled(s, e)
  {
    match e
    case Send => s.(task := Queued)
    case Register => s.(registered := true, entry := Present(false))
  }

  predicate DismissEnabled(s: System, i: nat, e: DismissEvent) {
    i < |s.ds| &&
    match e
    case Acquire => s.ds[i] == Idle && s.locked == None
    case Look(_) => s.ds[i] == Locked
    case Mark => s.ds[i] == Found
    case Unlock => s.ds[i] == Marked(true)
    case ReadState => s.ds[i] == Marked(false)
    case Decide(_) => s.ds[i].Read?
    case Crash => s.ds[i].Marked? || s.ds[i].Read?
    case Revoke(_) => s.ds[i] == Decided(true)
    case SkipRevoke => s.ds[i] == Decided(false)
    case Delete => s.ds[i].Cleaning?
    case Fail(_) => s.ds[i].Decided? || s.ds[i].Cleaning?
  }

  /** A revoke that reaches the worker kills the job, or has it discarded when it is received. */
  function Revoked(s: System): System {
    match s.task
    case Queued => s.(task := Discarded, celery := REVOKED)
    case Started => s.(task := Killed, celery := REVOKED)
    case Running => s.(task := Killed, celery := REVOKED)
    case _ => s
  }

  function SetMark(s: System, dismissed: bool): System {
    if s.entry.Present? then s.(entry := Present(dismissed)) else s
  }

  function DismissStep(s: System, i: nat, e: DismissEvent): System
    requires DismissEnabled(s, i, e)
  {
    match e
    case Acquire => s.(locked := Some(i), ds := s.ds[i := Locked])
    case Look(online) =>
      if s.entry == Absent then s.(locked := None, ds := s.ds[i := Ended(NotFound)])
      else if s.entry.dismissed then s.(locked := None, ds := s.ds[i := Ended(AlreadyDismissed)])
      else if !online then s.(locked := None, ds := s.ds[i := Ended(Unavailable)])
      else s.(ds := s.ds[i := Found])
    case Mark => SetMark(s, true).(ds := s.ds[i := Marked(true)])
    case Unlock => s.(locked := None, ds := s.ds[i := Marked(false)])
    case ReadState => s.(ds := s.ds[i := Read(s.celery)])
    case Decide(found) =>
      s.(ds := s.ds[i := Decided(match s.ds[i].seen
                                 case PENDING => found
                                 case STARTED => true
                                 case UPDATED => true
                                 case _ => false)])
    case Crash => s.(locked := if s.ds[i] == Marked(true) then None else s.locked, ds := s.ds[i := Ended(Crashed)])
    case Revoke(delivered) => (if delivered then Revoked(s) else s).(ds := s.ds[i := Cleaning(!delivered)])
    case SkipRevoke => s.(ds := s.ds[i := Cleaning(false)])
    case Delete => s.(entry := Absent, ds := s.ds[i := Ended(Dismissed(s.ds[i].revokeLost))])
    case Fail(reset) => (if reset then SetMark(s, false) else s).(ds := s.ds[i := Ended(Failed(!reset))])
  }

  predicate Enabled(s: System, e: Event) {
    match e
    case Worker(w) => WorkerEnabled(s, w)
    case Executor(x) => ExecutorEnabled(s, x)
    case Dismisser(i, d) => DismissEnabled(s, i, d)
  }

  function Step(s: System, e: Event): System
    requires Enabled(s, e)
  {
    match e
    case Worker(w) => WorkerStep(s, w)
    case Executor(x) => ExecutorStep(s, x)
    case Dismisser(i, d) => DismissStep(s, i, d)
  }

  predicate IsRun(s: System, es: seq<Event>)
    decreases |es|
  {
    es == [] || (Enabled(s, es[0]) && IsRun(Step(s, es[0]), es[1..]))
  }

  function Exec(s: System, es: seq<Event>): System
    requires IsRun(s, es)
    decreases |es|
  {
    if es == [] then s else Exec(Step(s, es[0]), es[1..])
  }

  // ------------------------------------------------------------------
  // The invariant
  // ------------------------------------------------------------------

  predicate HoldsLock(d: DismissStage) {
    d == Locked || d == Found || d == Marked(true)
  }

  /** Has written its mark and not yet taken it back or deleted the entry. */
  predicate Past(d: DismissStage) {
    d.Marked? || d.Read? || d.Decided? || d.Cleaning?
  }

  /** Ended by a failure that left the mark: before the protected block, or while resetting the mark in it. */
  predicate LeftMark(d: DismissStage) {
    d == Ended(Crashed) || d == Ended(Failed(true))
  }

  predicate NotYetStarted(t: TaskStage) {
    t == NotSent || t == Queued
  }

  /** The backend is behind the task by nothing: PENDING before the task starts, final once it is over. */
  predicate BackendInv(s: System) {
    && (s.celery == PENDING <==> NotYetStarted(s.task))
    && (s.task == Started ==> s.celery == STARTED)
    && (s.task == Running ==> s.celery == STARTED || s.celery == UPDATED)
    && (s.registered ==> s.task != NotSent)
    && (!s.registered ==> s.entry == Absent)
  }

  ghost predicate LockInv(s: System) {
    forall i | 0 <= i < |s.ds| :: HoldsLock(s.ds[i]) ==> s.locked == Some(i)
  }

  ghost predicate MarkInv(s: System) {
    && (forall i | 0 <= i < |s.ds| :: Past(s.ds[i]) ==> s.entry == Present(true))
    && (forall i | 0 <= i < |s.ds| :: s.ds[i] == Found ==> s.entry == Present(false))
    && (forall i, j | 0 <= i < j < |s.ds| :: !Past(s.ds[i]) || !Past(s.ds[j]))
  }

  /** What each dismisser knows about the task. */
  predicate KnowledgeOf(s: System, d: DismissStage) {
    && (d == Read(PENDING) || d == Decided(false) || d == Cleaning(false) ==> s.task != Running)
    && (d.Read? && d.seen in {SUCCESS, FAILURE, REVOKED} ==> s.task !in {NotSent, Queued, Started, Running})
    && (d == Ended(Dismissed(false)) ==> s.task != Running && s.entry == Absent && s.registered)
  }

  ghost predicate Inv(s: System) {
    && BackendInv(s) && LockInv(s) && MarkInv(s)
    && forall i | 0 <= i < |s.ds| :: KnowledgeOf(s, s.ds[i])
  }

  lemma WorkerStepKeepsInv(s: System, e: WorkerEvent)
    requires Inv(s) && WorkerEnabled(s, e)
    ensures Inv(WorkerStep(s, e))
  {
  }

  lemma ExecutorStepKeepsInv(s: System, e: ExecutorEvent)
    requires Inv(s) && ExecutorEnabled(s, e)
    ensures Inv(ExecutorStep(s, e))
  {
  }

  lemma DismissStepKeepsLock(s: System, i: nat, e: DismissEvent)
    requires Inv(s) && DismissEnabled(s, i, e)
    ensures LockInv(DismissStep(s, i, e))
  {
    assert HoldsLock(s.ds[i]) ==> s.locked == Some(i);
  }

  /** A dismisser that does not hold the mark leaves it alone. */
  lemma OutsiderIsHarmless(s: System, i: nat, e: DismissEvent)
    requires DismissEnabled(s, i, e) && !Past(s.ds[i]) && !e.Mark?
    ensures var t := DismissStep(s, i, e);
            && t.entry == s.entry && t.ds == s.ds[i := t.ds[i]]
            && !LeftMark(s.ds[i]) && !Past(t.ds[i]) && !LeftMark(t.ds[i])
            && (t.ds[i] == Found ==> t.entry == Present(false))
  {
  }

  lemma NoOtherIsPast(s: System, i: nat)
    requires MarkInv(s) && i < |s.ds| && Past(s.ds[i])
    ensures forall j | 0 <= j < |s.ds| && j != i :: !Past(s.ds[j]) && s.ds[j] != Found
  {
    forall j | 0 <= j < |s.ds| && j != i
      ensures !Past(s.ds[j]) && s.ds[j] != Found
    {
      var a, b := if i < j then i else j, if i < j then j else i;
      assert !Past(s.ds[a]) || !Past(s.ds[b]);
    }
  }

  /** The one that marks found the job unmarked under the lock, so nobody else is past or has found it. */
  lemma MarkStepKeepsMark(s: System, i: nat)
    requires LockInv(s) && MarkInv(s) && DismissEnabled(s, i, Mark)
    ensures MarkInv(DismissStep(s, i, Mark))
  {
    assert s.locked == Some(i) && s.entry == Present(false);
    assert forall j | 0 <= j < |s.ds| :: j != i ==> !Past(s.ds[j]) && s.ds[j] != Found;
  }

  lemma DismissStepKeepsMark(s: System, i: nat, e: DismissEvent)
    requires Inv(s) && DismissEnabled(s, i, e)
    ensures MarkInv(DismissStep(s, i, e))
  {
    if e.Mark? {
      MarkStepKeepsMark(s, i);
    } else if Past(s.ds[i]) {
      NoOtherIsPast(s, i);
    } else {
      OutsiderIsHarmless(s, i, e);
    }
  }

  lemma {:induction false} DismissStepKeepsKnowledge(s: System, i: nat, e: DismissEvent)
    requires Inv(s) && DismissEnabled(s, i, e)
    ensures var t := DismissStep(s, i, e);
            BackendInv(t) && forall j | 0 <= j < |t.ds| :: KnowledgeOf(t, t.ds[j])
  {
    assert KnowledgeOf(s, s.ds[i]);
  }

  lemma DismissStepKeepsInv(s: System, i: nat, e: DismissEvent)
    requires Inv(s) && DismissEnabled(s, i, e)
    ensures Inv(DismissStep(s, i, e))
  {
    DismissStepKeepsLock(s, i, e);
    DismissStepKeepsMark(s, i, e);
    DismissStepKeepsKnowledge(s, i, e);
  }

  lemma {:induction false} RunKeepsInv(s: System, es: seq<Event>)
    requires Inv(s) && IsRun(s, es)
    ensures Inv(Exec(s, es))
    decreases |es|
  {
    if es != [] {
      match es[0] {
        case Worker(w) => WorkerStepKeepsInv(s, w);
        case Executor(x) => ExecutorStepKeepsInv(s, x);
        case Dismisser(i, d) => DismissStepKeepsInv(s, i, d);
      }
      RunKeepsInv(Step(s, es[0]), es[1..]);
    }
  }

  // ------------------------------------------------------------------
  // What every run guarantees
  // ------------------------------------------------------------------

  /** Under every interleaving, at most one dismisser is past the locked section. */
  lemma AtMostOneDismisserIsPast(n: nat, es: seq<Event>, i: nat, j: nat)
    requires IsRun(Init(n), es) && i < j < |Exec(Init(n), es).ds|
    ensures !Past(Exec(Init(n), es).ds[i]) || !Past(Exec(Init(n), es).ds[j])
  {
    RunKeepsInv(Init(n), es);
  }

  /** If the job passed its start check, the dismisser that marked it decides to revoke it. */
  lemma {:induction false} RunningJobIsSeen(n: nat, es: seq<Event>, i: nat, found: bool)
    requires IsRun(Init(n), es)
    requires var s := Exec(Init(n), es); s.task == Running && i < |s.ds| && s.ds[i].Read?
    ensures var s := Exec(Init(n), es);
            && s.ds[i].seen in {STARTED, UPDATED}
            && DismissStep(s, i, Decide(found)).ds[i] == Decided(true)
  {
    RunKeepsInv(Init(n), es);
    var s := Exec(Init(n), es);
    assert KnowledgeOf(s, s.ds[i]);
  }

  /** A dismisser that has ended does nothing more. */
  lemma {:induction false} EndedStays(s: System, es: seq<Event>, i: nat)
    requires IsRun(s, es) && i < |s.ds| && s.ds[i].Ended?
    ensures i < |Exec(s, es).ds| && Exec(s, es).ds[i] == s.ds[i]
    decreases |es|
  {
    if es != [] {
      EndedStays(Step(s, es[0]), es[1..], i);
    }
  }

  /** Once `_dismiss` has answered and its revoke was not lost, the job does not run, then or ever after. */
  lemma DismissedJobNeverRuns(n: nat, es: seq<Event>, later: seq<Event>, i: nat)
    requires IsRun(Init(n), es) && i < |Exec(Init(n), es).ds|
    requires Exec(Init(n), es).ds[i] == Ended(Dismissed(false))
    requires IsRun(Exec(Init(n), es), later)
    ensures Exec(Exec(Init(n), es), later).task != Running
  {
    RunKeepsInv(Init(n), es);
    var s := Exec(Init(n), es);
    RunKeepsInv(s, later);
    EndedStays(s, later, i);
    assert KnowledgeOf(Exec(s, later), Exec(s, later).ds[i]);
  }

  /** A running job survives the dismisser that saw it exactly when the revoke did not reach its worker. */
  lemma RunningAfterAnswerIffRevokeLost(s: System, i: nat, delivered: bool)
    requires Inv(s) && i < |s.ds| && s.ds[i] == Decided(true) && s.task == Running
    ensures var t := DismissStep(DismissStep(s, i, Revoke(delivered)), i, Delete);
            t.ds[i] == Ended(Dismissed(!delivered)) && t.entry == Absent && (t.task == Running <==> !delivered)
  {
    assert DismissEnabled(DismissStep(s, i, Revoke(delivered)), i, Delete);
  }

  /** Unfolds a run of four steps. */
  lemma RunFour(s: System, es: seq<Event>)
    requires |es| == 4
    requires Enabled(s, es[0])
    requires Enabled(Step(s, es[0]), es[1])
    requires Enabled(Step(Step(s, es[0]), es[1]), es[2])
    requires Enabled(Step(Step(Step(s, es[0]), es[1]), es[2]), es[3])
    ensures IsRun(s, es) && Exec(s, es) == Step(Step(Step(Step(s, es[0]), es[1]), es[2]), es[3])
  {
    var s1 := Step(s, es[0]);
    var s2 := Step(s1, es[1]);
    var s3 := Step(s2, es[2]);
    var last := es[1..][1..][1..];
    assert last == [es[3]] && last[1..] == [];
    var s4 := Step(s3, es[3]);
    assert IsRun(s4, last[1..]) && Exec(s4, last[1..]) == s4;
    assert IsRun(s3, last) && Exec(s3, last) == s4;
    assert IsRun(s2, es[1..][1..]) && Exec(s2, es[1..][1..]) == Exec(s3, last);
  }

  /** No step of the run takes a mark back. */
  ghost predicate NeverReset(es: seq<Event>) {
    forall i | 0 <= i < |es| :: es[i].Dismisser? ==> es[i].d != Fail(true)
  }

  /** After a registered job is marked or deleted it does not start, as long as no mark is reset. */
  lemma {:induction false} MarkedJobDoesNotStart(s: System, es: seq<Event>)
    requires Inv(s) && s.registered && s.entry != Present(false) && s.task != Running
    requires IsRun(s, es) && NeverReset(es)
    ensures Exec(s, es).task != Running && Exec(s, es).entry != Present(false)
    decreases |es|
  {
    if es != [] {
      match es[0] {
        case Worker(w) => WorkerStepKeepsInv(s, w);
        case Executor(x) => ExecutorStepKeepsInv(s, x);
        case Dismisser(i, d) => DismissStepKeepsInv(s, i, d);
      }
      assert NeverReset(es[1..]) by {
        assert forall k | 0 <= k < |es| - 1 :: es[1..][k] == es[k + 1];
      }
      MarkedJobDoesNotStart(Step(s, es[0]), es[1..]);
    }
  }

  /** Taking a mark back lets a task that is about to check start after all. */
  lemma ResetLetsJobStart(s: System, i: nat)
    requires Inv(s) && DismissEnabled(s, i, Fail(true)) && s.task == Started
    ensures WorkerStep(s, Check).task == Refused
    ensures WorkerStep(DismissStep(s, i, Fail(true)), Check).task == Running
  {
    assert Past(s.ds[i]);
  }

  // ------------------------------------------------------------------
  // Marks that nobody acts upon
  // ------------------------------------------------------------------

  /** The job is marked and no dismisser is acting upon the mark. */
  ghost predicate Orphaned(s: System) {
    s.entry == Present(true) && forall i | 0 <= i < |s.ds| :: !Past(s.ds[i])
  }

  ghost predicate OrphanInv(s: System) {
    && (forall i | 0 <= i < |s.ds| :: LeftMark(s.ds[i]) ==> Orphaned(s))
    && (s.entry == Present(true) ==> exists i | 0 <= i < |s.ds| :: Past(s.ds[i]) || LeftMark(s.ds[i]))
  }

  lemma MarkKeepsOrphanInv(s: System, i: nat)
    requires Inv(s) && OrphanInv(s) && DismissEnabled(s, i, Mark)
    ensures OrphanInv(DismissStep(s, i, Mark))
  {
    var t := DismissStep(s, i, Mark);
    assert s.entry == Present(false) && Past(t.ds[i]);
    assert forall j | 0 <= j < |s.ds| :: j != i ==> t.ds[j] == s.ds[j] && !LeftMark(s.ds[j]);
  }

  lemma OutsiderKeepsOrphanInv(s: System, i: nat, e: DismissEvent)
    requires OrphanInv(s) && DismissEnabled(s, i, e) && !Past(s.ds[i]) && !e.Mark?
    ensures OrphanInv(DismissStep(s, i, e))
  {
    OutsiderIsHarmless(s, i, e);
    var t := DismissStep(s, i, e);
    if s.entry == Present(true) {
      var k :| 0 <= k < |s.ds| && (Past(s.ds[k]) || LeftMark(s.ds[k]));
      assert k != i && t.ds[k] == s.ds[k];
    }
  }

  lemma HolderKeepsOrphanInv(s: System, i: nat, e: DismissEvent)
    requires Inv(s) && OrphanInv(s) && DismissEnabled(s, i, e) && Past(s.ds[i])
    ensures OrphanInv(DismissStep(s, i, e))
  {
    var t := DismissStep(s, i, e);
    NoOtherIsPast(s, i);
    assert forall j | 0 <= j < |s.ds| :: !LeftMark(s.ds[j]);
    assert forall j | 0 <= j < |s.ds| :: j != i ==> t.ds[j] == s.ds[j];
    assert t.entry == Present(true) <==> Past(t.ds[i]) || LeftMark(t.ds[i]);
  }

  lemma {:induction false} RunKeepsOrphanInv(s: System, es: seq<Event>)
    requires Inv(s) && OrphanInv(s) && IsRun(s, es)
    ensures OrphanInv(Exec(s, es))
    decreases |es|
  {
    if es != [] {
      match es[0] {
        case Worker(w) => WorkerStepKeepsInv(s, w);
        case Executor(x) => ExecutorStepKeepsInv(s, x);
        case Dismisser(i, d) =>
          DismissStepKeepsInv(s, i, d);
          if Past(s.ds[i]) {
            HolderKeepsOrphanInv(s, i, d);
          } else if d.Mark? {
            MarkKeepsOrphanInv(s, i);
          } else {
            OutsiderKeepsOrphanInv(s, i, d);
          }
      }
      RunKeepsOrphanInv(Step(s, es[0]), es[1..]);
    }
  }

  /**
  In every run: the job is marked with nobody acting upon it exactly when some dismisser failed
  between its mark and the protected block, or failed inside it and could not reset the mark.
   */
  lemma MarkIsOrphanedIffLeft(n: nat, es: seq<Event>)
    requires IsRun(Init(n), es)
    ensures var s := Exec(Init(n), es);
            Orphaned(s) <==> exists i | 0 <= i < |s.ds| :: LeftMark(s.ds[i])
  {
    RunKeepsOrphanInv(Init(n), es);
  }

  /** Both failures do so, whatever the job is doing, running included. */
  lemma CrashOrphansTheMark(s: System, i: nat, e: DismissEvent)
    requires Inv(s) && DismissEnabled(s, i, e) && e in {Crash, Fail(false)}
    ensures Orphaned(DismissStep(s, i, e)) && DismissStep(s, i, e).task == s.task
  {
    assert Past(s.ds[i]);
    NoOtherIsPast(s, i);
  }

  /** An orphaned mark stays: in every continuation, each later call is refused as already dismissed. */
  lemma {:induction false} OrphanedMarkIsPermanent(s: System, es: seq<Event>, i: nat, online: bool)
    requires Inv(s) && Orphaned(s) && IsRun(s, es)
    ensures Inv(Exec(s, es)) && Orphaned(Exec(s, es))
    ensures var t := Exec(s, es);
            i < |t.ds| && t.ds[i] == Locked ==> DismissStep(t, i, Look(online)).ds[i] == Ended(AlreadyDismissed)
    decreases |es|
  {
    if es != [] {
      OrphanedStep(s, es[0]);
      OrphanedMarkIsPermanent(Step(s, es[0]), es[1..], i, online);
    }
  }

  lemma OrphanedStep(s: System, e: Event)
    requires Inv(s) && Orphaned(s) && Enabled(s, e)
    ensures Inv(Step(s, e)) && Orphaned(Step(s, e))
    ensures s.task != Running ==> Step(s, e).task != Running
    ensures s.task in {Running, Finished} ==> Step(s, e).task in {Running, Finished}
  {
    match e {
      case Worker(w) => WorkerStepKeepsInv(s, w);
      case Executor(x) => ExecutorStepKeepsInv(s, x);
      case Dismisser(i, d) =>
        DismissStepKeepsInv(s, i, d);
        assert !Past(s.ds[i]) && s.ds[i] != Found;
        assert forall j | 0 <= j < |s.ds| :: j != i ==> Step(s, e).ds[j] == s.ds[j];
    }
  }

  /** Nor is the job ever revoked: if it runs it goes on to its own end, if it does not run it never will. */
  lemma {:induction false} OrphanedJobIsLeftAlone(s: System, es: seq<Event>)
    requires Inv(s) && Orphaned(s) && IsRun(s, es)
    ensures s.task in {Running, Finished} ==> Exec(s, es).task in {Running, Finished}
    ensures s.task != Running ==> Exec(s, es).task != Running
    decreases |es|
  {
    if es != [] {
      OrphanedStep(s, es[0]);
      OrphanedJobIsLeftAlone(Step(s, es[0]), es[1..]);
    }
  }

  // ------------------------------------------------------------------
  // Jobs that nobody dismisses
  // ------------------------------------------------------------------

  ghost predicate NeverMarked(es: seq<Event>) {
    forall i | 0 <= i < |es| :: es[i].Dismisser? ==> es[i].d != Mark
  }

  ghost predicate Unmarked(s: System) {
    && s.entry == (if s.registered then Present(false) else Absent)
    && forall i | 0 <= i < |s.ds| :: !Past(s.ds[i])
  }

  lemma {:induction false} UnmarkedRun(s: System, es: seq<Event>)
    requires Unmarked(s) && IsRun(s, es) && NeverMarked(es)
    ensures Unmarked(Exec(s, es))
    decreases |es|
  {
    if es != [] {
      assert NeverMarked(es[1..]) by {
        assert forall k | 0 <= k < |es| - 1 :: es[1..][k] == es[k + 1];
      }
      assert Unmarked(Step(s, es[0]));
      UnmarkedRun(Step(s, es[0]), es[1..]);
    }
  }

  /** In every run without a mark, the start check lets the job run exactly when it is already registered. */
  lemma UndismissedJobRunsIffRegistered(n: nat, es: seq<Event>)
    requires IsRun(Init(n), es) && NeverMarked(es) && Exec(Init(n), es).task == Started
    ensures var t := Exec(Init(n), es);
            WorkerStep(t, Check).task == (if t.registered then Running else Refused)
  {
    UnmarkedRun(Init(n), es);
  }

  /** The task is sent before it is registered, so a fast worker does refuse a job nobody dismissed. */
  lemma UnregisteredJobIsRefused()
    ensures var es := [Executor(Send), Worker(Receive), Worker(Check), Executor(Register)];
            && IsRun(Init(0), es) && NeverMarked(es)
            && Exec(Init(0), es).task == Refused && Exec(Init(0), es).entry == Present(false)
  {
    RunFour(Init(0), [Executor(Send), Worker(Receive), Worker(Check), Executor(Register)]);
  }

  // ------------------------------------------------------------------
  // What each decision rests on
  // ------------------------------------------------------------------

  /** The locked section, exactly: who is refused and why, and who goes on to mark the job. */
  lemma LookOutcome(s: System, i: nat, online: bool)
    requires DismissEnabled(s, i, Look(online))
    ensures var t := DismissStep(s, i, Look(online));
            && (t.ds[i] == Ended(NotFound) <==> s.entry.Absent?)
            && (t.ds[i] == Ended(AlreadyDismissed) <==> s.entry == Present(true))
            && (t.ds[i] == Ended(Unavailable) <==> s.entry == Present(false) && !online)
            && (t.ds[i] == Found <==> s.entry == Present(false) && online)
            && (t.ds[i] != Found ==> t.locked == None)
            && t.entry == s.entry && t.task == s.task && t.celery == s.celery
  {
  }

  /** A revoke is decided exactly for a job that has started, or that is pending and known to a worker. */
  lemma DecideOutcome(s: System, i: nat, found: bool)
    requires DismissEnabled(s, i, Decide(found))
    ensures var active := DismissStep(s, i, Decide(found)).ds[i] == Decided(true);
            active <==> s.ds[i].seen in {STARTED, UPDATED} || (s.ds[i].seen == PENDING && found)
  {
  }

  /** A delivered revoke ends a job that is queued, starting or running, and leaves any other as it is. */
  lemma RevokeOutcome(s: System, i: nat)
    requires DismissEnabled(s, i, Revoke(true))
    ensures var t := DismissStep(s, i, Revoke(true));
            if s.task in {Queued, Started, Running} then t.task in {Discarded, Killed} && t.celery == REVOKED
            else t.task == s.task && t.celery == s.celery
  {
  }

  /** No look finds the service online. */
  ghost predicate AlwaysOffline(es: seq<Event>) {
    forall i | 0 <= i < |es| :: es[i].Dismisser? ==> es[i].d != Look(true)
  }

  ghost predicate NobodyPast(s: System) {
    s.entry != Present(true) && forall i | 0 <= i < |s.ds| :: !Past(s.ds[i]) && s.ds[i] != Found
  }

  /** Jobs of a service that is never online are never marked. */
  lemma {:induction false} OfflineJobsAreNeverMarked(s: System, es: seq<Event>)
    requires NobodyPast(s) && IsRun(s, es) && AlwaysOffline(es)
    ensures NobodyPast(Exec(s, es))
    decreases |es|
  {
    if es != [] {
      OfflineStep(s, es[0]);
      assert forall k | 0 <= k < |es| - 1 :: es[1..][k] == es[k + 1];
      OfflineJobsAreNeverMarked(Step(s, es[0]), es[1..]);
    }
  }

  lemma OfflineStep(s: System, e: Event)
    requires NobodyPast(s) && Enabled(s, e) && (e.Dismisser? ==> e.d != Look(true))
    ensures NobodyPast(Step(s, e))
  {
    if e.Dismisser? {
      OutsiderIsHarmless(s, e.i, e.d);
      if e.d.Look? {
        LookOutcome(s, e.i, e.d.online);
      }
    }
  }

  // ------------------------------------------------------------------
  // A dismissal that succeeds
  // ------------------------------------------------------------------

  ghost predicate Reaches(s: System, es: seq<Event>, t: System) {
    IsRun(s, es) && Exec(s, es) == t
  }

  lemma {:induction false} Extend(s: System, es: seq<Event>, t: System, e: Event)
    requires Reaches(s, es, t) && Enabled(t, e)
    ensures Reaches(s, es + [e], Step(t, e))
    decreases |es|
  {
    if es == [] {
      assert es + [e] == [e] && [e][1..] == [];
    } else {
      assert (es + [e])[1..] == es[1..] + [e];
      Extend(Step(s, es[0]), es[1..], t, e);
    }
  }

  /** From the free lock to the mark. */
  lemma MarkCanBeSet(s: System, i: nat) returns (es: seq<Event>, t: System)
    requires s.locked == None && s.entry == Present(false) && i < |s.ds| && s.ds[i] == Idle
    ensures Reaches(s, es, t) && t == s.(entry := Present(true), ds := s.ds[i := Marked(false)])
  {
    var e0, e1, e2, e3 := Dismisser(i, Acquire), Dismisser(i, Look(true)), Dismisser(i, Mark), Dismisser(i, Unlock);
    Extend(s, [], s, e0);
    var s1 := Step(s, e0);
    Extend(s, [] + [e0], s1, e1);
    var s2 := Step(s1, e1);
    Extend(s, [] + [e0] + [e1], s2, e2);
    var s3 := Step(s2, e2);
    Extend(s, [] + [e0] + [e1] + [e2], s3, e3);
    t := Step(s3, e3);
    es := [] + [e0] + [e1] + [e2] + [e3];
  }

  /** From the mark to the answer. */
  lemma MarkedJobCanBeDismissed(s: System, init: seq<Event>, m: System, i: nat) returns (es: seq<Event>, t: System)
    requires Reaches(s, init, m) && i < |m.ds| && m.ds[i] == Marked(false)
    ensures Reaches(s, es, t) && i < |t.ds| && t.ds[i] == Ended(Dismissed(false)) && t.entry == Absent
  {
    var e0, e1 := Dismisser(i, ReadState), Dismisser(i, Decide(false));
    Extend(s, init, m, e0);
    var s1 := Step(m, e0);
    Extend(s, init + [e0], s1, e1);
    var s2 := Step(s1, e1);
    var e2 := Dismisser(i, if s2.ds[i] == Decided(true) then Revoke(true) else SkipRevoke);
    Extend(s, init + [e0] + [e1], s2, e2);
    var s3 := Step(s2, e2);
    var e3 := Dismisser(i, Delete);
    Extend(s, init + [e0] + [e1] + [e2], s3, e3);
    t := Step(s3, e3);
    es := init + [e0] + [e1] + [e2] + [e3];
  }

  /**
  A dismissal can always succeed: with the lock free and the job registered and unmarked, an idle
  dismisser has a continuation that ends in a delivered dismissal, the job not running.
   */
  lemma DismissalCanSucceed(s: System, i: nat) returns (es: seq<Event>)
    requires Inv(s) && s.locked == None && s.entry == Present(false) && i < |s.ds| && s.ds[i] == Idle
    ensures IsRun(s, es)
    ensures var t := Exec(s, es);
            i < |t.ds| && t.ds[i] == Ended(Dismissed(false)) && t.task != Running && t.entry == Absent
  {
    var init, m := MarkCanBeSet(s, i);
    var t: System;
    es, t := MarkedJobCanBeDismissed(s, init, m, i);
    RunKeepsInv(s, es);
    assert KnowledgeOf(t, t.ds[i]);
  }

  // ------------------------------------------------------------------
  // What the result backend tells
  // ------------------------------------------------------------------

  ghost predicate BackendTells(s: System, es: seq<Event>) {
    && (s.celery == SUCCESS <==> Worker(Finish(true)) in es)
    && (s.celery == FAILURE <==> Worker(Finish(false)) in es || s.task == Refused)
    && (s.celery == REVOKED <==> s.task == Killed || s.task == Discarded)
    && (s.task == Finished <==> Worker(Finish(true)) in es || Worker(Finish(false)) in es)
  }

  lemma {:induction false} BackendStep(s: System, past: seq<Event>, e: Event)
    requires BackendInv(s) && BackendTells(s, past) && Enabled(s, e)
    ensures BackendInv(Step(s, e)) && BackendTells(Step(s, e), past + [e])
  {
    assert forall x :: x in past + [e] <==> x in past || x == e;
  }

  lemma {:induction false} BackendOfRun(s: System, past: seq<Event>, es: seq<Event>)
    requires BackendInv(s) && BackendTells(s, past) && IsRun(s, es)
    ensures BackendTells(Exec(s, es), past + es)
    decreases |es|
  {
    if es == [] {
      assert past + es == past;
    } else {
      BackendStep(s, past, es[0]);
      BackendOfRun(Step(s, es[0]), past + [es[0]], es[1..]);
      assert past + [es[0]] + es[1..] == past + es;
    }
  }

  /** In every run the backend says how the job ended: by itself and how, refused, or revoked. */
  lemma BackendTellsHowItEnded(n: nat, es: seq<Event>)
    requires IsRun(Init(n), es)
    ensures BackendTells(Exec(Init(n), es), es)
  {
    BackendOfRun(Init(n), [], es);
    assert [] + es == es;
  }

  // ------------------------------------------------------------------
  // The registry
  // ------------------------------------------------------------------

  type JobId = string

  datatype TaskInfo = TaskInfo(created: int, pendingTimeout: int, dismissed: bool)

  function EntryOf(jobs: map<JobId, TaskInfo>, id: JobId): RegistryEntry {
    if id in jobs then Present(jobs[id].dismissed) else Absent
  }

  class Registry {
    var jobs: map<JobId, TaskInfo>

    constructor ()
      ensures jobs == map[]
    {
      jobs := map[];
    }

    method RegisterJob(id: JobId, created: int, pendingTimeout: int)
      modifies this
      ensures EntryOf(jobs, id) == Present(false)
      ensures forall other | other != id :: EntryOf(jobs, other) == EntryOf(old(jobs), other)
      ensures jobs.Keys == old(jobs).Keys + {id} && jobs[id] == TaskInfo(created, pendingTimeout, false)
    {
      jobs := jobs[id := TaskInfo(created, pendingTimeout, false)];
    }

    method DismissJob(id: JobId, reset: bool) returns (found: bool)
      modifies this
      ensures found == (id in old(jobs)) && jobs.Keys == old(jobs).Keys
      ensures forall s: System | s.entry == EntryOf(old(jobs), id) :: SetMark(s, !reset).entry == EntryOf(jobs, id)
      ensures forall other | other != id && other in jobs :: jobs[other] == old(jobs)[other]
    {
      found := id in jobs;
      if found {
        jobs := jobs[id := jobs[id].(dismissed := !reset)];
      }
    }

    method DeleteJob(id: JobId) returns (removed: nat)
      modifies this
      ensures removed == (if id in old(jobs) then 1 else 0)
      ensures jobs == map k | k in old(jobs) && k != id :: old(jobs)[k]
      ensures EntryOf(jobs, id) == Absent
    {
      removed := if id in jobs then 1 else 0;
      jobs := map k | k in jobs && k != id :: jobs[k];
    }

    /** `before_start`: the job may run exactly when it is registered and not marked. */
    method MayStart(id: JobId) returns (ok: bool)
      ensures forall s: System | s.entry == EntryOf(jobs, id) && s.task == Started ::
                ok <==> WorkerStep(s, Check).task == Running
    {
      ok := id in jobs && !jobs[id].dismissed;
    }
  }
}
