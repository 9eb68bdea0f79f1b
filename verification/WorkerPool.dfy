/**
The pool of child processes as a step system: lending, recycling, hot reload, resynchronisation
and maintenance, one step per await-free stretch of code.
 */
module WorkerPool {
  import opened Wrappers
  import opened Sequences
  import opened RestoreLog
  import Q = NotifyQueue

  datatype Worker = Worker(
    id: nat, generation: nat, lastUpdate: nat, cache: set<Uri>, config: Option<Config>, alive: bool)

  /**
  The await points of `recycle_owned`.  A task in `Restoring` holds the read lock on the restore
  log and works from the log it saw when it took the lock.
   */
  datatype Stage = Spawned | Cancelling | AwaitingLock | Restoring(seen: Log)

  datatype Task = Task(worker: Worker, stage: Stage)

  /** Where `maintain_pool` is suspended, with the counters it read before suspending. */
  datatype Maintenance =
    | Quiet
    | Spawning(nominal: nat, n: nat, dead0: int, failures0: int)
    | Resyncing(nominal: nat, fleet: seq<Worker>, seen: Log, dead0: int, failures0: int)
    | Shrinking(dead0: int, failures0: int)

  /**
  `ended` lists the workers that are terminated or dropped, `launched` counts the workers ever
  started, and `drift` adds up what the shrink branch loses; none of the three is in the source.
   */
  datatype Pool = Pool(
    q: Q.State<Worker>,
    lent: seq<Worker>,
    tasks: seq<Task>,
    maint: Maintenance,
    generation: nat,
    dead: int,
    failures: int,
    processes: int,
    log: Log,
    ended: seq<Worker>,
    launched: nat,
    drift: int)

  /** Steps of the holders of worker handles; `TakeIdle` is a drain whose handles are kept. */
  datatype ClientEvent =
    | Get(call: Q.CallId)
    | Wake(call: Q.CallId)
    | Abort(call: Q.CallId)
    | Use(i: nat, cache: set<Uri>)
    | Release(i: nat)
    | TakeIdle

  /** Steps of one recycling task. */
  datatype RecycleEvent =
    | CheckGeneration
    | CancelDone(ok: bool)
    | LockRead
    | RestoreDone(ok: bool)

  /** Administration requests, and the death of an idle process. */
  datatype AdminEvent =
    | Reload
    | ChangeLog(action: Action)
    | IdleDeath(i: nat)

  /** Steps of `maintain_pool` and `close`; a dropped shrink never gets to its counters. */
  datatype UpkeepEvent =
    | Maintain(nominal: nat)
    | SpawnDone(ok: bool, loaded: set<Uri>)
    | ResyncDone(ok: bool)
    | ShrinkDone
    | ShrinkDropped
    | CloseQueue
    | CloseDrain

  datatype Event =
    | Client(client: ClientEvent)
    | Recycle(t: nat, recycle: RecycleEvent)
    | Admin(admin: AdminEvent)
    | Upkeep(upkeep: UpkeepEvent)

  function Start(projects: set<Uri>): Pool {
    Pool(Q.Init(), [], [], Quiet, 1, 0, 0, 0, WithProjects(projects), [], 0, 0)
  }

  // ------------------------------------------------------------------
  // Steps
  // ------------------------------------------------------------------

  /** The worker after a successful resynchronisation with `log`. */
  function Restored(log: Log, w: Worker): Worker {
    w.(config := RestoredConfig(log, w.lastUpdate, w.config),
       cache := RestoredCache(log, w.lastUpdate, w.cache),
       lastUpdate := log.update)
  }

  function RestoredAll(log: Log, ws: seq<Worker>): (r: seq<Worker>)
    ensures |r| == |ws|
    ensures forall i | 0 <= i < |ws| :: r[i] == Restored(log, ws[i])
  {
    seq(|ws|, i requires 0 <= i < |ws| => Restored(log, ws[i]))
  }

  /** Dropping the handles of `ws` spawns one recycling task for each. */
  function Recycling(ws: seq<Worker>): (r: seq<Task>)
    ensures |r| == |ws|
    ensures forall i | 0 <= i < |ws| :: r[i] == Task(ws[i], Spawned)
  {
    seq(|ws|, i requires 0 <= i < |ws| => Task(ws[i], Spawned))
  }

  function Lend(p: Pool, r: (Q.State<Worker>, Q.Outcome<Worker>)): Pool {
    p.(q := r.0, lent := p.lent + if r.1.Item? then [r.1.item] else [])
  }

  /** Every idle worker is taken out of the queue and recycled. */
  function DrainIdle(p: Pool): Pool {
    p.(q := Q.SetItems(p.q, []), tasks := p.tasks + Recycling(p.q.items))
  }

  function SetStage(p: Pool, t: nat, stage: Stage): Pool
    requires t < |p.tasks|
  {
    p.(tasks := p.tasks[t := p.tasks[t].(stage := stage)])
  }

  function Terminate(p: Pool, t: nat): Pool
    requires t < |p.tasks|
  {
    p.(tasks := Without(p.tasks, t), dead := p.dead + 1, ended := p.ended + [p.tasks[t].worker])
  }

  function TerminateFailure(p: Pool, t: nat): Pool
    requires t < |p.tasks|
  {
    Terminate(p.(failures := p.failures + 1), t)
  }

  function Enqueue(p: Pool, t: nat, log: Log): Pool
    requires t < |p.tasks|
  {
    p.(tasks := Without(p.tasks, t), q := Q.Push(p.q, Restored(log, p.tasks[t].worker)))
  }

  function AliveMask(ws: seq<Worker>): (r: seq<bool>)
    ensures |r| == |ws|
    ensures forall i | 0 <= i < |ws| :: r[i] == ws[i].alive
  {
    seq(|ws|, i requires 0 <= i < |ws| => ws[i].alive)
  }

  function DeadMask(ws: seq<Worker>): (r: seq<bool>)
    ensures |r| == |ws|
    ensures forall i | 0 <= i < |ws| :: r[i] == !ws[i].alive
  {
    seq(|ws|, i requires 0 <= i < |ws| => !ws[i].alive)
  }

  /** Idle workers whose process died leave the queue and are counted as dead. */
  function CleanUp(p: Pool): Pool {
    var ws := p.q.items;
    var kept := Q.Kept(ws, AliveMask(ws));
    p.(q := Q.SetItems(p.q, kept),
       dead := p.dead + (|ws| - |kept|),
       ended := p.ended + Q.Kept(ws, DeadMask(ws)))
  }

  /** Takes at most `n` idle workers out of the pool for good. */
  function Retire(p: Pool, n: nat): Pool {
    var k := Q.Min(n, |p.q.items|);
    p.(q := Q.SetItems(p.q, p.q.items[k..]),
       processes := p.processes - k,
       ended := p.ended + p.q.items[..k])
  }

  /** `maintain_pool` up to its first await. */
  function BeginMaintenance(p: Pool, nominal: nat): Pool {
    var c := CleanUp(p);
    var current := c.processes - c.dead;
    if nominal == current || c.q.closed then c
    else if nominal > current then c.(maint := Spawning(nominal, nominal - current, c.dead, c.failures))
    else Retire(c, current - nominal).(maint := Shrinking(c.dead, c.failures))
  }

  function Fleet(first: nat, generation: nat, n: nat, loaded: set<Uri>): (r: seq<Worker>)
    ensures |r| == n
    ensures forall i | 0 <= i < n :: r[i] == Worker(first + i, generation, 0, loaded, None, true)
  {
    seq(n, (i: nat) => Worker(first + i, generation, 0, loaded, None, true))
  }

  function EndSpawn(p: Pool, ok: bool, loaded: set<Uri>): Pool
    requires p.maint.Spawning?
  {
    var m := p.maint;
    if ok then
      var fleet := Fleet(p.launched, p.generation, m.n, loaded);
      p.(maint := Resyncing(m.nominal, fleet, p.log, m.dead0, m.failures0), launched := p.launched + m.n)
    else p.(maint := Quiet)
  }

  function EndResync(p: Pool, ok: bool): Pool
    requires p.maint.Resyncing?
  {
    var m := p.maint;
    if ok then p.(maint := Quiet,
                  q := Q.PushAll(p.q, RestoredAll(m.seen, m.fleet)),
                  processes := m.nominal,
                  failures := p.failures - m.failures0,
                  dead := p.dead - m.dead0)
    else p.(maint := Quiet, ended := p.ended + m.fleet)
  }

  function EndShrink(p: Pool): Pool
    requires p.maint.Shrinking?
  {
    p.(maint := Quiet,
       failures := p.failures - p.maint.failures0,
       dead := p.dead - p.maint.dead0,
       drift := p.drift + p.maint.dead0)
  }

  /** Nobody holds the read lock on the restore log. */
  ghost predicate Unlocked(p: Pool) {
    !p.maint.Resyncing? && forall i | 0 <= i < |p.tasks| :: !p.tasks[i].stage.Restoring?
  }

  predicate ClientEnabled(p: Pool, e: ClientEvent) {
    match e
    case Get(c) => Q.Enabled(p.q, Q.Recv(c))
    case Wake(c) => Q.Enabled(p.q, Q.Resume(c))
    case Abort(c) => Q.Enabled(p.q, Q.Cancel(c))
    case Use(i, _) => i < |p.lent|
    case Release(i) => i < |p.lent|
    case TakeIdle => true
  }

  function ClientStep(p: Pool, e: ClientEvent): Pool
    requires ClientEnabled(p, e)
  {
    match e
    case Get(c) => Lend(p, Q.Poll(p.q, c))
    case Wake(c) => Lend(p, Q.Poll(Q.Unpark(p.q, c), c))
    case Abort(c) => p.(q := Q.Abandon(p.q, c))
    case Use(i, cache) => p.(lent := p.lent[i := p.lent[i].(cache := cache)])
    case Release(i) => p.(lent := Without(p.lent, i), tasks := p.tasks + [Task(p.lent[i], Spawned)])
    case TakeIdle => p.(q := Q.SetItems(p.q, []), lent := p.lent + p.q.items)
  }

  predicate RecycleEnabled(p: Pool, t: nat, e: RecycleEvent) {
    t < |p.tasks| &&
    match e
    case CheckGeneration => p.tasks[t].stage.Spawned?
    case CancelDone(_) => p.tasks[t].stage.Cancelling?
    case LockRead => p.tasks[t].stage.AwaitingLock?
    case RestoreDone(_) => p.tasks[t].stage.Restoring?
  }

  function RecycleStep(p: Pool, t: nat, e: RecycleEvent): Pool
    requires RecycleEnabled(p, t, e)
  {
    match e
    case CheckGeneration =>
      if p.tasks[t].worker.generation < p.generation then Terminate(p, t) else SetStage(p, t, Cancelling)
    case CancelDone(ok) => if ok then SetStage(p, t, AwaitingLock) else TerminateFailure(p, t)
    case LockRead => SetStage(p, t, Restoring(p.log))
    case RestoreDone(ok) => if ok then Enqueue(p, t, p.tasks[t].stage.seen) else TerminateFailure(p, t)
  }

  ghost predicate AdminEnabled(p: Pool, e: AdminEvent) {
    match e
    case Reload => true
    case ChangeLog(_) => Unlocked(p)
    case IdleDeath(i) => i < |p.q.items|
  }

  function AdminStep(p: Pool, e: AdminEvent): Pool
    requires e.IdleDeath? ==> e.i < |p.q.items|
  {
    match e
    case Reload => DrainIdle(p.(generation := p.generation + 1))
    case ChangeLog(a) => DrainIdle(p).(log := Apply(p.log, a))
    case IdleDeath(i) => p.(q := p.q.(items := p.q.items[i := p.q.items[i].(alive := false)]))
  }

  predicate UpkeepEnabled(p: Pool, e: UpkeepEvent) {
    match e
    case Maintain(_) => p.maint.Quiet?
    case SpawnDone(_, _) => p.maint.Spawning?
    case ResyncDone(_) => p.maint.Resyncing?
    case ShrinkDone => p.maint.Shrinking?
    case ShrinkDropped => p.maint.Shrinking?
    case CloseQueue => p.maint.Quiet?
    case CloseDrain => p.maint.Quiet? && p.q.closed && p.processes >= 0
  }

  function UpkeepStep(p: Pool, e: UpkeepEvent): Pool
    requires UpkeepEnabled(p, e)
  {
    match e
    case Maintain(nominal) => BeginMaintenance(p, nominal)
    case SpawnDone(ok, loaded) => EndSpawn(p, ok, loaded)
    case ResyncDone(ok) => EndResync(p, ok)
    case ShrinkDone => EndShrink(p)
    case ShrinkDropped => p.(maint := Quiet)
    case CloseQueue => p.(q := Q.NotifyWaiters(p.q.(closed := true)))
    case CloseDrain => Retire(p, p.processes)
  }

  ghost predicate Enabled(p: Pool, e: Event) {
    match e
    case Client(c) => ClientEnabled(p, c)
    case Recycle(t, r) => RecycleEnabled(p, t, r)
    case Admin(a) => AdminEnabled(p, a)
    case Upkeep(u) => UpkeepEnabled(p, u)
  }

  ghost function Step(p: Pool, e: Event): Pool
    requires Enabled(p, e)
  {
    match e
    case Client(c) => ClientStep(p, c)
    case Recycle(t, r) => RecycleStep(p, t, r)
    case Admin(a) => AdminStep(p, a)
    case Upkeep(u) => UpkeepStep(p, u)
  }

  ghost predicate IsRun(p: Pool, es: seq<Event>)
    decreases |es|
  {
    es == [] || (Enabled(p, es[0]) && IsRun(Step(p, es[0]), es[1..]))
  }

  ghost function Exec(p: Pool, es: seq<Event>): Pool
    requires IsRun(p, es)
    decreases |es|
  {
    if es == [] then p else Exec(Step(p, es[0]), es[1..])
  }

  // ------------------------------------------------------------------
  // How steps move idle workers
  // ------------------------------------------------------------------

  /** A stretch of `recv` takes the first idle worker or none. */
  lemma LendFrame(q: Q.State<Worker>, c: Q.CallId)
    ensures var (t, r) := Q.Poll(q, c);
            if r.Item? then q.items != [] && r.item == q.items[0] && r.item in q.items && t.items == q.items[1..]
            else t.items == q.items
  {
    Q.PollOutcome(q, c);
  }

  lemma PushAllFrame(q: Q.State<Worker>, ws: seq<Worker>)
    ensures Q.PushAll(q, ws).items == q.items + ws && Q.PushAll(q, ws).closed == q.closed
  {
    Q.NotifyTimesFrame(q.(items := q.items + ws, count := |q.items + ws|), |ws|);
  }

  // ------------------------------------------------------------------
  // Conservation of the counters
  // ------------------------------------------------------------------

  /** Workers that are alive as far as the pool knows and not idle. */
  function Busy(p: Pool): nat {
    |p.lent| + |p.tasks|
  }

  /** The counters read before a suspension are still covered by the current ones. */
  predicate SnapshotCovered(p: Pool, dead0: int, failures0: int) {
    0 <= failures0 <= dead0 && failures0 <= p.failures && p.failures - failures0 <= p.dead - dead0
  }

  predicate MaintenanceInv(p: Pool) {
    match p.maint
    case Quiet => true
    case Spawning(nominal, n, d, f) => SnapshotCovered(p, d, f) && nominal == p.processes - d + n
    case Resyncing(nominal, fleet, _, d, f) => SnapshotCovered(p, d, f) && nominal == p.processes - d + |fleet|
    case Shrinking(d, f) => SnapshotCovered(p, d, f)
  }

  predicate Counted(p: Pool) {
    && p.processes == |p.q.items| + Busy(p) + p.dead + p.drift
    && 0 <= p.failures <= p.dead
    && 0 <= p.drift
    && MaintenanceInv(p)
  }

  lemma CleanUpIsCounted(p: Pool)
    requires Counted(p) && p.maint.Quiet?
    ensures Counted(CleanUp(p)) && CleanUp(p).maint.Quiet?
    ensures CleanUp(p).drift == p.drift && CleanUp(p).dead >= p.dead
  {
    Q.KeptShrinks(p.q.items, AliveMask(p.q.items));
  }

  lemma ClientStepIsCounted(p: Pool, e: ClientEvent)
    requires Counted(p) && ClientEnabled(p, e)
    ensures Counted(ClientStep(p, e)) && ClientStep(p, e).drift == p.drift
  {
    match e
    case Get(c) => LendFrame(p.q, c);
    case Wake(c) => LendFrame(Q.Unpark(p.q, c), c);
    case _ =>
  }

  lemma RecycleStepIsCounted(p: Pool, t: nat, e: RecycleEvent)
    requires Counted(p) && RecycleEnabled(p, t, e)
    ensures Counted(RecycleStep(p, t, e)) && RecycleStep(p, t, e).drift == p.drift
  {
  }

  lemma UpkeepStepIsCounted(p: Pool, e: UpkeepEvent)
    requires Counted(p) && UpkeepEnabled(p, e)
    ensures Counted(UpkeepStep(p, e))
    ensures UpkeepStep(p, e).drift == p.drift + if e.ShrinkDone? then p.maint.dead0 else 0
  {
    match e
    case Maintain(nominal) => CleanUpIsCounted(p);
    case ResyncDone(ok) => PushAllFrame(p.q, RestoredAll(p.maint.seen, p.maint.fleet));
    case _ =>
  }

  /** Every step keeps the counters balanced; only the end of a shrink adds to the drift. */
  lemma StepIsCounted(p: Pool, e: Event)
    requires Counted(p) && Enabled(p, e)
    ensures Counted(Step(p, e))
    ensures Step(p, e).drift == p.drift + if e == Upkeep(ShrinkDone) then p.maint.dead0 else 0
  {
    match e
    case Client(c) => ClientStepIsCounted(p, c);
    case Recycle(t, r) => RecycleStepIsCounted(p, t, r);
    case Admin(a) =>
    case Upkeep(u) => UpkeepStepIsCounted(p, u);
  }

  lemma {:induction false} RunIsCounted(p: Pool, es: seq<Event>)
    requires Counted(p) && IsRun(p, es)
    ensures Counted(Exec(p, es))
    decreases |es|
  {
    if es != [] {
      StepIsCounted(p, es[0]);
      RunIsCounted(Step(p, es[0]), es[1..]);
    }
  }

  // ------------------------------------------------------------------
  // What maintenance does
  // ------------------------------------------------------------------

  function IsAlive(): Worker -> bool {
    (w: Worker) => w.alive
  }

  function IsDead(): Worker -> bool {
    (w: Worker) => !w.alive
  }

  /** Each living worker stays, behind the living ones that were before it. */
  lemma LivingStay(ws: seq<Worker>, i: nat)
    requires i < |ws| && ws[i].alive
    ensures var kept, k := Q.Kept(ws, AliveMask(ws)), Count(ws[..i], IsAlive());
            k < |kept| && kept[k] == ws[i]
  {
    Q.KeptAt(ws, AliveMask(ws), i);
    RankIsCount(ws, AliveMask(ws), IsAlive(), i);
  }

  /** Only living workers stay, and each of the others leaves. */
  lemma DeadLeave(ws: seq<Worker>)
    ensures var kept := Q.Kept(ws, AliveMask(ws));
            && (forall w <- kept :: w.alive && w in ws)
            && |kept| == Count(ws, IsAlive()) == |ws| - Count(ws, IsDead())
  {
    var kept := Q.Kept(ws, AliveMask(ws));
    forall w | w in kept
      ensures w.alive && w in ws
    {
      var j :| 0 <= j < |kept| && kept[j] == w;
      var i := Q.KeptWasChosen(ws, AliveMask(ws), j);
    }
    Q.KeptLength(ws, AliveMask(ws));
    RankIsCount(ws, AliveMask(ws), IsAlive(), |ws|);
    assert ws[..|ws|] == ws;
    CountComplement(ws, IsAlive(), IsDead());
  }

  /** After the clean-up every idle worker is alive, the living keep their order, and each dead one is counted. */
  lemma CleanUpOutcome(p: Pool)
    ensures var c := CleanUp(p);
            && (forall w <- c.q.items :: w.alive && w in p.q.items)
            && |c.q.items| == |p.q.items| - Count(p.q.items, IsDead())
            && c.dead == p.dead + Count(p.q.items, IsDead())
            && c.failures == p.failures && c.processes == p.processes && Busy(c) == Busy(p)
    ensures forall i | 0 <= i < |p.q.items| && p.q.items[i].alive ::
              var k := Count(p.q.items[..i], IsAlive());
              k < |CleanUp(p).q.items| && CleanUp(p).q.items[k] == p.q.items[i]
  {
    DeadLeave(p.q.items);
    forall i | 0 <= i < |p.q.items| && p.q.items[i].alive
      ensures var k := Count(p.q.items[..i], IsAlive());
              k < |CleanUp(p).q.items| && CleanUp(p).q.items[k] == p.q.items[i]
    {
      LivingStay(p.q.items, i);
    }
  }

  /** The workers that are neither dead nor ended, as far as the pool knows. */
  function Live(p: Pool): nat {
    |p.q.items| + Busy(p)
  }

  /**
  What maintenance decides, in terms of the live workers after the clean-up: it grows or shrinks an
  open pool by the difference, a closed one not at all; a shrink retires the longest idle workers,
  as many as it can up to the difference; no dead worker is left idle.
   */
  lemma MaintenanceOutcome(p: Pool, nominal: nat)
    requires Counted(p) && p.maint.Quiet?
    ensures var c, b := CleanUp(p), BeginMaintenance(p, nominal);
            var excess := Live(c) + c.drift - nominal;
            && (b.maint.Spawning? <==> !p.q.closed && excess < 0)
            && (b.maint.Spawning? ==> b.maint.n == -excess && b.maint.nominal == nominal && b.q == c.q)
            && (b.maint.Shrinking? <==> !p.q.closed && excess > 0)
            && (b.maint.Shrinking? ==> Live(b) == Live(c) - Q.Min(excess, |c.q.items|))
            && (b.maint.Shrinking? ==> b.q.items == c.q.items[Q.Min(excess, |c.q.items|)..])
            && (b.maint.Spawning? || b.maint.Shrinking? ==> b.maint.dead0 == c.dead && b.maint.failures0 == c.failures)
            && (!b.maint.Shrinking? ==> b.processes == p.processes)
            && forall w <- b.q.items :: w.alive
  {
    CleanUpOutcome(p);
    CleanUpIsCounted(p);
  }

  /** A grow that fails, while starting its workers or while resynchronising them, is asked for again in full. */
  lemma FailedGrowIsRetried(p: Pool, nominal: nat, loaded: set<Uri>)
    requires Counted(p) && p.maint.Quiet? && BeginMaintenance(p, nominal).maint.Spawning?
    ensures var b := BeginMaintenance(p, nominal);
            && EndSpawn(b, false, loaded).maint.Quiet?
            && BeginMaintenance(EndSpawn(b, false, loaded), nominal).maint == b.maint
            && EndResync(EndSpawn(b, true, loaded), false).maint.Quiet?
            && BeginMaintenance(EndResync(EndSpawn(b, true, loaded), false), nominal).maint == b.maint
  {
    var b := BeginMaintenance(p, nominal);
    CleanUpIsCounted(p);
    MaintenanceOutcome(p, nominal);
    NothingToCleanUp(EndSpawn(b, false, loaded));
    NothingToCleanUp(EndResync(EndSpawn(b, true, loaded), false));
  }

  lemma NothingToCleanUp(p: Pool)
    requires forall w <- p.q.items :: w.alive
    ensures var c := CleanUp(p); c.dead == p.dead && c.processes == p.processes && c.failures == p.failures
    ensures CleanUp(p).q.closed == p.q.closed && CleanUp(p).maint == p.maint
  {
    CleanUpOutcome(p);
    CountNone(p.q.items, IsDead());
  }

  // ------------------------------------------------------------------
  // What the counters count
  // ------------------------------------------------------------------

  ghost predicate IsFailure(e: Event) {
    e.Recycle? && e.recycle in {CancelDone(false), RestoreDone(false)}
  }

  /** The workers that a step takes for dead. */
  ghost function DiedIn(p: Pool, e: Event): nat
    requires Enabled(p, e)
  {
    match e
    case Recycle(t, CheckGeneration) => if p.tasks[t].worker.generation < p.generation then 1 else 0
    case Recycle(t, _) => if IsFailure(e) then 1 else 0
    case Upkeep(Maintain(_)) => Count(p.q.items, IsDead())
    case _ => 0
  }

  /** A maintenance that completes subtracts the counters it read when it began. */
  ghost predicate Settles(e: Event) {
    e == Upkeep(ResyncDone(true)) || e == Upkeep(ShrinkDone)
  }

  /** Exactly what each step adds to the counters of deaths and failures, and takes from them. */
  lemma StepCounters(p: Pool, e: Event)
    requires Enabled(p, e)
    ensures Step(p, e).failures ==
            p.failures + (if IsFailure(e) then 1 else 0) - (if Settles(e) then p.maint.failures0 else 0)
    ensures Step(p, e).dead == p.dead + DiedIn(p, e) - (if Settles(e) then p.maint.dead0 else 0)
  {
    match e
    case Upkeep(Maintain(nominal)) => CleanUpOutcome(p);
    case _ =>
  }

  ghost function Failures(es: seq<Event>): nat {
    if es == [] then 0 else (if IsFailure(es[0]) then 1 else 0) + Failures(es[1..])
  }

  ghost function Deaths(p: Pool, es: seq<Event>): nat
    requires IsRun(p, es)
    decreases |es|
  {
    if es == [] then 0 else DiedIn(p, es[0]) + Deaths(Step(p, es[0]), es[1..])
  }

  /** Until a maintenance completes, the counters grow by the failures and deaths of the run. */
  lemma {:induction false} CountersOfRun(p: Pool, es: seq<Event>)
    requires IsRun(p, es) && forall i | 0 <= i < |es| :: !Settles(es[i])
    ensures Exec(p, es).failures == p.failures + Failures(es) && Exec(p, es).dead == p.dead + Deaths(p, es)
    decreases |es|
  {
    if es != [] {
      StepCounters(p, es[0]);
      assert forall i | 0 <= i < |es| - 1 :: es[1..][i] == es[i + 1];
      CountersOfRun(Step(p, es[0]), es[1..]);
    }
  }

  /** `stats_raw`: (busy, idle, dead). */
  function StatsRaw(p: Pool): (int, int, int) {
    (p.processes - |p.q.items| - p.dead, |p.q.items|, p.dead)
  }

  /**
  Over every run, the statistics never underflow, failures never exceed deaths, and the reported
  number of busy workers exceeds the real one by exactly what shrinking lost.
   */
  lemma StatisticsOfEveryRun(projects: set<Uri>, es: seq<Event>)
    requires IsRun(Start(projects), es)
    ensures var p := Exec(Start(projects), es);
            0 <= p.failures <= p.dead && StatsRaw(p).0 == Busy(p) + p.drift >= 0
  {
    RunIsCounted(Start(projects), es);
  }

  /** In every state of the run the reported number of busy workers is the real one. */
  ghost predicate AlwaysBalanced(p: Pool, es: seq<Event>)
    requires IsRun(p, es)
    decreases |es|
  {
    StatsRaw(p).0 == Busy(p) && (es == [] || AlwaysBalanced(Step(p, es[0]), es[1..]))
  }

  /** No shrink that completes in the run began with a recorded death. */
  ghost predicate NoLossyShrink(p: Pool, es: seq<Event>)
    requires IsRun(p, es)
    decreases |es|
  {
    es == [] ||
    ((es[0] == Upkeep(ShrinkDone) ==> p.maint.dead0 == 0) && NoLossyShrink(Step(p, es[0]), es[1..]))
  }

  lemma {:induction false} BalancedIff(p: Pool, es: seq<Event>)
    requires Counted(p) && p.drift == 0 && IsRun(p, es)
    ensures AlwaysBalanced(p, es) <==> NoLossyShrink(p, es)
    decreases |es|
  {
    if es != [] {
      StepIsCounted(p, es[0]);
      if Step(p, es[0]).drift == 0 {
        BalancedIff(Step(p, es[0]), es[1..]);
      }
    }
  }

  /** Over every run: the conservation equation holds in every state iff no completed shrink began with a death. */
  lemma StatisticsAreExactIff(projects: set<Uri>, es: seq<Event>)
    requires IsRun(Start(projects), es)
    ensures AlwaysBalanced(Start(projects), es) <==> NoLossyShrink(Start(projects), es)
  {
    BalancedIff(Start(projects), es);
  }

  /** The shrink branch keeps the equation exactly when no death was recorded when it began. */
  lemma ShrinkLosesRecordedDeaths(p: Pool, nominal: nat)
    requires Counted(p) && p.maint.Quiet? && !p.q.closed
    requires var c := CleanUp(p); nominal < c.processes - c.dead
    ensures var s := BeginMaintenance(p, nominal);
            && s.maint.Shrinking?
            && Counted(s)
            && EndShrink(s).drift == p.drift + CleanUp(p).dead
            && (EndShrink(s).drift == p.drift <==> CleanUp(p).dead == 0)
            && (StatsRaw(EndShrink(s)).0 == Busy(p) + p.drift + CleanUp(p).dead)
  {
    CleanUpIsCounted(p);
  }

  /** Growing brings the live workers to the nominal number less what earlier shrinks lost. */
  lemma GrowReachesNominalLessDrift(p: Pool)
    requires Counted(p) && p.maint.Resyncing? && p.dead == p.maint.dead0
    ensures var g := EndResync(p, true);
            Counted(g) && g.dead == 0 && |g.q.items| + Busy(g) == p.maint.nominal - p.drift
  {
    PushAllFrame(p.q, RestoredAll(p.maint.seen, p.maint.fleet));
  }

  // ------------------------------------------------------------------
  // Ownership: every worker is in exactly one place
  // ------------------------------------------------------------------

  function FleetOf(p: Pool): seq<Worker> {
    if p.maint.Resyncing? then p.maint.fleet else []
  }

  function HasId(id: nat): Worker -> bool {
    (w: Worker) => w.id == id
  }

  function TaskHasId(id: nat): Task -> bool {
    (t: Task) => t.worker.id == id
  }

  /** In how many places a worker is. */
  function Places(p: Pool, id: nat): nat {
    Count(p.q.items, HasId(id)) + Count(p.lent, HasId(id)) + Count(p.tasks, TaskHasId(id))
    + Count(FleetOf(p), HasId(id)) + Count(p.ended, HasId(id))
  }

  /** Every worker ever launched is in exactly one place, and only those are anywhere. */
  ghost predicate Owned(p: Pool) {
    forall id: nat :: Places(p, id) == if id < p.launched then 1 else 0
  }

  lemma LendKeepsPlaces(p: Pool, q: Q.State<Worker>, c: Q.CallId, id: nat)
    requires q.items == p.q.items
    ensures Places(Lend(p, Q.Poll(q, c)), id) == Places(p, id)
  {
    LendFrame(q, c);
    var (t, r) := Q.Poll(q, c);
    if r.Item? {
      CountSnoc(p.lent, r.item, HasId(id));
    } else {
      assert p.lent + [] == p.lent;
    }
  }

  lemma ClientStepKeepsPlaces(p: Pool, e: ClientEvent, id: nat)
    requires ClientEnabled(p, e)
    ensures Places(ClientStep(p, e), id) == Places(p, id)
  {
    match e
    case Get(c) => LendKeepsPlaces(p, p.q, c, id);
    case Wake(c) => LendKeepsPlaces(p, Q.Unpark(p.q, c), c, id);
    case Abort(c) =>
    case Use(i, cache) => CountUpdate(p.lent, i, p.lent[i].(cache := cache), HasId(id));
    case Release(i) =>
      CountWithout(p.lent, i, HasId(id));
      CountSnoc(p.tasks, Task(p.lent[i], Spawned), TaskHasId(id));
    case TakeIdle => CountAppend(p.lent, p.q.items, HasId(id));
  }

  lemma TerminateKeepsPlaces(p: Pool, t: nat, id: nat)
    requires t < |p.tasks|
    ensures Places(Terminate(p, t), id) == Places(p, id)
  {
    CountWithout(p.tasks, t, TaskHasId(id));
    CountSnoc(p.ended, p.tasks[t].worker, HasId(id));
  }

  lemma SetStageKeepsPlaces(p: Pool, t: nat, stage: Stage, id: nat)
    requires t < |p.tasks|
    ensures Places(SetStage(p, t, stage), id) == Places(p, id)
  {
    CountUpdate(p.tasks, t, p.tasks[t].(stage := stage), TaskHasId(id));
  }

  lemma EnqueueKeepsPlaces(p: Pool, t: nat, log: Log, id: nat)
    requires t < |p.tasks|
    ensures Places(Enqueue(p, t, log), id) == Places(p, id)
  {
    CountWithout(p.tasks, t, TaskHasId(id));
    CountSnoc(p.q.items, Restored(log, p.tasks[t].worker), HasId(id));
  }

  lemma RecycleStepKeepsPlaces(p: Pool, t: nat, e: RecycleEvent, id: nat)
    requires RecycleEnabled(p, t, e)
    ensures Places(RecycleStep(p, t, e), id) == Places(p, id)
  {
    match e
    case CheckGeneration =>
      TerminateKeepsPlaces(p, t, id);
      SetStageKeepsPlaces(p, t, Cancelling, id);
    case CancelDone(ok) =>
      TerminateKeepsPlaces(p.(failures := p.failures + 1), t, id);
      SetStageKeepsPlaces(p, t, AwaitingLock, id);
    case LockRead => SetStageKeepsPlaces(p, t, Restoring(p.log), id);
    case RestoreDone(ok) =>
      TerminateKeepsPlaces(p.(failures := p.failures + 1), t, id);
      EnqueueKeepsPlaces(p, t, p.tasks[t].stage.seen, id);
  }

  lemma DrainIdleKeepsPlaces(p: Pool, id: nat)
    ensures Places(DrainIdle(p), id) == Places(p, id)
  {
    CountAppend(p.tasks, Recycling(p.q.items), TaskHasId(id));
    CountSame(Recycling(p.q.items), TaskHasId(id), p.q.items, HasId(id));
  }

  lemma AdminStepKeepsPlaces(p: Pool, e: AdminEvent, id: nat)
    requires AdminEnabled(p, e)
    ensures Places(AdminStep(p, e), id) == Places(p, id)
  {
    match e
    case Reload => DrainIdleKeepsPlaces(p.(generation := p.generation + 1), id);
    case ChangeLog(a) => DrainIdleKeepsPlaces(p, id);
    case IdleDeath(i) => CountUpdate(p.q.items, i, p.q.items[i].(alive := false), HasId(id));
  }

  lemma {:induction false} CountPartition(ws: seq<Worker>, keep: seq<bool>, drop: seq<bool>, f: Worker -> bool)
    requires |keep| == |drop| == |ws|
    requires forall i | 0 <= i < |ws| :: keep[i] != drop[i]
    ensures Count(Q.Kept(ws, keep), f) + Count(Q.Kept(ws, drop), f) == Count(ws, f)
  {
    if ws != [] {
      assert keep[0] != drop[0];
      assert forall i | 0 <= i < |ws| - 1 :: keep[1..][i] == keep[i + 1] && drop[1..][i] == drop[i + 1];
      CountPartition(ws[1..], keep[1..], drop[1..], f);
      CountKept(ws, keep, f);
      CountKept(ws, drop, f);
    }
  }

  lemma CountKept(ws: seq<Worker>, keep: seq<bool>, f: Worker -> bool)
    requires |keep| == |ws| && ws != []
    ensures Count(Q.Kept(ws, keep), f) ==
            (if keep[0] && f(ws[0]) then 1 else 0) + Count(Q.Kept(ws[1..], keep[1..]), f)
  {
    var kept := Q.Kept(ws[1..], keep[1..]);
    assert [] + kept == kept && ([ws[0]] + kept)[1..] == kept;
  }

  lemma CleanUpKeepsPlaces(p: Pool, id: nat)
    ensures Places(CleanUp(p), id) == Places(p, id)
  {
    var ws := p.q.items;
    CountPartition(ws, AliveMask(ws), DeadMask(ws), HasId(id));
    CountAppend(p.ended, Q.Kept(ws, DeadMask(ws)), HasId(id));
  }

  lemma RetireKeepsPlaces(p: Pool, n: nat, id: nat)
    ensures Places(Retire(p, n), id) == Places(p, id)
  {
    var k := Q.Min(n, |p.q.items|);
    assert p.q.items == p.q.items[..k] + p.q.items[k..];
    CountAppend(p.q.items[..k], p.q.items[k..], HasId(id));
    CountAppend(p.ended, p.q.items[..k], HasId(id));
  }

  lemma {:induction false} FleetHasEachOnce(ws: seq<Worker>, first: nat, id: nat)
    requires forall i | 0 <= i < |ws| :: ws[i].id == first + i
    ensures Count(ws, HasId(id)) == if first <= id < first + |ws| then 1 else 0
    decreases |ws|
  {
    if ws != [] {
      FleetHasEachOnce(ws[1..], first + 1, id);
    }
  }

  lemma ResyncKeepsPlaces(p: Pool, ok: bool, id: nat)
    requires p.maint.Resyncing?
    ensures Places(EndResync(p, ok), id) == Places(p, id)
  {
    var fleet, ws := p.maint.fleet, RestoredAll(p.maint.seen, p.maint.fleet);
    if ok {
      PushAllFrame(p.q, ws);
      CountAppend(p.q.items, ws, HasId(id));
      CountSame(ws, HasId(id), fleet, HasId(id));
    } else {
      CountAppend(p.ended, fleet, HasId(id));
    }
  }

  lemma {:induction false} UpkeepStepPlaces(p: Pool, e: UpkeepEvent, id: nat)
    requires UpkeepEnabled(p, e)
    ensures var q := UpkeepStep(p, e);
            p.launched <= q.launched && Places(q, id) == Places(p, id) + if p.launched <= id < q.launched then 1 else 0
  {
    match e
    case Maintain(nominal) =>
      CleanUpKeepsPlaces(p, id);
      var c := CleanUp(p);
      RetireKeepsPlaces(c, if nominal < c.processes - c.dead then c.processes - c.dead - nominal else 0, id);
    case SpawnDone(ok, loaded) => FleetHasEachOnce(Fleet(p.launched, p.generation, p.maint.n, loaded), p.launched, id);
    case ResyncDone(ok) => ResyncKeepsPlaces(p, ok, id);
    case ShrinkDone =>
    case ShrinkDropped =>
    case CloseQueue =>
    case CloseDrain => RetireKeepsPlaces(p, p.processes, id);
  }

  /** Steps move workers between places; only launching adds some, under fresh ids. */
  lemma StepPlaces(p: Pool, e: Event, id: nat)
    requires Enabled(p, e)
    ensures var q := Step(p, e);
            p.launched <= q.launched && Places(q, id) == Places(p, id) + if p.launched <= id < q.launched then 1 else 0
  {
    match e
    case Client(c) => ClientStepKeepsPlaces(p, c, id);
    case Recycle(t, r) => RecycleStepKeepsPlaces(p, t, r, id);
    case Admin(a) => AdminStepKeepsPlaces(p, a, id);
    case Upkeep(u) => UpkeepStepPlaces(p, u, id);
  }

  lemma {:induction false} RunIsOwned(p: Pool, es: seq<Event>)
    requires Owned(p) && IsRun(p, es)
    ensures Owned(Exec(p, es))
    decreases |es|
  {
    if es != [] {
      forall id: nat
        ensures Places(Step(p, es[0]), id) == if id < Step(p, es[0]).launched then 1 else 0
      {
        StepPlaces(p, es[0], id);
      }
      RunIsOwned(Step(p, es[0]), es[1..]);
    }
  }

  /** In every reachable state each launched worker is in exactly one place, so none is lent twice. */
  lemma EveryWorkerIsInOnePlace(projects: set<Uri>, es: seq<Event>, id: nat)
    requires IsRun(Start(projects), es)
    ensures var p := Exec(Start(projects), es);
            && Places(p, id) == (if id < p.launched then 1 else 0)
            && (forall i, j | 0 <= i < j < |p.lent| :: p.lent[i].id != id || p.lent[j].id != id)
  {
    RunIsOwned(Start(projects), es);
    var p := Exec(Start(projects), es);
    assert Places(p, id) <= 1;
    forall i, j | 0 <= i < j < |p.lent|
      ensures p.lent[i].id != id || p.lent[j].id != id
    {
      if p.lent[i].id == id && p.lent[j].id == id {
        CountTwo(p.lent, i, j, HasId(id));
      }
    }
  }

  // ------------------------------------------------------------------
  // Idle workers are always current
  // ------------------------------------------------------------------

  /** The worker is not ahead of the log and has been sent the configurations of its version. */
  predicate Known(log: Log, w: Worker) {
    w.lastUpdate <= log.update && ConfigSent(log, w.lastUpdate, w.config)
  }

  predicate UpToDate(log: Log, w: Worker) {
    w.lastUpdate == log.update && ConfigSent(log, w.lastUpdate, w.config)
  }

  ghost predicate Synced(p: Pool) {
    && p.log.configAt <= p.log.update
    && (forall w <- p.q.items :: UpToDate(p.log, w))
    && (forall w <- p.lent :: Known(p.log, w))
    && (forall t <- p.tasks :: Known(p.log, t.worker) && (t.stage.Restoring? ==> t.stage.seen == p.log))
    && (forall w <- FleetOf(p) :: Known(p.log, w))
    && (p.maint.Resyncing? ==> p.maint.seen == p.log)
  }

  lemma RestoredIsUpToDate(log: Log, w: Worker)
    requires Known(log, w) && log.configAt <= log.update
    ensures UpToDate(log, Restored(log, w))
  {
  }

  lemma {:induction false} KeptMembers(ws: seq<Worker>, keep: seq<bool>)
    requires |keep| == |ws|
    ensures forall w <- Q.Kept(ws, keep) :: w in ws
  {
    if ws != [] {
      KeptMembers(ws[1..], keep[1..]);
    }
  }

  lemma ClientStepIsSynced(p: Pool, e: ClientEvent)
    requires Synced(p) && ClientEnabled(p, e)
    ensures Synced(ClientStep(p, e))
  {
    match e
    case Get(c) => LendFrame(p.q, c);
    case Wake(c) => LendFrame(Q.Unpark(p.q, c), c);
    case Abort(c) =>
    case Use(i, cache) => assert p.lent[i] in p.lent;
    case Release(i) => assert p.lent[i] in p.lent;
    case TakeIdle =>
  }

  lemma {:induction false} RecycleStepIsSynced(p: Pool, t: nat, e: RecycleEvent)
    requires Synced(p) && RecycleEnabled(p, t, e)
    ensures Synced(RecycleStep(p, t, e))
  {
    assert p.tasks[t] in p.tasks;
    RestoredIsUpToDate(p.log, p.tasks[t].worker);
  }

  /** Draining, then bumping the version under the write lock, leaves no stale worker idle. */
  lemma AdminStepIsSynced(p: Pool, e: AdminEvent)
    requires Synced(p) && AdminEnabled(p, e)
    ensures Synced(AdminStep(p, e))
  {
    match e
    case Reload => RecyclingMembers(p);
    case ChangeLog(a) =>
      RecyclingMembers(p);
      assert forall t <- p.tasks :: !t.stage.Restoring?;
    case IdleDeath(i) => assert p.q.items[i] in p.q.items;
  }

  lemma RecyclingMembers(p: Pool)
    ensures forall t <- DrainIdle(p).tasks :: t in p.tasks || (t.worker in p.q.items && t.stage.Spawned?)
  {
  }

  lemma UpkeepStepIsSynced(p: Pool, e: UpkeepEvent)
    requires Synced(p) && UpkeepEnabled(p, e)
    ensures Synced(UpkeepStep(p, e))
  {
    match e
    case Maintain(nominal) => KeptMembers(p.q.items, AliveMask(p.q.items));
    case ResyncDone(ok) =>
      var ws := RestoredAll(p.maint.seen, p.maint.fleet);
      PushAllFrame(p.q, ws);
      forall w | w in ws ensures UpToDate(p.log, w) {
        var i :| 0 <= i < |ws| && ws[i] == w;
        assert p.maint.fleet[i] in FleetOf(p);
        RestoredIsUpToDate(p.log, p.maint.fleet[i]);
      }
    case _ =>
  }

  lemma {:induction false} RunIsSynced(p: Pool, es: seq<Event>)
    requires Synced(p) && IsRun(p, es)
    ensures Synced(Exec(p, es))
    decreases |es|
  {
    if es != [] {
      match es[0] {
        case Client(c) => ClientStepIsSynced(p, c);
        case Recycle(t, r) => RecycleStepIsSynced(p, t, r);
        case Admin(a) => AdminStepIsSynced(p, a);
        case Upkeep(u) => UpkeepStepIsSynced(p, u);
      }
      RunIsSynced(Step(p, es[0]), es[1..]);
    }
  }

  /** What a stretch of `recv` hands out. */
  ghost function Outcome(p: Pool, e: Event): Q.Outcome<Worker>
    requires Enabled(p, e)
  {
    match e
    case Client(Get(c)) => Q.Poll(p.q, c).1
    case Client(Wake(c)) => Q.Poll(Q.Unpark(p.q, c), c).1
    case _ => Q.Suspended
  }

  /** The workers that a step hands out. */
  ghost function Handed(p: Pool, e: Event): seq<Worker>
    requires Enabled(p, e)
  {
    var r := Outcome(p, e);
    if e == Client(TakeIdle) then p.q.items else if r.Item? then [r.item] else []
  }

  lemma HandedWereIdle(p: Pool, e: Event)
    requires Enabled(p, e)
    ensures forall w <- Handed(p, e) :: w in p.q.items
  {
    match e
    case Client(Get(c)) => LendFrame(p.q, c);
    case Client(Wake(c)) => LendFrame(Q.Unpark(p.q, c), c);
    case _ =>
  }

  /**
  In every run, a worker that is handed out is at the current version of the restore log and holds
  the argument of the last configuration update of the run, or none if there was none.  Which
  projects it holds is another matter, settled below.
   */
  lemma HandedOutWorkersAreCurrent(projects: set<Uri>, es: seq<Event>, e: Event, w: Worker)
    requires IsRun(Start(projects), es)
    requires var p := Exec(Start(projects), es); Enabled(p, e) && w in Handed(p, e)
    ensures w.lastUpdate == Exec(Start(projects), es).log.update && w.config == LastConfig(ActionsOf(es))
  {
    RunIsSynced(Start(projects), es);
    HandedWereIdle(Exec(Start(projects), es), e);
    LogOfRun(Start(projects), es, WithProjects(projects), []);
    assert [] + ActionsOf(es) == ActionsOf(es);
    ConfigIsTheLastOneSet(projects, ActionsOf(es));
  }

  /** The updates of the log that a run performs, in order. */
  function ActionsOf(es: seq<Event>): seq<Action> {
    if es == [] then [] else ActionOf(es[0]) + ActionsOf(es[1..])
  }

  function ActionOf(e: Event): seq<Action> {
    match e
    case Admin(ChangeLog(a)) => [a]
    case _ => []
  }

  lemma StepLog(p: Pool, e: Event, r: Log, past: seq<Action>)
    requires Enabled(p, e) && p.log == History(r, past)
    ensures Step(p, e).log == History(r, past + ActionOf(e))
  {
    var a := ActionOf(e);
    if a != [] {
      HistoryStep(r, past, a);
      assert past + a[..0] == past;
    } else {
      assert past + a == past;
    }
  }

  /** The log after a run is the history of exactly those updates. */
  lemma {:induction false} LogOfRun(p: Pool, es: seq<Event>, r: Log, past: seq<Action>)
    requires IsRun(p, es) && p.log == History(r, past)
    ensures Exec(p, es).log == History(r, past + ActionsOf(es))
    decreases |es|
  {
    if es == [] {
      assert past + ActionsOf(es) == past;
    } else {
      var q, tail, a := Step(p, es[0]), es[1..], ActionOf(es[0]);
      StepLog(p, es[0], r, past);
      LogOfRun(q, tail, r, past + a);
      Associate(past, a, ActionsOf(tail));
      assert Exec(p, es) == Exec(q, tail);
    }
  }

  /** Which projects are pulled after a run: those on which the last word was a pull. */
  lemma PullsOfRun(projects: set<Uri>, es: seq<Event>, u: Uri)
    requires IsRun(Start(projects), es)
    ensures u in Exec(Start(projects), es).log.pulls <==> LastWord(u in projects, ActionsOf(es), u)
  {
    LogOfRun(Start(projects), es, WithProjects(projects), []);
    assert [] + ActionsOf(es) == ActionsOf(es);
    PullsAreTheLastWord(projects, ActionsOf(es), u);
  }

  // ------------------------------------------------------------------
  // Which projects idle workers hold
  // ------------------------------------------------------------------

  /** Every idle worker holds the pulled projects and no others. */
  ghost predicate IdleExact(p: Pool) {
    forall w <- p.q.items :: w.cache == p.log.pulls
  }

  ghost predicate HoldsItsVersion(log: Log, w: Worker) {
    w.lastUpdate > 0 ==> Tracks(log, w.lastUpdate, w.cache)
  }

  /** Workers that are not idle hold what was pulled at their version, unless they are at version 0. */
  ghost predicate Exact(p: Pool) {
    && WellFormed(p.log) && Synced(p) && IdleExact(p)
    && (forall w <- p.lent :: HoldsItsVersion(p.log, w))
    && (forall t <- p.tasks :: HoldsItsVersion(p.log, t.worker))
    && (forall w <- FleetOf(p) :: HoldsItsVersion(p.log, w))
  }

  /** The resynchronisation of this worker with this log ends with the pulled projects. */
  ghost predicate ResyncsExactly(log: Log, w: Worker) {
    if w.lastUpdate == 0 then w.cache <= log.pulls else ReplaysExactly(log, w.lastUpdate)
  }

  /** The workers that a step resynchronises and queues. */
  ghost function Resynced(p: Pool, e: Event): seq<Worker>
    requires Enabled(p, e)
  {
    match e
    case Recycle(t, RestoreDone(true)) => [p.tasks[t].worker]
    case Upkeep(ResyncDone(true)) => p.maint.fleet
    case _ => []
  }

  ghost predicate ExactStep(p: Pool, e: Event)
    requires Enabled(p, e)
  {
    forall w <- Resynced(p, e) :: ResyncsExactly(p.log, w)
  }

  lemma RestoredHoldsPullsIff(log: Log, w: Worker)
    requires WellFormed(log) && Known(log, w) && HoldsItsVersion(log, w)
    ensures Restored(log, w).cache == log.pulls <==> ResyncsExactly(log, w)
  {
    if w.lastUpdate == 0 {
      VersionZeroKeepsEverything(log, w.cache);
    } else {
      RestoredExactlyIff(log, w.lastUpdate, w.cache);
    }
  }

  lemma UpToDateHoldsItsVersion(log: Log, w: Worker)
    requires WellFormed(log) && UpToDate(log, w) && w.cache == log.pulls
    ensures HoldsItsVersion(log, w)
  {
    TracksNow(log);
  }

  lemma ClientStepIsExact(p: Pool, e: ClientEvent)
    requires Exact(p) && ClientEnabled(p, e) && !e.Use?
    ensures Exact(ClientStep(p, e))
  {
    ClientStepIsSynced(p, e);
    match e
    case Get(c) => LendIsExact(p, p.q, c);
    case Wake(c) => LendIsExact(p, Q.Unpark(p.q, c), c);
    case Abort(c) =>
    case Release(i) => assert p.lent[i] in p.lent;
    case TakeIdle =>
      forall w | w in p.q.items ensures HoldsItsVersion(p.log, w) {
        UpToDateHoldsItsVersion(p.log, w);
      }
  }

  lemma LendIsExact(p: Pool, q: Q.State<Worker>, c: Q.CallId)
    requires Exact(p) && q.items == p.q.items
    ensures var l := Lend(p, Q.Poll(q, c)); IdleExact(l) && forall w <- l.lent :: HoldsItsVersion(p.log, w)
  {
    LendFrame(q, c);
    var r := Q.Poll(q, c).1;
    if r.Item? {
      UpToDateHoldsItsVersion(p.log, r.item);
    }
  }

  lemma EnqueueIsExactIff(p: Pool, t: nat)
    requires Exact(p) && t < |p.tasks| && p.tasks[t].stage.Restoring?
    ensures IdleExact(Enqueue(p, t, p.log)) <==> ResyncsExactly(p.log, p.tasks[t].worker)
  {
    assert p.tasks[t] in p.tasks;
    var w := p.tasks[t].worker;
    RestoredHoldsPullsIff(p.log, w);
    var items := Enqueue(p, t, p.log).q.items;
    assert items == p.q.items + [Restored(p.log, w)] && Restored(p.log, w) in items;
  }

  lemma {:induction false} RecycleStepIsExactIff(p: Pool, t: nat, e: RecycleEvent)
    requires Exact(p) && RecycleEnabled(p, t, e)
    ensures IdleExact(RecycleStep(p, t, e)) <==> ExactStep(p, Recycle(t, e))
    ensures ExactStep(p, Recycle(t, e)) ==> Exact(RecycleStep(p, t, e))
  {
    RecycleStepIsSynced(p, t, e);
    assert p.tasks[t] in p.tasks;
    if e == RestoreDone(true) {
      EnqueueIsExactIff(p, t);
    } else {
      assert RecycleStep(p, t, e).q == p.q && Resynced(p, Recycle(t, e)) == [];
    }
  }

  lemma DrainIdleIsExact(p: Pool)
    requires Exact(p)
    ensures forall t <- DrainIdle(p).tasks :: HoldsItsVersion(p.log, t.worker) && t.worker.lastUpdate <= p.log.update
  {
    RecyclingMembers(p);
    forall t | t in DrainIdle(p).tasks
      ensures HoldsItsVersion(p.log, t.worker) && t.worker.lastUpdate <= p.log.update
    {
      if t !in p.tasks {
        UpToDateHoldsItsVersion(p.log, t.worker);
      }
    }
  }

  lemma HoldsItsVersionAfterApply(log: Log, a: Action, w: Worker)
    requires WellFormed(log) && w.lastUpdate <= log.update && HoldsItsVersion(log, w)
    ensures HoldsItsVersion(Apply(log, a), w)
  {
    if w.lastUpdate > 0 {
      TracksAfterApply(log, a, w.lastUpdate, w.cache);
    }
  }

  lemma AdminStepIsExact(p: Pool, e: AdminEvent)
    requires Exact(p) && AdminEnabled(p, e)
    ensures Exact(AdminStep(p, e))
  {
    AdminStepIsSynced(p, e);
    var q := AdminStep(p, e);
    match e
    case Reload => DrainIdleIsExact(p);
    case ChangeLog(a) =>
      DrainIdleIsExact(p);
      ApplyKeepsWellFormed(p.log, a);
      forall w: Worker | w.lastUpdate <= p.log.update && HoldsItsVersion(p.log, w)
        ensures HoldsItsVersion(q.log, w)
      {
        HoldsItsVersionAfterApply(p.log, a, w);
      }
    case IdleDeath(i) => assert p.q.items[i] in p.q.items;
  }

  lemma ResyncIsExactIff(p: Pool, e: Event)
    requires Exact(p) && p.maint.Resyncing? && e == Upkeep(ResyncDone(true))
    ensures IdleExact(EndResync(p, true)) <==> ExactStep(p, e)
  {
    var ws := RestoredAll(p.maint.seen, p.maint.fleet);
    PushAllFrame(p.q, ws);
    forall w | w in p.maint.fleet
      ensures Restored(p.log, w).cache == p.log.pulls <==> ResyncsExactly(p.log, w)
    {
      assert w in FleetOf(p);
      RestoredHoldsPullsIff(p.log, w);
    }
    forall w | w in p.maint.fleet
      ensures Restored(p.log, w) in ws
    {
      var i :| 0 <= i < |p.maint.fleet| && p.maint.fleet[i] == w;
      assert ws[i] == Restored(p.log, w);
    }
    assert forall w <- ws :: w in EndResync(p, true).q.items;
  }

  lemma UpkeepStepIsExactIff(p: Pool, e: UpkeepEvent)
    requires Exact(p) && UpkeepEnabled(p, e)
    ensures IdleExact(UpkeepStep(p, e)) <==> ExactStep(p, Upkeep(e))
    ensures ExactStep(p, Upkeep(e)) ==> Exact(UpkeepStep(p, e))
  {
    UpkeepStepIsSynced(p, e);
    match e
    case Maintain(nominal) => KeptMembers(p.q.items, AliveMask(p.q.items));
    case SpawnDone(ok, loaded) =>
    case ResyncDone(ok) =>
      if ok {
        ResyncIsExactIff(p, Upkeep(e));
      }
    case ShrinkDone =>
    case ShrinkDropped =>
    case CloseQueue =>
    case CloseDrain =>
  }

  /** One step: the idle workers still hold the pulled projects iff each resynchronisation was exact. */
  lemma StepIsExactIff(p: Pool, e: Event)
    requires Exact(p) && Enabled(p, e) && !(e.Client? && e.client.Use?)
    ensures IdleExact(Step(p, e)) <==> ExactStep(p, e)
    ensures ExactStep(p, e) ==> Exact(Step(p, e))
  {
    match e
    case Client(c) => ClientStepIsExact(p, c);
    case Recycle(t, r) => RecycleStepIsExactIff(p, t, r);
    case Admin(a) => AdminStepIsExact(p, a);
    case Upkeep(u) => UpkeepStepIsExactIff(p, u);
  }

  /** Clients do not load or drop projects in the workers they hold. */
  ghost predicate CachesLeftAlone(es: seq<Event>) {
    forall i | 0 <= i < |es| :: !(es[i].Client? && es[i].client.Use?)
  }

  /** In every state of the run the idle workers hold exactly the pulled projects. */
  ghost predicate AlwaysIdleExact(p: Pool, es: seq<Event>)
    requires IsRun(p, es)
    decreases |es|
  {
    IdleExact(p) && (es == [] || AlwaysIdleExact(Step(p, es[0]), es[1..]))
  }

  ghost predicate AlwaysExactStep(p: Pool, es: seq<Event>)
    requires IsRun(p, es)
    decreases |es|
  {
    es == [] || (ExactStep(p, es[0]) && AlwaysExactStep(Step(p, es[0]), es[1..]))
  }

  /**
  The exact condition over every run in which clients leave the caches alone: idle workers always
  hold exactly the pulled projects if and only if no resynchronisation met a log that replays
  wrongly from the worker's version, or a worker of version 0 with a project that is not pulled.
   */
  lemma {:induction false} IdleWorkersHoldPullsIff(p: Pool, es: seq<Event>)
    requires Exact(p) && IsRun(p, es) && CachesLeftAlone(es)
    ensures AlwaysIdleExact(p, es) <==> AlwaysExactStep(p, es)
    ensures AlwaysExactStep(p, es) ==> Exact(Exec(p, es))
    decreases |es|
  {
    if es != [] {
      StepIsExactIff(p, es[0]);
      if ExactStep(p, es[0]) {
        assert forall i | 0 <= i < |es| - 1 :: es[1..][i] == es[i + 1];
        IdleWorkersHoldPullsIff(Step(p, es[0]), es[1..]);
      }
    }
  }

  /** From the start: the worker handed out then holds exactly the pulled projects. */
  lemma HandedOutWorkersHoldThePulls(projects: set<Uri>, es: seq<Event>, e: Event, w: Worker)
    requires IsRun(Start(projects), es) && CachesLeftAlone(es) && AlwaysExactStep(Start(projects), es)
    requires var p := Exec(Start(projects), es); Enabled(p, e) && w in Handed(p, e)
    ensures w.cache == Exec(Start(projects), es).log.pulls
  {
    IdleWorkersHoldPullsIff(Start(projects), es);
    HandedWereIdle(Exec(Start(projects), es), e);
  }

  /** A worker that missed at most one version is always resynchronised exactly. */
  lemma OneVersionBehindResyncsExactly(p: Pool, t: nat)
    requires Exact(p) && t < |p.tasks|
    requires var w := p.tasks[t].worker; 0 < w.lastUpdate && p.log.update <= w.lastUpdate + 1
    ensures ResyncsExactly(p.log, p.tasks[t].worker)
  {
    assert p.tasks[t] in p.tasks;
    var w := p.tasks[t].worker;
    OneVersionReplaysExactly(p.log, w.lastUpdate, w.cache);
  }

  // ------------------------------------------------------------------
  // Runs step by step
  // ------------------------------------------------------------------

  ghost predicate Reaches(p: Pool, es: seq<Event>, q: Pool) {
    IsRun(p, es) && Exec(p, es) == q
  }

  /** Extends a run by one step at its end. */
  lemma {:induction false} Extend(p: Pool, es: seq<Event>, q: Pool, e: Event)
    requires Reaches(p, es, q) && Enabled(q, e)
    ensures Reaches(p, es + [e], Step(q, e))
    decreases |es|
  {
    if es == [] {
      assert es + [e] == [e] && [e][1..] == [];
    } else {
      assert (es + [e])[1..] == es[1..] + [e];
      Extend(Step(p, es[0]), es[1..], q, e);
    }
  }

  /** The first worker of a pool that pulls nothing, launched at version 1 of the log. */
  const FIRST: Worker := Worker(0, 1, 1, {}, None, true)

  /** A pool with that one worker, which is idle or at a stage of its recycling. */
  predicate HasFirst(p: Pool, log: Log, idle: seq<Worker>, tasks: seq<Task>) {
    && p.q.items == idle && !p.q.closed && p.q.waiting == p.q.woken == p.q.released == []
    && p.lent == [] && p.tasks == tasks && p.maint == Quiet
    && p.generation == 1 && p.log == log && p.launched == 1
  }

  const VERSION_ONE: Log := Log(1, {}, 0, "", [])

  /** Nobody works, waits or is counted in the pool. */
  predicate Deserted(p: Pool) {
    && p.q == Q.Init() && p.lent == [] && p.tasks == [] && p.maint == Quiet
    && p.dead == p.failures == p.processes == 0 && p.generation == 1 && p.launched == 0
  }

  lemma TouchEmptyPool(p: Pool)
    requires Deserted(p)
    ensures AdminStep(p, ChangeLog(Cache(Update))) == p.(log := p.log.(update := p.log.update + 1))
  {
    assert p.tasks + Recycling(p.q.items) == [];
  }

  lemma MaintainEmptyPool(p: Pool)
    requires Deserted(p)
    ensures BeginMaintenance(p, 1) == p.(maint := Spawning(1, 1, 0, 0))
  {
    var ws := p.q.items;
    assert Q.Kept(ws, AliveMask(ws)) == [] && Q.Kept(ws, DeadMask(ws)) == [] && p.ended + [] == p.ended;
    assert CleanUp(p) == p;
  }

  /** The log is touched, then the pool is brought to one process. */
  lemma LaunchFirst() returns (es: seq<Event>, p: Pool)
    ensures Reaches(Start({}), es, p) && CachesLeftAlone(es)
    ensures HasFirst(p, VERSION_ONE, [FIRST], [])
  {
    es, p := LaunchFrom(Start({}));
  }

  lemma LaunchFrom(p0: Pool) returns (es: seq<Event>, p: Pool)
    requires Deserted(p0) && p0.log == WithProjects({})
    ensures Reaches(p0, es, p) && CachesLeftAlone(es)
    ensures HasFirst(p, VERSION_ONE, [FIRST], [])
  {
    var e0, e1 := Admin(ChangeLog(Cache(Update))), Upkeep(Maintain(1));
    TouchEmptyPool(p0);
    Extend(p0, [], p0, e0);
    var p1 := p0.(log := p0.log.(update := p0.log.update + 1));
    MaintainEmptyPool(p1);
    Extend(p0, [] + [e0], p1, e1);
    var p2 := p1.(maint := Spawning(1, 1, 0, 0));
    es, p := LaunchRest(p0, [] + [e0] + [e1], p2);
  }

  lemma LaunchRest(p0: Pool, init: seq<Event>, p2: Pool) returns (es: seq<Event>, p: Pool)
    requires Reaches(p0, init, p2) && CachesLeftAlone(init)
    requires Deserted(p2.(maint := Quiet)) && p2.log == VERSION_ONE && p2.maint == Spawning(1, 1, 0, 0)
    ensures Reaches(p0, es, p) && CachesLeftAlone(es)
    ensures HasFirst(p, VERSION_ONE, [FIRST], [])
  {
    var e2, e3 := Upkeep(SpawnDone(true, {})), Upkeep(ResyncDone(true));
    var p3 := Step(p2, e2);
    Extend(p0, init, p2, e2);
    assert p3.maint.fleet == [Worker(0, 1, 0, {}, None, true)];
    p := Step(p3, e3);
    Extend(p0, init + [e2], p3, e3);
    es := init + [e2] + [e3];
    var ws := RestoredAll(VERSION_ONE, p3.maint.fleet);
    var none: set<Uri> := {};
    assert none + none == none;
    assert ws == [FIRST];
    PushAllFrame(p3.q, ws);
    PushAllOnIdleQueue(p3.q, ws);
  }

  lemma PushAllOnIdleQueue(q: Q.State<Worker>, ws: seq<Worker>)
    requires q.waiting == q.woken == q.released == []
    ensures var r := Q.PushAll(q, ws); r.waiting == r.woken == r.released == []
  {
    Q.NotifyTimesWakesAll(q.(items := q.items + ws, count := |q.items + ws|), |ws|);
  }

  /** The worker is recycled from its generation check to the queue. */
  lemma RecycleFirst(p0: Pool, init: seq<Event>, p: Pool, log: Log, w: Worker) returns (es: seq<Event>, q: Pool)
    requires Reaches(p0, init, p) && CachesLeftAlone(init)
    requires HasFirst(p, log, [], [Task(w, Spawned)]) && w.generation == 1
    ensures Reaches(p0, es, q) && CachesLeftAlone(es) && HasFirst(q, log, [Restored(log, w)], [])
  {
    var e0, e1, e2, e3 :=
      Recycle(0, CheckGeneration), Recycle(0, CancelDone(true)), Recycle(0, LockRead), Recycle(0, RestoreDone(true));
    var p1 := Step(p, e0);
    Extend(p0, init, p, e0);
    var p2 := Step(p1, e1);
    Extend(p0, init + [e0], p1, e1);
    var p3 := Step(p2, e2);
    Extend(p0, init + [e0] + [e1], p2, e2);
    q := Step(p3, e3);
    Extend(p0, init + [e0] + [e1] + [e2], p3, e3);
    es := init + [e0] + [e1] + [e2] + [e3];
  }

  /** A project that is pulled and removed while the only worker is being recycled. */
  lemma PullAndRemove(p0: Pool, init: seq<Event>, p: Pool, u: Uri) returns (es: seq<Event>, q: Pool)
    requires Reaches(p0, init, p) && CachesLeftAlone(init) && HasFirst(p, VERSION_ONE, [FIRST], [])
    ensures Reaches(p0, es, q) && CachesLeftAlone(es)
    ensures HasFirst(q, Log(3, {}, 0, "", [Entry(2, Pull(u)), Entry(3, Remove(u))]), [], [Task(FIRST, Spawned)])
  {
    var e0, e1 := Admin(ChangeLog(Cache(Pull(u)))), Admin(ChangeLog(Cache(Remove(u))));
    var p1 := Step(p, e0);
    Extend(p0, init, p, e0);
    assert p1.tasks == [Task(FIRST, Spawned)] && p1.log == Log(2, {u}, 0, "", [Entry(2, Pull(u))]);
    q := Step(p1, e1);
    Extend(p0, init + [e0], p1, e1);
    assert q.tasks == p1.tasks && q.log.pulls == {};
    es := init + [e0] + [e1];
  }

  /** A run from the start that nobody interferes with, after which a removed project is handed out. */
  lemma RemovedProjectCanBeHandedOut(u: Uri) returns (es: seq<Event>)
    ensures IsRun(Start({}), es) && CachesLeftAlone(es)
    ensures var p := Exec(Start({}), es);
            && p.log.pulls == {} && Enabled(p, Client(Get(0)))
            && var r := Outcome(p, Client(Get(0))); r.Item? && r.item.lastUpdate == p.log.update && r.item.cache == {u}
  {
    var es1, p1 := LaunchFirst();
    var es2, p2 := PullAndRemove(Start({}), es1, p1, u);
    var p3: Pool;
    es, p3 := RecycleFirst(Start({}), es2, p2, p2.log, FIRST);
    RemovedComesBack(u);
  }

  lemma RemovedComesBack(u: Uri)
    ensures RestoredCache(Log(3, {}, 0, "", [Entry(2, Pull(u)), Entry(3, Remove(u))]), 1, {}) == {u}
  {
    var states := [Entry(2, Pull(u)), Entry(3, Remove(u))];
    assert states[..1] == [Entry(2, Pull(u))] && states[..1][..0] == [];
    assert Newer(states[..1], 1) == [Pull(u)];
    var ops := Newer(states, 1);
    assert ops == [Pull(u), Remove(u)] && ops[1..] == [Remove(u)] && ops[1..][1..] == [];
    assert Backward({}, ops[1..]) == {};
  }

  // ------------------------------------------------------------------
  // How often a worker of an older generation is still handed out
  // ------------------------------------------------------------------

  /** Every live record of worker `id` is of generation `bound` or older. */
  ghost predicate Generations(p: Pool, id: nat, bound: nat) {
    && (forall w <- p.q.items :: w.id == id ==> w.generation <= bound)
    && (forall w <- p.lent :: w.id == id ==> w.generation <= bound)
    && (forall t <- p.tasks :: t.worker.id == id ==> t.worker.generation <= bound)
    && (forall w <- FleetOf(p) :: w.id == id ==> w.generation <= bound)
  }

  function PastCheck(id: nat): Task -> bool {
    (t: Task) => t.worker.id == id && !t.stage.Spawned?
  }

  /** How many more times a worker of an older generation can be handed out. */
  function Credit(p: Pool, id: nat): nat {
    Count(p.q.items, HasId(id)) + Count(p.tasks, PastCheck(id)) + Count(FleetOf(p), HasId(id))
  }

  ghost function HandedOut(p: Pool, e: Event, id: nat): nat
    requires Enabled(p, e)
  {
    Count(Handed(p, e), HasId(id))
  }

  ghost function Handouts(p: Pool, es: seq<Event>, id: nat): nat
    requires IsRun(p, es)
    decreases |es|
  {
    if es == [] then 0 else HandedOut(p, es[0], id) + Handouts(Step(p, es[0]), es[1..], id)
  }

  lemma LendSpendsCredit(p: Pool, q: Q.State<Worker>, c: Q.CallId, id: nat)
    requires q.items == p.q.items
    ensures var r := Q.Poll(q, c);
            Credit(Lend(p, r), id) + Count(if r.1.Item? then [r.1.item] else [], HasId(id)) == Credit(p, id)
  {
    LendFrame(q, c);
    var r := Q.Poll(q, c).1;
    if r.Item? {
      assert [r.item][1..] == [];
    }
  }

  lemma ClientStepCredit(p: Pool, e: ClientEvent, id: nat)
    requires ClientEnabled(p, e)
    ensures Credit(ClientStep(p, e), id) + HandedOut(p, Client(e), id) <= Credit(p, id)
  {
    match e
    case Get(c) => LendSpendsCredit(p, p.q, c, id);
    case Wake(c) => LendSpendsCredit(p, Q.Unpark(p.q, c), c, id);
    case Abort(c) =>
    case Use(i, cache) =>
    case Release(i) => CountSnoc(p.tasks, Task(p.lent[i], Spawned), PastCheck(id));
    case TakeIdle =>
  }

  lemma TerminateCredit(p: Pool, t: nat, id: nat)
    requires t < |p.tasks|
    ensures Credit(Terminate(p, t), id) <= Credit(p, id)
  {
    CountWithout(p.tasks, t, PastCheck(id));
  }

  /** Moving on within the stages past the check, or staying below it, costs nothing. */
  lemma SetStageCredit(p: Pool, t: nat, stage: Stage, id: nat)
    requires t < |p.tasks| && (p.tasks[t].stage.Spawned? ==> stage.Spawned? || p.tasks[t].worker.id != id)
    ensures Credit(SetStage(p, t, stage), id) <= Credit(p, id)
  {
    CountUpdate(p.tasks, t, p.tasks[t].(stage := stage), PastCheck(id));
  }

  lemma EnqueueCredit(p: Pool, t: nat, log: Log, id: nat)
    requires t < |p.tasks| && !p.tasks[t].stage.Spawned?
    ensures Credit(Enqueue(p, t, log), id) == Credit(p, id)
  {
    CountWithout(p.tasks, t, PastCheck(id));
    CountSnoc(p.q.items, Restored(log, p.tasks[t].worker), HasId(id));
  }

  lemma RecycleStepCredit(p: Pool, t: nat, e: RecycleEvent, id: nat)
    requires RecycleEnabled(p, t, e) && p.generation > 0 && Generations(p, id, p.generation - 1)
    ensures Credit(RecycleStep(p, t, e), id) <= Credit(p, id)
  {
    assert p.tasks[t] in p.tasks;
    match e
    case CheckGeneration =>
      if p.tasks[t].worker.generation < p.generation {
        TerminateCredit(p, t, id);
      } else {
        SetStageCredit(p, t, Cancelling, id);
      }
    case CancelDone(ok) =>
      if ok {
        SetStageCredit(p, t, AwaitingLock, id);
      } else {
        TerminateCredit(p.(failures := p.failures + 1), t, id);
      }
    case LockRead => SetStageCredit(p, t, Restoring(p.log), id);
    case RestoreDone(ok) =>
      if ok {
        EnqueueCredit(p, t, p.tasks[t].stage.seen, id);
      } else {
        TerminateCredit(p.(failures := p.failures + 1), t, id);
      }
  }

  lemma DrainIdleCredit(p: Pool, id: nat)
    ensures Credit(DrainIdle(p), id) == Credit(p, id) - Count(p.q.items, HasId(id))
  {
    CountAppend(p.tasks, Recycling(p.q.items), PastCheck(id));
    CountNone(Recycling(p.q.items), PastCheck(id));
  }

  lemma AdminStepCredit(p: Pool, e: AdminEvent, id: nat)
    requires AdminEnabled(p, e)
    ensures Credit(AdminStep(p, e), id) <= Credit(p, id)
  {
    match e
    case Reload => DrainIdleCredit(p.(generation := p.generation + 1), id);
    case ChangeLog(a) => DrainIdleCredit(p, id);
    case IdleDeath(i) => CountUpdate(p.q.items, i, p.q.items[i].(alive := false), HasId(id));
  }

  lemma RetireCredit(p: Pool, n: nat, id: nat)
    ensures Credit(Retire(p, n), id) <= Credit(p, id)
  {
    var k := Q.Min(n, |p.q.items|);
    assert p.q.items == p.q.items[..k] + p.q.items[k..];
    CountAppend(p.q.items[..k], p.q.items[k..], HasId(id));
  }

  lemma CleanUpCredit(p: Pool, id: nat)
    ensures Credit(CleanUp(p), id) <= Credit(p, id)
  {
    CountPartition(p.q.items, AliveMask(p.q.items), DeadMask(p.q.items), HasId(id));
  }

  lemma MaintenanceCredit(p: Pool, nominal: nat, id: nat)
    requires p.maint.Quiet?
    ensures Credit(BeginMaintenance(p, nominal), id) <= Credit(p, id)
  {
    CleanUpCredit(p, id);
    var c := CleanUp(p);
    if nominal < c.processes - c.dead {
      RetireCredit(c, c.processes - c.dead - nominal, id);
    }
  }

  lemma ResyncCredit(p: Pool, ok: bool, id: nat)
    requires p.maint.Resyncing?
    ensures Credit(EndResync(p, ok), id) <= Credit(p, id)
  {
    var ws := RestoredAll(p.maint.seen, p.maint.fleet);
    PushAllFrame(p.q, ws);
    CountAppend(p.q.items, ws, HasId(id));
    CountSame(ws, HasId(id), p.maint.fleet, HasId(id));
  }

  lemma UpkeepStepCredit(p: Pool, e: UpkeepEvent, id: nat)
    requires UpkeepEnabled(p, e) && id < p.launched
    ensures Credit(UpkeepStep(p, e), id) <= Credit(p, id)
  {
    match e
    case Maintain(nominal) => MaintenanceCredit(p, nominal, id);
    case SpawnDone(ok, loaded) => FleetHasEachOnce(Fleet(p.launched, p.generation, p.maint.n, loaded), p.launched, id);
    case ResyncDone(ok) => ResyncCredit(p, ok, id);
    case ShrinkDone =>
    case ShrinkDropped =>
    case CloseQueue =>
    case CloseDrain => RetireCredit(p, p.processes, id);
  }

  lemma ClientStepKeepsGenerations(p: Pool, e: ClientEvent, id: nat, bound: nat)
    requires ClientEnabled(p, e) && Generations(p, id, bound)
    ensures Generations(ClientStep(p, e), id, bound)
  {
    match e
    case Get(c) => LendFrame(p.q, c);
    case Wake(c) => LendFrame(Q.Unpark(p.q, c), c);
    case _ =>
  }

  lemma RecycleStepKeepsGenerations(p: Pool, t: nat, e: RecycleEvent, id: nat, bound: nat)
    requires RecycleEnabled(p, t, e) && Generations(p, id, bound)
    ensures Generations(RecycleStep(p, t, e), id, bound)
  {
    assert p.tasks[t] in p.tasks;
  }

  lemma AdminStepKeepsGenerations(p: Pool, e: AdminEvent, id: nat, bound: nat)
    requires AdminEnabled(p, e) && Generations(p, id, bound)
    ensures Generations(AdminStep(p, e), id, bound)
  {
    match e
    case Reload => RecyclingMembers(p);
    case ChangeLog(a) => RecyclingMembers(p);
    case IdleDeath(i) => assert p.q.items[i] in p.q.items;
  }

  lemma UpkeepStepKeepsGenerations(p: Pool, e: UpkeepEvent, id: nat, bound: nat)
    requires UpkeepEnabled(p, e) && Generations(p, id, bound) && (id < p.launched || p.generation <= bound)
    ensures Generations(UpkeepStep(p, e), id, bound)
  {
    match e
    case Maintain(nominal) => KeptMembers(p.q.items, AliveMask(p.q.items));
    case ResyncDone(ok) =>
      var ws := RestoredAll(p.maint.seen, p.maint.fleet);
      PushAllFrame(p.q, ws);
      forall w | w in ws && w.id == id ensures w.generation <= bound {
        var i :| 0 <= i < |ws| && ws[i] == w;
        assert p.maint.fleet[i] in FleetOf(p);
      }
    case _ =>
  }

  /** The generation of a worker never changes; new workers get the current one and a new id. */
  lemma StepKeepsGenerations(p: Pool, e: Event, id: nat, bound: nat)
    requires Enabled(p, e) && Generations(p, id, bound) && (id < p.launched || p.generation <= bound)
    ensures Generations(Step(p, e), id, bound) && p.generation <= Step(p, e).generation
  {
    match e
    case Client(c) => ClientStepKeepsGenerations(p, c, id, bound);
    case Recycle(t, r) => RecycleStepKeepsGenerations(p, t, r, id, bound);
    case Admin(a) => AdminStepKeepsGenerations(p, a, id, bound);
    case Upkeep(u) => UpkeepStepKeepsGenerations(p, u, id, bound);
  }

  /** In every run the hand-outs of an old worker are paid for by its credit. */
  lemma {:induction false} CreditPaysForHandouts(p: Pool, es: seq<Event>, id: nat)
    requires IsRun(p, es) && id < p.launched && p.generation > 0 && Generations(p, id, p.generation - 1)
    ensures Handouts(p, es, id) <= Credit(p, id)
    decreases |es|
  {
    if es != [] {
      var e, q := es[0], Step(p, es[0]);
      match e {
        case Client(c) => ClientStepCredit(p, c, id);
        case Recycle(t, r) => RecycleStepCredit(p, t, r, id);
        case Admin(a) => AdminStepCredit(p, a, id);
        case Upkeep(u) => UpkeepStepCredit(p, u, id);
      }
      StepKeepsGenerations(p, e, id, p.generation - 1);
      StepPlaces(p, e, id);
      CreditPaysForHandouts(q, es[1..], id);
    }
  }

  function Unchecked(id: nat): Task -> bool {
    (t: Task) => t.worker.id == id && t.stage.Spawned?
  }

  lemma {:induction false} TasksSplit(ts: seq<Task>, id: nat)
    ensures Count(ts, TaskHasId(id)) == Count(ts, Unchecked(id)) + Count(ts, PastCheck(id))
  {
    if ts != [] {
      TasksSplit(ts[1..], id);
    }
  }

  /**
  After a reload, in every run, a worker of an older generation is handed out at most once more;
  not at all if it was idle, lent, or waiting for its generation check at the time of the reload.
   */
  lemma ReloadBoundsHandouts(p: Pool, es: seq<Event>, id: nat)
    requires Owned(p) && id < p.launched && Generations(p, id, p.generation)
    requires IsRun(AdminStep(p, Reload), es)
    ensures Handouts(AdminStep(p, Reload), es, id) <= 1
    ensures Count(p.q.items, HasId(id)) + Count(p.lent, HasId(id)) + Count(p.tasks, Unchecked(id)) > 0
            ==> Handouts(AdminStep(p, Reload), es, id) == 0
  {
    var q := AdminStep(p, Reload);
    StepKeepsGenerations(p, Admin(Reload), id, p.generation);
    CreditPaysForHandouts(q, es, id);
    DrainIdleCredit(p.(generation := p.generation + 1), id);
    TasksSplit(p.tasks, id);
    assert Places(p, id) == 1;
  }

  /** Generations never run ahead of the pool, so the bound applies in every reachable state. */
  lemma {:induction false} GenerationsAreBounded(p: Pool, es: seq<Event>, id: nat)
    requires IsRun(p, es) && Generations(p, id, p.generation)
    ensures Generations(Exec(p, es), id, Exec(p, es).generation)
    decreases |es|
  {
    if es != [] {
      StepKeepsGenerations(p, es[0], id, p.generation);
      GenerationsAreBounded(Step(p, es[0]), es[1..], id);
    }
  }

  /** The reload bound, and its zero case, in every reachable state and every continuation. */
  lemma ReloadBoundInEveryRun(projects: set<Uri>, before: seq<Event>, after: seq<Event>, id: nat)
    requires IsRun(Start(projects), before) && id < Exec(Start(projects), before).launched
    requires IsRun(AdminStep(Exec(Start(projects), before), Reload), after)
    ensures var p := Exec(Start(projects), before);
            var n := Handouts(AdminStep(p, Reload), after, id);
            && n <= 1
            && (Count(p.q.items, HasId(id)) + Count(p.lent, HasId(id)) + Count(p.tasks, Unchecked(id)) > 0 ==> n == 0)
  {
    RunIsOwned(Start(projects), before);
    GenerationsAreBounded(Start(projects), before, id);
    ReloadBoundsHandouts(Exec(Start(projects), before), after, id);
  }

  lemma OnlyIdleIsHandedOut(p: Pool, c: Q.CallId, w: Worker)
    requires p.q.items == [w] && !p.q.closed && ClientEnabled(p, Get(c))
    ensures HandedOut(p, Client(Get(c)), w.id) == 1
  {
    LendFrame(p.q, c);
    Q.PollOutcome(p.q, c);
    assert Handed(p, Client(Get(c))) == [] + [w];
    CountSnoc([], w, HasId(w.id));
  }

  /** From its generation check to the queue, and from there to a client. */
  lemma {:induction false} CancelledIsHandedOut(q: Pool, t: nat) returns (es: seq<Event>)
    requires t < |q.tasks| && q.tasks[t].stage.Cancelling?
    requires q.q.items == [] && !q.q.closed && q.q.waiting == q.q.woken == q.q.released == []
    ensures IsRun(q, es) && Handouts(q, es, q.tasks[t].worker.id) == 1
  {
    var id, w := q.tasks[t].worker.id, q.tasks[t].worker;
    var e0, e1, e2, e3 :=
      Recycle(t, CancelDone(true)), Recycle(t, LockRead), Recycle(t, RestoreDone(true)), Client(Get(0));
    var q1 := Step(q, e0);
    assert q1.tasks[t] == Task(w, AwaitingLock) && q1.q == q.q && q1.log == q.log;
    var q2 := Step(q1, e1);
    assert q2.tasks[t] == Task(w, Restoring(q.log)) && q2.q == q.q;
    var q3 := Step(q2, e2);
    assert q3.q.items == [Restored(q.log, w)] && q3.q.waiting == q3.q.woken == q3.q.released == [];
    OnlyIdleIsHandedOut(q3, 0, Restored(q.log, w));
    HandoutsCons(q3, e3, [], id);
    HandoutsCons(q2, e2, [e3] + [], id);
    HandoutsCons(q1, e1, [e2] + ([e3] + []), id);
    HandoutsCons(q, e0, [e1] + ([e2] + ([e3] + [])), id);
    es := [e0] + ([e1] + ([e2] + ([e3] + [])));
  }

  lemma PastCheckIsHandedOut(p: Pool, t: nat) returns (es: seq<Event>)
    requires t < |p.tasks| && p.tasks[t].stage.Cancelling?
    requires p.q.items == [] && !p.q.closed && p.q.waiting == p.q.woken == p.q.released == []
    ensures var q := AdminStep(p, Reload); IsRun(q, es) && Handouts(q, es, p.tasks[t].worker.id) == 1
  {
    var q := AdminStep(p, Reload);
    assert q.tasks == p.tasks;
    es := CancelledIsHandedOut(q, t);
  }

  /**
  The bound is reached: a run from the start in which a worker that passed its generation check
  just before a reload is handed out once after it, although it is of an older generation.
   */
  lemma ReloadBoundIsTight() returns (before: seq<Event>, after: seq<Event>)
    ensures IsRun(Start({}), before)
    ensures var p := Exec(Start({}), before);
            var q := AdminStep(p, Reload);
            && p.launched == 1 && |p.tasks| == 1 && p.tasks[0].worker.id == 0
            && p.tasks[0].worker.generation < q.generation
            && IsRun(q, after) && Handouts(q, after, 0) == 1
  {
    var es, p := LaunchFirst();
    var e0, e1, e2 := Client(Get(0)), Client(Release(0)), Recycle(0, CheckGeneration);
    var p1 := Step(p, e0);
    Extend(Start({}), es, p, e0);
    assert p1.lent == [FIRST];
    var p2 := Step(p1, e1);
    Extend(Start({}), es + [e0], p1, e1);
    assert p2.tasks == [Task(FIRST, Spawned)];
    var p3 := Step(p2, e2);
    Extend(Start({}), es + [e0] + [e1], p2, e2);
    before := es + [e0] + [e1] + [e2];
    after := PastCheckIsHandedOut(p3, 0);
  }

  lemma HandoutsCons(p: Pool, e: Event, es: seq<Event>, id: nat)
    requires Enabled(p, e) && IsRun(Step(p, e), es)
    ensures IsRun(p, [e] + es)
    ensures Handouts(p, [e] + es, id) == HandedOut(p, e, id) + Handouts(Step(p, e), es, id)
  {
    assert ([e] + es)[1..] == es;
  }

  // ------------------------------------------------------------------
  // The queue inside the pool
  // ------------------------------------------------------------------

  lemma ClientStepKeepsQueue(p: Pool, e: ClientEvent)
    requires Q.Inv(p.q) && ClientEnabled(p, e)
    ensures Q.Inv(ClientStep(p, e).q)
  {
    match e
    case Get(c) => Q.StepKeepsInv(p.q, Q.Recv(c));
    case Wake(c) => Q.StepKeepsInv(p.q, Q.Resume(c));
    case Abort(c) => Q.StepKeepsInv(p.q, Q.Cancel(c));
    case TakeIdle => Q.StepKeepsInv(p.q, Q.Event<Worker>.DrainAll);
    case _ =>
  }

  lemma RecycleStepKeepsQueue(p: Pool, t: nat, e: RecycleEvent)
    requires Q.Inv(p.q) && RecycleEnabled(p, t, e)
    ensures Q.Inv(RecycleStep(p, t, e).q)
  {
    if e == RestoreDone(true) {
      Q.StepKeepsInv(p.q, Q.Send(Restored(p.tasks[t].stage.seen, p.tasks[t].worker)));
    }
  }

  lemma UpkeepStepKeepsQueue(p: Pool, e: UpkeepEvent)
    requires Q.Inv(p.q) && UpkeepEnabled(p, e)
    ensures Q.Inv(UpkeepStep(p, e).q)
  {
    match e
    case Maintain(nominal) => Q.StepKeepsInv(p.q, Q.Retain(AliveMask(p.q.items)));
    case ResyncDone(ok) => Q.StepKeepsInv(p.q, Q.SendAll(RestoredAll(p.maint.seen, p.maint.fleet)));
    case CloseQueue => Q.StepKeepsInv(p.q, Q.Event<Worker>.Close);
    case _ =>
  }

  lemma ClientStepCalls(p: Pool, e: ClientEvent, c: Q.CallId)
    requires ClientEnabled(p, e) && c in Q.Calls(p.q) && e != Wake(c) && e != Abort(c)
    ensures c in Q.Calls(ClientStep(p, e).q)
  {
    match e
    case Get(d) => Q.OthersStay(p.q, Q.Recv(d), c);
    case Wake(d) => Q.OthersStay(p.q, Q.Resume(d), c);
    case Abort(d) => Q.OthersStay(p.q, Q.Cancel(d), c);
    case _ =>
  }

  lemma {:induction false} OtherStepCalls(p: Pool, e: Event)
    requires Enabled(p, e) && !e.Client?
    ensures Q.Calls(Step(p, e).q) == Q.Calls(p.q)
  {
    match e
    case Recycle(t, RestoreDone(true)) =>
      Q.StepCalls(p.q, Q.Send(Restored(p.tasks[t].stage.seen, p.tasks[t].worker)));
    case Upkeep(ResyncDone(true)) => Q.StepCalls(p.q, Q.SendAll(RestoredAll(p.maint.seen, p.maint.fleet)));
    case Upkeep(CloseQueue) => Q.StepCalls(p.q, Q.Event<Worker>.Close);
    case _ =>
  }

  /** No client is forgotten: in every run, one that waits stays suspended until it is resumed or goes away. */
  lemma {:induction false} WaitingClientsStay(p: Pool, es: seq<Event>, c: Q.CallId)
    requires IsRun(p, es) && c in Q.Calls(p.q) && Client(Wake(c)) !in es && Client(Abort(c)) !in es
    ensures c in Q.Calls(Exec(p, es).q)
    decreases |es|
  {
    if es != [] {
      if es[0].Client? {
        ClientStepCalls(p, es[0].client, c);
      } else {
        OtherStepCalls(p, es[0]);
      }
      WaitingClientsStay(Step(p, es[0]), es[1..], c);
    }
  }

  /** No step of the pool loses a wake-up of the queue it is built on. */
  lemma {:induction false} RunKeepsQueueInv(p: Pool, es: seq<Event>)
    requires Q.Inv(p.q) && IsRun(p, es)
    ensures Q.Inv(Exec(p, es).q)
    decreases |es|
  {
    if es != [] {
      match es[0] {
        case Client(c) => ClientStepKeepsQueue(p, c);
        case Recycle(t, r) => RecycleStepKeepsQueue(p, t, r);
        case Admin(a) => Q.StepKeepsInv(p.q, Q.Event<Worker>.DrainAll);
        case Upkeep(u) => UpkeepStepKeepsQueue(p, u);
      }
      RunKeepsQueueInv(Step(p, es[0]), es[1..]);
    }
  }
}
