/**
The pool as an object: the counters, the queue and the restore log it updates in place.  Each
method is one await-free stretch and is proved to be the corresponding step of `WorkerPool`.
 */
module PoolObjects {
  import opened Wrappers
  import opened Sequences
  import opened RestoreLog
  import opened WorkerPool
  import Q = NotifyQueue

  datatype GetResult = MaxRequestsExceeded | Polled(outcome: Q.Outcome<Worker>)

  /** Terminating a worker, failed or not, keeps the counters balanced and the others in step with the log. */
  lemma TerminateKeepsAll(p: Pool, t: nat)
    requires Counted(p) && Synced(p) && t < |p.tasks|
    ensures Counted(WorkerPool.Terminate(p, t)) && Synced(WorkerPool.Terminate(p, t))
    ensures Counted(WorkerPool.TerminateFailure(p, t)) && Synced(WorkerPool.TerminateFailure(p, t))
  {
    assert forall x <- Without(p.tasks, t) :: x in p.tasks;
  }

  class PoolObject {
    const q: Q.Queue<Worker>
    const restore: Restore
    var maxRequests: nat
    var generation: nat
    var deadWorkers: int
    var failures: int
    var numProcesses: int
    /** Handles held by clients, recycling tasks in flight, and a suspended `maintain_pool`. */
    var lent: seq<Worker>
    var tasks: seq<Task>
    var maint: Maintenance
    /** Supplies the ids of new workers. */
    var launched: nat
    ghost var ended: seq<Worker>
    ghost var drift: int

    ghost function View(): Pool
      reads this, q, restore
    {
      Pool(q.View(), lent, tasks, maint, generation, deadWorkers, failures, numProcesses, restore.View(),
           ended, launched, drift)
    }

    ghost predicate Valid()
      reads this, q, restore
    {
      Q.Inv(q.View()) && WellFormed(restore.View()) && Counted(View()) && Synced(View())
    }

    constructor (maxRequests: nat, projects: set<Uri>)
      ensures Valid() && View() == Start(projects) && this.maxRequests == maxRequests
      ensures fresh(q) && fresh(restore)
    {
      q := new Q.Queue<Worker>();
      restore := new Restore(projects);
      this.maxRequests, generation := maxRequests, 1;
      deadWorkers, failures, numProcesses := 0, 0, 0;
      lent, tasks, maint := [], [], Quiet;
      ended, launched, drift := [], 0, 0;
    }

    /** `WorkerQueue::recv`: refused when too many calls are counted as waiting. */
    method GetWorker(call: Q.CallId) returns (r: GetResult)
      requires Valid() && ClientEnabled(View(), Get(call))
      modifies this`lent, q
      ensures Valid()
      ensures r == MaxRequestsExceeded <==> !Q.Admits(old(q.View()), maxRequests)
      ensures r == MaxRequestsExceeded ==> View() == old(View())
      ensures r != MaxRequestsExceeded ==> View() == ClientStep(old(View()), Get(call))
      ensures r != MaxRequestsExceeded ==> r.outcome == Outcome(old(View()), Client(Get(call)))
      ensures r.Polled? && r.outcome.Item? ==> UpToDate(restore.View(), r.outcome.item)
    {
      if q.pending > maxRequests {
        return MaxRequestsExceeded;
      }
      ClientStepIsCounted(View(), Get(call));
      ClientStepIsSynced(View(), Get(call));
      LendFrame(q.View(), call);
      var outcome := q.StartRecv(call);
      lent := lent + if outcome.Item? then [outcome.item] else [];
      r := Polled(outcome);
    }

    /** A call that waited is resumed: it is not refused any more, but may have to wait again. */
    method ResumeGet(call: Q.CallId) returns (outcome: Q.Outcome<Worker>)
      requires Valid() && ClientEnabled(View(), Wake(call))
      modifies this`lent, q
      ensures Valid() && View() == ClientStep(old(View()), Wake(call))
      ensures outcome == Outcome(old(View()), Client(Wake(call)))
      ensures outcome.Item? ==> UpToDate(restore.View(), outcome.item)
    {
      ClientStepIsCounted(View(), Wake(call));
      ClientStepIsSynced(View(), Wake(call));
      LendFrame(Q.Unpark(q.View(), call), call);
      outcome := q.ResumeRecv(call);
      lent := lent + if outcome.Item? then [outcome.item] else [];
    }

    /** A client goes away while it waits. */
    method AbortGet(call: Q.CallId)
      requires Valid() && ClientEnabled(View(), Abort(call))
      modifies q
      ensures Valid() && View() == ClientStep(old(View()), Abort(call))
      ensures Q.Calls(q.View()) == Q.Calls(old(q.View())) - multiset{call}
    {
      ClientStepIsCounted(View(), Abort(call));
      ClientStepIsSynced(View(), Abort(call));
      ghost var before := View();
      q.DropRecv(call);
      assert View() == before.(q := Q.Abandon(before.q, call));
    }

    /** A handle is dropped: its worker goes to a new recycling task. */
    method ReleaseWorker(i: nat)
      requires Valid() && ClientEnabled(View(), Release(i))
      modifies this`lent, this`tasks
      ensures View() == ClientStep(old(View()), Release(i)) && Valid()
    {
      ClientStepIsCounted(View(), Release(i));
      ClientStepIsSynced(View(), Release(i));
      var w := lent[i];
      lent := Without(lent, i);
      tasks := tasks + [Task(w, Spawned)];
    }

    /** The worker of a task goes from busy to dead; everything the pool keeps stays true. */
    method Terminate(t: nat)
      requires t < |tasks|
      modifies this`tasks, this`deadWorkers, this`ended
      ensures View() == WorkerPool.Terminate(old(View()), t)
      ensures old(Valid()) ==> Valid()
      ensures |lent| + |tasks| + deadWorkers == old(|lent| + |tasks| + deadWorkers)
    {
      if Valid() {
        TerminateKeepsAll(View(), t);
      }
      deadWorkers := deadWorkers + 1;
      ended := ended + [tasks[t].worker];
      tasks := Without(tasks, t);
    }

    /** The same for a worker that failed: failures never get ahead of deaths. */
    method TerminateFailure(t: nat)
      requires Valid() && t < |tasks|
      modifies this`tasks, this`deadWorkers, this`failures, this`ended
      ensures View() == WorkerPool.TerminateFailure(old(View()), t) && Valid()
      ensures |lent| + |tasks| + deadWorkers == old(|lent| + |tasks| + deadWorkers)
      ensures deadWorkers - failures == old(deadWorkers - failures) >= 0
    {
      TerminateKeepsAll(View(), t);
      failures := failures + 1;
      Terminate(t);
    }

    /** One stretch of `recycle_owned` for task `t`. */
    method RecycleOwned(t: nat, e: RecycleEvent)
      requires Valid() && RecycleEnabled(View(), t, e)
      modifies this`tasks, this`deadWorkers, this`failures, this`ended, q
      ensures View() == RecycleStep(old(View()), t, e) && Valid()
    {
      RecycleStepIsCounted(View(), t, e);
      RecycleStepIsSynced(View(), t, e);
      match e
      case CheckGeneration =>
        if tasks[t].worker.generation < generation {
          Terminate(t);
        } else {
          tasks := tasks[t := tasks[t].(stage := Cancelling)];
        }
      case CancelDone(ok) =>
        if ok {
          tasks := tasks[t := tasks[t].(stage := AwaitingLock)];
        } else {
          TerminateFailure(t);
        }
      case LockRead =>
        var seen := Log(restore.update, restore.pulls, restore.configAt, restore.config, restore.states);
        tasks := tasks[t := tasks[t].(stage := Restoring(seen))];
      case RestoreDone(ok) =>
        if ok {
          var w := Restored(tasks[t].stage.seen, tasks[t].worker);
          tasks := Without(tasks, t);
          q.SendItem(w);
        } else {
          TerminateFailure(t);
        }
    }

    /** `Receiver::drain` with the handles kept: every idle worker is handed out, up to date. */
    method TakeAllIdle() returns (taken: seq<Worker>)
      requires Valid()
      modifies this`lent, q
      ensures View() == ClientStep(old(View()), TakeIdle) && Valid()
      ensures taken == old(q.items) && forall w <- taken :: UpToDate(restore.View(), w)
    {
      ClientStepIsCounted(View(), TakeIdle);
      ClientStepIsSynced(View(), TakeIdle);
      taken := q.DrainItems(|q.items|);
      assert taken == old(q.items);
      lent := lent + taken;
    }

    /** `Receiver::drain`: the handles are dropped at once, so every idle worker is recycled. */
    method Drain()
      requires Q.Inv(q.View())
      modifies this`tasks, q
      ensures View() == DrainIdle(old(View())) && Q.Inv(q.View())
    {
      var idle := q.DrainItems(|q.items|);
      assert idle == old(q.items);
      tasks := tasks + Recycling(idle);
    }

    method ReloadWorkers()
      requires Valid()
      modifies this`tasks, this`generation, q
      ensures View() == AdminStep(old(View()), Reload) && Valid()
    {
      AdminStepIsSynced(View(), Reload);
      generation := generation + 1;
      Drain();
    }

    /** Under the write lock: drain the idle workers, then record the change. */
    method UpdateRestore(a: Action)
      requires Valid() && AdminEnabled(View(), ChangeLog(a))
      modifies this`tasks, q, restore
      ensures View() == AdminStep(old(View()), ChangeLog(a)) && Valid()
      ensures a.SetConfig? ==> restore.config == a.config && restore.configAt == restore.update > old(restore.update)
    {
      AdminStepIsSynced(View(), ChangeLog(a));
      Drain();
      match a
      case Cache(op) => restore.Record(op);
      case SetConfig(c) => restore.SetConfiguration(c);
    }

    method CleanupDeadWorkers()
      requires Valid() && maint.Quiet?
      modifies this`deadWorkers, this`ended, q
      ensures View() == CleanUp(old(View()))
      ensures forall w <- q.items :: w.alive
      ensures forall i | 0 <= i < |old(q.items)| && old(q.items)[i].alive ::
                var k := Count(old(q.items)[..i], IsAlive()); k < |q.items| && q.items[k] == old(q.items)[i]
      ensures deadWorkers == old(deadWorkers) + Count(old(q.items), IsDead())
      ensures Q.Inv(q.View()) && Counted(View())
    {
      CleanUpIsCounted(View());
      CleanUpOutcome(View());
      var mask := AliveMask(q.items);
      ended := ended + Q.Kept(q.items, DeadMask(q.items));
      var removed := q.RetainItems(mask);
      if removed > 0 {
        deadWorkers := deadWorkers + removed;
      }
    }

    /** Takes at most `n` idle workers out of the pool for good. */
    method RetireIdle(n: nat)
      requires Q.Inv(q.View())
      modifies this`numProcesses, this`ended, q
      ensures View() == Retire(old(View()), n) && Q.Inv(q.View())
    {
      ghost var all, k := q.items, Q.Min(n, |q.items|);
      var removed := q.DrainItems(n);
      assert |removed| == k && removed == all[..k] && q.items == all[k..];
      numProcesses := numProcesses - |removed|;
      ended := ended + removed;
    }

    /** `maintain_pool` up to its first await. */
    method MaintainPool(nominal: nat)
      requires Valid() && maint.Quiet?
      modifies this`deadWorkers, this`numProcesses, this`maint, this`ended, q
      ensures View() == BeginMaintenance(old(View()), nominal) && Valid()
      ensures forall w <- q.items :: w.alive
    {
      MaintenanceOutcome(View(), nominal);
      UpkeepStepIsCounted(View(), Maintain(nominal));
      UpkeepStepIsSynced(View(), Maintain(nominal));
      CleanupDeadWorkers();
      var dead, failed := deadWorkers, failures;
      var current := numProcesses - dead;
      if nominal > current {
        if !q.closed {
          maint := Spawning(nominal, nominal - current, dead, failed);
        }
      } else if nominal < current {
        if !q.closed {
          RetireIdle(current - nominal);
          maint := Shrinking(dead, failed);
        }
      }
    }

    /** The workers of `grow` are started, or failed to start. */
    method SpawnFinished(ok: bool, loaded: set<Uri>)
      requires Valid() && maint.Spawning?
      modifies this`maint, this`launched
      ensures View() == EndSpawn(old(View()), ok, loaded) && Valid()
    {
      UpkeepStepIsSynced(View(), SpawnDone(ok, loaded));
      if ok {
        var seen := Log(restore.update, restore.pulls, restore.configAt, restore.config, restore.states);
        var fleet := Fleet(launched, generation, maint.n, loaded);
        maint := Resyncing(maint.nominal, fleet, seen, maint.dead0, maint.failures0);
        launched := launched + |fleet|;
      } else {
        maint := Quiet;
      }
    }

    /** The end of `grow` and of the grow branch of `maintain_pool`. */
    method GrowFinished(ok: bool)
      requires Valid() && maint.Resyncing?
      modifies this`maint, this`numProcesses, this`failures, this`deadWorkers, this`ended, q
      ensures View() == EndResync(old(View()), ok) && Valid()
    {
      UpkeepStepIsCounted(View(), ResyncDone(ok));
      UpkeepStepIsSynced(View(), ResyncDone(ok));
      var m := maint;
      if ok {
        q.SendItems(RestoredAll(m.seen, m.fleet));
        numProcesses := numProcesses + |m.fleet|;
        numProcesses := m.nominal;
        failures := failures - m.failures0;
        deadWorkers := deadWorkers - m.dead0;
      } else {
        ended := ended + m.fleet;
      }
      maint := Quiet;
    }

    /** The end of the shrink branch of `maintain_pool`. */
    method ShrinkFinished()
      requires Valid() && maint.Shrinking?
      modifies this`maint, this`failures, this`deadWorkers, this`drift
      ensures View() == EndShrink(old(View())) && Valid()
    {
      UpkeepStepIsCounted(View(), ShrinkDone);
      failures := failures - maint.failures0;
      deadWorkers := deadWorkers - maint.dead0;
      drift := drift + maint.dead0;
      maint := Quiet;
    }

    /** `maintain_pool` is dropped while it terminates the workers of a shrink: its counters stay as they are. */
    method ShrinkDropped()
      requires Valid() && maint.Shrinking?
      modifies this`maint
      ensures View() == UpkeepStep(old(View()), UpkeepEvent.ShrinkDropped) && Valid()
    {
      UpkeepStepIsCounted(View(), UpkeepEvent.ShrinkDropped);
      UpkeepStepIsSynced(View(), UpkeepEvent.ShrinkDropped);
      maint := Quiet;
    }

    /** (busy, idle, dead), as the counters have it. */
    method StatsRaw() returns (busy: int, idle: int, dead: int)
      requires Valid()
      ensures busy >= 0 && busy == |lent| + |tasks| + View().drift
      ensures idle == |q.items| && dead == deadWorkers >= failures >= 0
    {
      dead := deadWorkers;
      idle := q.count;
      busy := numProcesses - idle - dead;
    }

    method ClosePool()
      requires Valid() && maint.Quiet?
      modifies q
      ensures View() == UpkeepStep(old(View()), CloseQueue) && Valid()
    {
      UpkeepStepIsCounted(View(), CloseQueue);
      UpkeepStepIsSynced(View(), CloseQueue);
      q.CloseQueue();
    }

    /** After the grace period: every idle worker is taken out. */
    method DrainClosed()
      requires Valid() && UpkeepEnabled(View(), CloseDrain)
      modifies this`numProcesses, this`ended, q
      ensures View() == UpkeepStep(old(View()), CloseDrain) && Valid() && q.items == []
    {
      UpkeepStepIsCounted(View(), CloseDrain);
      UpkeepStepIsSynced(View(), CloseDrain);
      RetireIdle(numProcesses);
    }
  }
}
