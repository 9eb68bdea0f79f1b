/**
The asynchronous queue of idle workers: a locked deque plus one `tokio::sync::Notify`.

The server runs on a single-threaded runtime, so every stretch of code between two await
points is one atomic step.  A `recv` call that finds the queue empty registers itself with
the notifier and is suspended; it may later be woken and resumed, or dropped.
 */
module NotifyQueue {
  import opened Sequences

  type CallId = nat

  /** What one stretch of a `recv` call ends with. */
  datatype Outcome<+T> = QueueIsClosed | Item(item: T) | Suspended

  /**
  `waiting` lists the registered calls that have not been notified (oldest first), `woken` the
  calls notified by `notify_one` and `released` those notified by `notify_waiters`, both not
  yet resumed.  `cancelled` counts the calls dropped while suspended; the source keeps no such
  counter, it is there to state what `pending` means.
   */
  datatype State<T> = State(
    items: seq<T>,
    permit: bool,
    waiting: seq<CallId>,
    woken: seq<CallId>,
    released: seq<CallId>,
    closed: bool,
    count: int,
    pending: int,
    cancelled: nat)

  function Init<T>(): State<T> {
    State([], false, [], [], [], false, 0, 0, 0)
  }

  datatype Event<T> =
    | Recv(call: CallId)
    | Resume(call: CallId)
    | Cancel(call: CallId)
    | Send(item: T)
    | SendAll(items: seq<T>)
    | Retain(keep: seq<bool>)
    | Drain(n: nat)
    | DrainAll
    | Close

  // ------------------------------------------------------------------
  // The notifier
  // ------------------------------------------------------------------

  /** Wakes the oldest registered call, or stores the permit when there is none. */
  function NotifyOne<T>(s: State<T>): State<T> {
    if s.waiting == [] then s.(permit := true)
    else s.(waiting := s.waiting[1..], woken := s.woken + [s.waiting[0]])
  }

  function NotifyTimes<T>(s: State<T>, n: nat): State<T>
    decreases n
  {
    if n == 0 then s else NotifyTimes(NotifyOne(s), n - 1)
  }

  /** Wakes every registered call and stores nothing. */
  function NotifyWaiters<T>(s: State<T>): State<T> {
    s.(waiting := [], released := s.released + s.waiting)
  }

  // ------------------------------------------------------------------
  // One step of the queue
  // ------------------------------------------------------------------

  /** The loop of `recv`, from its head to the next return or suspension. */
  function Poll<T>(s: State<T>, call: CallId): (State<T>, Outcome<T>)
    decreases s.permit
  {
    if s.closed then (s, QueueIsClosed)
    else if s.items != [] then (s.(items := s.items[1..], count := s.count - 1), Item(s.items[0]))
    else if s.permit then Poll(s.(permit := false), call)
    else (s.(pending := s.pending + 1, waiting := s.waiting + [call]), Suspended)
  }

  /** A notified call leaves the notifier; `pending` drops before the loop goes round again. */
  function Unpark<T>(s: State<T>, call: CallId): State<T> {
    var t := s.(pending := s.pending - 1);
    if call in s.woken then t.(woken := Remove(s.woken, call)) else t.(released := Remove(s.released, call))
  }

  /** Dropping a suspended call: a pending `notify_one` is passed on, `pending` keeps its value. */
  function Abandon<T>(s: State<T>, call: CallId): State<T> {
    var t := s.(cancelled := s.cancelled + 1);
    if call in s.waiting then t.(waiting := Remove(s.waiting, call))
    else if call in s.woken then NotifyOne(t.(woken := Remove(s.woken, call)))
    else t.(released := Remove(s.released, call))
  }

  function Push<T>(s: State<T>, item: T): State<T> {
    NotifyOne(s.(items := s.items + [item], count := s.count + 1))
  }

  function PushAll<T>(s: State<T>, items: seq<T>): State<T> {
    NotifyTimes(s.(items := s.items + items, count := |s.items + items|), |items|)
  }

  function Kept<T>(items: seq<T>, keep: seq<bool>): seq<T>
    requires |keep| == |items|
  {
    if items == [] then []
    else (if keep[0] then [items[0]] else []) + Kept(items[1..], keep[1..])
  }

  function SetItems<T>(s: State<T>, items: seq<T>): State<T> {
    s.(items := items, count := |items|)
  }

  function Min(a: nat, b: nat): nat {
    if a < b then a else b
  }

  predicate Enabled<T>(s: State<T>, e: Event<T>) {
    match e
    case Recv(c) => c !in s.waiting + s.woken + s.released
    case Resume(c) => c in s.woken + s.released
    case Cancel(c) => c in s.waiting + s.woken + s.released
    case Retain(keep) => |keep| == |s.items|
    case _ => true
  }

  function Step<T>(s: State<T>, e: Event<T>): State<T>
    requires Enabled(s, e)
  {
    match e
    case Recv(c) => Poll(s, c).0
    case Resume(c) => Poll(Unpark(s, c), c).0
    case Cancel(c) => Abandon(s, c)
    case Send(x) => Push(s, x)
    case SendAll(xs) => PushAll(s, xs)
    case Retain(keep) => SetItems(s, Kept(s.items, keep))
    case Drain(n) => SetItems(s, s.items[Min(n, |s.items|)..])
    case DrainAll => SetItems(s, [])
    case Close => NotifyWaiters(s.(closed := true))
  }

  /** What the step hands to its caller: the outcome of a `recv` stretch, nothing otherwise. */
  function Result<T>(s: State<T>, e: Event<T>): Outcome<T>
    requires Enabled(s, e)
  {
    match e
    case Recv(c) => Poll(s, c).1
    case Resume(c) => Poll(Unpark(s, c), c).1
    case _ => Suspended
  }

  predicate IsRun<T>(s: State<T>, es: seq<Event<T>>)
    decreases |es|
  {
    es == [] || (Enabled(s, es[0]) && IsRun(Step(s, es[0]), es[1..]))
  }

  function Exec<T>(s: State<T>, es: seq<Event<T>>): State<T>
    requires IsRun(s, es)
    decreases |es|
  {
    if es == [] then s else Exec(Step(s, es[0]), es[1..])
  }

  // ------------------------------------------------------------------
  // No lost wake-up
  // ------------------------------------------------------------------

  /** If a call is suspended un-notified, every queued item has a notified call on its way to it. */
  predicate NoLostWakeup<T>(s: State<T>) {
    s.waiting != [] ==> !s.permit && |s.items| <= |s.woken| + |s.released|
  }

  predicate WaitersCounted<T>(s: State<T>) {
    s.pending == |s.waiting| + |s.woken| + |s.released| + s.cancelled
  }

  /** The invariant, short of `due` notifications that are still to be issued. */
  ghost predicate InvUpTo<T>(s: State<T>, due: nat) {
    && (s.waiting != [] ==> !s.permit && |s.items| <= |s.woken| + |s.released| + due)
    && WaitersCounted(s)
    && s.count == |s.items|
    && (if s.closed then s.waiting == [] else s.released == [])
  }

  ghost predicate Inv<T>(s: State<T>) {
    InvUpTo(s, 0)
  }

  lemma NotifyOneKeepsInv<T>(s: State<T>, due: nat)
    requires InvUpTo(s, due + 1)
    ensures InvUpTo(NotifyOne(s), due)
  {
  }

  lemma {:induction false} NotifyTimesKeepsInv<T>(s: State<T>, n: nat)
    requires InvUpTo(s, n)
    ensures Inv(NotifyTimes(s, n))
    decreases n
  {
    if n > 0 {
      NotifyOneKeepsInv(s, n - 1);
      NotifyTimesKeepsInv(NotifyOne(s), n - 1);
    }
  }

  lemma {:induction false} NotifyTimesFrame<T>(s: State<T>, n: nat)
    ensures var t := NotifyTimes(s, n);
            t.items == s.items && t.closed == s.closed && t.pending == s.pending && t.cancelled == s.cancelled
    decreases n
  {
    if n > 0 {
      NotifyTimesFrame(NotifyOne(s), n - 1);
    }
  }

  lemma PollKeepsInv<T>(s: State<T>, c: CallId)
    requires InvUpTo(s, 1)
    ensures Inv(Poll(s, c).0)
    decreases s.permit
  {
    if s.permit {
      PollKeepsInv(s.(permit := false), c);
    }
  }

  /** What a stretch of `recv` returns: an item exactly when the queue is open and not empty. */
  lemma PollOutcome<T>(s: State<T>, c: CallId)
    ensures var (t, r) := Poll(s, c);
            && t.cancelled == s.cancelled && t.closed == s.closed
            && t.pending == s.pending + (if r.Suspended? then 1 else 0)
            && (r.Item? <==> !s.closed && s.items != [])
            && (r.QueueIsClosed? <==> s.closed)
            && s.items == (if r.Item? then [r.item] else []) + t.items
    decreases s.permit
  {
    if s.permit {
      PollOutcome(s.(permit := false), c);
    }
  }

  lemma UnparkKeepsInv<T>(s: State<T>, c: CallId)
    requires Inv(s) && c in s.woken + s.released
    ensures InvUpTo(Unpark(s, c), 1)
  {
    RemoveLength(s.woken, c);
    RemoveLength(s.released, c);
  }

  lemma AbandonKeepsInv<T>(s: State<T>, c: CallId)
    requires Inv(s) && c in s.waiting + s.woken + s.released
    ensures Inv(Abandon(s, c))
  {
    RemoveLength(s.waiting, c);
    RemoveLength(s.woken, c);
    RemoveLength(s.released, c);
    if c !in s.waiting && c in s.woken {
      NotifyOneKeepsInv(s.(cancelled := s.cancelled + 1, woken := Remove(s.woken, c)), 0);
    }
  }

  lemma KeptFrom<T>(items: seq<T>, keep: seq<bool>, i: nat)
    requires |keep| == |items| && i < |items|
    ensures Kept(items[i..], keep[i..]) == (if keep[i] then [items[i]] else []) + Kept(items[i + 1..], keep[i + 1..])
  {
    assert items[i..][1..] == items[i + 1..] && keep[i..][1..] == keep[i + 1..];
  }

  lemma {:induction false} KeptShrinks<T>(items: seq<T>, keep: seq<bool>)
    requires |keep| == |items|
    ensures |Kept(items, keep)| <= |items|
  {
    if items != [] {
      KeptShrinks(items[1..], keep[1..]);
    }
  }

  /** A chosen element is kept, at the position given by the number of chosen ones before it. */
  lemma {:induction false} KeptAt<T>(items: seq<T>, keep: seq<bool>, i: nat)
    requires |keep| == |items| && i < |items| && keep[i]
    ensures Rank(keep, i) < |Kept(items, keep)| && Kept(items, keep)[Rank(keep, i)] == items[i]
    decreases i
  {
    if i > 0 {
      KeptAt(items[1..], keep[1..], i - 1);
    }
  }

  lemma {:induction false} KeptLength<T>(items: seq<T>, keep: seq<bool>)
    requires |keep| == |items|
    ensures |Kept(items, keep)| == Rank(keep, |keep|)
  {
    if items != [] {
      KeptLength(items[1..], keep[1..]);
    }
  }

  /** And nothing else is kept. */
  lemma {:induction false} KeptWasChosen<T>(items: seq<T>, keep: seq<bool>, j: nat) returns (i: nat)
    requires |keep| == |items| && j < |Kept(items, keep)|
    ensures i < |items| && keep[i] && Rank(keep, i) == j && items[i] == Kept(items, keep)[j]
    decreases |items|
  {
    if keep[0] && j == 0 {
      i := 0;
    } else {
      var k := KeptWasChosen(items[1..], keep[1..], if keep[0] then j - 1 else j);
      i := k + 1;
    }
  }

  /** Every step keeps the invariant. */
  lemma StepKeepsInv<T>(s: State<T>, e: Event<T>)
    requires Inv(s) && Enabled(s, e)
    ensures Inv(Step(s, e))
  {
    match e
    case Recv(c) => PollKeepsInv(s, c);
    case Resume(c) =>
      UnparkKeepsInv(s, c);
      PollKeepsInv(Unpark(s, c), c);
    case Cancel(c) => AbandonKeepsInv(s, c);
    case Send(x) => NotifyOneKeepsInv(s.(items := s.items + [x], count := s.count + 1), 0);
    case SendAll(xs) => NotifyTimesKeepsInv(s.(items := s.items + xs, count := |s.items + xs|), |xs|);
    case Retain(keep) => KeptShrinks(s.items, keep);
    case Drain(n) =>
    case DrainAll =>
    case Close =>
  }

  lemma {:induction false} RunKeepsInv<T>(s: State<T>, es: seq<Event<T>>)
    requires Inv(s) && IsRun(s, es)
    ensures Inv(Exec(s, es))
    decreases |es|
  {
    if es != [] {
      StepKeepsInv(s, es[0]);
      RunKeepsInv(Step(s, es[0]), es[1..]);
    }
  }

  /** In every reachable state no wake-up is lost, and waiters are counted exactly. */
  lemma ReachableStatesKeepWakeups<T>(es: seq<Event<T>>)
    requires IsRun(Init<T>(), es)
    ensures var s := Exec(Init<T>(), es);
            && NoLostWakeup(s) && WaitersCounted(s) && s.count == |s.items|
            && (s.waiting != [] && s.woken == [] && s.released == [] ==> s.items == [])
  {
    RunKeepsInv(Init<T>(), es);
  }

  /** Once closed, the queue stays closed and no `recv` stretch ever returns an item. */
  lemma {:induction false} ClosedQueueYieldsNothing<T>(s: State<T>, es: seq<Event<T>>, e: Event<T>)
    requires s.closed && IsRun(s, es) && Enabled(Exec(s, es), e)
    ensures Exec(s, es).closed
    ensures !Result(Exec(s, es), e).Item?
    ensures e.Recv? || e.Resume? ==> Result(Exec(s, es), e) == QueueIsClosed
    decreases |es|
  {
    if es != [] {
      StepKeepsClosed(s, es[0]);
      ClosedQueueYieldsNothing(Step(s, es[0]), es[1..], e);
    }
  }

  lemma StepKeepsClosed<T>(s: State<T>, e: Event<T>)
    requires s.closed && Enabled(s, e)
    ensures Step(s, e).closed
  {
    match e
    case SendAll(xs) => NotifyTimesFrame(s.(items := s.items + xs, count := |s.items + xs|), |xs|);
    case _ =>
  }

  // ------------------------------------------------------------------
  // Which calls are suspended
  // ------------------------------------------------------------------

  /** The suspended calls: un-notified, woken or released. */
  function Calls<T>(s: State<T>): multiset<CallId> {
    multiset(s.waiting) + multiset(s.woken) + multiset(s.released)
  }

  /** A number of notifications: the oldest waiters are woken, and one that finds nobody stores the permit. */
  lemma {:induction false} NotifyTimesOutcome<T>(s: State<T>, n: nat)
    ensures var t, k := NotifyTimes(s, n), Min(n, |s.waiting|);
            && t.waiting == s.waiting[k..] && t.woken == s.woken + s.waiting[..k] && t.released == s.released
            && t.permit == (s.permit || n > |s.waiting|)
    decreases n
  {
    if n == 0 {
      assert s.waiting[0..] == s.waiting && s.woken + s.waiting[..0] == s.woken;
    } else {
      var one := NotifyOne(s);
      NotifyTimesOutcome(one, n - 1);
      assert NotifyTimes(s, n) == NotifyTimes(one, n - 1);
      if s.waiting == [] {
        assert one == s.(permit := true);
      } else {
        var k := Min(n, |s.waiting|);
        ShiftOne(s.woken, s.waiting, k);
        assert one == s.(waiting := s.waiting[1..], woken := s.woken + [s.waiting[0]]);
        assert Min(n - 1, |one.waiting|) == k - 1;
      }
    }
  }

  lemma {:induction false} NotifyKeepsCalls<T>(s: State<T>, n: nat)
    ensures Calls(NotifyTimes(s, n)) == Calls(s)
  {
    NotifyTimesOutcome(s, n);
    var k := Min(n, |s.waiting|);
    assert s.waiting == s.waiting[..k] + s.waiting[k..];
  }

  lemma NotifyOneKeepsCalls<T>(s: State<T>)
    ensures Calls(NotifyOne(s)) == Calls(s)
  {
    NotifyKeepsCalls(s, 1);
    assert NotifyTimes(s, 1) == NotifyTimes(NotifyOne(s), 0);
  }

  lemma PollCalls<T>(s: State<T>, c: CallId)
    ensures var (t, r) := Poll(s, c); Calls(t) == Calls(s) + if r.Suspended? then multiset{c} else multiset{}
    decreases s.permit
  {
    if s.permit {
      PollCalls(s.(permit := false), c);
    }
  }

  /** The calls when one of the lists loses `c`. */
  lemma CallsWithoutWaiting<T>(s: State<T>, c: CallId)
    requires c in s.waiting
    ensures c in Calls(s) && Calls(s.(waiting := Remove(s.waiting, c))) == Calls(s) - multiset{c}
  {
    var a, b, d := multiset(s.waiting), multiset(s.woken), multiset(s.released);
    RemoveMultiset(s.waiting, c);
    MinusFromPart(a, b + d, c);
    assert a + b + d == a + (b + d) && (a - multiset{c}) + b + d == (a - multiset{c}) + (b + d);
  }

  lemma CallsWithoutWoken<T>(s: State<T>, c: CallId)
    requires c in s.woken
    ensures c in Calls(s) && Calls(s.(woken := Remove(s.woken, c))) == Calls(s) - multiset{c}
  {
    var a, b, d := multiset(s.waiting), multiset(s.woken), multiset(s.released);
    RemoveMultiset(s.woken, c);
    MinusFromPart(b, a, c);
    MinusFromPart(a + b, d, c);
  }

  lemma CallsWithoutReleased<T>(s: State<T>, c: CallId)
    requires c in s.released
    ensures c in Calls(s) && Calls(s.(released := Remove(s.released, c))) == Calls(s) - multiset{c}
  {
    RemoveMultiset(s.released, c);
    MinusFromPart(multiset(s.released), multiset(s.waiting) + multiset(s.woken), c);
  }

  lemma UnparkCalls<T>(s: State<T>, c: CallId)
    requires c in s.woken + s.released
    ensures c in Calls(s) && Calls(Unpark(s, c)) == Calls(s) - multiset{c}
  {
    if c in s.woken {
      CallsWithoutWoken(s, c);
    } else {
      CallsWithoutReleased(s, c);
    }
  }

  lemma AbandonCalls<T>(s: State<T>, c: CallId)
    requires c in s.waiting + s.woken + s.released
    ensures c in Calls(s) && Calls(Abandon(s, c)) == Calls(s) - multiset{c}
  {
    if c in s.waiting {
      CallsWithoutWaiting(s, c);
    } else if c in s.woken {
      CallsWithoutWoken(s, c);
      var t := s.(cancelled := s.cancelled + 1, woken := Remove(s.woken, c));
      NotifyOneKeepsCalls(t);
      assert Calls(t) == Calls(s.(woken := Remove(s.woken, c)));
    } else {
      CallsWithoutReleased(s, c);
    }
  }

  /** What a step does to the suspended calls: only the call of the step itself comes or goes. */
  function CallsAfter<T>(s: State<T>, e: Event<T>): multiset<CallId>
    requires Enabled(s, e)
  {
    match e
    case Recv(c) => Calls(s) + if Result(s, e).Suspended? then multiset{c} else multiset{}
    case Resume(c) => Calls(s) - if Result(s, e).Suspended? then multiset{} else multiset{c}
    case Cancel(c) => Calls(s) - multiset{c}
    case _ => Calls(s)
  }

  lemma ResumeCalls<T>(s: State<T>, c: CallId)
    requires c in s.woken + s.released
    ensures Calls(Step(s, Resume(c))) == CallsAfter(s, Resume(c))
  {
    UnparkCalls(s, c);
    PollCalls(Unpark(s, c), c);
    assert Calls(s) - multiset{c} + multiset{c} == Calls(s);
    assert Calls(s) - multiset{c} + multiset{} == Calls(s) - multiset{c};
  }

  lemma {:induction false} StepCalls<T>(s: State<T>, e: Event<T>)
    requires Enabled(s, e)
    ensures Calls(Step(s, e)) == CallsAfter(s, e)
  {
    match e
    case Recv(c) => PollCalls(s, c);
    case Resume(c) => ResumeCalls(s, c);
    case Cancel(c) => AbandonCalls(s, c);
    case Send(x) => NotifyOneKeepsCalls(s.(items := s.items + [x], count := s.count + 1));
    case SendAll(xs) => NotifyKeepsCalls(s.(items := s.items + xs, count := |s.items + xs|), |xs|);
    case _ =>
  }

  lemma {:induction false} OthersStay<T>(s: State<T>, e: Event<T>, c: CallId)
    requires Enabled(s, e) && c in Calls(s) && e != Resume(c) && e != Cancel(c)
    ensures c in Calls(Step(s, e))
  {
    StepCalls(s, e);
    var before, after := Calls(s), CallsAfter(s, e);
    match e
    case Resume(d) => assert (before - multiset{d})[c] == before[c];
    case Cancel(d) => assert (before - multiset{d})[c] == before[c];
    case _ =>
  }

  ghost predicate NeverLeaves<T>(es: seq<Event<T>>, c: CallId) {
    forall i | 0 <= i < |es| :: es[i] != Resume(c) && es[i] != Cancel(c)
  }

  /** Nobody is forgotten: a suspended call that is neither resumed nor dropped stays suspended, in every run. */
  lemma {:induction false} SuspendedCallsStay<T>(s: State<T>, es: seq<Event<T>>, c: CallId)
    requires IsRun(s, es) && c in Calls(s) && NeverLeaves(es, c)
    ensures c in Calls(Exec(s, es))
    decreases |es|
  {
    if es != [] {
      OthersStay(s, es[0], c);
      assert forall i | 0 <= i < |es| - 1 :: es[1..][i] == es[i + 1];
      SuspendedCallsStay(Step(s, es[0]), es[1..], c);
    }
  }

  /** Each call is in one of the three lists at most, and there once. */
  ghost predicate Distinct<T>(s: State<T>) {
    forall c: CallId :: Calls(s)[c] <= 1
  }

  lemma {:induction false} RunKeepsDistinct<T>(s: State<T>, es: seq<Event<T>>)
    requires IsRun(s, es) && Distinct(s)
    ensures Distinct(Exec(s, es))
    decreases |es|
  {
    if es != [] {
      StepKeepsDistinct(s, es[0]);
      RunKeepsDistinct(Step(s, es[0]), es[1..]);
    }
  }

  lemma {:induction false} StepKeepsDistinct<T>(s: State<T>, e: Event<T>)
    requires Enabled(s, e) && Distinct(s)
    ensures Distinct(Step(s, e))
  {
    StepCalls(s, e);
    if e.Recv? {
      assert Calls(s)[e.call] == 0;
    }
  }

  // ------------------------------------------------------------------
  // In which order they are notified
  // ------------------------------------------------------------------

  /** `a` is notified, or un-notified and ahead of `b`. */
  ghost predicate Ahead<T>(s: State<T>, a: CallId, b: CallId) {
    a in s.woken || a in s.released || Before(s.waiting, a, b)
  }

  lemma NotifyKeepsAhead<T>(s: State<T>, n: nat, a: CallId, b: CallId)
    requires Ahead(s, a, b)
    ensures Ahead(NotifyTimes(s, n), a, b)
  {
    NotifyTimesOutcome(s, n);
    var k := Min(n, |s.waiting|);
    if a !in s.woken && a !in s.released {
      var i, j :| 0 <= i < j < |s.waiting| && s.waiting[i] == a && s.waiting[j] == b;
      if i < k {
        assert s.waiting[..k][i] == a;
      } else {
        assert s.waiting[k..][i - k] == a && s.waiting[k..][j - k] == b;
      }
    }
  }

  lemma PollKeepsAhead<T>(s: State<T>, c: CallId, a: CallId, b: CallId)
    requires Ahead(s, a, b)
    ensures Ahead(Poll(s, c).0, a, b)
    decreases s.permit
  {
    if s.permit {
      PollKeepsAhead(s.(permit := false), c, a, b);
    } else if Before(s.waiting, a, b) {
      var i, j :| 0 <= i < j < |s.waiting| && s.waiting[i] == a && s.waiting[j] == b;
      assert (s.waiting + [c])[i] == a && (s.waiting + [c])[j] == b;
    }
  }

  lemma UnparkKeepsAhead<T>(s: State<T>, c: CallId, a: CallId, b: CallId)
    requires Ahead(s, a, b) && c in s.woken + s.released && c != a
    ensures Ahead(Unpark(s, c), a, b)
  {
    if a in s.woken {
      RemoveKeepsOthers(s.woken, c, a);
    }
    if a in s.released {
      RemoveKeepsOthers(s.released, c, a);
    }
  }

  lemma AbandonKeepsAhead<T>(s: State<T>, c: CallId, a: CallId, b: CallId)
    requires Ahead(s, a, b) && c in s.waiting + s.woken + s.released && c != a && c != b
    ensures Ahead(Abandon(s, c), a, b)
  {
    if a in s.woken {
      RemoveKeepsOthers(s.woken, c, a);
    }
    if a in s.released {
      RemoveKeepsOthers(s.released, c, a);
    }
    if c in s.waiting {
      if Before(s.waiting, a, b) {
        BeforeAfterRemove(s.waiting, c, a, b);
      }
    } else if c in s.woken {
      var t := s.(cancelled := s.cancelled + 1, woken := Remove(s.woken, c));
      NotifyKeepsAhead(t, 1, a, b);
      assert NotifyTimes(t, 1) == NotifyTimes(NotifyOne(t), 0);
    }
  }

  lemma StepKeepsAhead<T>(s: State<T>, e: Event<T>, a: CallId, b: CallId)
    requires Enabled(s, e) && Ahead(s, a, b) && e != Resume(a) && e != Cancel(a) && e != Cancel(b)
    ensures Ahead(Step(s, e), a, b)
  {
    match e
    case Recv(c) => PollKeepsAhead(s, c, a, b);
    case Resume(c) =>
      UnparkKeepsAhead(s, c, a, b);
      PollKeepsAhead(Unpark(s, c), c, a, b);
    case Cancel(c) => AbandonKeepsAhead(s, c, a, b);
    case Send(x) =>
      var t := s.(items := s.items + [x], count := s.count + 1);
      NotifyKeepsAhead(t, 1, a, b);
      assert NotifyTimes(t, 1) == NotifyTimes(NotifyOne(t), 0);
    case SendAll(xs) => NotifyKeepsAhead(s.(items := s.items + xs, count := |s.items + xs|), |xs|, a, b);
    case Close =>
      if Before(s.waiting, a, b) {
        assert a in s.waiting;
      }
    case _ =>
  }

  /** First come, first woken: in every run the later of two waiting calls is never notified before the other. */
  lemma {:induction false} WaitersKeepTheirOrder<T>(s: State<T>, es: seq<Event<T>>, a: CallId, b: CallId)
    requires IsRun(s, es) && Ahead(s, a, b) && NeverLeaves(es, a) && Cancel(b) !in es
    ensures Ahead(Exec(s, es), a, b)
    decreases |es|
  {
    if es != [] {
      StepKeepsAhead(s, es[0], a, b);
      assert forall i | 0 <= i < |es| - 1 :: es[1..][i] == es[i + 1];
      WaitersKeepTheirOrder(Step(s, es[0]), es[1..], a, b);
    }
  }

  /** A call that suspends comes after everybody who already waits. */
  lemma NewcomersGoLast<T>(s: State<T>, e: Event<T>, a: CallId)
    requires Enabled(s, e) && Distinct(s) && (e.Recv? || e.Resume?) && Result(s, e).Suspended? && a in s.waiting
    ensures a != e.call && Before(Step(s, e).waiting, a, e.call)
  {
    var c := e.call;
    if e.Resume? {
      assert Calls(s)[c] <= 1;
      PollRegisters(Unpark(s, c), c);
    } else {
      PollRegisters(s, c);
    }
    var i :| 0 <= i < |s.waiting| && s.waiting[i] == a;
    var w := Step(s, e).waiting;
    assert w[i] == a && w[|w| - 1] == c;
  }

  lemma PollRegisters<T>(s: State<T>, c: CallId)
    ensures Poll(s, c).1.Suspended? ==> Poll(s, c).0.waiting == s.waiting + [c]
    decreases s.permit
  {
    if s.permit {
      PollRegisters(s.(permit := false), c);
    }
  }

  /** Closing stores nothing: a call that waited and is dropped after the close wakes nobody in its place. */
  lemma ClosingStoresNothing<T>(s: State<T>, c: CallId)
    requires Distinct(s) && c in s.waiting
    ensures var t := Step(s, Event<T>.Close);
            && Enabled(t, Cancel(c)) && t.permit == s.permit
            && Step(t, Cancel(c)).permit == s.permit && Step(t, Cancel(c)).woken == s.woken
  {
    assert Calls(s)[c] <= 1;
  }

  // ------------------------------------------------------------------
  // Exactly-once delivery in order
  // ------------------------------------------------------------------

  function SentBy<T>(e: Event<T>): seq<T> {
    match e
    case Send(x) => [x]
    case SendAll(xs) => xs
    case _ => []
  }

  function Sent<T>(es: seq<Event<T>>): seq<T> {
    if es == [] then [] else SentBy(es[0]) + Sent(es[1..])
  }

  function DeliveredBy<T>(s: State<T>, e: Event<T>): seq<T>
    requires Enabled(s, e)
  {
    var r := Result(s, e);
    if r.Item? then [r.item] else []
  }

  function Delivered<T>(s: State<T>, es: seq<Event<T>>): seq<T>
    requires IsRun(s, es)
    decreases |es|
  {
    if es == [] then [] else DeliveredBy(s, es[0]) + Delivered(Step(s, es[0]), es[1..])
  }

  ghost predicate RemovesNothing<T>(es: seq<Event<T>>) {
    forall i | 0 <= i < |es| :: !es[i].Retain? && !es[i].Drain? && !es[i].DrainAll?
  }

  /** The items one step adds to, and hands out from, the queue. */
  lemma StepItems<T>(s: State<T>, e: Event<T>)
    requires Enabled(s, e) && !e.Retain? && !e.Drain? && !e.DrainAll?
    ensures s.items + SentBy(e) == DeliveredBy(s, e) + Step(s, e).items
  {
    match e
    case Recv(c) => PollOutcome(s, c);
    case Resume(c) => PollOutcome(Unpark(s, c), c);
    case Cancel(c) =>
    case Send(x) =>
    case SendAll(xs) => NotifyTimesFrame(s.(items := s.items + xs, count := |s.items + xs|), |xs|);
    case Close =>
  }

  /** Whatever the interleaving, items come out once each, in the order they were sent. */
  lemma {:induction false} DeliveryIsFifo<T>(s: State<T>, es: seq<Event<T>>)
    requires IsRun(s, es) && RemovesNothing(es)
    ensures s.items + Sent(es) == Delivered(s, es) + Exec(s, es).items
    decreases |es|
  {
    if es != [] {
      var t, rest := Step(s, es[0]), es[1..];
      DeliveryIsFifo(t, rest);
      StepItems(s, es[0]);
      var end := Exec(s, es).items;
      SplitJoin(s.items, SentBy(es[0]), Sent(rest), DeliveredBy(s, es[0]), t.items, Delivered(t, rest), end);
    }
  }

  /** Chains two steps of the conservation equation. */
  lemma SplitJoin<T>(i: seq<T>, s: seq<T>, s': seq<T>, d: seq<T>, j: seq<T>, d': seq<T>, k: seq<T>)
    requires i + s == d + j && j + s' == d' + k
    ensures i + (s + s') == (d + d') + k
  {
    assert i + (s + s') == (i + s) + s' == d + (j + s') == (d + d') + k;
  }

  // ------------------------------------------------------------------
  // Admission control of the worker queue
  // ------------------------------------------------------------------

  /** `WorkerQueue::recv` refuses a new call when more than `limit` calls are counted as waiting. */
  predicate Admits<T>(s: State<T>, limit: nat) {
    s.pending <= limit
  }

  /** Runs in which every call that starts was admitted. */
  predicate IsAdmittedRun<T>(s: State<T>, es: seq<Event<T>>, limit: nat)
    decreases |es|
  {
    es == [] ||
    (Enabled(s, es[0]) && (es[0].Recv? ==> Admits(s, limit)) && IsAdmittedRun(Step(s, es[0]), es[1..], limit))
  }

  lemma {:induction false} AdmittedRunIsRun<T>(s: State<T>, es: seq<Event<T>>, limit: nat)
    requires IsAdmittedRun(s, es, limit)
    ensures IsRun(s, es)
    decreases |es|
  {
    if es != [] {
      AdmittedRunIsRun(Step(s, es[0]), es[1..], limit);
    }
  }

  /** How one step moves the two counters: `cancelled` never goes down. */
  lemma StepCounters<T>(s: State<T>, e: Event<T>)
    requires Enabled(s, e)
    ensures Step(s, e).pending <= s.pending + (if e.Recv? then 1 else 0)
    ensures Step(s, e).cancelled == s.cancelled + (if e.Cancel? then 1 else 0)
  {
    match e
    case Recv(c) => PollOutcome(s, c);
    case Resume(c) => PollOutcome(Unpark(s, c), c);
    case SendAll(xs) => NotifyTimesFrame(s.(items := s.items + xs, count := |s.items + xs|), |xs|);
    case _ =>
  }

  /** For a fixed limit the waiter count exceeds it by at most one, in every run. */
  lemma {:induction false} PendingIsBounded<T>(s: State<T>, es: seq<Event<T>>, limit: nat)
    requires s.pending <= limit + 1 && IsAdmittedRun(s, es, limit)
    ensures IsRun(s, es) && Exec(s, es).pending <= limit + 1
    decreases |es|
  {
    AdmittedRunIsRun(s, es, limit);
    if es != [] {
      StepCounters(s, es[0]);
      PendingIsBounded(Step(s, es[0]), es[1..], limit);
    }
  }

  /** A dropped call is counted for ever: after more than `limit` of them no call is ever admitted again. */
  lemma {:induction false} CancelledCallsStarveTheQueue<T>(s: State<T>, es: seq<Event<T>>, limit: nat)
    requires Inv(s) && s.cancelled > limit && IsAdmittedRun(s, es, limit)
    ensures IsRun(s, es) && !Admits(Exec(s, es), limit)
    ensures forall i | 0 <= i < |es| :: !es[i].Recv?
    decreases |es|
  {
    AdmittedRunIsRun(s, es, limit);
    if es != [] {
      StepKeepsInv(s, es[0]);
      StepCounters(s, es[0]);
      CancelledCallsStarveTheQueue(Step(s, es[0]), es[1..], limit);
    }
  }

  // ------------------------------------------------------------------
  // Recovery: everybody who waits is served
  // ------------------------------------------------------------------

  /** Enough items for everybody who waits. */
  function Enough<T>(s: State<T>, x: T): seq<T> {
    seq(|s.waiting| + |s.woken|, _ => x)
  }

  lemma {:induction false} NotifyTimesWakesAll<T>(s: State<T>, n: nat)
    requires n >= |s.waiting|
    ensures NotifyTimes(s, n).waiting == [] && NotifyTimes(s, n).woken == s.woken + s.waiting
    ensures NotifyTimes(s, n).released == s.released
    decreases n
  {
    if n > 0 {
      NotifyTimesWakesAll(NotifyOne(s), n - 1);
    }
  }

  /** Nobody is left un-notified, and everybody notified gets an item or the news that the queue is closed. */
  ghost predicate AllServable<T>(s: State<T>) {
    s.waiting == [] && (s.closed || |s.items| >= |s.woken| + |s.released|)
  }

  /** Resumes everybody who is notified, one after the other. */
  lemma {:induction false} ResumeAll<T>(s: State<T>, limit: nat) returns (es: seq<Event<T>>)
    requires AllServable(s) && WaitersCounted(s)
    ensures IsAdmittedRun(s, es, limit) && IsRun(s, es)
    ensures var t := Exec(s, es); t.pending == t.cancelled == s.cancelled && t.closed == s.closed
    decreases |s.woken| + |s.released|
  {
    if s.woken == [] && s.released == [] {
      es := [];
    } else {
      var c := if s.woken != [] then s.woken[0] else s.released[0];
      var t := Step(s, Resume(c));
      PollOutcome(Unpark(s, c), c);
      RemoveLength(s.woken, c);
      RemoveLength(s.released, c);
      var more := ResumeAll(t, limit);
      es := [Resume(c)] + more;
      assert es[1..] == more;
    }
  }

  /** From every state of the invariant some continuation serves everybody: only dropped calls stay counted. */
  lemma EverybodyCanBeServed<T>(s: State<T>, limit: nat, x: T) returns (es: seq<Event<T>>)
    requires Inv(s)
    ensures IsAdmittedRun(s, es, limit) && IsRun(s, es)
    ensures var t := Exec(s, es); t.pending == t.cancelled == s.cancelled && t.closed == s.closed
  {
    if s.closed {
      es := ResumeAll(s, limit);
    } else {
      var xs := Enough(s, x);
      var pushed := s.(items := s.items + xs, count := |s.items + xs|);
      NotifyTimesWakesAll(pushed, |xs|);
      NotifyTimesFrame(pushed, |xs|);
      StepKeepsInv(s, SendAll(xs));
      var t := Step(s, SendAll(xs));
      var more := ResumeAll(t, limit);
      es := [SendAll(xs)] + more;
      assert es[1..] == more;
    }
  }

  /**
  Starvation, exactly: no admitted continuation ever admits a new call again if and only if more
  than `limit` calls have been dropped while they waited.
   */
  lemma StarvedIffCancelledExceedLimit<T>(s: State<T>, limit: nat, x: T)
    requires Inv(s)
    ensures s.cancelled > limit <==>
              forall es :: IsAdmittedRun(s, es, limit) ==> IsRun(s, es) && !Admits(Exec(s, es), limit)
  {
    if s.cancelled > limit {
      forall es | IsAdmittedRun(s, es, limit)
        ensures IsRun(s, es) && !Admits(Exec(s, es), limit)
      {
        CancelledCallsStarveTheQueue(s, es, limit);
      }
    } else {
      var es := EverybodyCanBeServed(s, limit, x);
      assert IsAdmittedRun(s, es, limit) && Admits(Exec(s, es), limit);
    }
  }

  /** One call that starts on the empty queue and is dropped, `n` times over. */
  function DroppedCalls<T>(n: nat): seq<Event<T>> {
    if n == 0 then [] else [Recv(0), Cancel(0)] + DroppedCalls(n - 1)
  }

  lemma {:induction false} DroppedCallsLeak<T>(s: State<T>, n: nat, limit: nat)
    requires s.items == [] && !s.permit && !s.closed && s.waiting == [] && s.woken == [] && s.released == []
    requires s.pending == s.cancelled && s.cancelled + n <= limit + 1
    ensures IsAdmittedRun(s, DroppedCalls<T>(n), limit) && IsRun(s, DroppedCalls<T>(n))
    ensures Exec(s, DroppedCalls<T>(n)) == s.(pending := s.pending + n, cancelled := s.cancelled + n)
    decreases n
  {
    if n > 0 {
      var es: seq<Event<T>> := DroppedCalls(n);
      var parked := Step(s, es[0]);
      assert es[1..][0] == Cancel(0) && es[1..][1..] == DroppedCalls<T>(n - 1);
      assert parked == s.(pending := s.pending + 1, waiting := [0]);
      var dropped := Step(parked, es[1]);
      assert dropped == s.(pending := s.pending + 1, cancelled := s.cancelled + 1);
      DroppedCallsLeak(dropped, n - 1, limit);
    }
  }

  /**
  For every limit there is an admitted run after which a worker sits idle in the queue, nobody is
  waiting, and yet every new call is refused.
   */
  lemma StarvationIsReachable<T>(limit: nat, worker: T)
    ensures var es: seq<Event<T>> := DroppedCalls<T>(limit + 1);
            && IsAdmittedRun(Init<T>(), es, limit) && IsRun(Init<T>(), es)
            && var s := Push(Exec(Init<T>(), es), worker);
               s.items == [worker] && s.waiting + s.woken + s.released == [] && !Admits(s, limit)
  {
    DroppedCallsLeak(Init<T>(), limit + 1, limit);
  }

  // ------------------------------------------------------------------
  // The queue object
  // ------------------------------------------------------------------

  class Queue<T> {
    var items: seq<T>
    var permit: bool
    var waiting: seq<CallId>
    var woken: seq<CallId>
    var released: seq<CallId>
    var closed: bool
    var count: int
    var pending: int
    ghost var cancelled: nat

    ghost function View(): State<T>
      reads this
    {
      State(items, permit, waiting, woken, released, closed, count, pending, cancelled)
    }

    constructor ()
      ensures View() == Init<T>() && Inv(View())
    {
      items, permit, closed := [], false, false;
      waiting, woken, released := [], [], [];
      count, pending, cancelled := 0, 0, 0;
    }

    /** The loop of `recv` for a call that is not registered with the notifier. */
    method PollLoop(call: CallId) returns (r: Outcome<T>)
      modifies this
      ensures (View(), r) == Poll(old(View()), call)
    {
      while true
        invariant permit ==> View() == old(View())
        invariant Poll(View(), call) == Poll(old(View()), call)
        decreases permit
      {
        if closed {
          return QueueIsClosed;
        }
        if items != [] {
          r := Item(items[0]);
          items := items[1..];
          count := count - 1;
          return;
        }
        pending := pending + 1;
        if !permit {
          waiting := waiting + [call];
          return Suspended;
        }
        permit := false;
        pending := pending - 1;
      }
    }

    method StartRecv(call: CallId) returns (r: Outcome<T>)
      requires Inv(View()) && Enabled(View(), Recv(call))
      modifies this
      ensures View() == Step(old(View()), Recv(call)) && r == Result(old(View()), Recv(call))
      ensures Inv(View())
    {
      StepKeepsInv(View(), Recv(call));
      r := PollLoop(call);
    }

    method ResumeRecv(call: CallId) returns (r: Outcome<T>)
      requires Inv(View()) && Enabled(View(), Resume(call))
      modifies this
      ensures View() == Step(old(View()), Resume(call)) && r == Result(old(View()), Resume(call))
      ensures Inv(View())
    {
      StepKeepsInv(View(), Resume(call));
      if call in woken {
        woken := Remove(woken, call);
      } else {
        released := Remove(released, call);
      }
      pending := pending - 1;
      r := PollLoop(call);
    }

    method DropRecv(call: CallId)
      requires Inv(View()) && Enabled(View(), Cancel(call))
      modifies this
      ensures View() == Step(old(View()), Cancel(call)) && Inv(View())
      ensures Calls(View()) == Calls(old(View())) - multiset{call}
    {
      StepKeepsInv(View(), Cancel(call));
      StepCalls(View(), Cancel(call));
      cancelled := cancelled + 1;
      if call in waiting {
        waiting := Remove(waiting, call);
      } else if call in woken {
        woken := Remove(woken, call);
        NotifyOneWaiter();
      } else {
        released := Remove(released, call);
      }
    }

    method NotifyOneWaiter()
      modifies `permit, `waiting, `woken
      ensures View() == NotifyOne(old(View()))
    {
      if waiting == [] {
        permit := true;
      } else {
        woken := woken + [waiting[0]];
        waiting := waiting[1..];
      }
    }

    method SendItem(item: T)
      requires Inv(View())
      modifies this
      ensures View() == Step(old(View()), Send(item)) && Inv(View())
    {
      StepKeepsInv(View(), Send(item));
      items := items + [item];
      count := count + 1;
      NotifyOneWaiter();
    }

    method SendItems(xs: seq<T>)
      requires Inv(View())
      modifies this
      ensures View() == Step(old(View()), SendAll(xs)) && Inv(View())
    {
      StepKeepsInv(View(), SendAll(xs));
      items := items + xs;
      count := |items|;
      var left := |xs|;
      while left > 0
        invariant left >= 0 && NotifyTimes(View(), left) == PushAll(old(View()), xs)
      {
        NotifyOneWaiter();
        left := left - 1;
      }
    }

    /** Returns the number of elements removed. */
    method RetainItems(keep: seq<bool>) returns (removed: nat)
      requires Inv(View()) && |keep| == |items|
      modifies this
      ensures View() == Step(old(View()), Retain(keep)) && Inv(View())
      ensures removed + |items| == |old(items)|
      ensures forall i | 0 <= i < |keep| :: keep[i] ==> Rank(keep, i) < |items| && items[Rank(keep, i)] == old(items)[i]
    {
      StepKeepsInv(View(), Retain(keep));
      KeptShrinks(items, keep);
      forall i | 0 <= i < |keep| && keep[i]
        ensures Rank(keep, i) < |Kept(items, keep)| && Kept(items, keep)[Rank(keep, i)] == items[i]
      {
        KeptAt(items, keep, i);
      }
      var initial := |items|;
      items := RetainLoop(items, keep);
      count := |items|;
      removed := initial - |items|;
    }

    static method RetainLoop(all: seq<T>, keep: seq<bool>) returns (kept: seq<T>)
      requires |keep| == |all|
      ensures kept == Kept(all, keep)
    {
      kept := [];
      var i := 0;
      while i < |all|
        invariant 0 <= i <= |all|
        invariant Kept(all, keep) == kept + Kept(all[i..], keep[i..])
      {
        KeptFrom(all, keep, i);
        if keep[i] {
          kept := kept + [all[i]];
        }
        i := i + 1;
      }
    }

    /** Removes at most `n` elements from the front. */
    method DrainItems(n: nat) returns (taken: seq<T>)
      requires Inv(View())
      modifies this
      ensures View() == Step(old(View()), Drain(n)) && Inv(View())
      ensures taken + items == old(items) && |taken| <= n && (|taken| == n || items == [])
    {
      StepKeepsInv(View(), Drain(n));
      var k := Min(n, |items|);
      taken := items[..k];
      items := items[k..];
      count := |items|;
    }

    method CloseQueue()
      requires Inv(View())
      modifies this
      ensures View() == Step(old(View()), Event<T>.Close) && Inv(View())
    {
      StepKeepsInv(View(), Event<T>.Close);
      closed := true;
      released := released + waiting;
      waiting := [];
    }
  }
}
