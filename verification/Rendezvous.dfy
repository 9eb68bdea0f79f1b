/**
The rendez-vous between a worker and its child process: a FIFO on which the child announces
READY (0) and BUSY (1), and the draining of the child's output pipe that relies on it.
 */
module Rendezvous {

  const READY: nat := 0
  const BUSY: nat := 1
  const MAX_EOF_RETURN: nat := 10

  // ------------------------------------------------------------------
  // The child side
  // ------------------------------------------------------------------

  datatype Call = CallBusy | CallDone

  /** What the child has written, and the state it believes it announced. */
  datatype ChildSide = ChildSide(busy: bool, written: seq<nat>)

  function Announce(c: ChildSide, call: Call): ChildSide {
    match call
    case CallBusy => if c.busy then c else ChildSide(true, c.written + [BUSY])
    case CallDone => if c.busy then ChildSide(false, c.written + [READY]) else c
  }

  function AnnounceAll(c: ChildSide, calls: seq<Call>): ChildSide {
    if calls == [] then c else Announce(AnnounceAll(c, calls[..|calls| - 1]), calls[|calls| - 1])
  }

  /** The bytes alternate, starting with READY. */
  predicate Alternates(bytes: seq<nat>) {
    forall k | 0 <= k < |bytes| :: bytes[k] == k % 2
  }

  /** Whatever the child calls, and however often, its bytes alternate 0, 1, 0, 1, ... */
  lemma {:induction false} ChildBytesAlternate(calls: seq<Call>)
    ensures var c := AnnounceAll(ChildSide(true, []), calls);
            Alternates(c.written) && (c.busy <==> |c.written| % 2 == 0)
  {
    if calls != [] {
      ChildBytesAlternate(calls[..|calls| - 1]);
    }
  }

  class ChildRendezVous {
    var isBusy: bool
    var fd: seq<nat>

    ghost function View(): ChildSide
      reads this
    {
      ChildSide(isBusy, fd)
    }

    ghost predicate Valid()
      reads this
    {
      Alternates(fd) && (isBusy <==> |fd| % 2 == 0)
    }

    constructor ()
      ensures Valid() && View() == ChildSide(true, [])
    {
      isBusy, fd := true, [];
    }

    method Busy()
      requires Valid()
      modifies this
      ensures Valid() && View() == Announce(old(View()), CallBusy)
    {
      if !isBusy {
        isBusy := true;
        fd := fd + [BUSY];
      }
    }

    method Done()
      requires Valid()
      modifies this
      ensures Valid() && View() == Announce(old(View()), CallDone)
    {
      if isBusy {
        isBusy := false;
        fd := fd + [READY];
      }
    }
  }

  // ------------------------------------------------------------------
  // The parent side
  // ------------------------------------------------------------------

  /** What a non-blocking read of one byte returns; `IoError` is any error other than would-block. */
  datatype Input = Byte(b: nat) | EndOfFile | WouldBlock | IoError

  /** `waiting` counts the calls suspended in `wait_ready`. */
  datatype Listener = Listener(busy: bool, eof: nat, running: bool, waiting: nat)

  function Hear(l: Listener, i: Input): Listener {
    if !l.running then l else
    match i
    case EndOfFile =>
      if l.eof + 1 > MAX_EOF_RETURN then l.(eof := l.eof + 1, busy := true, running := false)
      else l.(eof := l.eof + 1)
    case Byte(b) =>
      if b == READY then l.(eof := 0, busy := false, waiting := 0)
      else if b == BUSY then l.(eof := 0, busy := true)
      else l
    case WouldBlock => l.(eof := 0)
    case IoError => l.(running := false)
  }

  function HearAll(l: Listener, inputs: seq<Input>): Listener {
    if inputs == [] then l else Hear(HearAll(l, inputs[..|inputs| - 1]), inputs[|inputs| - 1])
  }

  const Fresh: Listener := Listener(true, 0, true, 0)

  function Bytes(inputs: seq<Input>): seq<nat> {
    if inputs == [] then []
    else Bytes(inputs[..|inputs| - 1]) +
         (var i := inputs[|inputs| - 1]; if i.Byte? then [i.b] else [])
  }

  /** End-of-file reads since the last byte or would-block. */
  function TrailingEofs(inputs: seq<Input>): nat {
    if inputs == [] then 0
    else match inputs[|inputs| - 1]
         case EndOfFile => TrailingEofs(inputs[..|inputs| - 1]) + 1
         case Byte(b) => if b == READY || b == BUSY then 0 else TrailingEofs(inputs[..|inputs| - 1])
         case WouldBlock => 0
         case IoError => 0
  }

  ghost predicate LostPeer(inputs: seq<Input>) {
    exists n | 0 <= n <= |inputs| :: TrailingEofs(inputs[..n]) > MAX_EOF_RETURN
  }

  /** The listener ends exactly when it reads more than ten consecutive ends of file, or an I/O error. */
  lemma {:induction false} ListenerStopsIffPeerLost(inputs: seq<Input>)
    ensures !HearAll(Fresh, inputs).running <==> LostPeer(inputs) || IoError in inputs
    ensures HearAll(Fresh, inputs).running ==> HearAll(Fresh, inputs).eof == TrailingEofs(inputs)
    decreases |inputs|
  {
    if inputs == [] {
      assert inputs[..0] == [];
    } else {
      var m := |inputs| - 1;
      ListenerStopsIffPeerLost(inputs[..m]);
      assert inputs[..|inputs|] == inputs && inputs == inputs[..m] + [inputs[m]];
      assert forall n | 0 <= n <= m :: inputs[..m][..n] == inputs[..n];
      assert LostPeer(inputs) <==> LostPeer(inputs[..m]) || TrailingEofs(inputs) > MAX_EOF_RETURN;
    }
  }

  /** Losing the peer leaves the flag BUSY for good; an I/O error leaves it as it was, READY included. */
  lemma {:induction false} FlagAfterTheEnd(inputs: seq<Input>, last: Input, later: seq<Input>)
    requires HearAll(Fresh, inputs).running && !Hear(HearAll(Fresh, inputs), last).running
    ensures HearAll(Fresh, inputs + [last] + later).busy == (last.EndOfFile? || HearAll(Fresh, inputs).busy)
    ensures !HearAll(Fresh, inputs + [last] + later).running
    decreases |later|
  {
    var all := inputs + [last] + later;
    if later == [] {
      assert all[..|all| - 1] == inputs;
    } else {
      assert all[..|all| - 1] == inputs + [last] + later[..|later| - 1];
      FlagAfterTheEnd(inputs, last, later[..|later| - 1]);
    }
  }

  /** While it runs, the flag after `k` alternating bytes is READY iff `k` is odd. */
  lemma {:induction false} FlagFollowsParity(inputs: seq<Input>)
    requires Alternates(Bytes(inputs)) && HearAll(Fresh, inputs).running
    ensures !HearAll(Fresh, inputs).busy <==> |Bytes(inputs)| % 2 == 1
    decreases |inputs|
  {
    if inputs != [] {
      var init, last := inputs[..|inputs| - 1], inputs[|inputs| - 1];
      assert forall k | 0 <= k < |Bytes(init)| :: Bytes(init)[k] == Bytes(inputs)[k];
      FlagFollowsParity(init);
      if last.Byte? {
        assert Bytes(inputs)[|Bytes(init)|] == last.b;
      }
    }
  }

  /** End to end: any calls of the child, any prefix of its bytes read, any would-block in between. */
  lemma ParentAgreesWithChild(calls: seq<Call>, inputs: seq<Input>)
    requires Bytes(inputs) <= AnnounceAll(ChildSide(true, []), calls).written
    requires HearAll(Fresh, inputs).running
    ensures !HearAll(Fresh, inputs).busy <==> |Bytes(inputs)| % 2 == 1
    ensures Bytes(inputs) == AnnounceAll(ChildSide(true, []), calls).written ==>
              HearAll(Fresh, inputs).busy == AnnounceAll(ChildSide(true, []), calls).busy
  {
    ChildBytesAlternate(calls);
    FlagFollowsParity(inputs);
  }

  class RendezVousListener {
    var state: bool
    var eof: nat
    var running: bool
    var waiting: nat

    ghost function View(): Listener
      reads this
    {
      Listener(state, eof, running, waiting)
    }

    /** A call is suspended in `wait_ready` only while the flag is BUSY. */
    ghost predicate Valid()
      reads this
    {
      waiting > 0 ==> state
    }

    constructor ()
      ensures View() == Fresh && Valid()
    {
      state, eof, running, waiting := true, 0, true, 0;
    }

    /** The listener task, fed with the results of its reads. */
    method Listen(inputs: seq<Input>)
      requires Valid()
      modifies this
      ensures View() == HearAll(old(View()), inputs) && Valid()
    {
      var i := 0;
      while i < |inputs|
        invariant 0 <= i <= |inputs|
        invariant View() == HearAll(old(View()), inputs[..i]) && Valid()
      {
        assert inputs[..i + 1][..i] == inputs[..i];
        if running {
          match inputs[i] {
            case EndOfFile =>
              eof := eof + 1;
              if eof > MAX_EOF_RETURN {
                state := true;
                running := false;
              }
            case Byte(b) =>
              if b == READY {
                eof := 0;
                state := false;
                waiting := 0;
              } else if b == BUSY {
                eof := 0;
                state := true;
              }
            case WouldBlock =>
              eof := 0;
            case IoError =>
              running := false;
          }
        }
        i := i + 1;
      }
      assert inputs[..|inputs|] == inputs;
    }

    /** Returns true when the caller goes on at once, false when it is suspended. */
    method WaitReady() returns (atOnce: bool)
      requires Valid()
      modifies `waiting
      ensures Valid() && atOnce == !state && waiting == old(waiting) + if atOnce then 0 else 1
    {
      atOnce := !state;
      if !atOnce {
        waiting := waiting + 1;
      }
    }
  }

  // ------------------------------------------------------------------
  // Draining the output pipe
  // ------------------------------------------------------------------

  /**
  Where `drain_until_task_done` is.  `Blocking` is inside `drain_blocking`; `Unblocked` is after
  that thread saw the pipe empty and before the readiness check.  `late` counts the bytes the
  child wrote in that gap.
   */
  datatype Drainer = Off | Looping | Blocking | Unblocked(late: nat) | Stopped(late: nat)

  /** `wire` holds the rendez-vous bytes in flight (true is BUSY), `out` the bytes in the pipe. */
  datatype Proto = Proto(
    inbox: nat, childBusy: bool, wire: seq<bool>, flagBusy: bool, out: nat, drainer: Drainer)

  datatype Event =
    | Receive
    | Write(n: nat)
    | Finish
    | Consume
    | SendMessage
    | ReadOutput(n: nat)
    | BeginDrain
    | Pass
    | BlockingRead(n: nat)
    | BlockingEnd
    | BlockingReturn
    | EndDrain

  function Idle(): Proto {
    Proto(0, false, [], false, 0, Off)
  }

  predicate Enabled(s: Proto, e: Event) {
    match e
    case Receive => s.inbox > 0 && !s.childBusy
    case Write(n) => s.childBusy && n > 0
    case Finish => s.childBusy
    case Consume => s.wire != []
    case SendMessage => s.drainer.Off?
    case ReadOutput(n) => s.drainer.Off? && 0 < n <= s.out
    case BeginDrain => s.drainer.Off?
    case Pass => s.drainer.Looping?
    case BlockingRead(n) => s.drainer.Blocking? && 0 < n <= s.out
    case BlockingEnd => s.drainer.Blocking? && s.out == 0
    case BlockingReturn => s.drainer.Unblocked?
    case EndDrain => s.drainer.Stopped?
  }

  function Step(s: Proto, e: Event): Proto
    requires Enabled(s, e)
  {
    match e
    case Receive => s.(inbox := s.inbox - 1, childBusy := true, wire := s.wire + [true])
    case Write(n) =>
      s.(out := s.out + n,
         drainer := match s.drainer
                    case Unblocked(l) => Unblocked(l + n)
                    case Stopped(l) => Stopped(l + n)
                    case d => d)
    case Finish => s.(childBusy := false, wire := s.wire + [false])
    case Consume => s.(flagBusy := s.wire[0], wire := s.wire[1..])
    case SendMessage => s.(inbox := s.inbox + 1)
    case ReadOutput(n) => s.(out := s.out - n)
    case BeginDrain => s.(drainer := Looping)
    case Pass =>
      if s.out > 0 then s.(out := s.out - 1, drainer := Blocking)
      else if s.flagBusy then s
      else s.(drainer := Stopped(0))
    case BlockingRead(n) => s.(out := s.out - n)
    case BlockingEnd => s.(drainer := Unblocked(0))
    case BlockingReturn => if s.flagBusy then s.(drainer := Looping) else s.(drainer := Stopped(s.drainer.late))
    case EndDrain => s.(drainer := Off)
  }

  predicate IsRun(s: Proto, es: seq<Event>)
    decreases |es|
  {
    es == [] || (Enabled(s, es[0]) && IsRun(Step(s, es[0]), es[1..]))
  }

  function Exec(s: Proto, es: seq<Event>): Proto
    requires IsRun(s, es)
    decreases |es|
  {
    if es == [] then s else Exec(Step(s, es[0]), es[1..])
  }

  /** The drain is not over before the run is. */
  ghost predicate WithinDrain(es: seq<Event>) {
    forall i | 0 <= i < |es| :: !es[i].EndDrain?
  }

  ghost predicate Reaches(s: Proto, es: seq<Event>, t: Proto) {
    IsRun(s, es) && WithinDrain(es) && Exec(s, es) == t
  }

  /** Extends a run by one step at its end. */
  lemma {:induction false} Extend(s: Proto, es: seq<Event>, t: Proto, e: Event)
    requires Reaches(s, es, t) && Enabled(t, e) && !e.EndDrain?
    ensures Reaches(s, es + [e], Step(t, e))
    decreases |es|
  {
    if es == [] {
      assert es + [e] == [e] && [e][1..] == [];
    } else {
      assert (es + [e])[1..] == es[1..] + [e];
      assert WithinDrain(es[1..]) by {
        assert forall i | 0 <= i < |es| - 1 :: es[1..][i] == es[i + 1];
      }
      Extend(Step(s, es[0]), es[1..], t, e);
    }
  }

  /** Unfolds the first three steps of a run. */
  lemma RunThree(s: Proto, es: seq<Event>, t: Proto)
    requires |es| >= 3
    requires Enabled(s, es[0]) && Enabled(Step(s, es[0]), es[1]) && Enabled(Step(Step(s, es[0]), es[1]), es[2])
    requires t == Step(Step(Step(s, es[0]), es[1]), es[2])
    ensures IsRun(s, es) <==> IsRun(t, es[3..])
    ensures IsRun(s, es) ==> Exec(s, es) == Exec(t, es[3..])
  {
    assert es[1..][1..][1..] == es[3..];
    var s1 := Step(s, es[0]);
    var s2 := Step(s1, es[1]);
    assert IsRun(s2, es[1..][1..]) <==> IsRun(t, es[3..]);
    assert IsRun(s1, es[1..]) <==> IsRun(s2, es[1..][1..]);
    if IsRun(s, es) {
      assert Exec(s2, es[1..][1..]) == Exec(t, es[3..]);
      assert Exec(s1, es[1..]) == Exec(s2, es[1..][1..]);
    }
  }

  /** From the parent's flag through the bytes in flight to the child's state, the values alternate. */
  predicate Chained(s: Proto) {
    && (forall k | 0 <= k < |s.wire| :: s.wire[k] == (s.flagBusy == (k % 2 == 1)))
    && s.childBusy == (s.flagBusy == (|s.wire| % 2 == 0))
  }

  lemma StepKeepsChain(s: Proto, e: Event)
    requires Chained(s) && Enabled(s, e)
    ensures Chained(Step(s, e))
  {
  }

  lemma {:induction false} RunKeepsChain(s: Proto, es: seq<Event>)
    requires Chained(s) && IsRun(s, es)
    ensures Chained(Exec(s, es))
    decreases |es|
  {
    if es != [] {
      StepKeepsChain(s, es[0]);
      RunKeepsChain(Step(s, es[0]), es[1..]);
    }
  }

  /** Every message sent was received, and its BUSY was consumed: none is in flight. */
  predicate LastBusyConsumed(s: Proto) {
    s.inbox == 0 && true !in s.wire
  }

  lemma FirstByteInFlight(s: Proto)
    requires Chained(s) && s.wire != []
    ensures !s.flagBusy in s.wire
  {
    assert s.wire[0] == !s.flagBusy;
  }

  /** With the last BUSY consumed, a READY flag means the child is idle. */
  lemma ReadyFlagMeansIdleChild(s: Proto)
    requires Chained(s) && LastBusyConsumed(s) && !s.flagBusy
    ensures s.wire == [] && !s.childBusy
  {
    if s.wire != [] {
      FirstByteInFlight(s);
      assert false;
    }
  }

  predicate DrainInv(s: Proto) {
    && Chained(s) && LastBusyConsumed(s)
    && (s.drainer.Unblocked? ==> s.out == s.drainer.late)
    && (s.drainer.Stopped? ==> s.out == s.drainer.late && !s.flagBusy)
    && !s.drainer.Off?
  }

  lemma StepKeepsDrainInv(s: Proto, e: Event)
    requires DrainInv(s) && Enabled(s, e) && !e.EndDrain?
    ensures DrainInv(Step(s, e))
  {
    StepKeepsChain(s, e);
    if !s.flagBusy {
      ReadyFlagMeansIdleChild(s);
    }
  }

  /**
  In every run of a drain that starts with the last BUSY consumed, when the loop stops the pipe
  holds exactly what the child wrote between the last empty blocking read and the readiness
  check; a pass that did not enter the blocking drain leaves it empty, for good.
   */
  lemma {:induction false} StoppedDrainLeavesLateBytes(s: Proto, es: seq<Event>)
    requires DrainInv(s) && IsRun(s, es)
    requires WithinDrain(es)
    ensures var t := Exec(s, es);
            && DrainInv(t)
            && (t.drainer.Stopped? ==> t.out == t.drainer.late && !t.childBusy && t.wire == [])
    decreases |es|
  {
    if es == [] {
      if s.drainer.Stopped? {
        ReadyFlagMeansIdleChild(s);
      }
    } else {
      StepKeepsDrainInv(s, es[0]);
      assert forall i | 0 <= i < |es| - 1 :: es[1..][i] == es[i + 1];
      StoppedDrainLeavesLateBytes(Step(s, es[0]), es[1..]);
    }
  }

  /** The quick pass: it stops only on an empty pipe with nothing left to come. */
  lemma QuickPassStopsClean(es: seq<Event>)
    requires IsRun(Idle(), es)
    requires var s := Exec(Idle(), es); s.drainer.Looping? && LastBusyConsumed(s) && s.out == 0
    ensures var t := Step(Exec(Idle(), es), Pass);
            t.drainer.Stopped? ==> t.out == 0 && !t.childBusy && t.wire == [] && t.inbox == 0
  {
    RunKeepsChain(Idle(), es);
    var s := Exec(Idle(), es);
    if !s.flagBusy {
      ReadyFlagMeansIdleChild(s);
    }
  }

  /** Whatever happens during the drain, it stops only on an empty pipe. */
  ghost predicate AlwaysClean(s: Proto) {
    forall es :: IsRun(s, es) && WithinDrain(es) && Exec(s, es).drainer.Stopped? ==> Exec(s, es).out == 0
  }

  /** The child is idle with nothing to receive: what it wrote is in the pipe and no more will come. */
  predicate ChildIsDone(s: Proto) {
    !s.childBusy && s.inbox == 0
  }

  lemma {:induction false} DoneChildDrainsClean(s: Proto, es: seq<Event>)
    requires ChildIsDone(s) && !s.drainer.Off? && (s.drainer.Unblocked? || s.drainer.Stopped? ==> s.out == 0)
    requires IsRun(s, es) && WithinDrain(es)
    ensures Exec(s, es).drainer.Stopped? ==> Exec(s, es).out == 0
    decreases |es|
  {
    if es != [] {
      assert forall i | 0 <= i < |es| - 1 :: es[1..][i] == es[i + 1];
      DoneChildDrainsClean(Step(s, es[0]), es[1..]);
    }
  }

  /** The parent consumes everything in flight; its flag then shows the state of the child. */
  lemma {:induction false} ConsumeAll(s: Proto, es: seq<Event>, t: Proto) returns (all: seq<Event>)
    requires Reaches(s, es, t) && Chained(t)
    ensures Reaches(s, all, t.(wire := [], flagBusy := t.childBusy))
    decreases |t.wire|
  {
    all := es;
    if t.wire != [] {
      Extend(s, es, t, Consume);
      StepKeepsChain(t, Consume);
      all := ConsumeAll(s, es + [Consume], Step(t, Consume));
    }
  }

  /** A busy child in the middle of a drain: the blocking read empties the pipe, and data comes after it. */
  lemma BusyChildCanLeaveData(s: Proto, es: seq<Event>, t: Proto, n: nat) returns (all: seq<Event>, u: Proto)
    requires Reaches(s, es, t) && Chained(t) && t.drainer.Looping? && t.childBusy && n > 0
    ensures Reaches(s, all, u) && u.drainer == Stopped(n) && u.out == n
  {
    all, u := es, t;
    Extend(s, all, u, Write(1));
    all, u := all + [Write(1)], Step(u, Write(1));
    Extend(s, all, u, Pass);
    all, u := all + [Pass], Step(u, Pass);
    if u.out > 0 {
      Extend(s, all, u, BlockingRead(u.out));
      all, u := all + [BlockingRead(u.out)], Step(u, BlockingRead(u.out));
    }
    Extend(s, all, u, BlockingEnd);
    all, u := all + [BlockingEnd], Step(u, BlockingEnd);
    Extend(s, all, u, Write(n));
    all, u := all + [Write(n)], Step(u, Write(n));
    Extend(s, all, u, Finish);
    StepKeepsChain(u, Finish);
    all, u := all + [Finish], Step(u, Finish);
    all := ConsumeAll(s, all, u);
    u := u.(wire := [], flagBusy := u.childBusy);
    Extend(s, all, u, BlockingReturn);
    all, u := all + [BlockingReturn], Step(u, BlockingReturn);
  }

  /**
  The exact condition, in every state in which a drain can be: it always stops on an empty pipe,
  blocking passes included, if and only if the child is idle and has no message to receive.
   */
  lemma DrainIsCleanIffChildIsDone(s: Proto)
    requires Chained(s) && s.drainer.Looping?
    ensures AlwaysClean(s) <==> ChildIsDone(s)
  {
    if ChildIsDone(s) {
      forall es | IsRun(s, es) && WithinDrain(es) && Exec(s, es).drainer.Stopped?
        ensures Exec(s, es).out == 0
      {
        DoneChildDrainsClean(s, es);
      }
    } else {
      var es: seq<Event>, t := [], s;
      if !s.childBusy {
        Extend(s, es, t, Receive);
        StepKeepsChain(s, Receive);
        es, t := es + [Receive], Step(s, Receive);
      }
      var all, u := BusyChildCanLeaveData(s, es, t, 1);
      assert IsRun(s, all) && WithinDrain(all) && Exec(s, all).drainer.Stopped? && Exec(s, all).out == 1;
    }
  }

  /**
  What a caller can check: in every run, a drain that is begun on a READY flag after the last BUSY
  was consumed stops on an empty pipe.
   */
  lemma ReadyDrainIsClean(past: seq<Event>)
    requires IsRun(Idle(), past)
    requires var s := Exec(Idle(), past); s.drainer.Looping? && LastBusyConsumed(s) && !s.flagBusy
    ensures AlwaysClean(Exec(Idle(), past))
  {
    RunKeepsChain(Idle(), past);
    ReadyFlagMeansIdleChild(Exec(Idle(), past));
    DrainIsCleanIffChildIsDone(Exec(Idle(), past));
  }

  /**
  A drain begun on a busy child, its BUSY consumed, can stop with any amount of data in the pipe:
  a run from the idle state.
   */
  lemma BlockingPassCanLeaveData(n: nat) returns (begin: seq<Event>, all: seq<Event>)
    requires n > 0
    ensures IsRun(Idle(), begin) && begin <= all && IsRun(Idle(), all)
    ensures var s := Exec(Idle(), begin); s.drainer.Looping? && LastBusyConsumed(s) && s.flagBusy
    ensures Exec(Idle(), all).drainer == Stopped(n) && Exec(Idle(), all).out == n
  {
    begin := [SendMessage, Receive, Consume, BeginDrain];
    var sent := Step(Step(Step(Idle(), SendMessage), Receive), Consume);
    var s := Step(sent, BeginDrain);
    assert s == Proto(0, true, [], true, 0, Looping);
    RunThree(Idle(), begin, sent);
    assert begin[3..] == [BeginDrain] && [BeginDrain][1..] == [];
    assert IsRun(sent, [BeginDrain]) && Exec(sent, [BeginDrain]) == s;
    var rest, u := BusyChildCanLeaveData(s, [], s, n);
    RunAppend(Idle(), begin, rest);
    all := begin + rest;
  }

  lemma {:induction false} RunAppend(s: Proto, a: seq<Event>, b: seq<Event>)
    requires IsRun(s, a) && IsRun(Exec(s, a), b)
    ensures IsRun(s, a + b) && Exec(s, a + b) == Exec(Exec(s, a), b)
    decreases |a|
  {
    if a == [] {
      assert a + b == b;
    } else {
      assert (a + b)[1..] == a[1..] + b;
      RunAppend(Step(s, a[0]), a[1..], b);
    }
  }

  /** Before its BUSY is consumed, a message just sent is not seen: the drain stops at once on a stale READY. */
  lemma StaleReadyStopsTooEarly(n: nat)
    requires n > 0
    ensures var es := [SendMessage, BeginDrain, Pass];
            && IsRun(Idle(), es) && Exec(Idle(), es).drainer == Stopped(0)
            && var later := [Receive, Write(n)];
               IsRun(Exec(Idle(), es), later) && Exec(Exec(Idle(), es), later).out == n
  {
    var es := [SendMessage, BeginDrain, Pass];
    var s := Step(Step(Step(Idle(), es[0]), es[1]), es[2]);
    RunThree(Idle(), es, s);
    assert es[3..] == [];
    assert s == Proto(1, false, [], false, 0, Stopped(0));
    Extend(s, [], s, Receive);
    Extend(s, [] + [Receive], Step(s, Receive), Write(n));
    assert [] + [Receive] + [Write(n)] == [Receive, Write(n)];
  }
}
