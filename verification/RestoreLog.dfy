/**
The versioned restore log that resynchronises workers with the projects pulled so far and with
the latest configuration.
 */
module RestoreLog {
  import opened Wrappers

  type Uri = string
  type Config = string

  datatype CacheOp = Pull(uri: Uri) | Remove(uri: Uri) | Clear | Update

  datatype Entry = Entry(version: nat, op: CacheOp)

  /** `configAt` is the version at which `config` was set, 0 if it never was. */
  datatype Log = Log(update: nat, pulls: set<Uri>, configAt: nat, config: Config, states: seq<Entry>)

  datatype Action = Cache(op: CacheOp) | SetConfig(config: Config)

  // ------------------------------------------------------------------
  // Updating the log
  // ------------------------------------------------------------------

  function WithProjects(projects: set<Uri>): Log {
    Log(0, projects, 0, "", [])
  }

  function ApplyOp(cache: set<Uri>, op: CacheOp): set<Uri> {
    match op
    case Pull(u) => cache + {u}
    case Remove(u) => cache - {u}
    case Clear => {}
    case Update => cache
  }

  /** Pulling a pulled project, or removing one that is not, leaves no trace. */
  predicate IsNoop(r: Log, op: CacheOp) {
    (op.Pull? && op.uri in r.pulls) || (op.Remove? && op.uri !in r.pulls)
  }

  function UpdateCache(r: Log, op: CacheOp): Log {
    if IsNoop(r, op) then r
    else if op.Update? then r.(update := r.update + 1)
    else r.(update := r.update + 1,
            pulls := ApplyOp(r.pulls, op),
            states := (if op.Clear? then [] else r.states) + [Entry(r.update + 1, op)])
  }

  function UpdateConfig(r: Log, config: Config): Log {
    r.(update := r.update + 1, configAt := r.update + 1, config := config)
  }

  function Apply(r: Log, a: Action): Log {
    match a
    case Cache(op) => UpdateCache(r, op)
    case SetConfig(c) => UpdateConfig(r, c)
  }

  function History(r: Log, actions: seq<Action>): Log
    decreases |actions|
  {
    if actions == [] then r else Apply(History(r, actions[..|actions| - 1]), actions[|actions| - 1])
  }

  // ------------------------------------------------------------------
  // Well-formed logs
  // ------------------------------------------------------------------

  /** Versions strictly increase up to `update`; a Clear can only come first; no Update is logged. */
  ghost predicate WellFormed(r: Log) {
    && (forall i | 0 <= i < |r.states| :: 0 < r.states[i].version <= r.update)
    && (forall i, j | 0 <= i < j < |r.states| :: r.states[i].version < r.states[j].version)
    && (forall i | 0 <= i < |r.states| :: !r.states[i].op.Update? && (r.states[i].op.Clear? ==> i == 0))
    && r.configAt <= r.update
  }

  lemma ApplyKeepsWellFormed(r: Log, a: Action)
    requires WellFormed(r)
    ensures WellFormed(Apply(r, a)) && r.update <= Apply(r, a).update <= r.update + 1
    ensures Apply(r, a).update == r.update ==> Apply(r, a) == r
  {
  }

  lemma {:induction false} HistoryIsWellFormed(r: Log, actions: seq<Action>)
    requires WellFormed(r)
    ensures WellFormed(History(r, actions)) && r.update <= History(r, actions).update
    decreases |actions|
  {
    if actions != [] {
      HistoryIsWellFormed(r, actions[..|actions| - 1]);
      ApplyKeepsWellFormed(History(r, actions[..|actions| - 1]), actions[|actions| - 1]);
    }
  }

  // ------------------------------------------------------------------
  // What a log stands for
  // ------------------------------------------------------------------

  /** The argument of the last configuration update. */
  function LastConfig(actions: seq<Action>): Option<Config> {
    if actions == [] then None
    else
      var last := actions[|actions| - 1];
      if last.SetConfig? then Some(last.config) else LastConfig(actions[..|actions| - 1])
  }

  /** For every history, the log holds the configuration that was set last, and none before one is set. */
  lemma {:induction false} ConfigIsTheLastOneSet(projects: set<Uri>, actions: seq<Action>)
    ensures var r := History(WithProjects(projects), actions);
            && (r.configAt > 0 <==> LastConfig(actions).Some?)
            && (LastConfig(actions).Some? ==> r.config == LastConfig(actions).value)
    decreases |actions|
  {
    if actions != [] {
      ConfigIsTheLastOneSet(projects, actions[..|actions| - 1]);
    }
  }

  /** The last action that decides whether `u` is pulled says so; nothing said leaves it as `initially`. */
  function LastWord(initially: bool, actions: seq<Action>, u: Uri): bool {
    if actions == [] then initially
    else
      match actions[|actions| - 1]
      case Cache(Pull(v)) => v == u || LastWord(initially, actions[..|actions| - 1], u)
      case Cache(Remove(v)) => v != u && LastWord(initially, actions[..|actions| - 1], u)
      case Cache(Clear) => false
      case _ => LastWord(initially, actions[..|actions| - 1], u)
  }

  /** For every history, a project is pulled exactly when the last word on it was a pull. */
  lemma {:induction false} PullsAreTheLastWord(projects: set<Uri>, actions: seq<Action>, u: Uri)
    ensures u in History(WithProjects(projects), actions).pulls <==> LastWord(u in projects, actions, u)
    decreases |actions|
  {
    if actions != [] {
      PullsAreTheLastWord(projects, actions[..|actions| - 1], u);
    }
  }

  // ------------------------------------------------------------------
  // Replaying
  // ------------------------------------------------------------------

  /** The entries newer than version `v`, oldest first. */
  function Newer(states: seq<Entry>, v: nat): seq<CacheOp> {
    if states == [] then []
    else if states[|states| - 1].version <= v then []
    else Newer(states[..|states| - 1], v) + [states[|states| - 1].op]
  }

  /** Applies the operations oldest first. */
  function Forward(cache: set<Uri>, ops: seq<CacheOp>): set<Uri> {
    if ops == [] then cache else ApplyOp(Forward(cache, ops[..|ops| - 1]), ops[|ops| - 1])
  }

  /** Applies the operations newest first, which is the order of the worker update loop. */
  function Backward(cache: set<Uri>, ops: seq<CacheOp>): set<Uri> {
    if ops == [] then cache else ApplyOp(Backward(cache, ops[1..]), ops[0])
  }

  /** Every operation changes the cache it is applied to, except that Clear may find it empty. */
  ghost predicate Effective(cache: set<Uri>, ops: seq<CacheOp>) {
    ops == [] ||
    (var prev, op := Forward(cache, ops[..|ops| - 1]), ops[|ops| - 1];
     && Effective(cache, ops[..|ops| - 1])
     && (op.Pull? ==> op.uri !in prev)
     && (op.Remove? ==> op.uri in prev)
     && (op.Clear? ==> |ops| == 1)
     && !op.Update?)
  }

  /** What one more action does to the entries newer than a past version. */
  lemma NewerAfterApply(r: Log, a: Action, v: nat)
    requires WellFormed(r) && v <= r.update
    ensures var q := Apply(r, a);
            if q.pulls == r.pulls && q.states == r.states then true
            else a.Cache? && q.pulls == ApplyOp(r.pulls, a.op) && !a.op.Update?
                 && Newer(q.states, v) == (if a.op.Clear? then [] else Newer(r.states, v)) + [a.op]
                 && !IsNoop(r, a.op)
  {
    if a.Cache? && !IsNoop(r, a.op) && !a.op.Update? {
      var q := Apply(r, a);
      var n := |q.states| - 1;
      assert q.states[..n] == if a.op.Clear? then [] else r.states;
    }
  }

  /** The reader's view: extending the list of operations by one at the end. */
  lemma ForwardSnoc(cache: set<Uri>, ops: seq<CacheOp>, op: CacheOp)
    ensures Forward(cache, ops + [op]) == ApplyOp(Forward(cache, ops), op)
    ensures Effective(cache, ops + [op]) <==>
      && Effective(cache, ops)
      && (op.Pull? ==> op.uri !in Forward(cache, ops))
      && (op.Remove? ==> op.uri in Forward(cache, ops))
      && (op.Clear? ==> ops == [])
      && !op.Update?
  {
    assert (ops + [op])[..|ops|] == ops;
  }

  /**
  `cache` is what version `v` of the log pulled: replaying the newer entries oldest first over it
  gives the current pulls, and each of those entries had an effect when it was recorded.
   */
  ghost predicate Tracks(r: Log, v: nat, cache: set<Uri>) {
    Forward(cache, Newer(r.states, v)) == r.pulls && Effective(cache, Newer(r.states, v))
  }

  lemma TracksNow(r: Log)
    requires WellFormed(r)
    ensures Tracks(r, r.update, r.pulls)
  {
    NothingIsNewer(r);
  }

  /** An update of the log leaves the pulls of its past versions what they were. */
  lemma TracksAfterApply(r: Log, a: Action, v: nat, cache: set<Uri>)
    requires WellFormed(r) && v <= r.update && Tracks(r, v, cache)
    ensures Tracks(Apply(r, a), v, cache)
  {
    NewerAfterApply(r, a, v);
    var now := Apply(r, a);
    if now.states != r.states || now.pulls != r.pulls {
      ForwardSnoc(cache, if a.op.Clear? then [] else Newer(r.states, v), a.op);
    }
  }

  lemma HistoryStep(r: Log, past: seq<Action>, since: seq<Action>)
    requires since != []
    ensures var n := |since| - 1; History(r, past + since) == Apply(History(r, past + since[..n]), since[n])
  {
    assert (past + since)[..|past + since| - 1] == past + since[..|since| - 1];
  }

  /** Log soundness: for every history, every past point of it is tracked by the current log. */
  lemma {:induction false} LogIsSound(r: Log, past: seq<Action>, since: seq<Action>)
    requires WellFormed(r)
    ensures var v, now := History(r, past), History(r, past + since);
            v.update <= now.update && Tracks(now, v.update, v.pulls)
    decreases |since|
  {
    var v := History(r, past);
    HistoryIsWellFormed(r, past);
    if since == [] {
      assert past + since == past;
      TracksNow(v);
    } else {
      var init, a := since[..|since| - 1], since[|since| - 1];
      LogIsSound(r, past, init);
      var before := History(r, past + init);
      HistoryIsWellFormed(r, past + init);
      HistoryStep(r, past, since);
      ApplyKeepsWellFormed(before, a);
      TracksAfterApply(before, a, v.update, v.pulls);
    }
  }

  lemma NothingIsNewer(r: Log)
    requires WellFormed(r)
    ensures Newer(r.states, r.update) == []
  {
  }

  // ------------------------------------------------------------------
  // The exact outcome of the newest-first replay
  // ------------------------------------------------------------------

  function MentionCount(ops: seq<CacheOp>, u: Uri): nat {
    if ops == [] then 0
    else MentionCount(ops[..|ops| - 1], u) + (if Mentions(ops[|ops| - 1], u) then 1 else 0)
  }

  predicate Mentions(op: CacheOp, u: Uri) {
    (op.Pull? || op.Remove?) && op.uri == u
  }

  predicate HasClear(ops: seq<CacheOp>) {
    exists i | 0 <= i < |ops| :: ops[i].Clear?
  }

  /** Oldest first, each mention of a URI flips its membership. */
  lemma {:induction false} ForwardParity(cache: set<Uri>, ops: seq<CacheOp>, u: Uri)
    requires Effective(cache, ops) && !HasClear(ops)
    ensures u in Forward(cache, ops) <==> ((u in cache) != (MentionCount(ops, u) % 2 == 1))
  {
    if ops != [] {
      var init := ops[..|ops| - 1];
      assert !HasClear(init) by {
        assert forall i | 0 <= i < |init| :: init[i] == ops[i];
      }
      ForwardParity(cache, init, u);
    }
  }

  /** Newest first, the oldest mention of a URI is the one that decides. */
  lemma {:induction false} BackwardOldestWins(cache: set<Uri>, ops: seq<CacheOp>, u: Uri)
    requires Effective(cache, ops) && !HasClear(ops)
    ensures u in Backward(cache, ops) <==> (if MentionCount(ops, u) == 0 then u in cache else u !in cache)
    decreases |ops|
  {
    if ops != [] {
      var init, op := ops[..|ops| - 1], ops[|ops| - 1];
      assert !HasClear(init) by {
        assert forall i | 0 <= i < |init| :: init[i] == ops[i];
      }
      assert ops == init + [op];
      BackwardSnoc(cache, init, op);
      ForwardParity(cache, init, u);
      BackwardOldestWins(cache, init, u);
      BackwardDependsOnBase(cache, ApplyOp(cache, op), init, u);
    }
  }

  lemma {:induction false} BackwardSnoc(cache: set<Uri>, ops: seq<CacheOp>, op: CacheOp)
    ensures Backward(cache, ops + [op]) == Backward(ApplyOp(cache, op), ops)
  {
    if ops == [] {
      assert (ops + [op])[1..] == [];
    } else {
      assert (ops + [op])[1..] == ops[1..] + [op];
      BackwardSnoc(cache, ops[1..], op);
    }
  }

  /** A mentioned URI does not depend on the starting cache; another one depends on nothing else. */
  lemma {:induction false} BackwardDependsOnBase(a: set<Uri>, b: set<Uri>, ops: seq<CacheOp>, u: Uri)
    requires !HasClear(ops)
    ensures MentionCount(ops, u) > 0 ==> (u in Backward(a, ops) <==> u in Backward(b, ops))
    ensures MentionCount(ops, u) == 0 ==> (u in Backward(a, ops) <==> u in a)
    ensures MentionCount(ops, u) == 0 ==> (u in Backward(b, ops) <==> u in b)
    decreases |ops|
  {
    if ops != [] {
      var init, op := ops[..|ops| - 1], ops[|ops| - 1];
      assert !HasClear(init) by {
        assert forall i | 0 <= i < |init| :: init[i] == ops[i];
      }
      assert !op.Clear?;
      assert ops == init + [op];
      BackwardSnoc(a, init, op);
      BackwardSnoc(b, init, op);
      BackwardDependsOnBase(ApplyOp(a, op), ApplyOp(b, op), init, u);
    }
  }

  lemma {:induction false} BackwardAfterClear(cache: set<Uri>, ops: seq<CacheOp>)
    requires Effective(cache, ops) && HasClear(ops)
    ensures Backward(cache, ops) == {}
  {
    EffectiveClearIsFirst(cache, ops);
  }

  lemma {:induction false} EffectiveClearIsFirst(cache: set<Uri>, ops: seq<CacheOp>)
    requires Effective(cache, ops) && HasClear(ops)
    ensures ops[0].Clear?
    decreases |ops|
  {
    if |ops| > 1 {
      var init := ops[..|ops| - 1];
      var i :| 0 <= i < |ops| && ops[i].Clear?;
      assert init[i].Clear?;
      EffectiveClearIsFirst(cache, init);
    }
  }

  /** The projects a worker at version `v` ends up with when it is resynchronised. */
  function RestoredCache(r: Log, v: nat, cache: set<Uri>): set<Uri> {
    if v == 0 then cache + r.pulls
    else if v < r.update then Backward(cache, Newer(r.states, v))
    else cache
  }

  /**
  Exact outcome, for every history: a worker that held the pulls of a past version `v >= 1` ends
  up empty if a Clear is newer than `v`; otherwise it agrees with the current pulls on a URI
  exactly when that URI has no newer entry or an odd number of them.
   */
  lemma ReplayOutcome(r: Log, past: seq<Action>, since: seq<Action>, u: Uri)
    requires WellFormed(r) && History(r, past).update >= 1
    ensures var v, now := History(r, past), History(r, past + since);
            var ops := Newer(now.states, v.update);
            var got := RestoredCache(now, v.update, v.pulls);
            if HasClear(ops) then got == {}
            else ((u in got) == (u in now.pulls)) <==> (MentionCount(ops, u) == 0 || MentionCount(ops, u) % 2 == 1)
  {
    LogIsSound(r, past, since);
    var v, now := History(r, past), History(r, past + since);
    var ops := Newer(now.states, v.update);
    HistoryIsWellFormed(r, past + since);
    if v.update == now.update {
      NothingIsNewer(now);
    }
    if HasClear(ops) {
      BackwardAfterClear(v.pulls, ops);
    } else {
      ForwardParity(v.pulls, ops, u);
      BackwardOldestWins(v.pulls, ops, u);
    }
  }

  /**
  The entries newer than `v` replay to the current pulls in the wrong order too: without a Clear,
  no URI has a positive even number of them; with one, nothing has been pulled since.
   */
  ghost predicate ReplaysExactly(r: Log, v: nat) {
    var ops := Newer(r.states, v);
    if HasClear(ops) then r.pulls == {}
    else forall u: Uri :: MentionCount(ops, u) == 0 || MentionCount(ops, u) % 2 == 1
  }

  /** A worker that held the pulls of its version is brought up to date exactly when the entries allow it. */
  lemma RestoredExactlyIff(r: Log, v: nat, cache: set<Uri>)
    requires WellFormed(r) && 1 <= v <= r.update && Tracks(r, v, cache)
    ensures RestoredCache(r, v, cache) == r.pulls <==> ReplaysExactly(r, v)
  {
    var ops := Newer(r.states, v);
    var got := RestoredCache(r, v, cache);
    if v == r.update {
      NothingIsNewer(r);
    }
    if HasClear(ops) {
      BackwardAfterClear(cache, ops);
    } else {
      forall u: Uri
        ensures (u in got) == (u in r.pulls) <==> MentionCount(ops, u) == 0 || MentionCount(ops, u) % 2 == 1
      {
        ForwardParity(cache, ops, u);
        BackwardOldestWins(cache, ops, u);
      }
    }
  }

  /** A single entry is the same in either order. */
  lemma SingleOp(cache: set<Uri>, ops: seq<CacheOp>)
    requires |ops| <= 1
    ensures Backward(cache, ops) == Forward(cache, ops)
  {
    if ops != [] {
      assert ops[..|ops| - 1] == [] && ops[1..] == [];
    }
  }

  lemma FewNewer(r: Log, v: nat)
    requires WellFormed(r) && v <= r.update <= v + 1
    ensures |Newer(r.states, v)| <= 1
  {
    if v == r.update {
      NothingIsNewer(r);
    } else {
      AtMostOneNewer(r, v);
    }
  }

  /** One version behind is never too far. */
  lemma OneVersionReplaysExactly(r: Log, v: nat, cache: set<Uri>)
    requires WellFormed(r) && 1 <= v <= r.update <= v + 1 && Tracks(r, v, cache)
    ensures RestoredCache(r, v, cache) == r.pulls && ReplaysExactly(r, v)
  {
    FewNewer(r, v);
    SingleOp(cache, Newer(r.states, v));
    RestoredExactlyIff(r, v, cache);
  }

  /** A worker that is at most one version behind is always brought up to date. */
  lemma OneVersionBehindIsExact(r: Log, past: seq<Action>, since: seq<Action>)
    requires WellFormed(r)
    requires 1 <= History(r, past).update && History(r, past + since).update <= History(r, past).update + 1
    ensures var v, now := History(r, past), History(r, past + since);
            RestoredCache(now, v.update, v.pulls) == now.pulls
  {
    LogIsSound(r, past, since);
    HistoryIsWellFormed(r, past + since);
    var v, now := History(r, past), History(r, past + since);
    OneVersionReplaysExactly(now, v.update, v.pulls);
    RestoredExactlyIff(now, v.update, v.pulls);
  }

  lemma AtMostOneNewer(r: Log, v: nat)
    requires WellFormed(r) && r.update == v + 1
    ensures |Newer(r.states, v)| <= 1
  {
    var n := |r.states|;
    if n > 1 && r.states[n - 1].version > v {
      assert r.states[n - 2].version <= v;
      assert r.states[..n - 1][n - 2] == r.states[n - 2];
    }
  }

  /** Two newer entries for one URI: the worker ends up on the wrong side. */
  lemma TwoVersionsBehindCanBeWrong(u: Uri)
    ensures var past := [Cache(Update)];
            var since := [Cache(Pull(u)), Cache(Remove(u))];
            var v, now := History(WithProjects({}), past), History(WithProjects({}), past + since);
            v.update == 1 && now.pulls == {} && RestoredCache(now, v.update, v.pulls) == {u}
  {
    var r0 := WithProjects({});
    var past: seq<Action> := [Cache(Update)];
    var pulled := past + [Cache(Pull(u))];
    var all := past + [Cache(Pull(u)), Cache(Remove(u))];
    assert past[..0] == [] && pulled[..1] == past && all[..2] == pulled;
    var v, now := History(r0, past), History(r0, all);
    assert v == Log(1, {}, 0, "", []);
    assert History(r0, pulled) == Log(2, {u}, 0, "", [Entry(2, Pull(u))]);
    assert now == Log(3, {}, 0, "", [Entry(2, Pull(u)), Entry(3, Remove(u))]);
    assert now.states[..1] == [Entry(2, Pull(u))] && now.states[..1][..0] == [];
    assert Newer(now.states[..1], 1) == [Pull(u)];
    var ops := Newer(now.states, 1);
    assert ops == [Pull(u), Remove(u)] && ops[1..] == [Remove(u)] && ops[1..][1..] == [];
    assert Backward({}, ops[1..]) == {};
  }

  /** A worker still at version 0 never drops a project: it agrees iff it held nothing else. */
  lemma VersionZeroKeepsEverything(r: Log, cache: set<Uri>)
    ensures RestoredCache(r, 0, cache) == r.pulls <==> cache <= r.pulls
  {
    if cache <= r.pulls {
      assert cache + r.pulls == r.pulls;
    } else {
      var u :| u in cache && u !in r.pulls;
      assert u in cache + r.pulls;
    }
  }

  // ------------------------------------------------------------------
  // Configuration
  // ------------------------------------------------------------------

  function RestoredConfig(r: Log, v: nat, config: Option<Config>): Option<Config> {
    if r.configAt > v then Some(r.config) else config
  }

  /** The worker has been sent the configuration set up to its version, and none if there is none. */
  predicate ConfigSent(r: Log, v: nat, config: Option<Config>) {
    && (0 < r.configAt <= v ==> config == Some(r.config))
    && (r.configAt == 0 ==> config == None)
  }

  // ------------------------------------------------------------------
  // The objects
  // ------------------------------------------------------------------

  /** The handle on a child process; the child answers `answers` more messages and then fails. */
  class Child {
    var cache: set<Uri>
    var config: Option<Config>
    var lastUpdate: nat
    var answers: nat

    method CheckoutProject(uri: Uri) returns (ok: bool)
      modifies `cache, `answers
      ensures ok == (old(answers) > 0)
      ensures ok ==> cache == ApplyOp(old(cache), Pull(uri)) && answers == old(answers) - 1
      ensures !ok ==> cache == old(cache) && answers == 0
    {
      ok := answers > 0;
      if ok { cache := cache + {uri}; answers := answers - 1; }
    }

    method DropProject(uri: Uri) returns (ok: bool)
      modifies `cache, `answers
      ensures ok == (old(answers) > 0)
      ensures ok ==> cache == ApplyOp(old(cache), Remove(uri)) && answers == old(answers) - 1
      ensures !ok ==> cache == old(cache) && answers == 0
    {
      ok := answers > 0;
      if ok { cache := cache - {uri}; answers := answers - 1; }
    }

    method ClearCache() returns (ok: bool)
      modifies `cache, `answers
      ensures ok == (old(answers) > 0)
      ensures ok ==> cache == {} && answers == old(answers) - 1
      ensures !ok ==> cache == old(cache) && answers == 0
    {
      ok := answers > 0;
      if ok { cache := {}; answers := answers - 1; }
    }

    /** Refreshes the loaded projects; the set of loaded projects stays the same. */
    method RefreshCache() returns (ok: bool)
      modifies `answers
      ensures ok == (old(answers) > 0)
      ensures answers == if ok then old(answers) - 1 else 0
    {
      ok := answers > 0;
      if ok { answers := answers - 1; }
    }

    method PutConfig(c: Config) returns (ok: bool)
      modifies `config, `answers
      ensures ok == (old(answers) > 0)
      ensures ok ==> config == Some(c) && answers == old(answers) - 1
      ensures !ok ==> config == old(config) && answers == 0
    {
      ok := answers > 0;
      if ok { config := Some(c); answers := answers - 1; }
    }
  }

  /** The number of messages a resynchronisation from version `v` sends. */
  function Cost(r: Log, v: nat): nat {
    var c := if r.configAt > v then 1 else 0;
    if v == 0 then c + |r.pulls|
    else if v < r.update then 2 * c + 1 + |Newer(r.states, v)|
    else c
  }

  class Restore {
    var update: nat
    var pulls: set<Uri>
    var configAt: nat
    var config: Config
    var states: seq<Entry>

    ghost function View(): Log
      reads this
    {
      Log(update, pulls, configAt, config, states)
    }

    constructor (projects: set<Uri>)
      ensures View() == WithProjects(projects) && WellFormed(View())
    {
      update, pulls, configAt, config, states := 0, projects, 0, "", [];
    }

    method SetConfiguration(c: Config)
      requires WellFormed(View())
      modifies this
      ensures View() == UpdateConfig(old(View()), c) && WellFormed(View())
      ensures forall w: Child | w.lastUpdate <= old(update) :: RestoredConfig(View(), w.lastUpdate, w.config) == Some(c)
    {
      update := update + 1;
      configAt, config := update, c;
    }

    method Record(op: CacheOp)
      requires WellFormed(View())
      modifies this
      ensures View() == UpdateCache(old(View()), op) && WellFormed(View())
    {
      ApplyKeepsWellFormed(View(), Cache(op));
      match op {
        case Pull(uri) =>
          if uri in pulls {
            return;
          }
          pulls := pulls + {uri};
        case Remove(uri) =>
          if uri !in pulls {
            return;
          }
          pulls := pulls - {uri};
        case Clear =>
          pulls := {};
          states := [];
        case Update =>
          update := update + 1;
          return;
      }
      update := update + 1;
      states := states + [Entry(update, op)];
    }

    method UpdateWorkerConfig(w: Child) returns (ok: bool)
      modifies w
      ensures ok == (old(w.answers) >= (if configAt > old(w.lastUpdate) then 1 else 0))
      ensures w.lastUpdate == old(w.lastUpdate) && w.cache == old(w.cache)
      ensures ok ==> w.config == RestoredConfig(View(), old(w.lastUpdate), old(w.config))
      ensures ok ==> w.answers == old(w.answers) - (if configAt > old(w.lastUpdate) then 1 else 0)
    {
      ok := true;
      if configAt > w.lastUpdate {
        ok := w.PutConfig(config);
      }
    }

    /** Pulls every project of `pulls`, in some order. */
    method PullAll(w: Child) returns (ok: bool)
      modifies w`cache, w`answers
      ensures ok == (old(w.answers) >= |pulls|)
      ensures ok ==> w.cache == old(w.cache) + pulls && w.answers == old(w.answers) - |pulls|
    {
      var todo := pulls;
      while todo != {}
        invariant todo <= pulls && w.cache == old(w.cache) + (pulls - todo)
        invariant w.answers == old(w.answers) - |pulls| + |todo|
        decreases todo
      {
        var uri :| uri in todo;
        ok := w.CheckoutProject(uri);
        if !ok {
          assert |todo| > 0;
          return;
        }
        todo := todo - {uri};
      }
      ok := true;
    }

    /** The update loop, from the newest entry down to the first one the worker knows about. */
    method ReplayNewestFirst(w: Child) returns (ok: bool)
      requires WellFormed(View())
      modifies w`cache, w`answers
      ensures ok == (old(w.answers) >= |Newer(states, w.lastUpdate)|)
      ensures ok ==> w.cache == Backward(old(w.cache), Newer(states, w.lastUpdate))
      ensures ok ==> w.answers == old(w.answers) - |Newer(states, w.lastUpdate)|
    {
      var v, i := w.lastUpdate, |states|;
      ghost var all := Newer(states, v);
      assert states[..i] == states;
      while i > 0
        invariant 0 <= i <= |states|
        invariant |all| - |Newer(states[..i], v)| <= old(w.answers)
        invariant w.answers == old(w.answers) - |all| + |Newer(states[..i], v)|
        invariant Backward(w.cache, Newer(states[..i], v)) == Backward(old(w.cache), all)
      {
        var rev := states[i - 1];
        if rev.version <= v {
          break;
        }
        assert states[..i][..i - 1] == states[..i - 1];
        BackwardSnoc(w.cache, Newer(states[..i - 1], v), rev.op);
        match rev.op {
          case Pull(uri) => ok := w.CheckoutProject(uri);
          case Remove(uri) => ok := w.DropProject(uri);
          case Clear => ok := w.ClearCache();
          case Update => ok := true;
        }
        if !ok {
          return;
        }
        i := i - 1;
      }
      ok := true;
    }

    method UpdateWorkerCache(w: Child) returns (ok: bool)
      requires WellFormed(View())
      modifies w
      ensures w.lastUpdate == old(w.lastUpdate)
      ensures ok ==> w.cache == RestoredCache(View(), old(w.lastUpdate), old(w.cache))
      ensures ok ==>
                var v := old(w.lastUpdate);
                w.config == if 0 < v < update then RestoredConfig(View(), v, old(w.config)) else old(w.config)
      ensures ok <==>
                old(w.answers) + (if configAt > old(w.lastUpdate) then 1 else 0) >= Cost(View(), old(w.lastUpdate))
    {
      if w.lastUpdate == 0 {
        ok := PullAll(w);
      } else if w.lastUpdate < update {
        ok := UpdateWorkerConfig(w);
        if !ok {
          return;
        }
        ok := w.RefreshCache();
        if !ok {
          return;
        }
        ok := ReplayNewestFirst(w);
      } else {
        ok := true;
      }
    }

    /**
    Resynchronises a worker.  It succeeds exactly when the child answers every message sent;
    only then does the worker move to the current version.
     */
    method RestoreWorker(w: Child) returns (ok: bool)
      requires WellFormed(View())
      modifies w
      ensures ok == (old(w.answers) >= Cost(View(), old(w.lastUpdate)))
      ensures w.lastUpdate == if ok then update else old(w.lastUpdate)
      ensures ok ==> w.cache == RestoredCache(View(), old(w.lastUpdate), old(w.cache))
      ensures ok ==> w.config == RestoredConfig(View(), old(w.lastUpdate), old(w.config))
    {
      ok := UpdateWorkerConfig(w);
      if !ok {
        return;
      }
      ok := UpdateWorkerCache(w);
      if ok {
        w.lastUpdate := update;
      }
    }
  }
}
