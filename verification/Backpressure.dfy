/**
 The per-route concurrency limiter (pkg/proxy/handler.go).

 A `chan struct{}` is a counter with a capacity, so a limiter is two counters. Requests run
 concurrently; every channel operation is one atomic event of the machine below, and a request's
 position between two of them is its `Phase`.
 */
module Backpressure {
  import opened Options

  type Request = nat
  type Millis = int

  const DEFAULT_TIMEOUT_MS: nat := 5000

  datatype Config = Config(maxConcurrent: nat, maxQueue: nat, timeoutMs: nat)

  datatype Verdict = Granted | QueueTimeout | Cancelled | QueueFull

  datatype Phase =
    | Arrived                    // before the first select
    | Missed                     // the first select took its default branch
    | Waiting(since: Millis)     // queue token held, blocked in the inner select
    | Leaving(verdict: Verdict)  // inner select decided, deferred receive from the queue pending
    | Holding                    // Acquire returned the release closure
    | Done(verdict: Verdict)

  datatype State = State(sem: nat, queue: nat, phases: map<Request, Phase>)

  datatype Event =
    | Arrive(r: Request)
    | TryFast(r: Request)
    | TryEnqueue(r: Request, now: Millis)
    | WinSlot(r: Request)
    | TimeOut(r: Request, now: Millis)
    | Cancel(r: Request)
    | LeaveQueue(r: Request)
    | Release(r: Request)

  const EMPTY := State(0, 0, map[])

  predicate HoldsPermit(p: Phase) { p == Holding || p == Leaving(Granted) }

  predicate HoldsQueueToken(p: Phase) { p.Waiting? || p.Leaving? }

  /** When the goroutine can perform the operation without blocking. */
  predicate Enabled(c: Config, s: State, e: Event) {
    match e
    case Arrive(r) => r !in s.phases
    case TryFast(r) => r in s.phases && s.phases[r].Arrived?
    case TryEnqueue(r, _) => r in s.phases && s.phases[r].Missed?
    case WinSlot(r) => r in s.phases && s.phases[r].Waiting? && s.sem < c.maxConcurrent
    case TimeOut(r, now) =>
      r in s.phases && s.phases[r].Waiting? && now - s.phases[r].since >= c.timeoutMs
    case Cancel(r) => r in s.phases && s.phases[r].Waiting?
    case LeaveQueue(r) => r in s.phases && s.phases[r].Leaving? && s.queue > 0
    case Release(r) => r in s.phases && s.phases[r].Holding? && s.sem > 0
  }

  function Next(c: Config, s: State, e: Event): State
    requires Enabled(c, s, e)
  {
    match e
    case Arrive(r) => s.(phases := s.phases[r := Arrived])
    case TryFast(r) =>
      if s.sem < c.maxConcurrent
      then s.(sem := s.sem + 1, phases := s.phases[r := Holding])
      else s.(phases := s.phases[r := Missed])
    case TryEnqueue(r, now) =>
      if s.queue < c.maxQueue
      then s.(queue := s.queue + 1, phases := s.phases[r := Waiting(now)])
      else s.(phases := s.phases[r := Done(QueueFull)])
    case WinSlot(r) => s.(sem := s.sem + 1, phases := s.phases[r := Leaving(Granted)])
    case TimeOut(r, _) => s.(phases := s.phases[r := Leaving(QueueTimeout)])
    case Cancel(r) => s.(phases := s.phases[r := Leaving(Cancelled)])
    case LeaveQueue(r) =>
      var v := s.phases[r].verdict;
      s.(queue := s.queue - 1, phases := s.phases[r := if v == Granted then Holding else Done(v)])
    case Release(r) => s.(sem := s.sem - 1, phases := s.phases[r := Done(Granted)])
  }

  ghost predicate IsRun(c: Config, s: State, es: seq<Event>)
    decreases |es|
  {
    es == [] || (Enabled(c, s, es[0]) && IsRun(c, Next(c, s, es[0]), es[1..]))
  }

  ghost function After(c: Config, s: State, es: seq<Event>): State
    requires IsRun(c, s, es)
    decreases |es|
  {
    if es == [] then s else After(c, Next(c, s, es[0]), es[1..])
  }

  // ----- the invariant: tokens are held by exactly the requests the phases say -----

  ghost function PermitHolders(phases: map<Request, Phase>): set<Request> {
    set r | r in phases && HoldsPermit(phases[r])
  }

  ghost function QueueHolders(phases: map<Request, Phase>): set<Request> {
    set r | r in phases && HoldsQueueToken(phases[r])
  }

  ghost function Permits(s: State): set<Request> { PermitHolders(s.phases) }

  ghost function QueueTokens(s: State): set<Request> { QueueHolders(s.phases) }

  ghost predicate Inv(c: Config, s: State) {
    && s.sem == |Permits(s)| <= c.maxConcurrent
    && s.queue == |QueueTokens(s)| <= c.maxQueue
  }

  /** Re-phasing one request moves only that request in or out of a token set. */
  lemma RephasePermits(phases: map<Request, Phase>, r: Request, p: Phase)
    ensures |PermitHolders(phases[r := p])| + (if r in phases && HoldsPermit(phases[r]) then 1 else 0)
         == |PermitHolders(phases)| + (if HoldsPermit(p) then 1 else 0)
  {
    var permits := PermitHolders(phases);
    assert PermitHolders(phases[r := p]) == if HoldsPermit(p) then permits + {r} else permits - {r};
  }

  lemma RephaseTokens(phases: map<Request, Phase>, r: Request, p: Phase)
    ensures |QueueHolders(phases[r := p])| + (if r in phases && HoldsQueueToken(phases[r]) then 1 else 0)
         == |QueueHolders(phases)| + (if HoldsQueueToken(p) then 1 else 0)
  {
    var tokens := QueueHolders(phases);
    assert QueueHolders(phases[r := p]) == if HoldsQueueToken(p) then tokens + {r} else tokens - {r};
  }

  lemma StepKeepsTokens(c: Config, s: State, e: Event)
    requires Inv(c, s) && Enabled(c, s, e)
    ensures Inv(c, Next(c, s, e))
  {
    var p := Next(c, s, e).phases[e.r];
    RephasePermits(s.phases, e.r, p);
    RephaseTokens(s.phases, e.r, p);
    assert Next(c, s, e).phases == s.phases[e.r := p];
  }

  lemma {:induction false} RunKeepsTokens(c: Config, s: State, es: seq<Event>)
    requires Inv(c, s) && IsRun(c, s, es)
    ensures Inv(c, After(c, s, es))
    decreases |es|
  {
    if es != [] {
      StepKeepsTokens(c, s, es[0]);
      RunKeepsTokens(c, Next(c, s, es[0]), es[1..]);
    }
  }

  /** Every interleaving from an idle limiter keeps both token counts exact and within capacity. */
  lemma TokensMatchHolders(c: Config, es: seq<Event>)
    requires IsRun(c, EMPTY, es)
    ensures var s := After(c, EMPTY, es);
            && s.sem == |Permits(s)| <= c.maxConcurrent
            && s.queue == |QueueTokens(s)| <= c.maxQueue
  {
    assert Permits(EMPTY) == {} && QueueTokens(EMPTY) == {};
    RunKeepsTokens(c, EMPTY, es);
  }

  /** Once every request has finished, both channels are empty again. */
  lemma FinishedMeansDrained(c: Config, es: seq<Event>)
    requires IsRun(c, EMPTY, es)
    requires var s := After(c, EMPTY, es); forall r :: r in s.phases ==> s.phases[r].Done?
    ensures After(c, EMPTY, es).sem == 0 && After(c, EMPTY, es).queue == 0
  {
    TokensMatchHolders(c, es);
    var s := After(c, EMPTY, es);
    assert Permits(s) == {} && QueueTokens(s) == {};
  }

  /**
   In every run, the first select grants exactly while fewer than maxConcurrent requests hold a
   permit, and the second refuses exactly when maxQueue requests hold a queue token.
   */
  lemma AdmissionIsExact(c: Config, es: seq<Event>, r: Request, now: Millis)
    requires IsRun(c, EMPTY, es)
    ensures var s := After(c, EMPTY, es);
            Enabled(c, s, TryFast(r)) ==>
              Next(c, s, TryFast(r)).phases[r] == if |Permits(s)| < c.maxConcurrent then Holding else Missed
    ensures var s := After(c, EMPTY, es);
            Enabled(c, s, TryEnqueue(r, now)) ==>
              && Next(c, s, TryEnqueue(r, now)).phases[r] == (if |QueueTokens(s)| < c.maxQueue then Waiting(now) else Done(QueueFull))
              && (Next(c, s, TryEnqueue(r, now)).phases[r] == Done(QueueFull) <==> |QueueTokens(s)| == c.maxQueue)
    ensures var s := After(c, EMPTY, es);
            r in s.phases && s.phases[r].Waiting? ==> (Enabled(c, s, WinSlot(r)) <==> |Permits(s)| < c.maxConcurrent)
  {
    TokensMatchHolders(c, es);
  }

  // ----- liveness: receives never block, slots are never lost, runs end -----

  /** The release closure and the deferred queue receive always find a token. */
  lemma ReceivesNeverBlock(c: Config, s: State, r: Request)
    requires Inv(c, s) && r in s.phases
    ensures s.phases[r].Holding? ==> Enabled(c, s, Release(r))
    ensures s.phases[r].Leaving? ==> Enabled(c, s, LeaveQueue(r))
  {
    if s.phases[r].Holding? { assert r in Permits(s); }
    if s.phases[r].Leaving? { assert r in QueueTokens(s); }
  }

  predicate Internal(e: Event) { !e.Arrive? }

  /** The event with which a request can go on, if its own phase lets it. */
  function Forward(s: State, r: Request): Event
    requires r in s.phases && !s.phases[r].Done?
  {
    match s.phases[r]
    case Arrived => TryFast(r)
    case Missed => TryEnqueue(r, 0)
    case Waiting(_) => WinSlot(r)
    case Leaving(_) => LeaveQueue(r)
    case Holding => Release(r)
  }

  /** An unfinished request is blocked only while it waits and every slot is taken. */
  lemma BlockedOnlyWhenFull(c: Config, s: State, r: Request)
    requires Inv(c, s) && r in s.phases && !s.phases[r].Done?
    ensures !Enabled(c, s, Forward(s, r)) <==> s.phases[r].Waiting? && s.sem == c.maxConcurrent
  {
    ReceivesNeverBlock(c, s, r);
  }

  /** No deadlock, even if no timer fires and no client cancels: something can always move. */
  lemma NoDeadlock(c: Config, s: State, r: Request) returns (q: Request)
    requires c.maxConcurrent > 0 && Inv(c, s) && r in s.phases && !s.phases[r].Done?
    ensures q in s.phases && !s.phases[q].Done? && Enabled(c, s, Forward(s, q))
  {
    if Enabled(c, s, Forward(s, r)) {
      q := r;
    } else {
      BlockedOnlyWhenFull(c, s, r);
      q :| q in Permits(s);
      ReceivesNeverBlock(c, s, q);
    }
  }

  function Level(p: Phase): nat {
    match p
    case Arrived => 1
    case Missed => 2
    case Waiting(_) => 3
    case Leaving(_) => 4
    case Holding => 5
    case Done(_) => 6
  }

  ghost function Progress(phases: map<Request, Phase>): nat {
    if phases == map[] then 0
    else
      var r :| r in phases;
      Level(phases[r]) + Progress(phases - {r})
  }

  lemma {:induction false} ProgressWithout(phases: map<Request, Phase>, q: Request)
    requires q in phases
    ensures Progress(phases) == Level(phases[q]) + Progress(phases - {q})
    decreases phases
  {
    var r :| r in phases && Progress(phases) == Level(phases[r]) + Progress(phases - {r});
    if r != q {
      ProgressWithout(phases - {r}, q);
      ProgressWithout(phases - {q}, r);
      assert phases - {r} - {q} == phases - {q} - {r};
    }
  }

  lemma {:induction false} ProgressBound(phases: map<Request, Phase>)
    ensures Progress(phases) <= 6 * |phases|
    decreases phases
  {
    if phases != map[] {
      var r :| r in phases;
      ProgressWithout(phases, r);
      assert (phases - {r}).Keys == phases.Keys - {r};
      assert |phases| == |phases.Keys| && |phases - {r}| == |(phases - {r}).Keys|;
      ProgressBound(phases - {r});
    }
  }

  lemma StepProgresses(c: Config, s: State, e: Event)
    requires Enabled(c, s, e)
    ensures Progress(Next(c, s, e).phases) >= Progress(s.phases) + 1
  {
    var s' := Next(c, s, e);
    ProgressWithout(s'.phases, e.r);
    if e.r in s.phases {
      ProgressWithout(s.phases, e.r);
      assert s.phases - {e.r} == s'.phases - {e.r};
    } else {
      assert s.phases == s'.phases - {e.r};
    }
  }

  lemma {:induction false} RunProgresses(c: Config, s: State, es: seq<Event>)
    requires IsRun(c, s, es)
    ensures |es| + Progress(s.phases) <= Progress(After(c, s, es).phases)
    decreases |es|
  {
    if es != [] {
      StepProgresses(c, s, es[0]);
      RunProgresses(c, Next(c, s, es[0]), es[1..]);
    }
  }

  /** n requests give a run of at most 6n events; with NoDeadlock, every request finishes. */
  lemma RunsEnd(c: Config, es: seq<Event>)
    requires IsRun(c, EMPTY, es)
    ensures |es| <= 6 * |After(c, EMPTY, es).phases|
  {
    RunProgresses(c, EMPTY, es);
    ProgressBound(After(c, EMPTY, es).phases);
  }

  /** A run that cannot be continued by a request already inside has drained the limiter. */
  lemma MaximalRunDrains(c: Config, es: seq<Event>)
    requires c.maxConcurrent > 0 && IsRun(c, EMPTY, es)
    requires forall e | Internal(e) :: !Enabled(c, After(c, EMPTY, es), e)
    ensures var s := After(c, EMPTY, es);
            && s.sem == 0 && s.queue == 0
            && forall r :: r in s.phases ==> s.phases[r].Done?
  {
    var s := After(c, EMPTY, es);
    TokensMatchHolders(c, es);
    forall r | r in s.phases ensures s.phases[r].Done? {
      if !s.phases[r].Done? {
        var q := NoDeadlock(c, s, r);
        assert Internal(Forward(s, q));
      }
    }
    FinishedMeansDrained(c, es);
  }

  /** A waiting request either was waiting already or joined the queue during the run. */
  lemma {:induction false} WaitersEnqueued(c: Config, s: State, es: seq<Event>, last: Event, r: Request)
    requires IsRun(c, s, es + [last])
    ensures IsRun(c, s, es) && Enabled(c, After(c, s, es), last)
    ensures var s' := After(c, s, es);
            r in s'.phases && s'.phases[r].Waiting? ==>
              (r in s.phases && s.phases[r] == s'.phases[r]) || TryEnqueue(r, s'.phases[r].since) in es
    decreases |es|
  {
    if es != [] {
      assert (es + [last])[1..] == es[1..] + [last];
      WaitersEnqueued(c, Next(c, s, es[0]), es[1..], last, r);
    }
  }

  /** A request is timed out only after the full timeout has passed since it joined the queue. */
  lemma NoEarlyTimeout(c: Config, es: seq<Event>, r: Request, now: Millis)
    requires IsRun(c, EMPTY, es + [TimeOut(r, now)])
    ensures exists since :: TryEnqueue(r, since) in es && now - since >= c.timeoutMs
  {
    WaitersEnqueued(c, EMPTY, es, TimeOut(r, now), r);
  }

  lemma {:induction false} RunGoesOn(c: Config, s: State, es: seq<Event>, e: Event)
    requires IsRun(c, s, es) && Enabled(c, After(c, s, es), e)
    ensures IsRun(c, s, es + [e])
    decreases |es|
  {
    if es == [] {
      assert [e][1..] == [];
    } else {
      assert (es + [e])[1..] == es[1..] + [e];
      RunGoesOn(c, Next(c, s, es[0]), es[1..], e);
    }
  }

  /** A waiter can time out exactly once its timeout has passed since it joined, and be cancelled at any time. */
  lemma WaiterCanLeave(c: Config, es: seq<Event>, r: Request, now: Millis)
    requires IsRun(c, EMPTY, es) && r in After(c, EMPTY, es).phases && After(c, EMPTY, es).phases[r].Waiting?
    ensures var (s, since) := (After(c, EMPTY, es), After(c, EMPTY, es).phases[r].since);
            && TryEnqueue(r, since) in es && Enabled(c, s, Cancel(r))
            && (Enabled(c, s, TimeOut(r, now)) <==> now - since >= c.timeoutMs)
  {
    RunGoesOn(c, EMPTY, es, Cancel(r));
    WaitersEnqueued(c, EMPTY, es, Cancel(r), r);
  }

  lemma UpdatedTwice(m: map<Request, Phase>, r: Request, p: Phase, q: Phase)
    ensures m[r := p][r := q] == m[r := q]
  {
  }

  /** The ways out of a wait, each with the deferred receive after it: who holds what, and the verdict. */
  lemma RefusedWaitEndsAs(c: Config, s: State, r: Request, now: Millis)
    requires Inv(c, s) && r in s.phases && s.phases[r].Waiting?
    ensures s.queue > 0
    ensures Next(c, Next(c, s, Cancel(r)), LeaveQueue(r)) == State(s.sem, s.queue - 1, s.phases[r := Done(Cancelled)])
    ensures Enabled(c, s, TimeOut(r, now)) ==>
              Next(c, Next(c, s, TimeOut(r, now)), LeaveQueue(r)) ==
                State(s.sem, s.queue - 1, s.phases[r := Done(QueueTimeout)])
  {
    assert r in QueueTokens(s);
    UpdatedTwice(s.phases, r, Leaving(Cancelled), Done(Cancelled));
    UpdatedTwice(s.phases, r, Leaving(QueueTimeout), Done(QueueTimeout));
  }

  lemma GrantedWaitEndsAs(c: Config, s: State, r: Request)
    requires Inv(c, s) && r in s.phases && s.phases[r].Waiting? && s.sem < c.maxConcurrent
    ensures s.queue > 0
    ensures Next(c, Next(c, s, WinSlot(r)), LeaveQueue(r)) == State(s.sem + 1, s.queue - 1, s.phases[r := Holding])
  {
    assert r in QueueTokens(s);
    UpdatedTwice(s.phases, r, Leaving(Granted), Holding);
  }

  /** A release gives one permit back, whoever else is inside. */
  lemma ReleaseEndsAs(c: Config, s: State, r: Request)
    requires Inv(c, s) && r in s.phases && s.phases[r].Holding?
    ensures Enabled(c, s, Release(r)) && Next(c, s, Release(r)) == State(s.sem - 1, s.queue, s.phases[r := Done(Granted)])
  {
    ReceivesNeverBlock(c, s, r);
  }

  /** The outcome of Acquire, once it is decided. */
  function Decided(phases: map<Request, Phase>, r: Request): Option<Verdict> {
    if r !in phases then None
    else match phases[r]
      case Leaving(v) => Some(v)
      case Holding => Some(Granted)
      case Done(v) => Some(v)
      case _ => None
  }

  lemma {:induction false} DecidedStays(c: Config, s: State, es: seq<Event>, r: Request)
    requires IsRun(c, s, es) && Decided(s.phases, r).Some?
    ensures Decided(After(c, s, es).phases, r) == Decided(s.phases, r)
    ensures forall e :: e in es && e.r == r ==> e.LeaveQueue? || e.Release?
    decreases |es|
  {
    if es != [] { DecidedStays(c, Next(c, s, es[0]), es[1..], r); }
  }

  ghost predicate Happened(es: seq<Event>, r: Request, kind: Event -> bool) {
    exists e :: e in es && e.r == r && kind(e)
  }

  /** Over every run, Acquire says "queue timeout" exactly if the timer fired first, and cancelled exactly if the client did. */
  lemma {:induction false} VerdictFollowsEvents(c: Config, s: State, es: seq<Event>, r: Request)
    requires IsRun(c, s, es) && Decided(s.phases, r).None?
    ensures var v := Decided(After(c, s, es).phases, r);
            && (v == Some(QueueTimeout) <==> Happened(es, r, (e: Event) => e.TimeOut?))
            && (v == Some(Cancelled) <==> Happened(es, r, (e: Event) => e.Cancel?))
    decreases |es|
  {
    if es != [] {
      var (e, s1) := (es[0], Next(c, s, es[0]));
      assert es == [e] + es[1..];
      if Decided(s1.phases, r).Some? {
        DecidedStays(c, s1, es[1..], r);
      } else {
        VerdictFollowsEvents(c, s1, es[1..], r);
      }
    }
  }

  // ----- the limiter object: each channel operation against the machine -----

  class BackpressureLimiter {
    const cfg: Config
    var sem: nat
    var queue: nat
    ghost var phases: map<Request, Phase>  // program counters of the requests inside

    ghost function View(): State reads this { State(sem, queue, phases) }

    ghost predicate Valid() reads this { Inv(cfg, View()) }

    constructor (cfg: Config)
      ensures this.cfg == cfg && View() == EMPTY && Valid()
    {
      this.cfg := cfg;
      sem, queue, phases := 0, 0, map[];
      new;
      assert Permits(View()) == {} && QueueTokens(View()) == {};
    }

    /** First select of Acquire. */
    method TryFast(ghost r: Request) returns (ok: bool)
      requires Valid() && Enabled(cfg, View(), Event.TryFast(r))
      modifies this
      ensures Valid() && View() == Next(cfg, old(View()), Event.TryFast(r))
      ensures ok <==> phases[r] == Holding
    {
      ghost var s := View();
      ok := sem < cfg.maxConcurrent;
      if ok {
        sem := sem + 1;
      }
      phases := phases[r := if ok then Holding else Missed];
      StepKeepsTokens(cfg, s, Event.TryFast(r));
    }

    /** Second select: true when the request now waits, false for "queue full". */
    method TryEnqueue(ghost r: Request, ghost now: Millis) returns (ok: bool)
      requires Valid() && Enabled(cfg, View(), Event.TryEnqueue(r, now))
      modifies this
      ensures Valid() && View() == Next(cfg, old(View()), Event.TryEnqueue(r, now))
      ensures ok <==> phases[r] == Waiting(now)
    {
      ghost var s := View();
      ok := queue < cfg.maxQueue;
      if ok {
        queue := queue + 1;
      }
      phases := phases[r := if ok then Waiting(now) else Done(QueueFull)];
      StepKeepsTokens(cfg, s, Event.TryEnqueue(r, now));
    }

    /** The send branch of the inner select; it blocks, so a slot must be free. */
    method WinSlot(ghost r: Request)
      requires Valid() && Enabled(cfg, View(), Event.WinSlot(r))
      modifies this
      ensures Valid() && View() == Next(cfg, old(View()), Event.WinSlot(r))
    {
      ghost var s := View();
      sem := sem + 1;
      phases := phases[r := Leaving(Granted)];
      StepKeepsTokens(cfg, s, Event.WinSlot(r));
    }

    /** The deferred receive from the queue; it needs no token in its precondition. */
    method LeaveQueue(ghost r: Request)
      requires Valid() && r in phases && phases[r].Leaving?
      modifies this
      ensures old(Enabled(cfg, View(), Event.LeaveQueue(r)))
      ensures Valid() && View() == Next(cfg, old(View()), Event.LeaveQueue(r))
    {
      ghost var s := View();
      ReceivesNeverBlock(cfg, s, r);
      queue := queue - 1;
      phases := phases[r := if phases[r].verdict == Granted then Holding else Done(phases[r].verdict)];
      StepKeepsTokens(cfg, s, Event.LeaveQueue(r));
    }

    /** The release closure. */
    method Release(ghost r: Request)
      requires Valid() && r in phases && phases[r].Holding?
      modifies this
      ensures old(Enabled(cfg, View(), Event.Release(r)))
      ensures Valid() && View() == Next(cfg, old(View()), Event.Release(r))
    {
      ghost var s := View();
      ReceivesNeverBlock(cfg, s, r);
      sem := sem - 1;
      phases := phases[r := Done(Granted)];
      StepKeepsTokens(cfg, s, Event.Release(r));
    }
  }

  // ----- limiters across route reloads -----

  datatype Route = Route(prefix: string, maxConcurrent: int, maxQueue: int, timeoutMs: int)

  /** NewBackpressureLimiter: nil, a panic from make with a negative capacity, or a limiter. */
  datatype Created = Nil | Panicked | Created(cfg: Config)

  function NewLimiter(maxConcurrent: int, maxQueue: int, timeoutMs: int): Created {
    if maxConcurrent <= 0 then Nil
    else if maxQueue < 0 then Panicked
    else Created(Config(maxConcurrent, maxQueue, if timeoutMs > 0 then timeoutMs else DEFAULT_TIMEOUT_MS))
  }

  function Limits(route: Route): Created {
    NewLimiter(route.maxConcurrent, route.maxQueue, route.timeoutMs)
  }

  /** NewGatewayHandler assigns without looking: a later route of a prefix replaces an earlier one's limits. */
  function StartUp(routes: seq<Route>): (map<string, Config>, bool) {
    if routes == [] then (map[], false)
    else
      var (m, panicked) := StartUp(routes[..|routes| - 1]);
      var last := routes[|routes| - 1];
      if panicked then (m, true)
      else match Limits(last)
        case Nil => (m, false)
        case Panicked => (m, true)
        case Created(cfg) => (m[last.prefix := cfg], false)
  }

  /** Start-up panics exactly if some route limits concurrency with a negative queue size. */
  lemma {:induction false} StartUpPanicsIff(routes: seq<Route>)
    ensures StartUp(routes).1 <==> exists i :: 0 <= i < |routes| && routes[i].maxConcurrent > 0 && routes[i].maxQueue < 0
  {
    if routes != [] {
      StartUpPanicsIff(routes[..|routes| - 1]);
      assert forall i :: 0 <= i < |routes| - 1 ==> routes[..|routes| - 1][i] == routes[i];
    }
  }

  /** Route i is the last one of its prefix that asks for a limiter. */
  ghost predicate LastLimited(routes: seq<Route>, p: string, i: nat) {
    && i < |routes| && routes[i].prefix == p && routes[i].maxConcurrent > 0
    && forall j :: i < j < |routes| && routes[j].prefix == p ==> routes[j].maxConcurrent <= 0
  }

  /** The limits of a route; five seconds unless it gives a timeout. */
  ghost predicate LimitedAs(configs: map<string, Config>, p: string, r: Route) {
    && p in configs && r.maxQueue >= 0 && r.maxConcurrent > 0
    && configs[p] == Config(r.maxConcurrent, r.maxQueue, if r.timeoutMs > 0 then r.timeoutMs else 5000)
  }

  /** After start-up a prefix has exactly the limits of the last route that asks for some, if any. */
  lemma {:induction false} LastLimitedRouteWins(routes: seq<Route>, p: string)
    requires !StartUp(routes).1
    ensures p in StartUp(routes).0 <==> exists i: nat :: LastLimited(routes, p, i)
    ensures forall i: nat :: LastLimited(routes, p, i) ==> LimitedAs(StartUp(routes).0, p, routes[i])
  {
    if routes != [] {
      var n := |routes| - 1;
      LastLimitedRouteWins(routes[..n], p);
      LastLimitedSnoc(routes, p);
      assert routes[n].prefix == p && routes[n].maxConcurrent > 0 ==> LastLimited(routes, p, n);
    }
  }

  lemma LastLimitedSnoc(routes: seq<Route>, p: string)
    requires routes != []
    ensures var n := |routes| - 1;
            if routes[n].prefix == p && routes[n].maxConcurrent > 0 then forall i: nat :: LastLimited(routes, p, i) <==> i == n
            else forall i: nat :: LastLimited(routes, p, i) <==> LastLimited(routes[..n], p, i)
  {
    var n := |routes| - 1;
    assert forall i :: 0 <= i < n ==> routes[..n][i] == routes[i];
  }

  /** The limiter configurations after installing routes in order, stopping at a panic. */
  function Install(m: map<string, Config>, routes: seq<Route>): (map<string, Config>, bool)
    decreases |routes|
  {
    if routes == [] then (m, false)
    else if routes[0].prefix in m then Install(m, routes[1..])
    else match Limits(routes[0])
      case Nil => Install(m, routes[1..])
      case Panicked => (m, true)
      case Created(cfg) => Install(m[routes[0].prefix := cfg], routes[1..])
  }

  /** A route whose limiter cannot be made, and that no earlier limiter of its prefix hides. */
  ghost predicate Offends(m: map<string, Config>, routes: seq<Route>, i: nat) {
    && i < |routes| && routes[i].maxConcurrent > 0 && routes[i].maxQueue < 0 && routes[i].prefix !in m
    && forall j :: 0 <= j < i && routes[j].prefix == routes[i].prefix ==> routes[j].maxConcurrent <= 0
  }

  /** A reload panics exactly if there is such a route. */
  lemma {:induction false} InstallPanicsIff(m: map<string, Config>, routes: seq<Route>)
    ensures Install(m, routes).1 <==> exists i: nat :: Offends(m, routes, i)
    decreases |routes|
  {
    if routes != [] {
      var r := routes[0];
      if r.prefix !in m && r.maxConcurrent > 0 {
        if r.maxQueue < 0 {
          assert Offends(m, routes, 0);
        } else {
          OffendsLater(m, routes, m[r.prefix := Limits(r).cfg]);
          InstallPanicsIff(m[r.prefix := Limits(r).cfg], routes[1..]);
        }
      } else {
        OffendsLater(m, routes, m);
        InstallPanicsIff(m, routes[1..]);
      }
    }
  }

  lemma OffendsLater(m: map<string, Config>, routes: seq<Route>, m': map<string, Config>)
    requires routes != [] && !(routes[0].prefix !in m && routes[0].maxConcurrent > 0 && routes[0].maxQueue < 0)
    requires m'.Keys == if routes[0].maxConcurrent > 0 then m.Keys + {routes[0].prefix} else m.Keys
    ensures (exists i: nat :: Offends(m, routes, i)) <==> (exists i: nat :: Offends(m', routes[1..], i))
  {
    assert forall i :: 0 <= i < |routes| - 1 ==> routes[1..][i] == routes[i + 1];
    if i: nat :| Offends(m, routes, i) { assert Offends(m', routes[1..], i - 1); }
    if i: nat :| Offends(m', routes[1..], i) { assert Offends(m, routes, i + 1); }
  }

  /** The first route for p that asks for a limiter, if any. */
  function FirstLimited(routes: seq<Route>, p: string): Created {
    if routes == [] then Nil
    else if routes[0].prefix == p && Limits(routes[0]).Created? then Limits(routes[0])
    else FirstLimited(routes[1..], p)
  }

  /** Reloads keep every limiter; a new prefix gets the limits of its first limited route. */
  lemma {:induction false} InstallIsFirstWins(m: map<string, Config>, routes: seq<Route>, p: string)
    ensures var (m', panicked) := Install(m, routes);
            && (p in m ==> p in m' && m'[p] == m[p])
            && (p !in m && !panicked ==>
                 if FirstLimited(routes, p).Created?
                 then p in m' && m'[p] == FirstLimited(routes, p).cfg
                 else p !in m')
    decreases |routes|
  {
    if routes != [] {
      if routes[0].prefix in m || Limits(routes[0]).Nil? {
        InstallIsFirstWins(m, routes[1..], p);
      } else if Limits(routes[0]).Created? {
        InstallIsFirstWins(m[routes[0].prefix := Limits(routes[0]).cfg], routes[1..], p);
      }
    }
  }

  lemma {:induction false} StopsAtPanic(routes: seq<Route>, n: nat)
    requires n <= |routes| && StartUp(routes[..n]).1
    ensures StartUp(routes) == StartUp(routes[..n])
  {
    if n == |routes| {
      assert routes[..n] == routes;
    } else {
      assert routes[..|routes| - 1][..n] == routes[..n];
      StopsAtPanic(routes[..|routes| - 1], n);
    }
  }

  class LimiterTable {
    var limiters: map<string, BackpressureLimiter>

    ghost function Configs(): map<string, Config> reads this {
      map p | p in limiters :: limiters[p].cfg
    }

    constructor ()
      ensures Configs() == map[]
    {
      limiters := map[];
    }

    /** The loop of NewGatewayHandler over its routes. */
    method Populate(routes: seq<Route>) returns (panicked: bool)
      requires limiters == map[]
      modifies this
      ensures (Configs(), panicked) == StartUp(routes)
      ensures forall p :: p in limiters ==> fresh(limiters[p]) && limiters[p].View() == EMPTY
    {
      panicked := false;
      for i := 0 to |routes|
        invariant (Configs(), false) == StartUp(routes[..i])
        invariant forall p :: p in limiters ==> fresh(limiters[p]) && limiters[p].View() == EMPTY
      {
        assert routes[..i + 1][..i] == routes[..i];
        var route := routes[i];
        if route.maxConcurrent > 0 {
          match NewLimiter(route.maxConcurrent, route.maxQueue, route.timeoutMs) {
            case Panicked =>
              StopsAtPanic(routes, i + 1);
              return true;
            case Created(cfg) =>
              ghost var before := Configs();
              var l := new BackpressureLimiter(cfg);
              limiters := limiters[route.prefix := l];
              assert Configs() == before[route.prefix := cfg];
            case Nil =>
          }
        }
      }
      assert routes[..|routes|] == routes;
    }

    /** UpdateRoutes: the loop over the new routes. */
    method UpdateRoutes(routes: seq<Route>) returns (panicked: bool)
      modifies this
      ensures (Configs(), panicked) == Install(old(Configs()), routes)
      ensures forall p :: p in old(limiters) ==> p in limiters && limiters[p] == old(limiters)[p]
      ensures forall p :: p in limiters && p !in old(limiters) ==> fresh(limiters[p]) && limiters[p].View() == EMPTY
    {
      var i := 0;
      while i < |routes|
        invariant 0 <= i <= |routes|
        invariant Install(old(Configs()), routes) == Install(Configs(), routes[i..])
        invariant forall p :: p in old(limiters) ==> p in limiters && limiters[p] == old(limiters)[p]
        invariant forall p :: p in limiters && p !in old(limiters) ==> fresh(limiters[p]) && limiters[p].View() == EMPTY
      {
        panicked := RegisterRoute(routes[i]);
        assert routes[i..][1..] == routes[i + 1..];
        if panicked {
          return;
        }
        i := i + 1;
      }
      panicked := false;
    }

    /** The limiter part of RegisterRoute, which is also the body of the UpdateRoutes loop. */
    method RegisterRoute(route: Route) returns (panicked: bool)
      modifies this
      ensures (Configs(), panicked) == Install(old(Configs()), [route])
      ensures forall p :: p in old(limiters) ==> p in limiters && limiters[p] == old(limiters)[p]
      ensures forall p :: p in limiters && p !in old(limiters) ==> fresh(limiters[p]) && limiters[p].View() == EMPTY
    {
      panicked := false;
      if route.maxConcurrent > 0 && route.prefix !in limiters {
        match NewLimiter(route.maxConcurrent, route.maxQueue, route.timeoutMs) {
          case Panicked => panicked := true;
          case Created(cfg) =>
            var l := new BackpressureLimiter(cfg);
            limiters := limiters[route.prefix := l];
            assert Configs() == old(Configs())[route.prefix := cfg];
          case Nil =>
        }
      }
    }
  }

  // ----- the gateway: limiter events of all prefixes interleaved with reloads -----

  datatype Gate = Gate(configs: map<string, Config>, states: map<string, State>)

  datatype GateEvent =
    | Reload(routes: seq<Route>)
    | At(prefix: string, event: Event)

  predicate GateEnabled(g: Gate, e: GateEvent) {
    match e
    case Reload(_) => true
    case At(p, ev) => p in g.configs && p in g.states && Enabled(g.configs[p], g.states[p], ev)
  }

  function GateNext(g: Gate, e: GateEvent): Gate
    requires GateEnabled(g, e)
  {
    match e
    case Reload(routes) =>
      var configs := Install(g.configs, routes).0;
      Gate(configs, map p | p in configs :: if p in g.states then g.states[p] else EMPTY)
    case At(p, ev) => g.(states := g.states[p := Next(g.configs[p], g.states[p], ev)])
  }

  ghost predicate IsGateRun(g: Gate, es: seq<GateEvent>)
    decreases |es|
  {
    es == [] || (GateEnabled(g, es[0]) && IsGateRun(GateNext(g, es[0]), es[1..]))
  }

  ghost function GateAfter(g: Gate, es: seq<GateEvent>): Gate
    requires IsGateRun(g, es)
    decreases |es|
  {
    if es == [] then g else GateAfter(GateNext(g, es[0]), es[1..])
  }

  /** The events of one limiter in a gateway run, reloads and other prefixes erased. */
  ghost function EventsOf(es: seq<GateEvent>, p: string): seq<Event> {
    if es == [] then []
    else if es[0].At? && es[0].prefix == p then [es[0].event] + EventsOf(es[1..], p)
    else EventsOf(es[1..], p)
  }

  ghost predicate GateInv(g: Gate) {
    && g.configs.Keys == g.states.Keys
    && forall p :: p in g.configs ==> Inv(g.configs[p], g.states[p])
  }

  /**
   Reloads are invisible to an existing limiter: over any gateway run its configuration stays the
   one it was created with and its state moves exactly by its own events, so the bounds proved for
   one limiter hold across reloads.
   */
  lemma {:induction false} ReloadsKeepLimiters(g: Gate, es: seq<GateEvent>, p: string)
    requires GateInv(g) && IsGateRun(g, es) && p in g.configs
    ensures var g' := GateAfter(g, es);
            && GateInv(g')
            && p in g'.configs && g'.configs[p] == g.configs[p]
            && IsRun(g.configs[p], g.states[p], EventsOf(es, p))
            && g'.states[p] == After(g.configs[p], g.states[p], EventsOf(es, p))
            && g'.states[p].sem == |Permits(g'.states[p])| <= g.configs[p].maxConcurrent
            && g'.states[p].queue == |QueueTokens(g'.states[p])| <= g.configs[p].maxQueue
    decreases |es|
  {
    if es != [] {
      var g1 := GateNext(g, es[0]);
      GateStep(g, es[0]);
      if es[0].Reload? { InstallIsFirstWins(g.configs, es[0].routes, p); }
      ReloadsKeepLimiters(g1, es[1..], p);
      if es[0].At? && es[0].prefix == p {
        assert EventsOf(es, p)[1..] == EventsOf(es[1..], p);
      }
    }
  }

  /** The gateway when NewGatewayHandler returns: every limiter idle. */
  function Started(routes: seq<Route>): Gate {
    var configs := StartUp(routes).0;
    Gate(configs, map p | p in configs :: EMPTY)
  }

  /**
   From start-up over every run, reloads included, a prefix is held to exactly the limits of the last
   start-up route that asked for some.
   */
  lemma RouteLimitsAreEnforced(routes: seq<Route>, p: string, i: nat, es: seq<GateEvent>)
    requires !StartUp(routes).1 && LastLimited(routes, p, i) && IsGateRun(Started(routes), es)
    ensures var (g, r) := (GateAfter(Started(routes), es), routes[i]);
            && LimitedAs(g.configs, p, r) && p in g.states
            && |Permits(g.states[p])| <= r.maxConcurrent && |QueueTokens(g.states[p])| <= r.maxQueue
  {
    assert Permits(EMPTY) == {} && QueueTokens(EMPTY) == {};
    LastLimitedRouteWins(routes, p);
    ReloadsKeepLimiters(Started(routes), es, p);
  }

  /** The routes of all reloads, in order. */
  ghost function Reloaded(es: seq<GateEvent>): seq<Route> {
    if es == [] then [] else (if es[0].Reload? then es[0].routes else []) + Reloaded(es[1..])
  }

  ghost predicate NoReloadPanics(g: Gate, es: seq<GateEvent>)
    requires IsGateRun(g, es)
    decreases |es|
  {
    es == [] || ((es[0].Reload? ==> !Install(g.configs, es[0].routes).1) && NoReloadPanics(GateNext(g, es[0]), es[1..]))
  }

  lemma {:induction false} FirstOfBoth(a: seq<Route>, b: seq<Route>, p: string)
    ensures FirstLimited(a + b, p) == if FirstLimited(a, p).Created? then FirstLimited(a, p) else FirstLimited(b, p)
  {
    if a == [] {
      assert a + b == b;
    } else {
      assert (a + b)[1..] == a[1..] + b;
      FirstOfBoth(a[1..], b, p);
    }
  }

  /** A prefix without a limiter gets one from the first route of any reload that asks for it. */
  lemma {:induction false} ReloadsAddFirst(g: Gate, es: seq<GateEvent>, p: string)
    requires GateInv(g) && IsGateRun(g, es) && p !in g.configs && NoReloadPanics(g, es)
    ensures var g' := GateAfter(g, es);
            if FirstLimited(Reloaded(es), p).Created?
            then p in g'.configs && g'.configs[p] == FirstLimited(Reloaded(es), p).cfg
            else p !in g'.configs
    decreases |es|
  {
    if es != [] {
      var g1 := GateNext(g, es[0]);
      GateStep(g, es[0]);
      var now := if es[0].Reload? then es[0].routes else [];
      FirstOfBoth(now, Reloaded(es[1..]), p);
      InstallIsFirstWins(g.configs, now, p);
      if p in g1.configs { ReloadsKeepLimiters(g1, es[1..], p); } else { ReloadsAddFirst(g1, es[1..], p); }
    }
  }

  lemma GateStep(g: Gate, e: GateEvent)
    requires GateInv(g) && GateEnabled(g, e)
    ensures GateInv(GateNext(g, e))
  {
    match e
    case Reload(routes) =>
      forall p ensures p in g.configs ==> p in GateNext(g, e).configs && GateNext(g, e).configs[p] == g.configs[p] {
        InstallIsFirstWins(g.configs, routes, p);
      }
      assert Permits(EMPTY) == {} && QueueTokens(EMPTY) == {};
    case At(p, ev) => StepKeepsTokens(g.configs[p], g.states[p], ev);
  }
}
