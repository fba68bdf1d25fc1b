/**
 The canary promotion loop (pkg/proxy/canary.go) with the statistics it reads (recorded by
 ServeHTTP in pkg/proxy/handler.go) and the weights it rewrites. One tick, one recorded response
 and one selection are atomic; the clock is read once per tick.
 */
module Canary {
  import opened Options
  import opened WeightedSplit

  type Time = int  // nanoseconds

  const SECOND: Time := 1_000_000_000

  datatype Route = Route(
    prefix: string, weighted: seq<Weighted>, autoPromote: bool, promoteStep: int, promoteSec: int, maxErrorRate: real)
  {
    function Step(): int { if promoteStep <= 0 then 10 else promoteStep }
    function Interval(): Time { if promoteSec * SECOND <= 0 then SECOND else promoteSec * SECOND }
    function ErrorLimit(): real { if maxErrorRate <= 0.0 then 0.01 else maxErrorRate }
  }

  datatype Stats = Stats(total: int, errors: int)

  datatype Gate = Gate(routes: seq<Route>, stats: map<string, Stats>, lastPromoted: map<string, Time>)

  datatype Verdict = Skipped | SwitchedOff | RolledBack | Primed | Waited | Promoted

  function Weights(ts: seq<Weighted>, stable: int, canary: int): seq<Weighted>
    requires |ts| >= 2
  {
    ts[0 := ts[0].(weight := stable)][1 := ts[1].(weight := canary)]
  }

  function Raised(route: Route): int
    requires |route.weighted| >= 2
  {
    Min(100, route.weighted[1].weight + route.Step())
  }

  /** What the loop body decides for a route. */
  function Judge(route: Route, stats: map<string, Stats>, last: map<string, Time>, now: Time): Verdict {
    if !route.autoPromote || |route.weighted| < 2 then Skipped
    else
      var canary := route.weighted[1];
      var s := if canary.name in stats then stats[canary.name] else Stats(0, 0);
      if canary.weight >= 100 then SwitchedOff
      else if s.total >= 3 && s.errors as real > route.ErrorLimit() * (s.total as real) then RolledBack
      else if route.prefix !in last then Primed
      else if now - last[route.prefix] >= route.Interval() then Promoted
      else Waited
  }

  function Apply(route: Route, v: Verdict): Route
    requires |route.weighted| < 2 ==> v.Skipped?
  {
    match v
    case SwitchedOff => route.(autoPromote := false)
    case RolledBack => route.(weighted := Weights(route.weighted, 100, 0), autoPromote := false)
    case Promoted => route.(weighted := Weights(route.weighted, 100 - Raised(route), Raised(route)))
    case _ => route
  }

  function TickOne(g: Gate, i: nat, now: Time): Gate
    requires i < |g.routes|
  {
    var route := g.routes[i];
    var v := Judge(route, g.stats, g.lastPromoted, now);
    var routes := g.routes[i := Apply(route, v)];
    match v
    case RolledBack => Gate(routes, g.stats - {route.weighted[1].name}, g.lastPromoted)
    case Primed => Gate(routes, g.stats, g.lastPromoted[route.prefix := now])
    case Promoted =>
      var url := route.weighted[1].name;
      Gate(routes, if url in g.stats then g.stats[url := Stats(0, 0)] else g.stats, g.lastPromoted[route.prefix := now])
    case _ => g.(routes := routes)
  }

  /** The gate when a tick has worked through its first n routes. */
  function TickTo(g: Gate, n: nat, now: Time): (g': Gate)
    requires n <= |g.routes|
    ensures |g'.routes| == |g.routes|
  {
    if n == 0 then g else TickOne(TickTo(g, n - 1, now), n - 1, now)
  }

  function Tick(g: Gate, now: Time): Gate { TickTo(g, |g.routes|, now) }

  /** The statistics update after a proxied response of route i. */
  function Record(g: Gate, i: nat, url: string, status: int): Gate {
    if i < |g.routes| && |g.routes[i].weighted| > 1 && url == g.routes[i].weighted[1].name then
      var s := if url in g.stats then g.stats[url] else Stats(0, 0);
      g.(stats := g.stats[url := Stats(s.total + 1, s.errors + if status >= 500 then 1 else 0)])
    else g
  }

  class CanaryEngine {
    var routes: seq<Route>
    var canaryStats: map<string, Stats>
    var lastPromoted: map<string, Time>

    ghost function View(): Gate reads this { Gate(routes, canaryStats, lastPromoted) }

    constructor (routes: seq<Route>)
      ensures View() == Gate(routes, map[], map[])
    {
      this.routes := routes;
      canaryStats, lastPromoted := map[], map[];
    }

    method SetWeights(i: nat, stable: int, canary: int)
      requires i < |routes| && |routes[i].weighted| >= 2
      modifies this`routes
      ensures routes == old(routes)[i := old(routes[i]).(weighted := Weights(old(routes[i]).weighted, stable, canary))]
    {
      var ts := routes[i].weighted;
      ts := ts[0 := ts[0].(weight := stable)];
      ts := ts[1 := ts[1].(weight := canary)];
      routes := routes[i := routes[i].(weighted := ts)];
    }

    /** The loop body for one route. */
    method TickRoute(i: nat, now: Time)
      requires i < |routes|
      modifies this
      ensures View() == TickOne(old(View()), i, now)
    {
      var route := routes[i];
      if !route.autoPromote || |route.weighted| < 2 {
        return;
      }
      var canary := route.weighted[1];
      if canary.weight >= 100 {
        routes := routes[i := route.(autoPromote := false)];
        return;
      }
      var total, errors := 0, 0;
      if canary.name in canaryStats {
        total, errors := canaryStats[canary.name].total, canaryStats[canary.name].errors;
      }
      var maxErrRate := route.maxErrorRate;
      if maxErrRate <= 0.0 {
        maxErrRate := 0.01;
      }
      if total >= 3 && errors as real > maxErrRate * (total as real) {
        SetWeights(i, 100, 0);
        routes := routes[i := routes[i].(autoPromote := false)];
        canaryStats := canaryStats - {canary.name};
        return;
      }
      var interval := route.promoteSec * SECOND;
      if interval <= 0 {
        interval := SECOND;
      }
      if route.prefix !in lastPromoted {
        lastPromoted := lastPromoted[route.prefix := now];
        return;
      }
      if now - lastPromoted[route.prefix] >= interval {
        var step := route.promoteStep;
        if step <= 0 {
          step := 10;
        }
        var raised := canary.weight + step;
        if raised > 100 {
          raised := 100;
        }
        SetWeights(i, 100 - raised, raised);
        lastPromoted := lastPromoted[route.prefix := now];
        if canary.name in canaryStats {
          canaryStats := canaryStats[canary.name := Stats(0, 0)];
        }
      }
    }

    /** One turn of the ticker loop. */
    method RunTick(now: Time)
      modifies this
      ensures View() == Tick(old(View()), now)
    {
      var n := |routes|;
      for i := 0 to n
        invariant |routes| == n
        invariant View() == TickTo(old(View()), i, now)
      {
        TickRoute(i, now);
      }
    }

    method RecordResponse(i: nat, url: string, status: int)
      modifies this`canaryStats
      ensures View() == Record(old(View()), i, url, status)
    {
      if i < |routes| && |routes[i].weighted| > 1 && url == routes[i].weighted[1].name {
        if url !in canaryStats {
          canaryStats := canaryStats[url := Stats(0, 0)];
        }
        var s := canaryStats[url].(total := canaryStats[url].total + 1);
        if status >= 500 {
          s := s.(errors := s.errors + 1);
        }
        canaryStats := canaryStats[url := s];
      }
    }
  }

  // ----- runs without route replacement -----

  datatype Event = Ticked(now: Time) | Responded(route: nat, url: string, status: int)

  datatype Run = Start(g: Gate) | Then(before: Run, e: Event)

  function After(run: Run): Gate {
    match run
    case Start(g) => g
    case Then(before, Ticked(now)) => Tick(After(before), now)
    case Then(before, Responded(i, url, status)) => Record(After(before), i, url, status)
  }

  function Initial(run: Run): Gate {
    match run
    case Start(g) => g
    case Then(before, _) => Initial(before)
  }

  lemma {:induction false} RoutesStay(run: Run)
    ensures |After(run).routes| == |Initial(run).routes|
  {
    if run.Then? { RoutesStay(run.before); }
  }

  lemma {:induction false} NotItsTurn(g: Gate, i: nat, n: nat, now: Time)
    requires n <= i < |g.routes|
    ensures TickTo(g, n, now).routes[i] == g.routes[i]
  {
    if n > 0 { NotItsTurn(g, i, n - 1, now); }
  }

  /** In a tick, a route changes only at its own turn, by the verdict of that moment. */
  lemma {:induction false} TickActsOnce(g: Gate, i: nat, n: nat, now: Time)
    requires i < n <= |g.routes|
    ensures TickTo(g, n, now).routes[i] == Apply(g.routes[i], VerdictOn(g, i, now))
  {
    NotItsTurn(g, i, i, now);
    if n - 1 > i { TickActsOnce(g, i, n - 1, now); }
  }

  /** The verdict a tick at `now` reaches on route i, when its turn comes. */
  function VerdictOn(g: Gate, i: nat, now: Time): Verdict
    requires i < |g.routes|
  {
    var turn := TickTo(g, i, now);
    Judge(g.routes[i], turn.stats, turn.lastPromoted, now)
  }

  // ----- statistics -----

  ghost predicate Sane(stats: map<string, Stats>) {
    forall u :: u in stats ==> 0 <= stats[u].errors <= stats[u].total
  }

  lemma {:induction false} TickKeepsStatsSane(g: Gate, n: nat, now: Time)
    requires n <= |g.routes| && Sane(g.stats)
    ensures Sane(TickTo(g, n, now).stats)
  {
    if n > 0 { TickKeepsStatsSane(g, n - 1, now); }
  }

  /** Recorded errors never exceed recorded calls. */
  lemma {:induction false} ErrorsNeverExceedCalls(run: Run)
    requires Sane(Initial(run).stats)
    ensures Sane(After(run).stats)
  {
    if run.Then? {
      ErrorsNeverExceedCalls(run.before);
      if run.e.Ticked? { TickKeepsStatsSane(After(run.before), |After(run.before).routes|, run.e.now); }
    }
  }

  /** A canary without a record counts as one without calls. */
  function StatsOf(stats: map<string, Stats>, url: string): Stats {
    if url in stats then stats[url] else Stats(0, 0)
  }

  /** Among the first n routes of a tick, one with this canary is promoted or rolled back. */
  ghost predicate ResetIn(g: Gate, n: nat, url: string, now: Time)
    requires n <= |g.routes|
  {
    exists j :: 0 <= j < n && Resets(g, j, url, now)
  }

  ghost predicate Resets(g: Gate, j: nat, url: string, now: Time)
    requires j < |g.routes|
  {
    && |g.routes[j].weighted| >= 2 && g.routes[j].weighted[1].name == url
    && (VerdictOn(g, j, now).RolledBack? || VerdictOn(g, j, now).Promoted?)
  }

  lemma StatsAfterTurn(g: Gate, j: nat, url: string, now: Time)
    requires j < |g.routes|
    ensures var (r, v) := (g.routes[j], Judge(g.routes[j], g.stats, g.lastPromoted, now));
            StatsOf(TickOne(g, j, now).stats, url) ==
              if |r.weighted| >= 2 && r.weighted[1].name == url && (v.RolledBack? || v.Promoted?) then Stats(0, 0)
              else StatsOf(g.stats, url)
  {
  }

  /** Within a tick, a canary's statistics are as before it until the first promotion or rollback clears them. */
  lemma {:induction false} StatsDuringTick(g: Gate, n: nat, url: string, now: Time)
    requires n <= |g.routes|
    ensures StatsOf(TickTo(g, n, now).stats, url) == if ResetIn(g, n, url, now) then Stats(0, 0) else StatsOf(g.stats, url)
  {
    if n > 0 {
      StatsDuringTick(g, n - 1, url, now);
      NotItsTurn(g, n - 1, n - 1, now);
      StatsAfterTurn(TickTo(g, n - 1, now), n - 1, url, now);
      assert ResetIn(g, n, url, now) <==> ResetIn(g, n - 1, url, now) || Resets(g, n - 1, url, now);
    }
  }

  /** A response served by the second weighted target of its route. */
  ghost predicate Counted(g: Gate, e: Event, url: string) {
    && e.Responded? && e.url == url && e.route < |g.routes|
    && |g.routes[e.route].weighted| > 1 && g.routes[e.route].weighted[1].name == url
  }

  // A canary's responses, and those with a server error, since the last tick that promoted or rolled
  // back a route with that canary; before the first such tick, on top of what the run starts with.
  ghost function CallsSince(run: Run, url: string): int {
    match run
    case Start(g) => StatsOf(g.stats, url).total
    case Then(before, Ticked(now)) =>
      if ResetIn(After(before), |After(before).routes|, url, now) then 0 else CallsSince(before, url)
    case Then(before, e) => CallsSince(before, url) + if Counted(After(before), e, url) then 1 else 0
  }

  ghost function ErrorsSince(run: Run, url: string): int {
    match run
    case Start(g) => StatsOf(g.stats, url).errors
    case Then(before, Ticked(now)) =>
      if ResetIn(After(before), |After(before).routes|, url, now) then 0 else ErrorsSince(before, url)
    case Then(before, e) =>
      ErrorsSince(before, url) + if Counted(After(before), e, url) && e.status >= 500 then 1 else 0
  }

  /** Over every run, the statistics count exactly the canary's responses and server errors since the last reset. */
  lemma {:induction false} StatsCountResponses(run: Run, url: string)
    ensures StatsOf(After(run).stats, url) == Stats(CallsSince(run, url), ErrorsSince(run, url))
  {
    if run.Then? {
      StatsCountResponses(run.before, url);
      if run.e.Ticked? { StatsDuringTick(After(run.before), |After(run.before).routes|, url, run.e.now); }
    }
  }

  // ----- the weights of one route -----

  ghost function Outcomes(run: Run, i: nat, v: Verdict): nat {
    match run
    case Start(_) => 0
    case Then(before, Ticked(now)) =>
      Outcomes(before, i, v) + if i < |After(before).routes| && VerdictOn(After(before), i, now) == v then 1 else 0
    case Then(before, _) => Outcomes(before, i, v)
  }

  ghost function Promotions(run: Run, i: nat): nat { Outcomes(run, i, Promoted) }

  ghost function Rollbacks(run: Run, i: nat): nat { Outcomes(run, i, RolledBack) }

  /** The route after k promotions and, if b > 0, a rollback, starting from r0. */
  ghost predicate Shape(r0: Route, r: Route, k: nat, b: nat)
    requires |r0.weighted| >= 2
  {
    var w0 := r0.weighted[1].weight;
    && r == r0.(weighted := r.weighted, autoPromote := r.autoPromote)
    && |r.weighted| == |r0.weighted|
    && (forall j :: 0 <= j < |r.weighted| ==> r.weighted[j].name == r0.weighted[j].name)
    && (forall j :: 2 <= j < |r.weighted| ==> r.weighted[j] == r0.weighted[j])
    && (k > 0 ==> w0 + k * r0.Step() - r0.Step() < 100)
    && b <= 1
    && (b > 0 ==> !r.autoPromote && r.weighted[0].weight == 100 && r.weighted[1].weight == 0)
    && (b == 0 ==> r.weighted[1].weight == Min(100, w0 + k * r0.Step()))
    && (b == 0 && k > 0 ==> r.weighted[0].weight == 100 - r.weighted[1].weight)
    && (b == 0 && k == 0 ==> r.weighted[0] == r0.weighted[0])
  }

  lemma VerdictKeepsShape(r0: Route, r: Route, k: nat, b: nat, stats: map<string, Stats>, last: map<string, Time>, now: Time)
    requires |r0.weighted| >= 2 && Shape(r0, r, k, b)
    ensures var v := Judge(r, stats, last, now);
            Shape(r0, Apply(r, v), if v.Promoted? then k + 1 else k, if v.RolledBack? then b + 1 else b)
  {
    assert (k + 1) * r0.Step() == k * r0.Step() + r0.Step();
  }

  /**
   Over any run from a canary weight of at most 100: a route's canary weight is its initial weight
   plus one step per promotion, capped at 100, or zero once it was rolled back, which happens at
   most once; stable and canary add up to 100 after the first change.
   */
  lemma {:induction false} WeightsFollowVerdicts(run: Run, i: nat)
    requires i < |Initial(run).routes| && |Initial(run).routes[i].weighted| >= 2
    requires Initial(run).routes[i].weighted[1].weight <= 100
    ensures |After(run).routes| == |Initial(run).routes|
    ensures Shape(Initial(run).routes[i], After(run).routes[i], Promotions(run, i), Rollbacks(run, i))
    ensures Rollbacks(run, i) <= 1
  {
    if run.Then? {
      WeightsFollowVerdicts(run.before, i);
      var g := After(run.before);
      if run.e.Ticked? {
        var turn := TickTo(g, i, run.e.now);
        TickActsOnce(g, i, |g.routes|, run.e.now);
        VerdictKeepsShape(Initial(run).routes[i], g.routes[i], Promotions(run.before, i), Rollbacks(run.before, i),
                          turn.stats, turn.lastPromoted, run.e.now);
      }
    }
  }

  lemma ShapeIsPercentages(r0: Route, r: Route, k: nat, b: nat)
    requires |r0.weighted| >= 2 && Shape(r0, r, k, b) && 0 <= r0.weighted[1].weight <= 100
    ensures 0 <= r.weighted[1].weight <= 100
    ensures k + b > 0 ==> r.weighted[0].weight + r.weighted[1].weight == 100
    ensures k + b == 0 ==> r.weighted == r0.weighted
  {
    assert k * r0.Step() >= 0;
    assert k == 0 ==> k * r0.Step() == 0;
  }

  /** From 0 <= w0 <= 100, both weights stay percentages that add up to 100 after the first change. */
  lemma WeightsArePercentages(run: Run, i: nat)
    requires i < |Initial(run).routes| && |Initial(run).routes[i].weighted| >= 2
    requires 0 <= Initial(run).routes[i].weighted[1].weight <= 100
    ensures i < |After(run).routes| && |After(run).routes[i].weighted| >= 2
    ensures var ts := After(run).routes[i].weighted;
            && 0 <= ts[1].weight <= 100
            && if Promotions(run, i) + Rollbacks(run, i) > 0 then ts[0].weight + ts[1].weight == 100
               else ts == Initial(run).routes[i].weighted
  {
    WeightsFollowVerdicts(run, i);
    ShapeIsPercentages(Initial(run).routes[i], After(run).routes[i], Promotions(run, i), Rollbacks(run, i));
  }

  /** A route is promoted at most ceil((100 - w0) / step) times. */
  lemma PromotionsEnd(run: Run, i: nat)
    requires i < |Initial(run).routes| && |Initial(run).routes[i].weighted| >= 2
    requires Initial(run).routes[i].weighted[1].weight <= 100
    ensures var r0 := Initial(run).routes[i];
            var step := if r0.promoteStep <= 0 then 10 else r0.promoteStep;
            Promotions(run, i) * step < 100 - r0.weighted[1].weight + step
  {
    WeightsFollowVerdicts(run, i);
  }

  /** Each promotion strictly raises the canary weight. */
  lemma PromotionRaisesWeight(g: Gate, i: nat, now: Time)
    requires i < |g.routes| && VerdictOn(g, i, now).Promoted?
    ensures |g.routes[i].weighted| >= 2 && |Tick(g, now).routes[i].weighted| >= 2
    ensures g.routes[i].weighted[1].weight < Tick(g, now).routes[i].weighted[1].weight <= 100
  {
    TickActsOnce(g, i, |g.routes|, now);
  }

  // ----- the ends: rolled back or fully promoted -----

  /** A route whose automatic promotion is off never changes again. */
  lemma {:induction false} SwitchedOffIsFinal(run: Run, i: nat)
    requires i < |Initial(run).routes| && !Initial(run).routes[i].autoPromote
    ensures i < |After(run).routes| && After(run).routes[i] == Initial(run).routes[i]
  {
    if run.Then? {
      SwitchedOffIsFinal(run.before, i);
      if run.e.Ticked? { TickActsOnce(After(run.before), i, |After(run.before).routes|, run.e.now); }
    }
  }

  /**
   After a rollback, and until the route is replaced, no selection ever picks the canary index,
   and with non-negative weights the stable target owns exactly 100 draws.
   */
  lemma RolledBackCanaryGetsNothing(g: Gate, i: nat, now: Time, run: Run, draw: nat)
    requires i < |g.routes| && VerdictOn(g, i, now).RolledBack? && Initial(run) == Tick(g, now)
    ensures i < |After(run).routes| && |After(run).routes[i].weighted| >= 2
    ensures var ts := After(run).routes[i].weighted;
            && !Owns(ts, 1, draw)
            && (NonNegative(ts) ==> |Draws(ts, 0)| == 100 && |Draws(ts, 1)| == 0)
  {
    TickActsOnce(g, i, |g.routes|, now);
    SwitchedOffIsFinal(run, i);
    var ts := After(run).routes[i].weighted;
    ZeroWeightIsNeverPicked(ts, 1, draw);
    if NonNegative(ts) {
      assert Prefix(ts, 1) == 100;
      PrefixesGrow(ts, 1, |ts|);
      SplitIsExactIffNonNegative(ts);
    }
  }

  /** A fully promoted canary keeps all its weight, whatever its error rate: the next tick only switches off. */
  lemma FullPromotionIsFinal(g: Gate, i: nat, now: Time, run: Run)
    requires i < |g.routes| && |g.routes[i].weighted| >= 2 && g.routes[i].weighted[1].weight >= 100
    requires Initial(run) == Tick(g, now)
    ensures i < |After(run).routes|
    ensures After(run).routes[i] == g.routes[i].(autoPromote := false)
  {
    TickActsOnce(g, i, |g.routes|, now);
    SwitchedOffIsFinal(run, i);
  }

  // ----- routes that share a canary or a prefix -----

  ghost predicate ApartFromEarlier(routes: seq<Route>, i: nat)
    requires i < |routes| && |routes[i].weighted| >= 2
  {
    forall j :: 0 <= j < i && |routes[j].weighted| >= 2 ==>
      routes[j].prefix != routes[i].prefix && routes[j].weighted[1].name != routes[i].weighted[1].name
  }

  lemma {:induction false} EarlierRoutesDoNotInterfere(g: Gate, i: nat, n: nat, now: Time)
    requires n <= i < |g.routes| && |g.routes[i].weighted| >= 2 && ApartFromEarlier(g.routes, i)
    ensures var turn := TickTo(g, n, now);
            var (url, prefix) := (g.routes[i].weighted[1].name, g.routes[i].prefix);
            && (url in turn.stats <==> url in g.stats)
            && (url in g.stats ==> turn.stats[url] == g.stats[url])
            && (prefix in turn.lastPromoted <==> prefix in g.lastPromoted)
            && (prefix in g.lastPromoted ==> turn.lastPromoted[prefix] == g.lastPromoted[prefix])
  {
    if n > 0 {
      EarlierRoutesDoNotInterfere(g, i, n - 1, now);
      NotItsTurn(g, n - 1, n - 1, now);
    }
  }

  /** Routes with prefixes and canaries of their own are judged by the state at the start of the tick. */
  lemma SeparateRoutesAreJudgedAlone(g: Gate, i: nat, now: Time)
    requires i < |g.routes| && |g.routes[i].weighted| >= 2 && ApartFromEarlier(g.routes, i)
    ensures VerdictOn(g, i, now) == Judge(g.routes[i], g.stats, g.lastPromoted, now)
  {
    EarlierRoutesDoNotInterfere(g, i, i, now);
  }

  /** A route whose canary may still be rolled back. */
  predicate OnTrial(route: Route) {
    route.autoPromote && |route.weighted| >= 2 && route.weighted[1].weight < 100
  }

  /** Three calls or more with an error rate above the route's limit. */
  predicate Failing(route: Route, total: int, errors: int) {
    total >= 3 && errors as real / total as real > if route.maxErrorRate <= 0.0 then 0.01 else route.maxErrorRate
  }

  /**
   For every route: it is rolled back exactly if it is on trial, its canary was failing before the
   tick, and no earlier route with the same canary is promoted or rolled back in this tick.
   */
  lemma RollbackIff(g: Gate, i: nat, now: Time)
    requires i < |g.routes|
    ensures var r := g.routes[i];
            VerdictOn(g, i, now).RolledBack? <==>
              && OnTrial(r)
              && var (url, s) := (r.weighted[1].name, StatsOf(g.stats, r.weighted[1].name));
                 Failing(r, s.total, s.errors) && !ResetIn(g, i, url, now)
  {
    var r := g.routes[i];
    if OnTrial(r) {
      StatsDuringTick(g, i, r.weighted[1].name, now);
      var s := StatsOf(g.stats, r.weighted[1].name);
      if s.total >= 3 { RateAbove(s.errors as real, s.total as real, r.ErrorLimit()); }
    }
  }

  /**
   In terms of responses, over every run: the next tick rolls a route back exactly if the canary has
   had three responses or more since the last reset, too many of them server errors.
   */
  lemma RollbackFollowsResponses(run: Run, i: nat, now: Time)
    requires i < |After(run).routes|
    ensures var g := After(run);
            VerdictOn(g, i, now).RolledBack? <==>
              && OnTrial(g.routes[i])
              && var url := g.routes[i].weighted[1].name;
                 Failing(g.routes[i], CallsSince(run, url), ErrorsSince(run, url)) && !ResetIn(g, i, url, now)
  {
    RollbackIff(After(run), i, now);
    if OnTrial(After(run).routes[i]) { StatsCountResponses(run, After(run).routes[i].weighted[1].name); }
  }

  lemma RateAbove(errors: real, total: real, limit: real)
    requires total > 0.0
    ensures errors / total > limit <==> errors > limit * total
  {
    assert errors == errors / total * total;
    var rate := errors / total;
    assert (rate - limit) * total == errors - limit * total;
    assert rate > limit ==> (rate - limit) * total > 0.0;
    assert rate <= limit ==> (limit - rate) * total >= 0.0;
  }

  // ----- every verdict, exactly -----

  /** At its turn, route j is promoted or has its promotion clock started, under this prefix. */
  ghost predicate Marks(g: Gate, j: nat, prefix: string, now: Time)
    requires j < |g.routes|
  {
    g.routes[j].prefix == prefix && (VerdictOn(g, j, now).Promoted? || VerdictOn(g, j, now).Primed?)
  }

  ghost predicate MarkedIn(g: Gate, n: nat, prefix: string, now: Time)
    requires n <= |g.routes|
  {
    exists j :: 0 <= j < n && Marks(g, j, prefix, now)
  }

  function ClockOf(last: map<string, Time>, prefix: string): Option<Time> {
    if prefix in last then Some(last[prefix]) else None
  }

  lemma ClockAfterTurn(g: Gate, j: nat, prefix: string, now: Time)
    requires j < |g.routes|
    ensures var v := Judge(g.routes[j], g.stats, g.lastPromoted, now);
            ClockOf(TickOne(g, j, now).lastPromoted, prefix) ==
              if g.routes[j].prefix == prefix && (v.Promoted? || v.Primed?) then Some(now) else ClockOf(g.lastPromoted, prefix)
  {
  }

  lemma ClockAfterTurnInTick(g: Gate, j: nat, prefix: string, now: Time)
    requires j < |g.routes|
    ensures ClockOf(TickTo(g, j + 1, now).lastPromoted, prefix) ==
              if Marks(g, j, prefix, now) then Some(now) else ClockOf(TickTo(g, j, now).lastPromoted, prefix)
  {
    NotItsTurn(g, j, j, now);
    ClockAfterTurn(TickTo(g, j, now), j, prefix, now);
    assert TickTo(g, j + 1, now) == TickOne(TickTo(g, j, now), j, now);
  }

  lemma MarkedNext(g: Gate, j: nat, prefix: string, now: Time)
    requires j < |g.routes|
    ensures MarkedIn(g, j + 1, prefix, now) <==> MarkedIn(g, j, prefix, now) || Marks(g, j, prefix, now)
  {
  }

  /** Within a tick, a prefix's clock is as before it until a route with that prefix is promoted or first seen. */
  lemma {:induction false} ClockDuringTick(g: Gate, n: nat, prefix: string, now: Time)
    requires n <= |g.routes|
    ensures ClockOf(TickTo(g, n, now).lastPromoted, prefix) ==
              if MarkedIn(g, n, prefix, now) then Some(now) else ClockOf(g.lastPromoted, prefix)
  {
    if n > 0 {
      ClockDuringTick(g, n - 1, prefix, now);
      ClockAfterTurnInTick(g, n - 1, prefix, now);
      MarkedNext(g, n - 1, prefix, now);
    }
  }

  /** The clock of the route's prefix was set an interval ago, a second unless promoteSec is positive. */
  predicate Due(route: Route, last: map<string, Time>, now: Time) {
    && route.prefix in last
    && now >= last[route.prefix] + if route.promoteSec <= 0 then 1_000_000_000 else route.promoteSec * 1_000_000_000
  }

  /**
   For every route: promoted exactly if on trial, not rolled back, due by the clock before the tick,
   and no earlier route of its prefix is promoted or first seen in this tick; and so for the others.
   */
  lemma VerdictIff(g: Gate, i: nat, now: Time)
    requires i < |g.routes|
    ensures var (r, v) := (g.routes[i], VerdictOn(g, i, now));
            && (v.Promoted? <==>
                 OnTrial(r) && !v.RolledBack? && Due(r, g.lastPromoted, now) && !MarkedIn(g, i, r.prefix, now))
            && (v.Primed? <==>
                 OnTrial(r) && !v.RolledBack? && r.prefix !in g.lastPromoted && !MarkedIn(g, i, r.prefix, now))
            && (v.SwitchedOff? <==> r.autoPromote && |r.weighted| >= 2 && r.weighted[1].weight >= 100)
            && (v.Skipped? <==> !r.autoPromote || |r.weighted| < 2)
  {
    ClockDuringTick(g, i, g.routes[i].prefix, now);
    IntervalSpelled(g.routes[i]);
  }

  lemma IntervalSpelled(r: Route)
    ensures r.Interval() == (if r.promoteSec <= 0 then 1_000_000_000 else r.promoteSec * 1_000_000_000) > 0
  {
  }

  /** What a verdict makes of the route: a promotion adds a step, ten unless promoteStep is positive, up to 100. */
  lemma VerdictsDo(g: Gate, i: nat, now: Time)
    requires i < |g.routes|
    ensures var (r, r', v) := (g.routes[i], Tick(g, now).routes[i], VerdictOn(g, i, now));
            && (v.Promoted? ==>
                 && |r.weighted| >= 2
                 && var raised := r.weighted[1].weight + if r.promoteStep <= 0 then 10 else r.promoteStep;
                    var w := if raised > 100 then 100 else raised;
                    r' == r.(weighted := [Weighted(r.weighted[0].name, 100 - w), Weighted(r.weighted[1].name, w)] + r.weighted[2..]))
            && (v.RolledBack? ==>
                 && |r.weighted| >= 2
                 && r' == r.(weighted := [Weighted(r.weighted[0].name, 100), Weighted(r.weighted[1].name, 0)] + r.weighted[2..],
                             autoPromote := false))
            && (v.SwitchedOff? ==> r' == r.(autoPromote := false))
            && (v.Skipped? || v.Primed? || v.Waited? ==> r' == r)
  {
    TickActsOnce(g, i, |g.routes|, now);
    var r := g.routes[i];
    if |r.weighted| >= 2 {
      WeightsSpelled(r.weighted, 100 - Raised(r), Raised(r));
      WeightsSpelled(r.weighted, 100, 0);
    }
  }

  lemma WeightsSpelled(ts: seq<Weighted>, stable: int, canary: int)
    requires |ts| >= 2
    ensures Weights(ts, stable, canary) == [Weighted(ts[0].name, stable), Weighted(ts[1].name, canary)] + ts[2..]
  {
  }

  /** Of the routes that share a canary, a tick rolls back at most one, and none after promoting another. */
  lemma SharedCanaryIsRolledBackOnce(g: Gate, i: nat, j: nat, now: Time)
    requires i < j < |g.routes| && |g.routes[i].weighted| >= 2 && |g.routes[j].weighted| >= 2
    requires g.routes[i].weighted[1].name == g.routes[j].weighted[1].name
    ensures VerdictOn(g, i, now).RolledBack? || VerdictOn(g, i, now).Promoted? ==> !VerdictOn(g, j, now).RolledBack?
  {
    RollbackIff(g, j, now);
    assert Resets(g, i, g.routes[j].weighted[1].name, now) ==> ResetIn(g, j, g.routes[j].weighted[1].name, now);
  }

  /**
   Both ways to escape occur: the second of two routes with a failing canary keeps its weights because
   the first is rolled back (limit 0.5), or because the first tolerates the errors and is promoted (2.0).
   */
  lemma SharedCanaryCanEscape(limit: real, now: Time)
    requires limit == 0.5 || limit == 2.0
    ensures var r := Route("/a", [Weighted("stable", 50), Weighted("canary", 50)], true, 10, 1, limit);
            var r' := r.(prefix := "/b", maxErrorRate := 0.5);
            var g := Gate([r, r'], map["canary" := Stats(10, 10)], map["/a" := now - SECOND]);
            && OnTrial(r') && Failing(r', 10, 10)
            && (limit == 0.5 ==> VerdictOn(g, 0, now).RolledBack?) && (limit == 2.0 ==> VerdictOn(g, 0, now).Promoted?)
            && VerdictOn(g, 1, now).Primed? && Tick(g, now).routes[1] == r'
  {
    var r := Route("/a", [Weighted("stable", 50), Weighted("canary", 50)], true, 10, 1, limit);
    var r' := r.(prefix := "/b", maxErrorRate := 0.5);
    var g := Gate([r, r'], map["canary" := Stats(10, 10)], map["/a" := now - SECOND]);
    assert TickTo(g, 0, now) == g;
    assert TickTo(g, 1, now) == TickOne(g, 0, now);
    TickActsOnce(g, 1, 2, now);
  }

  // ----- pace -----

  ghost predicate Between(last: map<string, Time>, t0: Time, now: Time) {
    forall p :: p in last ==> t0 <= last[p] <= now
  }

  ghost predicate NoEarlier(before: map<string, Time>, after: map<string, Time>) {
    forall p :: p in before ==> p in after && before[p] <= after[p]
  }

  lemma {:induction false} TickMovesClocksOn(g: Gate, i: nat, n: nat, t0: Time, now: Time)
    requires i <= n <= |g.routes| && t0 <= now && Between(g.lastPromoted, t0, now)
    ensures Between(TickTo(g, n, now).lastPromoted, t0, now)
    ensures NoEarlier(TickTo(g, i, now).lastPromoted, TickTo(g, n, now).lastPromoted)
    decreases n
  {
    if i < n {
      TickMovesClocksOn(g, i, n - 1, t0, now);
    } else if n > 0 {
      TickMovesClocksOn(g, n - 1, n - 1, t0, now);
    }
  }

  ghost predicate Times(run: Run, t0: Time, now: Time) {
    match run
    case Start(g) => t0 <= now && g.lastPromoted == map[]
    case Then(before, Ticked(t)) => Times(before, t0, t) && t <= now
    case Then(before, _) => Times(before, t0, now)
  }

  ghost predicate Paced(g: Gate, i: nat, k: nat, t0: Time)
    requires i < |g.routes|
  {
    var (p, d) := (g.routes[i].prefix, g.routes[i].Interval());
    if p in g.lastPromoted then k * d <= g.lastPromoted[p] - t0 else k == 0
  }

  lemma TickKeepsPace(g: Gate, i: nat, k: nat, t0: Time, now: Time)
    requires i < |g.routes| && t0 <= now && Between(g.lastPromoted, t0, now) && Paced(g, i, k, t0)
    ensures Paced(Tick(g, now), i, if VerdictOn(g, i, now).Promoted? then k + 1 else k, t0)
  {
    var (p, d) := (g.routes[i].prefix, g.routes[i].Interval());
    var turn := TickTo(g, i, now);
    NotItsTurn(g, i, i, now);
    TickMovesClocksOn(g, 0, i, t0, now);
    assert p in g.lastPromoted ==> p in turn.lastPromoted;
    assert k == 0 ==> k * d == 0;
    assert Paced(turn, i, k, t0);
    TickMovesClocksOn(g, i, i + 1, t0, now);
    var next := TickTo(g, i + 1, now);
    assert next == TickOne(turn, i, now);
    assert (k + 1) * d == k * d + d;
    TickMovesClocksOn(g, i + 1, |g.routes|, t0, now);
    TickActsOnce(g, i, |g.routes|, now);
    assert p in next.lastPromoted ==> p in Tick(g, now).lastPromoted;
  }

  lemma {:induction false} RunKeepsPace(run: Run, i: nat, t0: Time, now: Time)
    requires Times(run, t0, now) && i < |Initial(run).routes|
    ensures i < |After(run).routes| && Between(After(run).lastPromoted, t0, now)
    ensures Paced(After(run), i, Promotions(run, i), t0) && t0 <= now
  {
    match run
    case Start(g) =>
    case Then(before, Ticked(t)) =>
      RunKeepsPace(before, i, t0, t);
      TickKeepsPace(After(before), i, Promotions(before, i), t0, t);
      TickMovesClocksOn(After(before), 0, |After(before).routes|, t0, t);
    case Then(before, _) => RunKeepsPace(before, i, t0, now);
  }

  /** k promotions of a route take at least k promotion intervals, even if routes share a prefix. */
  lemma PromotionsTakeTime(run: Run, i: nat, t0: Time, now: Time)
    requires Times(run, t0, now) && i < |Initial(run).routes|
    ensures i < |After(run).routes|
    ensures Promotions(run, i) * After(run).routes[i].Interval() <= now - t0
  {
    RunKeepsPace(run, i, t0, now);
    if Promotions(run, i) == 0 { assert 0 * After(run).routes[i].Interval() == 0; }
  }

  // ----- promotions do come -----

  /** By how much a route's weight may still be raised. */
  function Room(route: Route): nat { if OnTrial(route) then 100 - route.weighted[1].weight else 0 }

  /** The same for all routes of a prefix. */
  function TotalRoom(routes: seq<Route>, prefix: string): nat {
    if routes == [] then 0
    else
      var last := routes[|routes| - 1];
      TotalRoom(routes[..|routes| - 1], prefix) + if last.prefix == prefix then Room(last) else 0
  }

  lemma {:induction false} RoomChanges(routes: seq<Route>, i: nat, r: Route, prefix: string)
    requires i < |routes| && r.prefix == routes[i].prefix
    ensures TotalRoom(routes[i := r], prefix) ==
              TotalRoom(routes, prefix) + if r.prefix == prefix then Room(r) - Room(routes[i]) else 0
  {
    var n := |routes| - 1;
    if i < n {
      assert routes[i := r][..n] == routes[..n][i := r];
      RoomChanges(routes[..n], i, r, prefix);
    } else {
      assert routes[i := r][..n] == routes[..n];
    }
  }

  /** How often a prefix's clock can still be set: once for the first time, and by promotions. */
  function Budget(g: Gate, prefix: string): nat {
    TotalRoom(g.routes, prefix) + if prefix in g.lastPromoted then 0 else 1
  }

  lemma TurnSpends(g: Gate, i: nat, prefix: string, now: Time)
    requires i < |g.routes|
    ensures var v := Judge(g.routes[i], g.stats, g.lastPromoted, now);
            var spent := if g.routes[i].prefix == prefix && (v.Promoted? || v.Primed?) then 1 else 0;
            Budget(TickOne(g, i, now), prefix) + spent <= Budget(g, prefix)
  {
    var r := g.routes[i];
    var v := Judge(r, g.stats, g.lastPromoted, now);
    RoomChanges(g.routes, i, Apply(r, v), prefix);
    ClockAfterTurn(g, i, prefix, now);
    assert Room(Apply(r, v)) + (if v.Promoted? then 1 else 0) <= Room(r);
    assert TickOne(g, i, now).routes == g.routes[i := Apply(r, v)];
  }

  lemma TurnInTickSpends(g: Gate, j: nat, prefix: string, now: Time)
    requires j < |g.routes|
    ensures Budget(TickTo(g, j + 1, now), prefix) + (if Marks(g, j, prefix, now) then 1 else 0) <= Budget(TickTo(g, j, now), prefix)
  {
    NotItsTurn(g, j, j, now);
    TurnSpends(TickTo(g, j, now), j, prefix, now);
    assert TickTo(g, j + 1, now) == TickOne(TickTo(g, j, now), j, now);
  }

  /** A tick that sets a prefix's clock spends some of its budget. */
  lemma {:induction false} TickSpends(g: Gate, n: nat, prefix: string, now: Time)
    requires n <= |g.routes|
    ensures Budget(TickTo(g, n, now), prefix) <= Budget(g, prefix)
    ensures MarkedIn(g, n, prefix, now) ==> Budget(TickTo(g, n, now), prefix) < Budget(g, prefix)
  {
    if n > 0 {
      TickSpends(g, n - 1, prefix, now);
      TurnInTickSpends(g, n - 1, prefix, now);
      MarkedNext(g, n - 1, prefix, now);
    }
  }

  /** The clock does not go back, and no promotion lies in the future. */
  ghost predicate InOrder(run: Run, now: Time) {
    match run
    case Start(g) => forall p :: p in g.lastPromoted ==> g.lastPromoted[p] <= now
    case Then(before, Ticked(t)) => InOrder(before, t) && t <= now
    case Then(before, _) => InOrder(before, now)
  }

  /** Ticks that come at least d after the one counted before them, and the time of the last. */
  ghost function SpacedTicks(run: Run, d: Time): (nat, Time) {
    match run
    case Start(_) => (0, 0)
    case Then(before, Ticked(t)) =>
      var (n, last) := SpacedTicks(before, d);
      if n == 0 || t - last >= d then (n + 1, t) else (n, last)
    case Then(before, _) => SpacedTicks(before, d)
  }

  lemma {:induction false} NoClockAhead(run: Run, now: Time, prefix: string)
    requires InOrder(run, now) && prefix in After(run).lastPromoted
    ensures After(run).lastPromoted[prefix] <= now
  {
    match run
    case Start(_) =>
    case Then(before, Ticked(t)) =>
      ClockDuringTick(After(before), |After(before).routes|, prefix, t);
      if !MarkedIn(After(before), |After(before).routes|, prefix, t) { NoClockAhead(before, t, prefix); }
    case Then(before, _) => NoClockAhead(before, now, prefix);
  }

  /** A tick that leaves a route on trial has set its prefix's clock, or the clock was set less than an interval ago. */
  lemma TickMarksOrWaits(g: Gate, i: nat, now: Time)
    requires i < |g.routes| && OnTrial(Tick(g, now).routes[i])
    ensures var r := g.routes[i];
            && OnTrial(r) && Tick(g, now).routes[i].prefix == r.prefix && Tick(g, now).routes[i].Interval() == r.Interval()
            && (MarkedIn(g, |g.routes|, r.prefix, now)
                || (r.prefix in g.lastPromoted && now - g.lastPromoted[r.prefix] < r.Interval()))
  {
    VerdictIff(g, i, now);
    VerdictsDo(g, i, now);
    IntervalSpelled(g.routes[i]);
    if MarkedIn(g, i, g.routes[i].prefix, now) {
      var j :| 0 <= j < i && Marks(g, j, g.routes[i].prefix, now);
      assert Marks(g, j, g.routes[i].prefix, now) && j < |g.routes|;
    } else if VerdictOn(g, i, now).Promoted? || VerdictOn(g, i, now).Primed? {
      assert Marks(g, i, g.routes[i].prefix, now);
    }
  }

  /** While a route is on trial, every spaced tick but the first is paid for from its prefix's budget. */
  lemma {:induction false} SpacedTicksArePaidFor(run: Run, i: nat, now: Time)
    requires InOrder(run, now) && i < |After(run).routes| && OnTrial(After(run).routes[i])
    ensures i < |Initial(run).routes| && Initial(run).routes[i].prefix == After(run).routes[i].prefix
    ensures var (g, r) := (After(run), After(run).routes[i]);
            var (n, last) := SpacedTicks(run, r.Interval());
            && Budget(g, r.prefix) <= Budget(Initial(run), r.prefix)
            && n <= Budget(Initial(run), r.prefix) - Budget(g, r.prefix) + 1
            && (n > 0 && r.prefix in g.lastPromoted && g.lastPromoted[r.prefix] > last ==>
                 n <= Budget(Initial(run), r.prefix) - Budget(g, r.prefix))
            && (n > 0 ==> last <= now)
  {
    match run
    case Start(_) =>
    case Then(before, Ticked(t)) =>
      var g := After(before);
      TickMarksOrWaits(g, i, t);
      SpacedTicksArePaidFor(before, i, t);
      var p := g.routes[i].prefix;
      TickSpends(g, |g.routes|, p, t);
      ClockDuringTick(g, |g.routes|, p, t);
      if p in g.lastPromoted { NoClockAhead(before, t, p); }
    case Then(before, _) => SpacedTicksArePaidFor(before, i, now);
  }

  /** A route that left its trial without a rollback has its full weight. */
  lemma {:induction false} TrialsEndWell(run: Run, i: nat)
    requires i < |Initial(run).routes| && Initial(run).routes[i].autoPromote && |Initial(run).routes[i].weighted| >= 2
    requires Rollbacks(run, i) == 0
    ensures i < |After(run).routes| && |After(run).routes[i].weighted| >= 2
    ensures OnTrial(After(run).routes[i]) || After(run).routes[i].weighted[1].weight >= 100
  {
    if run.Then? {
      TrialsEndWell(run.before, i);
      if run.e.Ticked? {
        VerdictsDo(After(run.before), i, run.e.now);
        VerdictIff(After(run.before), i, run.e.now);
      }
    }
  }

  /**
   A route on trial that is never rolled back reaches its full weight: it has, once there were more than
   Budget + 1 ticks each at least its interval after the one before, whatever other ticks and routes there are.
   */
  lemma PromotionCompletes(run: Run, i: nat, now: Time)
    requires InOrder(run, now) && i < |Initial(run).routes| && OnTrial(Initial(run).routes[i]) && Rollbacks(run, i) == 0
    requires SpacedTicks(run, Initial(run).routes[i].Interval()).0 > Budget(Initial(run), Initial(run).routes[i].prefix) + 1
    ensures i < |After(run).routes| && |After(run).routes[i].weighted| >= 2
    ensures After(run).routes[i].weighted[1].weight >= 100
  {
    TrialsEndWell(run, i);
    if OnTrial(After(run).routes[i]) {
      SpacedTicksArePaidFor(run, i, now);
      IntervalStays(run, i);
    }
  }

  lemma {:induction false} IntervalStays(run: Run, i: nat)
    requires i < |Initial(run).routes|
    ensures i < |After(run).routes| && After(run).routes[i].Interval() == Initial(run).routes[i].Interval()
  {
    if run.Then? {
      IntervalStays(run.before, i);
      if run.e.Ticked? { TickActsOnce(After(run.before), i, |After(run.before).routes|, run.e.now); }
    }
  }
}
