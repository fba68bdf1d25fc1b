/**
 Target selection among equal targets (pkg/proxy/handler.go): selectTarget with its least_conn,
 backpressure and round robin branches, and the connection counters incConn and decConn.
 */
module Balancer {
  import opened WeightedSplit

  datatype Route = Route(
    prefix: string, target: string, targets: seq<string>, weighted: seq<Weighted>, loadBalancer: string)

  function Get(m: map<string, int>, k: string): int { if k in m then m[k] else 0 }

  // ----- the minimum loop with -1 standing for "none yet" -----

  /** Running minimum and selected index after the first n loads. */
  function Scan(loads: seq<int>, n: nat): (int, nat)
    requires n <= |loads|
  {
    if n == 0 then (-1, 0)
    else
      var (min, sel) := Scan(loads, n - 1);
      if min == -1 || loads[n - 1] < min then (loads[n - 1], n - 1) else (min, sel)
  }

  function Selected(loads: seq<int>): nat { Scan(loads, |loads|).1 }

  function LoadsOf(targets: seq<string>, m: map<string, int>): seq<int> {
    seq(|targets|, i requires 0 <= i < |targets| => Get(m, targets[i]))
  }

  method PickLeast(targets: seq<string>, m: map<string, int>) returns (selected: string)
    ensures targets == [] ==> selected == ""
    ensures targets != [] ==>
              Selected(LoadsOf(targets, m)) < |targets| && selected == targets[Selected(LoadsOf(targets, m))]
  {
    var min := -1;
    selected := "";
    ghost var loads := LoadsOf(targets, m);
    for k := 0 to |targets|
      invariant min == Scan(loads, k).0
      invariant if k == 0 then selected == "" else Scan(loads, k).1 < k && selected == targets[Scan(loads, k).1]
    {
      var load := Get(m, targets[k]);
      if min == -1 || load < min {
        min := load;
        selected := targets[k];
      }
    }
  }

  ghost predicate IsFirstLeast(loads: seq<int>, i: nat) {
    && i < |loads|
    && (forall j :: 0 <= j < |loads| ==> loads[i] <= loads[j])
    && (forall j :: 0 <= j < i ==> loads[i] < loads[j])
  }

  /** Unless a load is -1, as no connection count is, the loop picks the first least loaded target. */
  lemma {:induction false} ScanFindsFirstLeast(loads: seq<int>, n: nat)
    requires 0 < n <= |loads| && forall j :: 0 <= j < n ==> loads[j] != -1
    ensures Scan(loads, n).1 < n && Scan(loads, n).0 == loads[Scan(loads, n).1]
    ensures IsFirstLeast(loads[..n], Scan(loads, n).1)
  {
    if n > 1 { ScanFindsFirstLeast(loads, n - 1); }
  }

  /** The running minimum once loads may be negative, as a reported load may. */
  lemma {:induction false} ScanMinimum(loads: seq<int>, n: nat)
    requires 0 < n <= |loads|
    ensures var (min, sel) := Scan(loads, n);
            && sel < n && min == loads[sel]
            && (min < -1 ==> forall j :: 0 <= j < n ==> min <= loads[j])
            && ((exists j :: 0 <= j < n && loads[j] < -1) ==> min < -1)
            && ((forall j :: 0 <= j < n ==> loads[j] > -1) ==> forall j :: 0 <= j < n ==> min <= loads[j])
            && ((forall j :: 0 <= j < n ==> loads[j] >= -1) ==> (min == -1 <==> loads[n - 1] == -1))
  {
    if n > 1 { ScanMinimum(loads, n - 1); }
  }

  /**
   A reported load of -1 collides with the marker: the backpressure branch selects a least loaded
   target exactly when the least load is not -1 or the last target carries it.
   */
  lemma BackpressurePicksLeastIff(loads: seq<int>)
    requires loads != []
    ensures Selected(loads) < |loads|
    ensures (forall j :: 0 <= j < |loads| ==> loads[Selected(loads)] <= loads[j]) <==>
              || (exists j :: 0 <= j < |loads| && loads[j] < -1)
              || (forall j :: 0 <= j < |loads| ==> loads[j] != -1)
              || loads[|loads| - 1] == -1
  {
    ScanMinimum(loads, |loads|);
  }

  lemma BackpressureCanPickTheBusiest()
    ensures Selected([-1, 100]) == 1
  {
    assert Scan([-1, 100], 1) == (-1, 0);
  }

  // ----- the balancer state -----

  type Request = nat

  ghost function Flying(inFlight: map<Request, string>, target: string): set<Request> {
    set r | r in inFlight && inFlight[r] == target
  }

  lemma FlyingAdds(inFlight: map<Request, string>, r: Request, target: string, t: string)
    requires r !in inFlight
    ensures |Flying(inFlight[r := target], t)| == |Flying(inFlight, t)| + if t == target then 1 else 0
  {
    assert Flying(inFlight[r := target], t) == Flying(inFlight, t) + if t == target then {r} else {};
  }

  lemma FlyingDrops(inFlight: map<Request, string>, r: Request, t: string)
    requires r in inFlight
    ensures |Flying(inFlight - {r}, t)| == |Flying(inFlight, t)| - if t == inFlight[r] then 1 else 0
  {
    assert Flying(inFlight - {r}, t) == Flying(inFlight, t) - if t == inFlight[r] then {r} else {};
  }

  class GatewayBalancer {
    var rrIndices: map<string, int>
    var activeConns: map<string, int>
    var targetLoad: map<string, int>
    ghost var inFlight: map<Request, string>  // requests between incConn and their deferred decConn

    /** Counters count exactly the requests in flight; indices are never negative. */
    ghost predicate Valid() reads this {
      && (forall t :: Get(activeConns, t) == |Flying(inFlight, t)|)
      && (forall p :: p in rrIndices ==> rrIndices[p] >= 0)
    }

    constructor ()
      ensures Valid() && inFlight == map[] && rrIndices == map[] && activeConns == map[] && targetLoad == map[]
    {
      rrIndices, activeConns, targetLoad, inFlight := map[], map[], map[], map[];
      new;
      forall t ensures Flying(inFlight, t) == {} {}
    }

    method IncConn(target: string, ghost r: Request)
      requires Valid() && r !in inFlight
      modifies this`activeConns, this`inFlight
      ensures Valid() && inFlight == old(inFlight)[r := target]
      ensures activeConns == old(activeConns)[target := Get(old(activeConns), target) + 1]
    {
      activeConns := activeConns[target := Get(activeConns, target) + 1];
      inFlight := inFlight[r := target];
      forall t ensures Get(activeConns, t) == |Flying(inFlight, t)| {
        FlyingAdds(old(inFlight), r, target, t);
      }
    }

    /** The count is positive before every decrement, so the clamp at zero never changes it. */
    method DecConn(target: string, ghost r: Request)
      requires Valid() && r in inFlight && inFlight[r] == target
      modifies this`activeConns, this`inFlight
      ensures Valid() && inFlight == old(inFlight) - {r}
      ensures Get(old(activeConns), target) >= 1
      ensures activeConns == old(activeConns)[target := Get(old(activeConns), target) - 1]
    {
      assert r in Flying(inFlight, target);
      var left := Get(activeConns, target) - 1;
      activeConns := activeConns[target := if left < 0 then 0 else left];
      inFlight := inFlight - {r};
      forall t ensures Get(activeConns, t) == |Flying(inFlight, t)| {
        FlyingDrops(old(inFlight), r, t);
      }
    }

    /** selectTarget, with the random draw of the weighted branch as a parameter. */
    method SelectTarget(route: Route, draw: int) returns (url: string)
      requires Valid() && (Total(route.weighted) > 0 ==> 0 <= draw < Total(route.weighted))
      modifies this`rrIndices
      ensures Valid()
      ensures Total(route.weighted) > 0 ==>
                && rrIndices == old(rrIndices)
                && exists i: nat :: i < |route.weighted| && Owns(route.weighted, i, draw) && url == route.weighted[i].name
      ensures Total(route.weighted) <= 0 ==>
                (url, rrIndices) == Unweighted(route, activeConns, targetLoad, old(rrIndices))
    {
      var weighted;
      ghost var index;
      weighted, index := SelectWeightedTarget(route.weighted, draw);
      if weighted.Some? {
        return weighted.value;
      }
      if |route.targets| == 0 {
        return route.target;
      }
      if route.loadBalancer == "least_conn" {
        url := PickLeast(route.targets, activeConns);
        return;
      }
      if route.loadBalancer == "backpressure" {
        url := PickLeast(route.targets, targetLoad);
        if url != "" {
          return;
        }
      }
      var idx := Get(rrIndices, route.prefix);
      url := route.targets[idx % |route.targets|];
      rrIndices := rrIndices[route.prefix := (idx + 1) % |route.targets|];
    }
  }

  /** The choice without usable weights, and the round robin indices after it. */
  function Unweighted(route: Route, conns: map<string, int>, load: map<string, int>, rr: map<string, int>)
    : (string, map<string, int>)
  {
    var ts := route.targets;
    if ts == [] then (route.target, rr)
    else if route.loadBalancer == "least_conn" then
      ScanInRange(LoadsOf(ts, conns), |ts|);
      (ts[Selected(LoadsOf(ts, conns))], rr)
    else
      ScanInRange(LoadsOf(ts, load), |ts|);
      var least := ts[Selected(LoadsOf(ts, load))];
      if route.loadBalancer == "backpressure" && least != "" then (least, rr)
      else
        var idx := Get(rr, route.prefix);
        (ts[idx % |ts|], rr[route.prefix := (idx + 1) % |ts|])
  }

  lemma {:induction false} ScanInRange(loads: seq<int>, n: nat)
    requires 0 < n <= |loads|
    ensures Scan(loads, n).1 < n
  {
    if n > 1 { ScanInRange(loads, n - 1); }
  }

  // ----- round robin over runs -----

  /** A run of round robin picks, last pick outermost: a prefix and how many targets it had. */
  datatype Picks = Start(rr: map<string, int>) | Pick(before: Picks, prefix: string, n: nat)

  ghost predicate WellFormed(run: Picks) {
    match run
    case Start(rr) => forall p :: p in rr ==> rr[p] >= 0
    case Pick(before, _, n) => n > 0 && WellFormed(before)
  }

  /** The index table after the run. */
  ghost function Indices(run: Picks): map<string, int>
    requires WellFormed(run)
  {
    match run
    case Start(rr) => rr
    case Pick(before, p, n) => Indices(before)[p := (Get(Indices(before), p) + 1) % n]
  }

  /** The position taken by the run's last pick. */
  ghost function Position(run: Picks): nat
    requires WellFormed(run) && run.Pick?
  {
    IndicesNonNegative(run.before);
    Get(Indices(run.before), run.prefix) % run.n
  }

  lemma {:induction false} IndicesNonNegative(run: Picks)
    requires WellFormed(run)
    ensures forall p :: Get(Indices(run), p) >= 0
  {
    if run.Pick? {
      IndicesNonNegative(run.before);
      forall p ensures Get(Indices(run), p) >= 0 {
        if p != run.prefix { assert Get(Indices(run), p) == Get(Indices(run.before), p); }
      }
    }
  }

  ghost function Count(run: Picks, prefix: string, pos: nat): nat
    requires WellFormed(run)
  {
    match run
    case Start(_) => 0
    case Pick(before, p, _) =>
      Count(before, prefix, pos) + if p == prefix && Position(run) == pos then 1 else 0
  }

  ghost function Length(run: Picks, prefix: string): nat {
    match run
    case Start(_) => 0
    case Pick(before, p, _) => Length(before, prefix) + if p == prefix then 1 else 0
  }

  /** The prefix had n targets at each of its picks; other prefixes are free. */
  ghost predicate Unchanged(run: Picks, prefix: string, n: nat) {
    run.Pick? ==> Unchanged(run.before, prefix, n) && (run.prefix == prefix ==> run.n == n)
  }

  ghost function Initial(run: Picks): map<string, int> {
    match run
    case Start(rr) => rr
    case Pick(before, _, _) => Initial(before)
  }

  /** How many steps round robin takes from position start to pos. */
  function Offset(start: nat, pos: nat, n: nat): int { if pos >= start then pos - start else pos + n - start }

  /** The position r steps after start. */
  function Wrap(start: nat, r: nat, n: nat): int { if start + r < n then start + r else start + r - n }

  lemma OffsetOfCurrent(start: nat, r: nat, n: nat, pos: nat)
    requires start < n && r < n && pos < n
    ensures Wrap(start, r, n) == pos <==> Offset(start, pos, n) == r
  {
  }

  /** After q full rounds and r more picks, position pos has had q picks, plus one if it came up. */
  ghost predicate Rounds(run: Picks, prefix: string, n: nat, start: nat, q: nat, r: nat)
    requires n > 0 && WellFormed(run)
  {
    && r < n && Length(run, prefix) == q * n + r
    && Get(Indices(run), prefix) % n == Wrap(start, r, n)
    && forall pos: nat :: pos < n ==> Count(run, prefix, pos) == q + if Offset(start, pos, n) < r then 1 else 0
  }

  lemma PickGoesOn(run: Picks, n: nat, start: nat, q: nat, r: nat)
    requires n > 0 && WellFormed(run) && run.Pick? && run.n == n && start < n
    requires Rounds(run.before, run.prefix, n, start, q, r)
    ensures if r + 1 < n then Rounds(run, run.prefix, n, start, q, r + 1) else Rounds(run, run.prefix, n, start, q + 1, 0)
  {
    NextIndex(Get(Indices(run.before), run.prefix), n);
    assert (q + 1) * n == q * n + n;
    forall pos: nat | pos < n
      ensures Count(run, run.prefix, pos) == q + if Offset(start, pos, n) < r + 1 then 1 else 0
    {
      OffsetOfCurrent(start, r, n, pos);
      assert Position(run) == Wrap(start, r, n);
    }
  }

  lemma {:induction false} PicksGoRound(run: Picks, prefix: string, n: nat) returns (q: nat, r: nat)
    requires n > 0 && WellFormed(run) && Unchanged(run, prefix, n)
    ensures Rounds(run, prefix, n, Get(Initial(run), prefix) % n, q, r)
  {
    match run {
      case Start(rr) => q, r := 0, 0;
      case Pick(before, p, _) =>
        q, r := PicksGoRound(before, prefix, n);
        if p == prefix {
          PickGoesOn(run, n, Get(Initial(run), prefix) % n, q, r);
          if r + 1 < n {
            r := r + 1;
          } else {
            q, r := q + 1, 0;
          }
        }
    }
  }

  lemma NextIndex(idx: int, n: nat)
    requires n > 0
    ensures (idx + 1) % n == if idx % n + 1 < n then idx % n + 1 else 0
    ensures (idx + 1) % n % n == (idx + 1) % n
  {
    var q, m := idx / n, idx % n;
    assert idx == q * n + m;
    if m + 1 < n {
      Remainder(idx + 1, q, m + 1, n);
    } else {
      assert (q + 1) * n == q * n + n;
      Remainder(idx + 1, q + 1, 0, n);
    }
    Remainder((idx + 1) % n, 0, (idx + 1) % n, n);
  }

  lemma Remainder(x: int, q: int, m: int, n: nat)
    requires 0 <= m < n && x == q * n + m
    ensures x % n == m
  {
    var d := x / n - q;
    assert x == x / n * n + x % n;
    assert d * n == x / n * n - q * n;
    assert d * n == m - x % n;
    assert d >= 1 ==> d * n >= n;
    assert d <= -1 ==> d * n <= -1 * n;
  }

  /** Over any run, whatever happens on other prefixes, two positions' counts differ by at most one. */
  lemma RoundRobinIsFair(run: Picks, prefix: string, n: nat, a: nat, b: nat)
    requires n > 0 && WellFormed(run) && Unchanged(run, prefix, n) && a < n && b < n
    ensures -1 <= Count(run, prefix, a) - Count(run, prefix, b) <= 1
  {
    var q, r := PicksGoRound(run, prefix, n);
  }

  /** From any stored index, even one left from a longer list, n picks take every position once. */
  lemma RoundRobinCoversAll(run: Picks, prefix: string, n: nat, pos: nat)
    requires n > 0 && WellFormed(run) && Unchanged(run, prefix, n) && pos < n
    requires Length(run, prefix) == n
    ensures Count(run, prefix, pos) == 1
  {
    var q, r := PicksGoRound(run, prefix, n);
    OneRound(q, r, n);
  }

  lemma OneRound(q: nat, r: nat, n: nat)
    requires r < n && q * n + r == n
    ensures q == 1 && r == 0
  {
    assert q == 0 ==> q * n == 0;
    assert q >= 2 ==> q * n >= 2 * n;
  }

  /** The run model's step is what selectTarget does for a route without usable weights. */
  lemma SelectTargetTakesThePosition(run: Picks, route: Route, conns: map<string, int>, load: map<string, int>)
    requires WellFormed(run) && route.targets != []
    requires route.loadBalancer != "least_conn" && route.loadBalancer != "backpressure"
    ensures var next := Pick(run, route.prefix, |route.targets|);
            Unweighted(route, conns, load, Indices(run)) == (route.targets[Position(next)], Indices(next))
  {
    IndicesNonNegative(run);
  }

  // ----- least_conn over arrivals -----

  /** With counts of requests in flight, least_conn picks the first target with the fewest. */
  lemma LeastConnPicksFirstFewest(route: Route, conns: map<string, int>, load: map<string, int>, rr: map<string, int>)
    requires route.targets != [] && route.loadBalancer == "least_conn"
    requires forall t :: Get(conns, t) >= 0
    ensures var (url, rr') := Unweighted(route, conns, load, rr);
            rr' == rr && exists i: nat :: IsFirstLeast(LoadsOf(route.targets, conns), i) && url == route.targets[i]
  {
    var loads := LoadsOf(route.targets, conns);
    ScanFindsFirstLeast(loads, |loads|);
    assert loads[..|loads|] == loads;
    ScanInRange(loads, |loads|);
  }

  /** Connection counts after n arrivals, each selected by least_conn and then counted, as one step. */
  ghost function AfterArrivals(targets: seq<string>, conns: map<string, int>, n: nat): map<string, int>
    requires targets != []
  {
    if n == 0 then conns
    else
      var before := AfterArrivals(targets, conns, n - 1);
      ScanInRange(LoadsOf(targets, before), |targets|);
      var url := targets[Selected(LoadsOf(targets, before))];
      before[url := Get(before, url) + 1]
  }

  ghost function LoadsAfter(targets: seq<string>, conns: map<string, int>, n: nat): seq<int>
    requires targets != []
  {
    LoadsOf(targets, AfterArrivals(targets, conns, n))
  }

  /** Selecting and then counting is one more arrival. */
  lemma SelectAndCountIsAnArrival(
      route: Route, conns: map<string, int>, n: nat, load: map<string, int>, rr: map<string, int>)
    requires route.targets != [] && route.loadBalancer == "least_conn"
    ensures var before := AfterArrivals(route.targets, conns, n);
            var url := Unweighted(route, before, load, rr).0;
            AfterArrivals(route.targets, conns, n + 1) == before[url := Get(before, url) + 1]
  {
  }

  ghost predicate Spread(loads: seq<int>, d: int) {
    forall i, j :: 0 <= i < |loads| && 0 <= j < |loads| ==> loads[i] - loads[j] <= d
  }

  /** Without targets in its list, a route's single target is taken. */
  lemma NoListMeansTheTarget(route: Route, conns: map<string, int>, load: map<string, int>, rr: map<string, int>)
    requires route.targets == []
    ensures Unweighted(route, conns, load, rr) == (route.target, rr)
  {
  }

  lemma ScanPicksFirstLeast(loads: seq<int>)
    requires loads != [] && forall j :: 0 <= j < |loads| ==> loads[j] != -1
    ensures IsFirstLeast(loads, Selected(loads))
  {
    ScanFindsFirstLeast(loads, |loads|);
    assert loads[..|loads|] == loads;
  }

  /**
   Backpressure balancing picks the first target with the least reported load, unless a load is -1; if
   that target is the empty string, the round robin goes on instead.
   */
  lemma BackpressurePicksFirstLeast(route: Route, conns: map<string, int>, load: map<string, int>, rr: map<string, int>)
    returns (i: nat)
    requires route.targets != [] && route.loadBalancer == "backpressure"
    requires var loads := LoadsOf(route.targets, load); forall j :: 0 <= j < |loads| ==> loads[j] != -1
    ensures IsFirstLeast(LoadsOf(route.targets, load), i)
    ensures var (n, idx) := (|route.targets|, Get(rr, route.prefix));
            Unweighted(route, conns, load, rr) ==
              if route.targets[i] != "" then (route.targets[i], rr)
              else (route.targets[idx % n], rr[route.prefix := (idx + 1) % n])
  {
    var loads := LoadsOf(route.targets, load);
    ScanPicksFirstLeast(loads);
    i := Selected(loads);
  }

  /** From a to b the least count, at sel, goes up by one, at no other place but where its URL is listed again. */
  ghost predicate Raises(a: seq<int>, b: seq<int>, sel: nat) {
    && |a| == |b| && sel < |a| && b[sel] == a[sel] + 1
    && (forall i :: 0 <= i < |a| ==> a[sel] <= a[i])
    && (forall i :: 0 <= i < |a| ==> b[i] == a[i] || (b[i] == a[i] + 1 && a[i] == a[sel]))
  }

  ghost predicate Counts(loads: seq<int>) { forall i :: 0 <= i < |loads| ==> loads[i] >= 0 }

  lemma ArrivalRaisesLeast(targets: seq<string>, conns: map<string, int>, n: nat) returns (sel: nat)
    requires targets != [] && Counts(LoadsAfter(targets, conns, n))
    ensures Raises(LoadsAfter(targets, conns, n), LoadsAfter(targets, conns, n + 1), sel)
  {
    var a := LoadsAfter(targets, conns, n);
    ScanFindsFirstLeast(a, |a|);
    assert a[..|a|] == a;
    sel := Selected(a);
  }

  /** Spread at most d, and counts above top within one of the least. */
  ghost predicate NearlyEven(loads: seq<int>, d: int, top: int) {
    && Spread(loads, d) && Counts(loads)
    && forall i, j :: 0 <= i < |loads| && 0 <= j < |loads| ==> loads[i] <= top || loads[i] - loads[j] <= 1
  }

  lemma RaisingStaysEven(a: seq<int>, b: seq<int>, sel: nat, d: int, top: int)
    requires Raises(a, b, sel) && NearlyEven(a, d, top) && d >= 1
    ensures NearlyEven(b, d, top)
  {
  }

  /**
   While nobody leaves, the spread between the busiest and the idlest target never grows beyond one
   connection or what it was, and a count above the initial ones is within one of the least.
   */
  lemma {:induction false} ArrivalsStayEven(targets: seq<string>, conns: map<string, int>, n: nat, d: int, top: int)
    requires targets != [] && d >= 1 && NearlyEven(LoadsOf(targets, conns), d, top)
    ensures NearlyEven(LoadsAfter(targets, conns, n), d, top)
  {
    if n > 0 {
      ArrivalsStayEven(targets, conns, n - 1, d, top);
      var sel := ArrivalRaisesLeast(targets, conns, n - 1);
      RaisingStaysEven(LoadsAfter(targets, conns, n - 1), LoadsAfter(targets, conns, n), sel, d, top);
    }
  }

  /** How many connections the targets lack to reach top. */
  ghost function Lacking(loads: seq<int>, top: int): nat {
    if loads == [] then 0 else Lacking(loads[..|loads| - 1], top) + if loads[|loads| - 1] < top then top - loads[|loads| - 1] else 0
  }

  lemma {:induction false} LackingDrops(a: seq<int>, b: seq<int>, top: int, sel: nat)
    requires |a| == |b| && sel < |a| && forall i :: 0 <= i < |a| ==> a[i] <= b[i]
    ensures Lacking(b, top) <= Lacking(a, top)
    ensures a[sel] < top && a[sel] < b[sel] ==> Lacking(b, top) < Lacking(a, top)
    decreases |a|
  {
    var n := |a| - 1;
    if n > 0 { LackingDrops(a[..n], b[..n], top, if sel < n then sel else 0); }
  }

  lemma {:induction false} LackingBound(loads: seq<int>, top: int, d: nat)
    requires forall i :: 0 <= i < |loads| ==> top - d <= loads[i]
    ensures Lacking(loads, top) <= |loads| * d
  {
    if loads != [] {
      var n := |loads| - 1;
      LackingBound(loads[..n], top, d);
      assert forall i :: 0 <= i < n ==> loads[..n][i] == loads[i];
      assert |loads| * d == n * d + d;
    }
  }

  lemma RaisingFillsUp(a: seq<int>, b: seq<int>, sel: nat, top: int)
    requires Raises(a, b, sel)
    ensures Lacking(b, top) == 0 || Lacking(b, top) < Lacking(a, top)
  {
    LackingDrops(a, b, top, sel);
    if a[sel] >= top { NothingLacking(b, top); }
  }

  lemma {:induction false} ArrivalsFillUp(targets: seq<string>, conns: map<string, int>, n: nat, d: int, top: int)
    requires targets != [] && d >= 1 && NearlyEven(LoadsOf(targets, conns), d, top)
    ensures var (a, b) := (LoadsOf(targets, conns), LoadsAfter(targets, conns, n));
            Lacking(b, top) == 0 || Lacking(b, top) + n <= Lacking(a, top)
  {
    if n > 0 {
      ArrivalsFillUp(targets, conns, n - 1, d, top);
      ArrivalsStayEven(targets, conns, n - 1, d, top);
      var sel := ArrivalRaisesLeast(targets, conns, n - 1);
      RaisingFillsUp(LoadsAfter(targets, conns, n - 1), LoadsAfter(targets, conns, n), sel, top);
    }
  }

  lemma {:induction false} NothingLacking(loads: seq<int>, top: int)
    requires forall i :: 0 <= i < |loads| ==> loads[i] >= top
    ensures Lacking(loads, top) == 0
  {
    if loads != [] { NothingLacking(loads[..|loads| - 1], top); }
  }

  /** From any counts with spread d, d arrivals for each target make the counts even, and so they stay. */
  lemma ArrivalsBecomeEven(targets: seq<string>, conns: map<string, int>, n: nat, d: nat)
    requires targets != [] && Counts(LoadsOf(targets, conns))
    requires d >= 1 && Spread(LoadsOf(targets, conns), d) && n >= |targets| * d
    ensures Spread(LoadsAfter(targets, conns, n), 1)
  {
    var a, b := LoadsOf(targets, conns), LoadsAfter(targets, conns, n);
    var most := Most(a);
    ArrivalsFillUp(targets, conns, n, d, a[most]);
    ArrivalsStayEven(targets, conns, n, d, a[most]);
    LackingBound(a, a[most], d);
    LackingReached(b, a[most]);
  }

  lemma {:induction false} LackingReached(loads: seq<int>, top: int)
    requires Lacking(loads, top) == 0
    ensures forall i :: 0 <= i < |loads| ==> loads[i] >= top
  {
    if loads != [] {
      var n := |loads| - 1;
      LackingReached(loads[..n], top);
      assert forall i :: 0 <= i < n ==> loads[..n][i] == loads[i];
    }
  }

  lemma {:induction false} Most(loads: seq<int>) returns (most: nat)
    requires loads != []
    ensures most < |loads| && forall i :: 0 <= i < |loads| ==> loads[i] <= loads[most]
  {
    var n := |loads| - 1;
    most := n;
    if n > 0 {
      var m := Most(loads[..n]);
      assert forall i :: 0 <= i < n ==> loads[..n][i] == loads[i];
      if loads[m] > loads[n] { most := m; }
    }
  }
}
