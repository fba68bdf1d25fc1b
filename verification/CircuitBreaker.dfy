/**
 The per-target circuit breaker (pkg/proxy/handler.go): three states, a window of the last 50
 latencies whose p99 is held against the SLO, and a recovery count. Each call runs under the
 breaker's mutex, so a run is a sequence of calls; the clock is read once per call.
 */
module CircuitBreaker {

  type Time = int      // nanoseconds
  type Duration = int  // nanoseconds

  const COOLING: Duration := 5_000_000_000
  const WINDOW := 50
  const MIN_SAMPLES := 5
  const TRIALS := 3

  datatype CircuitState = Closed | Open | HalfOpen

  datatype Breaker = Breaker(
    state: CircuitState, latencies: seq<Duration>, successCount: int, lastStateChange: Time)

  const FRESH := Breaker(Closed, [], 0, 0)

  // ----- p99 -----

  function Insert(s: seq<Duration>, d: Duration): seq<Duration> {
    if s == [] || s[|s| - 1] <= d then s + [d] else Insert(s[..|s| - 1], d) + [s[|s| - 1]]
  }

  /** What sort.Slice leaves in the copied slice. */
  function Sorted(s: seq<Duration>): seq<Duration> {
    if s == [] then [] else Insert(Sorted(s[..|s| - 1]), s[|s| - 1])
  }

  ghost predicate Ascending(s: seq<Duration>) {
    forall i, j :: 0 <= i < j < |s| ==> s[i] <= s[j]
  }

  lemma {:induction false} InsertAdds(s: seq<Duration>, d: Duration)
    ensures multiset(Insert(s, d)) == multiset(s) + multiset{d}
  {
    if s != [] && s[|s| - 1] > d {
      assert s == s[..|s| - 1] + [s[|s| - 1]];
      InsertAdds(s[..|s| - 1], d);
    }
  }

  lemma {:induction false} InsertSorts(s: seq<Duration>, d: Duration)
    requires Ascending(s)
    ensures Ascending(Insert(s, d))
  {
    if s != [] && s[|s| - 1] > d {
      var t := Insert(s[..|s| - 1], d);
      InsertSorts(s[..|s| - 1], d);
      forall i | 0 <= i < |t| ensures t[i] <= s[|s| - 1] {
        InsertAdds(s[..|s| - 1], d);
        assert t[i] in multiset(t);
        assert t[i] == d || t[i] in s[..|s| - 1];
      }
    }
  }

  /** Sorting gives an ascending rearrangement. */
  lemma {:induction false} SortedSorts(s: seq<Duration>)
    ensures Ascending(Sorted(s)) && multiset(Sorted(s)) == multiset(s) && |Sorted(s)| == |s|
  {
    if s != [] {
      assert s == s[..|s| - 1] + [s[|s| - 1]];
      SortedSorts(s[..|s| - 1]);
      InsertSorts(Sorted(s[..|s| - 1]), s[|s| - 1]);
      InsertAdds(Sorted(s[..|s| - 1]), s[|s| - 1]);
    }
    assert |multiset(Sorted(s))| == |Sorted(s)| && |multiset(s)| == |s|;
  }

  lemma LargestComesLast(s: seq<Duration>, t: seq<Duration>)
    requires Ascending(s) && Ascending(t) && multiset(s) == multiset(t) && s != []
    ensures |s| == |t| && s[|s| - 1] == t[|t| - 1]
  {
    assert |multiset(s)| == |s| && |multiset(t)| == |t|;
    var x, y := s[|s| - 1], t[|t| - 1];
    assert x in multiset(s) && y in multiset(t);
    assert x in t && y in s;
  }

  lemma DropLargest(s: seq<Duration>)
    requires Ascending(s) && s != []
    ensures Ascending(s[..|s| - 1]) && multiset(s[..|s| - 1]) == multiset(s) - multiset{s[|s| - 1]}
  {
    assert s == s[..|s| - 1] + [s[|s| - 1]];
  }

  /** Any ascending rearrangement is this one, so the library's algorithm does not matter. */
  lemma {:induction false} SortIsUnique(s: seq<Duration>, t: seq<Duration>)
    requires Ascending(s) && Ascending(t) && multiset(s) == multiset(t)
    ensures s == t
    decreases |s|
  {
    assert |multiset(s)| == |s| && |multiset(t)| == |t|;
    if s != [] {
      LargestComesLast(s, t);
      DropLargest(s);
      DropLargest(t);
      var (s1, t1) := (s[..|s| - 1], t[..|t| - 1]);
      SortIsUnique(s1, t1);
      assert forall i :: 0 <= i < |s1| ==> s[i] == s1[i] && t[i] == t1[i];
    }
  }

  function P99(latencies: seq<Duration>): Duration
    requires latencies != []
  {
    SortedSorts(latencies);
    var sorted := Sorted(latencies);
    var idx := |sorted| * 99 / 100;
    sorted[if idx >= |sorted| then |sorted| - 1 else idx]
  }

  /** Up to 100 samples the 99th percentile is simply the largest one; the window holds 50. */
  lemma P99IsMaximum(latencies: seq<Duration>)
    requires 1 <= |latencies| <= 100
    ensures P99(latencies) in latencies
    ensures forall d :: d in latencies ==> d <= P99(latencies)
  {
    SortedSorts(latencies);
    var sorted := Sorted(latencies);
    var last := sorted[|sorted| - 1];
    assert P99(latencies) == last;
    assert last in multiset(sorted);
    forall d | d in latencies ensures d <= last {
      assert d in multiset(latencies);
      assert d in multiset(sorted);
    }
  }

  lemma P99ExceedsIffSomeDoes(latencies: seq<Duration>, slo: Duration)
    requires 1 <= |latencies| <= 100
    ensures P99(latencies) > slo <==> exists d :: d in latencies && d > slo
  {
    P99IsMaximum(latencies);
  }

  // ----- one call -----

  function AllowStep(b: Breaker, now: Time): (Breaker, bool) {
    match b.state
    case Closed => (b, true)
    case Open =>
      if now - b.lastStateChange > COOLING
      then (b.(state := HalfOpen, lastStateChange := now, successCount := 0), true)
      else (b, false)
    case HalfOpen => (b, true)
  }

  function Push(latencies: seq<Duration>, dur: Duration): seq<Duration> {
    var longer := latencies + [dur];
    if |longer| > WINDOW then longer[1..] else longer
  }

  function RecordStep(slo: Duration, b: Breaker, dur: Duration, success: bool, now: Time): Breaker {
    if !success then b.(state := Open, lastStateChange := now)
    else
      var window := Push(b.latencies, dur);
      match b.state
      case HalfOpen =>
        var count := b.successCount + 1;
        if dur <= slo && count >= TRIALS then Breaker(Closed, [], count, now)
        else if dur > slo then Breaker(Open, window, count, now)
        else b.(latencies := window, successCount := count)
      case Closed =>
        if |window| >= MIN_SAMPLES && P99(window) > slo
        then b.(state := Open, latencies := window, lastStateChange := now)
        else b.(latencies := window)
      case Open => b.(latencies := window)
  }

  class CircuitBreaker {
    var state: CircuitState
    var latencies: seq<Duration>
    var successCount: int
    var lastStateChange: Time
    const sloThreshold: Duration

    ghost function View(): Breaker reads this {
      Breaker(state, latencies, successCount, lastStateChange)
    }

    constructor (slo: Duration)
      ensures sloThreshold == slo && View() == Breaker(Closed, [], 0, 0)
    {
      sloThreshold := slo;
      state, latencies, successCount, lastStateChange := Closed, [], 0, 0;
    }

    method Allow(now: Time) returns (ok: bool)
      modifies this
      ensures (View(), ok) == AllowStep(old(View()), now)
    {
      match state {
        case Closed => ok := true;
        case Open =>
          if now - lastStateChange > COOLING {
            state := HalfOpen;
            lastStateChange := now;
            successCount := 0;
            ok := true;
          } else {
            ok := false;
          }
        case HalfOpen => ok := true;
      }
    }

    method RecordRequest(dur: Duration, success: bool, now: Time)
      modifies this
      ensures View() == RecordStep(sloThreshold, old(View()), dur, success, now)
    {
      if !success {
        state := Open;
        lastStateChange := now;
        return;
      }
      latencies := latencies + [dur];
      if |latencies| > WINDOW {
        latencies := latencies[1..];
      }
      if state == HalfOpen {
        successCount := successCount + 1;
        if dur <= sloThreshold && successCount >= TRIALS {
          state := Closed;
          latencies := [];
          lastStateChange := now;
        } else if dur > sloThreshold {
          state := Open;
          lastStateChange := now;
        }
        return;
      }
      if state == Closed && |latencies| >= MIN_SAMPLES {
        var p99 := CalculateP99();
        if p99 > sloThreshold {
          state := Open;
          lastStateChange := now;
        }
      }
    }

    method CalculateP99() returns (p99: Duration)
      requires latencies != []
      ensures p99 == P99(latencies)
      ensures |latencies| <= 100 ==> p99 in latencies && forall d :: d in latencies ==> d <= p99
    {
      var sorted := Sorted(latencies);
      SortedSorts(latencies);
      if |latencies| <= 100 { P99IsMaximum(latencies); }
      var idx := |sorted| * 99 / 100;
      if idx >= |sorted| {
        idx := |sorted| - 1;
      }
      p99 := sorted[idx];
    }
  }

  // ----- runs -----

  datatype Event = Allow(now: Time) | Record(dur: Duration, success: bool, now: Time)

  /** A finite run, last event outermost. */
  datatype Run = Start | Then(before: Run, e: Event)

  function Step(slo: Duration, b: Breaker, e: Event): Breaker {
    match e
    case Allow(now) => AllowStep(b, now).0
    case Record(dur, success, now) => RecordStep(slo, b, dur, success, now)
  }

  function After(slo: Duration, run: Run): Breaker {
    match run
    case Start => FRESH
    case Then(before, e) => Step(slo, After(slo, before), e)
  }

  ghost predicate NoneAfter(run: Run, now: Time) { run.Then? ==> run.e.now <= now }

  ghost predicate InOrder(run: Run) {
    run.Then? ==> InOrder(run.before) && NoneAfter(run.before, run.e.now)
  }

  predicate Fails(e: Event) { e.Record? && !e.success }

  /** The instants at which a failure was recorded or the breaker opened. */
  ghost function Trips(slo: Duration, run: Run): set<Time> {
    match run
    case Start => {}
    case Then(before, e) =>
      if Fails(e) || (After(slo, before).state != Open && After(slo, run).state == Open)
      then Trips(slo, before) + {e.now}
      else Trips(slo, before)
  }

  /** All records since the breaker last went from open to half-open. */
  ghost function TrialRecords(slo: Duration, run: Run): seq<Event> {
    match run
    case Start => []
    case Then(before, e) =>
      if After(slo, before).state == Open && After(slo, run).state == HalfOpen then []
      else if e.Record? then TrialRecords(slo, before) + [e]
      else TrialRecords(slo, before)
  }

  /** The durations of all successes since the breaker last closed. */
  ghost function SinceClose(slo: Duration, run: Run): seq<Duration> {
    match run
    case Start => []
    case Then(before, e) =>
      if After(slo, before).state != Closed && After(slo, run).state == Closed then []
      else if e.Record? && e.success then SinceClose(slo, before) + [e.dur]
      else SinceClose(slo, before)
  }

  /** Unless open, the breaker is more than a cooling period past every trip. */
  lemma {:induction false} TripsAreCooled(slo: Duration, run: Run)
    requires InOrder(run)
    ensures var b := After(slo, run);
            forall s :: s in Trips(slo, run) ==>
              if b.state == Open then run.Then? && s <= b.lastStateChange <= run.e.now
              else run.Then? && run.e.now - s > 5_000_000_000
  {
    if run.Then? { TripsAreCooled(slo, run.before); }
  }

  /** After an opening or a failure at s, no request is let through until now - s > 5 s. */
  lemma CoolingIsRespected(slo: Duration, run: Run, now: Time, s: Time)
    requires InOrder(run) && NoneAfter(run, now)
    requires s in Trips(slo, run) && AllowStep(After(slo, run), now).1
    ensures now - s > 5_000_000_000
  {
    TripsAreCooled(slo, run);
  }

  /**
   An open breaker lets a request through, and turns half-open, exactly when the latest opening or
   failure is more than a cooling period ago.
   */
  lemma OpenAllowsIffCooled(slo: Duration, run: Run, now: Time) returns (latest: Time)
    requires InOrder(run) && After(slo, run).state == Open
    ensures latest in Trips(slo, run) && forall s :: s in Trips(slo, run) ==> s <= latest
    ensures AllowStep(After(slo, run), now).1 <==> now - latest > 5_000_000_000
    ensures After(slo, Then(run, Allow(now))).state == if now - latest > 5_000_000_000 then HalfOpen else Open
  {
    latest := After(slo, run).lastStateChange;
    OpenedAtATrip(slo, run);
    TripsAreCooled(slo, run);
  }

  /** A breaker starts closed, without samples. */
  lemma StartsClosed(slo: Duration)
    ensures After(slo, Start) == Breaker(Closed, [], 0, 0) && Trips(slo, Start) == {}
  {
  }

  /** Closed and half-open let every request through and stay what they are; open ignores late successes. */
  lemma OtherStatesStay(slo: Duration, run: Run, now: Time, dur: Duration)
    ensures var b := After(slo, run);
            b.state != Open ==> AllowStep(b, now).1 && After(slo, Then(run, Allow(now))).state == b.state
    ensures After(slo, run).state == Open ==> After(slo, Then(run, Record(dur, true, now))).state == Open
  {
    var b := After(slo, run);
    assert b.state != Open ==> AllowStep(b, now) == (b, true);
  }

  lemma {:induction false} OpenedAtATrip(slo: Duration, run: Run)
    requires After(slo, run).state == Open
    ensures After(slo, run).lastStateChange in Trips(slo, run)
  {
    if After(slo, run.before).state == Open { OpenedAtATrip(slo, run.before); }
  }

  ghost predicate GoodTrial(slo: Duration, e: Event) { e.Record? && e.success && e.dur <= slo }

  /** Half-open has seen fewer than three records since entry, all of them fast successes. */
  lemma {:induction false} HalfOpenTrials(slo: Duration, run: Run)
    requires After(slo, run).state == HalfOpen
    ensures |TrialRecords(slo, run)| == After(slo, run).successCount < 3
    ensures forall e :: e in TrialRecords(slo, run) ==> GoodTrial(slo, e)
  {
    if After(slo, run.before).state == HalfOpen { HalfOpenTrials(slo, run.before); }
  }

  /** From half-open: closed exactly on the third fast success, open exactly on anything worse. */
  lemma RecoveryIsThreeFastSuccesses(slo: Duration, run: Run, e: Event)
    requires After(slo, run).state == HalfOpen
    ensures var next := After(slo, Then(run, e)).state;
            && (next == Closed <==> GoodTrial(slo, e) && |TrialRecords(slo, run)| == 2)
            && (next == Open <==> e.Record? && !GoodTrial(slo, e))
  {
    HalfOpenTrials(slo, run);
  }

  /** A closed breaker was never opened or was closed by three fast successes in a row. */
  lemma ClosesOnlyFromHalfOpen(slo: Duration, run: Run, e: Event)
    requires After(slo, run).state != Closed && After(slo, Then(run, e)).state == Closed
    ensures After(slo, run).state == HalfOpen && |TrialRecords(slo, run)| == 2
    ensures forall r :: r in TrialRecords(slo, run) + [e] ==> GoodTrial(slo, r)
  {
    HalfOpenTrials(slo, run);
  }

  function Last(n: nat, s: seq<Duration>): seq<Duration> {
    if |s| <= n then s else s[|s| - n..]
  }

  lemma PushSlides(s: seq<Duration>, dur: Duration)
    ensures Push(Last(WINDOW, s), dur) == Last(WINDOW, s + [dur])
  {
  }

  /** The window is always the last 50 of the successes since the last close. */
  lemma {:induction false} WindowIsLastFifty(slo: Duration, run: Run)
    ensures After(slo, run).latencies == Last(50, SinceClose(slo, run))
  {
    if run.Then? {
      WindowIsLastFifty(slo, run.before);
      if run.e.Record? { PushSlides(SinceClose(slo, run.before), run.e.dur); }
    }
  }

  /** While closed with at least five samples, no sample in the window exceeds the SLO. */
  lemma {:induction false} ClosedMeansFast(slo: Duration, run: Run)
    requires After(slo, run).state == Closed
    ensures var window := After(slo, run).latencies;
            |window| >= 5 ==> forall d :: d in window ==> d <= slo
  {
    if run.Then? {
      var b, e := After(slo, run.before), run.e;
      if b.state == Closed {
        ClosedMeansFast(slo, run.before);
        WindowIsLastFifty(slo, run.before);
        if e.Record? && |Push(b.latencies, e.dur)| >= MIN_SAMPLES {
          P99IsMaximum(Push(b.latencies, e.dur));
        }
      }
    }
  }

  /**
   A closed breaker opens exactly on a failure or on a success that leaves at least five samples
   with one above the SLO: the fifth sample if any of the five is slow, later the slow one itself.
   */
  lemma ClosedOpensExactly(slo: Duration, run: Run, e: Event)
    requires After(slo, run).state == Closed
    ensures var n := |SinceClose(slo, run)|;
            After(slo, Then(run, e)).state == Open <==>
              && e.Record?
              && (!e.success
                  || (n == 4 && exists d :: d in SinceClose(slo, run) + [e.dur] && d > slo)
                  || (n >= 5 && e.dur > slo))
  {
    ClosedMeansFast(slo, run);
    WindowIsLastFifty(slo, run);
    if e.Record? && e.success {
      SlowSuccessOpens(slo, After(slo, run).latencies, e.dur);
    }
  }

  lemma SlowSuccessOpens(slo: Duration, latencies: seq<Duration>, dur: Duration)
    requires |latencies| <= WINDOW
    requires |latencies| >= MIN_SAMPLES ==> forall d :: d in latencies ==> d <= slo
    ensures var window := Push(latencies, dur);
            |window| >= MIN_SAMPLES && P99(window) > slo <==>
              || (|latencies| == 4 && exists d :: d in latencies + [dur] && d > slo)
              || (|latencies| >= 5 && dur > slo)
  {
    var window := Push(latencies, dur);
    assert window[|window| - 1] == dur && dur in window;
    assert forall d :: d in window ==> d in latencies || d == dur;
    assert |latencies| == 4 ==> window == latencies + [dur];
    P99ExceedsIffSomeDoes(window, slo);
  }
}
