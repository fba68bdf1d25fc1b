/**
 The sliding-window rate limiters: isRateLimited (pkg/proxy/handler.go, local path) and
 adminRateLimiter.Limit (main.go). Both compact a history slice in place and append to it.
 */
module RateLimiter {

  type Time = int  // nanoseconds

  const MINUTE: Time := 60_000_000_000

  /** The instants strictly after the cutoff, in order. */
  function Recent(h: seq<Time>, cutoff: Time): seq<Time> {
    if h == [] then []
    else
      var rest := Recent(h[..|h| - 1], cutoff);
      if h[|h| - 1] > cutoff then rest + [h[|h| - 1]] else rest
  }

  /** One call on a history: the new history and whether the call is refused. */
  function Check(h: seq<Time>, now: Time, limit: int): (seq<Time>, bool) {
    var valid := Recent(h, now - MINUTE);
    if |valid| >= limit then (valid, true) else (valid + [now], false)
  }

  /** isRateLimited turns limiting off for a limit that is not positive. */
  function GatewayCheck(h: seq<Time>, now: Time, limit: int): (seq<Time>, bool) {
    if limit <= 0 then (h, false) else Check(h, now, limit)
  }

  // ----- runs of calls on one key -----

  datatype Call = Call(key: string, now: Time, limit: int)

  /** A finite run, last call outermost. */
  datatype Run = Start | Then(before: Run, c: Call)

  ghost predicate NoneAfter(run: Run, now: Time) { run.Then? ==> run.c.now <= now }

  /** The clock never goes back from one call to the next. */
  ghost predicate InOrder(run: Run) {
    run.Then? ==> InOrder(run.before) && NoneAfter(run.before, run.c.now)
  }

  ghost predicate LimitsAtMost(run: Run, limit: nat) {
    run.Then? ==> LimitsAtMost(run.before, limit) && run.c.limit <= limit
  }

  /** The stored history after the calls. */
  ghost function History(run: Run): seq<Time> {
    match run
    case Start => []
    case Then(before, c) => Check(History(before), c.now, c.limit).0
  }

  ghost predicate Refused(run: Run, c: Call) {
    Check(History(run), c.now, c.limit).1
  }

  /** The complete log of admissions; the code never keeps it. */
  ghost function Admitted(run: Run): seq<Time> {
    match run
    case Start => []
    case Then(before, c) => if Refused(before, c) then Admitted(before) else Admitted(before) + [c.now]
  }

  /** The logged instants in the window (x - 60s, x]. */
  ghost function Within(log: seq<Time>, x: Time): seq<Time> {
    if log == [] then []
    else
      var rest, t := Within(log[..|log| - 1], x), log[|log| - 1];
      if x - 60_000_000_000 < t <= x then rest + [t] else rest
  }

  lemma RecentSnoc(h: seq<Time>, t: Time, cutoff: Time)
    ensures Recent(h + [t], cutoff) == if t > cutoff then Recent(h, cutoff) + [t] else Recent(h, cutoff)
  {
    assert (h + [t])[..|h|] == h;
  }

  lemma WithinSnoc(h: seq<Time>, t: Time, x: Time)
    ensures Within(h + [t], x) == if x - MINUTE < t <= x then Within(h, x) + [t] else Within(h, x)
  {
    assert (h + [t])[..|h|] == h;
  }

  lemma {:induction false} RecentTwice(h: seq<Time>, c: Time, d: Time)
    requires c <= d
    ensures Recent(Recent(h, c), d) == Recent(h, d) && |Recent(h, d)| <= |Recent(h, c)|
  {
    if h != [] {
      var t := h[|h| - 1];
      RecentTwice(h[..|h| - 1], c, d);
      RecentSnoc(Recent(h[..|h| - 1], c), t, d);
    }
  }

  lemma {:induction false} WindowInRecent(log: seq<Time>, x: Time, cutoff: Time)
    requires cutoff <= x - MINUTE
    ensures |Within(log, x)| <= |Recent(log, cutoff)|
  {
    if log != [] { WindowInRecent(log[..|log| - 1], x, cutoff); }
  }

  lemma {:induction false} WindowOfThePast(run: Run, now: Time)
    requires InOrder(run) && NoneAfter(run, now)
    ensures Within(Admitted(run), now) == Recent(Admitted(run), now - MINUTE)
  {
    if run.Then? {
      WindowOfThePast(run.before, now);
      RecentSnoc(Admitted(run.before), run.c.now, now - MINUTE);
      WithinSnoc(Admitted(run.before), run.c.now, now);
    }
  }

  /** In-place compaction forgets nothing that matters: within any later minute, history and log agree. */
  lemma {:induction false} HistoryAgreesWithLog(run: Run, now: Time)
    requires InOrder(run) && NoneAfter(run, now)
    ensures Recent(History(run), now - 60_000_000_000) == Recent(Admitted(run), now - 60_000_000_000)
    decreases run, 1
  {
    if run.Then? {
      HistoryIsRecentLog(run);
      RecentTwice(Admitted(run), run.c.now - MINUTE, now - MINUTE);
    }
  }

  /** The stored history is exactly the log cut at 60 s before the last call. */
  lemma {:induction false} HistoryIsRecentLog(run: Run)
    requires InOrder(run) && run.Then?
    ensures History(run) == Recent(Admitted(run), run.c.now - 60_000_000_000)
    decreases run, 0
  {
    HistoryAgreesWithLog(run.before, run.c.now);
    var log, t, cutoff := Admitted(run.before), run.c.now, run.c.now - MINUTE;
    var valid := Recent(History(run.before), cutoff);
    RecentSnoc(log, t, cutoff);
    if |valid| >= run.c.limit {
      assert History(run) == valid && Admitted(run) == log;
    } else {
      assert History(run) == valid + [t] && Admitted(run) == log + [t];
    }
  }

  lemma RefusedIffRecentFull(run: Run, c: Call)
    requires InOrder(run) && NoneAfter(run, c.now)
    ensures Refused(run, c) <==> |Recent(Admitted(run), c.now - MINUTE)| >= c.limit
  {
    HistoryAgreesWithLog(run, c.now);
    var valid := Recent(History(run), c.now - MINUTE);
    assert Refused(run, c) <==> |valid| >= c.limit;
  }

  /** A call is refused exactly when its own window already holds limit admissions. */
  lemma RefusedIffWindowFull(run: Run, c: Call)
    requires InOrder(run) && NoneAfter(run, c.now)
    ensures Refused(run, c) <==> |Within(Admitted(run), c.now)| >= c.limit
  {
    RefusedIffRecentFull(run, c);
    WindowOfThePast(run, c.now);
  }

  /** Whatever the run, no window of one minute ever holds more admissions than the largest limit. */
  lemma {:induction false} WindowsStayWithinLimit(run: Run, limit: nat, x: Time)
    requires InOrder(run) && LimitsAtMost(run, limit)
    ensures |Within(Admitted(run), x)| <= limit
  {
    if run.Then? {
      WindowsStayWithinLimit(run.before, limit, x);
      WithinSnoc(Admitted(run.before), run.c.now, x);
      RefusedIffRecentFull(run.before, run.c);
      if run.c.now <= x { WindowInRecent(Admitted(run.before), x, run.c.now - MINUTE); }
    }
  }

  /** The two implementations give the same verdict exactly for positive limits. */
  lemma ImplementationsAgreeIffPositive(h: seq<Time>, now: Time, limit: int)
    ensures GatewayCheck(h, now, limit).1 == Check(h, now, limit).1 <==> limit > 0
    ensures limit > 0 ==> GatewayCheck(h, now, limit) == Check(h, now, limit)
    ensures limit <= 0 ==> GatewayCheck(h, now, limit) == (h, false)
  {
  }

  // ----- many keys: histories do not mix -----

  /** What a table of histories, updated one entry per call, holds under a key. */
  ghost function TableEntry(run: Run, key: string): seq<Time> {
    match run
    case Start => []
    case Then(before, c) =>
      if c.key == key then Check(TableEntry(before, key), c.now, c.limit).0 else TableEntry(before, key)
  }

  ghost function CallsOf(run: Run, key: string): Run {
    match run
    case Start => Start
    case Then(before, c) => if c.key == key then Then(CallsOf(before, key), c) else CallsOf(before, key)
  }

  /** Each key's history depends on that key's calls alone, so the results above hold per key. */
  lemma {:induction false} KeysAreIndependent(run: Run, key: string, now: Time)
    requires InOrder(run) && NoneAfter(run, now)
    ensures TableEntry(run, key) == History(CallsOf(run, key))
    ensures InOrder(CallsOf(run, key)) && NoneAfter(CallsOf(run, key), now)
  {
    if run.Then? { KeysAreIndependent(run.before, key, run.c.now); }
  }

  /** The client is an address, "apikey:" with a key, or "mcp-agent:" with a header the client chose. */
  function LimiterKey(client: string, prefix: string): string { client + ":" + prefix }

  /** The longer client goes on with ':' and text that the other's prefix starts with. */
  predicate Straddles(client1: string, prefix1: string, client2: string, prefix2: string) {
    client1 + ":" <= client2 && prefix1 == LimiterKey(client2[|client1| + 1..], prefix2)
  }

  lemma LongerClientCollidesIff(c1: string, p1: string, c2: string, p2: string)
    requires |c1| < |c2|
    ensures LimiterKey(c1, p1) == LimiterKey(c2, p2) <==> Straddles(c1, p1, c2, p2)
  {
    var (k1, k2) := (LimiterKey(c1, p1), LimiterKey(c2, p2));
    var rest := c2[|c1| + 1..];
    assert k1[..|c1| + 1] == c1 + ":" && k1[|c1| + 1..] == p1;
    assert k2[..|c1| + 1] == c2[..|c1| + 1] && k2[|c1| + 1..] == LimiterKey(rest, p2);
    assert k1 == k1[..|c1| + 1] + k1[|c1| + 1..] && k2 == k2[..|c1| + 1] + k2[|c1| + 1..];
  }

  /** For all clients and prefixes: keys are equal if both parts are, or if one client straddles the other's prefix. */
  lemma LimiterKeysCollideIff(c1: string, p1: string, c2: string, p2: string)
    ensures LimiterKey(c1, p1) == LimiterKey(c2, p2) <==>
              (c1 == c2 && p1 == p2) || Straddles(c1, p1, c2, p2) || Straddles(c2, p2, c1, p1)
  {
    if |c1| < |c2| {
      LongerClientCollidesIff(c1, p1, c2, p2);
    } else if |c2| < |c1| {
      LongerClientCollidesIff(c2, p2, c1, p1);
    } else {
      var (k1, k2) := (LimiterKey(c1, p1), LimiterKey(c2, p2));
      assert k1[..|c1|] == c1 && k2[..|c1|] == c2 && k1[|c1| + 1..] == p1 && k2[|c1| + 1..] == p2;
    }
  }

  /**
   So keys do not collide for prefixes without ':', whatever the client sends; nor for clients without
   '/' and prefixes that start with one.
   */
  lemma LimiterKeysAreDistinct(c1: string, p1: string, c2: string, p2: string)
    requires || (':' !in p1 && ':' !in p2)
             || ('/' !in c1 && '/' !in c2 && "/" <= p1 && "/" <= p2)
    ensures LimiterKey(c1, p1) == LimiterKey(c2, p2) <==> c1 == c2 && p1 == p2
  {
    LimiterKeysCollideIff(c1, p1, c2, p2);
    if Straddles(c1, p1, c2, p2) { StraddlingShows(c1, p1, c2, p2); }
    if Straddles(c2, p2, c1, p1) { StraddlingShows(c2, p2, c1, p1); }
  }

  lemma StraddlingShows(c1: string, p1: string, c2: string, p2: string)
    requires Straddles(c1, p1, c2, p2)
    ensures ':' in p1 && ('/' in c2 || !("/" <= p1))
  {
    var rest := c2[|c1| + 1..];
    assert p1[|rest|] == ':';
    assert p1[0] == if rest == "" then ':' else rest[0];
    assert rest != "" ==> rest[0] in c2;
  }

  /** With ':' in a prefix and '/' in the header, two agents on two routes do share a history. */
  lemma AgentsCanShareAKey()
    ensures LimiterKey("mcp-agent:x", "/a:/b") == LimiterKey("mcp-agent:x:/a", "/b")
  {
    assert "mcp-agent:x" + ":" + "/a:/b" == "mcp-agent:x:/a" + ":" + "/b";
  }

  // ----- Go slices -----

  datatype Slice = Slice(data: array<Time>, len: nat) {
    ghost predicate Valid() { len <= data.Length }

    ghost function Contents(): seq<Time>
      reads data
      requires Valid()
    {
      data[..len]
    }
  }

  /** `valid := s[:0]` and the filtering loop: the result shares the backing array. */
  method Compact(s: Slice, cutoff: Time) returns (valid: Slice)
    requires s.Valid()
    modifies s.data
    ensures valid.data == s.data && valid.Valid()
    ensures valid.Contents() == Recent(old(s.Contents()), cutoff)
  {
    ghost var h := s.data[..s.len];
    var i, k := 0, 0;
    while i < s.len
      invariant 0 <= k <= i <= s.len
      invariant s.data[..k] == Recent(h[..i], cutoff)
      invariant forall j :: i <= j < s.len ==> s.data[j] == h[j]
    {
      assert h[..i + 1][..i] == h[..i];
      if s.data[i] > cutoff {
        s.data[k] := s.data[i];
        k := k + 1;
      }
      i := i + 1;
    }
    assert h[..s.len] == h;
    valid := Slice(s.data, k);
  }

  /** append: in place while the capacity lasts, else into a new array. */
  method Append(s: Slice, t: Time) returns (s': Slice)
    requires s.Valid()
    modifies s.data
    ensures s'.data == s.data || fresh(s'.data)
    ensures s'.Valid() && s'.Contents() == old(s.Contents()) + [t]
  {
    if s.len < s.data.Length {
      s.data[s.len] := t;
      s' := Slice(s.data, s.len + 1);
    } else {
      var bigger := new Time[2 * s.len + 1];
      forall i | 0 <= i < s.len {
        bigger[i] := s.data[i];
      }
      bigger[s.len] := t;
      s' := Slice(bigger, s.len + 1);
    }
  }

  // ----- isRateLimited -----

  class Limiter {
    var history: Slice

    constructor ()
      ensures fresh(history.data) && history.Valid() && history.Contents() == []
    {
      var nil := new Time[0];
      history := Slice(nil, 0);
    }

    /** The part of isRateLimited under lim.mu. */
    method Limit(limit: int, now: Time) returns (limited: bool)
      requires history.Valid()
      modifies this, history.data
      ensures history.data == old(history.data) || fresh(history.data)
      ensures history.Valid() && (history.Contents(), limited) == Check(old(history.Contents()), now, limit)
    {
      var valid := Compact(history, now - MINUTE);
      history := valid;
      if history.len >= limit {
        return true;
      }
      history := Append(history, now);
      limited := false;
    }
  }

  class Gateway {
    var ratLimiters: map<string, Limiter>
    ghost var keyOf: map<object, string>  // which key a limiter or a backing array serves

    ghost function Arrays(): set<object>
      reads this, ratLimiters.Values
    {
      set k | k in ratLimiters :: ratLimiters[k].history.data
    }

    /** No limiter and no backing array serves two keys. */
    ghost predicate Valid()
      reads this, ratLimiters.Values
    {
      forall k :: k in ratLimiters ==>
        var lim := ratLimiters[k];
        && lim.history.Valid()
        && lim in keyOf && keyOf[lim] == k
        && lim.history.data in keyOf && keyOf[lim.history.data] == k
    }

    ghost function Hist(key: string): seq<Time>
      reads this, ratLimiters.Values, Arrays()
      requires Valid()
    {
      if key in ratLimiters then ratLimiters[key].history.Contents() else []
    }

    constructor ()
      ensures Valid() && forall k :: Hist(k) == []
    {
      ratLimiters, keyOf := map[], map[];
    }

    /** The lookup under limiterMu: a missing limiter is created empty. */
    method LimiterFor(key: string) returns (lim: Limiter)
      requires Valid()
      modifies this
      ensures Valid() && key in ratLimiters && ratLimiters == old(ratLimiters)[key := lim]
      ensures if key in old(ratLimiters) then lim == old(ratLimiters)[key] else fresh(lim) && fresh(lim.history.data)
      ensures forall k :: Hist(k) == old(Hist(k))
    {
      if key !in ratLimiters {
        lim := new Limiter();
        ratLimiters := ratLimiters[key := lim];
        keyOf := keyOf[lim := key][lim.history.data := key];
      } else {
        lim := ratLimiters[key];
      }
    }

    /** The part under lim.mu for the limiter of a key: one limiter changes, the others do not. */
    method LimitFound(key: string, limit: int, now: Time) returns (limited: bool)
      requires Valid() && key in ratLimiters
      modifies this`keyOf, ratLimiters[key], ratLimiters[key].history.data
      ensures Valid() && (Hist(key), limited) == Check(old(Hist(key)), now, limit)
      ensures forall k :: k != key ==> Hist(k) == old(Hist(k))
    {
      var lim := ratLimiters[key];
      limited := lim.Limit(limit, now);
      keyOf := keyOf[lim.history.data := key];
    }

    /** The local path for a positive limit. */
    method LimitKey(key: string, limit: int, now: Time) returns (limited: bool)
      requires Valid()
      modifies this, ratLimiters.Values, Arrays()
      ensures Valid() && (Hist(key), limited) == Check(old(Hist(key)), now, limit)
      ensures forall k :: k != key ==> Hist(k) == old(Hist(k))
    {
      var lim := LimiterFor(key);
      limited := LimitFound(key, limit, now);
    }

    method IsRateLimited(clientIP: string, prefix: string, limit: int, now: Time) returns (limited: bool)
      requires Valid()
      modifies this, ratLimiters.Values, Arrays()
      ensures Valid()
      ensures var key := LimiterKey(clientIP, prefix);
              && (Hist(key), limited) == GatewayCheck(old(Hist(key)), now, limit)
              && forall k :: k != key ==> Hist(k) == old(Hist(k))
    {
      if limit <= 0 {
        return false;
      }
      limited := LimitKey(LimiterKey(clientIP, prefix), limit, now);
    }
  }

  // ----- adminRateLimiter -----

  class AdminRateLimiter {
    var history: map<string, Slice>
    ghost var keyOf: map<object, string>  // which key a backing array serves

    ghost predicate Valid()
      reads this
    {
      forall k :: k in history ==>
        history[k].Valid() && history[k].data in keyOf && keyOf[history[k].data] == k
    }

    ghost function Hist(ip: string): seq<Time>
      reads this, set k | k in history :: history[k].data
      requires Valid()
    {
      if ip in history then history[ip].Contents() else []
    }

    constructor ()
      ensures Valid() && forall k :: Hist(k) == []
    {
      history, keyOf := map[], map[];
    }

    method Limit(ip: string, limit: int, now: Time) returns (limited: bool)
      requires Valid()
      modifies this, set k | k in history :: history[k].data
      ensures Valid()
      ensures (Hist(ip), limited) == Check(old(Hist(ip)), now, limit)
      ensures forall k :: k != ip ==> Hist(k) == old(Hist(k))
    {
      var slice;
      if ip in history {
        slice := history[ip];
      } else {
        var nil := new Time[0];
        slice := Slice(nil, 0);
      }
      assert slice.Contents() == old(Hist(ip));
      var valid;
      valid, limited := LimitSlice(slice, limit, now);
      forall k | k in history && k != ip
        ensures history[k].data != valid.data && history[k].Contents() == old(Hist(k))
      {
        assert history[k].data != slice.data;
      }
      history := history[ip := valid];
      keyOf := keyOf[valid.data := ip];
    }

    /** The body of Limit between reading al.history[ip] and writing it back. */
    static method LimitSlice(slice: Slice, limit: int, now: Time) returns (valid: Slice, limited: bool)
      requires slice.Valid()
      modifies slice.data
      ensures valid.data == slice.data || fresh(valid.data)
      ensures valid.Valid() && (valid.Contents(), limited) == Check(old(slice.Contents()), now, limit)
    {
      valid := Compact(slice, now - MINUTE);
      limited := valid.len >= limit;
      if !limited {
        valid := Append(valid, now);
      }
    }
  }
}
