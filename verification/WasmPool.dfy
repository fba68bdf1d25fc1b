/**
 The WASM middleware manager (pkg/wasm/runner.go): Register swaps in a newly compiled version and
 drains the old instance pool, while any number of Runs take instances from pools and return them.

 Every lock section and channel operation is one atomic event. The engine is abstract: an event
 carries the outcome of compiling, instantiating or calling. Versions are numbered in the order
 in which compilation succeeded; a pool is a channel of capacity ten.
 */
module WasmPool {
  import opened Options

  type Name = string
  type Version = nat  // index into State.modules
  type PoolId = nat   // index into State.chans
  type Inst = nat     // index into State.insts
  type RunId = nat

  const CAPACITY := 10

  /** A compiled module; replacing it starts a timer that closes it. */
  datatype Module = Module(name: Name, closing: bool, closed: bool)

  /** A pool, with the version that was current when it was made. */
  datatype Pool = Pool(version: Version, items: seq<Inst>, closed: bool)

  /** An instance, with the version it was instantiated from and how often it was closed. */
  datatype Instance = Instance(version: Version, closes: nat)

  /** The mutex, with how far the Register holding it has come. */
  datatype Lock =
    | Free
    | Compiled(name: Name, version: Version)
    | Draining(name: Name, pool: PoolId)               // old pool closed, range loop running
    | Discarding(name: Name, pool: PoolId, hand: Inst) // range loop body
    | Drained(name: Name)

  datatype Outcome =
    | Output(ran: Version)  // the version whose code produced the output
    | NotRegistered
    | Failed
    | Panicked(lost: Inst)  // send on a closed channel; nobody holds the instance any more

  datatype Phase =
    | Selecting(pool: PoolId)
    | Creating(pool: PoolId)
    | Running(pool: PoolId, inst: Inst)
    | Returning(pool: PoolId, inst: Inst)
    | Dropping(inst: Inst)
    | Finished(outcome: Outcome)
  {
    predicate Holds() { Running? || Returning? || Dropping? }
    predicate HasPool() { !Dropping? && !Finished? }
  }

  /** A Run and the version it captured; an unknown name captures nothing (version unused). */
  datatype Execution = Execution(name: Name, version: Version, phase: Phase)

  datatype State = State(
    modules: seq<Module>,
    cache: map<Name, Version>,
    pools: map<Name, PoolId>,
    chans: seq<Pool>,
    insts: seq<Instance>,
    lock: Lock,
    runs: map<RunId, Execution>)

  const EMPTY := State([], map[], map[], [], [], Free, map[])

  datatype RegisterEvent =
    | CompileFails
    | Compile(name: Name)
    | SwapModule              // cache updated, old pool closed
    | DrainOne                // the range over the closed pool receives an instance
    | Discard
    | SwapPool                // new pool installed, mutex released
    | CloseModule(version: Version)

  datatype RunEvent =
    | Capture(name: Name)
    | TryTake
    | Instantiate
    | InstantiateExits(ok: bool)
    | Call(direct: bool)
    | TryReturn
    | Drop

  datatype Event = Reg(reg: RegisterEvent) | Of(r: RunId, run: RunEvent)

  predicate RegEnabled(s: State, e: RegisterEvent) {
    match e
    case CompileFails => s.lock.Free?
    case Compile(_) => s.lock.Free?
    case SwapModule =>
      && s.lock.Compiled?
      && (s.lock.name in s.cache ==> s.cache[s.lock.name] < |s.modules|)
      && (s.lock.name in s.pools ==> s.pools[s.lock.name] < |s.chans|)
    case DrainOne => s.lock.Draining? && s.lock.pool < |s.chans| && s.chans[s.lock.pool].items != []
    case Discard => s.lock.Discarding? && s.lock.hand < |s.insts|
    case SwapPool =>
      && (s.lock.Drained? || (s.lock.Draining? && s.lock.pool < |s.chans| && s.chans[s.lock.pool].items == []))
      && s.lock.name in s.cache
    case CloseModule(v) => v < |s.modules| && s.modules[v].closing && !s.modules[v].closed
  }

  predicate RunEnabled(s: State, r: RunId, e: RunEvent) {
    if e.Capture? then s.lock.Free? && r !in s.runs && (e.name in s.cache ==> e.name in s.pools)
    else
      r in s.runs &&
      var Execution(_, version, phase) := s.runs[r];
      match e
      case Capture(_) => false
      case TryTake => phase.Selecting? && phase.pool < |s.chans|
      case Instantiate => s.lock.Free? && phase.Creating? && version < |s.modules| && !s.modules[version].closed
      case InstantiateExits(_) => s.lock.Free? && phase.Creating?
      case Call(_) => phase.Running?
      case TryReturn => phase.Returning? && phase.pool < |s.chans| && phase.inst < |s.insts|
      case Drop => phase.Dropping? && phase.inst < |s.insts|
  }

  predicate Enabled(s: State, e: Event) {
    match e
    case Reg(reg) => RegEnabled(s, reg)
    case Of(r, run) => RunEnabled(s, r, run)
  }

  function WithItems(chans: seq<Pool>, p: PoolId, items: seq<Inst>): seq<Pool>
    requires p < |chans|
  {
    chans[p := chans[p].(items := items)]
  }

  function CloseInst(insts: seq<Instance>, i: Inst): seq<Instance>
    requires i < |insts|
  {
    insts[i := insts[i].(closes := insts[i].closes + 1)]
  }

  function RegNext(s: State, e: RegisterEvent): State
    requires RegEnabled(s, e)
  {
    match e
    case CompileFails => s
    case Compile(name) =>
      s.(modules := s.modules + [Module(name, false, false)], lock := Compiled(name, |s.modules|))
    case SwapModule =>
      var Compiled(name, version) := s.lock;
      var modules :=
        if name in s.cache then s.modules[s.cache[name] := s.modules[s.cache[name]].(closing := true)] else s.modules;
      var s1 := s.(modules := modules, cache := s.cache[name := version]);
      if name in s.pools then
        var p := s.pools[name];
        s1.(chans := s.chans[p := s.chans[p].(closed := true)], lock := Draining(name, p))
      else s1.(lock := Drained(name))
    case DrainOne =>
      var Draining(name, p) := s.lock;
      s.(chans := WithItems(s.chans, p, s.chans[p].items[1..]), lock := Discarding(name, p, s.chans[p].items[0]))
    case Discard =>
      s.(insts := CloseInst(s.insts, s.lock.hand), lock := Draining(s.lock.name, s.lock.pool))
    case SwapPool =>
      s.(chans := s.chans + [Pool(s.cache[s.lock.name], [], false)],
         pools := s.pools[s.lock.name := |s.chans|],
         lock := Free)
    case CloseModule(v) => s.(modules := s.modules[v := s.modules[v].(closed := true)])
  }

  /** What one event of a Run does to the channels, the instances and the Run itself. */
  function RunEffect(s: State, r: RunId, e: RunEvent): (seq<Pool>, seq<Instance>, Execution)
    requires RunEnabled(s, r, e)
  {
    if e.Capture? then
      (s.chans, s.insts,
       if e.name in s.cache then Execution(e.name, s.cache[e.name], Selecting(s.pools[e.name]))
       else Execution(e.name, 0, Finished(NotRegistered)))
    else
      var run := s.runs[r];
      var phase := run.phase;
      match e
      case TryTake =>
        var items := s.chans[phase.pool].items;
        if items != []
        then (WithItems(s.chans, phase.pool, items[1..]), s.insts, run.(phase := Running(phase.pool, items[0])))
        else (s.chans, s.insts, run.(phase := Creating(phase.pool)))
      case Instantiate =>
        (s.chans, s.insts + [Instance(run.version, 0)], run.(phase := Running(phase.pool, |s.insts|)))
      case InstantiateExits(ok) =>
        (s.chans, s.insts, run.(phase := Finished(if ok then Output(run.version) else Failed)))
      case Call(direct) =>
        (s.chans, s.insts,
         run.(phase := if direct then Returning(phase.pool, phase.inst) else Dropping(phase.inst)))
      case TryReturn =>
        var items := s.chans[phase.pool].items;
        if s.chans[phase.pool].closed then (s.chans, s.insts, run.(phase := Finished(Panicked(phase.inst))))
        else if |items| < CAPACITY then
          (WithItems(s.chans, phase.pool, items + [phase.inst]), s.insts,
           run.(phase := Finished(Output(s.insts[phase.inst].version))))
        else (s.chans, s.insts, run.(phase := Dropping(phase.inst)))
      case Drop =>
        (s.chans, CloseInst(s.insts, phase.inst), run.(phase := Finished(Output(s.insts[phase.inst].version))))
  }

  function RunNext(s: State, r: RunId, e: RunEvent): State
    requires RunEnabled(s, r, e)
  {
    var (chans, insts, run) := RunEffect(s, r, e);
    s.(chans := chans, insts := insts, runs := s.runs[r := run])
  }

  function Next(s: State, e: Event): State
    requires Enabled(s, e)
  {
    match e
    case Reg(reg) => RegNext(s, reg)
    case Of(r, run) => RunNext(s, r, run)
  }

  ghost predicate IsRun(s: State, es: seq<Event>)
    decreases |es|
  {
    es == [] || (Enabled(s, es[0]) && IsRun(Next(s, es[0]), es[1..]))
  }

  ghost function After(s: State, es: seq<Event>): State
    requires IsRun(s, es)
    decreases |es|
  {
    if es == [] then s else After(Next(s, es[0]), es[1..])
  }

  // ----- identities never change -----

  ghost predicate Grows(s: State, s': State) {
    && |s.modules| <= |s'.modules| && |s.chans| <= |s'.chans| && |s.insts| <= |s'.insts|
    && (forall v :: 0 <= v < |s.modules| ==> s'.modules[v].name == s.modules[v].name)
    && (forall p :: 0 <= p < |s.chans| ==> s'.chans[p].version == s.chans[p].version)
    && (forall i :: 0 <= i < |s.insts| ==> s'.insts[i].version == s.insts[i].version)
  }

  lemma RegisterGrows(s: State, e: RegisterEvent)
    requires RegEnabled(s, e)
    ensures Grows(s, RegNext(s, e))
  {
  }

  lemma RunGrows(s: State, r: RunId, e: RunEvent)
    requires RunEnabled(s, r, e)
    ensures Grows(s, RunNext(s, r, e))
  {
  }

  // ----- version binding -----

  /** A registered name has a live newest version; unless it is being swapped, its pool matches. */
  ghost predicate NameBound(s: State, name: Name)
    requires name in s.cache
  {
    && s.cache[name] < |s.modules|
    && s.modules[s.cache[name]] == Module(name, false, false)
    && (s.lock.Free? || s.lock.Compiled? || s.lock.name != name ==>
         && name in s.pools
         && s.pools[name] < |s.chans|
         && s.chans[s.pools[name]].version == s.cache[name]
         && !s.chans[s.pools[name]].closed)
  }

  ghost predicate LockBound(s: State) {
    match s.lock
    case Free => true
    case Compiled(name, v) =>
      && v == |s.modules| - 1 && s.modules[v] == Module(name, false, false)
      && forall n :: n in s.cache ==> s.cache[n] != v
    case Draining(name, p) => name in s.cache && p < |s.chans| && s.chans[p].closed
    case Discarding(name, p, hand) =>
      name in s.cache && p < |s.chans| && s.chans[p].closed && hand < |s.insts|
    case Drained(name) => name in s.cache && name !in s.pools
  }

  /** A Run uses the pool and the instances of the version it captured. */
  ghost predicate RunBound(s: State, run: Execution) {
    && (run.phase.HasPool() ==>
         && run.version < |s.modules| && s.modules[run.version].name == run.name
         && run.phase.pool < |s.chans| && s.chans[run.phase.pool].version == run.version)
    && (run.phase.Holds() ==>
         run.phase.inst < |s.insts| && s.insts[run.phase.inst].version == run.version)
    && (run.phase.Finished? && run.phase.outcome.Output? ==> run.phase.outcome.ran == run.version)
  }

  ghost predicate PoolBound(s: State, p: PoolId)
    requires p < |s.chans|
  {
    && s.chans[p].version < |s.modules|
    && forall i :: i in s.chans[p].items ==> i < |s.insts| && s.insts[i].version == s.chans[p].version
  }

  ghost predicate Bound(s: State) {
    && LockBound(s)
    && (forall n :: n in s.cache ==> NameBound(s, n))
    && (forall n :: n in s.pools ==> n in s.cache)
    && (forall p: nat :: p < |s.chans| ==> PoolBound(s, p))
    && (forall r :: r in s.runs ==> RunBound(s, s.runs[r]))
    && (forall v :: 0 <= v < |s.modules| && s.modules[v].closed ==> s.modules[v].closing)
  }

  lemma RunEventBinds(s: State, r: RunId, e: RunEvent)
    requires Bound(s) && RunEnabled(s, r, e)
    ensures RunBound(RunNext(s, r, e), RunNext(s, r, e).runs[r])
  {
    if e.Capture? && e.name in s.cache {
      assert NameBound(s, e.name);
      assert PoolBound(s, s.pools[e.name]);
    }
    if r in s.runs {
      assert RunBound(s, s.runs[r]);
      if e.TryTake? {
        var pool := s.chans[s.runs[r].phase.pool];
        assert PoolBound(s, s.runs[r].phase.pool);
        assert pool.items != [] ==> pool.items[0] in pool.items;
      }
    }
  }

  lemma RunEventKeepsPools(s: State, r: RunId, e: RunEvent, p: PoolId)
    requires Bound(s) && RunEnabled(s, r, e) && p < |s.chans|
    ensures PoolBound(RunNext(s, r, e), p)
  {
    assert PoolBound(s, p);
    if r in s.runs { assert RunBound(s, s.runs[r]); }
  }

  lemma RunEventKeepsBinding(s: State, r: RunId, e: RunEvent)
    requires Bound(s) && RunEnabled(s, r, e)
    ensures Bound(RunNext(s, r, e))
  {
    var s' := RunNext(s, r, e);
    RunGrows(s, r, e);
    RunEventBinds(s, r, e);
    forall p: nat | p < |s'.chans| ensures PoolBound(s', p) { RunEventKeepsPools(s, r, e, p); }
    forall q | q in s'.runs ensures RunBound(s', s'.runs[q]) {
      if q != r { assert RunBound(s, s.runs[q]); }
    }
    forall n | n in s'.cache ensures NameBound(s', n) { RunEventKeepsNames(s, r, e, n); }
  }

  lemma RunEventKeepsNames(s: State, r: RunId, e: RunEvent, n: Name)
    requires Bound(s) && RunEnabled(s, r, e) && n in s.cache
    ensures n in RunNext(s, r, e).cache && NameBound(RunNext(s, r, e), n)
  {
    assert NameBound(s, n);
  }

  lemma RegisterKeepsNames(s: State, e: RegisterEvent, n: Name)
    requires Bound(s) && RegEnabled(s, e) && n in RegNext(s, e).cache
    ensures NameBound(RegNext(s, e), n)
  {
    if e.SwapModule? {
      SwapModuleKeepsNames(s, n);
    } else if n in s.cache {
      assert NameBound(s, n);
    }
  }

  lemma SwapModuleKeepsNames(s: State, n: Name)
    requires Bound(s) && RegEnabled(s, SwapModule) && n in RegNext(s, SwapModule).cache
    ensures NameBound(RegNext(s, SwapModule), n)
  {
    if n in s.cache { assert NameBound(s, n); }
    if s.lock.name in s.cache { assert NameBound(s, s.lock.name); }
  }

  lemma RegisterKeepsLock(s: State, e: RegisterEvent)
    requires Bound(s) && RegEnabled(s, e)
    ensures LockBound(RegNext(s, e))
  {
    if e.Compile? {
      forall n | n in s.cache ensures s.cache[n] != |s.modules| { assert NameBound(s, n); }
    }
    if e.DrainOne? {
      assert PoolBound(s, s.lock.pool);
      assert s.chans[s.lock.pool].items[0] in s.chans[s.lock.pool].items;
    }
  }

  lemma RegisterKeepsPools(s: State, e: RegisterEvent, p: PoolId)
    requires Bound(s) && RegEnabled(s, e) && p < |RegNext(s, e).chans|
    ensures PoolBound(RegNext(s, e), p)
  {
    if p < |s.chans| { assert PoolBound(s, p); } else { assert NameBound(s, s.lock.name); }
  }

  lemma RegisterKeepsRuns(s: State, e: RegisterEvent, r: RunId)
    requires Bound(s) && RegEnabled(s, e) && r in s.runs
    ensures RunBound(RegNext(s, e), s.runs[r])
  {
    RegisterGrows(s, e);
    assert RunBound(s, s.runs[r]);
  }

  lemma RegisterKeepsBinding(s: State, e: RegisterEvent)
    requires Bound(s) && RegEnabled(s, e)
    ensures Bound(RegNext(s, e))
  {
    var s' := RegNext(s, e);
    RegisterKeepsLock(s, e);
    forall n | n in s'.cache ensures NameBound(s', n) { RegisterKeepsNames(s, e, n); }
    forall p: nat | p < |s'.chans| ensures PoolBound(s', p) { RegisterKeepsPools(s, e, p); }
    forall r | r in s'.runs ensures RunBound(s', s'.runs[r]) { RegisterKeepsRuns(s, e, r); }
  }

  lemma StepKeepsBinding(s: State, e: Event)
    requires Bound(s) && Enabled(s, e)
    ensures Bound(Next(s, e))
  {
    match e
    case Reg(reg) => RegisterKeepsBinding(s, reg);
    case Of(r, run) => RunEventKeepsBinding(s, r, run);
  }

  // ----- ownership -----

  datatype Place = InPool(pool: PoolId) | WithRun(r: RunId) | WithRegister | Gone | Lost(r: RunId)

  ghost predicate NoDuplicates(items: seq<Inst>) {
    forall i, j :: 0 <= i < j < |items| ==> items[i] != items[j]
  }

  ghost predicate PoolOwns(s: State, place: seq<Place>, p: PoolId)
    requires p < |s.chans|
  {
    && NoDuplicates(s.chans[p].items) && |s.chans[p].items| <= 10
    && forall i :: i in s.chans[p].items ==> i < |place| && place[i] == InPool(p)
  }

  ghost predicate RunOwns(run: Execution, r: RunId, place: seq<Place>) {
    run.phase.Holds() ==> run.phase.inst < |place| && place[run.phase.inst] == WithRun(r)
  }

  ghost predicate HeldByPool(s: State, i: Inst, p: PoolId) { p < |s.chans| && i in s.chans[p].items }

  ghost predicate HeldByRun(s: State, i: Inst, r: RunId) {
    r in s.runs && s.runs[r].phase.Holds() && s.runs[r].phase.inst == i
  }

  ghost predicate HeldByRegister(s: State, i: Inst) { s.lock.Discarding? && s.lock.hand == i }

  /** Every instance has one place, and whoever has the instance is that place. */
  ghost predicate Owned(s: State, place: seq<Place>) {
    && |place| == |s.insts|
    && (forall p: nat :: p < |s.chans| ==> PoolOwns(s, place, p))
    && (forall r :: r in s.runs ==> RunOwns(s.runs[r], r, place))
    && (s.lock.Discarding? ==> s.lock.hand < |place| && place[s.lock.hand] == WithRegister)
    && (forall i :: 0 <= i < |place| ==> s.insts[i].closes == if place[i] == Gone then 1 else 0)
  }

  /** Where the instance an event moves goes; every other instance stays. */
  ghost function RegMoved(s: State, place: seq<Place>, e: RegisterEvent): seq<Place>
    requires RegEnabled(s, e) && Owned(s, place)
  {
    if e.DrainOne? then
      var items := s.chans[s.lock.pool].items;
      assert PoolOwns(s, place, s.lock.pool) && items[0] in items;
      place[items[0] := WithRegister]
    else if e.Discard? then place[s.lock.hand := Gone]
    else place
  }

  ghost function RunMoved(s: State, place: seq<Place>, r: RunId, e: RunEvent): seq<Place>
    requires RunEnabled(s, r, e) && Owned(s, place)
  {
    if e.Instantiate? then place + [WithRun(r)]
    else if e.TryTake? then
      var p := s.runs[r].phase.pool;
      var items := s.chans[p].items;
      assert PoolOwns(s, place, p);
      if items == [] then place else assert items[0] in items; place[items[0] := WithRun(r)]
    else if e.TryReturn? then
      var phase := s.runs[r].phase;
      if s.chans[phase.pool].closed then place[phase.inst := Lost(r)]
      else if |s.chans[phase.pool].items| < CAPACITY then place[phase.inst := InPool(phase.pool)]
      else place
    else if e.Drop? then place[s.runs[r].phase.inst := Gone]
    else place
  }

  lemma HeadLeavesPool(s: State, place: seq<Place>, p: PoolId)
    requires Owned(s, place) && p < |s.chans|
    ensures var items := s.chans[p].items;
            items != [] ==> items[0] < |place| && place[items[0]] == InPool(p) && items[0] !in items[1..]
  {
    var items := s.chans[p].items;
    assert PoolOwns(s, place, p);
    assert items != [] ==> items[0] in items;
  }

  lemma RegMovesKeepPools(s: State, place: seq<Place>, e: RegisterEvent, p: PoolId)
    requires RegEnabled(s, e) && Owned(s, place) && p < |RegNext(s, e).chans|
    ensures PoolOwns(RegNext(s, e), RegMoved(s, place, e), p)
  {
    if p < |s.chans| { assert PoolOwns(s, place, p); }
    if e.DrainOne? {
      HeadLeavesPool(s, place, s.lock.pool);
      assert forall i :: i in RegNext(s, e).chans[p].items ==> i in s.chans[p].items;
    }
  }

  lemma RegKeepsOwnership(s: State, place: seq<Place>, e: RegisterEvent)
    requires RegEnabled(s, e) && Owned(s, place)
    ensures Owned(RegNext(s, e), RegMoved(s, place, e))
  {
    var s', place' := RegNext(s, e), RegMoved(s, place, e);
    if e.DrainOne? {
      var items := s.chans[s.lock.pool].items;
      assert PoolOwns(s, place, s.lock.pool) && items[0] in items;
    }
    forall p: nat | p < |s'.chans| ensures PoolOwns(s', place', p) { RegMovesKeepPools(s, place, e, p); }
    forall r | r in s'.runs ensures RunOwns(s'.runs[r], r, place') { assert RunOwns(s.runs[r], r, place); }
  }

  lemma RunMovesKeepPools(s: State, place: seq<Place>, r: RunId, e: RunEvent, p: PoolId)
    requires RunEnabled(s, r, e) && Owned(s, place) && p < |s.chans|
    ensures PoolOwns(RunNext(s, r, e), RunMoved(s, place, r, e), p)
  {
    var items, items' := s.chans[p].items, RunNext(s, r, e).chans[p].items;
    assert PoolOwns(s, place, p);
    if r in s.runs { assert RunOwns(s.runs[r], r, place); }
    if e.TryTake? {
      HeadLeavesPool(s, place, s.runs[r].phase.pool);
      assert forall i :: i in items' ==> i in items;
    } else if e.TryReturn? {
      assert forall i :: i in items' ==> i in items || i == s.runs[r].phase.inst;
    }
  }

  lemma RunMovesKeepRuns(s: State, place: seq<Place>, r: RunId, e: RunEvent, q: RunId)
    requires RunEnabled(s, r, e) && Owned(s, place) && q in RunNext(s, r, e).runs
    ensures RunOwns(RunNext(s, r, e).runs[q], q, RunMoved(s, place, r, e))
  {
    if q in s.runs { assert RunOwns(s.runs[q], q, place); }
    if r in s.runs { assert RunOwns(s.runs[r], r, place); }
    if e.TryTake? {
      var items := s.chans[s.runs[r].phase.pool].items;
      assert PoolOwns(s, place, s.runs[r].phase.pool) && (items != [] ==> items[0] in items);
    }
  }

  lemma RunKeepsOwnership(s: State, place: seq<Place>, r: RunId, e: RunEvent)
    requires RunEnabled(s, r, e) && Owned(s, place)
    ensures Owned(RunNext(s, r, e), RunMoved(s, place, r, e))
  {
    var s', place' := RunNext(s, r, e), RunMoved(s, place, r, e);
    if r in s.runs { assert RunOwns(s.runs[r], r, place); }
    if e.TryTake? {
      var items := s.chans[s.runs[r].phase.pool].items;
      assert PoolOwns(s, place, s.runs[r].phase.pool) && (items != [] ==> items[0] in items);
    }
    forall p: nat | p < |s'.chans| ensures PoolOwns(s', place', p) { RunMovesKeepPools(s, place, r, e, p); }
    forall q | q in s'.runs ensures RunOwns(s'.runs[q], q, place') { RunMovesKeepRuns(s, place, r, e, q); }
  }

  // ----- conservation -----

  ghost predicate AtPlace(s: State, i: Inst, place: Place)
    requires i < |s.insts|
  {
    match place
    case InPool(p) => HeldByPool(s, i, p)
    case WithRun(r) => HeldByRun(s, i, r)
    case WithRegister => HeldByRegister(s, i)
    case Gone => s.insts[i].closes == 1
    case Lost(r) => r in s.runs && s.runs[r].phase == Finished(Panicked(i))
  }

  ghost predicate Accounted(s: State, place: seq<Place>) {
    |place| == |s.insts| && forall i: nat :: i < |place| ==> AtPlace(s, i, place[i])
  }

  lemma RegKeepsAccount(s: State, place: seq<Place>, e: RegisterEvent, i: Inst)
    requires RegEnabled(s, e) && Owned(s, place) && Accounted(s, place) && i < |place|
    ensures |RegMoved(s, place, e)| == |place| == |RegNext(s, e).insts|
    ensures AtPlace(RegNext(s, e), i, RegMoved(s, place, e)[i])
  {
    assert AtPlace(s, i, place[i]);
    if e.DrainOne? {
      HeadLeavesPool(s, place, s.lock.pool);
      InTail(s.chans[s.lock.pool].items, i);
    }
  }

  lemma InTail(items: seq<Inst>, i: Inst)
    ensures i in items && i != items[0] ==> i in items[1..]
  {
  }

  lemma RunKeepsAccount(s: State, place: seq<Place>, r: RunId, e: RunEvent, i: Inst)
    requires RunEnabled(s, r, e) && Owned(s, place) && Accounted(s, place) && i < |RunNext(s, r, e).insts|
    ensures |RunMoved(s, place, r, e)| == |RunNext(s, r, e).insts|
    ensures AtPlace(RunNext(s, r, e), i, RunMoved(s, place, r, e)[i])
  {
    if i < |place| { assert AtPlace(s, i, place[i]); }
    if r in s.runs { assert RunOwns(s.runs[r], r, place); }
    if e.TryTake? {
      HeadLeavesPool(s, place, s.runs[r].phase.pool);
      InTail(s.chans[s.runs[r].phase.pool].items, i);
    }
  }

  lemma StepKeepsAccount(s: State, place: seq<Place>, e: Event) returns (place': seq<Place>)
    requires Enabled(s, e) && Owned(s, place) && Accounted(s, place)
    ensures Owned(Next(s, e), place') && Accounted(Next(s, e), place')
  {
    match e {
      case Reg(reg) =>
        place' := RegMoved(s, place, reg);
        RegKeepsOwnership(s, place, reg);
        forall i: nat | i < |place'| ensures AtPlace(Next(s, e), i, place'[i]) { RegKeepsAccount(s, place, reg, i); }
      case Of(r, run) =>
        place' := RunMoved(s, place, r, run);
        RunKeepsOwnership(s, place, r, run);
        forall i: nat | i < |place'| ensures AtPlace(Next(s, e), i, place'[i]) { RunKeepsAccount(s, place, r, run, i); }
    }
  }

  // ----- all invariants, over runs -----

  lemma {:induction false} RunKeepsInvariants(s: State, place: seq<Place>, es: seq<Event>) returns (place': seq<Place>)
    requires Bound(s) && Owned(s, place) && Accounted(s, place) && IsRun(s, es)
    ensures Bound(After(s, es)) && Owned(After(s, es), place') && Accounted(After(s, es), place')
    decreases |es|
  {
    place' := place;
    if es != [] {
      StepKeepsBinding(s, es[0]);
      var place1 := StepKeepsAccount(s, place, es[0]);
      place' := RunKeepsInvariants(Next(s, es[0]), place1, es[1..]);
    }
  }
}
