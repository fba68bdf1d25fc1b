/**
 What the hot swap of pkg/wasm/runner.go keeps over every run of the machine in WasmPool: one owner for every
 instance, the version a Run executes, and what becomes of returned instances and replaced modules.
 */
module WasmHotSwap {
  import opened Options
  import opened WasmPool

  // ----- instances and versions -----

  /** Whatever the interleaving, an instance has at most one holder, and none once it is closed. */
  lemma InstancesHaveOneOwner(es: seq<Event>, i: Inst)
    requires IsRun(EMPTY, es) && i < |After(EMPTY, es).insts|
    ensures var s := After(EMPTY, es);
            && (forall p, q :: HeldByPool(s, i, p) && HeldByPool(s, i, q) ==> p == q)
            && (forall r, q :: HeldByRun(s, i, r) && HeldByRun(s, i, q) ==> r == q)
            && (forall p, r :: !(HeldByPool(s, i, p) && HeldByRun(s, i, r)))
            && (HeldByRegister(s, i) ==> forall p :: !HeldByPool(s, i, p) && !HeldByRun(s, i, p))
            && (s.insts[i].closes > 0 ==>
                 !HeldByRegister(s, i) && forall p :: !HeldByPool(s, i, p) && !HeldByRun(s, i, p))
            && s.insts[i].closes <= 1
  {
    var place := RunKeepsInvariants(EMPTY, [], es);
    var s := After(EMPTY, es);
    forall p | HeldByPool(s, i, p) ensures place[i] == InPool(p) { assert PoolOwns(s, place, p); }
    forall r | HeldByRun(s, i, r) ensures place[i] == WithRun(r) { assert RunOwns(s.runs[r], r, place); }
  }

  /**
   Conservation: every instance ever created is in a pool, held by a Run or by the draining
   Register, closed exactly once, or was lost by a Run that panicked.
   */
  lemma InstancesAreAccountedFor(es: seq<Event>, i: Inst)
    requires IsRun(EMPTY, es) && i < |After(EMPTY, es).insts|
    ensures var s := After(EMPTY, es);
            || (exists p :: HeldByPool(s, i, p))
            || (exists r :: HeldByRun(s, i, r))
            || HeldByRegister(s, i)
            || s.insts[i].closes == 1
            || (exists r :: r in s.runs && s.runs[r].phase == Finished(Panicked(i)))
  {
    var place := RunKeepsInvariants(EMPTY, [], es);
    assert AtPlace(After(EMPTY, es), i, place[i]);
  }

  /** A pool never holds an instance twice or more than its capacity, only of its own version. */
  lemma PoolsHoldTheirVersion(es: seq<Event>, p: PoolId)
    requires IsRun(EMPTY, es) && p < |After(EMPTY, es).chans|
    ensures var s := After(EMPTY, es);
            && NoDuplicates(s.chans[p].items) && |s.chans[p].items| <= 10
            && forall i :: i in s.chans[p].items ==> i < |s.insts| && s.insts[i].version == s.chans[p].version
  {
    var place := RunKeepsInvariants(EMPTY, [], es);
    assert PoolOwns(After(EMPTY, es), place, p) && PoolBound(After(EMPTY, es), p);
  }

  /** A Run executes the version it captured, and that version was compiled for its name. */
  lemma RunsExecuteWhatTheyCaptured(es: seq<Event>, r: RunId)
    requires IsRun(EMPTY, es) && r in After(EMPTY, es).runs
    ensures var s := After(EMPTY, es);
            var run := s.runs[r];
            && (run.phase.Holds() ==>
                 run.phase.inst < |s.insts| && s.insts[run.phase.inst].version == run.version)
            && (run.phase.Finished? && run.phase.outcome.Output? ==> run.phase.outcome.ran == run.version)
  {
    var place := RunKeepsInvariants(EMPTY, [], es);
    assert RunBound(After(EMPTY, es), After(EMPTY, es).runs[r]);
  }

  /** Between Registers, every name has its newest module, never scheduled for closing, and a matching open pool. */
  lemma CurrentVersionIsLive(es: seq<Event>, name: Name)
    requires IsRun(EMPTY, es) && After(EMPTY, es).lock.Free? && name in After(EMPTY, es).cache
    ensures var s := After(EMPTY, es);
            && s.cache[name] < |s.modules| && s.modules[s.cache[name]] == Module(name, false, false)
            && name in s.pools && s.pools[name] < |s.chans|
            && s.chans[s.pools[name]].version == s.cache[name] && !s.chans[s.pools[name]].closed
  {
    var place := RunKeepsInvariants(EMPTY, [], es);
    assert NameBound(After(EMPTY, es), name);
  }

  lemma StepNeverGoesBack(s: State, e: Event, name: Name)
    requires Bound(s) && Enabled(s, e) && name in s.cache
    ensures name in Next(s, e).cache && Next(s, e).cache[name] >= s.cache[name]
  {
    assert NameBound(s, name);
  }

  /** The Runs that start during es use at least the version name has at its beginning. */
  lemma {:induction false} LaterRunsAreNewer(s: State, es: seq<Event>, name: Name, v: Version, r: RunId)
    requires Bound(s) && IsRun(s, es) && name in s.cache && s.cache[name] >= v
    requires r in s.runs ==> s.runs[r].name == name && s.runs[r].version >= v
    requires r in After(s, es).runs && After(s, es).runs[r].name == name
    ensures After(s, es).runs[r].version >= v
    decreases |es|
  {
    if es != [] {
      StepKeepsBinding(s, es[0]);
      StepNeverGoesBack(s, es[0], name);
      var s1 := Next(s, es[0]);
      if r in s1.runs && s1.runs[r].name != name {
        NamesStay(s1, es[1..], r);
      } else {
        LaterRunsAreNewer(s1, es[1..], name, v, r);
      }
    }
  }

  lemma {:induction false} NamesStay(s: State, es: seq<Event>, r: RunId)
    requires IsRun(s, es) && r in s.runs
    ensures r in After(s, es).runs && After(s, es).runs[r].name == s.runs[r].name
    decreases |es|
  {
    if es != [] { NamesStay(Next(s, es[0]), es[1..], r); }
  }

  /**
   The hot-swap promise: a Run that starts after a Register of its name returned, whatever else
   happens, never produces output of an older version.
   */
  lemma NoStaleRunAfterRegister(before: seq<Event>, es: seq<Event>, name: Name, r: RunId)
    requires IsRun(EMPTY, before) && After(EMPTY, before).lock.Free? && name in After(EMPTY, before).cache
    requires IsRun(After(EMPTY, before), es) && r !in After(EMPTY, before).runs
    requires var s' := After(After(EMPTY, before), es);
             r in s'.runs && s'.runs[r].name == name
             && s'.runs[r].phase.Finished? && s'.runs[r].phase.outcome.Output?
    ensures After(After(EMPTY, before), es).runs[r].phase.outcome.ran >= After(EMPTY, before).cache[name]
  {
    var s := After(EMPTY, before);
    var place := RunKeepsInvariants(EMPTY, [], before);
    LaterRunsAreNewer(s, es, name, s.cache[name], r);
    var place' := RunKeepsInvariants(s, place, es);
    assert RunBound(After(s, es), After(s, es).runs[r]);
  }

  // ----- when a return aborts -----

  /** The pool its name currently uses, not yet being drained. */
  ghost predicate InService(s: State, p: PoolId) {
    p < |s.chans| && s.chans[p].version < |s.modules| &&
    var n := s.modules[s.chans[p].version].name;
    n in s.pools && s.pools[n] == p && !((s.lock.Draining? || s.lock.Discarding?) && s.lock.name == n)
  }

  ghost predicate ClosedIffReplaced(s: State) {
    forall p: nat :: p < |s.chans| && s.chans[p].version < |s.modules| ==>
      (s.chans[p].closed <==> !InService(s, p))
  }

  lemma RegisterClosesReplaced(s: State, e: RegisterEvent, p: PoolId)
    requires Bound(s) && ClosedIffReplaced(s) && RegEnabled(s, e) && p < |RegNext(s, e).chans|
    ensures RegNext(s, e).chans[p].closed <==> !InService(RegNext(s, e), p)
  {
    if e.SwapModule? {
      SwapModuleClosesReplaced(s, p);
    } else if e.SwapPool? {
      SwapPoolClosesReplaced(s, p);
    } else {
      assert PoolBound(s, p);
      assert s.chans[p].closed <==> !InService(s, p);
    }
  }

  lemma SwapModuleClosesReplaced(s: State, p: PoolId)
    requires Bound(s) && ClosedIffReplaced(s) && RegEnabled(s, SwapModule) && p < |s.chans|
    ensures RegNext(s, SwapModule).chans[p].closed <==> !InService(RegNext(s, SwapModule), p)
  {
    assert PoolBound(s, p);
    assert s.chans[p].closed <==> !InService(s, p);
    if s.lock.name in s.pools { assert NameBound(s, s.lock.name); }
  }

  lemma SwapPoolClosesReplaced(s: State, p: PoolId)
    requires Bound(s) && ClosedIffReplaced(s) && RegEnabled(s, SwapPool) && p <= |s.chans|
    ensures RegNext(s, SwapPool).chans[p].closed <==> !InService(RegNext(s, SwapPool), p)
  {
    if p < |s.chans| {
      assert PoolBound(s, p);
      assert s.chans[p].closed <==> !InService(s, p);
    }
    assert NameBound(s, s.lock.name);
  }

  lemma {:induction false} RunClosesReplaced(s: State, es: seq<Event>)
    requires Bound(s) && ClosedIffReplaced(s) && IsRun(s, es)
    ensures Bound(After(s, es)) && ClosedIffReplaced(After(s, es))
    decreases |es|
  {
    if es != [] {
      var s1 := Next(s, es[0]);
      StepKeepsBinding(s, es[0]);
      forall p: nat | p < |s1.chans| && s1.chans[p].version < |s1.modules|
        ensures s1.chans[p].closed <==> !InService(s1, p)
      {
        match es[0] {
          case Reg(e) => RegisterClosesReplaced(s, e, p);
          case Of(r, e) => assert PoolBound(s, p); assert s.chans[p].closed <==> !InService(s, p);
        }
      }
      RunClosesReplaced(s1, es[1..]);
    }
  }

  /**
   Returning an instance panics exactly when a Register of the Run's name has, since the Run
   captured its pool, replaced that pool or begun to drain it.
   */
  lemma ReturnPanicsIffSwapped(es: seq<Event>, r: RunId)
    requires IsRun(EMPTY, es) && RunEnabled(After(EMPTY, es), r, TryReturn)
    ensures var s := After(EMPTY, es);
            var Execution(name, _, phase) := s.runs[r];
            RunNext(s, r, TryReturn).runs[r].phase == Finished(Panicked(phase.inst)) <==>
              !(name in s.pools && s.pools[name] == phase.pool)
              || ((s.lock.Draining? || s.lock.Discarding?) && s.lock.name == name)
  {
    RunClosesReplaced(EMPTY, es);
    var s := After(EMPTY, es);
    assert RunBound(s, s.runs[r]) && PoolBound(s, s.runs[r].phase.pool);
    assert s.chans[s.runs[r].phase.pool].closed <==> !InService(s, s.runs[r].phase.pool);
  }

  /**
   What becomes of an instance that is returned, over every run: a pool that is open and holds fewer than
   ten takes exactly this instance, at its end; a full one stays as it is and the Run goes on to close it.
   */
  lemma ReturnPoolsIffRoom(es: seq<Event>, r: RunId)
    requires IsRun(EMPTY, es) && RunEnabled(After(EMPTY, es), r, TryReturn)
    ensures var s := After(EMPTY, es);
            var (s', run) := (RunNext(s, r, TryReturn), s.runs[r]);
            var (p, i) := (run.phase.pool, run.phase.inst);
            && s'.insts == s.insts && |s.chans[p].items| <= 10 && i !in s.chans[p].items
            && if s.chans[p].closed then s'.chans == s.chans && s'.runs[r].phase == Finished(Panicked(i))
               else if |s.chans[p].items| < 10 then
                 && s'.chans == s.chans[p := Pool(run.version, s.chans[p].items + [i], false)]
                 && s'.runs[r].phase == Finished(Output(run.version))
               else s'.chans == s.chans && s'.runs[r].phase == Dropping(i)
  {
    var place := RunKeepsInvariants(EMPTY, [], es);
    var s := After(EMPTY, es);
    var p := s.runs[r].phase.pool;
    PoolsHoldTheirVersion(es, p);
    InstancesHaveOneOwner(es, s.runs[r].phase.inst);
    assert HeldByRun(s, s.runs[r].phase.inst, r);
    assert !HeldByPool(s, s.runs[r].phase.inst, p);
    assert RunBound(s, s.runs[r]);
  }

  /** And one that is dropped is closed, for the first time. */
  lemma DropCloses(es: seq<Event>, r: RunId)
    requires IsRun(EMPTY, es) && RunEnabled(After(EMPTY, es), r, Drop)
    ensures var s := After(EMPTY, es);
            var (s', run) := (RunNext(s, r, Drop), s.runs[r]);
            && s.insts[run.phase.inst] == Instance(run.version, 0)
            && s'.insts == s.insts[run.phase.inst := Instance(run.version, 1)] && s'.chans == s.chans
            && s'.runs[r].phase == Finished(Output(run.version))
  {
    var place := RunKeepsInvariants(EMPTY, [], es);
    var s := After(EMPTY, es);
    InstancesHaveOneOwner(es, s.runs[r].phase.inst);
    assert HeldByRun(s, s.runs[r].phase.inst, r);
    assert RunBound(s, s.runs[r]);
  }

  /** While a Register holds the mutex, no Run captures or instantiates, and no other Register begins. */
  lemma MutexExcludes(s: State, r: RunId, name: Name)
    requires !s.lock.Free?
    ensures !Enabled(s, Of(r, Capture(name))) && !Enabled(s, Of(r, Instantiate))
    ensures !Enabled(s, Of(r, InstantiateExits(true))) && !Enabled(s, Of(r, InstantiateExits(false)))
    ensures !Enabled(s, Reg(Compile(name))) && !Enabled(s, Reg(CompileFails))
  {
  }

  // ----- replaced modules are closed -----

  /** A module in use: its name's cache entry, or compiled and about to become it. */
  ghost predicate InUse(s: State, v: Version)
    requires v < |s.modules|
  {
    || (s.modules[v].name in s.cache && s.cache[s.modules[v].name] == v)
    || (s.lock.Compiled? && s.lock.version == v)
  }

  ghost predicate ClosingIffUnused(s: State) {
    forall v: nat :: v < |s.modules| ==> (s.modules[v].closing <==> !InUse(s, v))
  }

  lemma RegisterSchedulesClosing(s: State, e: RegisterEvent, v: Version)
    requires Bound(s) && ClosingIffUnused(s) && RegEnabled(s, e) && v < |RegNext(s, e).modules|
    ensures RegNext(s, e).modules[v].closing <==> !InUse(RegNext(s, e), v)
  {
    if e.SwapModule? {
      SwapSchedulesClosing(s, v);
    } else {
      if v < |s.modules| { assert s.modules[v].closing <==> !InUse(s, v); }
      if e.Compile? && e.name in s.cache { assert NameBound(s, e.name); }
    }
  }

  lemma SwapSchedulesClosing(s: State, v: Version)
    requires Bound(s) && ClosingIffUnused(s) && RegEnabled(s, SwapModule) && v < |s.modules|
    ensures RegNext(s, SwapModule).modules[v].closing <==> !InUse(RegNext(s, SwapModule), v)
  {
    assert s.modules[v].closing <==> !InUse(s, v);
    if s.lock.name in s.cache { assert NameBound(s, s.lock.name); }
  }

  lemma {:induction false} RunSchedulesClosing(s: State, es: seq<Event>)
    requires Bound(s) && ClosingIffUnused(s) && IsRun(s, es)
    ensures Bound(After(s, es)) && ClosingIffUnused(After(s, es))
    decreases |es|
  {
    if es != [] {
      var s1 := Next(s, es[0]);
      StepKeepsBinding(s, es[0]);
      forall v: nat | v < |s1.modules| ensures s1.modules[v].closing <==> !InUse(s1, v) {
        match es[0] {
          case Reg(e) => RegisterSchedulesClosing(s, e, v);
          case Of(r, e) => assert s.modules[v].closing <==> !InUse(s, v);
        }
      }
      RunSchedulesClosing(s1, es[1..]);
    }
  }

  /** Over every run, exactly the replaced modules are closed or wait for their delayed close, which closes them. */
  lemma ReplacedModulesAreClosed(es: seq<Event>, v: Version)
    requires IsRun(EMPTY, es) && v < |After(EMPTY, es).modules|
    ensures var s := After(EMPTY, es);
            && (!InUse(s, v) <==> s.modules[v].closed || Enabled(s, Reg(CloseModule(v))))
            && (Enabled(s, Reg(CloseModule(v))) ==>
                 Next(s, Reg(CloseModule(v))) == s.(modules := s.modules[v := s.modules[v].(closed := true)]))
  {
    RunSchedulesClosing(EMPTY, es);
    var s := After(EMPTY, es);
    assert s.modules[v].closing <==> !InUse(s, v);
  }
}
