/**
 The manager object of pkg/wasm/runner.go: Register and Run as calls that nothing interrupts, each shown
 to be a run of the machine in WasmPool, and the run in which a hot swap makes a return panic.
 */
module WasmManager {
  import opened Options
  import opened WasmPool

  // ----- states reached by runs -----

  lemma {:induction false} RunsCompose(s: State, es: seq<Event>, fs: seq<Event>)
    requires IsRun(s, es) && IsRun(After(s, es), fs)
    ensures IsRun(s, es + fs) && After(s, es + fs) == After(After(s, es), fs)
    decreases |es|
  {
    if es == [] {
      assert es + fs == fs;
    } else {
      assert (es + fs)[1..] == es[1..] + fs;
      RunsCompose(Next(s, es[0]), es[1..], fs);
    }
  }

  ghost predicate Reaches(s: State, s': State) {
    exists es :: IsRun(s, es) && After(s, es) == s'
  }

  lemma ReachesSelf(s: State)
    ensures Reaches(s, s)
  {
    assert IsRun(s, []) && After(s, []) == s;
  }

  lemma ReachesNext(s: State, s1: State, e: Event)
    requires Reaches(s, s1) && Enabled(s1, e)
    ensures Reaches(s, Next(s1, e))
  {
    var es :| IsRun(s, es) && After(s, es) == s1;
    assert [e][1..] == [];
    RunsCompose(s, es, [e]);
  }

  lemma ReachesAfter(s: State, s1: State, e1: Event, e2: Event, e3: Event)
    requires Reaches(s, s1)
    requires Enabled(s1, e1) && Enabled(Next(s1, e1), e2) && Enabled(Next(Next(s1, e1), e2), e3)
    ensures Reaches(s, Next(Next(Next(s1, e1), e2), e3))
  {
    ReachesNext(s, s1, e1);
    ReachesNext(s, Next(s1, e1), e2);
    ReachesNext(s, Next(Next(s1, e1), e2), e3);
  }

  lemma ReachesTrans(s: State, s1: State, s2: State)
    requires Reaches(s, s1) && Reaches(s1, s2)
    ensures Reaches(s, s2)
  {
    var es :| IsRun(s, es) && After(s, es) == s1;
    var fs :| IsRun(s1, fs) && After(s1, fs) == s2;
    RunsCompose(s, es, fs);
  }

  /** A registered module with no instances yet. */
  function Registered(name: Name): State {
    State([Module(name, false, false)], map[name := 0], map[name := 0], [Pool(0, [], false)], [], Free, map[])
  }

  lemma RegisteredIsReached(name: Name)
    ensures Reaches(EMPTY, Registered(name))
  {
    ReachesSelf(EMPTY);
    ReachesAfter(EMPTY, EMPTY, Reg(Compile(name)), Reg(SwapModule), Reg(SwapPool));
  }

  /** The same with one Run calling its new instance. */
  function Called(name: Name): State {
    Registered(name).(insts := [Instance(0, 0)], runs := map[0 := Execution(name, 0, Running(0, 0))])
  }

  lemma CalledIsReached(name: Name)
    ensures Reaches(EMPTY, Called(name))
  {
    RegisteredIsReached(name);
    ReachesAfter(EMPTY, Registered(name), Of(0, Capture(name)), Of(0, TryTake), Of(0, Instantiate));
  }

  /** The abort does happen: a second Register overtakes a Run that is about to return its instance. */
  lemma HotSwapCanAbortARun(name: Name) returns (s: State)
    ensures Reaches(EMPTY, s) && 0 in s.runs && s.runs[0].phase == Finished(Panicked(0))
  {
    CalledIsReached(name);
    s := Called(name).(modules := [Module(name, true, false), Module(name, false, false)], cache := map[name := 1],
                       chans := [Pool(0, [], true)], lock := Draining(name, 0),
                       runs := map[0 := Execution(name, 0, Returning(0, 0))]);
    assert Reaches(EMPTY, s) by {
      ReachesAfter(EMPTY, Called(name), Of(0, Call(true)), Reg(Compile(name)), Reg(SwapModule));
    }
    ReachesNext(EMPTY, s, Of(0, TryReturn));
    s := Next(s, Of(0, TryReturn));
  }

  /** One more event, with what it keeps. */
  lemma Advance(s: State, s1: State, e: Event)
    requires Reaches(s, s1) && Bound(s1) && Enabled(s1, e)
    ensures Reaches(s, Next(s1, e)) && Bound(Next(s1, e))
  {
    ReachesNext(s, s1, e);
    StepKeepsBinding(s1, e);
  }

  // ----- the manager object: uninterrupted calls against the machine -----

  /** The engine's answer to an instantiation. */
  datatype Creation = Creates | ExitsZero | Errors

  /** A Run without an instance: the module's start function may have done the work and exited. */
  function NotCreated(creation: Creation, compiled: Version): Outcome {
    if creation.ExitsZero? then Output(compiled) else Failed
  }

  /** How the send to a pool went. */
  datatype Sent = Pooled | NoRoom | Panics

  class MiddlewareManager {
    var modules: seq<Module>
    var cache: map<Name, Version>
    var pools: map<Name, PoolId>
    var chans: seq<Pool>
    var insts: seq<Instance>
    ghost var lock: Lock
    ghost var runs: map<RunId, Execution>

    ghost function View(): State reads this {
      State(modules, cache, pools, chans, insts, lock, runs)
    }

    constructor ()
      ensures View() == EMPTY
    {
      modules, cache, pools, chans, insts, lock, runs := [], map[], map[], [], [], Free, map[];
    }

    /** One turn of the range over the closed old pool: an instance is received and closed. */
    method DrainNext(name: Name, p: PoolId)
      requires Bound(View()) && lock == Draining(name, p) && chans[p].items != []
      modifies this`chans, this`insts, this`lock
      ensures Reaches(old(View()), View()) && Bound(View()) && lock == Draining(name, p)
      ensures chans == WithItems(old(chans), p, old(chans)[p].items[1..])
    {
      ReachesSelf(View());
      Advance(View(), View(), Reg(DrainOne));
      var mod := chans[p].items[0];
      chans := WithItems(chans, p, chans[p].items[1..]);
      lock := Discarding(name, p, mod);

      Advance(old(View()), View(), Reg(Discard));
      insts := CloseInst(insts, mod);
      lock := Draining(name, p);
    }

    /** The whole range: the pool is emptied, and everything in it closed. */
    method DrainPool(name: Name, p: PoolId)
      requires Bound(View()) && lock == Draining(name, p)
      modifies this`chans, this`insts, this`lock
      ensures Reaches(old(View()), View()) && Bound(View()) && lock == Draining(name, p)
      ensures p < |old(chans)| && chans == WithItems(old(chans), p, [])
    {
      ReachesSelf(View());
      assert chans == WithItems(chans, p, chans[p].items);
      while chans[p].items != []
        invariant Reaches(old(View()), View()) && Bound(View()) && lock == Draining(name, p)
        invariant p < |old(chans)| && |chans| == |old(chans)| && chans == WithItems(old(chans), p, chans[p].items)
        decreases |chans[p].items|
      {
        label turn:
        DrainNext(name, p);
        ReachesTrans(old(View()), old@turn(View()), View());
      }
    }

    /** The mutex is taken and the module compiled; it becomes the newest version. */
    method CompileModule(name: Name) returns (compiled: Version)
      requires Bound(View()) && lock.Free?
      modifies this`modules, this`lock
      ensures Reaches(old(View()), View()) && Bound(View())
      ensures compiled == |old(modules)| && lock == Compiled(name, compiled)
    {
      ReachesSelf(View());
      Advance(View(), View(), Reg(Compile(name)));
      compiled := |modules|;
      modules := modules + [Module(name, false, false)];
      lock := Compiled(name, compiled);
    }

    /** The cache entry is replaced, its predecessor scheduled for closing, the old pool closed. */
    method SwapCompiled(name: Name, compiled: Version)
      requires Bound(View()) && lock == Compiled(name, compiled)
      modifies this`modules, this`cache, this`chans, this`lock
      ensures RegEnabled(old(View()), SwapModule) && View() == Next(old(View()), Reg(SwapModule)) && Bound(View())
      ensures cache == old(cache)[name := compiled] && |chans| == |old(chans)|
      ensures if name in pools then pools[name] < |chans| && lock == Draining(name, pools[name]) else lock == Drained(name)
    {
      assert name in cache ==> NameBound(View(), name);
      StepKeepsBinding(View(), Reg(SwapModule));
      if name in cache {
        modules := modules[cache[name] := modules[cache[name]].(closing := true)];
      }
      cache := cache[name := compiled];
      if name in pools {
        chans := chans[pools[name] := chans[pools[name]].(closed := true)];
        lock := Draining(name, pools[name]);
      } else {
        lock := Drained(name);
      }
    }

    /** The mutex held, up to the point where new Runs capture the new version. */
    method CompileAndSwap(name: Name)
      requires Bound(View()) && lock.Free?
      modifies this`modules, this`cache, this`chans, this`lock
      ensures Reaches(old(View()), View()) && Bound(View())
      ensures cache == old(cache)[name := |old(modules)|] && |chans| == |old(chans)|
      ensures if name in pools then pools[name] < |chans| && lock == Draining(name, pools[name]) else lock == Drained(name)
    {
      var compiled := CompileModule(name);
      ghost var s := View();
      SwapCompiled(name, compiled);
      ReachesNext(old(View()), s, Reg(SwapModule));
    }

    /** From the compiled module to the point where the old pool, if any, has been drained. */
    method Replace(name: Name)
      requires Bound(View()) && lock.Free?
      modifies this`modules, this`cache, this`chans, this`insts, this`lock
      ensures Reaches(old(View()), View()) && Bound(View())
      ensures cache == old(cache)[name := |old(modules)|] && |chans| == |old(chans)|
      ensures if name in pools
              then pools[name] < |chans| && chans[pools[name]].items == [] && lock == Draining(name, pools[name])
              else lock == Drained(name)
    {
      CompileAndSwap(name);
      label swapped:
      if name in pools {
        DrainPool(name, pools[name]);
        ReachesTrans(old(View()), old@swapped(View()), View());
      }
    }

    /** The new pool, made for the version now in the cache; the mutex is released. */
    method InstallPool(name: Name)
      requires Bound(View()) && RegEnabled(View(), SwapPool) && lock.name == name
      modifies this`chans, this`pools, this`lock
      ensures Reaches(old(View()), View()) && Bound(View())
      ensures chans == old(chans) + [Pool(cache[name], [], false)]
      ensures pools == old(pools)[name := |old(chans)|] && lock.Free?
    {
      ghost var s := View();
      ReachesSelf(s);
      Advance(s, s, Reg(SwapPool));
      chans := chans + [Pool(cache[name], [], false)];
      pools := pools[name := |chans| - 1];
      lock := Free;
      assert View() == Next(s, Reg(SwapPool));
    }

    /** Register; `compiles` is the engine's answer. */
    method Register(name: Name, compiles: bool) returns (ok: bool)
      requires Bound(View()) && lock.Free?
      modifies this
      ensures Reaches(old(View()), View()) && Bound(View()) && lock.Free?
      ensures ok == compiles && (!ok ==> View() == old(View()))
      ensures ok ==>
                && cache == old(cache)[name := |old(modules)|]
                && pools == old(pools)[name := |old(chans)|]
                && |chans| == |old(chans)| + 1 && chans[|old(chans)|] == Pool(|old(modules)|, [], false)
                && (name in old(pools) ==> old(pools)[name] < |chans| && chans[old(pools)[name]].items == [])
    {
      if !compiles {
        ReachesSelf(View());
        return false;
      }
      Replace(name);
      label replaced:
      InstallPool(name);
      ReachesTrans(old(View()), old@replaced(View()), View());
      ok := true;
    }

    /** The first lock section of Run. */
    method CaptureLocked(ghost r: RunId, name: Name) returns (captured: Option<(Version, PoolId)>)
      requires Bound(View()) && lock.Free? && r !in runs
      modifies this`runs
      ensures Reaches(old(View()), View()) && Bound(View()) && r in runs
      ensures name !in cache ==> captured.None? && runs[r].phase == Finished(NotRegistered)
      ensures name in cache ==>
                && captured.Some? && captured.value.0 == cache[name]
                && name in pools && captured.value.1 == pools[name]
                && runs[r] == Execution(name, captured.value.0, Selecting(captured.value.1))
                && captured.value.0 < |modules| && !modules[captured.value.0].closed
                && captured.value.1 < |chans| && !chans[captured.value.1].closed
    {
      assert name in cache ==> NameBound(View(), name);
      ReachesSelf(View());
      Advance(View(), View(), Of(r, Capture(name)));
      if name in cache {
        runs := runs[r := Execution(name, cache[name], Selecting(pools[name]))];
        captured := Some((cache[name], pools[name]));
      } else {
        runs := runs[r := Execution(name, 0, Finished(NotRegistered))];
        captured := None;
      }
    }

    /** The receive with its default branch. */
    method TakePooled(ghost r: RunId, pool: PoolId) returns (mod: Inst, reused: bool)
      requires Bound(View()) && r in runs && runs[r].phase == Selecting(pool)
      modifies this`chans, this`runs
      ensures RunEnabled(old(View()), r, TryTake) && View() == RunNext(old(View()), r, TryTake)
      ensures Bound(View()) && runs[r].phase == if reused then Running(pool, mod) else Creating(pool)
    {
      assert RunBound(View(), runs[r]);
      RunEventKeepsBinding(View(), r, TryTake);
      reused := chans[pool].items != [];
      if reused {
        mod := chans[pool].items[0];
        chans := WithItems(chans, pool, chans[pool].items[1..]);
        runs := runs[r := runs[r].(phase := Running(pool, mod))];
      } else {
        mod := 0;
        runs := runs[r := runs[r].(phase := Creating(pool))];
      }
    }

    /** The send with its default branch; on a pool closed since the capture it panics. */
    method GiveBack(ghost r: RunId, pool: PoolId, mod: Inst) returns (sent: Sent)
      requires Bound(View()) && r in runs && runs[r].phase == Returning(pool, mod)
      modifies this`chans, this`runs
      ensures RunEnabled(old(View()), r, TryReturn) && View() == RunNext(old(View()), r, TryReturn) && Bound(View())
      ensures sent.Panics? <==> old(chans[pool].closed)
      ensures sent.Pooled? <==> !old(chans[pool].closed) && |old(chans[pool].items)| < 10
      ensures chans == if sent.Pooled? then WithItems(old(chans), pool, old(chans[pool].items) + [mod]) else old(chans)
      ensures runs[r].phase == match sent
                               case Panics => Finished(Panicked(mod))
                               case Pooled => Finished(Output(old(runs[r].version)))
                               case NoRoom => Dropping(mod)
    {
      assert RunBound(View(), runs[r]);
      RunEventKeepsBinding(View(), r, TryReturn);
      if chans[pool].closed {
        sent := Panics;
        runs := runs[r := runs[r].(phase := Finished(Panicked(mod)))];
      } else if |chans[pool].items| < CAPACITY {
        sent := Pooled;
        chans := WithItems(chans, pool, chans[pool].items + [mod]);
        runs := runs[r := runs[r].(phase := Finished(Output(insts[mod].version)))];
      } else {
        sent := NoRoom;
        runs := runs[r := runs[r].(phase := Dropping(mod))];
      }
    }

    /** The engine's failure to make an instance, or an exit before it is needed. */
    method NoInstance(ghost r: RunId, compiled: Version, pool: PoolId, creation: Creation)
      requires Bound(View()) && lock.Free? && r in runs && runs[r] == Execution(runs[r].name, compiled, Creating(pool))
      modifies this`runs
      ensures Reaches(old(View()), View()) && Bound(View())
      ensures runs == old(runs)[r := Execution(old(runs[r].name), compiled, Finished(NotCreated(creation, compiled)))]
    {
      ReachesSelf(View());
      Advance(View(), View(), Of(r, InstantiateExits(creation.ExitsZero?)));
      runs := runs[r := runs[r].(phase := Finished(NotCreated(creation, compiled)))];
    }

    /** The creation of an instance; the engine makes none of a module closed since the capture. */
    method Create(ghost r: RunId, compiled: Version, pool: PoolId, creation: Creation) returns (mod: Option<Inst>)
      requires Bound(View()) && lock.Free? && r in runs && runs[r] == Execution(runs[r].name, compiled, Creating(pool))
      modifies this`insts, this`runs
      ensures Reaches(old(View()), View()) && Bound(View())
      ensures compiled < |old(modules)| && (mod.Some? <==> creation.Creates? && !old(modules[compiled].closed))
      ensures runs == old(runs)[r := Execution(old(runs[r].name), compiled,
                if mod.Some? then Running(pool, mod.value) else Finished(NotCreated(creation, compiled)))]
    {
      assert RunBound(View(), runs[r]);
      if !creation.Creates? || modules[compiled].closed {
        NoInstance(r, compiled, pool, creation);
        return None;
      }
      ReachesSelf(View());
      Advance(View(), View(), Of(r, Instantiate));
      insts := insts + [Instance(compiled, 0)];
      runs := runs[r := runs[r].(phase := Running(pool, |insts| - 1))];
      mod := Some(|insts| - 1);
    }

    /** From the captured pool to a running instance: a pooled one, or a new one if the engine makes it. */
    method Obtain(ghost r: RunId, compiled: Version, pool: PoolId, creation: Creation) returns (mod: Option<Inst>)
      requires Bound(View()) && lock.Free? && r in runs && runs[r] == Execution(runs[r].name, compiled, Selecting(pool))
      modifies this`chans, this`insts, this`runs
      ensures Reaches(old(View()), View()) && Bound(View())
      ensures mod.Some? <==> old(chans[pool].items) != [] || (creation.Creates? && !old(modules[compiled].closed))
      ensures runs == old(runs)[r := Execution(old(runs[r].name), compiled,
                if mod.Some? then Running(pool, mod.value) else Finished(NotCreated(creation, compiled)))]
      ensures pool < |chans| == |old(chans)| && chans[pool].closed == old(chans[pool].closed)
    {
      ReachesSelf(View());
      assert RunBound(View(), runs[r]);
      ReachesNext(View(), View(), Of(r, TryTake));
      var inst, reused := TakePooled(r, pool);
      if reused {
        return Some(inst);
      }
      label missed:
      mod := Create(r, compiled, pool, creation);
      ReachesTrans(old(View()), old@missed(View()), View());
    }

    /** The close of an instance that is not pooled. */
    method CloseUnpooled(ghost r: RunId, mod: Inst)
      requires Bound(View()) && r in runs && runs[r].phase == Dropping(mod)
      modifies this`insts, this`runs
      ensures RunEnabled(old(View()), r, Drop) && View() == RunNext(old(View()), r, Drop) && Bound(View())
      ensures runs[r].phase == Finished(Output(old(runs[r].version)))
    {
      assert RunBound(View(), runs[r]);
      RunEventKeepsBinding(View(), r, Drop);
      runs := runs[r := runs[r].(phase := Finished(Output(insts[mod].version)))];
      insts := CloseInst(insts, mod);
    }

    /** The call, and what becomes of the instance after it. */
    method Conclude(ghost r: RunId, pool: PoolId, mod: Inst, direct: bool) returns (outcome: Outcome)
      requires Bound(View()) && r in runs && runs[r].phase == Running(pool, mod)
      modifies this`chans, this`insts, this`runs
      ensures Reaches(old(View()), View()) && Bound(View())
      ensures r in runs && runs[r].phase == Finished(outcome)
      ensures outcome == if direct && old(chans[pool].closed) then Panicked(mod) else Output(old(runs[r].version))
      ensures pool < |old(chans)|
      ensures direct && !old(chans[pool].closed) && |old(chans[pool].items)| < 10 ==>
                chans == WithItems(old(chans), pool, old(chans[pool].items) + [mod]) && insts == old(insts)
      ensures !(direct && !old(chans[pool].closed) && |old(chans[pool].items)| < 10) ==> chans == old(chans)
    {
      ReachesSelf(View());
      assert RunBound(View(), runs[r]);
      outcome := Output(insts[mod].version);
      Advance(View(), View(), Of(r, Call(direct)));
      runs := runs[r := runs[r].(phase := if direct then Returning(pool, mod) else Dropping(mod))];
      if direct {
        ReachesNext(old(View()), View(), Of(r, TryReturn));
        var sent := GiveBack(r, pool, mod);
        if !sent.NoRoom? {
          return if sent.Panics? then Panicked(mod) else outcome;
        }
      }
      ReachesNext(old(View()), View(), Of(r, Drop));
      CloseUnpooled(r, mod);
    }

    /** Run after its capture, whatever has become of the captured module and pool since. */
    method Execute(ghost r: RunId, compiled: Version, pool: PoolId, creation: Creation, direct: bool)
      returns (outcome: Outcome)
      requires Bound(View()) && lock.Free? && r in runs && runs[r] == Execution(runs[r].name, compiled, Selecting(pool))
      modifies this`chans, this`insts, this`runs
      ensures Reaches(old(View()), View()) && Bound(View())
      ensures r in runs && runs[r].phase == Finished(outcome)
      ensures old(chans[pool].items) == [] && !(creation.Creates? && !old(modules[compiled].closed)) ==>
                outcome == NotCreated(creation, compiled)
      ensures old(chans[pool].items) != [] || (creation.Creates? && !old(modules[compiled].closed)) ==>
                if direct && old(chans[pool].closed) then outcome.Panicked? else outcome == Output(compiled)
    {
      assert RunBound(View(), runs[r]);
      var mod := Obtain(r, compiled, pool, creation);
      if mod.None? {
        return NotCreated(creation, compiled);
      }
      label obtained:
      outcome := Conclude(r, pool, mod.value, direct);
      ReachesTrans(old(View()), old@obtained(View()), View());
    }

    /**
     Run without interruption: it executes the current version or fails with the engine, and it
     never panics. `creation` and `direct` are the engine's answers.
     */
    method Run(ghost r: RunId, name: Name, creation: Creation, direct: bool) returns (outcome: Outcome)
      requires Bound(View()) && lock.Free? && r !in runs
      modifies this`chans, this`insts, this`runs
      ensures Reaches(old(View()), View()) && Bound(View())
      ensures r in runs && runs[r].phase == Finished(outcome)
      ensures if name !in cache then outcome == NotRegistered
              else && name in pools && pools[name] < |old(chans)|
                   && outcome == if creation.Errors? && old(chans)[pools[name]].items == [] then Failed else Output(cache[name])
    {
      var captured := CaptureLocked(r, name);
      if captured.None? {
        return NotRegistered;
      }
      label captured:
      outcome := Execute(r, captured.value.0, captured.value.1, creation, direct);
      ReachesTrans(old(View()), old@captured(View()), View());
    }
  }
}
