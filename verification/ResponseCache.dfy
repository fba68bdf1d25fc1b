/**
 The TTL response cache (pkg/proxy/cache.go) against the log of what was done to it: first used by
 one caller at a time, then with Get split at its unlock and Set split before its lock.
 */
module ResponseCache {
  import opened Options
  import opened Text

  type Time = int
  type Duration = int

  datatype Entry<+V> = Entry(value: V, expiresAt: Time)

  function Find<V>(m: map<string, Entry<V>>, key: string): Option<Entry<V>> {
    if key in m then Some(m[key]) else None
  }

  /** What a lookup of key at `now` returns from the table m. */
  function Visible<V>(m: map<string, Entry<V>>, key: string, now: Time): Option<V> {
    if key in m && now <= m[key].expiresAt then Some(m[key].value) else None
  }

  function AfterGet<V>(m: map<string, Entry<V>>, key: string, now: Time): map<string, Entry<V>> {
    if key in m && now > m[key].expiresAt then m - {key} else m
  }

  function Without<V>(m: map<string, Entry<V>>, prefix: string): map<string, Entry<V>> {
    map k | k in m && !HasPrefix(k, prefix) :: m[k]
  }

  function Unexpired<V>(m: map<string, Entry<V>>, now: Time): map<string, Entry<V>> {
    map k | k in m && now <= m[k].expiresAt :: m[k]
  }

  /** Exactly the entries whose key starts with the prefix are gone. */
  lemma WithoutExactly<V>(m: map<string, Entry<V>>, prefix: string, k: string)
    ensures HasPrefix(k, prefix) <==> prefix <= k
    ensures k in Without(m, prefix) <==> k in m && !(prefix <= k)
    ensures k in Without(m, prefix) ==> Without(m, prefix)[k] == m[k]
  {
    assert prefix <= k <==> |prefix| <= |k| && k[..|prefix|] == prefix;
  }

  class ResponseCache<V> {
    var entries: map<string, Entry<V>>
    const ttl: Duration

    constructor (ttl: Duration)
      ensures this.ttl == ttl && entries == map[]
    {
      this.ttl := ttl;
      entries := map[];
    }

    method Get(key: string, now: Time) returns (hit: Option<V>)
      modifies this
      ensures hit == Visible(old(entries), key, now) && entries == AfterGet(old(entries), key, now)
      ensures hit == if key in old(entries) && now <= old(entries)[key].expiresAt then Some(old(entries)[key].value) else None
      ensures hit.None? ==> entries == old(entries) - {key}
      ensures hit.Some? ==> entries == old(entries)
    {
      if key !in entries {
        return None;
      }
      var entry := entries[key];
      if now > entry.expiresAt {
        entries := entries - {key};
        return None;
      }
      hit := Some(entry.value);
    }

    method Set(key: string, value: V, now: Time)
      modifies this
      ensures entries == old(entries)[key := Entry(value, now + ttl)]
    {
      var entry := Entry(value, now + ttl);
      entries := entries[key := entry];
    }

    /** The count is the number of entries removed. */
    method Invalidate(prefix: string) returns (count: nat)
      modifies this
      ensures entries == Without(old(entries), prefix)
      ensures count == |set k | k in old(entries) && HasPrefix(k, prefix)|
    {
      count := 0;
      if prefix == "" {
        count := |entries|;
        assert |entries| == |entries.Keys| && entries.Keys == set k | k in entries && HasPrefix(k, prefix);
        entries := map[];
        return;
      }
      var keys := entries.Keys;
      ghost var gone: set<string> := {};
      while keys != {}
        invariant keys <= old(entries).Keys && gone !! keys
        invariant gone == set k | k in old(entries) && k !in keys && HasPrefix(k, prefix)
        invariant entries == old(entries) - gone && count == |gone|
        decreases keys
      {
        var key :| key in keys;
        keys := keys - {key};
        if HasPrefix(key, prefix) {
          entries := entries - {key};
          count := count + 1;
          gone := gone + {key};
        }
      }
      assert gone == set k | k in old(entries) && HasPrefix(k, prefix);
    }

    /** One tick of the background eviction. */
    method EvictExpired(now: Time)
      modifies this
      ensures entries == Unexpired(old(entries), now)
      ensures forall k :: k in entries <==> k in old(entries) && now <= old(entries)[k].expiresAt
      ensures forall k :: k in entries ==> entries[k] == old(entries)[k]
    {
      var keys := entries.Keys;
      while keys != {}
        invariant keys <= old(entries).Keys
        invariant forall k :: k in entries <==> k in old(entries) && (k in keys || now <= old(entries)[k].expiresAt)
        invariant forall k :: k in entries ==> entries[k] == old(entries)[k]
        decreases keys
      {
        var key :| key in keys;
        keys := keys - {key};
        if now > entries[key].expiresAt {
          entries := entries - {key};
        }
      }
    }
  }

  // ----- one caller at a time -----

  datatype Op<V> =
    | Got(key: string, now: Time)
    | Stored(key: string, value: V, now: Time)
    | Cleared(prefix: string, now: Time)
    | Evicted(now: Time)

  datatype Run<V> = Start | Then(before: Run<V>, op: Op<V>)

  function After<V>(ttl: Duration, run: Run<V>): map<string, Entry<V>> {
    match run
    case Start => map[]
    case Then(before, Got(k, now)) => AfterGet(After(ttl, before), k, now)
    case Then(before, Stored(k, v, now)) => After(ttl, before)[k := Entry(v, now + ttl)]
    case Then(before, Cleared(p, _)) => Without(After(ttl, before), p)
    case Then(before, Evicted(now)) => Unexpired(After(ttl, before), now)
  }

  /** The specification: only the last Set or covering Invalidate of the key matters. */
  function Answer<V>(ttl: Duration, run: Run<V>, key: string, now: Time): Option<V> {
    match run
    case Start => None
    case Then(before, Stored(k, v, s)) =>
      if k == key then (if now <= s + ttl then Some(v) else None) else Answer(ttl, before, key, now)
    case Then(before, Cleared(p, _)) => if HasPrefix(key, p) then None else Answer(ttl, before, key, now)
    case Then(before, _) => Answer(ttl, before, key, now)
  }

  ghost predicate NoneAfter<V(!new)>(run: Run<V>, now: Time) { run.Then? ==> run.op.now <= now }

  ghost predicate InOrder<V(!new)>(run: Run<V>) {
    run.Then? ==> InOrder(run.before) && NoneAfter(run.before, run.op.now)
  }

  /** The cache answers like the log: lazy deletion and eviction cannot be observed. */
  lemma {:induction false} CacheRefinesLog<V(!new)>(ttl: Duration, run: Run<V>, key: string, now: Time)
    requires InOrder(run) && NoneAfter(run, now)
    ensures Visible(After(ttl, run), key, now) == Answer(ttl, run, key, now)
  {
    if run.Then? { CacheRefinesLog(ttl, run.before, key, now); }
  }

  // ----- interleaved calls -----

  type Caller = nat

  datatype Proc<V> =
    | Loaded(key: string, found: Option<Entry<V>>)  // Get, after its read section
    | Doomed(key: string, dead: Entry<V>)          // Get, found its entry expired, delete pending
    | Stamped(key: string, entry: Entry<V>)         // Set, entry built, lock not yet taken
    | Returned(key: string, hit: Option<V>)

  datatype Step<V> =
    | Read(c: Caller, key: string)
    | Check(c: Caller)
    | Delete(c: Caller)
    | Stamp(c: Caller, key: string, value: V)
    | Commit(c: Caller)
    | Clear(prefix: string)
    | Evict

  datatype Shared<V> = Shared(entries: map<string, Entry<V>>, procs: map<Caller, Proc<V>>)

  /** The steps of all callers in the order they happened, each with its clock reading. */
  datatype Trace<V> = Begin | And(before: Trace<V>, step: Step<V>, now: Time)

  predicate Enabled<V>(s: Shared<V>, step: Step<V>) {
    match step
    case Read(c, _) => c !in s.procs
    case Check(c) => c in s.procs && s.procs[c].Loaded?
    case Delete(c) => c in s.procs && s.procs[c].Doomed?
    case Stamp(c, _, _) => c !in s.procs
    case Commit(c) => c in s.procs && s.procs[c].Stamped?
    case _ => true
  }

  function Next<V>(ttl: Duration, s: Shared<V>, step: Step<V>, now: Time): Shared<V>
    requires Enabled(s, step)
  {
    match step
    case Read(c, k) => s.(procs := s.procs[c := Loaded(k, Find(s.entries, k))])
    case Check(c) =>
      var Loaded(k, found) := s.procs[c];
      var p :=
        if found.None? then Returned(k, None)
        else if now > found.value.expiresAt then Doomed(k, found.value)
        else Returned(k, Some(found.value.value));
      s.(procs := s.procs[c := p])
    case Delete(c) =>
      Shared(s.entries - {s.procs[c].key}, s.procs[c := Returned(s.procs[c].key, None)])
    case Stamp(c, k, v) => s.(procs := s.procs[c := Stamped(k, Entry(v, now + ttl))])
    case Commit(c) =>
      Shared(s.entries[s.procs[c].key := s.procs[c].entry], s.procs[c := Returned(s.procs[c].key, None)])
    case Clear(prefix) => s.(entries := Without(s.entries, prefix))
    case Evict => s.(entries := Unexpired(s.entries, now))
  }

  /** Only enabled steps have an effect, so every trace is an interleaving. */
  function State<V>(ttl: Duration, t: Trace<V>): Shared<V> {
    match t
    case Begin => Shared(map[], map[])
    case And(before, step, now) =>
      var s := State(ttl, before);
      if Enabled(s, step) then Next(ttl, s, step, now) else s
  }

  /** The last step commits a Set of the key. */
  predicate Commits<V>(ttl: Duration, t: Trace<V>, key: string) {
    && t.And? && t.step.Commit? && Enabled(State(ttl, t.before), t.step)
    && State(ttl, t.before).procs[t.step.c].key == key
  }

  /** The last step is the read section of caller c's Get. */
  predicate Reads<V>(ttl: Duration, t: Trace<V>, c: Caller) {
    t.And? && t.step.Read? && t.step.c == c && Enabled(State(ttl, t.before), t.step)
  }

  /** The entry of the last committed Set of the key, unless a covering Invalidate came later. */
  function LastSet<V>(ttl: Duration, t: Trace<V>, key: string): Option<Entry<V>> {
    if t.Begin? then None
    else if Commits(ttl, t, key) then Some(State(ttl, t.before).procs[t.step.c].entry)
    else if t.step.Clear? && HasPrefix(key, t.step.prefix) then None
    else LastSet(ttl, t.before, key)
  }

  /** The trace as it was when the Get of caller c took its read lock. */
  function ReadPoint<V>(ttl: Duration, t: Trace<V>, c: Caller): Trace<V> {
    if t.Begin? then Begin
    else if Reads(ttl, t, c) then t.before
    else ReadPoint(ttl, t.before, c)
  }

  /** A stored entry is always the last one set. */
  lemma {:induction false} EntriesAreLastSets<V(!new)>(ttl: Duration, t: Trace<V>, key: string)
    ensures key in State(ttl, t).entries ==> LastSet(ttl, t, key) == Some(State(ttl, t).entries[key])
  {
    if t.And? { EntriesAreLastSets(ttl, t.before, key); }
  }

  /** The entry a Get carries between its sections. */
  function Carried<V>(p: Proc<V>): Option<Entry<V>>
    requires p.Loaded? || p.Doomed?
  {
    if p.Loaded? then p.found else Some(p.dead)
  }

  predicate Getting<V>(s: Shared<V>, c: Caller) { c in s.procs && (s.procs[c].Loaded? || s.procs[c].Doomed?) }

  /** What a Get carries is what the table held at its read. */
  lemma {:induction false} CarriedSinceRead<V(!new)>(ttl: Duration, t: Trace<V>, c: Caller)
    requires Getting(State(ttl, t), c)
    ensures var p := State(ttl, t).procs[c];
            Carried(p) == Find(State(ttl, ReadPoint(ttl, t, c)).entries, p.key)
  {
    if !Reads(ttl, t, c) { CarriedSinceRead(ttl, t.before, c); }
  }

  /** The key the Get of caller c was called with. */
  function KeyRead<V>(ttl: Duration, t: Trace<V>, c: Caller): Option<string> {
    if t.Begin? then None
    else if Reads(ttl, t, c) then Some(t.step.key)
    else KeyRead(ttl, t.before, c)
  }

  lemma {:induction false} KeyStays<V(!new)>(ttl: Duration, t: Trace<V>, c: Caller)
    requires Getting(State(ttl, t), c)
    ensures KeyRead(ttl, t, c) == Some(State(ttl, t).procs[c].key)
  {
    if !Reads(ttl, t, c) { KeyStays(ttl, t.before, c); }
  }

  /**
   The check of every Get, whatever came in between: it goes on to delete exactly if its key's entry in
   the table it read is expired by now; otherwise it returns that entry's value, or a miss if there is none.
   */
  lemma CheckAnswersAsOfRead<V(!new)>(ttl: Duration, t: Trace<V>, c: Caller, now: Time)
    requires Enabled(State(ttl, t), Check(c))
    ensures KeyRead(ttl, t, c).Some?
    ensures var (key, table) := (KeyRead(ttl, t, c).value, State(ttl, ReadPoint(ttl, t, c)).entries);
            var p := Next(ttl, State(ttl, t), Check(c), now).procs[c];
            if key in table && table[key].expiresAt < now then p == Doomed(key, table[key])
            else p == Returned(key, if key in table then Some(table[key].value) else None)
  {
    KeyStays(ttl, t, c);
    CarriedSinceRead(ttl, t, c);
  }

  /** After its delete a Get answers with a miss, and has taken only its key out of the table. */
  lemma DeleteAnswersMiss<V(!new)>(ttl: Duration, t: Trace<V>, c: Caller, now: Time)
    requires Enabled(State(ttl, t), Delete(c))
    ensures KeyRead(ttl, t, c).Some?
    ensures var (key, s') := (KeyRead(ttl, t, c).value, Next(ttl, State(ttl, t), Delete(c), now));
            s'.procs[c] == Returned(key, None) && s'.entries == State(ttl, t).entries - {key}
  {
    KeyStays(ttl, t, c);
  }

  /** The steps of one Get without interruption: the read, the check, and the delete if the check asks for it. */
  function GetAlone<V>(ttl: Duration, t: Trace<V>, c: Caller, key: string, now: Time): Trace<V> {
    var checked := And(And(t, Read(c, key), now), Check(c), now);
    if Enabled(State(ttl, checked), Delete(c)) then And(checked, Delete(c), now) else checked
  }

  /** Uninterrupted, they are the sequential Get. */
  lemma UninterruptedGet<V(!new)>(ttl: Duration, t: Trace<V>, c: Caller, key: string, now: Time)
    requires c !in State(ttl, t).procs
    ensures var (s, s') := (State(ttl, t), State(ttl, GetAlone(ttl, t, c, key, now)));
            && c in s'.procs && s'.procs[c] == Returned(key, Visible(s.entries, key, now))
            && s'.entries == AfterGet(s.entries, key, now)
  {
    var read := And(t, Read(c, key), now);
    assert State(ttl, read).procs[c] == Loaded(key, Find(State(ttl, t).entries, key));
    var checked := And(read, Check(c), now);
    assert State(ttl, checked).entries == State(ttl, t).entries;
  }

  /** And a Set, whose entry is built before its lock, is the sequential one. */
  lemma UninterruptedSet<V(!new)>(ttl: Duration, t: Trace<V>, c: Caller, key: string, value: V, now: Time)
    requires c !in State(ttl, t).procs
    ensures State(ttl, And(And(t, Stamp(c, key, value), now), Commit(c), now)).entries ==
              State(ttl, t).entries[key := Entry(value, now + ttl)]
  {
    assert State(ttl, And(t, Stamp(c, key, value), now)).procs[c] == Stamped(key, Entry(value, now + ttl));
  }

  /** Invalidate and the eviction take exactly their entries out of the table, and touch no Get or Set under way. */
  lemma ClearAndEvictExactly<V(!new)>(ttl: Duration, t: Trace<V>, prefix: string, now: Time, k: string)
    ensures var (s, cleared, evicted) := (State(ttl, t), State(ttl, And(t, Clear(prefix), now)), State(ttl, And(t, Evict, now)));
            && (k in cleared.entries <==> k in s.entries && !(prefix <= k))
            && (k in evicted.entries <==> k in s.entries && now <= s.entries[k].expiresAt)
            && (k in cleared.entries ==> cleared.entries[k] == s.entries[k])
            && (k in evicted.entries ==> evicted.entries[k] == s.entries[k])
            && cleared.procs == evicted.procs == s.procs
  {
    WithoutExactly(State(ttl, t).entries, prefix, k);
  }

  /** What a Set was called with, and when it built its entry. */
  function SetCall<V>(ttl: Duration, t: Trace<V>, c: Caller): Option<(string, V, Time)> {
    if t.Begin? then None
    else if t.step.Stamp? && t.step.c == c && Enabled(State(ttl, t.before), t.step) then Some((t.step.key, t.step.value, t.now))
    else SetCall(ttl, t.before, c)
  }

  /** Whatever came in between, a Set commits the value it was called with, to expire ttl after it built the entry. */
  lemma {:induction false} CommitsWhatWasSet<V(!new)>(ttl: Duration, t: Trace<V>, c: Caller)
    requires c in State(ttl, t).procs && State(ttl, t).procs[c].Stamped?
    ensures SetCall(ttl, t, c).Some?
    ensures var (key, value, at) := SetCall(ttl, t, c).value;
            && State(ttl, t).procs[c] == Stamped(key, Entry(value, at + ttl))
            && State(ttl, And(t, Commit(c), at)).entries == State(ttl, t).entries[key := Entry(value, at + ttl)]
  {
    if !(t.step.Stamp? && t.step.c == c && Enabled(State(ttl, t.before), t.step)) {
      CommitsWhatWasSet(ttl, t.before, c);
    }
  }

  /**
   Under any interleaving a hit is sound: it returns the value most recently set as of its read,
   and that value is unexpired at its check.
   */
  lemma HitsAreSound<V(!new)>(ttl: Duration, t: Trace<V>, c: Caller, now: Time)
    requires Enabled(State(ttl, t), Check(c))
    ensures var p := Next(ttl, State(ttl, t), Check(c), now).procs[c];
            p.Returned? && p.hit.Some? ==>
              var last := LastSet(ttl, ReadPoint(ttl, t, c), p.key);
              last.Some? && now <= last.value.expiresAt && p.hit.value == last.value.value
  {
    CarriedSinceRead(ttl, t, c);
    EntriesAreLastSets(ttl, ReadPoint(ttl, t, c), State(ttl, t).procs[c].key);
  }

  // ----- when an interleaved Get may lose an entry -----

  ghost predicate NotBefore<V(!new)>(t: Trace<V>, now: Time) { t.And? ==> t.now <= now }

  ghost predicate Ordered<V(!new)>(t: Trace<V>) { t.And? ==> Ordered(t.before) && NotBefore(t.before, t.now) }

  /** Some Set of the key was committed since caller c took its read lock. */
  ghost predicate SetSince<V(!new)>(ttl: Duration, t: Trace<V>, c: Caller, key: string) {
    t.And? && !Reads(ttl, t, c) && (Commits(ttl, t, key) || SetSince(ttl, t.before, c, key))
  }

  /** No Get deletes after a Set of its key has overtaken it. */
  ghost predicate RaceFree<V(!new)>(ttl: Duration, t: Trace<V>) {
    t.And? ==>
      && RaceFree(ttl, t.before)
      && (t.step.Delete? && Enabled(State(ttl, t.before), t.step) ==>
           !SetSince(ttl, t.before, t.step.c, State(ttl, t.before).procs[t.step.c].key))
  }

  /** A pending delete is for an expired entry. */
  lemma {:induction false} DoomedIsExpired<V(!new)>(ttl: Duration, t: Trace<V>, c: Caller, now: Time)
    requires Ordered(t) && NotBefore(t, now) && Getting(State(ttl, t), c) && State(ttl, t).procs[c].Doomed?
    ensures State(ttl, t).procs[c].dead.expiresAt < now
  {
    var s := State(ttl, t.before);
    if Getting(s, c) && s.procs[c].Doomed? { DoomedIsExpired(ttl, t.before, c, t.now); }
  }

  /** Without a Set since the read, the table holds what the Get carries, or nothing. */
  lemma {:induction false} CarriedIsStored<V(!new)>(ttl: Duration, t: Trace<V>, c: Caller)
    requires Getting(State(ttl, t), c) && !SetSince(ttl, t, c, State(ttl, t).procs[c].key)
    ensures var s := State(ttl, t);
            s.procs[c].key in s.entries ==> Carried(s.procs[c]) == Some(s.entries[s.procs[c].key])
  {
    if !Reads(ttl, t, c) { CarriedIsStored(ttl, t.before, c); }
  }

  // ----- exactly when the interleaved cache answers like the log -----

  /** What the log answers: the last committed Set of the key, if it is unexpired and not invalidated. */
  function LogAnswer<V>(ttl: Duration, t: Trace<V>, key: string, now: Time): Option<V> {
    var last := LastSet(ttl, t, key);
    if last.Some? && now <= last.value.expiresAt then Some(last.value.value) else None
  }

  /** The last step is the lazy delete of a Get of the key. */
  predicate Deletes<V>(ttl: Duration, t: Trace<V>, key: string) {
    && t.And? && t.step.Delete? && Enabled(State(ttl, t.before), t.step)
    && State(ttl, t.before).procs[t.step.c].key == key
  }

  /** A Get has deleted the key since the last Set of the key was committed. */
  predicate DeletedSinceSet<V>(ttl: Duration, t: Trace<V>, key: string) {
    t.And? && !Commits(ttl, t, key) && (Deletes(ttl, t, key) || DeletedSinceSet(ttl, t.before, key))
  }

  /** An entry the log still has, unexpired, is stored unless a Get deleted the key after its Set. */
  lemma {:induction false} StoredUnlessDeleted<V(!new)>(ttl: Duration, t: Trace<V>, key: string, now: Time)
    requires Ordered(t) && NotBefore(t, now) && LogAnswer(ttl, t, key, now).Some?
    ensures key in State(ttl, t).entries <==> !DeletedSinceSet(ttl, t, key)
  {
    if t.And? && !Commits(ttl, t, key) {
      StoredUnlessDeleted(ttl, t.before, key, now);
      EntriesAreLastSets(ttl, t.before, key);
    }
  }

  /**
   Completeness, exactly: the interleaved cache answers like the log unless the log has an answer
   and a Get has deleted the key since it was last set.
   */
  lemma AnswersLikeTheLogIff<V(!new)>(ttl: Duration, t: Trace<V>, key: string, now: Time)
    requires Ordered(t) && NotBefore(t, now)
    ensures Visible(State(ttl, t).entries, key, now) == LogAnswer(ttl, t, key, now) <==>
              !(LogAnswer(ttl, t, key, now).Some? && DeletedSinceSet(ttl, t, key))
    ensures LogAnswer(ttl, t, key, now).Some? && DeletedSinceSet(ttl, t, key) ==>
              Visible(State(ttl, t).entries, key, now).None?
  {
    EntriesAreLastSets(ttl, t, key);
    if LogAnswer(ttl, t, key, now).Some? { StoredUnlessDeleted(ttl, t, key, now); }
  }

  /**
   A delete takes away an answer exactly when the log has one and no earlier delete took it; then a
   Set has overtaken the Get, for what the Get had read is expired.
   */
  lemma DeleteLosesIffOvertaken<V(!new)>(ttl: Duration, t: Trace<V>, c: Caller, now: Time)
    requires Ordered(t) && NotBefore(t, now) && Enabled(State(ttl, t), Delete(c))
    ensures var (s, s') := (State(ttl, t), State(ttl, And(t, Delete(c), now)));
            var key := s.procs[c].key;
            var lost := LogAnswer(ttl, t, key, now).Some? && !DeletedSinceSet(ttl, t, key);
            && (Visible(s'.entries, key, now) != Visible(s.entries, key, now) <==> lost)
            && (lost ==> SetSince(ttl, t, c, key))
  {
    var key := State(ttl, t).procs[c].key;
    DoomedIsExpired(ttl, t, c, now);
    AnswersLikeTheLogIff(ttl, t, key, now);
    EntriesAreLastSets(ttl, t, key);
    if !SetSince(ttl, t, c, key) { CarriedIsStored(ttl, t, c); }
  }

  /** In particular, without such races the interleaved cache is complete. */
  lemma {:induction false} RaceFreeCacheIsComplete<V(!new)>(ttl: Duration, t: Trace<V>, key: string, now: Time)
    requires Ordered(t) && NotBefore(t, now) && RaceFree(ttl, t)
    ensures Visible(State(ttl, t).entries, key, now) == LogAnswer(ttl, t, key, now)
  {
    if t.And? {
      RaceFreeCacheIsComplete(ttl, t.before, key, now);
      if t.step.Delete? && Enabled(State(ttl, t.before), t.step) {
        DoomedIsExpired(ttl, t.before, t.step.c, now);
        CarriedIsStored(ttl, t.before, t.step.c);
      }
    }
  }

  /** A Get that has found its entry expired and not yet deleted it. */
  lemma PendingDelete<V(!new)>(v: V) returns (t: Trace<V>)
    ensures Ordered(t) && NotBefore(t, 11)
    ensures State(10, t) == Shared(map["k" := Entry(v, 10)], map[0 := Returned("k", None), 1 := Doomed("k", Entry(v, 10))])
  {
    var t1 := And(Begin, Stamp(0, "k", v), 0);
    assert State(10, t1) == Shared(map[], map[0 := Stamped("k", Entry(v, 10))]);
    var t2 := And(t1, Commit(0), 0);
    assert State(10, t2) == Shared(map["k" := Entry(v, 10)], map[0 := Returned("k", None)]);
    var t3 := And(t2, Read(1, "k"), 11);
    assert Ordered(t1) && Ordered(t2) && Ordered(t3);
    assert State(10, t3).procs[1] == Loaded("k", Some(Entry(v, 10)));
    t := And(t3, Check(1), 11);
  }

  /** With a race the delete drops a fresh entry: the last Set is unexpired and yet not found. */
  lemma RacingDeleteLosesFreshEntry<V(!new)>(v: V, w: V) returns (t: Trace<V>)
    ensures Ordered(t) && NotBefore(t, 11)
    ensures LastSet(10, t, "k") == Some(Entry(w, 21)) && Visible(State(10, t).entries, "k", 11) == None
  {
    var t4 := PendingDelete(v);
    var t5 := And(t4, Stamp(2, "k", w), 11);
    assert State(10, t5).procs[2] == Stamped("k", Entry(w, 21)) && State(10, t5).procs[1].Doomed?;
    var t6 := And(t5, Commit(2), 11);
    assert State(10, t6).entries == map["k" := Entry(w, 21)] && State(10, t6).procs[1] == Doomed("k", Entry(v, 10));
    assert LastSet(10, t6, "k") == Some(Entry(w, 21));
    assert Ordered(t5) && Ordered(t6);
    t := And(t6, Delete(1), 11);
  }
}
