/** DBMux's distributed cron: instances share one state store and take a ten-second lock per job
    through it. What the lock guarantees is derived from the store's deadlines and failures. */
module CronLock {
  import opened Prelude
  import opened StateStore

  const LOCK_TTL := 10

  const LIFE := LOCK_TTL * SECOND

  const PREFIX := "dbmux:cron:lock:"

  function LockKey(job: string): string { PREFIX + job }

  predicate IsLockKey(key: string) { |key| >= |PREFIX| && key[..|PREFIX|] == PREFIX }

  lemma LockKeysDiffer(a: string, b: string)
    ensures IsLockKey(LockKey(a)) && (LockKey(a) == LockKey(b) ==> a == b)
  {
    assert LockKey(a)[..|PREFIX|] == PREFIX;
    assert LockKey(a)[|PREFIX|..] == a && LockKey(b)[|PREFIX|..] == b;
  }

  lemma AllLockKeysDiffer(job: string)
    ensures forall j :: LockKey(j) == LockKey(job) ==> j == job
    ensures forall j :: IsLockKey(LockKey(j))
  {
    forall j ensures IsLockKey(LockKey(j)) && (LockKey(j) == LockKey(job) ==> j == job) {
      LockKeysDiffer(j, job);
    }
  }

  /** A hold counts from the moment the lock's cache entry is written. */
  datatype Hold = Hold(job: string, since: int)

  /** The instances between acquire and release, the shared store, and when each job's lock was last written. */
  datatype System = System(store: Store, holders: map<nat, Hold>, locked: map<string, int>)

  datatype Step =
    | Trigger(who: nat, job: string, payload: string, r: Reading, w: Writing)  // check, and acquire if free
    | Release(who: nat, at: int, f: Deleting)
    | Crash(who: nat, at: int)                                                 // stops without releasing
    | EvictCached(key: string, at: int)
    | Other(op: Op, at: int)                                                   // any other use of the store

  const START := System(EMPTY, map[], map[])

  function Begins(p: Step): int { if p.Trigger? then p.r.t1 else p.at }

  function Ends(p: Step): int { if p.Trigger? then p.w.t2 else p.at }

  /** The check in TriggerCron: an entry that is found and not empty means somebody holds the lock. */
  predicate Seen(s: Store, job: string, r: Reading) {
    var found := Lookup(s, LockKey(job), r);
    found.Some? && found.value != ""
  }

  predicate Held(s: Store, job: string, now: int) { Seen(s, job, Now(now)) }

  predicate Possible(y: System, p: Step) {
    match p
    case Trigger(who, _, payload, _, _) => who !in y.holders && payload != ""
    case Release(who, _, _) => who in y.holders
    case Crash(who, _) => who in y.holders
    case EvictCached(_, _) => true
    case Other(op, _) => !IsLockKey(op.key)
  }

  function Next(canon: string -> string, y: System, p: Step): System {
    match p
    case Trigger(who, job, payload, r, w) =>
      var seen := AfterGet(y.store, LockKey(job), r);
      if Seen(y.store, job, r) then y.(store := seen)
      else System(Save(canon, seen, LockKey(job), payload, LOCK_TTL, w),
                  if w.l2 == Done then y.holders[who := Hold(job, w.t1)] else y.holders,
                  if w.l1Ok || w.l2 != Failed then y.locked[job := w.t2] else y.locked)
    case Release(who, _, f) =>
      if who in y.holders then
        System(Delete(y.store, LockKey(y.holders[who].job), f), y.holders - {who}, y.locked)
      else y
    case Crash(who, _) => y.(holders := y.holders - {who})
    case EvictCached(key, _) => y.(store := Drop(y.store, key))
    case Other(op, _) => y.(store := Apply(canon, y.store, op))
  }

  function Run(canon: string -> string, steps: seq<Step>): System {
    if steps == [] then START else Next(canon, Run(canon, steps[..|steps| - 1]), steps[|steps| - 1])
  }

  /** What the environment may do: how long holds last and refills are late, at most; whether the cache drops
      lock entries, whether reads of the cache and of the table fail, whether saves straddle a second, whether
      they fail in the cache and in the table, and whether releases fail in the cache and in the table. */
  datatype Limits = Limits(
    hold: int, delay: nat, evictions: bool, getFails: bool, queryFails: bool, slow: bool,
    setFails: bool, insertFails: bool, delFails: bool, deleteFails: bool)

  predicate Straddles(w: Writing) { ExpireAt(w.t2, LOCK_TTL) > w.t1 + LIFE }

  predicate Permits(l: Limits, p: Step) {
    match p
    case Trigger(_, _, _, r, w) =>
      && (l.getFails || r.cacheOk) && (l.queryFails || r.tableOk)
      && (l.setFails || w.l1Ok) && (l.insertFails || w.l2 == Done) && (l.slow || !Straddles(w))
    case Release(_, _, f) => (l.delFails || f.l1Ok) && (l.deleteFails || f.l2 == Done)
    case Crash(_, _) => true
    case EvictCached(key, _) => IsLockKey(key) ==> l.evictions
    case Other(_, _) => true
  }

  predicate Forward(p: Step, delay: int) {
    p.Trigger? ==> InTime(p.r, delay) && p.r.t3 <= p.w.t1 <= p.w.t2
  }

  predicate Patient(y: System, p: Step, hold: int) {
    forall i :: i in y.holders ==> Ends(p) - y.holders[i].since <= hold
  }

  /** A run the system can make: times do not go back, every step is possible and permitted, and nobody is
      inside a job for longer than `hold`. */
  ghost predicate Legal(canon: string -> string, steps: seq<Step>, l: Limits) {
    steps == [] || (
      var n := |steps| - 1;
      var y, p := Run(canon, steps[..n]), steps[n];
      && Legal(canon, steps[..n], l)
      && Forward(p, l.delay) && (n > 0 ==> Ends(steps[n - 1]) <= Begins(p))
      && Possible(y, p) && Permits(l, p) && Patient(y, p, l.hold)
    )
  }

  // ---------------------------------------------------------------------------
  // What every run keeps
  // ---------------------------------------------------------------------------

  /** Lock entries and rows are never empty, and no row lives longer than ten seconds from its writing. */
  ghost predicate Recorded(y: System, job: string) {
    var k := LockKey(job);
    && (k in y.store.l1 ==> job in y.locked && y.store.l1[k].value != "")
    && (k in y.store.l2 ==>
          job in y.locked && y.store.l2[k].value != "" && y.store.l2[k].expireAt <= y.locked[job] + LIFE)
  }

  ghost predicate Base(y: System, clock: int) {
    && (forall job :: Recorded(y, job))
    && (forall job :: job in y.locked ==> y.locked[job] <= clock)
    && (forall i :: i in y.holders ==> y.holders[i].since <= clock)
  }

  lemma StepKeepsBase(canon: string -> string, y: System, p: Step, clock: int, delay: int)
    requires Canonical(canon) && Base(y, clock) && Possible(y, p) && Forward(p, delay) && clock <= Begins(p)
    ensures Base(Next(canon, y, p), Ends(p))
  {
    hide LockKey, IsLockKey, Lookup;
    var z := Next(canon, y, p);
    forall job ensures Recorded(z, job) {
      AllLockKeysDiffer(job);
      assert Recorded(y, job);
    }
  }

  lemma StartIsBase(clock: int)
    ensures Base(START, clock)
  {
  }

  function Clock(steps: seq<Step>): int { if steps == [] then 0 else Ends(steps[|steps| - 1]) }

  lemma {:induction false} RunKeepsBase(canon: string -> string, steps: seq<Step>, l: Limits)
    requires Canonical(canon) && Legal(canon, steps, l)
    ensures Base(Run(canon, steps), Clock(steps))
  {
    hide Base, Canonical, Next, Possible, Permits, Patient;
    if steps == [] {
      StartIsBase(0);
    } else {
      var n := |steps| - 1;
      RunKeepsBase(canon, steps[..n], l);
      if n == 0 {
        StartIsBase(Begins(steps[0]));
        StepKeepsBase(canon, START, steps[0], Begins(steps[0]), l.delay);
      } else {
        StepKeepsBase(canon, Run(canon, steps[..n]), steps[n], Clock(steps[..n]), l.delay);
      }
    }
  }

  // ---------------------------------------------------------------------------
  // Mutual exclusion
  // ---------------------------------------------------------------------------

  ghost predicate Exclusive(y: System) {
    forall i, j :: i in y.holders && j in y.holders && i != j ==> y.holders[i].job != y.holders[j].job
  }

  /** A holder cannot count on its cache entry being there and being read. */
  predicate Lossy(l: Limits) { l.evictions || l.getFails || l.setFails }

  /** The longest hold that is safe: the table's truncated deadline counts when the cache may not show it. */
  function SafeHold(lossy: bool): int { if lossy then 9000 else 9999 }

  predicate Safe(l: Limits) { l.hold < 0 || (!(Lossy(l) && l.queryFails) && l.hold <= SafeHold(Lossy(l))) }

  /** Whoever holds a job's lock has its lock row for nine seconds, and if the cache is not lossy the entry
      for ten. */
  ghost predicate Protected(y: System, i: nat, lossy: bool)
    requires i in y.holders
  {
    var h := y.holders[i];
    var k := LockKey(h.job);
    && k in y.store.l2 && y.store.l2[k].expireAt > h.since + SafeHold(true)
    && (!lossy ==> k in y.store.l1 && y.store.l1[k].deadline > h.since + SafeHold(false))
  }

  ghost predicate Guarded(y: System, lossy: bool) {
    Exclusive(y) && forall i :: i in y.holders ==> Protected(y, i, lossy)
  }

  /** A lock held for no longer than is safe is seen by every check, and then the check writes nothing. */
  lemma ProtectedIsSeen(y: System, i: nat, r: Reading, end: int, l: Limits)
    requires i in y.holders && Protected(y, i, Lossy(l)) && Recorded(y, y.holders[i].job) && Safe(l)
    requires y.holders[i].since <= end <= y.holders[i].since + l.hold && r.t1 <= end && r.t2 <= end
    requires (l.getFails || r.cacheOk) && (l.queryFails || r.tableOk)
    ensures Seen(y.store, y.holders[i].job, r)
    ensures !Lossy(l) ==> AfterGet(y.store, LockKey(y.holders[i].job), r) == y.store
  {
  }

  /** A trigger that sees the holder of its job, if there is one, leaves every holder protected. */
  lemma TriggerProtects(canon: string -> string, y: System, p: Step, i: nat, lossy: bool)
    requires p.Trigger? && i in y.holders && i != p.who && Protected(y, i, lossy)
    requires y.holders[i].job == p.job ==>
      Seen(y.store, p.job, p.r) && (!lossy ==> AfterGet(y.store, LockKey(p.job), p.r) == y.store)
    ensures i in Next(canon, y, p).holders && Protected(Next(canon, y, p), i, lossy)
  {
    hide LockKey, IsLockKey, Seen, ExpireAt;
    AllLockKeysDiffer(p.job);
  }

  lemma NewHolderProtected(canon: string -> string, y: System, p: Step, l: Limits)
    requires p.Trigger? && !Seen(y.store, p.job, p.r) && p.w.l2 == Done && Permits(l, p) && p.w.t1 <= p.w.t2
    ensures var z := Next(canon, y, p); p.who in z.holders && Protected(z, p.who, Lossy(l))
  {
    hide LockKey, Seen;
  }

  lemma TriggerKeepsGuarded(canon: string -> string, y: System, p: Step, clock: int, l: Limits)
    requires Base(y, clock) && Guarded(y, Lossy(l)) && Safe(l) && p.Trigger? && clock <= Begins(p)
    requires Possible(y, p) && Permits(l, p) && Forward(p, l.delay) && Patient(y, p, l.hold)
    ensures Guarded(Next(canon, y, p), Lossy(l))
  {
    var z := Next(canon, y, p);
    forall i | i in y.holders
      ensures y.holders[i].job == p.job ==> Seen(y.store, p.job, p.r)
      ensures i in z.holders && Protected(z, i, Lossy(l))
    {
      hide LockKey, Seen, Lossy, Safe, AfterGet, Save, Protected;
      assert Recorded(y, y.holders[i].job);
      if y.holders[i].job == p.job {
        ProtectedIsSeen(y, i, p.r, Ends(p), l);
      }
      TriggerProtects(canon, y, p, i, Lossy(l));
    }
    hide LockKey, Seen, Lossy, Safe, AfterGet, Save, Protected, Recorded;
    if !Seen(y.store, p.job, p.r) && p.w.l2 == Done {
      NewHolderProtected(canon, y, p, l);
    }
  }

  lemma StepKeepsGuarded(canon: string -> string, y: System, p: Step, clock: int, l: Limits)
    requires Base(y, clock) && Guarded(y, Lossy(l)) && Safe(l) && clock <= Begins(p)
    requires Possible(y, p) && Permits(l, p) && Forward(p, l.delay) && Patient(y, p, l.hold)
    ensures Guarded(Next(canon, y, p), Lossy(l))
  {
    if p.Trigger? {
      TriggerKeepsGuarded(canon, y, p, clock, l);
    } else {
      hide LockKey, IsLockKey, Recorded, Patient, Safe, Lossy, ExpireAt;
      var z := Next(canon, y, p);
      AllLockKeysDiffer(if p.Release? then y.holders[p.who].job else "");
      forall i | i in z.holders ensures Protected(z, i, Lossy(l)) {
        assert Protected(y, i, Lossy(l));
      }
    }
  }

  lemma StartIsGuarded(lossy: bool)
    ensures Guarded(START, lossy)
  {
  }

  lemma {:induction false} RunKeepsGuarded(canon: string -> string, steps: seq<Step>, l: Limits)
    requires Canonical(canon) && Legal(canon, steps, l) && Safe(l)
    ensures Guarded(Run(canon, steps), Lossy(l))
  {
    hide Base, Guarded, Canonical, Next, Possible, Permits, Patient, Safe, Lossy;
    if steps == [] {
      StartIsGuarded(Lossy(l));
    } else {
      var n := |steps| - 1;
      RunKeepsGuarded(canon, steps[..n], l);
      RunKeepsBase(canon, steps[..n], l);
      if n == 0 {
        StartIsBase(Begins(steps[0]));
        StepKeepsGuarded(canon, START, steps[0], Begins(steps[0]), l);
      } else {
        StepKeepsGuarded(canon, Run(canon, steps[..n]), steps[n], Clock(steps[..n]), l);
      }
    }
  }

  lemma AtStart(canon: string -> string, l: Limits)
    ensures Legal(canon, [], l) && Run(canon, []) == START
  {
  }

  lemma Extend(canon: string -> string, steps: seq<Step>, p: Step, l: Limits)
    requires Legal(canon, steps, l) && Forward(p, l.delay) && (steps != [] ==> Ends(steps[|steps| - 1]) <= Begins(p))
    requires Possible(Run(canon, steps), p) && Permits(l, p) && Patient(Run(canon, steps), p, l.hold)
    ensures Legal(canon, steps + [p], l) && Run(canon, steps + [p]) == Next(canon, Run(canon, steps), p)
  {
    assert (steps + [p])[..|steps + [p]| - 1] == steps;
  }

  /** A lock taken at `t`, and the moment at which a check need not see it. */
  function Times(l: Limits): (int, int) {
    var t := if Lossy(l) then 999 else 0;
    (t, if Lossy(l) && l.queryFails then t else 10000)
  }

  lemma LockUnseen(canon: string -> string, l: Limits) returns (steps: seq<Step>)
    requires !Safe(l)
    ensures Legal(canon, steps, l) && |steps| == 2 && Ends(steps[1]) == Times(l).0
    ensures var y, u := Run(canon, steps), Times(l).1;
      && y.holders == map[0 := Hold("job", Times(l).0)]
      && !Seen(y.store, "job", Reading(u, u, u, !l.getFails, !l.queryFails, true))
  {
    hide Legal, Run, IsLockKey, LockKey;
    LockKeysDiffer("job", "job");
    NotALockKey();
    var (t, u) := Times(l);
    var w := Writing(t, t, !l.setFails, Done);
    var a, b := Trigger(0, "job", "p", Now(t), w), EvictCached(if l.evictions then LockKey("job") else "", t);
    FirstTrigger(canon, w, l);
    Extend(canon, [a], b, l);
    steps := [a] + [b];
  }

  /** Two instances overlap as soon as holds may outlast the safe time, or at once if neither level need
      show the lock. */
  lemma Overlap(canon: string -> string, l: Limits) returns (steps: seq<Step>)
    requires Canonical(canon) && !Safe(l)
    ensures Legal(canon, steps, l) && !Exclusive(Run(canon, steps))
  {
    hide Legal, Run, Canonical, Exclusive, Seen, Next, Straddles;
    var (t, u) := Times(l);
    var c := Trigger(1, "job", "p", Reading(u, u, u, !l.getFails, !l.queryFails, true), Writing(u, u, true, Done));
    AtOnce(c.w);
    var two := LockUnseen(canon, l);
    Extend(canon, two, c, l);
    steps := two + [c];
    Twice(canon, Run(canon, two), c, 0);
  }

  lemma Twice(canon: string -> string, y: System, p: Step, who: nat)
    requires p.Trigger? && p.w.l2 == Done && !Seen(y.store, p.job, p.r)
    requires who in y.holders && y.holders[who].job == p.job && who != p.who
    ensures !Exclusive(Next(canon, y, p))
  {
    var z := Next(canon, y, p);
    assert who in z.holders && p.who in z.holders && z.holders[who].job == z.holders[p.who].job;
  }

  lemma NotALockKey()
    ensures !IsLockKey("")
  {
  }

  /** At most one instance is between acquire and release of a job, in every run, exactly when holds last at
      most 9.999 seconds; or 9 seconds and the table can always be read, if the cache may drop lock entries,
      fail to take them or fail to show them. The nominal ten seconds are not safe. */
  lemma MutualExclusionIff(canon: string -> string, l: Limits)
    requires Canonical(canon)
    ensures (forall steps :: Legal(canon, steps, l) ==> Exclusive(Run(canon, steps))) <==> Safe(l)
  {
    hide Legal, Run, Safe, Canonical;
    if Safe(l) {
      forall steps | Legal(canon, steps, l) ensures Exclusive(Run(canon, steps)) {
        RunKeepsGuarded(canon, steps, l);
      }
    } else {
      var steps := Overlap(canon, l);
    }
  }

  /** The check alone reserves nothing: once one instance has found a job free, every later check finds it
      free too until somebody saves a lock. So check and acquire must be one step, as in a Trigger. */
  lemma ChecksDoNotReserve(y: System, job: string, t: int, r: Reading, u: int)
    requires Recorded(y, job) && !Held(y.store, job, t) && t <= r.t1 <= r.t2 && t <= u
    ensures !Held(AfterGet(y.store, LockKey(job), r), job, u)
  {
  }

  // ---------------------------------------------------------------------------
  // Who locked a job last, and when it is free again
  // ---------------------------------------------------------------------------

  datatype LockState = Free | HeldBy(who: nat) | Orphaned(who: nat)

  predicate Holds(y: System, who: nat, job: string) { who in y.holders && y.holders[who].job == job }

  /** A job's lock by the history alone: the last row written and not deleted since, and whether its instance
      is inside or not: because it crashed, was told that the save failed, or could not delete the row.
      Whoever releases the job frees it, also if another holds it. */
  function LockOf(canon: string -> string, steps: seq<Step>, job: string): LockState {
    if steps == [] then Free
    else
      var before, p := steps[..|steps| - 1], steps[|steps| - 1];
      var y, was := Run(canon, before), LockOf(canon, before, job);
      match p
      case Trigger(who, j, _, r, w) =>
        if j != job || Seen(y.store, job, r) || w.l2 == Failed then was
        else if w.l2 == Done then HeldBy(who)
        else Orphaned(who)
      case Release(who, _, f) =>
        if !Holds(y, who, job) then was
        else if f.l2 != Failed then Free
        else if was == HeldBy(who) then Orphaned(who)
        else was
      case Crash(who, _) => if was == HeldBy(who) then Orphaned(who) else was
      case EvictCached(_, _) => was
      case Other(_, _) => was
  }

  /** What one step does to a job's lock row. */
  lemma StepRow(canon: string -> string, y: System, p: Step, job: string)
    requires Possible(y, p)
    ensures LockKey(job) in Next(canon, y, p).store.l2 <==>
      match p
      case Trigger(_, j, _, r, w) =>
        (j == job && !Seen(y.store, job, r) && w.l2 != Failed) || LockKey(job) in y.store.l2
      case Release(who, _, f) => !(Holds(y, who, job) && f.l2 != Failed) && LockKey(job) in y.store.l2
      case _ => LockKey(job) in y.store.l2
  {
    hide LockKey, IsLockKey, Seen;
    AllLockKeysDiffer(job);
  }

  /** In every run, safe or not and whatever fails, a job's lock row is there exactly as the history says, and
      the instance named as its holder is inside the job. */
  lemma {:induction false} RowIsHistory(canon: string -> string, steps: seq<Step>, l: Limits, job: string)
    requires Legal(canon, steps, l)
    ensures var y, lock := Run(canon, steps), LockOf(canon, steps, job);
      (LockKey(job) in y.store.l2 <==> lock != Free) && (lock.HeldBy? ==> Holds(y, lock.who, job))
  {
    hide LockKey, Seen, AfterGet, Save, Delete, Drop, Apply;
    if steps != [] {
      var n := |steps| - 1;
      RowIsHistory(canon, steps[..n], l, job);
      StepRow(canon, Run(canon, steps[..n]), steps[n], job);
    }
  }

  /** With safe holds the history says who is inside: exactly the last acquirer that neither released the
      job nor crashed. */
  lemma {:induction false} HolderIsLast(canon: string -> string, steps: seq<Step>, l: Limits, job: string, who: nat)
    requires Canonical(canon) && Legal(canon, steps, l) && Safe(l)
    ensures Holds(Run(canon, steps), who, job) <==> LockOf(canon, steps, job) == HeldBy(who)
  {
    hide LockKey, Seen, Canonical, AfterGet, Save, Delete, Drop, Apply, Protected, Safe, Lossy;
    if steps != [] {
      var n := |steps| - 1;
      var y, p := Run(canon, steps[..n]), steps[n];
      HolderIsLast(canon, steps[..n], l, job, who);
      RunKeepsBase(canon, steps[..n], l);
      RunKeepsGuarded(canon, steps[..n], l);
      if p.Trigger? && Holds(y, who, job) {
        assert Recorded(y, job);
        ProtectedIsSeen(y, who, p.r, Ends(p), l);
      }
    }
  }

  /** Every lock entry has its row. */
  ghost predicate Rooted(y: System) { forall job :: LockKey(job) in y.store.l1 ==> LockKey(job) in y.store.l2 }

  lemma StepKeepsRooted(canon: string -> string, y: System, p: Step, l: Limits)
    requires Rooted(y) && Possible(y, p) && Permits(l, p) && !l.insertFails && (p.Release? ==> !l.delFails)
    ensures Rooted(Next(canon, y, p))
  {
    hide LockKey, IsLockKey, Seen, ExpireAt;
    var z := Next(canon, y, p);
    forall job | LockKey(job) in z.store.l1 ensures LockKey(job) in z.store.l2 {
      AllLockKeysDiffer(job);
    }
  }

  /** No entry is left without a row: saves do not fail in the table, and releases do not fail in the cache. */
  predicate Tidy(l: Limits) { !l.insertFails && (l.hold >= 0 ==> !l.delFails) }

  lemma {:induction false} RunKeepsRooted(canon: string -> string, steps: seq<Step>, l: Limits)
    requires Canonical(canon) && Legal(canon, steps, l) && Tidy(l)
    ensures Rooted(Run(canon, steps))
  {
    hide Canonical, Next, LockKey, Permits, Rooted;
    if steps == [] {
      assert Rooted(START) by { NothingIsRooted(); }
    } else {
      var n := |steps| - 1;
      RunKeepsRooted(canon, steps[..n], l);
      RunKeepsBase(canon, steps[..n], l);
      if n == 0 {
        assert !steps[n].Release?;
      }
      StepKeepsRooted(canon, Run(canon, steps[..n]), steps[n], l);
    }
  }

  lemma NothingIsRooted()
    ensures Rooted(START)
  {
  }

  /** Then a job that is found held was locked and not released since, and its instance is inside unless it
      crashed or could not delete the row. */
  lemma HeldMeansLocked(canon: string -> string, steps: seq<Step>, l: Limits, job: string, now: int)
    requires Canonical(canon) && Legal(canon, steps, l) && Tidy(l) && Held(Run(canon, steps).store, job, now)
    ensures var lock := LockOf(canon, steps, job);
      lock != Free && (lock.HeldBy? ==> Holds(Run(canon, steps), lock.who, job))
  {
    RowIsHistory(canon, steps, l, job);
    RunKeepsRooted(canon, steps, l);
  }

  function Untidy(l: Limits): seq<Step> {
    if l.insertFails then [Trigger(0, "job", "p", Now(0), Writing(0, 0, true, Failed))]
    else [Trigger(0, "job", "p", Now(0), Writing(0, 0, true, Done)), Release(0, 0, Deleting(false, Done))]
  }

  /** The first step of a run, into an empty store. */
  lemma FirstTrigger(canon: string -> string, w: Writing, l: Limits)
    requires 0 <= w.t1 <= w.t2
    requires Permits(l, Trigger(0, "job", "p", Now(w.t1), w))
    ensures var a := Trigger(0, "job", "p", Now(w.t1), w);
      && Legal(canon, [a], l)
      && Run(canon, [a]) == System(Save(canon, EMPTY, LockKey("job"), "p", LOCK_TTL, w),
                                   if w.l2 == Done then map[0 := Hold("job", w.t1)] else map[],
                                   if w.l1Ok || w.l2 != Failed then map["job" := w.t2] else map[])
  {
    hide Legal, Run, LockKey, ExpireAt, Save;
    var a := Trigger(0, "job", "p", Now(w.t1), w);
    AtStart(canon, l);
    Extend(canon, [], a, l);
    assert [] + [a] == [a] && [a][..0] == [];
  }

  lemma FirstLock(canon: string -> string, w: Writing)
    ensures LockOf(canon, [Trigger(0, "job", "p", Now(w.t1), w)], "job") ==
      if w.l2 == Failed then Free else if w.l2 == Done then HeldBy(0) else Orphaned(0)
  {
    hide LockKey, ExpireAt;
    var steps := [Trigger(0, "job", "p", Now(w.t1), w)];
    assert steps[..0] == [];
  }

  lemma AtOnce(w: Writing)
    requires w.t1 == w.t2
    ensures !Straddles(w)
  {
  }

  lemma UntidyShows(canon: string -> string, l: Limits)
    requires !Tidy(l)
    ensures Legal(canon, Untidy(l), l) && Held(Run(canon, Untidy(l)).store, "job", 0)
    ensures LockOf(canon, Untidy(l), "job") == Free
  {
    hide Legal, Run, LockKey, ExpireAt;
    var steps := Untidy(l);
    var a := steps[0];
    AtOnce(a.w);
    FirstTrigger(canon, a.w, l);
    FirstLock(canon, a.w);
    if !l.insertFails {
      var b := steps[1];
      Extend(canon, [a], b, l);
      assert [a] + [b] == steps && steps[..1] == [a];
    }
  }

  /** A job found held is locked by the history, in all runs, exactly when no entry can be left without a row. */
  lemma HeldMeansLockedIff(canon: string -> string, l: Limits)
    requires Canonical(canon)
    ensures (forall steps, job, now :: Legal(canon, steps, l) && Held(Run(canon, steps).store, job, now) ==>
              LockOf(canon, steps, job) != Free)
      <==> Tidy(l)
  {
    hide Legal, Run, Held, LockOf, Tidy;
    if Tidy(l) {
      forall steps, job, now | Legal(canon, steps, l) && Held(Run(canon, steps).store, job, now)
        ensures LockOf(canon, steps, job) != Free
      {
        HeldMeansLocked(canon, steps, l, job, now);
      }
    } else {
      UntidyShows(canon, l);
    }
  }

  /** Some check can find a live row and not its entry, and refill the cache: the entry was dropped, not read,
      not written or, other than the row, deleted; or its row outlives it, and somebody is there to see that:
      the holder may be inside for a while, or was told that its save failed. */
  predicate Lingers(l: Limits) {
    l.evictions || l.getFails || l.setFails || l.deleteFails || (l.slow && (l.hold > 0 || l.insertFails))
  }

  /** How long a lock can be seen after it was last written: its own ten seconds, or the hour of a refill
      that was queried in the last millisecond of the row and came late. */
  function Longest(l: Limits): int { if Lingers(l) then LIFE + REFILL + l.delay - 1 else LIFE }

  lemma LongestIs(l: Limits)
    ensures Longest(l) == if Lingers(l) then 3609999 + l.delay else 10000
  {
  }

  /** The job was never locked, or `wait` milliseconds have passed since its lock was last written. */
  predicate Waited(y: System, job: string, now: int, wait: int) { job in y.locked ==> now >= y.locked[job] + wait }

  ghost predicate Bounded(y: System, bound: int) {
    forall job :: LockKey(job) in y.store.l1 && job in y.locked ==>
      y.store.l1[LockKey(job)].deadline <= y.locked[job] + bound
  }

  /** No lock row outlives its entry. */
  ghost predicate Shadowed(y: System) {
    forall job :: LockKey(job) in y.store.l2 ==>
      LockKey(job) in y.store.l1 && y.store.l2[LockKey(job)].expireAt <= y.store.l1[LockKey(job)].deadline
  }

  /** The save just made took its time, so that its holder may do nothing more. */
  ghost predicate Stuck(y: System, clock: int, l: Limits) {
    l.hold <= 0 && exists i :: i in y.holders && y.holders[i].since < clock
  }

  lemma StepKeepsBounded(canon: string -> string, y: System, p: Step, clock: int, l: Limits)
    requires Base(y, clock) && Bounded(y, Longest(l)) && (Lingers(l) || Shadowed(y)) && clock <= Begins(p)
    requires Possible(y, p) && Permits(l, p) && Forward(p, l.delay)
    ensures Bounded(Next(canon, y, p), Longest(l))
  {
    hide LockKey, IsLockKey, ExpireAt, Seen;
    var z := Next(canon, y, p);
    forall job | LockKey(job) in z.store.l1 && job in z.locked
      ensures z.store.l1[LockKey(job)].deadline <= z.locked[job] + Longest(l)
    {
      AllLockKeysDiffer(job);
      assert Recorded(y, job);
    }
  }

  lemma StepKeepsShadowed(canon: string -> string, y: System, p: Step, clock: int, l: Limits)
    requires Base(y, clock) && Shadowed(y) && clock <= Begins(p) && !Lingers(l)
    requires Possible(y, p) && Permits(l, p) && Forward(p, l.delay)
    ensures Shadowed(Next(canon, y, p)) || Stuck(Next(canon, y, p), Ends(p), l)
  {
    hide LockKey, IsLockKey, ExpireAt;
    var z := Next(canon, y, p);
    if p.Trigger? && !Seen(y.store, p.job, p.r) && Straddles(p.w) {
      assert p.who in z.holders && z.holders[p.who].since < Ends(p) by { SlowTakesTime(p.w); }
    } else {
      forall job | LockKey(job) in z.store.l2
        ensures LockKey(job) in z.store.l1
        ensures z.store.l2[LockKey(job)].expireAt <= z.store.l1[LockKey(job)].deadline
      {
        AllLockKeysDiffer(job);
        assert Recorded(y, job);
      }
    }
  }

  lemma SlowTakesTime(w: Writing)
    requires Straddles(w)
    ensures w.t1 < w.t2
  {
  }

  lemma NothingIsShown(bound: int)
    ensures Shadowed(START) && Bounded(START, bound)
  {
  }

  lemma {:induction false} RunKeepsBounded(canon: string -> string, steps: seq<Step>, l: Limits)
    requires Canonical(canon) && Legal(canon, steps, l)
    ensures Bounded(Run(canon, steps), Longest(l))
    ensures Lingers(l) || Shadowed(Run(canon, steps)) || Stuck(Run(canon, steps), Clock(steps), l)
  {
    hide Canonical, Next, LockKey, Permits, Shadowed, Bounded, Longest, Lingers;
    if steps == [] {
      NothingIsShown(Longest(l));
    } else {
      var n := |steps| - 1;
      var y, p := Run(canon, steps[..n]), steps[n];
      var clock := if n == 0 then Begins(p) else Clock(steps[..n]);
      RunKeepsBounded(canon, steps[..n], l);
      RunKeepsBase(canon, steps[..n], l);
      StartIsBase(clock);
      StepKeepsBounded(canon, y, p, clock, l);
      if !Lingers(l) {
        StepKeepsShadowed(canon, y, p, clock, l);
      }
    }
  }

  /** Whatever happens to its holders, a job is free once that time has passed since its lock was last written. */
  lemma FreeAgain(canon: string -> string, steps: seq<Step>, l: Limits, job: string, now: int)
    requires Canonical(canon) && Legal(canon, steps, l)
    requires Waited(Run(canon, steps), job, now, Longest(l))
    ensures !Held(Run(canon, steps).store, job, now)
  {
    hide Legal, Run, Canonical, LockKey;
    RunKeepsBase(canon, steps, l);
    RunKeepsBounded(canon, steps, l);
    assert Recorded(Run(canon, steps), job);
  }

  /** Nothing but a save that straddles a second can hide the entry. */
  predicate OnlySlow(l: Limits) { !l.evictions && !l.getFails && !l.setFails && !l.deleteFails }

  /** A lock is written, its instance is no longer inside, the entry is gone, and a check comes in the last
      millisecond of the row. */
  function Blocking(l: Limits): (Step, Step, Step, Step) {
    var t1, t2 := if OnlySlow(l) then 999 else 0, if OnlySlow(l) then 1000 else 0;
    var told, u := !OnlySlow(l) || l.hold > 0, t2 + LIFE - 1;
    (Trigger(0, "job", "p", Now(t1), Writing(t1, t2, !l.setFails, if told then Done else Unconfirmed)),
     if !told then EvictCached("", t2)
     else if l.deleteFails then Release(0, t2, Deleting(true, Failed))
     else Crash(0, t2),
     EvictCached(if l.evictions then LockKey("job") else "", t2),
     Trigger(1, "job", "p", Reading(u, u, u + l.delay, !l.getFails, true, true),
             Writing(u + l.delay, u + l.delay, true, Done)))
  }

  /** A check that misses the entry and finds the row keeps the job blocked for an hour. */
  lemma CheckRefills(canon: string -> string, y: System, p: Step)
    requires p.Trigger? && p.r.refillOk
    requires var k := LockKey(p.job);
      !Hit(y.store, k, p.r) && LiveRow(y.store, k, p.r) && y.store.l2[k].value != ""
    ensures Held(Next(canon, y, p).store, p.job, p.r.t3 + REFILL - 1)
    ensures Next(canon, y, p).locked == y.locked
  {
  }

  /** The first three of these steps: the row is there alone, nobody is inside. */
  lemma RowAlone(canon: string -> string, l: Limits) returns (steps: seq<Step>)
    requires Lingers(l) && l.hold >= 0
    ensures var (a, b, c, d) := Blocking(l);
      var y, t2 := Run(canon, steps), if OnlySlow(l) then 1000 else 0;
      && steps == [a] + [b] + [c] && Legal(canon, steps, l) && y.holders == map[] && y.locked == map["job" := t2]
      && LockKey("job") in y.store.l2 && y.store.l2[LockKey("job")] == Row(canon("p"), t2 + LIFE)
      && (d.r.cacheOk && LockKey("job") in y.store.l1 ==> y.store.l1[LockKey("job")].deadline < t2 + LIFE)
  {
    hide Legal, Run, IsLockKey, LockKey;
    var (a, b, c, d) := Blocking(l);
    LockKeysDiffer("job", "job");
    NotALockKey();
    FirstTrigger(canon, a.w, l);
    Extend(canon, [a], b, l);
    Extend(canon, [a] + [b], c, l);
    steps := [a] + [b] + [c];
  }

  /** The hour is reached, whichever of these troubles it is. */
  lemma BlockedForAnHour(canon: string -> string, l: Limits) returns (steps: seq<Step>)
    requires Canonical(canon) && Lingers(l) && l.hold >= 0
    ensures Legal(canon, steps, l)
    ensures var y := Run(canon, steps);
      "job" in y.locked && Held(y.store, "job", y.locked["job"] + Longest(l) - 1)
  {
    hide Legal, Run, LockKey, Held;
    var (a, b, c, d) := Blocking(l);
    var three := RowAlone(canon, l);
    CheckRefills(canon, Run(canon, three), d);
    hide Next;
    Extend(canon, three, d, l);
    steps := three + [d];
  }

  /** So are the ten seconds. */
  lemma BlockedForTenSeconds(canon: string -> string, l: Limits) returns (steps: seq<Step>)
    requires !Lingers(l)
    ensures Legal(canon, steps, l)
    ensures var y := Run(canon, steps);
      "job" in y.locked && Held(y.store, "job", y.locked["job"] + Longest(l) - 1)
  {
    hide Legal, Run, LockKey;
    var w := Writing(0, 0, true, Done);
    FirstTrigger(canon, w, l);
    steps := [Trigger(0, "job", "p", Now(0), w)];
  }

  /** Every job is free `wait` milliseconds after its lock was last written, in all runs, exactly when `wait` is
      ten seconds; or 3609.999 seconds plus what refills may be late, if a check can find a row without its entry. */
  lemma FreeAgainIff(canon: string -> string, l: Limits, wait: int)
    requires Canonical(canon) && l.hold >= 0
    ensures (forall steps, job, now :: Legal(canon, steps, l) && Waited(Run(canon, steps), job, now, wait)
              ==> !Held(Run(canon, steps).store, job, now))
      <==> wait >= if Lingers(l) then 3609999 + l.delay else 10000
  {
    LongestIs(l);
    hide Legal, Run, Held, Longest, Lingers, Canonical;
    if wait >= Longest(l) {
      forall steps, job, now | Legal(canon, steps, l) && Waited(Run(canon, steps), job, now, wait)
        ensures !Held(Run(canon, steps).store, job, now)
      {
        FreeAgain(canon, steps, l, job, now);
      }
    } else {
      var steps;
      if Lingers(l) {
        steps := BlockedForAnHour(canon, l);
      } else {
        steps := BlockedForTenSeconds(canon, l);
      }
      var y := Run(canon, steps);
      assert Waited(y, "job", y.locked["job"] + Longest(l) - 1, wait);
    }
  }

  // ---------------------------------------------------------------------------
  // The scheduler as the Go code has it
  // ---------------------------------------------------------------------------

  class CronJob {
    const id: string
    var lastRun: int

    constructor (id: string, now: int)
      ensures this.id == id && lastRun == now
    {
      this.id, lastRun := id, now;
    }
  }

  datatype Outcome = NotRegistered | AlreadyRunning | LockFailed | Executed

  class Scheduler {
    const engine: StateEngine
    var jobs: map<string, CronJob>

    constructor (engine: StateEngine)
      ensures this.engine == engine && jobs == map[]
    {
      this.engine, jobs := engine, map[];
    }

    method RegisterCron(cronID: string, now: int)
      modifies this
      ensures cronID in jobs && fresh(jobs[cronID]) && jobs[cronID].id == cronID && jobs[cronID].lastRun == now
      ensures jobs == old(jobs)[cronID := jobs[cronID]]
    {
      var job := new CronJob(cronID, now);
      jobs := jobs[cronID := job];
    }

    method DeleteCron(cronID: string) returns (known: bool)
      modifies this
      ensures known == (cronID in old(jobs)) && jobs == old(jobs) - {cronID}
    {
      known := cronID in jobs;
      if known {
        jobs := jobs - {cronID};
      }
    }

    /** One trigger: the check `r`, the lock `w`, the run at `t`, the release `f`. A failed check finds the
        job free, a failed release goes unnoticed. */
    method TriggerCron(cronID: string, payload: string, r: Reading, w: Writing, t: int, f: Deleting)
      returns (o: Outcome)
      modifies engine, jobs.Values
      ensures o == NotRegistered <==> cronID !in jobs
      ensures o == AlreadyRunning <==> cronID in jobs && Seen(old(engine.Contents()), cronID, r)
      ensures o == LockFailed <==> cronID in jobs && !Seen(old(engine.Contents()), cronID, r) && w.l2 != Done
      ensures var was := old(engine.Contents());
        var seen := AfterGet(was, LockKey(cronID), r);
        var locked := Save(engine.canon, seen, LockKey(cronID), payload, LOCK_TTL, w);
        engine.Contents() == match o
          case NotRegistered => was
          case AlreadyRunning => seen
          case LockFailed => locked
          case Executed => Delete(locked, LockKey(cronID), f)
      ensures forall k :: k in jobs ==>
        jobs[k].lastRun == if o == Executed && jobs[k] == jobs[cronID] then t else old(jobs[k].lastRun)
    {
      if cronID !in jobs {
        return NotRegistered;
      }
      var job := jobs[cronID];
      var lockKey := LockKey(cronID);
      var existing := engine.GetState(lockKey, r);
      if existing.Some? && existing.value != "" {
        return AlreadyRunning;
      }
      var ok := engine.SaveState(lockKey, payload, LOCK_TTL, w);
      if !ok {
        return LockFailed;
      }
      job.lastRun := t;
      var _ := engine.DeleteState(lockKey, f);
      return Executed;
    }
  }
}
