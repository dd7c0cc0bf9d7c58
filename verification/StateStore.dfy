/** DBMux's two-level state store: a Redis cache (L1) in front of a SQL table (L2), with their own
    deadlines and a read-through refill. Times are integer milliseconds. */
module StateStore {
  import opened Prelude

  const SECOND := 1000
  const REFILL := 3600 * SECOND

  /** Seconds to live; a save with zero or less writes no deadline, which is not modelled. */
  type Ttl = t: int | t > 0 witness 1

  datatype Cached = Cached(value: string, deadline: int)

  datatype Row = Row(value: string, expireAt: int)

  datatype Store = Store(l1: map<string, Cached>, l2: map<string, Row>)

  /** How a call to the table ends: it takes effect, it does not, or it does but reports an error. */
  datatype Written = Done | Failed | Unconfirmed

  /** A save's two calls: the clock readings of the cache's and of the table's deadline, and their fates. */
  datatype Writing = Writing(t1: int, t2: int, l1Ok: bool, l2: Written)

  datatype Deleting = Deleting(l1Ok: bool, l2: Written)

  /** A read's up to three calls: when the cache is asked, the table is asked and the cache is refilled,
      and which of them succeed. */
  datatype Reading = Reading(t1: int, t2: int, t3: int, cacheOk: bool, tableOk: bool, refillOk: bool)

  function Now(t: int): Reading { Reading(t, t, t, true, true, true) }

  /** The calls come one after the other, and the refill at most `delay` after the query. */
  predicate InTime(r: Reading, delay: int) { r.t1 <= r.t2 <= r.t3 <= r.t2 + delay }

  /** `canon` is what the database makes of a JSON text; reading a row yields the canonical text. */
  ghost predicate Canonical(canon: string -> string) {
    && (forall x :: canon(canon(x)) == canon(x))
    && (forall x {:trigger canon(x)} :: canon(x) == "" <==> x == "")
  }

  /** RFC 3339 without a fraction: the table's deadline loses its milliseconds. */
  function ExpireAt(now: int, ttlSeconds: int): int { (now + ttlSeconds * SECOND) / SECOND * SECOND }

  function Save(canon: string -> string, s: Store, key: string, value: string, ttl: Ttl, w: Writing): Store {
    Store(if w.l1Ok then s.l1[key := Cached(value, w.t1 + ttl * SECOND)] else s.l1,
          if w.l2 != Failed then s.l2[key := Row(canon(value), ExpireAt(w.t2, ttl))] else s.l2)
  }

  predicate Hit(s: Store, key: string, r: Reading) { r.cacheOk && key in s.l1 && r.t1 < s.l1[key].deadline }

  predicate LiveRow(s: Store, key: string, r: Reading) { r.tableOk && key in s.l2 && s.l2[key].expireAt > r.t2 }

  /** A level that cannot be read counts as a miss. */
  function Lookup(s: Store, key: string, r: Reading): Option<string> {
    if Hit(s, key, r) then Some(s.l1[key].value)
    else if LiveRow(s, key, r) then Some(s.l2[key].value)
    else None
  }

  /** A miss that the table answers refills the cache, for an hour from then. */
  function AfterGet(s: Store, key: string, r: Reading): Store {
    if !Hit(s, key, r) && LiveRow(s, key, r) && r.refillOk then
      s.(l1 := s.l1[key := Cached(s.l2[key].value, r.t3 + REFILL)])
    else s
  }

  function Delete(s: Store, key: string, f: Deleting): Store {
    Store(if f.l1Ok then s.l1 - {key} else s.l1, if f.l2 != Failed then s.l2 - {key} else s.l2)
  }

  function Drop(s: Store, key: string): Store { s.(l1 := s.l1 - {key}) }

  // ---------------------------------------------------------------------------
  // Coherence
  // ---------------------------------------------------------------------------

  /** The cache entry of a key, if any, agrees with the row and dies within an hour of it, plus what a
      refill may be late. */
  ghost predicate Agrees(canon: string -> string, s: Store, key: string, delay: int) {
    key in s.l1 ==>
      && key in s.l2
      && s.l2[key].value == canon(s.l1[key].value)
      && s.l1[key].deadline < s.l2[key].expireAt + REFILL + delay
  }

  ghost predicate RowsCanonical(canon: string -> string, s: Store) {
    forall k :: k in s.l2 ==> canon(s.l2[k].value) == s.l2[k].value
  }

  ghost predicate Coherent(canon: string -> string, s: Store, delay: int) {
    RowsCanonical(canon, s) && forall k :: Agrees(canon, s, k, delay)
  }

  lemma SaveKeeps(canon: string -> string, s: Store, key: string, value: string, ttl: Ttl, w: Writing, delay: nat)
    requires Canonical(canon) && Coherent(canon, s, delay) && w.t1 <= w.t2 && w.l1Ok && w.l2 != Failed
    ensures Coherent(canon, Save(canon, s, key, value, ttl, w), delay)
  {
    var t := Save(canon, s, key, value, ttl, w);
    forall k ensures Agrees(canon, t, k, delay) {
      assert Agrees(canon, s, k, delay);
    }
  }

  lemma GetKeeps(canon: string -> string, s: Store, key: string, r: Reading, delay: nat)
    requires Coherent(canon, s, delay) && InTime(r, delay)
    ensures Coherent(canon, AfterGet(s, key, r), delay)
  {
    var t := AfterGet(s, key, r);
    forall k ensures Agrees(canon, t, k, delay) {
      assert Agrees(canon, s, k, delay);
    }
  }

  lemma DeleteKeeps(canon: string -> string, s: Store, key: string, f: Deleting, delay: nat)
    requires Coherent(canon, s, delay) && f.l1Ok && f.l2 != Failed
    ensures Coherent(canon, Delete(s, key, f), delay) && Coherent(canon, Drop(s, key), delay)
  {
    var t, u := Delete(s, key, f), Drop(s, key);
    forall k ensures Agrees(canon, t, k, delay) && Agrees(canon, u, k, delay) {
      assert Agrees(canon, s, k, delay);
    }
  }

  /** Exactly which failures a save survives: both levels end up alike, or the level that changed happens
      to agree with the one that did not. */
  lemma SaveCoherentIff(canon: string -> string, s: Store, key: string, value: string, ttl: Ttl, w: Writing, delay: nat)
    requires Canonical(canon) && Coherent(canon, s, delay) && w.t1 <= w.t2
    ensures var entry, row := Cached(value, w.t1 + ttl * SECOND), Row(canon(value), ExpireAt(w.t2, ttl));
      Coherent(canon, Save(canon, s, key, value, ttl, w), delay) <==>
        || w.l1Ok == (w.l2 != Failed)
        || (w.l1Ok && key in s.l2 && s.l2[key].value == row.value &&
            entry.deadline < s.l2[key].expireAt + REFILL + delay)
        || (w.l2 != Failed &&
            (key in s.l1 ==> canon(s.l1[key].value) == row.value && s.l1[key].deadline < row.expireAt + REFILL + delay))
  {
    var t := Save(canon, s, key, value, ttl, w);
    OneKey(canon, s, t, key, delay);
    assert Agrees(canon, s, key, delay);
  }

  /** A change of one key is coherent when that key is. */
  lemma OneKey(canon: string -> string, s: Store, t: Store, key: string, delay: nat)
    requires Coherent(canon, s, delay) && RowsCanonical(canon, t)
    requires forall k :: k != key ==> (k in t.l1 <==> k in s.l1) && (k in t.l2 <==> k in s.l2)
    requires forall k :: k != key && k in s.l1 ==> t.l1[k] == s.l1[k]
    requires forall k :: k != key && k in s.l2 ==> t.l2[k] == s.l2[k]
    ensures Coherent(canon, t, delay) <==> Agrees(canon, t, key, delay)
  {
    if Agrees(canon, t, key, delay) {
      forall k ensures Agrees(canon, t, k, delay) {
        assert Agrees(canon, s, k, delay);
      }
    }
  }

  /** A delete whose cache call fails silently leaves the deleted value readable, unless there was
      nothing in the cache; a failed table call is harmless to coherence. */
  lemma DeleteCoherentIff(canon: string -> string, s: Store, key: string, f: Deleting, delay: nat)
    requires Canonical(canon) && Coherent(canon, s, delay)
    ensures Coherent(canon, Delete(s, key, f), delay) <==> f.l1Ok || f.l2 == Failed || key !in s.l1
  {
    OneKey(canon, s, Delete(s, key, f), key, delay);
    assert Agrees(canon, s, key, delay);
  }

  /** A refill that arrives late, with a value read before other operations finished, is harmless
      exactly when the row still says the same and has not expired longer than refills may be late. */
  lemma LateRefillIff(canon: string -> string, s: Store, key: string, read: Row, now: int, delay: nat)
    requires Canonical(canon) && Coherent(canon, s, delay) && canon(read.value) == read.value
    ensures var t := s.(l1 := s.l1[key := Cached(read.value, now + REFILL)]);
      Coherent(canon, t, delay) <==>
        key in s.l2 && s.l2[key].value == read.value && now < s.l2[key].expireAt + delay
  {
    OneKey(canon, s, s.(l1 := s.l1[key := Cached(read.value, now + REFILL)]), key, delay);
  }

  // ---------------------------------------------------------------------------
  // Whole runs
  // ---------------------------------------------------------------------------

  /** What can happen to the store; `Evict` is Redis dropping an entry by itself. */
  datatype Op =
    | SaveOp(key: string, value: string, ttl: Ttl, w: Writing)
    | GetOp(key: string, r: Reading)
    | DeleteOp(key: string, f: Deleting)
    | EvictOp(key: string)

  function Apply(canon: string -> string, s: Store, op: Op): Store {
    match op
    case SaveOp(key, value, ttl, w) => Save(canon, s, key, value, ttl, w)
    case GetOp(key, r) => AfterGet(s, key, r)
    case DeleteOp(key, f) => Delete(s, key, f)
    case EvictOp(key) => Drop(s, key)
  }

  /** The state after a run, which is read from its first operation on. */
  function Run(canon: string -> string, s: Store, ops: seq<Op>): Store {
    if ops == [] then s else Apply(canon, Run(canon, s, ops[..|ops| - 1]), ops[|ops| - 1])
  }

  /** Clocks move forward within each operation, and no refill is later than `delay` after its query. */
  predicate Steady(op: Op, delay: int) {
    (op.SaveOp? ==> op.w.t1 <= op.w.t2) && (op.GetOp? ==> InTime(op.r, delay))
  }

  ghost predicate Within(ops: seq<Op>, delay: int) { forall i :: 0 <= i < |ops| ==> Steady(ops[i], delay) }

  /** Both levels take what a save or a delete does. */
  predicate Lands(op: Op) {
    && (op.SaveOp? ==> op.w.l1Ok && op.w.l2 != Failed)
    && (op.DeleteOp? ==> op.f.l1Ok && op.f.l2 != Failed)
  }

  ghost predicate AllLand(ops: seq<Op>) { forall i :: 0 <= i < |ops| ==> Lands(ops[i]) }

  /** The save of `key` that the table took and no later save or delete that it took has overtaken. */
  function LastSaved(ops: seq<Op>, key: string): (r: Option<Op>)
    ensures r.Some? ==> r.value.SaveOp? && r.value.key == key && r.value in ops
  {
    if ops == [] then None
    else
      var op := ops[|ops| - 1];
      if op.key == key && op.SaveOp? && op.w.l2 != Failed then Some(op)
      else if op.key == key && op.DeleteOp? && op.f.l2 != Failed then None
      else LastSaved(ops[..|ops| - 1], key)
  }

  const EMPTY := Store(map[], map[])

  lemma {:induction false} RunKeeps(canon: string -> string, ops: seq<Op>, delay: nat)
    requires Canonical(canon) && Within(ops, delay) && AllLand(ops)
    ensures Coherent(canon, Run(canon, EMPTY, ops), delay)
  {
    if ops != [] {
      var s, op := Run(canon, EMPTY, ops[..|ops| - 1]), ops[|ops| - 1];
      RunKeeps(canon, ops[..|ops| - 1], delay);
      assert Steady(op, delay) && Lands(op);
      match op {
        case SaveOp(key, value, ttl, w) => SaveKeeps(canon, s, key, value, ttl, w, delay);
        case GetOp(key, r) => GetKeeps(canon, s, key, r, delay);
        case DeleteOp(key, f) => DeleteKeeps(canon, s, key, f, delay);
        case EvictOp(key) => DeleteKeeps(canon, s, key, Deleting(true, Done), delay);
      }
    }
  }

  /** The table is exactly the history, whatever fails: a row for the last save, none after a delete. Its deadline
      is the last whole second within the save's time to live. */
  lemma {:induction false} TableIsHistory(canon: string -> string, ops: seq<Op>, key: string)
    ensures var s, last := Run(canon, EMPTY, ops), LastSaved(ops, key);
      && (key in s.l2 <==> last.Some?)
      && (last.Some? ==>
            var end := last.value.w.t2 + last.value.ttl * 1000;
            && s.l2[key] == Row(canon(last.value.value), ExpireAt(last.value.w.t2, last.value.ttl))
            && s.l2[key].expireAt % 1000 == 0 && end - 1000 < s.l2[key].expireAt <= end)
  {
    if ops != [] {
      TableIsHistory(canon, ops[..|ops| - 1], key);
    }
  }

  /** In every run whose writes land, whichever reads fail, a read returns only the last saved value of its
      key (up to JSON form), never one that was deleted or overwritten, and never later than an hour, plus
      what a refill may be late, past that value's expiry; and before that expiry a read of the table always
      finds it. */
  lemma ReadsAreFresh(canon: string -> string, ops: seq<Op>, key: string, r: Reading, delay: nat)
    requires Canonical(canon) && Within(ops, delay) && AllLand(ops) && r.t1 <= r.t2
    ensures var found, last := Lookup(Run(canon, EMPTY, ops), key, r), LastSaved(ops, key);
      && (found.Some? ==>
            && last.Some? && canon(found.value) == canon(last.value.value)
            && r.t1 < ExpireAt(last.value.w.t2, last.value.ttl) + 3600000 + delay - 1)
      && (last.Some? && r.t2 < ExpireAt(last.value.w.t2, last.value.ttl) && r.tableOk ==> found.Some?)
  {
    var s := Run(canon, EMPTY, ops);
    RunKeeps(canon, ops, delay);
    TableIsHistory(canon, ops, key);
    assert Agrees(canon, s, key, delay);
  }

  // ---------------------------------------------------------------------------
  // When reads end with the time to live
  // ---------------------------------------------------------------------------

  /** When the cache's copy of a save ends, which is when its time to live does. */
  function EndOf(p: Op): int
    requires p.SaveOp?
  {
    p.w.t1 + p.ttl * SECOND
  }

  /** The row of a save does not outlive its cache entry: no whole second began between the two clock
      readings that count. */
  predicate Prompt(op: Op) { op.SaveOp? ==> ExpireAt(op.w.t2, op.ttl) <= EndOf(op) }

  /** Since the last save or delete of the key, which landed and was prompt, the cache neither dropped its
      entry nor failed a read of it. */
  predicate CacheKept(ops: seq<Op>, key: string) {
    if ops == [] then true
    else
      var op := ops[|ops| - 1];
      if op.key != key then CacheKept(ops[..|ops| - 1], key)
      else
        match op
        case SaveOp(_, _, _, _) => Lands(op) && Prompt(op)
        case DeleteOp(_, _) => Lands(op)
        case EvictOp(_) => false
        case GetOp(_, r) => r.cacheOk && CacheKept(ops[..|ops| - 1], key)
  }

  /** As long as the cache keeps an entry, it stands as it was saved: no read refills it. */
  lemma {:induction false} KeptAsSaved(canon: string -> string, ops: seq<Op>, key: string, delay: nat)
    requires Canonical(canon) && Within(ops, delay) && CacheKept(ops, key)
    ensures var s, last := Run(canon, EMPTY, ops), LastSaved(ops, key);
      if last.None? then key !in s.l1 && key !in s.l2
      else
        && key in s.l1 && s.l1[key] == Cached(last.value.value, EndOf(last.value))
        && key in s.l2 && s.l2[key] == Row(canon(last.value.value), ExpireAt(last.value.w.t2, last.value.ttl))
        && s.l2[key].expireAt <= s.l1[key].deadline
  {
    hide Canonical, ExpireAt;
    if ops != [] {
      var op := ops[|ops| - 1];
      assert Steady(op, delay);
      if op.key != key || op.GetOp? {
        KeptAsSaved(canon, ops[..|ops| - 1], key, delay);
      }
    }
  }

  /** So a read then finds the value exactly as saved, up to the millisecond its time to live ends. */
  lemma KeptReadsStopInTime(canon: string -> string, ops: seq<Op>, key: string, now: int, delay: nat)
    requires Canonical(canon) && Within(ops, delay) && CacheKept(ops, key)
    ensures var last := LastSaved(ops, key);
      Lookup(Run(canon, EMPTY, ops), key, Now(now)) ==
        if last.Some? && now < last.value.w.t1 + last.value.ttl * 1000 then Some(last.value.value) else None
  {
    KeptAsSaved(canon, ops, key, delay);
  }

  /** A read that the cache misses and the table answers keeps the value readable for an hour from its refill. */
  lemma RefillLingers(canon: string -> string, ops: seq<Op>, key: string, r: Reading)
    requires var s := Run(canon, EMPTY, ops); !Hit(s, key, r) && LiveRow(s, key, r) && r.refillOk
    ensures var all := ops + [GetOp(key, r)];
      Lookup(Run(canon, EMPTY, all), key, Now(r.t3 + REFILL - 1)) == Some(Run(canon, EMPTY, ops).l2[key].value)
  {
    var all := ops + [GetOp(key, r)];
    assert all[..|all| - 1] == ops;
  }

  /** When the entry of `p` is gone and its row is not: the first moment for that read. */
  function Gap(p: Op): int
    requires p.SaveOp?
  {
    Max(EndOf(p), p.w.t2)
  }

  /** Every save that is not prompt, after any run: nothing fails and nothing is lost, but one read in the
      gap keeps the value readable for an hour past its time to live. */
  lemma SlowSaveLingers(canon: string -> string, ops: seq<Op>, p: Op)
    requires p.SaveOp? && p.w.t1 <= p.w.t2 && Lands(p) && !Prompt(p)
    ensures var all := ops + [p] + [GetOp(p.key, Now(Gap(p)))];
      && LastSaved(all, p.key) == Some(p)
      && Gap(p) == Max(p.w.t1 + p.ttl * 1000, p.w.t2)
      && Lookup(Run(canon, EMPTY, all), p.key, Now(Gap(p) + 3599999)) == Some(canon(p.value))
  {
    var saved, g := ops + [p], GetOp(p.key, Now(Gap(p)));
    var all := saved + [g];
    assert saved[..|saved| - 1] == ops && all[..|all| - 1] == saved;
    assert Run(canon, EMPTY, saved) == Apply(canon, Run(canon, EMPTY, ops), p);
    RefillLingers(canon, saved, p.key, g.r);
    assert LastSaved(saved, p.key) == Some(p);
  }

  /** Some save of the value has its time to live still running. */
  ghost predicate Alive(canon: string -> string, ops: seq<Op>, key: string, value: string, now: int) {
    exists i :: 0 <= i < |ops| && ops[i].SaveOp? && ops[i].key == key && canon(ops[i].value) == canon(value) &&
                now < EndOf(ops[i])
  }

  /** What may happen in a run: the cache loses entries, or fails reads; saves straddle a second, or fail in
      the cache, or in the table; deletes fail in the table. */
  datatype Trouble = Trouble(
    evictions: bool, getFails: bool, slow: bool, setFails: bool, insertFails: bool, deleteFails: bool)

  const NO_TROUBLE := Trouble(false, false, false, false, false, false)

  predicate Permits(w: Trouble, op: Op) {
    match op
    case SaveOp(_, _, _, f) => (w.slow || Prompt(op)) && (w.setFails || f.l1Ok) && (w.insertFails || f.l2 != Failed)
    case GetOp(_, r) => w.getFails || r.cacheOk
    case DeleteOp(_, f) => w.deleteFails || f.l2 != Failed
    case EvictOp(_) => w.evictions
  }

  ghost predicate Possible(ops: seq<Op>, w: Trouble, delay: int) {
    Within(ops, delay) && forall i :: 0 <= i < |ops| ==> Permits(w, ops[i])
  }

  /** The entry of a key is one of its saves as it was written, and no row outlives the entry. */
  ghost predicate Mirrored(canon: string -> string, ops: seq<Op>, key: string) {
    var s := Run(canon, EMPTY, ops);
    && (key in s.l1 ==> SavedAs(ops, key, s.l1[key]))
    && (key in s.l2 ==> key in s.l1 && s.l2[key].expireAt <= s.l1[key].deadline)
  }

  ghost predicate SavedAs(ops: seq<Op>, key: string, e: Cached) {
    exists i :: 0 <= i < |ops| && ops[i].SaveOp? && ops[i].key == key && e == Cached(ops[i].value, EndOf(ops[i]))
  }

  lemma SavedExtends(ops: seq<Op>, key: string, e: Cached)
    requires ops != [] && SavedAs(ops[..|ops| - 1], key, e)
    ensures SavedAs(ops, key, e)
  {
    var i :| 0 <= i < |ops| - 1 && ops[i].SaveOp? && ops[i].key == key && e == Cached(ops[i].value, EndOf(ops[i]));
    assert 0 <= i < |ops| && ops[i].SaveOp?;
  }

  /** Whatever else fails, with none of these troubles every entry is as saved. */
  lemma {:induction false} RunMirrors(canon: string -> string, ops: seq<Op>, key: string, delay: nat)
    requires Possible(ops, NO_TROUBLE, delay)
    ensures Mirrored(canon, ops, key)
  {
    hide ExpireAt, SavedAs;
    if ops != [] {
      var n := |ops| - 1;
      var s, op := Run(canon, EMPTY, ops[..n]), ops[n];
      RunMirrors(canon, ops[..n], key, delay);
      assert Steady(op, delay) && Permits(NO_TROUBLE, op);
      if key in s.l1 {
        SavedExtends(ops, key, s.l1[key]);
      }
      if op.SaveOp? && op.key == key {
        assert SavedAs(ops, key, Cached(op.value, EndOf(op))) by { SavedLast(ops, key); }
      }
    }
  }

  lemma SavedLast(ops: seq<Op>, key: string)
    requires ops != [] && ops[|ops| - 1].SaveOp? && ops[|ops| - 1].key == key
    ensures SavedAs(ops, key, Cached(ops[|ops| - 1].value, EndOf(ops[|ops| - 1])))
  {
  }

  /** Without the cache, a value saved for one second can still be read 3599.998 seconds after it expired,
      and later still if the refill is late. */
  lemma StaleForAnHour(canon: string -> string, value: string, delay: nat)
    ensures var ops := [SaveOp("k", value, 1, Writing(0, 0, true, Done)), EvictOp("k")];
      var all := ops + [GetOp("k", Reading(999, 999, 999 + delay, true, true, true))];
      && LastSaved(all, "k") == Some(ops[0]) && EndOf(ops[0]) == 1000
      && Lookup(Run(canon, EMPTY, all), "k", Now(3600998 + delay)) == Some(canon(value))
  {
    var a, b := SaveOp("k", value, 1, Writing(0, 0, true, Done)), EvictOp("k");
    var g := GetOp("k", Reading(999, 999, 999 + delay, true, true, true));
    AfterTwo(canon, a, b);
    assert ([a, b] + [g])[..2] == [a, b] && [a, b][..1] == [a] && [a][..0] == [];
    assert LastSaved([a], "k") == Some(a) && LastSaved([a, b], "k") == Some(a);
    RefillLingers(canon, [a, b], "k", g.r);
  }

  lemma AfterTwo(canon: string -> string, a: Op, b: Op)
    ensures Run(canon, EMPTY, [a, b]) == Apply(canon, Apply(canon, EMPTY, a), b)
  {
    assert [a, b][..1] == [a] && [a][..0] == [];
    assert Run(canon, EMPTY, [a]) == Apply(canon, EMPTY, a);
  }

  /** One run for each trouble: a save, what goes wrong, and when the read comes that refills the cache. */
  function StaleRun(w: Trouble): (Op, Op, Reading) {
    var p, idle := SaveOp("k", "1", 2, Writing(0, 0, true, Done)), GetOp("", Now(0));
    if w.evictions then (p, EvictOp("k"), Now(1999))
    else if w.getFails then (p, idle, Now(1999).(cacheOk := false))
    else if w.slow then (p.(w := Writing(999, 1000, true, Done)), GetOp("", Now(1000)), Now(2999))
    else if w.setFails then (p.(w := Writing(0, 0, false, Done)), idle, Now(1999))
    else if w.insertFails then (p, SaveOp("k", "2", 1, Writing(0, 0, true, Failed)), Now(1999))
    else (p, DeleteOp("k", Deleting(true, Failed)), Now(1999))
  }

  lemma TroubleShows(canon: string -> string, w: Trouble, delay: nat) returns (ops: seq<Op>, late: int)
    requires Canonical(canon) && w != NO_TROUBLE
    ensures Possible(ops, w, delay)
    ensures Lookup(Run(canon, EMPTY, ops), "k", Now(late)) == Some(canon("1"))
    ensures !Alive(canon, ops, "k", canon("1"), late)
  {
    var (a, b, r) := StaleRun(w);
    RowAlone(canon, w);
    hide ExpireAt, Save, Delete, Lookup, Run, Apply;
    var g := GetOp("k", r);
    RefillLingers(canon, [a, b], "k", r);
    ops, late := [a, b] + [g], r.t3 + REFILL - 1;
    assert ops[0] == a && ops[1] == b && ops[2] == g;
  }

  /** In each of them the read misses the entry and finds the row. */
  lemma RowAlone(canon: string -> string, w: Trouble)
    requires w != NO_TROUBLE
    ensures var (a, b, r) := StaleRun(w);
      var s := Run(canon, EMPTY, [a, b]);
      !Hit(s, "k", r) && LiveRow(s, "k", r) && r.refillOk && s.l2["k"].value == canon("1")
  {
    var (a, b, r) := StaleRun(w);
    AfterTwo(canon, a, b);
  }

  /** No read returns a value whose time to live has ended, in all runs, exactly when there is none of
      these troubles. */
  lemma ReadsStopInTimeIff(canon: string -> string, delay: nat, w: Trouble)
    requires Canonical(canon)
    ensures (forall ops, key, now :: Possible(ops, w, delay) ==>
              var found := Lookup(Run(canon, EMPTY, ops), key, Now(now));
              found.Some? ==> Alive(canon, ops, key, found.value, now))
      <==> w == NO_TROUBLE
  {
    hide Run, Possible, Alive;
    if w != NO_TROUBLE {
      var ops, late := TroubleShows(canon, w, delay);
    } else {
      forall ops, key, now | Possible(ops, w, delay) && Lookup(Run(canon, EMPTY, ops), key, Now(now)).Some?
        ensures Alive(canon, ops, key, Lookup(Run(canon, EMPTY, ops), key, Now(now)).value, now)
      {
        RunMirrors(canon, ops, key, delay);
        MirroredIsAlive(canon, ops, key, now);
      }
    }
  }

  lemma MirroredIsAlive(canon: string -> string, ops: seq<Op>, key: string, now: int)
    requires Mirrored(canon, ops, key) && Lookup(Run(canon, EMPTY, ops), key, Now(now)).Some?
    ensures Alive(canon, ops, key, Lookup(Run(canon, EMPTY, ops), key, Now(now)).value, now)
  {
    hide Run;
    var e := Run(canon, EMPTY, ops).l1[key];
    var i :| 0 <= i < |ops| && ops[i].SaveOp? && ops[i].key == key && e == Cached(ops[i].value, EndOf(ops[i]));
  }

  // ---------------------------------------------------------------------------
  // The engine as the Go code has it
  // ---------------------------------------------------------------------------

  datatype Category = Postgres | MySQL | Mongo | SQLite | Redis | Vector

  datatype Provider = Provider(id: string, category: Category)

  /** The first listed provider of a category whose lookup in the registry succeeds. */
  function FirstOf(providers: seq<Provider>, found: set<string>, c: Category): Option<Provider> {
    if providers == [] then None
    else
      var n := |providers| - 1;
      var earlier := FirstOf(providers[..n], found, c);
      if earlier.Some? then earlier
      else if providers[n].category == c && providers[n].id in found then Some(providers[n])
      else None
  }

  predicate Usable(p: Provider, found: set<string>, c: Category) { p.category == c && p.id in found }

  ghost predicate FirstAt(providers: seq<Provider>, found: set<string>, c: Category, i: int) {
    0 <= i < |providers| && Usable(providers[i], found, c) && forall j :: 0 <= j < i ==> !Usable(providers[j], found, c)
  }

  lemma {:induction false} FirstOfIsFirst(providers: seq<Provider>, found: set<string>, c: Category)
    ensures match FirstOf(providers, found, c)
      case None => forall p :: p in providers ==> !Usable(p, found, c)
      case Some(p) => exists i :: FirstAt(providers, found, c, i) && providers[i] == p
  {
    if providers != [] {
      var n := |providers| - 1;
      FirstOfIsFirst(providers[..n], found, c);
      if FirstOf(providers[..n], found, c).Some? {
        var i :| FirstAt(providers[..n], found, c, i) && providers[..n][i] == FirstOf(providers[..n], found, c).value;
        assert FirstAt(providers, found, c, i);
      } else {
        forall j | 0 <= j < n ensures !Usable(providers[j], found, c) {
          assert providers[j] in providers[..n];
        }
        if Usable(providers[n], found, c) {
          assert FirstAt(providers, found, c, n);
        }
      }
    }
  }

  /** The first listed Redis that the registry resolves to a key-value provider, if there is one. */
  method FindL1KVProvider(providers: seq<Provider>, found: set<string>) returns (r: Option<Provider>)
    ensures r.None? <==> forall p :: p in providers ==> !Usable(p, found, Redis)
    ensures r.Some? ==> exists i :: FirstAt(providers, found, Redis, i) && providers[i] == r.value
  {
    for i := 0 to |providers|
      invariant forall j :: 0 <= j < i ==> !Usable(providers[j], found, Redis)
    {
      if providers[i].category == Redis {
        if providers[i].id in found {
          assert FirstAt(providers, found, Redis, i);
          return Some(providers[i]);
        }
      }
    }
    return None;
  }

  ghost predicate Has(providers: seq<Provider>, found: set<string>, c: Category) {
    exists p :: p in providers && Usable(p, found, c)
  }

  /** The first listed provider of its category, and none is usable of a category that goes before it: Postgres
      before MySQL before Mongo before SQLite, and no other category. */
  ghost predicate Best(providers: seq<Provider>, found: set<string>, r: Provider) {
    && (exists i :: FirstAt(providers, found, r.category, i) && providers[i] == r)
    && match r.category
       case Postgres => true
       case MySQL => !Has(providers, found, Postgres)
       case Mongo => !Has(providers, found, Postgres) && !Has(providers, found, MySQL)
       case SQLite =>
         !Has(providers, found, Postgres) && !Has(providers, found, MySQL) && !Has(providers, found, Mongo)
       case _ => false
  }

  /** The four candidates in the order of their priority. */
  function Prefer(providers: seq<Provider>, found: set<string>): Option<Provider> {
    var postgres, mysql := FirstOf(providers, found, Postgres), FirstOf(providers, found, MySQL);
    var mongo, sqlite := FirstOf(providers, found, Mongo), FirstOf(providers, found, SQLite);
    if postgres.Some? then postgres
    else if mysql.Some? then mysql
    else if mongo.Some? then mongo
    else sqlite
  }

  /** No provider can hold state. */
  ghost predicate NoneUsable(providers: seq<Provider>, found: set<string>) {
    forall p :: p in providers && p.id in found ==> p.category in {Redis, Vector}
  }

  lemma PreferIsBest(providers: seq<Provider>, found: set<string>)
    ensures Prefer(providers, found).None? <==> NoneUsable(providers, found)
    ensures Prefer(providers, found).Some? ==> Best(providers, found, Prefer(providers, found).value)
  {
    hide FirstOf;
    FirstOfIsFirst(providers, found, Postgres);
    FirstOfIsFirst(providers, found, MySQL);
    FirstOfIsFirst(providers, found, Mongo);
    FirstOfIsFirst(providers, found, SQLite);
    forall p | p in providers && p.id in found && p.category !in {Redis, Vector}
      ensures Usable(p, found, p.category) && FirstOf(providers, found, p.category).Some?
    {
      assert Usable(p, found, p.category);
    }
  }

  method FindL2PersistentProvider(providers: seq<Provider>, found: set<string>) returns (r: Option<Provider>)
    ensures r.None? <==> NoneUsable(providers, found)
    ensures r.Some? ==> Best(providers, found, r.value)
  {
    hide Best, NoneUsable, Usable;
    var postgres, mysql, mongo, sqlite: Option<Provider> := None, None, None, None;
    for i := 0 to |providers|
      invariant postgres == FirstOf(providers[..i], found, Postgres)
      invariant mysql == FirstOf(providers[..i], found, MySQL)
      invariant mongo == FirstOf(providers[..i], found, Mongo)
      invariant sqlite == FirstOf(providers[..i], found, SQLite)
    {
      assert providers[..i + 1][..i] == providers[..i];
      var p := providers[i];
      if p.id !in found {
        continue;
      }
      match p.category {
        case Postgres => if postgres.None? { postgres := Some(p); }
        case MySQL => if mysql.None? { mysql := Some(p); }
        case Mongo => if mongo.None? { mongo := Some(p); }
        case SQLite => if sqlite.None? { sqlite := Some(p); }
        case _ =>
      }
    }
    assert providers[..|providers|] == providers;
    PreferIsBest(providers, found);
    if postgres.Some? {
      return postgres;
    }
    if mysql.Some? {
      return mysql;
    }
    if mongo.Some? {
      return mongo;
    }
    return sqlite;
  }

  /** The engine over one Redis and one Postgres. Failures are inputs: a failed read counts as a miss,
      a failed write to the cache is ignored, one to the table is reported. */
  class StateEngine {
    const canon: string -> string
    var redis: map<string, Cached>
    var table: map<string, Row>

    ghost function Contents(): Store
      reads this
    {
      Store(redis, table)
    }

    constructor (canon: string -> string)
      ensures this.canon == canon && Contents() == EMPTY
    {
      this.canon, redis, table := canon, map[], map[];
    }

    method SaveState(key: string, value: string, ttlSeconds: Ttl, w: Writing) returns (ok: bool)
      modifies this
      ensures ok == (w.l2 == Done)
      ensures Contents() == Save(canon, old(Contents()), key, value, ttlSeconds, w)
    {
      if w.l1Ok {
        redis := redis[key := Cached(value, w.t1 + ttlSeconds * SECOND)];
      }
      if w.l2 == Failed {
        return false;
      }
      table := table[key := Row(canon(value), ExpireAt(w.t2, ttlSeconds))];
      return w.l2 == Done;
    }

    method GetState(key: string, r: Reading) returns (value: Option<string>)
      modifies this
      ensures value == Lookup(old(Contents()), key, r)
      ensures Contents() == AfterGet(old(Contents()), key, r)
    {
      if r.cacheOk && key in redis && r.t1 < redis[key].deadline {
        return Some(redis[key].value);
      }
      if r.tableOk && key in table && table[key].expireAt > r.t2 {
        var val := table[key].value;
        if r.refillOk {
          redis := redis[key := Cached(val, r.t3 + REFILL)];
        }
        return Some(val);
      }
      return None;
    }

    method DeleteState(key: string, f: Deleting) returns (ok: bool)
      modifies this
      ensures ok == (f.l2 == Done)
      ensures Contents() == Delete(old(Contents()), key, f)
    {
      if f.l1Ok {
        redis := redis - {key};
      }
      if f.l2 != Failed {
        table := table - {key};
      }
      return f.l2 == Done;
    }
  }
}
