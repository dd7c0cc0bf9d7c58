/** API keys: ArcAuth's table, its memory copy and its revocation marks, and the gateway's sixty-second
    cache in front of them. Creating and deleting are atomic steps; a validation takes its answer, fills the
    memory and reaches the gateway in separate ones. Times are integer seconds. */
module ApiKeys {
  import opened Prelude

  const CACHE_TTL := 60

  const REVOKED_TTL := 24 * 3600

  datatype Identity = Identity(userID: string, role: string)

  datatype KeyRow = KeyRow(id: string, owner: Identity)

  /** `table` and `memory` are keyed by key hash; `revoked` and `cache` also hold deadlines. */
  datatype System = System(
    table: map<string, KeyRow>,
    memory: map<string, Identity>,
    revoked: map<string, int>,
    cache: map<string, Entry>,
    flights: map<nat, Flight>)

  datatype Entry = Entry(owner: Identity, expiresAt: int)

  /** A validation that has its answer, taken at `since`; `filling` while that is still to go into memory. */
  datatype Flight = Flight(hash: string, owner: Option<Identity>, since: int, filling: bool)

  /** How the gateway's request to ArcAuth fares: answered, never served, or served with the answer lost. */
  datatype Reply = Answered | Unserved | Lost

  /** A validation is a Query, a Fill and, if it is the gateway's and its answer is not lost, an Arrive. */
  datatype Step =
    | Create(user: string, role: string, id: string, hash: string, at: int)
    | Delete(user: string, id: string, at: int)
    | Query(flight: nat, hash: string, at: int)
    | Fill(flight: nat, at: int)
    | Arrive(flight: nat, at: int)
    | RedisDrops(hash: string, at: int)
    | Restart(at: int)                              // of ArcAuth, which forgets its memory and its requests

  const START := System(map[], map[], map[], map[], map[])

  function NormalRole(role: string): string { if role in {"admin", "anon", "sbx"} then role else "api" }

  /** The hash SELECTed by id and user, if there is such a row. */
  ghost function HashOf(s: System, user: string, id: string): (r: Option<string>)
    ensures r.Some? ==> r.value in s.table && s.table[r.value].id == id && s.table[r.value].owner.userID == user
    ensures r.None? ==> forall h :: h in s.table ==> !(s.table[h].id == id && s.table[h].owner.userID == user)
  {
    if h :| h in s.table && s.table[h].id == id && s.table[h].owner.userID == user then Some(h) else None
  }

  /** handleValidateAPIKey: revocation mark, then memory, then the table. */
  function Answer(s: System, hash: string, at: int): Option<Identity> {
    if hash == "" then None
    else if hash in s.revoked && at < s.revoked[hash] then None
    else if hash in s.memory then Some(s.memory[hash])
    else if hash in s.table then Some(s.table[hash].owner)
    else None
  }

  /** An answer from the table is still to be filled into memory. */
  function AfterQuery(s: System, flight: nat, hash: string, at: int): System {
    var a := Answer(s, hash, at);
    s.(flights := s.flights[flight := Flight(hash, a, at, a.Some? && hash !in s.memory)])
  }

  predicate Filling(s: System, flight: nat) { flight in s.flights && s.flights[flight].filling }

  function AfterFill(s: System, flight: nat): System {
    if Filling(s, flight) && s.flights[flight].owner.Some? then
      var f := s.flights[flight];
      s.(memory := s.memory[f.hash := f.owner.value], flights := s.flights[flight := f.(filling := false)])
    else s
  }

  /** The gateway caches a positive answer for sixty seconds from its arrival. */
  function AfterArrive(s: System, flight: nat, at: int): System {
    if flight !in s.flights || s.flights[flight].filling then s
    else
      var f := s.flights[flight];
      var t := s.(flights := s.flights - {flight});
      if f.owner.Some? then t.(cache := t.cache[f.hash := Entry(f.owner.value, at + CACHE_TTL)]) else t
  }

  predicate InCache(s: System, hash: string, at: int) { hash in s.cache && at <= s.cache[hash].expiresAt }

  function AfterCreate(s: System, user: string, role: string, id: string, hash: string): System {
    var owner := Identity(user, NormalRole(role));
    s.(table := s.table[hash := KeyRow(id, owner)], memory := s.memory[hash := owner])
  }

  function AfterDelete(s: System, hash: Option<string>, redis: bool, at: int): System {
    match hash
    case None => s
    case Some(h) =>
      s.(table := s.table - {h}, memory := s.memory - {h},
         revoked := if redis then s.revoked[h := at + REVOKED_TTL] else s.revoked)
  }

  ghost function Next(redis: bool, s: System, p: Step): System {
    match p
    case Create(user, role, id, hash, _) => AfterCreate(s, user, role, id, hash)
    case Delete(user, id, at) => AfterDelete(s, HashOf(s, user, id), redis, at)
    case Query(flight, hash, at) => AfterQuery(s, flight, hash, at)
    case Fill(flight, _) => AfterFill(s, flight)
    case Arrive(flight, at) => AfterArrive(s, flight, at)
    case RedisDrops(hash, _) => s.(revoked := s.revoked - {hash})
    case Restart(_) => s.(memory := map[], flights := map[])
  }

  ghost function After(redis: bool, run: seq<Step>): System {
    if run == [] then START else Next(redis, After(redis, run[..|run| - 1]), run[|run| - 1])
  }

  function Minted(run: seq<Step>): set<string> {
    if run == [] then {}
    else
      var n := |run| - 1;
      Minted(run[..n]) + if run[n].Create? then {run[n].hash} else {}
  }

  /** A fill that comes when the key it was answered for has been deleted. */
  predicate LateFill(s: System, p: Step) {
    p.Fill? && Filling(s, p.flight) && s.flights[p.flight].hash !in s.table
  }

  /** Answers reach the gateway within `delay` seconds. */
  predicate InTime(s: System, p: Step, delay: int) {
    p.Arrive? && p.flight in s.flights ==> p.at <= s.flights[p.flight].since + delay
  }

  /** Every minted key hash is new, and fills are late only if they may be. */
  ghost predicate Legal(redis: bool, run: seq<Step>, delay: int, late: bool) {
    run == [] || (
      var n := |run| - 1;
      var s := After(redis, run[..n]);
      && Legal(redis, run[..n], delay, late)
      && (run[n].Create? ==> run[n].hash !in Minted(run[..n]))
      && InTime(s, run[n], delay) && (late || !LateFill(s, run[n])))
  }

  // ---------------------------------------------------------------------------
  // What every run keeps
  // ---------------------------------------------------------------------------

  /** Row `owner` of `hash` was in the table when step k was taken. */
  ghost predicate RowAt(redis: bool, run: seq<Step>, k: int, hash: string, owner: Identity) {
    0 <= k < |run| && hash in After(redis, run[..k]).table && After(redis, run[..k]).table[hash].owner == owner
  }

  /** It was when some step at `from` or later was taken. */
  ghost predicate RowSince(redis: bool, run: seq<Step>, hash: string, owner: Identity, from: int) {
    exists k :: RowAt(redis, run, k, hash, owner) && run[k].at >= from
  }

  /** The memory copy repeats the table, a marked hash has no row and never will again, and what is still to be
      filled in is the row of its hash, if that has one. */
  ghost predicate Consistent(s: System, minted: set<string>) {
    && (forall h :: h in s.memory ==> h in s.table && s.table[h].owner == s.memory[h])
    && (forall h :: h in s.revoked ==> h !in s.table)
    && s.table.Keys + s.revoked.Keys <= minted
    && (forall i :: Filling(s, i) ==> Fitting(s, s.flights[i], minted))
  }

  ghost predicate Fitting(s: System, f: Flight, minted: set<string>) {
    f.hash in minted && (f.hash in s.table ==> f.owner == Some(s.table[f.hash].owner))
  }

  /** An answer on its way was a row when it was taken. */
  ghost predicate FlightJustified(redis: bool, run: seq<Step>, f: Flight) {
    f.owner.Some? ==> RowSince(redis, run, f.hash, f.owner.value, f.since)
  }

  /** So was an entry of the gateway's cache, when its answer was. */
  ghost predicate EntryJustified(redis: bool, run: seq<Step>, h: string, e: Entry, delay: int) {
    RowSince(redis, run, h, e.owner, e.expiresAt - CACHE_TTL - delay)
  }

  ghost predicate Justified(redis: bool, run: seq<Step>, delay: int) {
    var s := After(redis, run);
    && (forall i :: i in s.flights ==> FlightJustified(redis, run, s.flights[i]))
    && (forall h :: h in s.cache ==> EntryJustified(redis, run, h, s.cache[h], delay))
  }

  lemma RowSinceExtends(redis: bool, run: seq<Step>, hash: string, owner: Identity, from: int, less: int)
    requires run != [] && RowSince(redis, run[..|run| - 1], hash, owner, from) && less <= from
    ensures RowSince(redis, run, hash, owner, less)
  {
    var k :| RowAt(redis, run[..|run| - 1], k, hash, owner) && run[..|run| - 1][k].at >= from;
    assert run[..|run| - 1][..k] == run[..k];
    assert RowAt(redis, run, k, hash, owner);
  }

  lemma AnswerIsLookup(s: System, minted: set<string>, hash: string, at: int)
    requires Consistent(s, minted)
    ensures Answer(s, hash, at) == if hash != "" && hash in s.table then Some(s.table[hash].owner) else None
  {
  }

  lemma CreateConsistent(s: System, user: string, role: string, id: string, hash: string, minted: set<string>)
    requires Consistent(s, minted) && hash !in minted
    ensures Consistent(AfterCreate(s, user, role, id, hash), minted + {hash})
  {
    assert AfterCreate(s, user, role, id, hash).table.Keys == s.table.Keys + {hash};
  }

  lemma DeleteConsistent(s: System, hash: Option<string>, redis: bool, at: int, minted: set<string>)
    requires Consistent(s, minted) && (hash.Some? ==> hash.value in s.table)
    ensures Consistent(AfterDelete(s, hash, redis, at), minted)
  {
    var t := AfterDelete(s, hash, redis, at);
    assert t.table.Keys <= s.table.Keys && t.revoked.Keys <= s.revoked.Keys + s.table.Keys;
  }

  lemma FillConsistent(s: System, flight: nat, at: int, minted: set<string>)
    requires Consistent(s, minted) && !LateFill(s, Fill(flight, at))
    ensures Consistent(AfterFill(s, flight), minted)
  {
  }

  lemma QueryConsistent(s: System, flight: nat, hash: string, at: int, minted: set<string>)
    requires Consistent(s, minted)
    ensures Consistent(AfterQuery(s, flight, hash, at), minted)
  {
    AnswerIsLookup(s, minted, hash, at);
    hide Answer;
  }

  lemma StepConsistent(redis: bool, s: System, p: Step, minted: set<string>)
    requires Consistent(s, minted) && (p.Create? ==> p.hash !in minted) && !LateFill(s, p)
    ensures Consistent(Next(redis, s, p), minted + if p.Create? then {p.hash} else {})
  {
    hide Answer, HashOf, AfterCreate, AfterDelete, AfterQuery, AfterFill;
    assert minted + {} == minted;
    match p {
      case Create(user, role, id, hash, _) => CreateConsistent(s, user, role, id, hash, minted);
      case Delete(user, id, at) => DeleteConsistent(s, HashOf(s, user, id), redis, at, minted);
      case Query(flight, hash, at) => QueryConsistent(s, flight, hash, at, minted);
      case Fill(flight, at) => FillConsistent(s, flight, at, minted);
      case Arrive(_, _) =>
      case RedisDrops(_, _) => assert Next(redis, s, p).revoked.Keys <= s.revoked.Keys;
      case Restart(_) =>
    }
  }

  /** What is new in the flights comes from the step's own query. */
  lemma FlightsComeFrom(redis: bool, s: System, p: Step, i: nat)
    requires i in Next(redis, s, p).flights
    ensures var f := Next(redis, s, p).flights[i];
      || (i in s.flights && f.(filling := false) == s.flights[i].(filling := false))
      || (p.Query? && f.owner == Answer(s, f.hash, p.at) && f.since == p.at)
  {
    hide HashOf, Answer;
  }

  /** What is new in the cache comes from the step's own arrival. */
  lemma EntriesComeFrom(redis: bool, s: System, p: Step, h: string)
    requires h in Next(redis, s, p).cache
    ensures var e := Next(redis, s, p).cache[h];
      || (h in s.cache && e == s.cache[h])
      || (p.Arrive? && p.flight in s.flights && s.flights[p.flight].hash == h &&
          s.flights[p.flight].owner == Some(e.owner) && e.expiresAt == p.at + CACHE_TTL)
  {
    hide HashOf, Answer;
  }

  lemma FlightKeeps(redis: bool, run: seq<Step>, delay: int, i: nat)
    requires run != [] && Justified(redis, run[..|run| - 1], delay)
    requires Consistent(After(redis, run[..|run| - 1]), Minted(run[..|run| - 1]))
    requires i in After(redis, run).flights
    ensures FlightJustified(redis, run, After(redis, run).flights[i])
  {
    var n := |run| - 1;
    var before, f := After(redis, run[..n]), After(redis, run).flights[i];
    assert After(redis, run) == Next(redis, before, run[n]);
    FlightsComeFrom(redis, before, run[n], i);
    hide After, Next, Consistent, Minted, RowSince, Answer;
    if i in before.flights && f.(filling := false) == before.flights[i].(filling := false) {
      if f.owner.Some? {
        assert FlightJustified(redis, run[..n], before.flights[i]);
        RowSinceExtends(redis, run, f.hash, f.owner.value, f.since, f.since);
      }
    } else {
      AnswerIsLookup(before, Minted(run[..n]), f.hash, f.since);
      if f.owner.Some? {
        RowNow(redis, run, f.hash, f.owner.value);
      }
    }
  }

  lemma RowNow(redis: bool, run: seq<Step>, hash: string, owner: Identity)
    requires run != [] && var s := After(redis, run[..|run| - 1]); hash in s.table && s.table[hash].owner == owner
    ensures RowSince(redis, run, hash, owner, run[|run| - 1].at)
  {
    hide After;
    assert RowAt(redis, run, |run| - 1, hash, owner);
  }

  lemma CacheKeeps(redis: bool, run: seq<Step>, delay: int, h: string)
    requires run != [] && Justified(redis, run[..|run| - 1], delay) && h in After(redis, run).cache
    requires InTime(After(redis, run[..|run| - 1]), run[|run| - 1], delay)
    ensures EntryJustified(redis, run, h, After(redis, run).cache[h], delay)
  {
    var n := |run| - 1;
    var before, p, e := After(redis, run[..n]), run[n], After(redis, run).cache[h];
    assert After(redis, run) == Next(redis, before, p);
    EntriesComeFrom(redis, before, p, h);
    hide After, Next, RowSince;
    var from := e.expiresAt - CACHE_TTL - delay;
    if h in before.cache && e == before.cache[h] {
      assert EntryJustified(redis, run[..n], h, e, delay);
      RowSinceExtends(redis, run, h, e.owner, from, from);
    } else {
      assert FlightJustified(redis, run[..n], before.flights[p.flight]);
      RowSinceExtends(redis, run, h, e.owner, before.flights[p.flight].since, from);
    }
  }

  lemma {:induction false} RunKeeps(redis: bool, run: seq<Step>, delay: int)
    requires Legal(redis, run, delay, false)
    ensures Consistent(After(redis, run), Minted(run)) && Justified(redis, run, delay)
  {
    hide Consistent, FlightJustified, EntryJustified, Next, InTime, LateFill;
    if run == [] {
      assert Consistent(START, {}) by { NothingYet(); }
    } else {
      var n := |run| - 1;
      RunKeeps(redis, run[..n], delay);
      StepConsistent(redis, After(redis, run[..n]), run[n], Minted(run[..n]));
      forall i | i in After(redis, run).flights ensures FlightJustified(redis, run, After(redis, run).flights[i]) {
        FlightKeeps(redis, run, delay, i);
      }
      forall h | h in After(redis, run).cache ensures EntryJustified(redis, run, h, After(redis, run).cache[h], delay) {
        CacheKeeps(redis, run, delay, h);
      }
    }
  }

  lemma NothingYet()
    ensures Consistent(START, {})
  {
  }

  /** In every run without late fills ArcAuth's answer is a plain table lookup: neither the memory copy nor a
      revocation mark, present or lost, ever changes it. */
  lemma ValidateIsLookup(redis: bool, run: seq<Step>, delay: int, hash: string, at: int)
    requires Legal(redis, run, delay, false) && hash != ""
    ensures var s := After(redis, run);
      Answer(s, hash, at) == if hash in s.table then Some(s.table[hash].owner) else None
  {
    RunKeeps(redis, run, delay);
  }

  // ---------------------------------------------------------------------------
  // What the history of a run says
  // ---------------------------------------------------------------------------

  /** No two keys are created under one id, which is the table's primary key. */
  ghost predicate DistinctIds(run: seq<Step>) {
    forall i, j :: 0 <= i < j < |run| && run[i].Create? && run[j].Create? ==> run[i].id != run[j].id
  }

  predicate Undoes(p: Step, create: Step) {
    create.Create? && p.Delete? && p.user == create.user && p.id == create.id
  }

  lemma {:induction false} MintedIsCreated(run: seq<Step>, hash: string)
    ensures hash in Minted(run) <==> exists i :: 0 <= i < |run| && run[i].Create? && run[i].hash == hash
  {
    if run != [] {
      MintedIsCreated(run[..|run| - 1], hash);
      assert forall i :: 0 <= i < |run| - 1 ==> run[..|run| - 1][i] == run[i];
    }
  }

  /** Only a creation puts a row in, and only a deletion takes one out. */
  lemma TableNext(redis: bool, s: System, p: Step, h: string)
    ensures var t := Next(redis, s, p);
      && (h in t.table <==>
            (p.Create? && p.hash == h) || (h in s.table && !(p.Delete? && HashOf(s, p.user, p.id) == Some(h))))
      && (h in t.table && !(p.Create? && p.hash == h) ==> t.table[h] == s.table[h])
      && (p.Create? && p.hash == h ==> t.table[h] == KeyRow(p.id, Identity(p.user, NormalRole(p.role))))
  {
    hide HashOf, Answer;
  }

  lemma {:induction false} RowsAreMinted(redis: bool, run: seq<Step>)
    ensures After(redis, run).table.Keys <= Minted(run)
  {
    hide HashOf, Next;
    if run != [] {
      RowsAreMinted(redis, run[..|run| - 1]);
      forall h | h in After(redis, run).table ensures h in Minted(run) {
        TableNext(redis, After(redis, run[..|run| - 1]), run[|run| - 1], h);
      }
    }
  }

  /** What the table has of a key is its creation, and that until its own deletion: with that id and user, and
      with the role asked for if it is admin, anon or sbx, else with api. */
  ghost predicate RowTold(redis: bool, run: seq<Step>, k: int) {
    0 <= k < |run| && run[k].Create? ==>
      var s, p := After(redis, run), run[k];
      && (p.hash in s.table <==> forall j :: k < j < |run| ==> !Undoes(run[j], p))
      && (p.hash in s.table ==>
            && s.table[p.hash].id == p.id && s.table[p.hash].owner.userID == p.user
            && s.table[p.hash].owner.role == (if p.role in {"admin", "anon", "sbx"} then p.role else "api"))
  }

  ghost predicate Told(redis: bool, run: seq<Step>) { forall k :: RowTold(redis, run, k) }

  /** Deleting by id and user finds the row of that very key. */
  lemma FoundByKey(redis: bool, run: seq<Step>, k: nat, p: Step)
    requires DistinctIds(run) && Told(redis, run)
    requires k < |run| && run[k].Create? && Undoes(p, run[k]) && run[k].hash in After(redis, run).table
    ensures HashOf(After(redis, run), p.user, p.id) == Some(run[k].hash)
  {
    var s := After(redis, run);
    assert RowTold(redis, run, k);
    var h := HashOf(s, p.user, p.id);
    assert h.Some?;
    RowsAreMinted(redis, run);
    MintedIsCreated(run, h.value);
    var i :| 0 <= i < |run| && run[i].Create? && run[i].hash == h.value;
    assert RowTold(redis, run, i);
  }

  lemma RowToldNext(redis: bool, run: seq<Step>, k: nat, delay: int, late: bool)
    requires run != [] && Legal(redis, run, delay, late) && DistinctIds(run[..|run| - 1])
    requires Told(redis, run[..|run| - 1])
    requires k < |run| && run[k].Create?
    ensures RowTold(redis, run, k)
  {
    hide Next, HashOf, Legal, Minted;
    var n := |run| - 1;
    var before, p := After(redis, run[..n]), run[n];
    LegalLast(redis, run, delay, late);
    TableNext(redis, before, p, run[k].hash);
    if k < n {
      assert RowTold(redis, run[..n], k) && run[..n][k] == run[k];
      MintedIsCreated(run[..n], run[k].hash);
      assert forall j :: k < j < n ==> run[..n][j] == run[j];
      if p.Delete? && run[k].hash in before.table {
        if Undoes(p, run[k]) {
          FoundByKey(redis, run[..n], k, p);
        }
      }
    }
  }

  lemma LegalLast(redis: bool, run: seq<Step>, delay: int, late: bool)
    requires run != [] && Legal(redis, run, delay, late)
    ensures Legal(redis, run[..|run| - 1], delay, late)
    ensures run[|run| - 1].Create? ==> run[|run| - 1].hash !in Minted(run[..|run| - 1])
  {
  }

  /** In every run, late fills included, the table is its history. */
  lemma {:induction false} TableIsHistory(redis: bool, run: seq<Step>, delay: int, late: bool)
    requires Legal(redis, run, delay, late) && DistinctIds(run)
    ensures Told(redis, run)
    ensures After(redis, run).table.Keys <= Minted(run)
  {
    hide RowTold, After, Legal;
    RowsAreMinted(redis, run);
    hide Minted;
    if run != [] {
      LegalLast(redis, run, delay, late);
      TableIsHistory(redis, run[..|run| - 1], delay, late);
      forall k: nat | k < |run| && run[k].Create? ensures RowTold(redis, run, k) {
        RowToldNext(redis, run, k, delay, late);
      }
    }
    forall k ensures RowTold(redis, run, k) {
      if !(0 <= k < |run| && run[k].Create?) {
        assert RowTold(redis, run, k) by { NotCreated(redis, run, k); }
      }
    }
  }

  lemma NotCreated(redis: bool, run: seq<Step>, k: int)
    requires !(0 <= k < |run| && run[k].Create?)
    ensures RowTold(redis, run, k)
  {
  }

  /** Memory is the whole table, and no answer is still to be filled in. */
  ghost predicate Complete(s: System) {
    && s.memory.Keys == s.table.Keys && (forall h :: h in s.table ==> s.memory[h] == s.table[h].owner)
    && forall i :: i in s.flights ==> !s.flights[i].filling
  }

  /** As long as ArcAuth is not restarted, a creation goes into memory at once and a deletion takes it out, so there
      is never anything to fill in: a late fill takes a restart. */
  lemma {:induction false} LateFillTakesRestart(redis: bool, run: seq<Step>)
    requires forall i :: 0 <= i < |run| ==> !run[i].Restart?
    ensures Complete(After(redis, run))
    ensures forall p :: !LateFill(After(redis, run), p)
  {
    hide Next, Complete;
    if run == [] {
      assert Complete(START) by { CompleteAtFirst(); }
    } else {
      var n := |run| - 1;
      LateFillTakesRestart(redis, run[..n]);
      StepCompletes(redis, After(redis, run[..n]), run[n]);
    }
    assert forall p :: !LateFill(After(redis, run), p) by { CompleteFillsNothing(After(redis, run)); }
  }

  lemma CompleteAtFirst()
    ensures Complete(START)
  {
  }

  lemma CompleteFillsNothing(s: System)
    requires Complete(s)
    ensures forall p :: !LateFill(s, p)
  {
  }

  lemma StepCompletes(redis: bool, s: System, p: Step)
    requires Complete(s) && !p.Restart?
    ensures Complete(Next(redis, s, p))
  {
    if p.Query? && p.hash in s.table {
      assert p.hash in s.memory.Keys;
    }
    if p.Delete? {
      assert HashOf(s, p.user, p.id).Some? ==> HashOf(s, p.user, p.id).value in s.table;
      hide HashOf;
    }
  }

  /** Step k deleted the row of `hash`. */
  ghost predicate DeletedAt(redis: bool, run: seq<Step>, k: int, hash: string) {
    && 0 <= k < |run| && run[k].Delete?
    && hash in After(redis, run[..k]).table && hash !in After(redis, run[..k + 1]).table
  }

  /** Redis has not lost the mark of `hash` since. */
  predicate MarkKept(run: seq<Step>, k: nat, hash: string) {
    forall j :: k < j < |run| ==> !(run[j].RedisDrops? && run[j].hash == hash)
  }

  lemma MarkNext(s: System, p: Step, hash: string)
    requires !(p.RedisDrops? && p.hash == hash)
    ensures var t := Next(true, s, p);
      if p.Delete? && HashOf(s, p.user, p.id) == Some(hash) then
        hash in t.revoked && t.revoked[hash] == p.at + 86400
      else hash in s.revoked ==> hash in t.revoked && t.revoked[hash] == s.revoked[hash]
  {
    hide HashOf, Answer;
  }

  lemma {:induction false} MarkStays(run: seq<Step>, k: nat, hash: string, delay: int, late: bool)
    requires Legal(true, run, delay, late) && DeletedAt(true, run, k, hash) && MarkKept(run, k, hash)
    ensures var s := After(true, run);
      && hash in Minted(run) && hash !in s.table && hash in s.revoked && s.revoked[hash] == run[k].at + 86400
    decreases |run|
  {
    hide Next, Legal, HashOf;
    var n := |run| - 1;
    LegalLast(true, run, delay, late);
    TableNext(true, After(true, run[..n]), run[n], hash);
    MarkNext(After(true, run[..n]), run[n], hash);
    if k < n {
      assert run[..n][..k] == run[..k] && run[..n][..k + 1] == run[..k + 1];
      assert MarkKept(run[..n], k, hash);
      MarkStays(run[..n], k, hash, delay, late);
    } else {
      assert run[..k + 1] == run;
      RowsAreMinted(true, run[..n]);
    }
  }

  /** The mark of a deletion, in every run, late fills included: for twenty-four hours from the deletion, as long as
      Redis keeps it and answers, the key is refused, whatever memory says. */
  lemma RevokedForADay(run: seq<Step>, k: nat, hash: string, at: int, delay: int, late: bool)
    requires Legal(true, run, delay, late) && DeletedAt(true, run, k, hash) && MarkKept(run, k, hash)
    ensures at < run[k].at + 86400 ==> Answer(After(true, run), hash, at) == None
  {
    hide Legal, After;
    MarkStays(run, k, hash, delay, late);
  }

  // ---------------------------------------------------------------------------
  // How long a deleted key lives
  // ---------------------------------------------------------------------------

  /** The gateway can let `owner` in at time `at`: from its cache, by an answer arriving then, or by one that
      it asks for then. */
  ghost predicate Admits(s: System, hash: string, at: int, owner: Identity, delay: int) {
    || (InCache(s, hash, at) && s.cache[hash].owner == owner)
    || (exists i :: i in s.flights && s.flights[i].hash == hash && s.flights[i].owner == Some(owner) &&
                    at <= s.flights[i].since + delay)
    || Answer(s, hash, at) == Some(owner)
  }

  /** Whoever the gateway lets in has a row in the table, or had one when a step was taken at most sixty seconds
      ago, plus what answers take. */
  lemma GatewayWithinAMinute(redis: bool, run: seq<Step>, hash: string, at: int, owner: Identity, delay: nat)
    requires Legal(redis, run, delay, false) && Admits(After(redis, run), hash, at, owner, delay)
    ensures var s := After(redis, run);
      || (hash in s.table && s.table[hash].owner == owner)
      || RowSince(redis, run, hash, owner, at - 60 - delay)
  {
    hide RowSince, After;
    RunKeeps(redis, run, delay);
    var s := After(redis, run);
    if InCache(s, hash, at) && s.cache[hash].owner == owner {
      SinceEarlier(redis, run, hash, owner, s.cache[hash].expiresAt - CACHE_TTL - delay, at - CACHE_TTL - delay);
    } else if i :| i in s.flights && s.flights[i].hash == hash && s.flights[i].owner == Some(owner) &&
                   at <= s.flights[i].since + delay {
      SinceEarlier(redis, run, hash, owner, s.flights[i].since, at - CACHE_TTL - delay);
    } else {
      AnswerIsLookup(s, Minted(run), hash, at);
    }
  }

  lemma SinceEarlier(redis: bool, run: seq<Step>, hash: string, owner: Identity, from: int, less: int)
    requires RowSince(redis, run, hash, owner, from) && less <= from
    ensures RowSince(redis, run, hash, owner, less)
  {
  }

  /** The key has no row, and every moment at which it had one is more than `wait` seconds ago. */
  ghost predicate Gone(redis: bool, run: seq<Step>, hash: string, at: int, wait: int) {
    && hash !in After(redis, run).table
    && (forall i :: 0 <= i < |run| ==> run[i].at <= at)
    && (forall k :: 0 <= k < |run| && hash in After(redis, run[..k]).table ==> run[k].at < at - wait)
  }

  /** So without late fills a deleted key is refused by the gateway a minute and an answer's time after it was
      deleted. */
  lemma DeletedKeyDies(redis: bool, run: seq<Step>, hash: string, at: int, owner: Identity, delay: nat)
    requires Legal(redis, run, delay, false) && Gone(redis, run, hash, at, 60 + delay)
    ensures !Admits(After(redis, run), hash, at, owner, delay)
  {
    GoneIsNotSince(redis, run, hash, at, owner, CACHE_TTL + delay);
    hide RowSince, After;
    if Admits(After(redis, run), hash, at, owner, delay) {
      GatewayWithinAMinute(redis, run, hash, at, owner, delay);
    }
  }

  lemma GoneIsNotSince(redis: bool, run: seq<Step>, hash: string, at: int, owner: Identity, wait: int)
    requires Gone(redis, run, hash, at, wait)
    ensures !RowSince(redis, run, hash, owner, at - wait)
  {
    hide After;
  }

  lemma GoneLonger(redis: bool, run: seq<Step>, hash: string, at: int, wait: int, less: int)
    requires Gone(redis, run, hash, at, wait) && less <= wait
    ensures Gone(redis, run, hash, at, less)
  {
    hide After;
  }

  /** A key deleted while its answer is on the way: cached when that arrives, it is let in for a minute more. */
  function Cached(delay: nat): seq<Step> {
    [Create("u", "api", "i", "h", 0), Query(0, "h", 0), Delete("u", "i", 0), Arrive(0, delay)]
  }

  /** A key deleted between its query and its fill is back in memory, for good. */
  function Revived(): seq<Step> {
    [Create("u", "api", "i", "h", 0), Restart(0), Query(0, "h", 0), Delete("u", "i", 0), Fill(0, 0)]
  }

  lemma Extend(redis: bool, run: seq<Step>, p: Step, delay: int, late: bool) returns (longer: seq<Step>)
    requires Legal(redis, run, delay, late) && (p.Create? ==> p.hash !in Minted(run))
    requires InTime(After(redis, run), p, delay) && (late || !LateFill(After(redis, run), p))
    ensures longer == run + [p] && Legal(redis, longer, delay, late)
    ensures After(redis, longer) == Next(redis, After(redis, run), p)
  {
    longer := run + [p];
    assert longer[..|longer| - 1] == run;
  }

  lemma Empty(redis: bool, delay: int, late: bool)
    ensures Legal(redis, [], delay, late) && After(redis, []) == START && Minted([]) == {}
  {
  }

  const USER := Identity("u", "api")

  /** The key's row goes, whatever else the state is. */
  lemma OneRowGoes(redis: bool, s: System)
    requires s.table == map["h" := KeyRow("i", USER)]
    ensures Next(redis, s, Delete("u", "i", 0)) == AfterDelete(s, Some("h"), redis, 0)
  {
    assert s.table["h"] == KeyRow("i", USER);
    assert HashOf(s, "u", "i") == Some("h");
  }

  lemma GoneFrom(redis: bool, run: seq<Step>, m: nat, at: int, wait: int)
    requires "h" !in After(redis, run).table && forall i :: 0 <= i < |run| ==> run[i].at <= at
    requires forall k :: 0 <= k < |run| ==>
      if k < m then run[k].at < at - wait else "h" !in After(redis, run[..k]).table
    ensures Gone(redis, run, "h", at, wait)
  {
    hide After;
  }

  lemma CachedRun(redis: bool, delay: nat, late: bool)
    ensures Legal(redis, Cached(delay), delay, late)
    ensures "h" !in After(redis, Cached(delay)[..3]).table && "h" !in After(redis, Cached(delay)).table
    ensures After(redis, Cached(delay)).cache == map["h" := Entry(USER, CACHE_TTL + delay)]
  {
    hide Legal, After, Minted, HashOf;
    Empty(redis, delay, late);
    var run := Cached(delay);
    var r1 := Extend(redis, [], run[0], delay, late);
    var rows, memory := map["h" := KeyRow("i", USER)], map["h" := USER];
    assert After(redis, r1) == System(rows, memory, map[], map[], map[]);
    var r2 := Extend(redis, r1, run[1], delay, late);
    var flights := map[0 := Flight("h", Some(USER), 0, false)];
    assert After(redis, r2) == System(rows, memory, map[], map[], flights);
    OneRowGoes(redis, After(redis, r2));
    var r3 := Extend(redis, r2, run[2], delay, late);
    assert After(redis, r3).table == map[] && After(redis, r3).cache == map[] && After(redis, r3).flights == flights;
    var r4 := Extend(redis, r3, run[3], delay, late);
    assert r4 == run && run[..3] == r3;
  }

  lemma CachedAdmits(redis: bool, delay: nat, late: bool)
    ensures Legal(redis, Cached(delay), delay, late)
    ensures Gone(redis, Cached(delay), "h", CACHE_TTL + delay, CACHE_TTL + delay - 1)
    ensures Admits(After(redis, Cached(delay)), "h", CACHE_TTL + delay, USER, delay)
  {
    hide Legal, After, Gone;
    CachedRun(redis, delay, late);
    GoneFrom(redis, Cached(delay), 3, CACHE_TTL + delay, CACHE_TTL + delay - 1);
  }

  lemma RevivedAdmits(redis: bool, delay: nat, wait: int)
    ensures Legal(redis, Revived(), delay, true)
    ensures var at := REVOKED_TTL + Max(wait, 0) + 1;
      && Gone(redis, Revived(), "h", at, wait)
      && Answer(After(redis, Revived()), "h", at) == Some(USER)
    ensures DeletedAt(redis, Revived(), 3, "h") && Answer(After(redis, Revived()), "h", 86400) == Some(USER)
  {
    hide Legal, After, Minted, HashOf, Gone;
    Empty(redis, delay, true);
    var run := Revived();
    var r1 := Extend(redis, [], run[0], delay, true);
    assert After(redis, r1).table == map["h" := KeyRow("i", USER)];
    var r2 := Extend(redis, r1, run[1], delay, true);
    var r3 := Extend(redis, r2, run[2], delay, true);
    OneRowGoes(redis, After(redis, r3));
    var r4 := Extend(redis, r3, run[3], delay, true);
    var r5 := Extend(redis, r4, run[4], delay, true);
    assert r5 == run && run[..4] == r4 && run[..3] == r3;
    GoneFrom(redis, run, 4, REVOKED_TTL + Max(wait, 0) + 1, wait);
  }

  /** Step k deleted the key, Redis kept its mark, and it is less than `wait` seconds later. */
  ghost predicate Recently(run: seq<Step>, k: nat, hash: string, at: int, wait: int) {
    DeletedAt(true, run, k, hash) && MarkKept(run, k, hash) && at < run[k].at + wait
  }

  /** It lasts a day and no longer: deleted keys are refused for a given time, in all runs that keep their marks,
      exactly if that is at most twenty-four hours. */
  lemma RevokedForADayIff(delay: nat, wait: int)
    ensures (forall run: seq<Step>, k: nat, hash, at ::
              Legal(true, run, delay, true) && Recently(run, k, hash, at, wait) ==>
              Answer(After(true, run), hash, at) == None)
      <==> wait <= 86400
  {
    hide Legal, After, Answer, DeletedAt;
    if wait <= 86400 {
      forall run: seq<Step>, k: nat, hash, at | Legal(true, run, delay, true) && Recently(run, k, hash, at, wait)
        ensures Answer(After(true, run), hash, at) == None
      {
        RevokedForADay(run, k, hash, at, delay, true);
      }
    } else {
      RevivedAdmits(true, delay, 0);
      assert Recently(Revived(), 3, "h", 86400, wait);
    }
  }

  /** ArcAuth's answer is the table's, in all runs, exactly when no fill may come after its key's deletion. */
  lemma ValidateIsLookupIff(redis: bool, delay: nat, late: bool)
    ensures (forall run, hash, at :: Legal(redis, run, delay, late) && hash != "" ==>
              Answer(After(redis, run), hash, at) ==
                if hash in After(redis, run).table then Some(After(redis, run).table[hash].owner) else None)
      <==> !late
  {
    hide Legal, After, Answer;
    if late {
      RevivedAdmits(redis, delay, 0);
    } else {
      forall run, hash, at | Legal(redis, run, delay, late) && hash != ""
        ensures Answer(After(redis, run), hash, at) ==
          if hash in After(redis, run).table then Some(After(redis, run).table[hash].owner) else None
      {
        ValidateIsLookup(redis, run, delay, hash, at);
      }
    }
  }

  /** Keys are refused `wait` seconds after they lost their row, in all runs, exactly when that is a minute and
      an answer's time, and no fill may come after its key's deletion. */
  lemma DeletedKeyDiesIff(redis: bool, delay: nat, late: bool, wait: int)
    ensures (forall run, hash, at, owner :: Legal(redis, run, delay, late) && Gone(redis, run, hash, at, wait) ==>
              !Admits(After(redis, run), hash, at, owner, delay))
      <==> wait >= 60 + delay && !late
  {
    hide Legal, After, Gone, Admits;
    if late {
      RevivedAdmits(redis, delay, wait);
      var at := REVOKED_TTL + Max(wait, 0) + 1;
      AnsweredIsAdmitted(After(redis, Revived()), at, delay);
    } else if wait < CACHE_TTL + delay {
      CachedAdmits(redis, delay, late);
      GoneLonger(redis, Cached(delay), "h", CACHE_TTL + delay, CACHE_TTL + delay - 1, wait);
    } else {
      forall run, hash, at, owner | Legal(redis, run, delay, late) && Gone(redis, run, hash, at, wait)
        ensures !Admits(After(redis, run), hash, at, owner, delay)
      {
        GoneLonger(redis, run, hash, at, wait, CACHE_TTL + delay);
        DeletedKeyDies(redis, run, hash, at, owner, delay);
      }
    }
  }

  lemma AnsweredIsAdmitted(s: System, at: int, delay: int)
    requires Answer(s, "h", at) == Some(USER)
    ensures Admits(s, "h", at, USER, delay)
  {
  }

  // ---------------------------------------------------------------------------
  // The handlers as the Go code has them
  // ---------------------------------------------------------------------------

  class KeyService {
    const redis: bool
    var table: map<string, KeyRow>
    var memoryAPIKeys: map<string, Identity>
    var revoked: map<string, int>

    /** The fields are those of the specification state; without Redis nothing is ever marked. */
    ghost predicate Matches(s: System)
      reads this
    {
      table == s.table && memoryAPIKeys == s.memory && revoked == s.revoked && (!redis ==> revoked == map[])
    }

    constructor (redis: bool)
      ensures this.redis == redis && Matches(START)
    {
      this.redis, table, memoryAPIKeys, revoked := redis, map[], map[], map[];
    }

    /** The insert fails on a hash already in the table: the column is unique. */
    method HandleCreateAPIKey(user: string, role: string, id: string, hash: string, ghost s: System) returns (ok: bool)
      requires Matches(s)
      modifies this
      ensures ok <==> hash !in s.table
      ensures Matches(if ok then AfterCreate(s, user, role, id, hash) else s)
    {
      var r := "api";
      if role == "admin" || role == "anon" || role == "sbx" {
        r := role;
      }
      if hash in table {
        return false;
      }
      table := table[hash := KeyRow(id, Identity(user, r))];
      memoryAPIKeys := memoryAPIKeys[hash := Identity(user, r)];
      return true;
    }

    method HandleDeleteAPIKey(user: string, id: string, at: int, ghost s: System)
      returns (found: bool, ghost hash: Option<string>)
      requires Matches(s)
      requires forall g, h :: g in s.table && h in s.table && s.table[g].id == s.table[h].id ==> g == h
      modifies this
      ensures found == hash.Some? && hash == HashOf(s, user, id)
      ensures Matches(AfterDelete(s, hash, redis, at))
    {
      if h :| h in table && table[h].id == id && table[h].owner.userID == user {
        table := table - {h};
        memoryAPIKeys := memoryAPIKeys - {h};
        if redis {
          revoked := revoked[h := at + REVOKED_TTL];
        }
        return true, Some(h);
      }
      return false, None;
    }

    /** The query and the fill of one validation, under the number `flight`. */
    method HandleValidateAPIKey(hash: string, at: int, ghost flight: nat, ghost s: System) returns (r: Option<Identity>)
      requires Matches(s)
      modifies this
      ensures r == Answer(s, hash, at) && Matches(AfterFill(AfterQuery(s, flight, hash, at), flight))
    {
      if hash == "" {
        return None;
      }
      if redis && hash in revoked && at < revoked[hash] {
        return None;
      }
      if hash in memoryAPIKeys {
        return Some(memoryAPIKeys[hash]);
      }
      if hash !in table {
        return None;
      }
      memoryAPIKeys := memoryAPIKeys[hash := table[hash].owner];
      return Some(table[hash].owner);
    }
  }

  class KeyGateway {
    const service: KeyService
    var keyCache: map<string, Entry>

    constructor (service: KeyService)
      ensures this.service == service && keyCache == map[]
    {
      this.service, keyCache := service, map[];
    }

    /** The cache is asked at `at`; else ArcAuth answers at `served`, and its answer is back at `done`. */
    method ValidateAPIKey(hash: string, at: int, served: int, done: int, reply: Reply,
                          ghost flight: nat, ghost s: System)
      returns (r: Option<Identity>)
      requires service.Matches(s) && keyCache == s.cache
      modifies this, service
      ensures var filled := AfterFill(AfterQuery(s, flight, hash, served), flight);
        if InCache(s, hash, at) then r == Some(s.cache[hash].owner) && service.Matches(s) && keyCache == s.cache
        else if reply == Unserved then r == None && service.Matches(s) && keyCache == s.cache
        else if reply == Lost then r == None && service.Matches(filled) && keyCache == s.cache
        else
          && r == Answer(s, hash, served) && service.Matches(AfterArrive(filled, flight, done))
          && keyCache == AfterArrive(filled, flight, done).cache
    {
      if hash in keyCache && !(at > keyCache[hash].expiresAt) {
        return Some(keyCache[hash].owner);
      }
      if reply == Unserved {
        return None;
      }
      r := service.HandleValidateAPIKey(hash, served, flight, s);
      if reply == Lost {
        return None;
      }
      if r.Some? {
        keyCache := keyCache[hash := Entry(r.value, done + CACHE_TTL)];
      }
    }
  }
}
