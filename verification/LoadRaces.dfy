/** Concurrent loads, deployments, deletions and evictions over one site cache, as a state machine.
    A deployment or deletion is two steps, the bucket write and the cache invalidation. */
module LoadRaces {
  import opened Prelude
  import opened LruModel
  import opened SiteLoader
  import LruHistory
  import LruInclusion

  /** Where a call of loadSiteCache stands. From Checking to Leaving it holds loadMu. */
  datatype Pc =
    | Looking(name: string)
    | Waiting(name: string)
    | Checking(name: string)
    | Downloading(name: string)
    | Holding(name: string, zip: Object)
    | Leaving(result: Option<Site>)
    | Finished(result: Option<Site>)

  datatype World = World(lib: Lib, capacity: int, bucket: map<string, Object>)

  /** `pending` counts, per site, bucket writes whose invalidation is still to come. */
  datatype System = System(
    bucket: map<string, Object>,
    cache: seq<Entry<Site>>,
    calls: map<nat, Pc>,
    mutex: Option<nat>,
    pending: map<string, nat>)

  datatype Step =
    | Begin(c: nat, name: string)
    | Look(c: nat, now: int)
    | Lock(c: nat)
    | Check(c: nat, now: int)
    | Download(c: nat, ok: bool)
    | Store(c: nat, now: int)
    | Unlock(c: nat)
    | Upload(name: string, zip: Object)
    | Remove(key: string)
    | Clear(name: string)
    | Sweep(now: int)

  function Start(w: World): System { System(w.bucket, [], map[], None, map[]) }

  function PendingOf(s: System, name: string): nat { if name in s.pending then s.pending[name] else 0 }

  predicate Enabled(s: System, p: Step) {
    match p
    case Begin(c, _) => c !in s.calls
    case Look(c, _) => c in s.calls && s.calls[c].Looking?
    case Lock(c) => c in s.calls && s.calls[c].Waiting? && s.mutex == None
    case Check(c, _) => c in s.calls && s.calls[c].Checking?
    case Download(c, _) => c in s.calls && s.calls[c].Downloading?
    case Store(c, _) => c in s.calls && s.calls[c].Holding?
    case Unlock(c) => c in s.calls && s.calls[c].Leaving?
    case Upload(name, _) => name != ""
    case Remove(key) => Deletable(key)
    case Clear(name) => PendingOf(s, name) > 0
    case Sweep(_) => true
  }

  function Goto(s: System, c: nat, pc: Pc): System { s.(calls := s.calls[c := pc]) }

  /** The site a Store step puts into the cache, if the archive can be unpacked. */
  function Built(w: World, s: System, c: nat): Option<Site> {
    if c in s.calls && s.calls[c].Holding? then BuildObject(w.lib, s.calls[c].zip) else None
  }

  function Next(w: World, s: System, p: Step): System
    requires Enabled(s, p)
  {
    match p
    case Begin(c, name) => Goto(s, c, Looking(name))
    case Look(c, now) =>
      var name := s.calls[c].name;
      var hit := Lookup(s.cache, name);
      Goto(s, c, if hit.Some? then Finished(hit) else Waiting(name)).(cache := AfterGet(s.cache, name, now))
    case Lock(c) => Goto(s, c, Checking(s.calls[c].name)).(mutex := Some(c))
    case Check(c, now) =>
      var name := s.calls[c].name;
      var hit := Lookup(s.cache, name);
      Goto(s, c, if hit.Some? then Leaving(hit) else Downloading(name)).(cache := AfterGet(s.cache, name, now))
    case Download(c, ok) =>
      var name := s.calls[c].name;
      Goto(s, c, if ok && SiteKey(name) in s.bucket then Holding(name, s.bucket[SiteKey(name)]) else Leaving(None))
    case Store(c, now) =>
      var name, site := s.calls[c].name, Built(w, s, c);
      Goto(s, c, Leaving(site)).(
        cache := if site.Some? then AfterPut(w.capacity, s.cache, name, site.value, now) else s.cache)
    case Unlock(c) => Goto(s, c, Finished(s.calls[c].result)).(mutex := None)
    case Upload(name, zip) =>
      s.(bucket := s.bucket[SiteKey(name) := zip], pending := s.pending[name := PendingOf(s, name) + 1])
    case Remove(key) =>
      s.(bucket := s.bucket - {key}, pending := s.pending[SiteName(key) := PendingOf(s, SiteName(key)) + 1])
    case Clear(name) => s.(cache := Without(s.cache, name), pending := s.pending[name := PendingOf(s, name) - 1])
    case Sweep(now) => s.(cache := AfterExpiry(s.cache, IDLE_TTL, now))
  }

  ghost predicate Legal(w: World, run: seq<Step>)
    decreases |run|, 0
  {
    run == [] || (Legal(w, run[..|run| - 1]) && Enabled(After(w, run[..|run| - 1]), run[|run| - 1]))
  }

  ghost function After(w: World, run: seq<Step>): System
    requires Legal(w, run)
    decreases |run|, 1
  {
    if run == [] then Start(w) else Next(w, After(w, run[..|run| - 1]), run[|run| - 1])
  }

  // ---------------------------------------------------------------------------
  // One loader at a time, one load per removal
  // ---------------------------------------------------------------------------

  predicate InLock(pc: Pc) { pc.Checking? || pc.Downloading? || pc.Holding? || pc.Leaving? }

  predicate Fetching(pc: Pc) { pc.Downloading? || pc.Holding? }

  /** The mutex is held by exactly the call between Lock and Unlock, and the site it is fetching is
      not in the cache. */
  ghost predicate Locked(s: System) {
    && (forall c :: c in s.calls ==> (InLock(s.calls[c]) <==> s.mutex == Some(c)))
    && (s.mutex.Some? ==> s.mutex.value in s.calls)
    && (forall c :: c in s.calls && Fetching(s.calls[c]) ==> !Has(s.cache, s.calls[c].name))
  }

  lemma HasAfterFilter<V(!new)>(keep: Entry<V> -> bool, s: seq<Entry<V>>, name: string)
    ensures Has(Filter(keep, s), name) ==> Has(s, name)
  {
    var r := Filter(keep, s);
    if Has(r, name) {
      var i :| 0 <= i < |r| && r[i].key == name;
      assert r[i] in s;
    }
  }

  lemma GoneWithout<V(!new)>(s: seq<Entry<V>>, key: string)
    ensures !Has(Without(s, key), key)
  {
    var r := Without(s, key);
    forall i | 0 <= i < |r| ensures r[i].key != key {
      assert r[i] in r;
    }
  }

  lemma HasAfterGet<V(!new)>(s: seq<Entry<V>>, key: string, now: int, name: string)
    ensures Has(AfterGet(s, key, now), name) <==> Has(s, name)
  {
    if Has(s, key) {
      var r, less := AfterGet(s, key, now), Without(s, key);
      HasAfterFilter(OtherKey(key), s, name);
      assert r[0].key == key && r[1..] == less;
      if Has(r, name) && name != key {
        var i :| 0 <= i < |r| && r[i].key == name;
        assert less[i - 1].key == name;
      }
      if Has(s, name) && name != key {
        var i :| 0 <= i < |s| && s[i].key == name;
        assert s[i] in less;
        var j :| 0 <= j < |less| && less[j] == s[i];
        assert r[j + 1].key == name;
      }
    }
  }

  /** The cache just before a step trims or filters it: a Store step first adds its site. */
  function Offered(w: World, s: System, p: Step): seq<Entry<Site>> {
    if p.Store? && Built(w, s, p.c).Some? then [Entry(s.calls[p.c].name, Built(w, s, p.c).value, p.now)] + s.cache
    else s.cache
  }

  predicate Loads(w: World, s: System, p: Step, name: string) {
    p.Store? && Built(w, s, p.c).Some? && s.calls[p.c].name == name
  }

  /** The step removes the site from the cache: by invalidation, expiry or capacity. */
  predicate Removes(w: World, s: System, p: Step, name: string)
    requires Enabled(s, p)
  {
    Has(Offered(w, s, p), name) && !Has(Next(w, s, p).cache, name)
  }

  lemma OfferedHas(w: World, s: System, p: Step, name: string)
    ensures Has(Offered(w, s, p), name) <==> Has(s.cache, name) || Loads(w, s, p, name)
  {
    if p.Store? && Built(w, s, p.c).Some? {
      var o := Offered(w, s, p);
      assert o[0].key == s.calls[p.c].name && o[1..] == s.cache;
      if Has(s.cache, name) {
        var i :| 0 <= i < |s.cache| && s.cache[i].key == name;
        assert o[i + 1].key == name;
      }
    }
  }

  /** No step brings a site into the cache except a load of it. */
  lemma NothingAppears(w: World, s: System, p: Step, name: string)
    requires Enabled(s, p) && Locked(s)
    ensures Has(Next(w, s, p).cache, name) ==> Has(Offered(w, s, p), name)
    ensures p.Look? || p.Check? ==> (Has(Next(w, s, p).cache, name) <==> Has(s.cache, name))
  {
    match p {
      case Look(c, now) => HasAfterGet(s.cache, s.calls[c].name, now, name);
      case Check(c, now) => HasAfterGet(s.cache, s.calls[c].name, now, name);
      case Store(c, now) => assert !Has(s.cache, s.calls[c].name);
      case Clear(n) => HasAfterFilter(OtherKey(n), s.cache, name);
      case Sweep(now) => HasAfterFilter(FreshAt(IDLE_TTL, now), s.cache, name);
      case _ =>
    }
  }

  lemma StepKeepsLocked(w: World, s: System, p: Step)
    requires Enabled(s, p) && Locked(s)
    ensures Locked(Next(w, s, p))
  {
    var t := Next(w, s, p);
    forall c | c in t.calls && Fetching(t.calls[c]) ensures !Has(t.cache, t.calls[c].name) {
      NothingAppears(w, s, p, t.calls[c].name);
      OfferedHas(w, s, p, t.calls[c].name);
    }
  }

  lemma {:induction false} RunKeepsLocked(w: World, run: seq<Step>)
    requires Legal(w, run)
    ensures Locked(After(w, run))
  {
    if run != [] {
      RunKeepsLocked(w, run[..|run| - 1]);
      StepKeepsLocked(w, After(w, run[..|run| - 1]), run[|run| - 1]);
    }
  }

  /** At most one download is in flight. */
  lemma OneDownload(w: World, run: seq<Step>, c: nat, d: nat)
    requires Legal(w, run) && c in After(w, run).calls && d in After(w, run).calls
    requires Fetching(After(w, run).calls[c]) && Fetching(After(w, run).calls[d])
    ensures c == d
  {
    RunKeepsLocked(w, run);
  }

  ghost function LoadCount(w: World, run: seq<Step>, name: string): nat
    requires Legal(w, run)
  {
    if run == [] then 0
    else
      var n := |run| - 1;
      LoadCount(w, run[..n], name) + if Loads(w, After(w, run[..n]), run[n], name) then 1 else 0
  }

  ghost function RemovalCount(w: World, run: seq<Step>, name: string): nat
    requires Legal(w, run)
  {
    if run == [] then 0
    else
      var n := |run| - 1;
      RemovalCount(w, run[..n], name) + if Removes(w, After(w, run[..n]), run[n], name) then 1 else 0
  }

  /** In every run, the completed loads of a site are its removals from the cache, plus one if it is
      cached now. So between two removals at most one load completes. */
  lemma {:induction false} LoadsMatchRemovals(w: World, run: seq<Step>, name: string)
    requires Legal(w, run)
    ensures LoadCount(w, run, name) == RemovalCount(w, run, name) + if Has(After(w, run).cache, name) then 1 else 0
  {
    if run != [] {
      var n := |run| - 1;
      var s, p := After(w, run[..n]), run[n];
      LoadsMatchRemovals(w, run[..n], name);
      RunKeepsLocked(w, run[..n]);
      NothingAppears(w, s, p, name);
      OfferedHas(w, s, p, name);
    }
  }

  /** So over any stretch of a run, a site is loaded at most once more than it is removed. */
  lemma LoadsBetween(w: World, before: seq<Step>, more: seq<Step>, name: string)
    requires Legal(w, before + more) && Legal(w, before)
    ensures LoadCount(w, before + more, name) - LoadCount(w, before, name)
      <= RemovalCount(w, before + more, name) - RemovalCount(w, before, name) + 1
  {
    LoadsMatchRemovals(w, before, name);
    LoadsMatchRemovals(w, before + more, name);
  }

  // ---------------------------------------------------------------------------
  // What is cached is what is stored
  // ---------------------------------------------------------------------------

  /** The site is what the object now stored under the name unpacks to. */
  predicate Current(w: World, s: System, name: string, site: Option<Site>) {
    SiteKey(name) in s.bucket && BuildObject(w.lib, s.bucket[SiteKey(name)]) == site
  }

  /** Unless an invalidation is still to come, cached sites and the download in flight are current. */
  ghost predicate Fresh(w: World, s: System) {
    && (forall e :: e in s.cache && PendingOf(s, e.key) == 0 ==> Current(w, s, e.key, Some(e.value)))
    && (forall c :: c in s.calls && s.calls[c].Holding? && PendingOf(s, s.calls[c].name) == 0 ==>
          Current(w, s, s.calls[c].name, BuildObject(w.lib, s.calls[c].zip)))
  }

  /** What a call's download may have missed: the last write of the site's object after that download,
      an upload (`Some(Some(zip))`) or a deletion (`Some(None)`); None if there was no write. */
  ghost function SinceDownload(run: seq<Step>, c: nat, name: string): Option<Option<Object>> {
    if run == [] then None
    else
      var before, p := run[..|run| - 1], run[|run| - 1];
      if p.Download? && p.c == c then None
      else if p.Upload? && p.name == name then Some(Some(p.zip))
      else if p.Remove? && SiteName(p.key) == name then Some(None)
      else SinceDownload(before, c, name)
  }

  predicate Holds(s: System, c: nat, name: string) {
    c in s.calls && s.calls[c].Holding? && s.calls[c].name == name
  }

  /** The step is the last pending invalidation of a site, and it comes while a call holds a download
      of that site that is older than the last write. */
  ghost predicate Overtakes(w: World, run: seq<Step>, p: Step)
    requires Legal(w, run)
  {
    p.Clear? && PendingOf(After(w, run), p.name) == 1
    && exists c :: Holds(After(w, run), c, p.name) && SinceDownload(run, c, p.name).Some?
  }

  ghost predicate Disciplined(w: World, run: seq<Step>)
    requires Legal(w, run)
  {
    run == [] || (Disciplined(w, run[..|run| - 1]) && !Overtakes(w, run[..|run| - 1], run[|run| - 1]))
  }

  /** The object stored under a site's key follows from what a call holds and what was written since. */
  lemma {:induction false} StoredSince(w: World, run: seq<Step>, c: nat, name: string)
    requires Legal(w, run) && Holds(After(w, run), c, name)
    ensures var s, since := After(w, run), SinceDownload(run, c, name);
      && (SiteKey(name) in s.bucket <==> since != Some(None))
      && (SiteKey(name) in s.bucket ==>
            s.bucket[SiteKey(name)] == if since.Some? then since.value.value else s.calls[c].zip)
  {
    hide SiteKey, SiteName, Deletable, AfterGet, AfterPut, AfterExpiry, Without, Built;
    var n := |run| - 1;
    var before, p := After(w, run[..n]), run[n];
    KeysRoundTrip(name, "");
    if !p.Download? || p.c != c {
      assert Holds(before, c, name);
      StoredSince(w, run[..n], c, name);
      match p {
        case Upload(other, _) => KeysRoundTrip(other, "");
        case Remove(key) => KeysRoundTrip("", key);
        case _ =>
      }
    }
  }

  lemma GetMembers<V(!new)>(s: seq<Entry<V>>, key: string, now: int, e: Entry<V>)
    requires e in AfterGet(s, key, now)
    ensures exists d :: d in s && d.key == e.key && d.value == e.value
  {
    if Has(s, key) && e !in Without(s, key) {
      var i :| 0 <= i < |s| && s[i].key == key && s[i].value == Lookup(s, key).value;
      assert s[i] in s;
    } else {
      assert e in s;
    }
  }

  lemma PutMembers<V(!new)>(capacity: int, s: seq<Entry<V>>, key: string, value: V, now: int, e: Entry<V>)
    requires !Has(s, key) && e in AfterPut(capacity, s, key, value, now)
    ensures e == Entry(key, value, now) || e in s
  {
    var all := [Entry(key, value, now)] + s;
    assert e in all;
  }

  lemma StepKeepsCached(w: World, s: System, p: Step, e: Entry<Site>)
    requires Enabled(s, p) && Locked(s) && Fresh(w, s)
    requires e in Next(w, s, p).cache && PendingOf(Next(w, s, p), e.key) == 0
    ensures Current(w, Next(w, s, p), e.key, Some(e.value))
  {
    KeysRoundTrip(e.key, e.key);
    match p {
      case Look(c, now) => GetMembers(s.cache, s.calls[c].name, now, e);
      case Check(c, now) => GetMembers(s.cache, s.calls[c].name, now, e);
      case Store(c, now) =>
        if Built(w, s, c).Some? {
          PutMembers(w.capacity, s.cache, s.calls[c].name, Built(w, s, c).value, now, e);
        }
      case Upload(name, _) => KeysRoundTrip(name, "");
      case Remove(key) => KeysRoundTrip("", key);
      case _ =>
    }
  }

  /** A held download is current as long as its site was not written since. */
  lemma StepKeepsHeld(w: World, run: seq<Step>, p: Step, c: nat, name: string)
    requires Legal(w, run) && Enabled(After(w, run), p) && Fresh(w, After(w, run)) && !Overtakes(w, run, p)
    requires Holds(Next(w, After(w, run), p), c, name) && PendingOf(Next(w, After(w, run), p), name) == 0
    ensures var t := Next(w, After(w, run), p); Current(w, t, name, BuildObject(w.lib, t.calls[c].zip))
  {
    hide Legal, After, SinceDownload, SiteKey, SiteName, Deletable, BuildObject, Built;
    var s := After(w, run);
    KeysRoundTrip(name, "");
    match p {
      case Upload(other, _) => KeysRoundTrip(other, "");
      case Remove(key) => KeysRoundTrip("", key);
      case Clear(_) => StoredSince(w, run, c, name);
      case _ =>
    }
  }

  lemma StepKeepsFresh(w: World, run: seq<Step>, p: Step)
    requires Legal(w, run) && Enabled(After(w, run), p)
    requires Locked(After(w, run)) && Fresh(w, After(w, run)) && !Overtakes(w, run, p)
    ensures Fresh(w, Next(w, After(w, run), p))
  {
    hide Legal, After, Next, Overtakes, Current;
    var t := Next(w, After(w, run), p);
    forall e | e in t.cache && PendingOf(t, e.key) == 0 ensures Current(w, t, e.key, Some(e.value)) {
      StepKeepsCached(w, After(w, run), p, e);
    }
    forall c | c in t.calls && t.calls[c].Holding? && PendingOf(t, t.calls[c].name) == 0
      ensures Current(w, t, t.calls[c].name, BuildObject(w.lib, t.calls[c].zip))
    {
      StepKeepsHeld(w, run, p, c, t.calls[c].name);
    }
  }

  /** In every run in which no invalidation overtakes a download, a cached site with no invalidation
      pending is the last-wins unpacking of the archive stored under its name, and so is whatever a
      load returns next. */
  lemma {:induction false} CachedIsStored(w: World, run: seq<Step>)
    requires Legal(w, run) && Disciplined(w, run)
    ensures Fresh(w, After(w, run))
  {
    hide Fresh, Locked, Next, Enabled, Overtakes;
    if run == [] {
      assert After(w, run) == Start(w);
      StartIsFresh(w);
    } else {
      var n := |run| - 1;
      CachedIsStored(w, run[..n]);
      RunKeepsLocked(w, run[..n]);
      StepKeepsFresh(w, run[..n], run[n]);
    }
  }

  lemma StartIsFresh(w: World)
    ensures Fresh(w, Start(w))
  {
  }

  predicate Writes(p: Step, name: string) {
    (p.Upload? && p.name == name) || (p.Remove? && SiteName(p.key) == name)
  }

  /** Either no site is written, or no site is invalidated, while a call holds a download of it. */
  ghost predicate WritesApart(w: World, run: seq<Step>)
    requires Legal(w, run)
  {
    run == [] ||
    var before, p := run[..|run| - 1], run[|run| - 1];
    WritesApart(w, before) && forall c, name :: Holds(After(w, before), c, name) ==> !Writes(p, name)
  }

  ghost predicate ClearsApart(w: World, run: seq<Step>)
    requires Legal(w, run)
  {
    run == [] ||
    var before, p := run[..|run| - 1], run[|run| - 1];
    ClearsApart(w, before) && forall c, name :: Holds(After(w, before), c, name) ==> p != Clear(name)
  }

  lemma {:induction false} NoWriteSince(w: World, run: seq<Step>, c: nat, name: string)
    requires Legal(w, run) && WritesApart(w, run) && Holds(After(w, run), c, name)
    ensures SinceDownload(run, c, name).None?
  {
    hide SiteKey, SiteName, Deletable, AfterGet, AfterPut, AfterExpiry, Without, Built;
    var n := |run| - 1;
    if !run[n].Download? || run[n].c != c {
      assert Holds(After(w, run[..n]), c, name);
      NoWriteSince(w, run[..n], c, name);
    }
  }

  /** A stale site takes both, a write and the last invalidation of the site inside one download of it:
      deployments and deletions that do not overlap a load are safe. */
  lemma {:induction false} ApartIsDisciplined(w: World, run: seq<Step>)
    requires Legal(w, run) && (WritesApart(w, run) || ClearsApart(w, run))
    ensures Disciplined(w, run) && Fresh(w, After(w, run))
  {
    hide Fresh, Next, Enabled, Holds, SinceDownload, Writes;
    if run != [] {
      var before, p := run[..|run| - 1], run[|run| - 1];
      ApartIsDisciplined(w, before);
      if Overtakes(w, before, p) {
        var c :| Holds(After(w, before), c, p.name) && SinceDownload(before, c, p.name).Some?;
        if WritesApart(w, run) {
          NoWriteSince(w, before, c, p.name);
        }
        assert false;
      }
    }
    CachedIsStored(w, run);
  }

  /** What a load leaves in the cache is current exactly when its site was not written since its download,
      or last with an archive that unpacks to the same site. */
  lemma StoredIsCurrentIff(w: World, run: seq<Step>, c: nat, name: string, now: int)
    requires Legal(w, run) && Holds(After(w, run), c, name) && w.capacity > 0
    requires Built(w, After(w, run), c).Some?
    ensures var t := Next(w, After(w, run), Store(c, now));
      && Lookup(t.cache, name) == Built(w, After(w, run), c)
      && (Current(w, t, name, Lookup(t.cache, name)) <==>
            match SinceDownload(run, c, name)
            case None => true
            case Some(None) => false
            case Some(Some(zip)) => BuildObject(w.lib, zip) == BuildObject(w.lib, After(w, run).calls[c].zip))
  {
    hide Legal, After, SinceDownload, SiteKey, BuildObject;
    var s := After(w, run);
    RunKeepsLocked(w, run);
    StoredSince(w, run, c, name);
    assert !Has(s.cache, name);
    var t := Next(w, s, Store(c, now));
    assert t.cache[0] == Entry(name, Built(w, s, c).value, now);
  }

  /** A first call runs up to holding what it downloaded. */
  lemma Downloaded(w: World, name: string) returns (run: seq<Step>)
    requires SiteKey(name) in w.bucket
    ensures run == [Begin(0, name), Look(0, 1), Lock(0), Check(0, 2), Download(0, true)] && Legal(w, run)
    ensures After(w, run) == System(w.bucket, [], map[0 := Holding(name, w.bucket[SiteKey(name)])], Some(0), map[])
  {
    hide Legal, After, SiteKey, SiteName, Deletable, Built, AfterPut, AfterExpiry, Filter;
    AtStart(w);
    run := Extend(w, [], Begin(0, name));
    run := Extend(w, run, Look(0, 1));
    assert After(w, run) == Start(w).(calls := map[0 := Waiting(name)]);
    run := Extend(w, run, Lock(0));
    run := Extend(w, run, Check(0, 2));
    assert After(w, run) == Start(w).(calls := map[0 := Downloading(name)], mutex := Some(0));
    run := Extend(w, run, Download(0, true));
  }

  function OvertakingRun(name: string, newer: Object): seq<Step> {
    [Begin(0, name), Look(0, 1), Lock(0), Check(0, 2), Download(0, true), Upload(name, newer), Clear(name), Store(0, 3)]
  }

  /** A concrete run in which a deployment overtakes a load: the old site stays cached. */
  lemma OvertakenLoad(w: World, name: string, newer: Object)
    requires w.capacity > 0 && name != "" && SiteKey(name) in w.bucket
    requires var site := BuildObject(w.lib, w.bucket[SiteKey(name)]); site.Some? && BuildObject(w.lib, newer) != site
    ensures Legal(w, OvertakingRun(name, newer)) && !Fresh(w, After(w, OvertakingRun(name, newer)))
  {
    hide Legal, After, SiteKey, BuildObject;
    var older := w.bucket[SiteKey(name)];
    var r5 := Downloaded(w, name);
    var r6 := Extend(w, r5, Upload(name, newer));
    var r7 := Extend(w, r6, Clear(name));
    assert After(w, r7) ==
      System(w.bucket[SiteKey(name) := newer], [], map[0 := Holding(name, older)], Some(0), map[name := 0]);
    var r8 := Extend(w, r7, Store(0, 3));
    var site := BuildObject(w.lib, older).value;
    var s := After(w, r8);
    assert s.cache == [Entry(name, site, 3)];
    assert Entry(name, site, 3) in s.cache && !Current(w, s, name, Some(site));
    assert r8 == OvertakingRun(name, newer);
  }

  /** Cached sites are what is stored in all runs exactly when invalidations may not overtake downloads. */
  lemma FreshIff(w: World, name: string, newer: Object, overtaking: bool)
    requires w.capacity > 0 && name != "" && SiteKey(name) in w.bucket
    requires var site := BuildObject(w.lib, w.bucket[SiteKey(name)]); site.Some? && BuildObject(w.lib, newer) != site
    ensures (forall run :: Legal(w, run) && (overtaking || Disciplined(w, run)) ==> Fresh(w, After(w, run)))
      <==> !overtaking
  {
    hide Legal, After, Fresh, Disciplined, SiteKey, BuildObject;
    if overtaking {
      OvertakenLoad(w, name, newer);
    } else {
      forall run | Legal(w, run) && Disciplined(w, run) ensures Fresh(w, After(w, run)) {
        CachedIsStored(w, run);
      }
    }
  }

  // ---------------------------------------------------------------------------
  // A deployment takes the old site down first
  // ---------------------------------------------------------------------------

  lemma {:induction false} RemovalsGrow(w: World, before: seq<Step>, more: seq<Step>, name: string)
    requires Legal(w, before) && Legal(w, before + more)
    ensures RemovalCount(w, before, name) <= RemovalCount(w, before + more, name)
  {
    hide Removes;
    var run := before + more;
    if more == [] {
      assert run == before;
    } else {
      assert run[..|run| - 1] == before + more[..|more| - 1];
      RemovalsGrow(w, before, more[..|more| - 1], name);
    }
  }

  /** After an invalidation, whatever else happens, the site is cached exactly when more loads of it than
      removals have completed since; so until a load completes nothing is cached, and lookups miss. */
  lemma DownUntilLoaded(w: World, before: seq<Step>, more: seq<Step>, name: string, c: nat, now: int)
    requires Legal(w, before + [Clear(name)]) && Legal(w, before + [Clear(name)] + more)
    ensures var cleared, run := before + [Clear(name)], before + [Clear(name)] + more;
      var s := After(w, run);
      && (Has(s.cache, name) <==>
            LoadCount(w, run, name) - LoadCount(w, cleared, name) >
            RemovalCount(w, run, name) - RemovalCount(w, cleared, name))
      && (LoadCount(w, run, name) == LoadCount(w, cleared, name) ==>
            && (c in s.calls && s.calls[c] == Looking(name) ==> Next(w, s, Look(c, now)).calls[c] == Waiting(name))
            && (c in s.calls && s.calls[c] == Checking(name) ==>
                  Next(w, s, Check(c, now)).calls[c] == Downloading(name)))
  {
    hide LoadCount, RemovalCount;
    var cleared, run := before + [Clear(name)], before + [Clear(name)] + more;
    assert cleared[..|cleared| - 1] == before;
    GoneWithout(After(w, before).cache, name);
    hide Legal, After;
    LoadsMatchRemovals(w, cleared, name);
    LoadsMatchRemovals(w, run, name);
    RemovalsGrow(w, cleared, more, name);
  }

  function FailedLoad(c: nat, name: string): seq<Step> {
    [Begin(c, name), Look(c, 0), Lock(c), Check(c, 0), Download(c, false), Unlock(c)]
  }

  /** The next states of a call that misses twice and then fails to download, from `s` on. */
  lemma FailedLoadSteps(w: World, s: System, c: nat, name: string)
    requires s.mutex == None && c !in s.calls && !Has(s.cache, name)
    ensures var looking, waiting := Goto(s, c, Looking(name)), Goto(s, c, Waiting(name));
      && Enabled(s, Begin(c, name)) && Next(w, s, Begin(c, name)) == looking
      && Enabled(looking, Look(c, 0)) && Next(w, looking, Look(c, 0)) == waiting
      && Enabled(waiting, Lock(c)) && Next(w, waiting, Lock(c)) == Goto(s, c, Checking(name)).(mutex := Some(c))
  {
    hide Lookup, Has;
  }

  lemma FailedFetchSteps(w: World, s: System, c: nat, name: string)
    requires s.mutex == None && !Has(s.cache, name)
    ensures var checking := Goto(s, c, Checking(name)).(mutex := Some(c));
      var loading := checking.(calls := s.calls[c := Downloading(name)]);
      var leaving := checking.(calls := s.calls[c := Leaving(None)]);
      && Enabled(checking, Check(c, 0)) && Next(w, checking, Check(c, 0)) == loading
      && Enabled(loading, Download(c, false)) && Next(w, loading, Download(c, false)) == leaving
      && Enabled(leaving, Unlock(c)) && Next(w, leaving, Unlock(c)) == Goto(s, c, Finished(None))
  {
    hide Lookup, Has;
  }

  lemma FailedLoadServesNothing(w: World, run: seq<Step>, c: nat, name: string)
    requires Legal(w, run) && After(w, run).mutex == None && c !in After(w, run).calls
    requires !Has(After(w, run).cache, name)
    ensures Legal(w, run + FailedLoad(c, name))
    ensures After(w, run + FailedLoad(c, name)).calls[c] == Finished(None)
  {
    hide Legal, After, Next, Enabled;
    FailedLoadSteps(w, After(w, run), c, name);
    FailedFetchSteps(w, After(w, run), c, name);
    var r := Extend(w, run, Begin(c, name));
    r := Extend(w, r, Look(c, 0));
    r := Extend(w, r, Lock(c));
    r := Extend(w, r, Check(c, 0));
    r := Extend(w, r, Download(c, false));
    r := Extend(w, r, Unlock(c));
    assert r == run + FailedLoad(c, name);
  }

  /** In every reachable state with the loader idle, whatever it has cached: a deployment followed by a
      download that fails answers the next visitor with nothing. */
  lemma FailedSwapServesNothing(w: World, run: seq<Step>, c: nat, name: string, newer: Object)
    requires Legal(w, run) && After(w, run).mutex == None && c !in After(w, run).calls && name != ""
    ensures var swap := run + [Upload(name, newer), Clear(name)] + FailedLoad(c, name);
      Legal(w, swap) && After(w, swap).calls[c] == Finished(None)
  {
    hide Legal, After, SiteKey, Without;
    var r := Extend(w, run, Upload(name, newer));
    r := Extend(w, r, Clear(name));
    GoneWithout(After(w, run).cache, name);
    assert r == run + [Upload(name, newer), Clear(name)];
    FailedLoadServesNothing(w, r, c, name);
  }

  // ---------------------------------------------------------------------------
  // The state by the steps of the run alone
  // ---------------------------------------------------------------------------

  /** The site a call asks for. */
  function AskedFor(run: seq<Step>, c: nat): string {
    if run == [] then ""
    else
      var n := |run| - 1;
      if run[n].Begin? && run[n].c == c then run[n].name else AskedFor(run[..n], c)
  }

  /** What a call's download brought, if it succeeded. */
  ghost function Brought(w: World, run: seq<Step>, c: nat): Option<Object>
    requires Legal(w, run)
  {
    if run == [] then None
    else
      var n := |run| - 1;
      var p, key, bucket := run[n], SiteKey(AskedFor(run[..n], c)), After(w, run[..n]).bucket;
      if !p.Download? || p.c != c then Brought(w, run[..n], c)
      else if p.ok && key in bucket then Some(bucket[key])
      else None
  }

  function Unpacked(w: World, archive: Option<Object>): Option<Site> {
    if archive.None? then None else BuildObject(w.lib, archive.value)
  }

  /** What a call owes its visitor, if that is settled: the cached site at its first hit; nothing if its download
      failed; else what the archive it downloaded unpacks to, if it does. */
  ghost function Owed(w: World, run: seq<Step>, c: nat): Option<Option<Site>>
    requires Legal(w, run)
  {
    if run == [] then None
    else
      var n := |run| - 1;
      var p := run[n];
      if !(p.Look? || p.Check? || p.Download? || p.Store?) || p.c != c then Owed(w, run[..n], c)
      else if p.Store? then Some(Unpacked(w, Brought(w, run[..n], c)))
      else if p.Download? then (if Brought(w, run, c).None? then Some(None) else Owed(w, run[..n], c))
      else
        var hit := Lookup(After(w, run[..n]).cache, AskedFor(run[..n], c));
        if hit.Some? then Some(hit) else Owed(w, run[..n], c)
  }

  /** Where a call stands fits what it asked for, what its download brought and what it owes. */
  ghost predicate Tells(w: World, run: seq<Step>, c: nat)
    requires Legal(w, run)
  {
    var calls := After(w, run).calls;
    if c !in calls then Owed(w, run, c) == None
    else if calls[c].Leaving? || calls[c].Finished? then Owed(w, run, c) == Some(calls[c].result)
    else
      && Owed(w, run, c) == None && calls[c].name == AskedFor(run, c)
      && (calls[c].Holding? ==> Brought(w, run, c) == Some(calls[c].zip))
  }

  /** The step is one of call c. */
  predicate OfCall(p: Step, c: nat) {
    (p.Begin? || p.Look? || p.Lock? || p.Check? || p.Download? || p.Store? || p.Unlock?) && p.c == c
  }

  lemma OthersUntouched(w: World, s: System, p: Step, c: nat)
    requires Enabled(s, p) && !OfCall(p, c)
    ensures c in Next(w, s, p).calls <==> c in s.calls
    ensures c in s.calls ==> Next(w, s, p).calls[c] == s.calls[c]
  {
    hide SiteKey, SiteName, Deletable, Built, AfterGet, AfterPut, AfterExpiry, Without, Lookup;
  }

  lemma OthersTell(w: World, run: seq<Step>, c: nat)
    requires Legal(w, run) && run != [] && !OfCall(run[|run| - 1], c) && Tells(w, run[..|run| - 1], c)
    ensures Tells(w, run, c)
  {
    hide Next, Lookup, SiteKey, BuildObject, Enabled;
    var n := |run| - 1;
    OthersUntouched(w, After(w, run[..n]), run[n], c);
  }

  /** One step of a call moves it on. */
  lemma OwnStep(w: World, s: System, p: Step, c: nat)
    requires Enabled(s, p) && OfCall(p, c)
    ensures c in Next(w, s, p).calls && (p.Begin? <==> c !in s.calls)
    ensures var d := Next(w, s, p).calls[c];
      match p
      case Begin(_, name) => d == Looking(name)
      case Look(_, _) =>
        var hit := Lookup(s.cache, s.calls[c].name);
        s.calls[c].Looking? && d == if hit.Some? then Finished(hit) else Waiting(s.calls[c].name)
      case Lock(_) => s.calls[c].Waiting? && d == Checking(s.calls[c].name)
      case Check(_, _) =>
        var hit := Lookup(s.cache, s.calls[c].name);
        s.calls[c].Checking? && d == if hit.Some? then Leaving(hit) else Downloading(s.calls[c].name)
      case Download(_, ok) =>
        var name := s.calls[c].name;
        && s.calls[c].Downloading?
        && d == if ok && SiteKey(name) in s.bucket then Holding(name, s.bucket[SiteKey(name)]) else Leaving(None)
      case Store(_, _) => s.calls[c].Holding? && d == Leaving(BuildObject(w.lib, s.calls[c].zip))
      case Unlock(_) => s.calls[c].Leaving? && d == Finished(s.calls[c].result)
  {
    hide SiteKey, BuildObject, AfterGet, AfterPut, AfterExpiry, Without, Lookup, Deletable, SiteName, PendingOf;
  }

  lemma OwnTells(w: World, run: seq<Step>, c: nat)
    requires Legal(w, run) && run != [] && OfCall(run[|run| - 1], c) && Tells(w, run[..|run| - 1], c)
    ensures Tells(w, run, c)
  {
    hide Next, Enabled, Lookup, SiteKey, BuildObject;
    var n := |run| - 1;
    OwnStep(w, After(w, run[..n]), run[n], c);
  }

  /** In every run a call stands where its own steps have brought it: what it holds is what the bucket had at its
      download, and what it has to return is its first hit, else what its Store built, else nothing. */
  lemma {:induction false} CallIsHistory(w: World, run: seq<Step>, c: nat)
    requires Legal(w, run)
    ensures Tells(w, run, c)
  {
    hide Next, Enabled, OfCall;
    if run == [] {
      NothingAsked(w, c);
    } else {
      var n := |run| - 1;
      CallIsHistory(w, run[..n], c);
      hide Tells, After;
      if OfCall(run[n], c) {
        OwnTells(w, run, c);
      } else {
        OthersTell(w, run, c);
      }
    }
  }

  lemma NothingAsked(w: World, c: nat)
    ensures Tells(w, [], c)
  {
  }

  /** In every run a finished call has returned what it owed. */
  lemma ReturnsWhatItOwes(w: World, run: seq<Step>, c: nat)
    requires Legal(w, run) && c in After(w, run).calls && After(w, run).calls[c].Finished?
    ensures Owed(w, run, c) == Some(After(w, run).calls[c].result)
  {
    CallIsHistory(w, run, c);
  }

  /** In a disciplined run, with no invalidation of the site pending, the step that settles what a call returns,
      be it a hit or a load, returns the site of the archive then stored. */
  lemma AnswersAreStored(w: World, run: seq<Step>, p: Step, c: nat, name: string, site: Site)
    requires Legal(w, run) && Disciplined(w, run) && Enabled(After(w, run), p) && PendingOf(After(w, run), name) == 0
    requires c in After(w, run).calls && !After(w, run).calls[c].Leaving? && !After(w, run).calls[c].Finished?
    requires After(w, run).calls[c].name == name
    requires var d := Next(w, After(w, run), p).calls[c]; (d.Leaving? || d.Finished?) && d.result == Some(site)
    ensures Current(w, After(w, run), name, Some(site))
  {
    hide Legal, After, Disciplined, BuildObject, SiteKey;
    CachedIsStored(w, run);
    var s := After(w, run);
    if Lookup(s.cache, name).Some? {
      var i :| 0 <= i < |s.cache| && s.cache[i].key == name && s.cache[i].value == Lookup(s.cache, name).value;
      assert s.cache[i] in s.cache;
    }
  }

  /** The calls that the run makes on the cache. */
  ghost function CacheCalls(w: World, run: seq<Step>): seq<LruInclusion.Op<Site>>
    requires Legal(w, run)
  {
    if run == [] then []
    else
      var n := |run| - 1;
      CacheCalls(w, run[..n]) +
      match run[n]
      case Look(c, now) => [LruInclusion.Get(AskedFor(run[..n], c), now)]
      case Check(c, now) => [LruInclusion.Get(AskedFor(run[..n], c), now)]
      case Store(c, now) =>
        (match Owed(w, run, c)
         case Some(Some(site)) => [LruInclusion.Put(AskedFor(run[..n], c), site, now)]
         case _ => [])
      case Clear(name) => [LruInclusion.Delete(name)]
      case Sweep(now) => [LruInclusion.EvictExpired(3600, now)]
      case _ => []
  }

  lemma CacheStep(w: World, run: seq<Step>)
    requires Legal(w, run) && run != []
    ensures var n := |run| - 1;
      var before, calls := After(w, run[..n]).cache, CacheCalls(w, run);
      || (calls == CacheCalls(w, run[..n]) && After(w, run).cache == before)
      || (|calls| > 0 && calls[..|calls| - 1] == CacheCalls(w, run[..n]) &&
          After(w, run).cache == LruInclusion.Apply(w.capacity, before, calls[|calls| - 1]))
  {
    var n := |run| - 1;
    var p := run[n];
    if p.Look? || p.Check? || p.Store? {
      CallIsHistory(w, run[..n], p.c);
      CallIsHistory(w, run, p.c);
    }
    hide SiteKey, BuildObject, AfterGet, AfterPut, AfterExpiry, Without, Lookup, Deletable, SiteName;
    hide AskedFor, Brought, Owed;
  }

  /** In every run the cache is the LRU cache after these calls: what is said of its history holds here. */
  lemma {:induction false} CacheIsLru(w: World, run: seq<Step>)
    requires Legal(w, run)
    ensures After(w, run).cache == LruInclusion.Run(w.capacity, [], CacheCalls(w, run))
  {
    hide CacheCalls, LruInclusion.Apply, LruInclusion.Run;
    if run == [] {
      assert CacheCalls(w, run) == [] by { NoCalls(w); }
      EmptyRun(w);
    } else {
      var n := |run| - 1;
      CacheIsLru(w, run[..n]);
      CacheStep(w, run);
      if CacheCalls(w, run) != CacheCalls(w, run[..n]) {
        LruHistory.RunLast(w.capacity, CacheCalls(w, run));
      }
    }
  }

  lemma NoCalls(w: World)
    ensures CacheCalls(w, []) == []
  {
  }

  lemma EmptyRun(w: World)
    ensures LruInclusion.Run<Site>(w.capacity, [], []) == []
  {
  }

  /** The last write of an object: an upload or a deletion. */
  function LastWrite(run: seq<Step>, key: string): Option<Option<Object>> {
    if run == [] then None
    else
      var n := |run| - 1;
      if run[n].Upload? && SiteKey(run[n].name) == key then Some(Some(run[n].zip))
      else if run[n].Remove? && run[n].key == key then Some(None)
      else LastWrite(run[..n], key)
  }

  /** How many writes of a site wait for their invalidation. */
  function Unsettled(run: seq<Step>, name: string): int {
    if run == [] then 0
    else
      var n := |run| - 1;
      Unsettled(run[..n], name) + if Writes(run[n], name) then 1 else if run[n] == Clear(name) then -1 else 0
  }

  lemma StepStores(w: World, s: System, p: Step, key: string, name: string)
    requires Enabled(s, p)
    ensures var t := Next(w, s, p);
      && (if p.Upload? && SiteKey(p.name) == key then key in t.bucket && t.bucket[key] == p.zip
          else if p.Remove? && p.key == key then key !in t.bucket
          else (key in t.bucket <==> key in s.bucket) && (key in s.bucket ==> t.bucket[key] == s.bucket[key]))
      && PendingOf(t, name) ==
           PendingOf(s, name) + if Writes(p, name) then 1 else if p == Clear(name) then -1 else 0
  {
    hide SiteKey, SiteName, Deletable, AfterGet, AfterPut, AfterExpiry, Without, Built, Lookup;
  }

  /** In every run the bucket holds what was last written, and the pending invalidations are the writes not yet
      followed by theirs. */
  lemma {:induction false} StoreIsHistory(w: World, run: seq<Step>, key: string, name: string)
    requires Legal(w, run)
    ensures var s, last := After(w, run), LastWrite(run, key);
      && (key in s.bucket <==> if last.None? then key in w.bucket else last.value.Some?)
      && (key in s.bucket ==> s.bucket[key] == if last.None? then w.bucket[key] else last.value.value)
      && PendingOf(s, name) == Unsettled(run, name)
  {
    hide SiteKey, SiteName, Writes, Next, Enabled;
    if run != [] {
      var n := |run| - 1;
      StoreIsHistory(w, run[..n], key, name);
      StepStores(w, After(w, run[..n]), run[n], key, name);
    }
  }

  /** No load is stuck: while some call has not finished, the call that holds the mutex, or if none does any
      unfinished call, can take a step. */
  lemma LoadsProgress(w: World, run: seq<Step>, c: nat) returns (p: Step)
    requires Legal(w, run) && c in After(w, run).calls && !After(w, run).calls[c].Finished?
    ensures Enabled(After(w, run), p) && (p.Look? || p.Lock? || p.Check? || p.Download? || p.Store? || p.Unlock?)
    ensures var s := After(w, run);
      p.c in s.calls && (p.c == c || s.mutex == Some(p.c)) && Next(w, s, p).calls[p.c] != s.calls[p.c]
  {
    RunKeepsLocked(w, run);
    var s := After(w, run);
    var d := if s.calls[c].Waiting? && s.mutex.Some? then s.mutex.value else c;
    match s.calls[d]
    case Looking(_) => p := Look(d, 0);
    case Waiting(_) => p := Lock(d);
    case Checking(_) => p := Check(d, 0);
    case Downloading(_) => p := Download(d, true);
    case Holding(_, _) => p := Store(d, 0);
    case Leaving(_) => p := Unlock(d);
  }

  lemma AtStart(w: World)
    ensures Legal(w, []) && After(w, []) == Start(w)
  {
  }

  lemma Extend(w: World, run: seq<Step>, p: Step) returns (longer: seq<Step>)
    requires Legal(w, run) && Enabled(After(w, run), p)
    ensures longer == run + [p] && Legal(w, longer) && After(w, longer) == Next(w, After(w, run), p)
  {
    longer := run + [p];
    assert longer[..|longer| - 1] == run;
  }
}
