/** The LRU cache judged by the history of calls alone: what is in it, in which order, and what a put
    drops, in terms of when each key was last put or hit. */
module LruHistory {
  import opened Prelude
  import opened LruModel
  import opened LruInclusion

  lemma {:induction false} RunSnoc<V(!new)>(c: int, s: seq<Entry<V>>, ops: seq<Op<V>>, op: Op<V>)
    ensures Run(c, s, ops + [op]) == Apply(c, Run(c, s, ops), op)
    decreases ops
  {
    if ops == [] {
      assert (ops + [op])[1..] == [];
    } else {
      assert (ops + [op])[1..] == ops[1..] + [op];
      RunSnoc(c, Apply(c, s, ops[0]), ops[1..], op);
    }
  }

  lemma RunLast<V(!new)>(c: int, ops: seq<Op<V>>)
    requires ops != []
    ensures Run(c, [], ops) == Apply(c, Run(c, [], ops[..|ops| - 1]), ops[|ops| - 1])
  {
    RunSnoc(c, [], ops[..|ops| - 1], ops[|ops| - 1]);
    assert ops[..|ops| - 1] + [ops[|ops| - 1]] == ops;
  }

  /** The call puts a key, or gets it and is answered. */
  predicate Uses<V(!new)>(c: int, ops: seq<Op<V>>, i: nat)
    requires i < |ops|
  {
    ops[i].Put? || (ops[i].Get? && Lookup(Run(c, [], ops[..i]), ops[i].key).Some?)
  }

  /** When a key was last used. */
  function LastUse<V(!new)>(c: int, ops: seq<Op<V>>, key: string): (r: Option<nat>)
    ensures r.Some? ==> r.value < |ops| && !ops[r.value].EvictExpired? && !ops[r.value].Delete?
  {
    if ops == [] then None
    else
      var n := |ops| - 1;
      if Uses(c, ops, n) && ops[n].key == key then Some(n) else LastUse(c, ops[..n], key)
  }

  /** How recently a key was used; -1 if never. */
  function Rank<V(!new)>(c: int, ops: seq<Op<V>>, key: string): int {
    var use := LastUse(c, ops, key);
    if use.Some? then use.value else -1
  }

  /** When a key was last put. */
  function LastPut<V(!new)>(ops: seq<Op<V>>, key: string): (r: Option<nat>)
    ensures r.Some? ==> r.value < |ops| && ops[r.value].Put?
  {
    if ops == [] then None
    else
      var n := |ops| - 1;
      if ops[n].Put? && ops[n].key == key then Some(n) else LastPut(ops[..n], key)
  }

  /** An entry carries the value last put under its key and the time of its last use. */
  ghost predicate Fits<V(!new)>(c: int, ops: seq<Op<V>>, e: Entry<V>) {
    var use, put := LastUse(c, ops, e.key), LastPut(ops, e.key);
    use.Some? && put.Some? && e.value == ops[put.value].value && e.lastAccessed == ops[use.value].now
  }

  /** The later used, the further in front. */
  ghost predicate Ranked<V(!new)>(c: int, ops: seq<Op<V>>, s: seq<Entry<V>>) {
    && (forall e :: e in s ==> Fits(c, ops, e))
    && (forall i, j :: 0 <= i < j < |s| ==> Rank(c, ops, s[i].key) > Rank(c, ops, s[j].key))
  }

  lemma RankedIsUnique<V(!new)>(c: int, ops: seq<Op<V>>, s: seq<Entry<V>>)
    requires Ranked(c, ops, s)
    ensures UniqueKeys(s)
  {
    hide LastUse, Rank, Fits;
  }

  lemma {:induction false} FilterRanked<V(!new)>(c: int, ops: seq<Op<V>>, s: seq<Entry<V>>, keep: Entry<V> -> bool)
    requires Ranked(c, ops, s)
    ensures Ranked(c, ops, Filter(keep, s))
  {
    hide LastUse, Rank, Fits;
    if s != [] {
      assert forall i :: 0 < i < |s| ==> s[i] == s[1..][i - 1];
      FilterRanked(c, ops, s[1..], keep);
      var rest := Filter(keep, s[1..]);
      forall j | 0 <= j < |rest| ensures Rank(c, ops, s[0].key) > Rank(c, ops, rest[j].key) {
        assert rest[j] in s[1..];
      }
    }
  }

  /** A call that does not use the keys of `s` leaves their ranks as they are. */
  lemma StillRanked<V(!new)>(c: int, ops: seq<Op<V>>, s: seq<Entry<V>>)
    requires ops != [] && Ranked(c, ops[..|ops| - 1], s)
    requires forall e :: e in s ==> !(Uses(c, ops, |ops| - 1) && ops[|ops| - 1].key == e.key)
    ensures Ranked(c, ops, s)
    ensures forall e :: e in s ==> Rank(c, ops, e.key) < |ops| - 1
  {
    var before := ops[..|ops| - 1];
    forall e | e in s ensures Fits(c, ops, e) && LastUse(c, ops, e.key) == LastUse(c, before, e.key) {
      assert Fits(c, before, e);
    }
  }

  /** The entry of the key just used leads the others. */
  lemma LeaderRanked<V(!new)>(c: int, ops: seq<Op<V>>, e: Entry<V>, s: seq<Entry<V>>)
    requires ops != [] && Ranked(c, ops[..|ops| - 1], s) && forall x :: x in s ==> x.key != e.key
    requires Uses(c, ops, |ops| - 1) && ops[|ops| - 1].key == e.key && Fits(c, ops, e)
    ensures Ranked(c, ops, [e] + s)
  {
    StillRanked(c, ops, s);
    assert Rank(c, ops, e.key) == |ops| - 1;
    hide Uses, Fits, LastUse, Rank;
    var all := [e] + s;
    forall i, j | 0 <= i < j < |all| ensures Rank(c, ops, all[i].key) > Rank(c, ops, all[j].key) {
      assert all[j] == s[j - 1] && all[j] in s;
      assert i > 0 ==> all[i] == s[i - 1];
    }
  }

  lemma PrefixRanked<V(!new)>(c: int, ops: seq<Op<V>>, s: seq<Entry<V>>, n: nat)
    requires Ranked(c, ops, s) && n <= |s|
    ensures Ranked(c, ops, s[..n])
  {
    hide LastUse, Rank, Fits;
  }

  lemma PutRanked<V(!new)>(c: int, ops: seq<Op<V>>, s: seq<Entry<V>>)
    requires ops != [] && ops[|ops| - 1].Put? && Ranked(c, ops[..|ops| - 1], s) && |s| <= Max(c, 0)
    ensures var p := ops[|ops| - 1];
      var t := AfterPut(c, s, p.key, p.value, p.now); Ranked(c, ops, t) && |t| <= Max(c, 0)
  {
    var before, p := ops[..|ops| - 1], ops[|ops| - 1];
    var e := Entry(p.key, p.value, p.now);
    assert Fits(c, ops, e);
    hide Fits, LastUse;
    if Has(s, p.key) {
      RankedIsUnique(c, before, s);
      TouchShrinks(s, p.key);
      FilterRanked(c, before, s, OtherKey(p.key));
      LeaderRanked(c, ops, e, Without(s, p.key));
    } else {
      forall x | x in s ensures x.key != p.key {
        var i :| 0 <= i < |s| && s[i] == x;
      }
      LeaderRanked(c, ops, e, s);
      PrefixRanked(c, ops, [e] + s, |s|);
    }
  }

  lemma HitIsUse<V(!new)>(c: int, ops: seq<Op<V>>, key: string)
    requires ops != [] && ops[|ops| - 1].Get? && ops[|ops| - 1].key == key
    requires Lookup(Run(c, [], ops[..|ops| - 1]), key).Some?
    ensures LastUse(c, ops, key) == Some(|ops| - 1) && LastPut(ops, key) == LastPut(ops[..|ops| - 1], key)
  {
    hide Run, Lookup;
  }

  lemma HitFits<V(!new)>(c: int, ops: seq<Op<V>>, s: seq<Entry<V>>, v: V)
    requires ops != [] && ops[|ops| - 1].Get? && s == Run(c, [], ops[..|ops| - 1])
    requires Ranked(c, ops[..|ops| - 1], s) && Lookup(s, ops[|ops| - 1].key) == Some(v)
    ensures Fits(c, ops, Entry(ops[|ops| - 1].key, v, ops[|ops| - 1].now))
  {
    hide Run, Filter, Rank, Lookup, LastUse, LastPut;
    var before, p := ops[..|ops| - 1], ops[|ops| - 1];
    HitIsUse(c, ops, p.key);
    var i :| 0 <= i < |s| && s[i].key == p.key && s[i].value == v;
    assert s[i] in s && Fits(c, before, s[i]);
  }

  /** A hit that finds the value `v`, at the end of the run. */
  lemma HitRanked<V(!new)>(c: int, ops: seq<Op<V>>, s: seq<Entry<V>>, v: V)
    requires ops != [] && ops[|ops| - 1].Get? && s == Run(c, [], ops[..|ops| - 1])
    requires Ranked(c, ops[..|ops| - 1], s) && |s| <= Max(c, 0)
    requires Lookup(s, ops[|ops| - 1].key) == Some(v)
    ensures var t := Touch(s, ops[|ops| - 1].key, v, ops[|ops| - 1].now); Ranked(c, ops, t) && |t| <= Max(c, 0)
  {
    var before, p := ops[..|ops| - 1], ops[|ops| - 1];
    hide Run, Filter, Rank, Lookup, Fits, LastUse;
    HitFits(c, ops, s, v);
    var e := Entry(p.key, v, p.now);
    RankedIsUnique(c, before, s);
    TouchShrinks(s, p.key);
    FilterRanked(c, before, s, OtherKey(p.key));
    LeaderRanked(c, ops, e, Without(s, p.key));
  }

  lemma GetRanked<V(!new)>(c: int, ops: seq<Op<V>>)
    requires ops != [] && ops[|ops| - 1].Get?
    requires var s := Run(c, [], ops[..|ops| - 1]); Ranked(c, ops[..|ops| - 1], s) && |s| <= Max(c, 0)
    ensures var s, p := Run(c, [], ops[..|ops| - 1]), ops[|ops| - 1];
      var t := AfterGet(s, p.key, p.now); Ranked(c, ops, t) && |t| <= Max(c, 0)
  {
    hide Ranked, Run, Touch, Lookup;
    var p := ops[|ops| - 1];
    var s := Run<V>(c, [], ops[..|ops| - 1]);
    match Lookup(s, p.key)
    case None => StillRanked(c, ops, s);
    case Some(v) => HitRanked(c, ops, s, v);
  }

  /** In every run, whatever the capacity: the list is ordered by last use, and each entry carries the value
      last put and the time last used. */
  lemma {:induction false} RunIsRanked<V(!new)>(c: int, ops: seq<Op<V>>)
    ensures Ranked(c, ops, Run(c, [], ops)) && UniqueKeys(Run(c, [], ops)) && |Run(c, [], ops)| <= Max(c, 0)
  {
    if ops != [] {
      var n := |ops| - 1;
      RunIsRanked(c, ops[..n]);
      RunLast(c, ops);
      var s := Run<V>(c, [], ops[..n]);
      match ops[n] {
        case Get(_, _) => GetRanked(c, ops);
        case Put(_, _, _) => PutRanked(c, ops, s);
        case Delete(key) =>
          StillRanked(c, ops, s);
          FilterRanked(c, ops, s, OtherKey(key));
        case EvictExpired(ttl, now) =>
          StillRanked(c, ops, s);
          FilterRanked(c, ops, s, FreshAt(ttl, now));
      }
    }
    RankedIsUnique(c, ops, Run(c, [], ops));
  }

  // ---------------------------------------------------------------------------
  // What each call does, by history
  // ---------------------------------------------------------------------------

  /** A hit answers with the value last put. */
  lemma HitIsLastPut<V(!new)>(c: int, ops: seq<Op<V>>, key: string)
    requires Lookup(Run(c, [], ops), key).Some?
    ensures LastPut(ops, key).Some? && Lookup(Run(c, [], ops), key) == Some(ops[LastPut(ops, key).value].value)
  {
    RunIsRanked(c, ops);
    var s := Run<V>(c, [], ops);
    var i :| 0 <= i < |s| && s[i].key == key && s[i].value == Lookup(s, key).value;
    assert Fits(c, ops, s[i]);
  }

  /** A hit moves its entry, with its value and the time of the hit, in front of the others, which keep their
      order; a miss changes nothing. */
  lemma GetMoves<V(!new)>(s: seq<Entry<V>>, key: string, now: int, i: nat)
    requires UniqueKeys(s) && (Has(s, key) ==> i < |s| && s[i].key == key)
    ensures AfterGet(s, key, now) ==
      if Has(s, key) then [Entry(key, s[i].value, now)] + s[..i] + s[i + 1..] else s
  {
    if Has(s, key) {
      LookupPresent(s, i);
      WithoutAt(s, i);
    }
  }

  /** Among the keys of `s` this one was used least recently. */
  ghost predicate LeastRecent<V(!new)>(c: int, ops: seq<Op<V>>, s: seq<Entry<V>>, k: string) {
    Has(s, k) && forall i :: 0 <= i < |s| ==> Rank(c, ops, k) <= Rank(c, ops, s[i].key)
  }

  /** In every run: after a put exactly its key and the keys before it are there, without the least recently
      used one if the key is new and the cache was full. */
  lemma PutEvictsLeastRecent<V(!new)>(c: int, ops: seq<Op<V>>, key: string, value: V, now: int, k: string)
    ensures var s, t := Run(c, [], ops), Run(c, [], ops + [Put(key, value, now)]);
      var evicts := !Has(s, key) && |s| >= c;
      Has(t, k) <==> if k == key then c > 0 else Has(s, k) && !(evicts && LeastRecent(c, ops, s, k))
  {
    RunSnoc<V>(c, [], ops, Put(key, value, now));
    RunIsRanked(c, ops);
    hide Run;
    var s, e := Run<V>(c, [], ops), Entry(key, value, now);
    if Has(s, key) {
      HasOthers(s, key, k);
      HasFront(e, Without(s, key), k);
      HasSome(s, key);
    } else if |s| < c || s == [] {
      HasFront(e, s, k);
    } else {
      LastIsLeast(c, ops, s, k);
      HasFront(e, s[..|s| - 1], k);
      assert ([e] + s)[..|s|] == [e] + s[..|s| - 1];
    }
  }

  lemma HasSome<V(!new)>(s: seq<Entry<V>>, k: string)
    requires Has(s, k)
    ensures s != []
  {
  }

  lemma HasFront<V(!new)>(e: Entry<V>, s: seq<Entry<V>>, k: string)
    ensures Has([e] + s, k) <==> k == e.key || Has(s, k)
  {
    var all := [e] + s;
    assert all[0] == e && forall i :: 0 <= i < |s| ==> all[i + 1] == s[i];
    if Has(all, k) && k != e.key {
      var i :| 0 <= i < |all| && all[i].key == k;
      assert s[i - 1].key == k;
    }
  }

  lemma HasOthers<V(!new)>(s: seq<Entry<V>>, key: string, k: string)
    ensures Has(Without(s, key), k) <==> Has(s, k) && k != key
  {
    HasFiltered(s, OtherKey(key), k);
  }

  lemma HasFiltered<V(!new)>(s: seq<Entry<V>>, keep: Entry<V> -> bool, k: string)
    ensures Has(Filter(keep, s), k) <==> exists i :: 0 <= i < |s| && s[i].key == k && keep(s[i])
  {
    var r := Filter(keep, s);
    if Has(r, k) {
      var j :| 0 <= j < |r| && r[j].key == k;
      assert r[j] in r;
      var i :| 0 <= i < |s| && s[i] == r[j];
    }
    if i :| 0 <= i < |s| && s[i].key == k && keep(s[i]) {
      assert s[i] in r;
      var j :| 0 <= j < |r| && r[j] == s[i];
    }
  }

  /** The tail, and only it, is the least recently used. */
  lemma LastIsLeast<V(!new)>(c: int, ops: seq<Op<V>>, s: seq<Entry<V>>, k: string)
    requires Ranked(c, ops, s) && UniqueKeys(s) && s != []
    ensures Has(s[..|s| - 1], k) <==> Has(s, k) && !LeastRecent(c, ops, s, k)
  {
    hide LastUse, Rank, Fits;
    var n := |s| - 1;
    if Has(s[..n], k) {
      var i :| 0 <= i < n && s[..n][i].key == k;
      assert s[i].key == k && Rank(c, ops, s[i].key) > Rank(c, ops, s[n].key);
    }
    assert LeastRecent(c, ops, s, s[n].key);
    if Has(s, k) && !LeastRecent(c, ops, s, k) {
      var i :| 0 <= i < |s| && s[i].key == k;
      assert s[..n][i].key == k;
    }
  }

  /** A deletion takes its key and no other. */
  lemma DeleteTakesKey<V(!new)>(c: int, ops: seq<Op<V>>, key: string, k: string)
    ensures Has(Run(c, [], ops + [Op<V>.Delete(key)]), k) <==> Has(Run(c, [], ops), k) && k != key
  {
    RunSnoc<V>(c, [], ops, Delete(key));
    HasOthers(Run<V>(c, [], ops), key, k);
  }

  /** An expiry takes exactly the keys whose last use is more than the limit ago. */
  lemma ExpiryTakesIdle<V(!new)>(c: int, ops: seq<Op<V>>, ttl: int, now: int, k: string)
    ensures Has(Run(c, [], ops + [Op<V>.EvictExpired(ttl, now)]), k) <==>
      Has(Run(c, [], ops), k) && LastUse(c, ops, k).Some? && now - ops[LastUse(c, ops, k).value].now <= ttl
  {
    RunSnoc<V>(c, [], ops, EvictExpired(ttl, now));
    RunIsRanked(c, ops);
    var s := Run<V>(c, [], ops);
    HasFiltered(s, FreshAt(ttl, now), k);
    forall i | 0 <= i < |s| ensures Fits(c, ops, s[i]) {
      assert s[i] in s;
    }
  }

  // ---------------------------------------------------------------------------
  // Without deletions and expiry: the last n keys used
  // ---------------------------------------------------------------------------

  /** The other keys used since the last use of a key. */
  function UsedSince<V(!new)>(c: int, ops: seq<Op<V>>, key: string): set<string> {
    if ops == [] then {}
    else
      var n := |ops| - 1;
      if !Uses(c, ops, n) then UsedSince(c, ops[..n], key)
      else if ops[n].key == key then {}
      else UsedSince(c, ops[..n], key) + {ops[n].key}
  }

  ghost predicate OnlyGetsAndPuts<V(!new)>(ops: seq<Op<V>>) {
    forall i :: 0 <= i < |ops| ==> ops[i].Get? || ops[i].Put?
  }

  /** In front of each entry are exactly the keys used since. */
  ghost predicate Stacked<V(!new)>(c: int, ops: seq<Op<V>>, s: seq<Entry<V>>) {
    forall i :: 0 <= i < |s| ==> UsedSince(c, ops, s[i].key) == Keys(s[..i])
  }

  /** A key that was used and is gone has a full cache of keys used since. */
  ghost predicate Crowded<V(!new)>(c: int, ops: seq<Op<V>>, s: seq<Entry<V>>, k: string) {
    LastUse(c, ops, k).Some? && !Has(s, k) ==> |s| == Max(c, 0) && Keys(s) <= UsedSince(c, ops, k)
  }

  ghost predicate AllCrowded<V(!new)>(c: int, ops: seq<Op<V>>, s: seq<Entry<V>>) { forall k :: Crowded(c, ops, s, k) }

  lemma KeysFront<V(!new)>(e: Entry<V>, s: seq<Entry<V>>)
    ensures Keys([e] + s) == {e.key} + Keys(s)
  {
    var all := [e] + s;
    assert all[0] == e && forall i :: 0 <= i < |s| ==> all[i + 1] == s[i];
    forall k | k in Keys(all) ensures k in {e.key} + Keys(s) {
      var i :| 0 <= i < |all| && all[i].key == k;
      assert i > 0 ==> s[i - 1].key == k;
    }
    forall k | k in Keys(s) ensures k in Keys(all) {
      var i :| 0 <= i < |s| && s[i].key == k;
      assert all[i + 1].key == k;
    }
  }

  lemma KeysParts<V(!new)>(a: seq<Entry<V>>, b: seq<Entry<V>>)
    ensures Keys(a + b) == Keys(a) + Keys(b)
  {
    var all := a + b;
    assert forall i :: 0 <= i < |a| ==> all[i] == a[i];
    assert forall i :: 0 <= i < |b| ==> all[|a| + i] == b[i];
    forall k | k in Keys(all) ensures k in Keys(a) + Keys(b) {
      var i :| 0 <= i < |all| && all[i].key == k;
      assert i >= |a| ==> b[i - |a|].key == k;
    }
    forall k | k in Keys(b) ensures k in Keys(all) {
      var i :| 0 <= i < |b| && b[i].key == k;
      assert all[|a| + i].key == k;
    }
    forall k | k in Keys(a) ensures k in Keys(all) {
      var i :| 0 <= i < |a| && a[i].key == k;
      assert all[i].key == k;
    }
  }

  /** The key at position m goes in front of the others. */
  lemma MovedStacked<V(!new)>(c: int, ops: seq<Op<V>>, s: seq<Entry<V>>, m: nat, e: Entry<V>)
    requires ops != [] && Uses(c, ops, |ops| - 1) && ops[|ops| - 1].key == e.key
    requires UniqueKeys(s) && m < |s| && s[m].key == e.key && Stacked(c, ops[..|ops| - 1], s)
    ensures Stacked(c, ops, [e] + s[..m] + s[m + 1..])
    ensures Keys([e] + s[..m] + s[m + 1..]) == Keys(s)
  {
    hide Uses, Keys;
    var t := [e] + s[..m] + s[m + 1..];
    forall j | 0 <= j < |t| ensures UsedSince(c, ops, t[j].key) == Keys(t[..j]) {
      if j == 0 {
        assert t[..0] == [] && Keys<V>([]) == {} by { NoKeys<V>(); }
      } else if j <= m {
        assert t[j] == s[j - 1] && t[..j] == [e] + s[..j - 1];
        KeysFront(e, s[..j - 1]);
      } else {
        assert t[j] == s[j];
        AmongKeys(s[..j], m);
        MovedKeys(s[..j], m, e);
        assert t[..j] == [e] + s[..j][..m] + s[..j][m + 1..];
      }
    }
    MovedKeys(s, m, e);
  }

  lemma AmongKeys<V(!new)>(s: seq<Entry<V>>, i: nat)
    requires i < |s|
    ensures s[i].key in Keys(s)
  {
  }

  lemma NoKeys<V(!new)>()
    ensures Keys<V>([]) == {}
  {
  }

  lemma MovedKeys<V(!new)>(s: seq<Entry<V>>, m: nat, e: Entry<V>)
    requires m < |s| && s[m].key == e.key
    ensures Keys([e] + s[..m] + s[m + 1..]) == Keys(s)
  {
    hide Keys;
    assert s == s[..m] + ([s[m]] + s[m + 1..]);
    assert [e] + s[..m] + s[m + 1..] == [e] + (s[..m] + s[m + 1..]);
    KeysParts(s[..m], [s[m]] + s[m + 1..]);
    KeysFront(s[m], s[m + 1..]);
    KeysFront(e, s[..m] + s[m + 1..]);
    KeysParts(s[..m], s[m + 1..]);
  }

  /** A new key goes in front of all others. */
  lemma PushedStacked<V(!new)>(c: int, ops: seq<Op<V>>, s: seq<Entry<V>>, e: Entry<V>)
    requires ops != [] && Uses(c, ops, |ops| - 1) && ops[|ops| - 1].key == e.key
    requires !Has(s, e.key) && Stacked(c, ops[..|ops| - 1], s)
    ensures Stacked(c, ops, [e] + s)
  {
    hide Uses, Keys;
    var t := [e] + s;
    forall j | 0 <= j < |t| ensures UsedSince(c, ops, t[j].key) == Keys(t[..j]) {
      if j == 0 {
        assert t[..0] == [] && Keys<V>([]) == {} by { NoKeys<V>(); }
      } else {
        assert t[j] == s[j - 1] && t[..j] == [e] + s[..j - 1];
        KeysFront(e, s[..j - 1]);
      }
    }
  }

  /** What a call that uses no key leaves. */
  lemma UnusedKeeps<V(!new)>(c: int, ops: seq<Op<V>>, s: seq<Entry<V>>)
    requires ops != [] && !Uses(c, ops, |ops| - 1) && Stacked(c, ops[..|ops| - 1], s)
    requires AllCrowded(c, ops[..|ops| - 1], s)
    ensures Stacked(c, ops, s) && AllCrowded(c, ops, s)
  {
    hide Uses, Keys;
    forall k ensures Crowded(c, ops, s, k) {
      assert Crowded(c, ops[..|ops| - 1], s, k);
    }
  }

  /** What a call that uses a key of the cache leaves. */
  lemma MovedKeeps<V(!new)>(c: int, ops: seq<Op<V>>, s: seq<Entry<V>>, m: nat, e: Entry<V>)
    requires ops != [] && Uses(c, ops, |ops| - 1) && ops[|ops| - 1].key == e.key
    requires UniqueKeys(s) && m < |s| && s[m].key == e.key && Stacked(c, ops[..|ops| - 1], s)
    requires AllCrowded(c, ops[..|ops| - 1], s)
    ensures var t := [e] + s[..m] + s[m + 1..]; Stacked(c, ops, t) && AllCrowded(c, ops, t)
  {
    MovedStacked(c, ops, s, m, e);
    var t := [e] + s[..m] + s[m + 1..];
    assert |t| == |s|;
    hide Uses, Stacked;
    forall k ensures Crowded(c, ops, t, k) {
      assert Crowded(c, ops[..|ops| - 1], s, k);
      HasIsKey(s, k);
      HasIsKey(t, k);
    }
  }

  lemma HasIsKey<V(!new)>(s: seq<Entry<V>>, k: string)
    ensures Has(s, k) <==> k in Keys(s)
  {
  }

  /** What a put of a new key leaves, after the trim. */
  lemma PushedKeeps<V(!new)>(c: int, ops: seq<Op<V>>, s: seq<Entry<V>>, e: Entry<V>)
    requires ops != [] && Uses(c, ops, |ops| - 1) && ops[|ops| - 1].key == e.key
    requires !Has(s, e.key) && |s| <= Max(c, 0) && Stacked(c, ops[..|ops| - 1], s)
    requires AllCrowded(c, ops[..|ops| - 1], s)
    ensures var t := Trim(c, [e] + s); Stacked(c, ops, t) && AllCrowded(c, ops, t)
  {
    PushedStacked(c, ops, s, e);
    hide Uses, Crowded, Keys, UsedSince;
    var all := [e] + s;
    var t := Trim(c, all);
    forall i | 0 <= i < |t| ensures UsedSince(c, ops, t[i].key) == Keys(t[..i]) {
      assert t[i] == all[i] && t[..i] == all[..i];
    }
    forall k ensures Crowded(c, ops, t, k) {
      assert Crowded(c, ops[..|ops| - 1], s, k);
      PushedCrowded(c, ops, s, e, k);
    }
  }

  lemma PushedCrowded<V(!new)>(c: int, ops: seq<Op<V>>, s: seq<Entry<V>>, e: Entry<V>, k: string)
    requires ops != [] && Uses(c, ops, |ops| - 1) && ops[|ops| - 1].key == e.key
    requires !Has(s, e.key) && |s| <= Max(c, 0) && Stacked(c, ops, [e] + s)
    requires Crowded(c, ops[..|ops| - 1], s, k)
    ensures Crowded(c, ops, Trim(c, [e] + s), k)
  {
    var all := [e] + s;
    HasFront(e, s, k);
    KeysFront(e, s);
    hide Uses, Has;
    if |s| >= c {
      var t, last := all[..|s|], all[|s|];
      assert all == t + [last] && Trim(c, all) == t;
      KeysParts(t, [last]);
      OnlyKey(last, k);
      HasIsKey(all, k);
      HasIsKey(t, k);
      assert UsedSince(c, ops, last.key) == Keys(t);
      hide Keys, Stacked;
    }
  }

  lemma OnlyKey<V(!new)>(e: Entry<V>, k: string)
    ensures k in Keys([e]) <==> k == e.key
  {
    assert [e][0] == e;
  }

  lemma {:induction false} RunIsStacked<V(!new)>(c: int, ops: seq<Op<V>>)
    requires OnlyGetsAndPuts(ops)
    ensures Stacked(c, ops, Run(c, [], ops)) && AllCrowded(c, ops, Run(c, [], ops))
  {
    if ops != [] {
      var n := |ops| - 1;
      var before, p := ops[..n], ops[n];
      RunIsStacked(c, before);
      RunIsRanked(c, before);
      RunLast(c, ops);
      var s := Run<V>(c, [], before);
      hide Run, Stacked, AllCrowded, Ranked;
      if !Uses(c, ops, n) {
        UnusedKeeps(c, ops, s);
      } else if Has(s, p.key) {
        var m :| 0 <= m < |s| && s[m].key == p.key;
        if p.Get? {
          GetMoves(s, p.key, p.now, m);
          MovedKeeps(c, ops, s, m, Entry(p.key, s[m].value, p.now));
        } else {
          PutAt(c, s, p.key, p.value, p.now, m);
          MovedKeeps(c, ops, s, m, Entry(p.key, p.value, p.now));
        }
      } else {
        PushedKeeps(c, ops, s, Entry(p.key, p.value, p.now));
      }
    }
  }

  lemma {:induction false} KeysSize<V(!new)>(s: seq<Entry<V>>)
    requires UniqueKeys(s)
    ensures |Keys(s)| == |s|
  {
    if s == [] {
      NoKeys<V>();
    } else {
      KeysSize(s[1..]);
      KeysFront(s[0], s[1..]);
      assert s == [s[0]] + s[1..];
      HasIsKey(s[1..], s[0].key);
    }
  }

  /** Without deletions and expiry a cache of capacity c holds exactly the keys that were put and since whose
      last put or hit fewer than c other keys were put or hit. */
  lemma KeptIff<V(!new)>(c: int, ops: seq<Op<V>>, k: string)
    requires OnlyGetsAndPuts(ops)
    ensures Has(Run(c, [], ops), k) <==> LastUse(c, ops, k).Some? && |UsedSince(c, ops, k)| < c
  {
    RunIsRanked(c, ops);
    RunIsStacked(c, ops);
    var s := Run<V>(c, [], ops);
    hide Run, UsedSince, LastUse, Keys;
    if Has(s, k) {
      var i :| 0 <= i < |s| && s[i].key == k;
      assert s[i] in s && Fits(c, ops, s[i]);
      KeysSize(s[..i]);
    } else {
      assert Crowded(c, ops, s, k);
      if LastUse(c, ops, k).Some? {
        KeysSize(s);
        Smaller(Keys(s), UsedSince(c, ops, k));
      }
    }
  }

  lemma {:induction false} Smaller(a: set<string>, b: set<string>)
    requires a <= b
    ensures |a| <= |b|
  {
    if a != {} {
      var x :| x in a;
      Smaller(a - {x}, b - {x});
    }
  }
}
