/** BuckStream's LRU cache as a plain move-to-front sequence: most recently used entry first.
    This is the specification the linked-list class is proved against. */
module LruModel {
  import opened Prelude

  datatype Entry<V> = Entry(key: string, value: V, lastAccessed: int)

  function OtherKey<V(!new)>(key: string): Entry<V> -> bool { (e: Entry<V>) => e.key != key }

  function FreshAt<V(!new)>(ttl: int, now: int): Entry<V> -> bool { (e: Entry<V>) => now - e.lastAccessed <= ttl }

  predicate Has<V(!new)>(s: seq<Entry<V>>, key: string) { exists i :: 0 <= i < |s| && s[i].key == key }

  function Lookup<V(!new)>(s: seq<Entry<V>>, key: string): (r: Option<V>)
    ensures r.Some? <==> Has(s, key)
    ensures r.Some? ==> exists i :: 0 <= i < |s| && s[i].key == key && s[i].value == r.value
  {
    if s == [] then None
    else if s[0].key == key then
      assert s[0].key == key; Some(s[0].value)
    else
      assert forall i :: 0 < i < |s| ==> s[i] == s[1..][i - 1];
      Lookup(s[1..], key)
  }

  function Without<V(!new)>(s: seq<Entry<V>>, key: string): seq<Entry<V>> { Filter(OtherKey(key), s) }

  function Touch<V(!new)>(s: seq<Entry<V>>, key: string, value: V, now: int): seq<Entry<V>> {
    [Entry(key, value, now)] + Without(s, key)
  }

  function Trim<V(!new)>(capacity: int, s: seq<Entry<V>>): seq<Entry<V>> {
    if |s| > capacity && s != [] then s[..|s| - 1] else s
  }

  function AfterGet<V(!new)>(s: seq<Entry<V>>, key: string, now: int): seq<Entry<V>> {
    match Lookup(s, key)
    case None => s
    case Some(v) => Touch(s, key, v, now)
  }

  function AfterPut<V(!new)>(capacity: int, s: seq<Entry<V>>, key: string, value: V, now: int): seq<Entry<V>> {
    if Has(s, key) then Touch(s, key, value, now)
    else Trim(capacity, [Entry(key, value, now)] + s)
  }

  function AfterExpiry<V(!new)>(s: seq<Entry<V>>, ttl: int, now: int): seq<Entry<V>> { Filter(FreshAt(ttl, now), s) }

  ghost predicate UniqueKeys<V(!new)>(s: seq<Entry<V>>) {
    forall i, j :: 0 <= i < j < |s| ==> s[i].key != s[j].key
  }

  /** Recency order is time order: nothing further back was used later. */
  ghost predicate Sorted<V(!new)>(s: seq<Entry<V>>) {
    forall i, j :: 0 <= i < j < |s| ==> s[i].lastAccessed >= s[j].lastAccessed
  }

  ghost predicate UpTo<V(!new)>(s: seq<Entry<V>>, clock: int) {
    forall i :: 0 <= i < |s| ==> s[i].lastAccessed <= clock
  }

  /** What every cache state satisfies; a non-positive capacity keeps the cache empty. */
  ghost predicate Inv<V(!new)>(capacity: int, s: seq<Entry<V>>, clock: int) {
    UniqueKeys(s) && Sorted(s) && UpTo(s, clock) && |s| <= Max(capacity, 0)
  }

  /** In front of everything else: a key of its own, used no earlier. */
  ghost predicate Leads<V(!new)>(e: Entry<V>, s: seq<Entry<V>>) {
    forall x :: x in s ==> x.key != e.key && x.lastAccessed <= e.lastAccessed
  }

  lemma HeadLeads<V(!new)>(s: seq<Entry<V>>)
    requires UniqueKeys(s) && Sorted(s) && s != []
    ensures Leads(s[0], s[1..])
  {
    forall x | x in s[1..] ensures x.key != s[0].key && x.lastAccessed <= s[0].lastAccessed {
      var i :| 0 <= i < |s[1..]| && s[1..][i] == x;
      assert x == s[i + 1];
    }
  }

  lemma LeadKeeps<V(!new)>(e: Entry<V>, s: seq<Entry<V>>, clock: int)
    requires UniqueKeys(s) && Sorted(s) && UpTo(s, clock) && Leads(e, s) && e.lastAccessed <= clock
    ensures UniqueKeys([e] + s) && Sorted([e] + s) && UpTo([e] + s, clock)
  {
    forall i | 0 <= i < |s| ensures s[i].key != e.key && s[i].lastAccessed <= e.lastAccessed {
      assert s[i] in s;
    }
  }

  /** Filtering keeps the order facts, whatever the filter. */
  lemma {:induction false} FilterKeeps<V(!new)>(keep: Entry<V> -> bool, s: seq<Entry<V>>, clock: int)
    requires UniqueKeys(s) && Sorted(s) && UpTo(s, clock)
    ensures var r := Filter(keep, s); UniqueKeys(r) && Sorted(r) && UpTo(r, clock)
  {
    if s != [] {
      FilterKeeps(keep, s[1..], clock);
      HeadLeads(s);
      LeadKeeps(s[0], Filter(keep, s[1..]), clock);
    }
  }

  lemma LookupPresent<V(!new)>(s: seq<Entry<V>>, i: nat)
    requires UniqueKeys(s) && i < |s|
    ensures Lookup(s, s[i].key) == Some(s[i].value)
  {
    assert Has(s, s[i].key);
  }

  lemma WithoutAt<V(!new)>(s: seq<Entry<V>>, i: nat)
    requires UniqueKeys(s) && i < |s|
    ensures Without(s, s[i].key) == s[..i] + s[i + 1..]
  {
    var keep := OtherKey<V>(s[i].key);
    assert s == s[..i] + ([s[i]] + s[i + 1..]);
    FilterAppend(keep, s[..i], [s[i]] + s[i + 1..]);
    FilterAppend(keep, [s[i]], s[i + 1..]);
    FilterAll(keep, s[..i]);
    FilterAll(keep, s[i + 1..]);
    FilterNone(keep, [s[i]]);
  }

  lemma {:induction false} WithoutAbsent<V(!new)>(s: seq<Entry<V>>, key: string)
    requires !Has(s, key)
    ensures Without(s, key) == s
  {
    forall x | x in s ensures OtherKey(key)(x) {
      var i :| 0 <= i < |s| && s[i] == x;
    }
    FilterAll(OtherKey(key), s);
  }

  lemma TouchShrinks<V(!new)>(s: seq<Entry<V>>, key: string)
    requires UniqueKeys(s) && Has(s, key)
    ensures |Without(s, key)| == |s| - 1
  {
    var i :| 0 <= i < |s| && s[i].key == key;
    WithoutAt(s, i);
  }

  lemma TouchKeeps<V(!new)>(capacity: int, s: seq<Entry<V>>, key: string, value: V, clock: int, now: int)
    requires Inv(capacity, s, clock) && clock <= now && Has(s, key)
    ensures Inv(capacity, Touch(s, key, value, now), now)
  {
    TouchShrinks(s, key);
    FilterKeeps(OtherKey(key), s, clock);
    var t, e := Without(s, key), Entry(key, value, now);
    forall x | x in t ensures x.key != key && x.lastAccessed <= now {
      var i :| 0 <= i < |t| && t[i] == x;
    }
    assert UpTo(t, now);
    hide UniqueKeys, Sorted, UpTo, Filter, Has;
    LeadKeeps(e, t, now);
  }

  /** Both cases of a put, spelled out on the list. */
  lemma PutAt<V(!new)>(capacity: int, s: seq<Entry<V>>, key: string, value: V, now: int, i: nat)
    requires UniqueKeys(s) && (Has(s, key) ==> i < |s| && s[i].key == key)
    ensures var e := Entry(key, value, now);
      AfterPut(capacity, s, key, value, now) ==
        if Has(s, key) then [e] + s[..i] + s[i + 1..] else Trim(capacity, [e] + s)
  {
    if Has(s, key) {
      WithoutAt(s, i);
    }
  }

  /** Every operation keeps the invariant under a clock that only moves forward. */
  lemma GetKeeps<V(!new)>(capacity: int, s: seq<Entry<V>>, key: string, clock: int, now: int)
    requires Inv(capacity, s, clock) && clock <= now
    ensures Inv(capacity, AfterGet(s, key, now), now)
  {
    if Has(s, key) {
      TouchKeeps(capacity, s, key, Lookup(s, key).value, clock, now);
    }
  }

  lemma PutKeeps<V(!new)>(capacity: int, s: seq<Entry<V>>, key: string, value: V, clock: int, now: int)
    requires Inv(capacity, s, clock) && clock <= now
    ensures Inv(capacity, AfterPut(capacity, s, key, value, now), now)
    ensures capacity > 0 ==> Lookup(AfterPut(capacity, s, key, value, now), key) == Some(value)
  {
    if Has(s, key) {
      TouchKeeps(capacity, s, key, value, clock, now);
    }
  }

  lemma FilteredKeeps<V(!new)>(capacity: int, s: seq<Entry<V>>, keep: Entry<V> -> bool, clock: int)
    requires Inv(capacity, s, clock)
    ensures Inv(capacity, Filter(keep, s), clock)
  {
    FilterKeeps(keep, s, clock);
  }

  lemma PrefixKeeps<V(!new)>(capacity: int, s: seq<Entry<V>>, clock: int, now: int, n: nat)
    requires Inv(capacity, s, clock) && clock <= now && n <= |s|
    ensures Inv(capacity, s[..n], now)
  {
  }

  /** In a sorted list the expired entries are exactly a suffix, so stopping at the first fresh
      tail loses nothing: dropping an expired tail does not change which entries are fresh. */
  lemma ExpiredTail<V(!new)>(s: seq<Entry<V>>, ttl: int, now: int)
    requires s != [] && now - s[|s| - 1].lastAccessed > ttl
    ensures AfterExpiry(s, ttl, now) == AfterExpiry(s[..|s| - 1], ttl, now)
  {
    var n := |s| - 1;
    assert s == s[..n] + [s[n]];
    FilterAppend(FreshAt(ttl, now), s[..n], [s[n]]);
  }

  lemma FreshTail<V(!new)>(capacity: int, s: seq<Entry<V>>, clock: int, ttl: int, now: int)
    requires Inv(capacity, s, clock)
    requires s == [] || now - s[|s| - 1].lastAccessed <= ttl
    ensures AfterExpiry(s, ttl, now) == s
  {
    forall x | x in s ensures FreshAt(ttl, now)(x) {
      var i :| 0 <= i < |s| && s[i] == x;
    }
    FilterAll(FreshAt(ttl, now), s);
  }
}
