/** LRU inclusion: run the same calls on a small and on a large cache, and the small one's list stays
    a subsequence of the large one's, so growing the cache never turns a hit into a miss. */
module LruInclusion {
  import opened Prelude
  import opened LruModel

  datatype Op<V> =
    | Get(key: string, now: int)
    | Put(key: string, value: V, now: int)
    | Delete(key: string)
    | EvictExpired(ttl: int, now: int)

  function Apply<V(!new)>(capacity: int, s: seq<Entry<V>>, op: Op<V>): seq<Entry<V>> {
    match op
    case Get(key, now) => AfterGet(s, key, now)
    case Put(key, value, now) => AfterPut(capacity, s, key, value, now)
    case Delete(key) => Without(s, key)
    case EvictExpired(ttl, now) => AfterExpiry(s, ttl, now)
  }

  function Clock<V>(op: Op<V>, clock: int): int {
    if op.Delete? then clock else op.now
  }

  /** The clock readings of the calls never go back. */
  ghost predicate Forward<V(!new)>(ops: seq<Op<V>>, clock: int) {
    ops == [] || (clock <= Clock(ops[0], clock) && Forward(ops[1..], Clock(ops[0], clock)))
  }

  function Run<V(!new)>(capacity: int, s: seq<Entry<V>>, ops: seq<Op<V>>): seq<Entry<V>>
    decreases ops
  {
    if ops == [] then s else Run(capacity, Apply(capacity, s, ops[0]), ops[1..])
  }

  /** `a` is `b` with some elements left out. */
  ghost predicate Subsequence<T>(a: seq<T>, b: seq<T>) {
    if a == [] then true
    else if b == [] then false
    else if a[0] == b[0] then Subsequence(a[1..], b[1..])
    else Subsequence(a, b[1..])
  }

  function KeyIn<V>(keys: set<string>): Entry<V> -> bool { (e: Entry<V>) => e.key in keys }

  function Keys<V>(s: seq<Entry<V>>): set<string> { set i | 0 <= i < |s| :: s[i].key }

  /** The small list is the large one cut down to the small one's keys, and the large list is longer
      by at most the difference of the capacities. */
  ghost predicate Included<V(!new)>(c: int, d: int, small: seq<Entry<V>>, large: seq<Entry<V>>) {
    small == Filter(KeyIn(Keys(small)), large) && |large| - |small| <= Max(d, 0) - Max(c, 0)
  }

  /** Any key set that cuts `large` down to `small` may be narrowed to the keys of `small`. */
  lemma Narrow<V(!new)>(large: seq<Entry<V>>, keys: set<string>)
    ensures var small := Filter(KeyIn(keys), large); small == Filter(KeyIn(Keys(small)), large)
  {
    var small := Filter(KeyIn(keys), large);
    forall e | e in large ensures KeyIn(keys)(e) == KeyIn(Keys(small))(e) {
      if e.key in keys {
        var i :| 0 <= i < |small| && small[i] == e;
      } else {
        forall i | 0 <= i < |small| ensures small[i].key != e.key {
          assert small[i] in small;
        }
      }
    }
    FilterAgrees(KeyIn(keys), KeyIn(Keys(small)), large);
  }

  lemma {:induction false} Partition<V(!new)>(keep: Entry<V> -> bool, s: seq<Entry<V>>, keys: set<string>)
    ensures |Filter(KeyIn(keys), s)| - |Filter(keep, Filter(KeyIn(keys), s))| <= |s| - |Filter(keep, s)|
  {
    if s != [] {
      Partition(keep, s[1..], keys);
    }
  }

  /** Removing by any rule that looks at one entry at a time keeps the inclusion. */
  lemma FilterIncludes<V(!new)>(c: int, d: int, small: seq<Entry<V>>, large: seq<Entry<V>>, keep: Entry<V> -> bool)
    requires Included(c, d, small, large)
    ensures Included(c, d, Filter(keep, small), Filter(keep, large))
  {
    var keys := Keys(small);
    FilterCommutes(keep, KeyIn(keys), large);
    Partition(keep, large, keys);
    Narrow(Filter(keep, large), keys);
  }

  lemma HasIncludes<V(!new)>(small: seq<Entry<V>>, large: seq<Entry<V>>, keys: set<string>, key: string)
    requires UniqueKeys(large) && small == Filter(KeyIn(keys), large)
    ensures Has(small, key) ==> Has(large, key) && Lookup(large, key) == Lookup(small, key)
  {
    if Has(small, key) {
      var j :| 0 <= j < |small| && small[j].key == key && small[j].value == Lookup(small, key).value;
      assert small[j] in large;
      var i :| 0 <= i < |large| && large[i] == small[j];
      LookupPresent(large, i);
    }
  }

  /** Pushing one entry on both lists, once its key is in neither. */
  lemma PushIncludes<V(!new)>(small: seq<Entry<V>>, large: seq<Entry<V>>, keys: set<string>, e: Entry<V>)
    requires small == Filter(KeyIn(keys), large) && !Has(large, e.key)
    ensures [e] + small == Filter(KeyIn(keys + {e.key}), [e] + large)
  {
    forall x | x in large ensures x.key != e.key {
      var i :| 0 <= i < |large| && large[i] == x;
    }
    FilterAgrees(KeyIn(keys), KeyIn(keys + {e.key}), large);
    assert ([e] + large)[1..] == large;
  }

  lemma TouchIncludes<V(!new)>(small: seq<Entry<V>>, large: seq<Entry<V>>, keys: set<string>, e: Entry<V>)
    requires small == Filter(KeyIn(keys), large)
    ensures [e] + Without(small, e.key) == Filter(KeyIn(keys + {e.key}), [e] + Without(large, e.key))
  {
    var less := Without(large, e.key);
    FilterCommutes(OtherKey(e.key), KeyIn(keys), large);
    forall i | 0 <= i < |less| ensures less[i].key != e.key {
      assert less[i] in less;
    }
    PushIncludes(Without(small, e.key), less, keys, e);
  }

  lemma WithoutLength<V(!new)>(s: seq<Entry<V>>, key: string)
    requires UniqueKeys(s)
    ensures |Without(s, key)| == |s| - (if Has(s, key) then 1 else 0)
  {
    if Has(s, key) {
      var i :| 0 <= i < |s| && s[i].key == key;
      WithoutAt(s, i);
    } else {
      WithoutAbsent(s, key);
    }
  }

  /** The large list's tail is the small list's tail, if it is there at all. */
  lemma LastIncluded<V(!new)>(large: seq<Entry<V>>, keys: set<string>)
    requires large != []
    ensures var last := large[|large| - 1];
      Filter(KeyIn(keys), large) == Filter(KeyIn(keys), large[..|large| - 1]) + if last.key in keys then [last] else []
  {
    var n := |large| - 1;
    assert large == large[..n] + [large[n]];
    FilterAppend(KeyIn(keys), large[..n], [large[n]]);
  }

  lemma {:induction false} Both<T(!new)>(p: T -> bool, q: T -> bool, r: T -> bool, s: seq<T>)
    requires forall x :: x in s ==> r(x) == (p(x) && q(x))
    ensures Filter(r, s) == Filter(q, Filter(p, s))
  {
    if s != [] {
      Both(p, q, r, s[1..]);
    }
  }

  /** The small list without its tail is again a cut of the large list: by the keys less the tail's. */
  lemma DropSmallTail<V(!new)>(large: seq<Entry<V>>, keys: set<string>, clock: int) returns (fewer: set<string>)
    requires UniqueKeys(large) && Sorted(large) && UpTo(large, clock) && Filter(KeyIn(keys), large) != []
    ensures var small := Filter(KeyIn(keys), large); Filter(KeyIn(fewer), large) == small[..|small| - 1]
  {
    var small := Filter(KeyIn(keys), large);
    var n := |small| - 1;
    var last := small[n].key;
    fewer := keys - {last};
    Both(KeyIn(keys), OtherKey(last), KeyIn(fewer), large);
    FilterKeeps(KeyIn(keys), large, clock);
    WithoutAt(small, n);
    assert small[..n] + small[n + 1..] == small[..n];
  }

  lemma Trimmed<V(!new)>(c: int, d: int, small: seq<Entry<V>>, large: seq<Entry<V>>, keys: set<string>, clock: int)
    requires c <= d && small != [] && large != []
    requires UniqueKeys(large) && Sorted(large) && UpTo(large, clock)
    requires small == Filter(KeyIn(keys), large)
    requires |large| > d ==> |small| > c
    requires |Trim(d, large)| - |Trim(c, small)| <= Max(d, 0) - Max(c, 0)
    ensures Included(c, d, Trim(c, small), Trim(d, large))
  {
    var big := Trim(d, large);
    if |large| > d {
      LastIncluded(large, keys);
    }
    var cut := Filter(KeyIn(keys), big);
    var final := keys;
    if cut != Trim(c, small) {
      final := DropSmallTail(big, keys, clock);
    }
    assert Filter(KeyIn(final), big) == Trim(c, small);
    Narrow(big, final);
  }

  /** A put of a key that the large cache has and the small one lacks. */
  lemma PutHalfNew<V(!new)>(c: int, d: int, small: seq<Entry<V>>, large: seq<Entry<V>>,
                            key: string, value: V, clock: int, now: int)
    requires c <= d && clock <= now && !Has(small, key) && Has(large, key)
    requires Inv(c, small, clock) && Inv(d, large, clock) && Included(c, d, small, large)
    ensures Included(c, d, AfterPut(c, small, key, value, now), AfterPut(d, large, key, value, now))
  {
    var e, keys := Entry(key, value, now), Keys(small);
    HasIncludes(small, large, keys, key);
    WithoutLength(large, key);
    WithoutAbsent(small, key);
    TouchIncludes(small, large, keys, e);
    TouchKeeps(d, large, key, value, clock, now);
    var final := keys + {key};
    if |small| + 1 > c {
      final := DropSmallTail(Touch(large, key, value, now), final, now);
    }
    hide Has, UniqueKeys, Sorted, UpTo, Filter;
    Narrow(Touch(large, key, value, now), final);
  }

  /** A put of a key that is new to both. */
  lemma PutNew<V(!new)>(c: int, d: int, small: seq<Entry<V>>, large: seq<Entry<V>>,
                        key: string, value: V, clock: int, now: int)
    requires c <= d && clock <= now && !Has(small, key) && !Has(large, key)
    requires Inv(c, small, clock) && Inv(d, large, clock) && Included(c, d, small, large)
    ensures Included(c, d, AfterPut(c, small, key, value, now), AfterPut(d, large, key, value, now))
  {
    var e, keys := Entry(key, value, now), Keys(small);
    forall x | x in large ensures x.key != key && x.lastAccessed <= now {
      var i :| 0 <= i < |large| && large[i] == x;
    }
    assert UpTo(large, now);
    LeadKeeps(e, large, now);
    PushIncludes(small, large, keys, e);
    hide Has, UniqueKeys, Sorted, UpTo, Filter;
    Trimmed(c, d, [e] + small, [e] + large, keys + {key}, now);
  }

  lemma PutIncludes<V(!new)>(c: int, d: int, small: seq<Entry<V>>, large: seq<Entry<V>>,
                             key: string, value: V, clock: int, now: int)
    requires c <= d && clock <= now
    requires Inv(c, small, clock) && Inv(d, large, clock) && Included(c, d, small, large)
    ensures Included(c, d, AfterPut(c, small, key, value, now), AfterPut(d, large, key, value, now))
  {
    var keys := Keys(small);
    HasIncludes(small, large, keys, key);
    if Has(small, key) {
      WithoutLength(small, key);
      WithoutLength(large, key);
      TouchIncludes(small, large, keys, Entry(key, value, now));
      Narrow(Touch(large, key, value, now), keys + {key});
    } else if Has(large, key) {
      PutHalfNew(c, d, small, large, key, value, clock, now);
    } else {
      PutNew(c, d, small, large, key, value, clock, now);
    }
  }

  lemma GetIncludes<V(!new)>(c: int, d: int, small: seq<Entry<V>>, large: seq<Entry<V>>,
                             key: string, clock: int, now: int)
    requires Inv(c, small, clock) && Inv(d, large, clock) && Included(c, d, small, large)
    ensures Included(c, d, AfterGet(small, key, now), AfterGet(large, key, now))
  {
    var keys := Keys(small);
    HasIncludes(small, large, keys, key);
    if Has(large, key) {
      var e := Entry(key, Lookup(large, key).value, now);
      WithoutLength(small, key);
      WithoutLength(large, key);
      if Has(small, key) {
        TouchIncludes(small, large, keys, e);
        Narrow([e] + Without(large, key), keys + {key});
      } else {
        FilterCommutes(OtherKey(key), KeyIn(keys), large);
        WithoutAbsent(small, key);
        assert key !in keys;
        assert Filter(KeyIn(keys), [e] + Without(large, key)) == Filter(KeyIn(keys), Without(large, key));
      }
    }
  }

  lemma ApplyKeeps<V(!new)>(capacity: int, s: seq<Entry<V>>, op: Op<V>, clock: int)
    requires Inv(capacity, s, clock) && clock <= Clock(op, clock)
    ensures Inv(capacity, Apply(capacity, s, op), Clock(op, clock))
  {
    match op
    case Get(key, now) => GetKeeps(capacity, s, key, clock, now);
    case Put(key, value, now) => PutKeeps(capacity, s, key, value, clock, now);
    case Delete(key) => FilteredKeeps(capacity, s, OtherKey(key), clock);
    case EvictExpired(ttl, now) => FilteredKeeps(capacity, s, FreshAt(ttl, now), clock);
  }

  /** The invariant holds in every run: order, distinct keys, time order and the size bound. */
  lemma {:induction false} RunKeeps<V(!new)>(capacity: int, s: seq<Entry<V>>, ops: seq<Op<V>>, clock: int)
    returns (end: int)
    requires Inv(capacity, s, clock) && Forward(ops, clock)
    ensures Inv(capacity, Run(capacity, s, ops), end)
    decreases ops
  {
    end := clock;
    if ops != [] {
      ApplyKeeps(capacity, s, ops[0], clock);
      end := RunKeeps(capacity, Apply(capacity, s, ops[0]), ops[1..], Clock(ops[0], clock));
    }
  }

  lemma {:induction false} RunIncludes<V(!new)>(c: int, d: int, small: seq<Entry<V>>, large: seq<Entry<V>>,
                                                  ops: seq<Op<V>>, clock: int)
    requires c <= d && Forward(ops, clock)
    requires Inv(c, small, clock) && Inv(d, large, clock) && Included(c, d, small, large)
    ensures Included(c, d, Run(c, small, ops), Run(d, large, ops))
    decreases ops
  {
    if ops != [] {
      ApplyKeeps(c, small, ops[0], clock);
      ApplyKeeps(d, large, ops[0], clock);
      match ops[0] {
        case Get(key, now) => GetIncludes(c, d, small, large, key, clock, now);
        case Put(key, value, now) => PutIncludes(c, d, small, large, key, value, clock, now);
        case Delete(key) => FilterIncludes(c, d, small, large, OtherKey(key));
        case EvictExpired(ttl, now) => FilterIncludes(c, d, small, large, FreshAt(ttl, now));
      }
      RunIncludes(c, d, Apply(c, small, ops[0]), Apply(d, large, ops[0]), ops[1..], Clock(ops[0], clock));
    }
  }

  lemma {:induction false} FilterIsSubsequence<T(!new)>(keep: T -> bool, s: seq<T>)
    ensures Subsequence(Filter(keep, s), s)
  {
    if s != [] {
      FilterIsSubsequence(keep, s[1..]);
      var r := Filter(keep, s[1..]);
      if !keep(s[0]) && r != [] {
        assert r[0] in r;
      }
    }
  }

  /** From an empty start, for any two capacities c <= d and any calls under a forward clock: the
      smaller cache's list is a subsequence of the larger one's (keys, values and times alike), and
      every hit of the smaller is a hit of the larger with the same value. */
  lemma LargerNeverMisses<V(!new)>(c: int, d: int, ops: seq<Op<V>>, clock: int, key: string)
    requires c <= d && Forward(ops, clock)
    ensures Subsequence(Run(c, [], ops), Run(d, [], ops))
    ensures Lookup(Run(c, [], ops), key).Some? ==> Lookup(Run(d, [], ops), key) == Lookup(Run(c, [], ops), key)
  {
    RunIncludes(c, d, [], [], ops, clock);
    var large := Run<V>(d, [], ops);
    var end := RunKeeps<V>(d, [], ops, clock);
    FilterIsSubsequence(KeyIn(Keys(Run<V>(c, [], ops))), large);
    HasIncludes(Run(c, [], ops), large, Keys(Run<V>(c, [], ops)), key);
  }
}
