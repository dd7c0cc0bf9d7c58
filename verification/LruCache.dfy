/** BuckStream's LRU cache in the form the Go code has: a doubly linked list of nodes and a map
    into it, rewritten in place. Every method is proved against the sequence in LruModel. */
module LruCache {
  import opened Prelude
  import opened LruModel

  class Node<V(!new)> {
    const key: string
    var value: V
    var lastAccessed: int
    var prev: Node?<V>
    var next: Node?<V>

    constructor (key: string, value: V, now: int)
      ensures this.key == key && this.value == value && lastAccessed == now
      ensures prev == null && next == null
    {
      this.key, this.value, lastAccessed := key, value, now;
      prev, next := null, null;
    }
  }

  /** The node at position `i`, or null past either end. */
  ghost function At<V(!new)>(nodes: seq<Node<V>>, i: int): Node?<V> {
    if 0 <= i < |nodes| then nodes[i] else null
  }

  /** The map holds exactly the listed nodes, each under its own key. */
  ghost predicate Indexed<V(!new)>(nodes: seq<Node<V>>, items: map<string, Node<V>>) {
    && (forall i :: 0 <= i < |nodes| ==> nodes[i].key in items && items[nodes[i].key] == nodes[i])
    && (forall k :: k in items ==> items[k] in nodes && items[k].key == k)
  }

  /** The nodes carry exactly the entries of `s`, in order. */
  ghost predicate Shows<V(!new)>(nodes: seq<Node<V>>, s: seq<Entry<V>>)
    reads nodes`value, nodes`lastAccessed
  {
    |s| == |nodes| &&
    forall i :: 0 <= i < |nodes| ==> s[i] == Entry(nodes[i].key, nodes[i].value, nodes[i].lastAccessed)
  }

  /** Each node's `prev` is its predecessor in `nodes`; `BackwardPast`: with the node at `i` bypassed. */
  ghost predicate Backward<V(!new)>(nodes: seq<Node<V>>)
    reads nodes`prev
  {
    forall k {:trigger nodes[k].prev} :: 0 <= k < |nodes| ==> nodes[k].prev == At(nodes, k - 1)
  }

  ghost predicate BackwardPast<V(!new)>(nodes: seq<Node<V>>, i: nat)
    reads nodes`prev
  {
    forall k {:trigger nodes[k].prev} :: 0 <= k < |nodes| && k != i ==>
      nodes[k].prev == At(nodes, if k == i + 1 then i - 1 else k - 1)
  }

  /** Each node's `next` is its successor in `nodes`; `ForwardPast`: with the node at `i` bypassed. */
  ghost predicate Forward<V(!new)>(nodes: seq<Node<V>>)
    reads nodes`next
  {
    forall k {:trigger nodes[k].next} :: 0 <= k < |nodes| ==> nodes[k].next == At(nodes, k + 1)
  }

  ghost predicate ForwardPast<V(!new)>(nodes: seq<Node<V>>, i: nat)
    reads nodes`next
  {
    forall k {:trigger nodes[k].next} :: 0 <= k < |nodes| && k != i ==>
      nodes[k].next == At(nodes, if k + 1 == i then i + 1 else k + 1)
  }

  ghost predicate Within<V(!new)>(nodes: seq<Node<V>>, repr: set<Node<V>>) {
    forall k :: 0 <= k < |nodes| ==> nodes[k] in repr
  }

  ghost predicate Distinct<V(!new)>(nodes: seq<Node<V>>) {
    forall i, j :: 0 <= i < j < |nodes| ==> nodes[i] != nodes[j]
  }

  lemma BackwardFront<V(!new)>(node: Node<V>, nodes: seq<Node<V>>)
    requires node.prev == null && (nodes != [] ==> nodes[0].prev == node)
    requires forall k {:trigger nodes[k].prev} :: 0 < k < |nodes| ==> nodes[k].prev == At(nodes, k - 1)
    ensures Backward([node] + nodes)
  {
    var all := [node] + nodes;
    forall k | 0 < k < |all| ensures all[k].prev == At(all, k - 1) {
      assert all[k] == nodes[k - 1];
    }
  }

  lemma ForwardFront<V(!new)>(node: Node<V>, nodes: seq<Node<V>>)
    requires node.next == At(nodes, 0) && Forward(nodes)
    ensures Forward([node] + nodes)
  {
    var all := [node] + nodes;
    forall k | 0 < k < |all| ensures all[k].next == At(all, k + 1) {
      assert all[k] == nodes[k - 1];
    }
  }

  lemma FrontKept<V(!new)>(node: Node<V>, nodes: seq<Node<V>>, contents: seq<Entry<V>>, repr: set<Node<V>>)
    requires Shows(nodes, contents) && Distinct(nodes) && Within(nodes, repr) && node !in nodes
    ensures Shows([node] + nodes, [Entry(node.key, node.value, node.lastAccessed)] + contents)
    ensures Distinct([node] + nodes) && Within([node] + nodes, repr + {node})
  {
  }

  class Cache<V(!new)> {
    const capacity: int
    var items: map<string, Node<V>>
    var head: Node?<V>
    var tail: Node?<V>
    ghost var nodes: seq<Node<V>>
    ghost var contents: seq<Entry<V>>
    ghost var clock: int
    ghost var repr: set<Node<V>>

    /** The links: `next` from `head` visits `nodes` in order, `prev` from `tail` visits them in reverse. */
    ghost predicate Linked()
      reads this`nodes, this`head, this`tail, this`repr, repr`prev, repr`next
    {
      && Within(nodes, repr)
      && head == At(nodes, 0)
      && tail == At(nodes, |nodes| - 1)
      && Backward(nodes)
      && Forward(nodes)
      && Distinct(nodes)
    }

    ghost predicate Listed()
      reads this`nodes, this`head, this`tail, this`contents, this`repr, repr
    {
      Linked() && Shows(nodes, contents)
    }

    ghost predicate Valid()
      reads this, repr
    {
      Listed() && Indexed(nodes, items) && Inv(capacity, contents, clock)
    }

    /** Where `k` steps of `next` from `head` lead: through `nodes`, then null. */
    ghost function WalkNext(k: nat): (n: Node?<V>)
      requires Linked()
      reads this`nodes, this`head, this`tail, this`repr, repr`prev, repr`next
      ensures n == At(nodes, k)
    {
      if k == 0 then head
      else
        var p := WalkNext(k - 1);
        if p == null then null else p.next
    }

    /** Where `k` steps of `prev` from `tail` lead: through `nodes` backwards, then null. */
    ghost function WalkPrev(k: nat): (n: Node?<V>)
      requires Linked()
      reads this`nodes, this`head, this`tail, this`repr, repr`prev, repr`next
      ensures n == At(nodes, |nodes| - 1 - k)
    {
      if k == 0 then tail
      else
        var p := WalkPrev(k - 1);
        if p == null then null else p.prev
    }

    constructor (capacity: int, ghost now: int)
      ensures Valid() && this.capacity == capacity && contents == [] && clock == now && fresh(repr)
    {
      this.capacity := capacity;
      items, head, tail := map[], null, null;
      nodes, contents, clock, repr := [], [], now, {};
    }

    /** A key is in the map exactly when the entry sequence has it, at the node the map names. */
    lemma Locate(key: string) returns (i: nat)
      requires Valid()
      ensures key in items <==> Has(contents, key)
      ensures key in items ==>
        && i < |nodes| == |contents| && nodes[i] == items[key] && nodes[i] in repr
        && contents[i] == Entry(key, nodes[i].value, nodes[i].lastAccessed)
      ensures UniqueKeys(contents) && Distinct(nodes)
    {
      i := 0;
      if key in items {
        i :| 0 <= i < |nodes| && nodes[i] == items[key];
        assert contents[i].key == key;
      }
    }

    lemma TailEntry()
      requires Listed()
      ensures |nodes| == |contents| && (tail == null <==> nodes == [])
      ensures tail != null ==> tail.lastAccessed == contents[|contents| - 1].lastAccessed
    {
    }

    method Get(key: string, now: int) returns (r: Option<V>)
      requires Valid() && clock <= now
      modifies this, repr
      ensures Valid() && clock == now && repr == old(repr)
      ensures r == Lookup(old(contents), key)
      ensures contents == AfterGet(old(contents), key, now)
      ensures !Has(old(contents), key) ==> r == None && contents == old(contents)
      ensures Has(old(contents), key) ==> (exists i ::
        && 0 <= i < |old(contents)| && old(contents)[i].key == key && r == Some(old(contents)[i].value)
        && contents == [Entry(key, old(contents)[i].value, now)] + old(contents)[..i] + old(contents)[i + 1..])
    {
      hide Linked, Indexed, Distinct, Inv, UniqueKeys, Filter, Lookup, Has;
      ghost var i := Locate(key);
      GetKeeps(capacity, contents, key, clock, now);
      clock := now;
      if key !in items {
        return None;
      }
      var node := items[key];
      LookupPresent(contents, i);
      WithoutAt(contents, i);
      IndexedMove(nodes, items, i);
      node.lastAccessed := now;
      contents := contents[i := Entry(key, node.value, now)];
      MoveToFront(node, i);
      assert contents == AfterGet(old(contents), key, now);
      return Some(node.value);
    }

    method Put(key: string, value: V, now: int)
      requires Valid() && clock <= now
      modifies this, repr
      ensures Valid() && clock == now && fresh(repr - old(repr))
      ensures contents == AfterPut(capacity, old(contents), key, value, now)
    {
      hide Linked, Indexed, Distinct, Inv, UniqueKeys, AfterPut, Has;
      ghost var i := Locate(key);
      PutKeeps(capacity, contents, key, value, clock, now);
      PutAt(capacity, contents, key, value, now, i);
      clock := now;
      if key in items {
        var node := items[key];
        IndexedMove(nodes, items, i);
        Refresh(node, i, value, now);
        return;
      }
      var newNode := new Node(key, value, now);
      Insert(newNode);
      if |items| > capacity {
        Evict();
      }
    }

    /** The known-key half of Put. */
    method Refresh(node: Node<V>, ghost i: nat, value: V, now: int)
      requires Listed() && i < |nodes| && nodes[i] == node
      modifies this`head, this`tail, this`nodes, this`contents, this`repr, repr
      ensures Listed() && repr == old(repr) && nodes == [node] + old(nodes)[..i] + old(nodes)[i + 1..]
      ensures contents == [Entry(node.key, value, now)] + old(contents)[..i] + old(contents)[i + 1..]
    {
      node.value := value;
      node.lastAccessed := now;
      contents := contents[i := Entry(node.key, value, now)];
      hide Backward, Forward, Within, At;
      MoveToFront(node, i);
    }

    /** The new-key half of Put: into the map, then to the front of the list. */
    method Insert(node: Node<V>)
      requires Listed() && Indexed(nodes, items) && node !in nodes && node.key !in items
      modifies this`items, this`head, this`tail, this`nodes, this`contents, this`repr, node`prev, node`next, repr`prev
      ensures Listed() && repr == old(repr) + {node} && Indexed(nodes, items) && |items| == |nodes|
      ensures nodes == [node] + old(nodes)
      ensures contents == [Entry(node.key, node.value, node.lastAccessed)] + old(contents)
    {
      hide Indexed, Shows, Backward, Forward;
      IndexedAdd(nodes, items, node);
      items := items[node.key := node];
      AddToFront(node);
      KeyCount(nodes, items);
    }

    method EvictExpired(ttl: int, now: int)
      requires Valid() && clock <= now
      modifies this, repr
      ensures Valid() && clock == now && repr == old(repr)
      ensures contents == AfterExpiry(old(contents), ttl, now)
    {
      hide Linked, Indexed, Shows, Distinct, Inv, Filter;
      assert contents[..|contents|] == contents;
      PrefixKeeps(capacity, contents, clock, now, |contents|);
      clock := now;
      TailEntry();
      while tail != null && now - tail.lastAccessed > ttl
        invariant Valid() && clock == now
        invariant AfterExpiry(contents, ttl, now) == AfterExpiry(old(contents), ttl, now)
        invariant repr == old(repr)
        invariant |nodes| == |contents| && (tail == null <==> nodes == [])
        invariant tail != null ==> tail.lastAccessed == contents[|contents| - 1].lastAccessed
        decreases |nodes|
      {
        ExpiredTail(contents, ttl, now);
        PrefixKeeps(capacity, contents, now, now, |contents| - 1);
        Evict();
        TailEntry();
      }
      FreshTail(capacity, contents, now, ttl, now);
    }

    method Delete(key: string)
      requires Valid()
      modifies this, repr
      ensures Valid() && clock == old(clock) && repr == old(repr)
      ensures contents == Without(old(contents), key)
    {
      hide Linked, Indexed, Distinct, Inv, UniqueKeys, Filter, Lookup, Has;
      ghost var i := Locate(key);
      if key !in items {
        WithoutAbsent(contents, key);
        return;
      }
      var node := items[key];
      WithoutAt(contents, i);
      FilteredKeeps(capacity, contents, OtherKey(key), clock);
      IndexedRemove(nodes, items, i);
      RemoveNode(node, i);
      items := items - {key};
    }

    method MoveToFront(node: Node<V>, ghost i: nat)
      requires Listed() && i < |nodes| && nodes[i] == node
      modifies this`head, this`tail, this`nodes, this`contents, this`repr, repr`prev, repr`next
      ensures Listed() && repr == old(repr) && nodes == [node] + old(nodes)[..i] + old(nodes)[i + 1..]
      ensures contents == [old(contents)[i]] + old(contents)[..i] + old(contents)[i + 1..]
    {
      assert contents[i] == Entry(node.key, node.value, node.lastAccessed);
      hide Linked, Shows;
      RemoveNode(node, i);
      AddToFront(node);
    }

    method AddToFront(node: Node<V>)
      requires Listed() && node !in nodes
      modifies this`head, this`tail, this`nodes, this`contents, this`repr, node`prev, node`next, repr`prev
      ensures Listed() && repr == old(repr) + {node} && nodes == [node] + old(nodes)
      ensures contents == [Entry(node.key, node.value, node.lastAccessed)] + old(contents)
    {
      hide Shows;
      FrontKept(node, nodes, contents, repr);
      node.next := head;
      node.prev := null;
      if head != null {
        head.prev := node;
      }
      head := node;
      if tail == null {
        tail := node;
      }
      BackwardFront(node, nodes);
      ForwardFront(node, nodes);
      hide Backward, Forward, Distinct, Within;
      nodes := [node] + nodes;
      repr := repr + {node};
      contents := [Entry(node.key, node.value, node.lastAccessed)] + contents;
    }

    method RemoveNode(node: Node<V>, ghost i: nat)
      requires Listed() && i < |nodes| && nodes[i] == node
      modifies this`head, this`tail, this`nodes, this`contents, repr`prev, repr`next
      ensures Listed() && nodes == old(nodes)[..i] + old(nodes)[i + 1..] && node !in nodes
      ensures contents == old(contents)[..i] + old(contents)[i + 1..]
    {
      hide Shows;
      assert node.prev == At(nodes, i - 1) && node.next == At(nodes, i + 1);
      if node.prev != null {
        node.prev.next := node.next;
      } else {
        head := node.next;
      }
      assert ForwardPast(nodes, i);
      if node.next != null {
        node.next.prev := node.prev;
      } else {
        tail := node.prev;
      }
      assert BackwardPast(nodes, i);
      Forget(i);
    }

    /** The ghost half of RemoveNode: once the neighbours bypass node `i`, the list is the one without it. */
    ghost method Forget(i: nat)
      requires i < |nodes| && Distinct(nodes) && Within(nodes, repr) && Shows(nodes, contents)
      requires BackwardPast(nodes, i) && ForwardPast(nodes, i)
      requires head == At(nodes, if i == 0 then 1 else 0)
      requires tail == At(nodes, if i + 1 == |nodes| then i - 1 else |nodes| - 1)
      modifies this`nodes, this`contents
      ensures Listed() && nodes == old(nodes)[..i] + old(nodes)[i + 1..] && old(nodes)[i] !in nodes
      ensures contents == old(contents)[..i] + old(contents)[i + 1..]
    {
      hide Shows, Forward, Backward, ForwardPast, BackwardPast;
      CutAt(nodes, repr, contents, i);
      Bypassed(nodes, i);
      nodes := nodes[..i] + nodes[i + 1..];
      contents := contents[..i] + contents[i + 1..];
    }

    method Evict()
      requires Listed() && Indexed(nodes, items)
      modifies this`items, this`head, this`tail, this`nodes, this`contents, repr`prev, repr`next
      ensures Listed() && Indexed(nodes, items)
      ensures old(nodes) == [] ==> nodes == [] && contents == old(contents)
      ensures old(nodes) != [] ==>
        nodes == old(nodes)[..|old(nodes)| - 1] && contents == old(contents)[..|old(contents)| - 1]
    {
      if tail == null {
        return;
      }
      IndexedRemove(nodes, items, |nodes| - 1);
      items := items - {tail.key};
      RemoveNode(tail, |nodes| - 1);
    }
  }

  lemma IndexedRemove<V(!new)>(nodes: seq<Node<V>>, items: map<string, Node<V>>, i: nat)
    requires Distinct(nodes) && Indexed(nodes, items) && i < |nodes|
    ensures Indexed(nodes[..i] + nodes[i + 1..], items - {nodes[i].key})
  {
    var rest := nodes[..i] + nodes[i + 1..];
    forall k | k in items && k != nodes[i].key ensures items[k] in rest {
      var j :| 0 <= j < |nodes| && nodes[j] == items[k];
      assert rest[if j < i then j else j - 1] == items[k];
    }
  }

  lemma CutAt<V(!new)>(nodes: seq<Node<V>>, repr: set<Node<V>>, s: seq<Entry<V>>, i: nat)
    requires Distinct(nodes) && Shows(nodes, s) && i < |nodes| && Within(nodes, repr)
    ensures |s| == |nodes| && Within(nodes[..i] + nodes[i + 1..], repr)
    ensures Distinct(nodes[..i] + nodes[i + 1..]) && Shows(nodes[..i] + nodes[i + 1..], s[..i] + s[i + 1..])
    ensures nodes[i] !in nodes[..i] + nodes[i + 1..]
  {
  }

  lemma Bypassed<V(!new)>(nodes: seq<Node<V>>, i: nat)
    requires i < |nodes| && BackwardPast(nodes, i) && ForwardPast(nodes, i)
    ensures Backward(nodes[..i] + nodes[i + 1..]) && Forward(nodes[..i] + nodes[i + 1..])
  {
    var rest := nodes[..i] + nodes[i + 1..];
    forall j | 0 <= j < |rest|
      ensures rest[j].prev == At(rest, j - 1) && rest[j].next == At(rest, j + 1)
    {
      assert rest[j] == nodes[if j < i then j else j + 1];
    }
  }

  lemma IndexedAdd<V(!new)>(nodes: seq<Node<V>>, items: map<string, Node<V>>, node: Node<V>)
    requires Indexed(nodes, items) && node.key !in items
    ensures Indexed([node] + nodes, items[node.key := node])
  {
    var more := [node] + nodes;
    forall k | k in items ensures items[k] in more {
      var j :| 0 <= j < |nodes| && nodes[j] == items[k];
      assert more[j + 1] == items[k];
    }
  }

  lemma IndexedMove<V(!new)>(nodes: seq<Node<V>>, items: map<string, Node<V>>, i: nat)
    requires Distinct(nodes) && Indexed(nodes, items) && i < |nodes|
    ensures Indexed([nodes[i]] + nodes[..i] + nodes[i + 1..], items)
  {
    var node := nodes[i];
    IndexedRemove(nodes, items, i);
    IndexedAdd(nodes[..i] + nodes[i + 1..], items - {node.key}, node);
    assert [node] + (nodes[..i] + nodes[i + 1..]) == [node] + nodes[..i] + nodes[i + 1..];
    assert (items - {node.key})[node.key := node] == items;
  }

  lemma {:induction false} KeyCount<V(!new)>(nodes: seq<Node<V>>, items: map<string, Node<V>>)
    requires Distinct(nodes)
    requires Indexed(nodes, items)
    ensures |items| == |nodes|
  {
    if nodes == [] {
      assert items.Keys == {};
    } else {
      var k := nodes[0].key;
      var rest := items - {k};
      forall j | j in rest ensures rest[j] in nodes[1..] {
        assert rest[j] in nodes && rest[j] != nodes[0];
      }
      KeyCount(nodes[1..], rest);
      assert items.Keys == rest.Keys + {k};
    }
  }
}
