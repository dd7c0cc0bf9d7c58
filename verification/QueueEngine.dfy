/** DBMux's named queues: Redis lists when a Redis is registered, else one shared Postgres table with a
    growing id. Calls are atomic steps; backends may come and go, keeping their data. */
module QueueEngine {
  import opened Prelude

  datatype Job = Job(queue: string, payload: string)

  /** The table's rows by id; every id ever given out is below `nextId`. */
  datatype Table = Table(rows: map<nat, Job>, nextId: nat)

  datatype System = System(hasRedis: bool, hasPostgres: bool, lists: map<string, seq<string>>, table: Table)

  /** How a call to the backend in use ends: it is answered, it fails, or it takes effect and its answer is lost. */
  datatype Reply = Answered | Refused | Lost

  datatype Step =
    | Enqueue(queue: string, payload: string, reply: Reply)
    | Dequeue(queue: string, reply: Reply)
    | Backends(redis: bool, postgres: bool)

  datatype Result = NoBackend | Failed | Empty | Delivered(payload: string) | Accepted

  // ---------------------------------------------------------------------------
  // The shared table
  // ---------------------------------------------------------------------------

  function Insert(t: Table, queue: string, payload: string): Table {
    Table(t.rows[t.nextId := Job(queue, payload)], t.nextId + 1)
  }

  predicate IsRow(t: Table, id: nat, queue: string) { id in t.rows && t.rows[id].queue == queue }

  /** ORDER BY id ASC LIMIT 1, among ids from `from` on. */
  function LeastId(t: Table, queue: string, from: nat): (r: Option<nat>)
    ensures r.Some? ==> from <= r.value < t.nextId && IsRow(t, r.value, queue)
    ensures forall id :: from <= id < (if r.Some? then r.value else t.nextId) ==> !IsRow(t, id, queue)
    decreases t.nextId - from
  {
    if from >= t.nextId then None
    else if IsRow(t, from, queue) then Some(from)
    else LeastId(t, queue, from + 1)
  }

  function Remove(t: Table, id: nat): Table { t.(rows := t.rows - {id}) }

  ghost predicate ValidTable(t: Table) { forall id :: id in t.rows ==> id < t.nextId }

  /** The queue a name sees: its payloads in id order, from id `from` on. */
  function Pending(t: Table, queue: string, from: nat): seq<string>
    decreases t.nextId - from
  {
    if from >= t.nextId then []
    else (if IsRow(t, from, queue) then [t.rows[from].payload] else []) + Pending(t, queue, from + 1)
  }

  lemma {:induction false} InsertAppends(t: Table, queue: string, payload: string, other: string, from: nat)
    requires ValidTable(t) && from <= t.nextId
    ensures Pending(Insert(t, queue, payload), other, from) ==
      Pending(t, other, from) + if other == queue then [payload] else []
    decreases t.nextId - from
  {
    var tail := if other == queue then [payload] else [];
    if from < t.nextId {
      InsertAppends(t, queue, payload, other, from + 1);
      var first := if IsRow(t, from, other) then [t.rows[from].payload] else [];
      assert first + (Pending(t, other, from + 1) + tail) == (first + Pending(t, other, from + 1)) + tail;
    } else {
      assert Pending(Insert(t, queue, payload), other, from + 1) == [];
    }
  }

  predicate SameRow(t: Table, u: Table, queue: string, id: nat) {
    if IsRow(t, id, queue) then IsRow(u, id, queue) && t.rows[id] == u.rows[id] else !IsRow(u, id, queue)
  }

  /** Rows that agree from `from` on show the same queue. */
  lemma {:induction false} SamePending(t: Table, u: Table, queue: string, from: nat)
    requires t.nextId == u.nextId
    requires forall id :: id >= from ==> SameRow(t, u, queue, id)
    ensures Pending(t, queue, from) == Pending(u, queue, from)
    decreases t.nextId - from
  {
    if from < t.nextId {
      assert SameRow(t, u, queue, from);
      SamePending(t, u, queue, from + 1);
    }
  }

  lemma {:induction false} SkipTo(t: Table, queue: string, from: nat, id: nat)
    requires from <= id <= t.nextId && forall k :: from <= k < id ==> !IsRow(t, k, queue)
    ensures Pending(t, queue, from) == Pending(t, queue, id)
    decreases id - from
  {
    if from < id {
      SkipTo(t, queue, from + 1, id);
    }
  }

  /** Popping by least id is popping the head of that name's queue, and leaves every other name alone. */
  lemma PopIsHead(t: Table, queue: string, other: string)
    requires ValidTable(t)
    ensures match LeastId(t, queue, 0)
      case None => Pending(t, queue, 0) == []
      case Some(id) =>
        && Pending(t, queue, 0) == [t.rows[id].payload] + Pending(Remove(t, id), queue, 0)
        && (other != queue ==> Pending(Remove(t, id), other, 0) == Pending(t, other, 0))
  {
    match LeastId(t, queue, 0)
    case None =>
      SkipTo(t, queue, 0, t.nextId);
    case Some(id) =>
      var u := Remove(t, id);
      SkipTo(t, queue, 0, id);
      forall k | 0 <= k < id + 1 ensures !IsRow(u, k, queue) {
        assert k == id || !IsRow(t, k, queue);
      }
      SkipTo(u, queue, 0, id + 1);
      SamePending(t, u, queue, id + 1);
      if other != queue {
        SamePending(u, t, other, 0);
      }
  }

  // ---------------------------------------------------------------------------
  // Both backends
  // ---------------------------------------------------------------------------

  function ListOf(s: System, queue: string): seq<string> { if queue in s.lists then s.lists[queue] else [] }

  function AfterEnqueue(s: System, queue: string, payload: string): System {
    if s.hasRedis then s.(lists := s.lists[queue := ListOf(s, queue) + [payload]])
    else if s.hasPostgres then s.(table := Insert(s.table, queue, payload))
    else s
  }

  function AfterDequeue(s: System, queue: string): System {
    if s.hasRedis then
      if ListOf(s, queue) == [] then s else s.(lists := s.lists[queue := ListOf(s, queue)[1..]])
    else if s.hasPostgres && LeastId(s.table, queue, 0).Some? then
      s.(table := Remove(s.table, LeastId(s.table, queue, 0).value))
    else s
  }

  /** What a pop of the name takes. */
  function Head(s: System, queue: string): Option<string> {
    if s.hasRedis then (if ListOf(s, queue) == [] then None else Some(ListOf(s, queue)[0]))
    else if !s.hasPostgres then None
    else
      match LeastId(s.table, queue, 0)
      case None => None
      case Some(id) => Some(s.table.rows[id].payload)
  }

  /** A failing Redis is an error, not a reason to fall back to the table. */
  function Answer(s: System, p: Step): Result {
    if p.Backends? then Accepted
    else if !s.hasRedis && !s.hasPostgres then NoBackend
    else if p.reply != Answered then Failed
    else if p.Enqueue? then Accepted
    else
      match Head(s, p.queue)
      case None => Empty
      case Some(payload) => Delivered(payload)
  }

  function Next(s: System, p: Step): System {
    match p
    case Enqueue(queue, payload, reply) => if reply == Refused then s else AfterEnqueue(s, queue, payload)
    case Dequeue(queue, reply) => if reply == Refused then s else AfterDequeue(s, queue)
    case Backends(redis, postgres) => s.(hasRedis := redis, hasPostgres := postgres)
  }

  const START := System(false, false, map[], Table(map[], 0))

  function After(s: System, run: seq<Step>): System {
    if run == [] then s else Next(After(s, run[..|run| - 1]), run[|run| - 1])
  }

  /** What a step adds to a name's queues, and what it takes from them. */
  function Added(s: System, p: Step, queue: string): seq<string> {
    if p.Enqueue? && p.queue == queue && p.reply != Refused && (s.hasRedis || s.hasPostgres) then [p.payload] else []
  }

  function Taken(s: System, p: Step, queue: string): seq<string> {
    if p.Dequeue? && p.queue == queue && p.reply != Refused && Head(s, queue).Some? then [Head(s, queue).value] else []
  }

  /** The payloads that went into a name's queues, in order. */
  function Entered(s: System, run: seq<Step>, queue: string): seq<string> {
    if run == [] then []
    else
      var n := |run| - 1;
      Entered(s, run[..n], queue) + Added(After(s, run[..n]), run[n], queue)
  }

  /** The payloads that left a name's queues, in order. */
  function Popped(s: System, run: seq<Step>, queue: string): seq<string> {
    if run == [] then []
    else
      var n := |run| - 1;
      Popped(s, run[..n], queue) + Taken(After(s, run[..n]), run[n], queue)
  }

  function InTable(s: System, queue: string): seq<string> { Pending(s.table, queue, 0) }

  lemma {:induction false} TableStaysValid(s: System, run: seq<Step>)
    requires ValidTable(s.table)
    ensures ValidTable(After(s, run).table)
  {
    if run != [] {
      TableStaysValid(s, run[..|run| - 1]);
    }
  }

  /** What one step does to a name's two queues: append at the back or take from the front of one. */
  lemma StepQueues(s: System, p: Step, queue: string)
    requires ValidTable(s.table)
    ensures var t, added, taken := Next(s, p), Added(s, p, queue), Taken(s, p, queue);
      if s.hasRedis then
        ListOf(s, queue) + added == taken + ListOf(t, queue) && InTable(s, queue) == InTable(t, queue)
      else
        InTable(s, queue) + added == taken + InTable(t, queue) && ListOf(s, queue) == ListOf(t, queue)
  {
    hide Pending, LeastId, ValidTable;
    match p
    case Enqueue(q, payload, _) => InsertAppends(s.table, q, payload, queue, 0);
    case Dequeue(q, _) => PopIsHead(s.table, q, queue);
    case Backends(_, _) =>
  }

  /** What still waits on a name: its Redis list and its rows of the table. */
  ghost function Kept(s: System, queue: string): multiset<string> {
    multiset(ListOf(s, queue)) + multiset(InTable(s, queue))
  }

  lemma Multisets(a: seq<string>, b: seq<string>, c: seq<string>, d: seq<string>, more: multiset<string>)
    requires a + b == c + d
    ensures (multiset(a) + more) + multiset(b) == multiset(c) + (multiset(d) + more)
  {
    assert multiset(a + b) == multiset(a) + multiset(b);
    assert multiset(c + d) == multiset(c) + multiset(d);
    assert (multiset(a) + more) + multiset(b) == multiset(a + b) + more;
    assert multiset(c) + (multiset(d) + more) == multiset(c + d) + more;
  }

  lemma StepAccounted(s: System, p: Step, queue: string)
    requires ValidTable(s.table)
    ensures Kept(s, queue) + multiset(Added(s, p, queue)) == multiset(Taken(s, p, queue)) + Kept(Next(s, p), queue)
  {
    StepQueues(s, p, queue);
    hide ListOf, InTable, Added, Taken, Next;
    var t, added, taken := Next(s, p), Added(s, p, queue), Taken(s, p, queue);
    var l, r := multiset(ListOf(s, queue)), multiset(InTable(s, queue));
    if s.hasRedis {
      Multisets(ListOf(s, queue), added, taken, ListOf(t, queue), r);
    } else {
      Multisets(InTable(s, queue), added, taken, InTable(t, queue), l);
      assert l + r == r + l && l + multiset(InTable(t, queue)) == multiset(InTable(t, queue)) + l;
    }
  }

  /** In every run, even when backends are registered or removed midway: what went into a name's queues is what
      left them plus what is still in its list plus what is still in the table. */
  lemma {:induction false} EnteredIsPoppedOrKept(run: seq<Step>, queue: string)
    ensures multiset(Entered(START, run, queue)) ==
      multiset(Popped(START, run, queue)) + Kept(After(START, run), queue)
  {
    hide ListOf, InTable, Added, Taken, Next;
    if run == [] {
      NothingAtFirst(queue);
    } else {
      var n := |run| - 1;
      EnteredIsPoppedOrKept(run[..n], queue);
      TableStaysValid(START, run[..n]);
      var before := After(START, run[..n]);
      StepAccounted(before, run[n], queue);
      Balance(Entered(START, run[..n], queue), Popped(START, run[..n], queue), Kept(before, queue),
              Added(before, run[n], queue), Taken(before, run[n], queue), Kept(After(START, run), queue));
    }
  }

  lemma Balance(fed: seq<string>, out: seq<string>, kept: multiset<string>,
                added: seq<string>, taken: seq<string>, left: multiset<string>)
    requires multiset(fed) == multiset(out) + kept && kept + multiset(added) == multiset(taken) + left
    ensures multiset(fed + added) == multiset(out + taken) + left
  {
    assert multiset(fed + added) == multiset(out) + (kept + multiset(added));
    assert multiset(out + taken) + left == multiset(out) + (multiset(taken) + left);
  }

  /** The payloads whose enqueue was answered with success. */
  function AcceptedIn(s: System, run: seq<Step>, queue: string): seq<string> {
    if run == [] then []
    else
      var n := |run| - 1;
      var p, before := run[n], After(s, run[..n]);
      AcceptedIn(s, run[..n], queue) +
      if p.Enqueue? && p.queue == queue && Answer(before, p) == Accepted then [p.payload] else []
  }

  /** What a step gives its caller from a name's queues, and what it takes with the answer lost. */
  function Given(s: System, p: Step, queue: string): seq<string> {
    match Answer(s, p)
    case Delivered(payload) => if p.queue == queue then [payload] else []
    case _ => []
  }

  function Dropped(s: System, p: Step, queue: string): seq<string> {
    if p.Dequeue? && p.reply == Lost then Taken(s, p, queue) else []
  }

  /** The payloads that callers were given. */
  function HandedOut(s: System, run: seq<Step>, queue: string): seq<string> {
    if run == [] then []
    else
      var n := |run| - 1;
      HandedOut(s, run[..n], queue) + Given(After(s, run[..n]), run[n], queue)
  }

  /** The payloads that left the queues by a pop whose answer was lost. */
  function LostPops(s: System, run: seq<Step>, queue: string): seq<string> {
    if run == [] then []
    else
      var n := |run| - 1;
      LostPops(s, run[..n], queue) + Dropped(After(s, run[..n]), run[n], queue)
  }

  /** What callers are told. With no backend every call says so; with one, a call fails unless it is answered; an
      answered enqueue is accepted, and an answered dequeue delivers the head of its name's queue in the backend
      in use, or says that this queue is empty. A lost answer is the answered call's effect; a refused one has none. */
  lemma AnswerMeans(s: System, p: Step)
    requires ValidTable(s.table) && !p.Backends?
    ensures Answer(s, p) == NoBackend <==> !s.hasRedis && !s.hasPostgres
    ensures Answer(s, p) == Failed <==> (s.hasRedis || s.hasPostgres) && p.reply in {Refused, Lost}
    ensures Answer(s, p) == Accepted <==> (s.hasRedis || s.hasPostgres) && p.Enqueue? && p.reply == Answered
    ensures Answer(s, p) == Empty <==>
      (s.hasRedis || s.hasPostgres) && p.Dequeue? && p.reply == Answered && Current(s, p.queue) == []
    ensures Answer(s, p).Delivered? ==> Current(s, p.queue) != [] && Answer(s, p).payload == Current(s, p.queue)[0]
    ensures Next(s, p.(reply := Lost)) == Next(s, p.(reply := Answered)) && Next(s, p.(reply := Refused)) == s
  {
    PopIsHead(s.table, p.queue, p.queue);
    hide Pending, LeastId, ValidTable;
  }

  /** What a step takes is given to the caller, or dropped, or nothing. */
  lemma TakenSplits(s: System, p: Step, queue: string)
    ensures Taken(s, p, queue) == Given(s, p, queue) + Dropped(s, p, queue)
  {
  }

  lemma {:induction false} PoppedSplits(s: System, run: seq<Step>, queue: string)
    ensures multiset(Popped(s, run, queue)) == multiset(HandedOut(s, run, queue)) + multiset(LostPops(s, run, queue))
  {
    hide After, Taken, Given, Dropped;
    if run != [] {
      var n := |run| - 1;
      var before, p := After(s, run[..n]), run[n];
      PoppedSplits(s, run[..n], queue);
      TakenSplits(before, p, queue);
      Grow(Popped(s, run[..n], queue), HandedOut(s, run[..n], queue), LostPops(s, run[..n], queue),
           Given(before, p, queue), Dropped(before, p, queue));
    }
  }

  lemma Grow(popped: seq<string>, handed: seq<string>, lost: seq<string>, given: seq<string>, dropped: seq<string>)
    requires multiset(popped) == multiset(handed) + multiset(lost)
    ensures multiset(popped + (given + dropped)) == multiset(handed + given) + multiset(lost + dropped)
  {
    assert multiset(popped + (given + dropped)) == multiset(popped) + (multiset(given) + multiset(dropped));
    assert multiset(handed + given) == multiset(handed) + multiset(given);
    assert multiset(lost + dropped) == multiset(lost) + multiset(dropped);
  }

  lemma AcceptedIsAdded(s: System, p: Step, queue: string)
    ensures p.Enqueue? && p.queue == queue && Answer(s, p) == Accepted ==> Added(s, p, queue) == [p.payload]
  {
  }

  lemma {:induction false} AcceptedEntered(s: System, run: seq<Step>, queue: string)
    ensures multiset(AcceptedIn(s, run, queue)) <= multiset(Entered(s, run, queue))
  {
    hide After, Added, Answer;
    if run != [] {
      var n := |run| - 1;
      AcceptedEntered(s, run[..n], queue);
      AcceptedIsAdded(After(s, run[..n]), run[n], queue);
      var added := Added(After(s, run[..n]), run[n], queue);
      assert multiset(Entered(s, run, queue)) == multiset(Entered(s, run[..n], queue)) + multiset(added);
    }
  }

  /** In every run, failing calls, lost answers and changing backends included: what went into a name's queues
      was handed out, or left by a pop whose answer was lost, or is still there; and nothing else. */
  lemma PayloadsAccounted(run: seq<Step>, queue: string)
    ensures multiset(Entered(START, run, queue)) ==
      multiset(HandedOut(START, run, queue)) + multiset(LostPops(START, run, queue)) + Kept(After(START, run), queue)
    ensures multiset(AcceptedIn(START, run, queue)) <= multiset(Entered(START, run, queue))
  {
    EnteredIsPoppedOrKept(run, queue);
    PoppedSplits(START, run, queue);
    AcceptedEntered(START, run, queue);
  }

  /** Every payload whose enqueue was answered was handed out or is still there. */
  ghost predicate NoneMissing(run: seq<Step>, queue: string) {
    multiset(AcceptedIn(START, run, queue)) <= multiset(HandedOut(START, run, queue)) + Kept(After(START, run), queue)
  }

  predicate NoPopLost(run: seq<Step>) { forall i :: 0 <= i < |run| && run[i].Dequeue? ==> run[i].reply != Lost }

  lemma {:induction false} NothingLost(s: System, run: seq<Step>, queue: string)
    requires NoPopLost(run)
    ensures LostPops(s, run, queue) == []
  {
    if run != [] {
      NothingLost(s, run[..|run| - 1], queue);
    }
  }

  /** One payload goes in, and its pop is not heard of. */
  function LosingRun(): seq<Step> { [Backends(true, true), Enqueue("q", "x", Answered), Dequeue("q", Lost)] }

  lemma PayloadLost()
    ensures AcceptedIn(START, LosingRun(), "q") == ["x"] && HandedOut(START, LosingRun(), "q") == []
    ensures Kept(After(START, LosingRun()), "q") == multiset{}
  {
    var run := LosingRun();
    assert run[..2][..1] == run[..1] && run[..1][..0] == [];
    var s1 := START.(hasRedis := true, hasPostgres := true);
    assert After(START, run[..1]) == s1;
    assert ListOf(s1, "q") + ["x"] == ["x"];
    var s2 := s1.(lists := map["q" := ["x"]]);
    assert After(START, run[..2]) == s2;
    assert run[..1][0] == Backends(true, true) && run[..2][1] == Enqueue("q", "x", Answered);
    assert AcceptedIn(START, [], "q") == [] && HandedOut(START, [], "q") == [];
    assert AcceptedIn(START, run[..1], "q") == [] && HandedOut(START, run[..1], "q") == [];
    assert AcceptedIn(START, run[..2], "q") == ["x"] && HandedOut(START, run[..2], "q") == [];
    var s3 := s2.(lists := map["q" := []]);
    assert After(START, run) == s3;
    assert ListOf(s3, "q") == [] && InTable(s3, "q") == [];
  }

  lemma PayloadMissing()
    ensures !NoneMissing(LosingRun(), "q")
  {
    PayloadLost();
    hide AcceptedIn, HandedOut, After, Kept;
    assert multiset(AcceptedIn(START, LosingRun(), "q"))["x"] == 1;
  }

  lemma PayloadsStay(run: seq<Step>, queue: string)
    requires NoPopLost(run)
    ensures NoneMissing(run, queue)
  {
    hide AcceptedIn, HandedOut, After, Kept;
    PayloadsAccounted(run, queue);
    NothingLost(START, run, queue);
  }

  /** Every accepted payload is handed out or still there, in all runs, exactly when no pop's answer can be lost. */
  lemma AtLeastOnceIff(mayLose: bool)
    ensures (forall run, queue :: mayLose || NoPopLost(run) ==> NoneMissing(run, queue))
      <==> !mayLose
  {
    hide NoneMissing, NoPopLost;
    if mayLose {
      PayloadMissing();
    } else {
      forall run, queue | NoPopLost(run) ensures NoneMissing(run, queue) {
        PayloadsStay(run, queue);
      }
    }
  }

  lemma NothingAtFirst(queue: string)
    ensures ListOf(START, queue) == [] && InTable(START, queue) == []
  {
  }

  /** The queue of a name in the backend in use. */
  function Current(s: System, queue: string): seq<string> {
    if s.hasRedis then ListOf(s, queue) else InTable(s, queue)
  }

  /** While the backends stay as they are, each name is one FIFO queue of its own: everything it held
      and took in comes out in that order, whatever happens on other names. */
  lemma {:induction false} FifoPerName(s: System, run: seq<Step>, queue: string)
    requires ValidTable(s.table) && forall i :: 0 <= i < |run| ==> !run[i].Backends?
    ensures After(s, run).hasRedis == s.hasRedis
    ensures Current(s, queue) + Entered(s, run, queue) == Popped(s, run, queue) + Current(After(s, run), queue)
  {
    if run != [] {
      var n := |run| - 1;
      FifoPerName(s, run[..n], queue);
      TableStaysValid(s, run[..n]);
      var before := After(s, run[..n]);
      StepCurrent(before, run[n], queue);
      hide ListOf, InTable, Added, Taken, Current, ValidTable;
      var added, taken := Added(before, run[n], queue), Taken(before, run[n], queue);
      Rotate(Current(s, queue), Entered(s, run[..n], queue), Popped(s, run[..n], queue), Current(before, queue),
             added, taken, Current(After(s, run), queue));
    }
  }

  lemma Rotate(held: seq<string>, fed: seq<string>, out: seq<string>, mid: seq<string>,
               added: seq<string>, taken: seq<string>, end: seq<string>)
    requires held + fed == out + mid && mid + added == taken + end
    ensures held + (fed + added) == (out + taken) + end
  {
    assert held + (fed + added) == (out + mid) + added == out + (taken + end);
  }

  // ---------------------------------------------------------------------------
  // Order across backends
  // ---------------------------------------------------------------------------

  /** What a name has in the backend that is not asked. */
  function LeftBehind(s: System, queue: string): seq<string> {
    if s.hasRedis then InTable(s, queue) else ListOf(s, queue)
  }

  /** Some backend is in use while the name still has payloads in the other one. */
  predicate Split(s: System, queue: string) { (s.hasRedis || s.hasPostgres) && LeftBehind(s, queue) != [] }

  /** No change of backends ever splits the name's queue. */
  predicate Polite(run: seq<Step>, queue: string) {
    run == [] ||
    (Polite(run[..|run| - 1], queue) && (run[|run| - 1].Backends? ==> !Split(After(START, run), queue)))
  }

  predicate NoSwitch(run: seq<Step>) { forall i :: 0 <= i < |run| ==> !run[i].Backends? }

  predicate InOrder(run: seq<Step>, queue: string) { Popped(START, run, queue) <= Entered(START, run, queue) }

  /** However the run goes on with the backends it has, payloads leave in the order they went in. */
  ghost predicate StaysInOrder(run: seq<Step>, queue: string) {
    forall more :: NoSwitch(more) ==> InOrder(run + more, queue)
  }

  /** A step other than a change of backends works on the current queue; a change at most swaps the two. */
  lemma StepCurrent(s: System, p: Step, queue: string)
    requires ValidTable(s.table)
    ensures ValidTable(Next(s, p).table)
    ensures var t, added, taken := Next(s, p), Added(s, p, queue), Taken(s, p, queue);
      if p.Backends? then
        && added == [] && taken == []
        && ((Current(t, queue) == Current(s, queue) && LeftBehind(t, queue) == LeftBehind(s, queue)) ||
            (Current(t, queue) == LeftBehind(s, queue) && LeftBehind(t, queue) == Current(s, queue)))
      else
        && LeftBehind(t, queue) == LeftBehind(s, queue) && (Split(t, queue) <==> Split(s, queue))
        && Current(s, queue) + added == taken + Current(t, queue)
        && (!s.hasRedis && !s.hasPostgres ==> added == [] && taken == [] && t == s)
  {
    StepQueues(s, p, queue);
    hide Pending, LeastId;
  }

  /** In a polite run each name is one queue, in one backend at a time. */
  lemma {:induction false} PoliteIsFifo(run: seq<Step>, queue: string)
    requires Polite(run, queue)
    ensures var s := After(START, run);
      && ValidTable(s.table) && !Split(s, queue)
      && (Current(s, queue) == [] || LeftBehind(s, queue) == [])
      && Entered(START, run, queue) == Popped(START, run, queue) + (Current(s, queue) + LeftBehind(s, queue))
  {
    hide InTable, ListOf, Added, Taken, Next, Current;
    if run == [] {
      EmptyAtFirst(queue);
    } else {
      var n := |run| - 1;
      var s, t := After(START, run[..n]), After(START, run);
      PoliteIsFifo(run[..n], queue);
      StepCurrent(s, run[n], queue);
      if !run[n].Backends? && LeftBehind(s, queue) == [] {
        Rotate([], Entered(START, run[..n], queue), Popped(START, run[..n], queue), Current(s, queue),
               Added(s, run[n], queue), Taken(s, run[n], queue), Current(t, queue));
        assert Entered(START, run, queue) == Popped(START, run, queue) + Current(t, queue);
      }
    }
  }

  lemma EmptyAtFirst(queue: string)
    ensures Current(START, queue) == [] && LeftBehind(START, queue) == []
  {
  }

  lemma {:induction false} PoliteExtends(run: seq<Step>, more: seq<Step>, queue: string)
    requires Polite(run, queue) && NoSwitch(more)
    ensures Polite(run + more, queue)
  {
    var all := run + more;
    if more == [] {
      assert all == run;
    } else {
      assert all[..|all| - 1] == run + more[..|more| - 1];
      assert all[|all| - 1] == more[|more| - 1];
      PoliteExtends(run, more[..|more| - 1], queue);
    }
  }

  lemma PoliteStaysInOrder(run: seq<Step>, queue: string)
    requires Polite(run, queue)
    ensures StaysInOrder(run, queue)
  {
    hide Popped, Entered, Polite, NoSwitch;
    forall more | NoSwitch(more) ensures InOrder(run + more, queue) {
      PoliteExtends(run, more, queue);
      PoliteIsFifo(run + more, queue);
    }
  }

  lemma EnqueueAlone(t: System, queue: string, x: string)
    requires ValidTable(t.table) && (t.hasRedis || t.hasPostgres) && Current(t, queue) == []
    ensures var p := Enqueue(queue, x, Answered);
      && Added(t, p, queue) == [x] && Taken(t, p, queue) == [] && Current(Next(t, p), queue) == [x]
      && (Next(t, p).hasRedis || Next(t, p).hasPostgres)
  {
    hide Pending, LeastId;
    var p := Enqueue(queue, x, Answered);
    StepQueues(t, p, queue);
    assert Added(t, p, queue) == [x] && Taken(t, p, queue) == [];
    assert [] + Current(Next(t, p), queue) == Current(Next(t, p), queue) && [] + [x] == [x];
  }

  lemma DequeueAlone(u: System, queue: string, x: string)
    requires ValidTable(u.table) && (u.hasRedis || u.hasPostgres) && Current(u, queue) == [x]
    ensures var p := Dequeue(queue, Answered); Added(u, p, queue) == [] && Taken(u, p, queue) == [x]
  {
    hide Pending, LeastId;
    PopIsHead(u.table, queue, queue);
  }

  lemma Overtaken(t: System, queue: string, x: string)
    requires ValidTable(t.table) && (t.hasRedis || t.hasPostgres) && Current(t, queue) == []
    ensures var more := [Enqueue(queue, x, Answered), Dequeue(queue, Answered)];
      Entered(t, more, queue) == [x] && Popped(t, more, queue) == [x]
  {
    hide Next, Added, Taken, Current;
    var one := [Enqueue(queue, x, Answered)];
    var more := one + [Dequeue(queue, Answered)];
    assert one[..0] == [] && more[..1] == one;
    var u := Next(t, one[0]);
    assert After(t, one) == u;
    EnqueueAlone(t, queue, x);
    TableStaysValid(t, one);
    DequeueAlone(u, queue, x);
    assert Entered(t, [], queue) == [] && Popped(t, [], queue) == [];
    assert Entered(t, one, queue) == [x] && Popped(t, one, queue) == [];
    assert more == [Enqueue(queue, x, Answered), Dequeue(queue, Answered)];
  }

  lemma {:induction false} Concat(s: System, a: seq<Step>, b: seq<Step>, queue: string)
    ensures After(s, a + b) == After(After(s, a), b)
    ensures Entered(s, a + b, queue) == Entered(s, a, queue) + Entered(After(s, a), b, queue)
    ensures Popped(s, a + b, queue) == Popped(s, a, queue) + Popped(After(s, a), b, queue)
  {
    hide Next, Added, Taken;
    var all := a + b;
    if b == [] {
      assert all == a;
    } else {
      assert all[..|all| - 1] == a + b[..|b| - 1] && all[|all| - 1] == b[|b| - 1];
      Concat(s, a, b[..|b| - 1], queue);
    }
  }

  lemma AtSplit(run: seq<Step>, queue: string)
    requires run != [] && run[|run| - 1].Backends? && Polite(run[..|run| - 1], queue)
    requires Split(After(START, run), queue)
    ensures var t := After(START, run);
      && ValidTable(t.table) && (t.hasRedis || t.hasPostgres) && Current(t, queue) == [] && LeftBehind(t, queue) != []
      && Entered(START, run, queue) == Popped(START, run, queue) + LeftBehind(t, queue)
  {
    hide InTable, ListOf, Added, Taken, Next, Polite, Current, ValidTable;
    PoliteIsFifo(run[..|run| - 1], queue);
    StepCurrent(After(START, run[..|run| - 1]), run[|run| - 1], queue);
  }

  /** Where a change of backends splits a queue, the next payload overtakes what is left behind. */
  lemma SplitOvertakes(run: seq<Step>, queue: string)
    requires run != [] && run[|run| - 1].Backends? && Polite(run[..|run| - 1], queue)
    requires Split(After(START, run), queue)
    ensures !StaysInOrder(run, queue)
  {
    hide After, Popped, Entered, LeftBehind, Current, Polite, ValidTable, Split;
    AtSplit(run, queue);
    var t := After(START, run);
    var before, left := Popped(START, run, queue), LeftBehind(t, queue);
    var x := if left[0] == "" then "x" else "";
    var more := [Enqueue(queue, x, Answered), Dequeue(queue, Answered)];
    Overtaken(t, queue, x);
    Concat(START, run, more, queue);
    assert Popped(START, run + more, queue)[|before|] == x;
    assert Entered(START, run + more, queue)[|before|] == left[0];
    assert NoSwitch(more) && !InOrder(run + more, queue);
  }

  /** Order is kept across changes of backends, at every moment and however the run goes on from there,
      exactly in the runs whose changes of backends never leave payloads of the name behind. */
  lemma {:induction false} OrderKeptIff(run: seq<Step>, queue: string)
    ensures Polite(run, queue) <==> forall k :: 0 <= k <= |run| ==> StaysInOrder(run[..k], queue)
  {
    hide StaysInOrder, After;
    if run == [] {
      PoliteStaysInOrder(run, queue);
    } else {
      var n := |run| - 1;
      OrderKeptIff(run[..n], queue);
      assert forall k :: 0 <= k <= n ==> run[..n][..k] == run[..k];
      assert run[..n + 1] == run;
      if Polite(run, queue) {
        PoliteStaysInOrder(run, queue);
      } else if Polite(run[..n], queue) {
        SplitOvertakes(run, queue);
        assert !StaysInOrder(run[..n + 1], queue);
      }
    }
  }

  /** A Redis that appears midway overtakes the table: the order across backends is not kept. */
  lemma OrderBreaksAcrossBackends()
    ensures var run := [Backends(false, true), Enqueue("q", "first", Answered), Backends(true, true),
                        Enqueue("q", "second", Answered), Dequeue("q", Answered)];
      Entered(START, run, "q") == ["first", "second"] && Popped(START, run, "q") == ["second"]
  {
    var r1 := [Backends(false, true)];
    var r2 := r1 + [Enqueue("q", "first", Answered)];
    var r3 := r2 + [Backends(true, true)];
    var r4 := r3 + [Enqueue("q", "second", Answered)];
    var r5 := r4 + [Dequeue("q", Answered)];
    assert r5[..4] == r4 && r4[..3] == r3 && r3[..2] == r2 && r2[..1] == r1 && r1[..0] == [];
    var s1 := START.(hasPostgres := true);
    assert After(START, r1) == s1;
    var s2 := s1.(table := Insert(s1.table, "q", "first"));
    assert After(START, r2) == s2;
    var s3 := s2.(hasRedis := true);
    assert After(START, r3) == s3;
    assert ListOf(s3, "q") + ["second"] == ["second"];
    assert After(START, r4) == s3.(lists := map["q" := ["second"]]);
    assert Entered(START, r1, "q") == [] && Popped(START, r1, "q") == [];
    assert Entered(START, r2, "q") == ["first"] && Popped(START, r2, "q") == [];
    assert Entered(START, r3, "q") == ["first"] && Popped(START, r3, "q") == [];
    assert Entered(START, r4, "q") == ["first", "second"] && Popped(START, r4, "q") == [];
    assert r5 == [Backends(false, true), Enqueue("q", "first", Answered), Backends(true, true),
                  Enqueue("q", "second", Answered), Dequeue("q", Answered)];
  }

  // ---------------------------------------------------------------------------
  // The engine as the Go code has it
  // ---------------------------------------------------------------------------

  class Engine {
    var hasRedis: bool
    var hasPostgres: bool
    var lists: map<string, seq<string>>
    var table: Table

    ghost function Contents(): System
      reads this
    {
      System(hasRedis, hasPostgres, lists, table)
    }

    constructor ()
      ensures Contents() == START
    {
      hasRedis, hasPostgres, lists, table := false, false, map[], Table(map[], 0);
    }

    method RegisterBackends(redis: bool, postgres: bool)
      modifies this
      ensures Contents() == Next(old(Contents()), Backends(redis, postgres))
    {
      hasRedis, hasPostgres := redis, postgres;
    }

    method Enqueue(queue: string, payload: string, reply: Reply) returns (r: Result)
      modifies this
      ensures r == Answer(old(Contents()), Step.Enqueue(queue, payload, reply))
      ensures Contents() == Next(old(Contents()), Step.Enqueue(queue, payload, reply))
    {
      if hasRedis {
        if reply == Refused {
          return Failed;
        }
        lists := lists[queue := (if queue in lists then lists[queue] else []) + [payload]];
        return if reply == Answered then Accepted else Failed;
      }
      if hasPostgres {
        if reply == Refused {
          return Failed;
        }
        PgEnqueue(queue, payload);
        return if reply == Answered then Accepted else Failed;
      }
      return NoBackend;
    }

    method Dequeue(queue: string, reply: Reply) returns (r: Result)
      modifies this
      ensures r == Answer(old(Contents()), Step.Dequeue(queue, reply))
      ensures Contents() == Next(old(Contents()), Step.Dequeue(queue, reply))
    {
      if hasRedis {
        if reply == Refused {
          return Failed;
        }
        if queue !in lists || lists[queue] == [] {
          return if reply == Answered then Empty else Failed;
        }
        var val := lists[queue][0];
        lists := lists[queue := lists[queue][1..]];
        return if reply == Answered then Delivered(val) else Failed;
      }
      if hasPostgres {
        if reply == Refused {
          return Failed;
        }
        var payload := PgDequeue(queue);
        return if reply != Answered then Failed else if payload.Some? then Delivered(payload.value) else Empty;
      }
      return NoBackend;
    }

    method PgEnqueue(queue: string, payload: string)
      modifies this`table
      ensures table == Insert(old(table), queue, payload)
    {
      table := Table(table.rows[table.nextId := Job(queue, payload)], table.nextId + 1);
    }

    method PgDequeue(queue: string) returns (r: Option<string>)
      modifies this`table
      ensures match LeastId(old(table), queue, 0)
        case None => r == None && table == old(table)
        case Some(id) => r == Some(old(table).rows[id].payload) && table == Remove(old(table), id)
    {
      var id := LeastId(table, queue, 0);
      if id.None? {
        return None;
      }
      r := Some(table.rows[id.value].payload);
      table := table.(rows := table.rows - {id.value});
    }
  }
}
