/** BuckStream's DeployZip: one goroutine per archived file, a ten-slot semaphore, a shared cancel
    flag, a buffered error channel and a wait group, as a state machine over atomic steps. The
    scheduler and the storage provider choose the steps; every interleaving is a list of labels. */
module DeployZip {
  import opened Prelude

  const SLOTS := 10

  type Error = string

  /** A worker's program counter, named by what it does next. */
  datatype Pc =
    | NotStarted
    | Select      // wait for a slot or for cancellation
    | Uploading   // holds a slot; the provider call is in flight
    | Failed      // the upload returned an error; about to call cancel()
    | Sending     // about to send the error
    | Releasing   // about to give the slot back
    | Finishing   // about to call wg.Done()
    | Done

  /** What became of a worker's file: the history the claims below are about. */
  datatype Outcome = Unknown | Succeeded | Errored(error: Error) | Abandoned

  datatype Worker = Worker(pc: Pc, outcome: Outcome, uploads: nat)

  datatype Main = Spawning(next: nat) | Waiting | Draining | Returned(result: Option<Error>)

  datatype State = State(
    main: Main,
    workers: seq<Worker>,
    wg: int,
    sem: int,
    errs: seq<Error>,
    closed: bool,
    cancelled: bool,
    callerCancelled: bool)

  datatype Label =
    | Spawn
    | CallerCancels
    | Acquire(i: nat)
    | GiveUp(i: nat)
    | Succeed(i: nat)
    | Fail(i: nat, error: Error)
    | Cancel(i: nat)
    | Send(i: nat)
    | Release(i: nat)
    | Finish(i: nat)
    | Wait
    | Collect

  /** `dirs[i]` says whether archive entry i is a directory. */
  function Init(dirs: seq<bool>): State {
    State(Spawning(0), seq(|dirs|, _ => Worker(NotStarted, Unknown, 0)), 0, 0, [], false, false, false)
  }

  predicate At(s: State, i: nat, pc: Pc) { i < |s.workers| && s.workers[i].pc == pc }

  /** May this step happen now? A full semaphore blocks Acquire, a full channel blocks Send, a
      non-zero wait group blocks Wait. */
  predicate Enabled(dirs: seq<bool>, s: State, l: Label) {
    match l
    case Spawn => s.main.Spawning? && s.main.next <= |dirs| == |s.workers|
    case CallerCancels => !s.callerCancelled && !s.main.Returned?
    case Acquire(i) => At(s, i, Select) && s.sem < SLOTS
    case GiveUp(i) => At(s, i, Select) && s.cancelled
    case Succeed(i) => At(s, i, Uploading)
    case Fail(i, _) => At(s, i, Uploading)
    case Cancel(i) => At(s, i, Failed)
    case Send(i) => At(s, i, Sending) && |s.errs| < |dirs|
    case Release(i) => At(s, i, Releasing)
    case Finish(i) => At(s, i, Finishing)
    case Wait => s.main == Waiting && s.wg == 0
    case Collect => s.main == Draining
  }

  function Goto(s: State, i: nat, pc: Pc): State
    requires i < |s.workers|
  {
    s.(workers := s.workers[i := s.workers[i].(pc := pc)])
  }

  function Next(dirs: seq<bool>, s: State, l: Label): (t: State)
    requires Enabled(dirs, s, l)
    ensures |t.workers| == |s.workers|
  {
    match l
    case Spawn =>
      var n := s.main.next;
      if n == |dirs| then s.(main := Waiting)
      else if dirs[n] then s.(main := Spawning(n + 1))
      else Goto(s, n, Select).(main := Spawning(n + 1), wg := s.wg + 1)
    case CallerCancels => s.(callerCancelled := true, cancelled := true)
    case Acquire(i) => Goto(s, i, Uploading).(sem := s.sem + 1)
    case GiveUp(i) => s.(workers := s.workers[i := s.workers[i].(pc := Finishing, outcome := Abandoned)])
    case Succeed(i) =>
      var w := s.workers[i];
      s.(workers := s.workers[i := Worker(Releasing, Succeeded, w.uploads + 1)])
    case Fail(i, e) => s.(workers := s.workers[i := s.workers[i].(pc := Failed, outcome := Errored(e))])
    case Cancel(i) => Goto(s, i, Sending).(cancelled := true)
    case Send(i) =>
      var w := s.workers[i];
      Goto(s, i, Releasing).(errs := if w.outcome.Errored? then s.errs + [w.outcome.error] else s.errs)
    case Release(i) => Goto(s, i, Finishing).(sem := s.sem - 1)
    case Finish(i) => Goto(s, i, Done).(wg := s.wg - 1)
    case Wait => s.(main := Draining, closed := true)
    case Collect => s.(main := Returned(if s.errs == [] then None else Some(s.errs[0])))
  }

  ghost predicate CanRun(dirs: seq<bool>, s: State, run: seq<Label>)
    decreases run
  {
    run == [] || (Enabled(dirs, s, run[0]) && CanRun(dirs, Next(dirs, s, run[0]), run[1..]))
  }

  ghost function After(dirs: seq<bool>, s: State, run: seq<Label>): (t: State)
    requires CanRun(dirs, s, run)
    ensures |t.workers| == |s.workers|
    decreases run
  {
    if run == [] then s else After(dirs, Next(dirs, s, run[0]), run[1..])
  }

  // ---------------------------------------------------------------------------
  // Counting over workers
  // ---------------------------------------------------------------------------

  function Sum(f: Worker -> nat, s: seq<Worker>): nat {
    if s == [] then 0 else f(s[0]) + Sum(f, s[1..])
  }

  lemma {:induction false} SumUpdate(f: Worker -> nat, s: seq<Worker>, i: nat, w: Worker)
    requires i < |s|
    ensures Sum(f, s[i := w]) == Sum(f, s) - f(s[i]) + f(w)
  {
    if i > 0 {
      assert s[i := w][1..] == s[1..][i - 1 := w];
      SumUpdate(f, s[1..], i - 1, w);
    }
  }

  lemma {:induction false} SumBound(f: Worker -> nat, s: seq<Worker>, bound: nat)
    requires forall w :: w in s ==> f(w) <= bound
    ensures Sum(f, s) <= bound * |s|
  {
    if s != [] {
      var n := |s| - 1;
      SumBound(f, s[1..], bound);
      assert s[0] in s && bound * (n + 1) == bound * n + bound;
    }
  }

  lemma {:induction false} SumZero(f: Worker -> nat, s: seq<Worker>)
    ensures Sum(f, s) == 0 <==> forall i :: 0 <= i < |s| ==> f(s[i]) == 0
  {
    if s != [] {
      SumZero(f, s[1..]);
      assert forall i :: 0 < i < |s| ==> s[i] == s[1..][i - 1];
    }
  }

  function Holding(): Worker -> nat {
    (w: Worker) => if w.pc.Uploading? || w.pc.Failed? || w.pc.Sending? || w.pc.Releasing? then 1 else 0
  }

  function Running(): Worker -> nat {
    (w: Worker) => if w.pc.NotStarted? || w.pc.Done? then 0 else 1
  }

  predicate HasSent(w: Worker) { w.outcome.Errored? && (w.pc.Releasing? || w.pc.Finishing? || w.pc.Done?) }

  function Sent(): Worker -> nat { (w: Worker) => if HasSent(w) then 1 else 0 }

  /** Steps a worker still has before it, at most. */
  function Rank(): Worker -> nat {
    (w: Worker) =>
      match w.pc
      case NotStarted => 7
      case Select => 6
      case Uploading => 5
      case Failed => 4
      case Sending => 3
      case Releasing => 2
      case Finishing => 1
      case Done => 0
  }

  /** What the main goroutine and the caller still have before them. */
  function Remaining(dirs: seq<bool>, s: State): int {
    (match s.main
     case Spawning(n) => |dirs| - n + 3
     case Waiting => 2
     case Draining => 1
     case Returned(_) => 0)
    + (if s.callerCancelled then 0 else 1)
  }

  // ---------------------------------------------------------------------------
  // The invariant
  // ---------------------------------------------------------------------------

  /** A worker's history fits its program counter, and it uploaded at most once. */
  predicate Consistent(w: Worker) {
    && ((w.pc.NotStarted? || w.pc.Select? || w.pc.Uploading?) ==> w.outcome == Unknown)
    && ((w.pc.Failed? || w.pc.Sending?) ==> w.outcome.Errored?)
    && (w.pc == Releasing ==> w.outcome.Errored? || w.outcome == Succeeded)
    && ((w.pc.Finishing? || w.pc.Done?) ==> w.outcome != Unknown)
    && w.uploads == if w.outcome == Succeeded then 1 else 0
  }

  /** How far the spawning loop got: exactly the files before `next` have a goroutine. */
  function Spawned(s: State): nat {
    if s.main.Spawning? then s.main.next else |s.workers|
  }

  ghost predicate Shape(dirs: seq<bool>, s: State) {
    && |s.workers| == |dirs|
    && (forall i :: 0 <= i < |dirs| ==> Consistent(s.workers[i]))
    && Spawned(s) <= |dirs|
    && (forall i :: 0 <= i < |dirs| ==> (s.workers[i].pc == NotStarted <==> i >= Spawned(s) || dirs[i]))
  }

  /** Slots taken, goroutines alive and errors in the channel are what the counters say. */
  ghost predicate Counted(s: State) {
    && s.sem == Sum(Holding(), s.workers) <= SLOTS
    && s.wg == Sum(Running(), s.workers)
    && |s.errs| == Sum(Sent(), s.workers)
  }

  ghost predicate Reported(s: State, e: Error) {
    exists i :: 0 <= i < |s.workers| && s.workers[i].outcome == Errored(e)
  }

  ghost predicate SomeoneCancelled(s: State) {
    exists i :: 0 <= i < |s.workers| && s.workers[i].outcome.Errored? && s.workers[i].pc != Failed
  }

  /** Errors come from workers; the deployment is cancelled exactly by a worker that failed, or by the caller;
      only a cancelled deployment abandons files. */
  ghost predicate Justified(s: State) {
    && (forall e :: e in s.errs ==> Reported(s, e))
    && (s.cancelled <==> s.callerCancelled || SomeoneCancelled(s))
    && (forall i :: 0 <= i < |s.workers| && s.workers[i].outcome == Abandoned ==> s.cancelled)
  }

  ghost predicate Ending(s: State) {
    && (s.closed <==> s.main.Draining? || s.main.Returned?)
    && (s.closed ==> s.wg == 0)
    && (s.main.Returned? ==> s.main.result == if s.errs == [] then None else Some(s.errs[0]))
  }

  ghost predicate Inv(dirs: seq<bool>, s: State) {
    Shape(dirs, s) && Counted(s) && Justified(s) && Ending(s)
  }

  lemma {:induction false} InitHolds(dirs: seq<bool>)
    ensures Inv(dirs, Init(dirs))
  {
    var ws := Init(dirs).workers;
    SumZero(Holding(), ws);
    SumZero(Running(), ws);
    SumZero(Sent(), ws);
  }

  /** A running worker keeps the wait group above zero. */
  lemma RunningKeepsWaiting(dirs: seq<bool>, s: State, i: nat)
    requires Inv(dirs, s) && i < |dirs| && Running()(s.workers[i]) == 1
    ensures s.wg > 0 && !s.closed
  {
    SumZero(Running(), s.workers);
  }

  /** The worker a step moves; |workers| when it moves none. */
  function Mover(s: State, l: Label): nat {
    match l
    case Spawn => if s.main.Spawning? then s.main.next else |s.workers|
    case Acquire(i) => i
    case GiveUp(i) => i
    case Succeed(i) => i
    case Fail(i, _) => i
    case Cancel(i) => i
    case Send(i) => i
    case Release(i) => i
    case Finish(i) => i
    case _ => |s.workers|
  }

  lemma MovesOne(dirs: seq<bool>, s: State, l: Label)
    requires Enabled(dirs, s, l)
    ensures var t := Next(dirs, s, l); var i := Mover(s, l);
      && (i < |s.workers| ==> t.workers == s.workers[i := t.workers[i]])
      && (i >= |s.workers| ==> t.workers == s.workers)
  {
  }

  lemma StepSpawned(dirs: seq<bool>, s: State, l: Label)
    requires Shape(dirs, s) && Enabled(dirs, s, l)
    ensures var t := Next(dirs, s, l);
      Spawned(t) == Spawned(s) || Spawned(t) == Spawned(s) + 1 == Mover(s, l) + 1 <= |dirs|
  {
    hide Consistent;
  }

  lemma StepWorker(dirs: seq<bool>, s: State, l: Label)
    requires Shape(dirs, s) && Enabled(dirs, s, l) && Mover(s, l) < |dirs|
    ensures var i, t := Mover(s, l), Next(dirs, s, l);
      Consistent(t.workers[i]) && (t.workers[i].pc == NotStarted <==> i >= Spawned(t) || dirs[i])
  {
    assert Consistent(s.workers[Mover(s, l)]);
  }

  lemma StepShape(dirs: seq<bool>, s: State, l: Label)
    requires Shape(dirs, s) && Enabled(dirs, s, l)
    ensures Shape(dirs, Next(dirs, s, l))
  {
    hide Next, Enabled, Mover, Consistent, Spawned;
    MovesOne(dirs, s, l);
    StepSpawned(dirs, s, l);
    if Mover(s, l) < |dirs| {
      StepWorker(dirs, s, l);
    }
  }

  /** What a step does to the counters is what it does to the worker it moves. */
  lemma StepTokens(dirs: seq<bool>, s: State, l: Label)
    requires Shape(dirs, s) && Enabled(dirs, s, l) && Mover(s, l) < |dirs|
    ensures var t := Next(dirs, s, l); var w, v := s.workers[Mover(s, l)], t.workers[Mover(s, l)];
      && t.sem - s.sem == Holding()(v) - Holding()(w) && (t.sem > s.sem ==> s.sem < SLOTS)
      && t.wg - s.wg == Running()(v) - Running()(w)
  {
    hide Consistent;
  }

  lemma StepErrors(dirs: seq<bool>, s: State, l: Label)
    requires Shape(dirs, s) && Enabled(dirs, s, l) && Mover(s, l) < |dirs|
    ensures var t := Next(dirs, s, l);
      |t.errs| - |s.errs| == Sent()(t.workers[Mover(s, l)]) - Sent()(s.workers[Mover(s, l)])
  {
    assert Consistent(s.workers[Mover(s, l)]);
  }

  lemma StepRank(dirs: seq<bool>, s: State, l: Label)
    requires Shape(dirs, s) && Enabled(dirs, s, l) && Mover(s, l) < |dirs|
    ensures var t := Next(dirs, s, l);
      Rank()(t.workers[Mover(s, l)]) + Remaining(dirs, t) < Rank()(s.workers[Mover(s, l)]) + Remaining(dirs, s)
  {
    hide Consistent;
  }

  lemma StepCounted(dirs: seq<bool>, s: State, l: Label)
    requires Shape(dirs, s) && Counted(s) && Enabled(dirs, s, l)
    ensures Counted(Next(dirs, s, l))
  {
    MovesOne(dirs, s, l);
    var t, i := Next(dirs, s, l), Mover(s, l);
    if i < |s.workers| {
      hide Next, Enabled, Mover, Consistent;
      StepTokens(dirs, s, l);
      StepErrors(dirs, s, l);
      SumUpdate(Holding(), s.workers, i, t.workers[i]);
      SumUpdate(Running(), s.workers, i, t.workers[i]);
      SumUpdate(Sent(), s.workers, i, t.workers[i]);
    }
  }

  lemma StepJustified(dirs: seq<bool>, s: State, l: Label)
    requires Shape(dirs, s) && Justified(s) && Enabled(dirs, s, l)
    ensures Justified(Next(dirs, s, l))
  {
    MovesOne(dirs, s, l);
    var t, i := Next(dirs, s, l), Mover(s, l);
    assert i < |s.workers| ==> Consistent(s.workers[i]);
    forall e | e in t.errs ensures Reported(t, e) {
      if e in s.errs {
        var j :| 0 <= j < |s.workers| && s.workers[j].outcome == Errored(e);
        assert t.workers[j].outcome == Errored(e);
      } else {
        assert t.workers[i].outcome == Errored(e);
      }
    }
    StepCancels(dirs, s, l);
  }

  /** A failing worker cancels as it leaves Failed, and nothing takes a cancellation back. */
  lemma StepCancels(dirs: seq<bool>, s: State, l: Label)
    requires Shape(dirs, s) && Enabled(dirs, s, l)
    requires s.cancelled <==> s.callerCancelled || SomeoneCancelled(s)
    ensures var t := Next(dirs, s, l); t.cancelled <==> t.callerCancelled || SomeoneCancelled(t)
  {
    MovesOne(dirs, s, l);
    var t, i := Next(dirs, s, l), Mover(s, l);
    assert i < |s.workers| ==> Consistent(s.workers[i]);
    if SomeoneCancelled(s) {
      var j :| 0 <= j < |s.workers| && s.workers[j].outcome.Errored? && s.workers[j].pc != Failed;
      assert t.workers[j].outcome.Errored? && t.workers[j].pc != Failed;
    }
    if SomeoneCancelled(t) {
      var j :| 0 <= j < |t.workers| && t.workers[j].outcome.Errored? && t.workers[j].pc != Failed;
      assert l == Cancel(j) || (s.workers[j].outcome.Errored? && s.workers[j].pc != Failed);
    }
    if l.Cancel? {
      assert t.workers[i].outcome.Errored? && t.workers[i].pc != Failed;
    }
  }

  lemma StepEnding(dirs: seq<bool>, s: State, l: Label)
    requires Inv(dirs, s) && Enabled(dirs, s, l)
    ensures Ending(Next(dirs, s, l))
  {
    var i := Mover(s, l);
    if !l.Spawn? && i < |s.workers| {
      RunningKeepsWaiting(dirs, s, i);
    }
  }

  lemma StepKeeps(dirs: seq<bool>, s: State, l: Label)
    requires Inv(dirs, s) && Enabled(dirs, s, l)
    ensures Inv(dirs, Next(dirs, s, l))
  {
    StepShape(dirs, s, l);
    StepCounted(dirs, s, l);
    StepJustified(dirs, s, l);
    StepEnding(dirs, s, l);
  }

  lemma {:induction false} RunKeeps(dirs: seq<bool>, s: State, run: seq<Label>)
    requires Inv(dirs, s) && CanRun(dirs, s, run)
    ensures Inv(dirs, After(dirs, s, run))
    decreases run
  {
    if run != [] {
      StepKeeps(dirs, s, run[0]);
      RunKeeps(dirs, Next(dirs, s, run[0]), run[1..]);
    }
  }

  // ---------------------------------------------------------------------------
  // What every interleaving guarantees
  // ---------------------------------------------------------------------------

  /** Sending an error never blocks and never hits a closed channel: the buffer has a place for every
      file, and no worker sends twice. */
  lemma SendNeverBlocks(dirs: seq<bool>, s: State, i: nat)
    requires Inv(dirs, s) && At(s, i, Sending)
    ensures Enabled(dirs, s, Send(i)) && !s.closed
  {
    var w := s.workers[i].(pc := Releasing);
    assert Consistent(s.workers[i]);
    SumUpdate(Sent(), s.workers, i, w);
    SumBound(Sent(), s.workers[i := w], 1);
    RunningKeepsWaiting(dirs, s, i);
  }

  /** As long as some goroutine is alive, some goroutine can take a step. */
  lemma WorkersProgress(dirs: seq<bool>, s: State, i: nat) returns (l: Label)
    requires Inv(dirs, s) && i < |dirs| && Running()(s.workers[i]) == 1
    ensures Enabled(dirs, s, l) && Mover(s, l) < |dirs| && !l.Spawn?
  {
    var j := i;
    if s.workers[i].pc == Select && s.sem >= SLOTS {
      SumZero(Holding(), s.workers);
      j :| 0 <= j < |dirs| && Holding()(s.workers[j]) != 0;
    }
    match s.workers[j].pc
    case Select => l := Acquire(j);
    case Uploading => l := Succeed(j);
    case Failed => l := Cancel(j);
    case Sending =>
      SendNeverBlocks(dirs, s, j);
      l := Send(j);
    case Releasing => l := Release(j);
    case Finishing => l := Finish(j);
  }

  /** No deadlock: until DeployZip has returned, some step other than the caller's is enabled. */
  lemma Progress(dirs: seq<bool>, s: State) returns (l: Label)
    requires Inv(dirs, s) && !s.main.Returned?
    ensures Enabled(dirs, s, l) && l != CallerCancels
  {
    match s.main
    case Spawning(_) => l := Spawn;
    case Draining => l := Collect;
    case Waiting =>
      SumZero(Running(), s.workers);
      if s.wg == 0 {
        l := Wait;
      } else {
        var i :| 0 <= i < |dirs| && Running()(s.workers[i]) != 0;
        l := WorkersProgress(dirs, s, i);
      }
  }

  function Measure(dirs: seq<bool>, s: State): int { Sum(Rank(), s.workers) + Remaining(dirs, s) }

  lemma StepDecreases(dirs: seq<bool>, s: State, l: Label)
    requires Shape(dirs, s) && Enabled(dirs, s, l)
    ensures 0 <= Measure(dirs, Next(dirs, s, l)) < Measure(dirs, s)
  {
    StepShape(dirs, s, l);
    MovesOne(dirs, s, l);
    var t, i := Next(dirs, s, l), Mover(s, l);
    if i < |s.workers| {
      StepRank(dirs, s, l);
      assert Remaining(dirs, t) >= 0;
      hide Next, Enabled, Mover, Consistent, Shape, Remaining;
      SumUpdate(Rank(), s.workers, i, t.workers[i]);
    }
  }

  /** Every run is finite: no schedule takes more than 8n + 4 steps for n archive entries. */
  lemma {:induction false} RunsAreShort(dirs: seq<bool>, s: State, run: seq<Label>)
    requires Inv(dirs, s) && CanRun(dirs, s, run)
    ensures |run| <= Measure(dirs, s)
    ensures s == Init(dirs) ==> |run| <= 8 * |dirs| + 4
    decreases run
  {
    SumBound(Rank(), s.workers, 7);
    if run != [] {
      StepDecreases(dirs, s, run[0]);
      StepKeeps(dirs, s, run[0]);
      RunsAreShort(dirs, Next(dirs, s, run[0]), run[1..]);
    }
  }

  /** A run that nothing but the caller could extend has returned: wg.Wait is always reached. */
  lemma MaximalRunReturns(dirs: seq<bool>, run: seq<Label>)
    requires CanRun(dirs, Init(dirs), run)
    requires forall l :: Enabled(dirs, After(dirs, Init(dirs), run), l) ==> l == CallerCancels
    ensures After(dirs, Init(dirs), run).main.Returned?
  {
    InitHolds(dirs);
    RunKeeps(dirs, Init(dirs), run);
    if !After(dirs, Init(dirs), run).main.Returned? {
      var l := Progress(dirs, After(dirs, Init(dirs), run));
    }
  }

  /** In every reachable state the semaphore's tokens are exactly the workers between acquire and
      release, never more than ten, and up to ten are let in; the wait group counts exactly the live goroutines. */
  lemma CountersExact(dirs: seq<bool>, run: seq<Label>)
    requires CanRun(dirs, Init(dirs), run)
    ensures var s := After(dirs, Init(dirs), run);
      && s.sem == Sum(Holding(), s.workers) <= 10
      && s.wg == Sum(Running(), s.workers) >= 0
      && |s.errs| <= |dirs|
      && (forall i: nat {:trigger Acquire(i)} :: At(s, i, Select) ==> (Enabled(dirs, s, Acquire(i)) <==> s.sem < 10))
  {
    InitHolds(dirs);
    RunKeeps(dirs, Init(dirs), run);
    SumBound(Sent(), After(dirs, Init(dirs), run).workers, 1);
  }

  /** At the end every file has been dealt with, and nil is returned exactly when no worker failed. */
  lemma AllDone(dirs: seq<bool>, s: State)
    requires Inv(dirs, s) && s.main.Returned?
    ensures forall i :: 0 <= i < |dirs| ==> s.workers[i].pc == if dirs[i] then NotStarted else Done
    ensures s.errs == [] <==> forall i :: 0 <= i < |dirs| ==> !s.workers[i].outcome.Errored?
  {
    SumZero(Running(), s.workers);
    SumZero(Sent(), s.workers);
    forall i | 0 <= i < |dirs|
      ensures s.workers[i].pc == if dirs[i] then NotStarted else Done
      ensures Sent()(s.workers[i]) == 1 <==> s.workers[i].outcome.Errored?
    {
      assert Running()(s.workers[i]) == 0 && Consistent(s.workers[i]);
    }
  }

  lemma ResultMeans(dirs: seq<bool>, run: seq<Label>)
    requires CanRun(dirs, Init(dirs), run) && After(dirs, Init(dirs), run).main.Returned?
    ensures var s := After(dirs, Init(dirs), run);
      && (s.main.result == None <==> forall i :: 0 <= i < |dirs| ==> !s.workers[i].outcome.Errored?)
      && (s.main.result.Some? ==> Reported(s, s.main.result.value))
  {
    InitHolds(dirs);
    RunKeeps(dirs, Init(dirs), run);
    AllDone(dirs, After(dirs, Init(dirs), run));
  }

  // ---------------------------------------------------------------------------
  // A failure stops the uploads
  // ---------------------------------------------------------------------------

  /** In a cancelled deployment there is a step to take that begins no upload. */
  lemma NextWithoutUpload(dirs: seq<bool>, s: State) returns (l: Label)
    requires Inv(dirs, s) && s.cancelled && !s.main.Returned?
    ensures Enabled(dirs, s, l) && !l.Acquire? && l != CallerCancels && Next(dirs, s, l).cancelled
  {
    match s.main
    case Spawning(_) => l := Spawn;
    case Draining => l := Collect;
    case Waiting =>
      SumZero(Running(), s.workers);
      if s.wg == 0 {
        l := Wait;
      } else {
        var i :| 0 <= i < |dirs| && Running()(s.workers[i]) != 0;
        match s.workers[i].pc
        case Select => l := GiveUp(i);
        case Uploading => l := Succeed(i);
        case Failed => l := Cancel(i);
        case Sending =>
          SendNeverBlocks(dirs, s, i);
          l := Send(i);
        case Releasing => l := Release(i);
        case Finishing => l := Finish(i);
      }
  }

  lemma {:induction false} DrainWithoutUpload(dirs: seq<bool>, s: State) returns (run: seq<Label>)
    requires Inv(dirs, s) && s.cancelled
    ensures CanRun(dirs, s, run) && After(dirs, s, run).main.Returned?
    ensures forall l :: l in run ==> !l.Acquire? && l != CallerCancels
    decreases Measure(dirs, s)
  {
    if s.main.Returned? {
      run := [];
    } else {
      hide Inv, Next, Enabled, Measure;
      var l := NextWithoutUpload(dirs, s);
      StepKeeps(dirs, s, l);
      StepShrinks(dirs, s, l);
      run := DrainWithoutUpload(dirs, Next(dirs, s, l));
      Prefix(dirs, s, l, run);
      run := [l] + run;
    }
  }

  lemma StepShrinks(dirs: seq<bool>, s: State, l: Label)
    requires Inv(dirs, s) && Enabled(dirs, s, l)
    ensures 0 <= Measure(dirs, Next(dirs, s, l)) < Measure(dirs, s)
  {
    StepDecreases(dirs, s, l);
  }

  lemma {:induction false} ErrorStays(dirs: seq<bool>, s: State, run: seq<Label>, i: nat)
    requires Inv(dirs, s) && CanRun(dirs, s, run) && i < |dirs| && s.workers[i].outcome.Errored?
    ensures After(dirs, s, run).workers[i].outcome == s.workers[i].outcome
    decreases run
  {
    if run != [] {
      MovesOne(dirs, s, run[0]);
      assert Consistent(s.workers[i]);
      StepKeeps(dirs, s, run[0]);
      ErrorStays(dirs, Next(dirs, s, run[0]), run[1..], i);
    }
  }

  /** Once a worker has failed and gone past its cancel(), in every run: the deployment is cancelled, every
      worker that waits for a slot may give up, and the deployment can come to its end, returning an error,
      with no further upload begun. */
  lemma FailureStopsUploads(dirs: seq<bool>, run: seq<Label>) returns (more: seq<Label>)
    requires CanRun(dirs, Init(dirs), run) && SomeoneCancelled(After(dirs, Init(dirs), run))
    ensures var s := After(dirs, Init(dirs), run);
      && s.cancelled && (forall i :: At(s, i, Select) ==> Enabled(dirs, s, GiveUp(i)))
      && CanRun(dirs, s, more) && (forall l :: l in more ==> !l.Acquire? && l != CallerCancels)
      && var t := After(dirs, s, more); t.main.Returned? && t.main.result.Some?
  {
    var s := After(dirs, Init(dirs), run);
    InitHolds(dirs);
    RunKeeps(dirs, Init(dirs), run);
    more := DrainWithoutUpload(dirs, s);
    RunKeeps(dirs, s, more);
    var t := After(dirs, s, more);
    AllDone(dirs, t);
    var i :| 0 <= i < |s.workers| && s.workers[i].outcome.Errored? && s.workers[i].pc != Failed;
    ErrorStays(dirs, s, more, i);
  }

  // ---------------------------------------------------------------------------
  // The state by the labels of the run alone
  // ---------------------------------------------------------------------------

  /** The error a worker's upload ended with. */
  function FailedWith(run: seq<Label>, i: nat): Option<Error> {
    if run == [] then None
    else
      var n := |run| - 1;
      if run[n].Fail? && run[n].i == i then Some(run[n].error) else FailedWith(run[..n], i)
  }

  /** The errors in the order in which the workers sent them. */
  function SentErrors(run: seq<Label>): seq<Error> {
    if run == [] then []
    else
      var n := |run| - 1;
      SentErrors(run[..n]) +
      if run[n].Send? && FailedWith(run[..n], run[n].i).Some? then [FailedWith(run[..n], run[n].i).value] else []
  }

  function Successes(run: seq<Label>, i: nat): nat {
    if run == [] then 0
    else
      var n := |run| - 1;
      Successes(run[..n], i) + if run[n] == Succeed(i) then 1 else 0
  }

  lemma {:induction false} CanRunSnoc(dirs: seq<bool>, s: State, run: seq<Label>)
    requires CanRun(dirs, s, run) && run != []
    ensures var n := |run| - 1;
      && CanRun(dirs, s, run[..n]) && Enabled(dirs, After(dirs, s, run[..n]), run[n])
      && After(dirs, s, run) == Next(dirs, After(dirs, s, run[..n]), run[n])
    decreases run
  {
    var n := |run| - 1;
    if n > 0 {
      CanRunSnoc(dirs, Next(dirs, s, run[0]), run[1..]);
      assert run[1..][..n - 1] == run[..n][1..];
      assert run[1..][n - 1] == run[n];
    } else {
      assert run[..0] == [] && run[1..] == [];
    }
  }

  /** What worker i has done is what the labels say. */
  ghost predicate Told(s: State, run: seq<Label>, i: nat) {
    && i < |s.workers|
    && (forall e :: s.workers[i].outcome == Errored(e) <==> FailedWith(run, i) == Some(e))
    && s.workers[i].uploads == Successes(run, i)
    && (s.workers[i].outcome == Abandoned <==> GiveUp(i) in run)
  }

  lemma StepTold(dirs: seq<bool>, s: State, l: Label, run: seq<Label>, i: nat)
    requires Shape(dirs, s) && Enabled(dirs, s, l) && Told(s, run, i)
    ensures Told(Next(dirs, s, l), run + [l], i)
  {
    MovesOne(dirs, s, l);
    assert (run + [l])[..|run|] == run && (run + [l])[|run|] == l;
    assert Consistent(s.workers[i]);
  }

  /** In every run: a worker's outcome, its uploads, the caller's cancellation and the errors in the channel are
      what the labels of the run say. */
  lemma {:induction false} StateIsHistory(dirs: seq<bool>, run: seq<Label>)
    requires CanRun(dirs, Init(dirs), run)
    ensures var s := After(dirs, Init(dirs), run);
      && (forall i :: 0 <= i < |dirs| ==> Told(s, run, i))
      && (s.callerCancelled <==> CallerCancels in run)
      && s.errs == SentErrors(run)
  {
    InitHolds(dirs);
    if run != [] {
      var n := |run| - 1;
      CanRunSnoc(dirs, Init(dirs), run);
      StateIsHistory(dirs, run[..n]);
      RunKeeps(dirs, Init(dirs), run[..n]);
      var s, l := After(dirs, Init(dirs), run[..n]), run[n];
      assert run[..n] + [l] == run;
      StepSent(dirs, s, l, run[..n]);
      hide Told, Next, Enabled, Inv;
      forall i | 0 <= i < |dirs| ensures Told(After(dirs, Init(dirs), run), run, i) {
        TellStep(dirs, s, l, run[..n], i);
      }
    }
  }

  lemma TellStep(dirs: seq<bool>, s: State, l: Label, run: seq<Label>, i: nat)
    requires Inv(dirs, s) && Enabled(dirs, s, l) && Told(s, run, i)
    ensures Told(Next(dirs, s, l), run + [l], i)
  {
    StepTold(dirs, s, l, run, i);
  }

  lemma StepSent(dirs: seq<bool>, s: State, l: Label, run: seq<Label>)
    requires Inv(dirs, s) && Enabled(dirs, s, l) && s.errs == SentErrors(run)
    requires forall i :: 0 <= i < |dirs| ==> Told(s, run, i)
    requires s.callerCancelled <==> CallerCancels in run
    ensures Next(dirs, s, l).errs == SentErrors(run + [l])
    ensures Next(dirs, s, l).callerCancelled <==> CallerCancels in run + [l]
  {
    assert (run + [l])[..|run|] == run && (run + [l])[|run|] == l;
    if l.Send? {
      assert Consistent(s.workers[l.i]) && Told(s, run, l.i);
    }
  }

  /** DeployZip returns the error that was sent first, and nil when none was. */
  lemma FirstErrorWins(dirs: seq<bool>, run: seq<Label>)
    requires CanRun(dirs, Init(dirs), run) && After(dirs, Init(dirs), run).main.Returned?
    ensures After(dirs, Init(dirs), run).main.result == if SentErrors(run) == [] then None else Some(SentErrors(run)[0])
  {
    InitHolds(dirs);
    RunKeeps(dirs, Init(dirs), run);
    StateIsHistory(dirs, run);
  }

  /** Every file of the archive was uploaded once, and no directory. */
  ghost predicate AllUploaded(dirs: seq<bool>, s: State)
    requires |s.workers| == |dirs|
  {
    forall i :: 0 <= i < |dirs| ==> s.workers[i].uploads == if dirs[i] then 0 else 1
  }

  /** A nil result means every file was uploaded exactly once, unless the caller's own context was
      cancelled; and then it means exactly that as long as no worker gave up. */
  lemma NilMeansUploaded(dirs: seq<bool>, run: seq<Label>)
    requires CanRun(dirs, Init(dirs), run) && After(dirs, Init(dirs), run).main == Returned(None)
    ensures var s := After(dirs, Init(dirs), run);
      && (AllUploaded(dirs, s) <==> forall i :: 0 <= i < |dirs| ==> s.workers[i].outcome != Abandoned)
      && (!s.callerCancelled ==> AllUploaded(dirs, s))
  {
    var s := After(dirs, Init(dirs), run);
    InitHolds(dirs);
    RunKeeps(dirs, Init(dirs), run);
    AllDone(dirs, s);
    forall i | 0 <= i < |dirs|
      ensures !s.workers[i].outcome.Errored? && Consistent(s.workers[i])
      ensures s.workers[i].uploads == (if dirs[i] then 0 else 1) <==> s.workers[i].outcome != Abandoned
    {
      assert Consistent(s.workers[i]);
    }
  }

  /** Cancelled, and no worker has asked for a slot successfully. */
  ghost predicate GivingUp(s: State) {
    && s.cancelled && s.errs == []
    && forall i :: 0 <= i < |s.workers| ==>
         && (s.workers[i].outcome == Unknown || s.workers[i].outcome == Abandoned)
         && var pc := s.workers[i].pc; (pc.NotStarted? || pc.Select? || pc.Finishing? || pc.Done?)
  }

  /** From there the step that lets everybody give up. */
  lemma NextGivesUp(dirs: seq<bool>, s: State) returns (l: Label)
    requires Inv(dirs, s) && GivingUp(s) && !s.main.Returned?
    ensures Enabled(dirs, s, l) && GivingUp(Next(dirs, s, l))
  {
    match s.main
    case Spawning(_) => l := Spawn;
    case Draining => l := Collect;
    case Waiting =>
      SumZero(Running(), s.workers);
      if s.wg == 0 {
        l := Wait;
      } else {
        var i :| 0 <= i < |dirs| && Running()(s.workers[i]) != 0;
        l := if s.workers[i].pc.Select? then GiveUp(i) else Finish(i);
      }
  }

  lemma {:induction false} GiveAllUp(dirs: seq<bool>, s: State) returns (run: seq<Label>)
    requires Inv(dirs, s) && GivingUp(s)
    ensures CanRun(dirs, s, run)
    ensures After(dirs, s, run).main == Returned(None)
    ensures forall i :: 0 <= i < |dirs| ==> After(dirs, s, run).workers[i].uploads == 0
    decreases Measure(dirs, s)
  {
    if s.main.Returned? {
      run := [];
      assert forall i :: 0 <= i < |dirs| ==> Consistent(s.workers[i]);
    } else {
      hide GivingUp, Next, Enabled, Measure;
      var l := NextGivesUp(dirs, s);
      StepKeeps(dirs, s, l);
      StepDecreases(dirs, s, l);
      run := GiveAllUp(dirs, Next(dirs, s, l));
      Prefix(dirs, s, l, run);
      run := [l] + run;
    }
  }

  /** With a cancelled caller a nil result proves nothing: whatever the archive holds, DeployZip can
      return nil with no file uploaded. */
  lemma CancelledCallerGetsNil(dirs: seq<bool>) returns (run: seq<Label>)
    ensures CanRun(dirs, Init(dirs), run)
    ensures After(dirs, Init(dirs), run).main == Returned(None)
    ensures forall i :: 0 <= i < |dirs| ==> After(dirs, Init(dirs), run).workers[i].uploads == 0
  {
    InitHolds(dirs);
    StepKeeps(dirs, Init(dirs), CallerCancels);
    run := GiveAllUp(dirs, Next(dirs, Init(dirs), CallerCancels));
    Prefix(dirs, Init(dirs), CallerCancels, run);
    run := [CallerCancels] + run;
  }

  lemma {:induction false} NobodyCancelled(dirs: seq<bool>, s: State, run: seq<Label>)
    requires CanRun(dirs, s, run) && CallerCancels !in run && !s.callerCancelled
    ensures !After(dirs, s, run).callerCancelled
    decreases run
  {
    if run != [] {
      assert run[0] in run;
      NobodyCancelled(dirs, Next(dirs, s, run[0]), run[1..]);
    }
  }

  /** Nil means that everything was uploaded, in all runs, exactly when the caller's context cannot be
      cancelled or there is no file to upload. */
  lemma NilMeansUploadedIff(dirs: seq<bool>, mayCancel: bool)
    ensures (forall run :: CanRun(dirs, Init(dirs), run) && (mayCancel || CallerCancels !in run) &&
                           After(dirs, Init(dirs), run).main == Returned(None)
                ==> AllUploaded(dirs, After(dirs, Init(dirs), run)))
      <==> !mayCancel || forall i :: 0 <= i < |dirs| ==> dirs[i]
  {
    if mayCancel {
      var run := CancelledCallerGetsNil(dirs);
      forall other | CanRun(dirs, Init(dirs), other) && After(dirs, Init(dirs), other).main == Returned(None)
        ensures (forall i :: 0 <= i < |dirs| ==> dirs[i]) ==> AllUploaded(dirs, After(dirs, Init(dirs), other))
      {
        DirectoriesStay(dirs, other);
      }
    } else {
      forall run | CanRun(dirs, Init(dirs), run) && CallerCancels !in run &&
                   After(dirs, Init(dirs), run).main == Returned(None)
        ensures AllUploaded(dirs, After(dirs, Init(dirs), run))
      {
        NobodyCancelled(dirs, Init(dirs), run);
        NilMeansUploaded(dirs, run);
      }
    }
  }

  lemma DirectoriesStay(dirs: seq<bool>, run: seq<Label>)
    requires CanRun(dirs, Init(dirs), run)
    ensures forall i :: 0 <= i < |dirs| && dirs[i] ==> After(dirs, Init(dirs), run).workers[i].uploads == 0
  {
    InitHolds(dirs);
    RunKeeps(dirs, Init(dirs), run);
    assert forall i :: 0 <= i < |dirs| ==> Consistent(After(dirs, Init(dirs), run).workers[i]);
  }

  lemma Prefix(dirs: seq<bool>, s: State, l: Label, run: seq<Label>)
    requires Enabled(dirs, s, l) && CanRun(dirs, Next(dirs, s, l), run)
    ensures CanRun(dirs, s, [l] + run) && After(dirs, s, [l] + run) == After(dirs, Next(dirs, s, l), run)
  {
    assert ([l] + run)[1..] == run;
  }
}
