/** The gateway's rate limiter: one token bucket per client key, refilled by elapsed time, and a
    janitor that forgets clients idle for more than five minutes. Times are real seconds. */
module TokenBucket {
  import opened Prelude

  const IDLE_LIMIT := 300.0

  datatype Bucket = Bucket(tokens: real, lastSeen: real)

  type Clients = map<string, Bucket>

  /** A sweep reads the clock anew for each client it looks at, and is over at `at`. */
  datatype Event = Request(key: string, at: real) | Sweep(clocks: map<string, real>, at: real)

  datatype Config = Config(rate: real, burst: real)

  ghost predicate Sensible(c: Config) { c.rate >= 0.0 && c.burst >= 1.0 }

  /** Tokens refilled in `seconds`. */
  function Gain(c: Config, seconds: real): real { seconds * c.rate }

  lemma GainAdds(c: Config, a: real, b: real)
    ensures Gain(c, a + b) == Gain(c, a) + Gain(c, b) && Gain(c, 0.0) == 0.0
  {
  }

  lemma GainGrows(c: Config, a: real, b: real)
    requires c.rate >= 0.0 && a <= b
    ensures Gain(c, a) <= Gain(c, b)
  {
    assert (b - a) * c.rate >= 0.0;
  }

  function Min(a: real, b: real): real { if a <= b then a else b }

  /** What a key could spend at time `now`; an unknown client has a full bucket. */
  function Available(c: Config, m: Clients, key: string, now: real): real {
    if key in m then Min(c.burst, m[key].tokens + Gain(c, now - m[key].lastSeen)) else c.burst
  }

  /** A first request is always admitted, whatever the burst. */
  function Admitted(c: Config, m: Clients, key: string, now: real): bool {
    key !in m || Available(c, m, key, now) >= 1.0
  }

  function AfterRequest(c: Config, m: Clients, key: string, now: real): Clients {
    var a := Available(c, m, key, now);
    m[key := Bucket(if Admitted(c, m, key, now) then a - 1.0 else a, now)]
  }

  predicate Idle(m: Clients, clocks: map<string, real>, key: string) {
    key in m && key in clocks && clocks[key] - m[key].lastSeen > IDLE_LIMIT
  }

  function AfterSweep(m: Clients, clocks: map<string, real>): Clients { map k | k in m && !Idle(m, clocks, k) :: m[k] }

  /** One event; `janitor` says whether sweeps happen at all. */
  function After(c: Config, janitor: bool, m: Clients, e: Event): Clients {
    match e
    case Request(key, at) => AfterRequest(c, m, key, at)
    case Sweep(clocks, _) => if janitor then AfterSweep(m, clocks) else m
  }

  function Verdict(c: Config, m: Clients, e: Event): seq<bool> {
    match e
    case Request(key, at) => [Admitted(c, m, key, at)]
    case Sweep(_, _) => []
  }

  function Decisions(c: Config, janitor: bool, m: Clients, run: seq<Event>): seq<bool>
    decreases run
  {
    if run == [] then [] else Verdict(c, m, run[0]) + Decisions(c, janitor, After(c, janitor, m, run[0]), run[1..])
  }

  function Final(c: Config, janitor: bool, m: Clients, run: seq<Event>): Clients
    decreases run
  {
    if run == [] then m else Final(c, janitor, After(c, janitor, m, run[0]), run[1..])
  }

  ghost predicate ReadBefore(e: Event) { e.Sweep? ==> forall k :: k in e.clocks ==> e.clocks[k] <= e.at }

  ghost predicate Forward(run: seq<Event>, clock: real) {
    run == [] || (clock <= run[0].at && ReadBefore(run[0]) && Forward(run[1..], run[0].at))
  }

  function End(run: seq<Event>, clock: real): real { if run == [] then clock else run[|run| - 1].at }

  /** How many requests of `key` a stretch of a run admits. */
  function Count(c: Config, janitor: bool, m: Clients, run: seq<Event>, key: string): nat
    decreases run
  {
    if run == [] then 0
    else
      (if run[0].Request? && run[0].key == key && Admitted(c, m, key, run[0].at) then 1 else 0)
      + Count(c, janitor, After(c, janitor, m, run[0]), run[1..], key)
  }

  // ---------------------------------------------------------------------------
  // The window bound
  // ---------------------------------------------------------------------------

  /** Every bucket holds between nothing and a full burst, and was seen in the past. */
  ghost predicate Inv(c: Config, m: Clients, clock: real) {
    forall k :: k in m ==> 0.0 <= m[k].tokens <= c.burst && m[k].lastSeen <= clock
  }

  lemma Refill(c: Config, m: Clients, key: string, t: real, u: real)
    requires Sensible(c) && t <= u
    ensures Available(c, m, key, t) <= Available(c, m, key, u) <= Available(c, m, key, t) + Gain(c, u - t)
    ensures Inv(c, m, t) ==> 0.0 <= Available(c, m, key, t) <= c.burst
  {
    hide Gain;
    GainAdds(c, 0.0, 0.0);
    GainGrows(c, 0.0, u - t);
    if key in m {
      var b := m[key];
      GainAdds(c, t - b.lastSeen, u - t);
      assert (t - b.lastSeen) + (u - t) == u - b.lastSeen;
      if Inv(c, m, t) {
        GainGrows(c, 0.0, t - b.lastSeen);
      }
    }
  }

  lemma StepKeeps(c: Config, janitor: bool, m: Clients, e: Event, clock: real)
    requires Sensible(c) && Inv(c, m, clock) && clock <= e.at
    ensures Inv(c, After(c, janitor, m, e), e.at)
  {
    if e.Request? {
      Refill(c, m, e.key, clock, e.at);
      Refill(c, m, e.key, e.at, e.at);
    }
  }

  lemma {:induction false} RunKeeps(c: Config, janitor: bool, m: Clients, run: seq<Event>, clock: real)
    requires Sensible(c) && Inv(c, m, clock) && Forward(run, clock)
    ensures Inv(c, Final(c, janitor, m, run), End(run, clock)) && clock <= End(run, clock)
    decreases run
  {
    if run != [] {
      StepKeeps(c, janitor, m, run[0], clock);
      RunKeeps(c, janitor, After(c, janitor, m, run[0]), run[1..], run[0].at);
    }
  }

  /** Without sweeps, admissions are paid for: what a stretch admits plus what is left at its end never
      exceeds what was there at its start plus what was refilled meanwhile. */
  lemma {:induction false} Paid(c: Config, m: Clients, run: seq<Event>, key: string, clock: real)
    requires Sensible(c) && Inv(c, m, clock) && Forward(run, clock)
    ensures var t := End(run, clock);
      Count(c, false, m, run, key) as real + Available(c, Final(c, false, m, run), key, t)
      <= Available(c, m, key, clock) + Gain(c, t - clock)
    decreases run
  {
    hide Gain, Available, Inv, Sensible, Forward;
    GainAdds(c, 0.0, 0.0);
    if run != [] {
      ForwardTail(run, clock);
      PaidStep(c, m, run[0], key, clock);
      var m' := After(c, false, m, run[0]);
      StepKeeps(c, false, m, run[0], clock);
      Paid(c, m', run[1..], key, run[0].at);
      var t := End(run, clock);
      GainAdds(c, t - run[0].at, run[0].at - clock);
      assert (t - run[0].at) + (run[0].at - clock) == t - clock;
    }
  }

  lemma ForwardTail(run: seq<Event>, clock: real)
    requires Forward(run, clock) && run != []
    ensures clock <= run[0].at && ReadBefore(run[0]) && Forward(run[1..], run[0].at)
    ensures End(run, clock) == End(run[1..], run[0].at)
  {
  }

  lemma PaidStep(c: Config, m: Clients, e: Event, key: string, clock: real)
    requires Sensible(c) && clock <= e.at
    ensures var cost := if e.Request? && e.key == key && Admitted(c, m, key, e.at) then 1.0 else 0.0;
      cost + Available(c, After(c, false, m, e), key, e.at) <= Available(c, m, key, clock) + Gain(c, e.at - clock)
  {
    Refill(c, m, key, clock, e.at);
    GainAdds(c, 0.0, 0.0);
    hide Gain;
  }

  /** What a key's bucket would hold at `now` if nothing overflowed. */
  function Level(c: Config, m: Clients, key: string, now: real): real {
    if key in m then m[key].tokens + Gain(c, now - m[key].lastSeen) else c.burst
  }

  function Overflow(c: Config, level: real): real { if level > c.burst then level - c.burst else 0.0 }

  /** What the events of a stretch spill: at each request of the key what is above the burst, and as long as the
      key is unknown, and so its bucket full, all that is refilled. */
  function Spilled(c: Config, m: Clients, run: seq<Event>, key: string, clock: real): real
    decreases run
  {
    if run == [] then 0.0
    else
      var e := run[0];
      (if key !in m then Gain(c, e.at - clock)
       else if e.Request? && e.key == key then Overflow(c, Level(c, m, key, e.at))
       else 0.0)
      + Spilled(c, After(c, false, m, e), run[1..], key, e.at)
  }

  /** Tokens are conserved: in every stretch without sweeps, what it admits, plus what is left, plus what it
      spills, is what was there plus what is refilled. So a request costs one token if it is admitted, and
      nothing if it is refused. */
  lemma {:induction false} Conserved(c: Config, m: Clients, run: seq<Event>, key: string, clock: real)
    requires Sensible(c) && Forward(run, clock)
    ensures var t, end := End(run, clock), Final(c, false, m, run);
      Count(c, false, m, run, key) as real + Spilled(c, m, run, key, clock)
      + Level(c, end, key, t)
      == Level(c, m, key, clock) + Gain(c, t - clock)
    decreases run
  {
    hide Gain, Level, Sensible, Forward, Available;
    GainAdds(c, 0.0, 0.0);
    if run == [] {
      assert clock - clock == 0.0;
    } else {
      ForwardTail(run, clock);
      var e, m' := run[0], After(c, false, m, run[0]);
      ConservedStep(c, m, e, key, clock);
      Conserved(c, m', run[1..], key, e.at);
      var t := End(run, clock);
      GainAdds(c, t - e.at, e.at - clock);
      assert (t - e.at) + (e.at - clock) == t - clock;
    }
  }

  lemma ConservedStep(c: Config, m: Clients, e: Event, key: string, clock: real)
    requires Sensible(c) && clock <= e.at
    ensures var m' := After(c, false, m, e);
      (if e.Request? && e.key == key && Admitted(c, m, key, e.at) then 1.0 else 0.0)
      + (if key !in m then Gain(c, e.at - clock)
         else if e.Request? && e.key == key then Overflow(c, Level(c, m, key, e.at))
         else 0.0)
      + Level(c, m', key, e.at)
      == Level(c, m, key, clock) + Gain(c, e.at - clock)
  {
    GainAdds(c, 0.0, 0.0);
    if key in m {
      GainAdds(c, clock - m[key].lastSeen, e.at - clock);
      assert (clock - m[key].lastSeen) + (e.at - clock) == e.at - m[key].lastSeen;
    }
    hide Gain;
  }

  lemma {:induction false} SeenOnlyIfAsked(c: Config, janitor: bool, m: Clients, run: seq<Event>, key: string)
    requires key !in m && forall i :: 0 <= i < |run| && run[i].Request? ==> run[i].key != key
    ensures key !in Final(c, janitor, m, run)
    decreases run
  {
    if run != [] {
      assert run[0].Request? ==> run[0].key != key;
      assert forall i :: 0 <= i < |run[1..]| ==> run[1..][i] == run[i + 1];
      SeenOnlyIfAsked(c, janitor, After(c, janitor, m, run[0]), run[1..], key);
    }
  }

  /** A client's first request is admitted and leaves it a burst less one token, under every setting, also one whose
      burst is less than a token. */
  lemma FirstIsAdmitted(c: Config, janitor: bool, run: seq<Event>, key: string, now: real)
    requires forall i :: 0 <= i < |run| && run[i].Request? ==> run[i].key != key
    ensures var m := Final(c, janitor, map[], run);
      && Verdict(c, m, Request(key, now)) == [true]
      && key in AfterRequest(c, m, key, now) && AfterRequest(c, m, key, now)[key] == Bucket(c.burst - 1.0, now)
  {
    SeenOnlyIfAsked(c, janitor, map[], run, key);
  }

  /** So in every run from the start a request is admitted exactly if its client's account, a burst and what was
      refilled, less what was spilled and what was admitted, has a token left. */
  lemma DecidedByAccount(c: Config, run: seq<Event>, key: string, now: real)
    requires Sensible(c) && Forward(run, 0.0) && End(run, 0.0) <= now
    ensures var m := Final(c, false, map[], run);
      var t := End(run, 0.0);
      var account := c.burst + Gain(c, t) - Spilled(c, map[], run, key, 0.0) - Count(c, false, map[], run, key) as real;
      Admitted(c, m, key, now) <==> account + Gain(c, now - t) >= 1.0
  {
    var m, t := Final(c, false, map[], run), End(run, 0.0);
    Conserved(c, map[], run, key, 0.0);
    GainGrows(c, 0.0, now - t);
    GainAdds(c, 0.0, 0.0);
    assert t - 0.0 == t;
    if key in m {
      GainAdds(c, t - m[key].lastSeen, now - t);
      assert (t - m[key].lastSeen) + (now - t) == now - m[key].lastSeen;
    }
    hide Gain;
  }

  /** Two limiters that will always have the same to offer. */
  ghost predicate OffersAlike(c: Config, m: Clients, n: Clients, clock: real) {
    && m.Keys == n.Keys
    && forall k, u :: k in m && clock <= u ==> Available(c, m, k, u) == Available(c, n, k, u)
  }

  lemma StepOffersAlike(c: Config, m: Clients, n: Clients, e: Event, clock: real)
    requires OffersAlike(c, m, n, clock) && clock <= e.at
    ensures Verdict(c, m, e) == Verdict(c, n, e)
    ensures OffersAlike(c, After(c, false, m, e), After(c, false, n, e), e.at)
  {
    hide Gain;
    var m', n' := After(c, false, m, e), After(c, false, n, e);
    forall k, u | k in m' && e.at <= u ensures Available(c, m', k, u) == Available(c, n', k, u) {
      assert k in m ==> Available(c, m, k, u) == Available(c, n, k, u);
    }
  }

  lemma {:induction false} OffersDecideAlike(c: Config, m: Clients, n: Clients, run: seq<Event>, clock: real)
    requires OffersAlike(c, m, n, clock) && Forward(run, clock)
    ensures Decisions(c, false, m, run) == Decisions(c, false, n, run)
    decreases run
  {
    if run != [] {
      StepOffersAlike(c, m, n, run[0], clock);
      hide OffersAlike;
      OffersDecideAlike(c, After(c, false, m, run[0]), After(c, false, n, run[0]), run[1..], run[0].at);
    }
  }

  /** A refused request costs nothing: in a limiter without sweeps, leaving it out changes no later decision. */
  lemma RefusedIsFree(c: Config, m: Clients, key: string, now: real, rest: seq<Event>)
    requires Sensible(c) && !Admitted(c, m, key, now) && Forward(rest, now)
    ensures Decisions(c, false, AfterRequest(c, m, key, now), rest) == Decisions(c, false, m, rest)
  {
    var n := AfterRequest(c, m, key, now);
    forall k, u | k in n && now <= u ensures Available(c, n, k, u) == Available(c, m, k, u) {
      if k == key {
        GainAdds(c, now - m[key].lastSeen, u - now);
        assert (now - m[key].lastSeen) + (u - now) == u - m[key].lastSeen;
      }
    }
    assert n.Keys == m.Keys;
    OffersDecideAlike(c, n, m, rest, now);
  }

  function Asked(run: seq<Event>, key: string): nat {
    if run == [] then 0 else (if run[0].Request? && run[0].key == key then 1 else 0) + Asked(run[1..], key)
  }

  /** The requests of a key come at least `gap` seconds apart, the first that long after `last`. */
  ghost predicate Spaced(run: seq<Event>, key: string, last: Option<real>, gap: real) {
    run == [] ||
    var mine := run[0].Request? && run[0].key == key;
    && (mine && last.Some? ==> run[0].at - last.value >= gap)
    && Spaced(run[1..], key, if mine then Some(run[0].at) else last, gap)
  }

  /** The other side of the bound: whoever leaves time for one token between requests is never refused,
      whatever others do and with or without sweeps. */
  lemma {:induction false} PatienceIsRewarded(c: Config, janitor: bool, m: Clients, run: seq<Event>, key: string,
                                              clock: real, last: Option<real>, gap: real)
    requires Sensible(c) && Inv(c, m, clock) && Forward(run, clock) && Gain(c, gap) >= 1.0
    requires key in m ==> last == Some(m[key].lastSeen)
    requires Spaced(run, key, last, gap)
    ensures Count(c, janitor, m, run, key) == Asked(run, key)
    decreases run
  {
    if run != [] {
      var e := run[0];
      StepKeeps(c, janitor, m, e, clock);
      if e.Request? && e.key == key && key in m {
        GainGrows(c, gap, e.at - m[key].lastSeen);
      }
      hide Gain, Sensible, Inv;
      PatienceIsRewarded(c, janitor, After(c, janitor, m, e), run[1..], key, e.at,
                         if e.Request? && e.key == key then Some(e.at) else last, gap);
    }
  }

  /** In any stretch of any run without sweeps whose events all fall into a window of length
      `span`, at most burst + rate * span requests of a key are admitted. */
  lemma WindowBound(c: Config, before: seq<Event>, window: seq<Event>, key: string, start: real, span: real)
    requires Sensible(c) && Forward(before + window, 0.0)
    requires window != [] ==> start <= window[0].at && End(window, start) <= start + span
    requires span >= 0.0
    ensures Count(c, false, Final(c, false, map[], before), window, key) as real <= c.burst + Gain(c, span)
  {
    hide Gain, Available, Forward, Count;
    GainGrows(c, 0.0, span);
    GainAdds(c, 0.0, 0.0);
    var m := Final(c, false, map[], before);
    if window == [] {
      EmptyCount(c, m, key);
    } else {
      var clock := window[0].at;
      ForwardSplit(before, window, 0.0);
      RunKeeps(c, false, map[], before, 0.0);
      assert Inv(c, m, clock);
      Paid(c, m, window, key, clock);
      RunKeeps(c, false, m, window, clock);
      var t := End(window, clock);
      Refill(c, m, key, clock, clock);
      Refill(c, Final(c, false, m, window), key, t, t);
      GainGrows(c, t - clock, span);
    }
  }

  lemma EmptyCount(c: Config, m: Clients, key: string)
    ensures Count(c, false, m, [], key) == 0
  {
  }

  lemma {:induction false} ForwardSplit(a: seq<Event>, b: seq<Event>, clock: real)
    requires Forward(a + b, clock)
    ensures Forward(a, clock) && Forward(b, End(a, clock))
    ensures b != [] ==> End(a, clock) <= b[0].at && Forward(b, b[0].at)
  {
    if a == [] {
      assert a + b == b;
    } else {
      assert (a + b)[1..] == a[1..] + b;
      ForwardSplit(a[1..], b, a[0].at);
    }
  }

  // ---------------------------------------------------------------------------
  // The janitor is invisible exactly when an idle bucket has refilled
  // ---------------------------------------------------------------------------

  /** A client is either remembered alike on both sides, or forgotten on one and full on the other. */
  ghost predicate Alike(c: Config, swept: Clients, kept: Clients, clock: real) {
    forall k {:trigger k in swept} {:trigger k in kept} ::
      if k in swept then k in kept && swept[k] == kept[k] else Available(c, kept, k, clock) == c.burst
  }

  lemma StepAlike(c: Config, swept: Clients, kept: Clients, e: Event, clock: real)
    requires Sensible(c) && Gain(c, IDLE_LIMIT) >= c.burst
    requires Inv(c, kept, clock) && Alike(c, swept, kept, clock) && clock <= e.at && ReadBefore(e)
    ensures Verdict(c, swept, e) == Verdict(c, kept, e)
    ensures Alike(c, After(c, true, swept, e), After(c, false, kept, e), e.at)
  {
    hide Gain;
    var swept', kept' := After(c, true, swept, e), After(c, false, kept, e);
    if e.Request? {
      Refill(c, kept, e.key, clock, e.at);
    }
    forall k
      ensures if k in swept' then k in kept' && swept'[k] == kept'[k] else Available(c, kept', k, e.at) == c.burst
    {
      Refill(c, kept, k, clock, e.at);
      if k in swept && k !in swept' {
        GainGrows(c, IDLE_LIMIT, e.at - kept[k].lastSeen);
      } else if k !in swept {
        Full(c, kept, k, clock, e.at);
      }
    }
  }

  lemma Full(c: Config, m: Clients, key: string, t: real, u: real)
    requires Sensible(c) && t <= u && Available(c, m, key, t) == c.burst
    ensures Available(c, m, key, u) == c.burst
  {
    Refill(c, m, key, t, u);
  }

  /** When an idle bucket refills before it is forgotten, sweeping changes no decision of any run. */
  lemma {:induction false} RunAlike(c: Config, swept: Clients, kept: Clients, run: seq<Event>, clock: real, key: string)
    requires Sensible(c) && Gain(c, IDLE_LIMIT) >= c.burst
    requires Inv(c, kept, clock) && Alike(c, swept, kept, clock) && Forward(run, clock)
    ensures Decisions(c, true, swept, run) == Decisions(c, false, kept, run)
    ensures Count(c, true, swept, run, key) == Count(c, false, kept, run, key)
    ensures Alike(c, Final(c, true, swept, run), Final(c, false, kept, run), End(run, clock))
    decreases run
  {
    if run != [] {
      StepAlike(c, swept, kept, run[0], clock);
      StepKeeps(c, false, kept, run[0], clock);
      hide Alike, Gain, Inv;
      RunAlike(c, After(c, true, swept, run[0]), After(c, false, kept, run[0]), run[1..], run[0].at, key);
      if run[0].Request? {
        assert Verdict(c, swept, run[0])[0] == Verdict(c, kept, run[0])[0];
      }
    }
  }

  /** So the window bound then holds for the gateway as it runs, sweeps included. */
  lemma WindowBoundWithJanitor(c: Config, before: seq<Event>, window: seq<Event>, key: string, start: real, span: real)
    requires Sensible(c) && Gain(c, IDLE_LIMIT) >= c.burst && Forward(before + window, 0.0)
    requires window != [] ==> start <= window[0].at && End(window, start) <= start + span
    requires span >= 0.0
    ensures Count(c, true, Final(c, true, map[], before), window, key) as real <= c.burst + Gain(c, span)
  {
    ForwardSplit(before, window, 0.0);
    RunAlike(c, map[], map[], before, 0.0, key);
    RunKeeps(c, false, map[], before, 0.0);
    RunAlike(c, Final(c, true, map[], before), Final(c, false, map[], before), window, End(before, 0.0), key);
    WindowBound(c, before, window, key, start, span);
  }

  /** `run` shows the difference between the two sides. */
  ghost predicate Tells(c: Config, swept: Clients, kept: Clients, run: seq<Event>, clock: real) {
    Forward(run, clock) && Decisions(c, true, swept, run) != Decisions(c, false, kept, run)
  }

  lemma TellsLater(c: Config, swept: Clients, kept: Clients, e: Event, run: seq<Event>, clock: real)
    requires clock <= e.at && ReadBefore(e) && Tells(c, After(c, true, swept, e), After(c, false, kept, e), run, e.at)
    ensures Tells(c, swept, kept, [e] + run, clock)
  {
    var whole := [e] + run;
    assert whole[1..] == run;
    var x, y := Verdict(c, swept, e), Verdict(c, kept, e);
    var d1 := Decisions(c, true, After(c, true, swept, e), run);
    var d2 := Decisions(c, false, After(c, false, kept, e), run);
    assert (x + d1)[|x|..] == d1 && (y + d2)[|y|..] == d2;
  }

  lemma TellsNow(c: Config, swept: Clients, kept: Clients, key: string, now: real)
    requires Admitted(c, swept, key, now) != Admitted(c, kept, key, now)
    ensures Tells(c, swept, kept, [Request(key, now)], now)
  {
    var run := [Request(key, now)];
    assert run[1..] == [];
    assert Decisions(c, true, swept, run)[0] != Decisions(c, false, kept, run)[0];
  }

  /** Two buckets of different levels can be told apart by requests alone. */
  lemma {:induction false} Unequal(c: Config, swept: Clients, kept: Clients, key: string, now: real)
    returns (run: seq<Event>)
    requires Sensible(c) && c.rate > 0.0 && key in swept && key in kept
    requires swept[key].lastSeen == kept[key].lastSeen == now
    requires 0.0 <= kept[key].tokens < swept[key].tokens <= c.burst
    ensures Tells(c, swept, kept, run, now)
    decreases swept[key].tokens.Floor
  {
    GainAdds(c, 0.0, 0.0);
    var a, b := kept[key].tokens, swept[key].tokens;
    if b < 1.0 {
      var wait := (1.0 - b) / c.rate;
      assert Gain(c, wait) == 1.0 - b;
      TellsNow(c, swept, kept, key, now + wait);
      run := [Request(key, now + wait)];
      assert run[1..] == [];
    } else if a < 1.0 {
      TellsNow(c, swept, kept, key, now);
      run := [Request(key, now)];
    } else {
      var e := Request(key, now);
      run := Unequal(c, After(c, true, swept, e), After(c, false, kept, e), key, now);
      TellsLater(c, swept, kept, e, run, now);
      run := [e] + run;
    }
  }

  /** A bucket still below full when it is forgotten gives its owner tokens it had not earned. */
  lemma Forgotten(c: Config, m: Clients, key: string, now: real, idle: real) returns (run: seq<Event>)
    requires Sensible(c) && key in m && m[key].lastSeen == now && m[key].tokens >= 0.0
    requires idle > IDLE_LIMIT && m[key].tokens + Gain(c, idle) < c.burst
    requires c.rate == 0.0 ==> m[key].tokens < 1.0
    ensures Tells(c, m, m, run, now)
  {
    var t := now + idle;
    var sweep, e := Sweep(map[key := t], t), Request(key, t);
    var swept := AfterSweep(m, sweep.clocks);
    assert t - now == idle && key !in swept;
    GainGrows(c, 0.0, idle);
    GainAdds(c, 0.0, 0.0);
    assert Available(c, m, key, t) == m[key].tokens + Gain(c, idle);
    if !Admitted(c, m, key, t) {
      TellsNow(c, swept, m, key, t);
      run := [e];
    } else {
      assert c.rate > 0.0;
      run := Unequal(c, After(c, true, swept, e), After(c, false, m, e), key, t);
      TellsLater(c, swept, m, e, run, t);
      run := [e] + run;
    }
    TellsLater(c, m, m, sweep, run, now);
    run := [sweep] + run;
  }

  /** From a bucket with less than one token: wait for exactly one, spend it, and go idle. */
  lemma Emptied(c: Config, m: Clients, key: string, now: real) returns (run: seq<Event>)
    requires Sensible(c) && Gain(c, IDLE_LIMIT) < c.burst
    requires key in m && m[key].lastSeen == now && 0.0 <= m[key].tokens < 1.0
    ensures Tells(c, m, m, run, now)
  {
    if c.rate == 0.0 {
      assert Gain(c, 301.0) == 0.0;
      run := Forgotten(c, m, key, now, 301.0);
    } else {
      var wait := (1.0 - m[key].tokens) / c.rate;
      assert Gain(c, wait) == 1.0 - m[key].tokens;
      var e := Request(key, now + wait);
      var m' := AfterRequest(c, m, key, now + wait);
      assert (now + wait) - now == wait;
      assert m'[key] == Bucket(0.0, now + wait);
      var idle := (IDLE_LIMIT + c.burst / c.rate) / 2.0;
      assert Gain(c, c.burst / c.rate) == c.burst;
      if c.burst / c.rate <= IDLE_LIMIT {
        GainGrows(c, c.burst / c.rate, IDLE_LIMIT);
      }
      assert Gain(c, idle) == (Gain(c, IDLE_LIMIT) + c.burst) / 2.0;
      run := Forgotten(c, m', key, now + wait, idle);
      TellsLater(c, m, m, e, run, now);
      run := [e] + run;
    }
  }

  lemma {:induction false} Drained(c: Config, m: Clients, key: string, now: real) returns (run: seq<Event>)
    requires Sensible(c) && Gain(c, IDLE_LIMIT) < c.burst
    requires key in m && m[key].lastSeen == now && 0.0 <= m[key].tokens <= c.burst
    ensures Tells(c, m, m, run, now)
    decreases m[key].tokens.Floor
  {
    if m[key].tokens < 1.0 {
      run := Emptied(c, m, key, now);
    } else {
      var e := Request(key, now);
      GainAdds(c, 0.0, 0.0);
      run := Drained(c, AfterRequest(c, m, key, now), key, now);
      TellsLater(c, m, m, e, run, now);
      run := [e] + run;
    }
  }

  /** The janitor changes no decision of any run exactly when five idle minutes refill a whole burst. */
  lemma JanitorInvisibleIff(c: Config)
    requires Sensible(c)
    ensures (forall run :: Forward(run, 0.0) ==> Decisions(c, true, map[], run) == Decisions(c, false, map[], run))
            <==> 300.0 * c.rate >= c.burst
  {
    assert Gain(c, IDLE_LIMIT) == IDLE_LIMIT * c.rate;
    if Gain(c, IDLE_LIMIT) >= c.burst {
      forall run | Forward(run, 0.0) ensures Decisions(c, true, map[], run) == Decisions(c, false, map[], run) {
        RunAlike(c, map[], map[], run, 0.0, "");
      }
    } else {
      var e, none: Clients := Request("a", 0.0), map[];
      var run := Drained(c, AfterRequest(c, none, "a", 0.0), "a", 0.0);
      TellsLater(c, none, none, e, run, 0.0);
      var whole := [e] + run;
      assert Forward(whole, 0.0) && Decisions(c, true, none, whole) != Decisions(c, false, none, whole);
    }
  }

  // ---------------------------------------------------------------------------
  // The limiter as the Go code has it: records behind a map, updated in place
  // ---------------------------------------------------------------------------

  class ClientLimit {
    var tokens: real
    var lastSeen: real

    constructor (tokens: real, lastSeen: real)
      ensures this.tokens == tokens && this.lastSeen == lastSeen
    {
      this.tokens, this.lastSeen := tokens, lastSeen;
    }
  }

  class Limiter {
    const rateLimitPerSec: real
    const rateBurst: real
    var clients: map<string, ClientLimit>

    /** No two keys share a record. */
    ghost predicate Valid()
      reads this
    {
      forall j, k :: j in clients && k in clients && j != k ==> clients[j] != clients[k]
    }

    ghost function Contents(): Clients
      reads this, clients.Values
    {
      map k | k in clients :: Bucket(clients[k].tokens, clients[k].lastSeen)
    }

    ghost function Settings(): Config { Config(rateLimitPerSec, rateBurst) }

    constructor (rateLimitPerSec: real, rateBurst: real)
      ensures Valid() && Contents() == map[] && Settings() == Config(rateLimitPerSec, rateBurst)
    {
      this.rateLimitPerSec, this.rateBurst, clients := rateLimitPerSec, rateBurst, map[];
    }

    method IsRateLimited(key: string, now: real) returns (limited: bool)
      requires Valid()
      modifies this, clients.Values
      ensures Valid() && fresh(clients.Values - old(clients.Values))
      ensures limited == !Admitted(Settings(), old(Contents()), key, now)
      ensures Contents() == AfterRequest(Settings(), old(Contents()), key, now)
    {
      if key !in clients {
        var c := new ClientLimit(rateBurst - 1.0, now);
        clients := clients[key := c];
        return false;
      }
      var client := clients[key];
      var elapsed := now - client.lastSeen;
      ghost var was := Contents();
      client.lastSeen := now;
      client.tokens := client.tokens + elapsed * rateLimitPerSec;
      if client.tokens > rateBurst {
        client.tokens := rateBurst;
      }
      assert client.tokens == Available(Settings(), was, key, now);
      if client.tokens >= 1.0 {
        client.tokens := client.tokens - 1.0;
        assert Contents() == AfterRequest(Settings(), was, key, now);
        return false;
      }
      assert Contents() == AfterRequest(Settings(), was, key, now);
      return true;
    }

    /** `clocks` holds the clock reading for each client. */
    method CleanupClients(clocks: map<string, real>)
      requires Valid() && clients.Keys <= clocks.Keys
      modifies this
      ensures Valid() && clients.Values <= old(clients.Values)
      ensures Contents() == AfterSweep(old(Contents()), clocks)
    {
      ghost var was := clients;
      var todo := clients.Keys;
      while todo != {}
        invariant todo <= clients.Keys <= was.Keys
        invariant forall k :: k in clients ==> clients[k] == was[k]
        invariant forall k :: k in was ==> (k in clients <==> k in todo || clocks[k] - was[k].lastSeen <= IDLE_LIMIT)
        decreases todo
      {
        var key :| key in todo;
        var client := clients[key];
        if clocks[key] - client.lastSeen > IDLE_LIMIT {
          clients := clients - {key};
        }
        todo := todo - {key};
      }
    }
  }
}
