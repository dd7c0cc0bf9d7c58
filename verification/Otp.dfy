/** One-time codes in ArcAuth: kept in memory without a deadline and in Redis for five minutes, checked
    Redis first. Handlers are atomic steps; times are integer seconds. */
module Otp {
  import opened Prelude

  const CODE_TTL := 300

  datatype Kept = Kept(code: string, deadline: int)

  /** `redis` is None when no Redis is configured. */
  datatype Stores = Stores(memory: map<string, string>, redis: Option<map<string, Kept>>)

  /** Which Redis calls of a handler succeed; the handlers ignore those that do not. */
  datatype Calls = Calls(getOk: bool, setOk: bool, delOk: bool)

  /** Send and Login stand for both pairs of endpoints, which treat codes alike; Verify only checks. */
  datatype Step =
    | Send(target: string, code: string, at: int, f: Calls)
    | Login(target: string, code: string, at: int, f: Calls)
    | Verify(target: string, code: string, at: int, f: Calls)
    | RedisDrops(target: string, at: int)

  function Start(redis: bool): Stores { Stores(map[], if redis then Some(map[]) else None) }

  /** The code a handler reads: Redis if it answers with a live one, else memory; "" for none. */
  function Stored(s: Stores, target: string, at: int, f: Calls): string {
    var cached := if f.getOk && s.redis.Some? && target in s.redis.value && at < s.redis.value[target].deadline
      then s.redis.value[target].code else "";
    if cached != "" then cached else if target in s.memory then s.memory[target] else ""
  }

  predicate Accepts(s: Stores, target: string, code: string, at: int, f: Calls) {
    Stored(s, target, at, f) != "" && Stored(s, target, at, f) == code
  }

  function AfterSend(s: Stores, target: string, code: string, at: int, f: Calls): Stores {
    Stores(s.memory[target := code],
           if s.redis.Some? && f.setOk then Some(s.redis.value[target := Kept(code, at + CODE_TTL)]) else s.redis)
  }

  function AfterLogin(s: Stores, target: string, code: string, at: int, f: Calls): Stores {
    if Accepts(s, target, code, at, f) then
      Stores(s.memory - {target}, if s.redis.Some? && f.delOk then Some(s.redis.value - {target}) else s.redis)
    else s
  }

  function Next(s: Stores, p: Step): Stores {
    match p
    case Send(target, code, at, f) => AfterSend(s, target, code, at, f)
    case Login(target, code, at, f) => AfterLogin(s, target, code, at, f)
    case Verify(_, _, _, _) => s
    case RedisDrops(target, _) => if s.redis.Some? then s.(redis := Some(s.redis.value - {target})) else s
  }

  function After(redis: bool, run: seq<Step>): Stores {
    if run == [] then Start(redis) else Next(After(redis, run[..|run| - 1]), run[|run| - 1])
  }

  /** Codes are six digits, so never empty. */
  ghost predicate RealCodes(run: seq<Step>) {
    forall i :: 0 <= i < |run| && run[i].Send? ==> run[i].code != ""
  }

  /** Redis may fail to answer, but it takes every code and removes every used one. */
  ghost predicate WritesLand(run: seq<Step>) {
    forall i :: 0 <= i < |run| ==> (run[i].Send? ==> run[i].f.setOk) && (run[i].Login? ==> run[i].f.delOk)
  }

  /** The reference: the code last sent to a target and not used since, kept without any deadline. */
  function Outstanding(redis: bool, run: seq<Step>, target: string): Option<string> {
    if run == [] then None
    else
      var n := |run| - 1;
      if run[n].target != target then Outstanding(redis, run[..n], target)
      else if run[n].Send? then Some(run[n].code)
      else if Succeeds(redis, run, n) then None
      else Outstanding(redis, run[..n], target)
  }

  /** Step i of the run is a login that was let in. */
  predicate Succeeds(redis: bool, run: seq<Step>, i: nat) {
    i < |run| && run[i].Login? && Accepts(After(redis, run[..i]), run[i].target, run[i].code, run[i].at, run[i].f)
  }

  function Sends(run: seq<Step>, target: string): nat {
    if run == [] then 0
    else
      var n := |run| - 1;
      Sends(run[..n], target) + if run[n].Send? && run[n].target == target then 1 else 0
  }

  function Successes(redis: bool, run: seq<Step>, target: string): nat {
    if run == [] then 0
    else
      var n := |run| - 1;
      Successes(redis, run[..n], target) + if run[n].target == target && Succeeds(redis, run, n) then 1 else 0
  }

  /** Memory holds exactly the outstanding code of a target; a code in Redis is the one in memory. */
  ghost predicate Agrees(redis: bool, s: Stores, target: string, outstanding: Option<string>) {
    && (s.redis.Some? <==> redis)
    && (target in s.memory <==> outstanding.Some?)
    && (outstanding.Some? ==> s.memory[target] == outstanding.value != "")
    && (s.redis.Some? && target in s.redis.value ==>
          target in s.memory && s.redis.value[target].code == s.memory[target])
  }

  lemma StepAgrees(redis: bool, s: Stores, p: Step, target: string, o: Option<string>)
    requires Agrees(redis, s, target, o) && (p.Send? ==> p.code != "")
    requires redis ==> (p.Send? ==> p.f.setOk) && (p.Login? ==> p.f.delOk)
    ensures var used := p.Login? && Accepts(s, p.target, p.code, p.at, p.f);
      && Agrees(redis, Next(s, p), target,
                if p.target != target then o else if p.Send? then Some(p.code) else if used then None else o)
      && (p.target == target && used ==> o == Some(p.code))
  {
  }

  lemma {:induction false} RunKeeps(redis: bool, run: seq<Step>, target: string)
    requires RealCodes(run) && (redis ==> WritesLand(run))
    ensures Agrees(redis, After(redis, run), target, Outstanding(redis, run, target))
    ensures Successes(redis, run, target) + (if Outstanding(redis, run, target).Some? then 1 else 0)
      <= Sends(run, target)
  {
    hide Agrees, Next, Accepts;
    if run == [] {
      StartAgrees(redis, target);
    } else {
      var n := |run| - 1;
      RunKeeps(redis, run[..n], target);
      StepAgrees(redis, After(redis, run[..n]), run[n], target, Outstanding(redis, run[..n], target));
    }
  }

  lemma StartAgrees(redis: bool, target: string)
    ensures Agrees(redis, Start(redis), target, None)
  {
  }

  /** In every run, with or without Redis, whatever Redis forgets, lets expire or does not answer: a login
      is let in exactly when it presents the code most recently sent to its target and not yet used. */
  lemma LoginIffOutstanding(redis: bool, run: seq<Step>, i: nat)
    requires RealCodes(run) && (redis ==> WritesLand(run)) && i < |run| && run[i].Login?
    ensures Succeeds(redis, run, i) <==> Outstanding(redis, run[..i], run[i].target) == Some(run[i].code)
  {
    RunKeeps(redis, run[..i], run[i].target);
  }

  /** Whatever fails, memory holds exactly the outstanding code. */
  lemma {:induction false} MemoryIsOutstanding(redis: bool, run: seq<Step>, target: string)
    requires RealCodes(run)
    ensures var s, o := After(redis, run), Outstanding(redis, run, target);
      && (target in s.memory <==> o.Some?) && (o.Some? ==> s.memory[target] == o.value != "")
  {
    hide Accepts;
    if run != [] {
      MemoryIsOutstanding(redis, run[..|run| - 1], target);
    }
  }

  /** So a login that Redis does not answer goes by the outstanding code, whatever failed before. */
  lemma UnansweredLogin(redis: bool, run: seq<Step>, i: nat)
    requires RealCodes(run) && i < |run| && run[i].Login? && !run[i].f.getOk
    ensures Succeeds(redis, run, i) <==> Outstanding(redis, run[..i], run[i].target) == Some(run[i].code)
  {
    hide After, Outstanding;
    MemoryIsOutstanding(redis, run[..i], run[i].target);
  }

  /** A code that Redis took stays there for five minutes from its sending, until something else is done with
      its target. */
  lemma {:induction false} FiveMinutesInRedis(run: seq<Step>, k: nat)
    requires k < |run| && run[k].Send? && run[k].f.setOk
    requires forall i :: k < i < |run| ==> run[i].Verify? || run[i].target != run[k].target
    ensures var s := After(true, run);
      && s.redis.Some? && run[k].target in s.redis.value
      && s.redis.value[run[k].target] == Kept(run[k].code, run[k].at + 300)
  {
    var n := |run| - 1;
    if k < n {
      FiveMinutesInRedis(run[..n], k);
    } else {
      HasRedis(true, run[..n]);
    }
  }

  lemma {:induction false} HasRedis(redis: bool, run: seq<Step>)
    ensures After(redis, run).redis.Some? <==> redis
  {
    if run != [] {
      HasRedis(redis, run[..|run| - 1]);
    }
  }

  const FINE := Calls(true, true, true)

  const NOT_SET := Calls(true, false, true)

  const NOT_DELETED := Calls(true, true, false)

  function Replay(target: string, code: string): seq<Step> {
    [Send(target, code, 0, FINE), Login(target, code, 1, NOT_DELETED), Login(target, code, 2, FINE)]
  }

  /** A code that could not be removed from Redis is let in a second time. */
  lemma UsedTwice(target: string, code: string)
    requires code != ""
    ensures var run := Replay(target, code);
      Succeeds(true, run, 1) && Succeeds(true, run, 2) && Outstanding(true, run[..2], target) == None
  {
    var run := Replay(target, code);
    var one, two := run[..1], run[..2];
    assert two[..1] == one && one[..0] == [];
    assert After(true, one) == AfterSend(Start(true), target, code, 0, FINE);
    assert After(true, two) == AfterLogin(After(true, one), target, code, 1, NOT_DELETED);
    assert Succeeds(true, two, 1);
  }

  function Shadow(target: string, code: string, newer: string): seq<Step> {
    [Send(target, code, 0, FINE), Send(target, newer, 1, NOT_SET), Login(target, newer, 2, FINE)]
  }

  /** A code that could not be written to Redis is refused as long as the one before it is there. */
  lemma ShadowedCode(target: string, code: string, newer: string)
    requires code != "" && newer != code
    ensures var run := Shadow(target, code, newer);
      !Succeeds(true, run, 2) && Outstanding(true, run[..2], target) == Some(newer)
  {
    var run := Shadow(target, code, newer);
    var one, two := run[..1], run[..2];
    assert two[..1] == one && one[..0] == [];
    assert After(true, one) == AfterSend(Start(true), target, code, 0, FINE);
    assert After(true, two) == AfterSend(After(true, one), target, newer, 1, NOT_SET);
  }

  ghost predicate Within(run: seq<Step>, setFails: bool, delFails: bool) {
    RealCodes(run) && forall i :: 0 <= i < |run| ==>
      (run[i].Send? ==> setFails || run[i].f.setOk) && (run[i].Login? ==> delFails || run[i].f.delOk)
  }

  /** Logins follow the outstanding codes in all runs exactly when there is no Redis, or neither writing
      to it nor deleting from it can fail. */
  lemma LoginIffOutstandingIff(redis: bool, setFails: bool, delFails: bool)
    ensures (forall run: seq<Step>, i: nat :: Within(run, setFails, delFails) && i < |run| && run[i].Login? ==>
              (Succeeds(redis, run, i) <==> Outstanding(redis, run[..i], run[i].target) == Some(run[i].code)))
      <==> !redis || (!setFails && !delFails)
  {
    hide Succeeds, Outstanding;
    if !redis || (!setFails && !delFails) {
      forall run: seq<Step>, i: nat | Within(run, setFails, delFails) && i < |run| && run[i].Login?
        ensures Succeeds(redis, run, i) <==> Outstanding(redis, run[..i], run[i].target) == Some(run[i].code)
      {
        LoginIffOutstanding(redis, run, i);
      }
    } else if delFails {
      UsedTwice("t", "000001");
      var run := Replay("t", "000001");
      assert Within(run, setFails, delFails) && run[2].Login?;
    } else {
      ShadowedCode("t", "000001", "000002");
      var run := Shadow("t", "000001", "000002");
      assert Within(run, setFails, delFails) && run[2].Login?;
    }
  }

  /** Codes are used at most once: per target there are never more successful logins than codes sent. */
  lemma SuccessesBySends(redis: bool, run: seq<Step>, target: string)
    requires RealCodes(run) && (redis ==> WritesLand(run))
    ensures Successes(redis, run, target) <= Sends(run, target)
  {
    RunKeeps(redis, run, target);
  }

  /** The five-minute deadline never takes effect: in every run an outstanding code is accepted at any later
      time, because the memory copy has none. */
  lemma CodesDoNotExpire(redis: bool, run: seq<Step>, target: string, code: string, at: int, f: Calls)
    requires RealCodes(run) && (redis ==> WritesLand(run)) && Outstanding(redis, run, target) == Some(code)
    ensures Accepts(After(redis, run), target, code, at, f)
  {
    RunKeeps(redis, run, target);
  }

  // ---------------------------------------------------------------------------
  // The handlers as the Go code has them
  // ---------------------------------------------------------------------------

  class OtpService {
    const hasRedis: bool
    var memoryOTPs: map<string, string>
    var redis: map<string, Kept>

    ghost function Contents(): Stores
      reads this
    {
      Stores(memoryOTPs, if hasRedis then Some(redis) else None)
    }

    constructor (hasRedis: bool)
      ensures this.hasRedis == hasRedis && Contents() == Start(hasRedis)
    {
      this.hasRedis, memoryOTPs, redis := hasRedis, map[], map[];
    }

    /** `allowed` is the administrator check; `code` the six random digits. */
    method HandleOTPSend(target: string, code: string, allowed: bool, at: int, f: Calls) returns (ok: bool)
      modifies this
      ensures ok == allowed
      ensures Contents() == if allowed then AfterSend(old(Contents()), target, code, at, f) else old(Contents())
    {
      if !allowed {
        return false;
      }
      memoryOTPs := memoryOTPs[target := code];
      if hasRedis && f.setOk {
        redis := redis[target := Kept(code, at + CODE_TTL)];
      }
      return true;
    }

    method HandleAuthenticate(target: string, code: string, allowed: bool, at: int, f: Calls) returns (ok: bool)
      modifies this
      ensures ok == (allowed && Accepts(old(Contents()), target, code, at, f))
      ensures Contents() == if allowed then AfterLogin(old(Contents()), target, code, at, f) else old(Contents())
    {
      if !allowed {
        return false;
      }
      var stored := "";
      if hasRedis && f.getOk && target in redis && at < redis[target].deadline {
        stored := redis[target].code;
      }
      if stored == "" && target in memoryOTPs {
        stored := memoryOTPs[target];
      }
      if stored == "" || stored != code {
        return false;
      }
      memoryOTPs := memoryOTPs - {target};
      if hasRedis && f.delOk {
        redis := redis - {target};
      }
      return true;
    }
  }
}
