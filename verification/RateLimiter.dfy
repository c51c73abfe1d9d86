/**
  The sliding-window limiter: a script over a Redis sorted set and a sequence counter
  (internal/ratelimit/redis_limiter.go), and the per-minute keys the middleware gives it
  (internal/gateway/middleware/rate_limit.go). Times are Unix milliseconds.
 */
module RateLimiter {
  import opened Common

  /** The set member written "now:seq"; its score is its time. */
  datatype Member = Member(time: nat, id: nat)

  /** The sorted set and the ":seq" counter of one limiter key, each with its expiry. */
  datatype KeyState = KeyState(zset: set<Member>, zsetExpires: Option<nat>,
                               counter: Option<nat>, counterExpires: Option<nat>)

  const FRESH := KeyState({}, None, None, None)

  datatype Result = Result(allowed: bool, remaining: int, reset: int)

  function Ttl(window: nat): nat {
    ((window + 999) / 1000 + 1) * 1000
  }

  predicate Expired(at: Option<nat>, now: nat) {
    at.Some? && now > at.value
  }

  function Times(z: set<Member>): set<nat> {
    set m | m in z :: m.time
  }

  lemma {:induction false} OldestMember(z: set<Member>) returns (m: Member)
    requires z != {}
    ensures m in z && forall n :: n in z ==> m.time <= n.time
  {
    var x :| x in z;
    m := x;
    if z != {x} {
      assert z - {x} != {};
      var least := OldestMember(z - {x});
      m := if least.time <= x.time then least else x;
    }
  }

  lemma OldestExists(z: set<Member>)
    requires z != {}
    ensures exists t :: t in Times(z) && forall u :: u in Times(z) ==> t <= u
  {
    var m := OldestMember(z);
    assert m.time in Times(z);
  }

  /** ZRANGE 0 0 WITHSCORES: the least score. */
  function Oldest(z: set<Member>): (t: nat)
    requires z != {}
    ensures t in Times(z) && forall m :: m in z ==> t <= m.time
  {
    OldestExists(z);
    var t :| t in Times(z) && forall u :: u in Times(z) ==> t <= u;
    assert forall m :: m in z ==> m.time in Times(z);
    t
  }

  /** Members the window (now - window, now] still covers. */
  function Unpruned(z: set<Member>, window: nat, now: nat): set<Member> {
    set m | m in z && m.time > now - window
  }

  /** What is left of a key at a given time: expired parts are gone. */
  function Live(s: KeyState, now: nat): KeyState {
    var s1 := if Expired(s.zsetExpires, now) then s.(zset := {}, zsetExpires := None) else s;
    if Expired(s1.counterExpires, now) then s1.(counter := None, counterExpires := None) else s1
  }

  /** ZREMRANGEBYSCORE key 0 now-window; an emptied set loses its expiry with it. */
  function Prune(s: KeyState, window: nat, now: nat): KeyState {
    var z := Unpruned(s.zset, window, now);
    if z == {} then s.(zset := z, zsetExpires := None) else s.(zset := z)
  }

  /** INCR, ZADD and the two EXPIREs. */
  function Add(s: KeyState, window: nat, now: nat): KeyState {
    var id := (if s.counter.Some? then s.counter.value else 0) + 1;
    KeyState(s.zset + {Member(now, id)}, Some(now + Ttl(window)), Some(id), Some(now + Ttl(window)))
  }

  /** One run of the script on a key. */
  function Script(s: KeyState, limit: int, window: nat, cost: int, now: nat): (KeyState, Result) {
    var k := Prune(Live(s, now), window, now);
    var current := |k.zset|;
    if current + cost <= limit then
      (if cost > 0 then Add(k, window, now) else k, Result(true, limit - current - cost, 0))
    else (k, Result(false, 0, if k.zset == {} then 0 else Oldest(k.zset) + window))
  }

  /** The Redis database as the limiter uses it: keys that were never written read as FRESH. */
  class RedisLimiter {
    var keys: map<string, KeyState>

    ghost function StateOf(key: string): KeyState
      reads this
    {
      if key in keys then keys[key] else FRESH
    }

    constructor ()
      ensures keys == map[]
    {
      keys := map[];
    }

    method Allow(key: string, limit: int, cost: int, window: nat, now: nat) returns (r: Result)
      modifies this
      ensures r == Script(old(StateOf(key)), limit, window, cost, now).1
      ensures keys == old(keys)[key := Script(old(StateOf(key)), limit, window, cost, now).0]
    {
      var s := if key in keys then keys[key] else FRESH;
      // Redis drops expired keys before the script sees them.
      s := Live(s, now);
      s := Prune(s, window, now);
      var current := |s.zset|;
      if current + cost <= limit {
        if cost > 0 {
          s := Add(s, window, now);
        }
        r := Result(true, limit - current - cost, 0);
      } else {
        var reset := 0;
        if s.zset != {} {
          reset := Oldest(s.zset) + window;
        }
        r := Result(false, 0, reset);
      }
      keys := keys[key := s];
    }
  }

  // ----- runs of one key

  datatype Call = Call(cost: int, now: nat)

  predicate Clocked(calls: seq<Call>) {
    forall i, j :: 0 <= i <= j < |calls| ==> calls[i].now <= calls[j].now
  }

  /** The state after a run, and the members added by it in order: one per admitted call. */
  datatype Outcome = Outcome(state: KeyState, log: seq<Member>)

  function Run(limit: int, window: nat, calls: seq<Call>): Outcome {
    if calls == [] then Outcome(FRESH, [])
    else
      var c := calls[|calls| - 1];
      var before := Run(limit, window, calls[..|calls| - 1]);
      Outcome(Script(before.state, limit, window, c.cost, c.now).0,
              before.log + Admission(before.state, limit, window, c))
  }

  /** What a call adds to the log: a member, when it was allowed at a positive cost. */
  function Admission(s: KeyState, limit: int, window: nat, c: Call): seq<Member> {
    var (s', r) := Script(s, limit, window, c.cost, c.now);
    if r.allowed && c.cost > 0 then [Member(c.now, s'.counter.value)] else []
  }

  function Members(log: seq<Member>): set<Member> {
    set m | m in log
  }

  predicate Distinct(log: seq<Member>) {
    forall i, j :: 0 <= i < j < |log| ==> log[i] != log[j]
  }

  /**
    What every run keeps: names never repeat, the set holds exactly the members still in the window
    (so key expiry never drops one), there are at most `limit` of them, and the counter is at least
    every id handed out at the latest time, for as long as it has not expired.
   */
  ghost predicate Inv(o: Outcome, limit: int, window: nat, now: nat) {
    && LogOk(o.log, now)
    && o.state.zset == Unpruned(Members(o.log), window, now)
    && (|o.state.zset| <= limit || o.log == [])
    && (o.log != [] ==> ExpiryOk(o, window, now))
    && (o.log == [] ==> o.state == FRESH)
  }

  ghost predicate LogOk(log: seq<Member>, now: nat) {
    Distinct(log) && forall i, j :: 0 <= i <= j < |log| ==> log[i].time <= log[j].time <= now
  }

  ghost predicate ExpiryOk(o: Outcome, window: nat, now: nat)
    requires o.log != []
  {
    var last := o.log[|o.log| - 1].time;
    && (o.state.zsetExpires == Some(last + Ttl(window)) || o.state.zset == {})
    && (now > last + Ttl(window)
        || (&& o.state.counter.Some? && o.state.counterExpires == Some(last + Ttl(window))
            && forall m :: m in o.log && m.time == last ==> m.id <= o.state.counter.value))
  }

  lemma PruneTwice(log: seq<Member>, window: nat, t: nat, now: nat)
    requires t <= now
    ensures Unpruned(Unpruned(Members(log), window, t), window, now) == Unpruned(Members(log), window, now)
  {
  }

  /** Expiry and pruning together leave exactly the members in the window. */
  lemma PrunedSet(o: Outcome, limit: int, window: nat, t: nat, now: nat)
    requires Inv(o, limit, window, t) && t <= now
    ensures Prune(Live(o.state, now), window, now).zset == Unpruned(Members(o.log), window, now)
  {
    PruneTwice(o.log, window, t, now);
    if Expired(o.state.zsetExpires, now) {
      assert Unpruned(Members(o.log), window, now) == {};
    }
  }

  lemma AppendLog(log: seq<Member>, m: Member, window: nat)
    requires window > 0
    ensures Unpruned(Members(log + [m]), window, m.time) == Unpruned(Members(log), window, m.time) + {m}
  {
    assert Members(log + [m]) == Members(log) + {m};
  }

  /** A call that admits nothing keeps the invariant. */
  lemma QuietStep(o: Outcome, limit: int, window: nat, t: nat, now: nat)
    requires Inv(o, limit, window, t) && t <= now
    ensures Inv(Outcome(Prune(Live(o.state, now), window, now), o.log), limit, window, now)
  {
    PrunedSet(o, limit, window, t, now);
    FewerAfter(o.log, window, t, now);
  }

  lemma FewerAfter(log: seq<Member>, window: nat, t: nat, now: nat)
    requires t <= now
    ensures |Unpruned(Members(log), window, now)| <= |Unpruned(Members(log), window, t)|
  {
    SubsetSize(Unpruned(Members(log), window, now), Unpruned(Members(log), window, t));
  }

  /** The name of a new member is not among those handed out before. */
  lemma FreshName(o: Outcome, limit: int, window: nat, t: nat, now: nat)
    requires Inv(o, limit, window, t) && t <= now
    ensures var k := Prune(Live(o.state, now), window, now);
            Member(now, Add(k, window, now).counter.value) !in o.log
  {
  }

  /** An admission keeps the invariant. */
  lemma AdmitStep(o: Outcome, limit: int, window: nat, now: nat)
    requires Inv(o, limit, window, now) && window > 0
    requires Live(o.state, now) == o.state && |o.state.zset| < limit
    ensures var s := Add(o.state, window, now);
            Inv(Outcome(s, o.log + [Member(now, s.counter.value)]), limit, window, now)
  {
    var s := Add(o.state, window, now);
    var m := Member(now, s.counter.value);
    FreshName(o, limit, window, now, now);
    AppendLog(o.log, m, window);
    LogGrows(o.log, m);
    AddExpiry(o, limit, window, now);
  }

  lemma LogGrows(log: seq<Member>, m: Member)
    requires LogOk(log, m.time) && m !in log
    ensures LogOk(log + [m], m.time)
  {
  }

  lemma AddExpiry(o: Outcome, limit: int, window: nat, now: nat)
    requires Inv(o, limit, window, now) && Live(o.state, now) == o.state
    ensures var s := Add(o.state, window, now);
            ExpiryOk(Outcome(s, o.log + [Member(now, s.counter.value)]), window, now)
  {
    var s := Add(o.state, window, now);
    var log := o.log + [Member(now, s.counter.value)];
    forall m | m in log && m.time == now ensures m.id <= s.counter.value {
      if m in o.log {
        assert o.log[|o.log| - 1].time == now;
      }
    }
  }

  /** One call of any cost keeps the invariant. */
  lemma CallKeeps(o: Outcome, limit: int, window: nat, t: nat, c: Call)
    requires Inv(o, limit, window, t) && t <= c.now && window > 0
    ensures Inv(Outcome(Script(o.state, limit, window, c.cost, c.now).0, o.log + Admission(o.state, limit, window, c)),
                limit, window, c.now)
  {
    QuietStep(o, limit, window, t, c.now);
    var k := Prune(Live(o.state, c.now), window, c.now);
    if |k.zset| + c.cost <= limit && c.cost > 0 {
      AdmitStep(Outcome(k, o.log), limit, window, c.now);
    } else {
      assert o.log + [] == o.log;
    }
  }

  function Last(calls: seq<Call>): nat {
    if calls == [] then 0 else calls[|calls| - 1].now
  }

  /** Every run with a nondecreasing clock keeps the invariant. */
  lemma {:induction false} RunInv(limit: int, window: nat, calls: seq<Call>)
    requires Clocked(calls) && window > 0
    ensures Inv(Run(limit, window, calls), limit, window, Last(calls))
  {
    if calls != [] {
      var rest, c := calls[..|calls| - 1], calls[|calls| - 1];
      RunInv(limit, window, rest);
      assert Last(rest) <= c.now;
      CallKeeps(Run(limit, window, rest), limit, window, Last(rest), c);
    }
  }

  // ----- at most `limit` admissions in any window

  predicate InWindow(m: Member, window: nat, t: nat) {
    t - window < m.time <= t
  }

  /** How many admitted calls fall in (t - window, t]. */
  function CountIn(log: seq<Member>, window: nat, t: nat): nat {
    if log == [] then 0
    else CountIn(log[..|log| - 1], window, t) + if InWindow(log[|log| - 1], window, t) then 1 else 0
  }

  lemma {:induction false} CountIsSize(log: seq<Member>, window: nat, t: nat)
    requires Distinct(log)
    ensures CountIn(log, window, t) == |Inside(log, window, t)|
  {
    if log != [] {
      var rest, last := log[..|log| - 1], log[|log| - 1];
      CountIsSize(rest, window, t);
      assert log == rest + [last];
      assert last !in rest;
      InsideSnoc(rest, last, window, t);
    }
  }

  function Inside(log: seq<Member>, window: nat, t: nat): set<Member> {
    set m | m in log && InWindow(m, window, t)
  }

  lemma InsideSnoc(log: seq<Member>, last: Member, window: nat, t: nat)
    ensures Inside(log + [last], window, t)
         == Inside(log, window, t) + if InWindow(last, window, t) then {last} else {}
  {
  }

  function Cap(limit: int): nat {
    if limit < 0 then 0 else limit
  }

  /** Over any run, every interval (t - window, t] contains at most `limit` admitted calls. */
  lemma {:induction false} AtMostLimit(limit: int, window: nat, calls: seq<Call>, t: nat)
    requires Clocked(calls) && window > 0
    ensures CountIn(Run(limit, window, calls).log, window, t) <= Cap(limit)
  {
    if calls != [] {
      var rest := calls[..|calls| - 1];
      AtMostLimit(limit, window, rest, t);
      RunInv(limit, window, calls);
      var before, o := Run(limit, window, rest).log, Run(limit, window, calls);
      if o.log != before {
        assert o.log[..|o.log| - 1] == before && o.log[|o.log| - 1].time == Last(calls);
        if InWindow(o.log[|o.log| - 1], window, t) {
          CoveredBySet(o, limit, window, Last(calls), t);
        }
      }
    }
  }

  /** When the newest member was just added and lies in (t - window, t], the set covers the whole interval. */
  lemma CoveredBySet(o: Outcome, limit: int, window: nat, now: nat, t: nat)
    requires Inv(o, limit, window, now) && |o.log| > 0 && now <= t
    ensures CountIn(o.log, window, t) <= Cap(limit)
  {
    CountIsSize(o.log, window, t);
    SubsetSize(Inside(o.log, window, t), o.state.zset);
  }

  // ----- the reset time a denied call returns

  function Answer(limit: int, window: nat, calls: seq<Call>, i: nat): Result
    requires i < |calls|
  {
    Script(Run(limit, window, calls[..i]).state, limit, window, calls[i].cost, calls[i].now).1
  }

  /** With the log unchanged, a unit-cost call is denied exactly while all of a full window's members remain. */
  lemma DeniedWhen(limit: int, window: nat, calls: seq<Call>, i: nat)
    requires Clocked(calls) && window > 0 && i < |calls| && calls[i].cost == 1
    ensures var z := Unpruned(Members(Run(limit, window, calls[..i]).log), window, calls[i].now);
            && |z| <= Cap(limit)
            && (Answer(limit, window, calls, i).allowed <==> |z| < limit)
            && (!Answer(limit, window, calls, i).allowed && z != {} ==>
                  Answer(limit, window, calls, i).reset == Oldest(z) + window)
  {
    var rest := calls[..i];
    RunInv(limit, window, rest);
    var o := Run(limit, window, rest);
    PrunedSet(o, limit, window, Last(rest), calls[i].now);
    QuietStep(o, limit, window, Last(rest), calls[i].now);
  }

  /** A window's members all remain until the oldest leaves it. */
  lemma FullUntil(s: set<Member>, window: nat, now: nat, later: nat)
    requires now <= later && Unpruned(s, window, now) != {}
    ensures var z, z' := Unpruned(s, window, now), Unpruned(s, window, later);
            if later < Oldest(z) + window then z' == z else |z'| < |z|
  {
    var z, z' := Unpruned(s, window, now), Unpruned(s, window, later);
    if later >= Oldest(z) + window {
      var m :| m in z && m.time == Oldest(z);
      assert z' <= z - {m};
      SubsetSize(z', z - {m});
    }
  }

  /**
    The reset time is exact: with nothing admitted between a denied call i and a later call j, call j
    is denied if and only if it comes before the time call i was given.
   */
  lemma ResetExact(limit: int, window: nat, calls: seq<Call>, i: nat, j: nat)
    requires Clocked(calls) && window > 0 && limit >= 1 && i < j < |calls|
    requires calls[i].cost == 1 && calls[j].cost == 1 && !Answer(limit, window, calls, i).allowed
    requires Run(limit, window, calls[..j]).log == Run(limit, window, calls[..i]).log
    ensures !Answer(limit, window, calls, j).allowed <==> calls[j].now < Answer(limit, window, calls, i).reset
  {
    var log := Run(limit, window, calls[..i]).log;
    DeniedWhen(limit, window, calls, i);
    DeniedWhen(limit, window, calls, j);
    var z, z' := Unpruned(Members(log), window, calls[i].now), Unpruned(Members(log), window, calls[j].now);
    assert |z| == limit;
    assert z != {};
    FullUntil(Members(log), window, calls[i].now, calls[j].now);
  }

  // ----- the middleware: one limiter key per virtual key and calendar minute

  const MINUTE: nat := 60_000

  /** A request: the instant its key's minute was read, and the instant the script ran. */
  datatype Request = Request(readAt: nat, now: nat)

  function MinuteOf(r: Request): nat {
    r.readAt / MINUTE
  }

  predicate RequestsClocked(rs: seq<Request>) {
    && (forall i :: 0 <= i < |rs| ==> rs[i].readAt <= rs[i].now)
    && (forall i, j :: 0 <= i <= j < |rs| ==> rs[i].now <= rs[j].now)
  }

  /** The calls that reach the limiter key of minute k. */
  function CallsOf(rs: seq<Request>, k: nat): seq<Call> {
    if rs == [] then []
    else
      var r := rs[|rs| - 1];
      CallsOf(rs[..|rs| - 1], k) + if MinuteOf(r) == k then [Call(1, r.now)] else []
  }

  /** How many requests keyed with a minute in [lo, hi] were admitted at a time in (t - MINUTE, t]. */
  function AdmittedIn(limit: int, rs: seq<Request>, lo: nat, hi: nat, t: nat): nat {
    if rs == [] then 0
    else
      var before, r := rs[..|rs| - 1], rs[|rs| - 1];
      AdmittedIn(limit, before, lo, hi, t)
      + if lo <= MinuteOf(r) <= hi && t - MINUTE < r.now <= t && Allowed(limit, before, r) then 1 else 0
  }

  /** The limiter's answer to request r after the requests before it. */
  predicate Allowed(limit: int, before: seq<Request>, r: Request) {
    Script(Run(limit, MINUTE, CallsOf(before, MinuteOf(r))).state, limit, MINUTE, 1, r.now).1.allowed
  }

  lemma {:induction false} CallsClocked(rs: seq<Request>, k: nat)
    requires RequestsClocked(rs)
    ensures Clocked(CallsOf(rs, k))
    ensures forall i :: 0 <= i < |CallsOf(rs, k)| ==> exists j :: 0 <= j < |rs| && CallsOf(rs, k)[i].now == rs[j].now
  {
    if rs != [] {
      CallsClocked(rs[..|rs| - 1], k);
    }
  }

  /** Requests keyed with one minute are exactly a run of that minute's limiter key. */
  lemma {:induction false} OneMinute(limit: int, rs: seq<Request>, k: nat, t: nat)
    ensures AdmittedIn(limit, rs, k, k, t) == CountIn(Run(limit, MINUTE, CallsOf(rs, k)).log, MINUTE, t)
  {
    if rs != [] {
      var before, r := rs[..|rs| - 1], rs[|rs| - 1];
      OneMinute(limit, before, k, t);
      if MinuteOf(r) == k {
        CountStep(limit, CallsOf(before, k), r.now, t);
      } else {
        assert CallsOf(rs, k) == CallsOf(before, k);
      }
    }
  }

  lemma CountStep(limit: int, calls: seq<Call>, now: nat, t: nat)
    ensures CountIn(Run(limit, MINUTE, calls + [Call(1, now)]).log, MINUTE, t)
         == CountIn(Run(limit, MINUTE, calls).log, MINUTE, t)
            + if t - MINUTE < now <= t && Script(Run(limit, MINUTE, calls).state, limit, MINUTE, 1, now).1.allowed
              then 1 else 0
  {
    var o, c := Run(limit, MINUTE, calls), Call(1, now);
    assert (calls + [c])[..|calls|] == calls;
    var more := Admission(o.state, limit, MINUTE, c);
    assert Run(limit, MINUTE, calls + [c]).log == o.log + more;
    if more != [] {
      assert (o.log + more)[..|o.log|] == o.log;
    } else {
      assert o.log + more == o.log;
    }
  }

  lemma {:induction false} SplitMinutes(limit: int, rs: seq<Request>, lo: nat, hi: nat, t: nat)
    requires lo < hi
    ensures AdmittedIn(limit, rs, lo, hi, t) == AdmittedIn(limit, rs, lo, hi - 1, t) + AdmittedIn(limit, rs, hi, hi, t)
  {
    if rs != [] {
      SplitMinutes(limit, rs[..|rs| - 1], lo, hi, t);
    }
  }

  /** One minute's share of any 60 seconds is at most `limit`. */
  lemma OneMinuteBound(limit: int, rs: seq<Request>, k: nat, t: nat)
    requires RequestsClocked(rs)
    ensures AdmittedIn(limit, rs, k, k, t) <= Cap(limit)
  {
    CallsClocked(rs, k);
    OneMinute(limit, rs, k, t);
    AtMostLimit(limit, MINUTE, CallsOf(rs, k), t);
  }

  /** A bound per minute adds up over the minutes lo to hi. */
  lemma {:induction false} SumBound(f: (nat, nat) -> nat, cap: nat, lo: nat, hi: nat)
    requires lo <= hi && forall k :: f(k, k) <= cap
    requires forall a, b :: a < b ==> f(a, b) == f(a, b - 1) + f(b, b)
    ensures f(lo, hi) <= (hi - lo + 1) * cap
    decreases hi - lo
  {
    assert f(hi, hi) <= cap;
    if lo < hi {
      SumBound(f, cap, lo, hi - 1);
      assert f(lo, hi) == f(lo, hi - 1) + f(hi, hi);
      assert (hi - lo + 1) * cap == (hi - lo) * cap + cap;
    } else {
      assert (hi - lo + 1) * cap == cap;
    }
  }

  /** Requests keyed with minutes lo to hi: at most `limit` for each minute in any 60 seconds. */
  lemma PerMinuteBound(limit: int, rs: seq<Request>, lo: nat, hi: nat, t: nat)
    requires RequestsClocked(rs) && lo <= hi
    ensures AdmittedIn(limit, rs, lo, hi, t) <= (hi - lo + 1) * Cap(limit)
  {
    var f := (a: nat, b: nat) => AdmittedIn(limit, rs, a, b, t);
    forall k ensures f(k, k) <= Cap(limit) {
      OneMinuteBound(limit, rs, k, t);
    }
    forall a: nat, b: nat | a < b ensures f(a, b) == f(a, b - 1) + f(b, b) {
      SplitMinutes(limit, rs, a, b, t);
    }
    SumBound(f, Cap(limit), lo, hi);
  }

  lemma MulMonotone(a: nat, b: nat, c: nat)
    requires a <= b
    ensures a * c <= b * c
  {
  }

  /** All admitted requests of a virtual key at a time in (t - MINUTE, t]. */
  function Admitted(limit: int, rs: seq<Request>, t: nat): nat {
    if rs == [] then 0
    else
      var before, r := rs[..|rs| - 1], rs[|rs| - 1];
      Admitted(limit, before, t) + if t - MINUTE < r.now <= t && Allowed(limit, before, r) then 1 else 0
  }

  lemma {:induction false} OnlyTheseMinutes(limit: int, rs: seq<Request>, lo: nat, hi: nat, t: nat)
    requires forall r :: r in rs && t - MINUTE < r.now <= t ==> lo <= MinuteOf(r) <= hi
    ensures Admitted(limit, rs, t) == AdmittedIn(limit, rs, lo, hi, t)
  {
    if rs != [] {
      assert rs[|rs| - 1] in rs;
      OnlyTheseMinutes(limit, rs[..|rs| - 1], lo, hi, t);
    }
  }

  /** The minute was read at most n minutes before the script ran. */
  predicate ReadWithin(rs: seq<Request>, n: nat) {
    forall r :: r in rs ==> r.now <= r.readAt + n * MINUTE
  }

  /**
    In general the key's minute is read first. If that happens at most n minutes before the script
    runs, a 60-second interval can draw on n + 2 keys.
   */
  lemma DelayedKeyBound(limit: int, rs: seq<Request>, t: nat, n: nat)
    requires RequestsClocked(rs) && ReadWithin(rs, n)
    ensures Admitted(limit, rs, t) <= (n + 2) * Cap(limit)
  {
    var lo, hi := DelayedMinutes(rs, t, n);
    OnlyTheseMinutes(limit, rs, lo, hi, t);
    PerMinuteBound(limit, rs, lo, hi, t);
    MulMonotone(hi - lo + 1, n + 2, Cap(limit));
  }

  /** The minutes whose keys can admit something in (t - MINUTE, t]: at most n + 2 of them. */
  lemma DelayedMinutes(rs: seq<Request>, t: nat, n: nat) returns (lo: nat, hi: nat)
    requires RequestsClocked(rs) && ReadWithin(rs, n)
    ensures lo <= hi <= lo + n + 1
    ensures forall r :: r in rs && t - MINUTE < r.now <= t ==> lo <= MinuteOf(r) <= hi
  {
    hi := t / MINUTE;
    lo := if hi < n + 1 then 0 else hi - (n + 1);
    forall r | r in rs && t - MINUTE < r.now <= t ensures lo <= MinuteOf(r) <= hi {
      var i :| 0 <= i < |rs| && rs[i] == r;
      DelayedMinute(r.readAt, r.now, t, n);
    }
  }

  lemma DelayedMinute(readAt: nat, now: nat, t: nat, n: nat)
    requires readAt <= now <= readAt + n * MINUTE && t - MINUTE < now <= t
    ensures t / MINUTE - (n + 1) <= readAt / MINUTE <= t / MINUTE
  {
  }

  // ----- the bound is attained

  /** A key with so few calls behind it that even all of them together leave room admits the next one. */
  lemma RoomFor(limit: int, window: nat, calls: seq<Call>, c: Call)
    requires Clocked(calls + [c]) && window > 0 && |calls| + c.cost <= limit
    ensures Script(Run(limit, window, calls).state, limit, window, c.cost, c.now).1.allowed
  {
    var all := calls + [c];
    assert Clocked(calls) by {
      assert forall i :: 0 <= i < |calls| ==> calls[i] == all[i];
    }
    assert Last(calls) <= c.now by {
      assert all[|calls|] == c && (calls != [] ==> all[|calls| - 1].now == Last(calls));
    }
    RunInv(limit, window, calls);
    var o := Run(limit, window, calls);
    PrunedSet(o, limit, window, Last(calls), c.now);
    LogLength(limit, window, calls);
    MembersSize(o.log);
    SubsetSize(Unpruned(Members(o.log), window, c.now), Members(o.log));
  }

  lemma {:induction false} LogLength(limit: int, window: nat, calls: seq<Call>)
    ensures |Run(limit, window, calls).log| <= |calls|
  {
    if calls != [] {
      LogLength(limit, window, calls[..|calls| - 1]);
    }
  }

  lemma {:induction false} MembersSize(log: seq<Member>)
    ensures |Members(log)| <= |log|
  {
    if log != [] {
      var rest := log[..|log| - 1];
      MembersSize(rest);
      assert log == rest + [log[|log| - 1]];
      assert Members(log) == Members(rest) + {log[|log| - 1]};
    }
  }

  /** Requests that fall into one minute of real time, with at most `limit` for every key, are all admitted. */
  lemma {:induction false} AllAdmitted(limit: int, rs: seq<Request>, t: nat)
    requires RequestsClocked(rs) && forall k: nat :: |CallsOf(rs, k)| <= limit
    requires forall r :: r in rs ==> t - MINUTE < r.now <= t
    ensures Admitted(limit, rs, t) == |rs|
  {
    if rs != [] {
      var before, r := rs[..|rs| - 1], rs[|rs| - 1];
      assert r in rs;
      forall k: nat ensures |CallsOf(before, k)| <= limit {
        assert |CallsOf(before, k)| <= |CallsOf(rs, k)|;
      }
      AllAdmitted(limit, before, t);
      CallsClocked(rs, MinuteOf(r));
      RoomFor(limit, MINUTE, CallsOf(before, MinuteOf(r)), Call(1, r.now));
    }
  }

  /** rs followed by n copies of r. */
  function Repeated(rs: seq<Request>, r: Request, n: nat): seq<Request> {
    if n == 0 then rs else Repeated(rs, r, n - 1) + [r]
  }

  lemma {:induction false} RepeatedCalls(rs: seq<Request>, r: Request, n: nat, k: nat)
    ensures |Repeated(rs, r, n)| == |rs| + n
    ensures |CallsOf(Repeated(rs, r, n), k)| == |CallsOf(rs, k)| + if MinuteOf(r) == k then n else 0
    ensures forall x :: x in Repeated(rs, r, n) ==> x in rs || x == r
  {
    if n > 0 {
      RepeatedCalls(rs, r, n - 1, k);
      assert Repeated(rs, r, n)[..|Repeated(rs, r, n)| - 1] == Repeated(rs, r, n - 1);
    }
  }

  lemma {:induction false} RepeatedClocked(rs: seq<Request>, r: Request, n: nat)
    requires RequestsClocked(rs) && r.readAt <= r.now && forall x :: x in rs ==> x.now <= r.now
    ensures RequestsClocked(Repeated(rs, r, n)) && forall x :: x in Repeated(rs, r, n) ==> x.now <= r.now
  {
    if n > 0 {
      RepeatedClocked(rs, r, n - 1);
      var before := Repeated(rs, r, n - 1);
      assert forall i :: 0 <= i < |before| ==> before[i] in before;
    }
  }

  /** `limit` requests of each of the minutes 0 to g - 1, read at the end of it and run just before minute n + 1. */
  function Burst(limit: nat, n: nat, g: nat): seq<Request> {
    if g == 0 then [] else Repeated(Burst(limit, n, g - 1), Delayed(n, g), limit)
  }

  function Delayed(n: nat, g: nat): Request
    requires g > 0
  {
    Request(g * MINUTE - 1, (n + 1) * MINUTE - 1)
  }

  lemma {:induction false} BurstSize(limit: nat, n: nat, g: nat)
    ensures |Burst(limit, n, g)| == g * limit
  {
    if g > 0 {
      BurstSize(limit, n, g - 1);
      RepeatedCalls(Burst(limit, n, g - 1), Delayed(n, g), limit, 0);
      Multiply(g, limit);
    }
  }

  lemma Multiply(g: nat, limit: nat)
    requires g > 0
    ensures g * limit == (g - 1) * limit + limit
  {
  }

  lemma {:induction false} BurstCalls(limit: nat, n: nat, g: nat, k: nat)
    ensures |CallsOf(Burst(limit, n, g), k)| == if k < g then limit else 0
  {
    if g > 0 {
      BurstCalls(limit, n, g - 1, k);
      RepeatedCalls(Burst(limit, n, g - 1), Delayed(n, g), limit, k);
      LastMinute(n, g);
    }
  }

  lemma LastMinute(n: nat, g: nat)
    requires g > 0
    ensures MinuteOf(Delayed(n, g)) == g - 1
  {
  }

  lemma {:induction false} BurstTimes(limit: nat, n: nat, g: nat)
    requires g <= n + 1
    ensures RequestsClocked(Burst(limit, n, g)) && ReadWithin(Burst(limit, n, g), n)
    ensures forall x :: x in Burst(limit, n, g) ==> x.now == (n + 1) * MINUTE - 1
  {
    if g > 0 {
      var rs, r := Burst(limit, n, g - 1), Delayed(n, g);
      BurstTimes(limit, n, g - 1);
      RepeatedClocked(rs, r, limit);
      RepeatedCalls(rs, r, limit, 0);
    }
  }

  /** n + 1 minutes' requests run just before minute n + 1, and that minute's at its start. */
  function FullBurst(limit: nat, n: nat): seq<Request> {
    Repeated(Burst(limit, n, n + 1), Request((n + 1) * MINUTE, (n + 1) * MINUTE), limit)
  }

  lemma FullBurstCalls(limit: nat, n: nat, k: nat)
    ensures |CallsOf(FullBurst(limit, n), k)| <= limit
    ensures |FullBurst(limit, n)| == (n + 2) * limit
  {
    var r := Request((n + 1) * MINUTE, (n + 1) * MINUTE);
    assert MinuteOf(r) == n + 1;
    BurstCalls(limit, n, n + 1, k);
    RepeatedCalls(Burst(limit, n, n + 1), r, limit, k);
    BurstSize(limit, n, n + 1);
    Multiply(n + 2, limit);
  }

  lemma FullBurstTimes(limit: nat, n: nat)
    ensures RequestsClocked(FullBurst(limit, n)) && ReadWithin(FullBurst(limit, n), n)
    ensures forall x :: x in FullBurst(limit, n) ==> n * MINUTE < x.now <= (n + 1) * MINUTE
  {
    var early, r := Burst(limit, n, n + 1), Request((n + 1) * MINUTE, (n + 1) * MINUTE);
    BurstTimes(limit, n, n + 1);
    RepeatedClocked(early, r, limit);
    RepeatedCalls(early, r, limit, 0);
  }

  /**
    The bound cannot be improved: for every limit and every delay of up to n minutes some requests get
    n + 2 times the limit admitted within 60 seconds. With n = 0, when the minute is read as the script
    runs, that is twice the limit.
   */
  lemma DelayedKeyAttained(limit: nat, n: nat)
    ensures exists rs, t :: RequestsClocked(rs) && ReadWithin(rs, n) && Admitted(limit, rs, t) == (n + 2) * limit
  {
    var rs, t := FullBurst(limit, n), (n + 1) * MINUTE;
    FullBurstTimes(limit, n);
    FullBurstCalls(limit, n, 0);
    forall k: nat ensures |CallsOf(rs, k)| <= limit {
      FullBurstCalls(limit, n, k);
    }
    AllAdmitted(limit, rs, t);
  }

  /**
    When the minute and the time are read at the same instant, a virtual key gets at most `limit`
    requests per calendar minute and at most twice that in any 60 seconds.
   */
  lemma VirtualKeyBound(limit: int, rs: seq<Request>, t: nat)
    requires RequestsClocked(rs) && forall r :: r in rs ==> r.readAt == r.now
    ensures Admitted(limit, rs, t) <= 2 * Cap(limit)
    ensures t % MINUTE == MINUTE - 1 ==> Admitted(limit, rs, t) <= Cap(limit)
  {
    DelayedKeyBound(limit, rs, t, 0);
    if t % MINUTE == MINUTE - 1 {
      OnlyTheseMinutes(limit, rs, t / MINUTE, t / MINUTE, t);
      OneMinuteBound(limit, rs, t / MINUTE, t);
    }
  }
}
