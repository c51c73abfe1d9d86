/**
  What the sliding-window script of internal/ratelimit/redis_limiter.go says about cost. It adds one set
  member per admitted call, whatever the cost, and compares the number of members plus the cost with the
  limit.
 */
module CostLimits {
  import opened Common
  import opened RateLimiter

  /** Whether a call counts, given the calls before it. */
  type Counting = (seq<Call>, Call) -> bool

  function CostOf(counts: Counting, calls: seq<Call>): int {
    if calls == [] then 0
    else
      var before, c := calls[..|calls| - 1], calls[|calls| - 1];
      CostOf(counts, before) + if counts(before, c) then c.cost else 0
  }

  function NumberOf(counts: Counting, calls: seq<Call>): nat {
    if calls == [] then 0
    else
      var before, c := calls[..|calls| - 1], calls[|calls| - 1];
      NumberOf(counts, before) + if counts(before, c) then 1 else 0
  }

  /** Call c, after these calls, is admitted at a time in (t - window, t]. */
  predicate Counts(limit: int, window: nat, calls: seq<Call>, c: Call, t: nat) {
    t - window < c.now <= t && Admission(Run(limit, window, calls).state, limit, window, c) != []
  }

  function Within(limit: int, window: nat, t: nat): Counting {
    (calls: seq<Call>, c: Call) => Counts(limit, window, calls, c, t)
  }

  /** The costs of the calls admitted at a time in (t - window, t]. */
  function CostIn(limit: int, window: nat, calls: seq<Call>, t: nat): int {
    CostOf(Within(limit, window, t), calls)
  }

  /** How many calls are admitted then. */
  function Admitted(limit: int, window: nat, calls: seq<Call>, t: nat): nat {
    NumberOf(Within(limit, window, t), calls)
  }

  /** limit + (limit - 1) + ..., n terms. */
  function Falling(limit: int, n: nat): int {
    if n == 0 then 0 else Falling(limit, n - 1) + (limit - (n - 1))
  }

  lemma {:induction false} FallingClosed(limit: int, n: nat)
    ensures 2 * Falling(limit, n) == n * (2 * limit - n + 1)
  {
    if n > 0 {
      FallingClosed(limit, n - 1);
      assert n * (2 * limit - n + 1) == (n - 1) * (2 * limit - (n - 1) + 1) + 2 * (limit - (n - 1));
    }
  }

  lemma {:induction false} FallingMonotone(limit: nat, m: nat, n: nat)
    requires m <= n <= limit
    ensures Falling(limit, m) <= Falling(limit, n)
  {
    if m < n {
      FallingMonotone(limit, m, n - 1);
    }
  }

  /** A call admitted when n admissions lie in the interval costs at most limit - n. */
  lemma CostStep(limit: int, window: nat, calls: seq<Call>, c: Call, t: nat)
    requires Clocked(calls) && window > 0 && Last(calls) <= c.now && Counts(limit, window, calls, c, t)
    ensures c.cost <= limit - CountIn(Run(limit, window, calls).log, window, t)
  {
    RunInv(limit, window, calls);
    var o := Run(limit, window, calls);
    PrunedSet(o, limit, window, Last(calls), c.now);
    CountIsSize(o.log, window, t);
    SubsetSize(Inside(o.log, window, t), Unpruned(Members(o.log), window, c.now));
  }

  /** What one more call does to the number of admissions in an interval. */
  lemma CountSnoc(limit: int, window: nat, calls: seq<Call>, c: Call, t: nat)
    ensures CountIn(Run(limit, window, calls + [c]).log, window, t)
         == CountIn(Run(limit, window, calls).log, window, t)
            + if Counts(limit, window, calls, c, t) then 1 else 0
  {
    var o := Run(limit, window, calls);
    assert (calls + [c])[..|calls|] == calls;
    var more := Admission(o.state, limit, window, c);
    assert Run(limit, window, calls + [c]).log == o.log + more;
    if more != [] {
      assert (o.log + more)[..|o.log|] == o.log;
    } else {
      assert o.log + more == o.log;
    }
  }

  lemma CostSnoc(limit: int, window: nat, calls: seq<Call>, c: Call, t: nat)
    ensures CostIn(limit, window, calls + [c], t)
         == CostIn(limit, window, calls, t)
            + if Counts(limit, window, calls, c, t) then c.cost else 0
  {
    assert (calls + [c])[..|calls|] == calls;
  }

  lemma {:induction false} AdmittedIsCount(limit: int, window: nat, calls: seq<Call>, t: nat)
    ensures Admitted(limit, window, calls, t) == CountIn(Run(limit, window, calls).log, window, t)
  {
    if calls != [] {
      var before, c := calls[..|calls| - 1], calls[|calls| - 1];
      assert calls == before + [c];
      AdmittedIsCount(limit, window, before, t);
      CountSnoc(limit, window, before, c, t);
    }
  }

  /** Costs that fall short of the limit by the number of calls counted before them add up to a falling sum. */
  lemma {:induction false} CostByCount(counts: Counting, limit: int, calls: seq<Call>)
    requires forall i :: 0 <= i < |calls| && counts(calls[..i], calls[i]) ==>
               calls[i].cost <= limit - NumberOf(counts, calls[..i])
    ensures CostOf(counts, calls) <= Falling(limit, NumberOf(counts, calls))
  {
    if calls != [] {
      var before := calls[..|calls| - 1];
      assert forall i :: 0 <= i < |before| ==> before[..i] == calls[..i] && before[i] == calls[i];
      CostByCount(counts, limit, before);
    }
  }

  /** Over every clocked run, the cost admitted in any interval (t - window, t] is at most limit (limit + 1) / 2. */
  lemma CostBound(limit: int, window: nat, calls: seq<Call>, t: nat)
    requires Clocked(calls) && window > 0
    ensures 2 * CostIn(limit, window, calls, t) <= Cap(limit) * (Cap(limit) + 1)
  {
    var n := Admitted(limit, window, calls, t);
    var counts := Within(limit, window, t);
    forall i | 0 <= i < |calls| && counts(calls[..i], calls[i])
      ensures calls[i].cost <= limit - NumberOf(counts, calls[..i])
    {
      assert calls[..i] != [] ==> Last(calls[..i]) == calls[i - 1].now;
      CostStep(limit, window, calls[..i], calls[i], t);
      AdmittedIsCount(limit, window, calls[..i], t);
    }
    CostByCount(counts, limit, calls);
    AdmittedIsCount(limit, window, calls, t);
    AtMostLimit(limit, window, calls, t);
    if limit >= 0 {
      FallingMonotone(limit, n, limit);
      FallingClosed(limit, limit);
    }
  }

  // ----- the bound is attained

  /** n calls at time t that cost limit, limit - 1, and so on. */
  function Descending(limit: int, n: nat, t: nat): (r: seq<Call>)
    ensures |r| == n && forall c :: c in r ==> c.now == t
  {
    if n == 0 then [] else Descending(limit, n - 1, t) + [Call(limit - (n - 1), t)]
  }

  lemma SameTimeClocked(calls: seq<Call>, t: nat)
    requires forall c :: c in calls ==> c.now == t
    ensures Clocked(calls)
  {
    assert forall i :: 0 <= i < |calls| ==> calls[i] in calls;
  }

  lemma RoomAt(limit: int, window: nat, calls: seq<Call>, c: Call, t: nat)
    requires window > 0 && c.now == t && (forall x :: x in calls ==> x.now == t)
    requires c.cost > 0 && |calls| + c.cost <= limit
    ensures Counts(limit, window, calls, c, t)
  {
    SameTimeClocked(calls + [c], t);
    RoomFor(limit, window, calls, c);
  }

  lemma {:induction false} DescendingAdmitted(limit: int, window: nat, n: nat, t: nat)
    requires window > 0 && n <= limit
    ensures CostIn(limit, window, Descending(limit, n, t), t) == Falling(limit, n)
  {
    if n > 0 {
      var before, c := Descending(limit, n - 1, t), Call(limit - (n - 1), t);
      DescendingAdmitted(limit, window, n - 1, t);
      RoomAt(limit, window, before, c, t);
      CostSnoc(limit, window, before, c, t);
    }
  }

  /** Costs limit, limit - 1, ..., 1 at one instant are all admitted and attain the bound. */
  lemma CostAttained(limit: nat, window: nat, t: nat)
    requires window > 0
    ensures Clocked(Descending(limit, limit, t))
    ensures 2 * CostIn(limit, window, Descending(limit, limit, t), t) == limit * (limit + 1)
  {
    SameTimeClocked(Descending(limit, limit, t), t);
    DescendingAdmitted(limit, window, limit, t);
    FallingClosed(limit, limit);
  }

  /** So the limit bounds the cost in a window exactly if it is below 2. */
  lemma CostExceedsExactlyWhen(limit: int, window: nat)
    requires window > 0
    ensures (exists calls, t :: Clocked(calls) && CostIn(limit, window, calls, t) > Cap(limit)) <==> limit >= 2
  {
    if limit >= 2 {
      var calls := Descending(limit, limit, 0);
      CostAttained(limit, window, 0);
      Grows(limit);
      assert CostIn(limit, window, calls, 0) > Cap(limit);
    } else {
      forall calls, t: nat | Clocked(calls) ensures CostIn(limit, window, calls, t) <= Cap(limit) {
        CostBound(limit, window, calls, t);
      }
    }
  }

  /** For one: with limit 2, calls of cost 2 and then 1 at one instant are both admitted, 3 units in all. */
  lemma ThreeOfTwo(window: nat, t: nat)
    requires window > 0
    ensures CostIn(2, window, [Call(2, t), Call(1, t)], t) == 3
  {
    CostAttained(2, window, t);
    assert Descending(2, 1, t) == [Call(2, t)];
    assert Descending(2, 2, t) == [Call(2, t), Call(1, t)];
  }

  lemma Grows(limit: nat)
    requires limit >= 2
    ensures limit * (limit + 1) > 2 * limit
  {
  }

  // ----- the remaining calls an answer promises

  /** What the script counts are the admissions in the window that ends now. */
  lemma WindowCount(limit: int, window: nat, calls: seq<Call>, now: nat)
    requires Clocked(calls) && Last(calls) <= now && window > 0
    ensures var o := Run(limit, window, calls);
            |Prune(Live(o.state, now), window, now).zset| == CountIn(o.log, window, now)
  {
    RunInv(limit, window, calls);
    var o := Run(limit, window, calls);
    PrunedSet(o, limit, window, Last(calls), now);
    CountIsSize(o.log, window, now);
    assert Inside(o.log, window, now) == Unpruned(Members(o.log), window, now) by {
      forall m | m in o.log ensures m.time <= now {
        var i :| 0 <= i < |o.log| && o.log[i] == m;
      }
    }
  }

  /** The answer to a call, by the number of admissions in the window that ends with it. */
  lemma AnswerCounts(limit: int, window: nat, calls: seq<Call>, c: Call)
    requires Clocked(calls) && Last(calls) <= c.now && window > 0
    ensures var n := CountIn(Run(limit, window, calls).log, window, c.now);
            var r := Script(Run(limit, window, calls).state, limit, window, c.cost, c.now).1;
            && (r.allowed <==> n + c.cost <= limit)
            && r.remaining == if r.allowed then limit - n - c.cost else 0
  {
    WindowCount(limit, window, calls, c.now);
  }

  /** calls followed by j unit calls at one instant. */
  function Further(calls: seq<Call>, j: nat, now: nat): seq<Call> {
    if j == 0 then calls else Further(calls, j - 1, now) + [Call(1, now)]
  }

  ghost predicate Ready(calls: seq<Call>, now: nat) {
    Clocked(calls) && Last(calls) <= now
  }

  lemma {:induction false} FurtherFold(count: seq<Call> -> nat, limit: int, calls: seq<Call>, j: nat, now: nat)
    requires Ready(calls, now)
    requires forall x {:trigger count(x + [Call(1, now)])} :: Ready(x, now) ==>
               count(x + [Call(1, now)]) == Filled(count(x), 1, limit)
    ensures Ready(Further(calls, j, now), now)
    ensures count(Further(calls, j, now)) == Filled(count(calls), j, limit)
  {
    if j > 0 {
      FurtherFold(count, limit, calls, j - 1, now);
      FurtherClocked(Further(calls, j - 1, now), now);
    }
  }

  lemma FurtherCalls(limit: int, window: nat, calls: seq<Call>, j: nat, now: nat)
    requires Ready(calls, now) && window > 0
    ensures Ready(Further(calls, j, now), now)
    ensures CountIn(Run(limit, window, Further(calls, j, now)).log, window, now)
         == Filled(CountIn(Run(limit, window, calls).log, window, now), j, limit)
  {
    var count := (x: seq<Call>) => CountIn(Run(limit, window, x).log, window, now);
    forall x | Ready(x, now) ensures count(x + [Call(1, now)]) == Filled(count(x), 1, limit) {
      OneFurther(limit, window, x, now);
    }
    FurtherFold(count, limit, calls, j, now);
  }

  /** n admissions after j more calls: one more each, up to the limit. */
  function Filled(n: nat, j: nat, limit: int): nat {
    if n + j <= limit then n + j else if n < limit then limit else n
  }

  lemma FurtherClocked(calls: seq<Call>, now: nat)
    requires Clocked(calls) && Last(calls) <= now
    ensures Clocked(calls + [Call(1, now)]) && Last(calls + [Call(1, now)]) == now
  {
    assert forall i :: 0 <= i < |calls| ==> calls[i].now <= Last(calls);
  }

  lemma OneFurther(limit: int, window: nat, calls: seq<Call>, now: nat)
    requires Clocked(calls) && Last(calls) <= now && window > 0
    ensures CountIn(Run(limit, window, calls + [Call(1, now)]).log, window, now)
         == Filled(CountIn(Run(limit, window, calls).log, window, now), 1, limit)
  {
    AnswerCounts(limit, window, calls, Call(1, now));
    CountSnoc(limit, window, calls, Call(1, now), now);
  }

  /** An allowed call of cost 0 or 1 leaves, with what remains, the limit. */
  lemma AdmittedCount(limit: int, window: nat, calls: seq<Call>, c: Call)
    requires Clocked(calls) && Last(calls) <= c.now && window > 0 && 0 <= c.cost <= 1
    requires Script(Run(limit, window, calls).state, limit, window, c.cost, c.now).1.allowed
    ensures Ready(calls + [c], c.now)
    ensures CountIn(Run(limit, window, calls + [c]).log, window, c.now)
         == limit - Script(Run(limit, window, calls).state, limit, window, c.cost, c.now).1.remaining
  {
    assert Ready(calls + [c], c.now) by {
      assert forall i :: 0 <= i < |calls| ==> calls[i].now <= Last(calls);
    }
    AnswerCounts(limit, window, calls, c);
    CountSnoc(limit, window, calls, c, c.now);
  }

  /**
    The remaining count is exact: after a call of cost 0 or 1 that was answered with r remaining, of the unit
    calls that follow at the same instant exactly the first r are allowed.
   */
  lemma RemainingExact(limit: int, window: nat, calls: seq<Call>, c: Call, j: nat)
    requires Clocked(calls) && Last(calls) <= c.now && window > 0 && 0 <= c.cost <= 1
    requires Script(Run(limit, window, calls).state, limit, window, c.cost, c.now).1.allowed
    ensures var r := Script(Run(limit, window, calls).state, limit, window, c.cost, c.now).1;
            var state := Run(limit, window, Further(calls + [c], j, c.now)).state;
            Script(state, limit, window, 1, c.now).1.allowed <==> j < r.remaining
  {
    AdmittedCount(limit, window, calls, c);
    FurtherCalls(limit, window, calls + [c], j, c.now);
    AnswerCounts(limit, window, Further(calls + [c], j, c.now), Call(1, c.now));
  }

  /** Keys live a second or two longer than their window, to a whole second, and an untouched key is then gone. */
  lemma KeyLifetime(s: KeyState, window: nat, now: nat, later: nat)
    requires later > now + Ttl(window)
    ensures window + 1_000 <= Ttl(window) < window + 2_000 && Ttl(window) % 1_000 == 0
    ensures var kept := Live(Add(s, window, now), later); kept.zset == {} && kept.counter == None
  {
  }

  // ----- calls of one cost

  predicate Uniform(calls: seq<Call>, cost: nat) {
    forall c :: c in calls ==> c.cost == cost
  }

  function Units(calls: seq<Call>): (r: seq<Call>)
    ensures |r| == |calls| && forall i :: 0 <= i < |calls| ==> r[i] == Call(1, calls[i].now)
  {
    seq(|calls|, i requires 0 <= i < |calls| => Call(1, calls[i].now))
  }

  /** Calls of cost c under a limit are unit calls under that limit less c - 1. */
  lemma {:induction false} UniformIsUnit(limit: int, window: nat, calls: seq<Call>, cost: nat)
    requires Uniform(calls, cost) && cost >= 1
    ensures Run(limit, window, calls) == Run(limit - cost + 1, window, Units(calls))
  {
    if calls != [] {
      var before, c := calls[..|calls| - 1], calls[|calls| - 1];
      assert c in calls && forall x :: x in before ==> x in calls;
      UniformIsUnit(limit, window, before, cost);
      assert Units(calls)[..|calls| - 1] == Units(before);
      SameDecision(Run(limit, window, before).state, limit, window, cost, c.now);
    }
  }

  lemma SameDecision(s: KeyState, limit: int, window: nat, cost: nat, now: nat)
    requires cost >= 1
    ensures Script(s, limit, window, cost, now).0 == Script(s, limit - cost + 1, window, 1, now).0
    ensures Script(s, limit, window, cost, now).1.allowed == Script(s, limit - cost + 1, window, 1, now).1.allowed
  {
  }

  lemma {:induction false} UniformCost(counts: Counting, calls: seq<Call>, cost: nat)
    requires Uniform(calls, cost)
    ensures CostOf(counts, calls) == Times(cost, NumberOf(counts, calls))
  {
    if calls != [] {
      var before, c := calls[..|calls| - 1], calls[|calls| - 1];
      assert c in calls && forall x :: x in before ==> x in calls;
      UniformCost(counts, before, cost);
    }
  }

  function Times(cost: nat, n: nat): nat {
    if n == 0 then 0 else Times(cost, n - 1) + cost
  }

  lemma {:induction false} TimesIs(cost: nat, n: nat)
    ensures Times(cost, n) == cost * n
  {
    if n > 0 {
      TimesIs(cost, n - 1);
      assert cost * n == cost * (n - 1) + cost;
    }
  }

  /** With one cost c for all, an interval holds at most limit - c + 1 admissions, and so c times as much cost. */
  lemma UniformBound(limit: int, window: nat, calls: seq<Call>, cost: nat, t: nat)
    requires Clocked(calls) && window > 0 && Uniform(calls, cost) && cost >= 1
    ensures CountIn(Run(limit, window, calls).log, window, t) <= Cap(limit - cost + 1)
    ensures CostIn(limit, window, calls, t) <= cost * Cap(limit - cost + 1)
  {
    UniformCount(limit, window, calls, cost, t);
    UniformCost(Within(limit, window, t), calls, cost);
    var n := Admitted(limit, window, calls, t);
    AdmittedIsCount(limit, window, calls, t);
    TimesIs(cost, n);
    TimesMonotone(cost, n, Cap(limit - cost + 1));
  }

  lemma UnitsClocked(calls: seq<Call>)
    requires Clocked(calls)
    ensures Clocked(Units(calls))
  {
    forall i, j | 0 <= i <= j < |calls| ensures Units(calls)[i].now <= Units(calls)[j].now {
      assert calls[i].now <= calls[j].now;
    }
  }

  lemma UniformCount(limit: int, window: nat, calls: seq<Call>, cost: nat, t: nat)
    requires Clocked(calls) && window > 0 && Uniform(calls, cost) && cost >= 1
    ensures CountIn(Run(limit, window, calls).log, window, t) <= Cap(limit - cost + 1)
  {
    UniformIsUnit(limit, window, calls, cost);
    UnitsClocked(calls);
    AtMostLimit(limit - cost + 1, window, Units(calls), t);
  }

  lemma TimesMonotone(cost: nat, m: nat, n: nat)
    requires m <= n
    ensures cost * m <= cost * n
  {
  }

  function Repeat(cost: nat, n: nat, t: nat): (r: seq<Call>)
    ensures |r| == n && (forall c :: c in r ==> c.now == t) && Uniform(r, cost)
  {
    if n == 0 then [] else Repeat(cost, n - 1, t) + [Call(cost, t)]
  }

  lemma {:induction false} RepeatAdmitted(limit: int, window: nat, cost: nat, n: nat, t: nat)
    requires window > 0 && cost >= 1 && n <= limit - cost + 1
    ensures CostIn(limit, window, Repeat(cost, n, t), t) == Times(cost, n)
  {
    if n > 0 {
      var before, c := Repeat(cost, n - 1, t), Call(cost, t);
      RepeatAdmitted(limit, window, cost, n - 1, t);
      RoomAt(limit, window, before, c, t);
      CostSnoc(limit, window, before, c, t);
    }
  }

  lemma Factors(limit: nat, cost: nat)
    requires 1 <= cost <= limit + 1
    ensures cost * (limit - cost + 1) - limit == (cost - 1) * (limit - cost)
  {
  }

  /** Calls of one cost c can exceed the limit in a window exactly if 1 < c < limit. */
  lemma UniformExceedsExactlyWhen(limit: nat, window: nat, cost: nat)
    requires window > 0 && cost >= 1
    ensures (exists calls, t :: Clocked(calls) && Uniform(calls, cost) && CostIn(limit, window, calls, t) > limit)
       <==> 1 < cost < limit
  {
    if 1 < cost < limit {
      var n := limit - cost + 1;
      var calls := Repeat(cost, n, 0);
      SameTimeClocked(calls, 0);
      RepeatAdmitted(limit, window, cost, n, 0);
      TimesIs(cost, n);
      Factors(limit, cost);
      Positive(cost - 1, limit - cost);
      assert CostIn(limit, window, calls, 0) > limit;
    } else {
      forall calls, t: nat | Clocked(calls) && Uniform(calls, cost) ensures CostIn(limit, window, calls, t) <= limit {
        UniformBound(limit, window, calls, cost, t);
        if cost <= limit {
          Factors(limit, cost);
          assert cost == 1 || cost == limit;
        }
      }
    }
  }

  lemma Positive(a: int, b: int)
    requires a > 0 && b > 0
    ensures a * b > 0
  {
  }
}

/**
  The token-per-minute path of internal/gateway/middleware/rate_limit.go: tokens are recorded after a
  request, under a limit raised by those tokens, and checked before one at no cost. Both see the number of
  records only.
 */
module TokensPerMinute {
  import opened Common
  import opened RateLimiter
  import CostLimits

  datatype Event = Record(tokens: int, now: nat) | Check(now: nat)

  /** What an event does to the key of its minute. */
  function Step(tpm: int, s: KeyState, e: Event): KeyState {
    match e
    case Record(tokens, now) => if tokens == 0 then s else Script(s, tpm + tokens, MINUTE, tokens, now).0
    case Check(now) => if tpm <= 0 then s else Script(s, tpm, MINUTE, 0, now).0
  }

  function StateAfter(tpm: int, events: seq<Event>): KeyState {
    if events == [] then FRESH else Step(tpm, StateAfter(tpm, events[..|events| - 1]), events[|events| - 1])
  }

  /** A record that the script writes. */
  predicate Writes(tpm: int, s: KeyState, e: Event) {
    e.Record? && e.tokens > 0 && Script(s, tpm + e.tokens, MINUTE, e.tokens, e.now).1.allowed
  }

  /** Does CheckTPM refuse the request? */
  predicate Blocked(tpm: int, s: KeyState, now: nat) {
    tpm > 0 && !Script(s, tpm, MINUTE, 0, now).1.allowed
  }

  method RecordTPM(limiter: RedisLimiter, key: string, tpm: Option<int>, tokens: int, now: nat)
    modifies limiter
    ensures tpm.None? ==> limiter.keys == old(limiter.keys)
    ensures tpm.Some? ==> limiter.StateOf(key) == Step(tpm.value, old(limiter.StateOf(key)), Record(tokens, now))
    ensures forall k :: k != key ==> limiter.StateOf(k) == old(limiter.StateOf(k))
  {
    if tpm.None? || tokens == 0 {
      return;
    }
    var r := limiter.Allow(key, tpm.value + tokens, tokens, MINUTE, now);
  }

  method CheckTPM(limiter: RedisLimiter, key: string, tpm: Option<int>, now: nat) returns (blocked: bool)
    modifies limiter
    ensures blocked == (tpm.Some? && Blocked(tpm.value, old(limiter.StateOf(key)), now))
    ensures tpm.None? ==> limiter.keys == old(limiter.keys)
    ensures tpm.Some? ==> limiter.StateOf(key) == Step(tpm.value, old(limiter.StateOf(key)), Check(now))
    ensures forall k :: k != key ==> limiter.StateOf(k) == old(limiter.StateOf(k))
  {
    if tpm.None? || tpm.value <= 0 {
      return false;
    }
    var r := limiter.Allow(key, tpm.value, 0, MINUTE, now);
    blocked := !r.allowed;
  }

  // ----- what the limit limits

  predicate Clocked(events: seq<Event>) {
    forall i, j :: 0 <= i <= j < |events| ==> events[i].now <= events[j].now
  }

  /** How many records written lie in (t - MINUTE, t]. */
  function RecordsIn(tpm: int, events: seq<Event>, t: nat): nat {
    if events == [] then 0
    else
      var before, e := events[..|events| - 1], events[|events| - 1];
      RecordsIn(tpm, before, t)
      + if t - MINUTE < e.now <= t && Writes(tpm, StateAfter(tpm, before), e) then 1 else 0
  }

  /** The tokens of those records. */
  function TokensIn(tpm: int, events: seq<Event>, t: nat): int {
    if events == [] then 0
    else
      var before, e := events[..|events| - 1], events[|events| - 1];
      TokensIn(tpm, before, t)
      + if t - MINUTE < e.now <= t && Writes(tpm, StateAfter(tpm, before), e) then e.tokens else 0
  }

  /** Seen by the script, a record is a call of cost 1 under the limit tpm + 1, and a check one of cost 0. */
  function AsCall(e: Event): Call {
    Call(if e.Record? && e.tokens > 0 then 1 else 0, e.now)
  }

  /** Events that make no call. */
  predicate Idle(tpm: int, e: Event) {
    match e
    case Record(tokens, _) => tokens == 0
    case Check(_) => tpm <= 0
  }

  function AsCalls(tpm: int, events: seq<Event>): seq<Call> {
    if events == [] then []
    else
      var e := events[|events| - 1];
      AsCalls(tpm, events[..|events| - 1]) + if Idle(tpm, e) then [] else [AsCall(e)]
  }

  lemma SameStep(tpm: int, s: KeyState, e: Event)
    requires !Idle(tpm, e)
    ensures Step(tpm, s, e) == Script(s, tpm + 1, MINUTE, AsCall(e).cost, e.now).0
    ensures Writes(tpm, s, e) <==> Admission(s, tpm + 1, MINUTE, AsCall(e)) != []
  {
  }

  /** The token counts make no difference: the events are a run of unit calls under the limit tpm + 1. */
  lemma {:induction false} TokensIgnored(tpm: int, events: seq<Event>, t: nat)
    ensures StateAfter(tpm, events) == Run(tpm + 1, MINUTE, AsCalls(tpm, events)).state
    ensures RecordsIn(tpm, events, t) == CountIn(Run(tpm + 1, MINUTE, AsCalls(tpm, events)).log, MINUTE, t)
  {
    if events != [] {
      var before, e := events[..|events| - 1], events[|events| - 1];
      TokensIgnored(tpm, before, t);
      if Idle(tpm, e) {
        assert AsCalls(tpm, events) == AsCalls(tpm, before);
      } else {
        SameStep(tpm, StateAfter(tpm, before), e);
        CostLimits.CountSnoc(tpm + 1, MINUTE, AsCalls(tpm, before), AsCall(e), t);
        RunSnoc(tpm + 1, AsCalls(tpm, before), AsCall(e));
      }
    }
  }

  lemma RunSnoc(limit: int, calls: seq<Call>, c: Call)
    ensures Run(limit, MINUTE, calls + [c]).state
         == Script(Run(limit, MINUTE, calls).state, limit, MINUTE, c.cost, c.now).0
  {
    assert (calls + [c])[..|calls|] == calls;
  }

  lemma {:induction false} AsCallsClocked(tpm: int, events: seq<Event>)
    requires Clocked(events)
    ensures RateLimiter.Clocked(AsCalls(tpm, events))
    ensures forall c :: c in AsCalls(tpm, events) ==> events != [] && c.now <= events[|events| - 1].now
  {
    if events != [] {
      var before, e := events[..|events| - 1], events[|events| - 1];
      AsCallsClocked(tpm, before);
      var calls := AsCalls(tpm, before);
      assert forall i :: 0 <= i < |calls| ==> calls[i] in calls;
      assert before != [] ==> before[|before| - 1].now <= e.now;
    }
  }

  /**
    What is limited is requests. Whatever the token counts: a check is refused if and only if more than
    TPMLimit records were written in the last minute, and no minute ever holds more than TPMLimit + 1.
   */
  lemma BlocksExactlyWhen(tpm: int, events: seq<Event>, now: nat)
    requires Clocked(events + [Check(now)])
    ensures Blocked(tpm, StateAfter(tpm, events), now) <==> tpm > 0 && RecordsIn(tpm, events, now) > tpm
    ensures RecordsIn(tpm, events, now) <= Cap(tpm + 1)
  {
    var all := events + [Check(now)];
    assert Clocked(events) by {
      assert forall i :: 0 <= i < |events| ==> events[i] == all[i];
    }
    assert all[|events|] == Check(now) && (events != [] ==> all[|events| - 1] == events[|events| - 1]);
    TokensIgnored(tpm, events, now);
    AsCallsClocked(tpm, events);
    var calls := AsCalls(tpm, events);
    AtMostLimit(tpm + 1, MINUTE, calls, now);
    assert calls != [] ==> calls[|calls| - 1] in calls;
    PeekCounts(tpm, calls, now);
  }

  lemma PeekCounts(tpm: int, calls: seq<Call>, now: nat)
    requires RateLimiter.Clocked(calls) && Last(calls) <= now
    ensures var o := Run(tpm + 1, MINUTE, calls);
            Script(o.state, tpm, MINUTE, 0, now).1.allowed <==> CountIn(o.log, MINUTE, now) <= tpm
  {
    CostLimits.WindowCount(tpm + 1, MINUTE, calls, now);
  }

  /** Tokens are not: with any limit of at least 1, any number of them can lie in a minute and the next check pass. */
  lemma TokensUnbounded(tpm: int, tokens: nat, now: nat)
    requires tpm >= 1 && tokens > 0
    ensures var events := [Record(tokens, now)];
            TokensIn(tpm, events, now) == tokens && !Blocked(tpm, StateAfter(tpm, events), now)
  {
    var events := [Record(tokens, now)];
    assert events[..0] == [];
    BlocksExactlyWhen(tpm, events, now);
    assert StateAfter(tpm, events[..0]) == FRESH;
    assert Prune(Live(FRESH, now), MINUTE, now).zset == {};
  }
}
