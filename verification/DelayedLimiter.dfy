/**
  The limiter with two clocks. internal/ratelimit/redis_limiter.go reads the time before it sends the script,
  so scripts may run out of the order of their readings; Redis expires keys by its own clock. With readings
  at most `delay` behind that clock, the window the script enforces shrinks by the delay, and no more.
 */
module DelayedLimiter {
  import opened Common
  import opened RateLimiter

  /** A call: the reading it was sent with, and the server's time when its script runs. */
  datatype Arrival = Arrival(cost: int, now: nat, at: nat)

  function AddAt(s: KeyState, window: nat, now: nat, at: nat): KeyState {
    var id := (if s.counter.Some? then s.counter.value else 0) + 1;
    KeyState(s.zset + {Member(now, id)}, Some(at + Ttl(window)), Some(id), Some(at + Ttl(window)))
  }

  /** One run of the script: expiry goes by the server's clock, everything else by the reading. */
  function ScriptAt(s: KeyState, limit: int, window: nat, a: Arrival): (KeyState, bool) {
    var k := Prune(Live(s, a.at), window, a.now);
    if |k.zset| + a.cost <= limit then (if a.cost > 0 then AddAt(k, window, a.now, a.at) else k, true)
    else (k, false)
  }

  /** The call is let through and leaves a member. */
  predicate Admits(s: KeyState, limit: int, window: nat, a: Arrival) {
    a.cost > 0 && ScriptAt(s, limit, window, a).1
  }

  /** With both clocks the same it is the script of RateLimiter. */
  lemma OneClock(s: KeyState, limit: int, window: nat, cost: int, now: nat)
    ensures ScriptAt(s, limit, window, Arrival(cost, now, now))
         == (Script(s, limit, window, cost, now).0, Script(s, limit, window, cost, now).1.allowed)
  {
  }

  /** An admission: its reading, the server's time, and the number it was given. */
  datatype Entry = Entry(now: nat, at: nat, id: nat)

  function Name(e: Entry): Member {
    Member(e.now, e.id)
  }

  datatype Progress = Progress(state: KeyState, log: seq<Entry>)

  function Run(limit: int, window: nat, calls: seq<Arrival>): Progress {
    if calls == [] then Progress(FRESH, [])
    else After(Run(limit, window, calls[..|calls| - 1]), limit, window, calls[|calls| - 1])
  }

  function After(o: Progress, limit: int, window: nat, a: Arrival): Progress {
    var (s, allowed) := ScriptAt(o.state, limit, window, a);
    Progress(s, o.log + if allowed && a.cost > 0 then [Entry(a.now, a.at, s.counter.value)] else [])
  }

  /** The server's clock never goes back, and a script runs at most `delay` after its reading. */
  predicate Timely(calls: seq<Arrival>, delay: nat) {
    && (forall i :: 0 <= i < |calls| ==> calls[i].now <= calls[i].at <= calls[i].now + delay)
    && (forall i, j :: 0 <= i <= j < |calls| ==> calls[i].at <= calls[j].at)
  }

  // ----- what every run keeps

  ghost predicate LogOk(log: seq<Entry>, clock: nat) {
    && (forall i :: 0 <= i < |log| ==> log[i].now <= log[i].at)
    && (forall i, j :: 0 <= i <= j < |log| ==> log[i].at <= log[j].at <= clock)
  }

  /** Every reading that no reading so far can have pruned is in the set. */
  ghost predicate Kept(o: Progress, window: nat, clock: nat) {
    forall e :: e in o.log && e.now > clock - window ==> Name(e) in o.state.zset
  }

  /** Entries within one lifetime of the counter have different numbers. */
  ghost predicate Numbered(log: seq<Entry>, window: nat) {
    forall i, j :: 0 <= i < j < |log| && log[j].at <= log[i].at + Ttl(window) ==> log[i].id < log[j].id
  }

  /** Both expiries go by the last entry; a living counter is at least every number given out in its lifetime. */
  ghost predicate Expiring(o: Progress, window: nat, clock: nat) {
    && (o.state.zsetExpires.Some? ==> o.log != [] && o.state.zsetExpires.value == o.log[|o.log| - 1].at + Ttl(window))
    && (o.log != [] && clock <= o.log[|o.log| - 1].at + Ttl(window) ==>
          o.state.counter.Some? && o.state.counterExpires == Some(o.log[|o.log| - 1].at + Ttl(window)))
    && (forall e :: e in o.log && clock <= e.at + Ttl(window) ==>
          o.state.counter.Some? && e.id <= o.state.counter.value)
  }

  ghost predicate Inv(o: Progress, window: nat, clock: nat) {
    LogOk(o.log, clock) && Kept(o, window, clock) && Numbered(o.log, window) && Expiring(o, window, clock)
  }

  lemma TtlLonger(window: nat)
    ensures Ttl(window) > window
  {
  }

  /** Expiry drops no member a reading could still count. */
  lemma LiveKeeps(o: Progress, window: nat, t: nat, clock: nat)
    requires Inv(o, window, t) && t <= clock
    ensures Inv(Progress(Live(o.state, clock), o.log), window, clock)
  {
    TtlLonger(window);
    forall e | e in o.log && e.now > clock - window ensures Name(e) in Live(o.state, clock).zset {
      var i :| 0 <= i < |o.log| && o.log[i] == e;
      assert e.at <= o.log[|o.log| - 1].at;
    }
    forall e | e in o.log && clock <= e.at + Ttl(window)
      ensures Live(o.state, clock).counter.Some? && e.id <= Live(o.state, clock).counter.value
    {
      var i :| 0 <= i < |o.log| && o.log[i] == e;
      assert e.at <= o.log[|o.log| - 1].at;
    }
  }

  /** Pruning by a reading that is not ahead of the clock keeps it too. */
  lemma PruneKeeps(o: Progress, window: nat, clock: nat, now: nat)
    requires Inv(o, window, clock) && now <= clock
    ensures Inv(Progress(Prune(o.state, window, now), o.log), window, clock)
  {
  }

  lemma AddKeeps(o: Progress, window: nat, now: nat, at: nat)
    requires Inv(o, window, at) && now <= at && Live(o.state, at) == o.state
    ensures var s := AddAt(o.state, window, now, at);
            Inv(Progress(s, o.log + [Entry(now, at, s.counter.value)]), window, at)
  {
    var s := AddAt(o.state, window, now, at);
    var e := Entry(now, at, s.counter.value);
    NumbersGrow(o, window, e);
    assert forall x :: x in o.log + [e] ==> x in o.log || x == e;
  }

  lemma NumbersGrow(o: Progress, window: nat, e: Entry)
    requires Inv(o, window, e.at) && Live(o.state, e.at) == o.state
    requires e.id == (if o.state.counter.Some? then o.state.counter.value else 0) + 1
    ensures Numbered(o.log + [e], window)
  {
    forall i | 0 <= i < |o.log| && e.at <= o.log[i].at + Ttl(window) ensures o.log[i].id < e.id {
      assert o.log[i] in o.log;
    }
  }

  lemma LiveTwice(s: KeyState, window: nat, now: nat, at: nat)
    ensures var k := Prune(Live(s, at), window, now); Live(k, at) == k
  {
  }

  lemma CallKeeps(o: Progress, limit: int, window: nat, t: nat, a: Arrival)
    requires Inv(o, window, t) && t <= a.at && a.now <= a.at
    ensures Inv(After(o, limit, window, a), window, a.at)
  {
    LiveKeeps(o, window, t, a.at);
    PruneKeeps(Progress(Live(o.state, a.at), o.log), window, a.at, a.now);
    LiveTwice(o.state, window, a.now, a.at);
    var k := Prune(Live(o.state, a.at), window, a.now);
    if |k.zset| + a.cost <= limit && a.cost > 0 {
      AddKeeps(Progress(k, o.log), window, a.now, a.at);
    } else {
      assert o.log + [] == o.log;
    }
  }

  function Clock(calls: seq<Arrival>): nat {
    if calls == [] then 0 else calls[|calls| - 1].at
  }

  lemma {:induction false} RunInv(limit: int, window: nat, calls: seq<Arrival>, delay: nat)
    requires Timely(calls, delay)
    ensures Inv(Run(limit, window, calls), window, Clock(calls))
  {
    if calls != [] {
      var before, a := calls[..|calls| - 1], calls[|calls| - 1];
      RunInv(limit, window, before, delay);
      CallKeeps(Run(limit, window, before), limit, window, Clock(before), a);
    }
  }

  // ----- at most `limit` admissions in any window shortened by the delay

  predicate Inside(e: Entry, length: nat, t: nat) {
    t - length < e.now <= t
  }

  function CountIn(log: seq<Entry>, length: nat, t: nat): nat {
    if log == [] then 0
    else CountIn(log[..|log| - 1], length, t) + if Inside(log[|log| - 1], length, t) then 1 else 0
  }

  function NamesIn(log: seq<Entry>, length: nat, t: nat): set<Member> {
    set e | e in log && Inside(e, length, t) :: Name(e)
  }

  /** Names differ between entries of an interval. */
  ghost predicate Distinct(log: seq<Entry>, length: nat, t: nat) {
    forall i, j :: 0 <= i < j < |log| && Inside(log[i], length, t) && Inside(log[j], length, t) ==>
      Name(log[i]) != Name(log[j])
  }

  lemma {:induction false} CountIsSize(log: seq<Entry>, length: nat, t: nat)
    requires Distinct(log, length, t)
    ensures CountIn(log, length, t) == |NamesIn(log, length, t)|
  {
    if log == [] {
      assert NamesIn(log, length, t) == {};
    } else {
      var rest, last := log[..|log| - 1], log[|log| - 1];
      CountIsSize(rest, length, t);
      assert log == rest + [last];
      NamesSnoc(rest, last, length, t);
      if Inside(last, length, t) {
        assert Name(last) !in NamesIn(rest, length, t);
      }
    }
  }

  lemma NamesSnoc(log: seq<Entry>, last: Entry, length: nat, t: nat)
    ensures NamesIn(log + [last], length, t)
         == NamesIn(log, length, t) + if Inside(last, length, t) then {Name(last)} else {}
  {
    assert forall e :: e in log + [last] <==> e in log || e == last;
  }

  /** An admission in an interval of that length finds all earlier ones of the interval still in the set. */
  lemma RoomInside(o: Progress, limit: int, window: nat, delay: nat, clock: nat, a: Arrival, t: nat)
    requires Inv(o, window, clock) && clock <= a.at && a.now <= a.at <= a.now + delay && delay <= window
    requires Admits(o.state, limit, window, a) && t - (window - delay) < a.now <= t
    ensures CountIn(o.log, window - delay, t) < limit
  {
    var length := window - delay;
    var k := Prune(Live(o.state, a.at), window, a.now);
    assert Distinct(o.log, length, t) by {
      InsideDistinct(o, window, length, t, a);
    }
    CountIsSize(o.log, length, t);
    StillThere(o, window, delay, clock, a, t);
    SubsetSize(NamesIn(o.log, length, t), k.zset);
  }

  lemma StillThere(o: Progress, window: nat, delay: nat, clock: nat, a: Arrival, t: nat)
    requires Inv(o, window, clock) && clock <= a.at && a.now <= a.at <= a.now + delay && delay <= window
    requires t - (window - delay) < a.now <= t
    ensures NamesIn(o.log, window - delay, t) <= Prune(Live(o.state, a.at), window, a.now).zset
  {
    LiveKeeps(o, window, clock, a.at);
    forall m | m in NamesIn(o.log, window - delay, t) ensures m in Prune(Live(o.state, a.at), window, a.now).zset {
      var e :| e in o.log && Inside(e, window - delay, t) && Name(e) == m;
      assert e.now > a.at - window;
    }
  }

  lemma InsideDistinct(o: Progress, window: nat, length: nat, t: nat, a: Arrival)
    requires LogOk(o.log, a.at) && Numbered(o.log, window) && length <= window
    requires a.now <= t && a.at - a.now <= window - length && t - length < a.now
    ensures Distinct(o.log, length, t)
  {
    TtlLonger(window);
  }

  /**
    Over every timely run, every interval (t - (window - delay), t] of readings contains at most `limit`
    admissions. Without delay that is the whole window.
   */
  lemma {:induction false} AtMostLimit(limit: int, window: nat, calls: seq<Arrival>, delay: nat, t: nat)
    requires Timely(calls, delay) && delay <= window
    ensures CountIn(Run(limit, window, calls).log, window - delay, t) <= Cap(limit)
  {
    if calls != [] {
      var before, a := calls[..|calls| - 1], calls[|calls| - 1];
      AtMostLimit(limit, window, before, delay, t);
      RunInv(limit, window, before, delay);
      StepBound(Run(limit, window, before), limit, window, delay, Clock(before), a, t);
    }
  }

  lemma StepBound(o: Progress, limit: int, window: nat, delay: nat, clock: nat, a: Arrival, t: nat)
    requires Inv(o, window, clock) && clock <= a.at && a.now <= a.at <= a.now + delay && delay <= window
    requires CountIn(o.log, window - delay, t) <= Cap(limit)
    ensures CountIn(After(o, limit, window, a).log, window - delay, t) <= Cap(limit)
  {
    CountStep(o, limit, window, a, window - delay, t);
    if Admits(o.state, limit, window, a) && t - (window - delay) < a.now <= t {
      RoomInside(o, limit, window, delay, clock, a, t);
    }
  }

  lemma CountStep(o: Progress, limit: int, window: nat, a: Arrival, length: nat, t: nat)
    ensures CountIn(After(o, limit, window, a).log, length, t)
         == CountIn(o.log, length, t)
            + if Admits(o.state, limit, window, a) && t - length < a.now <= t then 1 else 0
  {
    var log := After(o, limit, window, a).log;
    if Admits(o.state, limit, window, a) {
      assert log[..|o.log|] == o.log;
    } else {
      assert log == o.log;
    }
  }

  // ----- the interval cannot be longer

  lemma {:induction false} SetFromLog(limit: int, window: nat, calls: seq<Arrival>)
    ensures |Run(limit, window, calls).state.zset| <= |Run(limit, window, calls).log|
  {
    if calls != [] {
      var before, a := calls[..|calls| - 1], calls[|calls| - 1];
      SetFromLog(limit, window, before);
      PrunedSmaller(Run(limit, window, before).state, window, a.now, a.at);
    }
  }

  lemma PrunedSmaller(s: KeyState, window: nat, now: nat, at: nat)
    ensures |Prune(Live(s, at), window, now).zset| <= |s.zset|
  {
    SubsetSize(Prune(Live(s, at), window, now).zset, s.zset);
  }

  /** n unit calls, sent and run at time a. */
  function Burst(n: nat, a: nat): (r: seq<Arrival>)
    ensures |r| == n && forall x :: x in r ==> x == Arrival(1, a, a)
  {
    if n == 0 then [] else Burst(n - 1, a) + [Arrival(1, a, a)]
  }

  /** n admissions, all at time a and all counted, and nothing else in the set. */
  ghost predicate Filled(o: Progress, n: nat, a: nat, length: nat, t: nat) {
    |o.log| == n && CountIn(o.log, length, t) == n && forall m :: m in o.state.zset ==> m.time == a
  }

  lemma {:induction false} BurstAdmitted(limit: int, window: nat, n: nat, a: nat, length: nat, t: nat)
    requires n <= limit && t - length < a <= t
    ensures Filled(Run(limit, window, Burst(n, a)), n, a, length, t)
  {
    if n > 0 {
      var before, call := Burst(n - 1, a), Arrival(1, a, a);
      BurstAdmitted(limit, window, n - 1, a, length, t);
      SetFromLog(limit, window, before);
      RunSnoc(limit, window, before, call);
      assert Burst(n, a) == before + [call];
      BurstStep(Run(limit, window, before), limit, window, call, n - 1, length, t);
    }
  }

  lemma BurstStep(o: Progress, limit: int, window: nat, call: Arrival, n: nat, length: nat, t: nat)
    requires call.cost == 1 && |o.state.zset| <= n < limit && t - length < call.now <= t
    requires Filled(o, n, call.now, length, t)
    ensures Filled(After(o, limit, window, call), n + 1, call.now, length, t)
  {
    PrunedSmaller(o.state, window, call.now, call.at);
    CountStep(o, limit, window, call, length, t);
  }

  lemma FillingBurst(limit: nat, window: nat, a: nat, length: nat, t: nat) returns (calls: seq<Arrival>)
    requires t - length < a <= t
    ensures Filled(Run(limit, window, calls), limit, a, length, t)
    ensures forall i :: 0 <= i < |calls| ==> calls[i] == Arrival(1, a, a)
  {
    calls := Burst(limit, a);
    BurstAdmitted(limit, window, limit, a, length, t);
    assert forall i :: 0 <= i < |calls| ==> calls[i] in calls;
  }

  /**
    The interval cannot be longer by even a millisecond: limit calls, a peek one window later that prunes
    them, and a call whose reading is `delay` behind the peek's are all let through.
   */
  lemma DelayTight(limit: nat, window: nat, delay: nat, a: nat) returns (calls: seq<Arrival>)
    requires limit >= 1 && 1 <= delay <= window
    ensures Timely(calls, delay)
    ensures CountIn(Run(limit, window, calls).log, window - delay + 1, a + window - delay) == limit + 1
  {
    var length, t := window - delay + 1, a + window - delay;
    var first := FillingBurst(limit, window, a, length, t);
    var peek, last := Arrival(0, a + window, a + window), Arrival(1, t, a + window);
    calls := OvertakenFrom(limit, window, first, peek, last, a, length);
    OvertakenTimely(first, peek, last, a, window, delay);
  }

  lemma OvertakenTimely(first: seq<Arrival>, peek: Arrival, last: Arrival, a: nat, window: nat, delay: nat)
    requires delay <= window && forall i :: 0 <= i < |first| ==> first[i] == Arrival(1, a, a)
    requires peek == Arrival(0, a + window, a + window) && last == Arrival(1, a + window - delay, a + window)
    ensures Timely(first + [peek] + [last], delay)
  {
  }

  lemma RunSnoc(limit: int, window: nat, calls: seq<Arrival>, call: Arrival)
    ensures Run(limit, window, calls + [call]) == After(Run(limit, window, calls), limit, window, call)
  {
    assert (calls + [call])[..|calls|] == calls;
  }

  lemma OvertakenFrom(limit: nat, window: nat, first: seq<Arrival>, peek: Arrival, last: Arrival, a: nat, length: nat)
    returns (calls: seq<Arrival>)
    requires limit >= 1 && length > 0 && Filled(Run(limit, window, first), limit, a, length, last.now)
    requires peek == Arrival(0, a + window, a + window) && last.cost == 1
    ensures calls == first + [peek] + [last] && CountIn(Run(limit, window, calls).log, length, last.now) == limit + 1
  {
    calls := first + [peek] + [last];
    RunSnoc(limit, window, first, peek);
    RunSnoc(limit, window, first + [peek], last);
    OvertakenLast(Run(limit, window, first), limit, window, peek, last, a, length);
  }

  lemma OvertakenLast(o: Progress, limit: nat, window: nat, peek: Arrival, last: Arrival, a: nat, length: nat)
    requires limit >= 1 && length > 0 && (forall m :: m in o.state.zset ==> m.time == a)
    requires peek == Arrival(0, a + window, a + window) && last.cost == 1
    ensures CountIn(After(After(o, limit, window, peek), limit, window, last).log, length, last.now)
         == CountIn(o.log, length, last.now) + 1
  {
    CountStep(o, limit, window, peek, length, last.now);
    CountStep(After(o, limit, window, peek), limit, window, last, length, last.now);
    LetThrough(o, limit, window, peek, last, a);
  }

  lemma LetThrough(o: Progress, limit: nat, window: nat, peek: Arrival, last: Arrival, a: nat)
    requires limit >= 1 && (forall m :: m in o.state.zset ==> m.time == a)
    requires peek == Arrival(0, a + window, a + window) && last.cost == 1
    ensures ScriptAt(After(o, limit, window, peek).state, limit, window, last).1
  {
    Emptied(o.state, window, a);
    PrunedSmaller(After(o, limit, window, peek).state, window, last.now, last.at);
  }

  /** Members of time a are gone for a reading one window later, and stay gone. */
  lemma Emptied(s: KeyState, window: nat, a: nat)
    requires forall m :: m in s.zset ==> m.time == a
    ensures Prune(Live(s, a + window), window, a + window).zset == {}
  {
  }
}
