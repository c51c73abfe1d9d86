/**
  The budget protocol of internal/gateway/middleware/budget_check.go over internal/budget/manager.go:
  check every budget of the key, serve, then record the cost on every budget. Each budget's counter is
  read and incremented on its own, so requests interleave between any two of these operations.
 */
module BudgetCheck {
  import opened Common

  /** The key's budgets: the hard limit of each, if it has one. */
  type Limits = seq<Option<real>>

  /** Where a request is: about to check budget `next`, being served, about to record on budget `next`, or finished. */
  datatype Phase =
    | Checking(next: nat)
    | Serving
    | Recording(cost: real, next: nat)
    | Done
    | Rejected(at: nat)

  /** `passed[b]` tells whether any request has ever passed the check of budget b. */
  datatype State = State(spend: seq<real>, passed: seq<bool>, requests: map<int, Phase>)

  datatype Step =
    | Arrive(id: int)
    | Check(id: int)
    | Serve(id: int, cost: real)
    | Record(id: int)

  predicate Shaped(ls: Limits, s: State) {
    |s.spend| == |s.passed| == |ls|
  }

  predicate Enabled(ls: Limits, s: State, step: Step) {
    && Shaped(ls, s)
    && match step
       case Arrive(id) => id !in s.requests
       case Check(id) => id in s.requests && s.requests[id].Checking? && s.requests[id].next <= |ls|
       case Serve(id, _) => id in s.requests && s.requests[id].Serving?
       case Record(id) => id in s.requests && s.requests[id].Recording? && s.requests[id].next < |ls|
  }

  /** One turn of CheckBudget's loop. */
  function AfterCheck(ls: Limits, spend: seq<real>, b: nat): Phase
    requires b <= |ls| == |spend|
  {
    if b == |ls| then Serving
    else if ls[b].Some? && spend[b] >= ls[b].value then Rejected(b)
    else Checking(b + 1)
  }

  function Apply(ls: Limits, s: State, step: Step): State
    requires Enabled(ls, s, step)
  {
    match step
    case Arrive(id) => s.(requests := s.requests[id := Checking(0)])
    case Check(id) =>
      var b := s.requests[id].next;
      var p := AfterCheck(ls, s.spend, b);
      s.(requests := s.requests[id := p], passed := if p.Checking? then s.passed[b := true] else s.passed)
    // a request that cost nothing records nothing
    case Serve(id, cost) =>
      s.(requests := s.requests[id := if cost == 0.0 || |ls| == 0 then Done else Recording(cost, 0)])
    // cache.IncrSpend for one budget
    case Record(id) =>
      var Recording(cost, b) := s.requests[id];
      s.(spend := s.spend[b := s.spend[b] + cost],
         requests := s.requests[id := if b + 1 == |ls| then Done else Recording(cost, b + 1)])
  }

  /** The request has passed budget b and not yet recorded its cost there. */
  predicate Exposes(p: Phase, b: nat) {
    match p
    case Checking(next) => b < next
    case Serving => true
    case Recording(_, next) => next <= b
    case _ => false
  }

  function Exposed(m: map<int, Phase>, b: nat): set<int> {
    set id | id in m && Exposes(m[id], b)
  }

  /** Between its first passed check and the end of its recording. */
  predicate InFlightPhase(p: Phase) {
    p.Serving? || p.Recording? || (p.Checking? && p.next > 0)
  }

  function InFlight(m: map<int, Phase>): set<int> {
    set id | id in m && InFlightPhase(m[id])
  }

  predicate CostsWithin(m: map<int, Phase>, c: real) {
    forall id :: id in m && m[id].Recording? ==> 0.0 <= m[id].cost <= c
  }

  /** The bound for budget b with hard limit h: what is counted and what is still out stay below h + k*c. */
  predicate Within(s: State, b: nat, h: real, k: nat, c: real)
    requires b < |s.spend|
  {
    s.spend[b] + |Exposed(s.requests, b)| as real * c < h + k as real * c
  }

  /** The invariant's clause for one budget. */
  ghost predicate BudgetOk(s: State, b: nat, h: real, start: real, k: nat, c: real) {
    && b < |s.spend| == |s.passed|
    && if s.passed[b] then Within(s, b, h, k, c) else s.spend[b] == start && Exposed(s.requests, b) == {}
  }

  ghost predicate Inv(ls: Limits, s: State, first: seq<real>, k: nat, c: real) {
    && Shaped(ls, s) && |first| == |ls|
    && CostsWithin(s.requests, c)
    && forall b :: 0 <= b < |ls| && ls[b].Some? ==> BudgetOk(s, b, ls[b].value, first[b], k, c)
  }

  // ----- one step

  lemma ScaleMonotone(m: nat, n: nat, c: real)
    requires m <= n && c >= 0.0
    ensures m as real * c <= n as real * c
  {
  }

  /** Replacing one phase changes the exposed set by at most that request. */
  lemma ExposedUpdate(m: map<int, Phase>, id: int, p: Phase, b: nat)
    ensures Exposed(m[id := p], b) == if Exposes(p, b) then Exposed(m, b) + {id} else Exposed(m, b) - {id}
  {
  }

  lemma ExposedInFlight(m: map<int, Phase>, b: nat)
    ensures |Exposed(m, b)| <= |InFlight(m)|
  {
    forall id | id in Exposed(m, b) ensures id in InFlight(m) {
      assert Exposes(m[id], b);
    }
    SubsetSize(Exposed(m, b), InFlight(m));
  }

  /** Passing the check: the counter was below the limit and at most k requests are out. */
  lemma PassStep(s: State, b: nat, h: real, k: nat, c: real)
    requires b < |s.spend| && s.spend[b] < h && c >= 0.0 && |InFlight(s.requests)| <= k
    ensures Within(s, b, h, k, c)
  {
    ExposedInFlight(s.requests, b);
    ScaleMonotone(|Exposed(s.requests, b)|, k, c);
  }

  /** Leaving the exposed set, with or without recording, keeps the bound. */
  lemma LeaveStep(s: State, s': State, b: nat, id: int, p: Phase, h: real, k: nat, c: real)
    requires b < |s.spend| == |s'.spend| && c >= 0.0 && Within(s, b, h, k, c)
    requires s'.requests == s.requests[id := p] && id in s.requests
    requires Exposes(p, b) ==> Exposes(s.requests[id], b)
    requires s'.spend[b] <= if Exposes(s.requests[id], b) && !Exposes(p, b) then s.spend[b] + c else s.spend[b]
    ensures Within(s', b, h, k, c)
  {
    ExposedUpdate(s.requests, id, p, b);
    var e, e' := Exposed(s.requests, b), Exposed(s'.requests, b);
    if Exposes(p, b) {
      assert e' == e;
    } else if id in e {
      assert |e'| == |e| - 1;
      assert |e'| as real * c == |e| as real * c - c;
    } else {
      assert e' == e;
    }
  }

  predicate CostOk(step: Step, c: real) {
    step.Serve? ==> 0.0 <= step.cost <= c
  }

  lemma ArriveStep(ls: Limits, s: State, id: int, b: nat, h: real, start: real, k: nat, c: real)
    requires Enabled(ls, s, Arrive(id)) && BudgetOk(s, b, h, start, k, c)
    ensures BudgetOk(Apply(ls, s, Arrive(id)), b, h, start, k, c)
  {
    ExposedUpdate(s.requests, id, Checking(0), b);
    assert Exposed(s.requests[id := Checking(0)], b) == Exposed(s.requests, b);
  }

  lemma CheckStep(ls: Limits, s: State, id: int, b: nat, start: real, k: nat, c: real)
    requires Enabled(ls, s, Check(id)) && c >= 0.0 && b < |ls| && ls[b].Some?
    requires BudgetOk(s, b, ls[b].value, start, k, c) && |InFlight(Apply(ls, s, Check(id)).requests)| <= k
    ensures BudgetOk(Apply(ls, s, Check(id)), b, ls[b].value, start, k, c)
  {
    var s' := Apply(ls, s, Check(id));
    var p := s'.requests[id];
    if s.requests[id].next == b && p.Checking? {
      PassStep(s', b, ls[b].value, k, c);
    } else if s.passed[b] {
      LeaveStep(s, s', b, id, p, ls[b].value, k, c);
    } else {
      Unexposed(s, s', b, id, p);
    }
  }

  lemma Unexposed(s: State, s': State, b: nat, id: int, p: Phase)
    requires Exposed(s.requests, b) == {} && id in s.requests && s'.requests == s.requests[id := p]
    requires Exposes(p, b) ==> Exposes(s.requests[id], b)
    ensures Exposed(s'.requests, b) == {}
  {
    ExposedUpdate(s.requests, id, p, b);
    assert id !in Exposed(s.requests, b);
  }

  lemma ServeStep(ls: Limits, s: State, id: int, cost: real, b: nat, h: real, start: real, k: nat, c: real)
    requires Enabled(ls, s, Serve(id, cost)) && c >= 0.0 && b < |ls| && BudgetOk(s, b, h, start, k, c)
    ensures BudgetOk(Apply(ls, s, Serve(id, cost)), b, h, start, k, c)
  {
    var s' := Apply(ls, s, Serve(id, cost));
    if s.passed[b] {
      LeaveStep(s, s', b, id, s'.requests[id], h, k, c);
    } else {
      Unexposed(s, s', b, id, s'.requests[id]);
    }
  }

  lemma RecordStep(ls: Limits, s: State, id: int, b: nat, h: real, start: real, k: nat, c: real)
    requires Enabled(ls, s, Record(id)) && c >= 0.0 && b < |ls| && BudgetOk(s, b, h, start, k, c)
    requires CostsWithin(s.requests, c)
    ensures BudgetOk(Apply(ls, s, Record(id)), b, h, start, k, c)
  {
    var s' := Apply(ls, s, Record(id));
    if s.passed[b] {
      LeaveStep(s, s', b, id, s'.requests[id], h, k, c);
    } else {
      Unexposed(s, s', b, id, s'.requests[id]);
      assert id !in Exposed(s.requests, b);
    }
  }

  lemma StepInv(ls: Limits, s: State, first: seq<real>, step: Step, k: nat, c: real)
    requires Enabled(ls, s, step) && CostOk(step, c) && c >= 0.0 && Inv(ls, s, first, k, c)
    requires |InFlight(Apply(ls, s, step).requests)| <= k
    ensures Inv(ls, Apply(ls, s, step), first, k, c)
  {
    forall b | 0 <= b < |ls| && ls[b].Some?
      ensures BudgetOk(Apply(ls, s, step), b, ls[b].value, first[b], k, c)
    {
      match step {
        case Arrive(id) => ArriveStep(ls, s, id, b, ls[b].value, first[b], k, c);
        case Check(id) => CheckStep(ls, s, id, b, first[b], k, c);
        case Serve(id, cost) => ServeStep(ls, s, id, cost, b, ls[b].value, first[b], k, c);
        case Record(id) => RecordStep(ls, s, id, b, ls[b].value, first[b], k, c);
      }
    }
  }

  // ----- runs

  /** Every step is enabled, costs at most c, and never leaves more than k requests in flight. */
  predicate Runs(ls: Limits, s: State, steps: seq<Step>, k: nat, c: real)
    decreases |steps|
  {
    steps == []
    || (&& Enabled(ls, s, steps[0]) && CostOk(steps[0], c)
        && |InFlight(Apply(ls, s, steps[0]).requests)| <= k
        && Runs(ls, Apply(ls, s, steps[0]), steps[1..], k, c))
  }

  function After(ls: Limits, s: State, steps: seq<Step>, k: nat, c: real): State
    requires Runs(ls, s, steps, k, c)
    decreases |steps|
  {
    if steps == [] then s else After(ls, Apply(ls, s, steps[0]), steps[1..], k, c)
  }

  lemma {:induction false} RunInv(ls: Limits, s: State, first: seq<real>, steps: seq<Step>, k: nat, c: real)
    requires c >= 0.0 && Runs(ls, s, steps, k, c) && Inv(ls, s, first, k, c)
    ensures Inv(ls, After(ls, s, steps, k, c), first, k, c)
    decreases |steps|
  {
    if steps != [] {
      StepInv(ls, s, first, steps[0], k, c);
      RunInv(ls, Apply(ls, s, steps[0]), first, steps[1..], k, c);
    }
  }

  /** The counters as seeded, nobody in flight. */
  function Init(spend: seq<real>): State {
    State(spend, seq(|spend|, _ => false), map[])
  }

  /**
    For every interleaving of at most k requests in flight, each costing at most c: once any request has
    passed a budget's check, the spend counted against it stays below the hard limit plus k*c. Until then
    it has not moved.
   */
  lemma OvershootBound(ls: Limits, spend: seq<real>, steps: seq<Step>, k: nat, c: real, b: nat)
    requires c >= 0.0 && |spend| == |ls| && Runs(ls, Init(spend), steps, k, c)
    requires b < |ls| && ls[b].Some?
    ensures var s := After(ls, Init(spend), steps, k, c);
            && Shaped(ls, s)
            && if s.passed[b] then s.spend[b] < ls[b].value + k as real * c else s.spend[b] == spend[b]
  {
    RunInv(ls, Init(spend), spend, steps, k, c);
    var s := After(ls, Init(spend), steps, k, c);
    ScaleMonotone(0, |Exposed(s.requests, b)|, c);
  }

  /**
    One request at a time overshoots by less than its own cost: whenever it records on a budget, the
    counter was below the limit just before.
   */
  lemma SequentialRecord(ls: Limits, spend: seq<real>, steps: seq<Step>, c: real, id: int)
    requires c >= 0.0 && |spend| == |ls| && Runs(ls, Init(spend), steps, 1, c)
    requires Enabled(ls, After(ls, Init(spend), steps, 1, c), Record(id))
    ensures var s := After(ls, Init(spend), steps, 1, c);
            var Recording(cost, b) := s.requests[id];
            ls[b].Some? ==> s.spend[b] < ls[b].value && Apply(ls, s, Record(id)).spend[b] < ls[b].value + cost
  {
    RunInv(ls, Init(spend), spend, steps, 1, c);
    var s := After(ls, Init(spend), steps, 1, c);
    var b := s.requests[id].next;
    assert id in Exposed(s.requests, b);
    if ls[b].Some? {
      assert BudgetOk(s, b, ls[b].value, spend[b], 1, c);
      SubsetSize({id}, Exposed(s.requests, b));
      ScaleMonotone(1, |Exposed(s.requests, b)|, c);
    }
  }

  /** So with one request at a time the counter stays below the limit plus the largest cost. */
  lemma SequentialOvershoot(ls: Limits, spend: seq<real>, steps: seq<Step>, c: real, b: nat)
    requires c >= 0.0 && |spend| == |ls| && Runs(ls, Init(spend), steps, 1, c)
    requires b < |ls| && ls[b].Some?
    ensures var s := After(ls, Init(spend), steps, 1, c);
            && Shaped(ls, s)
            && (s.passed[b] ==> s.spend[b] < ls[b].value + c)
  {
    OvershootBound(ls, spend, steps, 1, c, b);
  }

  // ----- the bound cannot be improved

  /** start with c added m times. */
  function Plus(start: real, m: nat, c: real): real {
    if m == 0 then start else Plus(start, m - 1, c) + c
  }

  lemma {:induction false} PlusIs(start: real, m: nat, c: real)
    ensures Plus(start, m, c) == start + m as real * c
  {
    if m > 0 {
      PlusIs(start, m - 1, c);
      assert m as real * c == (m - 1) as real * c + c;
    }
  }

  /** One budget, n requests admitted, the first m of them finished at cost c each. */
  function Midway(start: real, c: real, n: nat, m: nat): State {
    State([Plus(start, m, c)], [n > 0], map id | id in Interval(0, n) :: if id < m then Done else Serving)
  }

  lemma FewInFlight(s: State, k: nat)
    requires s.requests.Keys <= Interval(0, k)
    ensures |InFlight(s.requests)| <= k
  {
    SubsetSize(InFlight(s.requests), Interval(0, k));
  }

  lemma {:induction false} RunsAppend(ls: Limits, s: State, a: seq<Step>, b: seq<Step>, k: nat, c: real)
    requires Runs(ls, s, a, k, c) && Runs(ls, After(ls, s, a, k, c), b, k, c)
    ensures Runs(ls, s, a + b, k, c) && After(ls, s, a + b, k, c) == After(ls, After(ls, s, a, k, c), b, k, c)
    decreases |a|
  {
    if a == [] {
      assert a + b == b;
    } else {
      assert (a + b)[1..] == a[1..] + b;
      RunsAppend(ls, Apply(ls, s, a[0]), a[1..], b, k, c);
    }
  }

  /** Some run leads from s to t. */
  ghost predicate Reaches(ls: Limits, s: State, t: State, k: nat, c: real) {
    exists steps :: Runs(ls, s, steps, k, c) && After(ls, s, steps, k, c) == t
  }

  lemma Then(ls: Limits, s: State, t: State, step: Step, k: nat, c: real)
    requires Reaches(ls, s, t, k, c) && Enabled(ls, t, step) && CostOk(step, c)
    requires Apply(ls, t, step).requests.Keys <= Interval(0, k)
    ensures Reaches(ls, s, Apply(ls, t, step), k, c)
  {
    var a :| Runs(ls, s, a, k, c) && After(ls, s, a, k, c) == t;
    FewInFlight(Apply(ls, t, step), k);
    assert [step][1..] == [];
    RunsAppend(ls, s, a, [step], k, c);
  }

  lemma AdmitOne(h: real, start: real, n: nat, c: real)
    requires start < h
    ensures var ls, s: State := [Some(h)], Midway(start, c, n, 0);
            && Enabled(ls, s, Arrive(n))
            && var s1 := Apply(ls, s, Arrive(n));
               && Enabled(ls, s1, Check(n))
               && var s2 := Apply(ls, s1, Check(n));
                  && Enabled(ls, s2, Check(n)) && Apply(ls, s2, Check(n)) == Midway(start, c, n + 1, 0)
                  && s1.requests.Keys == s2.requests.Keys == Interval(0, n + 1)
  {
    var ls, s: State := [Some(h)], Midway(start, c, n, 0);
    var s2 := Apply(ls, Apply(ls, s, Arrive(n)), Check(n));
    assert Apply(ls, s2, Check(n)).requests == Midway(start, c, n + 1, 0).requests;
  }

  lemma FinishOne(h: real, start: real, m: nat, k: nat, c: real)
    requires m < k && c > 0.0
    ensures var ls, s: State := [Some(h)], Midway(start, c, k, m);
            && Enabled(ls, s, Serve(m, c))
            && var s1 := Apply(ls, s, Serve(m, c));
               && Enabled(ls, s1, Record(m)) && Apply(ls, s1, Record(m)) == Midway(start, c, k, m + 1)
               && s1.requests.Keys == Apply(ls, s1, Record(m)).requests.Keys == Interval(0, k)
  {
    var ls, s: State := [Some(h)], Midway(start, c, k, m);
    var s1 := Apply(ls, s, Serve(m, c));
    assert Apply(ls, s1, Record(m)).spend == [Plus(start, m + 1, c)];
    assert Apply(ls, s1, Record(m)).requests == Midway(start, c, k, m + 1).requests;
  }

  lemma KeysBelow(n: nat, k: nat)
    requires n <= k
    ensures Interval(0, n) <= Interval(0, k)
  {
  }

  /** n requests, one after the other, pass the check while the counter has not moved. */
  lemma {:induction false} AdmitAll(h: real, start: real, n: nat, k: nat, c: real)
    requires start < h && n <= k
    ensures Reaches([Some(h)], Init([start]), Midway(start, c, n, 0), k, c)
  {
    var ls: Limits, s0 := [Some(h)], Init([start]);
    if n == 0 {
      assert s0.requests == Midway(start, c, 0, 0).requests;
      assert Runs(ls, s0, [], k, c) && After(ls, s0, [], k, c) == s0;
    } else {
      var m, s := n - 1, Midway(start, c, n - 1, 0);
      AdmitAll(h, start, m, k, c);
      AdmitOne(h, start, m, c);
      KeysBelow(n, k);
      var s1 := Apply(ls, s, Arrive(m));
      Then(ls, s0, s, Arrive(m), k, c);
      Then(ls, s0, s1, Check(m), k, c);
      Then(ls, s0, Apply(ls, s1, Check(m)), Check(m), k, c);
    }
  }

  lemma FinishNext(h: real, s0: State, start: real, m: nat, k: nat, c: real)
    requires m < k && c > 0.0 && Reaches([Some(h)], s0, Midway(start, c, k, m), k, c)
    ensures Reaches([Some(h)], s0, Midway(start, c, k, m + 1), k, c)
  {
    var ls: Limits, s := [Some(h)], Midway(start, c, k, m);
    FinishOne(h, start, m, k, c);
    var s1 := Apply(ls, s, Serve(m, c));
    Then(ls, s0, s, Serve(m, c), k, c);
    Then(ls, s0, s1, Record(m), k, c);
  }

  /** Then the first m of them are served and record their cost. */
  lemma {:induction false} FinishAll(h: real, start: real, m: nat, k: nat, c: real)
    requires start < h && m <= k && c > 0.0
    ensures Reaches([Some(h)], Init([start]), Midway(start, c, k, m), k, c)
  {
    if m == 0 {
      AdmitAll(h, start, k, k, c);
    } else {
      FinishAll(h, start, m - 1, k, c);
      FinishNext(h, Init([start]), start, m - 1, k, c);
    }
  }

  /**
    The bound cannot be improved: whatever k, the limit, the cost and the spend below the limit, some run
    with k requests in flight counts k full costs on top of that spend.
   */
  lemma OvershootAttained(h: real, start: real, k: nat, c: real)
    requires start < h && c > 0.0
    ensures exists steps :: Runs([Some(h)], Init([start]), steps, k, c)
                            && After([Some(h)], Init([start]), steps, k, c).spend == [start + k as real * c]
  {
    FinishAll(h, start, k, k, c);
    PlusIs(start, k, c);
  }
}

/** CheckBudget and RecordSpend of internal/budget/manager.go as one request runs them alone. */
module BudgetManager {
  import opened Common
  import BudgetCheck

  /** A budget of the cached list: its counter's key, its hard limit, and the spend read from the store. */
  datatype Budget = Budget(key: string, hard: Option<real>, stored: real)

  function Spend(cache: map<string, real>, b: Budget): real {
    if b.key in cache then cache[b.key] else b.stored
  }

  predicate Exceeds(cache: map<string, real>, b: Budget) {
    b.hard.Some? && Spend(cache, b) >= b.hard.value
  }

  /** A budget refuses exactly where the protocol's check of it does, so the protocol's bounds are the manager's. */
  lemma RefusesAsProtocol(cache: map<string, real>, budgets: seq<Budget>, n: nat)
    requires n < |budgets|
    ensures var limits := seq(|budgets|, i requires 0 <= i < |budgets| => budgets[i].hard);
            var spend := seq(|budgets|, i requires 0 <= i < |budgets| => Spend(cache, budgets[i]));
            Exceeds(cache, budgets[n]) <==> BudgetCheck.AfterCheck(limits, spend, n).Rejected?
  {
  }

  /** A counter in the cache is what counts; only without one does the stored spend. */
  lemma SpendIs(cache: map<string, real>, b: Budget, x: real)
    ensures Spend(cache[b.key := x], b) == x && (b.key !in cache ==> Spend(cache, b) == b.stored)
  {
  }

  /** INCRBYFLOAT starts a missing counter at zero. */
  function Counted(cache: map<string, real>, key: string): real {
    if key in cache then cache[key] else 0.0
  }

  predicate Unlisted(budgets: seq<Budget>, key: string) {
    forall b :: b in budgets ==> b.key != key
  }

  /** A counter is there with the same value, or missing, in both. */
  predicate Same(a: map<string, real>, b: map<string, real>, key: string) {
    (key in a <==> key in b) && (key in a ==> a[key] == b[key])
  }

  class Manager {
    /** The spend counters in Redis. */
    var cache: map<string, real>

    constructor ()
      ensures cache == map[]
    {
      cache := map[];
    }

    /** Refused at the first budget at or over its limit; counters read on the way are seeded, none changes. */
    method CheckBudget(budgets: seq<Budget>) returns (refused: Option<nat>)
      requires forall i, j :: 0 <= i < j < |budgets| ==> budgets[i].key != budgets[j].key
      modifies this
      ensures match refused
              case None => forall i :: 0 <= i < |budgets| ==> !old(Exceeds(cache, budgets[i]))
              case Some(n) => n < |budgets| && old(Exceeds(cache, budgets[n]))
                              && forall i :: 0 <= i < n ==> !old(Exceeds(cache, budgets[i]))
      ensures forall i :: 0 <= i < |budgets| ==> Spend(cache, budgets[i]) == old(Spend(cache, budgets[i]))
      ensures refused.None? ==> forall i :: 0 <= i < |budgets| && budgets[i].hard.Some? ==> budgets[i].key in cache
      ensures forall k :: Unlisted(budgets, k) ==> Same(cache, old(cache), k)
    {
      for n := 0 to |budgets|
        invariant forall i :: 0 <= i < |budgets| ==> Spend(cache, budgets[i]) == old(Spend(cache, budgets[i]))
        invariant forall i :: 0 <= i < n ==> !old(Exceeds(cache, budgets[i]))
        invariant forall i :: 0 <= i < n && budgets[i].hard.Some? ==> budgets[i].key in cache
        invariant forall k :: Unlisted(budgets, k) ==> Same(cache, old(cache), k)
      {
        var b := budgets[n];
        if b.hard.None? {
          continue;
        }
        var spend := Spend(cache, b);
        if b.key !in cache {
          cache := cache[b.key := b.stored];
        }
        if spend >= b.hard.value {
          return Some(n);
        }
      }
      refused := None;
    }

    /** Adds the cost to every counter of the list, each once; a zero cost touches nothing. */
    method RecordSpend(budgets: seq<Budget>, cost: real)
      requires forall i, j :: 0 <= i < j < |budgets| ==> budgets[i].key != budgets[j].key
      modifies this
      ensures cost == 0.0 ==> cache == old(cache)
      ensures cost != 0.0 ==> forall i :: 0 <= i < |budgets| ==>
                budgets[i].key in cache && cache[budgets[i].key] == Counted(old(cache), budgets[i].key) + cost
      ensures forall k :: Unlisted(budgets, k) ==> Same(cache, old(cache), k)
    {
      if cost == 0.0 {
        return;
      }
      for n := 0 to |budgets|
        invariant forall i :: 0 <= i < n ==>
                    budgets[i].key in cache && cache[budgets[i].key] == Counted(old(cache), budgets[i].key) + cost
        invariant forall k :: Unlisted(budgets[..n], k) ==> Same(cache, old(cache), k)
      {
        var key := budgets[n].key;
        assert Unlisted(budgets[..n], key);
        ghost var before := cache;
        cache := cache[key := Counted(cache, key) + cost];
        assert budgets[..n + 1] == budgets[..n] + [budgets[n]];
        forall k | Unlisted(budgets[..n + 1], k) ensures Same(cache, old(cache), k) {
          assert budgets[n] in budgets[..n + 1];
          assert Unlisted(budgets[..n], k) && Same(before, old(cache), k);
        }
      }
      assert budgets[..|budgets|] == budgets;
    }
  }
}
