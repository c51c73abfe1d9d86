/** Targets and chains of internal/gateway/fallback/router.go. */
module Chains {
  datatype Target = Target(provider: string, model: string, weight: int)
  datatype Chain = Chain(name: string, targets: seq<Target>)

  function SingleTarget(provider: string, model: string): Chain {
    Chain(provider, [Target(provider, model, 0)])
  }

  function Weights(ts: seq<Target>): (ws: seq<int>)
    ensures |ws| == |ts| && forall i :: 0 <= i < |ts| ==> ws[i] == ts[i].weight
  {
    seq(|ts|, i requires 0 <= i < |ts| => ts[i].weight)
  }
}

/**
  The load balancing strategies of internal/gateway/fallback/load_balancer.go. Every strategy only
  reorders its targets; each has its own promise about the order.
 */
module LoadBalancer {
  import opened Common
  import opened Chains
  import opened StableSort
  import WeightedChoice

  // ----- WeightedRandom

  /** Target i first, the others in their order. */
  function Promoted(ts: seq<Target>, i: nat): seq<Target>
    requires i < |ts|
  {
    [ts[i]] + ts[..i] + ts[i + 1..]
  }

  lemma PromotedPermutes(ts: seq<Target>, i: nat)
    requires i < |ts|
    ensures multiset(Promoted(ts, i)) == multiset(ts)
  {
    assert ts == ts[..i] + [ts[i]] + ts[i + 1..];
  }

  method WeightedRandomSort(ts: seq<Target>, intn: int -> int) returns (r: seq<Target>)
    requires WeightedChoice.Generator(intn)
    ensures |ts| <= 1 ==> r == ts
    ensures |ts| > 1 ==>
              ChosenFirst(intn, ts) < |ts| && r == Promoted(ts, ChosenFirst(intn, ts))
    ensures r == Balance(Weighted(intn), ts) && multiset(r) == multiset(ts)
  {
    if |ts| <= 1 {
      return ts;
    }
    var total := WeightedChoice.EffectiveTotal(Weights(ts));
    var chosen := WeightedChoice.CumulativePick(Weights(ts), intn(total));
    r := Promote(ts, chosen);
    PromotedPermutes(ts, chosen);
  }

  method Promote(ts: seq<Target>, chosen: nat) returns (r: seq<Target>)
    requires chosen < |ts|
    ensures r == Promoted(ts, chosen)
  {
    r := [ts[chosen]];
    for i := 0 to |ts|
      invariant r == [ts[chosen]] + if i <= chosen then ts[..i] else ts[..chosen] + ts[chosen + 1..i]
    {
      if i != chosen {
        r := r + [ts[i]];
      }
    }
    assert ts[chosen + 1..|ts|] == ts[chosen + 1..];
  }

  /** How many picks put target i first: exactly its effective weight, out of their total. */
  lemma WeightedRandomShare(ts: seq<Target>, i: nat)
    requires i < |ts|
    ensures var es := WeightedChoice.Effective(Weights(ts));
            && 0 < WeightedChoice.Total(es)
            && |WeightedChoice.Picks(es, WeightedChoice.Total(es), i)| == if ts[i].weight <= 0 then 1 else ts[i].weight
  {
    var es := WeightedChoice.Effective(Weights(ts));
    WeightedChoice.ExactShare(es, i);
    WeightedChoice.PrefixMonotone(es, i + 1, |es|);
    WeightedChoice.PrefixMonotone(es, 0, i);
  }

  // ----- RoundRobin

  /** The position read at offset i of a rotation by k. */
  function Turn(k: nat, i: nat, n: nat): (r: nat)
    requires n > 0
    ensures r < n
  {
    (k + i) % n
  }

  function Rotated(ts: seq<Target>, k: nat): (r: seq<Target>)
    requires |ts| > 0
  {
    seq(|ts|, i requires 0 <= i < |ts| => ts[Turn(k, i, |ts|)])
  }

  lemma RotatedPermutes(ts: seq<Target>, k: nat)
    requires k < |ts|
    ensures multiset(Rotated(ts, k)) == multiset(ts)
  {
    assert Rotated(ts, k) == ts[k..] + ts[..k] by {
      forall i | 0 <= i < |ts| ensures Rotated(ts, k)[i] == (ts[k..] + ts[..k])[i] {
        TurnAt(k, i, |ts|);
      }
    }
    assert ts == ts[..k] + ts[k..];
  }

  class RoundRobin {
    var counter: nat

    constructor ()
      ensures counter == 0
    {
      counter := 0;
    }

    method Sort(ts: seq<Target>) returns (r: seq<Target>)
      modifies this
      ensures |ts| <= 1 ==> r == ts && counter == old(counter)
      ensures |ts| > 1 ==> counter == old(counter) + 1 && r == Rotated(ts, counter % |ts|)
      ensures r == Balance(Rotating(old(counter)), ts) && multiset(r) == multiset(ts)
    {
      if |ts| <= 1 {
        return ts;
      }
      var n := |ts|;
      counter := counter + 1;
      var idx := counter % n;
      r := [];
      for i := 0 to n
        invariant r == Rotated(ts, idx)[..i]
      {
        r := r + [ts[Turn(idx, i, n)]];
      }
      assert Rotated(ts, idx)[..n] == Rotated(ts, idx);
      RotatedPermutes(ts, idx);
    }

    /**
      m calls in a row: call k returns the rotation by one more than the call before it. When there are as
      many calls as targets, exactly one starts at each position, and the targets put first are together
      a rotation of the targets, so each comes first as often as it is listed.
     */
    method SortRepeatedly(ts: seq<Target>, m: nat) returns (rs: seq<seq<Target>>)
      requires |ts| > 1
      modifies this
      ensures counter == old(counter) + m && |rs| == m
      ensures forall k :: 0 <= k < m ==>
                rs[k] == Rotated(ts, Turn(old(counter) + 1, k, |ts|)) && |rs[k]| == |ts|
                && rs[k][0] == ts[Turn(old(counter) + 1, k, |ts|)]
      ensures m == |ts| ==>
                && EachFirstOnce(old(counter) + 1, m)
                && Firsts(rs) == Rotated(ts, old(counter) + 1) && multiset(Firsts(rs)) == multiset(ts)
    {
      rs := [];
      ghost var c := counter + 1;
      for i := 0 to m
        invariant counter == c - 1 + i && |rs| == i
        invariant forall k :: 0 <= k < i ==> rs[k] == Rotated(ts, Turn(c, k, |ts|))
      {
        var r := Sort(ts);
        rs := rs + [r];
      }
      forall k | 0 <= k < m ensures |rs[k]| == |ts| && rs[k][0] == ts[Turn(c, k, |ts|)] {
        RotationStarts(ts, c, k);
      }
      if m == |ts| {
        forall j | 0 <= j < |ts| ensures |TurnsOf(c, m, j)| == 1 {
          RoundRobinFair(c, m, j);
        }
        assert Firsts(rs) == Rotated(ts, c);
        RotatedAnyPermutes(ts, c);
      }
    }
  }

  /** The target each call puts first. */
  function Firsts(rs: seq<seq<Target>>): seq<Target>
    requires forall k :: 0 <= k < |rs| ==> rs[k] != []
  {
    seq(|rs|, k requires 0 <= k < |rs| => rs[k][0])
  }

  lemma RotatedAnyPermutes(ts: seq<Target>, c: nat)
    requires |ts| > 0
    ensures multiset(Rotated(ts, c)) == multiset(ts)
  {
    var k := Turn(c, 0, |ts|);
    TurnAt(c, 0, |ts|);
    forall i | 0 <= i < |ts| ensures Rotated(ts, c)[i] == Rotated(ts, k)[i] {
      TurnAt(c, i, |ts|);
      TurnAt(k, i, |ts|);
    }
    assert Rotated(ts, c) == Rotated(ts, k);
    RotatedPermutes(ts, k);
  }

  /** Of n calls, the first leaving the counter at c, those that put target j first. */
  ghost function TurnsOf(c: nat, n: nat, j: nat): set<nat>
    requires n > 0
  {
    set k: nat | k < n && Turn(c, k, n) == j
  }

  ghost predicate EachFirstOnce(c: nat, n: nat)
    requires n > 0
  {
    forall j :: 0 <= j < n ==> |TurnsOf(c, n, j)| == 1
  }

  /** Fairness: of any n consecutive calls on n targets, exactly one puts target j first. */
  lemma RoundRobinFair(c: nat, n: nat, j: nat)
    requires j < n
    ensures |TurnsOf(c, n, j)| == 1
  {
    var start := c % n;
    var k := if j >= start then j - start else j - start + n;
    forall m: nat | m < n ensures Turn(c, m, n) == j <==> m == k {
      TurnAt(c, m, n);
    }
    assert TurnsOf(c, n, j) == {k};
  }

  /** The call that leaves the counter at c + k starts its rotation at Turn(c, k, n). */
  lemma RotationStarts(ts: seq<Target>, c: nat, k: nat)
    requires |ts| > 0
    ensures Rotated(ts, Turn(c, k, |ts|))[0] == ts[Turn(c, k, |ts|)]
  {
    TurnAt(Turn(c, k, |ts|), 0, |ts|);
  }

  lemma TurnAt(a: nat, m: nat, n: nat)
    requires m < n
    ensures Turn(a, m, n) == if a % n + m < n then a % n + m else a % n + m - n
    ensures a < n ==> a % n == a
  {
    var q, r := a / n, a % n;
    Divided(a, n);
    if r + m < n {
      ModUnique(a + m, n, q, r + m);
    } else {
      OneMore(q, n);
      ModUnique(a + m, n, q + 1, r + m - n);
    }
    if a < n {
      ModUnique(a, n, 0, a);
    }
  }

  lemma Divided(a: nat, n: nat)
    requires n > 0
    ensures a == (a / n) * n + a % n
  {
  }

  lemma OneMore(q: nat, n: nat)
    ensures (q + 1) * n == q * n + n
  {
  }

  lemma Multiples(d: int, n: nat)
    ensures d >= 1 ==> d * n >= n
    ensures d <= -1 ==> d * n <= -(n as int)
  {
  }

  lemma ModUnique(x: nat, n: nat, q: nat, r: nat)
    requires r < n && x == q * n + r
    ensures x % n == r
  {
    var d: int := x / n - q;
    assert d * n == r - x % n by {
      assert x == (x / n) * n + x % n;
    }
    Multiples(d, n);
  }

  // ----- LeastLatency and LeastCost

  function Reading(ewma: map<string, real>, t: Target): real {
    if t.provider in ewma then ewma[t.provider] else 0.0
  }

  /** A provider without a reading, which reads as 0, is never the faster one. */
  function Faster(ewma: map<string, real>): (Target, Target) -> bool {
    (a: Target, b: Target) =>
      var la, lb := Reading(ewma, a), Reading(ewma, b);
      la != 0.0 && (lb == 0.0 || la < lb)
  }

  function Cheaper(cost: map<string, real>): (Target, Target) -> bool {
    (a: Target, b: Target) => Reading(cost, a) < Reading(cost, b)
  }

  lemma FasterStrictWeak(ewma: map<string, real>)
    ensures StrictWeak(Faster(ewma))
  {
  }

  lemma CheaperStrictWeak(cost: map<string, real>)
    ensures StrictWeak(Cheaper(cost))
  {
  }

  /** sort.SliceStable on a copy: the only stable rearrangement there is. */
  method SliceStable(less: (Target, Target) -> bool, ts: seq<Target>) returns (r: seq<Target>, ghost d: seq<nat>)
    requires StrictWeak(less)
    ensures Rearranges(ts, r, d) && StableFor(less, ts, d) && Sorted(less, r)
    ensures r == Sort(less, ts)
  {
    SortStable(less, ts);
    r, d := Sort(less, ts), Dest(less, ts);
  }

  method LeastLatencySort(tracker: Option<map<string, real>>, ts: seq<Target>) returns (r: seq<Target>)
    ensures tracker.None? ==> r == ts
    ensures tracker.Some? ==> r == Sort(Faster(tracker.value), ts) && Sorted(Faster(tracker.value), r)
    ensures tracker.Some? ==> ByReading(tracker.value, r)
    ensures r == Balance(ByLatency(tracker), ts) && multiset(r) == multiset(ts)
  {
    if tracker.None? {
      return ts;
    }
    FasterStrictWeak(tracker.value);
    SortPermutes(Faster(tracker.value), ts);
    if |ts| <= 1 {
      SortShort(Faster(tracker.value), ts);
    }
    ghost var d;
    r, d := SliceStable(Faster(tracker.value), ts);
    forall i, j | 0 <= i < j < |r| ensures Reading(tracker.value, r[i]) == 0.0 ==> Reading(tracker.value, r[j]) == 0.0 {
      assert !Faster(tracker.value)(r[j], r[i]);
    }
    forall i, j | 0 <= i < j < |r| && Reading(tracker.value, r[j]) != 0.0
      ensures Reading(tracker.value, r[i]) <= Reading(tracker.value, r[j])
    {
      assert !Faster(tracker.value)(r[j], r[i]);
    }
  }

  /** Readings ascend, and targets without one, which read as 0, come last. */
  ghost predicate ByReading(ewma: map<string, real>, r: seq<Target>) {
    forall i, j :: 0 <= i < j < |r| ==>
      && (Reading(ewma, r[i]) == 0.0 ==> Reading(ewma, r[j]) == 0.0)
      && (Reading(ewma, r[j]) != 0.0 ==> Reading(ewma, r[i]) <= Reading(ewma, r[j]))
  }

  method LeastCostSort(cost: map<string, real>, ts: seq<Target>) returns (r: seq<Target>)
    ensures r == Sort(Cheaper(cost), ts) && Sorted(Cheaper(cost), r)
    ensures forall i, j :: 0 <= i < j < |r| ==> Reading(cost, r[i]) <= Reading(cost, r[j])
    ensures r == Balance(ByCost(cost), ts) && multiset(r) == multiset(ts)
  {
    CheaperStrictWeak(cost);
    SortPermutes(Cheaper(cost), ts);
    if |ts| <= 1 {
      SortShort(Cheaper(cost), ts);
    }
    ghost var d;
    r, d := SliceStable(Cheaper(cost), ts);
    forall i, j | 0 <= i < j < |r| ensures Reading(cost, r[i]) <= Reading(cost, r[j]) {
      assert !Cheaper(cost)(r[j], r[i]);
    }
  }

  // ----- all strategies together

  /** A configured balancer at the moment of one call; AsIs is a router without one. */
  datatype Strategy =
    | AsIs
    | Weighted(intn: int -> int)
    | Rotating(counter: nat)
    | ByLatency(tracker: Option<map<string, real>>)
    | ByCost(cost: map<string, real>)

  function ChosenFirst(intn: int -> int, ts: seq<Target>): nat {
    var es := WeightedChoice.Effective(Weights(ts));
    WeightedChoice.Choose(es, intn(WeightedChoice.Total(es)))
  }

  function Balance(s: Strategy, ts: seq<Target>): seq<Target> {
    if |ts| <= 1 then ts
    else
      match s
      case AsIs => ts
      case Weighted(intn) =>
        var chosen := ChosenFirst(intn, ts);
        if chosen < |ts| then Promoted(ts, chosen) else ts
      case Rotating(counter) => Rotated(ts, Turn(counter, 1, |ts|))
      case ByLatency(tracker) => if tracker.None? then ts else Sort(Faster(tracker.value), ts)
      case ByCost(cost) => Sort(Cheaper(cost), ts)
  }

  /** No strategy adds, drops or duplicates a target. */
  lemma BalanceReorders(s: Strategy, ts: seq<Target>)
    ensures multiset(Balance(s, ts)) == multiset(ts)
  {
    match s {
      case AsIs =>
      case Weighted(intn) =>
        WeightedReorders(intn, ts);
      case Rotating(counter) =>
        RotatingReorders(counter, ts);
      case ByLatency(tracker) =>
        if tracker.Some? {
          SortPermutes(Faster(tracker.value), ts);
        }
      case ByCost(cost) =>
        SortPermutes(Cheaper(cost), ts);
    }
  }

  lemma RotatingReorders(counter: nat, ts: seq<Target>)
    ensures multiset(Balance(Rotating(counter), ts)) == multiset(ts)
  {
    if |ts| > 1 {
      var k := Turn(counter, 1, |ts|);
      assert Balance(Rotating(counter), ts) == Rotated(ts, k);
      RotatedPermutes(ts, k);
    }
  }

  lemma WeightedReorders(intn: int -> int, ts: seq<Target>)
    ensures multiset(Balance(Weighted(intn), ts)) == multiset(ts)
  {
    if |ts| > 1 && ChosenFirst(intn, ts) < |ts| {
      PromotedPermutes(ts, ChosenFirst(intn, ts));
    }
  }
}
