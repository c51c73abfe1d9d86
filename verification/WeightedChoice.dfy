/**
  The four weighted draws of the gateway: load balancer (internal/gateway/fallback/load_balancer.go),
  provider keys (internal/provider/key_selector.go), routing rules (internal/gateway/router/engine.go)
  and A/B variants (internal/abtest/assignment.go). Each is given its random number as a parameter.
 */
module WeightedChoice {
  import opened Common

  /** Sum of the first n weights. */
  function Prefix(ws: seq<int>, n: nat): int
    requires n <= |ws|
  {
    if n == 0 then 0 else Prefix(ws, n - 1) + ws[n - 1]
  }

  function Total(ws: seq<int>): int {
    Prefix(ws, |ws|)
  }

  /** The first position whose running total exceeds pick, or |ws|. */
  predicate FirstOver(ws: seq<int>, pick: int, i: nat) {
    && i <= |ws|
    && (forall k :: 1 <= k <= i ==> Prefix(ws, k) <= pick)
    && (i < |ws| ==> pick < Prefix(ws, i + 1))
  }

  predicate NonNegative(ws: seq<int>) {
    forall w :: w in ws ==> w >= 0
  }

  lemma {:induction false} PrefixMonotone(ws: seq<int>, i: nat, j: nat)
    requires NonNegative(ws) && i <= j <= |ws|
    ensures Prefix(ws, i) <= Prefix(ws, j)
  {
    if i < j {
      PrefixMonotone(ws, i, j - 1);
      assert ws[j - 1] in ws;
    }
  }

  /** On nonnegative weights position i owns exactly the picks from its prefix sum to the next. */
  lemma OwnsInterval(ws: seq<int>, pick: int, i: nat)
    requires NonNegative(ws) && 0 <= pick && i < |ws|
    ensures FirstOver(ws, pick, i) <==> Prefix(ws, i) <= pick < Prefix(ws, i + 1)
  {
    if Prefix(ws, i) <= pick < Prefix(ws, i + 1) {
      forall k | 1 <= k <= i ensures Prefix(ws, k) <= pick {
        PrefixMonotone(ws, k, i);
      }
    }
  }

  lemma FirstOverUnique(ws: seq<int>, pick: int, i: nat, j: nat)
    requires FirstOver(ws, pick, i) && FirstOver(ws, pick, j)
    ensures i == j
  {
  }

  function ChooseFrom(ws: seq<int>, pick: int, from: nat): (i: nat)
    requires from <= |ws| && forall k :: 1 <= k <= from ==> Prefix(ws, k) <= pick
    ensures FirstOver(ws, pick, i)
    decreases |ws| - from
  {
    if from == |ws| || pick < Prefix(ws, from + 1) then from else ChooseFrom(ws, pick, from + 1)
  }

  /** The position a pick selects. */
  function Choose(ws: seq<int>, pick: int): (i: nat)
    ensures FirstOver(ws, pick, i)
  {
    ChooseFrom(ws, pick, 0)
  }

  /** The picks in [0, n) that select position i. */
  ghost function Picks(ws: seq<int>, n: nat, i: nat): set<int> {
    set pick | 0 <= pick < n && Choose(ws, pick) == i
  }

  /** Exact shares: over all picks below the total, each position is selected exactly its weight many times. */
  lemma ExactShare(ws: seq<int>, i: nat)
    requires NonNegative(ws) && i < |ws|
    ensures 0 <= Total(ws) && |Picks(ws, Total(ws), i)| == ws[i]
  {
    PrefixMonotone(ws, 0, |ws|);
    PrefixMonotone(ws, i + 1, |ws|);
    PrefixMonotone(ws, 0, i);
    assert ws[i] in ws;
    var lo, hi := Prefix(ws, i), Prefix(ws, i + 1);
    assert Picks(ws, Total(ws), i) == Interval(lo, hi) by {
      forall pick | 0 <= pick < Total(ws) ensures Choose(ws, pick) == i <==> lo <= pick < hi {
        OwnsInterval(ws, pick, i);
        if FirstOver(ws, pick, i) {
          FirstOverUnique(ws, pick, i, Choose(ws, pick));
        }
      }
    }
  }

  /** Every pick below the total selects some position: the fallback after the loops is dead code. */
  lemma PickLands(ws: seq<int>, pick: int)
    requires 0 <= pick < Total(ws)
    ensures Choose(ws, pick) < |ws|
  {
  }

  /** Weights of zero or less count as one. */
  function Effective(ws: seq<int>): (r: seq<int>)
    ensures |r| == |ws| && forall i :: 0 <= i < |ws| ==> r[i] == if ws[i] <= 0 then 1 else ws[i]
  {
    seq(|ws|, i requires 0 <= i < |ws| => if ws[i] <= 0 then 1 else ws[i])
  }

  /** The cumulative loop of WeightedRandom.Sort and weightedRandom over effective weights. */
  method CumulativePick(ws: seq<int>, pick: int) returns (i: nat)
    requires 0 <= pick < Total(Effective(ws))
    ensures i == Choose(Effective(ws), pick) < |ws|
  {
    ghost var es := Effective(ws);
    PickLands(es, pick);
    var cumulative := 0;
    i := 0;
    while i < |ws|
      invariant i <= |ws| && cumulative == Prefix(es, i)
      invariant forall k :: 1 <= k <= i ==> Prefix(es, k) <= pick
    {
      var w := ws[i];
      if w <= 0 {
        w := 1;
      }
      cumulative := cumulative + w;
      if pick < cumulative {
        FirstOverUnique(es, pick, i, Choose(es, pick));
        return;
      }
      i := i + 1;
    }
    FirstOverUnique(es, pick, i, Choose(es, pick));
  }

  method EffectiveTotal(ws: seq<int>) returns (total: int)
    ensures total == Total(Effective(ws))
    ensures ws != [] ==> total > 0
  {
    total := 0;
    for i := 0 to |ws|
      invariant total == Prefix(Effective(ws), i) && total >= i
    {
      var w := ws[i];
      if w <= 0 {
        w := 1;
      }
      total := total + w;
    }
  }

  /** weightedRandom over the weights of the provider keys; `random` is cryptoRandN's answer, None its error. */
  method SelectKey(ws: seq<int>, random: int -> Option<int>) returns (key: Option<nat>)
    requires forall n :: n > 0 && random(n).Some? ==> 0 <= random(n).value < n
    ensures ws == [] ==> key == None
    ensures |ws| == 1 ==> key == Some(0)
    ensures |ws| > 1 ==> var pick := random(Total(Effective(ws)));
                         key == if pick.None? then None else Some(Choose(Effective(ws), pick.value))
    ensures key.Some? ==> key.value < |ws|
  {
    if |ws| == 0 {
      return None;
    }
    if |ws| == 1 {
      return Some(0);
    }
    var totalWeight := EffectiveTotal(ws);
    var pick := random(totalWeight);
    if pick.None? {
      return None;
    }
    var i := CumulativePick(ws, pick.value);
    key := Some(i);
  }

  /** What rand.Intn answers for an argument it accepts. */
  ghost predicate Generator(intn: int -> int) {
    forall n :: n > 0 ==> 0 <= intn(n) < n
  }

  /**
    weightedSelect of the rule engine, which subtracts weights from the pick. rand.Intn panics when the
    weights sum to less than zero, or when there are no targets; that is None.
   */
  method WeightedSelect(ws: seq<int>, intn: int -> int) returns (r: Option<nat>)
    requires Generator(intn)
    ensures r == None <==> ws == [] || Total(ws) < 0
    ensures r.Some? ==> r.value < |ws|
    ensures r.Some? && Total(ws) == 0 ==> r.value == intn(|ws|)
    ensures r.Some? && Total(ws) > 0 ==> r.value == Choose(ws, intn(Total(ws)))
  {
    var total := 0;
    for i := 0 to |ws|
      invariant total == Prefix(ws, i)
    {
      total := total + ws[i];
    }
    if total < 0 || |ws| == 0 {
      return None;
    }
    if total == 0 {
      return Some(intn(|ws|));
    }
    var rest := intn(total);
    ghost var pick := rest;
    for i := 0 to |ws|
      invariant rest == pick - Prefix(ws, i)
      invariant forall k :: 1 <= k <= i ==> Prefix(ws, k) <= pick
    {
      rest := rest - ws[i];
      if rest < 0 {
        FirstOverUnique(ws, pick, i, Choose(ws, pick));
        return Some(i);
      }
    }
    // The source returns the last target here; no pick below the total gets this far.
    assert false;
  }

  // ----- A/B buckets

  const BUCKETS: nat := 100

  /** The position Assign gives a bucket: leftover buckets go to the first variant. */
  function Variant(ws: seq<int>, bucket: nat): nat {
    var i := Choose(ws, bucket);
    if i < |ws| then i else 0
  }

  const UINT32: int := 0x1_0000_0000

  /** The 32-bit counter after the first k weights. */
  function Counter(ws: seq<int>, k: nat): int
    requires k <= |ws|
  {
    Prefix(ws, k) % UINT32
  }

  predicate CounterOver(ws: seq<int>, bucket: nat, k: nat)
    requires k < |ws|
  {
    bucket < Counter(ws, k + 1)
  }

  function WalkFrom(ws: seq<int>, bucket: nat, from: nat): (i: nat)
    requires from <= |ws| && ws != []
    ensures i < |ws|
    ensures (from <= i && CounterOver(ws, bucket, i) && forall k :: from <= k < i ==> !CounterOver(ws, bucket, k))
            || (i == 0 && forall k :: from <= k < |ws| ==> !CounterOver(ws, bucket, k))
    decreases |ws| - from
  {
    if from == |ws| then 0 else if CounterOver(ws, bucket, from) then from else WalkFrom(ws, bucket, from + 1)
  }

  /** The position of a bucket: the first whose counter is over it, or else the first of all. */
  function Assigned(ws: seq<int>, bucket: nat): (i: nat)
    requires ws != []
    ensures i < |ws|
  {
    WalkFrom(ws, bucket, 0)
  }

  /** Weights that cannot carry a counter below 100 past 2^32. */
  predicate SmallWeights(ws: seq<int>) {
    forall i :: 0 <= i < |ws| ==> 0 <= ws[i] < UINT32 - BUCKETS
  }

  /**
    The bucket walk of Assign, on 32-bit unsigned counters; None is the empty answer. For small weights the
    position is the one that owns the bucket.
   */
  method AssignVariant(ws: seq<int>, bucket: nat) returns (i: Option<nat>)
    requires bucket < BUCKETS
    ensures i == if ws == [] then None else Some(Assigned(ws, bucket))
    ensures i.Some? ==>
              && i.value < |ws|
              && if exists k :: 0 <= k < |ws| && CounterOver(ws, bucket, k)
                 then CounterOver(ws, bucket, i.value) && forall k :: 0 <= k < i.value ==> !CounterOver(ws, bucket, k)
                 else i.value == 0
    ensures i.Some? && SmallWeights(ws) ==> i.value == Variant(ws, bucket)
  {
    var cumulative := 0;
    for k := 0 to |ws|
      invariant cumulative == Counter(ws, k)
      invariant forall j :: 0 <= j < k ==> !CounterOver(ws, bucket, j)
    {
      AddWraps(Prefix(ws, k), ws[k]);
      cumulative := (cumulative + ws[k] % UINT32) % UINT32;
      if bucket < cumulative {
        assert CounterOver(ws, bucket, k);
        assert Assigned(ws, bucket) == k;
        if SmallWeights(ws) {
          OwnerFound(ws, bucket, k);
        }
        return Some(k);
      }
    }
    if SmallWeights(ws) {
      NoOwner(ws, bucket, |ws|);
      FirstOverUnique(ws, bucket, |ws|, Choose(ws, bucket));
    }
    if |ws| > 0 {
      return Some(0);
    }
    i := None;
  }

  lemma AddWraps(a: int, b: int)
    ensures (a % UINT32 + b % UINT32) % UINT32 == (a + b) % UINT32
  {
  }

  /** While no counter was over the bucket, none has wrapped. */
  lemma {:induction false} NoOwner(ws: seq<int>, bucket: nat, k: nat)
    requires SmallWeights(ws) && bucket < BUCKETS && k <= |ws|
    requires forall j :: 0 <= j < k ==> !CounterOver(ws, bucket, j)
    ensures 0 <= Prefix(ws, k) <= bucket && forall j :: 1 <= j <= k ==> Prefix(ws, j) <= bucket
  {
    if k > 0 {
      NoOwner(ws, bucket, k - 1);
      assert !CounterOver(ws, bucket, k - 1);
    }
  }

  lemma OwnerFound(ws: seq<int>, bucket: nat, k: nat)
    requires SmallWeights(ws) && bucket < BUCKETS && k < |ws| && CounterOver(ws, bucket, k)
    requires forall j :: 0 <= j < k ==> !CounterOver(ws, bucket, j)
    ensures Variant(ws, bucket) == k
  {
    NoOwner(ws, bucket, k);
    FirstOverUnique(ws, bucket, k, Choose(ws, bucket));
  }

  ghost function Buckets(ws: seq<int>, i: nat): set<int>
    requires ws != []
  {
    set b: nat | b < BUCKETS && Assigned(ws, b) == i
  }

  /** A running total, cut off at 0 and at the number of buckets. */
  function Clip(x: int): int {
    if x < 0 then 0 else if x < BUCKETS then x else BUCKETS
  }

  /** The highest bucket boundary the counter has reached after the first k weights. */
  function High(ws: seq<int>, k: nat): (r: int)
    requires k <= |ws|
    ensures 0 <= r <= BUCKETS
  {
    if k == 0 then 0
    else
      var before, c := High(ws, k - 1), Clip(Counter(ws, k));
      if before < c then c else before
  }

  lemma {:induction false} HighOver(ws: seq<int>, b: nat, k: nat)
    requires b < BUCKETS && k <= |ws|
    ensures b < High(ws, k) <==> exists j :: 0 <= j < k && CounterOver(ws, b, j)
  {
    if k > 0 {
      HighOver(ws, b, k - 1);
      if CounterOver(ws, b, k - 1) {
        assert b < Clip(Counter(ws, k));
      }
    }
  }

  /** A position is given the buckets its counter is the first to reach; those never reached go to the first. */
  lemma AssignedWhen(ws: seq<int>, b: nat, i: nat)
    requires b < BUCKETS && i < |ws|
    ensures Assigned(ws, b) == i <==> High(ws, i) <= b < High(ws, i + 1) || (i == 0 && High(ws, |ws|) <= b)
  {
    HighOver(ws, b, i);
    HighOver(ws, b, i + 1);
    HighOver(ws, b, |ws|);
  }

  /** For all weights, of any sign and size: what a position gets of the 100 buckets. */
  lemma VariantShare(ws: seq<int>, i: nat)
    requires i < |ws|
    ensures |Buckets(ws, i)| == High(ws, i + 1) - High(ws, i) + if i == 0 then BUCKETS - High(ws, |ws|) else 0
  {
    HighMonotone(ws, i + 1, |ws|);
    var own, left := Interval(High(ws, i), High(ws, i + 1)), Interval(High(ws, |ws|), BUCKETS);
    forall b: nat | b < BUCKETS ensures Assigned(ws, b) == i <==> b in own || (i == 0 && b in left) {
      AssignedWhen(ws, b, i);
    }
    if i == 0 {
      assert Buckets(ws, i) == own + left;
    } else {
      assert Buckets(ws, i) == own;
    }
  }

  lemma {:induction false} HighMonotone(ws: seq<int>, i: nat, j: nat)
    requires i <= j <= |ws|
    ensures High(ws, i) <= High(ws, j)
    decreases j
  {
    if i < j {
      HighMonotone(ws, i, j - 1);
    }
  }

  /** For small weights the boundaries are the running totals. */
  lemma {:induction false} HighIsPrefix(ws: seq<int>, k: nat)
    requires SmallWeights(ws) && k <= |ws|
    ensures 0 <= Prefix(ws, k) && High(ws, k) == Clip(Prefix(ws, k))
  {
    if k > 0 {
      HighIsPrefix(ws, k - 1);
    }
  }

  /** So there a position gets the part of its interval of weights that lies below 100. */
  lemma SmallShare(ws: seq<int>, i: nat)
    requires SmallWeights(ws) && i < |ws|
    ensures |Buckets(ws, i)|
         == Clip(Prefix(ws, i + 1)) - Clip(Prefix(ws, i)) + if i == 0 then BUCKETS - Clip(Total(ws)) else 0
  {
    VariantShare(ws, i);
    HighIsPrefix(ws, i);
    HighIsPrefix(ws, i + 1);
    HighIsPrefix(ws, |ws|);
  }

  /** What a position would get if every weight counted in full, the first also what is then left over. */
  function Deserved(ws: seq<int>, i: nat): int
    requires i < |ws|
  {
    ws[i] + if i == 0 then BUCKETS - Clip(Total(ws)) else 0
  }

  ghost predicate Fair(ws: seq<int>) {
    forall i :: 0 <= i < |ws| ==> |Buckets(ws, i)| == Deserved(ws, i)
  }

  /**
    For all weights: every position gets exactly its weight, the first also the shortfall, if and only if no
    weight is negative and they sum to at most 100.
   */
  lemma FairExactlyWhen(ws: seq<int>)
    ensures Fair(ws) <==> NonNegative(ws) && Total(ws) <= BUCKETS
  {
    if NonNegative(ws) && Total(ws) <= BUCKETS {
      FairShares(ws);
    } else if NonNegative(ws) {
      ShortChanged(ws);
    } else {
      NegativeUnfair(ws);
    }
  }

  lemma FairShares(ws: seq<int>)
    requires NonNegative(ws) && Total(ws) <= BUCKETS
    ensures Fair(ws)
  {
    forall i | 0 <= i < |ws| ensures ws[i] <= BUCKETS {
      PrefixMonotone(ws, 0, i);
      PrefixMonotone(ws, i + 1, |ws|);
    }
    assert forall i :: 0 <= i < |ws| ==> ws[i] in ws;
    forall i | 0 <= i < |ws| ensures |Buckets(ws, i)| == Deserved(ws, i) {
      SmallShare(ws, i);
      HighIsPrefix(ws, i);
      PrefixMonotone(ws, i + 1, |ws|);
    }
  }

  /** When the sum is larger, the position that crosses 100 gets less than its weight. */
  lemma ShortChanged(ws: seq<int>)
    requires NonNegative(ws) && Total(ws) > BUCKETS
    ensures !Fair(ws)
  {
    var i := Choose(ws, BUCKETS);
    PickLands(ws, BUCKETS);
    OwnsInterval(ws, BUCKETS, i);
    PrefixMonotone(ws, 0, i);
    var room := Interval(Prefix(ws, i), BUCKETS);
    forall b | b in Buckets(ws, i) ensures b in room {
      AfterEarlier(ws, b, i);
    }
    SubsetSize(Buckets(ws, i), room);
    assert |Buckets(ws, i)| < Deserved(ws, i);
  }

  /** Counters below 100 have not wrapped, so earlier positions keep their buckets. */
  lemma AfterEarlier(ws: seq<int>, b: nat, i: nat)
    requires NonNegative(ws) && i < |ws| && 0 <= Prefix(ws, i) <= BUCKETS && b < BUCKETS && Assigned(ws, b) == i
    ensures Prefix(ws, i) <= b
  {
    if i > 0 {
      assert !CounterOver(ws, b, i - 1);
    }
  }

  /** A negative first weight wraps to a counter over every bucket; a negative later one deserves nothing. */
  lemma NegativeUnfair(ws: seq<int>)
    requires !NonNegative(ws)
    ensures !Fair(ws)
  {
    var w :| w in ws && w < 0;
    var i :| 0 <= i < |ws| && ws[i] == w;
    if i == 0 && ws[0] >= 0 - BUCKETS {
      assert Prefix(ws, 1) == Prefix(ws, 0) + ws[0] == ws[0];
      assert Counter(ws, 1) == UINT32 + ws[0];
      assert High(ws, 1) == BUCKETS;
      HighMonotone(ws, 1, |ws|);
      VariantShare(ws, 0);
    }
    assert |Buckets(ws, i)| != Deserved(ws, i);
  }

  /** Weights that sum to 100 and give the first position, whose weight is negative, every bucket. */
  lemma NegativeTakesAll()
    ensures Total([-1, 101]) == BUCKETS && |Buckets([-1, 101], 0)| == BUCKETS && |Buckets([-1, 101], 1)| == 0
  {
    var ws := [-1, 101];
    assert Prefix(ws, 1) == -1 && Prefix(ws, 2) == 100;
    VariantShare(ws, 0);
    VariantShare(ws, 1);
    assert High(ws, 1) == BUCKETS;
    assert High(ws, 2) == BUCKETS;
  }

  /** A weight of 2^32 counts as none. */
  lemma WrappedWeight()
    ensures |Buckets([UINT32, 100], 0)| == 0 && |Buckets([UINT32, 100], 1)| == BUCKETS
  {
    var ws := [UINT32, 100];
    assert Prefix(ws, 1) == UINT32 && Prefix(ws, 2) == UINT32 + 100;
    VariantShare(ws, 0);
    VariantShare(ws, 1);
    assert High(ws, 1) == 0;
    assert High(ws, 2) == BUCKETS;
  }

  lemma BeyondTotal(ws: seq<int>, pick: int)
    requires NonNegative(ws) && Total(ws) <= pick
    ensures Choose(ws, pick) == |ws|
  {
    var i := Choose(ws, pick);
    if i < |ws| {
      PrefixMonotone(ws, i + 1, |ws|);
    }
  }
}
