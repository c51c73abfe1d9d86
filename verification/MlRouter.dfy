/** Multi-criteria ranking of a tier's models: internal/mlrouter/scorer.go. Scores are exact reals. */
module MlRouter {
  import opened Common
  import opened Chains
  import opened StableSort

  datatype Weights = Weights(cost: real, quality: real, latency: real, reliability: real)

  datatype ModelEntry = ModelEntry(provider: string, model: string, quality: real)

  /** What the scorer reads: the price of the request on a model, and a provider's error rate. */
  datatype Facts = Facts(price: string -> real, errorRate: string -> real)

  function Clamp(x: real): real {
    if x < 0.0 then 0.0 else if x > 1.0 then 1.0 else x
  }

  function Total(w: Weights, cost: real, quality: real, reliability: real): real {
    cost * w.cost + quality * w.quality + reliability * w.latency + reliability * w.reliability
  }

  /** Cheaper is better up to ten cents; reliability also stands in for latency. */
  function Score(w: Weights, f: Facts, e: ModelEntry): real {
    Clamp(Total(w, 1.0 - Clamp(f.price(e.model) / 0.10), e.quality, 1.0 - f.errorRate(e.provider)))
  }

  predicate NonNegativeWeights(w: Weights) {
    w.cost >= 0.0 && w.quality >= 0.0 && w.latency >= 0.0 && w.reliability >= 0.0
  }

  lemma Scale(a: real, b: real, w: real)
    requires a <= b && w >= 0.0
    ensures a * w <= b * w
  {
  }

  lemma TotalMonotone(w: Weights, c: real, c': real, q: real, r: real, r': real)
    requires NonNegativeWeights(w) && c <= c' && r <= r'
    ensures Total(w, c, q, r) <= Total(w, c', q, r')
  {
    Scale(c, c', w.cost);
    Scale(r, r', w.latency);
    Scale(r, r', w.reliability);
  }

  lemma CostMonotone(p: real, p': real)
    requires p <= p'
    ensures 1.0 - Clamp(p' / 0.10) <= 1.0 - Clamp(p / 0.10)
  {
  }

  lemma ClampMonotone(x: real, y: real)
    requires x <= y
    ensures Clamp(x) <= Clamp(y)
  {
  }

  /** No dearer, no less reliable and of the same quality: no lower score. */
  lemma ScoreMonotone(w: Weights, f: Facts, a: ModelEntry, b: ModelEntry)
    requires NonNegativeWeights(w) && a.quality == b.quality
    requires f.price(a.model) <= f.price(b.model) && f.errorRate(a.provider) <= f.errorRate(b.provider)
    ensures Score(w, f, a) >= Score(w, f, b)
  {
    var ca, cb := 1.0 - Clamp(f.price(a.model) / 0.10), 1.0 - Clamp(f.price(b.model) / 0.10);
    var ra, rb := 1.0 - f.errorRate(a.provider), 1.0 - f.errorRate(b.provider);
    CostMonotone(f.price(a.model), f.price(b.model));
    TotalMonotone(w, cb, ca, a.quality, rb, ra);
    ClampMonotone(Total(w, cb, b.quality, rb), Total(w, ca, a.quality, ra));
  }

  const DEFAULT_WEIGHTS := Weights(0.3, 0.4, 0.2, 0.1)

  /**
    The score under the default weights, for prices up to ten cents: three tenths for price, four for quality,
    three for reliability, which also stands in for latency. It lies between 0 and 1 without clamping.
   */
  lemma DefaultScore(f: Facts, e: ModelEntry)
    requires 0.0 <= f.price(e.model) <= 0.10 && 0.0 <= f.errorRate(e.provider) <= 1.0 && 0.0 <= e.quality <= 1.0
    ensures Score(DEFAULT_WEIGHTS, f, e)
         == 0.3 * (1.0 - 10.0 * f.price(e.model)) + 0.4 * e.quality + 0.3 * (1.0 - f.errorRate(e.provider))
  {
    assert f.price(e.model) / 0.10 == 10.0 * f.price(e.model);
  }

  /** Whatever the weights, a score lies between 0 and 1, and a price above ten cents counts as ten. */
  lemma ScoreRange(w: Weights, f: Facts, e: ModelEntry)
    ensures 0.0 <= Score(w, f, e) <= 1.0
    ensures f.price(e.model) >= 0.10 ==>
              Score(w, f, e) == Score(w, f.(price := (m: string) => 0.10), e)
  {
  }

  datatype Scored = Scored(entry: ModelEntry, score: real)

  const BETTER: (Scored, Scored) -> bool := (a: Scored, b: Scored) => a.score > b.score

  function ScoreAll(w: Weights, f: Facts, es: seq<ModelEntry>): (r: seq<Scored>)
    ensures |r| == |es| && forall i :: 0 <= i < |es| ==> r[i] == Scored(es[i], Score(w, f, es[i]))
  {
    seq(|es|, i requires 0 <= i < |es| => Scored(es[i], Score(w, f, es[i])))
  }

  /** The in-place insertion sort of RankTier: an adjacent swap moves an element left past worse ones. */
  method InsertionSort(a: array<Scored>)
    modifies a
    ensures a[..] == Sort(BETTER, old(a[..]))
  {
    ghost var s := a[..];
    if a.Length == 0 {
      return;
    }
    SortShort(BETTER, s[..1]);
    var i := 1;
    while i < a.Length
      invariant 1 <= i <= a.Length
      invariant a[..i] == Sort(BETTER, s[..i]) && a[i..] == s[i..]
    {
      MoveLeft(a, i);
      assert s[..i + 1][..i] == s[..i];
      i := i + 1;
    }
    assert a[..] == a[..a.Length] && s[..a.Length] == s;
  }

  method Swap(a: array<Scored>, j: nat)
    requires 0 < j < a.Length
    modifies a
    ensures var s := old(a[..]); a[..] == s[j := s[j - 1]][j - 1 := s[j]]
  {
    a[j], a[j - 1] := a[j - 1], a[j];
  }

  /** The inner loop: a[i] moves to its slot in the sorted part before it. */
  method MoveLeft(a: array<Scored>, i: nat)
    requires i < a.Length
    modifies a
    ensures a[..i + 1] == Insert(BETTER, old(a[..i]), old(a[i])) && a[i + 1..] == old(a[i + 1..])
  {
    ghost var t, x, tail := a[..i], a[i], a[i + 1..];
    assert a[..] == At(t, x, i, tail);
    var j := i;
    while j > 0 && a[j].score > a[j - 1].score
      invariant 0 <= j <= i
      invariant a[..] == At(t, x, j, tail)
      invariant forall p :: j <= p < i ==> BETTER(x, t[p])
    {
      SwapLeft(t, x, j, tail);
      assert a[j] == a[..][j] && a[j - 1] == a[..][j - 1];
      Swap(a, j);
      j := j - 1;
    }
    SwapLeft(t, x, j, tail);
    assert a[j] == a[..][j] && (j > 0 ==> a[j - 1] == a[..][j - 1]);
    SlotUnique(BETTER, t, x, j);
    assert a[..i + 1] == a[..][..i + 1] && a[i + 1..] == a[..][i + 1..];
  }

  /** The array while x is on its way: x stands in front of t[j]. */
  function At(t: seq<Scored>, x: Scored, j: nat, tail: seq<Scored>): seq<Scored>
    requires j <= |t|
  {
    t[..j] + [x] + t[j..] + tail
  }

  lemma SwapLeft(t: seq<Scored>, x: Scored, j: nat, tail: seq<Scored>)
    requires j <= |t|
    ensures var s := At(t, x, j, tail);
            && s[j] == x && s[..|t| + 1] == t[..j] + [x] + t[j..] && s[|t| + 1..] == tail
            && (j > 0 ==> s[j - 1] == t[j - 1] && s[j := s[j - 1]][j - 1 := s[j]] == At(t, x, j - 1, tail))
  {
  }

  function EntriesOf(tiers: map<string, seq<ModelEntry>>, tier: string): seq<ModelEntry> {
    if tier in tiers && tiers[tier] != [] then tiers[tier]
    else if "medium" in tiers && tiers["medium"] != [] then tiers["medium"]
    else if "economy" in tiers && tiers["economy"] != [] then tiers["economy"]
    else []
  }

  predicate Stocked(tiers: map<string, seq<ModelEntry>>, name: string) {
    name in tiers && tiers[name] != []
  }

  /** The entries ranked are those of the first stocked tier among the one asked for, medium and economy. */
  lemma FallbackTiers(tiers: map<string, seq<ModelEntry>>, tier: string)
    ensures var es := EntriesOf(tiers, tier);
            && (es == [] <==> !Stocked(tiers, tier) && !Stocked(tiers, "medium") && !Stocked(tiers, "economy"))
            && (Stocked(tiers, tier) ==> es == tiers[tier])
            && (!Stocked(tiers, tier) && Stocked(tiers, "medium") ==> es == tiers["medium"])
            && (!Stocked(tiers, tier) && !Stocked(tiers, "medium") && Stocked(tiers, "economy") ==>
                  es == tiers["economy"])
  {
  }

  lemma BetterStrictWeak()
    ensures StrictWeak(BETTER)
  {
  }

  /** Position i ends up before a later position j exactly if j does not score higher. */
  predicate RankedBy(scored: seq<Scored>, d: seq<nat>)
    requires |d| == |scored|
  {
    forall i, j :: 0 <= i < j < |scored| ==> (d[i] < d[j] <==> scored[i].score >= scored[j].score)
  }

  method Rank(scored: seq<Scored>) returns (ranked: seq<Scored>, ghost d: seq<nat>)
    ensures Rearranges(scored, ranked, d) && RankedBy(scored, d)
    ensures forall i, j :: 0 <= i < j < |ranked| ==> ranked[i].score >= ranked[j].score
  {
    var results := new Scored[|scored|](i requires 0 <= i < |scored| => scored[i]);
    assert results[..] == scored;
    InsertionSort(results);
    ranked := results[..];
    BetterStrictWeak();
    SortStable(BETTER, scored);
    d := Dest(BETTER, scored);
    forall i, j | 0 <= i < j < |ranked| ensures ranked[i].score >= ranked[j].score {
      assert !BETTER(ranked[j], ranked[i]);
    }
  }

  /**
    RankTier: the tier's entries rearranged so that scores descend and equal scores keep their
    configured order.
   */
  method RankTier(w: Weights, f: Facts, tiers: map<string, seq<ModelEntry>>, tier: string)
    returns (chain: Chain, ranked: seq<Scored>, ghost d: seq<nat>)
    ensures var scored := ScoreAll(w, f, EntriesOf(tiers, tier));
            Rearranges(scored, ranked, d) && RankedBy(scored, d)
    ensures forall i, j :: 0 <= i < j < |ranked| ==> ranked[i].score >= ranked[j].score
    ensures chain.name == "ml-" + tier && |chain.targets| == |ranked|
    ensures forall i :: 0 <= i < |ranked| ==>
              chain.targets[i] == Target(ranked[i].entry.provider, ranked[i].entry.model, 0)
  {
    var es := EntriesOf(tiers, tier);
    ranked, d := Rank(ScoreAll(w, f, es));
    var targets := seq(|ranked|, i requires 0 <= i < |ranked| =>
                         Target(ranked[i].entry.provider, ranked[i].entry.model, 0));
    chain := Chain("ml-" + tier, targets);
  }

  // ----- the tiers the scorer is given

  datatype ModelConfig = ModelConfig(provider: string, model: string)
  datatype TierConfig = TierConfig(name: string, models: seq<ModelConfig>)

  /** The quality of a tier; unknown names rank between economy and medium. */
  function TierQuality(name: string): real {
    if name == "economy" then 0.30 else if name == "medium" then 0.65 else if name == "premium" then 1.00 else 0.5
  }

  /** Premium above medium above any unknown tier above economy. */
  lemma QualityOrder(name: string)
    requires name !in {"economy", "medium", "premium"}
    ensures 0.0 < TierQuality("economy") < TierQuality(name) < TierQuality("medium") < TierQuality("premium") == 1.0
    ensures TierQuality("premium") - TierQuality("medium") == TierQuality("medium") - TierQuality("economy") == 0.35
    ensures TierQuality(name) == 0.5
  {
  }

  function TierEntries(t: TierConfig): (r: seq<ModelEntry>)
    ensures |r| == |t.models|
    ensures forall i :: 0 <= i < |r| ==>
              r[i] == ModelEntry(t.models[i].provider, t.models[i].model, TierQuality(t.name))
  {
    seq(|t.models|, i requires 0 <= i < |t.models| =>
          ModelEntry(t.models[i].provider, t.models[i].model, TierQuality(t.name)))
  }

  /** Each tier's entries share the tier's quality. */
  ghost predicate Uniform(tiers: map<string, seq<ModelEntry>>) {
    forall name, e :: name in tiers && e in tiers[name] ==> e.quality == TierQuality(name)
  }

  /** The last configuration of a name. */
  function LastTier(cfg: seq<TierConfig>, name: string): (r: Option<TierConfig>)
    ensures r.Some? ==> r.value in cfg && r.value.name == name
  {
    if cfg == [] then None
    else if cfg[|cfg| - 1].name == name then Some(cfg[|cfg| - 1])
    else LastTier(cfg[..|cfg| - 1], name)
  }

  /** What the built map holds under a name. */
  predicate HoldsTier(tiers: map<string, seq<ModelEntry>>, cfg: seq<TierConfig>, name: string) {
    match LastTier(cfg, name)
    case None => name !in tiers
    case Some(t) => name in tiers && tiers[name] == TierEntries(t)
  }

  /** BuildTiers: one tier per configured name, the last configuration of a name counting. */
  method BuildTiers(cfg: seq<TierConfig>) returns (tiers: map<string, seq<ModelEntry>>)
    ensures forall name :: HoldsTier(tiers, cfg, name)
    ensures Uniform(tiers)
  {
    tiers := map[];
    for n := 0 to |cfg|
      invariant forall name :: HoldsTier(tiers, cfg[..n], name)
    {
      ghost var before, upTo := tiers, cfg[..n + 1];
      tiers := tiers[cfg[n].name := TierEntries(cfg[n])];
      assert upTo[..n] == cfg[..n];
      forall name ensures HoldsTier(tiers, upTo, name) {
        assert HoldsTier(before, cfg[..n], name);
      }
    }
    assert cfg[..|cfg|] == cfg;
    TiersUniform(tiers, cfg);
  }

  lemma TiersUniform(tiers: map<string, seq<ModelEntry>>, cfg: seq<TierConfig>)
    requires forall name :: HoldsTier(tiers, cfg, name)
    ensures Uniform(tiers)
  {
    forall name, e | name in tiers && e in tiers[name] ensures e.quality == TierQuality(name) {
      assert HoldsTier(tiers, cfg, name);
    }
  }

  lemma OneQuality(tiers: map<string, seq<ModelEntry>>, tier: string, a: ModelEntry, b: ModelEntry)
    requires Uniform(tiers) && a in EntriesOf(tiers, tier) && b in EntriesOf(tiers, tier)
    ensures a.quality == b.quality
  {
  }

  /** In tiers built from configuration, an entry listed earlier, no dearer and no less reliable is ranked before. */
  lemma DominanceRanks(w: Weights, f: Facts, tiers: map<string, seq<ModelEntry>>, tier: string, d: seq<nat>,
                       i: nat, j: nat)
    requires NonNegativeWeights(w) && Uniform(tiers)
    requires i < j < |EntriesOf(tiers, tier)| == |d| && RankedBy(ScoreAll(w, f, EntriesOf(tiers, tier)), d)
    requires var es := EntriesOf(tiers, tier);
             && f.price(es[i].model) <= f.price(es[j].model)
             && f.errorRate(es[i].provider) <= f.errorRate(es[j].provider)
    ensures d[i] < d[j]
  {
    var es := EntriesOf(tiers, tier);
    OneQuality(tiers, tier, es[i], es[j]);
    ScoreMonotone(w, f, es[i], es[j]);
  }
}
