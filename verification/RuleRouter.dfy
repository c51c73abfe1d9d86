/**
  The rule engine of internal/gateway/router/engine.go and matcher.go: rules are compiled and sorted by
  priority once, and each request takes the chain of the first rule that matches and has targets.
 */
module RuleRouter {
  import opened Common
  import opened Chains
  import StableSort
  import WeightedChoice

  datatype Strategy = Direct | Weighted | LeastCost | Failover | Quality | OtherStrategy

  /** RouteMatch: empty strings, absent ids, zero bounds and an empty map mean no condition. */
  datatype Condition = Condition(model: string, modelPrefix: string, modelRegex: string,
                                 keyId: Option<string>, userId: Option<string>,
                                 teamId: Option<string>, orgId: Option<string>,
                                 metadata: map<string, string>, minTokens: int, maxTokens: int, hasTools: bool)

  datatype Rule = Rule(name: string, priority: int, enabled: bool, cond: Condition, strategy: Strategy,
                       targets: seq<Target>)

  datatype Request = Request(model: string, metadata: map<string, string>, contentLengths: seq<nat>, tools: nat)

  datatype VirtualKey = VirtualKey(id: string, user: Option<string>, team: Option<string>, org: Option<string>)

  /** The regular expression library: which patterns compile, and what they match. */
  datatype Regexes = Regexes(compiles: string -> bool, matches: (string, string) -> bool)

  function EstimatedTokens(lengths: seq<nat>): nat {
    if lengths == [] then 0 else EstimatedTokens(lengths[..|lengths| - 1]) + lengths[|lengths| - 1] / 4
  }

  method EstimateTokens(lengths: seq<nat>) returns (total: nat)
    ensures total == EstimatedTokens(lengths)
  {
    total := 0;
    for i := 0 to |lengths|
      invariant total == EstimatedTokens(lengths[..i])
    {
      assert lengths[..i + 1][..i] == lengths[..i];
      total := total + lengths[i] / 4;
    }
    assert lengths[..|lengths|] == lengths;
  }

  predicate KeyMatches(c: Condition, vk: Option<VirtualKey>) {
    match vk
    case None => c.keyId.None? && c.userId.None? && c.teamId.None? && c.orgId.None?
    case Some(k) =>
      && (c.keyId.Some? ==> k.id == c.keyId.value)
      && (c.userId.Some? ==> k.user == c.userId)
      && (c.teamId.Some? ==> k.team == c.teamId)
      && (c.orgId.Some? ==> k.org == c.orgId)
  }

  /** A missing key reads as the empty string, as Go's map lookup does. */
  function Lookup(m: map<string, string>, k: string): string {
    if k in m then m[k] else ""
  }

  predicate MetadataMatches(c: Condition, req: Request) {
    c.metadata == map[]
    || (req.metadata != map[] && forall k :: k in c.metadata ==> Lookup(req.metadata, k) == c.metadata[k])
  }

  predicate Matches(re: Regexes, c: Condition, req: Request, vk: Option<VirtualKey>, tokens: int) {
    && (c.model != "" ==> req.model == c.model)
    && (c.modelPrefix != "" ==> c.modelPrefix <= req.model)
    && (c.modelRegex != "" ==> re.matches(c.modelRegex, req.model))
    && KeyMatches(c, vk)
    && MetadataMatches(c, req)
    && (c.minTokens > 0 ==> tokens >= c.minTokens)
    && (c.maxTokens > 0 ==> tokens <= c.maxTokens)
    && (c.hasTools ==> req.tools > 0)
  }

  /** The condition that asks for nothing. */
  const ANY := Condition("", "", "", None, None, None, None, map[], 0, 0, false)

  /** Conditions are independent: a rule matches if and only if each of its conditions, alone, does. */
  lemma ConditionsIndependent(re: Regexes, c: Condition, req: Request, vk: Option<VirtualKey>, tokens: int)
    ensures Matches(re, c, req, vk, tokens) <==>
            && Matches(re, ANY.(model := c.model), req, vk, tokens)
            && Matches(re, ANY.(modelPrefix := c.modelPrefix), req, vk, tokens)
            && Matches(re, ANY.(modelRegex := c.modelRegex), req, vk, tokens)
            && Matches(re, ANY.(keyId := c.keyId), req, vk, tokens)
            && Matches(re, ANY.(userId := c.userId), req, vk, tokens)
            && Matches(re, ANY.(teamId := c.teamId), req, vk, tokens)
            && Matches(re, ANY.(orgId := c.orgId), req, vk, tokens)
            && Matches(re, ANY.(metadata := c.metadata), req, vk, tokens)
            && Matches(re, ANY.(minTokens := c.minTokens), req, vk, tokens)
            && Matches(re, ANY.(maxTokens := c.maxTokens), req, vk, tokens)
            && Matches(re, ANY.(hasTools := c.hasTools), req, vk, tokens)
  {
  }

  /** What the conditions on the request ask for, each alone. */
  lemma RequestConditions(re: Regexes, req: Request, vk: Option<VirtualKey>, tokens: int, name: string, n: int)
    ensures Matches(re, ANY, req, vk, tokens)
    ensures name != "" ==>
              && (Matches(re, ANY.(model := name), req, vk, tokens) <==> req.model == name)
              && (Matches(re, ANY.(modelPrefix := name), req, vk, tokens) <==>
                    |name| <= |req.model| && req.model[..|name|] == name)
              && (Matches(re, ANY.(modelRegex := name), req, vk, tokens) <==> re.matches(name, req.model))
    ensures Matches(re, ANY.(minTokens := n), req, vk, tokens) <==> n <= 0 || tokens >= n
    ensures Matches(re, ANY.(maxTokens := n), req, vk, tokens) <==> n <= 0 || tokens <= n
    ensures Matches(re, ANY.(hasTools := true), req, vk, tokens) <==> req.tools >= 1
  {
  }

  /** What those on the virtual key ask for: a key, and that it carries the id. */
  lemma KeyConditions(re: Regexes, req: Request, vk: Option<VirtualKey>, tokens: int, id: string)
    ensures Matches(re, ANY.(keyId := Some(id)), req, vk, tokens) <==> vk.Some? && vk.value.id == id
    ensures Matches(re, ANY.(userId := Some(id)), req, vk, tokens) <==> vk.Some? && vk.value.user == Some(id)
    ensures Matches(re, ANY.(teamId := Some(id)), req, vk, tokens) <==> vk.Some? && vk.value.team == Some(id)
    ensures Matches(re, ANY.(orgId := Some(id)), req, vk, tokens) <==> vk.Some? && vk.value.org == Some(id)
  {
  }

  /** What one on a metadata field asks for: metadata in which it has that value, a missing one being empty. */
  lemma MetadataCondition(re: Regexes, req: Request, vk: Option<VirtualKey>, tokens: int, k: string, v: string)
    ensures Matches(re, ANY.(metadata := map[k := v]), req, vk, tokens) <==>
            req.metadata != map[] && if k in req.metadata then req.metadata[k] == v else v == ""
  {
    assert map[k := v] != map[] by {
      assert k in map[k := v];
    }
  }

  function Length(lengths: seq<nat>): nat {
    if lengths == [] then 0 else Length(lengths[..|lengths| - 1]) + lengths[|lengths| - 1]
  }

  /** The estimate is a quarter of the text, up to three characters a message. */
  lemma {:induction false} EstimateIsQuarter(lengths: seq<nat>)
    ensures 4 * EstimatedTokens(lengths) <= Length(lengths) <= 4 * EstimatedTokens(lengths) + 3 * |lengths|
  {
    if lengths != [] {
      EstimateIsQuarter(lengths[..|lengths| - 1]);
    }
  }

  /** expandTargets: "{model}" stands for the requested model. */
  function Expand(ts: seq<Target>, model: string): (r: seq<Target>)
    ensures |r| == |ts|
    ensures forall i :: 0 <= i < |ts| ==>
              r[i] == if ts[i].model == "{model}" then ts[i].(model := model) else ts[i]
  {
    seq(|ts|, i requires 0 <= i < |ts| => if ts[i].model == "{model}" then ts[i].(model := model) else ts[i])
  }

  // ----- chains

  predicate SamePair(a: Target, b: Target) {
    a.provider == b.provider && a.model == b.model
  }

  function Pairs(ts: seq<Target>): set<(string, string)> {
    set t | t in ts :: (t.provider, t.model)
  }

  /** The targets with another provider or model than x, in order. */
  function Others(ts: seq<Target>, x: Target): seq<Target> {
    if ts == [] then []
    else Others(ts[..|ts| - 1], x) + if SamePair(ts[|ts| - 1], x) then [] else [ts[|ts| - 1]]
  }

  lemma {:induction false} OthersKeep(ts: seq<Target>, x: Target, t: Target)
    ensures t in Others(ts, x) <==> t in ts && !SamePair(t, x)
  {
    if ts != [] {
      OthersKeep(ts[..|ts| - 1], x, t);
      assert ts == ts[..|ts| - 1] + [ts[|ts| - 1]];
    }
  }

  /** What is left keeps its order and repetition. */
  lemma {:induction false} OthersParts(a: seq<Target>, b: seq<Target>, x: Target)
    ensures Others(a + b, x) == Others(a, x) + Others(b, x)
    ensures |b| == 1 ==> Others(b, x) == if b[0].provider == x.provider && b[0].model == x.model then [] else b
    decreases |b|
  {
    if b == [] {
      assert a + b == a;
    } else {
      assert (a + b)[..|a + b| - 1] == a + b[..|b| - 1];
      OthersParts(a, b[..|b| - 1], x);
    }
  }

  /** A weighted chain has the chosen pair once, at its head, and the same pairs as the rule. */
  lemma WeightedChainPairs(ts: seq<Target>, x: Target)
    requires x in ts
    ensures Pairs([x] + Others(ts, x)) == Pairs(ts)
    ensures forall i :: 1 <= i < |[x] + Others(ts, x)| ==> !SamePair(([x] + Others(ts, x))[i], x)
  {
    var chain := [x] + Others(ts, x);
    forall t: Target ensures t in chain <==> t == x || (t in ts && !SamePair(t, x)) {
      OthersKeep(ts, x, t);
    }
    forall p ensures p in Pairs(chain) <==> p in Pairs(ts) {
      if p in Pairs(ts) {
        var t :| t in ts && (t.provider, t.model) == p;
        assert t in chain || SamePair(t, x);
        assert x in chain;
      }
      if p in Pairs(chain) {
        var t :| t in chain && (t.provider, t.model) == p;
        assert t in ts;
      }
    }
    OthersDiffer(ts, x);
  }

  lemma OthersDiffer(ts: seq<Target>, x: Target)
    ensures forall i :: 1 <= i < |[x] + Others(ts, x)| ==> !SamePair(([x] + Others(ts, x))[i], x)
  {
    var chain := [x] + Others(ts, x);
    forall i | 1 <= i < |chain| ensures !SamePair(chain[i], x) {
      assert chain[i] == Others(ts, x)[i - 1];
      OthersKeep(ts, x, chain[i]);
    }
  }

  type Pricing = (string, int, int) -> real

  function CostOf(pricing: Pricing, tokens: int, t: Target): real {
    pricing(t.model, tokens, tokens / 2)
  }

  function CheaperFor(pricing: Pricing, tokens: int): (Target, Target) -> bool {
    (a: Target, b: Target) => CostOf(pricing, tokens, a) < CostOf(pricing, tokens, b)
  }

  /** What sort.Slice promises: some sorted permutation. */
  ghost predicate SomeSort<T(!new)>(less: (T, T) -> bool, s: seq<T>, r: seq<T>) {
    multiset(r) == multiset(s) && StableSort.Sorted(less, r)
  }

  method SortSlice<T(!new)>(less: (T, T) -> bool, s: seq<T>) returns (r: seq<T>)
    requires StableSort.StrictWeak(less)
    ensures SomeSort(less, s, r)
  {
    StableSort.SortStable(less, s);
    StableSort.SortPermutes(less, s);
    r := StableSort.Sort(less, s);
  }

  /** None: the weights of a weighted rule sum to less than zero and rand.Intn panics. */
  ghost predicate ChainOf(pricing: Option<Pricing>, intn: int -> int, rule: Rule, req: Request, chain: Option<Chain>)
    requires rule.targets != []
  {
    var ts := Expand(rule.targets, req.model);
    match rule.strategy
    case Weighted =>
      var i := WeightedIndex(ts, intn);
      if i.None? then chain == None
      else i.value < |ts| && chain == Some(Chain(rule.name, [ts[i.value]] + Others(ts, ts[i.value])))
    case Direct => chain == Some(Chain(rule.name, ts[..1]))
    case LeastCost =>
      && chain.Some? && chain.value.name == rule.name
      && if pricing.None? then chain.value.targets == ts
         else SomeSort(CheaperFor(pricing.value, EstimatedTokens(req.contentLengths)), ts, chain.value.targets)
    case _ => chain == Some(Chain(rule.name, ts))
  }

  /**
    Every chain keeps the rule's provider/model pairs, except a direct one, which is the first target
    alone. The one way to get no chain is a weighted rule whose weights sum to less than zero.
   */
  lemma ChainKeepsPairs(pricing: Option<Pricing>, intn: int -> int, rule: Rule, req: Request, chain: Option<Chain>)
    requires rule.targets != [] && WeightedChoice.Generator(intn) && ChainOf(pricing, intn, rule, req, chain)
    ensures chain == None
       <==> rule.strategy == Weighted && WeightedChoice.Total(Weights(Expand(rule.targets, req.model))) < 0
    ensures chain.Some? ==>
              var ts := Expand(rule.targets, req.model);
              && chain.value.targets != []
              && Pairs(chain.value.targets) == if rule.strategy == Direct then Pairs(ts[..1]) else Pairs(ts)
  {
    var ts := Expand(rule.targets, req.model);
    match rule.strategy {
      case Weighted =>
        var i := WeightedIndex(ts, intn);
        if i.Some? {
          WeightedChainPairs(ts, ts[i.value]);
        }
      case LeastCost =>
        SamePairs(chain.value.targets, ts);
      case _ =>
    }
  }

  /** A least-cost chain ascends in the price of the estimated request, half of it again as output. */
  lemma LeastCostAscends(pricing: Pricing, intn: int -> int, rule: Rule, req: Request, chain: Option<Chain>)
    requires rule.targets != [] && rule.strategy == LeastCost && ChainOf(Some(pricing), intn, rule, req, chain)
    ensures var n := EstimatedTokens(req.contentLengths);
            && chain.Some? && multiset(chain.value.targets) == multiset(Expand(rule.targets, req.model))
            && forall i, j :: 0 <= i < j < |chain.value.targets| ==>
                 pricing(chain.value.targets[i].model, n, n / 2) <= pricing(chain.value.targets[j].model, n, n / 2)
  {
    var n, less := EstimatedTokens(req.contentLengths), CheaperFor(pricing, EstimatedTokens(req.contentLengths));
    var ts := chain.value.targets;
    forall i, j | 0 <= i < j < |ts| ensures pricing(ts[i].model, n, n / 2) <= pricing(ts[j].model, n, n / 2) {
      assert !less(ts[j], ts[i]);
    }
  }

  lemma SamePairs(a: seq<Target>, b: seq<Target>)
    requires multiset(a) == multiset(b)
    ensures Pairs(a) == Pairs(b) && (a == [] <==> b == [])
  {
    forall t ensures t in a <==> t in b {
      assert t in a <==> t in multiset(a);
      assert t in b <==> t in multiset(b);
    }
    assert |multiset(a)| == |a| && |multiset(b)| == |b|;
  }

  /** The position weightedSelect picks. */
  function WeightedIndex(ts: seq<Target>, intn: int -> int): Option<nat>
    requires ts != []
  {
    var total := WeightedChoice.Total(Weights(ts));
    if total < 0 then None
    else if total == 0 then (if intn(|ts|) >= 0 then Some(intn(|ts|)) else None)
    else Some(WeightedChoice.Choose(Weights(ts), intn(total)))
  }

  lemma CheaperStrictWeak(pricing: Pricing, tokens: int)
    ensures StableSort.StrictWeak(CheaperFor(pricing, tokens))
  {
  }

  method BuildChain(pricing: Option<Pricing>, intn: int -> int, rule: Rule, req: Request) returns (chain: Option<Chain>)
    requires rule.targets != [] && WeightedChoice.Generator(intn)
    ensures ChainOf(pricing, intn, rule, req, chain)
  {
    var ts := Expand(rule.targets, req.model);
    match rule.strategy {
      case Direct =>
        chain := Some(Chain(rule.name, ts[..1]));
      case Weighted =>
        var i := WeightedChoice.WeightedSelect(Weights(ts), intn);
        if i.None? {
          return None;
        }
        var selected := ts[i.value];
        var rest := OthersOf(ts, selected);
        chain := Some(Chain(rule.name, [selected] + rest));
      case LeastCost =>
        if pricing.None? {
          return Some(Chain(rule.name, ts));
        }
        var estimated := EstimateTokens(req.contentLengths);
        CheaperStrictWeak(pricing.value, estimated);
        var sorted := SortSlice(CheaperFor(pricing.value, estimated), ts);
        chain := Some(Chain(rule.name, sorted));
      case _ =>
        chain := Some(Chain(rule.name, ts));
    }
  }

  method OthersOf(ts: seq<Target>, x: Target) returns (rest: seq<Target>)
    ensures rest == Others(ts, x)
  {
    rest := [];
    for i := 0 to |ts|
      invariant rest == Others(ts[..i], x)
    {
      assert ts[..i + 1][..i] == ts[..i];
      if !SamePair(ts[i], x) {
        rest := rest + [ts[i]];
      }
    }
    assert ts[..|ts|] == ts;
  }

  // ----- the router

  function Enabled(rules: seq<Rule>): seq<Rule> {
    if rules == [] then []
    else Enabled(rules[..|rules| - 1]) + if rules[|rules| - 1].enabled then [rules[|rules| - 1]] else []
  }

  lemma {:induction false} EnabledKeeps(rules: seq<Rule>, r: Rule)
    ensures r in Enabled(rules) <==> r in rules && r.enabled
  {
    if rules != [] {
      EnabledKeeps(rules[..|rules| - 1], r);
      assert rules == rules[..|rules| - 1] + [rules[|rules| - 1]];
    }
  }

  predicate Compiles(re: Regexes, r: Rule) {
    r.cond.modelRegex == "" || re.compiles(r.cond.modelRegex)
  }

  const HIGHER: (Rule, Rule) -> bool := (a: Rule, b: Rule) => a.priority > b.priority

  /** Enabled, matching, and able to produce a chain. */
  predicate Eligible(re: Regexes, r: Rule, req: Request, vk: Option<VirtualKey>) {
    r.enabled && Matches(re, r.cond, req, vk, EstimatedTokens(req.contentLengths)) && r.targets != []
  }

  /** An eligible rule of the set that no eligible rule of the set outranks. */
  ghost predicate Best(re: Regexes, rules: seq<Rule>, req: Request, vk: Option<VirtualKey>, r: Rule) {
    && r in rules && Eligible(re, r, req, vk)
    && forall o :: o in rules && Eligible(re, o, req, vk) ==> o.priority <= r.priority
  }

  datatype Resolution = NoMatch | Resolved(rule: Rule, chain: Option<Chain>)

  class AdvancedRouter {
    var rules: seq<Rule>
    const re: Regexes
    const pricing: Option<Pricing>
    /** The rule set last loaded successfully. */
    ghost var loaded: seq<Rule>

    /** The compiled list is the enabled rules of the loaded set, highest priority first. */
    ghost predicate Valid()
      reads this
    {
      SomeSort(HIGHER, Enabled(loaded), rules)
    }

    constructor (re: Regexes, pricing: Option<Pricing>)
      ensures Valid() && loaded == [] && this.re == re && this.pricing == pricing
    {
      this.re, this.pricing := re, pricing;
      rules, loaded := [], [];
    }

    /** Succeeds exactly if every enabled rule compiles; a failed reload leaves the old rules in force. */
    method Reload(source: seq<Rule>) returns (ok: bool)
      requires Valid()
      modifies this
      ensures Valid()
      ensures ok <==> forall r :: r in source && r.enabled ==> Compiles(re, r)
      ensures if ok then loaded == source else loaded == old(loaded) && rules == old(rules)
    {
      var compiled: seq<Rule> := [];
      for i := 0 to |source|
        invariant compiled == Enabled(source[..i])
        invariant forall r :: r in source[..i] && r.enabled ==> Compiles(re, r)
      {
        var r := source[i];
        assert source[..i + 1] == source[..i] + [r] && source[..i + 1][..i] == source[..i];
        if !r.enabled {
          continue;
        }
        if !Compiles(re, r) {
          assert r in source;
          return false;
        }
        compiled := compiled + [r];
      }
      assert source[..|source|] == source;
      compiled := SortSlice(HIGHER, compiled);
      rules, loaded := compiled, source;
      ok := true;
    }

    /**
      The first match of the sorted list is a best rule of the loaded set, and there is no match only if
      no loaded rule is eligible.
     */
    method Resolve(req: Request, vk: Option<VirtualKey>, intn: int -> int) returns (r: Resolution)
      requires Valid() && WeightedChoice.Generator(intn)
      ensures r.NoMatch? <==> forall o :: o in loaded ==> !Eligible(re, o, req, vk)
      ensures r.Resolved? ==> Best(re, loaded, req, vk, r.rule) && ChainOf(pricing, intn, r.rule, req, r.chain)
    {
      forall o ensures o in rules <==> o in loaded && o.enabled {
        EnabledKeeps(loaded, o);
        assert o in rules <==> o in multiset(rules);
        assert o in Enabled(loaded) <==> o in multiset(Enabled(loaded));
      }
      var estimated := EstimateTokens(req.contentLengths);
      for i := 0 to |rules|
        invariant forall j :: 0 <= j < i ==> !Eligible(re, rules[j], req, vk)
      {
        var rule := rules[i];
        if !Matches(re, rule.cond, req, vk, estimated) {
          continue;
        }
        if rule.targets == [] {
          continue;
        }
        assert rule in rules;
        FirstIsBest(re, rules, req, vk, i);
        var chain := BuildChain(pricing, intn, rule, req);
        return Resolved(rule, chain);
      }
      r := NoMatch;
    }
  }

  lemma FirstIsBest(re: Regexes, rules: seq<Rule>, req: Request, vk: Option<VirtualKey>, i: nat)
    requires StableSort.Sorted(HIGHER, rules) && i < |rules|
    requires Eligible(re, rules[i], req, vk) && forall j :: 0 <= j < i ==> !Eligible(re, rules[j], req, vk)
    ensures Best(re, rules, req, vk, rules[i])
  {
    forall o | o in rules && Eligible(re, o, req, vk) ensures o.priority <= rules[i].priority {
      var j :| 0 <= j < |rules| && rules[j] == o;
      if j != i {
        assert !HIGHER(rules[j], rules[i]);
      }
    }
  }
}
