/**
  Data residency on the chat path: the enforcer of internal/residency/enforcer.go and the order of
  steps in internal/gateway/handler/chat.go, down to the providers actually contacted.
 */
module Residency {
  import opened Common
  import opened Chains
  import CB = CircuitBreaker
  import Fallback
  import LoadBalancer

  /** BlockedProviders and the keys of AllowedProviders; an empty allow-list allows all. */
  datatype Policy = Policy(allowed: set<string>, blocked: map<string, bool>)

  predicate IsProviderAllowed(p: Policy, provider: string) {
    if provider in p.blocked && p.blocked[provider] then false
    else p.allowed == {} || provider in p.allowed
  }

  /** The targets a policy allows, in their order. */
  function Compliant(p: Policy, ts: seq<Target>): seq<Target> {
    if ts == [] then []
    else Compliant(p, ts[..|ts| - 1])
         + if IsProviderAllowed(p, ts[|ts| - 1].provider) then [ts[|ts| - 1]] else []
  }

  lemma {:induction false} CompliantKeeps(p: Policy, ts: seq<Target>, t: Target)
    ensures t in Compliant(p, ts) <==> t in ts && IsProviderAllowed(p, t.provider)
  {
    if ts != [] {
      CompliantKeeps(p, ts[..|ts| - 1], t);
      assert ts == ts[..|ts| - 1] + [ts[|ts| - 1]];
    }
  }

  /** Filtering keeps order and repetition: it goes target by target. */
  lemma {:induction false} CompliantParts(p: Policy, a: seq<Target>, b: seq<Target>)
    ensures Compliant(p, a + b) == Compliant(p, a) + Compliant(p, b)
    ensures |b| == 1 ==> Compliant(p, b) == if IsProviderAllowed(p, b[0].provider) then b else []
    decreases |b|
  {
    if b == [] {
      assert a + b == a;
    } else {
      assert (a + b)[..|a + b| - 1] == a + b[..|b| - 1];
      CompliantParts(p, a, b[..|b| - 1]);
    }
  }

  /** FilterChain; None is ErrNoCompliantProvider. */
  method FilterChain(registry: map<string, Policy>, policyName: string, chain: Chain) returns (r: Option<Chain>)
    ensures policyName !in registry ==> r == Some(chain)
    ensures policyName in registry ==>
              var kept := Compliant(registry[policyName], chain.targets);
              r == if kept == [] then None else Some(Chain(chain.name, kept))
    ensures r.Some? && policyName in registry ==> r.value.targets != []
    ensures r.Some? ==> forall t :: t in r.value.targets <==>
              t in chain.targets && (policyName in registry ==> IsProviderAllowed(registry[policyName], t.provider))
    ensures r.None? ==> policyName in registry
                        && forall t :: t in chain.targets ==> !IsProviderAllowed(registry[policyName], t.provider)
  {
    if policyName !in registry {
      return Some(chain);
    }
    var policy := registry[policyName];
    var filtered: seq<Target> := [];
    for i := 0 to |chain.targets|
      invariant filtered == Compliant(policy, chain.targets[..i])
    {
      var t := chain.targets[i];
      assert chain.targets[..i + 1][..i] == chain.targets[..i];
      if IsProviderAllowed(policy, t.provider) {
        filtered := filtered + [t];
      }
    }
    assert chain.targets[..|chain.targets|] == chain.targets;
    forall t ensures t in filtered <==> t in chain.targets && IsProviderAllowed(policy, t.provider) {
      CompliantKeeps(policy, chain.targets, t);
    }
    if |filtered| == 0 {
      return None;
    }
    r := Some(Chain(chain.name, filtered));
  }

  /** The first slash of a model string, or -1. */
  function SlashAt(s: string): (r: int)
    ensures -1 <= r < |s|
  {
    if s == [] then -1
    else if s[0] == '/' then 0
    else
      var r := SlashAt(s[1..]);
      if r < 0 then -1 else r + 1
  }

  /** parseModel: the provider before the first slash, or openai. */
  function ParseModel(model: string): (string, string) {
    var i := SlashAt(model);
    if i > 0 then (model[..i], model[i + 1..]) else ("openai", model)
  }

  /** resolveChain: a configured chain of that name, or a single target. */
  function ResolveChain(chains: map<string, Chain>, model: string): Chain {
    if model in chains then chains[model]
    else
      var (provider, name) := ParseModel(model);
      SingleTarget(provider, name)
  }

  /** The providers a walk contacted. */
  function ContactedProviders(ts: seq<Target>, steps: seq<Fallback.Step>): set<string>
    requires |steps| <= |ts|
  {
    set i | 0 <= i < |steps| && steps[i].Contacted? :: ts[i].provider
  }

  /** The targets left of a chain: those the named policy allows, or all without a registered policy. */
  function AllowedTargets(residency: Option<map<string, Policy>>, policyName: string, chain: Chain): seq<Target> {
    if residency.Some? && policyName != "" && policyName in residency.value
    then Compliant(residency.value[policyName], chain.targets)
    else chain.targets
  }

  /** The targets were balanced and walked: steps, outcome, breaker and contacted providers are the walk's. */
  ghost predicate Executed(cfg: CB.Config, registry: set<string>, mode: Fallback.Mode, strategy: LoadBalancer.Strategy,
                           w: Fallback.World, targets: seq<Target>, before: map<string, CB.Entry>,
                           after: map<string, CB.Entry>, r: Fallback.Outcome, steps: seq<Fallback.Step>,
                           contacted: set<string>)
  {
    var ts := LoadBalancer.Balance(strategy, targets);
    && Fallback.Follows(cfg, registry, mode, w, ts, before, steps) && Fallback.Means(ts, steps, r)
    && contacted == ContactedProviders(ts, steps)
    && after == Fallback.Replay(cfg, before, Fallback.WalkEvents(w, ts, steps))
  }

  /** The target after these steps is registered and its circuit does not block it. */
  predicate CanContact(cfg: CB.Config, registry: set<string>, w: Fallback.World, ts: seq<Target>,
                       m: map<string, CB.Entry>, before: seq<Fallback.Step>)
    requires |before| < |ts|
  {
    var n := |before|;
    Fallback.Available(cfg, registry, Fallback.Asked(cfg, m, w, ts, before), ts[n], w.queryAt(n))
  }

  lemma NobodyMeans(ts: seq<Target>, steps: seq<Fallback.Step>, r: Fallback.Outcome)
    requires |steps| <= |ts| && Fallback.Means(ts, steps, r)
    ensures r == Fallback.NoneAvailable <==> ContactedProviders(ts, steps) == {}
  {
    if r == Fallback.NoneAvailable {
      forall j | 0 <= j < |steps| ensures !steps[j].Contacted? {
        Fallback.NoContacts(steps, j);
      }
    } else if forall s :: s in steps ==> !s.Contacted? {
      Fallback.NobodyContacted(steps);
    } else {
      var j :| 0 <= j < |steps| && steps[j].Contacted?;
      assert ts[j].provider in ContactedProviders(ts, steps);
    }
  }

  /** A target the walk comes to and finds registered and not blocked is among the contacted. */
  lemma ReachedIsContacted(cfg: CB.Config, registry: set<string>, mode: Fallback.Mode, w: Fallback.World,
                           ts: seq<Target>, before: map<string, CB.Entry>, steps: seq<Fallback.Step>, j: nat)
    requires Fallback.Follows(cfg, registry, mode, w, ts, before, steps) && j < |steps|
    requires CanContact(cfg, registry, w, ts, before, steps[..j])
    ensures ts[j].provider in ContactedProviders(ts, steps)
  {
    Fallback.ContactedExactlyWhen(cfg, registry, mode, w, ts, before, steps, j);
  }

  /**
    What a request gets out of that: every target the walk finds registered and not blocked is contacted; if
    the first one is, it serves the request if its first call succeeds; nobody is available exactly if nobody
    was contacted, and exactly if every target was blocked or unregistered when it was asked for.
   */
  lemma ExecutedLaw(cfg: CB.Config, registry: set<string>, mode: Fallback.Mode, strategy: LoadBalancer.Strategy,
                    w: Fallback.World, targets: seq<Target>, before: map<string, CB.Entry>,
                    after: map<string, CB.Entry>, r: Fallback.Outcome, steps: seq<Fallback.Step>,
                    contacted: set<string>)
    requires Executed(cfg, registry, mode, strategy, w, targets, before, after, r, steps, contacted)
    ensures var ts := LoadBalancer.Balance(strategy, targets);
            && |steps| <= |ts|
            && (forall j :: 0 <= j < |steps| && CanContact(cfg, registry, w, ts, before, steps[..j]) ==>
                  ts[j].provider in contacted)
            && (r == Fallback.NoneAvailable <==> contacted == {})
            && (ts != [] && CanContact(cfg, registry, w, ts, before, []) ==>
                  ts[0].provider in contacted && (w.call(0, 0) == None ==> r == Fallback.Served(0)))
            && (r == Fallback.NoneAvailable <==>
                  && |steps| == |ts|
                  && forall j :: 0 <= j < |steps| ==> !CanContact(cfg, registry, w, ts, before, steps[..j]))
  {
    var ts := LoadBalancer.Balance(strategy, targets);
    Fallback.NoneAvailableExactlyWhen(cfg, registry, mode, w, ts, before, steps, r);
    NobodyMeans(ts, steps, r);
    forall j | 0 <= j < |steps| && CanContact(cfg, registry, w, ts, before, steps[..j])
      ensures ts[j].provider in contacted
    {
      ReachedIsContacted(cfg, registry, mode, w, ts, before, steps, j);
    }
    if ts != [] && CanContact(cfg, registry, w, ts, before, []) {
      assert steps != [] && steps[..0] == [];
      if w.call(0, 0) == None {
        Fallback.FirstServes(cfg, registry, mode, w, ts, before, steps, r);
      }
    }
  }

  // ----- models and policies

  lemma {:induction false} SlashUnique(s: string, k: nat)
    requires k < |s| && s[k] == '/' && '/' !in s[..k]
    ensures SlashAt(s) == k
  {
    if k > 0 {
      assert s[0] in s[..k];
      assert s[..k] == [s[0]] + s[1..][..k - 1];
      SlashUnique(s[1..], k - 1);
    }
  }

  lemma {:induction false} NoSlash(s: string)
    requires '/' !in s
    ensures SlashAt(s) < 0
  {
    if s != [] {
      NoSlash(s[1..]);
    }
  }

  /** A provider and a name joined by a slash parse back to the two; anything else goes to openai as it is. */
  lemma ParsedModel(provider: string, name: string)
    requires '/' !in provider
    ensures ParseModel(provider + "/" + name) == if provider == "" then ("openai", "/" + name) else (provider, name)
    ensures ParseModel(provider) == ("openai", provider)
  {
    var model := provider + "/" + name;
    assert model[..|provider|] == provider && model[|provider| + 1..] == name;
    SlashUnique(model, |provider|);
    NoSlash(provider);
    assert provider == "" ==> model == "/" + name;
  }

  /** Such a model resolves to that one target, unless a chain has that name. */
  lemma ResolvesToTarget(chains: map<string, Chain>, provider: string, name: string)
    requires provider != "" && '/' !in provider && provider + "/" + name !in chains
    ensures ResolveChain(chains, provider + "/" + name) == Chain(provider, [Target(provider, name, 0)])
  {
    ParsedModel(provider, name);
  }

  /** Of a set of providers a policy allows those on its list, all if it has none, less the blocked ones. */
  lemma AllowedProviders(p: Policy, providers: set<string>)
    ensures (set x | x in providers && IsProviderAllowed(p, x))
         == (if p.allowed == {} then providers else providers * p.allowed)
            - (set x | x in p.blocked.Keys && p.blocked[x])
  {
  }

  datatype Answer = ModelNotFound | ResidencyViolation | Done(outcome: Fallback.Outcome)

  class ChatHandler {
    const router: Fallback.Router
    const residency: Option<map<string, Policy>>
    var chains: map<string, Chain>

    constructor (router: Fallback.Router, residency: Option<map<string, Policy>>, chains: map<string, Chain>)
      ensures this.router == router && this.residency == residency && this.chains == chains
    {
      this.router, this.residency, this.chains := router, residency, chains;
    }

    /**
      Handle from routing to execution, `advanced` being the rule engine's chain if it found one. Under a
      registered policy only allowed providers are contacted, and none when the chain has none.
     */
    method Handle(model: string, advanced: Option<Chain>, policyName: string, mode: Fallback.Mode,
                  strategy: LoadBalancer.Strategy, w: Fallback.World)
      returns (a: Answer, contacted: set<string>, steps: seq<Fallback.Step>)
      requires Fallback.SaneWorld(w)
      modifies router.cb
      ensures var chain := if advanced.Some? then advanced.value else ResolveChain(chains, model);
              && contacted <= (set t | t in chain.targets :: t.provider)
              && (chain.targets == [] <==> a == ModelNotFound)
              && (residency.Some? && policyName != "" && policyName in residency.value ==>
                    var policy := residency.value[policyName];
                    && (forall p :: p in contacted ==> IsProviderAllowed(policy, p))
                    && (a == ResidencyViolation <==>
                          && chain.targets != []
                          && forall t :: t in chain.targets ==> !IsProviderAllowed(policy, t.provider)))
      ensures a == ResidencyViolation ==> residency.Some? && policyName != "" && policyName in residency.value
      ensures !a.Done? ==> contacted == {} && router.cb.entries == old(router.cb.entries)
      ensures a.Done? ==> (a.outcome == Fallback.NoneAvailable <==> contacted == {})
      ensures a.Done? ==>
                var chain := if advanced.Some? then advanced.value else ResolveChain(chains, model);
                Executed(router.cb.cfg, router.registry, mode, strategy, w,
                         AllowedTargets(residency, policyName, chain),
                         old(router.cb.entries), router.cb.entries, a.outcome, steps, contacted)
    {
      contacted, steps := {}, [];
      var chain := if advanced.Some? then advanced.value else ResolveChain(chains, model);
      if |chain.targets| == 0 {
        return ModelNotFound, {}, [];
      }
      if residency.Some? && policyName != "" {
        var filtered := FilterChain(residency.value, policyName, chain);
        if filtered.None? {
          return ResidencyViolation, {}, [];
        }
        chain := filtered.value;
        assert chain.targets[0] in chain.targets;
      }
      var r;
      r, contacted, steps := Run(mode, chain.targets, strategy, w);
      a := Done(r);
    }

    /** The balanced chain walked by the router: its law, and only providers of the chain are contacted. */
    method Run(mode: Fallback.Mode, targets: seq<Target>, strategy: LoadBalancer.Strategy, w: Fallback.World)
      returns (r: Fallback.Outcome, contacted: set<string>, steps: seq<Fallback.Step>)
      requires Fallback.SaneWorld(w)
      modifies router.cb
      ensures Executed(router.cb.cfg, router.registry, mode, strategy, w, targets,
                       old(router.cb.entries), router.cb.entries, r, steps, contacted)
      ensures forall p :: p in contacted ==> exists t :: t in targets && t.provider == p
      ensures r == Fallback.NoneAvailable <==> contacted == {}
    {
      var ts := LoadBalancer.Balance(strategy, targets);
      LoadBalancer.BalanceReorders(strategy, targets);
      SameElements(ts, targets);
      r, steps := router.Walk(mode, ts, w);
      contacted := ContactedProviders(ts, steps);
      forall p | p in contacted ensures exists t :: t in targets && t.provider == p {
        var i :| 0 <= i < |steps| && steps[i].Contacted? && ts[i].provider == p;
        assert ts[i] in ts;
      }
      ExecutedLaw(router.cb.cfg, router.registry, mode, strategy, w, targets,
                  old(router.cb.entries), router.cb.entries, r, steps, contacted);
    }
  }

  lemma SameElements(a: seq<Target>, b: seq<Target>)
    requires multiset(a) == multiset(b)
    ensures forall t :: t in a <==> t in b
  {
    forall t ensures t in a <==> t in b {
      assert t in a <==> t in multiset(a);
    }
  }
}
