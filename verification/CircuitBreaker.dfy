/**
  The per-provider circuit breaker of internal/gateway/circuitbreaker/circuit_breaker.go: the
  object, and what its state says about the history of events that led to it. Times are nanoseconds.
 */
module CircuitBreaker {
  import opened Common

  datatype State = Closed | Open | HalfOpen

  datatype Config = Config(failureThreshold: int, successThreshold: int, openTimeout: int)

  datatype Entry = Entry(state: State, failures: int, successes: int, lastFailureAt: int)

  /** Go's zero time lies before every clock reading; only Closed entries hold it. */
  const ZERO_TIME := -1
  const NEW_ENTRY := Entry(Closed, 0, 0, ZERO_TIME)

  /** What can happen to a provider's entry. */
  datatype Event = Query(now: int) | Success | Failure(now: int) | Reset

  /** Does IsOpen(provider) answer true? */
  predicate Blocked(cfg: Config, e: Entry, now: int) {
    e.state == Open && now - e.lastFailureAt < cfg.openTimeout
  }

  function Apply(cfg: Config, e: Entry, ev: Event): Entry {
    match ev
    case Query(now) =>
      if e.state == Open && !Blocked(cfg, e, now) then e.(state := HalfOpen, successes := 0) else e
    case Success =>
      (match e.state
       case HalfOpen =>
         if e.successes + 1 >= cfg.successThreshold then e.(state := Closed, failures := 0, successes := 0)
         else e.(successes := e.successes + 1)
       case Closed => e.(failures := 0)
       case Open => e)
    case Failure(now) =>
      var f := e.(failures := e.failures + 1, lastFailureAt := now);
      (match e.state
       case Closed => if f.failures >= cfg.failureThreshold then f.(state := Open) else f
       case HalfOpen => f.(state := Open, failures := 0)
       case Open => f)
    case Reset => NEW_ENTRY
  }

  class Breaker {
    var entries: map<string, Entry>
    const cfg: Config

    constructor (cfg: Config)
      ensures entries == map[] && this.cfg == cfg
    {
      this.cfg := cfg;
      entries := map[];
    }

    /** A provider never seen reads as a new, closed entry. */
    function EntryOf(provider: string): Entry
      reads this
    {
      if provider in entries then entries[provider] else NEW_ENTRY
    }

    method IsOpen(provider: string, now: int) returns (open: bool)
      modifies this
      ensures open == Blocked(cfg, old(EntryOf(provider)), now)
      ensures entries == old(entries)[provider := Apply(cfg, old(EntryOf(provider)), Query(now))]
    {
      var e := EntryOf(provider);
      open := false;
      if e.state == Open {
        if now - e.lastFailureAt >= cfg.openTimeout {
          e := e.(state := HalfOpen, successes := 0);
        } else {
          open := true;
        }
      }
      entries := entries[provider := e];
    }

    method RecordSuccess(provider: string)
      modifies this
      ensures entries == old(entries)[provider := Apply(cfg, old(EntryOf(provider)), Success)]
    {
      var e := EntryOf(provider);
      match e.state {
        case HalfOpen =>
          e := e.(successes := e.successes + 1);
          if e.successes >= cfg.successThreshold {
            e := e.(state := Closed, failures := 0, successes := 0);
          }
        case Closed =>
          e := e.(failures := 0);
        case Open =>
      }
      entries := entries[provider := e];
    }

    method RecordFailure(provider: string, now: int)
      modifies this
      ensures entries == old(entries)[provider := Apply(cfg, old(EntryOf(provider)), Failure(now))]
    {
      var e := EntryOf(provider);
      e := e.(failures := e.failures + 1);
      e := e.(lastFailureAt := now);
      match e.state {
        case Closed =>
          if e.failures >= cfg.failureThreshold {
            e := e.(state := Open);
          }
        case HalfOpen =>
          e := e.(state := Open, failures := 0);
        case Open =>
      }
      entries := entries[provider := e];
    }

    method ResetProvider(provider: string)
      modifies this
      ensures entries == old(entries)[provider := Apply(cfg, old(EntryOf(provider)), Reset)]
    {
      entries := entries[provider := NEW_ENTRY];
    }
  }

  // ----- histories

  /** The entry after a history of one provider's events. */
  function After(cfg: Config, h: seq<Event>): Entry {
    if h == [] then NEW_ENTRY else Apply(cfg, After(cfg, h[..|h| - 1]), h[|h| - 1])
  }

  /** Failures since the last success or reset. */
  function TrailingFailures(h: seq<Event>): nat {
    if h == [] then 0
    else
      match h[|h| - 1]
      case Success => 0
      case Reset => 0
      case Failure(_) => TrailingFailures(h[..|h| - 1]) + 1
      case Query(_) => TrailingFailures(h[..|h| - 1])
  }

  function Successes(h: seq<Event>): nat {
    if h == [] then 0
    else Successes(h[..|h| - 1]) + if h[|h| - 1].Success? then 1 else 0
  }

  /** The time of the last failure since the last reset. */
  function LastFailure(h: seq<Event>): int {
    if h == [] then ZERO_TIME
    else
      match h[|h| - 1]
      case Reset => ZERO_TIME
      case Failure(now) => now
      case _ => LastFailure(h[..|h| - 1])
  }

  predicate NoFailureOrReset(h: seq<Event>) {
    forall ev :: ev in h ==> !ev.Failure? && !ev.Reset?
  }

  /** h[k] is the query that found the circuit open and its timeout over. */
  predicate Probe(cfg: Config, h: seq<Event>, k: nat) {
    && k < |h| && h[k].Query?
    && After(cfg, h[..k]).state == Open
    && h[k].now - LastFailure(h[..k]) >= cfg.openTimeout
  }

  /** h[k] is the latest failure, it left the circuit open, and every query since came too early. */
  predicate Tripped(cfg: Config, h: seq<Event>, k: nat) {
    && k < |h| && h[k].Failure?
    && After(cfg, h[..k + 1]).state == Open
    && NoFailureOrReset(h[k + 1..])
    && forall ev :: ev in h[k + 1..] && ev.Query? ==> ev.now - h[k].now < cfg.openTimeout
  }

  /** The query h[k] started a half-open phase that nothing since has ended. */
  predicate Probing(cfg: Config, h: seq<Event>, k: nat) {
    Probe(cfg, h, k) && NoFailureOrReset(h[k + 1..]) && Successes(h[k + 1..]) < cfg.successThreshold
  }

  /** What each state says about the history, and the history about the state. */
  ghost predicate Described(cfg: Config, h: seq<Event>) {
    var e := After(cfg, h);
    && e.lastFailureAt == LastFailure(h)
    && (e.state == Open <==> exists k: nat :: Tripped(cfg, h, k))
    && (e.state == HalfOpen <==> exists k: nat :: Probing(cfg, h, k))
    && (forall k: nat :: Probing(cfg, h, k) ==> e.successes == Successes(h[k + 1..]))
    && (e.state == Closed ==> e.failures == TrailingFailures(h) < cfg.failureThreshold)
  }

  /** The half of it that follows the events one by one. */
  ghost predicate Explained(cfg: Config, h: seq<Event>) {
    var e := After(cfg, h);
    && e.lastFailureAt == LastFailure(h)
    && match e.state
       case Closed => e.failures == TrailingFailures(h) < cfg.failureThreshold
       case HalfOpen => exists k: nat :: Probing(cfg, h, k) && e.successes == Successes(h[k + 1..])
       case Open => exists k: nat :: Tripped(cfg, h, k)
  }

  lemma AfterSnoc(cfg: Config, h: seq<Event>, ev: Event)
    ensures After(cfg, h + [ev]) == Apply(cfg, After(cfg, h), ev)
    ensures LastFailure(h + [ev]) == if ev.Reset? then ZERO_TIME else if ev.Failure? then ev.now else LastFailure(h)
    ensures TrailingFailures(h + [ev])
         == if ev.Success? || ev.Reset? then 0 else TrailingFailures(h) + if ev.Failure? then 1 else 0
  {
    assert (h + [ev])[..|h|] == h;
  }

  lemma SuccessesSnoc(h: seq<Event>, ev: Event)
    ensures Successes(h + [ev]) == Successes(h) + if ev.Success? then 1 else 0
  {
    assert (h + [ev])[..|h|] == h;
  }

  lemma SuffixSnoc(h: seq<Event>, ev: Event, k: nat)
    requires k < |h|
    ensures (h + [ev])[k + 1..] == h[k + 1..] + [ev]
    ensures (h + [ev])[..k] == h[..k] && (h + [ev])[..k + 1] == h[..k + 1]
  {
  }

  /** A probe stays one, whatever follows but a failure or a reset. */
  lemma ProbeKept(cfg: Config, h: seq<Event>, ev: Event, k: nat)
    requires Probe(cfg, h, k) && NoFailureOrReset(h[k + 1..]) && (ev.Query? || ev.Success?)
    ensures Probe(cfg, h + [ev], k) && NoFailureOrReset((h + [ev])[k + 1..])
    ensures Successes((h + [ev])[k + 1..]) == Successes(h[k + 1..]) + if ev.Success? then 1 else 0
  {
    SuffixSnoc(h, ev, k);
    SuccessesSnoc(h[k + 1..], ev);
  }

  /** While half-open, a success or a further query keeps the probe that opened it. */
  lemma HalfOpenStep(cfg: Config, h: seq<Event>, ev: Event)
    requires Explained(cfg, h) && After(cfg, h).state == HalfOpen
    requires ev.Query? || ev.Success?
    ensures After(cfg, h + [ev]).state == HalfOpen ==> Explained(cfg, h + [ev])
  {
    var k: nat :| Probing(cfg, h, k) && After(cfg, h).successes == Successes(h[k + 1..]);
    AfterSnoc(cfg, h, ev);
    ProbeKept(cfg, h, ev, k);
    assert After(cfg, h + [ev]).state == HalfOpen ==> Probing(cfg, h + [ev], k);
  }

  /** While open, anything but a failure or a late query keeps the failure that tripped it. */
  lemma OpenStep(cfg: Config, h: seq<Event>, ev: Event)
    requires Explained(cfg, h) && After(cfg, h).state == Open
    requires ev.Success? || (ev.Query? && Blocked(cfg, After(cfg, h), ev.now))
    ensures Explained(cfg, h + [ev])
  {
    var k: nat :| Tripped(cfg, h, k);
    AfterSnoc(cfg, h, ev);
    SuffixSnoc(h, ev, k);
    LastFailureAt(h, k);
    assert Tripped(cfg, h + [ev], k);
  }

  lemma {:induction false} LastFailureAt(h: seq<Event>, k: nat)
    requires k < |h| && h[k].Failure? && NoFailureOrReset(h[k + 1..])
    ensures LastFailure(h) == h[k].now
  {
    if k < |h| - 1 {
      var g := h[..|h| - 1];
      assert h[|h| - 1] in h[k + 1..];
      var gs, hs := g[k + 1..], h[k + 1..];
      assert forall ev :: ev in gs ==> ev in hs;
      LastFailureAt(g, k);
    }
  }

  /** The query that finds the timeout over starts the half-open phase. */
  lemma ProbeStep(cfg: Config, h: seq<Event>, now: int)
    requires Explained(cfg, h) && After(cfg, h).state == Open && !Blocked(cfg, After(cfg, h), now)
    requires cfg.successThreshold >= 1
    ensures Explained(cfg, h + [Query(now)])
  {
    var g := h + [Query(now)];
    AfterSnoc(cfg, h, Query(now));
    assert g[..|h|] == h && g[|h| + 1..] == [];
    assert Probing(cfg, g, |h|);
  }

  lemma FailureStep(cfg: Config, h: seq<Event>, now: int)
    requires Explained(cfg, h)
    ensures Explained(cfg, h + [Failure(now)])
  {
    var g := h + [Failure(now)];
    AfterSnoc(cfg, h, Failure(now));
    if After(cfg, g).state == Open {
      assert g[..|h| + 1] == g && g[|h| + 1..] == [];
      assert Tripped(cfg, g, |h|);
    }
  }

  lemma {:induction false} HistoryExplains(cfg: Config, h: seq<Event>)
    requires cfg.failureThreshold >= 1 && cfg.successThreshold >= 1
    ensures Explained(cfg, h)
  {
    if h != [] {
      var g, ev := h[..|h| - 1], h[|h| - 1];
      assert h == g + [ev];
      HistoryExplains(cfg, g);
      AfterSnoc(cfg, g, ev);
      var e := After(cfg, g);
      if ev.Failure? {
        FailureStep(cfg, g, ev.now);
      } else if !ev.Reset? && e.state == HalfOpen {
        HalfOpenStep(cfg, g, ev);
      } else if !ev.Reset? && e.state == Open {
        if ev.Query? && !Blocked(cfg, e, ev.now) {
          ProbeStep(cfg, g, ev.now);
        } else {
          OpenStep(cfg, g, ev);
        }
      }
    }
  }

  /** A failure that left the circuit open keeps it open while only early queries and successes follow. */
  lemma {:induction false} TrippedIsOpen(cfg: Config, h: seq<Event>, k: nat)
    requires Tripped(cfg, h, k)
    ensures After(cfg, h).state == Open && After(cfg, h).lastFailureAt == h[k].now
  {
    var n := |h| - 1;
    if k == n {
      assert h[..k + 1] == h;
    } else {
      var g := h[..n];
      assert h[n] in h[k + 1..] && g[..k + 1] == h[..k + 1];
      assert h[k + 1..] == g[k + 1..] + [h[n]];
      TrippedIsOpen(cfg, g, k);
    }
  }

  /** A probe keeps the circuit half-open while fewer than the threshold of successes follow. */
  lemma {:induction false} ProbingIsHalfOpen(cfg: Config, h: seq<Event>, k: nat)
    requires Probing(cfg, h, k)
    ensures After(cfg, h).state == HalfOpen && After(cfg, h).successes == Successes(h[k + 1..])
  {
    var n := |h| - 1;
    if k == n {
      assert h[k + 1..] == [];
      LastFailureKept(cfg, h[..k]);
    } else {
      ProbingBefore(cfg, h, k);
      ProbingIsHalfOpen(cfg, h[..n], k);
    }
  }

  lemma ProbingBefore(cfg: Config, h: seq<Event>, k: nat)
    requires Probing(cfg, h, k) && k < |h| - 1
    ensures var g, ev := h[..|h| - 1], h[|h| - 1];
            && Probing(cfg, g, k) && (ev.Query? || ev.Success?)
            && Successes(h[k + 1..]) == Successes(g[k + 1..]) + if ev.Success? then 1 else 0
  {
    var g, ev := h[..|h| - 1], h[|h| - 1];
    assert ev in h[k + 1..] && g[..k] == h[..k];
    assert h[k + 1..] == g[k + 1..] + [ev];
    SuccessesSnoc(g[k + 1..], ev);
  }

  lemma {:induction false} LastFailureKept(cfg: Config, h: seq<Event>)
    ensures After(cfg, h).lastFailureAt == LastFailure(h)
  {
    if h != [] {
      LastFailureKept(cfg, h[..|h| - 1]);
    }
  }

  /** State and history determine each other as Described says, for every history. */
  lemma HistoryDetermines(cfg: Config, h: seq<Event>)
    requires cfg.failureThreshold >= 1 && cfg.successThreshold >= 1
    ensures Described(cfg, h)
  {
    HistoryExplains(cfg, h);
    forall k: nat | Tripped(cfg, h, k) ensures After(cfg, h).state == Open {
      TrippedIsOpen(cfg, h, k);
    }
    forall k: nat | Probing(cfg, h, k)
      ensures After(cfg, h).state == HalfOpen && After(cfg, h).successes == Successes(h[k + 1..])
    {
      ProbingIsHalfOpen(cfg, h, k);
    }
  }

  /** A closed circuit opens on the threshold-th consecutive failure and on nothing else. */
  lemma OpensExactlyAtThreshold(cfg: Config, h: seq<Event>, ev: Event)
    requires cfg.failureThreshold >= 1 && cfg.successThreshold >= 1
    requires After(cfg, h).state == Closed
    ensures After(cfg, h + [ev]).state == Open
       <==> ev.Failure? && TrailingFailures(h + [ev]) == cfg.failureThreshold
    ensures After(cfg, h + [ev]).state != HalfOpen
  {
    HistoryDetermines(cfg, h);
    AfterSnoc(cfg, h, ev);
  }

  /** Each query of g is earlier than the last failure before it plus the timeout. */
  predicate Early(cfg: Config, h: seq<Event>, g: seq<Event>) {
    forall i :: 0 <= i < |g| && g[i].Query? ==> g[i].now < LastFailure(h + g[..i]) + cfg.openTimeout
  }

  function Failures(g: seq<Event>): nat {
    if g == [] then 0 else Failures(g[..|g| - 1]) + if g[|g| - 1].Failure? then 1 else 0
  }

  /** The failure count a circuit opens with: the threshold from closed, nothing when a probe failed. */
  lemma OpensWith(cfg: Config, h: seq<Event>, ev: Event)
    requires cfg.failureThreshold >= 1 && cfg.successThreshold >= 1
    requires After(cfg, h).state != Open && After(cfg, h + [ev]).state == Open
    ensures ev.Failure?
    ensures After(cfg, h + [ev]).failures == if After(cfg, h).state == Closed then cfg.failureThreshold else 0
  {
    HistoryDetermines(cfg, h);
    AfterSnoc(cfg, h, ev);
  }

  lemma OpenBlocksStep(cfg: Config, h: seq<Event>, ev: Event)
    requires cfg.failureThreshold >= 1 && cfg.successThreshold >= 1
    requires After(cfg, h).state == Open && !ev.Reset?
    requires ev.Query? ==> ev.now < LastFailure(h) + cfg.openTimeout
    ensures After(cfg, h + [ev]).state == Open
    ensures After(cfg, h + [ev]).failures == After(cfg, h).failures + if ev.Failure? then 1 else 0
    ensures ev.Query? ==> Blocked(cfg, After(cfg, h), ev.now)
  {
    HistoryDetermines(cfg, h);
    AfterSnoc(cfg, h, ev);
  }

  /** From an open circuit, without a reset, every such query is blocked and it stays open and counts the failures. */
  lemma {:induction false} OpenBlocks(cfg: Config, h: seq<Event>, g: seq<Event>)
    requires cfg.failureThreshold >= 1 && cfg.successThreshold >= 1
    requires After(cfg, h).state == Open && Early(cfg, h, g) && forall ev :: ev in g ==> !ev.Reset?
    ensures After(cfg, h + g).state == Open && After(cfg, h + g).failures == After(cfg, h).failures + Failures(g)
    ensures forall i :: 0 <= i < |g| && g[i].Query? ==> Blocked(cfg, After(cfg, h + g[..i]), g[i].now)
  {
    if g == [] {
      assert h + g == h;
    } else {
      var p, ev := g[..|g| - 1], g[|g| - 1];
      assert g == p + [ev] && ev in g && g[..|p|] == p;
      assert forall i :: 0 <= i <= |p| ==> p[..i] == g[..i];
      OpenBlocks(cfg, h, p);
      assert h + g == (h + p) + [ev];
      OpenBlocksStep(cfg, h + p, ev);
    }
  }

  predicate NotBefore(g: seq<Event>, t: int) {
    forall ev :: ev in g && ev.Failure? ==> ev.now >= t
  }

  /** Read as a deadline: once open, nothing gets through before last failure + timeout, whatever else happens. */
  lemma BlockedUntilDeadline(cfg: Config, h: seq<Event>, g: seq<Event>)
    requires cfg.failureThreshold >= 1 && cfg.successThreshold >= 1
    requires After(cfg, h).state == Open && forall ev :: ev in g ==> !ev.Reset?
    requires NotBefore(g, LastFailure(h))
    requires forall ev :: ev in g && ev.Query? ==> ev.now < LastFailure(h) + cfg.openTimeout
    ensures forall i :: 0 <= i < |g| && g[i].Query? ==> Blocked(cfg, After(cfg, h + g[..i]), g[i].now)
  {
    forall i | 0 <= i < |g| ensures LastFailure(h + g[..i]) >= LastFailure(h) {
      FailuresOnlyDelay(h, g[..i], LastFailure(h));
    }
    OpenBlocks(cfg, h, g);
  }

  lemma {:induction false} FailuresOnlyDelay(h: seq<Event>, g: seq<Event>, t: int)
    requires LastFailure(h) >= t && NotBefore(g, t) && forall ev :: ev in g ==> !ev.Reset?
    ensures LastFailure(h + g) >= t
  {
    if g == [] {
      assert h + g == h;
    } else {
      var p := g[..|g| - 1];
      assert g[|g| - 1] in g;
      FailuresOnlyDelay(h, p, t);
      assert (h + g)[..|h + g| - 1] == h + p;
    }
  }

  // ----- half-open lets every request through

  lemma {:induction false} HalfOpenStays(cfg: Config, h: seq<Event>, g: seq<Event>)
    requires After(cfg, h).state == HalfOpen && forall ev :: ev in g ==> ev.Query?
    ensures After(cfg, h + g) == After(cfg, h)
  {
    if g == [] {
      assert h + g == h;
    } else {
      var p, ev := g[..|g| - 1], g[|g| - 1];
      assert ev in g;
      HalfOpenStays(cfg, h, p);
      assert h + g == (h + p) + [ev];
      AfterSnoc(cfg, h + p, ev);
    }
  }

  /** While half-open, any number of queries are let through, and they change nothing. */
  lemma HalfOpenAdmitsAll(cfg: Config, h: seq<Event>, g: seq<Event>)
    requires After(cfg, h).state == HalfOpen && forall ev :: ev in g ==> ev.Query?
    ensures After(cfg, h + g) == After(cfg, h)
    ensures forall i :: 0 <= i < |g| ==> !Blocked(cfg, After(cfg, h + g[..i]), g[i].now)
  {
    HalfOpenStays(cfg, h, g);
    forall i | 0 <= i < |g| ensures !Blocked(cfg, After(cfg, h + g[..i]), g[i].now) {
      assert forall ev :: ev in g[..i] ==> ev in g;
      HalfOpenStays(cfg, h, g[..i]);
    }
  }

  /** n failures at time t. */
  function Failing(n: nat, t: int): seq<Event> {
    if n == 0 then [] else Failing(n - 1, t) + [Failure(t)]
  }

  lemma {:induction false} FailuresTrip(cfg: Config, n: nat, t: int)
    requires n <= cfg.failureThreshold
    ensures After(cfg, Failing(n, t)).failures == n
    ensures After(cfg, Failing(n, t)).state == if 0 < n == cfg.failureThreshold then Open else Closed
    ensures n > 0 ==> After(cfg, Failing(n, t)).lastFailureAt == t
  {
    if n > 0 {
      FailuresTrip(cfg, n - 1, t);
      AfterSnoc(cfg, Failing(n - 1, t), Failure(t));
    }
  }

  /**
    It is reachable under every configuration: the circuit opens, the query at the deadline gets through
    as the probe, and so does every query after it, before any result of the probe is known.
   */
  lemma SecondProbePasses(cfg: Config, t: int, g: seq<Event>)
    requires cfg.failureThreshold >= 1 && cfg.successThreshold >= 1 && forall ev :: ev in g ==> ev.Query?
    ensures var h := Failing(cfg.failureThreshold, t);
            var probe := Query(t + cfg.openTimeout);
            && After(cfg, h).state == Open && !Blocked(cfg, After(cfg, h), probe.now)
            && After(cfg, h + [probe]).state == HalfOpen
            && forall i :: 0 <= i < |g| ==> !Blocked(cfg, After(cfg, h + [probe] + g[..i]), g[i].now)
  {
    var h := Failing(cfg.failureThreshold, t);
    var probe := Query(t + cfg.openTimeout);
    FailuresTrip(cfg, cfg.failureThreshold, t);
    AfterSnoc(cfg, h, probe);
    HalfOpenAdmitsAll(cfg, h + [probe], g);
  }

  // ----- other providers never matter

  datatype Named = Named(provider: string, event: Event)

  function EntryIn(m: map<string, Entry>, provider: string): Entry {
    if provider in m then m[provider] else NEW_ENTRY
  }

  function ApplyNamed(cfg: Config, m: map<string, Entry>, n: Named): map<string, Entry> {
    m[n.provider := Apply(cfg, EntryIn(m, n.provider), n.event)]
  }

  /** The breaker's map after a history of events on many providers. */
  function Entries(cfg: Config, hs: seq<Named>): map<string, Entry> {
    if hs == [] then map[] else ApplyNamed(cfg, Entries(cfg, hs[..|hs| - 1]), hs[|hs| - 1])
  }

  function EventsOf(hs: seq<Named>, provider: string): seq<Event> {
    if hs == [] then []
    else EventsOf(hs[..|hs| - 1], provider)
         + if hs[|hs| - 1].provider == provider then [hs[|hs| - 1].event] else []
  }

  /** A provider's entry depends on that provider's events alone. */
  lemma {:induction false} ProvidersIndependent(cfg: Config, hs: seq<Named>, provider: string)
    ensures EntryIn(Entries(cfg, hs), provider) == After(cfg, EventsOf(hs, provider))
  {
    if hs != [] {
      var rest := hs[..|hs| - 1];
      ProvidersIndependent(cfg, rest, provider);
      AfterSnoc(cfg, EventsOf(rest, provider), hs[|hs| - 1].event);
      assert EventsOf(rest, provider) + [] == EventsOf(rest, provider);
    }
  }
}
