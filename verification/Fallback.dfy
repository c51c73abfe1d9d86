/**
  The fallback chain executor of internal/gateway/fallback/router.go: targets are tried in order,
  gated by the circuit breaker, each with retries, until one serves the request.
 */
module Fallback {
  import opened Common
  import opened Chains
  import CB = CircuitBreaker
  import Retry

  type Error = Retry.Error

  predicate IsFallbackError(e: Error) {
    if Retry.IsContextError(e) then false
    else
      match Retry.AsGateway(e)
      case Some(g) => Retry.IsRetryable(g.code)
      case None => true
  }

  /**
    What the outside decides: outcomes, context endings, random numbers and clock readings per target, and
    what other requests do to the shared breaker before a target is asked for and while it is contacted.
   */
  datatype World = World(call: (nat, nat) -> Option<Error>, done: (nat, nat) -> Option<Error>,
                         random: (nat, nat) -> real, queryAt: nat -> int, recordAt: nat -> int,
                         before: nat -> seq<CB.Named>, during: nat -> seq<CB.Named>)

  ghost predicate SaneWorld(w: World) {
    forall i, k :: 0.0 <= w.random(i, k) < 1.0
  }

  /** What happened at one target of the chain. */
  datatype Step = SkippedOpen | SkippedUnregistered | Contacted(attempts: Retry.Attempts)

  /** A step that ends the walk: success, or an error no other provider should be tried for. */
  predicate Final(s: Step) {
    s.Contacted? && (s.attempts.err.None? || !IsFallbackError(s.attempts.err.value))
  }

  /** What a contact tells the breaker. */
  function Report(w: World, i: nat, t: Target, err: Option<Error>): seq<CB.Named> {
    if err.None? then [CB.Named(t.provider, CB.Success)]
    else if IsFallbackError(err.value) then [CB.Named(t.provider, CB.Failure(w.recordAt(i)))]
    else []
  }

  /** The breaker events of one step, those of other requests included, in order. */
  function StepEvents(w: World, i: nat, t: Target, s: Step): seq<CB.Named> {
    w.before(i) + [CB.Named(t.provider, CB.Query(w.queryAt(i)))]
    + if s.Contacted? then w.during(i) + Report(w, i, t, s.attempts.err) else []
  }

  function WalkEvents(w: World, ts: seq<Target>, steps: seq<Step>): seq<CB.Named>
    requires |steps| <= |ts|
  {
    if steps == [] then []
    else
      var n := |steps| - 1;
      WalkEvents(w, ts, steps[..n]) + StepEvents(w, n, ts[n], steps[n])
  }

  function Replay(cfg: CB.Config, m: map<string, CB.Entry>, hs: seq<CB.Named>): map<string, CB.Entry> {
    if hs == [] then m else CB.ApplyNamed(cfg, Replay(cfg, m, hs[..|hs| - 1]), hs[|hs| - 1])
  }

  lemma {:induction false} ReplayAppend(cfg: CB.Config, m: map<string, CB.Entry>, a: seq<CB.Named>, b: seq<CB.Named>)
    ensures Replay(cfg, m, a + b) == Replay(cfg, Replay(cfg, m, a), b)
  {
    if b == [] {
      assert a + b == a;
    } else {
      ReplayAppend(cfg, m, a, b[..|b| - 1]);
      assert (a + b)[..|a + b| - 1] == a + b[..|b| - 1];
    }
  }

  /** Replaying on a breaker with a history is having the longer history. */
  lemma {:induction false} ReplayIsHistory(cfg: CB.Config, h: seq<CB.Named>, hs: seq<CB.Named>)
    ensures Replay(cfg, CB.Entries(cfg, h), hs) == CB.Entries(cfg, h + hs)
  {
    if hs == [] {
      assert h + hs == h;
    } else {
      ReplayIsHistory(cfg, h, hs[..|hs| - 1]);
      assert (h + hs)[..|h + hs| - 1] == h + hs[..|hs| - 1];
    }
  }

  datatype Mode = Buffered | Streaming

  /** Buffered requests are retried under the default policy; a stream is opened once. */
  ghost predicate Ran(mode: Mode, w: World, i: nat, a: Retry.Attempts) {
    match mode
    case Buffered =>
      Retry.Lawful(Retry.DEFAULT, (k: nat) => w.call(i, k), (k: nat) => w.done(i, k), (k: nat) => w.random(i, k), a)
    case Streaming => a == Retry.Attempts(1, [], w.call(i, 0))
  }

  /** Step s is right for target i when the breaker holds m. */
  ghost predicate StepOk(cfg: CB.Config, registry: set<string>, mode: Mode, w: World, i: nat, t: Target,
                         m: map<string, CB.Entry>, s: Step)
  {
    var blocked := CB.Blocked(cfg, CB.EntryIn(m, t.provider), w.queryAt(i));
    match s
    case SkippedOpen => blocked
    case SkippedUnregistered => !blocked && t.provider !in registry
    case Contacted(a) => !blocked && t.provider in registry && Ran(mode, w, i, a)
  }

  /** Each step is acceptable after those before it, and none before the last is final. */
  ghost predicate Proceeds(ok: (seq<Step>, Step) -> bool, steps: seq<Step>) {
    && (forall i :: 0 <= i < |steps| ==> ok(steps[..i], steps[i]))
    && (forall i :: 0 <= i < |steps| - 1 ==> !Final(steps[i]))
  }

  lemma ProceedsSnoc(ok: (seq<Step>, Step) -> bool, steps: seq<Step>, s: Step)
    requires Proceeds(ok, steps) && (forall s' :: s' in steps ==> !Final(s')) && ok(steps, s)
    ensures Proceeds(ok, steps + [s])
  {
    var after, n := steps + [s], |steps|;
    forall i | 0 <= i < |after| ensures ok(after[..i], after[i]) {
      assert after[..i] == if i < n then steps[..i] else steps;
    }
  }

  /** The breaker's contents when the target after these steps is asked for. */
  function Asked(cfg: CB.Config, m: map<string, CB.Entry>, w: World, ts: seq<Target>, before: seq<Step>)
    : map<string, CB.Entry>
    requires |before| <= |ts|
  {
    Replay(cfg, Replay(cfg, m, WalkEvents(w, ts, before)), w.before(|before|))
  }

  /** In the middle of a walk: every step acceptable, none final, and what the loop's variables hold. */
  ghost predicate Underway(ok: (seq<Step>, Step) -> bool, steps: seq<Step>, tried: nat, lastErr: Option<Error>) {
    && Proceeds(ok, steps) && (forall s :: s in steps ==> !Final(s))
    && tried == Contacts(steps) && lastErr == LastError(steps) && (lastErr.Some? <==> tried > 0)
  }

  lemma UnderwayStep(ok: (seq<Step>, Step) -> bool, steps: seq<Step>, s: Step, tried: nat, lastErr: Option<Error>)
    requires Underway(ok, steps, tried, lastErr) && ok(steps, s)
    ensures Proceeds(ok, steps + [s])
    ensures !Final(s) ==>
              if s.Contacted? then Underway(ok, steps + [s], tried + 1, s.attempts.err)
              else Underway(ok, steps + [s], tried, lastErr)
  {
    ProceedsSnoc(ok, steps, s);
    ContactsSnoc(steps, s);
  }

  /** Right for the next target of the chain, with the breaker as the earlier steps and other requests left it. */
  ghost function Acceptable(cfg: CB.Config, registry: set<string>, mode: Mode, w: World, ts: seq<Target>,
                            m: map<string, CB.Entry>): (seq<Step>, Step) -> bool
  {
    (before: seq<Step>, s: Step) =>
      && |before| < |ts|
      && StepOk(cfg, registry, mode, w, |before|, ts[|before|], Asked(cfg, m, w, ts, before), s)
  }

  lemma Accept(cfg: CB.Config, registry: set<string>, mode: Mode, w: World, ts: seq<Target>,
               m: map<string, CB.Entry>, before: seq<Step>, entries: map<string, CB.Entry>, s: Step)
    requires |before| < |ts| && entries == Replay(cfg, m, WalkEvents(w, ts, before))
    requires StepOk(cfg, registry, mode, w, |before|, ts[|before|], Replay(cfg, entries, w.before(|before|)), s)
    ensures Acceptable(cfg, registry, mode, w, ts, m)(before, s)
  {
  }

  /** The steps follow the chain from the breaker contents m. */
  ghost predicate Follows(cfg: CB.Config, registry: set<string>, mode: Mode, w: World, ts: seq<Target>,
                          m: map<string, CB.Entry>, steps: seq<Step>)
  {
    |steps| <= |ts| && Proceeds(Acceptable(cfg, registry, mode, w, ts, m), steps)
  }

  datatype Outcome =
    | Served(i: nat)
    | Refused(i: nat, err: Error)
    | NoneAvailable
    | Exhausted(err: Error)
    | NoProviders

  /** The error of the last contacted target, if any was contacted. */
  function LastError(steps: seq<Step>): Option<Error> {
    if steps == [] then None
    else
      var s := steps[|steps| - 1];
      if s.Contacted? then s.attempts.err else LastError(steps[..|steps| - 1])
  }

  /** How many targets were contacted. */
  function Contacts(steps: seq<Step>): nat {
    if steps == [] then 0
    else Contacts(steps[..|steps| - 1]) + if steps[|steps| - 1].Contacted? then 1 else 0
  }

  /** What each outcome means; NoProviders, the source's last return, never happens. */
  predicate Means(ts: seq<Target>, steps: seq<Step>, r: Outcome) {
    match r
    case Served(i) => i < |steps| == i + 1 && steps[i].Contacted? && steps[i].attempts.err == None
    case Refused(i, err) =>
      i < |steps| == i + 1 && steps[i].Contacted? && steps[i].attempts.err == Some(err) && !IsFallbackError(err)
    case NoneAvailable => |steps| == |ts| && Contacts(steps) == 0
    case Exhausted(err) =>
      |steps| == |ts| && (forall s :: s in steps ==> !Final(s)) && LastError(steps) == Some(err)
    case NoProviders => false
  }

  class Router {
    const cb: CB.Breaker
    const registry: set<string>

    constructor (cb: CB.Breaker, registry: set<string>)
      ensures this.cb == cb && this.registry == registry
    {
      this.cb, this.registry := cb, registry;
    }

    /** One turn of the loop: ask the breaker, look up the provider, contact it, record the result. */
    method TryTarget(mode: Mode, i: nat, t: Target, w: World) returns (s: Step)
      requires SaneWorld(w)
      modifies cb
      ensures StepOk(cb.cfg, registry, mode, w, i, t, Replay(cb.cfg, old(cb.entries), w.before(i)), s)
      ensures cb.entries == Replay(cb.cfg, old(cb.entries), StepEvents(w, i, t, s))
    {
      ghost var m, asked := cb.entries, CB.Named(t.provider, CB.Query(w.queryAt(i)));
      Others(w.before(i));
      ReplaySnoc(cb.cfg, m, w.before(i), asked);
      assert w.before(i) + [asked] + [] == w.before(i) + [asked];
      var open := cb.IsOpen(t.provider, w.queryAt(i));
      if open {
        return SkippedOpen;
      }
      if t.provider !in registry {
        return SkippedUnregistered;
      }
      var a := Contact(mode, w, i);
      Others(w.during(i));
      ReplayAppend(cb.cfg, m, w.before(i) + [asked], w.during(i));
      ContactEvents(cb.cfg, m, w.before(i) + [asked], w.during(i), Report(w, i, t, a.err));
      if a.err == None {
        cb.RecordSuccess(t.provider);
      } else if IsFallbackError(a.err.value) {
        cb.RecordFailure(t.provider, w.recordAt(i));
      }
      s := Contacted(a);
    }

    /** Other requests at work on the shared breaker. */
    method Others(hs: seq<CB.Named>)
      modifies cb
      ensures cb.entries == Replay(cb.cfg, old(cb.entries), hs)
    {
      ghost var m := cb.entries;
      for i := 0 to |hs|
        invariant cb.entries == Replay(cb.cfg, m, hs[..i])
      {
        assert hs[..i + 1] == hs[..i] + [hs[i]];
        ReplaySnoc(cb.cfg, m, hs[..i], hs[i]);
        match hs[i].event {
          case Query(now) =>
            var open := cb.IsOpen(hs[i].provider, now);
          case Success =>
            cb.RecordSuccess(hs[i].provider);
          case Failure(now) =>
            cb.RecordFailure(hs[i].provider, now);
          case Reset =>
            cb.ResetProvider(hs[i].provider);
        }
      }
      assert hs[..|hs|] == hs;
    }

    /** The loop of Execute (Buffered) and ExecuteStream (Streaming) over the balanced targets. */
    method Walk(mode: Mode, ts: seq<Target>, w: World) returns (r: Outcome, steps: seq<Step>)
      requires SaneWorld(w)
      modifies cb
      ensures Follows(cb.cfg, registry, mode, w, ts, old(cb.entries), steps)
      ensures Means(ts, steps, r)
      ensures cb.entries == Replay(cb.cfg, old(cb.entries), WalkEvents(w, ts, steps))
    {
      steps := [];
      var lastErr: Option<Error> := None;
      var tried := 0;
      ghost var m := cb.entries;
      ghost var ok := Acceptable(cb.cfg, registry, mode, w, ts, m);
      for i := 0 to |ts|
        invariant |steps| == i && Underway(ok, steps, tried, lastErr)
        invariant cb.entries == Replay(cb.cfg, m, WalkEvents(w, ts, steps))
      {
        ghost var entries := cb.entries;
        var s := TryTarget(mode, i, ts[i], w);
        Accept(cb.cfg, registry, mode, w, ts, m, steps, entries, s);
        UnderwayStep(ok, steps, s, tried, lastErr);
        WalkSnoc(cb.cfg, w, ts, m, steps, s);
        steps := steps + [s];
        if !s.Contacted? {
          continue;
        }
        tried := tried + 1;
        if s.attempts.err == None {
          return Served(i), steps;
        }
        if IsFallbackError(s.attempts.err.value) {
          lastErr := s.attempts.err;
          continue;
        }
        return Refused(i, s.attempts.err.value), steps;
      }
      if tried == 0 {
        return NoneAvailable, steps;
      }
      if lastErr.Some? {
        return Exhausted(lastErr.value), steps;
      }
      r := NoProviders;
    }
  }

  /** One more step moves the breaker by that step's events. */
  lemma WalkSnoc(cfg: CB.Config, w: World, ts: seq<Target>, m: map<string, CB.Entry>, before: seq<Step>, s: Step)
    requires |before| < |ts|
    ensures Replay(cfg, m, WalkEvents(w, ts, before + [s]))
         == Replay(cfg, Replay(cfg, m, WalkEvents(w, ts, before)), StepEvents(w, |before|, ts[|before|], s))
  {
    var n := |before|;
    assert (before + [s])[..n] == before;
    ReplayAppend(cfg, m, WalkEvents(w, ts, before), StepEvents(w, n, ts[n], s));
  }

  lemma ReplaySnoc(cfg: CB.Config, m: map<string, CB.Entry>, hs: seq<CB.Named>, h: CB.Named)
    ensures Replay(cfg, m, hs + [h]) == CB.ApplyNamed(cfg, Replay(cfg, m, hs), h)
  {
    assert (hs + [h])[..|hs|] == hs;
  }

  /** The events of a contact: those of others meanwhile, then the report. */
  lemma ContactEvents(cfg: CB.Config, m: map<string, CB.Entry>, asked: seq<CB.Named>, during: seq<CB.Named>,
                      report: seq<CB.Named>)
    requires |report| <= 1
    ensures Replay(cfg, m, asked + (during + report))
         == if report == [] then Replay(cfg, m, asked + during)
            else CB.ApplyNamed(cfg, Replay(cfg, m, asked + during), report[0])
  {
    Assoc(asked, during, report);
    if report == [] {
      assert asked + during + report == asked + during;
    } else {
      assert report == [report[0]];
      ReplaySnoc(cfg, m, asked + during, report[0]);
    }
  }

  lemma ContactsSnoc(steps: seq<Step>, s: Step)
    ensures LastError(steps + [s]) == if s.Contacted? then s.attempts.err else LastError(steps)
    ensures Contacts(steps + [s]) == Contacts(steps) + if s.Contacted? then 1 else 0
  {
    assert (steps + [s])[..|steps|] == steps;
  }

  /** retry.Execute, or the single call of a stream. */
  method Contact(mode: Mode, w: World, i: nat) returns (a: Retry.Attempts)
    requires SaneWorld(w)
    ensures Ran(mode, w, i, a)
  {
    match mode {
      case Buffered =>
        a := Retry.Execute(Retry.DEFAULT, (k: nat) => w.call(i, k), (k: nat) => w.done(i, k),
                           (k: nat) => w.random(i, k));
      case Streaming =>
        a := Retry.Attempts(1, [], w.call(i, 0));
    }
  }

  // ----- what a finished walk guarantees

  predicate FailedOver(s: Step) {
    s.Contacted? && s.attempts.err.Some? && IsFallbackError(s.attempts.err.value)
  }

  /**
    Every target before the one the walk stopped at was skipped, because its circuit blocked it or it is
    not registered, or it failed with an error worth falling back from. A contacted target got one to
    three calls and, between them, waits of at most 30 s.
   */
  lemma WalkLaw(cfg: CB.Config, registry: set<string>, mode: Mode, w: World, ts: seq<Target>,
                m: map<string, CB.Entry>, steps: seq<Step>, r: Outcome, j: nat)
    requires SaneWorld(w) && Follows(cfg, registry, mode, w, ts, m, steps) && Means(ts, steps, r) && j < |steps|
    ensures (r.Served? || r.Refused? ==> j < r.i) ==>
              FailedOver(steps[j]) || !steps[j].Contacted?
    ensures !steps[j].Contacted? ==>
              || CB.Blocked(cfg, CB.EntryIn(Asked(cfg, m, w, ts, steps[..j]), ts[j].provider), w.queryAt(j))
              || ts[j].provider !in registry
    ensures steps[j].Contacted? ==>
              && ts[j].provider in registry
              && 1 <= steps[j].attempts.calls <= 3
              && forall d :: d in steps[j].attempts.waits ==> 0 <= d <= 30_000_000_000
  {
    var ok := Acceptable(cfg, registry, mode, w, ts, m);
    assert ok(steps[..j], steps[j]);
    if r.NoneAvailable? {
      NoContacts(steps, j);
    } else {
      assert steps[j] in steps;
    }
    if steps[j].Contacted? {
      ContactLaw(mode, w, j, steps[j].attempts);
    }
  }

  lemma ContactLaw(mode: Mode, w: World, i: nat, a: Retry.Attempts)
    requires SaneWorld(w) && Ran(mode, w, i, a)
    ensures 1 <= a.calls <= 3 && forall d :: d in a.waits ==> 0 <= d <= 30_000_000_000
  {
    forall d | d in a.waits ensures 0 <= d <= 30_000_000_000 {
      var k :| 0 <= k < |a.waits| && a.waits[k] == d;
      Retry.DefaultWaits((k: nat) => w.call(i, k), (k: nat) => w.done(i, k), (k: nat) => w.random(i, k), a, k);
    }
  }

  lemma {:induction false} NoContacts(steps: seq<Step>, j: nat)
    requires Contacts(steps) == 0 && j < |steps|
    ensures !steps[j].Contacted?
  {
    if j < |steps| - 1 {
      NoContacts(steps[..|steps| - 1], j);
    }
  }

  // ----- which targets are contacted

  predicate Available(cfg: CB.Config, registry: set<string>, m: map<string, CB.Entry>, t: Target, now: int) {
    t.provider in registry && !CB.Blocked(cfg, CB.EntryIn(m, t.provider), now)
  }

  /** A target the walk comes to is contacted if and only if it is registered and its circuit does not block it. */
  lemma ContactedExactlyWhen(cfg: CB.Config, registry: set<string>, mode: Mode, w: World, ts: seq<Target>,
                             m: map<string, CB.Entry>, steps: seq<Step>, j: nat)
    requires Follows(cfg, registry, mode, w, ts, m, steps) && j < |steps|
    ensures steps[j].Contacted? <==>
            Available(cfg, registry, Asked(cfg, m, w, ts, steps[..j]), ts[j], w.queryAt(j))
  {
    var ok := Acceptable(cfg, registry, mode, w, ts, m);
    assert ok(steps[..j], steps[j]);
  }

  lemma {:induction false} NobodyContacted(steps: seq<Step>)
    requires forall s :: s in steps ==> !s.Contacted?
    ensures Contacts(steps) == 0 && LastError(steps) == None
  {
    if steps != [] {
      NobodyContacted(steps[..|steps| - 1]);
      assert steps[|steps| - 1] in steps;
    }
  }

  /** No provider is available exactly if the walk went through the whole chain and none of its targets was. */
  lemma NoneAvailableExactlyWhen(cfg: CB.Config, registry: set<string>, mode: Mode, w: World, ts: seq<Target>,
                                 m: map<string, CB.Entry>, steps: seq<Step>, r: Outcome)
    requires Follows(cfg, registry, mode, w, ts, m, steps) && Means(ts, steps, r)
    ensures r == NoneAvailable <==>
            |steps| == |ts| && forall j :: 0 <= j < |steps| ==>
              !Available(cfg, registry, Asked(cfg, m, w, ts, steps[..j]), ts[j], w.queryAt(j))
  {
    forall j | 0 <= j < |steps|
      ensures steps[j].Contacted? <==>
              Available(cfg, registry, Asked(cfg, m, w, ts, steps[..j]), ts[j], w.queryAt(j))
    {
      ContactedExactlyWhen(cfg, registry, mode, w, ts, m, steps, j);
    }
    if r == NoneAvailable {
      forall j | 0 <= j < |steps| ensures !steps[j].Contacted? {
        NoContacts(steps, j);
      }
    } else if forall s :: s in steps ==> !s.Contacted? {
      NobodyContacted(steps);
    } else {
      var s :| s in steps && s.Contacted?;
      var j :| 0 <= j < |steps| && steps[j] == s;
      assert Available(cfg, registry, Asked(cfg, m, w, ts, steps[..j]), ts[j], w.queryAt(j));
    }
  }

  /** An available first target whose first call succeeds serves the request, and nobody else is contacted. */
  lemma FirstServes(cfg: CB.Config, registry: set<string>, mode: Mode, w: World, ts: seq<Target>,
                    m: map<string, CB.Entry>, steps: seq<Step>, r: Outcome)
    requires Follows(cfg, registry, mode, w, ts, m, steps) && Means(ts, steps, r) && ts != []
    requires Available(cfg, registry, Asked(cfg, m, w, ts, []), ts[0], w.queryAt(0)) && w.call(0, 0) == None
    ensures r == Served(0) && steps == [Contacted(Retry.Attempts(1, [], None))]
  {
    assert steps != [];
    assert steps[..0] == [];
    ContactedExactlyWhen(cfg, registry, mode, w, ts, m, steps, 0);
    assert Acceptable(cfg, registry, mode, w, ts, m)(steps[..0], steps[0]);
    var a := steps[0].attempts;
    if mode == Buffered {
      Retry.OneCall(Retry.DEFAULT, (k: nat) => w.call(0, k), (k: nat) => w.done(0, k), (k: nat) => w.random(0, k), a);
    }
    assert Final(steps[0]) && steps[0] in steps;
    assert |steps| == 1;
  }

  // ----- which errors fall over

  /** Judged by what is inside: the context's end does not fall over, gateway errors by their code, any other does. */
  lemma FallsOver(e: Error)
    ensures IsFallbackError(e) <==>
            match Retry.Core(e)
            case Canceled => false
            case DeadlineExceeded => false
            case Gateway(code, _) => code in Retry.RETRYABLE
            case _ => true
  {
    Retry.ByCore(e);
    CoreGateway(e);
  }

  lemma {:induction false} CoreGateway(e: Error)
    ensures Retry.AsGateway(e) == if Retry.Core(e).Gateway? then Some(Retry.Core(e)) else None
  {
    if e.Wrapped? {
      CoreGateway(e.inner);
    }
  }

  /**
    A contact that ends in an error: if that falls over, the breaker is told of one failure and the walk goes
    on, to the next target or to the end of the chain; if not, the walk ends there, refused with that error,
    and the breaker is told nothing.
   */
  lemma ErrorDecides(cfg: CB.Config, registry: set<string>, mode: Mode, w: World, ts: seq<Target>,
                     m: map<string, CB.Entry>, steps: seq<Step>, r: Outcome, j: nat)
    requires Follows(cfg, registry, mode, w, ts, m, steps) && Means(ts, steps, r) && j < |steps|
    requires steps[j].Contacted? && steps[j].attempts.err.Some?
    ensures var e := steps[j].attempts.err.value;
            var core := Retry.Core(e);
            if core.Plain? || (core.Gateway? && core.code in Retry.RETRYABLE)
            then && Report(w, j, ts[j], Some(e)) == [CB.Named(ts[j].provider, CB.Failure(w.recordAt(j)))]
                 && (j + 1 < |steps| || (|steps| == |ts| && r == Exhausted(e)))
            else Report(w, j, ts[j], Some(e)) == [] && r == Refused(j, e) && |steps| == j + 1
  {
    var e := steps[j].attempts.err.value;
    FallsOver(e);
    assert steps[j] in steps;
    if r == NoneAvailable {
      NoContacts(steps, j);
    }
  }

  /** How often a history records a failure, and a success, of a provider. */
  function Failures(hs: seq<CB.Named>, p: string): nat {
    if hs == [] then 0
    else
      var h := hs[|hs| - 1];
      Failures(hs[..|hs| - 1], p) + if h.event.Failure? && h.provider == p then 1 else 0
  }

  function Successes(hs: seq<CB.Named>, p: string): nat {
    if hs == [] then 0
    else
      var h := hs[|hs| - 1];
      Successes(hs[..|hs| - 1], p) + if h.event.Success? && h.provider == p then 1 else 0
  }

  /** How many contacts of a provider failed over. */
  function FailedContacts(ts: seq<Target>, steps: seq<Step>, p: string): nat
    requires |steps| <= |ts|
  {
    if steps == [] then 0
    else
      var n := |steps| - 1;
      FailedContacts(ts, steps[..n], p) + if FailedOver(steps[n]) && ts[n].provider == p then 1 else 0
  }

  /** The events of other requests during the walk. */
  function OthersEvents(w: World, steps: seq<Step>): seq<CB.Named> {
    if steps == [] then []
    else
      var n := |steps| - 1;
      OthersEvents(w, steps[..n]) + (w.before(n) + if steps[n].Contacted? then w.during(n) else [])
  }

  predicate Won(s: Step) {
    s.Contacted? && s.attempts.err.None?
  }

  lemma {:induction false} RecordsAppend(a: seq<CB.Named>, b: seq<CB.Named>, p: string)
    ensures Failures(a + b, p) == Failures(a, p) + Failures(b, p)
    ensures Successes(a + b, p) == Successes(a, p) + Successes(b, p)
  {
    if b == [] {
      assert a + b == a;
    } else {
      assert (a + b)[..|a + b| - 1] == a + b[..|b| - 1];
      RecordsAppend(a, b[..|b| - 1], p);
    }
  }

  lemma SingleRecord(h: CB.Named, p: string)
    ensures Failures([h], p) == if h.event.Failure? && h.provider == p then 1 else 0
    ensures Successes([h], p) == if h.event.Success? && h.provider == p then 1 else 0
  {
    assert [h][..0] == [];
  }

  lemma ReportRecords(w: World, i: nat, t: Target, err: Option<Error>, p: string)
    ensures Failures(Report(w, i, t, err), p)
         == if err.Some? && IsFallbackError(err.value) && t.provider == p then 1 else 0
    ensures Successes(Report(w, i, t, err), p) == if err.None? && t.provider == p then 1 else 0
  {
    var hs := Report(w, i, t, err);
    if hs != [] {
      assert hs == [hs[0]];
      SingleRecord(hs[0], p);
    }
  }

  lemma StepRecords(w: World, i: nat, t: Target, s: Step, p: string)
    ensures var others := w.before(i) + if s.Contacted? then w.during(i) else [];
            && Failures(StepEvents(w, i, t, s), p)
               == Failures(others, p) + (if FailedOver(s) && t.provider == p then 1 else 0)
            && Successes(StepEvents(w, i, t, s), p)
               == Successes(others, p) + (if Won(s) && t.provider == p then 1 else 0)
  {
    var asked := CB.Named(t.provider, CB.Query(w.queryAt(i)));
    var after := if s.Contacted? then w.during(i) + Report(w, i, t, s.attempts.err) else [];
    RecordsAppend(w.before(i) + [asked], after, p);
    RecordsAppend(w.before(i), [asked], p);
    SingleRecord(asked, p);
    RecordsAppend(w.before(i), if s.Contacted? then w.during(i) else [], p);
    if s.Contacted? {
      RecordsAppend(w.during(i), Report(w, i, t, s.attempts.err), p);
      ReportRecords(w, i, t, s.attempts.err, p);
    }
  }

  /**
    Beyond what other requests record, each provider gets one failure per contact of it that failed over
    and one success if it won; a refusal and a skip record nothing.
   */
  lemma {:induction false} RecordsExactly(w: World, ts: seq<Target>, steps: seq<Step>, p: string)
    requires |steps| <= |ts| && forall i :: 0 <= i < |steps| - 1 ==> !Final(steps[i])
    ensures Failures(WalkEvents(w, ts, steps), p)
         == Failures(OthersEvents(w, steps), p) + FailedContacts(ts, steps, p)
    ensures Successes(WalkEvents(w, ts, steps), p)
         == Successes(OthersEvents(w, steps), p)
            + if steps != [] && Won(steps[|steps| - 1]) && ts[|steps| - 1].provider == p then 1 else 0
  {
    if steps != [] {
      var n := |steps| - 1;
      RecordsExactly(w, ts, steps[..n], p);
      RecordsAppend(WalkEvents(w, ts, steps[..n]), StepEvents(w, n, ts[n], steps[n]), p);
      StepRecords(w, n, ts[n], steps[n], p);
      RecordsAppend(OthersEvents(w, steps[..n]), w.before(n) + if steps[n].Contacted? then w.during(n) else [], p);
    }
  }
}
