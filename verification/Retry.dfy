/** Retries with exponential backoff: internal/gateway/retry/executor.go and policy.go. */
module Retry {
  import opened Common

  datatype Code =
    | InvalidRequest | AuthFailed | PermissionDenied | ModelNotFound | ContextTooLong
    | RateLimited | ProviderError | Timeout | NetworkError | Overloaded
    | OtherCode

  /** An error chain as errors.Is and errors.As walk it. */
  datatype Error =
    | Canceled
    | DeadlineExceeded
    | Gateway(code: Code, retryAfter: int)
    | Plain
    | Wrapped(inner: Error)

  predicate IsRetryable(code: Code) {
    code == RateLimited || code == ProviderError || code == Timeout || code == NetworkError || code == Overloaded
  }

  predicate IsContextError(e: Error) {
    match e
    case Wrapped(inner) => IsContextError(inner)
    case _ => e.Canceled? || e.DeadlineExceeded?
  }

  /** errors.As(err, *GatewayError). */
  function AsGateway(e: Error): (r: Option<Error>)
    ensures r.Some? ==> r.value.Gateway?
  {
    match e
    case Wrapped(inner) => AsGateway(inner)
    case Gateway(_, _) => Some(e)
    case _ => None
  }

  /** Durations are nanoseconds. */
  datatype Policy = Policy(maxAttempts: int, initialDelay: int, maxDelay: int, multiplier: real, jitterFactor: real)

  const DEFAULT := Policy(3, 500_000_000, 30_000_000_000, 2.0, 0.25)

  predicate ShouldRetry(e: Error) {
    match AsGateway(e)
    case None => false
    case Some(g) => IsRetryable(g.code)
  }

  /** Go's conversion of a float to an integer drops the fraction. */
  function Truncate(x: real): int {
    if x >= 0.0 then x.Floor else -((-x).Floor)
  }

  function Power(x: real, n: nat): real {
    if n == 0 then 1.0 else Power(x, n - 1) * x
  }

  /** The delay before jitter: the exponential backoff, cut off at MaxDelay. */
  function Uncapped(p: Policy, attempt: nat): real {
    p.initialDelay as real * Power(p.multiplier, attempt)
  }

  function Capped(p: Policy, attempt: nat): real {
    if Uncapped(p, attempt) > p.maxDelay as real then p.maxDelay as real else Uncapped(p, attempt)
  }

  predicate SanePolicy(p: Policy) {
    p.maxDelay >= 0 && 0.0 <= p.jitterFactor <= 1.0
  }

  /** The longest wait a policy allows: jitter is applied after the cap. */
  function WaitBound(p: Policy): real {
    p.maxDelay as real * (1.0 + p.jitterFactor)
  }

  lemma Product(a: real, b: real)
    requires a >= 0.0 && b >= 0.0
    ensures a * b >= 0.0
  {
  }

  lemma Distribute(a: real, b: real, c: real)
    ensures a * (b - c) == a * b - a * c
  {
  }

  /** A delay with symmetric jitter, for u = rand.Float64(). */
  function Jittered(p: Policy, d: real, u: real): real {
    d + d * p.jitterFactor * (2.0 * u - 1.0)
  }

  lemma JitterFactors(p: Policy, d: real, u: real)
    ensures Jittered(p, d, u) == d * (1.0 + p.jitterFactor * (2.0 * u - 1.0))
  {
  }

  /** Jitter on a capped delay stays within the bound. */
  lemma JitterBound(p: Policy, d: real, u: real)
    requires SanePolicy(p) && d <= p.maxDelay as real && 0.0 <= u < 1.0
    ensures Jittered(p, d, u) <= WaitBound(p)
  {
    var j, w, m := p.jitterFactor, 2.0 * u - 1.0, p.maxDelay as real;
    var k := 1.0 + j * w;
    Product(j, 1.0 - w);
    Distribute(j, 1.0, w);
    Product(j, 2.0 * u);
    Distribute(j, 2.0 * u, 1.0);
    assert 0.0 <= k <= 1.0 + j;
    JitterFactors(p, d, u);
    Product(m, 1.0 + j);
    if d < 0.0 {
      Product(-d, k);
      Distribute(k, 0.0, d);
    } else {
      Product(d, 1.0 + j - k);
      Distribute(d, 1.0 + j, k);
      Product(1.0 + j, m - d);
      Distribute(1.0 + j, m, d);
    }
  }

  lemma TruncateBelow(x: real, b: real)
    requires x <= b && b >= 0.0
    ensures Truncate(x) as real <= b
  {
  }

  /** The backoff before retry number `attempt`: capped, jittered, truncated, not negative. */
  function Backoff(p: Policy, attempt: nat, u: real): int {
    var exact := Truncate(Jittered(p, Capped(p, attempt), u));
    if exact < 0 then 0 else exact
  }

  /** calcBackoff with u = rand.Float64(). */
  method CalcBackoff(p: Policy, attempt: nat, u: real) returns (r: int)
    requires 0.0 <= u < 1.0
    ensures r == Backoff(p, attempt, u)
    ensures SanePolicy(p) ==> 0 <= r && r as real <= WaitBound(p)
  {
    var delay := p.initialDelay as real;
    for i := 0 to attempt
      invariant delay == Uncapped(p, i)
    {
      PowerStep(p, i);
      delay := delay * p.multiplier;
    }
    if delay > p.maxDelay as real {
      delay := p.maxDelay as real;
    }
    assert delay == Capped(p, attempt);
    r := Truncate(Jittered(p, delay, u));
    if SanePolicy(p) {
      JitterBound(p, delay, u);
      WaitBoundPositive(p);
      TruncateBelow(Jittered(p, delay, u), WaitBound(p));
    }
    if r < 0 {
      r := 0;
    }
  }

  lemma PowerStep(p: Policy, i: nat)
    ensures Uncapped(p, i + 1) == Uncapped(p, i) * p.multiplier
  {
    assert p.initialDelay as real * (Power(p.multiplier, i) * p.multiplier)
        == p.initialDelay as real * Power(p.multiplier, i) * p.multiplier;
  }

  lemma WaitBoundPositive(p: Policy)
    requires SanePolicy(p)
    ensures WaitBound(p) >= p.maxDelay as real >= 0.0
  {
    assert p.maxDelay as real * p.jitterFactor >= 0.0;
  }

  /** The Retry-After hint an error carries, 0 if it carries none. */
  function Hint(err: Error): int {
    var g := AsGateway(err);
    if g.Some? && g.value.retryAfter > 0 then g.value.retryAfter else 0
  }

  /** The wait before retry number `attempt`: the hint, capped at MaxDelay, or else the backoff. */
  function Wait(p: Policy, attempt: nat, err: Error, u: real): int {
    if Hint(err) > 0 then (if Hint(err) > p.maxDelay then p.maxDelay else Hint(err)) else Backoff(p, attempt, u)
  }

  method Delay(p: Policy, attempt: nat, err: Error, u: real) returns (r: int)
    requires 0.0 <= u < 1.0
    ensures r == Wait(p, attempt, err, u)
    ensures SanePolicy(p) ==> 0 <= r && r as real <= WaitBound(p)
  {
    var g := AsGateway(err);
    if g.Some? && g.value.retryAfter > 0 {
      if SanePolicy(p) {
        WaitBoundPositive(p);
      }
      if g.value.retryAfter > p.maxDelay {
        return p.maxDelay;
      }
      return g.value.retryAfter;
    }
    r := CalcBackoff(p, attempt, u);
  }

  /** What one execution did: its calls, the waits between them, and what it returned. */
  datatype Attempts = Attempts(calls: nat, waits: seq<int>, err: Option<Error>)

  /**
    The law of one execution, `fn` giving the outcome of each call, `done` the context's error if it ends
    during the wait before a call, and `random` the draw for it: the calls are fn(0), fn(1), ...; all but
    the last failed with a retryable error; each wait is the hint or the backoff of the failure before it;
    the result is the last call's outcome unless the context ended while waiting.
   */
  ghost predicate Lawful(p: Policy, fn: nat -> Option<Error>, done: nat -> Option<Error>, random: nat -> real,
                         a: Attempts)
  {
    && a.calls <= (if p.maxAttempts < 0 then 0 else p.maxAttempts)
    && (p.maxAttempts >= 1 ==> a.calls >= 1)
    && (forall k :: 0 <= k < a.calls - 1 ==> fn(k).Some? && ShouldRetry(fn(k).value))
    && (forall k :: 1 <= k < a.calls ==> done(k).None?)
    && |a.waits| <= a.calls
    && (forall k :: 0 <= k < |a.waits| ==> fn(k).Some? && a.waits[k] == Wait(p, k, fn(k).value, random(k + 1)))
    && if a.calls == 0 then a.err == None && a.waits == []
       else
         var last := fn(a.calls - 1);
         var giveUp := last.None? || !ShouldRetry(last.value) || a.calls == p.maxAttempts;
         if giveUp then a.err == last && |a.waits| == a.calls - 1
         else done(a.calls).Some? && a.err == done(a.calls) && |a.waits| == a.calls
  }

  method Execute(p: Policy, fn: nat -> Option<Error>, done: nat -> Option<Error>, random: nat -> real)
    returns (a: Attempts)
    requires forall k :: 0.0 <= random(k) < 1.0
    ensures Lawful(p, fn, done, random, a)
    ensures SanePolicy(p) ==> forall w :: w in a.waits ==> 0 <= w && w as real <= WaitBound(p)
  {
    var lastErr: Option<Error> := None;
    var waits: seq<int> := [];
    var attempt := 0;
    while attempt < p.maxAttempts
      invariant 0 <= attempt && (p.maxAttempts >= 0 ==> attempt <= p.maxAttempts)
      invariant p.maxAttempts < 0 ==> attempt == 0
      invariant |waits| == if attempt == 0 then 0 else attempt - 1
      invariant SanePolicy(p) ==> forall w :: w in waits ==> 0 <= w && w as real <= WaitBound(p)
      invariant forall k :: 0 <= k < |waits| ==> fn(k).Some? && waits[k] == Wait(p, k, fn(k).value, random(k + 1))
      invariant forall k :: 0 <= k < attempt ==> fn(k).Some? && ShouldRetry(fn(k).value)
      invariant forall k :: 1 <= k < attempt ==> done(k).None?
      invariant lastErr == if attempt == 0 then None else fn(attempt - 1)
    {
      if attempt > 0 {
        var delay := Delay(p, attempt - 1, lastErr.value, random(attempt));
        waits := waits + [delay];
        if done(attempt).Some? {
          return Attempts(attempt, waits, done(attempt));
        }
      }
      lastErr := fn(attempt);
      if lastErr == None {
        return Attempts(attempt + 1, waits, None);
      }
      if !ShouldRetry(lastErr.value) {
        return Attempts(attempt + 1, waits, lastErr);
      }
      attempt := attempt + 1;
    }
    a := Attempts(attempt, waits, lastErr);
  }

  /** The law leaves no freedom: it determines the number of calls, every wait and the result. */
  lemma LawDetermines(p: Policy, fn: nat -> Option<Error>, done: nat -> Option<Error>, random: nat -> real,
                      a: Attempts, b: Attempts)
    requires Lawful(p, fn, done, random, a) && Lawful(p, fn, done, random, b)
    ensures a == b
  {
    assert a.calls == b.calls && |a.waits| == |b.waits|;
    assert a.waits == b.waits;
  }

  // ----- which errors are retried

  /** The error inside any number of wrappings. */
  function Core(e: Error): (r: Error)
    ensures !r.Wrapped?
  {
    if e.Wrapped? then Core(e.inner) else e
  }

  const RETRYABLE: set<Code> := {RateLimited, ProviderError, Timeout, NetworkError, Overloaded}

  /** Wrapping hides nothing: an error is judged, and its hint read, by what is inside. */
  lemma {:induction false} ByCore(e: Error)
    ensures IsContextError(e) <==> Core(e) == Canceled || Core(e) == DeadlineExceeded
    ensures ShouldRetry(e) <==> Core(e).Gateway? && Core(e).code in RETRYABLE
    ensures Hint(e) == if Core(e).Gateway? && Core(e).retryAfter > 0 then Core(e).retryAfter else 0
  {
    if e.Wrapped? {
      ByCore(e.inner);
    }
  }

  /** Any other error ends the execution at the first call, without a wait: a failed authentication gets one call. */
  lemma OneCall(p: Policy, fn: nat -> Option<Error>, done: nat -> Option<Error>, random: nat -> real, a: Attempts)
    requires Lawful(p, fn, done, random, a) && p.maxAttempts >= 1
    requires fn(0).Some? ==> !(Core(fn(0).value).Gateway? && Core(fn(0).value).code in RETRYABLE)
    ensures a == Attempts(1, [], fn(0))
  {
    if fn(0).Some? {
      ByCore(fn(0).value);
    }
    assert a.calls == 1;
    assert a.waits == [];
  }

  /** Retryable errors are retried until the attempts are used up. */
  lemma AllCalls(p: Policy, fn: nat -> Option<Error>, done: nat -> Option<Error>, random: nat -> real, a: Attempts)
    requires Lawful(p, fn, done, random, a) && p.maxAttempts >= 1 && forall k :: done(k).None?
    requires forall k: nat {:trigger fn(k)} :: k < p.maxAttempts ==>
               fn(k).Some? && Core(fn(k).value).Gateway? && Core(fn(k).value).code in RETRYABLE
    ensures a.calls == p.maxAttempts && a.err == fn(p.maxAttempts - 1) && |a.waits| == p.maxAttempts - 1
  {
    var last := fn(a.calls - 1);
    ByCore(last.value);
  }

  /** The wait after a hint is the hint or MaxDelay, whichever is shorter. */
  lemma HintedWait(p: Policy, attempt: nat, e: Error, u: real)
    requires Core(e).Gateway? && Core(e).retryAfter > 0
    ensures Wait(p, attempt, e, u) == if Core(e).retryAfter < p.maxDelay then Core(e).retryAfter else p.maxDelay
  {
    ByCore(e);
  }

  // ----- jitter after the cap

  /** Jitter is symmetric: opposite draws average to the delay, and the lowest takes off the whole factor. */
  lemma JitterSymmetric(p: Policy, d: real, u: real)
    ensures Jittered(p, d, u) + Jittered(p, d, 1.0 - u) == 2.0 * d
    ensures Jittered(p, d, 0.0) == d - d * p.jitterFactor
  {
    var s := d * p.jitterFactor;
    Distribute(s, u + u, 1.0);
    Distribute(s, 1.0, u + u);
  }

  /** The middle draw shows the default policy's backoff: half a second, doubled each time, at most 30 s. */
  lemma DefaultDoubles(attempt: nat)
    ensures Backoff(DEFAULT, attempt, 0.5)
         == match attempt
            case 0 => 500_000_000
            case 1 => 1_000_000_000
            case 2 => 2_000_000_000
            case 3 => 4_000_000_000
            case 4 => 8_000_000_000
            case 5 => 16_000_000_000
            case _ => 30_000_000_000
  {
    SmallPowers();
    PowersOfTwo(attempt);
  }

  lemma TruncateIs(x: real)
    ensures x >= 0.0 ==> Truncate(x) as real <= x < Truncate(x) as real + 1.0
    ensures Truncate(-x) == -Truncate(x)
  {
  }

  /** A draw that makes the jittered delay exactly x, for d < x < d * (1 + j). */
  lemma DrawFor(p: Policy, d: real, x: real) returns (u: real)
    requires d > 0.0 && p.jitterFactor > 0.0 && d < x && x - d < d * p.jitterFactor
    ensures 0.0 <= u < 1.0 && Jittered(p, d, u) == x
  {
    var s := d * p.jitterFactor;
    var w := (x - d) / s;
    assert w * s == x - d;
    assert 0.0 < w < 1.0 by {
      Below(x - d, s, w);
    }
    u := (w + 1.0) / 2.0;
    assert 2.0 * u - 1.0 == w;
  }

  lemma Below(a: real, s: real, w: real)
    requires 0.0 < a < s && w * s == a
    ensures 0.0 < w < 1.0
  {
    if w <= 0.0 {
      Product(-w, s);
      Distribute(s, 0.0, w);
    } else if w >= 1.0 {
      Product(w - 1.0, s);
      Distribute(s, w, 1.0);
    }
  }

  /** No draw reaches the jitter factor itself. */
  lemma JitterStrict(p: Policy, d: real, u: real)
    requires 0.0 <= u < 1.0 && p.jitterFactor >= 0.0 && d >= 0.0
    ensures Jittered(p, d, u) < d * (1.0 + p.jitterFactor) || (d * p.jitterFactor == 0.0 && Jittered(p, d, u) == d)
  {
    var s, w := d * p.jitterFactor, 2.0 * u - 1.0;
    Product(d, p.jitterFactor);
    Distribute(d, 1.0, -p.jitterFactor);
    Distribute(s, 1.0, w);
    if s > 0.0 {
      Positive(s, 1.0 - w);
    }
  }

  lemma Positive(a: real, b: real)
    requires a > 0.0 && b > 0.0
    ensures a * b > 0.0
  {
  }

  /**
    Jitter is applied after the cap. Exactly when the capped delay with full jitter exceeds MaxDelay by
    more than a nanosecond does some draw give a backoff longer than MaxDelay.
   */
  lemma ExceedsExactlyWhen(p: Policy, attempt: nat)
    requires SanePolicy(p)
    ensures (exists u :: 0.0 <= u < 1.0 && Backoff(p, attempt, u) > p.maxDelay)
       <==> Capped(p, attempt) * (1.0 + p.jitterFactor) > p.maxDelay as real + 1.0
  {
    if Capped(p, attempt) * (1.0 + p.jitterFactor) > p.maxDelay as real + 1.0 {
      var u := ExceedingDraw(p, attempt);
    }
    forall u | 0.0 <= u < 1.0 && Backoff(p, attempt, u) > p.maxDelay
      ensures Capped(p, attempt) * (1.0 + p.jitterFactor) > p.maxDelay as real + 1.0
    {
      ExceedsOnlyWhen(p, Capped(p, attempt), u);
    }
  }

  lemma ExceedingDraw(p: Policy, attempt: nat) returns (u: real)
    requires SanePolicy(p) && Capped(p, attempt) * (1.0 + p.jitterFactor) > p.maxDelay as real + 1.0
    ensures 0.0 <= u < 1.0 && Backoff(p, attempt, u) > p.maxDelay
  {
    var d, m := Capped(p, attempt), p.maxDelay as real;
    JitterRoom(d, p.jitterFactor, m);
    u := DrawFor(p, d, m + 1.0);
    Whole(p.maxDelay + 1);
  }

  lemma Whole(n: nat)
    ensures Truncate(n as real) == n
  {
  }

  lemma ExceedsOnlyWhen(p: Policy, d: real, u: real)
    requires SanePolicy(p) && d <= p.maxDelay as real && 0.0 <= u < 1.0
    requires Truncate(Jittered(p, d, u)) > p.maxDelay
    ensures d * (1.0 + p.jitterFactor) > p.maxDelay as real + 1.0
  {
    var x := Jittered(p, d, u);
    assert x >= p.maxDelay as real + 1.0;
    if d < 0.0 {
      JitterNegative(p, d, u);
    } else {
      JitterStrict(p, d, u);
    }
  }

  lemma JitterRoom(d: real, j: real, m: real)
    requires d <= m && m >= 0.0 && 0.0 <= j && d * (1.0 + j) > m + 1.0
    ensures d > 0.0 && j > 0.0 && m + 1.0 - d < d * j
  {
    assert d * (1.0 + j) == d + d * j;
    if d <= 0.0 {
      Product(-d, 1.0 + j);
      Distribute(1.0 + j, 0.0, d);
    }
  }

  lemma JitterNegative(p: Policy, d: real, u: real)
    requires SanePolicy(p) && d < 0.0 && 0.0 <= u < 1.0
    ensures Jittered(p, d, u) <= 0.0
  {
    JitterFactors(p, d, u);
    var k := 1.0 + p.jitterFactor * (2.0 * u - 1.0);
    Product(p.jitterFactor, 2.0 * u);
    Distribute(p.jitterFactor, 2.0 * u, 1.0);
    Product(-d, k);
    Distribute(k, 0.0, d);
  }

  lemma {:induction false} PowersOfTwo(n: nat)
    ensures Power(2.0, n) >= 1.0 && (n >= 6 ==> Power(2.0, n) >= 64.0) && (n <= 5 ==> Power(2.0, n) <= 32.0)
  {
    if n > 0 {
      PowersOfTwo(n - 1);
      if n <= 6 {
        SmallPowers();
      }
    }
  }

  lemma SmallPowers()
    ensures Power(2.0, 0) == 1.0 && Power(2.0, 1) == 2.0 && Power(2.0, 2) == 4.0 && Power(2.0, 3) == 8.0
    ensures Power(2.0, 4) == 16.0 && Power(2.0, 5) == 32.0 && Power(2.0, 6) == 64.0
  {
    assert Power(2.0, 2) == Power(2.0, 1) * 2.0;
    assert Power(2.0, 4) == Power(2.0, 3) * 2.0;
    assert Power(2.0, 6) == Power(2.0, 5) * 2.0;
  }

  /** Under the default policy that can happen from the seventh backoff on, and not before. */
  lemma DefaultExceedsFromSeventh(attempt: nat)
    ensures (exists u :: 0.0 <= u < 1.0 && Backoff(DEFAULT, attempt, u) > DEFAULT.maxDelay) <==> attempt >= 6
  {
    ExceedsExactlyWhen(DEFAULT, attempt);
    PowersOfTwo(attempt);
  }

  /** Its three attempts make two backoffs at most, so under it no wait is longer than MaxDelay. */
  lemma DefaultWaits(fn: nat -> Option<Error>, done: nat -> Option<Error>, random: nat -> real, a: Attempts, k: nat)
    requires (forall i :: 0.0 <= random(i) < 1.0) && Lawful(DEFAULT, fn, done, random, a) && k < |a.waits|
    ensures 0 <= a.waits[k] <= DEFAULT.maxDelay
    ensures Hint(fn(k).value) == 0 ==> 375_000_000 <= a.waits[k] <= 1_250_000_000
  {
    assert k <= 1;
    DefaultBackoff(k, random(k + 1));
  }

  lemma DefaultBackoff(attempt: nat, u: real)
    requires attempt <= 1 && 0.0 <= u < 1.0
    ensures 375_000_000 <= Backoff(DEFAULT, attempt, u) <= 1_250_000_000
  {
    SmallPowers();
  }
}
