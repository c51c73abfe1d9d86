/**
  Provider health over a sliding minute: internal/health/provider_health.go. The tracker forgets old
  outcomes; a ghost history does not, and the two give the same error rate. Times are nanoseconds.
 */
module Health {
  const WINDOW := 60_000_000_000

  datatype Outcome = Outcome(at: int, success: bool)

  /** The outcomes at or after a cutoff. */
  function Recent(s: seq<Outcome>, cutoff: int): seq<Outcome> {
    if s == [] then []
    else Recent(s[..|s| - 1], cutoff) + if s[|s| - 1].at < cutoff then [] else [s[|s| - 1]]
  }

  function Failures(s: seq<Outcome>): nat {
    if s == [] then 0 else Failures(s[..|s| - 1]) + if s[|s| - 1].success then 0 else 1
  }

  /** The failed fraction of the outcomes of the last minute, out of everything ever recorded. */
  function Rate(history: seq<Outcome>, now: int): real {
    var recent := Recent(history, now - WINDOW);
    if recent == [] then 0.0 else Failures(recent) as real / |recent| as real
  }

  /** Positions of a history at or after a cutoff, and those of them that failed. */
  function RecentAt(s: seq<Outcome>, cutoff: int): set<nat> {
    set i: nat | i < |s| && s[i].at >= cutoff
  }

  function FailedAt(s: seq<Outcome>, cutoff: int): set<nat> {
    set i: nat | i < |s| && s[i].at >= cutoff && !s[i].success
  }

  lemma {:induction false} CountedByPosition(s: seq<Outcome>, cutoff: int)
    ensures |Recent(s, cutoff)| == |RecentAt(s, cutoff)| && Failures(Recent(s, cutoff)) == |FailedAt(s, cutoff)|
  {
    if s == [] {
      assert RecentAt(s, cutoff) == {} && FailedAt(s, cutoff) == {};
    } else {
      var n := |s| - 1;
      assert Recent(s[..n], cutoff) + [] == Recent(s[..n], cutoff);
      CountedByPosition(s[..n], cutoff);
      PositionsSnoc(s, cutoff);
      FailuresSnoc(Recent(s[..n], cutoff), s[n]);
    }
  }

  lemma PositionsSnoc(s: seq<Outcome>, cutoff: int)
    requires s != []
    ensures var n := |s| - 1;
            && |RecentAt(s, cutoff)| == |RecentAt(s[..n], cutoff)| + (if s[n].at >= cutoff then 1 else 0)
            && |FailedAt(s, cutoff)|
               == |FailedAt(s[..n], cutoff)| + (if s[n].at >= cutoff && !s[n].success then 1 else 0)
  {
    var n := |s| - 1;
    assert RecentAt(s, cutoff) == RecentAt(s[..n], cutoff) + if s[n].at >= cutoff then {n} else {};
    assert FailedAt(s, cutoff) == FailedAt(s[..n], cutoff) + if s[n].at >= cutoff && !s[n].success then {n} else {};
  }

  lemma FailuresSnoc(s: seq<Outcome>, o: Outcome)
    ensures Failures(s + [o]) == Failures(s) + if o.success then 0 else 1
  {
    assert (s + [o])[..|s|] == s;
  }

  /** The rate by positions: of the outcomes of the last minute, the share that failed. */
  lemma RateByPosition(history: seq<Outcome>, now: int)
    ensures var recent, failed := |RecentAt(history, now - 60_000_000_000)|, |FailedAt(history, now - 60_000_000_000)|;
            Rate(history, now) == if recent == 0 then 0.0 else failed as real / recent as real
  {
    CountedByPosition(history, now - WINDOW);
  }

  lemma {:induction false} RateInRange(history: seq<Outcome>, now: int)
    ensures 0.0 <= Rate(history, now) <= 1.0
  {
    var recent := Recent(history, now - WINDOW);
    FailuresAtMost(recent);
    if recent != [] {
      Fraction(Failures(recent), |recent|);
    }
  }

  lemma {:induction false} FailuresAtMost(s: seq<Outcome>)
    ensures Failures(s) <= |s|
  {
    if s != [] {
      FailuresAtMost(s[..|s| - 1]);
    }
  }

  lemma Fraction(a: nat, b: nat)
    requires a <= b && b > 0
    ensures 0.0 <= a as real / b as real <= 1.0
  {
  }

  lemma AtLeast(a: real, b: real, share: real)
    requires b > 0.0
    ensures a / b >= share <==> a >= share * b
  {
    assert a / b * b == a;
  }

  lemma {:induction false} RecentAppend(a: seq<Outcome>, b: seq<Outcome>, cutoff: int)
    ensures Recent(a + b, cutoff) == Recent(a, cutoff) + Recent(b, cutoff)
  {
    if b == [] {
      assert a + b == a;
    } else {
      assert (a + b)[..|a + b| - 1] == a + b[..|b| - 1];
      RecentAppend(a, b[..|b| - 1], cutoff);
    }
  }

  lemma {:induction false} RecentNone(s: seq<Outcome>, cutoff: int)
    requires forall i :: 0 <= i < |s| ==> s[i].at < cutoff
    ensures Recent(s, cutoff) == []
  {
    if s != [] {
      RecentNone(s[..|s| - 1], cutoff);
    }
  }

  lemma {:induction false} RecentAll(s: seq<Outcome>, cutoff: int)
    requires forall i :: 0 <= i < |s| ==> s[i].at >= cutoff
    ensures Recent(s, cutoff) == s
  {
    if s != [] {
      RecentAll(s[..|s| - 1], cutoff);
      assert s == s[..|s| - 1] + [s[|s| - 1]];
    }
  }

  ghost predicate Ordered(s: seq<Outcome>) {
    forall i, j :: 0 <= i <= j < |s| ==> s[i].at <= s[j].at
  }

  ghost predicate Before(s: seq<Outcome>, cutoff: int) {
    forall i :: 0 <= i < |s| ==> s[i].at < cutoff
  }

  /** Everything forgotten is older than the window; what is kept is in order and not from the future. */
  ghost predicate Faithful(forgotten: seq<Outcome>, kept: seq<Outcome>, clock: int) {
    Before(forgotten, clock - WINDOW) && Ordered(kept) && Before(kept, clock + 1)
  }

  /** Nothing that a later reading of the clock asks for was forgotten. */
  lemma ForgottenIsOld(forgotten: seq<Outcome>, kept: seq<Outcome>, clock: int, later: int)
    requires Faithful(forgotten, kept, clock) && clock <= later
    ensures Recent(forgotten + kept, later - WINDOW) == Recent(kept, later - WINDOW)
  {
    RecentAppend(forgotten, kept, later - WINDOW);
    RecentNone(forgotten, later - WINDOW);
  }

  lemma AppendKeeps(forgotten: seq<Outcome>, kept: seq<Outcome>, clock: int, o: Outcome)
    requires Faithful(forgotten, kept, clock) && clock <= o.at
    ensures Faithful(forgotten, kept + [o], o.at)
  {
  }

  lemma Forget(forgotten: seq<Outcome>, kept: seq<Outcome>, clock: int, later: int, i: nat)
    requires Faithful(forgotten, kept, clock) && clock <= later && i <= |kept| && Before(kept[..i], later - WINDOW)
    ensures Faithful(forgotten + kept[..i], kept[i..], later)
  {
    assert Ordered(kept[i..]) by {
      forall j, k | 0 <= j <= k < |kept| - i ensures kept[i..][j].at <= kept[i..][k].at {
        assert kept[i + j].at <= kept[i + k].at;
      }
    }
  }

  lemma Later(forgotten: seq<Outcome>, kept: seq<Outcome>, clock: int, later: int)
    requires Faithful(forgotten, kept, clock) && clock <= later
    ensures Faithful(forgotten, kept, later)
  {
  }

  type Lists = map<string, seq<Outcome>>

  function Of(m: Lists, name: string): seq<Outcome> {
    if name in m then m[name] else []
  }

  ghost predicate AllFaithful(forgotten: Lists, entries: Lists, clock: int) {
    forall name {:trigger Faithful(Of(forgotten, name), Of(entries, name), clock)} ::
      Faithful(Of(forgotten, name), Of(entries, name), clock)
  }

  /** A change of one provider's lists leaves every other provider's faithful. */
  lemma OneChanges(forgotten: Lists, entries: Lists, clock: int, name: string,
                   f: seq<Outcome>, e: seq<Outcome>, later: int)
    requires AllFaithful(forgotten, entries, clock) && clock <= later && Faithful(f, e, later)
    ensures AllFaithful(forgotten[name := f], entries[name := e], later)
  {
    var f', e' := forgotten[name := f], entries[name := e];
    forall other ensures Faithful(Of(f', other), Of(e', other), later) {
      if other != name {
        assert Of(f', other) == Of(forgotten, other) && Of(e', other) == Of(entries, other);
        Later(Of(forgotten, other), Of(entries, other), clock, later);
      }
    }
  }

  lemma StaleSplit(entries: seq<Outcome>, cutoff: int, i: nat)
    requires i <= |entries| && Before(entries[..i], cutoff)
    requires Ordered(entries) && (i < |entries| ==> entries[i].at >= cutoff)
    ensures entries[i..] == Recent(entries, cutoff)
  {
    var stale, rest := entries[..i], entries[i..];
    assert entries == stale + rest;
    RecentAppend(stale, rest, cutoff);
    RecentNone(stale, cutoff);
    assert forall j :: 0 <= j < |rest| ==> rest[j].at >= cutoff by {
      forall j | 0 <= j < |rest| ensures rest[j].at >= cutoff {
        assert rest[j] == entries[i + j];
      }
    }
    RecentAll(rest, cutoff);
  }

  /** The pruning loop counts the leading stale outcomes; what follows is exactly the recent ones. */
  method CountStale(entries: seq<Outcome>, cutoff: int) returns (i: nat)
    requires Ordered(entries)
    ensures i <= |entries| && Before(entries[..i], cutoff) && entries[i..] == Recent(entries, cutoff)
  {
    i := 0;
    while i < |entries| && entries[i].at < cutoff
      invariant i <= |entries| && Before(entries[..i], cutoff)
    {
      i := i + 1;
    }
    StaleSplit(entries, cutoff, i);
  }

  function All(forgotten: Lists, entries: Lists, name: string): seq<Outcome> {
    Of(forgotten, name) + Of(entries, name)
  }

  lemma ListOrdered(forgotten: Lists, entries: Lists, clock: int, name: string, later: int)
    requires AllFaithful(forgotten, entries, clock) && clock <= later
    ensures Ordered(Of(entries, name))
    ensures Recent(All(forgotten, entries, name), later - WINDOW) == Recent(Of(entries, name), later - WINDOW)
  {
    assert Faithful(Of(forgotten, name), Of(entries, name), clock);
    ForgottenIsOld(Of(forgotten, name), Of(entries, name), clock, later);
  }

  lemma PruneKeeps(forgotten: Lists, entries: Lists, clock: int, name: string, later: int, i: nat)
    requires AllFaithful(forgotten, entries, clock) && clock <= later
    requires i <= |Of(entries, name)| && Before(Of(entries, name)[..i], later - WINDOW)
    ensures var list := Of(entries, name);
            var f, e := forgotten[name := Of(forgotten, name) + list[..i]], entries[name := list[i..]];
            AllFaithful(f, e, later) && forall p :: All(f, e, p) == All(forgotten, entries, p)
  {
    var list, dropped := Of(entries, name), Of(forgotten, name);
    assert Faithful(dropped, list, clock);
    Forget(dropped, list, clock, later, i);
    OneChanges(forgotten, entries, clock, name, dropped + list[..i], list[i..], later);
    assert (dropped + list[..i]) + list[i..] == dropped + list;
  }

  lemma RecordKeeps(forgotten: Lists, entries: Lists, clock: int, name: string, o: Outcome)
    requires AllFaithful(forgotten, entries, clock) && clock <= o.at
    ensures var f, e := forgotten[name := Of(forgotten, name)], entries[name := Of(entries, name) + [o]];
            && AllFaithful(f, e, o.at) && All(f, e, name) == All(forgotten, entries, name) + [o]
            && forall p :: p != name ==> All(f, e, p) == All(forgotten, entries, p)
  {
    assert Faithful(Of(forgotten, name), Of(entries, name), clock);
    AppendKeeps(Of(forgotten, name), Of(entries, name), clock, o);
    OneChanges(forgotten, entries, clock, name, Of(forgotten, name), Of(entries, name) + [o], o.at);
    assert Of(forgotten, name) + (Of(entries, name) + [o]) == All(forgotten, entries, name) + [o];
  }

  /** The counting loop of ErrorRate. */
  method CountFailures(list: seq<Outcome>) returns (errs: nat)
    ensures errs == Failures(list)
  {
    errs := 0;
    for i := 0 to |list|
      invariant errs == Failures(list[..i])
    {
      assert list[..i + 1][..i] == list[..i];
      if !list[i].success {
        errs := errs + 1;
      }
    }
    assert list[..|list|] == list;
  }

  datatype Status = Ok | Degraded | Unhealthy

  class ProviderTracker {
    var entries: Lists
    /** What pruning dropped, and the latest clock reading. */
    ghost var forgotten: Lists
    ghost var clock: int

    ghost predicate Valid()
      reads this
    {
      AllFaithful(forgotten, entries, clock)
    }

    /** Everything ever recorded for a provider. */
    ghost function History(name: string): seq<Outcome>
      reads this
    {
      All(forgotten, entries, name)
    }

    constructor (now: int)
      ensures Valid() && clock == now && forall name :: History(name) == []
    {
      entries, forgotten, clock := map[], map[], now;
    }

    /** Pruning leaves exactly the outcomes of the last minute, and every history as it was. */
    method Prune(name: string, now: int)
      requires Valid() && clock <= now
      modifies this
      ensures Valid() && clock == now && forall p :: History(p) == old(History(p))
      ensures entries == old(entries)[name := Recent(History(name), now - WINDOW)]
    {
      ListOrdered(forgotten, entries, clock, name, now);
      var list := Of(entries, name);
      var i := CountStale(list, now - WINDOW);
      PruneKeeps(forgotten, entries, clock, name, now, i);
      forgotten := forgotten[name := Of(forgotten, name) + list[..i]];
      entries := entries[name := list[i..]];
      clock := now;
    }

    /** The append of Record. */
    method Append(name: string, o: Outcome)
      requires Valid() && clock <= o.at
      modifies this
      ensures Valid() && clock == o.at && entries == old(entries)[name := Of(old(entries), name) + [o]]
      ensures History(name) == old(History(name)) + [o]
      ensures forall p :: p != name ==> History(p) == old(History(p))
    {
      RecordKeeps(forgotten, entries, clock, name, o);
      entries := entries[name := Of(entries, name) + [o]];
      forgotten := forgotten[name := Of(forgotten, name)];
      clock := o.at;
    }

    /** The outcome is stamped, then the list is pruned at a second, no earlier, reading of the clock. */
    method Record(name: string, success: bool, now: int, pruneAt: int)
      requires Valid() && clock <= now <= pruneAt
      modifies this
      ensures Valid() && clock == pruneAt
      ensures History(name) == old(History(name)) + [Outcome(now, success)]
      ensures forall p :: p != name ==> History(p) == old(History(p))
      ensures entries == old(entries)[name := Recent(History(name), pruneAt - WINDOW)]
    {
      Append(name, Outcome(now, success));
      Prune(name, pruneAt);
    }

    /** Forgetting is unobservable: the rate is that of everything ever recorded in the last minute. */
    method ErrorRate(name: string, now: int) returns (rate: real)
      requires Valid() && clock <= now
      modifies this
      ensures Valid() && clock == now && forall p :: History(p) == old(History(p))
      ensures rate == Rate(History(name), now) && 0.0 <= rate <= 1.0
    {
      RateInRange(History(name), now);
      Prune(name, now);
      var list := entries[name];
      if |list| == 0 {
        return 0.0;
      }
      var errs := CountFailures(list);
      rate := errs as real / |list| as real;
    }

    /** Half of the last minute's outcomes failed, or a tenth, or fewer (or there were none). */
    method GetStatus(name: string, now: int) returns (status: Status)
      requires Valid() && clock <= now
      modifies this
      ensures Valid() && clock == now && forall p :: History(p) == old(History(p))
      ensures var recent := Recent(History(name), now - WINDOW);
              && (status.Unhealthy? <==> recent != [] && 2 * Failures(recent) >= |recent|)
              && (status.Ok? <==> recent == [] || 10 * Failures(recent) < |recent|)
    {
      var rate := ErrorRate(name, now);
      ghost var recent := Recent(History(name), now - WINDOW);
      if recent != [] {
        AtLeast(Failures(recent) as real, |recent| as real, 0.5);
        AtLeast(Failures(recent) as real, |recent| as real, 0.1);
      }
      status := if rate >= 0.5 then Unhealthy else if rate >= 0.1 then Degraded else Ok;
    }
  }
}

/**
  The last-used updater of internal/auth/middleware.go: at most one store update per key and minute,
  remembered in a map that is thinned out when it grows.
 */
module LastUsed {
  const MINUTE := 60_000_000_000
  const MAX_SEEN := 5000

  /**
    One message: the key, and the clock at the three readings its handling makes: when the age is
    tested, when the update is remembered, and when stale entries are evicted.
   */
  datatype Update = Update(id: int, t1: int, t2: int, t3: int)

  ghost predicate Clocked(us: seq<Update>) {
    && (forall i :: 0 <= i < |us| ==> us[i].t1 <= us[i].t2 <= us[i].t3)
    && (forall i, j :: 0 <= i < j < |us| ==> us[i].t3 <= us[j].t1)
  }

  /** Is the key due for a store update? */
  predicate Due(seen: map<int, int>, u: Update) {
    u.id !in seen || u.t1 - seen[u.id] >= MINUTE
  }

  /** The map after a message. */
  function Seen(seen: map<int, int>, u: Update): map<int, int> {
    if !Due(seen, u) then seen
    else
      var s := seen[u.id := u.t2];
      if |s| > MAX_SEEN then map k | k in s && s[k] >= u.t3 - 2 * MINUTE :: s[k] else s
  }

  function SeenAfter(us: seq<Update>): map<int, int> {
    if us == [] then map[] else Seen(SeenAfter(us[..|us| - 1]), us[|us| - 1])
  }

  /** For each message, does it lead to a store update? */
  function Issued(us: seq<Update>): (r: seq<bool>)
    ensures |r| == |us|
  {
    if us == [] then [] else Issued(us[..|us| - 1]) + [Due(SeenAfter(us[..|us| - 1]), us[|us| - 1])]
  }

  /** What an updater that never evicts would remember: the latest store update of every key. */
  function FullAfter(us: seq<Update>): map<int, int> {
    if us == [] then map[]
    else
      var full, u := FullAfter(us[..|us| - 1]), us[|us| - 1];
      if Due(full, u) then full[u.id := u.t2] else full
  }

  /** The thinned map agrees with the full one, and lacks only entries that are more than a minute old. */
  ghost predicate Agrees(seen: map<int, int>, full: map<int, int>, now: int) {
    && (forall k :: k in seen ==> k in full && seen[k] == full[k])
    && (forall k :: k in full && k !in seen ==> full[k] < now - MINUTE)
  }

  lemma AgreesStep(seen: map<int, int>, full: map<int, int>, now: int, u: Update)
    requires Agrees(seen, full, now) && now <= u.t1 <= u.t2 <= u.t3
    ensures Due(seen, u) == Due(full, u)
    ensures Agrees(Seen(seen, u), if Due(full, u) then full[u.id := u.t2] else full, u.t3)
  {
  }

  /** Eviction is unobservable: the map decides every later message as the never-evicting one would. */
  lemma {:induction false} EvictionInvisible(us: seq<Update>, u: Update)
    requires Clocked(us + [u])
    ensures Due(SeenAfter(us), u) == Due(FullAfter(us), u)
    ensures Agrees(SeenAfter(us), FullAfter(us), u.t1)
  {
    var all := us + [u];
    assert all[|us|] == u;
    if us != [] {
      var rest, last := us[..|us| - 1], us[|us| - 1];
      assert all[..|us|] == us == rest + [last] && all[|us| - 1] == last;
      assert Clocked(us) by {
        assert forall i :: 0 <= i < |us| ==> us[i] == all[i];
      }
      EvictionInvisible(rest, last);
      AgreesStep(SeenAfter(rest), FullAfter(rest), last.t1, last);
      assert last.t3 <= u.t1;
    }
  }

  /** Every store update is recorded in the full map or superseded there by a later one of the same key. */
  ghost predicate Latest(us: seq<Update>, issued: seq<bool>, full: map<int, int>)
    requires |issued| == |us|
  {
    && (forall i :: 0 <= i < |us| && issued[i] ==> us[i].id in full && us[i].t2 <= full[us[i].id])
    && (forall k :: k in full ==> exists i :: 0 <= i < |us| && issued[i] && us[i].id == k && us[i].t2 == full[k])
  }

  lemma DueWhen(us: seq<Update>, issued: seq<bool>, full: map<int, int>, u: Update)
    requires |issued| == |us| && Latest(us, issued, full)
    ensures Due(full, u) <==> forall i :: 0 <= i < |us| && issued[i] && us[i].id == u.id ==> u.t1 - us[i].t2 >= MINUTE
  {
  }

  lemma Translate(us: seq<Update>, issued: seq<bool>, before: seq<Update>, flags: seq<bool>, u: Update)
    requires |issued| == |us| && |flags| == |before| <= |us| && us[..|before|] == before && issued[..|before|] == flags
    ensures (forall i :: 0 <= i < |before| && flags[i] && before[i].id == u.id ==> u.t1 - before[i].t2 >= MINUTE)
        <==> (forall i :: 0 <= i < |before| && issued[i] && us[i].id == u.id ==> u.t1 - us[i].t2 >= MINUTE)
  {
    assert forall i :: 0 <= i < |before| ==> us[i] == before[i] && issued[i] == flags[i];
  }

  lemma LatestStep(us: seq<Update>, issued: seq<bool>, full: map<int, int>, u: Update)
    requires |issued| == |us| && Latest(us, issued, full) && Clocked(us + [u])
    ensures Latest(us + [u], issued + [Due(full, u)], if Due(full, u) then full[u.id := u.t2] else full)
  {
    var all, flags := us + [u], issued + [Due(full, u)];
    var next := if Due(full, u) then full[u.id := u.t2] else full;
    assert all[|us|] == u && flags[|us|] == Due(full, u);
    forall i | 0 <= i < |all| && flags[i] ensures all[i].id in next && all[i].t2 <= next[all[i].id] {
      assert i < |us| ==> all[i] == us[i] && flags[i] == issued[i] && all[i].t2 <= all[i].t3 <= u.t1 <= u.t2;
    }
    forall k | k in next
      ensures exists i :: 0 <= i < |all| && flags[i] && all[i].id == k && all[i].t2 == next[k]
    {
      if !(Due(full, u) && k == u.id) {
        var i :| 0 <= i < |us| && issued[i] && us[i].id == k && us[i].t2 == full[k];
        assert all[i] == us[i] && flags[i] == issued[i];
      }
    }
  }

  lemma {:induction false} FullIsLatest(us: seq<Update>)
    requires Clocked(us)
    ensures Latest(us, Issued(us), FullAfter(us))
  {
    if us != [] {
      var rest, last := us[..|us| - 1], us[|us| - 1];
      assert us == rest + [last];
      FullIsLatest(rest);
      EvictionInvisible(rest, last);
      LatestStep(rest, Issued(rest), FullAfter(rest), last);
    }
  }

  /** Earlier decisions are not revised. */
  lemma {:induction false} IssuedPrefix(us: seq<Update>, n: nat)
    requires n <= |us|
    ensures Issued(us)[..n] == Issued(us[..n])
  {
    if n == |us| {
      assert us[..n] == us;
    } else {
      var rest := us[..|us| - 1];
      IssuedPrefix(rest, n);
      assert rest[..n] == us[..n];
    }
  }

  lemma ClockedPrefix(us: seq<Update>, j: nat)
    requires Clocked(us) && j < |us|
    ensures Clocked(us[..j]) && Clocked(us[..j] + [us[j]])
  {
    assert us[..j] + [us[j]] == us[..j + 1];
  }

  lemma DecidedByLatest(us: seq<Update>, u: Update)
    requires Clocked(us) && Clocked(us + [u])
    ensures Due(SeenAfter(us), u) <==>
            forall i :: 0 <= i < |us| && Issued(us)[i] && us[i].id == u.id ==> u.t1 - us[i].t2 >= MINUTE
  {
    EvictionInvisible(us, u);
    FullIsLatest(us);
    DueWhen(us, Issued(us), FullAfter(us), u);
  }

  lemma LastDecision(us: seq<Update>, j: nat)
    requires j < |us|
    ensures Issued(us)[j] == Due(SeenAfter(us[..j]), us[j])
  {
    var upTo := us[..j + 1];
    assert upTo[..j] == us[..j];
    IssuedPrefix(us, j + 1);
    assert Issued(us)[j] == Issued(us)[..j + 1][j];
  }

  /**
    A message leads to a store update exactly when no update of its key was written within the last
    minute. In particular two updates of one key are at least a minute apart, however many keys were
    evicted in between.
   */
  lemma OncePerMinute(us: seq<Update>, j: nat)
    requires Clocked(us) && j < |us|
    ensures Issued(us)[j] <==>
            forall i :: 0 <= i < j && Issued(us)[i] && us[i].id == us[j].id ==> us[j].t1 - us[i].t2 >= 60_000_000_000
  {
    ClockedPrefix(us, j);
    IssuedPrefix(us, j);
    LastDecision(us, j);
    DecidedByLatest(us[..j], us[j]);
    Translate(us, Issued(us), us[..j], Issued(us[..j]), us[j]);
  }

  /** The updater's loop; the result tells which messages led to a store update. */
  method RunLastUsedUpdater(us: seq<Update>) returns (updates: seq<bool>)
    requires Clocked(us)
    ensures |updates| == |us|
    ensures forall j :: 0 <= j < |us| ==>
      (updates[j] <==> forall i :: 0 <= i < j && updates[i] && us[i].id == us[j].id ==> us[j].t1 - us[i].t2 >= MINUTE)
  {
    var seen := map[];
    updates := [];
    for n := 0 to |us|
      invariant updates == Issued(us[..n]) && seen == SeenAfter(us[..n])
    {
      var u := us[n];
      assert us[..n + 1][..n] == us[..n];
      if u.id in seen && u.t1 - seen[u.id] < MINUTE {
        updates := updates + [false];
      } else {
        updates := updates + [true];
        seen := seen[u.id := u.t2];
        if |seen| > MAX_SEEN {
          var cutoff := u.t3 - 2 * MINUTE;
          seen := map k | k in seen && !(seen[k] < cutoff) :: seen[k];
        }
      }
    }
    assert us[..|us|] == us;
    forall j | 0 <= j < |us|
      ensures updates[j] <==>
              forall i :: 0 <= i < j && updates[i] && us[i].id == us[j].id ==> us[j].t1 - us[i].t2 >= MINUTE
    {
      OncePerMinute(us, j);
    }
  }
}
