/**
  Request/response correlation of the MCP transports (internal/mcp/transport_websocket.go and
  transport_sse.go): callers register one-slot channels in a shared pending map, a reader loop delivers
  responses, callers may give up at any time. Every interleaving is a run of the steps below.
 */
module Mcp {
  import opened Common

  /** A response with an id; `body` stands for result or error. */
  datatype Response = Response(id: int, body: int)

  datatype Result = Delivered(r: Response) | GaveUp

  /** Where a call is in its body: id taken, channel stored, request sent, answer in hand, entry deleted. */
  datatype Phase = Numbered | Stored | Waiting | Answered(result: Result) | Returned(result: Result)

  /** The reader is waiting for a message, or has looked up the channel of a response it will send there. */
  datatype Reader = Idle | Sending(r: Response)

  /**
    The shared state. Each call owns the channel named by its id; `chans` holds the buffered responses.
    `answered` counts, per id, the responses read so far, `found` those whose lookup found a channel.
   */
  datatype State = State(nextId: int, calls: map<int, Phase>, pending: set<int>, chans: map<int, seq<Response>>,
                         reader: Reader, answered: multiset<int>, found: multiset<int>)

  const INIT := State(0, map[], {}, map[], Idle, multiset{}, multiset{})

  const CAPACITY := 1

  datatype Step =
    | TakeId
    | Store(id: int)
    | Send(id: int)
    | SendFails(id: int)
    | Receive(id: int)
    | GiveUp(id: int)
    | Delete(id: int)
    | Read(r: Response)
    | Deliver

  predicate In(s: State, id: int, p: Phase) {
    id in s.calls && s.calls[id] == p
  }

  predicate Enabled(s: State, step: Step) {
    match step
    case TakeId => true
    case Store(id) => In(s, id, Numbered)
    case Send(id) => In(s, id, Stored)
    case SendFails(id) => In(s, id, Stored)
    case Receive(id) => In(s, id, Waiting) && id in s.chans && s.chans[id] != []
    case GiveUp(id) => In(s, id, Waiting)
    case Delete(id) => id in s.calls && s.calls[id].Answered?
    case Read(r) => s.reader.Idle?
    case Deliver => s.reader.Sending? && s.reader.r.id in s.chans && |s.chans[s.reader.r.id]| < CAPACITY
  }

  function Apply(s: State, step: Step): State
    requires Enabled(s, step)
  {
    match step
    // the counter moves and a one-slot channel is made
    case TakeId =>
      var id := s.nextId + 1;
      s.(nextId := id, calls := s.calls[id := Numbered], chans := s.chans[id := []])
    // the channel is registered under the id
    case Store(id) => s.(calls := s.calls[id := Stored], pending := s.pending + {id})
    case Send(id) => s.(calls := s.calls[id := Waiting])
    case SendFails(id) => s.(calls := s.calls[id := Answered(GaveUp)])
    // the buffered response is taken
    case Receive(id) =>
      s.(calls := s.calls[id := Answered(Delivered(s.chans[id][0]))], chans := s.chans[id := s.chans[id][1..]])
    // context done or 30 s timeout
    case GiveUp(id) => s.(calls := s.calls[id := Answered(GaveUp)])
    // the deferred removal, then the return
    case Delete(id) => s.(calls := s.calls[id := Returned(s.calls[id].result)], pending := s.pending - {id})
    // a message with an id arrives; the lookup decides whether it is delivered
    case Read(r) =>
      var s' := s.(answered := s.answered + multiset{r.id});
      if r.id in s.pending then s'.(reader := Sending(r), found := s.found + multiset{r.id}) else s'
    case Deliver =>
      var r := s.reader.r;
      s.(reader := Idle, chans := s.chans[r.id := s.chans[r.id] + [r]])
  }

  /** A run: every step enabled when taken. */
  predicate Runs(s: State, steps: seq<Step>)
    decreases |steps|
  {
    steps == [] || (Enabled(s, steps[0]) && Runs(Apply(s, steps[0]), steps[1..]))
  }

  function After(s: State, steps: seq<Step>): State
    requires Runs(s, steps)
    decreases |steps|
  {
    if steps == [] then s else After(Apply(s, steps[0]), steps[1..])
  }

  /** Calls registered and not yet cleaned up. */
  predicate Live(p: Phase) {
    p.Stored? || p.Waiting? || p.Answered?
  }

  /** Ids are positive and handed out once; the pending map holds exactly the live calls. */
  ghost predicate Registered(s: State) {
    && s.nextId >= 0
    && (forall id :: id in s.calls ==> 1 <= id <= s.nextId)
    && (forall id :: id in s.pending <==> id in s.calls && Live(s.calls[id]))
  }

  function ResultOf(p: Phase): Option<Result> {
    match p
    case Answered(r) => Some(r)
    case Returned(r) => Some(r)
    case _ => None
  }

  /** Channels and results carry only responses with their own id, and channels never overflow. */
  ghost predicate Correlated(s: State) {
    && s.chans.Keys == s.calls.Keys
    && (forall id :: id in s.chans ==> |s.chans[id]| <= CAPACITY)
    && (forall id, r :: id in s.chans && r in s.chans[id] ==> r.id == id)
    && (forall id, r :: id in s.calls && ResultOf(s.calls[id]) == Some(Delivered(r)) ==> r.id == id)
    && (s.reader.Sending? ==> s.reader.r.id in s.calls)
  }

  /** What every reachable state satisfies. */
  ghost predicate Inv(s: State) {
    Registered(s) && Correlated(s)
  }

  lemma StepRegistered(s: State, step: Step)
    requires Registered(s) && Enabled(s, step)
    ensures Registered(Apply(s, step))
  {
  }

  lemma StepCorrelated(s: State, step: Step)
    requires Registered(s) && Correlated(s) && Enabled(s, step)
    ensures Correlated(Apply(s, step))
  {
  }

  lemma StepInv(s: State, step: Step)
    requires Inv(s) && Enabled(s, step)
    ensures Inv(Apply(s, step))
  {
    StepRegistered(s, step);
    StepCorrelated(s, step);
  }

  /** Every run keeps the invariant: ids, pending map and results are right in every interleaving. */
  lemma {:induction false} RunInv(s: State, steps: seq<Step>)
    requires Inv(s) && Runs(s, steps)
    ensures Inv(After(s, steps))
    decreases |steps|
  {
    if steps != [] {
      StepInv(s, steps[0]);
      RunInv(Apply(s, steps[0]), steps[1..]);
    }
  }

  /** Ids are never reused: a new call's id is not among those handed out. */
  lemma FreshId(s: State)
    requires Inv(s)
    ensures s.nextId + 1 !in s.calls && s.nextId + 1 != 0
  {
  }

  /** A response to a call that has finished, or to no call at all, changes nothing but the reader's log. */
  lemma LateResponseHarmless(s: State, r: Response)
    requires Inv(s) && s.reader.Idle? && (r.id !in s.calls || s.calls[r.id].Returned?)
    ensures Apply(s, Read(r)) == s.(answered := s.answered + multiset{r.id})
  {
  }

  // ----- what a call returns

  /** A run extended by one step. */
  lemma {:induction false} RunsSnoc(s: State, steps: seq<Step>, step: Step)
    requires Runs(s, steps) && Enabled(After(s, steps), step)
    ensures Runs(s, steps + [step]) && After(s, steps + [step]) == Apply(After(s, steps), step)
    decreases |steps|
  {
    if steps == [] {
      assert [step][1..] == [];
    } else {
      assert (steps + [step])[1..] == steps[1..] + [step];
      RunsSnoc(Apply(s, steps[0]), steps[1..], step);
    }
  }

  /** The run before the last step. */
  lemma {:induction false} RunsFront(s: State, steps: seq<Step>)
    requires Runs(s, steps) && steps != []
    ensures var before, step := steps[..|steps| - 1], steps[|steps| - 1];
            Runs(s, before) && Enabled(After(s, before), step) && After(s, steps) == Apply(After(s, before), step)
    decreases |steps|
  {
    if |steps| > 1 {
      assert steps[1..][..|steps| - 2] == steps[..|steps| - 1][1..];
      RunsFront(Apply(s, steps[0]), steps[1..]);
    }
  }

  /** The responses to an id read after its channel was stored and before it was deleted, in order. */
  function FoundOf(steps: seq<Step>, id: int): seq<Response> {
    if steps == [] then []
    else
      var before, step := steps[..|steps| - 1], steps[|steps| - 1];
      FoundOf(before, id)
      + if step.Read? && step.r.id == id && Store(id) in before && Delete(id) !in before then [step.r] else []
  }

  /** The same responses, where they are: taken by the call, in its channel, in the reader's hand. */
  function Whereabouts(s: State, id: int): seq<Response> {
    var taken := if id in s.calls && ResultOf(s.calls[id]).Some? && ResultOf(s.calls[id]).value.Delivered?
                 then [ResultOf(s.calls[id]).value.r] else [];
    var held := if s.reader.Sending? && s.reader.r.id == id then [s.reader.r] else [];
    taken + (if id in s.chans then s.chans[id] else []) + held
  }

  /** A call's place, told by the steps taken in its name. */
  ghost predicate Told(steps: seq<Step>, s: State, id: int) {
    && (Store(id) in steps <==> id in s.calls && s.calls[id] != Numbered)
    && (Delete(id) in steps <==> id in s.calls && s.calls[id].Returned?)
    && (Receive(id) in steps <==>
          id in s.calls && ResultOf(s.calls[id]).Some? && ResultOf(s.calls[id]).value.Delivered?)
    && (GiveUp(id) in steps || SendFails(id) in steps <==>
          id in s.calls && ResultOf(s.calls[id]) == Some(GaveUp))
  }

  lemma ToldStep(steps: seq<Step>, s: State, step: Step, id: int)
    requires Inv(s) && Enabled(s, step) && Told(steps, s, id)
    ensures Told(steps + [step], Apply(s, step), id)
  {
    assert forall x :: x in steps + [step] <==> x in steps || x == step;
    FreshId(s);
  }

  lemma FoundSnoc(steps: seq<Step>, step: Step, id: int)
    ensures FoundOf(steps + [step], id)
         == FoundOf(steps, id)
            + if step.Read? && step.r.id == id && Store(id) in steps && Delete(id) !in steps then [step.r] else []
  {
    assert (steps + [step])[..|steps|] == steps;
  }

  /** What one step does to the responses of an id: a read that finds the channel adds one at the end. */
  lemma WhereaboutsStep(s: State, step: Step, id: int)
    requires Inv(s) && Enabled(s, step)
    ensures Whereabouts(Apply(s, step), id)
         == Whereabouts(s, id) + if step.Read? && step.r.id == id && id in s.pending then [step.r] else []
  {
    match step {
      case TakeId =>
        FreshId(s);
      case Receive(i) =>
        assert s.chans[i] == [s.chans[i][0]] + s.chans[i][1..];
      case _ =>
    }
  }

  /** In every run, the responses found for an id are, in order, the one taken, those buffered and the one in hand. */
  lemma {:induction false} RunTells(steps: seq<Step>, id: int)
    requires Runs(INIT, steps)
    ensures Told(steps, After(INIT, steps), id) && Whereabouts(After(INIT, steps), id) == FoundOf(steps, id)
  {
    if steps != [] {
      var before, step := steps[..|steps| - 1], steps[|steps| - 1];
      RunsFront(INIT, steps);
      assert steps == before + [step];
      RunTells(before, id);
      RunInv(INIT, before);
      TellStep(before, After(INIT, before), step, id);
    }
  }

  lemma TellStep(steps: seq<Step>, s: State, step: Step, id: int)
    requires Inv(s) && Enabled(s, step) && Told(steps, s, id) && Whereabouts(s, id) == FoundOf(steps, id)
    ensures Told(steps + [step], Apply(s, step), id)
    ensures Whereabouts(Apply(s, step), id) == FoundOf(steps + [step], id)
  {
    ToldStep(steps, s, step, id);
    WhereaboutsStep(s, step, id);
    FoundSnoc(steps, step, id);
    assert id in s.pending <==> Store(id) in steps && Delete(id) !in steps;
  }

  /**
    A call that has a response has the first one read for its id after its channel was stored, exactly as the
    server sent it; it has one exactly if it received, and none exactly if it gave up or could not send.
   */
  lemma OwnResponse(steps: seq<Step>, id: int)
    requires Runs(INIT, steps)
    requires var s := After(INIT, steps); id in s.calls && ResultOf(s.calls[id]).Some?
    ensures match ResultOf(After(INIT, steps).calls[id]).value
            case Delivered(r) =>
              Receive(id) in steps && FoundOf(steps, id) != [] && r == FoundOf(steps, id)[0] && r.id == id
            case GaveUp => GiveUp(id) in steps || SendFails(id) in steps
  {
    RunTells(steps, id);
    RunInv(INIT, steps);
  }

  /** Said with positions: read at step n, the channel stored before and not deleted, and no such read earlier. */
  lemma {:induction false} FirstFound(steps: seq<Step>, id: int) returns (n: nat)
    requires FoundOf(steps, id) != []
    ensures n < |steps| && steps[n] == Read(FoundOf(steps, id)[0]) && FoundOf(steps, id)[0].id == id
    ensures Store(id) in steps[..n] && Delete(id) !in steps[..n]
    ensures forall m :: 0 <= m < n && steps[m].Read? && steps[m].r.id == id ==>
              Store(id) !in steps[..m] || Delete(id) in steps[..m]
  {
    var before := steps[..|steps| - 1];
    if FoundOf(before, id) != [] {
      n := FirstFound(before, id);
      assert forall m :: 0 <= m <= n ==> before[..m] == steps[..m];
    } else {
      n := |steps| - 1;
      NoneFound(before, id);
      assert forall m :: 0 <= m < n ==> before[..m] == steps[..m] && before[m] == steps[m];
    }
  }

  lemma {:induction false} NoneFound(steps: seq<Step>, id: int)
    requires FoundOf(steps, id) == []
    ensures forall m :: 0 <= m < |steps| && steps[m].Read? && steps[m].r.id == id ==>
              Store(id) !in steps[..m] || Delete(id) in steps[..m]
  {
    if steps != [] {
      var before := steps[..|steps| - 1];
      NoneFound(before, id);
      assert forall m :: 0 <= m < |before| ==> before[..m] == steps[..m] && before[m] == steps[m];
    }
  }

  // ----- when the reader's send finds room

  function Held(s: State, id: int): nat {
    if s.reader.Sending? && s.reader.r.id == id then 1 else 0
  }

  function Handed(s: State, id: int): nat {
    if id in s.calls && (s.calls[id].Answered? || s.calls[id].Returned?) && s.calls[id].result.Delivered? then 1 else 0
  }

  function Buffered(s: State, id: int): nat {
    if id in s.chans then |s.chans[id]| else 0
  }

  /**
    Conservation: every response whose channel was found is in the reader's hand, in the channel or
    handed to the call, and it was read.
   */
  ghost predicate ConservedFor(s: State, id: int) {
    Held(s, id) + Buffered(s, id) + Handed(s, id) == s.found[id] <= s.answered[id]
  }

  ghost predicate Conserved(s: State) {
    forall id :: ConservedFor(s, id)
  }

  lemma StepConserved(s: State, step: Step, id: int)
    requires Inv(s) && Enabled(s, step) && ConservedFor(s, id)
    ensures ConservedFor(Apply(s, step), id)
  {
  }

  lemma {:induction false} RunConserved(s: State, steps: seq<Step>)
    requires Inv(s) && Conserved(s) && Runs(s, steps)
    ensures Conserved(After(s, steps))
    decreases |steps|
  {
    if steps != [] {
      forall id ensures ConservedFor(Apply(s, steps[0]), id) {
        StepConserved(s, steps[0], id);
      }
      StepInv(s, steps[0]);
      RunConserved(Apply(s, steps[0]), steps[1..]);
    }
  }

  /**
    The exact condition, in every run: the reader's send finds room if and only if every response found
    for that id before the one in hand has been taken by the call, which takes at most one.
   */
  lemma SendsExactlyWhen(steps: seq<Step>)
    requires Runs(INIT, steps)
    ensures var s := After(INIT, steps);
            s.reader.Sending? ==>
              var id := s.reader.r.id;
              (Enabled(s, Deliver) <==> s.found[id] == 1 + Handed(s, id))
  {
    RunInv(INIT, steps);
    RunConserved(INIT, steps);
    var s := After(INIT, steps);
    if s.reader.Sending? {
      assert ConservedFor(s, s.reader.r.id);
    }
  }

  /**
    So a reader that holds a response to an id answered once never blocks, also when the call gave up or
    was deleted between lookup and send; and a blocked reader holds a second or third answer to its id.
   */
  lemma ReaderNeverBlocks(steps: seq<Step>)
    requires Runs(INIT, steps)
    ensures var s := After(INIT, steps);
            s.reader.Sending? ==>
              && (s.answered[s.reader.r.id] == 1 ==> Enabled(s, Deliver))
              && (!Enabled(s, Deliver) ==> 2 <= s.found[s.reader.r.id] <= 3)
  {
    SendsExactlyWhen(steps);
    RunInv(INIT, steps);
    RunConserved(INIT, steps);
    var s := After(INIT, steps);
    if s.reader.Sending? {
      assert ConservedFor(s, s.reader.r.id);
    }
  }

  /** The reader waits for room in a channel that nobody will read again. */
  predicate Stuck(s: State) {
    && s.reader.Sending?
    && var id := s.reader.r.id;
       id in s.chans && |s.chans[id]| >= CAPACITY && id in s.calls && s.calls[id].Returned?
  }

  /** A stuck reader stays stuck, whatever callers and server do. */
  lemma {:induction false} StuckForever(s: State, steps: seq<Step>)
    requires Inv(s) && Stuck(s) && Runs(s, steps)
    ensures Stuck(After(s, steps))
    decreases |steps|
  {
    if steps != [] {
      StepInv(s, steps[0]);
      FreshId(s);
      StuckForever(Apply(s, steps[0]), steps[1..]);
    }
  }

  ghost predicate Reaches(s: State, t: State) {
    exists steps :: Runs(s, steps) && After(s, steps) == t
  }

  lemma Then(s: State, t: State, step: Step)
    requires Reaches(s, t) && Enabled(t, step)
    ensures Reaches(s, Apply(t, step))
  {
    var steps :| Runs(s, steps) && After(s, steps) == t;
    RunsSnoc(s, steps, step);
  }

  /** Only ids have been handed out, the last one n. */
  ghost predicate OnlyNumbered(s: State, n: nat) {
    && s.nextId == n && s.reader.Idle? && s.pending == {} && s.answered == s.found == multiset{}
    && (forall id :: id in s.calls <==> 1 <= id <= n) && s.chans.Keys == s.calls.Keys
    && forall id :: id in s.calls ==> s.calls[id] == Numbered && s.chans[id] == []
  }

  lemma {:induction false} TakeIds(n: nat) returns (s: State)
    ensures Reaches(INIT, s) && OnlyNumbered(s, n)
  {
    if n == 0 {
      s := INIT;
      assert Runs(INIT, []) && After(INIT, []) == INIT;
    } else {
      var t := TakeIds(n - 1);
      s := Apply(t, TakeId);
      Then(INIT, t, TakeId);
    }
  }

  /**
    Answering an id twice can block the reader for good, whatever the id and the responses: the call
    gives up with the first response still in its channel and the second in the reader's hand.
   */
  lemma DuplicateAnswerSticks(id: nat, b1: int, b2: int)
    requires id >= 1
    ensures exists steps :: Runs(INIT, steps) && Stuck(After(INIT, steps))
                            && After(INIT, steps).answered == multiset{id, id}
                            && After(INIT, steps).reader == Sending(Response(id, b2))
                            && After(INIT, steps).chans[id] == [Response(id, b1)]
  {
    var s0 := TakeIds(id);
    var s3 := Ask(s0, id);
    var s6 := AnswerTwice(s3, id, b1, b2);
    var s7 := Apply(s6, GiveUp(id));
    Then(INIT, s6, GiveUp(id));
    var s8 := Apply(s7, Delete(id));
    Then(INIT, s7, Delete(id));
    assert Stuck(s8);
  }

  /** A call registers and sends its request. */
  lemma Ask(s: State, id: nat) returns (t: State)
    requires Reaches(INIT, s) && id >= 1 && OnlyNumbered(s, id)
    ensures Reaches(INIT, t) && t.reader.Idle? && t.answered == multiset{}
    ensures In(t, id, Waiting) && id in t.pending && id in t.chans && t.chans[id] == []
  {
    var s1 := Apply(s, Store(id));
    Then(INIT, s, Store(id));
    t := Apply(s1, Send(id));
    Then(INIT, s1, Send(id));
  }

  /** Two responses to a waiting call: one buffered, one in the reader's hand. */
  lemma AnswerTwice(s: State, id: nat, b1: int, b2: int) returns (t: State)
    requires Reaches(INIT, s) && s.reader.Idle? && s.answered == multiset{}
    requires In(s, id, Waiting) && id in s.pending && id in s.chans && s.chans[id] == []
    ensures Reaches(INIT, t) && In(t, id, Waiting) && t.answered == multiset{id, id}
    ensures t.reader == Sending(Response(id, b2)) && id in t.chans && t.chans[id] == [Response(id, b1)]
  {
    var s1 := Apply(s, Read(Response(id, b1)));
    Then(INIT, s, Read(Response(id, b1)));
    var s2 := Apply(s1, Deliver);
    Then(INIT, s1, Deliver);
    t := Apply(s2, Read(Response(id, b2)));
    Then(INIT, s2, Read(Response(id, b2)));
  }
}
