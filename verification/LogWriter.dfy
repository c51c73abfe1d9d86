/**
  The batching log writer of internal/telemetry/log_writer.go: producers hand entries to a bounded
  channel without blocking, one goroutine collects them into batches for the store. Entries are generic.
 */
module LogWriter {
  import opened Common

  const CHANNEL_SIZE := 10_000
  const BATCH_SIZE := 500

  /** The goroutine's place: in its select loop, draining after stop, or returned. */
  datatype Mode = Looping | Draining | Exited

  /** What can happen next; the select statements choose among those that are enabled. */
  datatype Step<T> = Write(entry: T) | Tick | Take | Stop | Empty

  class Writer<T> {
    var ch: seq<T>
    var buf: seq<T>
    var dropped: nat
    var mode: Mode
    /** The batches handed to the store, in order. */
    var batches: seq<seq<T>>
    /** Entries the channel accepted, in order, and the number of Write calls. */
    ghost var accepted: seq<T>
    ghost var writes: nat

    /**
      Nothing accepted is lost, duplicated or reordered, every write is accepted or counted as dropped,
      and batches hold 1 to 500 entries.
     */
    ghost predicate Valid()
      reads this
    {
      && Flatten(batches) + buf + ch == accepted
      && |accepted| + dropped == writes
      && |ch| <= 10_000 && |buf| < 500
      && (forall b :: b in batches ==> 1 <= |b| <= 500)
      && (mode == Exited ==> buf == [])
    }

    constructor ()
      ensures Valid() && accepted == [] && batches == [] && dropped == 0 && mode == Looping && writes == 0
    {
      ch, buf, dropped, mode, batches := [], [], 0, Looping, [];
      accepted, writes := [], 0;
    }

    /** Never blocks: a full channel drops the entry and counts it. */
    method Write(entry: T)
      requires Valid()
      modifies this`ch, this`dropped, this`accepted, this`writes
      ensures Valid() && writes == old(writes) + 1
      ensures if |old(ch)| < 10_000
              then ch == old(ch) + [entry] && accepted == old(accepted) + [entry] && dropped == old(dropped)
              else ch == old(ch) && accepted == old(accepted) && dropped == old(dropped) + 1
    {
      writes := writes + 1;
      if |ch| < CHANNEL_SIZE {
        Assoc(Flatten(batches) + buf, ch, [entry]);
        ch := ch + [entry];
        accepted := accepted + [entry];
      } else {
        dropped := dropped + 1;
      }
    }

    /** Hands the buffer, if any, to the store. */
    method Flush()
      requires Flatten(batches) + buf + ch == accepted
      requires |buf| <= BATCH_SIZE && forall b :: b in batches ==> 1 <= |b| <= BATCH_SIZE
      modifies this`buf, this`batches
      ensures buf == [] && batches == old(batches) + if old(buf) == [] then [] else [old(buf)]
      ensures Flatten(batches) + ch == accepted && Flatten(batches) == Flatten(old(batches)) + old(buf)
      ensures forall b :: b in batches ==> 1 <= |b| <= BATCH_SIZE
    {
      if |buf| == 0 {
        return;
      }
      FlattenSingle(batches, buf);
      batches := batches + [buf];
      buf := [];
    }

    /** A received entry joins the buffer; a full buffer is flushed. Used by the loop and by the drain. */
    method Receive()
      requires Valid() && mode != Exited && ch != []
      modifies this`ch, this`buf, this`batches
      ensures Valid() && ch == old(ch)[1..]
      ensures if |old(buf)| + 1 < 500 then buf == old(buf) + [old(ch)[0]] && batches == old(batches)
              else buf == [] && batches == old(batches) + [old(buf) + [old(ch)[0]]]
    {
      var e := ch[0];
      Assoc(Flatten(batches) + buf, [e], ch[1..]);
      Assoc(Flatten(batches), buf, [e]);
      assert ch == [e] + ch[1..];
      ch := ch[1..];
      buf := buf + [e];
      if |buf| >= BATCH_SIZE {
        Flush();
      }
    }

    predicate Enabled(step: Step<T>)
      reads this
    {
      match step
      case Write(_) => true
      case Tick => mode == Looping
      case Take => mode != Exited && ch != []
      case Stop => mode == Looping
      // the drain's default case
      case Empty => mode == Draining && ch == []
    }

    /**
      One step of a producer or of the goroutine. When the goroutine exits, buffer and channel are empty
      and the batches concatenate to everything accepted.
     */
    method Do(step: Step<T>)
      requires Valid() && Enabled(step)
      modifies this
      ensures Valid() && old(accepted) <= accepted && old(batches) <= batches
      ensures writes == old(writes) + if step.Write? then 1 else 0
      ensures mode == if step.Stop? then Draining else if step.Empty? then Exited else old(mode)
      ensures step.Tick? ==> buf == [] && ch == old(ch)
      ensures step.Take? ==> ch == old(ch)[1..]
      ensures step.Empty? ==> ch == [] && buf == [] && Flatten(batches) == accepted
    {
      match step {
        case Write(entry) =>
          Write(entry);
        case Tick =>
          Flush();
        case Take =>
          Receive();
        case Stop =>
          mode := Draining;
        case Empty =>
          Flush();
          mode := Exited;
      }
    }

    /**
      Any schedule of writes, ticks, receives and stop, in which steps that are not enabled are passed
      over: what was accepted is what the store got, then the buffer, then the channel. After the exit
      only entries written later are left in the channel.
     */
    method Run(schedule: seq<Step<T>>)
      requires Valid() && mode == Looping
      modifies this
      ensures Valid() && old(accepted) <= accepted && old(batches) <= batches
      ensures mode == Exited ==> Flatten(batches) + ch == accepted
    {
      for i := 0 to |schedule|
        invariant Valid() && old(accepted) <= accepted && old(batches) <= batches
      {
        if Enabled(schedule[i]) {
          Do(schedule[i]);
        }
      }
    }
  }
}

/** The daily usage table of internal/store/postgres/log_store.go: batches are grouped and added to the stored rows. */
module DailyUsage {
  import opened Common
  import LogWriter

  datatype Entry = Entry(date: int, model: string, provider: string, virtualKey: Option<string>,
                         prompt: int, completion: int, total: int, cost: real, status: int, errorCode: string)

  /** Requests without a virtual key share the all-zero key id. */
  const SENTINEL := "00000000-0000-0000-0000-000000000000"

  datatype Key = Key(date: int, model: string, provider: string, virtualKey: string)

  datatype Agg = Agg(requests: int, prompt: int, completion: int, total: int, cost: real, errors: int) {
    function Plus(b: Agg): Agg {
      Agg(requests + b.requests, prompt + b.prompt, completion + b.completion, total + b.total,
          cost + b.cost, errors + b.errors)
    }
  }

  const ZERO := Agg(0, 0, 0, 0, 0.0, 0)

  function KeyOf(e: Entry): Key {
    Key(e.date, e.model, e.provider, if e.virtualKey.Some? then e.virtualKey.value else SENTINEL)
  }

  function Single(e: Entry): Agg {
    Agg(1, e.prompt, e.completion, e.total, e.cost, if e.status >= 500 || e.errorCode != "" then 1 else 0)
  }

  /** Entries without a model are not counted. */
  predicate Counted(e: Entry, k: Key) {
    e.model != "" && KeyOf(e) == k
  }

  /** The one-pass reference: the keys that occur, and for each the sum over its entries. */
  function Keys(es: seq<Entry>): set<Key> {
    set e | e in es && e.model != "" :: KeyOf(e)
  }

  function Sum(es: seq<Entry>, k: Key): Agg {
    if es == [] then ZERO
    else
      var rest := Sum(es[..|es| - 1], k);
      if Counted(es[|es| - 1], k) then rest.Plus(Single(es[|es| - 1])) else rest
  }

  function GroupBy(es: seq<Entry>): map<Key, Agg> {
    map k | k in Keys(es) :: Sum(es, k)
  }

  function At(m: map<Key, Agg>, k: Key): Agg {
    if k in m then m[k] else ZERO
  }

  /** The additive upsert: rows present in both are added up. */
  function Merge(a: map<Key, Agg>, b: map<Key, Agg>): map<Key, Agg> {
    map k | k in a.Keys + b.Keys :: At(a, k).Plus(At(b, k))
  }

  lemma {:induction false} SumAppend(a: seq<Entry>, b: seq<Entry>, k: Key)
    ensures Sum(a + b, k) == Sum(a, k).Plus(Sum(b, k))
  {
    if b == [] {
      assert a + b == a;
    } else {
      assert (a + b)[..|a + b| - 1] == a + b[..|b| - 1];
      SumAppend(a, b[..|b| - 1], k);
    }
  }

  /** A column summed over the entries of a row. */
  function Column(f: Entry -> int, es: seq<Entry>, k: Key): int {
    if es == [] then 0
    else Column(f, es[..|es| - 1], k) + if Counted(es[|es| - 1], k) then f(es[|es| - 1]) else 0
  }

  function Costs(es: seq<Entry>, k: Key): real {
    if es == [] then 0.0
    else Costs(es[..|es| - 1], k) + if Counted(es[|es| - 1], k) then es[|es| - 1].cost else 0.0
  }

  /** Each column of a row is the sum of its own field over the row's entries; server errors and error codes count. */
  lemma {:induction false} RowColumns(es: seq<Entry>, k: Key)
    ensures var row := At(GroupBy(es), k);
            && row.requests == Column((e: Entry) => 1, es, k)
            && row.prompt == Column((e: Entry) => e.prompt, es, k)
            && row.completion == Column((e: Entry) => e.completion, es, k)
            && row.total == Column((e: Entry) => e.total, es, k)
            && row.cost == Costs(es, k)
            && row.errors == Column((e: Entry) => if e.status < 500 && e.errorCode == "" then 0 else 1, es, k)
  {
    GroupByAt(es, k);
    if es != [] {
      RowColumns(es[..|es| - 1], k);
      GroupByAt(es[..|es| - 1], k);
    }
  }

  /** Entries share a row exactly if day, model, provider and key agree, no key counting as the zero key. */
  lemma SameRow(a: Entry, b: Entry)
    ensures KeyOf(a) == KeyOf(b) <==>
            && a.date == b.date && a.model == b.model && a.provider == b.provider
            && (a.virtualKey == b.virtualKey || {a.virtualKey, b.virtualKey} == {None, Some(SENTINEL)})
  {
  }

  lemma {:induction false} SumAbsent(es: seq<Entry>, k: Key)
    requires k !in Keys(es)
    ensures Sum(es, k) == ZERO
  {
    if es != [] {
      var rest, e := es[..|es| - 1], es[|es| - 1];
      assert e in es;
      assert k !in Keys(rest) by {
        assert forall x :: x in rest ==> x in es;
      }
      SumAbsent(rest, k);
    }
  }

  lemma GroupByAt(es: seq<Entry>, k: Key)
    ensures At(GroupBy(es), k) == Sum(es, k)
  {
    if k !in Keys(es) {
      SumAbsent(es, k);
    }
  }

  lemma KeysAppend(a: seq<Entry>, b: seq<Entry>)
    ensures Keys(a + b) == Keys(a) + Keys(b)
  {
    forall k ensures k in Keys(a + b) <==> k in Keys(a) || k in Keys(b) {
      if k in Keys(a) {
        var e :| e in a && e.model != "" && KeyOf(e) == k;
        assert e in a + b;
      }
      if k in Keys(b) {
        var e :| e in b && e.model != "" && KeyOf(e) == k;
        assert e in a + b;
      }
    }
  }

  /** Grouping two batches and adding the results is grouping all their entries at once. */
  lemma MergeGroups(a: seq<Entry>, b: seq<Entry>)
    ensures Merge(GroupBy(a), GroupBy(b)) == GroupBy(a + b)
  {
    KeysAppend(a, b);
    forall k | k in Keys(a + b) ensures At(GroupBy(a), k).Plus(At(GroupBy(b), k)) == Sum(a + b, k) {
      GroupByAt(a, k);
      GroupByAt(b, k);
      SumAppend(a, b, k);
    }
  }

  class Table {
    var rows: map<Key, Agg>

    constructor ()
      ensures rows == map[]
    {
      rows := map[];
    }

    /** Adds one batch: group by key in a map, then upsert every group; the map's order does not matter. */
    method UpsertDailyUsage(entries: seq<Entry>)
      modifies this
      ensures rows == Merge(old(rows), GroupBy(entries))
    {
      var grouped := Group(entries);
      ghost var before := rows;
      var todo := grouped.Keys;
      while todo != {}
        invariant todo <= grouped.Keys && Upserting(before, grouped, todo, rows)
        decreases todo
      {
        var k :| k in todo;
        UpsertStep(before, grouped, todo, rows, k);
        todo := todo - {k};
        rows := rows[k := At(rows, k).Plus(grouped[k])];
      }
      UpsertsDone(before, grouped, rows);
    }
  }

  /** All groups but those in todo have been added to the rows. */
  ghost predicate Upserting(before: map<Key, Agg>, grouped: map<Key, Agg>, todo: set<Key>, rows: map<Key, Agg>) {
    && rows.Keys == before.Keys + (grouped.Keys - todo)
    && forall k :: k in rows ==>
         rows[k] == if k in grouped && k !in todo then At(before, k).Plus(grouped[k]) else At(before, k)
  }

  lemma UpsertStep(before: map<Key, Agg>, grouped: map<Key, Agg>, todo: set<Key>, rows: map<Key, Agg>, k: Key)
    requires todo <= grouped.Keys && k in todo && Upserting(before, grouped, todo, rows)
    ensures Upserting(before, grouped, todo - {k}, rows[k := At(rows, k).Plus(grouped[k])])
  {
    assert At(rows, k) == At(before, k);
  }

  lemma UpsertsDone(before: map<Key, Agg>, grouped: map<Key, Agg>, rows: map<Key, Agg>)
    requires Upserting(before, grouped, {}, rows)
    ensures rows == Merge(before, grouped)
  {
    forall k | k in rows ensures rows[k] == At(before, k).Plus(At(grouped, k)) {
      PlusZero(At(before, k));
    }
  }

  lemma PlusZero(a: Agg)
    ensures a.Plus(ZERO) == a
  {
  }

  method Group(entries: seq<Entry>) returns (grouped: map<Key, Agg>)
    ensures grouped == GroupBy(entries)
  {
    grouped := map[];
    for i := 0 to |entries|
      invariant grouped == GroupBy(entries[..i])
    {
      var e := entries[i];
      assert entries[..i + 1] == entries[..i] + [e];
      GroupOne(entries[..i], e);
      if e.model == "" {
        continue;
      }
      var k := KeyOf(e);
      if k !in grouped {
        grouped := grouped[k := ZERO];
      }
      grouped := grouped[k := grouped[k].Plus(Single(e))];
    }
    assert entries[..|entries|] == entries;
  }

  lemma GroupOne(es: seq<Entry>, e: Entry)
    ensures GroupBy(es + [e])
         == if e.model == "" then GroupBy(es) else GroupBy(es)[KeyOf(e) := At(GroupBy(es), KeyOf(e)).Plus(Single(e))]
  {
    KeysOne(es, e);
    GroupByAt(es, KeyOf(e));
    forall k ensures Sum(es + [e], k) == if Counted(e, k) then Sum(es, k).Plus(Single(e)) else Sum(es, k) {
      SumOne(es, e, k);
    }
  }

  lemma SumOne(es: seq<Entry>, e: Entry, k: Key)
    ensures Sum(es + [e], k) == if Counted(e, k) then Sum(es, k).Plus(Single(e)) else Sum(es, k)
  {
    assert (es + [e])[..|es|] == es;
  }

  lemma KeysOne(es: seq<Entry>, e: Entry)
    ensures Keys(es + [e]) == Keys(es) + if e.model == "" then {} else {KeyOf(e)}
  {
    KeysAppend(es, [e]);
    assert Keys([e]) == if e.model == "" then {} else {KeyOf(e)};
  }

  /** Folding batches into a result, one merge per batch. */
  function Fold<M>(merge: (M, M) -> M, group: seq<Entry> -> M, empty: M, batches: seq<seq<Entry>>): M {
    if batches == [] then empty
    else merge(Fold(merge, group, empty, batches[..|batches| - 1]), group(batches[|batches| - 1]))
  }

  lemma {:induction false} FoldIsWhole<M>(merge: (M, M) -> M, group: seq<Entry> -> M, empty: M,
                                          batches: seq<seq<Entry>>)
    requires group([]) == empty && forall a, b :: merge(group(a), group(b)) == group(a + b)
    ensures Fold(merge, group, empty, batches) == group(Flatten(batches))
  {
    if batches != [] {
      var rest, last := batches[..|batches| - 1], batches[|batches| - 1];
      FoldIsWhole(merge, group, empty, rest);
      FlattenSingle(rest, last);
      assert batches == rest + [last];
    }
  }

  /** The table after a sequence of batches. */
  function Upserted(batches: seq<seq<Entry>>): map<Key, Agg> {
    Fold(Merge, GroupBy, map[], batches)
  }

  /** Any batching of the entries gives the counters of a single group-by over all of them. */
  lemma BatchingInvisible(batches: seq<seq<Entry>>)
    ensures Upserted(batches) == GroupBy(Flatten(batches))
  {
    assert GroupBy([]) == map[];
    forall a, b ensures Merge(GroupBy(a), GroupBy(b)) == GroupBy(a + b) {
      MergeGroups(a, b);
    }
    FoldIsWhole(Merge, GroupBy, map[], batches);
  }

  /** The store at work: every batch is upserted as it comes. The table ends with one group-by of all entries. */
  method StoreBatches(batches: seq<seq<Entry>>) returns (table: Table)
    ensures fresh(table) && table.rows == GroupBy(Flatten(batches))
  {
    table := new Table();
    for i := 0 to |batches|
      invariant fresh(table) && table.rows == Upserted(batches[..i])
    {
      table.UpsertDailyUsage(batches[i]);
      assert batches[..i + 1][..i] == batches[..i];
    }
    assert batches[..|batches|] == batches;
    BatchingInvisible(batches);
  }

  /** The batches of an exited writer, stored: the counters are the group-by of all it accepted until its exit. */
  method StoreWriter(w: LogWriter.Writer<Entry>) returns (table: Table)
    requires w.Valid() && w.mode == LogWriter.Exited
    ensures fresh(table) && |w.ch| <= |w.accepted|
    ensures table.rows == GroupBy(w.accepted[..|w.accepted| - |w.ch|])
  {
    table := StoreBatches(w.batches);
    UsageOfWriter(w);
    BatchingInvisible(w.batches);
  }

  /**
    Writer and table together: once the writer has exited, the counters are the group-by of every entry
    it accepted, except those accepted after its exit.
   */
  lemma UsageOfWriter(w: LogWriter.Writer<Entry>)
    requires w.Valid() && w.mode == LogWriter.Exited
    ensures |w.ch| <= |w.accepted|
    ensures Upserted(w.batches) == GroupBy(w.accepted[..|w.accepted| - |w.ch|])
  {
    BatchingInvisible(w.batches);
    assert Flatten(w.batches) + [] == Flatten(w.batches);
  }
}
