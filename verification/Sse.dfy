/**
  Server-sent events: the parser ParseSSE (internal/gateway/proxy/sse_parser.go), the writer loop
  (internal/gateway/proxy/stream.go), and the law that the parser gives back what the writer wrote.
 */
module Sse {
  import opened Common

  /** bufio.Scanner gives up on a line that does not fit its buffer with its line feed. */
  const MAX_TOKEN := 1024 * 1024

  /** The bytes "data:", "event:", "id:" and ": keepalive". */
  const DATA: bytes := [0x64, 0x61, 0x74, 0x61, 0x3A]
  const EVENT: bytes := [0x65, 0x76, 0x65, 0x6E, 0x74, 0x3A]
  const ID: bytes := [0x69, 0x64, 0x3A]
  const KEEPALIVE: bytes := [0x3A, 0x20, 0x6B, 0x65, 0x65, 0x70, 0x61, 0x6C, 0x69, 0x76, 0x65]
  /** The bytes "message". */
  const MESSAGE: bytes := [0x6D, 0x65, 0x73, 0x73, 0x61, 0x67, 0x65]

  datatype Event = Event(kind: bytes, data: bytes, id: bytes)

  // ----- the parser

  function DropCR(s: bytes): bytes {
    if s != [] && s[|s| - 1] == CR then s[..|s| - 1] else s
  }

  /** The lines bufio.Scanner returns for input s. */
  function ScanLines(s: bytes): seq<bytes>
    decreases |s|
  {
    if s == [] then []
    else
      var i := IndexByte(s, LF);
      var raw := if i < 0 then s else s[..i];
      if |raw| >= MAX_TOKEN then []
      else [DropCR(raw)] + if i < 0 then [] else ScanLines(s[i + 1..])
  }

  /** The event being collected between blank lines. */
  datatype Pending = Pending(kind: bytes, id: bytes, dataLines: seq<bytes>)

  const NONE_PENDING := Pending([], [], [])

  function Join(lines: seq<bytes>): bytes {
    if lines == [] then [] else if |lines| == 1 then lines[0] else lines[0] + [LF] + Join(lines[1..])
  }

  function FieldLine(trim: bytes -> bytes, p: Pending, line: bytes): Pending {
    if DATA <= line then
      var v := line[5..];
      p.(dataLines := p.dataLines + [if v != [] && v[0] == SPACE then v[1..] else v])
    else if EVENT <= line then p.(kind := trim(line[6..]))
    else if ID <= line then p.(id := trim(line[3..]))
    else p
  }

  function Dispatch(p: Pending): seq<Event> {
    if p.dataLines == [] then []
    else [Event(if p.kind == [] then MESSAGE else p.kind, Join(p.dataLines), p.id)]
  }

  function EventsFrom(trim: bytes -> bytes, p: Pending, lines: seq<bytes>): seq<Event>
    decreases |lines|
  {
    if lines == [] then []
    else if lines[0] == [] then Dispatch(p) + EventsFrom(trim, NONE_PENDING, lines[1..])
    else EventsFrom(trim, FieldLine(trim, p, lines[0]), lines[1..])
  }

  function Parsed(trim: bytes -> bytes, input: bytes): seq<Event> {
    EventsFrom(trim, NONE_PENDING, ScanLines(input))
  }

  lemma EventsAt(trim: bytes -> bytes, p: Pending, lines: seq<bytes>, i: nat)
    requires i < |lines|
    ensures EventsFrom(trim, p, lines[i..])
         == if lines[i] == [] then Dispatch(p) + EventsFrom(trim, NONE_PENDING, lines[i + 1..])
            else EventsFrom(trim, FieldLine(trim, p, lines[i]), lines[i + 1..])
  {
    assert lines[i..][1..] == lines[i + 1..];
  }

  /** The line loop of ParseSSE; `trim` is strings.TrimSpace. EventStream relates Parsed to the standard. */
  method ParseSSE(trim: bytes -> bytes, input: bytes) returns (out: seq<Event>)
    ensures out == Parsed(trim, input)
  {
    out := [];
    var kind, id, dataLines: seq<bytes> := [], [], [];
    var lines := ScanLines(input);
    for i := 0 to |lines|
      invariant Parsed(trim, input) == out + EventsFrom(trim, Pending(kind, id, dataLines), lines[i..])
    {
      var line := lines[i];
      ghost var p := Pending(kind, id, dataLines);
      EventsAt(trim, p, lines, i);
      if line == [] {
        Assoc(out, Dispatch(p), EventsFrom(trim, NONE_PENDING, lines[i + 1..]));
        if |dataLines| > 0 {
          if kind == [] {
            kind := MESSAGE;
          }
          out := out + [Event(kind, Join(dataLines), id)];
        }
        kind, id, dataLines := [], [], [];
        continue;
      }
      if DATA <= line {
        var v := line[5..];
        if |v| > 0 && v[0] == SPACE {
          v := v[1..];
        }
        dataLines := dataLines + [v];
      } else if EVENT <= line {
        kind := trim(line[6..]);
      } else if ID <= line {
        id := trim(line[3..]);
      }
    }
  }

  // ----- what a block of lines means

  /** The lines of a field, one per value. */
  function DataLines(ds: seq<bytes>): (r: seq<bytes>)
    ensures |r| == |ds| && forall i :: 0 <= i < |ds| ==> r[i] == DATA + [SPACE] + ds[i]
  {
    seq(|ds|, i requires 0 <= i < |ds| => DATA + [SPACE] + ds[i])
  }

  lemma FieldMeanings(trim: bytes -> bytes, p: Pending, v: bytes)
    ensures FieldLine(trim, p, DATA + [SPACE] + v) == p.(dataLines := p.dataLines + [v])
    ensures v == [] || v[0] != SPACE ==> FieldLine(trim, p, DATA + v) == p.(dataLines := p.dataLines + [v])
    ensures FieldLine(trim, p, EVENT + v) == p.(kind := trim(v))
    ensures FieldLine(trim, p, ID + v) == p.(id := trim(v))
  {
    assert (DATA + [SPACE] + v)[5..] == [SPACE] + v && ([SPACE] + v)[1..] == v;
    assert (DATA + v)[5..] == v && (EVENT + v)[6..] == v && (ID + v)[3..] == v;
    assert (EVENT + v)[0] == EVENT[0] && (ID + v)[0] == ID[0] && (DATA + [SPACE] + v)[0] == DATA[0];
  }

  lemma {:induction false} DataCollected(trim: bytes -> bytes, p: Pending, ds: seq<bytes>, rest: seq<bytes>)
    ensures EventsFrom(trim, p, DataLines(ds) + rest) == EventsFrom(trim, p.(dataLines := p.dataLines + ds), rest)
    decreases |ds|
  {
    if ds == [] {
      assert DataLines(ds) + rest == rest && p.dataLines + ds == p.dataLines;
    } else {
      var lines := DataLines(ds) + rest;
      FieldMeanings(trim, p, ds[0]);
      assert lines[1..] == DataLines(ds[1..]) + rest;
      DataCollected(trim, p.(dataLines := p.dataLines + [ds[0]]), ds[1..], rest);
      assert p.dataLines + [ds[0]] + ds[1..] == p.dataLines + ds;
    }
  }

  /**
    A block with an event line, an id line and data lines, whatever follows it: one event of that type and id
    whose data is the lines joined, or no event if there are no data lines. An empty type means "message".
   */
  lemma BlockParses(trim: bytes -> bytes, kind: bytes, id: bytes, ds: seq<bytes>, rest: seq<bytes>)
    ensures EventsFrom(trim, NONE_PENDING, [EVENT + kind, ID + id] + (DataLines(ds) + ([[]] + rest)))
         == (if ds == [] then [] else [Event(if trim(kind) == [] then MESSAGE else trim(kind), Join(ds), trim(id))])
            + EventsFrom(trim, NONE_PENDING, rest)
  {
    var more := DataLines(ds) + ([[]] + rest);
    var lines := [EVENT + kind, ID + id] + more;
    var p := Pending(trim(kind), trim(id), []);
    FieldMeanings(trim, NONE_PENDING, kind);
    FieldMeanings(trim, Pending(trim(kind), [], []), id);
    assert lines[1..] == [ID + id] + more && lines[1..][1..] == more;
    DataCollected(trim, p, ds, [[]] + rest);
    assert [] + ds == ds && ([[]] + rest)[1..] == rest;
  }

  /** The same without an id line. */
  lemma TypedBlock(trim: bytes -> bytes, kind: bytes, ds: seq<bytes>, rest: seq<bytes>)
    requires ds != []
    ensures EventsFrom(trim, NONE_PENDING, [EVENT + kind] + (DataLines(ds) + ([[]] + rest)))
         == [Event(if trim(kind) == [] then MESSAGE else trim(kind), Join(ds), [])]
            + EventsFrom(trim, NONE_PENDING, rest)
  {
    var more := DataLines(ds) + ([[]] + rest);
    FieldMeanings(trim, NONE_PENDING, kind);
    assert ([EVENT + kind] + more)[1..] == more;
    DataCollected(trim, Pending(trim(kind), [], []), ds, [[]] + rest);
    assert [] + ds == ds && ([[]] + rest)[1..] == rest;
  }

  /** A text cut at its line feeds. */
  function Cut(s: bytes): seq<bytes>
    decreases |s|
  {
    var i := IndexByte(s, LF);
    if i < 0 then [s] else [s[..i]] + Cut(s[i + 1..])
  }

  /** The data of an event, cut at its line feeds, is the data lines in order. */
  lemma {:induction false} JoinCut(ds: seq<bytes>)
    requires ds != [] && forall d :: d in ds ==> LF !in d
    ensures Cut(Join(ds)) == ds
  {
    assert ds[0] in ds;
    if |ds| > 1 {
      var rest := ds[1..];
      assert forall d :: d in rest ==> d in ds;
      JoinCut(rest);
      var s := ds[0] + [LF] + Join(rest);
      assert s[..|ds[0]|] == ds[0] && s[|ds[0]| + 1..] == Join(rest);
      IndexByteUnique(s, LF, |ds[0]|);
      assert ds == [ds[0]] + rest;
    }
  }

  // ----- the frames the writer emits

  datatype Frame = Data(payload: bytes) | Keepalive

  predicate NewlineFree(s: bytes) {
    LF !in s && CR !in s
  }

  predicate Writable(fs: seq<Frame>) {
    forall f :: f in fs && f.Data? ==> NewlineFree(f.payload)
  }

  function LineOf(f: Frame): bytes {
    match f
    case Data(payload) => DATA_SPACE + payload
    case Keepalive => KEEPALIVE
  }

  function Text(f: Frame): bytes {
    LineOf(f) + [LF, LF]
  }

  function Wire(fs: seq<Frame>): bytes {
    if fs == [] then [] else Text(fs[0]) + Wire(fs[1..])
  }

  /** The events a client should see: one untyped message per payload. */
  function Payloads(fs: seq<Frame>): seq<Event> {
    if fs == [] then []
    else (match fs[0] case Data(p) => [Event(MESSAGE, p, [])] case Keepalive => []) + Payloads(fs[1..])
  }

  /** Its line is shorter than the parser's buffer of 1 MiB. */
  predicate Fits(f: Frame) {
    |LineOf(f)| < 1_048_576
  }

  /** The frames before the first one too long for the parser's line buffer. */
  function Readable(fs: seq<Frame>): seq<Frame> {
    if fs == [] || !Fits(fs[0]) then [] else [fs[0]] + Readable(fs[1..])
  }

  // ----- reading back one frame

  lemma LineShape(f: Frame)
    requires f.Data? ==> NewlineFree(f.payload)
    ensures NewlineFree(LineOf(f)) && LineOf(f) != [] && LineOf(f)[0] != CR && DropCR(LineOf(f)) == LineOf(f)
  {
  }

  lemma ScanLine(line: bytes, tail: bytes)
    requires NewlineFree(line) && DropCR(line) == line
    ensures ScanLines(line + [LF] + tail) == if |line| >= MAX_TOKEN then [] else [line] + ScanLines(tail)
  {
    var s := line + [LF] + tail;
    assert s[..|line|] == line && s[|line|] == LF;
    IndexByteUnique(s, LF, |line|);
    assert s[|line| + 1..] == tail;
  }

  /** Lines that end in CRLF scan to the same lines. */
  lemma ScanCRLF(line: bytes, tail: bytes)
    requires NewlineFree(line) && |line| + 1 < MAX_TOKEN
    ensures ScanLines(line + [CR, LF] + tail) == [line] + ScanLines(tail)
  {
    var s, raw := line + [CR, LF] + tail, line + [CR];
    assert s[..|raw|] == raw && s[|raw|] == LF;
    IndexByteUnique(s, LF, |raw|);
    assert s[|raw| + 1..] == tail && DropCR(raw) == line;
  }

  lemma ScanFrame(f: Frame, tail: bytes)
    requires f.Data? ==> NewlineFree(f.payload)
    ensures ScanLines(Text(f) + tail) == if Fits(f) then [LineOf(f)] + ([[]] + ScanLines(tail)) else []
  {
    LineShape(f);
    assert Text(f) + tail == LineOf(f) + [LF] + ([] + [LF] + tail);
    ScanLine(LineOf(f), [] + [LF] + tail);
    ScanBlank(tail);
  }

  lemma ScanBlank(tail: bytes)
    ensures ScanLines([] + [LF] + tail) == [[]] + ScanLines(tail)
  {
    ScanLine([], tail);
  }

  /** One frame at the front of a stream. */
  lemma ParseFrame(trim: bytes -> bytes, f: Frame, tail: bytes)
    requires f.Data? ==> NewlineFree(f.payload)
    ensures Parsed(trim, Text(f) + tail) == if Fits(f) then Payloads([f]) + Parsed(trim, tail) else []
  {
    ScanFrame(f, tail);
    FrameEvents(trim, f, ScanLines(tail));
  }

  lemma FrameEvents(trim: bytes -> bytes, f: Frame, rest: seq<bytes>)
    ensures EventsFrom(trim, NONE_PENDING, [LineOf(f)] + ([[]] + rest))
         == Payloads([f]) + EventsFrom(trim, NONE_PENDING, rest)
  {
    var line := LineOf(f);
    var lines := [line] + ([[]] + rest);
    var p := FieldLine(trim, NONE_PENDING, line);
    assert lines[1..] == [[]] + rest && lines[1..][1..] == rest;
    assert Payloads([f]) == Dispatch(p) by {
      match f {
        case Data(payload) =>
          assert DATA <= line;
          assert line[5..] == [SPACE] + payload;
          assert line[5..][1..] == payload;
          assert p.dataLines == [payload];
        case Keepalive =>
          assert line[0] != DATA[0] && line[0] != EVENT[0] && line[0] != ID[0];
      }
    }
  }

  lemma ReadableStep(fs: seq<Frame>)
    requires fs != []
    ensures Readable(fs) == fs <==> Fits(fs[0]) && Readable(fs[1..]) == fs[1..]
  {
    assert fs == [fs[0]] + fs[1..];
    if Fits(fs[0]) {
      assert Readable(fs)[1..] == Readable(fs[1..]);
    }
  }

  /** parse handles a frame at the front of any stream as ParseFrame says. */
  ghost predicate Framewise(parse: bytes -> seq<Event>) {
    forall f: Frame, tail {:trigger parse(Text(f) + tail)} :: (f.Data? ==> NewlineFree(f.payload)) ==>
      parse(Text(f) + tail) == if Fits(f) then Payloads([f]) + parse(tail) else []
  }

  lemma {:induction false} ParseFrames(parse: bytes -> seq<Event>, fs: seq<Frame>, tail: bytes)
    requires Framewise(parse) && Writable(fs)
    ensures parse(Wire(fs) + tail) == Payloads(Readable(fs)) + if Readable(fs) == fs then parse(tail) else []
  {
    if fs == [] {
      assert Wire(fs) + tail == tail;
    } else {
      ParseFirst(parse, fs, tail);
      ReadableStep(fs);
      if Fits(fs[0]) {
        assert forall g :: g in fs[1..] ==> g in fs;
        ParseFrames(parse, fs[1..], tail);
        PayloadsCons(fs[0], Readable(fs[1..]));
        Assoc(Payloads([fs[0]]), Payloads(Readable(fs[1..])), parse(tail));
      }
    }
  }

  lemma ParseFirst(parse: bytes -> seq<Event>, fs: seq<Frame>, tail: bytes)
    requires Framewise(parse) && Writable(fs) && fs != []
    ensures parse(Wire(fs) + tail) == if Fits(fs[0]) then Payloads([fs[0]]) + parse(Wire(fs[1..]) + tail) else []
  {
    assert fs[0] in fs;
    assert Wire(fs) + tail == Text(fs[0]) + (Wire(fs[1..]) + tail);
  }

  /** The parser sees exactly the payloads of the frames before the first oversized one. */
  lemma ParseWire(trim: bytes -> bytes, fs: seq<Frame>, tail: bytes)
    requires Writable(fs)
    ensures Parsed(trim, Wire(fs) + tail)
         == Payloads(Readable(fs)) + if Readable(fs) == fs then Parsed(trim, tail) else []
  {
    var parse := (b: bytes) => Parsed(trim, b);
    assert Framewise(parse) by {
      forall f: Frame, t | f.Data? ==> NewlineFree(f.payload)
        ensures parse(Text(f) + t) == if Fits(f) then Payloads([f]) + parse(t) else []
      {
        ParseFrame(trim, f, t);
      }
    }
    ParseFrames(parse, fs, tail);
  }

  lemma PayloadsCons(f: Frame, fs: seq<Frame>)
    ensures Payloads([f] + fs) == Payloads([f]) + Payloads(fs)
  {
    assert ([f] + fs)[1..] == fs;
  }

  /** Round trip: parsing what was written gives back every payload, in order, if and only if each fits a line. */
  lemma RoundTrip(trim: bytes -> bytes, fs: seq<Frame>)
    requires Writable(fs)
    ensures Parsed(trim, Wire(fs)) == Payloads(fs) <==> forall f :: f in fs ==> Fits(f)
  {
    ParseWire(trim, fs, []);
    assert Wire(fs) + [] == Wire(fs);
    ReadableCounts(fs);
  }

  lemma {:induction false} ReadableCounts(fs: seq<Frame>)
    ensures if forall f :: f in fs ==> Fits(f) then Readable(fs) == fs
            else Readable(fs) != fs && |Payloads(Readable(fs))| < |Payloads(fs)|
  {
    if fs != [] && Fits(fs[0]) {
      var f, rest := fs[0], fs[1..];
      assert fs == [f] + rest;
      assert (forall g :: g in fs ==> Fits(g)) <==> forall g :: g in rest ==> Fits(g);
      ReadableCounts(rest);
      PayloadsCons(f, Readable(rest));
      PayloadsCons(f, rest);
    }
  }

  // ----- a connection cut in the middle of a frame

  lemma LoneLineSilent(trim: bytes -> bytes, line: bytes)
    requires line != []
    ensures EventsFrom(trim, NONE_PENDING, [line]) == []
  {
    assert [line][1..] == [];
  }

  /** A proper prefix of a frame never dispatches an event. */
  lemma PartialFrameSilent(trim: bytes -> bytes, f: Frame, k: nat)
    requires f.Data? ==> NewlineFree(f.payload)
    requires k < |Text(f)|
    ensures Parsed(trim, Text(f)[..k]) == []
  {
    LineShape(f);
    var part, line := Text(f)[..k], LineOf(f);
    if k <= |line| {
      assert part == line[..k];
      if k > 0 {
        assert part[0] != CR && LF !in part;
        assert DropCR(part) != [];
        assert ScanLines(part) == [] || ScanLines(part) == [DropCR(part)];
        LoneLineSilent(trim, DropCR(part));
      }
    } else {
      assert part == line + [LF] + [];
      ScanLine(line, []);
      LoneLineSilent(trim, line);
    }
  }

  /**
    Cut anywhere, a stream yields exactly the payloads of the frames received whole, up to the first that is
    too long for the parser.
   */
  lemma CutStream(trim: bytes -> bytes, fs: seq<Frame>, f: Frame, k: nat)
    requires Writable(fs + [f]) && k < |Text(f)|
    ensures Parsed(trim, Wire(fs) + Text(f)[..k]) == Payloads(Readable(fs))
    ensures (forall g :: g in fs ==> Fits(g)) ==> Parsed(trim, Wire(fs) + Text(f)[..k]) == Payloads(fs)
  {
    assert f in fs + [f] && forall g :: g in fs ==> g in fs + [f];
    ParseWire(trim, fs, Text(f)[..k]);
    ReadableCounts(fs);
    PartialFrameSilent(trim, f, k);
  }

  // ----- the writer

  /** What one turn of the streaming select loop sees. */
  datatype Select =
    | ClientGone
    | Tick
    | Received(chunk: StreamChunk)
    | Failed(message: string)
    | Closed

  datatype ChatChunk = ChatChunk(id: string, created: int, model: string, role: string,
                                 content: string, finish: string, usage: Option<Usage>)

  /** buildChunk: a finishing chunk carries no text. */
  function BuildChunk(id: string, created: int, model: string, c: StreamChunk): ChatChunk {
    match c.finish
    case Some(reason) => ChatChunk(id, created, model, "", "", reason, c.usage)
    case None => ChatChunk(id, created, model, "", c.delta, "", c.usage)
  }

  datatype TextChunk = TextChunk(id: string, created: int, model: string, text: string, finish: string,
                                 usage: Option<Usage>)

  function BuildTextChunk(id: string, created: int, model: string, c: StreamChunk): TextChunk {
    TextChunk(id, created, model, c.delta, if c.finish.Some? then c.finish.value else "", c.usage)
  }

  /** Every chunk repeats the stream's header and usage; it carries text or a finish reason, never both. */
  lemma ChunkFields(id: string, created: int, model: string, c: StreamChunk)
    ensures var x, y := BuildChunk(id, created, model, c), BuildTextChunk(id, created, model, c);
            && x.id == y.id == id && x.created == y.created == created && x.model == y.model == model
            && x.usage == y.usage == c.usage && x.role == ""
            && (c.finish == None ==> x.content == y.text == c.delta && x.finish == y.finish == "")
            && (c.finish.Some? ==> x.content == "" && y.text == c.delta && x.finish == y.finish == c.finish.value)
  {
  }

  /** The text a chat client reads: that of the chunks without a finish reason. */
  function ChatText(id: string, created: int, model: string): StreamChunk -> string {
    (c: StreamChunk) => BuildChunk(id, created, model, c).content
  }

  /** A chat client reads all the provider's text if and only if no chunk with a finish reason carries any. */
  lemma {:induction false} ChatTextComplete(id: string, created: int, model: string, cs: seq<StreamChunk>)
    ensures |Joined(ChatText(id, created, model), cs)| <= |TextOf(cs)|
    ensures Joined(ChatText(id, created, model), cs) == TextOf(cs) <==>
            forall c :: c in cs && c.finish.Some? ==> c.delta == ""
  {
    if cs != [] {
      var c, rest := cs[0], cs[1..];
      ChatTextComplete(id, created, model, rest);
      assert forall x :: x in cs <==> x == c || x in rest;
      var read, text := Joined(ChatText(id, created, model), rest), TextOf(rest);
      if c.finish.Some? {
        assert "" + read == read;
        assert c.delta == "" ==> c.delta + text == text;
      } else {
        assert c.delta + read == c.delta + text <==> read == text by {
          assert (c.delta + read)[|c.delta|..] == read && (c.delta + text)[|c.delta|..] == text;
        }
      }
    }
  }

  /** A text completion client always does. */
  lemma {:induction false} CompletionTextComplete(id: string, created: int, model: string, cs: seq<StreamChunk>)
    ensures Joined((c: StreamChunk) => BuildTextChunk(id, created, model, c).text, cs) == TextOf(cs)
  {
    if cs != [] {
      CompletionTextComplete(id, created, model, cs[1..]);
    }
  }

  /** The frames the loop writes, given how payloads and errors are marshalled. */
  function StreamFrames(payload: StreamChunk -> bytes, failure: string -> bytes, turns: seq<Select>): seq<Frame> {
    if turns == [] then []
    else
      match turns[0]
      case ClientGone => []
      case Tick => [Keepalive] + StreamFrames(payload, failure, turns[1..])
      case Received(c) => [Data(payload(c))] + StreamFrames(payload, failure, turns[1..])
      case Failed(message) => [Data(failure(message)), Data(DONE)]
      case Closed => [Data(DONE)]
  }

  /** The chunks received before position n, as the messages a client should see. */
  function ReceivedBefore(payload: StreamChunk -> bytes, turns: seq<Select>, n: nat): seq<Event>
    requires n <= |turns|
  {
    if n == 0 then []
    else ReceivedBefore(payload, turns, n - 1)
         + if turns[n - 1].Received? then [Event(MESSAGE, payload(turns[n - 1].chunk), [])] else []
  }

  /** How a stream ends: [DONE], an error and [DONE], or nothing when the client is gone. */
  function Ending(failure: string -> bytes, t: Select): seq<Event> {
    match t
    case Closed => [Event(MESSAGE, DONE, [])]
    case Failed(message) => [Event(MESSAGE, failure(message), []), Event(MESSAGE, DONE, [])]
    case _ => []
  }

  lemma PayloadsOne(p: bytes)
    ensures Payloads([Data(p)]) == [Event(MESSAGE, p, [])] && Payloads([Keepalive]) == []
  {
    assert [Data(p)][1..] == [] && [Keepalive][1..] == [];
  }

  /** What is written: a message per chunk received before the first ending, in order, and that ending. */
  lemma {:induction false} StreamMessages(payload: StreamChunk -> bytes, failure: string -> bytes, turns: seq<Select>,
                                          n: nat)
    requires n < |turns| && (turns[n].Closed? || turns[n].Failed? || turns[n].ClientGone?)
    requires forall i :: 0 <= i < n ==> turns[i].Tick? || turns[i].Received?
    ensures Payloads(StreamFrames(payload, failure, turns))
         == ReceivedBefore(payload, turns, n) + Ending(failure, turns[n])
    decreases n
  {
    if n == 0 {
      PayloadsOne(DONE);
      if turns[0].Failed? {
        var message := failure(turns[0].message);
        PayloadsOne(message);
        assert [Data(message), Data(DONE)] == [Data(message)] + [Data(DONE)];
        PayloadsCons(Data(message), [Data(DONE)]);
      }
    } else {
      var rest := turns[1..];
      StreamMessages(payload, failure, rest, n - 1);
      ReceivedShift(payload, turns, n);
      var frames := StreamFrames(payload, failure, rest);
      if turns[0].Tick? {
        PayloadsCons(Keepalive, frames);
        PayloadsOne([]);
      } else {
        PayloadsCons(Data(payload(turns[0].chunk)), frames);
        PayloadsOne(payload(turns[0].chunk));
      }
    }
  }

  lemma {:induction false} ReceivedShift(payload: StreamChunk -> bytes, turns: seq<Select>, n: nat)
    requires 0 < n <= |turns|
    ensures ReceivedBefore(payload, turns, n)
         == (if turns[0].Received? then [Event(MESSAGE, payload(turns[0].chunk), [])] else [])
            + ReceivedBefore(payload, turns[1..], n - 1)
  {
    if n > 1 {
      ReceivedShift(payload, turns, n - 1);
      assert turns[1..][n - 2] == turns[n - 1];
    }
  }

  lemma {:induction false} WireAppend(fs: seq<Frame>, gs: seq<Frame>)
    ensures Wire(fs + gs) == Wire(fs) + Wire(gs)
  {
    if fs == [] {
      assert fs + gs == gs;
    } else {
      assert (fs + gs)[1..] == fs[1..] + gs;
      WireAppend(fs[1..], gs);
    }
  }

  lemma WireSingle(f: Frame)
    ensures Wire([f]) == Text(f)
  {
    assert [f][1..] == [];
    assert Text(f) + [] == Text(f);
  }

  lemma {:induction false} StreamFramesWritable(payload: StreamChunk -> bytes, failure: string -> bytes,
                                                turns: seq<Select>)
    requires (forall c :: NewlineFree(payload(c))) && (forall m :: NewlineFree(failure(m)))
    ensures Writable(StreamFrames(payload, failure, turns))
  {
    if turns != [] {
      StreamFramesWritable(payload, failure, turns[1..]);
    }
  }

  function Opening(payloads: seq<bytes>): seq<Frame> {
    seq(|payloads|, i requires 0 <= i < |payloads| => Data(payloads[i]))
  }

  function AllFrames(opening: seq<bytes>, payload: StreamChunk -> bytes, failure: string -> bytes,
                     turns: seq<Select>): seq<Frame>
  {
    Opening(opening) + StreamFrames(payload, failure, turns)
  }

  /**
    The select loop shared by StreamToClient, StreamChannelToClient and StreamTextChannelToClient; `opening` is the role
    chunk of the first two. A client that parses the bytes sees every payload written, in order, if and
    only if no payload overflows its line buffer.
   */
  method StreamLoop(opening: seq<bytes>, payload: StreamChunk -> bytes, failure: string -> bytes, turns: seq<Select>)
    returns (written: bytes)
    requires forall p :: p in opening ==> NewlineFree(p)
    requires (forall c :: NewlineFree(payload(c))) && (forall m :: NewlineFree(failure(m)))
    ensures written == Wire(AllFrames(opening, payload, failure, turns))
    ensures var frames := AllFrames(opening, payload, failure, turns);
            forall trim: bytes -> bytes ::
              Parsed(trim, written) == Payloads(frames) <==> forall f :: f in frames ==> Fits(f)
  {
    ghost var head := Opening(opening);
    ghost var frames := AllFrames(opening, payload, failure, turns);
    StreamFramesWritable(payload, failure, turns);
    assert Writable(frames);
    forall trim: bytes -> bytes
      ensures Parsed(trim, Wire(frames)) == Payloads(frames) <==> forall f :: f in frames ==> Fits(f)
    {
      RoundTrip(trim, frames);
    }
    written := [];
    for i := 0 to |opening|
      invariant written == Wire(head[..i])
    {
      assert head[..i + 1] == head[..i] + [Data(opening[i])];
      WireAppend(head[..i], [Data(opening[i])]);
      WireSingle(Data(opening[i]));
      written := written + Text(Data(opening[i]));
    }
    assert head[..|opening|] == head;
    WireAppend(head, StreamFrames(payload, failure, turns));
    var body := SelectLoop(payload, failure, turns);
    written := written + body;
  }

  method SelectLoop(payload: StreamChunk -> bytes, failure: string -> bytes, turns: seq<Select>)
    returns (written: bytes)
    ensures written == Wire(StreamFrames(payload, failure, turns))
  {
    written := [];
    for i := 0 to |turns|
      invariant Wire(StreamFrames(payload, failure, turns))
             == written + Wire(StreamFrames(payload, failure, turns[i..]))
    {
      assert turns[i..][0] == turns[i] && turns[i..][1..] == turns[i + 1..];
      FirstFrame(payload, failure, turns[i..]);
      ghost var rest := Wire(StreamFrames(payload, failure, turns[i + 1..]));
      match turns[i] {
        case ClientGone =>
          return;
        case Tick =>
          Assoc(written, Text(Keepalive), rest);
          written := written + Text(Keepalive);
        case Closed =>
          written := written + Text(Data(DONE));
          return;
        case Failed(message) =>
          Assoc(written, Text(Data(failure(message))), Text(Data(DONE)));
          written := written + Text(Data(failure(message)));
          written := written + Text(Data(DONE));
          return;
        case Received(chunk) =>
          Assoc(written, Text(Data(payload(chunk))), rest);
          written := written + Text(Data(payload(chunk)));
      }
    }
  }

  lemma FirstFrame(payload: StreamChunk -> bytes, failure: string -> bytes, turns: seq<Select>)
    requires turns != []
    ensures Wire(StreamFrames(payload, failure, turns)) ==
            match turns[0]
            case ClientGone => []
            case Tick => Text(Keepalive) + Wire(StreamFrames(payload, failure, turns[1..]))
            case Received(c) => Text(Data(payload(c))) + Wire(StreamFrames(payload, failure, turns[1..]))
            case Failed(message) => Text(Data(failure(message))) + Text(Data(DONE))
            case Closed => Text(Data(DONE))
  {
    WireSingle(Data(DONE));
    match turns[0] {
      case Failed(message) =>
        WireSingle(Data(failure(message)));
        assert [Data(failure(message)), Data(DONE)] == [Data(failure(message))] + [Data(DONE)];
        WireAppend([Data(failure(message))], [Data(DONE)]);
      case Tick =>
        WireSingle(Keepalive);
        WireAppend([Keepalive], StreamFrames(payload, failure, turns[1..]));
      case Received(c) =>
        WireSingle(Data(payload(c)));
        WireAppend([Data(payload(c))], StreamFrames(payload, failure, turns[1..]));
      case _ =>
    }
  }

  /** What StreamChannelToClient writes for a chat completion: the role delta, then the chunks. */
  function ChatFrames(marshal: ChatChunk -> bytes, failure: string -> bytes,
                      id: string, created: int, model: string, turns: seq<Select>): seq<Frame>
  {
    [Data(marshal(ChatChunk(id, created, model, "assistant", "", "", None)))]
    + StreamFrames((c: StreamChunk) => marshal(BuildChunk(id, created, model, c)), failure, turns)
  }

  /** A chat client gets the assistant's role, then a message per chunk before the first ending, then that ending. */
  lemma ChatMessages(marshal: ChatChunk -> bytes, failure: string -> bytes,
                     id: string, created: int, model: string, turns: seq<Select>, n: nat)
    requires n < |turns| && (turns[n].Closed? || turns[n].Failed? || turns[n].ClientGone?)
    requires forall i :: 0 <= i < n ==> turns[i].Tick? || turns[i].Received?
    ensures Payloads(ChatFrames(marshal, failure, id, created, model, turns))
         == [Event(MESSAGE, marshal(ChatChunk(id, created, model, "assistant", "", "", None)), [])]
            + (ReceivedBefore((c: StreamChunk) => marshal(BuildChunk(id, created, model, c)), turns, n)
               + Ending(failure, turns[n]))
  {
    var payload := (c: StreamChunk) => marshal(BuildChunk(id, created, model, c));
    var role := marshal(ChatChunk(id, created, model, "assistant", "", "", None));
    StreamMessages(payload, failure, turns, n);
    PayloadsCons(Data(role), StreamFrames(payload, failure, turns));
    PayloadsOne(role);
  }

  method StreamChannelToClient(marshal: ChatChunk -> bytes, failure: string -> bytes,
                               id: string, created: int, model: string, turns: seq<Select>)
    returns (written: bytes)
    requires (forall c :: NewlineFree(marshal(c))) && (forall m :: NewlineFree(failure(m)))
    ensures var frames := ChatFrames(marshal, failure, id, created, model, turns);
            forall trim: bytes -> bytes ::
              Parsed(trim, written) == Payloads(frames) <==> forall f :: f in frames ==> Fits(f)
  {
    var role := marshal(ChatChunk(id, created, model, "assistant", "", "", None));
    var payload := (c: StreamChunk) => marshal(BuildChunk(id, created, model, c));
    assert forall c :: NewlineFree(payload(c)) by {
      forall c ensures NewlineFree(payload(c)) {
        assert payload(c) == marshal(BuildChunk(id, created, model, c));
      }
    }
    written := StreamLoop([role], payload, failure, turns);
    assert Opening([role]) == [Data(role)];
  }

  method StreamTextChannelToClient(marshal: TextChunk -> bytes, failure: string -> bytes,
                                   id: string, created: int, model: string, turns: seq<Select>)
    returns (written: bytes)
    requires (forall c :: NewlineFree(marshal(c))) && (forall m :: NewlineFree(failure(m)))
    ensures var payload := (c: StreamChunk) => marshal(BuildTextChunk(id, created, model, c));
            var frames := StreamFrames(payload, failure, turns);
            forall trim: bytes -> bytes ::
              Parsed(trim, written) == Payloads(frames) <==> forall f :: f in frames ==> Fits(f)
  {
    var payload := (c: StreamChunk) => marshal(BuildTextChunk(id, created, model, c));
    assert forall c :: NewlineFree(payload(c)) by {
      forall c ensures NewlineFree(payload(c)) {
        assert payload(c) == marshal(BuildTextChunk(id, created, model, c));
      }
    }
    written := StreamLoop([], payload, failure, turns);
    assert AllFrames([], payload, failure, turns) == StreamFrames(payload, failure, turns);
  }

  function WithoutTicks(turns: seq<Select>): seq<Select> {
    if turns == [] then []
    else (if turns[0].Tick? then [] else [turns[0]]) + WithoutTicks(turns[1..])
  }

  lemma {:induction false} TicksUnread(payload: StreamChunk -> bytes, failure: string -> bytes, turns: seq<Select>)
    ensures Payloads(Readable(StreamFrames(payload, failure, WithoutTicks(turns))))
         == Payloads(Readable(StreamFrames(payload, failure, turns)))
  {
    if turns != [] {
      var t, rest := turns[0], turns[1..];
      TicksUnread(payload, failure, rest);
      var frames, quiet := StreamFrames(payload, failure, rest), StreamFrames(payload, failure, WithoutTicks(rest));
      if t.Tick? {
        assert WithoutTicks(turns) == WithoutTicks(rest);
        KeepaliveUnread(frames);
      } else {
        assert WithoutTicks(turns)[1..] == WithoutTicks(rest);
        if t.Received? {
          SameFirst(Data(payload(t.chunk)), frames, quiet);
        }
      }
    }
  }

  lemma KeepaliveUnread(fs: seq<Frame>)
    ensures Payloads(Readable([Keepalive] + fs)) == Payloads(Readable(fs))
  {
    ReadableCons(Keepalive, fs);
    PayloadsCons(Keepalive, Readable(fs));
    assert Payloads([Keepalive]) == [];
  }

  lemma SameFirst(f: Frame, fs: seq<Frame>, gs: seq<Frame>)
    requires Payloads(Readable(fs)) == Payloads(Readable(gs))
    ensures Payloads(Readable([f] + fs)) == Payloads(Readable([f] + gs))
  {
    ReadableCons(f, fs);
    ReadableCons(f, gs);
    PayloadsCons(f, Readable(fs));
    PayloadsCons(f, Readable(gs));
  }

  lemma ReadableCons(f: Frame, fs: seq<Frame>)
    ensures Readable([f] + fs) == if Fits(f) then [f] + Readable(fs) else []
  {
    assert ([f] + fs)[1..] == fs;
  }

  /** Keepalives are invisible: what is written without any tick parses to the same events, with long frames too. */
  lemma TicksInvisible(trim: bytes -> bytes, payload: StreamChunk -> bytes, failure: string -> bytes,
                       turns: seq<Select>)
    requires (forall c :: NewlineFree(payload(c))) && (forall m :: NewlineFree(failure(m)))
    ensures Parsed(trim, Wire(StreamFrames(payload, failure, WithoutTicks(turns))))
         == Parsed(trim, Wire(StreamFrames(payload, failure, turns)))
  {
    TicksUnread(payload, failure, turns);
    StreamParses(trim, payload, failure, turns);
    StreamParses(trim, payload, failure, WithoutTicks(turns));
  }

  lemma StreamParses(trim: bytes -> bytes, payload: StreamChunk -> bytes, failure: string -> bytes, turns: seq<Select>)
    requires (forall c :: NewlineFree(payload(c))) && (forall m :: NewlineFree(failure(m)))
    ensures Parsed(trim, Wire(StreamFrames(payload, failure, turns)))
         == Payloads(Readable(StreamFrames(payload, failure, turns)))
  {
    var frames := StreamFrames(payload, failure, turns);
    StreamFramesWritable(payload, failure, turns);
    ParseWire(trim, frames, []);
    assert Wire(frames) + [] == Wire(frames);
    assert Parsed(trim, []) == [];
  }
}
