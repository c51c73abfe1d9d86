/**
  Event streams as section 9.2.6 of the WHATWG HTML standard interprets them, beside the parser of
  internal/gateway/proxy/sse_parser.go: on which lines the two agree, and what a client that follows the
  standard reads out of the bytes the gateway writes.
 */
module EventStream {
  import opened Common
  import opened Sse

  const NUL: byte := 0

  /** The field names "data", "event" and "id". */
  const DATA_NAME := DATA[..4]
  const EVENT_NAME := EVENT[..5]
  const ID_NAME := ID[..2]

  /** One space after the colon is not part of the value. */
  function Strip(v: bytes): bytes {
    if v != [] && v[0] == SPACE then v[1..] else v
  }

  /** Processing a field; "retry" and unknown names have no effect on the events. */
  function Field(p: Pending, name: bytes, value: bytes): Pending {
    if name == DATA_NAME then p.(dataLines := p.dataLines + [value])
    else if name == EVENT_NAME then p.(kind := value)
    else if name == ID_NAME && NUL !in value then p.(id := value)
    else p
  }

  /** A line that is not blank: a comment, a field with a value, or a field name alone. */
  function StandardLine(p: Pending, line: bytes): Pending {
    var i := IndexByte(line, COLON);
    if i == 0 then p
    else if i < 0 then Field(p, line, [])
    else Field(p, line[..i], Strip(line[i + 1..]))
  }

  /** The events of a sequence of lines; a blank line dispatches and keeps the last event id. */
  function StandardEvents(p: Pending, lines: seq<bytes>): seq<Event>
    decreases |lines|
  {
    if lines == [] then []
    else if lines[0] == [] then Dispatch(p) + StandardEvents(Pending([], p.id, []), lines[1..])
    else StandardEvents(StandardLine(p, lines[0]), lines[1..])
  }

  // ----- where the parser agrees with the standard

  /** The lines on which they agree: no bare field name, and values that trimming only strips. */
  predicate Alike(trim: bytes -> bytes, line: bytes) {
    && line != DATA_NAME && line != EVENT_NAME && line != ID_NAME
    && (EVENT <= line ==> trim(line[6..]) == Strip(line[6..]))
    && (ID <= line ==> trim(line[3..]) == Strip(line[3..]) && NUL !in Strip(line[3..]))
  }

  /** A field with a known name, its colon in place. */
  lemma KnownField(p: Pending, line: bytes, name: bytes)
    requires COLON !in name && name != [] && name + [COLON] <= line
    ensures StandardLine(p, line) == Field(p, name, Strip(line[|name| + 1..]))
  {
    assert line[|name|] == (name + [COLON])[|name|] == COLON;
    assert line[..|name|] == (name + [COLON])[..|name|] == name;
    IndexByteUnique(line, COLON, |name|);
  }

  lemma PrefixIsName()
    ensures DATA == DATA_NAME + [COLON] && EVENT == EVENT_NAME + [COLON] && ID == ID_NAME + [COLON]
    ensures COLON !in DATA_NAME && COLON !in EVENT_NAME && COLON !in ID_NAME
    ensures DATA_NAME != EVENT_NAME && DATA_NAME != ID_NAME && EVENT_NAME != ID_NAME
  {
    assert |DATA_NAME| == 4 && |EVENT_NAME| == 5 && |ID_NAME| == 2;
  }

  /** A line with none of the three prefixes has no effect, unless it is a bare name. */
  lemma OtherLine(p: Pending, line: bytes)
    requires !(DATA <= line) && !(EVENT <= line) && !(ID <= line)
    requires line != DATA_NAME && line != EVENT_NAME && line != ID_NAME
    ensures StandardLine(p, line) == p
  {
    PrefixIsName();
    var i := IndexByte(line, COLON);
    if i > 0 {
      assert line[..i + 1] == line[..i] + [COLON];
      assert line[..i] + [COLON] <= line;
    }
  }

  /** One line: the parser and the standard do the same in every situation if and only if the line is Alike. */
  lemma AlikeExactly(trim: bytes -> bytes, line: bytes)
    ensures Alike(trim, line) <==> forall p :: FieldLine(trim, p, line) == StandardLine(p, line)
  {
    PrefixIsName();
    if Alike(trim, line) {
      forall p ensures FieldLine(trim, p, line) == StandardLine(p, line) {
        SameEffect(trim, p, line);
      }
    } else {
      var p := Differing(trim, line);
    }
  }

  lemma SameEffect(trim: bytes -> bytes, p: Pending, line: bytes)
    requires Alike(trim, line)
    ensures FieldLine(trim, p, line) == StandardLine(p, line)
  {
    PrefixIsName();
    if DATA <= line {
      KnownField(p, line, DATA_NAME);
    } else if EVENT <= line {
      KnownField(p, line, EVENT_NAME);
    } else if ID <= line {
      KnownField(p, line, ID_NAME);
    } else {
      OtherLine(p, line);
    }
  }

  /** A situation in which they differ. */
  lemma Differing(trim: bytes -> bytes, line: bytes) returns (p: Pending)
    requires !Alike(trim, line)
    ensures FieldLine(trim, p, line) != StandardLine(p, line)
  {
    PrefixIsName();
    if line == DATA_NAME || line == EVENT_NAME || line == ID_NAME {
      p := Pending([COLON], [COLON], []);
      assert IndexByte(line, COLON) < 0;
    } else if EVENT <= line {
      p := NONE_PENDING;
      assert line[0] == EVENT[0] && !(DATA <= line);
      KnownField(p, line, EVENT_NAME);
    } else {
      p := Pending([], trim(line[3..]) + [NUL], []);
      assert line[0] == ID[0] && !(DATA <= line);
      KnownField(p, line, ID_NAME);
    }
  }

  /**
    Some event comes from a block without an id line while an earlier block left an id: the standard keeps
    that id, the parser drops it. `inBlock` and `data` tell whether this block had an id and a data line.
   */
  predicate KeepsId(trim: bytes -> bytes, inBlock: bool, last: bytes, data: bool, lines: seq<bytes>)
    decreases |lines|
  {
    if lines == [] then false
    else if lines[0] == [] then (data && !inBlock && last != []) || KeepsId(trim, false, last, false, lines[1..])
    else if ID <= lines[0] then KeepsId(trim, true, trim(lines[0][3..]), data, lines[1..])
    else KeepsId(trim, inBlock, last, data || DATA <= lines[0], lines[1..])
  }

  ghost predicate AllAlike(trim: bytes -> bytes, lines: seq<bytes>) {
    forall line :: line in lines ==> Alike(trim, line)
  }

  /** The parser's and the standard's pending event, which differ at most in the id. */
  ghost predicate Related(p: Pending, q: Pending, inBlock: bool, data: bool) {
    && p.kind == q.kind && p.dataLines == q.dataLines
    && p.id == (if inBlock then q.id else []) && (data <==> p.dataLines != [])
  }

  lemma RelatedLine(trim: bytes -> bytes, p: Pending, q: Pending, inBlock: bool, data: bool, line: bytes)
    requires Related(p, q, inBlock, data) && Alike(trim, line)
    ensures Related(FieldLine(trim, p, line), StandardLine(q, line), inBlock || (ID <= line), data || (DATA <= line))
    ensures StandardLine(q, line).id == if ID <= line then trim(line[3..]) else q.id
    ensures ID <= line ==> !(DATA <= line)
  {
    SameEffect(trim, q, line);
    if ID <= line {
      assert line[0] == ID[0] && !(DATA <= line) && !(EVENT <= line);
    }
  }

  lemma {:induction false} AgreeFrom(trim: bytes -> bytes, p: Pending, q: Pending, inBlock: bool, data: bool,
                                     lines: seq<bytes>)
    requires AllAlike(trim, lines) && Related(p, q, inBlock, data)
    ensures EventsFrom(trim, p, lines) == StandardEvents(q, lines) <==> !KeepsId(trim, inBlock, q.id, data, lines)
    decreases |lines|
  {
    if lines != [] {
      var line, rest := lines[0], lines[1..];
      assert line in lines && forall l :: l in rest ==> l in lines;
      if line == [] {
        var next := Pending([], q.id, []);
        AgreeFrom(trim, NONE_PENDING, next, false, false, rest);
        SamePrefix(Dispatch(p), Dispatch(q), EventsFrom(trim, NONE_PENDING, rest), StandardEvents(next, rest));
      } else {
        RelatedLine(trim, p, q, inBlock, data, line);
        AgreeFrom(trim, FieldLine(trim, p, line), StandardLine(q, line), inBlock || ID <= line, data || DATA <= line,
                  rest);
      }
    }
  }

  lemma SamePrefix<T>(a: seq<T>, b: seq<T>, x: seq<T>, y: seq<T>)
    requires |a| == |b|
    ensures a + x == b + y <==> a == b && x == y
  {
    if a + x == b + y {
      assert a == (a + x)[..|a|] && b == (b + y)[..|b|];
      assert x == (a + x)[|a|..] && y == (b + y)[|b|..];
    }
  }

  /**
    On lines they treat alike one by one, the parser's events are the standard's if and only if no event
    relies on an id kept from an earlier block.
   */
  lemma ParserMeetsStandard(trim: bytes -> bytes, lines: seq<bytes>)
    requires AllAlike(trim, lines)
    ensures EventsFrom(trim, NONE_PENDING, lines) == StandardEvents(NONE_PENDING, lines)
       <==> !KeepsId(trim, false, [], false, lines)
  {
    AgreeFrom(trim, NONE_PENDING, NONE_PENDING, false, false, lines);
  }

  /** Such lines: an id and an event, then another event. */
  lemma StandardKeepsId(trim: bytes -> bytes, id: bytes, a: bytes, b: bytes)
    requires id != [] && trim(id) == Strip(id) == id && NUL !in id
    ensures var lines := [ID + id, DATA + a, [], DATA + b, []];
            && AllAlike(trim, lines)
            && EventsFrom(trim, NONE_PENDING, lines) != StandardEvents(NONE_PENDING, lines)
  {
    var lines := [ID + id, DATA + a, [], DATA + b, []];
    assert (ID + id)[3..] == id && ID <= ID + id && (ID + id)[0] == ID[0];
    assert (DATA + a)[0] == (DATA + b)[0] == DATA[0] && DATA <= DATA + a && DATA <= DATA + b;
    assert |ID + id| >= 4 && |DATA + a| >= 5 && |DATA + b| >= 5;
    ParserMeetsStandard(trim, lines);
    assert lines[1..] == [DATA + a, [], DATA + b, []] && lines[1..][1..] == [[], DATA + b, []];
    assert lines[1..][1..][1..] == [DATA + b, []] && lines[1..][1..][1..][1..] == [[]];
    var rest := [DATA + b, []];
    assert KeepsId(trim, false, id, false, rest);
    assert KeepsId(trim, true, id, true, lines[1..][1..]);
    assert KeepsId(trim, true, id, false, lines[1..]);
  }

  // ----- a client that follows the standard

  /** The first line end, or -1. */
  function LineEnd(s: bytes): (r: int)
    ensures -1 <= r < |s|
    ensures r >= 0 ==> s[r] == LF || s[r] == CR
  {
    if s == [] then -1
    else if s[0] == LF || s[0] == CR then 0
    else
      var r := LineEnd(s[1..]);
      if r < 0 then -1 else r + 1
  }

  /** Lines end at CRLF, LF or CR; an unfinished last line is discarded. */
  function StandardLines(s: bytes): seq<bytes>
    decreases |s|
  {
    var i := LineEnd(s);
    if i < 0 then []
    else
      var next := if s[i] == CR && i + 1 < |s| && s[i + 1] == LF then i + 2 else i + 1;
      [s[..i]] + StandardLines(s[next..])
  }

  /** What a client that follows the standard reads out of the bytes of a stream. */
  function StandardParsed(s: bytes): seq<Event> {
    StandardEvents(NONE_PENDING, StandardLines(s))
  }

  lemma {:induction false} LineEndAt(line: bytes, tail: bytes)
    requires NewlineFree(line)
    ensures LineEnd(line + [LF] + tail) == |line|
  {
    var s := line + [LF] + tail;
    if line != [] {
      assert line[0] in line;
      assert s[1..] == line[1..] + [LF] + tail;
      LineEndAt(line[1..], tail);
    }
  }

  lemma StandardLineFirst(line: bytes, tail: bytes)
    requires NewlineFree(line)
    ensures StandardLines(line + [LF] + tail) == [line] + StandardLines(tail)
  {
    var s := line + [LF] + tail;
    LineEndAt(line, tail);
    assert s[|line|] == LF && s[..|line|] == line && s[|line| + 1..] == tail;
  }

  lemma StandardFrame(f: Frame, tail: bytes)
    requires f.Data? ==> NewlineFree(f.payload)
    ensures StandardParsed(Text(f) + tail) == Payloads([f]) + StandardParsed(tail)
  {
    LineShape(f);
    var line := LineOf(f);
    assert Text(f) + tail == line + [LF] + ([] + [LF] + tail);
    StandardLineFirst(line, [] + [LF] + tail);
    StandardLineFirst([], tail);
    StandardFrameEvents(f, StandardLines(tail));
  }

  lemma StandardFrameEvents(f: Frame, rest: seq<bytes>)
    ensures StandardEvents(NONE_PENDING, [LineOf(f)] + ([[]] + rest))
         == Payloads([f]) + StandardEvents(NONE_PENDING, rest)
  {
    var line := LineOf(f);
    var lines := [line] + ([[]] + rest);
    assert lines[1..] == [[]] + rest && lines[1..][1..] == rest;
    PrefixIsName();
    match f {
      case Data(payload) =>
        assert DATA_SPACE == DATA + [SPACE];
        assert line[5..] == [SPACE] + payload;
        assert DATA <= line;
        KnownField(NONE_PENDING, line, DATA_NAME);
        assert Strip(line[5..]) == payload;
      case Keepalive =>
        IndexByteUnique(line, COLON, 0);
    }
  }

  /**
    A client that follows the standard gets back every payload written, in order, typed "message", however
    long: the length limit is the parser's own.
   */
  lemma {:induction false} StandardRoundTrip(fs: seq<Frame>)
    requires Writable(fs)
    ensures StandardParsed(Wire(fs)) == Payloads(fs)
  {
    if fs != [] {
      var f, rest := fs[0], fs[1..];
      assert f in fs && forall g :: g in rest ==> g in fs;
      StandardRoundTrip(rest);
      StandardFrame(f, Wire(rest));
      assert fs == [f] + rest;
      PayloadsCons(f, rest);
    }
  }
}
