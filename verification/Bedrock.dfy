/**
  The scanner that finds the end of a JSON object in a byte buffer, and the
  grammar of JSON objects (sections 2 to 7 of RFC 8259) it is measured against.
  Models findJSONEnd of internal/provider/bedrock/adapter.go.
 */
module JsonScan {
  import opened Common

  /** The three variables findJSONEnd updates per byte. */
  datatype Scan = Scan(depth: int, inString: bool, escaped: bool)

  const START := Scan(0, false, false)

  /** Is b the brace that brings the depth to zero? */
  predicate Closing(st: Scan, b: byte) {
    st == Scan(1, false, false) && b == RBRACE
  }

  function Step(st: Scan, b: byte): Scan {
    if st.escaped then st.(escaped := false)
    else if b == BACKSLASH && st.inString then st.(escaped := true)
    else if b == QUOTE then st.(inString := !st.inString)
    else if st.inString then st
    else if b == LBRACE then st.(depth := st.depth + 1)
    else if b == RBRACE then st.(depth := st.depth - 1)
    else st
  }

  function After(st: Scan, s: bytes): Scan
    decreases |s|
  {
    if s == [] then st else After(Step(st, s[0]), s[1..])
  }

  /** Where scanning s from st stops, or -1. */
  function End(st: Scan, s: bytes): (r: int)
    ensures -1 <= r < |s|
    ensures r >= 0 ==> s[r] == RBRACE
    decreases |s|
  {
    if s == [] then -1
    else if Closing(st, s[0]) then 0
    else
      var r := End(Step(st, s[0]), s[1..]);
      if r < 0 then -1 else r + 1
  }

  method FindJSONEnd(buf: bytes) returns (r: int)
    ensures r == End(START, buf)
  {
    var depth, inString, escaped := 0, false, false;
    for i := 0 to |buf|
      invariant var e := End(Scan(depth, inString, escaped), buf[i..]);
                End(START, buf) == if e < 0 then -1 else i + e
      invariant escaped ==> inString
    {
      var b := buf[i];
      assert buf[i..][0] == b && buf[i..][1..] == buf[i + 1..];
      if escaped {
        escaped := false;
        continue;
      }
      if b == BACKSLASH && inString {
        escaped := true;
        continue;
      }
      if b == QUOTE {
        inString := !inString;
        continue;
      }
      if inString {
        continue;
      }
      if b == LBRACE {
        depth := depth + 1;
      } else if b == RBRACE {
        depth := depth - 1;
        if depth == 0 {
          return i;
        }
      }
    }
    r := -1;
  }

  // ----- composition

  /** Scanning a concatenation is scanning its parts in turn. */
  lemma {:induction false} EndAppend(st: Scan, a: bytes, b: bytes)
    ensures After(st, a + b) == After(After(st, a), b)
    ensures End(st, a) >= 0 ==> End(st, a + b) == End(st, a)
    ensures End(st, a) < 0 ==>
              var e := End(After(st, a), b);
              End(st, a + b) == if e < 0 then -1 else |a| + e
    decreases |a|
  {
    if a == [] {
      assert a + b == b;
    } else {
      assert (a + b)[1..] == a[1..] + b;
      EndAppend(Step(st, a[0]), a[1..], b);
    }
  }

  /** Scanning s from st finds no end and comes back to st. */
  predicate Quiet(st: Scan, s: bytes) {
    End(st, s) < 0 && After(st, s) == st
  }

  lemma QuietAppend(st: Scan, a: bytes, b: bytes)
    requires Quiet(st, a) && Quiet(st, b)
    ensures Quiet(st, a + b)
  {
    EndAppend(st, a, b);
  }

  /** A bracketed body is quiet when its inside is, one state further in. */
  lemma QuietBracket(st: Scan, inner: Scan, open: byte, body: bytes, close: byte)
    requires !Closing(st, open) && Step(st, open) == inner
    requires Quiet(inner, body)
    requires !Closing(inner, close) && Step(inner, close) == st
    ensures Quiet(st, [open] + body + [close])
  {
    EndAppend(st, [open], body);
    EndAppend(st, [open] + body, [close]);
  }

  /** Bytes that are none of the four the scanner reacts to outside strings. */
  predicate Inert(s: bytes) {
    forall b :: b in s ==> b != QUOTE && b != BACKSLASH && b != LBRACE && b != RBRACE
  }

  lemma {:induction false} QuietInert(d: int, s: bytes)
    requires Inert(s)
    ensures Quiet(Scan(d, false, false), s)
  {
    if s != [] {
      assert s == [s[0]] + s[1..];
      assert s[0] in s;
      assert forall b :: b in s[1..] ==> b in s;
      QuietInert(d, s[1..]);
    }
  }

  // ----- the grammar

  /** char of section 7: unescaped, a two-byte escape, or \uXXXX. */
  datatype StringChar =
    | Unescaped(b: byte)
    | Escape(b: byte)
    | Unicode(h0: byte, h1: byte, h2: byte, h3: byte)

  predicate HexDigit(b: byte) {
    0x30 <= b <= 0x39 || 0x41 <= b <= 0x46 || 0x61 <= b <= 0x66
  }

  predicate ValidChar(c: StringChar) {
    match c
    case Unescaped(b) => b >= 0x20 && b != QUOTE && b != BACKSLASH
    // " \ / b f n r t
    case Escape(b) => b in [QUOTE, BACKSLASH, 0x2F, 0x62, 0x66, 0x6E, 0x72, 0x74]
    case Unicode(h0, h1, h2, h3) => HexDigit(h0) && HexDigit(h1) && HexDigit(h2) && HexDigit(h3)
  }

  function RenderChar(c: StringChar): bytes {
    match c
    case Unescaped(b) => [b]
    case Escape(b) => [BACKSLASH, b]
    case Unicode(h0, h1, h2, h3) => [BACKSLASH, 0x75, h0, h1, h2, h3]
  }

  type Text = seq<StringChar>

  predicate ValidText(t: Text) {
    forall c :: c in t ==> ValidChar(c)
  }

  function RenderChars(t: Text): bytes {
    if t == [] then [] else RenderChar(t[0]) + RenderChars(t[1..])
  }

  function RenderText(t: Text): bytes {
    [QUOTE] + RenderChars(t) + [QUOTE]
  }

  /** A value with the whitespace it was written with. Literal covers true, false, null and numbers. */
  datatype Value =
    | Literal(text: bytes)
    | Str(chars: Text)
    | Array(ws: bytes, elements: Elements)
    | Object(ws: bytes, members: Members)
  datatype Elements =
    | NoElements
    | Element(before: bytes, value: Value, after: bytes, rest: Elements)
  datatype Members =
    | NoMembers
    | Member(before: bytes, name: Text, gap: bytes, lead: bytes, value: Value, after: bytes, rest: Members)

  predicate Whitespace(s: bytes) {
    forall b :: b in s ==> b == SPACE || b == TAB || b == LF || b == CR
  }

  /** Letters, digits and + - . : every byte a number or a literal name is made of. */
  predicate LiteralText(s: bytes) {
    forall b :: b in s ==>
      0x30 <= b <= 0x39 || 0x41 <= b <= 0x5A || 0x61 <= b <= 0x7A || b == 0x2B || b == 0x2D || b == 0x2E
  }

  predicate ValidValue(v: Value) {
    match v
    case Literal(text) => LiteralText(text)
    case Str(chars) => ValidText(chars)
    case Array(ws, elements) => Whitespace(ws) && ValidElements(elements)
    case Object(ws, members) => Whitespace(ws) && ValidMembers(members)
  }

  predicate ValidElements(es: Elements) {
    es.Element? ==> Whitespace(es.before) && ValidValue(es.value) && Whitespace(es.after) && ValidElements(es.rest)
  }

  predicate ValidMembers(ms: Members) {
    ms.Member? ==>
      && Whitespace(ms.before) && ValidText(ms.name) && Whitespace(ms.gap) && Whitespace(ms.lead)
      && ValidValue(ms.value) && Whitespace(ms.after) && ValidMembers(ms.rest)
  }

  function Render(v: Value): bytes {
    match v
    case Literal(text) => text
    case Str(chars) => RenderText(chars)
    case Array(ws, elements) => [LBRACKET] + (ws + RenderElements(elements)) + [RBRACKET]
    case Object(ws, members) => [LBRACE] + (ws + RenderMembers(members)) + [RBRACE]
  }

  function RenderElements(es: Elements): bytes {
    match es
    case NoElements => []
    case Element(before, value, after, rest) =>
      before + Render(value) + after + (if rest.NoElements? then [] else [COMMA] + RenderElements(rest))
  }

  function RenderMembers(ms: Members): bytes {
    match ms
    case NoMembers => []
    case Member(before, name, gap, lead, value, after, rest) =>
      before + RenderText(name) + (gap + [COLON] + lead) + Render(value) + after
      + (if rest.NoMembers? then [] else [COMMA] + RenderMembers(rest))
  }

  // ----- every value is quiet inside an object

  lemma {:induction false} CharsQuiet(d: int, t: Text)
    requires ValidText(t)
    ensures Quiet(Scan(d, true, false), RenderChars(t))
  {
    if t != [] {
      var st := Scan(d, true, false);
      var c := RenderChar(t[0]);
      assert t[0] in t;
      assert Quiet(st, c) by {
        match t[0] {
          case Unescaped(b) =>
          case Escape(b) =>
            EndAppend(st, [BACKSLASH], [b]);
            assert [BACKSLASH] + [b] == c;
          case Unicode(h0, h1, h2, h3) =>
            EndAppend(st, [BACKSLASH], [0x75]);
            assert Quiet(st, [BACKSLASH] + [0x75]);
            QuietAppend(st, [BACKSLASH] + [0x75], [h0]);
            QuietAppend(st, [BACKSLASH] + [0x75] + [h0], [h1]);
            QuietAppend(st, [BACKSLASH] + [0x75] + [h0] + [h1], [h2]);
            QuietAppend(st, [BACKSLASH] + [0x75] + [h0] + [h1] + [h2], [h3]);
            assert [BACKSLASH] + [0x75] + [h0] + [h1] + [h2] + [h3] == c;
        }
      }
      CharsQuiet(d, t[1..]);
      QuietAppend(st, c, RenderChars(t[1..]));
    }
  }

  lemma TextQuiet(d: int, t: Text)
    requires ValidText(t)
    ensures Quiet(Scan(d, false, false), RenderText(t))
  {
    CharsQuiet(d, t);
    QuietBracket(Scan(d, false, false), Scan(d, true, false), QUOTE, RenderChars(t), QUOTE);
  }

  lemma {:induction false} ValueQuiet(d: int, v: Value)
    requires d >= 1 && ValidValue(v)
    ensures Quiet(Scan(d, false, false), Render(v))
    decreases v
  {
    var st := Scan(d, false, false);
    match v {
      case Literal(text) =>
        QuietInert(d, text);
      case Str(chars) =>
        TextQuiet(d, chars);
      case Array(ws, elements) =>
        QuietInert(d, ws);
        ElementsQuiet(d, elements);
        QuietAppend(st, ws, RenderElements(elements));
        QuietBracket(st, st, LBRACKET, ws + RenderElements(elements), RBRACKET);
      case Object(ws, members) =>
        MembersQuiet(d + 1, ws, members);
        QuietBracket(st, Scan(d + 1, false, false), LBRACE, ws + RenderMembers(members), RBRACE);
    }
  }

  lemma {:induction false} ElementsQuiet(d: int, es: Elements)
    requires d >= 1 && ValidElements(es)
    ensures Quiet(Scan(d, false, false), RenderElements(es))
    decreases es
  {
    match es {
      case NoElements =>
      case Element(before, value, after, rest) =>
        var st := Scan(d, false, false);
        QuietInert(d, before);
        ValueQuiet(d, value);
        QuietAppend(st, before, Render(value));
        QuietInert(d, after);
        QuietAppend(st, before + Render(value), after);
        ElementsQuiet(d, rest);
        QuietAppend(st, [COMMA], RenderElements(rest));
        var tail := if rest.NoElements? then [] else [COMMA] + RenderElements(rest);
        QuietAppend(st, before + Render(value) + after, tail);
    }
  }

  lemma {:induction false} MembersQuiet(d: int, ws: bytes, ms: Members)
    requires d >= 1 && Whitespace(ws) && ValidMembers(ms)
    ensures Quiet(Scan(d, false, false), ws + RenderMembers(ms))
    decreases ms
  {
    var st := Scan(d, false, false);
    QuietInert(d, ws);
    match ms {
      case NoMembers =>
        assert ws + RenderMembers(ms) == ws;
      case Member(before, name, gap, lead, value, after, rest) =>
        QuietInert(d, before);
        TextQuiet(d, name);
        QuietAppend(st, before, RenderText(name));
        var colon := gap + [COLON] + lead;
        QuietInert(d, colon);
        var s1 := before + RenderText(name);
        QuietAppend(st, s1, colon);
        ValueQuiet(d, value);
        QuietAppend(st, s1 + colon, Render(value));
        QuietInert(d, after);
        QuietAppend(st, s1 + colon + Render(value), after);
        MembersQuiet(d, [], rest);
        assert [] + RenderMembers(rest) == RenderMembers(rest);
        QuietAppend(st, [COMMA], RenderMembers(rest));
        var tail := if rest.NoMembers? then [] else [COMMA] + RenderMembers(rest);
        QuietAppend(st, s1 + colon + Render(value) + after, tail);
        QuietAppend(st, ws, RenderMembers(ms));
    }
  }

  /** The scanner stops exactly on an object's last byte, whatever follows. */
  lemma ObjectEnd(v: Value, tail: bytes)
    requires v.Object? && ValidValue(v)
    ensures End(START, Render(v) + tail) == |Render(v)| - 1
  {
    var body := v.ws + RenderMembers(v.members);
    MembersQuiet(1, v.ws, v.members);
    EndAppend(START, [LBRACE], body);
    EndAppend(START, [LBRACE] + body, [RBRACE]);
    EndAppend(START, Render(v), tail);
  }

  /** On every proper prefix of an object it reports the object as incomplete. */
  lemma ObjectPrefixIncomplete(v: Value, k: nat)
    requires v.Object? && ValidValue(v) && k < |Render(v)|
    ensures End(START, Render(v)[..k]) == -1
  {
    var s := Render(v);
    ObjectEnd(v, []);
    assert s + [] == s == s[..k] + s[k..];
    EndAppend(START, s[..k], s[k..]);
  }
}

/**
  The Bedrock stream reader: bytes arrive in arbitrary pieces, a leftover buffer is kept,
  JSON objects are cut out and turned into stream chunks.
 */
module Bedrock {
  import opened Common
  import opened Framing
  import opened JsonScan

  /** What json.Unmarshal fills in for one event. */
  datatype ConverseEvent = ConverseEvent(delta: Option<string>, stop: Option<string>, usage: Option<Usage>)

  type Unmarshal = bytes -> Option<ConverseEvent>

  function MapStopReason(reason: string): string {
    match reason
    case "max_tokens" => "length"
    case "tool_use" => "tool_calls"
    case _ => "stop"
  }

  /** One object's chunk: None when it does not unmarshal or has none of the three fields. */
  function ChunkOf(unmarshal: Unmarshal): bytes -> Option<StreamChunk> {
    (data: bytes) =>
      match unmarshal(data)
      case None => None
      case Some(ConverseEvent(None, None, None)) => None
      case Some(e) =>
        Some(StreamChunk(
               if e.delta.Some? then e.delta.value else "",
               if e.stop.Some? then Some(MapStopReason(e.stop.value)) else None,
               e.usage))
  }

  /** What an event's text is: its delta, if it has one. */
  function TextOfEvent(unmarshal: Unmarshal): bytes -> string {
    (data: bytes) =>
      match unmarshal(data)
      case Some(ConverseEvent(Some(text), _, _)) => text
      case _ => ""
  }

  /**
    The chunk of an object: there is one exactly if the object unmarshals to an event with a delta, a stop or
    metadata; it carries the delta's text, the usage, and the stop reason in the gateway's words.
   */
  lemma ChunkFields(unmarshal: Unmarshal, data: bytes)
    ensures var c := ChunkOf(unmarshal)(data);
            match unmarshal(data)
            case None => c == None
            case Some(e) =>
              && (c.None? <==> e.delta.None? && e.stop.None? && e.usage.None?)
              && (c.Some? ==>
                    && c.value.delta == TextOfEvent(unmarshal)(data) && c.value.usage == e.usage
                    && (c.value.finish == None <==> e.stop == None)
                    && (c.value.finish == Some("length") <==> e.stop == Some("max_tokens"))
                    && (c.value.finish == Some("tool_calls") <==> e.stop == Some("tool_use"))
                    && (c.value.finish.Some? ==> c.value.finish.value in {"length", "tool_calls", "stop"}))
  {
  }

  /** No text is lost, added or moved: the chunks' text is the objects' deltas in order. */
  lemma ChunksKeepText(unmarshal: Unmarshal, units: seq<bytes>)
    ensures TextOf(Collect(ChunkOf(unmarshal), units)) == Joined(TextOfEvent(unmarshal), units)
  {
    forall data: bytes
      ensures TextOfEvent(unmarshal)(data)
           == if ChunkOf(unmarshal)(data).Some? then ChunkOf(unmarshal)(data).value.delta else ""
    {
      ChunkFields(unmarshal, data);
    }
    TextKept(ChunkOf(unmarshal), TextOfEvent(unmarshal), units);
  }

  /** The next object: from the first opening brace to where the scan from there ends. */
  function FindObject(buf: bytes): Found {
    var start := IndexByte(buf, LBRACE);
    if start < 0 then Nothing
    else
      var end := End(START, buf[start..]);
      if end < 0 then Unfinished else Unit(start, start + end + 1, start + end + 1)
  }

  lemma FindObjectStable(a: bytes, b: bytes)
    requires FindObject(a).Unit?
    ensures FindObject(a + b) == FindObject(a)
  {
    var start := IndexByte(a, LBRACE);
    IndexBytePrefix(a, b, LBRACE);
    assert (a + b)[start..] == a[start..] + b;
    EndAppend(START, a[start..], b);
  }

  lemma FindObjectSkips(gap: bytes, buf: bytes)
    requires LBRACE !in gap
    ensures FindObject(gap + buf) == Shift(|gap|, FindObject(buf))
  {
    var start := IndexByte(buf, LBRACE);
    if start >= 0 {
      var s := |gap| + start;
      assert (gap + buf)[..s] == gap + buf[..start];
      IndexByteUnique(gap + buf, LBRACE, s);
      assert (gap + buf)[s..] == buf[start..];
    }
  }

  /** Cutting the byte stream differently cannot change what FindObject cuts out of it. */
  lemma FindObjectLawful()
    ensures Lawful(FindObject)
  {
    forall a, b | FindObject(a).Unit? ensures FindObject(a + b) == FindObject(a) {
      FindObjectStable(a, b);
    }
    forall a, b | FindObject(a).Nothing? ensures FindObject(a + b) == Shift(|a|, FindObject(b)) {
      FindObjectSkips(a, b);
    }
  }

  lemma ParseNothing(decode: bytes -> Option<StreamChunk>, input: bytes, out: seq<StreamChunk>, buf: bytes)
    requires Progress(FindObject, decode, input, out, buf) && IndexByte(buf, LBRACE) < 0
    ensures out == Collect(decode, Extract(FindObject, input).units) && Extract(FindObject, input).rest == []
  {
    ProgressEnd(FindObject, decode, input, out, buf);
  }

  lemma ParseUnfinished(decode: bytes -> Option<StreamChunk>, input: bytes, out: seq<StreamChunk>, buf: bytes)
    requires Progress(FindObject, decode, input, out, buf)
    requires IndexByte(buf, LBRACE) >= 0 && End(START, buf[IndexByte(buf, LBRACE)..]) < 0
    ensures out == Collect(decode, Extract(FindObject, input).units) && Extract(FindObject, input).rest == buf
  {
    ProgressEnd(FindObject, decode, input, out, buf);
  }

  lemma ParseObject(decode: bytes -> Option<StreamChunk>, input: bytes, out: seq<StreamChunk>, buf: bytes, next: nat)
    requires Progress(FindObject, decode, input, out, buf) && 0 <= IndexByte(buf, LBRACE) < next <= |buf|
    requires End(START, buf[IndexByte(buf, LBRACE)..]) == next - IndexByte(buf, LBRACE) - 1
    ensures Progress(FindObject, decode, input, out + Emitted(decode(buf[IndexByte(buf, LBRACE)..next])), buf[next..])
  {
    ProgressUnit(FindObject, decode, input, out, buf, IndexByte(buf, LBRACE), next, next);
  }

  /** parseBedrockStreamChunks without cancellation: chunks sent and bytes kept. */
  method ParseStreamChunks(decode: bytes -> Option<StreamChunk>, input: bytes)
    returns (out: seq<StreamChunk>, rest: bytes)
    ensures out == Collect(decode, Extract(FindObject, input).units)
    ensures rest == Extract(FindObject, input).rest
  {
    out := [];
    var buf := input;
    ProgressStart(FindObject, decode, input);
    while true
      invariant Progress(FindObject, decode, input, out, buf)
      decreases |buf|
    {
      var start := IndexByte(buf, LBRACE);
      if start < 0 {
        ParseNothing(decode, input, out, buf);
        return out, [];
      }
      var end := FindJSONEnd(buf[start..]);
      if end < 0 {
        ParseUnfinished(decode, input, out, buf);
        return out, buf;
      }
      var data := buf[start..start + end + 1];
      ParseObject(decode, input, out, buf, start + end + 1);
      buf := buf[start + end + 1..];
      out := out + Emitted(decode(data));
    }
  }

  /**
    streamBedrockEvents over the reads the body yields. The chunks depend only on the bytes,
    not on how they were cut into reads, and the bytes still kept are those a single read would
    have kept, or those minus a prefix without an opening brace.
   */
  method StreamEvents(decode: bytes -> Option<StreamChunk>, pieces: seq<bytes>)
    returns (out: seq<StreamChunk>, leftover: bytes)
    ensures out == Collect(decode, Extract(FindObject, Flatten(pieces)).units)
    ensures var whole := Extract(FindObject, Flatten(pieces)).rest;
            leftover == whole || exists gap :: LBRACE !in gap && whole == gap + leftover
  {
    out, leftover := [], [];
    FindObjectLawful();
    for i := 0 to |pieces|
      invariant out == Collect(decode, Extract(FindObject, Flatten(pieces[..i])).units)
      invariant Drops(FindObject, Extract(FindObject, Flatten(pieces[..i])).rest, leftover)
    {
      ghost var before := Flatten(pieces[..i]);
      assert pieces[..i + 1] == pieces[..i] + [pieces[i]];
      FlattenSingle(pieces[..i], pieces[i]);
      if |pieces[i]| > 0 {
        ReadStep(FindObject, before, leftover, pieces[i]);
        leftover := leftover + pieces[i];
        CollectAppend(decode, Extract(FindObject, before).units, Extract(FindObject, leftover).units);
        var sent;
        sent, leftover := ParseStreamChunks(decode, leftover);
        out := out + sent;
      } else {
        assert before + pieces[i] == before;
      }
    }
    assert pieces[..|pieces|] == pieces;
    ghost var whole := Extract(FindObject, Flatten(pieces)).rest;
    if leftover != whole {
      var gap :| FindObject(gap).Nothing? && whole == gap + leftover;
      assert LBRACE !in gap;
    }
  }

  // ----- a stream of objects is decoded to those objects

  /** An object text preceded by bytes without an opening brace. */
  ghost predicate ObjectFrame(f: Frame) {
    LBRACE !in f.gap && f.end == [] && exists v: Value :: v.Object? && ValidValue(v) && Render(v) == f.unit
  }

  lemma ObjectFound(gap: bytes, v: Value, tail: bytes)
    requires LBRACE !in gap && v.Object? && ValidValue(v)
    ensures var n := |gap| + |Render(v)|; FindObject(gap + (Render(v) + tail)) == Unit(|gap|, n, n)
  {
    var s := Render(v) + tail;
    IndexByteUnique(s, LBRACE, 0);
    assert s[0..] == s;
    ObjectEnd(v, tail);
    FindObjectSkips(gap, s);
  }

  lemma ObjectAtFront(gap: bytes, v: Value, unit: bytes, text: bytes, tail: bytes)
    requires LBRACE !in gap && v.Object? && ValidValue(v) && unit == Render(v) && text == gap + unit
    ensures FindObject(text + tail) == Unit(|gap|, |gap| + |unit|, |text|)
  {
    Assoc(gap, unit, tail);
    ObjectFound(gap, v, tail);
  }

  lemma ObjectFrameRecognized(f: Frame)
    requires ObjectFrame(f)
    ensures Recognizes(FindObject, f)
  {
    var v: Value :| v.Object? && ValidValue(v) && Render(v) == f.unit;
    assert f.Text() == f.gap + f.unit != [] by {
      ObjectEnd(v, []);
    }
    forall tail ensures FindObject(f.Text() + tail) == Unit(|f.gap|, |f.gap| + |f.unit|, |f.Text()|) {
      ObjectAtFront(f.gap, v, f.unit, f.Text(), tail);
    }
  }

  lemma ExtractUnfinished(gap: bytes, v: Value, k: nat)
    requires LBRACE !in gap && v.Object? && ValidValue(v) && k < |Render(v)|
    ensures Extract(FindObject, gap + Render(v)[..k]).units == []
  {
    var part := Render(v)[..k];
    FindObjectSkips(gap, part);
    if k > 0 {
      IndexByteUnique(part, LBRACE, 0);
      assert part[0..] == part;
      ObjectPrefixIncomplete(v, k);
    } else {
      assert part == [];
    }
  }

  /**
    Whatever the objects, the gaps between them, the unfinished object at the end and the way the
    bytes are cut into reads: exactly the complete objects are decoded, in order.
   */
  method DecodeObjects(unmarshal: Unmarshal, pieces: seq<bytes>,
                       ghost fs: seq<Frame>, ghost gap: bytes, ghost last: Value, ghost k: nat)
    returns (out: seq<StreamChunk>)
    requires (forall f :: f in fs ==> ObjectFrame(f)) && LBRACE !in gap
    requires last.Object? && ValidValue(last) && k < |Render(last)|
    requires Flatten(pieces) == Wire(fs) + (gap + Render(last)[..k])
    ensures out == Collect(ChunkOf(unmarshal), Units(fs))
  {
    var leftover;
    out, leftover := StreamEvents(ChunkOf(unmarshal), pieces);
    forall f | f in fs ensures Recognizes(FindObject, f) {
      ObjectFrameRecognized(f);
    }
    ExtractFrames(FindObject, fs, gap + Render(last)[..k]);
    ExtractUnfinished(gap, last, k);
    assert Units(fs) + [] == Units(fs);
  }
}
