/**
  The line-based stream decoders of the Azure, Grok, Mistral and Cohere adapters. Grok, Mistral and
  Cohere share one loop and differ in what they make of a line; Azure's loop has one more step.
 */
module LineDecoders {
  import opened Common
  import opened Framing

  /** A line ends before its line feed; unfinished lines are kept, nothing is discarded. */
  function FindLine(buf: bytes): Found {
    var idx := IndexByte(buf, LF);
    if idx < 0 then Unfinished else Unit(0, idx, idx + 1)
  }

  lemma FindLineLawful()
    ensures Lawful(FindLine)
  {
    forall a, b | FindLine(a).Unit? ensures FindLine(a + b) == FindLine(a) {
      IndexBytePrefix(a, b, LF);
    }
  }

  function LinesOf(buf: bytes): seq<bytes> {
    Extract(FindLine, buf).units
  }

  /** The loop of parseGrokLines, parseMistralLines and parseCohereLines, without cancellation. */
  method ParseLines<T>(decode: bytes -> Option<T>, input: bytes) returns (out: seq<T>, rest: bytes)
    ensures out == Collect(decode, LinesOf(input))
    ensures rest == Extract(FindLine, input).rest
  {
    out := [];
    var buf := input;
    ProgressStart(FindLine, decode, input);
    while true
      invariant Progress(FindLine, decode, input, out, buf)
      decreases |buf|
    {
      var idx := IndexByte(buf, LF);
      if idx < 0 {
        ProgressEnd(FindLine, decode, input, out, buf);
        return out, buf;
      }
      var line := buf[..idx];
      ProgressUnit(FindLine, decode, input, out, buf, 0, idx, idx + 1);
      buf := buf[idx + 1..];
      out := out + Emitted(decode(line));
    }
  }

  /**
    Azure's processSSELines, which also drops a line feed standing directly after a line. Its contract
    is that of plain line splitting: the drop is only an early look at an empty line.
   */
  method ProcessSSELines<T>(decode: bytes -> Option<T>, input: bytes) returns (out: seq<T>, rest: bytes)
    requires decode([]) == None
    ensures out == Collect(decode, LinesOf(input))
    ensures rest == Extract(FindLine, input).rest
  {
    out := [];
    var buf := input;
    ProgressStart(FindLine, decode, input);
    while true
      invariant Progress(FindLine, decode, input, out, buf)
      decreases |buf|
    {
      var idx := IndexByte(buf, LF);
      if idx < 0 {
        ProgressEnd(FindLine, decode, input, out, buf);
        return out, buf;
      }
      var line := buf[..idx];
      ProgressUnit(FindLine, decode, input, out, buf, 0, idx, idx + 1);
      buf := buf[idx + 1..];
      if |buf| > 0 && buf[0] == LF {
        EmptyLineStep(decode, input, out + Emitted(decode(line)), buf);
        buf := buf[1..];
      }
      out := out + Emitted(decode(line));
    }
  }

  lemma EmptyLineStep<T>(decode: bytes -> Option<T>, input: bytes, out: seq<T>, buf: bytes)
    requires decode([]) == None
    requires Progress(FindLine, decode, input, out, buf) && |buf| > 0 && buf[0] == LF
    ensures Progress(FindLine, decode, input, out, buf[1..])
  {
    IndexByteUnique(buf, LF, 0);
    ProgressUnit(FindLine, decode, input, out, buf, 0, 0, 1);
    assert out + [] == out;
  }

  /**
    The read loops streamSSE, streamGrokSSE, streamMistralSSE and streamCohereSSE (`skipping` for
    Azure's parser): chunks and leftover are those of the whole byte stream read in one piece.
   */
  method StreamLines<T>(decode: bytes -> Option<T>, skipping: bool, pieces: seq<bytes>)
    returns (out: seq<T>, leftover: bytes)
    requires skipping ==> decode([]) == None
    ensures out == Collect(decode, LinesOf(Flatten(pieces)))
    ensures leftover == Extract(FindLine, Flatten(pieces)).rest
  {
    out, leftover := [], [];
    for i := 0 to |pieces|
      invariant out == Collect(decode, LinesOf(Flatten(pieces[..i])))
      invariant leftover == Extract(FindLine, Flatten(pieces[..i])).rest
    {
      PieceStep(decode, pieces, i, leftover);
      if |pieces[i]| > 0 {
        leftover := leftover + pieces[i];
        var sent;
        if skipping {
          sent, leftover := ProcessSSELines(decode, leftover);
        } else {
          sent, leftover := ParseLines(decode, leftover);
        }
        out := out + sent;
      }
    }
    assert pieces[..|pieces|] == pieces;
  }

  lemma PieceStep<T>(decode: bytes -> Option<T>, pieces: seq<bytes>, i: nat, leftover: bytes)
    requires i < |pieces| && leftover == Extract(FindLine, Flatten(pieces[..i])).rest
    ensures var before, after := Flatten(pieces[..i]), Flatten(pieces[..i + 1]);
            if pieces[i] == [] then after == before
            else && Collect(decode, LinesOf(after))
                    == Collect(decode, LinesOf(before)) + Collect(decode, LinesOf(leftover + pieces[i]))
                 && Extract(FindLine, after).rest == Extract(FindLine, leftover + pieces[i]).rest
  {
    var before := Flatten(pieces[..i]);
    assert pieces[..i + 1] == pieces[..i] + [pieces[i]];
    FlattenSingle(pieces[..i], pieces[i]);
    assert pieces[i] == [] ==> before + pieces[i] == before;
    FindLineLawful();
    ReadStep(FindLine, before, leftover, pieces[i]);
    CollectAppend(decode, LinesOf(before), LinesOf(leftover + pieces[i]));
  }

  /** LinesOf undoes line termination: it returns the lines written, without the unfinished last one. */
  lemma LinesOfWritten(lines: seq<Frame>, last: bytes)
    requires forall f :: f in lines ==> f.gap == [] && LF !in f.unit && f.end == [LF]
    requires LF !in last
    ensures LinesOf(Wire(lines) + last) == Units(lines)
    ensures Extract(FindLine, last).rest == last
  {
    forall f | f in lines ensures Recognizes(FindLine, f) {
      forall tail ensures FindLine(f.Text() + tail) == Unit(0, |f.unit|, |f.Text()|) {
        var s := f.Text() + tail;
        assert s[..|f.unit|] == f.unit;
        IndexByteUnique(s, LF, |f.unit|);
      }
    }
    ExtractFrames(FindLine, lines, last);
    assert Units(lines) + [] == Units(lines);
  }

  // ----- what a line means

  function TrimRightCR(s: bytes): bytes {
    if s != [] && s[|s| - 1] == CR then TrimRightCR(s[..|s| - 1]) else s
  }

  datatype Choice = Choice(content: string, finish: Option<string>)
  datatype ChunkBody = ChunkBody(choices: seq<Choice>, usage: Option<Usage>)

  function BodyChunk(body: ChunkBody): StreamChunk {
    if body.choices == [] then StreamChunk("", None, body.usage)
    else StreamChunk(body.choices[0].content, body.choices[0].finish, body.usage)
  }

  /** Only "data: " lines that unmarshal and are not the end marker carry a chunk. */
  function DataLine(unmarshal: bytes -> Option<ChunkBody>, line: bytes): Option<StreamChunk> {
    if line == [] || line == DATA_SPACE + DONE || !(DATA_SPACE <= line) then None
    else
      match unmarshal(line[6..])
      case None => None
      case Some(body) => Some(BodyChunk(body))
  }

  function AzureLine(unmarshal: bytes -> Option<ChunkBody>): (d: bytes -> Option<StreamChunk>)
    ensures d([]) == None
  {
    (line: bytes) => DataLine(unmarshal, line)
  }

  function GrokLine(unmarshal: bytes -> Option<ChunkBody>): bytes -> Option<StreamChunk> {
    (line: bytes) => DataLine(unmarshal, TrimRightCR(line))
  }

  /** What a "data: " line carries: nothing for the end marker or if it does not unmarshal, else its first choice. */
  lemma DataLineFields(unmarshal: bytes -> Option<ChunkBody>, body: bytes)
    ensures var c := DataLine(unmarshal, DATA_SPACE + body);
            && (c == None <==> body == DONE || unmarshal(body) == None)
            && (c.Some? ==>
                  var b := unmarshal(body).value;
                  && c.value.usage == b.usage
                  && (b.choices == [] ==> c.value.delta == "" && c.value.finish == None)
                  && (b.choices != [] ==>
                        c.value.delta == b.choices[0].content && c.value.finish == b.choices[0].finish))
  {
    assert (DATA_SPACE + body)[6..] == body;
    assert DATA_SPACE + body == DATA_SPACE + DONE ==> body == DONE by {
      assert (DATA_SPACE + DONE)[6..] == DONE;
    }
  }

  /** No other line carries anything, and a line's carriage returns make no difference to Grok and Mistral. */
  lemma OtherLines(unmarshal: bytes -> Option<ChunkBody>, line: bytes)
    ensures !(DATA_SPACE <= line) ==> AzureLine(unmarshal)(line) == None
    ensures GrokLine(unmarshal)(line + [CR]) == GrokLine(unmarshal)(line)
    ensures line == [] || line[|line| - 1] != CR ==> GrokLine(unmarshal)(line) == AzureLine(unmarshal)(line)
  {
    assert (line + [CR])[..|line|] == line;
  }

  /** The text of a line: that of the first choice of what it unmarshals to. */
  function TextOfLine(unmarshal: bytes -> Option<ChunkBody>): bytes -> string {
    (line: bytes) =>
      if !(DATA_SPACE <= line) || line[6..] == DONE then ""
      else
        match unmarshal(line[6..])
        case None => ""
        case Some(body) => if body.choices == [] then "" else body.choices[0].content
  }

  /** No text of the lines is lost, added or moved. */
  lemma LinesKeepText(unmarshal: bytes -> Option<ChunkBody>, lines: seq<bytes>)
    ensures TextOf(Collect(AzureLine(unmarshal), lines)) == Joined(TextOfLine(unmarshal), lines)
  {
    forall line: bytes
      ensures TextOfLine(unmarshal)(line)
           == if AzureLine(unmarshal)(line).Some? then AzureLine(unmarshal)(line).value.delta else ""
    {
      if DATA_SPACE <= line {
        assert line == DATA_SPACE + line[6..];
        DataLineFields(unmarshal, line[6..]);
      }
    }
    TextKept(AzureLine(unmarshal), TextOfLine(unmarshal), lines);
  }

  datatype CohereEvent = CohereEvent(kind: string, text: string, finish: string)

  /** json.Unmarshal into an event that may already hold fields: the new fields, and whether it failed. */
  type CohereUnmarshal = (bytes, CohereEvent) -> (CohereEvent, bool)

  function CohereLine(unmarshal: CohereUnmarshal, lower: string -> string): bytes -> Option<StreamChunk> {
    (raw: bytes) =>
      var line := TrimRightCR(raw);
      if line == [] then None
      else
        var (first, failed) := unmarshal(line, CohereEvent("", "", ""));
        if failed && !(DATA_SPACE <= line) then None
        else
          var event := if failed then unmarshal(line[6..], first).0 else first;
          match event.kind
          case "content-delta" => Some(StreamChunk(event.text, None, None))
          case "message-end" =>
            var fr := lower(event.finish);
            Some(StreamChunk("", Some(if fr == "" then "stop" else fr), None))
          case _ => None
  }

  /**
    What a Cohere line carries, once it or what follows "data: " has been unmarshalled to an event: the text of
    a content delta, or the finish reason of a message end, in lower case and "stop" if it has none.
   */
  lemma CohereFields(unmarshal: CohereUnmarshal, lower: string -> string, line: bytes)
    requires line != [] && line[|line| - 1] != CR
    ensures var (first, failed) := unmarshal(line, CohereEvent("", "", ""));
            var c := CohereLine(unmarshal, lower)(line);
            var event := if failed && DATA_SPACE <= line then unmarshal(line[6..], first).0 else first;
            if failed && !(DATA_SPACE <= line) then c == None
            else
              && (c.Some? <==> event.kind == "content-delta" || event.kind == "message-end")
              && (event.kind == "content-delta" ==> c == Some(StreamChunk(event.text, None, None)))
              && (event.kind == "message-end" ==>
                    c.value.delta == "" && c.value.usage == None && c.value.finish.Some?
                    && c.value.finish.value == if lower(event.finish) == "" then "stop" else lower(event.finish))
    ensures CohereLine(unmarshal, lower)(line + [CR]) == CohereLine(unmarshal, lower)(line)
  {
    assert (line + [CR])[..|line + [CR]| - 1] == line;
    assert TrimRightCR(line + [CR]) == TrimRightCR(line) == line;
  }

  /** streamSSE of the Azure adapter on any reads. */
  method StreamAzure(unmarshal: bytes -> Option<ChunkBody>, pieces: seq<bytes>) returns (out: seq<StreamChunk>)
    ensures out == Collect(AzureLine(unmarshal), LinesOf(Flatten(pieces)))
  {
    var rest;
    out, rest := StreamLines(AzureLine(unmarshal), true, pieces);
  }

  /** streamGrokSSE and streamMistralSSE on any reads. */
  method StreamGrok(unmarshal: bytes -> Option<ChunkBody>, pieces: seq<bytes>) returns (out: seq<StreamChunk>)
    ensures out == Collect(GrokLine(unmarshal), LinesOf(Flatten(pieces)))
  {
    var rest;
    out, rest := StreamLines(GrokLine(unmarshal), false, pieces);
  }

  /** streamCohereSSE on any reads. */
  method StreamCohere(unmarshal: CohereUnmarshal, lower: string -> string, pieces: seq<bytes>)
    returns (out: seq<StreamChunk>)
    ensures out == Collect(CohereLine(unmarshal, lower), LinesOf(Flatten(pieces)))
  {
    var rest;
    out, rest := StreamLines(CohereLine(unmarshal, lower), false, pieces);
  }
}
