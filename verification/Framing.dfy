/**
  What the provider adapters' read loops have in common: bytes are appended to a leftover buffer,
  whole units are cut from its front, and the remainder is kept for the next read. A decoder is
  given by the function that finds its next unit.
 */
module Framing {
  import opened Common

  /**
    No unit can start in these bytes, or one has started but not ended, or buf[start..stop] is one
    and decoding goes on at buf[next..].
   */
  datatype Found = Nothing | Unfinished | Unit(start: nat, stop: nat, next: nat) {
    predicate Within(n: nat) {
      Unit? ==> start <= stop <= next <= n && 0 < next
    }
  }

  type Finder = bytes -> Found

  ghost predicate InRange(find: Finder) {
    forall buf :: find(buf).Within(|buf|)
  }

  /** A unit stays found, at the same place, when more bytes arrive. */
  ghost predicate Stable(find: Finder) {
    forall a, b {:trigger find(a + b)} :: find(a).Unit? ==> find(a + b) == find(a)
  }

  function Shift(n: nat, f: Found): Found {
    match f
    case Unit(start, stop, next) => Unit(n + start, n + stop, n + next)
    case other => other
  }

  /** Bytes in which nothing starts only shift what is found behind them. */
  ghost predicate Skips(find: Finder) {
    forall a, b {:trigger find(a + b)} :: find(a).Nothing? ==> find(a + b) == Shift(|a|, find(b))
  }

  ghost predicate Lawful(find: Finder) {
    InRange(find) && Stable(find) && Skips(find)
  }

  datatype Extraction = Extraction(units: seq<bytes>, rest: bytes)

  /** The units cut out of a buffer and the bytes kept of it. */
  function Extract(find: Finder, buf: bytes): Extraction
    decreases |buf|
  {
    match find(buf)
    case Nothing => Extraction([], [])
    case Unfinished => Extraction([], buf)
    case Unit(start, stop, next) =>
      if find(buf).Within(|buf|) then
        var x := Extract(find, buf[next..]);
        Extraction([buf[start..stop]] + x.units, x.rest)
      else Extraction([], buf)
  }

  /** Inside a parse loop: what was sent so far and what is still in buf make up the whole result. */
  ghost predicate Progress<T>(find: Finder, decode: bytes -> Option<T>, input: bytes, out: seq<T>, buf: bytes) {
    && Collect(decode, Extract(find, input).units) == out + Collect(decode, Extract(find, buf).units)
    && Extract(find, input).rest == Extract(find, buf).rest
  }

  lemma ProgressUnit<T>(find: Finder, decode: bytes -> Option<T>, input: bytes, out: seq<T>, buf: bytes,
                        start: nat, stop: nat, next: nat)
    requires Progress(find, decode, input, out, buf)
    requires find(buf) == Unit(start, stop, next) && find(buf).Within(|buf|)
    ensures Progress(find, decode, input, out + Emitted(decode(buf[start..stop])), buf[next..])
  {
    CollectCons(decode, buf[start..stop], Extract(find, buf[next..]).units);
  }

  /** The loop stops where no further unit is found, and returns what Extract says. */
  lemma ProgressEnd<T>(find: Finder, decode: bytes -> Option<T>, input: bytes, out: seq<T>, buf: bytes)
    requires Progress(find, decode, input, out, buf) && !find(buf).Unit?
    ensures out == Collect(decode, Extract(find, input).units)
    ensures Extract(find, input).rest == if find(buf).Nothing? then [] else buf
  {
  }

  lemma ProgressStart<T>(find: Finder, decode: bytes -> Option<T>, input: bytes)
    ensures Progress(find, decode, input, [], input)
  {
  }

  /** r is s without some first bytes in which no unit can start. */
  ghost predicate Drops(find: Finder, s: bytes, r: bytes) {
    s == r || exists gap :: find(gap).Nothing? && s == gap + r
  }

  lemma DropsTransitive(find: Finder, s: bytes, r: bytes, q: bytes)
    requires Lawful(find) && Drops(find, s, r) && Drops(find, r, q)
    ensures Drops(find, s, q)
  {
    if s != r && r != q {
      var a :| find(a).Nothing? && s == a + r;
      var b :| find(b).Nothing? && r == b + q;
      assert s == (a + b) + q;
      assert find(a + b).Nothing?;
    }
  }

  lemma ExtractAt(find: Finder, buf: bytes, unit: bytes, rest: bytes)
    requires find(buf).Unit? && find(buf).Within(|buf|)
    requires unit == buf[find(buf).start..find(buf).stop] && rest == buf[find(buf).next..]
    ensures var x := Extract(find, rest); Extract(find, buf) == Extraction([unit] + x.units, x.rest)
  {
  }

  lemma ExtractUnit(find: Finder, a: bytes, b: bytes, start: nat, stop: nat, next: nat)
    requires find(a) == find(a + b) == Unit(start, stop, next) && find(a).Within(|a|)
    ensures var x := Extract(find, a[next..] + b);
            Extract(find, a + b) == Extraction([a[start..stop]] + x.units, x.rest)
  {
    assert (a + b)[next..] == a[next..] + b;
    assert (a + b)[start..stop] == a[start..stop];
  }

  lemma ExtractShifted(find: Finder, gap: bytes, buf: bytes, start: nat, stop: nat, next: nat)
    requires find(buf) == Unit(start, stop, next) && find(buf).Within(|buf|)
    requires find(gap + buf) == Unit(|gap| + start, |gap| + stop, |gap| + next)
    ensures Extract(find, gap + buf) == Extract(find, buf)
  {
    var unit, rest := buf[start..stop], buf[next..];
    ExtractAt(find, buf, unit, rest);
    assert unit == (gap + buf)[|gap| + start..|gap| + stop] by {
      SliceShifted(gap, buf, start, stop);
    }
    assert rest == (gap + buf)[|gap| + next..] by {
      DropShifted(gap, buf, next);
    }
    ExtractAt(find, gap + buf, unit, rest);
  }

  lemma ExtractSkips(find: Finder, gap: bytes, buf: bytes)
    requires Lawful(find) && find(gap).Nothing?
    ensures Extract(find, gap + buf).units == Extract(find, buf).units
    ensures Drops(find, Extract(find, gap + buf).rest, Extract(find, buf).rest)
  {
    assert find(gap + buf) == Shift(|gap|, find(buf));
    match find(buf) {
      case Nothing =>
      case Unfinished =>
      case Unit(start, stop, next) =>
        ExtractShifted(find, gap, buf, start, stop, next);
    }
  }

  /** Processing a, then its leftover followed by b, is processing a + b. */
  lemma {:induction false} ExtractAppend(find: Finder, a: bytes, b: bytes)
    requires Lawful(find)
    ensures Extract(find, a + b).units == Extract(find, a).units + Extract(find, Extract(find, a).rest + b).units
    ensures Drops(find, Extract(find, a + b).rest, Extract(find, Extract(find, a).rest + b).rest)
    decreases |a|
  {
    match find(a) {
      case Nothing =>
        ExtractSkips(find, a, b);
        assert [] + b == b;
      case Unfinished =>
      case Unit(start, stop, next) =>
        assert find(a + b) == find(a);
        ExtractUnit(find, a, b, start, stop, next);
        ExtractAppend(find, a[next..], b);
        var x := Extract(find, a[next..]);
        Assoc([a[start..stop]], x.units, Extract(find, x.rest + b).units);
    }
  }

  /** Bytes that Drops forgets have no effect on anything decoded later. */
  lemma DroppedAreDead(find: Finder, s: bytes, r: bytes, b: bytes)
    requires Lawful(find) && Drops(find, s, r)
    ensures Extract(find, s + b).units == Extract(find, r + b).units
    ensures Drops(find, Extract(find, s + b).rest, Extract(find, r + b).rest)
  {
    if s != r {
      var gap :| find(gap).Nothing? && s == gap + r;
      assert s + b == gap + (r + b);
      ExtractSkips(find, gap, r + b);
    }
  }

  /**
    One turn of a read loop: with `leftover` kept from the bytes `before`, decoding the leftover
    and the new bytes continues exactly where decoding all bytes in one piece would be.
   */
  lemma ReadStep(find: Finder, before: bytes, leftover: bytes, piece: bytes)
    requires Lawful(find) && Drops(find, Extract(find, before).rest, leftover)
    ensures Extract(find, before + piece).units
         == Extract(find, before).units + Extract(find, leftover + piece).units
    ensures Drops(find, Extract(find, before + piece).rest, Extract(find, leftover + piece).rest)
  {
    var kept := Extract(find, before).rest;
    ExtractAppend(find, before, piece);
    DroppedAreDead(find, kept, leftover, piece);
    DropsTransitive(find, Extract(find, before + piece).rest,
                    Extract(find, kept + piece).rest, Extract(find, leftover + piece).rest);
  }

  // ----- decoding what was framed

  /** A unit with the bytes in front of it and the terminator behind it. */
  datatype Frame = Frame(gap: bytes, unit: bytes, end: bytes) {
    function Text(): bytes { gap + unit + end }
  }

  /** find sees the frame's unit at the front of a stream, whatever follows. */
  ghost predicate Recognizes(find: Finder, f: Frame) {
    f.Text() != [] && forall tail :: find(f.Text() + tail) == Unit(|f.gap|, |f.gap| + |f.unit|, |f.Text()|)
  }

  function Wire(fs: seq<Frame>): bytes {
    if fs == [] then [] else fs[0].Text() + Wire(fs[1..])
  }

  function Units(fs: seq<Frame>): seq<bytes> {
    if fs == [] then [] else [fs[0].unit] + Units(fs[1..])
  }

  lemma ExtractFrame(find: Finder, f: Frame, tail: bytes)
    requires Recognizes(find, f)
    ensures Extract(find, f.Text() + tail).units == [f.unit] + Extract(find, tail).units
  {
    var buf := f.Text() + tail;
    assert buf[|f.gap|..|f.gap| + |f.unit|] == f.unit;
    assert buf[|f.Text()|..] == tail;
  }

  /** A stream of recognized frames is cut into exactly their units. */
  lemma {:induction false} ExtractFrames(find: Finder, fs: seq<Frame>, tail: bytes)
    requires forall f :: f in fs ==> Recognizes(find, f)
    ensures Extract(find, Wire(fs) + tail).units == Units(fs) + Extract(find, tail).units
  {
    if fs == [] {
      assert Wire(fs) + tail == tail;
    } else {
      var f, more := fs[0], Wire(fs[1..]) + tail;
      assert f in fs;
      Assoc(f.Text(), Wire(fs[1..]), tail);
      ExtractFrame(find, f, more);
      ExtractFrames(find, fs[1..], tail);
      Assoc([f.unit], Units(fs[1..]), Extract(find, tail).units);
    }
  }
}
