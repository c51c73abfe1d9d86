/** Bytes, options and the two list operations shared by the stream decoders. */
module Common {

  newtype byte = x: int | 0 <= x < 256
  type bytes = seq<byte>

  datatype Option<+T> = None | Some(value: T)

  datatype Usage = Usage(prompt: int, completion: int, total: int)

  /** provider.StreamChunk without its error field, which no decoder here sets. */
  datatype StreamChunk = StreamChunk(delta: string, finish: Option<string>, usage: Option<Usage>)

  const TAB: byte := 0x09
  const LF: byte := 0x0A
  const CR: byte := 0x0D
  const SPACE: byte := 0x20
  const QUOTE: byte := 0x22
  const COMMA: byte := 0x2C
  const COLON: byte := 0x3A
  const LBRACKET: byte := 0x5B
  const BACKSLASH: byte := 0x5C
  const RBRACKET: byte := 0x5D
  const LBRACE: byte := 0x7B
  const RBRACE: byte := 0x7D

  /** The bytes "data: ". */
  const DATA_SPACE: bytes := [0x64, 0x61, 0x74, 0x61, 0x3A, 0x20]
  /** The bytes "[DONE]". */
  const DONE: bytes := [0x5B, 0x44, 0x4F, 0x4E, 0x45, 0x5D]

  /** b stands at r and nowhere before. */
  predicate FirstAt(s: bytes, b: byte, r: int) {
    0 <= r < |s| && s[r] == b && forall i :: 0 <= i < r ==> s[i] != b
  }

  lemma {:induction false} FirstExists(s: bytes, b: byte, n: nat)
    requires n <= |s| && exists i :: 0 <= i < n && s[i] == b
    ensures exists r :: FirstAt(s, b, r)
  {
    var i :| 0 <= i < n && s[i] == b;
    if exists j :: 0 <= j < i && s[j] == b {
      FirstExists(s, b, i);
    } else {
      assert FirstAt(s, b, i);
    }
  }

  /** First position of b in s, or -1. */
  function IndexByte(s: bytes, b: byte): (r: int)
    ensures if b in s then FirstAt(s, b, r) else r == -1
  {
    if b in s then
      FirstExists(s, b, |s|);
      var r :| FirstAt(s, b, r);
      r
    else -1
  }

  lemma IndexByteUnique(s: bytes, b: byte, k: nat)
    requires k < |s| && s[k] == b && b !in s[..k]
    ensures IndexByte(s, b) == k
  {
    assert FirstAt(s, b, k) by {
      forall i | 0 <= i < k ensures s[i] != b {
        assert s[i] in s[..k];
      }
    }
  }

  /** A first occurrence is not moved by what comes later. */
  lemma IndexBytePrefix(a: bytes, c: bytes, b: byte)
    ensures IndexByte(a, b) >= 0 ==> IndexByte(a + c, b) == IndexByte(a, b)
  {
    var k := IndexByte(a, b);
    if k >= 0 {
      assert FirstAt(a + c, b, k);
    }
  }

  function Emitted<T>(o: Option<T>): seq<T> {
    match o case None => [] case Some(y) => [y]
  }

  /** Keeps the values f produces, in order. */
  function Collect<A, B>(f: A -> Option<B>, xs: seq<A>): seq<B> {
    if xs == [] then []
    else Emitted(f(xs[0])) + Collect(f, xs[1..])
  }

  lemma CollectCons<A, B>(f: A -> Option<B>, x: A, xs: seq<A>)
    ensures Collect(f, [x] + xs) == Emitted(f(x)) + Collect(f, xs)
  {
    assert ([x] + xs)[1..] == xs;
  }

  lemma {:induction false} CollectAppend<A, B>(f: A -> Option<B>, xs: seq<A>, ys: seq<A>)
    ensures Collect(f, xs + ys) == Collect(f, xs) + Collect(f, ys)
  {
    if xs == [] {
      assert xs + ys == ys;
    } else {
      assert (xs + ys)[1..] == xs[1..] + ys;
      CollectAppend(f, xs[1..], ys);
    }
  }

  /** The text a sequence of chunks carries. */
  function TextOf(cs: seq<StreamChunk>): string {
    if cs == [] then "" else cs[0].delta + TextOf(cs[1..])
  }

  /** The pieces of text that inputs carry, one after the other. */
  function Joined<A>(text: A -> string, xs: seq<A>): string {
    if xs == [] then "" else text(xs[0]) + Joined(text, xs[1..])
  }

  /** Decoding keeps the text: if each input's chunk carries its text and no chunk means no text, so do all together. */
  lemma {:induction false} TextKept<A(!new)>(decode: A -> Option<StreamChunk>, text: A -> string, xs: seq<A>)
    requires forall x :: text(x) == if decode(x).Some? then decode(x).value.delta else ""
    ensures TextOf(Collect(decode, xs)) == Joined(text, xs)
  {
    if xs != [] {
      TextKept(decode, text, xs[1..]);
      var c, rest := decode(xs[0]), Collect(decode, xs[1..]);
      if c.Some? {
        assert ([c.value] + rest)[1..] == rest;
      } else {
        assert [] + rest == rest;
      }
    }
  }

  lemma Assoc<T>(a: seq<T>, b: seq<T>, c: seq<T>)
    ensures a + (b + c) == a + b + c
  {
  }

  lemma DropShifted<T>(a: seq<T>, b: seq<T>, i: nat)
    requires i <= |b|
    ensures (a + b)[|a| + i..] == b[i..]
  {
  }

  lemma SliceShifted<T>(a: seq<T>, b: seq<T>, i: nat, j: nat)
    requires i <= j <= |b|
    ensures (a + b)[|a| + i..|a| + j] == b[i..j]
  {
  }

  /** The integers from a up to, not including, b. */
  function Interval(a: int, b: int): (r: set<int>)
    requires a <= b
    ensures |r| == b - a && forall x :: x in r <==> a <= x < b
    decreases b - a
  {
    if a == b then {} else Interval(a, b - 1) + {b - 1}
  }

  lemma SubsetSize<T>(a: set<T>, b: set<T>)
    requires a <= b
    ensures |a| <= |b|
  {
    assert b == a + (b - a);
  }

  function Flatten<T>(xss: seq<seq<T>>): seq<T> {
    if xss == [] then [] else xss[0] + Flatten(xss[1..])
  }

  lemma {:induction false} FlattenAppend<T>(xss: seq<seq<T>>, yss: seq<seq<T>>)
    ensures Flatten(xss + yss) == Flatten(xss) + Flatten(yss)
  {
    if xss == [] {
      assert xss + yss == yss;
    } else {
      assert (xss + yss)[1..] == xss[1..] + yss;
      FlattenAppend(xss[1..], yss);
    }
  }

  lemma FlattenSingle<T>(xss: seq<seq<T>>, xs: seq<T>)
    ensures Flatten(xss + [xs]) == Flatten(xss) + xs
  {
    FlattenAppend(xss, [xs]);
    assert Flatten([xs]) == xs + Flatten<T>([]);
  }
}
