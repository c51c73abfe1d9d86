/**
  Sorting as the gateway uses it: an insertion sort whose result is characterised completely by where
  each input position ends up. sort.SliceStable and the hand-written sort of internal/mlrouter/scorer.go
  both have this result; sort.Slice promises less.
 */
module StableSort {

  /** less is a strict weak order: what Go's sort functions require of their argument. */
  ghost predicate StrictWeak<T(!new)>(less: (T, T) -> bool) {
    && (forall a, b :: less(a, b) ==> !less(b, a))
    && (forall a, b, c {:trigger less(a, b), less(b, c), less(a, c)} :: !less(a, b) && !less(b, c) ==> !less(a, c))
  }

  predicate Sorted<T>(less: (T, T) -> bool, s: seq<T>) {
    forall i, j :: 0 <= i < j < |s| ==> !less(s[j], s[i])
  }

  /** Where x goes when it moves left from the end of t past everything it is less than. */
  function Slot<T>(less: (T, T) -> bool, t: seq<T>, x: T): (q: nat)
    ensures q <= |t|
    ensures forall p :: q <= p < |t| ==> less(x, t[p])
    ensures q > 0 ==> !less(x, t[q - 1])
  {
    if t == [] || !less(x, t[|t| - 1]) then |t| else Slot(less, t[..|t| - 1], x)
  }

  function Insert<T>(less: (T, T) -> bool, t: seq<T>, x: T): seq<T> {
    var q := Slot(less, t, x);
    t[..q] + [x] + t[q..]
  }

  function Sort<T>(less: (T, T) -> bool, s: seq<T>): (r: seq<T>)
    ensures |r| == |s|
  {
    if s == [] then [] else Insert(less, Sort(less, s[..|s| - 1]), s[|s| - 1])
  }

  lemma SortShort<T>(less: (T, T) -> bool, s: seq<T>)
    requires |s| <= 1
    ensures Sort(less, s) == s
  {
    if |s| == 1 {
      assert s[..0] == [];
    }
  }

  function Shifted(d: seq<nat>, q: nat): (r: seq<nat>)
    ensures |r| == |d| && forall i :: 0 <= i < |d| ==> r[i] == if d[i] < q then d[i] else d[i] + 1
  {
    seq(|d|, i requires 0 <= i < |d| => if d[i] < q then d[i] else d[i] + 1)
  }

  /** The position each input position is sent to. */
  function Dest<T>(less: (T, T) -> bool, s: seq<T>): (d: seq<nat>)
    ensures |d| == |s|
  {
    if s == [] then []
    else
      var q := Slot(less, Sort(less, s[..|s| - 1]), s[|s| - 1]);
      Shifted(Dest(less, s[..|s| - 1]), q) + [q]
  }

  /** d sends every position of s to a different position of r holding the same element. */
  predicate Rearranges<T(==)>(s: seq<T>, r: seq<T>, d: seq<nat>) {
    && |d| == |s| == |r|
    && (forall i :: 0 <= i < |s| ==> d[i] < |r| && r[d[i]] == s[i])
    && (forall i, j :: 0 <= i < j < |s| ==> d[i] != d[j])
  }

  /** The later of two positions overtakes the earlier exactly when its element is strictly less. */
  predicate StableFor<T>(less: (T, T) -> bool, s: seq<T>, d: seq<nat>)
    requires |d| == |s|
  {
    forall i, j :: 0 <= i < j < |s| ==> (d[i] < d[j] <==> !less(s[j], s[i]))
  }

  lemma SlotSplits<T(!new)>(less: (T, T) -> bool, t: seq<T>, x: T, p: nat)
    requires StrictWeak(less) && Sorted(less, t) && p < |t|
    ensures p < Slot(less, t, x) <==> !less(x, t[p])
  {
    var q := Slot(less, t, x);
    if p + 1 < q {
      assert !less(t[q - 1], t[p]) && !less(x, t[q - 1]);
      var _ := less(x, t[p]);
    }
  }

  lemma InsertAt<T>(less: (T, T) -> bool, t: seq<T>, x: T, p: nat)
    requires p < |t|
    ensures var q := Slot(less, t, x);
            Insert(less, t, x)[q] == x && Insert(less, t, x)[if p < q then p else p + 1] == t[p]
  {
  }

  /** Insertion sort rearranges stably. */
  lemma {:induction false} SortStable<T(!new)>(less: (T, T) -> bool, s: seq<T>)
    requires StrictWeak(less)
    ensures Sorted(less, Sort(less, s))
    ensures Rearranges(s, Sort(less, s), Dest(less, s)) && StableFor(less, s, Dest(less, s))
  {
    if s != [] {
      SortStable(less, s[..|s| - 1]);
      StableStep(less, s);
      SortedStep(less, Sort(less, s[..|s| - 1]), s[|s| - 1]);
    }
  }

  lemma SortedStep<T(!new)>(less: (T, T) -> bool, t: seq<T>, x: T)
    requires StrictWeak(less) && Sorted(less, t)
    ensures Sorted(less, Insert(less, t, x))
  {
    var q, r := Slot(less, t, x), Insert(less, t, x);
    forall i, j | 0 <= i < j < |r| ensures !less(r[j], r[i]) {
      if j == q {
        SlotSplits(less, t, x, i);
      } else if i == q {
        assert less(x, t[j - 1]);
      } else {
        var i', j' := if i < q then i else i - 1, if j < q then j else j - 1;
        assert r[i] == t[i'] && r[j] == t[j'];
      }
    }
  }

  lemma StableStep<T(!new)>(less: (T, T) -> bool, s: seq<T>)
    requires StrictWeak(less) && s != []
    requires var rest := s[..|s| - 1];
             && Sorted(less, Sort(less, rest))
             && Rearranges(rest, Sort(less, rest), Dest(less, rest)) && StableFor(less, rest, Dest(less, rest))
    ensures Rearranges(s, Sort(less, s), Dest(less, s)) && StableFor(less, s, Dest(less, s))
  {
    var rest, x := s[..|s| - 1], s[|s| - 1];
    var t, d := Sort(less, rest), Dest(less, rest);
    assert s == rest + [x];
    InsertPlaces(less, rest, t, d, x);
    ExtendRearrangement(rest, x, Insert(less, t, x), d, Slot(less, t, x));
    ExtendStable(less, rest, x, d, Slot(less, t, x));
  }

  lemma InsertPlaces<T(!new)>(less: (T, T) -> bool, s: seq<T>, t: seq<T>, d: seq<nat>, x: T)
    requires StrictWeak(less) && Sorted(less, t) && Rearranges(s, t, d)
    ensures Insert(less, t, x)[Slot(less, t, x)] == x
    ensures forall i :: 0 <= i < |s| ==>
              && Insert(less, t, x)[if d[i] < Slot(less, t, x) then d[i] else d[i] + 1] == s[i]
              && (d[i] < Slot(less, t, x) <==> !less(x, s[i]))
  {
    forall i | 0 <= i < |s|
      ensures Insert(less, t, x)[if d[i] < Slot(less, t, x) then d[i] else d[i] + 1] == s[i]
      ensures d[i] < Slot(less, t, x) <==> !less(x, s[i])
    {
      assert t[d[i]] == s[i];
      InsertAt(less, t, x, d[i]);
      SlotSplits(less, t, x, d[i]);
    }
  }

  lemma ExtendRearrangement<T>(s: seq<T>, x: T, r: seq<T>, d: seq<nat>, q: nat)
    requires |d| == |s| && |r| == |s| + 1 && q < |r| && r[q] == x
    requires forall i :: 0 <= i < |s| ==> d[i] < |s| && r[if d[i] < q then d[i] else d[i] + 1] == s[i]
    requires forall i, j :: 0 <= i < j < |s| ==> d[i] != d[j]
    ensures Rearranges(s + [x], r, Shifted(d, q) + [q])
  {
  }

  lemma ExtendStable<T>(less: (T, T) -> bool, s: seq<T>, x: T, d: seq<nat>, q: nat)
    requires |d| == |s| && StableFor(less, s, d)
    requires forall i :: 0 <= i < |s| ==> (d[i] < q <==> !less(x, s[i]))
    ensures StableFor(less, s + [x], Shifted(d, q) + [q])
  {
  }

  lemma {:induction false} SortPermutes<T>(less: (T, T) -> bool, s: seq<T>)
    ensures multiset(Sort(less, s)) == multiset(s)
  {
    if s != [] {
      var rest, x := s[..|s| - 1], s[|s| - 1];
      SortPermutes(less, rest);
      InsertPermutes(less, Sort(less, rest), x);
      assert s == rest + [x];
      assert multiset(rest + [x]) == multiset(rest) + multiset{x};
    }
  }

  lemma InsertPermutes<T>(less: (T, T) -> bool, t: seq<T>, x: T)
    ensures multiset(Insert(less, t, x)) == multiset(t) + multiset{x}
  {
    var q := Slot(less, t, x);
    assert t == t[..q] + t[q..];
  }

  // ----- the result is the only one a stable sort can have

  function Values(d: seq<nat>): set<nat> {
    set v | v in d
  }

  lemma {:induction false} DistinctSize(d: seq<nat>)
    requires forall i, j :: 0 <= i < j < |d| ==> d[i] != d[j]
    ensures |Values(d)| == |d|
  {
    if d != [] {
      var rest, v := d[..|d| - 1], d[|d| - 1];
      DistinctSize(rest);
      assert Values(d) == Values(rest) + {v};
    }
  }

  /** The numbers below n. */
  function Below(n: nat): (r: set<nat>)
    ensures |r| == n && forall v: nat :: v in r <==> v < n
  {
    if n == 0 then {} else Below(n - 1) + {n - 1}
  }

  /** A rearrangement reaches every position. */
  lemma Onto<T>(s: seq<T>, r: seq<T>, d: seq<nat>, p: nat) returns (i: nat)
    requires Rearranges(s, r, d) && p < |r|
    ensures i < |d| && d[i] == p
  {
    DistinctSize(d);
    var range := Below(|d|);
    assert Values(d) <= range;
    assert range - Values(d) == {} by {
      assert |range| == |range - Values(d)| + |Values(d)| by {
        assert range == (range - Values(d)) + Values(d);
      }
    }
    assert p in range;
    assert p in Values(d);
    i :| i < |d| && d[i] == p;
  }

  function Unshifted(d: seq<nat>, q: nat): (r: seq<nat>)
    requires forall i :: 0 <= i < |d| ==> d[i] != q
    ensures |r| == |d| && forall i :: 0 <= i < |d| ==> r[i] == if d[i] < q then d[i] else d[i] - 1
  {
    seq(|d|, i requires 0 <= i < |d| => if d[i] < q then d[i] else d[i] - 1)
  }

  /** Without the last input element, what is left is still a stable rearrangement. */
  lemma DropLast<T>(less: (T, T) -> bool, s: seq<T>, x: T, r: seq<T>, d: seq<nat>, q: nat)
    requires q < |r| && Rearranges(s + [x], r, d + [q]) && StableFor(less, s + [x], d + [q])
    ensures forall i :: 0 <= i < |d| ==> d[i] != q
    ensures Rearranges(s, r[..q] + r[q + 1..], Unshifted(d, q)) && StableFor(less, s, Unshifted(d, q))
  {
    assert (d + [q])[|s|] == q && (s + [x])[|s|] == x;
    forall i | 0 <= i < |d| ensures d[i] == (d + [q])[i] && s[i] == (s + [x])[i] && d[i] != q {
      assert (d + [q])[i] != (d + [q])[|s|];
    }
    forall i | 0 <= i < |d| ensures (r[..q] + r[q + 1..])[Unshifted(d, q)[i]] == s[i] {
      assert r[d[i]] == s[i];
    }
  }

  /** The last input element stands at its slot. */
  lemma LastAtSlot<T(!new)>(less: (T, T) -> bool, s: seq<T>, x: T, r: seq<T>, d: seq<nat>, q: nat)
    requires q < |r| && Rearranges(s + [x], r, d + [q]) && StableFor(less, s + [x], d + [q])
    ensures r[q] == x
    ensures forall p :: q < p < |r| ==> less(x, r[p])
    ensures q > 0 ==> !less(x, r[q - 1])
  {
    var s', d' := s + [x], d + [q];
    assert d'[|s|] == q && s'[|s|] == x && r[d'[|s|]] == x;
    forall p | 0 <= p < |r| && p != q ensures p < q <==> !less(x, r[p]) {
      var i := Onto(s', r, d', p);
      assert i < |s| && r[d'[i]] == s'[i];
    }
  }

  /** Any stable rearrangement of s is Sort(less, s): sort.SliceStable has no other result to return. */
  lemma {:induction false} StableUnique<T(!new)>(less: (T, T) -> bool, s: seq<T>, r: seq<T>, d: seq<nat>)
    requires Rearranges(s, r, d) && StableFor(less, s, d)
    ensures r == Sort(less, s)
  {
    if s != [] {
      var n := |s| - 1;
      var rest, x, e, q := s[..n], s[n], d[..n], d[n];
      assert s == rest + [x] && d == e + [q];
      DropLast(less, rest, x, r, e, q);
      LastAtSlot(less, rest, x, r, e, q);
      StableUnique(less, rest, r[..q] + r[q + 1..], Unshifted(e, q));
      InsertUnique(less, r, x, q);
    }
  }

  lemma InsertUnique<T>(less: (T, T) -> bool, r: seq<T>, x: T, q: nat)
    requires q < |r| && r[q] == x
    requires (forall p :: q < p < |r| ==> less(x, r[p])) && (q > 0 ==> !less(x, r[q - 1]))
    ensures Insert(less, r[..q] + r[q + 1..], x) == r
  {
    var t := r[..q] + r[q + 1..];
    SlotUnique(less, t, x, q);
    assert t[..q] == r[..q] && t[q..] == r[q + 1..];
  }

  lemma SlotUnique<T>(less: (T, T) -> bool, t: seq<T>, x: T, q: nat)
    requires q <= |t| && (forall p :: q <= p < |t| ==> less(x, t[p])) && (q > 0 ==> !less(x, t[q - 1]))
    ensures Slot(less, t, x) == q
  {
  }
}
