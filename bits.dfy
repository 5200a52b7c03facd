/** Bits and the little-endian (least significant first) value of a bit list,
    the order in which both circuits and both parties list the bits of a number. */
module Bits {

  /** A bit, written as the integer 0 or 1 as the source writes it. */
  type Bit = x: int | 0 <= x <= 1

  function Pow2(n: nat): (r: nat)
    ensures r >= 1
  {
    if n == 0 then 1 else 2 * Pow2(n - 1)
  }

  /** The number a least-significant-first bit list stands for. */
  function Val(s: seq<Bit>): nat
  {
    if |s| == 0 then 0 else s[0] + 2 * Val(s[1..])
  }

  function Zeros(n: nat): (r: seq<Bit>)
    ensures |r| == n
    ensures forall i :: 0 <= i < n ==> r[i] == 0
  {
    seq(n, i => 0)
  }

  /** Appending a most significant bit adds it at weight 2^|s|. */
  lemma {:induction false} ValAppend(s: seq<Bit>, x: Bit)
    ensures Val(s + [x]) == Val(s) + Pow2(|s|) * x
  {
    if |s| == 0 {
      assert (s + [x])[1..] == [];
    } else {
      assert (s + [x])[1..] == s[1..] + [x];
      ValAppend(s[1..], x);
    }
  }

  /** The value of the first i + 1 bits extends the value of the first i. */
  lemma ValPrefix(s: seq<Bit>, i: nat)
    requires i < |s|
    ensures Val(s[..i + 1]) == Val(s[..i]) + Pow2(i) * s[i]
  {
    assert s[..i + 1] == s[..i] + [s[i]];
    ValAppend(s[..i], s[i]);
  }

  /** A list of n bits stands for a number below 2^n. */
  lemma {:induction false} ValBound(s: seq<Bit>)
    ensures Val(s) < Pow2(|s|)
  {
    if |s| > 0 {
      ValBound(s[1..]);
    }
  }

  lemma {:induction false} ValOfZeros(n: nat)
    ensures Val(Zeros(n)) == 0
  {
    if n > 0 {
      assert Zeros(n)[1..] == Zeros(n - 1);
      ValOfZeros(n - 1);
    }
  }

  /** Zero padding at the most significant end does not change the value. */
  lemma {:induction false} ValZeros(s: seq<Bit>, n: nat)
    ensures Val(s + Zeros(n)) == Val(s)
  {
    if |s| == 0 {
      assert s + Zeros(n) == Zeros(n);
      ValOfZeros(n);
    } else {
      assert (s + Zeros(n))[1..] == s[1..] + Zeros(n);
      ValZeros(s[1..], n);
    }
  }

  lemma {:induction false} Pow2Monotone(m: nat, n: nat)
    requires m <= n
    ensures Pow2(m) <= Pow2(n)
  {
    if m < n {
      Pow2Monotone(m, n - 1);
    }
  }

  /** The bits of several values of equal width, one value after another. */
  function Concat(vs: seq<seq<Bit>>): seq<Bit>
    decreases |vs|
  {
    if |vs| == 0 then [] else Concat(vs[..|vs| - 1]) + vs[|vs| - 1]
  }

  /** With every value b bits wide, the concatenation has b bits per value. */
  lemma {:induction false} ConcatLength(vs: seq<seq<Bit>>, b: nat)
    requires forall v :: 0 <= v < |vs| ==> |vs[v]| == b
    ensures |Concat(vs)| == b * |vs|
    decreases |vs|
  {
    if |vs| > 0 {
      ConcatLength(vs[..|vs| - 1], b);
      assert b * |vs| == b * (|vs| - 1) + b;
    }
  }

  /** With every value b bits wide, bit t of value v is at position b*v + t. */
  lemma {:induction false} ConcatAt(vs: seq<seq<Bit>>, b: nat, v: nat, t: nat)
    requires forall u :: 0 <= u < |vs| ==> |vs[u]| == b
    requires v < |vs| && t < b
    ensures b * v + t < |Concat(vs)| && Concat(vs)[b * v + t] == vs[v][t]
    decreases |vs|
  {
    var last := |vs| - 1;
    var init := vs[..last];
    ConcatLength(init, b);
    ConcatLength(vs, b);
    if v < last {
      ConcatAt(init, b, v, t);
      assert init[v] == vs[v];
    } else {
      assert b * v + t == |Concat(init)| + t;
    }
  }
}
