/** The input maps the two parties build for one circuit: Alice's wires to
    (key, masked bit) pairs, Bob's wires to the pair of (key, masked bit)
    entries he chooses from, Bob's wires to his clear bits, and the bit
    list of Alice's whole set in compare mode. Keys and permutation bits
    come from the garbled circuit and are opaque here. */
module Inputs {
  import opened Wrappers
  import opened Bits
  import opened Circuit
  import opened Encoding

  function Xor(x: Bit, y: Bit): Bit
  {
    if x == y then 0 else 1
  }

  /** The element of a pair that a bit indexes. */
  function Pick<T>(pair: (T, T), x: Bit): T
  {
    if x == 0 then pair.0 else pair.1
  }

  /** `_get_encr_bits(pbit, key0, key1)`: the entry for semantic bit x is
      x's key and x masked with the wire's permutation bit. */
  function EncrBits<K>(p: Bit, k0: K, k1: K): (r: ((K, Bit), (K, Bit)))
    ensures r.0.1 != r.1.1
    ensures Pick(r, 0).0 == k0 && Pick(r, 1).0 == k1
  {
    ((k0, Xor(0, p)), (k1, Xor(1, p)))
  }

  /** Whoever knows the permutation bit recovers the semantic bit from the
      masked bit of its entry, and nobody else can tell the entries apart
      by mask alone: for p = 0 the mask is the bit, for p = 1 its flip. */
  lemma EncrBitsUnmask<K>(p: Bit, k0: K, k1: K, x: Bit)
    ensures Xor(Pick(EncrBits(p, k0, k1), x).1, p) == x
    ensures Pick(EncrBits(p, k0, k1), x).1 == (if p == 0 then x else 1 - x)
  {
  }

  /** The (key, masked bit) pair Alice sends for bit x on a wire whose keys
      are pair and whose permutation bit is p. */
  function Masked<K>(pair: (K, K), p: Bit, x: Bit): (K, Bit)
  {
    (Pick(pair, x), Xor(p, x))
  }

  /** Whether every wire Alice fills has keys, a permutation bit and a bit
      of hers (otherwise the fill loop raises KeyError or IndexError). */
  predicate AliceCovered<K>(wires: seq<nat>, bits: seq<Bit>, keys: map<nat, (K, K)>, pbits: map<nat, Bit>)
  {
    |bits| >= |wires| && forall i :: 0 <= i < |wires| ==> wires[i] in keys && wires[i] in pbits
  }

  /** The value the fill loop stores for each of Alice's wires. */
  function AliceEntries<K>(wires: seq<nat>, bits: seq<Bit>, keys: map<nat, (K, K)>, pbits: map<nat, Bit>): (r: seq<(K, Bit)>)
    requires AliceCovered(wires, bits, keys, pbits)
    ensures |r| == |wires|
  {
    seq(|wires|, i requires 0 <= i < |wires| => Masked(keys[wires[i]], pbits[wires[i]], bits[i]))
  }

  /** The fill loop over Alice's wires: wire i gets the key of Alice's
      bit i and that bit masked with the wire's permutation bit. */
  method AliceInputs<K>(wires: seq<nat>, bits: seq<Bit>, keys: map<nat, (K, K)>, pbits: map<nat, Bit>)
    returns (r: Option<map<nat, (K, Bit)>>)
    ensures r.Some? <==> AliceCovered(wires, bits, keys, pbits)
    ensures r.Some? ==> r.value == Assign(wires, AliceEntries(wires, bits, keys, pbits))
  {
    var inputs: map<nat, (K, Bit)> := map[];
    for i := 0 to |wires|
      invariant forall j :: 0 <= j < i ==> j < |bits| && wires[j] in keys && wires[j] in pbits
      invariant |bits| >= i && inputs == Assign(wires[..i], seq(i, j requires 0 <= j < i => Masked(keys[wires[j]], pbits[wires[j]], bits[j])))
    {
      if i >= |bits| || wires[i] !in keys || wires[i] !in pbits {
        return None;
      }
      ghost var before := seq(i, j requires 0 <= j < i => Masked(keys[wires[j]], pbits[wires[j]], bits[j]));
      ghost var after := seq(i + 1, j requires 0 <= j < i + 1 => Masked(keys[wires[j]], pbits[wires[j]], bits[j]));
      AssignSameValues(wires[..i], before, after);
      assert wires[..i + 1][..i] == wires[..i];
      inputs := inputs[wires[i] := Masked(keys[wires[i]], pbits[wires[i]], bits[i])];
    }
    assert wires[..|wires|] == wires;
    AssignSameValues(wires, seq(|wires|, j requires 0 <= j < |wires| => Masked(keys[wires[j]], pbits[wires[j]], bits[j])),
      AliceEntries(wires, bits, keys, pbits));
    r := Some(inputs);
  }

  /** Only the values at wire positions matter to Assign. */
  lemma {:induction false} AssignSameValues<V>(ws: seq<nat>, u: seq<V>, v: seq<V>)
    requires |u| >= |ws| && |v| >= |ws|
    requires forall i :: 0 <= i < |ws| ==> u[i] == v[i]
    ensures Assign(ws, u) == Assign(ws, v)
    decreases |ws|
  {
    if |ws| > 0 {
      AssignSameValues(ws[..|ws| - 1], u, v);
    }
  }

  /** Alice's pair for her bit on a wire is the entry for that bit in the
      table `_get_encr_bits` builds for the wire, and unmasking it with the
      wire's permutation bit gives her bit back. */
  lemma AliceInputsAgree<K>(wires: seq<nat>, bits: seq<Bit>, keys: map<nat, (K, K)>, pbits: map<nat, Bit>, i: nat)
    requires AliceCovered(wires, bits, keys, pbits) && i < |wires|
    requires forall j :: i < j < |wires| ==> wires[j] != wires[i]
    ensures wires[i] in Assign(wires, AliceEntries(wires, bits, keys, pbits))
    ensures var w := wires[i];
      var entry := Assign(wires, AliceEntries(wires, bits, keys, pbits))[w];
      && entry == Pick(EncrBits(pbits[w], keys[w].0, keys[w].1), bits[i])
      && Xor(entry.1, pbits[w]) == bits[i]
  {
    AssignAt(wires, AliceEntries(wires, bits, keys, pbits), i);
  }

  /** The table of Bob's wires: every keyed wire that is one of Bob's gets
      its two (key, masked bit) pairs; None when such a wire has no
      permutation bit (KeyError). */
  function BobKeys<K>(keys: map<nat, (K, K)>, pbits: map<nat, Bit>, bobWires: seq<nat>): (r: Option<map<nat, ((K, Bit), (K, Bit))>>)
    ensures r.Some? <==> forall w :: w in keys && w in bobWires ==> w in pbits
    ensures r.Some? ==> r.value.Keys == set w | w in keys && w in bobWires
    ensures r.Some? ==> forall w :: w in r.value ==>
      Pick(r.value[w], 0).0 == keys[w].0 && Pick(r.value[w], 1).0 == keys[w].1 &&
      forall x: Bit :: Xor(Pick(r.value[w], x).1, pbits[w]) == x
  {
    if forall w :: w in keys && w in bobWires ==> w in pbits then
      Some(map w | w in keys && w in bobWires :: EncrBits(pbits[w], keys[w].0, keys[w].1))
    else None
  }

  /** Bob's clear inputs: wire i of his list maps to his bit i; None when Bob
      has fewer bits than wires (IndexError). Each wire carries the bit at
      its last position in the wire list. */
  function BobInputsClear(wires: seq<nat>, bits: seq<Bit>): (r: Option<Env>)
    ensures r.Some? <==> |bits| >= |wires|
    ensures r.Some? ==> forall w :: w in r.value <==> w in wires
    ensures r.Some? ==> forall i :: 0 <= i < |wires| && (forall j :: i < j < |wires| ==> wires[j] != wires[i]) ==>
      r.value[wires[i]] == bits[i]
  {
    if |bits| < |wires| then None
    else
      var m := Assign(wires, bits);
      AssignKeys(wires, bits);
      assert forall i :: 0 <= i < |wires| && (forall j :: i < j < |wires| ==> wires[j] != wires[i]) ==> m[wires[i]] == bits[i] by {
        forall i | 0 <= i < |wires| && (forall j :: i < j < |wires| ==> wires[j] != wires[i]) {
          AssignAt(wires, bits, i);
        }
      }
      Some(m)
  }

  /** The encodings of Alice's values at the agreed width, in set order;
      None when a value is negative. */
  function SetEncodings(values: seq<int>, width: int): (r: Option<seq<seq<Bit>>>)
    ensures r.None? <==> exists j :: 0 <= j < |values| && values[j] < 0
    ensures r.Some? ==> |r.value| == |values|
    ensures r.Some? ==> forall j :: 0 <= j < |values| ==> Encoded(values[j], width) == Some(r.value[j])
  {
    if exists j :: 0 <= j < |values| && values[j] < 0 then None
    else Some(seq(|values|, j requires 0 <= j < |values| => Encoded(values[j], width).value))
  }

  /** One more non-negative value adds its encoding after the others. */
  lemma SetEncodingsSnoc(values: seq<int>, width: int, j: nat)
    requires j < |values| && values[j] >= 0 && SetEncodings(values[..j], width).Some?
    ensures SetEncodings(values[..j + 1], width).Some?
    ensures SetEncodings(values[..j + 1], width).value ==
      SetEncodings(values[..j], width).value + [Encoded(values[j], width).value]
  {
    var init, next := values[..j], values[..j + 1];
    assert forall i :: 0 <= i < j ==> next[i] == init[i];
    assert next[j] == values[j];
  }

  /** Compare mode: Alice's bit list grows by each value of her set in
      turn, every value encoded and padded to the width. */
  method AliceSetBits(values: seq<int>, width: int) returns (r: Option<seq<Bit>>)
    ensures r.None? <==> SetEncodings(values, width).None?
    ensures r.Some? ==> r.value == Concat(SetEncodings(values, width).value)
  {
    var bits: seq<Bit> := [];
    for j := 0 to |values|
      invariant SetEncodings(values[..j], width).Some?
      invariant bits == Concat(SetEncodings(values[..j], width).value)
    {
      var encoded := EncodeValue(values[j], width);
      if encoded.None? {
        assert values[j] < 0;
        return None;
      }
      SetEncodingsSnoc(values, width, j);
      ghost var vs := SetEncodings(values[..j], width).value;
      assert (vs + [encoded.value])[..|vs|] == vs;
      bits := bits + encoded.value;
    }
    assert values[..|values|] == values;
    r := Some(bits);
  }

  /** When every value fits the width, bit t of Alice's value j sits at
      position j * width + t of her bit list, the position of the Alice
      wire the comparison circuit reads for that bit. */
  lemma AliceSetLayout(values: seq<int>, width: nat, vs: seq<seq<Bit>>, j: nat, t: nat, p: nat)
    requires forall i :: 0 <= i < |values| ==> 0 <= values[i] && BinLength(values[i]) <= width
    requires SetEncodings(values, width) == Some(vs)
    requires j < |values| && t < width && p == width * j + t
    ensures forall i :: 0 <= i < |vs| ==> |vs[i]| == width
    ensures p < |Concat(vs)| && Concat(vs)[p] == vs[j][t]
  {
    forall i | 0 <= i < |vs|
      ensures |vs[i]| == width
    {
      EncodedFits(values[i], width);
    }
    ConcatAt(vs, width, j, t);
  }
}
