/** The set-membership generator `compare(b, k)`: Alice holds k values of b
    bits each, Bob one value of b bits. Alice's bits sit on wires 1 .. b*k
    (value v, bit t on wire b*v + t + 1), Bob's on the next b wires, and
    the gates follow with consecutive ids from b*k + b + 1 in three phases:
      1. for each Alice value, an XOR/NOT pair per bit (bit equality) and an
         AND chain over the NOT wires (value equality);
      2. an OR chain over the k equality wires (the membership bit);
      3. for each bit t, an AND of bit t of every value with that value's
         equality wire, then an OR chain over those k wires.
    The outputs are the membership bit, then the b selected bits. */
module Compare {
  import opened Wrappers
  import opened Bits
  import opened Circuit

  /** Wire of bit t of Alice's value v: `alice[b*v + t]`. */
  function AliceWire(b: nat, v: nat, t: nat): nat
  {
    b * v + t + 1
  }

  /** Wire of bit t of Bob's value: `bob[t]`. */
  function BobWire(b: nat, k: nat, t: nat): nat
  {
    b * k + t + 1
  }

  /** Id of the first gate: the counter is bumped once past the last of the
      b*k + b input wires, so no id is skipped. */
  function FirstGate(b: nat, k: nat): nat
  {
    b * k + b + 1
  }

  /** First gate id of the equality block of Alice's value v; each block
      has 2b gates for the bits and b - 1 for the AND chain. */
  function BlockStart(b: nat, k: nat, v: nat): nat
    requires b >= 1
    decreases v
  {
    if v == 0 then FirstGate(b, k) else BlockStart(b, k, v - 1) + 2 * b + (b - 1)
  }

  /** The wires first, first + 2, ..., n of them. */
  function Stride2(first: nat, n: nat): (r: seq<nat>)
    ensures |r| == n
    ensures forall j :: 0 <= j < n ==> r[j] == first + 2 * j
    decreases n
  {
    if n == 0 then [] else Stride2(first, n - 1) + [first + 2 * (n - 1)]
  }

  /** The NOT wires of block v, one per bit: `not_indexes`. */
  function Nots(b: nat, k: nat, v: nat): seq<nat>
    requires b >= 1
  {
    Stride2(BlockStart(b, k, v) + 1, b)
  }

  /** The equality wire of Alice's value v: the end of its AND chain. */
  function EqWire(b: nat, k: nat, v: nat): nat
    requires b >= 1
  {
    ChainOut(Nots(b, k, v), BlockStart(b, k, v) + 2 * b)
  }

  /** The equality wires of the first m values: `equality_gates_indexes`. */
  function EqWires(b: nat, k: nat, m: nat): (r: seq<nat>)
    requires b >= 1
    ensures |r| == m
    ensures forall v :: 0 <= v < m ==> r[v] == EqWire(b, k, v)
    decreases m
  {
    if m == 0 then [] else EqWires(b, k, m - 1) + [EqWire(b, k, m - 1)]
  }

  /** First id of the membership OR chain: the end of the k blocks. */
  function OrStart(b: nat, k: nat): nat
    requires b >= 1
  {
    BlockStart(b, k, k)
  }

  /** The membership output wire. */
  function MemberWire(b: nat, k: nat): nat
    requires b >= 1 && k >= 1
  {
    ChainOut(EqWires(b, k, k), OrStart(b, k))
  }

  /** First gate id of the selection block of bit t: k AND gates, then the
      k - 1 gates of the OR chain. */
  function SelectStart(b: nat, k: nat, t: nat): nat
    requires b >= 1 && k >= 1
    decreases t
  {
    if t == 0 then OrStart(b, k) + (k - 1) else SelectStart(b, k, t - 1) + k + (k - 1)
  }

  /** The output wire of bit t of the selected value. */
  function SelectWire(b: nat, k: nat, t: nat): nat
    requires b >= 1 && k >= 1
  {
    ChainOut(Range(SelectStart(b, k, t), k), SelectStart(b, k, t) + k)
  }

  /** The XOR and NOT gates for bits 0 .. m - 1 of value v, from id first. */
  function XorNots(b: nat, k: nat, v: nat, first: nat, m: nat): seq<Gate>
    decreases m
  {
    if m == 0 then []
    else
      var x := first + 2 * (m - 1);
      XorNots(b, k, v, first, m - 1)
      + [Gate(x, XOR, [AliceWire(b, v, m - 1), BobWire(b, k, m - 1)]), Gate(x + 1, NOT, [x])]
  }

  /** The equality block of value v. */
  function Block(b: nat, k: nat, v: nat): seq<Gate>
    requires b >= 1
  {
    XorNots(b, k, v, BlockStart(b, k, v), b) + Chain(AND, Nots(b, k, v), BlockStart(b, k, v) + 2 * b)
  }

  /** The equality blocks of values 0 .. m - 1. */
  function Blocks(b: nat, k: nat, m: nat): seq<Gate>
    requires b >= 1
    decreases m
  {
    if m == 0 then [] else Blocks(b, k, m - 1) + Block(b, k, m - 1)
  }

  /** The membership OR chain. */
  function Membership(b: nat, k: nat): seq<Gate>
    requires b >= 1 && k >= 1
  {
    Chain(OR, EqWires(b, k, k), OrStart(b, k))
  }

  /** The AND gates of bit t for values 0 .. m - 1: bit t of value v masked
      by the equality wire of v. */
  function Checks(b: nat, k: nat, t: nat, m: nat): seq<Gate>
    requires b >= 1 && k >= 1
  {
    seq(m, v requires 0 <= v < m =>
      Gate(SelectStart(b, k, t) + v, AND, [AliceWire(b, v, t), EqWire(b, k, v)]))
  }

  /** The AND gates for one more value are the earlier ones and one more. */
  lemma ChecksSnoc(b: nat, k: nat, t: nat, m: nat)
    requires b >= 1 && k >= 1 && m >= 1
    ensures Checks(b, k, t, m) == Checks(b, k, t, m - 1)
      + [Gate(SelectStart(b, k, t) + m - 1, AND, [AliceWire(b, m - 1, t), EqWire(b, k, m - 1)])]
  {
  }

  /** The selection block of bit t. */
  function Select(b: nat, k: nat, t: nat): seq<Gate>
    requires b >= 1 && k >= 1
  {
    Checks(b, k, t, k) + Chain(OR, Range(SelectStart(b, k, t), k), SelectStart(b, k, t) + k)
  }

  /** The selection blocks of bits 0 .. m - 1. */
  function Selects(b: nat, k: nat, m: nat): seq<Gate>
    requires b >= 1 && k >= 1
    decreases m
  {
    if m == 0 then [] else Selects(b, k, m - 1) + Select(b, k, m - 1)
  }

  /** The selected-bit outputs of bits 0 .. m - 1. */
  function SelectWires(b: nat, k: nat, m: nat): (r: seq<nat>)
    requires b >= 1 && k >= 1
    ensures |r| == m
    ensures forall t :: 0 <= t < m ==> r[t] == SelectWire(b, k, t)
    decreases m
  {
    if m == 0 then [] else SelectWires(b, k, m - 1) + [SelectWire(b, k, m - 1)]
  }

  /** All gates of `compare(b, k)`, in emission order. */
  function CompareGates(b: nat, k: nat): seq<Gate>
    requires b >= 1 && k >= 1
  {
    Blocks(b, k, k) + Membership(b, k) + Selects(b, k, b)
  }

  /** The output list: the membership bit, then the b selected bits. */
  function CompareOutputs(b: nat, k: nat): seq<nat>
    requires b >= 1 && k >= 1
  {
    [MemberWire(b, k)] + SelectWires(b, k, b)
  }

  /** The netlist `compare(b, k)` returns when b and k are positive. */
  function CompareNetlist(b: nat, k: nat): Netlist
    requires b >= 1 && k >= 1
  {
    Netlist(Range(1, b * k), Range(b * k + 1, b), CompareOutputs(b, k), CompareGates(b, k))
  }

  /** The fold loop the generator writes three times: take ws[0] as the
      running wire (an IndexError when ws is empty), then for every further
      wire emit a gate of the given kind combining the running wire with it
      and make that gate the running wire. */
  method AppendFold(kind: GateKind, ws: seq<nat>, gates: seq<Gate>, index: nat)
    returns (gates': seq<Gate>, index': nat, out: Option<nat>)
    ensures out.None? <==> |ws| == 0
    ensures |ws| == 0 ==> gates' == gates && index' == index
    ensures |ws| >= 1 ==>
      && gates' == gates + Chain(kind, ws, index)
      && index' == index + |ws| - 1
      && out == Some(ChainOut(ws, index))
  {
    gates', index' := gates, index;
    if |ws| == 0 {
      return gates', index', None;
    }
    var running := ws[0];
    for i := 1 to |ws|
      invariant gates' == gates + Chain(kind, ws[..i], index)
      invariant index' == index + i - 1
      invariant running == ChainOut(ws[..i], index)
    {
      assert ws[..i + 1][..i] == ws[..i];
      ChainSnoc(kind, ws[..i + 1], index);
      AppendAssoc(gates, Chain(kind, ws[..i], index), [Gate(index', kind, [running, ws[i]])]);
      gates' := gates' + [Gate(index', kind, [running, ws[i]])];
      running := index';
      index' := index' + 1;
    }
    assert ws[..|ws|] == ws;
    out := Some(running);
  }

  /** The bit loop of one equality block (lines 93-100): for each bit, an
      XOR of Alice's and Bob's bit and a NOT of it, recording the NOT. */
  method EmitXorNots(b: nat, k: nat, v: nat, alice: seq<nat>, bob: seq<nat>, gates: seq<Gate>, index: nat)
    returns (gates': seq<Gate>, index': nat, nots: seq<nat>)
    requires v < k
    requires alice == Range(1, b * k) && bob == Range(b * k + 1, b)
    ensures gates' == gates + XorNots(b, k, v, index, b)
    ensures index' == index + 2 * b
    ensures nots == Stride2(index + 1, b)
  {
    gates', index', nots := gates, index, [];
    for t := 0 to b
      invariant gates' == gates + XorNots(b, k, v, index, t)
      invariant index' == index + 2 * t
      invariant nots == Stride2(index + 1, t)
    {
      AliceAt(b, k, alice, v, t);
      var xorIndex := index';
      gates' := gates' + [Gate(index', XOR, [alice[b * v + t], bob[t]])];
      index' := index' + 1;
      var notIndex := index';
      gates' := gates' + [Gate(index', NOT, [xorIndex])];
      nots := nots + [notIndex];
      index' := index' + 1;
    }
  }

  /** The AND loop of one selection block (lines 122-125): bit t of every
      Alice value masked by that value's equality wire. */
  method EmitChecks(b: nat, k: nat, t: nat, alice: seq<nat>, eqs: seq<nat>, gates: seq<Gate>, index: nat)
    returns (gates': seq<Gate>, index': nat, checks: seq<nat>)
    requires b >= 1 && k >= 1 && t < b
    requires alice == Range(1, b * k) && eqs == EqWires(b, k, k)
    requires index == SelectStart(b, k, t)
    ensures gates' == gates + Checks(b, k, t, k)
    ensures index' == index + k
    ensures checks == Range(index, k)
  {
    gates', index', checks := gates, index, [];
    for v := 0 to k
      invariant gates' == gates + Checks(b, k, t, v)
      invariant index' == index + v
      invariant checks == Range(index, v)
    {
      ChecksSnoc(b, k, t, v + 1);
      AppendAssoc(gates, Checks(b, k, t, v), [Gate(index', AND, [AliceWire(b, v, t), EqWire(b, k, v)])]);
      AliceAt(b, k, alice, v, t);
      gates' := EmitCheck(b, k, t, v, alice, eqs, gates', index');
      checks := checks + [index'];
      index' := index' + 1;
    }
  }

  /** One pass of that loop: the AND of bit t of value v with the equality
      wire of value v, with id index. */
  method EmitCheck(b: nat, k: nat, t: nat, v: nat, alice: seq<nat>, eqs: seq<nat>, gates: seq<Gate>, index: nat)
    returns (gates': seq<Gate>)
    requires v * b + t < |alice| && alice[v * b + t] == AliceWire(b, v, t)
    requires b >= 1 && v < |eqs| && eqs[v] == EqWire(b, k, v)
    ensures gates' == gates + [Gate(index, AND, [AliceWire(b, v, t), EqWire(b, k, v)])]
  {
    gates' := gates + [Gate(index, AND, [alice[v * b + t], eqs[v]])];
  }

  /** Bit t of value v is one of Alice's b*k wires, whichever way round the
      generator writes the product. */
  lemma AliceAt(b: nat, k: nat, alice: seq<nat>, v: nat, t: nat)
    requires alice == Range(1, b * k)
    requires v < k && t < b
    ensures b * v + t < |alice| && alice[b * v + t] == AliceWire(b, v, t)
    ensures v * b + t < |alice| && alice[v * b + t] == AliceWire(b, v, t)
  {
    assert b * v + t < b * v + b == b * (v + 1);
    assert b * (v + 1) <= b * k;
  }

  /** One pass of the value loop (lines 92-108): the XOR/NOT pairs, then
      the AND chain over the NOT wires, whose end is the equality wire of
      value v. The chain's `not_indexes[0]` fails when b is 0. */
  method EmitBlock(b: nat, k: nat, v: nat, alice: seq<nat>, bob: seq<nat>, gates: seq<Gate>, index: nat)
    returns (gates': seq<Gate>, index': nat, eq: Option<nat>)
    requires v < k
    requires alice == Range(1, b * k) && bob == Range(b * k + 1, b)
    requires b >= 1 ==> index == BlockStart(b, k, v)
    ensures eq.None? <==> b == 0
    ensures b >= 1 ==>
      && gates' == gates + Block(b, k, v)
      && index' == BlockStart(b, k, v + 1)
      && eq == Some(EqWire(b, k, v))
  {
    var nots;
    gates', index', nots := EmitXorNots(b, k, v, alice, bob, gates, index);
    gates', index', eq := AppendFold(AND, nots, gates', index');
  }

  /** One pass of the bit loop of the selection phase (lines 120-133): the
      masked bits of every value, then the OR chain over them. */
  method EmitSelect(b: nat, k: nat, t: nat, alice: seq<nat>, eqs: seq<nat>, gates: seq<Gate>, index: nat)
    returns (gates': seq<Gate>, index': nat, out: nat)
    requires b >= 1 && k >= 1 && t < b
    requires alice == Range(1, b * k) && eqs == EqWires(b, k, k)
    requires index == SelectStart(b, k, t)
    ensures gates' == gates + Select(b, k, t)
    ensures index' == SelectStart(b, k, t + 1)
    ensures out == SelectWire(b, k, t)
  {
    var checks, firstOrIndex;
    gates', index', checks := EmitChecks(b, k, t, alice, eqs, gates, index);
    gates', index', firstOrIndex := AppendFold(OR, checks, gates', index');
    out := firstOrIndex.value;
  }

  /** The value loop (lines 90-108): one equality block per Alice value,
      collecting the equality wires. Fails when b is 0 and k is not. */
  method EmitBlocks(b: nat, k: nat, alice: seq<nat>, bob: seq<nat>, gates: seq<Gate>, index: nat)
    returns (gates': seq<Gate>, index': nat, eqs: Option<seq<nat>>)
    requires alice == Range(1, b * k) && bob == Range(b * k + 1, b)
    requires index == FirstGate(b, k)
    ensures eqs.None? <==> b == 0 && k >= 1
    ensures b == 0 && k == 0 ==> eqs == Some([]) && gates' == gates && index' == index
    ensures b >= 1 ==>
      && gates' == gates + Blocks(b, k, k)
      && index' == OrStart(b, k)
      && eqs == Some(EqWires(b, k, k))
  {
    var found: seq<nat> := [];
    gates', index' := gates, index;
    for v := 0 to k
      invariant b == 0 ==> v == 0 && gates' == gates && index' == index && found == []
      invariant b >= 1 ==> index' == BlockStart(b, k, v) && gates' == gates + Blocks(b, k, v) && found == EqWires(b, k, v)
    {
      var andIndex;
      ghost var before := gates';
      gates', index', andIndex := EmitBlock(b, k, v, alice, bob, gates', index');
      if andIndex.None? {
        return gates', index', None;
      }
      AppendAssoc(gates, Blocks(b, k, v), Block(b, k, v));
      found := found + [andIndex.value];
    }
    eqs := Some(found);
  }

  /** The bit loop of the selection phase (lines 120-133): one selection
      block per bit, each adding its output wire. */
  method EmitSelects(b: nat, k: nat, alice: seq<nat>, eqs: seq<nat>, gates: seq<Gate>, index: nat, outputs: seq<nat>)
    returns (gates': seq<Gate>, index': nat, outputs': seq<nat>)
    requires b >= 1 && k >= 1
    requires alice == Range(1, b * k) && eqs == EqWires(b, k, k)
    requires index == SelectStart(b, k, 0)
    ensures gates' == gates + Selects(b, k, b)
    ensures index' == SelectStart(b, k, b)
    ensures outputs' == outputs + SelectWires(b, k, b)
  {
    gates', index', outputs' := gates, index, outputs;
    for t := 0 to b
      invariant index' == SelectStart(b, k, t)
      invariant gates' == gates + Selects(b, k, t)
      invariant outputs' == outputs + SelectWires(b, k, t)
    {
      var firstOrIndex;
      gates', index', firstOrIndex := EmitSelect(b, k, t, alice, eqs, gates', index');
      AppendAssoc(gates, Selects(b, k, t), Select(b, k, t));
      AppendAssoc(outputs, SelectWires(b, k, t), [firstOrIndex]);
      outputs' := outputs' + [firstOrIndex];
    }
  }

  /** The input loops (lines 78-88): the counter runs over Alice's b*k
      wires and Bob's b wires, then moves past the last one. */
  method EmitInputs(b: nat, k: nat) returns (alice: seq<nat>, bob: seq<nat>, index: nat)
    ensures alice == Range(1, b * k) && bob == Range(b * k + 1, b)
    ensures index == FirstGate(b, k)
  {
    alice, bob, index := [], [], 0;
    for i := 0 to b * k
      invariant index == i && alice == Range(1, i)
    {
      index := index + 1;
      alice := alice + [index];
    }
    for i := 0 to b
      invariant index == b * k + i && bob == Range(b * k + 1, i)
    {
      index := index + 1;
      bob := bob + [index];
    }
    index := index + 1;
  }

  /** `compare(bit_length, alice_set_cardinality)`: Alice's and Bob's input
      wires, the equality blocks, the membership chain and the selection
      blocks, with the running `index` counter. Fails (the source raises an
      IndexError) exactly when b or k is 0. */
  method Compare(b: nat, k: nat) returns (r: Option<Netlist>)
    ensures r.None? <==> b == 0 || k == 0
    ensures r.Some? ==> r.value == CompareNetlist(b, k)
  {
    var gates: seq<Gate>, outputs: seq<nat> := [], [];
    var alice, bob, index := EmitInputs(b, k);

    var eqs;
    gates, index, eqs := EmitBlocks(b, k, alice, bob, gates, index);
    if eqs.None? {
      return None;
    }

    var equalityIndex;
    gates, index, equalityIndex := AppendFold(OR, eqs.value, gates, index);
    if equalityIndex.None? {
      return None;
    }
    outputs := outputs + [equalityIndex.value];

    assert b >= 1 && k >= 1;
    assert gates == Blocks(b, k, k) + Membership(b, k);
    assert outputs == [MemberWire(b, k)];
    ghost var prefix := gates;
    gates, index, outputs := EmitSelects(b, k, alice, eqs.value, gates, index, outputs);
    assert gates == CompareGates(b, k);
    r := Some(Netlist(alice, bob, outputs, gates));
  }

  lemma AppendAssoc<T>(x: seq<T>, y: seq<T>, z: seq<T>)
    ensures x + y + z == x + (y + z)
  {
  }
}
