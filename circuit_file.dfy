/** The circuit record `create_circuit` assembles before it is written out as
    JSON: a name and a list holding one circuit entry, filled from the
    generator that the operation code selects. */
module CircuitFile {
  import opened Wrappers
  import opened Bits
  import opened Circuit
  import opened Adder
  import opened Compare
  import opened CompareCorrect
  import opened Encoding

  /** One element of "circuits": the empty dict the record starts with, or
      the id and the four lists of a generator. */
  datatype Entry =
    | Empty
    | Entry(id: string, alice: seq<nat>, bob: seq<nat>, out: seq<nat>, gates: seq<Gate>)

  datatype Record = Record(name: string, circuits: seq<Entry>)

  function EntryOf(id: string, c: Netlist): Entry
  {
    Entry(id, c.alice, c.bob, c.outs, c.gates)
  }

  /** The lists `addition(n, 1)` returns. */
  function AdditionNetlist(n: nat): Netlist
  {
    Netlist(Range(1, n), Range(1 + n, n), AdderOutputs(n, 1), AdderGates(n, 1, 1, n))
  }

  /** The plain meaning of a netlist given Alice's bits and Bob's bits:
      put them on Alice's and Bob's input wires in order, run the gates and
      read the output wires. None when a party has fewer bits than wires,
      a gate cannot fire or an output wire is never set. */
  function Evaluate(c: Netlist, a: seq<Bit>, b: seq<Bit>): (r: Option<seq<Bit>>)
    ensures r.Some? ==> |r.value| == |c.outs|
  {
    if |a| < |c.alice| || |b| < |c.bob| then None
    else match Run(c.gates, Assign(c.alice, a) + Assign(c.bob, b))
      case None => None
      case Some(e) =>
        if forall i :: 0 <= i < |c.outs| ==> c.outs[i] in e then Some(Values(e, c.outs)) else None
  }

  /** `create_circuit(file_name, bit_number, name, id_name, operation,
      alice_set_cardinality)` without the file write: operation 0 fills the
      entry from `addition(bit_number, 1)`, operation 1 from
      `compare(bit_number, alice_set_cardinality)`, any other operation
      leaves the entry empty. Compare fails (TypeError or IndexError) when
      the cardinality is missing or either size is 0. */
  method CreateCircuit(bitNumber: nat, name: string, id: string, operation: int, cardinality: Option<nat>)
    returns (r: Option<Record>)
    ensures r.None? <==> operation == 1 && (cardinality.None? || bitNumber == 0 || cardinality.value == 0)
    ensures r.Some? ==> r.value.name == name && |r.value.circuits| == 1
    ensures r.Some? && operation == 0 ==> r.value.circuits[0] == EntryOf(id, AdditionNetlist(bitNumber))
    ensures r.Some? && operation == 1 ==> r.value.circuits[0] == EntryOf(id, CompareNetlist(bitNumber, cardinality.value))
    ensures operation != 0 && operation != 1 ==> r == Some(Record(name, [Empty]))
  {
    var circuits := [Empty];
    if operation == 0 {
      var alice, bob, outs, gates := Addition(bitNumber, 1);
      circuits := circuits[0 := Entry(id, alice, bob, outs, gates)];
    }
    if operation == 1 {
      if cardinality.None? {
        return None;
      }
      var c := Compare.Compare(bitNumber, cardinality.value);
      if c.None? {
        return None;
      }
      circuits := circuits[0 := Entry(id, c.value.alice, c.value.bob, c.value.outs, c.value.gates)];
    }
    r := Some(Record(name, circuits));
  }

  /** A netlist whose input wires are numbered from 1, Alice's first and
      Bob's right after, evaluates to out when running its gates on both
      parties' bits laid out from wire 1 sets every output wire and out is
      what those wires carry. */
  lemma EvaluateTwoParty(c: Netlist, a: seq<Bit>, b: seq<Bit>, out: seq<Bit>)
    requires c.alice == Range(1, |a|) && c.bob == Range(1 + |a|, |b|)
    requires Run(c.gates, RangeEnv(1, a + b)).Some?
    requires forall i :: 0 <= i < |c.outs| ==> c.outs[i] in Run(c.gates, RangeEnv(1, a + b)).value
    requires Values(Run(c.gates, RangeEnv(1, a + b)).value, c.outs) == out
    ensures Evaluate(c, a, b) == Some(out)
  {
    TwoPartyInputs(1, a, b);
  }

  /** The addition circuit of the record, fed the n bits of a on Alice's
      wires and the n bits of b on Bob's, outputs n + 1 bits standing for
      the sum of the numbers a and b stand for. */
  lemma AdditionEvaluates(n: nat, a: seq<Bit>, b: seq<Bit>)
    requires |a| == n && |b| == n && n >= 1
    ensures Evaluate(AdditionNetlist(n), a, b).Some?
    ensures |Evaluate(AdditionNetlist(n), a, b).value| == n + 1
    ensures Val(Evaluate(AdditionNetlist(n), a, b).value) == Val(a) + Val(b)
  {
    AdderCorrect(n, 1, a, b);
    var e := Run(AdderGates(n, 1, 1, n), OperandEnv(1, a, b)).value;
    EvaluateTwoParty(AdditionNetlist(n), a, b, Values(e, AdderOutputs(n, 1)));
  }

  /** The comparison circuit of the record, fed Alice's k values one after
      another on her wires and Bob's value on his, outputs the membership
      bit followed by Bob's value when it is one of Alice's and zeros
      otherwise. */
  lemma CompareEvaluates(b: nat, k: nat, vs: seq<seq<Bit>>, y: seq<Bit>)
    requires b >= 1 && k >= 1 && Operands(b, k, vs, y)
    ensures Evaluate(CompareNetlist(b, k), Concat(vs), y) == Some(CompareSpec(vs, y))
  {
    ConcatLength(vs, b);
    CompareCorrect.CompareCorrect(b, k, vs, y);
    assert CompareNetlist(b, k).alice == Range(1, |Concat(vs)|);
    assert CompareNetlist(b, k).bob == Range(1 + |Concat(vs)|, |y|);
    assert Run(CompareNetlist(b, k).gates, RangeEnv(1, Concat(vs) + y)).Some?;
    assert forall i :: 0 <= i < |CompareNetlist(b, k).outs| ==>
      CompareNetlist(b, k).outs[i] in Run(CompareNetlist(b, k).gates, RangeEnv(1, Concat(vs) + y)).value;
    assert Values(Run(CompareNetlist(b, k).gates, RangeEnv(1, Concat(vs) + y)).value, CompareNetlist(b, k).outs)
      == CompareSpec(vs, y);
    EvaluateTwoParty(CompareNetlist(b, k), Concat(vs), y, CompareSpec(vs, y));
  }
}
