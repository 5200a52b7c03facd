/** The n-bit ripple-carry adder generator `addition(n, start_index)`.
    Operand A sits on wires start .. start + n - 1 and operand B on the next
    n wires, both least significant bit first; gates follow with consecutive
    ids; the outputs are the n sum bits in bit order, then the final carry. */
module Adder {
  import opened Wrappers
  import opened Bits
  import opened Circuit

  /** Id of the first gate: the counter value after the 2n input wires. */
  function FirstGate(n: nat, start: nat): nat
  {
    start + 2 * n
  }

  /** Number of gates emitted for bits 1 .. m: two for bit 1, five for every
      later bit. */
  function GateCount(m: nat): nat
  {
    if m == 0 then 0 else 5 * m - 3
  }

  /** Wire of sum bit i (1-based): the first gate of bit 1, the third gate
      of every later bit. */
  function SumWire(n: nat, start: nat, i: nat): nat
    requires i >= 1
  {
    if i == 1 then FirstGate(n, start) else FirstGate(n, start) + 5 * i - 6
  }

  /** Wire of the carry out of bit i (1-based): the AND gate of bit 1, the
      OR gate of every later bit. */
  function CarryWire(n: nat, start: nat, i: nat): nat
    requires i >= 1
  {
    FirstGate(n, start) + 5 * i - 4
  }

  /** The gates the loop emits for bit 1: a half adder on the operand bits
      read from wires inBase and inBase + n. */
  function FirstStage(n: nat, start: nat, inBase: nat): seq<Gate>
  {
    var x := FirstGate(n, start);
    [Gate(x, XOR, [inBase, inBase + n]), Gate(x + 1, AND, [inBase, inBase + n])]
  }

  /** The gates the loop emits for a later bit i (1-based): a full adder on
      the operand bits read from wires inBase + i - 1 and inBase + i - 1 + n
      and the carry out of bit i - 1. */
  function LaterStage(n: nat, start: nat, inBase: nat, i: nat): seq<Gate>
    requires i >= 2
  {
    var a := inBase + i - 1;
    var x := FirstGate(n, start) + 5 * i - 8;
    var carry := CarryWire(n, start, i - 1);
    [ Gate(x, XOR, [a, a + n]), Gate(x + 1, AND, [a, a + n]),
      Gate(x + 2, XOR, [x, carry]), Gate(x + 3, AND, [x, carry]),
      Gate(x + 4, OR, [x + 1, x + 3]) ]
  }

  /** The gates for bit i (1-based). The generator reads bit i of the
      operands from wires i and i + n: inBase = 1, whatever start is. */
  function Stage(n: nat, start: nat, inBase: nat, i: nat): seq<Gate>
    requires i >= 1
  {
    if i == 1 then FirstStage(n, start, inBase) else LaterStage(n, start, inBase, i)
  }

  /** The gates for bits 1 .. m, in emission order. */
  function AdderGates(n: nat, start: nat, inBase: nat, m: nat): seq<Gate>
    decreases m
  {
    if m == 0 then [] else AdderGates(n, start, inBase, m - 1) + Stage(n, start, inBase, m)
  }

  function SumWires(n: nat, start: nat, m: nat): (r: seq<nat>)
    ensures |r| == m
    ensures forall j :: 0 <= j < m ==> r[j] == SumWire(n, start, j + 1)
  {
    seq(m, j requires 0 <= j => SumWire(n, start, j + 1))
  }

  /** The outputs recorded after bits 1 .. m: each bit's sum wire, and
      after bit n also the last carry. */
  function OutputsUpTo(n: nat, start: nat, m: nat): seq<nat>
    decreases m
  {
    if m == 0 then []
    else OutputsUpTo(n, start, m - 1) + [SumWire(n, start, m)] + (if m == n then [CarryWire(n, start, n)] else [])
  }

  /** The output list: the sum bits in bit order, then the last carry. */
  function AdderOutputs(n: nat, start: nat): seq<nat>
  {
    SumWires(n, start, n) + (if n >= 1 then [CarryWire(n, start, n)] else [])
  }

  /** The body of the gate loop for bit 1 (no incoming carry): XOR and AND
      of the operand bits read from wires 1 and 1 + step; the XOR is a sum
      output, and when bit 1 is the last bit the AND (the carry) is too. */
  method EmitFirstBit(n: nat, start: nat, step: nat, gates: seq<Gate>, outputs: seq<nat>, index: nat)
    returns (gates': seq<Gate>, outputs': seq<nat>, index': nat, carry: nat)
    requires step == n >= 1
    requires index == FirstGate(n, start)
    ensures gates' == gates + FirstStage(n, start, 1)
    ensures outputs' == outputs + [SumWire(n, start, 1)] + (if n == 1 then [CarryWire(n, start, 1)] else [])
    ensures index' == index + 2
    ensures carry == CarryWire(n, start, 1)
  {
    var i := 1;
    gates', outputs', index' := gates, outputs, index;
    gates' := gates' + [Gate(index', XOR, [i, i + step])];
    outputs' := outputs' + [index'];  // saving output
    index' := index' + 1;
    gates' := gates' + [Gate(index', AND, [i, i + step])];
    carry := index';
    if n == i {
      outputs' := outputs' + [carry];
    }
    index' := index' + 1;
  }

  /** The body of the gate loop for a later bit i: XOR and AND of the
      operand bits read from wires i and i + step, then the sum XOR and the
      AND with the incoming carry, then the OR that is the new carry. */
  method EmitLaterBit(n: nat, start: nat, step: nat, i: nat, gates: seq<Gate>, outputs: seq<nat>, index: nat, carryIn: nat)
    returns (gates': seq<Gate>, outputs': seq<nat>, index': nat, carry: nat)
    requires step == n && 2 <= i <= n
    requires index == FirstGate(n, start) + 5 * i - 8
    requires carryIn == CarryWire(n, start, i - 1)
    ensures gates' == gates + LaterStage(n, start, 1, i)
    ensures outputs' == outputs + [SumWire(n, start, i)] + (if n == i then [CarryWire(n, start, n)] else [])
    ensures index' == index + 5
    ensures carry == CarryWire(n, start, i)
  {
    gates', outputs', index' := gates, outputs, index;
    gates' := gates' + [Gate(index', XOR, [i, i + step])];
    var xorResult := index';
    index' := index' + 1;
    gates' := gates' + [Gate(index', AND, [i, i + step])];
    var andResult1 := index';
    index' := index' + 1;
    gates' := gates' + [Gate(index', XOR, [xorResult, carryIn])];
    outputs' := outputs' + [index'];  // save output
    index' := index' + 1;
    gates' := gates' + [Gate(index', AND, [xorResult, carryIn])];
    var andResult2 := index';
    index' := index' + 1;
    gates' := gates' + [Gate(index', OR, [andResult1, andResult2])];
    carry := index';
    index' := index' + 1;
    if n == i {
      outputs' := outputs' + [carry];
    }
  }

  /** `addition(bits_number, start_index)`: Alice's n input wires, then
      Bob's, then for each bit i = 1 .. n the gates of that bit, with the
      running `index` counter and `carry_index` of the source. */
  method Addition(n: nat, start: nat) returns (alice: seq<nat>, bob: seq<nat>, outputs: seq<nat>, gates: seq<Gate>)
    ensures alice == Range(start, n)
    ensures bob == Range(start + n, n)
    ensures outputs == AdderOutputs(n, start)
    ensures |outputs| == (if n == 0 then 0 else n + 1)
    ensures gates == AdderGates(n, start, 1, n)
    ensures |gates| == GateCount(n)
    ensures ConsecutiveIds(gates, start + 2 * n)
  {
    var index := start;
    var step := n;
    gates, alice, bob, outputs := [], [], [], [];
    for i := 0 to n
      invariant index == start + i
      invariant alice == Range(start, i)
    {
      alice := alice + [index];
      index := index + 1;
    }
    for i := 0 to n
      invariant index == start + n + i
      invariant bob == Range(start + n, i)
    {
      bob := bob + [index];
      index := index + 1;
    }
    var carry: Option<nat> := None;
    for i := 1 to n + 1
      invariant gates == AdderGates(n, start, 1, i - 1)
      invariant index == FirstGate(n, start) + GateCount(i - 1)
      invariant i > 1 ==> carry == Some(CarryWire(n, start, i - 1))
      invariant outputs == OutputsUpTo(n, start, i - 1)
    {
      var c;
      if i == 1 {
        gates, outputs, index, c := EmitFirstBit(n, start, step, gates, outputs, index);
      } else {
        gates, outputs, index, c := EmitLaterBit(n, start, step, i, gates, outputs, index, carry.value);
      }
      carry := Some(c);
    }
    AdderShape(n, start, 1, n);
    AdderOutputsShape(n, start, n);
  }

  /** Up to bit m < n the outputs are the first m sum wires; after bit n the
      carry follows. */
  lemma {:induction false} AdderOutputsShape(n: nat, start: nat, m: nat)
    requires m <= n
    ensures OutputsUpTo(n, start, m) ==
      SumWires(n, start, m) + (if m == n && n >= 1 then [CarryWire(n, start, n)] else [])
  {
    if m > 0 {
      AdderOutputsShape(n, start, m - 1);
      assert SumWires(n, start, m) == SumWires(n, start, m - 1) + [SumWire(n, start, m)];
    }
  }

  /** Bits 1 .. m take GateCount(m) gates with consecutive ids from the
      first gate id, each a two-input XOR, AND or OR. */
  lemma {:induction false} AdderShape(n: nat, start: nat, inBase: nat, m: nat)
    ensures |AdderGates(n, start, inBase, m)| == GateCount(m)
    ensures ConsecutiveIds(AdderGates(n, start, inBase, m), FirstGate(n, start))
    ensures forall j :: 0 <= j < GateCount(m) ==>
      AdderGates(n, start, inBase, m)[j].kind != NOT && |AdderGates(n, start, inBase, m)[j].ins| == 2
  {
    if m > 0 {
      var init, last := AdderGates(n, start, inBase, m - 1), Stage(n, start, inBase, m);
      AdderShape(n, start, inBase, m - 1);
      StageShape(n, start, inBase, m);
      ConsecutiveAppend(init, last, FirstGate(n, start));
      forall j | 0 <= j < GateCount(m)
        ensures (init + last)[j].kind != NOT && |(init + last)[j].ins| == 2
      {
        if j >= |init| {
          assert (init + last)[j] == last[j - |init|];
        }
      }
    }
  }

  /** The gates of bit i: as many as GateCount adds for it, with consecutive
      ids after those of the earlier bits, each a two-input XOR, AND or OR. */
  lemma StageShape(n: nat, start: nat, inBase: nat, i: nat)
    requires i >= 1
    ensures |Stage(n, start, inBase, i)| == GateCount(i) - GateCount(i - 1)
    ensures ConsecutiveIds(Stage(n, start, inBase, i), FirstGate(n, start) + GateCount(i - 1))
    ensures forall j :: 0 <= j < |Stage(n, start, inBase, i)| ==>
      Stage(n, start, inBase, i)[j].kind != NOT && |Stage(n, start, inBase, i)[j].ins| == 2
  {
  }

  /** The first gate is always the XOR of bit 1, reading wires inBase and
      inBase + n. */
  lemma {:induction false} AdderFirstGate(n: nat, start: nat, inBase: nat, m: nat)
    requires m >= 1
    ensures |AdderGates(n, start, inBase, m)| >= 1
    ensures AdderGates(n, start, inBase, m)[0] == Gate(FirstGate(n, start), XOR, [inBase, inBase + n])
  {
    if m > 1 {
      AdderFirstGate(n, start, inBase, m - 1);
    }
  }

  /** One full-adder step on bits: the sum and carry gates of a later bit add
      the two operand bits and the incoming carry. */
  lemma FullAdder(a: Bit, b: Bit, c: Bit)
    ensures a as int + b + c ==
      Binary(XOR, Binary(XOR, a, b), c) + 2 * Binary(OR, Binary(AND, a, b), Binary(AND, Binary(XOR, a, b), c))
  {
  }

  /** Bit j of operand A is on wire start + j, bit j of B on start + |A| + j. */
  ghost predicate HoldsOperands(env: Env, start: nat, A: seq<Bit>, B: seq<Bit>)
  {
    && |A| == |B|
    && forall j :: 0 <= j < |A| ==>
      && start + j in env && env[start + j] == A[j]
      && start + |A| + j in env && env[start + |A| + j] == B[j]
  }

  /** After bits 1 .. m: the first m sum bits and the carry out of bit m
      stand for the sum of the first m bits of both operands, and the inputs
      are untouched. */
  ghost predicate AdderInv(n: nat, start: nat, A: seq<Bit>, B: seq<Bit>, env: Env, e: Env, m: nat)
    requires 1 <= m <= n == |A| == |B|
  {
    && Agree(env, e, FirstGate(n, start))
    && (forall j :: 0 <= j < m ==> SumWires(n, start, m)[j] in e)
    && CarryWire(n, start, m) in e
    && Val(Values(e, SumWires(n, start, m))) + Pow2(m) * e[CarryWire(n, start, m)]
       == Val(A[..m]) + Val(B[..m])
  }

  /** Bit 1: a half adder. */
  lemma FirstStageRun(n: nat, start: nat, A: seq<Bit>, B: seq<Bit>, env: Env)
    requires 1 <= n == |A| == |B|
    requires HoldsOperands(env, start, A, B)
    ensures Run(AdderGates(n, start, start, 1), env).Some?
    ensures AdderInv(n, start, A, B, env, Run(AdderGates(n, start, start, 1), env).value, 1)
  {
    var a, b := A[0], B[0];
    assert env[start] == a && env[start + n] == b;
    var e1 := env[FirstGate(n, start) := Binary(XOR, a, b)];
    var e2 := e1[FirstGate(n, start) + 1 := Binary(AND, a, b)];
    var s := Stage(n, start, start, 1);
    assert AdderGates(n, start, start, 1) == s;
    assert Run(s[1..], e1) == Some(e2);
    assert Run(s, env) == Some(e2);
    assert Values(e2, SumWires(n, start, 1)) == [Binary(XOR, a, b)];
    assert A[..1] == [a] && B[..1] == [b];
    assert Val([a]) == a by { assert [a][1..] == []; }
    assert Val([b]) == b by { assert [b][1..] == []; }
    assert Val([Binary(XOR, a, b)]) == Binary(XOR, a, b) by { assert [Binary(XOR, a, b)][1..] == []; }
  }

  /** Evaluating the gates of a later bit i on top of the earlier bits: a
      full adder on the operand bits and the carry out of bit i - 1. */
  lemma LaterStageRun(n: nat, start: nat, i: nat, mid: Env, a: Bit, b: Bit)
    requires 2 <= i <= n
    requires start + i - 1 in mid && mid[start + i - 1] == a
    requires start + i - 1 + n in mid && mid[start + i - 1 + n] == b
    requires CarryWire(n, start, i - 1) in mid
    ensures Run(Stage(n, start, start, i), mid).Some?
    ensures SumWire(n, start, i) in Run(Stage(n, start, start, i), mid).value
    ensures CarryWire(n, start, i) in Run(Stage(n, start, start, i), mid).value
    ensures a as int + b + mid[CarryWire(n, start, i - 1)] ==
      Run(Stage(n, start, start, i), mid).value[SumWire(n, start, i)] as int
      + 2 * (Run(Stage(n, start, start, i), mid).value[CarryWire(n, start, i)] as int)
    ensures Agree(mid, Run(Stage(n, start, start, i), mid).value, FirstGate(n, start) + 5 * i - 8)
  {
    var s := Stage(n, start, start, i);
    var x := FirstGate(n, start) + 5 * i - 8;
    var c := mid[CarryWire(n, start, i - 1)];
    var e1 := mid[x := Binary(XOR, a, b)];
    var e2 := e1[x + 1 := Binary(AND, a, b)];
    var e3 := e2[x + 2 := Binary(XOR, Binary(XOR, a, b), c)];
    var e4 := e3[x + 3 := Binary(AND, Binary(XOR, a, b), c)];
    var e5 := e4[x + 4 := Binary(OR, Binary(AND, a, b), Binary(AND, Binary(XOR, a, b), c))];
    assert CarryWire(n, start, i - 1) < x;
    assert Run(s[4..], e4) == Some(e5);
    assert Run(s[3..], e3) == Some(e5);
    assert Run(s[2..], e2) == Some(e5);
    assert Run(s[1..], e1) == Some(e5);
    assert Run(s, mid) == Some(e5);
    FullAdder(a, b, c);
  }

  /** The arithmetic of one ripple step: with s + 2c' = a + b + c, weighting
      by P = 2^(i-1) carries the invariant from i - 1 bits to i bits. */
  lemma RippleStep(before: int, P: int, a: int, b: int, c: int, s: int, c': int, sumA: int, sumB: int)
    requires a + b + c == s + 2 * c'
    requires before + P * c == sumA + sumB
    ensures before + P * s + (2 * P) * c' == (sumA + P * a) + (sumB + P * b)
  {
    calc {
      before + P * s + (2 * P) * c';
      before + P * (s + 2 * c');
      before + P * (a + b + c);
      (before + P * c) + P * a + P * b;
    }
  }

  /** The ripple step on bit lists: if the first m - 1 sum bits and carry c
      stand for the sum of the first m - 1 operand bits, and bit m adds
      A[m - 1] + B[m - 1] + c into sum bit s and carry c', then the first m
      sum bits and c' stand for the sum of the first m operand bits. */
  lemma RippleVal(sums: seq<Bit>, A: seq<Bit>, B: seq<Bit>, m: nat, c: Bit, s: Bit, c': Bit)
    requires 1 <= m <= |A| == |B| && |sums| == m - 1
    requires A[m - 1] as int + B[m - 1] + c == s as int + 2 * c'
    requires Val(sums) + Pow2(m - 1) * c == Val(A[..m - 1]) + Val(B[..m - 1])
    ensures Val(sums + [s]) + Pow2(m) * c' == Val(A[..m]) + Val(B[..m])
  {
    ValAppend(sums, s);
    ValPrefix(A, m - 1);
    ValPrefix(B, m - 1);
    RippleStep(Val(sums), Pow2(m - 1), A[m - 1], B[m - 1], c, s, c', Val(A[..m - 1]), Val(B[..m - 1]));
  }

  /** Reading wires below the bound from an environment that agrees below
      it gives the same bits. */
  lemma ValuesStable(mid: Env, e: Env, ws: seq<nat>, bound: nat)
    requires forall j :: 0 <= j < |ws| ==> ws[j] in mid && ws[j] < bound
    requires Agree(mid, e, bound)
    ensures forall j :: 0 <= j < |ws| ==> ws[j] in e
    ensures Values(e, ws) == Values(mid, ws)
  {
  }

  /** The sum bits after bit m are those after bit m - 1, read from the
      earlier environment, followed by sum bit m. */
  lemma SumsStep(n: nat, start: nat, m: nat, prev: seq<nat>, mid: Env, e: Env)
    requires 2 <= m <= n && prev == SumWires(n, start, m - 1)
    requires forall j :: 0 <= j < |prev| ==> prev[j] in mid
    requires Agree(mid, e, FirstGate(n, start) + 5 * m - 8)
    requires SumWire(n, start, m) in e
    ensures forall j :: 0 <= j < m ==> SumWires(n, start, m)[j] in e
    ensures Values(e, SumWires(n, start, m)) == Values(mid, prev) + [e[SumWire(n, start, m)]]
  {
    ValuesStable(mid, e, prev, FirstGate(n, start) + 5 * m - 8);
    assert SumWires(n, start, m) == prev + [SumWire(n, start, m)];
    ValuesAppend(e, prev, SumWire(n, start, m));
  }

  /** Evaluating bits 1 .. m (inputs read at start) keeps the invariant. */
  lemma {:induction false} AdderRun(n: nat, start: nat, A: seq<Bit>, B: seq<Bit>, env: Env, m: nat)
    requires 1 <= m <= n == |A| == |B|
    requires HoldsOperands(env, start, A, B)
    ensures Run(AdderGates(n, start, start, m), env).Some?
    ensures AdderInv(n, start, A, B, env, Run(AdderGates(n, start, start, m), env).value, m)
  {
    if m == 1 {
      FirstStageRun(n, start, A, B, env);
    } else {
      AdderRun(n, start, A, B, env, m - 1);
      var prev := AdderGates(n, start, start, m - 1);
      var mid := Run(prev, env).value;
      var a, b := A[m - 1], B[m - 1];
      assert env[start + (m - 1)] == a && env[start + n + (m - 1)] == b;
      LaterStageRun(n, start, m, mid, a, b);
      RunAppend(prev, Stage(n, start, start, m), env, mid);
      var e := Run(AdderGates(n, start, start, m), env).value;
      AgreeTrans(env, mid, e, FirstGate(n, start), FirstGate(n, start) + 5 * m - 8);
      SumsStep(n, start, m, SumWires(n, start, m - 1), mid, e);
      RippleVal(Values(mid, SumWires(n, start, m - 1)), A, B, m,
                mid[CarryWire(n, start, m - 1)], e[SumWire(n, start, m)], e[CarryWire(n, start, m)]);
    }
  }

  /** The environment Alice's and Bob's operand bits give the input wires. */
  function OperandEnv(start: nat, A: seq<Bit>, B: seq<Bit>): Env
  {
    RangeEnv(start, A + B)
  }

  lemma OperandEnvHolds(start: nat, A: seq<Bit>, B: seq<Bit>)
    requires |A| == |B|
    ensures HoldsOperands(OperandEnv(start, A, B), start, A, B)
  {
    RangeEnvAt(start, A + B);
    forall j | 0 <= j < |A|
      ensures start + j in OperandEnv(start, A, B) && OperandEnv(start, A, B)[start + j] == A[j]
      ensures start + |A| + j in OperandEnv(start, A, B) && OperandEnv(start, A, B)[start + |A| + j] == B[j]
    {
      assert (A + B)[j] == A[j];
      assert (A + B)[|A| + j] == B[j];
    }
  }

  /** Once all n bits are evaluated, the output list (sum bits, then the
      final carry) stands for A + B. */
  lemma AdderOutputsValue(n: nat, start: nat, A: seq<Bit>, B: seq<Bit>, env: Env, e: Env)
    requires 1 <= n == |A| == |B|
    requires AdderInv(n, start, A, B, env, e, n)
    ensures forall j :: 0 <= j < |AdderOutputs(n, start)| ==> AdderOutputs(n, start)[j] in e
    ensures Val(Values(e, AdderOutputs(n, start))) == Val(A) + Val(B)
  {
    var sums := SumWires(n, start, n);
    var carry := CarryWire(n, start, n);
    assert AdderOutputs(n, start) == sums + [carry];
    ValuesAppend(e, sums, carry);
    ValAppend(Values(e, sums), e[carry]);
    assert A[..n] == A && B[..n] == B;
  }

  /** Functional correctness of the adder with inputs at start: the n + 1
      output bits, least significant first, stand for A + B. */
  lemma AdderCorrect(n: nat, start: nat, A: seq<Bit>, B: seq<Bit>)
    requires |A| == n && |B| == n && n >= 1
    ensures Run(AdderGates(n, start, start, n), OperandEnv(start, A, B)).Some?
    ensures var e := Run(AdderGates(n, start, start, n), OperandEnv(start, A, B)).value;
      && (forall j :: 0 <= j < |AdderOutputs(n, start)| ==> AdderOutputs(n, start)[j] in e)
      && Val(Values(e, AdderOutputs(n, start))) == Val(A) + Val(B)
  {
    var env := OperandEnv(start, A, B);
    OperandEnvHolds(start, A, B);
    AdderRun(n, start, A, B, env, n);
    AdderOutputsValue(n, start, A, B, env, Run(AdderGates(n, start, start, n), env).value);
  }

  /** `addition(n, 1)` is structurally sound: every gate has two inputs,
      each an input wire 1 .. 2n or an earlier gate, and the list is in
      topological order. */
  lemma AdderTopological(n: nat)
    requires n >= 1
    ensures WellFormed(WireSet(1, 2 * n), AdderGates(n, 1, 1, n))
    ensures Topological(AdderGates(n, 1, 1, n))
  {
    var env := OperandEnv(1, Zeros(n), Zeros(n));
    AdderCorrect(n, 1, Zeros(n), Zeros(n));
    RangeEnvKeys(1, Zeros(n) + Zeros(n));
    AdderShape(n, 1, 1, n);
    RunIsTopological(AdderGates(n, 1, 1, n), env, 1, 2 * n, FirstGate(n, 1));
  }

  /** As written, `addition(n, start)` reads bit 1 from wires 1 and 1 + n
      whatever start is: with start >= 2 wire 1 is not an input, so the
      netlist does not evaluate on its own input wires. */
  lemma AdditionAsWrittenFails(n: nat, start: nat, A: seq<Bit>, B: seq<Bit>)
    requires |A| == n && |B| == n && n >= 1 && start >= 2
    ensures Run(AdderGates(n, start, 1, n), OperandEnv(start, A, B)) == None
  {
    var gates := AdderGates(n, start, 1, n);
    AdderFirstGate(n, start, 1, n);
    RangeEnvAt(start, A + B);
    assert 1 !in OperandEnv(start, A, B);
    assert Step(OperandEnv(start, A, B), gates[0]) == None;
  }
}

