/** Functional correctness of `compare(b, k)` under the plain evaluator:
    with Alice's k values and Bob's value on the input wires, the first
    output is 1 exactly when Bob's value is one of Alice's, and output
    t + 1 is the OR, over the Alice values equal to Bob's, of their bit t. */
module CompareCorrect {
  import opened Wrappers
  import opened Bits
  import opened Circuit
  import opened Compare
  import opened CompareShape

  /** The input wires for Alice's values vs (k of them, b bits each, least
      significant first) and Bob's value y: Alice's bits in order from wire
      1, then Bob's. */
  function CompareEnv(vs: seq<seq<Bit>>, y: seq<Bit>): Env
  {
    RangeEnv(1, Concat(vs) + y)
  }

  /** The argument shape: k values and Bob's value, all b bits wide. */
  ghost predicate Operands(b: nat, k: nat, vs: seq<seq<Bit>>, y: seq<Bit>)
  {
    |vs| == k && |y| == b && forall v :: 0 <= v < k ==> |vs[v]| == b
  }

  /** e carries bit t of Alice's value v on AliceWire(b, v, t) and bit t of
      Bob's value on BobWire(b, k, t). */
  ghost predicate InputsHeld(e: Env, b: nat, k: nat, vs: seq<seq<Bit>>, y: seq<Bit>)
    requires Operands(b, k, vs, y)
  {
    && (forall v, t :: 0 <= v < k && 0 <= t < b ==>
          AliceWire(b, v, t) in e && e[AliceWire(b, v, t)] == vs[v][t])
    && (forall t :: 0 <= t < b ==> BobWire(b, k, t) in e && e[BobWire(b, k, t)] == y[t])
  }

  /** 1 when Alice's value v equals Bob's, else 0. */
  function EqBit(vs: seq<seq<Bit>>, y: seq<Bit>, v: nat): Bit
    requires v < |vs|
  {
    if vs[v] == y then 1 else 0
  }

  /** Every input wire lies below the first gate id. */
  lemma InputWireBound(b: nat, k: nat, v: nat, t: nat)
    requires v < k && t < b
    ensures AliceWire(b, v, t) < FirstGate(b, k) && BobWire(b, k, t) < FirstGate(b, k)
  {
    assert b * v + t < b * v + b == b * (v + 1) <= b * k;
  }

  /** The environment built from the operands holds them. */
  lemma CompareEnvHolds(b: nat, k: nat, vs: seq<seq<Bit>>, y: seq<Bit>)
    requires Operands(b, k, vs, y)
    ensures InputsHeld(CompareEnv(vs, y), b, k, vs, y)
  {
    var x := Concat(vs);
    ConcatLength(vs, b);
    RangeEnvAt(1, x + y);
    forall v, t | 0 <= v < k && 0 <= t < b
      ensures AliceWire(b, v, t) in CompareEnv(vs, y) && CompareEnv(vs, y)[AliceWire(b, v, t)] == vs[v][t]
    {
      ConcatAt(vs, b, v, t);
      assert (x + y)[b * v + t] == x[b * v + t];
    }
    forall t | 0 <= t < b
      ensures BobWire(b, k, t) in CompareEnv(vs, y) && CompareEnv(vs, y)[BobWire(b, k, t)] == y[t]
    {
      assert (x + y)[b * k + t] == y[t];
    }
  }

  /** Evaluation that agrees on the wires below the first gate keeps the
      inputs. */
  lemma InputsAgree(e: Env, e': Env, bound: nat, b: nat, k: nat, vs: seq<seq<Bit>>, y: seq<Bit>)
    requires Operands(b, k, vs, y) && InputsHeld(e, b, k, vs, y)
    requires Agree(e, e', bound) && FirstGate(b, k) <= bound
    ensures InputsHeld(e', b, k, vs, y)
  {
    forall v, t | 0 <= v < k && 0 <= t < b
      ensures AliceWire(b, v, t) in e' && e'[AliceWire(b, v, t)] == vs[v][t]
    {
      InputWireBound(b, k, v, t);
    }
  }

  /** One XOR/NOT pair: the NOT wire x + 1 carries 1 exactly when the bits
      on wires a and c are equal, and nothing below x changes. */
  lemma PairRun(x: nat, a: nat, c: nat, mid: Env)
    requires a in mid && c in mid
    ensures Run([Gate(x, XOR, [a, c]), Gate(x + 1, NOT, [x])], mid).Some?
    ensures var r := Run([Gate(x, XOR, [a, c]), Gate(x + 1, NOT, [x])], mid).value;
      && Agree(mid, r, x)
      && x + 1 in r && r[x + 1] == (if mid[a] == mid[c] then 1 else 0)
  {
    var pair := [Gate(x, XOR, [a, c]), Gate(x + 1, NOT, [x])];
    var e1 := mid[x := Binary(XOR, mid[a], mid[c])];
    var e2 := e1[x + 1 := 1 - e1[x]];
    assert Run(pair[1..], e1) == Some(e2);
  }

  /** The XOR/NOT pairs of value v: NOT wire first + 2t + 1 carries 1 exactly
      when bit t of Alice's value v equals bit t of Bob's. */
  lemma {:induction false} XorNotsRun(b: nat, k: nat, v: nat, first: nat, m: nat,
                                      vs: seq<seq<Bit>>, y: seq<Bit>, e: Env)
    requires Operands(b, k, vs, y) && InputsHeld(e, b, k, vs, y)
    requires v < k && m <= b && FirstGate(b, k) <= first
    ensures Run(XorNots(b, k, v, first, m), e).Some?
    ensures var r := Run(XorNots(b, k, v, first, m), e).value;
      && Agree(e, r, first)
      && forall t :: 0 <= t < m ==>
           first + 2 * t + 1 in r && r[first + 2 * t + 1] == (if vs[v][t] == y[t] then 1 else 0)
    decreases m
  {
    if m > 0 {
      var init := XorNots(b, k, v, first, m - 1);
      XorNotsRun(b, k, v, first, m - 1, vs, y, e);
      var mid := Run(init, e).value;
      InputsAgree(e, mid, first, b, k, vs, y);
      var x := first + 2 * (m - 1);
      var a, c := AliceWire(b, v, m - 1), BobWire(b, k, m - 1);
      var pair := [Gate(x, XOR, [a, c]), Gate(x + 1, NOT, [x])];
      PairRun(x, a, c, mid);
      RunAppend(init, pair, e, mid);
    }
  }

  /** Equality wires lie below the membership chain, so agreement below it
      keeps them. */
  lemma EqsAgree(e: Env, e': Env, bound: nat, b: nat, k: nat, vs: seq<seq<Bit>>, y: seq<Bit>)
    requires b >= 1 && Operands(b, k, vs, y) && EqsUpTo(e, b, k, k, vs, y)
    requires Agree(e, e', bound) && OrStart(b, k) <= bound
    ensures EqsUpTo(e', b, k, k, vs, y)
  {
    forall v | 0 <= v < k
      ensures EqWire(b, k, v) in e' && e'[EqWire(b, k, v)] == EqBit(vs, y, v)
    {
      EqWireBound(b, k, v);
      BlockStartMono(b, k, v + 1, k);
    }
  }

  /** Bits that are 1 exactly where two equally long bit lists agree are
      all 1 exactly when the lists are equal. */
  lemma AllOnesIffEqual(bits: seq<Bit>, p: seq<Bit>, q: seq<Bit>)
    requires |bits| == |p| == |q|
    requires forall i :: 0 <= i < |bits| ==> bits[i] == (if p[i] == q[i] then 1 else 0)
    ensures (forall i :: 0 <= i < |bits| ==> bits[i] == 1) <==> p == q
  {
    if forall i :: 0 <= i < |bits| ==> bits[i] == 1 {
      assert forall i :: 0 <= i < |p| ==> p[i] == q[i];
    }
  }

  /** After the XOR/NOT pairs of value v, the NOT wires are known, lie
      below the AND chain, and read 1 where Alice's and Bob's bits agree. */
  lemma NotsHeld(b: nat, k: nat, v: nat, vs: seq<seq<Bit>>, y: seq<Bit>, mid: Env)
    requires b >= 1 && Operands(b, k, vs, y) && v < k
    requires forall t :: 0 <= t < b ==>
      BlockStart(b, k, v) + 2 * t + 1 in mid &&
      mid[BlockStart(b, k, v) + 2 * t + 1] == (if vs[v][t] == y[t] then 1 else 0)
    ensures forall i :: 0 <= i < b ==>
      Nots(b, k, v)[i] in mid && Nots(b, k, v)[i] < BlockStart(b, k, v) + 2 * b
    ensures forall i :: 0 <= i < b ==>
      Values(mid, Nots(b, k, v))[i] == (if vs[v][i] == y[i] then 1 else 0)
  {
    var first := BlockStart(b, k, v);
    assert forall i :: 0 <= i < b ==> Nots(b, k, v)[i] == first + 2 * i + 1;
  }

  /** A block is its XOR/NOT pairs followed by its AND chain. */
  lemma BlockAssemble(b: nat, k: nat, v: nat, e: Env, mid: Env, r: Env)
    requires b >= 1
    requires Run(XorNots(b, k, v, BlockStart(b, k, v), b), e) == Some(mid)
    requires Run(Chain(AND, Nots(b, k, v), BlockStart(b, k, v) + 2 * b), mid) == Some(r)
    ensures Run(Block(b, k, v), e) == Some(r)
  {
    RunAppend(XorNots(b, k, v, BlockStart(b, k, v), b), Chain(AND, Nots(b, k, v), BlockStart(b, k, v) + 2 * b), e, mid);
  }

  /** The AND chain of equality block v over its NOT wires. */
  lemma BlockChainRun(b: nat, k: nat, v: nat, vs: seq<seq<Bit>>, y: seq<Bit>, mid: Env)
    requires b >= 1 && Operands(b, k, vs, y) && v < k
    requires forall t :: 0 <= t < b ==>
      BlockStart(b, k, v) + 2 * t + 1 in mid &&
      mid[BlockStart(b, k, v) + 2 * t + 1] == (if vs[v][t] == y[t] then 1 else 0)
    ensures Run(Chain(AND, Nots(b, k, v), BlockStart(b, k, v) + 2 * b), mid).Some?
    ensures var r := Run(Chain(AND, Nots(b, k, v), BlockStart(b, k, v) + 2 * b), mid).value;
      && Agree(mid, r, BlockStart(b, k, v) + 2 * b)
      && EqWire(b, k, v) in r && r[EqWire(b, k, v)] == EqBit(vs, y, v)
  {
    var nots := Nots(b, k, v);
    NotsHeld(b, k, v, vs, y, mid);
    assert EqWire(b, k, v) == ChainOut(nots, BlockStart(b, k, v) + 2 * b);
    ChainRun(AND, nots, BlockStart(b, k, v) + 2 * b, mid);
    EqFold(b, k, v, vs, y, Values(mid, nots));
  }

  /** The AND of the NOT gates' bits is the equality bit. */
  lemma EqFold(b: nat, k: nat, v: nat, vs: seq<seq<Bit>>, y: seq<Bit>, bits: seq<Bit>)
    requires b >= 1 && Operands(b, k, vs, y) && v < k
    requires |bits| == b
    requires forall i :: 0 <= i < b ==> bits[i] == (if vs[v][i] == y[i] then 1 else 0)
    ensures Fold(AND, bits) == EqBit(vs, y, v)
  {
    FoldAnd(bits);
    AllOnesIffEqual(bits, vs[v], y);
  }

  /** Equality block v puts the equality bit of value v on its wire. */
  lemma BlockRun(b: nat, k: nat, v: nat, vs: seq<seq<Bit>>, y: seq<Bit>, e: Env)
    requires b >= 1 && Operands(b, k, vs, y) && InputsHeld(e, b, k, vs, y) && v < k
    ensures Run(Block(b, k, v), e).Some?
    ensures var r := Run(Block(b, k, v), e).value;
      && Agree(e, r, BlockStart(b, k, v))
      && EqWire(b, k, v) in r && r[EqWire(b, k, v)] == EqBit(vs, y, v)
  {
    var first := BlockStart(b, k, v);
    BlockStartMono(b, k, 0, v);
    XorNotsRun(b, k, v, first, b, vs, y, e);
    var mid := Run(XorNots(b, k, v, first, b), e).value;
    BlockChainRun(b, k, v, vs, y, mid);
    var r := Run(Chain(AND, Nots(b, k, v), first + 2 * b), mid).value;
    BlockAssemble(b, k, v, e, mid, r);
    AgreeTrans(e, mid, r, first, first + 2 * b);
  }

  /** Equality block v run after the earlier ones, which leave the input
      wires alone. */
  lemma BlockRunAfter(b: nat, k: nat, v: nat, vs: seq<seq<Bit>>, y: seq<Bit>, e: Env, mid: Env)
    requires b >= 1 && Operands(b, k, vs, y) && InputsHeld(e, b, k, vs, y) && v < k
    requires Agree(e, mid, FirstGate(b, k))
    ensures Run(Block(b, k, v), mid).Some?
    ensures var r := Run(Block(b, k, v), mid).value;
      && Agree(mid, r, BlockStart(b, k, v))
      && EqWire(b, k, v) in r && r[EqWire(b, k, v)] == EqBit(vs, y, v)
  {
    InputsAgree(e, mid, FirstGate(b, k), b, k, vs, y);
    BlockRun(b, k, v, vs, y, mid);
  }

  /** The equality bits of values 0 .. m - 1 are on their wires in r. */
  ghost predicate EqsUpTo(r: Env, b: nat, k: nat, m: nat, vs: seq<seq<Bit>>, y: seq<Bit>)
    requires b >= 1 && m <= k && Operands(b, k, vs, y)
  {
    forall v :: 0 <= v < m ==> EqWire(b, k, v) in r && r[EqWire(b, k, v)] == EqBit(vs, y, v)
  }

  /** One more equality block keeps the earlier equality bits and adds its own. */
  lemma BlocksStep(b: nat, k: nat, m: nat, vs: seq<seq<Bit>>, y: seq<Bit>, e: Env, mid: Env, r: Env)
    requires b >= 1 && 1 <= m <= k && Operands(b, k, vs, y)
    requires Agree(e, mid, FirstGate(b, k)) && EqsUpTo(mid, b, k, m - 1, vs, y)
    requires Agree(mid, r, BlockStart(b, k, m - 1))
    requires EqWire(b, k, m - 1) in r && r[EqWire(b, k, m - 1)] == EqBit(vs, y, m - 1)
    ensures Agree(e, r, FirstGate(b, k)) && EqsUpTo(r, b, k, m, vs, y)
  {
    BlockStartMono(b, k, 0, m - 1);
    forall v | 0 <= v < m - 1
      ensures EqWire(b, k, v) in r && r[EqWire(b, k, v)] == EqBit(vs, y, v)
    {
      EqWireBound(b, k, v);
      BlockStartMono(b, k, v + 1, m - 1);
    }
  }

  /** The equality blocks of values 0 .. m - 1 put each value's equality bit
      on its wire. */
  lemma {:induction false} BlocksRun(b: nat, k: nat, m: nat, vs: seq<seq<Bit>>, y: seq<Bit>, e: Env)
    requires b >= 1 && Operands(b, k, vs, y) && InputsHeld(e, b, k, vs, y) && m <= k
    ensures Run(Blocks(b, k, m), e).Some?
    ensures var r := Run(Blocks(b, k, m), e).value;
      Agree(e, r, FirstGate(b, k)) && EqsUpTo(r, b, k, m, vs, y)
    decreases m
  {
    if m > 0 {
      BlocksRun(b, k, m - 1, vs, y, e);
      BlocksNext(b, k, m, vs, y, e, Run(Blocks(b, k, m - 1), e).value);
    }
  }

  /** From the run of the first m - 1 equality blocks to the run of m. */
  lemma BlocksNext(b: nat, k: nat, m: nat, vs: seq<seq<Bit>>, y: seq<Bit>, e: Env, mid: Env)
    requires b >= 1 && Operands(b, k, vs, y) && InputsHeld(e, b, k, vs, y) && 1 <= m <= k
    requires Run(Blocks(b, k, m - 1), e) == Some(mid)
    requires Agree(e, mid, FirstGate(b, k)) && EqsUpTo(mid, b, k, m - 1, vs, y)
    ensures Run(Blocks(b, k, m), e).Some?
    ensures var r := Run(Blocks(b, k, m), e).value;
      Agree(e, r, FirstGate(b, k)) && EqsUpTo(r, b, k, m, vs, y)
  {
    BlockRunAfter(b, k, m - 1, vs, y, e, mid);
    var r := Run(Block(b, k, m - 1), mid).value;
    BlocksAssemble(b, k, m, e, mid, r);
    BlocksStep(b, k, m, vs, y, e, mid, r);
  }

  /** The membership chain: 1 exactly when Bob's value is one of Alice's. */
  lemma MembershipRun(b: nat, k: nat, vs: seq<seq<Bit>>, y: seq<Bit>, e: Env)
    requires b >= 1 && k >= 1 && Operands(b, k, vs, y) && EqsUpTo(e, b, k, k, vs, y)
    ensures Run(Membership(b, k), e).Some?
    ensures var r := Run(Membership(b, k), e).value;
      && Agree(e, r, OrStart(b, k))
      && MemberWire(b, k) in r
      && (r[MemberWire(b, k)] == 1 <==> exists v :: 0 <= v < k && vs[v] == y)
  {
    var eqs := EqWires(b, k, k);
    forall v | 0 <= v < k
      ensures eqs[v] < OrStart(b, k)
    {
      EqWireBound(b, k, v);
      BlockStartMono(b, k, v + 1, k);
    }
    ChainRun(OR, eqs, OrStart(b, k), e);
    var bits := Values(e, eqs);
    FoldOr(bits);
    assert forall v :: 0 <= v < k ==> (bits[v] == 1 <==> vs[v] == y);
  }

  /** The AND gates for m values are those for m - 1 and one more. */
  lemma ChecksAssemble(b: nat, k: nat, t: nat, m: nat, e: Env, mid: Env)
    requires b >= 1 && k >= 1 && m >= 1
    requires Run(Checks(b, k, t, m - 1), e) == Some(mid)
    requires AliceWire(b, m - 1, t) in mid && EqWire(b, k, m - 1) in mid
    ensures Run(Checks(b, k, t, m), e) == Some(mid[SelectStart(b, k, t) + m - 1 :=
      Binary(AND, mid[AliceWire(b, m - 1, t)], mid[EqWire(b, k, m - 1)])])
  {
    var g := Gate(SelectStart(b, k, t) + m - 1, AND, [AliceWire(b, m - 1, t), EqWire(b, k, m - 1)]);
    GateRun(g, mid);
    ChecksSnoc(b, k, t, m);
    RunAppend(Checks(b, k, t, m - 1), [g], e, mid);
  }

  /** A selection block is its AND gates followed by its OR chain. */
  lemma SelectAssemble(b: nat, k: nat, t: nat, e: Env, mid: Env, r: Env)
    requires b >= 1 && k >= 1
    requires Run(Checks(b, k, t, k), e) == Some(mid)
    requires Run(Chain(OR, Range(SelectStart(b, k, t), k), SelectStart(b, k, t) + k), mid) == Some(r)
    ensures Run(Select(b, k, t), e) == Some(r)
  {
    RunAppend(Checks(b, k, t, k), Chain(OR, Range(SelectStart(b, k, t), k), SelectStart(b, k, t) + k), e, mid);
  }

  /** The blocks for m values are those for m - 1 and one more. */
  lemma BlocksAssemble(b: nat, k: nat, m: nat, e: Env, mid: Env, r: Env)
    requires b >= 1 && m >= 1
    requires Run(Blocks(b, k, m - 1), e) == Some(mid)
    requires Run(Block(b, k, m - 1), mid) == Some(r)
    ensures Run(Blocks(b, k, m), e) == Some(r)
  {
    RunAppend(Blocks(b, k, m - 1), Block(b, k, m - 1), e, mid);
  }

  /** The selection blocks for m bits are those for m - 1 and one more. */
  lemma SelectsAssemble(b: nat, k: nat, m: nat, e: Env, mid: Env, r: Env)
    requires b >= 1 && k >= 1 && m >= 1
    requires Run(Selects(b, k, m - 1), e) == Some(mid)
    requires Run(Select(b, k, m - 1), mid) == Some(r)
    ensures Run(Selects(b, k, m), e) == Some(r)
  {
    RunAppend(Selects(b, k, m - 1), Select(b, k, m - 1), e, mid);
  }

  /** The wire of the AND gate for value v in selection block t. */
  function CheckWire(b: nat, k: nat, t: nat, v: nat): nat
    requires b >= 1 && k >= 1
  {
    SelectStart(b, k, t) + v
  }

  /** The AND gates of bit t for values 0 .. m - 1 are on their wires in r. */
  ghost predicate ChecksHeld(r: Env, b: nat, k: nat, t: nat, m: nat, vs: seq<seq<Bit>>, y: seq<Bit>)
    requires b >= 1 && k >= 1 && t < b && m <= k && Operands(b, k, vs, y)
  {
    forall v :: 0 <= v < m ==>
      CheckWire(b, k, t, v) in r && r[CheckWire(b, k, t, v)] == Binary(AND, vs[v][t], EqBit(vs, y, v))
  }

  /** The operands of the AND gate for value m - 1 survive the earlier AND
      gates of the block. */
  lemma CheckOperands(b: nat, k: nat, t: nat, m: nat, vs: seq<seq<Bit>>, y: seq<Bit>, e: Env, mid: Env)
    requires b >= 1 && k >= 1 && t < b && 1 <= m <= k && Operands(b, k, vs, y)
    requires InputsHeld(e, b, k, vs, y) && EqsUpTo(e, b, k, k, vs, y)
    requires OrStart(b, k) <= SelectStart(b, k, t) && Agree(e, mid, SelectStart(b, k, t))
    ensures AliceWire(b, m - 1, t) in mid && mid[AliceWire(b, m - 1, t)] == vs[m - 1][t]
    ensures EqWire(b, k, m - 1) in mid && mid[EqWire(b, k, m - 1)] == EqBit(vs, y, m - 1)
  {
    BlockStartMono(b, k, 0, k);
    InputWireBound(b, k, m - 1, t);
    EqWireBound(b, k, m - 1);
    BlockStartMono(b, k, m, k);
  }

  /** One more AND gate keeps the earlier ones and adds its own. */
  lemma ChecksStep(b: nat, k: nat, t: nat, m: nat, vs: seq<seq<Bit>>, y: seq<Bit>, e: Env, mid: Env)
    requires b >= 1 && k >= 1 && t < b && 1 <= m <= k && Operands(b, k, vs, y)
    requires Agree(e, mid, SelectStart(b, k, t)) && ChecksHeld(mid, b, k, t, m - 1, vs, y)
    requires AliceWire(b, m - 1, t) in mid && mid[AliceWire(b, m - 1, t)] == vs[m - 1][t]
    requires EqWire(b, k, m - 1) in mid && mid[EqWire(b, k, m - 1)] == EqBit(vs, y, m - 1)
    ensures var r := mid[SelectStart(b, k, t) + m - 1 :=
      Binary(AND, mid[AliceWire(b, m - 1, t)], mid[EqWire(b, k, m - 1)])];
      Agree(e, r, SelectStart(b, k, t)) && ChecksHeld(r, b, k, t, m, vs, y)
  {
    var r := mid[SelectStart(b, k, t) + m - 1 :=
      Binary(AND, mid[AliceWire(b, m - 1, t)], mid[EqWire(b, k, m - 1)])];
    forall v | 0 <= v < m
      ensures CheckWire(b, k, t, v) in r && r[CheckWire(b, k, t, v)] == Binary(AND, vs[v][t], EqBit(vs, y, v))
    {
    }
  }

  /** The AND gates of bit t for values 0 .. m - 1: the gate of value v
      carries bit t of value v when value v equals Bob's, else 0. */
  lemma {:induction false} ChecksRun(b: nat, k: nat, t: nat, m: nat, vs: seq<seq<Bit>>, y: seq<Bit>, e: Env)
    requires b >= 1 && k >= 1 && t < b && m <= k && Operands(b, k, vs, y)
    requires InputsHeld(e, b, k, vs, y) && EqsUpTo(e, b, k, k, vs, y)
    requires OrStart(b, k) <= SelectStart(b, k, t)
    ensures Run(Checks(b, k, t, m), e).Some?
    ensures var r := Run(Checks(b, k, t, m), e).value;
      Agree(e, r, SelectStart(b, k, t)) && ChecksHeld(r, b, k, t, m, vs, y)
    decreases m
  {
    if m > 0 {
      ChecksRun(b, k, t, m - 1, vs, y, e);
      var mid := Run(Checks(b, k, t, m - 1), e).value;
      CheckOperands(b, k, t, m, vs, y, e, mid);
      ChecksAssemble(b, k, t, m, e, mid);
      ChecksStep(b, k, t, m, vs, y, e, mid);
    }
  }

  /** The OR, over Alice's values equal to Bob's, of their bit t is 1. */
  ghost predicate Picked(b: nat, k: nat, vs: seq<seq<Bit>>, y: seq<Bit>, t: nat)
    requires Operands(b, k, vs, y) && t < b
  {
    exists v :: 0 <= v < k && vs[v] == y && vs[v][t] == 1
  }

  /** The OR chain of selection block t over its AND wires. */
  lemma SelectChainRun(b: nat, k: nat, t: nat, vs: seq<seq<Bit>>, y: seq<Bit>, mid: Env)
    requires b >= 1 && k >= 1 && t < b && Operands(b, k, vs, y)
    requires ChecksHeld(mid, b, k, t, k, vs, y)
    ensures Run(Chain(OR, Range(SelectStart(b, k, t), k), SelectStart(b, k, t) + k), mid).Some?
    ensures var r := Run(Chain(OR, Range(SelectStart(b, k, t), k), SelectStart(b, k, t) + k), mid).value;
      && Agree(mid, r, SelectStart(b, k, t) + k)
      && SelectWire(b, k, t) in r
      && (r[SelectWire(b, k, t)] == 1 <==> Picked(b, k, vs, y, t))
  {
    var first := SelectStart(b, k, t);
    var ws := Range(first, k);
    assert forall i :: 0 <= i < k ==> ws[i] == CheckWire(b, k, t, i);
    assert SelectWire(b, k, t) == ChainOut(ws, first + k);
    ChainRun(OR, ws, first + k, mid);
    PickedFold(b, k, t, vs, y, Values(mid, ws));
  }

  /** The OR of the AND gates' bits is the selected bit. */
  lemma PickedFold(b: nat, k: nat, t: nat, vs: seq<seq<Bit>>, y: seq<Bit>, bits: seq<Bit>)
    requires b >= 1 && k >= 1 && t < b && Operands(b, k, vs, y)
    requires |bits| == k
    requires forall v :: 0 <= v < k ==> bits[v] == Binary(AND, vs[v][t], EqBit(vs, y, v))
    ensures Fold(OR, bits) == 1 <==> Picked(b, k, vs, y, t)
  {
    FoldOr(bits);
    assert forall v :: 0 <= v < k ==> (bits[v] == 1 <==> vs[v] == y && vs[v][t] == 1);
  }

  /** Selection block t puts that OR on its output wire. */
  lemma SelectRun(b: nat, k: nat, t: nat, vs: seq<seq<Bit>>, y: seq<Bit>, e: Env)
    requires b >= 1 && k >= 1 && t < b && Operands(b, k, vs, y)
    requires InputsHeld(e, b, k, vs, y) && EqsUpTo(e, b, k, k, vs, y)
    requires OrStart(b, k) <= SelectStart(b, k, t)
    ensures Run(Select(b, k, t), e).Some?
    ensures var r := Run(Select(b, k, t), e).value;
      && Agree(e, r, SelectStart(b, k, t))
      && SelectWire(b, k, t) in r
      && (r[SelectWire(b, k, t)] == 1 <==> Picked(b, k, vs, y, t))
  {
    var first := SelectStart(b, k, t);
    ChecksRun(b, k, t, k, vs, y, e);
    var mid := Run(Checks(b, k, t, k), e).value;
    SelectChainRun(b, k, t, vs, y, mid);
    var r := Run(Chain(OR, Range(first, k), first + k), mid).value;
    SelectAssemble(b, k, t, e, mid, r);
    AgreeTrans(e, mid, r, first, first + k);
  }

  /** Selection block t run after the earlier ones, which leave the input
      and equality wires alone. */
  lemma SelectRunAfter(b: nat, k: nat, t: nat, vs: seq<seq<Bit>>, y: seq<Bit>, e: Env, mid: Env)
    requires b >= 1 && k >= 1 && t < b && Operands(b, k, vs, y)
    requires InputsHeld(e, b, k, vs, y) && EqsUpTo(e, b, k, k, vs, y)
    requires Agree(e, mid, SelectStart(b, k, 0))
    ensures Run(Select(b, k, t), mid).Some?
    ensures var r := Run(Select(b, k, t), mid).value;
      && Agree(mid, r, SelectStart(b, k, t))
      && SelectWire(b, k, t) in r
      && (r[SelectWire(b, k, t)] == 1 <==> Picked(b, k, vs, y, t))
  {
    var s0 := SelectStart(b, k, 0);
    BlockStartMono(b, k, 0, k);
    InputsAgree(e, mid, s0, b, k, vs, y);
    EqsAgree(e, mid, s0, b, k, vs, y);
    SelectStartMono(b, k, 0, t);
    SelectRun(b, k, t, vs, y, mid);
  }

  /** The selection outputs of bits 0 .. m - 1 are on their wires in r. */
  ghost predicate PickedHeld(r: Env, b: nat, k: nat, m: nat, vs: seq<seq<Bit>>, y: seq<Bit>)
    requires b >= 1 && k >= 1 && m <= b && Operands(b, k, vs, y)
  {
    forall t :: 0 <= t < m ==>
      SelectWire(b, k, t) in r && (r[SelectWire(b, k, t)] == 1 <==> Picked(b, k, vs, y, t))
  }

  /** One more selection block keeps the earlier outputs and adds its own. */
  lemma SelectsStep(b: nat, k: nat, m: nat, vs: seq<seq<Bit>>, y: seq<Bit>, e: Env, mid: Env, r: Env)
    requires b >= 1 && k >= 1 && 1 <= m <= b && Operands(b, k, vs, y)
    requires Agree(e, mid, SelectStart(b, k, 0)) && PickedHeld(mid, b, k, m - 1, vs, y)
    requires Agree(mid, r, SelectStart(b, k, m - 1))
    requires SelectWire(b, k, m - 1) in r && (r[SelectWire(b, k, m - 1)] == 1 <==> Picked(b, k, vs, y, m - 1))
    ensures Agree(e, r, SelectStart(b, k, 0)) && PickedHeld(r, b, k, m, vs, y)
  {
    SelectStartMono(b, k, 0, m - 1);
    forall t | 0 <= t < m - 1
      ensures SelectWire(b, k, t) in r && r[SelectWire(b, k, t)] == mid[SelectWire(b, k, t)]
    {
      SelectWireBound(b, k, t);
      SelectStartMono(b, k, t + 1, m - 1);
    }
  }

  /** The selection blocks of bits 0 .. m - 1. */
  lemma {:induction false} SelectsRun(b: nat, k: nat, m: nat, vs: seq<seq<Bit>>, y: seq<Bit>, e: Env)
    requires b >= 1 && k >= 1 && m <= b && Operands(b, k, vs, y)
    requires InputsHeld(e, b, k, vs, y) && EqsUpTo(e, b, k, k, vs, y)
    ensures Run(Selects(b, k, m), e).Some?
    ensures var r := Run(Selects(b, k, m), e).value;
      Agree(e, r, SelectStart(b, k, 0)) && PickedHeld(r, b, k, m, vs, y)
    decreases m
  {
    if m > 0 {
      SelectsRun(b, k, m - 1, vs, y, e);
      SelectsNext(b, k, m, vs, y, e, Run(Selects(b, k, m - 1), e).value);
    }
  }

  /** From the run of the first m - 1 selection blocks to the run of m. */
  lemma SelectsNext(b: nat, k: nat, m: nat, vs: seq<seq<Bit>>, y: seq<Bit>, e: Env, mid: Env)
    requires b >= 1 && k >= 1 && 1 <= m <= b && Operands(b, k, vs, y)
    requires InputsHeld(e, b, k, vs, y) && EqsUpTo(e, b, k, k, vs, y)
    requires Run(Selects(b, k, m - 1), e) == Some(mid)
    requires Agree(e, mid, SelectStart(b, k, 0)) && PickedHeld(mid, b, k, m - 1, vs, y)
    ensures Run(Selects(b, k, m), e).Some?
    ensures var r := Run(Selects(b, k, m), e).value;
      Agree(e, r, SelectStart(b, k, 0)) && PickedHeld(r, b, k, m, vs, y)
  {
    SelectRunAfter(b, k, m - 1, vs, y, e, mid);
    var r := Run(Select(b, k, m - 1), mid).value;
    SelectsAssemble(b, k, m, e, mid, r);
    SelectsStep(b, k, m, vs, y, e, mid, r);
  }

  /** The whole comparison netlist is the equality blocks, the membership
      chain and the selection blocks in that order. */
  lemma CompareAssemble(b: nat, k: nat, env: Env, e1: Env, e2: Env, e3: Env)
    requires b >= 1 && k >= 1
    requires Run(Blocks(b, k, k), env) == Some(e1)
    requires Run(Membership(b, k), e1) == Some(e2)
    requires Run(Selects(b, k, b), e2) == Some(e3)
    ensures Run(CompareGates(b, k), env) == Some(e3)
  {
    RunAppend(Blocks(b, k, k), Membership(b, k), env, e1);
    RunAppend(Blocks(b, k, k) + Membership(b, k), Selects(b, k, b), env, e2);
  }

  /** After the equality blocks, the membership chain sees the inputs and
      the equality bits and leaves them alone. */
  lemma MembershipAfter(b: nat, k: nat, vs: seq<seq<Bit>>, y: seq<Bit>, env: Env, e1: Env)
    requires b >= 1 && k >= 1 && Operands(b, k, vs, y) && InputsHeld(env, b, k, vs, y)
    requires Agree(env, e1, FirstGate(b, k)) && EqsUpTo(e1, b, k, k, vs, y)
    ensures Run(Membership(b, k), e1).Some?
    ensures var e2 := Run(Membership(b, k), e1).value;
      && InputsHeld(e2, b, k, vs, y) && EqsUpTo(e2, b, k, k, vs, y)
      && MemberWire(b, k) in e2
      && (e2[MemberWire(b, k)] == 1 <==> exists v :: 0 <= v < k && vs[v] == y)
  {
    MembershipRun(b, k, vs, y, e1);
    var e2 := Run(Membership(b, k), e1).value;
    BlockStartMono(b, k, 0, k);
    InputsAgree(env, e1, FirstGate(b, k), b, k, vs, y);
    InputsAgree(e1, e2, OrStart(b, k), b, k, vs, y);
    EqsAgree(e1, e2, OrStart(b, k), b, k, vs, y);
  }

  /** Run on Alice's values and Bob's value, the comparison netlist leaves
      the membership bit on the membership wire and the selected bits on
      the selection wires. */
  lemma CompareRun(b: nat, k: nat, vs: seq<seq<Bit>>, y: seq<Bit>)
    requires b >= 1 && k >= 1 && Operands(b, k, vs, y)
    ensures Run(CompareGates(b, k), CompareEnv(vs, y)).Some?
    ensures var e := Run(CompareGates(b, k), CompareEnv(vs, y)).value;
      && MemberWire(b, k) in e
      && (e[MemberWire(b, k)] == 1 <==> exists v :: 0 <= v < k && vs[v] == y)
      && PickedHeld(e, b, k, b, vs, y)
  {
    var env := CompareEnv(vs, y);
    CompareEnvHolds(b, k, vs, y);
    BlocksRun(b, k, k, vs, y, env);
    var e1 := Run(Blocks(b, k, k), env).value;
    MembershipAfter(b, k, vs, y, env, e1);
    var e2 := Run(Membership(b, k), e1).value;
    SelectsRun(b, k, b, vs, y, e2);
    var e3 := Run(Selects(b, k, b), e2).value;
    CompareAssemble(b, k, env, e1, e2, e3);
    MemberWireBound(b, k);
  }

  /** What the comparison promises: a membership bit, then Bob's value when
      it is one of Alice's and all zeros otherwise. */
  function CompareSpec(vs: seq<seq<Bit>>, y: seq<Bit>): (r: seq<Bit>)
    ensures |r| == |y| + 1
    ensures r[0] == 1 <==> y in vs
  {
    if y in vs then [1] + y else [0] + Zeros(|y|)
  }

  /** Bit t of a selection output is the matching bit of Bob's value when it
      is one of Alice's. */
  lemma PickedIff(b: nat, k: nat, vs: seq<seq<Bit>>, y: seq<Bit>, t: nat)
    requires Operands(b, k, vs, y) && t < b
    ensures Picked(b, k, vs, y, t) <==> y in vs && y[t] == 1
  {
    if y in vs && y[t] == 1 {
      var v :| 0 <= v < k && vs[v] == y;
    }
  }

  /** Reading the output wires of an environment that holds the membership
      bit and the selected bits gives the promised outputs. */
  lemma OutputsRead(b: nat, k: nat, vs: seq<seq<Bit>>, y: seq<Bit>, e: Env)
    requires b >= 1 && k >= 1 && Operands(b, k, vs, y)
    requires MemberWire(b, k) in e
    requires e[MemberWire(b, k)] == 1 <==> exists v :: 0 <= v < k && vs[v] == y
    requires PickedHeld(e, b, k, b, vs, y)
    ensures forall i :: 0 <= i < |CompareOutputs(b, k)| ==> CompareOutputs(b, k)[i] in e
    ensures Values(e, CompareOutputs(b, k)) == CompareSpec(vs, y)
  {
    var outs := CompareOutputs(b, k);
    var spec := CompareSpec(vs, y);
    assert y in vs <==> exists v :: 0 <= v < k && vs[v] == y;
    forall i | 0 <= i < |outs|
      ensures outs[i] in e && e[outs[i]] == spec[i]
    {
      if i > 0 {
        PickedIff(b, k, vs, y, i - 1);
      }
    }
  }

  /** Functional correctness of `compare(b, k)`: evaluated on Alice's k
      values and Bob's value, the outputs are the membership bit and then
      Bob's value or zeros. */
  lemma CompareCorrect(b: nat, k: nat, vs: seq<seq<Bit>>, y: seq<Bit>)
    requires b >= 1 && k >= 1 && Operands(b, k, vs, y)
    ensures Run(CompareNetlist(b, k).gates, CompareEnv(vs, y)).Some?
    ensures var e := Run(CompareNetlist(b, k).gates, CompareEnv(vs, y)).value;
      var outs := CompareNetlist(b, k).outs;
      && (forall i :: 0 <= i < |outs| ==> outs[i] in e)
      && Values(e, outs) == CompareSpec(vs, y)
  {
    CompareRun(b, k, vs, y);
    OutputsRead(b, k, vs, y, Run(CompareGates(b, k), CompareEnv(vs, y)).value);
  }

  /** `compare(b, k)` is structurally sound: NOT gates have one input, the
      others two, each an input wire 1 .. b*k + b or an earlier gate, and
      the list is in topological order. */
  lemma CompareTopological(b: nat, k: nat)
    requires b >= 1 && k >= 1
    ensures WellFormed(WireSet(1, b * k + b), CompareGates(b, k))
    ensures Topological(CompareGates(b, k))
  {
    var env := CompareEnv(seq(k, v => Zeros(b)), Zeros(b));
    SampleRun(b, k);
    CompareLayout(b, k);
    RunIsTopological(CompareGates(b, k), env, 1, b * k + b, b * k + b + 1);
  }

  /** The gates run on the all-zero inputs, whose environment knows exactly
      the input wires. */
  lemma SampleRun(b: nat, k: nat)
    requires b >= 1 && k >= 1
    ensures Run(CompareGates(b, k), CompareEnv(seq(k, v => Zeros(b)), Zeros(b))).Some?
    ensures CompareEnv(seq(k, v => Zeros(b)), Zeros(b)).Keys == WireSet(1, b * k + b)
  {
    var vs := seq(k, v => Zeros(b));
    var y := Zeros(b);
    assert Operands(b, k, vs, y);
    CompareRun(b, k, vs, y);
    CompareEnvKeys(b, k, vs, y);
  }

  /** The comparison's input environment knows exactly wires 1 .. b*k + b. */
  lemma CompareEnvKeys(b: nat, k: nat, vs: seq<seq<Bit>>, y: seq<Bit>)
    requires Operands(b, k, vs, y)
    ensures CompareEnv(vs, y).Keys == WireSet(1, b * k + b)
  {
    ConcatLength(vs, b);
    RangeEnvKeys(1, Concat(vs) + y);
  }
}
