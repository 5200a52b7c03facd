/** Layout facts about `compare(b, k)`: where each block starts, how many
    gates there are, and that their ids run consecutively from the first
    gate id. */
module CompareShape {
  import opened Circuit
  import opened Compare

  /** Closed form of the block start: k blocks of 3b - 1 gates each. */
  lemma {:induction false} BlockStartIs(b: nat, k: nat, v: nat)
    requires b >= 1
    ensures BlockStart(b, k, v) == FirstGate(b, k) + v * (3 * b - 1)
    decreases v
  {
    if v > 0 {
      BlockStartIs(b, k, v - 1);
      assert v * (3 * b - 1) == (v - 1) * (3 * b - 1) + (3 * b - 1);
    }
  }

  /** Closed form of the selection block start: b blocks of 2k - 1 gates. */
  lemma {:induction false} SelectStartIs(b: nat, k: nat, t: nat)
    requires b >= 1 && k >= 1
    ensures SelectStart(b, k, t) == OrStart(b, k) + (k - 1) + t * (2 * k - 1)
    decreases t
  {
    if t > 0 {
      SelectStartIs(b, k, t - 1);
      assert t * (2 * k - 1) == (t - 1) * (2 * k - 1) + (2 * k - 1);
    }
  }

  /** Later blocks start at least one whole block later. */
  lemma {:induction false} BlockStartMono(b: nat, k: nat, u: nat, v: nat)
    requires b >= 1 && u <= v
    ensures BlockStart(b, k, u) <= BlockStart(b, k, v)
    ensures u < v ==> BlockStart(b, k, u) + 3 * b - 1 <= BlockStart(b, k, v)
    decreases v
  {
    if u < v {
      BlockStartMono(b, k, u, v - 1);
    }
  }

  /** Later selection blocks start at least one whole block later. */
  lemma {:induction false} SelectStartMono(b: nat, k: nat, u: nat, t: nat)
    requires b >= 1 && k >= 1 && u <= t
    ensures SelectStart(b, k, u) <= SelectStart(b, k, t)
    ensures u < t ==> SelectStart(b, k, u) + 2 * k - 1 <= SelectStart(b, k, t)
    decreases t
  {
    if u < t {
      SelectStartMono(b, k, u, t - 1);
    }
  }

  /** The equality wire of value v is a gate of block v. */
  lemma EqWireBound(b: nat, k: nat, v: nat)
    requires b >= 1
    ensures BlockStart(b, k, v) < EqWire(b, k, v) < BlockStart(b, k, v + 1)
  {
  }

  /** The output wire of bit t is a gate of selection block t. */
  lemma SelectWireBound(b: nat, k: nat, t: nat)
    requires b >= 1 && k >= 1
    ensures SelectStart(b, k, t) <= SelectWire(b, k, t) < SelectStart(b, k, t + 1)
  {
  }

  /** The membership wire lies below the first selection block. */
  lemma MemberWireBound(b: nat, k: nat)
    requires b >= 1 && k >= 1
    ensures MemberWire(b, k) < SelectStart(b, k, 0)
  {
    if k == 1 {
      EqWireBound(b, k, 0);
    }
  }

  lemma {:induction false} XorNotsShape(b: nat, k: nat, v: nat, first: nat, m: nat)
    ensures |XorNots(b, k, v, first, m)| == 2 * m
    ensures ConsecutiveIds(XorNots(b, k, v, first, m), first)
    decreases m
  {
    if m > 0 {
      XorNotsShape(b, k, v, first, m - 1);
      var x := first + 2 * (m - 1);
      ConsecutiveAppend(XorNots(b, k, v, first, m - 1),
        [Gate(x, XOR, [AliceWire(b, v, m - 1), BobWire(b, k, m - 1)]), Gate(x + 1, NOT, [x])], first);
    }
  }

  /** Block v: 2b XOR/NOT gates and b - 1 AND gates, ids consecutive. */
  lemma BlockShape(b: nat, k: nat, v: nat)
    requires b >= 1
    ensures |Block(b, k, v)| == 3 * b - 1
    ensures ConsecutiveIds(Block(b, k, v), BlockStart(b, k, v))
  {
    var first := BlockStart(b, k, v);
    XorNotsShape(b, k, v, first, b);
    ChainShape(AND, Nots(b, k, v), first + 2 * b);
    ConsecutiveAppend(XorNots(b, k, v, first, b), Chain(AND, Nots(b, k, v), first + 2 * b), first);
  }

  lemma {:induction false} BlocksShape(b: nat, k: nat, m: nat)
    requires b >= 1
    ensures FirstGate(b, k) + |Blocks(b, k, m)| == BlockStart(b, k, m)
    ensures ConsecutiveIds(Blocks(b, k, m), FirstGate(b, k))
    decreases m
  {
    if m > 0 {
      BlocksShape(b, k, m - 1);
      BlockShape(b, k, m - 1);
      ConsecutiveAppend(Blocks(b, k, m - 1), Block(b, k, m - 1), FirstGate(b, k));
    }
  }

  lemma ChecksShape(b: nat, k: nat, t: nat, m: nat)
    requires b >= 1 && k >= 1
    ensures |Checks(b, k, t, m)| == m
    ensures ConsecutiveIds(Checks(b, k, t, m), SelectStart(b, k, t))
  {
  }

  /** Selection block t: k AND gates and k - 1 OR gates, ids consecutive. */
  lemma SelectShape(b: nat, k: nat, t: nat)
    requires b >= 1 && k >= 1
    ensures |Select(b, k, t)| == 2 * k - 1
    ensures ConsecutiveIds(Select(b, k, t), SelectStart(b, k, t))
  {
    var first := SelectStart(b, k, t);
    ChecksShape(b, k, t, k);
    ChainShape(OR, Range(first, k), first + k);
    ConsecutiveAppend(Checks(b, k, t, k), Chain(OR, Range(first, k), first + k), first);
  }

  lemma {:induction false} SelectsShape(b: nat, k: nat, m: nat)
    requires b >= 1 && k >= 1
    ensures SelectStart(b, k, 0) + |Selects(b, k, m)| == SelectStart(b, k, m)
    ensures ConsecutiveIds(Selects(b, k, m), SelectStart(b, k, 0))
    decreases m
  {
    if m > 0 {
      var init, last := Selects(b, k, m - 1), Select(b, k, m - 1);
      SelectsShape(b, k, m - 1);
      SelectShape(b, k, m - 1);
      assert Selects(b, k, m) == init + last;
      assert SelectStart(b, k, m) == SelectStart(b, k, m - 1) + |last|;
      ConsecutiveAppend(init, last, SelectStart(b, k, 0));
    }
  }

  /** The gate count in closed form. */
  lemma GateTotal(b: nat, k: nat, blocks: int, selects: int)
    requires b >= 1 && k >= 1
    requires blocks == k * (3 * b - 1) && selects == b * (2 * k - 1)
    ensures blocks + (k - 1) + selects == 5 * b * k - b - 1
  {
  }

  /** `compare(b, k)` emits 5bk - b - 1 gates with consecutive ids from
      b*k + b + 1, and b + 1 outputs. */
  lemma CompareLayout(b: nat, k: nat)
    requires b >= 1 && k >= 1
    ensures |CompareGates(b, k)| == 5 * b * k - b - 1
    ensures ConsecutiveIds(CompareGates(b, k), b * k + b + 1)
    ensures |CompareOutputs(b, k)| == b + 1
  {
    var blocks, member, selects := Blocks(b, k, k), Membership(b, k), Selects(b, k, b);
    var first := FirstGate(b, k);
    BlocksShape(b, k, k);
    ChainShape(OR, EqWires(b, k, k), OrStart(b, k));
    SelectsShape(b, k, b);
    ConsecutiveAppend(blocks, member, first);
    ConsecutiveAppend(blocks + member, selects, first);
    BlockStartIs(b, k, k);
    SelectStartIs(b, k, b);
    GateTotal(b, k, |blocks|, |selects|);
  }
}
