/** The two parties around one circuit: the agreement on the bit width
    before the circuit is built, how Alice reads the output lines she
    receives, and what the whole exchange computes when the circuit is
    evaluated on the parties' encoded inputs: the sum of the two sets' sums,
    or the values of Bob's set that are also in Alice's. */
module Protocol {
  import opened Wrappers
  import opened Bits
  import opened Circuit
  import opened Encoding
  import opened Inputs
  import opened Compare
  import opened CompareCorrect
  import opened CircuitFile

  /** `sum(values)`, left to right. */
  function Sum(values: seq<int>): int
    decreases |values|
  {
    if |values| == 0 then 0 else Sum(values[..|values| - 1]) + values[|values| - 1]
  }

  /** Every member of a set of non-negative values is at most its sum. */
  lemma {:induction false} SumBound(values: seq<int>, i: nat)
    requires forall j :: 0 <= j < |values| ==> values[j] >= 0
    requires i < |values|
    ensures 0 <= values[i] <= Sum(values)
    decreases |values|
  {
    var last := |values| - 1;
    SumNonNegative(values[..last]);
    if i < last {
      SumBound(values[..last], i);
    }
  }

  lemma {:induction false} SumNonNegative(values: seq<int>)
    requires forall j :: 0 <= j < |values| ==> values[j] >= 0
    ensures Sum(values) >= 0
    decreases |values|
  {
    if |values| > 0 {
      SumNonNegative(values[..|values| - 1]);
    }
  }

  /** The width both parties settle on: one more than the longer of the two
      bit lengths. */
  function Negotiated(aliceLength: nat, bobLength: nat): (w: nat)
    ensures w > aliceLength && w > bobLength
    ensures w == aliceLength + 1 || w == bobLength + 1
  {
    if bobLength > aliceLength then bobLength + 1 else aliceLength + 1
  }

  /** The evaluator's side of the set-up messages. */
  class Bob {
    var values: seq<int>
    var maxBitLength: int
    var operation: Option<int>

    constructor(values: seq<int>)
      ensures this.values == values && maxBitLength == 0 && operation == None
    {
      this.values := values;
      maxBitLength := 0;
      operation := None;
    }

    /** `update_set`. */
    method UpdateSet(newValues: seq<int>)
      modifies this
      ensures values == newValues
      ensures maxBitLength == old(maxBitLength) && operation == old(operation)
    {
      values := newValues;
    }

    /** A message carrying "operation": remember it and acknowledge. */
    method ReceiveOperation(op: int) returns (ack: bool)
      modifies this
      ensures operation == Some(op) && ack
      ensures values == old(values) && maxBitLength == old(maxBitLength)
    {
      operation := Some(op);
      ack := true;
    }

    /** A message with question 1 and Alice's length: reply with the larger
      of the two bit lengths and keep one more than it as the width. */
    method AnswerLengthQuery(length: int) returns (reply: int)
      modifies this
      ensures reply >= length && reply >= BinLength(Sum(values))
      ensures reply == length || reply == BinLength(Sum(values))
      ensures maxBitLength == reply + 1
      ensures values == old(values) && operation == old(operation)
    {
      var own := BinLength(Sum(values));
      if own > length {
        maxBitLength := own + 1;
        reply := own;
      } else {
        maxBitLength := length + 1;
        reply := length;
      }
    }
  }

  /** The garbler's side of the set-up: its set, the chosen operation and
      the agreed width. */
  class Alice {
    var values: seq<int>
    var operation: int
    var maxBitLength: int

    constructor(values: seq<int>, operation: int)
      ensures this.values == values && this.operation == operation && maxBitLength == 0
    {
      this.values := values;
      this.operation := operation;
      maxBitLength := 0;
    }

    /** `__exchange_max_bit_length`: send the bit length of her sum, keep
      one more than Bob's reply. Afterwards both hold the same width. */
    method ExchangeMaxBitLength(bob: Bob)
      modifies this, bob
      ensures maxBitLength == bob.maxBitLength
      ensures maxBitLength == Negotiated(BinLength(Sum(values)), BinLength(Sum(bob.values)))
      ensures values == old(values) && operation == old(operation)
      ensures bob.values == old(bob.values) && bob.operation == old(bob.operation)
    {
      var reply := bob.AnswerLengthQuery(BinLength(Sum(values)));
      maxBitLength := reply + 1;
    }
  }

  /** With non-negative sets, every value of either set and either sum has
      fewer bits than the negotiated width, so every encoding is exactly
      that wide and its top bit is 0. */
  lemma NegotiatedFits(aliceSet: seq<int>, bobSet: seq<int>, v: int)
    requires forall j :: 0 <= j < |aliceSet| ==> aliceSet[j] >= 0
    requires forall j :: 0 <= j < |bobSet| ==> bobSet[j] >= 0
    requires v in aliceSet || v in bobSet || v == Sum(aliceSet) || v == Sum(bobSet)
    ensures v >= 0
    ensures BinLength(v) < Negotiated(BinLength(Sum(aliceSet)), BinLength(Sum(bobSet)))
  {
    SumNonNegative(aliceSet);
    SumNonNegative(bobSet);
    if v in aliceSet {
      var i :| 0 <= i < |aliceSet| && aliceSet[i] == v;
      SumBound(aliceSet, i);
      BinLengthMonotone(v, Sum(aliceSet));
    } else if v in bobSet {
      var i :| 0 <= i < |bobSet| && bobSet[i] == v;
      SumBound(bobSet, i);
      BinLengthMonotone(v, Sum(bobSet));
    }
  }

  /** What the sum read-out loop ends with: the value of the last line; None
      when there is no line (the result variable is never bound) or a line
      is not binary digits and spaces. */
  function SumResult(lines: seq<string>): Option<nat>
  {
    if |lines| == 0 || exists i :: 0 <= i < |lines| && DecodeText(lines[i]).None? then None
    else DecodeText(lines[|lines| - 1])
  }

  /** `__interpret_result` for operation 0: decode every line in turn. */
  method InterpretSum(lines: seq<string>) returns (r: Option<nat>)
    ensures r == SumResult(lines)
  {
    r := None;
    for i := 0 to |lines|
      invariant forall j :: 0 <= j < i ==> DecodeText(lines[j]).Some?
      invariant r == if i == 0 then None else DecodeText(lines[i - 1])
    {
      var v := DecodeText(lines[i]);
      if v.None? {
        return None;
      }
      r := v;
    }
  }

  /** What one output line adds to the common values: after removing the
      spaces, a first digit "1" adds the number the remaining digits stand
      for, read in reverse; any other first digit adds nothing. None when
      the line is empty (IndexError) or the digits after a "1" are not
      binary. */
  function CompareLine(line: string): Option<set<nat>>
  {
    var result := RemoveSpaces(line);
    if |result| == 0 then None
    else if result[0] == '1' then
      match ParseBinary(Reverse(result[1..]))
      case None => None
      case Some(v) => Some({v})
    else Some({})
  }

  /** The set the compare read-out loop builds from all lines. */
  function CommonValues(lines: seq<string>): Option<set<nat>>
    decreases |lines|
  {
    if |lines| == 0 then Some({})
    else match CommonValues(lines[..|lines| - 1])
      case None => None
      case Some(acc) =>
        match CompareLine(lines[|lines| - 1])
        case None => None
        case Some(added) => Some(acc + added)
  }

  /** A line that fails makes the whole read-out fail. */
  lemma {:induction false} CommonValuesFails(lines: seq<string>, n: nat)
    requires n <= |lines| && CommonValues(lines[..n]).None?
    ensures CommonValues(lines).None?
    decreases |lines| - n
  {
    if n < |lines| {
      assert lines[..n + 1][..n] == lines[..n];
      CommonValuesFails(lines, n + 1);
    } else {
      assert lines[..n] == lines;
    }
  }

  /** `__interpret_result` for operation 1. */
  method InterpretCompare(lines: seq<string>) returns (r: Option<set<nat>>)
    ensures r == CommonValues(lines)
  {
    var common: set<nat> := {};
    for i := 0 to |lines|
      invariant CommonValues(lines[..i]) == Some(common)
    {
      assert lines[..i + 1][..i] == lines[..i];
      var result := RemoveSpaces(lines[i]);
      if |result| == 0 {
        CommonValuesFails(lines, i + 1);
        return None;
      }
      var added: set<nat> := {};
      if result[0] == '1' {
        var v := ParseBinary(Reverse(result[1..]));
        if v.None? {
          CommonValuesFails(lines, i + 1);
          return None;
        }
        added := {v.value};
      }
      assert CompareLine(lines[..i + 1][i]) == Some(added);
      CommonValuesSnoc(lines[..i + 1], common, added);
      common := common + added;
    }
    assert lines[..|lines|] == lines;
    r := Some(common);
  }

  /** Sum mode, one round: the addition circuit of width w evaluated on
      Alice's w bits on her wires and Bob's w bits on his outputs w + 1 bits
      standing for the total, and that output printed and read back gives
      the number it stands for. */
  lemma SumRound(w: nat, a: seq<Bit>, b: seq<Bit>)
    requires |a| == w && |b| == w && w >= 1
    ensures Evaluate(AdditionNetlist(w), a, b).Some?
    ensures |Evaluate(AdditionNetlist(w), a, b).value| == w + 1
    ensures Val(Evaluate(AdditionNetlist(w), a, b).value) == Val(a) + Val(b)
    ensures SumResult([Render(Evaluate(AdditionNetlist(w), a, b).value)])
      == Some(Val(Evaluate(AdditionNetlist(w), a, b).value))
  {
    AdditionEvaluates(w, a, b);
    ReadSum(Evaluate(AdditionNetlist(w), a, b).value);
  }

  /** Sum mode, the parties' inputs: at the negotiated width each sum is
      encoded in exactly w bits that stand for it, so SumRound reads back
      the sum of the two sums. */
  lemma SumInputs(aliceSum: nat, bobSum: nat, w: nat, a: seq<Bit>, b: seq<Bit>)
    requires w == Negotiated(BinLength(aliceSum), BinLength(bobSum))
    requires Encoded(aliceSum, w) == Some(a) && Encoded(bobSum, w) == Some(b)
    ensures |a| == w && |b| == w && w >= 1
    ensures Val(a) + Val(b) == aliceSum + bobSum
  {
    EncodedFits(aliceSum, w);
    EncodedFits(bobSum, w);
  }

  /** Output bits, printed as the only line, read back as the number they
      stand for. */
  lemma ReadSum(out: seq<Bit>)
    requires |out| >= 1
    ensures SumResult([Render(out)]) == Some(Val(out))
  {
    DecodeRendered(out);
    SingleLine(Render(out));
  }

  /** A single line that decodes is the sum read-out's result. */
  lemma SingleLine(line: string)
    requires DecodeText(line).Some?
    ensures SumResult([line]) == DecodeText(line)
  {
    assert [line][0] == line;
  }

  /** Bob's value y, encoded at the width, is one of the encodings of
      Alice's values exactly when y is one of her values. */
  lemma EncodedMember(aliceSet: seq<int>, w: nat, vs: seq<seq<Bit>>, y: nat)
    requires SetEncodings(aliceSet, w) == Some(vs)
    ensures Encoded(y, w).value in vs <==> y in aliceSet
  {
    var yBits := Encoded(y, w).value;
    if yBits in vs {
      var i :| 0 <= i < |vs| && vs[i] == yBits;
      assert Val(vs[i]) == aliceSet[i];
    }
    if y in aliceSet {
      var i :| 0 <= i < |aliceSet| && aliceSet[i] == y;
      assert Encoded(aliceSet[i], w) == Some(vs[i]);
    }
  }

  /** One comparison round read back: the line printed from the comparison
      circuit's output adds {y} to the common values when y is one of
      Alice's values and nothing otherwise. */
  lemma CompareLineReads(aliceSet: seq<int>, w: nat, vs: seq<seq<Bit>>, y: nat)
    requires SetEncodings(aliceSet, w) == Some(vs)
    requires BinLength(y) <= w
    ensures CompareLine(Render(CompareSpec(vs, Encoded(y, w).value))) ==
      Some(if y in aliceSet then {y} else {})
  {
    var yBits := Encoded(y, w).value;
    EncodedFits(y, w);
    BinLengthBounds(y);
    EncodedMember(aliceSet, w, vs, y);
    var out := CompareSpec(vs, yBits);
    LineOfBits(out);
    if y in aliceSet {
      assert out[1..] == yBits;
    }
  }

  /** A printed line of at least two bits reads as the value of the bits
      after the first when the first is 1, and as no value otherwise. */
  lemma LineOfBits(out: seq<Bit>)
    requires |out| >= 2
    ensures CompareLine(Render(out)) == if out[0] == 1 then Some({Val(out[1..])}) else Some({})
  {
    RemoveSpacesRender(out);
    var result := RemoveSpaces(Render(out));
    assert result == DigitText(out);
    if out[0] == 1 {
      assert result[1..] == DigitText(out[1..]);
      ParseReversedDigits(out[1..]);
    } else {
      assert result[0] == '0';
    }
  }

  /** The values of Bob's that are also Alice's. */
  function Common(bobSet: seq<nat>, aliceSet: seq<int>): set<nat>
  {
    set y | y in bobSet && y in aliceSet
  }

  /** The lines of one comparison round per value of Bob's (permuted) set. */
  function RoundLines(vs: seq<seq<Bit>>, w: nat, bobSet: seq<nat>): (r: seq<string>)
    ensures |r| == |bobSet|
  {
    seq(|bobSet|, j requires 0 <= j < |bobSet| => Render(CompareSpec(vs, Encoded(bobSet[j], w).value)))
  }

  /** Compare mode read-out: over all of Bob's values, Alice collects
      exactly the values the two sets have in common. */
  lemma CommonValuesIntersect(aliceSet: seq<int>, w: nat, vs: seq<seq<Bit>>, bobSet: seq<nat>)
    requires SetEncodings(aliceSet, w) == Some(vs)
    requires forall j :: 0 <= j < |bobSet| ==> BinLength(bobSet[j]) <= w
    ensures CommonValues(RoundLines(vs, w, bobSet)) == Some(Common(bobSet, aliceSet))
  {
    var lines := RoundLines(vs, w, bobSet);
    forall j | 0 <= j < |bobSet|
      ensures CompareLine(lines[j]) == Some(if bobSet[j] in aliceSet then {bobSet[j]} else {})
    {
      CompareLineReads(aliceSet, w, vs, bobSet[j]);
    }
    CommonValuesCollect(lines, bobSet, aliceSet);
  }

  /** Lines that each add Bob's value exactly when Alice has it add up to
      the common values. */
  lemma {:induction false} CommonValuesCollect(lines: seq<string>, bobSet: seq<nat>, aliceSet: seq<int>)
    requires |lines| == |bobSet|
    requires forall j :: 0 <= j < |lines| ==>
      CompareLine(lines[j]) == Some(if bobSet[j] in aliceSet then {bobSet[j]} else {})
    ensures CommonValues(lines) == Some(Common(bobSet, aliceSet))
    decreases |lines|
  {
    if |lines| > 0 {
      var last := |lines| - 1;
      var init := bobSet[..last];
      var y := bobSet[last];
      assert bobSet == init + [y];
      assert forall j :: 0 <= j < last ==> lines[..last][j] == lines[j] && init[j] == bobSet[j];
      IntersectSnoc(init, y, aliceSet);
      CommonValuesCollect(lines[..last], init, aliceSet);
      CommonValuesSnoc(lines, Common(init, aliceSet), if y in aliceSet then {y} else {});
    } else {
      assert Common(bobSet, aliceSet) == {};
    }
  }

  /** One more line adds its values to those of the lines before it. */
  lemma CommonValuesSnoc(lines: seq<string>, acc: set<nat>, added: set<nat>)
    requires |lines| >= 1
    requires CommonValues(lines[..|lines| - 1]) == Some(acc)
    requires CompareLine(lines[|lines| - 1]) == Some(added)
    ensures CommonValues(lines) == Some(acc + added)
  {
  }

  /** The common values grow by the new value exactly when it is one of
      Alice's. */
  lemma IntersectSnoc(init: seq<nat>, y: nat, aliceSet: seq<int>)
    ensures Common(init, aliceSet) + (if y in aliceSet then {y} else {}) == Common(init + [y], aliceSet)
  {
  }

  /** Compare mode, one round: Alice's values encoded one after another on
      her wires and Bob's value on his, the comparison circuit outputs the
      line CompareLineReads reads. */
  lemma CompareRound(aliceSet: seq<int>, w: nat, vs: seq<seq<Bit>>, y: nat)
    requires forall i :: 0 <= i < |aliceSet| ==> 0 <= aliceSet[i] && BinLength(aliceSet[i]) <= w
    requires SetEncodings(aliceSet, w) == Some(vs)
    requires |aliceSet| >= 1 && w >= 1 && BinLength(y) <= w
    ensures |Encoded(y, w).value| == w
    ensures Evaluate(CompareNetlist(w, |aliceSet|), Concat(vs), Encoded(y, w).value)
      == Some(CompareSpec(vs, Encoded(y, w).value))
  {
    var k := |aliceSet|;
    var yBits := Encoded(y, w).value;
    EncodedFits(y, w);
    forall i | 0 <= i < k
      ensures |vs[i]| == w
    {
      EncodedFits(aliceSet[i], w);
    }
    CompareEvaluates(w, k, vs, yBits);
  }

  /** Sum mode end to end: at a width both sums fit in (the negotiated
      width is one, see Negotiated), the adder evaluated on the encodings a
      and b of the two parties' sums prints the line Alice reads as their
      total. */
  lemma SumReadOut(aliceSum: nat, bobSum: nat, w: nat, a: seq<Bit>, b: seq<Bit>)
    requires w >= 1 && BinLength(aliceSum) <= w && BinLength(bobSum) <= w
    requires Encoded(aliceSum, w) == Some(a) && Encoded(bobSum, w) == Some(b)
    ensures Evaluate(AdditionNetlist(w), a, b).Some?
    ensures SumResult([Render(Evaluate(AdditionNetlist(w), a, b).value)]).Some?
    ensures SumResult([Render(Evaluate(AdditionNetlist(w), a, b).value)]).value == aliceSum + bobSum
  {
    EncodedFits(aliceSum, w);
    EncodedFits(bobSum, w);
    AdditionEvaluates(w, a, b);
    ReadValue(Evaluate(AdditionNetlist(w), a, b).value, aliceSum + bobSum);
  }

  /** Output bits worth `total`, printed as the only line, read back as
      `total`. */
  lemma ReadValue(out: seq<Bit>, total: nat)
    requires |out| >= 1 && Val(out) == total
    ensures SumResult([Render(out)]).Some? && SumResult([Render(out)]).value == total
  {
    ReadSum(out);
  }

  /** The lines Bob's compare rounds produce: the circuit evaluated with
      Alice's bits `a` against each of Bob's values encoded at the width,
      in his order. None when his set is empty: the final end-of-stream
      evaluation then reads an input map that was never assigned. None
      when one of his values is negative, whose binary text cannot be
      converted bit by bit, and None when an evaluation fails. */
  function BobRounds(c: Netlist, a: seq<Bit>, w: nat, bobSet: seq<int>): (r: Option<seq<string>>)
    ensures r.Some? <==>
      |bobSet| >= 1 && forall j :: 0 <= j < |bobSet| ==>
        Encoded(bobSet[j], w).Some? && Evaluate(c, a, Encoded(bobSet[j], w).value).Some?
    ensures (exists j :: 0 <= j < |bobSet| && bobSet[j] < 0) ==> r.None?
    ensures r.Some? ==> |r.value| == |bobSet|
  {
    if |bobSet| == 0 then None
    else if exists j :: 0 <= j < |bobSet| && Encoded(bobSet[j], w).None? then None
    else if exists j :: 0 <= j < |bobSet| && Evaluate(c, a, Encoded(bobSet[j], w).value).None? then None
    else Some(seq(|bobSet|, j requires 0 <= j < |bobSet| => Render(Evaluate(c, a, Encoded(bobSet[j], w).value).value)))
  }

  /** Compare mode end to end: with Alice's values on the compare circuit,
      Bob's rounds yield lines exactly when his set is not empty, and Alice
      reads from them exactly the values the two sets have in common. */
  lemma CompareReadOut(aliceSet: seq<int>, w: nat, vs: seq<seq<Bit>>, bobSet: seq<int>)
    requires forall i :: 0 <= i < |aliceSet| ==> 0 <= aliceSet[i] && BinLength(aliceSet[i]) <= w
    requires SetEncodings(aliceSet, w) == Some(vs)
    requires |aliceSet| >= 1 && w >= 1
    requires forall j :: 0 <= j < |bobSet| ==> 0 <= bobSet[j] && BinLength(bobSet[j]) <= w
    ensures BobRounds(CompareNetlist(w, |aliceSet|), Concat(vs), w, bobSet).None? <==> |bobSet| == 0
    ensures |bobSet| >= 1 ==>
      CommonValues(BobRounds(CompareNetlist(w, |aliceSet|), Concat(vs), w, bobSet).value)
        == Some(Common(bobSet, aliceSet))
  {
    var c := CompareNetlist(w, |aliceSet|);
    forall j | 0 <= j < |bobSet|
      ensures Evaluate(c, Concat(vs), Encoded(bobSet[j], w).value) == Some(CompareSpec(vs, Encoded(bobSet[j], w).value))
    {
      CompareRound(aliceSet, w, vs, bobSet[j]);
    }
    RoundsRead(c, Concat(vs), aliceSet, w, vs, bobSet);
  }

  /** Rounds of any circuit whose outputs are the specified comparison
      outputs are read as the common values. */
  lemma RoundsRead(c: Netlist, a: seq<Bit>, aliceSet: seq<int>, w: nat, vs: seq<seq<Bit>>, bobSet: seq<nat>)
    requires SetEncodings(aliceSet, w) == Some(vs)
    requires forall j :: 0 <= j < |bobSet| ==> BinLength(bobSet[j]) <= w
    requires forall j :: 0 <= j < |bobSet| ==>
      Evaluate(c, a, Encoded(bobSet[j], w).value) == Some(CompareSpec(vs, Encoded(bobSet[j], w).value))
    ensures BobRounds(c, a, w, bobSet).None? <==> |bobSet| == 0
    ensures |bobSet| >= 1 ==> CommonValues(BobRounds(c, a, w, bobSet).value) == Some(Common(bobSet, aliceSet))
  {
    if |bobSet| >= 1 {
      var lines := BobRounds(c, a, w, bobSet).value;
      assert forall j :: 0 <= j < |bobSet| ==> lines[j] == RoundLines(vs, w, bobSet)[j];
      assert lines == RoundLines(vs, w, bobSet);
      CommonValuesIntersect(aliceSet, w, vs, bobSet);
    }
  }
}
