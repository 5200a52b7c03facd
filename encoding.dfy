/** How both parties turn an integer into the bits they feed a circuit
    (the binary digits of the number, least significant first, zero padded
    up to the agreed width) and how Alice reads a number back from the
    output bits (the bits printed with spaces between them, the spaces
    removed, the string reversed and parsed in base 2). */
module Encoding {
  import opened Wrappers
  import opened Bits

  /** The binary digits of v, least significant first, with no zero above
      the top one bit; 0 has the single digit 0. */
  function LsbBits(v: nat): (r: seq<Bit>)
    ensures |r| >= 1 && Val(r) == v
    ensures r[|r| - 1] == (if v == 0 then 0 else 1)
    ensures v == 0 ==> |r| == 1
    decreases v
  {
    if v < 2 then [v]
    else
      var rest := LsbBits(v / 2);
      assert ([v % 2] + rest)[1..] == rest;
      [v % 2] + rest
  }

  /** The binary digits of v, least significant first, one integer per
      digit; None for a negative v, whose binary text keeps a letter that
      the digit conversion rejects. */
  function Digits(v: int): (r: Option<seq<Bit>>)
    ensures r.None? <==> v < 0
    ensures r.Some? ==> Val(r.value) == v && |r.value| == BinLength(v)
  {
    if v < 0 then None else Some(LsbBits(v))
  }

  /** The length of v's binary text after its two-character prefix: the
      number of binary digits of v, plus one for the leftover prefix letter
      when v is negative. */
  function BinLength(v: int): nat
  {
    if v < 0 then 1 + |LsbBits(-v)| else |LsbBits(v)|
  }

  /** A list of bits whose top bit is 1 stands for at least 2^(|s| - 1). */
  lemma ValTop(s: seq<Bit>)
    requires |s| >= 1 && s[|s| - 1] == 1
    ensures Val(s) >= Pow2(|s| - 1)
  {
    var n := |s| - 1;
    assert s == s[..n] + [1];
    ValAppend(s[..n], 1);
  }

  /** BinLength(v) is the bit length of a non-negative v: the least n with
      v < 2^n, and at least 1. */
  lemma BinLengthBounds(v: nat)
    ensures BinLength(v) >= 1 && v < Pow2(BinLength(v))
    ensures v >= 1 ==> Pow2(BinLength(v) - 1) <= v
  {
    ValBound(LsbBits(v));
    if v >= 1 {
      ValTop(LsbBits(v));
    }
  }

  /** A smaller number has no more binary digits. */
  lemma BinLengthMonotone(u: nat, v: nat)
    requires u <= v
    ensures BinLength(u) <= BinLength(v)
  {
    BinLengthBounds(u);
    BinLengthBounds(v);
    if BinLength(u) > BinLength(v) {
      Pow2Monotone(BinLength(v), BinLength(u) - 1);
      assert false;
    }
  }

  /** The digit list after the padding loop: zeros appended up to the width
      when it is shorter, unchanged otherwise. */
  function Padded(bits: seq<Bit>, width: int): (r: seq<Bit>)
    ensures |r| == if |bits| < width then width else |bits|
    ensures r[..|bits|] == bits
    ensures forall i :: |bits| <= i < |r| ==> r[i] == 0
    ensures Val(r) == Val(bits)
  {
    if |bits| < width then
      ValZeros(bits, width - |bits|);
      bits + Zeros(width - |bits|)
    else bits
  }

  /** The padding loop: append zeros one at a time until the list reaches
      the width; a longer list is left alone. */
  method PadBits(bits: seq<Bit>, width: int) returns (r: seq<Bit>)
    ensures r == Padded(bits, width)
  {
    r := bits;
    if |r| < width {
      for i := 0 to width - |bits|
        invariant r == bits + Zeros(i)
      {
        assert Zeros(i + 1) == Zeros(i) + [0];
        r := r + [0];
      }
    }
  }

  /** The padded encoding of v at the given width, None for a negative v. */
  function Encoded(v: int, width: int): (r: Option<seq<Bit>>)
    ensures r.None? <==> v < 0
    ensures r.Some? ==> Val(r.value) == v
    ensures r.Some? ==> |r.value| == if BinLength(v) < width then width else BinLength(v)
  {
    match Digits(v)
    case None => None
    case Some(bits) => Some(Padded(bits, width))
  }

  /** The encoding each party runs on its number: the digit list, then the
      padding loop. */
  method EncodeValue(v: int, width: int) returns (r: Option<seq<Bit>>)
    ensures r == Encoded(v, width)
  {
    var bits := Digits(v);
    if bits.None? {
      return None;
    }
    var padded := PadBits(bits.value, width);
    r := Some(padded);
  }

  /** A value whose bit length is below the width is encoded in exactly
      width bits, and the encoding determines the value. */
  lemma EncodedFits(v: nat, width: int)
    requires BinLength(v) <= width
    ensures Encoded(v, width).Some? && |Encoded(v, width).value| == width
  {
  }

  /** Two non-negative values have the same encoding at a width exactly when
      they are equal. */
  lemma EncodedInjective(u: nat, v: nat, width: int)
    ensures Encoded(u, width) == Encoded(v, width) <==> u == v
  {
    if Encoded(u, width) == Encoded(v, width) {
      assert Val(Encoded(u, width).value) == Val(Encoded(v, width).value);
    }
  }

  /** The digit printed for a bit. */
  function DigitChar(x: Bit): char
  {
    if x == 0 then '0' else '1'
  }

  /** The digits of a bit list, one character per bit, in list order. */
  function DigitText(bits: seq<Bit>): (r: string)
    ensures |r| == |bits|
  {
    seq(|bits|, i requires 0 <= i < |bits| => DigitChar(bits[i]))
  }

  /** The bits as an output line is printed: each bit as a digit, a
      space between each two. */
  function Render(bits: seq<Bit>): string
  {
    if |bits| == 0 then ""
    else if |bits| == 1 then [DigitChar(bits[0])]
    else [DigitChar(bits[0]), ' '] + Render(bits[1..])
  }

  /** The string without its spaces. */
  function RemoveSpaces(s: string): (r: string)
    ensures |r| <= |s|
    ensures forall i :: 0 <= i < |r| ==> r[i] != ' '
    ensures (forall i :: 0 <= i < |s| ==> s[i] != ' ') ==> r == s
    ensures s == " " ==> r == ""
  {
    if |s| == 0 then ""
    else if s[0] == ' ' then RemoveSpaces(s[1..])
    else [s[0]] + RemoveSpaces(s[1..])
  }

  /** Spaces are removed piece by piece: with the single-space and the
      space-free cases of its contract, this fixes RemoveSpaces on every
      string. */
  lemma {:induction false} RemoveSpacesAppend(s: string, t: string)
    ensures RemoveSpaces(s + t) == RemoveSpaces(s) + RemoveSpaces(t)
    decreases |s|
  {
    if |s| > 0 {
      assert (s + t)[1..] == s[1..] + t;
      RemoveSpacesAppend(s[1..], t);
    } else {
      assert s + t == t;
    }
  }

  /** The string reversed. */
  function Reverse(s: string): (r: string)
    ensures |r| == |s|
    ensures forall i :: 0 <= i < |s| ==> r[i] == s[|s| - 1 - i]
  {
    if |s| == 0 then "" else Reverse(s[1..]) + [s[0]]
  }

  predicate IsBinaryDigit(c: char)
  {
    c == '0' || c == '1'
  }

  /** `int(s, 2)` on a string of binary digits, most significant first;
      None for the empty string or any other character. */
  function ParseBinary(s: string): (r: Option<nat>)
    ensures r.Some? <==> |s| >= 1 && forall i :: 0 <= i < |s| ==> IsBinaryDigit(s[i])
    decreases |s|
  {
    if |s| == 0 || !IsBinaryDigit(s[|s| - 1]) then None
    else
      var d := if s[|s| - 1] == '0' then 0 else 1;
      if |s| == 1 then Some(d)
      else match ParseBinary(s[..|s| - 1])
        case None => None
        case Some(high) => Some(2 * high + d)
  }

  /** How Alice reads a sum line: drop the spaces, reverse, parse in
      base 2. */
  function DecodeText(s: string): Option<nat>
  {
    ParseBinary(Reverse(RemoveSpaces(s)))
  }

  /** Removing the spaces from the printed bits leaves their digits. */
  lemma {:induction false} RemoveSpacesRender(bits: seq<Bit>)
    ensures RemoveSpaces(Render(bits)) == DigitText(bits)
    decreases |bits|
  {
    if |bits| >= 2 {
      var rest := Render(bits[1..]);
      assert ([DigitChar(bits[0]), ' '] + rest)[1..] == [' '] + rest;
      assert ([' '] + rest)[1..] == rest;
      RemoveSpacesRender(bits[1..]);
      assert DigitText(bits) == [DigitChar(bits[0])] + DigitText(bits[1..]);
    }
  }

  /** Appending a digit doubles the parsed value and adds the digit. */
  lemma ParseSnoc(s: string, c: char)
    requires IsBinaryDigit(c) && ParseBinary(s).Some?
    ensures ParseBinary(s + [c]) == Some(2 * ParseBinary(s).value + (if c == '0' then 0 else 1))
  {
    assert (s + [c])[..|s|] == s;
  }

  /** Parsing the reversed digits of a non-empty bit list in base 2 gives
      back its least-significant-first value. */
  lemma {:induction false} ParseReversedDigits(bits: seq<Bit>)
    requires |bits| >= 1
    ensures ParseBinary(Reverse(DigitText(bits))) == Some(Val(bits))
    decreases |bits|
  {
    var t := DigitText(bits);
    assert Reverse(t) == Reverse(t[1..]) + [t[0]];
    if |bits| == 1 {
      assert Reverse(t) == [t[0]];
    } else {
      assert t[1..] == DigitText(bits[1..]);
      ParseReversedDigits(bits[1..]);
      ParseSnoc(Reverse(t[1..]), t[0]);
    }
  }

  /** Alice reads back exactly the number the printed bits stand for. */
  lemma DecodeRendered(bits: seq<Bit>)
    requires |bits| >= 1
    ensures DecodeText(Render(bits)) == Some(Val(bits))
  {
    RemoveSpacesRender(bits);
    ParseReversedDigits(bits);
  }

  /** Round trip: decoding the printed encoding of v at any width gives v
      back, so the zero padding does not change the value. */
  lemma EncodeDecode(v: nat, width: int)
    ensures DecodeText(Render(Encoded(v, width).value)) == Some(v)
  {
    DecodeRendered(Encoded(v, width).value);
  }
}
