# Circuit compiler and bit glue of a two-party Yao protocol

The system runs Yao's garbled-circuit protocol between two parties. Alice
is the garbler and Bob is the evaluator. They compute one of two things
without showing each other their sets of non-negative integers:

- operation 0: the sum of both sets' totals;
- operation 1: the values of Bob's set that also occur in Alice's set.

This project models two parts of that system.

- **The circuit compiler** (`circuit_generator.py`):
  - `addition` builds an n-bit ripple-carry adder;
  - `compare` builds the membership-and-select circuit for b-bit values against k stored values;
  - `create_circuit` assembles the circuit record from them.
- **The bit glue of the parties** (`main.py`):
  - how Alice and Bob agree on a bit width;
  - how integers become little-endian, zero-padded bit lists;
  - how Alice's bits become (key, masked bit) pairs and Bob's bits become wire assignments;
  - how Alice reads the printed output lines back into a sum or a set of common values.

A circuit is a `Circuit.Netlist`:

- Alice's input wires;
- Bob's input wires;
- the output wires;
- the gate list, where each gate has an id, a kind (XOR, AND, OR, NOT) and its input wires.

`Circuit.Run` evaluates the gates in list order over a wire environment. It
fails (None) when a gate reads a wire that has no value yet or has the wrong
number of inputs. `CircuitFile.Evaluate(c, a, b)` places Alice's bits on
wires 1.. and Bob's bits right after them, runs the gates and reads the
outputs. It stands for the plain meaning of the garbled evaluation.

Two notes on the compiler as written:

- `compare` numbers its input wires by incrementing the counter before
  each one, so after Bob's inputs the counter stands on Bob's last wire
  b*k+b. Line 88 (circuit_generator.py:88) moves it to b*k+b+1, the first
  gate id; no id is skipped.
- `addition` reads its operands from wires i and i+n whatever its
  `start_index` is. For the only start index the program uses (1) this is
  the intended adder; for any other start it is not (see "## Findings").

Modules:

- `Bits`: bit lists and their little-endian value.
- `Circuit`: netlists, evaluation, well-formedness and topological order.
- `Adder`: `addition`.
- `Compare`, `CompareShape`, `CompareCorrect`: `compare`.
- `CircuitFile`: `create_circuit` and `Evaluate`.
- `Encoding`: integer to bits and printed text back to integers.
- `Inputs`: the wire-input maps.
- `Protocol`: the two parties and the result read-out.

## Model

| member | source | states |
|---|---|---|
| Adder.Addition | source_code/src/circuit_generator.py:11-62 | Alice gets wires start..start+n-1 and Bob the next n. The outputs are the n sum wires then the final carry (none when n is 0). The 5n-3 gates have consecutive ids from start+2n and form the ripple-carry gate list whose bit-i gates read wires i and i+n. |
| Adder.EmitFirstBit | source_code/src/circuit_generator.py:31-40 | Bit 1 appends XOR and AND of wires 1 and 1+n, records the sum wire (and the carry when n is 1), advances the counter by 2 and returns the carry wire. |
| Adder.EmitLaterBit | source_code/src/circuit_generator.py:42-60 | Bit i appends the five full-adder gates over wires i, i+n and the incoming carry, records the sum wire (and the carry when i is n), advances the counter by 5 and returns the new carry. |
| Adder.AdderShape | source_code/src/circuit_generator.py:30-60 | The first m stages have 5m-3 gates, consecutive ids from the first gate, and each gate is a two-input XOR, AND or OR. |
| Adder.AdderOutputsShape | source_code/src/circuit_generator.py:34-60 | The recorded outputs are the sum wires in bit order followed by the last carry. |
| Adder.FullAdder | source_code/src/circuit_generator.py:44-58 | The five gates of a later bit compute a+b+c as the sum bit plus twice the carry. |
| Adder.AdderCorrect | source_code/src/circuit_generator.py:11-62 | With operands read from the start index, evaluating the gates on A and B defines every output wire, and the outputs stand for Val(A)+Val(B) (n+1 bits, overflow kept in the carry). |
| Adder.AdderTopological | source_code/src/circuit_generator.py:158-159 | For start index 1 every gate reads only input wires or earlier gates, so the gate list is well formed and in topological order. |
| Adder.AdditionAsWrittenFails | source_code/src/circuit_generator.py:33-47 | For any start index of 2 or more the gate list as written reads an undefined wire, so evaluation fails. |
| Compare.EmitInputs | source_code/src/circuit_generator.py:78-88 | Alice gets wires 1..b*k and Bob the next b, and the counter ends one past Bob's last wire. |
| Compare.EmitXorNots | source_code/src/circuit_generator.py:93-100 | For one stored value, appends an XOR of each of its bits with Bob's bit followed by a NOT, and returns the NOT wires. |
| Compare.AppendFold | source_code/src/circuit_generator.py:102-106 | Folding a list of wires with one gate kind fails on an empty list, leaves one wire as it is, and otherwise appends the chain of gates and returns the last. |
| Compare.EmitBlock | source_code/src/circuit_generator.py:91-108 | The equality block of one stored value: its XOR/NOT pairs and AND chain, with the equality wire; fails when b is 0. |
| Compare.EmitBlocks | source_code/src/circuit_generator.py:90-108 | All k equality blocks in order with their equality wires; fails when b is 0 and k is not. |
| Compare.EmitCheck | source_code/src/circuit_generator.py:123-125 | One AND of stored value v's bit t with v's equality wire. |
| Compare.EmitChecks | source_code/src/circuit_generator.py:122-125 | The k check gates for bit t, on consecutive wires. |
| Compare.EmitSelect | source_code/src/circuit_generator.py:120-133 | The checks and OR chain for bit t, returning the selected-bit wire. |
| Compare.EmitSelects | source_code/src/circuit_generator.py:119-133 | The selection blocks of all b bits, appending their output wires. |
| Compare.Compare | source_code/src/circuit_generator.py:69-135 | Fails (the source's IndexError) exactly when b or k is 0. Otherwise it returns the netlist: Alice's b*k wires, Bob's b wires, the membership output then the b selected bits, and the equality, membership and selection gates. |
| CompareShape.CompareLayout | source_code/src/circuit_generator.py:69-135 | The compare circuit has 5bk-b-1 gates with consecutive ids from b*k+b+1 and b+1 outputs. |
| CompareCorrect.CompareSpec | source_code/src/circuit_generator.py:110-133 | The expected output has b+1 bits, and its first bit is 1 exactly when Bob's value is among Alice's stored values. |
| CompareCorrect.PickedIff | source_code/src/circuit_generator.py:120-131 | Selected bit t is 1 exactly when Bob's value is stored and its bit t is 1. |
| CompareCorrect.CompareCorrect | source_code/src/circuit_generator.py:69-135 | With Alice's k values and Bob's value on their wires, the gates evaluate every output. The outputs are 1 followed by Bob's value when it is stored, and 0 followed by b zeros when it is not. |
| CompareCorrect.CompareTopological | source_code/src/circuit_generator.py:69-135 | Every compare gate reads only input wires or earlier gates: the gate list is well formed and topologically ordered. |
| CircuitFile.CreateCircuit | source_code/src/circuit_generator.py:150-190 | Fails exactly for a compare without a cardinality or with b or k equal to 0. Operation 0 gives the record with the adder built at start 1, operation 1 the compare circuit, any other operation the record with one empty entry. |
| CircuitFile.EvaluateTwoParty | source_code/src/main.py:162-167 | Alice's bits on wires 1.. and Bob's right after them reproduce a run of the gates, and its output values are what Evaluate returns. |
| CircuitFile.AdditionEvaluates | source_code/src/circuit_generator.py:158-166 | The stored sum circuit evaluates on any two n-bit inputs to n+1 bits whose value is the sum of theirs. |
| CircuitFile.CompareEvaluates | source_code/src/circuit_generator.py:174-182 | The stored compare circuit evaluates on Alice's concatenated values and Bob's value to the membership bit and the selected value. |
| Encoding.LsbBits | source_code/src/main.py:157 | The bits of `bin(v)` reversed have value v, at least one bit, and a top bit that is 1 unless v is 0. |
| Encoding.Digits | source_code/src/main.py:178 | Defined exactly for non-negative v; the bits have value v and length BinLength(v). |
| Encoding.BinLengthBounds | source_code/src/main.py:80 | `len(bin(v)[2:])` is at least 1, and v lies below 2 to that power (and at or above the power below it when v >= 1). |
| Encoding.BinLengthMonotone | source_code/src/main.py:244 | A larger value never has a shorter binary length. |
| Encoding.Padded | source_code/src/main.py:158-160 | Padding keeps the bits as a prefix, appends zeros up to the width and keeps the value. |
| Encoding.PadBits | source_code/src/main.py:158-160 | The padding loop computes Padded. |
| Encoding.EncodeValue | source_code/src/main.py:274-277 | Reversing, converting and padding computes Encoded. |
| Encoding.Encoded | source_code/src/main.py:298-301 | Fails exactly for negative values; otherwise the bits have the value and max(width, BinLength) bits. |
| Encoding.EncodedFits | source_code/src/main.py:179-181 | A value whose binary length is within the width is encoded in exactly width bits. |
| Encoding.EncodedInjective | source_code/src/main.py:298-301 | Two values have the same encoding at a width exactly when they are equal. |
| Encoding.Reverse | source_code/src/main.py:96 | Reversal keeps the length and mirrors each position. |
| Encoding.RemoveSpaces | source_code/src/main.py:95 | Removing spaces never lengthens, leaves no space, leaves a string without spaces as it is, and turns a single space into the empty string. |
| Encoding.RemoveSpacesAppend | source_code/src/main.py:95 | Spaces are removed piece by piece: removing them from s + t gives the results for s and t concatenated. With the space-free case this determines the result on every string, so the other characters are kept in order. |
| Encoding.ParseBinary | source_code/src/main.py:96 | `int(s, 2)` succeeds exactly on a non-empty string of 0s and 1s. |
| Encoding.RemoveSpacesRender | source_code/src/main.py:170 | Removing the spaces from the printed output line leaves its digits in order. |
| Encoding.ParseReversedDigits | source_code/src/main.py:96 | Parsing the reversed digits of a bit list gives its little-endian value. |
| Encoding.DecodeRendered | source_code/src/main.py:95-96 | Reading a printed line of bits back gives their value. |
| Encoding.EncodeDecode | source_code/src/main.py:95-96 | Encoding a value at any width, printing and reading it back gives the value. |
| Inputs.EncrBits | source_code/src/main.py:205-207 | The two (key, masked bit) pairs keep the keys at their semantic indices and carry different masked bits. |
| Inputs.EncrBitsUnmask | source_code/src/main.py:205-207 | XOR of a pair's masked bit with the pbit recovers the semantic bit. |
| Inputs.AliceEntries | source_code/src/main.py:162-164 | One entry per Alice wire. |
| Inputs.AliceInputs | source_code/src/main.py:162-164 | Succeeds exactly when every Alice wire has keys, a pbit and a bit (else the source's KeyError or IndexError), and then maps each wire to its key and masked bit. |
| Inputs.AliceInputsAgree | source_code/src/main.py:185-187 | Wire i (not reassigned later) is mapped to the key of bit i and the pbit XOR bit i. |
| Inputs.BobKeys | source_code/src/main.py:141-144 | Defined exactly when every keyed Bob wire has a pbit; maps exactly the keyed Bob wires to their two (key, masked bit) pairs. |
| Inputs.BobInputsClear | source_code/src/main.py:280-283 | Defined exactly when there are enough bits; maps exactly Bob's wires, wire i to bit i unless a later index reuses the wire. |
| Inputs.SetEncodings | source_code/src/main.py:177-181 | Defined exactly when no value is negative; gives one encoding per value, each the value's padded bits. |
| Inputs.AliceSetBits | source_code/src/main.py:176-182 | Alice's compare bits fail exactly when SetEncodings does, and are otherwise the concatenation of her values' encodings. |
| Inputs.AliceSetLayout | source_code/src/main.py:176-182 | With all values within the width, bit t of value j sits at position width*j+t of Alice's bits. |
| Protocol.Negotiated | source_code/src/main.py:245-250 | The agreed width is one more than the larger of the two lengths. |
| Protocol.Bob.constructor | source_code/src/main.py:223-227 | Bob starts with his set, width 0 and no operation. |
| Protocol.Bob.UpdateSet | source_code/src/main.py:229-230 | Replaces the set and nothing else. |
| Protocol.Bob.ReceiveOperation | source_code/src/main.py:239-241 | Records the operation and acknowledges; the set and width are unchanged. |
| Protocol.Bob.AnswerLengthQuery | source_code/src/main.py:242-250 | Replies with the larger of Alice's length and his own sum's length, and stores that plus one as his width. |
| Protocol.Alice.constructor | source_code/src/main.py:60-68 | Alice starts with her set, her operation and width 0. |
| Protocol.Alice.ExchangeMaxBitLength | source_code/src/main.py:79-82 | After the exchange both parties hold the same width: one more than the longer of their sums' binary lengths. |
| Protocol.SumBound | source_code/src/main.py:157 | Each non-negative element is at most the set's sum. |
| Protocol.NegotiatedFits | source_code/src/main.py:244-250 | Each party's elements and sums fit strictly within the agreed width. |
| Protocol.InterpretSum | source_code/src/main.py:93-98 | The sum read-out yields the last line's value, and fails on no lines or a non-binary line. |
| Protocol.CommonValuesFails | source_code/src/main.py:102-106 | A failing line makes the whole compare read-out fail. |
| Protocol.InterpretCompare | source_code/src/main.py:100-106 | The compare read-out loop computes CommonValues: the union over lines whose first digit is 1 of the reversed remaining digits. |
| Protocol.SumInputs | source_code/src/main.py:157-160 | At the agreed width both sums encode in exactly width bits, and the two bit lists' values add up to the two sums. |
| Protocol.ReadSum | source_code/src/main.py:93-98 | A single printed output line is read back as the value of its bits. |
| Protocol.SumRound | source_code/src/main.py:167-171 | A sum round evaluates the adder on the two width-bit inputs, and the printed line is read back as their sum. |
| Protocol.SumReadOut | source_code/src/main.py:156-171 | At any width both sums fit in (the negotiated width is one, by Protocol.Negotiated), the adder evaluated on the two sums' encodings prints a line that Alice reads as the total of the two sums. |
| Protocol.EncodedMember | source_code/src/main.py:297-301 | Bob's encoded value is among Alice's encodings exactly when the value is in her set. |
| Protocol.LineOfBits | source_code/src/main.py:103-106 | A printed line of two or more bits adds the value of the bits after the first when the first bit is 1, and adds nothing when it is 0. |
| Protocol.CompareLineReads | source_code/src/main.py:103-106 | Reading the printed compare output for Bob's value adds that value exactly when it is in Alice's set. |
| Protocol.IntersectSnoc | source_code/src/main.py:105-106 | Adding one of Bob's values adds it to the common values exactly when Alice has it. |
| Protocol.CommonValuesCollect | source_code/src/main.py:100-106 | Lines that each read as Bob's value when Alice has it, and as nothing otherwise, give the intersection. |
| Protocol.CommonValuesIntersect | source_code/src/main.py:100-106 | Reading one specified compare line per value of Bob's, in any order, Alice collects exactly the values of Bob's that are also in her set. |
| Protocol.CompareRound | source_code/src/main.py:190-199 | One compare round evaluates the circuit on Alice's values and Bob's padded value, and gives the membership bit and the selected value. |
| Protocol.BobRounds | source_code/src/main.py:292-317 | Bob's rounds yield lines exactly when his set is not empty, each of his values encodes and every evaluation succeeds, one line per value. A negative value of his gives no result, as its binary text cannot be converted bit by bit. With an empty set the closing evaluation reads an input map that was never assigned, so there is no result either. |
| Protocol.CompareReadOut | source_code/src/main.py:100-106 | Compare mode end to end: evaluating the circuit on Alice's encoded values against each of Bob's non-negative values yields lines exactly when Bob's set is not empty. Alice reads from them exactly the values the two sets have in common. |

## Left out

- Garbling, the garbled tables, oblivious transfer and the sockets (the `yao`, `ot` and `util` modules) are not part of this model. Circuits are given their plain meaning by `CircuitFile.Evaluate`. A message becomes a direct call (`Alice.ExchangeMaxBitLength` calls `Bob.AnswerLengthQuery`).
- `Bob.listen`'s polling loop and the `send_evaluation` and `print` drivers are not modelled as loops. Each message kind and each step they perform is its own member. The rounds are joined by `Protocol.SumReadOut` and `Protocol.CompareReadOut`.
- The random permutation of Bob's set (`util.get_single_permutation`) is not modelled. Bob's values come as a sequence in any order, and the intersection lemma holds for every order.
- The file write in `create_circuit`, its path cleaning and the returned path are not modelled. `CircuitFile.CreateCircuit` returns the record instead.
- All printing and `ExpectedOutput` are not modelled.
- The garbled-table print mode, `start` and the command-line driver are not modelled.
- Python's `int(s, 2)` also accepts underscores, surrounding whitespace, a sign and a `0b` prefix. `Encoding.ParseBinary` accepts only 0s and 1s. The read-out lines only ever hold those digits.
- Bit widths and element counts are natural numbers. A negative `bit_number` is not modelled.
- `Inputs.SetEncodings` reports a negative element as None. The source's `bin` would give a string starting with `-` and `int` would raise.
- The `"end"` message that terminates the compare stream is modelled only as its failure on an empty set of Bob's (`Protocol.BobRounds`). Its own evaluation is not a line Alice prints.

## Findings

| source | as written | input that shows it | evidently intended | confidence | as-written member | corrected member |
|---|---|---|---|---|---|---|
| source_code/src/circuit_generator.py:33-47 | The gates of bit i read wires i and i+n, whatever `start_index` is. | n = 1, start_index = 2: the inputs are wires 2 and 3, but the gates read wire 1, which is not an input. | Bit i reads wires start_index+i-1 and start_index+n+i-1, so that the operands are the declared input wires (the only call site, line 159, uses start_index 1, where both agree). | not executed | Adder.AdditionAsWrittenFails | Adder.AdderCorrect |
