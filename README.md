# BinaryLogicSimulator in Dafny

A model of the computational core of BinaryLogicSimulator, an educational
simulator of digital logic written in Python. It covers:

- the basic gates and the adder and multiplexer built from them (`Gates`, gates.dfy);
- conversions between integers and bit lists, formatting and parity (`BinaryAnalyzer`, analyzer.dfy);
- ripple-carry addition, two's complement, subtraction, multiplication and
  division on N-bit lists (`BinaryArithmetic`, arithmetic.dfy);
- the ALU with its flag register and the control unit that feeds it (`Alu`, alu.dfy);
- the Boolean-expression language of the logic designer:
  - tokenizing (`Tokenizer`, tokenizer.dfy);
  - shunting-yard conversion to postfix and postfix evaluation (`ExpressionParser`, parser.dfy);
  - truth tables (`TruthTables`, truthtable.dfy);
  - the step-by-step circuit simulator (`CircuitSimulation`, simulator.dfy).

`Strings` (strings.dfy) holds the decimal rendering of integers, and
`join`/repetition of strings, that the other modules share.

How values are represented:

- Bit lists are `seq<int>`, least significant bit first, as in the source.
  The predicate `IsBits` states that every entry is 0 or 1.
- Python's unbounded integers are Dafny `int`/`nat`. The N-bit wrap-around
  of the adders is written out with `% Pow2(n)`.
- A Python exception becomes the `Err` alternative of a `Result`, carrying
  the exception's message.

Imperative code keeps its form:

- the loops of the source are `method`s whose `while`/`for` loops are proved
  against recursive specification functions;
- `ALUFlags`, `ALU`, `ControlUnit` and `CircuitSimulator` are classes whose
  methods update their fields;
- the properties the source promises are lemmas about the specification functions.

Where the code and its docstrings disagree, the model follows the code:

- The docstring of `LogicExpressionParser` ranks OR above XOR. The operator
  table gives both precedence 1.
- The self-test of `divide` expects 5 / 3 = (1, 2). The code raises instead
  (see Findings).

## Model

| member | source | states |
|---|---|---|
| Gates.And | logic_gates.py:25-43 | the output is a bit, and it is 1 exactly when both inputs are 1 |
| Gates.Or | logic_gates.py:46-64 | the output is a bit, and it is 1 exactly when some input is 1 |
| Gates.Not | logic_gates.py:67-82 | the output is a bit, and it is 1 exactly when the input is 0 |
| Gates.Xor | logic_gates.py:85-111 | the gate composed of AND, OR and NOT is 1 exactly when its two bit inputs differ |
| Gates.Nand | logic_gates.py:113-131 | on bits the output is 0 exactly when both inputs are 1 |
| Gates.Nor | logic_gates.py:134-152 | on bits the output is 1 exactly when both inputs are 0 |
| Gates.Xnor | logic_gates.py:155-173 | on bits the output is 1 exactly when the inputs are equal |
| Gates.NotNot | logic_gates.py:67-82 | NOT is an involution on bits |
| Gates.ComplementGates | logic_gates.py:113-173 | NAND, NOR and XNOR are the complements of AND, OR and XOR |
| Gates.HalfAdder | logic_gates.py:185-209 | sum + 2·carry equals a + b |
| Gates.FullAdder | logic_gates.py:212-250 | sum + 2·carry-out equals a + b + carry-in |
| Gates.Mux2To1 | logic_gates.py:253-272 | select 0 passes input a and select 1 passes input b |
| Strings.DigitsOfNatToString | logic_designer.py:172-174 | reading back the decimal text of a natural number (`int(token)`) gives the number |
| BinaryAnalyzer.Value | binary_analyzer.py:57-71 | the value of an n-bit list (sum of bit·2^i) is below 2^n |
| BinaryAnalyzer.ValueInjective | binary_analyzer.py:57-71 | two bit lists of equal length and equal value are equal |
| BinaryAnalyzer.ToBits | binary_analyzer.py:41-54 | the padded or truncated conversion has exactly the requested width and only bits |
| BinaryAnalyzer.PadTruncate | binary_analyzer.py:41-54 | the source's construction (remainder digits, zero padding, cut to width) equals ToBits |
| BinaryAnalyzer.DecimalToBinary | binary_analyzer.py:23-54 | a negative number is an error; otherwise the result is the width-bit conversion |
| BinaryAnalyzer.DecimalToBinaryValue | binary_analyzer.py:23-54 | the conversion keeps the value modulo 2^width |
| BinaryAnalyzer.RoundTrip | binary_analyzer.py:23-71 | converting the value of a bit list back at its own width gives the list |
| BinaryAnalyzer.FortyTwo | binary_analyzer.py:148-153 | 42 on 8 bits is [0,1,0,1,0,1,0,0] |
| BinaryAnalyzer.BinaryToDecimal | binary_analyzer.py:57-71 | the accumulating loop returns the value of the list |
| Strings.Reverse | binary_analyzer.py:85-87 | the MSB-first order puts the bit at position k at position n-1-k |
| BinaryAnalyzer.RenderBits | binary_analyzer.py:89 | the rendered string has one character '0' or '1' per bit |
| BinaryAnalyzer.Group4Shape | binary_analyzer.py:91-95 | grouping only inserts spaces, a space sits exactly at every fifth position, and four or fewer digits are unchanged |
| BinaryAnalyzer.FormatBinaryString | binary_analyzer.py:74-95 | removing the spaces gives the bits in the requested order, spaces fall at positions 4, 9, 14, … |
| BinaryAnalyzer.Format30000 | binary_analyzer.py:175-179 | 30000 on 16 bits formats MSB first as "0111 0101 0011 0000" |
| BinaryAnalyzer.Parity | binary_analyzer.py:98-115 | the XOR fold is a bit, and on bits it is the number of ones modulo 2 |
| BinaryAnalyzer.CheckParity | binary_analyzer.py:98-115 | the loop returns 1 exactly when the number of ones is odd |
| BinaryAnalyzer.ParityFortyTwo | binary_analyzer.py:167-170 | the parity of 42's bits is 1 |
| BinaryAnalyzer.ValidateBinaryList | binary_analyzer.py:118-137 | the result has the requested width, keeps the leading bits and pads with zeros, and the flag says whether bits were cut |
| BinaryArithmetic.ShiftLeft | binary_arithmetic.py:59-64 | the length is kept and the list moves towards index 0, zero-filled at the top |
| BinaryArithmetic.ShiftRight | binary_arithmetic.py:66-71 | the length is kept and the list moves away from index 0, zero-filled at the bottom |
| BinaryArithmetic.ShiftLeftHalves | binary_arithmetic.py:59-64 | on LSB-first lists a shift left by one halves the value |
| BinaryArithmetic.ShiftRightDoubles | binary_arithmetic.py:66-71 | on LSB-first lists a shift right by one doubles the value modulo 2^n |
| BinaryArithmetic.AddStagesValue | binary_arithmetic.py:96-118 | after i full-adder stages, sum + carry·2^i equals the sum of the i low bits of both operands |
| BinaryArithmetic.RippleCarryAdder | binary_arithmetic.py:75-126 | the sum is (a + b) mod 2^n, and the carry is 1 exactly when a + b ≥ 2^n |
| BinaryArithmetic.AdderValue | binary_arithmetic.py:75-126 | the adder's specification computes the N-bit sum and its carry-out |
| BinaryArithmetic.Invert | binary_arithmetic.py:146-149 | each bit is the NOT of the input bit |
| BinaryArithmetic.InvertValue | binary_arithmetic.py:146-149 | inverting an n-bit list gives 2^n - 1 - its value |
| BinaryArithmetic.One | binary_arithmetic.py:157-158 | the constant 1 is an n-bit list of value 1 |
| BinaryArithmetic.NegateValue | binary_arithmetic.py:128-176 | the two's complement has value (2^n - v) mod 2^n |
| BinaryArithmetic.NegateExact | binary_arithmetic.py:128-176 | negating 0 gives 0 with carry 1, and any other value v gives 2^n - v with carry 0 |
| BinaryArithmetic.TwosComplement | binary_arithmetic.py:128-176 | the method returns the negation modulo 2^n |
| BinaryArithmetic.NegateInvolution | binary_arithmetic.py:128-176 | negating twice gives back the bit list |
| BinaryArithmetic.SubtractValue | binary_arithmetic.py:178-227 | the difference is (a - b) mod 2^n; when b ≠ 0 the borrow is 1 exactly when a < b, and when b = 0 it is 1 |
| BinaryArithmetic.SignRule | binary_arithmetic.py:229-241 | the gate formula for overflow is 1 exactly when the signed difference leaves the n-bit range |
| BinaryArithmetic.SubtractOverflow | binary_arithmetic.py:229-241 | the overflow output is 1 exactly when the signed difference leaves [-2^(n-1), 2^(n-1)) |
| BinaryArithmetic.Subtract | binary_arithmetic.py:178-250 | the method returns the difference, borrow and signed overflow described above |
| BinaryArithmetic.SubtractFiveThree | binary_arithmetic.py:589-596 | 5 - 3 on 8 bits is 2 with no borrow |
| BinaryArithmetic.SubtractThreeFive | binary_arithmetic.py:598-609 | 3 - 5 on 8 bits is 254 with a borrow |
| BinaryArithmetic.Multiply | binary_arithmetic.py:252-321 | for every width of at least 1 the call fails with the NameError of line 309; width 0 gives the empty product |
| BinaryArithmetic.ShiftAndAdd | binary_arithmetic.py:266-321 | with the multiplicand doubled each step the 2n-bit product has value a·b |
| BinaryArithmetic.DoublingRegisters | binary_arithmetic.py:284-314 | after i steps the product register holds a times the low i bits of b |
| BinaryArithmetic.DoublingProduct | binary_arithmetic.py:252-321 | the corrected shift-and-add yields a bit list of value a·b |
| BinaryArithmetic.MultiplyFiveThree | binary_arithmetic.py:611-618 | the corrected multiplier gives 5·3 = 15 |
| BinaryArithmetic.MulStateSettles | binary_arithmetic.py:284-314 | iterations over zero multiplier bits leave the product unchanged |
| BinaryArithmetic.MultiplyHalvingFiveThree | binary_arithmetic.py:309 | with the call resolved to the existing `_shift_left`, which halves LSB-first lists, 5·3 on 8 bits gives 7, not 15 |
| BinaryArithmetic.AllZeroValue | binary_arithmetic.py:345-352 | the divisor is all zeros exactly when its value is 0 |
| BinaryArithmetic.ZeroTest | binary_arithmetic.py:345-352 | the AND-of-NOT fold loop, starting from 1, returns 1 exactly when every bit is 0 |
| BinaryArithmetic.TrialBorrows | binary_arithmetic.py:519-533 | when A < M the trial subtraction wraps to A - M + 2^n and its top bit is 1 |
| BinaryArithmetic.TrialFits | binary_arithmetic.py:519-533 | when M ≤ A < 2M the trial subtraction is A - M and its top bit is 0 |
| BinaryArithmetic.Divide | binary_arithmetic.py:323-559 | the method returns what the division's specification gives: zeros, a quotient and remainder, or the unpack error |
| BinaryArithmetic.DivideIteration | binary_arithmetic.py:494-550 | one pass of the A/Q loop as written, ending in the unpack error when the restore branch is reached |
| BinaryArithmetic.DivideByZero | binary_arithmetic.py:345-352 | a zero divisor returns a zero quotient and a zero remainder |
| BinaryArithmetic.DivideRaises | binary_arithmetic.py:494-535 | for a dividend with top bit 0 and a divisor between 1 and 2^(n-1), the restore branch is reached and the call fails |
| BinaryArithmetic.DivideFiveThree | binary_arithmetic.py:620-628 | 5 / 3 on 8 bits fails as written |
| BinaryArithmetic.TrialValue | binary_arithmetic.py:519-545 | the corrected step shifts in the next dividend bit and subtracts M exactly when the shifted remainder is at least M |
| BinaryArithmetic.RestoringInvariant | binary_arithmetic.py:494-550 | after i steps Q holds the quotient of the i top dividend bits by b, A their remainder, and the rest of Q the unread bits |
| BinaryArithmetic.RestoringDivideCorrect | binary_arithmetic.py:323-559 | the corrected division returns a / b and a mod b (zeros for b = 0), for divisors of at most half the range |
| BinaryArithmetic.RestoringDivision | binary_arithmetic.py:494-559 | the loop computes the quotient and remainder of the corrected division |
| BinaryArithmetic.RestoringIteration | binary_arithmetic.py:494-550 | one pass of the corrected loop: the trial remainder and Q shifted with the new quotient bit |
| BinaryArithmetic.HalvingStepAgrees | binary_arithmetic.py:504-545 | with only the unpack at line 535 repaired, a pass succeeds exactly where the code's pass succeeds and then agrees with it |
| BinaryArithmetic.HalvingRegisters | binary_arithmetic.py:494-550 | with only the unpack repaired, a dividend with top bit 0 and a divisor in 1 .. 2^(n-1) keep A at 0, and after i passes the top i bits of Q are 0 |
| BinaryArithmetic.HalvingDivideZero | binary_arithmetic.py:494-559 | on that domain the division with only the unpack repaired returns quotient 0 and remainder 0 |
| BinaryArithmetic.HalvingFiveThree | binary_arithmetic.py:620-628 | with only the unpack repaired, 5 / 3 on 8 bits gives quotient 0 and remainder 0 |
| BinaryArithmetic.RestoringFiveThree | binary_arithmetic.py:620-628 | the corrected division gives 5 / 3 = 1 remainder 2, as the self-test expects |
| Alu.FlagsMeaning | alu_simulator.py:47-77 | Z is set exactly for value 0, S exactly for a negative signed value, P exactly for an odd number of ones, and C and V are copied |
| Alu.ALUFlags.constructor | alu_simulator.py:30-37 | a new flag register is cleared |
| Alu.ALUFlags.Reset | alu_simulator.py:39-45 | reset clears all five flags |
| Alu.ALUFlags.Update | alu_simulator.py:47-77 | update stores the flags of the given result, carry and overflow |
| Alu.ALUFlags.ToDict | alu_simulator.py:79-87 | the dictionary has exactly the five flag names, each mapped to its flag |
| Alu.PrefixKeepsLowValue | alu_simulator.py:192 | on a product of at least n bits, `[:n]` keeps the value modulo 2^n |
| Alu.HighHalfScanBits | alu_simulator.py:193-197 | the scan of the high half reports 1 exactly when a bit there is set |
| Alu.ScanHighHalf | alu_simulator.py:193-197 | the loop over the high half of the product computes that scan |
| Alu.MulOutcomeProduct | alu_simulator.py:187-197 | the ALU keeps the product modulo 2^n and signals overflow exactly when the product reaches 2^n |
| Alu.IntendedMul | alu_simulator.py:187-197 | with the corrected multiplier MUL returns a·b mod 2^n, with overflow exactly when a·b ≥ 2^n |
| Alu.ALU.constructor | alu_simulator.py:115-125 | the ALU has the given width and a fresh cleared flag register |
| Alu.ALU.Execute | alu_simulator.py:140-270 | the result and the new flags are those of the operation selected by the opcode; a failed operation leaves the flags as they were |
| Alu.ControlUnit.constructor | alu_simulator.py:281-288 | the control unit is linked to the given ALU |
| Alu.ControlUnit.DecodeAndExecute | alu_simulator.py:290-320 | a missing opcode or operand A is an error that leaves the flags alone; otherwise the result and flags are the ALU's |
| Alu.AluAdd | alu_simulator.py:172-177 | ADD gives (a + b) mod 2^n, carry exactly on wrap-around, and never overflow |
| Alu.AluSub | alu_simulator.py:179-185 | SUB gives (a - b) mod 2^n with the subtractor's borrow and signed overflow |
| Alu.AluMulRaises | alu_simulator.py:187-197 | MUL fails with the multiplier's NameError |
| Alu.AluDivByZero | alu_simulator.py:199-206 | DIV by zero returns zeros with C = V = 0 |
| Alu.AluDivFollowsDivider | alu_simulator.py:199-206 | DIV fails with the divider's error whenever the divider fails, and otherwise returns its quotient with C = V = 0 |
| Alu.AluDivRaises | alu_simulator.py:199-206 | DIV fails with the unpack error for every dividend with top bit 0 and every divisor in 1 .. 2^(n-1) |
| Alu.AluLogic | alu_simulator.py:209-221 | AND, OR and XOR work bit by bit, with a 1 exactly where the gate's condition holds |
| Alu.AluNot | alu_simulator.py:224-227 | NOT inverts every bit, giving 2^n - 1 - a, and clears C and V |
| Alu.AluShiftRotate | alu_simulator.py:230-256 | the shift and rotate opcodes never fail |
| Alu.AluShifts | alu_simulator.py:230-242 | as written SHL drops bit 0 and halves the value while reporting bit n-1 as carry; SHR drops bit n-1 and doubles the value modulo 2^n while reporting bit 0 |
| Alu.AluRotations | alu_simulator.py:244-256 | as written ROL and ROR lose one bit and duplicate another |
| Alu.AluRolLosesBit | alu_simulator.py:244-249 | ROL of [1,0] gives [0,0] |
| Alu.AluUnknown | alu_simulator.py:258-262 | an unknown opcode gives zeros, and the flags become Z = 1 with everything else 0 |
| Alu.IntendedShl | alu_simulator.py:230-235 | the corrected SHL doubles modulo 2^n and carries out the bit that leaves |
| Alu.IntendedShr | alu_simulator.py:237-242 | the corrected SHR halves and carries out the low bit |
| Alu.IntendedRotations | alu_simulator.py:244-256 | the corrected rotations permute the bits and are inverse to each other |
| Alu.AluAddFifteenSeven | alu_simulator.py:337-350 | ADD 15 + 7 on 8 bits is 22 with only the parity flag set |
| Alu.AluAndFifteenSeven | alu_simulator.py:353-363 | 15 AND 7 is 7, with odd parity |
| Alu.AluNotFifteen | alu_simulator.py:366-378 | NOT 15 is 240, negative as a signed value, with even parity |
| Alu.AluShlFifteen | alu_simulator.py:381-393 | as written SHL 15 gives 7, not the 30 the self-test expects |
| Alu.IntendedShlFifteen | alu_simulator.py:381-393 | the corrected SHL 15 gives 30 |
| Tokenizer.Precedence | logic_designer.py:38-48 | NOT ranks 3, AND 2, OR and XOR 1: precedence 3 is exactly the unary operators and precedence 2 exactly AND and "&" |
| Tokenizer.Upper | logic_designer.py:61 | upper-casing keeps the length, turns each lower-case letter into its own capital (code point minus 32), keeps capitals and leaves other characters alone |
| Tokenizer.Run | logic_designer.py:69 | a run of letters or digits is maximal |
| Tokenizer.ScanSpells | logic_designer.py:69 | every token matches an alternative of the pattern, and the tokens spell the input with the unmatched characters dropped |
| Tokenizer.ScanSymbolOrSkip | logic_designer.py:69 | a symbol character is a token by itself, and a character outside the pattern is skipped |
| Tokenizer.ReplaceOrClears | logic_designer.py:63 | once OR is rewritten, no "OR" remains |
| Tokenizer.ReplaceXorIdle | logic_designer.py:64 | the XOR rewrite changes nothing when no "OR" is left |
| Tokenizer.XorRuleNeverFires | logic_designer.py:61-65 | the rewriting as written equals the one without the XOR rule |
| Tokenizer.TokenizeXorAsWritten | logic_designer.py:50-71 | as written "XOR" tokenizes as ["X", "\|"] |
| Tokenizer.TokenizeXorIntended | logic_designer.py:50-71 | with XOR rewritten before OR, "XOR" tokenizes as ["^"] |
| ExpressionParser.MoveTop | logic_designer.py:124-143 | popping one operator shortens the stack by one and moves its top to the end of the output, so no token is lost or added |
| ExpressionParser.PopToOpen | logic_designer.py:124-126 | popping for ")" stops with "(" on top or the stack empty |
| ExpressionParser.PopOutranking | logic_designer.py:133-138 | popping for an operator stops when the top no longer outranks it |
| ExpressionParser.PopUntilOpen | logic_designer.py:124-128 | the while loop computes that popping for ")" |
| ExpressionParser.PopWhileOutranking | logic_designer.py:133-138 | the while loop computes that popping for an operator |
| ExpressionParser.ShuntToken | logic_designer.py:114-139 | one token moves output and stack as the shunting-yard step specifies |
| ExpressionParser.InfixToPostfix | logic_designer.py:90-145 | the loop plus the final flush yields the postfix the conversion specifies |
| ExpressionParser.PostfixKeeps | logic_designer.py:90-145 | the postfix has no ")", the operands in their input order, the operands and operators read as a multiset, and one "(" per unmatched open parenthesis |
| ExpressionParser.PopPending | logic_designer.py:131-139 | operators of no lower precedence waiting on the stack leave in reverse order |
| ExpressionParser.ClosePending | logic_designer.py:124-128 | ")" emits the operators above its "(" in reverse order and drops the "(" |
| ExpressionParser.EvalRunAppend | logic_designer.py:165-197 | evaluating a concatenation evaluates the second part on the stack of the first |
| ExpressionParser.EvaluatePostfix | logic_designer.py:147-199 | the stack loop yields the postfix value: the bottom of the final stack, 0 for empty |
| ExpressionParser.Evaluate | logic_designer.py:201-215 | evaluation tokenizes, converts and evaluates |
| ExpressionParser.OperandsMembers | logic_designer.py:114-117 | the operands of a token list are exactly its tokens that `isalnum` accepts |
| ExpressionParser.EvalRunBits | logic_designer.py:166-197 | with variables bound to bits and number tokens of value 0 or 1, every stack entry stays 0 or 1 |
| ExpressionParser.EvalPostfixIsBit | logic_designer.py:147-199 | under the same conditions evaluate_postfix returns 0 or 1, as its docstring says |
| ExpressionParser.EvalPostfixFive | logic_designer.py:160-174 | the postfix "5" evaluates to 5 under any assignment: a number token other than 0 or 1 makes the result a non-bit |
| ExpressionParser.PostfixBitConstants | logic_designer.py:90-145 | the conversion introduces no number token other than those of the expression |
| ExpressionParser.EvaluationIsBit | logic_designer.py:201-215 | evaluate returns 0 or 1 when the variables are bound to bits and the expression's number tokens are 0 or 1 |
| ExpressionParser.EvalCompiled | logic_designer.py:147-199 | running the postfix form of a tree pushes the tree's value |
| ExpressionParser.EvalPostfixCompiled | logic_designer.py:147-199 | the postfix form of a tree evaluates to the tree's value |
| ExpressionParser.ConvertInfix | logic_designer.py:114-139 | a rendered subexpression leaves its finished postfix on the output, with its pending operators on the stack |
| ExpressionParser.PostfixOfInfix | logic_designer.py:90-145 | converting the rendering of any tree gives the tree's postfix form (as written, for trees with no NOT directly under NOT) |
| ExpressionParser.EvaluatesLikeTree | logic_designer.py:90-215 | evaluating the rendering of such a tree gives the tree's value |
| ExpressionParser.DocumentedExample | logic_designer.py:101-103 | "A & B \| C" converts to "A B & C \|" |
| ExpressionParser.DoubleNegationPostfix | logic_designer.py:131-139 | as written "! ! A" converts to "! A !" |
| ExpressionParser.DoubleNegationValue | logic_designer.py:177-183 | "! A !" evaluates to NOT A |
| ExpressionParser.DoubleNegationAsWritten | logic_designer.py:131-139 | as written NOT NOT A does not evaluate to A |
| ExpressionParser.DoubleNegationCorrected | logic_designer.py:131-139 | if a unary operator does not pop an equal unary operator, NOT NOT A evaluates to A |
| TruthTables.LessTransitive | logic_designer.py:88 | the order of `sorted` on strings is transitive |
| TruthTables.LessTotal | logic_designer.py:88 | the order of `sorted` on strings is total |
| TruthTables.InsertSorted | logic_designer.py:83-88 | inserting into a strictly sorted list keeps it strictly sorted |
| TruthTables.VariablesSpec | logic_designer.py:73-88 | the variables are strictly sorted, and are exactly the alphabetic tokens other than operators |
| TruthTables.SortedUnique | logic_designer.py:83-88 | two strictly sorted lists with the same members are equal, so the variable list is determined by the set |
| TruthTables.ExtractVariables | logic_designer.py:73-88 | the loop returns the sorted, duplicate-free list of variables |
| TruthTables.RowBitsAt | logic_designer.py:249 | input bit j of row i is bit n-1-j of i |
| TruthTables.RowValue | logic_designer.py:242-251 | a row's inputs, read first variable as most significant, have the row's index as value |
| TruthTables.BinaryIndexRendered | logic_designer.py:259 | the zero-padded binary index is the row's inputs written out |
| TruthTables.EnvLookup | logic_designer.py:244-250 | the assignment maps exactly the variables, each to its bit |
| TruthTables.TableRow | logic_designer.py:242-266 | the loop body builds the row the table specifies |
| TruthTables.GenerateTruthTable | logic_designer.py:217-273 | the method builds the table the specification function gives |
| TruthTables.TableVariables | logic_designer.py:217-235 | the table fails with the no-variables record exactly when the expression has no variables, and otherwise lists the sorted variables |
| TruthTables.TableRows | logic_designer.py:238-273 | there are 2^n rows; row k has index k in binary as its inputs, the matching binary index and the expression's value under that assignment, which is 0 or 1 when the expression's number tokens are |
| TruthTables.TableComplete | logic_designer.py:238-251 | every assignment of bits to the variables appears as a row |
| TruthTables.TableDistinct | logic_designer.py:238-251 | no two rows have the same inputs |
| TruthTables.FormatTruthTable | logic_designer.py:275-307 | the loop builds the text the rendering specifies |
| TruthTables.RowLinesNewlines | logic_designer.py:302-305 | each row line ends a line of its own |
| TruthTables.HeadingNewlines | logic_designer.py:292-299 | the title, header and separator take six line breaks |
| TruthTables.FormatLines | logic_designer.py:275-307 | the rendered table of a one-line expression has 6 + (number of rows) line breaks |
| CircuitSimulation.OpName | logic_designer.py:388-396 | the trace names "&" and "AND" as AND, "\|" and "OR" as OR, and every other binary operator XOR |
| CircuitSimulation.CircuitSimulator.constructor | logic_designer.py:315-318 | a new simulator has an empty trace |
| CircuitSimulation.CircuitSimulator.SimulateStepByStep | logic_designer.py:320-420 | the trace is reset, then records the parse, one entry per executed postfix token and the final output, and is returned |
| CircuitSimulation.CircuitSimulator.TraceToken | logic_designer.py:351-410 | one postfix token changes the stack, trace and step counter as the simulation step specifies |
| CircuitSimulation.StepNumbered | logic_designer.py:351-410 | a step keeps earlier entries, numbers a new entry with the next step number, and records the stack it leaves |
| CircuitSimulation.RunNumbered | logic_designer.py:348-410 | the whole loop keeps the trace numbered 1, 2, … and its last entry records the final stack |
| CircuitSimulation.TraceShape | logic_designer.py:332-420 | a trace starts with the parse of the expression, ends with the final output, numbers its steps consecutively, and the output is the bottom of the last recorded stack |
| CircuitSimulation.SimStacks | logic_designer.py:351-410 | without numeric constants the simulator's stack evolves exactly as the evaluator's |
| CircuitSimulation.PostfixConstants | logic_designer.py:90-145 | the conversion introduces no numeric constants |
| CircuitSimulation.TraceAgrees | logic_designer.py:320-420 | for expressions without numeric constants the simulated output equals evaluate's result |
| CircuitSimulation.SkipsConstants | logic_designer.py:351-410 | as written, A AND 0 with A = 1 is simulated as 1 though it evaluates to 0 |
| CircuitSimulation.TraceAgreesCorrected | logic_designer.py:320-420 | with digit tokens pushed as constants the simulated output equals evaluate's result for every expression |

## Left out

- Printing, the `__main__` self-test blocks and the GUI (gui.py) are not part of this model. The self-test expectations appear as concrete lemmas.
- The `execution_steps` log of `BinaryArithmetic` and the `execution_log` of `ALU` (`_add_log`, the `trace` flags) only record text for display, so they are left out. `BinaryArithmetic` therefore has no state left and becomes a module of functions and methods that take the width.
- CircuitSimulation.CircuitSimulator.SimulateStepByStep: trace entries keep their data (tokens, values, stacks, step numbers) but not their description strings.
- The first, dead loop of `divide` (binary_arithmetic.py:357-459) is overwritten before its results are used, so it is left out.
- `generate_truth_table`'s `try/except` (logic_designer.py:254-266): when evaluating a row raises, the whole result becomes `{'variables', 'rows': [], 'error': 'Evaluation error: …'}`. Evaluation is total in the model (stack underflow yields 0 as in the code, a missing variable reads as 0), so that record is left out. The only input that can raise it is a number token of more than 4300 digits: on Python 3.11 and later `int(token)` then raises ValueError, while the model converts it. The table's `Failed` record covers only the no-variables case.
- Operands shorter than the width raise IndexError in the Python code. The model requires operands of exactly the width instead, which is what the docstrings demand. Width 0 is excluded where the code indexes bit n-1.
- BinaryAnalyzer.DecimalToBinary and BinaryAnalyzer.ValidateBinaryList: the width is a `nat`, so negative widths are excluded by the type. In Python a negative width gives no padding and a `[:width]` slice that drops elements from the end. Every caller in the code passes 8, 16 or the engine's width.
- `str.upper`, `isalpha`, `isdigit` and `isalnum` are modelled on ASCII letters and digits only. Unicode case mapping is left out.
- `sorted(set(...))` in `extract_variables` is modelled as insertion into a strictly sorted list. That list is proved equal to the sorted list of the set.
- `& 1` on non-negative integers is modelled as `% 2`. Integers keep Python's unbounded range.
- The operator dictionary is the constant set `Operators` plus the function `Precedence`. Its `'unary'` column is the predicate `IsUnary`.
- Alu.ALU.Execute: the Python `trace` argument and the control unit's pass-through of it are left out, since they only control logging.
- CircuitSimulation.SkipsConstants: stated on the token sequence of the rendered expression A AND 0, not on a source text, because a text needs the tokenizer's spacing.

## Findings

| source | as written | input that shows it | evidently intended | confidence | as-written member | corrected member |
|---|---|---|---|---|---|---|
| binary_arithmetic.py:309 | `multiply` calls `self_shift_left`, an undefined name; read as the existing `_shift_left`, it would halve the multiplicand | any width ≥ 1, e.g. 5 · 3 on 8 bits (7 with the halving helper) | shift the multiplicand towards the top bit (double it) each step, giving a · b | not executed | BinaryArithmetic.Multiply, Alu.AluMulRaises, BinaryArithmetic.MultiplyHalvingFiveThree | BinaryArithmetic.ShiftAndAdd, BinaryArithmetic.DoublingProduct, Alu.IntendedMul |
| binary_arithmetic.py:535 | the restore step unpacks the adder's 2-tuple into three names, raising ValueError | 5 / 3 on 8 bits | restore A with the adder's sum and continue; together with the doubling shift of the row for lines 506-508 this gives quotient 1 and remainder 2 | not executed | BinaryArithmetic.Divide, BinaryArithmetic.DivideRaises, BinaryArithmetic.DivideFiveThree | BinaryArithmetic.RestoringDivision, BinaryArithmetic.RestoringDivideCorrect, BinaryArithmetic.RestoringFiveThree |
| binary_arithmetic.py:506-508 | A and Q move with `_shift_left`, which halves LSB-first lists where restoring division doubles them | 5 / 3 on 8 bits with the unpack at line 535 repaired gives quotient 0 and remainder 0 | move A and Q towards the top bit (doubling), with Q's top bit entering A[0], giving quotient 1 and remainder 2 | not executed | BinaryArithmetic.HalvingStep, BinaryArithmetic.HalvingDivideZero, BinaryArithmetic.HalvingFiveThree | BinaryArithmetic.RestoringDivision, BinaryArithmetic.RestoringDivideCorrect, BinaryArithmetic.RestoringFiveThree |
| alu_simulator.py:230-242 | on LSB-first lists, SHL drops bit 0 (halving the value) but reports bit n-1 as the carry; SHR doubles the value | SHL 15 on 8 bits gives 7 | SHL doubles (15 → 30, as the self-test expects) and SHR halves | not executed | Alu.AluShifts, Alu.AluShlFifteen | Alu.IntendedShl, Alu.IntendedShr, Alu.IntendedShlFifteen |
| alu_simulator.py:244-256 | ROL drops bit 0 and copies bit n-1 into its place; ROR drops bit n-1 and copies bit 0 | ROL of [1, 0] gives [0, 0] | rotation permutes the bits, and ROL and ROR undo each other | not executed | Alu.AluRotations, Alu.AluRolLosesBit | Alu.IntendedRotations |
| logic_designer.py:62-65 | "OR" is replaced before "XOR", so "XOR" becomes "X\|" | the expression "A XOR B" | XOR becomes "^" | not executed | Tokenizer.XorRuleNeverFires, Tokenizer.TokenizeXorAsWritten | Tokenizer.TokenizeXorIntended |
| logic_designer.py:131-139 | a unary operator pops an equal-precedence unary operator off the stack, so NOT NOT A becomes "! A !" | NOT NOT A with A = 1 evaluates to 0 | unary prefix operators do not pop each other, so NOT NOT A equals A | not executed | ExpressionParser.DoubleNegationAsWritten, ExpressionParser.DoubleNegationPostfix | ExpressionParser.DoubleNegationCorrected, ExpressionParser.PostfixOfInfix |
| logic_designer.py:351-410 | the simulator's loop has no branch for numeric tokens, so constants are skipped | A AND 0 with A = 1 gives output 1 | constants are pushed as in `evaluate_postfix`, so the output agrees with `evaluate` | not executed | CircuitSimulation.SkipsConstants | CircuitSimulation.TraceAgreesCorrected |
