/**
 * The mini ALU of alu_simulator.py: opcode dispatch over N-bit LSB-first
 * operands, the five-flag status register that every operation rebuilds,
 * and the control unit that checks an instruction before the ALU runs it.
 */
module Alu {
  import opened Gates
  import opened BinaryAnalyzer
  import opened BinaryArithmetic

  datatype Option<T> = None | Some(value: T)

  const OpAdd: int := 0x01
  const OpSub: int := 0x02
  const OpMul: int := 0x03
  const OpDiv: int := 0x04
  const OpAnd: int := 0x10
  const OpOr: int := 0x11
  const OpXor: int := 0x12
  const OpNot: int := 0x13
  const OpShl: int := 0x20
  const OpShr: int := 0x21
  const OpRol: int := 0x22
  const OpRor: int := 0x23

  const IndexError := "IndexError: list index out of range"
  const InvalidInstruction := "ValueError: Invalid instruction: missing opcode or operand_a"

  // ---------------------------------------------------------------------
  // flags

  /** The five status flags, in the order `to_dict` lists them. */
  datatype Flags = Flags(zero: int, carry: int, overflow: int, sign: int, parity: int)

  const Cleared := Flags(0, 0, 0, 0, 0)

  /** The flags `update` derives from a result, its carry-out and its overflow bit. */
  function FlagsFor(result: seq<int>, carryOut: int, overflow: int): Flags
    requires |result| >= 1
  {
    Flags(if AllZero(result) then 1 else 0, carryOut, overflow, result[|result| - 1], Parity(result))
  }

  /** What the derived flags mean for a 0/1 result. */
  lemma FlagsMeaning(result: seq<int>, carryOut: int, overflow: int)
    requires |result| >= 1 && IsBits(result)
    ensures FlagsFor(result, carryOut, overflow).zero == 1 <==> Value(result) == 0
    ensures FlagsFor(result, carryOut, overflow).sign == 1 <==> Signed(result) < 0
    ensures FlagsFor(result, carryOut, overflow).parity == 1 <==> Ones(result) % 2 == 1
    ensures FlagsFor(result, carryOut, overflow).carry == carryOut
    ensures FlagsFor(result, carryOut, overflow).overflow == overflow
  {
    AllZeroValue(result);
    assert IsBit(result[|result| - 1]);
  }

  class ALUFlags {
    var zero: int
    var carry: int
    var overflow: int
    var sign: int
    var parity: int

    function Snapshot(): Flags
      reads this
    {
      Flags(zero, carry, overflow, sign, parity)
    }

    constructor()
      ensures Snapshot() == Cleared
    {
      zero, carry, overflow, sign, parity := 0, 0, 0, 0, 0;
      new;
      Reset();
    }

    method Reset()
      modifies this
      ensures Snapshot() == Cleared
    {
      zero, carry, overflow, sign, parity := 0, 0, 0, 0, 0;
    }

    /** Rebuild every flag from the result; nothing of the previous state survives. */
    method Update(resultBits: seq<int>, carryOut: int, overflow: int)
      requires |resultBits| >= 1
      modifies this
      ensures Snapshot() == FlagsFor(resultBits, carryOut, overflow)
    {
      Reset();
      zero := ZeroTest(resultBits);
      carry := carryOut;
      this.overflow := overflow;
      sign := resultBits[|resultBits| - 1];
      parity := CheckParity(resultBits);
    }

    function ToDict(): (d: map<string, int>)
      reads this
      ensures d.Keys == {"Zero", "Carry", "Overflow", "Sign", "Parity"}
      ensures d["Zero"] == zero && d["Carry"] == carry && d["Overflow"] == overflow
      ensures d["Sign"] == sign && d["Parity"] == parity
    {
      map["Zero" := zero, "Carry" := carry, "Overflow" := overflow, "Sign" := sign, "Parity" := parity]
    }
  }

  // ---------------------------------------------------------------------
  // what one operation computes

  /** Result bits, carry-out and overflow of one operation, before the flags are derived. */
  datatype Outcome = Outcome(result: seq<int>, carry: int, overflow: int)

  /** A missing second operand is N zeros. */
  function Operand(b: Option<seq<int>>, n: nat): seq<int>
  {
    if b.None? then Zeros(n) else b.value
  }

  /** Python's `prod[:n]`, which stops at the end of a shorter list. */
  function Prefix(s: seq<int>, n: nat): (r: seq<int>)
    ensures |r| == Min(n, |s|) && r == s[..|r|]
  {
    s[..Min(n, |s|)]
  }

  /** On a list of at least n bits, the prefix keeps the value modulo 2^n. */
  lemma PrefixKeepsLowValue(s: seq<int>, n: nat)
    requires |s| >= n
    ensures Value(Prefix(s, n)) == Value(s) % Pow2(n)
  {
    assert s == s[..n] + s[n..];
    ValueAppend(s[..n], s[n..]);
    ModUnique(Value(s), Pow2(n), Value(s[n..]), Value(s[..n]));
  }

  /**
   * MUL's overflow scan over indices i .. 2n-1 of the product: 1 at the
   * first set bit, IndexError on reaching the end of a shorter list.
   */
  function HighHalfScan(prod: seq<int>, i: nat, n: nat): (r: Result<int>)
    decreases 2 * n - i
  {
    if i >= 2 * n then Ok(0)
    else if i >= |prod| then Err(IndexError)
    else if prod[i] == 1 then Ok(1)
    else HighHalfScan(prod, i + 1, n)
  }

  /** On a full-length 0/1 product the scan reports whether any bit from i on is set. */
  lemma {:induction false} HighHalfScanBits(prod: seq<int>, i: nat, n: nat)
    requires |prod| == 2 * n && n <= i <= 2 * n && IsBits(prod)
    ensures HighHalfScan(prod, i, n) == Ok(if AllZero(prod[i..]) then 0 else 1)
    decreases 2 * n - i
  {
    if i < 2 * n {
      HighHalfScanBits(prod, i + 1, n);
      assert prod[i..] == [prod[i]] + prod[i + 1..];
      assert AllZero(prod[i..]) <==> prod[i] == 0 && AllZero(prod[i + 1..]);
    }
  }

  /** MUL's result: the low half of the product and the high-half overflow bit. */
  function MulOutcome(prod: seq<int>, n: nat): (r: Result<Outcome>)
    ensures n >= 1 && r.Ok? ==> |r.value.result| == n
  {
    match HighHalfScan(prod, n, n)
    case Err(e) => Err(e)
    case Ok(overflow) => Ok(Outcome(Prefix(prod, n), 0, overflow))
  }

  /**
   * Given a 2N-bit product, MUL keeps it modulo 2^N and flags overflow
   * exactly when the product does not fit in N bits.
   */
  lemma MulOutcomeProduct(prod: seq<int>, n: nat)
    requires |prod| == 2 * n && IsBits(prod)
    ensures MulOutcome(prod, n).Ok?
    ensures Value(MulOutcome(prod, n).value.result) == Value(prod) % Pow2(n)
    ensures MulOutcome(prod, n).value.overflow == 1 <==> Value(prod) >= Pow2(n)
  {
    HighHalfScanBits(prod, n, n);
    HalvesValue(prod, n);
  }

  /** The low half of a 2N-bit list is its value mod 2^N; the high half is non-zero iff the value reaches 2^N. */
  lemma HalvesValue(prod: seq<int>, n: nat)
    requires |prod| == 2 * n && IsBits(prod)
    ensures Value(prod[..n]) == Value(prod) % Pow2(n)
    ensures !AllZero(prod[n..]) <==> Value(prod) >= Pow2(n)
  {
    var low, high := prod[..n], prod[n..];
    assert prod == low + high;
    ValueAppend(low, high);
    AllZeroValue(high);
    LowHighArith(Value(prod), Value(low), Value(high), Pow2(n));
  }

  lemma LowHighArith(v: int, low: int, high: int, p: int)
    requires v == low + p * high && 0 <= low < p && high >= 0
    ensures v % p == low && (v >= p <==> high >= 1)
  {
    ModUnique(v, p, high, low);
    if high >= 1 {
      MulMono(p, high);
    }
  }

  /**
   * MUL on the corrected multiply: the low half is a * b mod 2^N and the
   * overflow flag is set exactly when a * b does not fit in N bits.
   */
  lemma IntendedMul(a: seq<int>, b: seq<int>, n: nat)
    requires |a| == n && |b| == n && IsBits(a) && IsBits(b)
    ensures MulOutcome(MulState(a, b, n, Doubling, n).0, n).Ok?
    ensures Value(MulOutcome(MulState(a, b, n, Doubling, n).0, n).value.result) == (Value(a) * Value(b)) % Pow2(n)
    ensures MulOutcome(MulState(a, b, n, Doubling, n).0, n).value.overflow == 1 <==> Value(a) * Value(b) >= Pow2(n)
  {
    DoublingProduct(a, b, n);
    MulOutcomeProduct(MulState(a, b, n, Doubling, n).0, n);
  }

  /** Bitwise AND/OR/XOR of two operands, NOT of the first. */
  function Bitwise(opcode: int, a: seq<int>, b: seq<int>): (r: seq<int>)
    requires opcode in {OpAnd, OpOr, OpXor, OpNot} && |a| == |b|
    ensures |r| == |a|
  {
    seq(|a|, k requires 0 <= k < |a| =>
      if opcode == OpAnd then And(a[k], b[k])
      else if opcode == OpOr then Or(a[k], b[k])
      else if opcode == OpXor then Xor(a[k], b[k])
      else Not(a[k]))
  }

  /** The shift and rotate opcodes as written: every one moves bits towards index 0 or index N-1 by slicing. */
  function ShiftRotate(opcode: int, a: seq<int>): (o: Outcome)
    requires opcode in {OpShl, OpShr, OpRol, OpRor} && |a| >= 1
    ensures |o.result| == |a|
  {
    var n := |a|;
    if opcode == OpShl then Outcome(a[1..] + [0], a[n - 1], 0)
    else if opcode == OpShr then Outcome([0] + a[..n - 1], a[0], 0)
    else if opcode == OpRol then Outcome(a[1..] + [a[n - 1]], a[n - 1], 0)
    else Outcome([a[0]] + a[..n - 1], a[0], 0)
  }

  /** The dispatch of `execute`, opcode by opcode; an unknown opcode leaves N zeros. */
  function Operate(opcode: int, a: seq<int>, b: seq<int>, n: nat): (r: Result<Outcome>)
    requires n >= 1 && |a| == n && |b| == n
    ensures r.Ok? ==> |r.value.result| == n
  {
    if opcode == OpAdd then
      var sum := AddStages(a, b, n);
      Ok(Outcome(sum.0, sum.1, 0))
    else if opcode == OpSub then
      var diff := SubtractSpec(a, b, n);
      Ok(Outcome(diff.0, diff.1, diff.2))
    else if opcode == OpMul then
      match Multiply(a, b, n)
      case Err(e) => Err(e)
      case Ok(prod) => MulOutcome(prod, n)
    else if opcode == OpDiv then
      match DivideSpec(a, b, n)
      case Err(e) => Err(e)
      case Ok(qr) => Ok(Outcome(qr.0, 0, 0))
    else if opcode in {OpAnd, OpOr, OpXor, OpNot} then
      Ok(Outcome(Bitwise(opcode, a, b), 0, 0))
    else if opcode in {OpShl, OpShr, OpRol, OpRor} then
      Ok(ShiftRotate(opcode, a))
    else
      Ok(Outcome(Zeros(n), 0, 0))
  }

  /** The list `execute` returns, or the exception it raises. */
  function Returned(o: Result<Outcome>): Result<seq<int>>
  {
    match o
    case Err(e) => Err(e)
    case Ok(v) => Ok(v.result)
  }

  /** The flag register after `execute`: untouched when it raises, rebuilt otherwise. */
  function FlagsAfter(before: Flags, o: Result<Outcome>): Flags
    requires o.Ok? ==> |o.value.result| >= 1
  {
    match o
    case Err(_) => before
    case Ok(v) => FlagsFor(v.result, v.carry, v.overflow)
  }

  // ---------------------------------------------------------------------
  // the ALU

  class ALU {
    const bitWidth: nat
    const flags: ALUFlags

    constructor(bitWidth: nat)
      ensures this.bitWidth == bitWidth && fresh(flags) && flags.Snapshot() == Cleared
    {
      this.bitWidth := bitWidth;
      flags := new ALUFlags();
    }

    /** ALU.execute: run one opcode, then rebuild the flags from its outcome. */
    method Execute(opcode: int, aBits: seq<int>, bBits: Option<seq<int>>) returns (r: Result<seq<int>>)
      requires bitWidth >= 1 && |aBits| == bitWidth
      requires bBits.Some? ==> |bBits.value| == bitWidth
      modifies flags
      ensures r == Returned(Operate(opcode, aBits, Operand(bBits, bitWidth), bitWidth))
      ensures flags.Snapshot()
              == FlagsAfter(old(flags.Snapshot()), Operate(opcode, aBits, Operand(bBits, bitWidth), bitWidth))
    {
      var n := bitWidth;
      var b := if bBits.None? then Zeros(n) else bBits.value;
      ghost var o := Operate(opcode, aBits, b, n);
      var result := Zeros(n);
      var carryOut := 0;
      var overflow := 0;
      if opcode == OpAdd {
        result, carryOut := RippleCarryAdder(aBits, b, n);
      } else if opcode == OpSub {
        var borrow, ovf;
        result, borrow, ovf := Subtract(aBits, b, n);
        carryOut := borrow;
        overflow := ovf;
      } else if opcode == OpMul {
        var product := Multiply(aBits, b, n);
        match product
        case Err(e) =>
          return Err(e);
        case Ok(prod) =>
          result := Prefix(prod, n);
          var scan := ScanHighHalf(prod, n);
          match scan
          case Err(e) =>
            return Err(e);
          case Ok(v) =>
            overflow := v;
      } else if opcode == OpDiv {
        var quotient := Divide(aBits, b, n);
        match quotient
        case Err(e) =>
          return Err(e);
        case Ok(qr) =>
          result := qr.0;
      } else if opcode in {OpAnd, OpOr, OpXor, OpNot} {
        for i := 0 to n
          invariant |result| == n
          invariant forall k :: 0 <= k < i ==> result[k] == Bitwise(opcode, aBits, b)[k]
        {
          if opcode == OpAnd {
            result := result[i := And(aBits[i], b[i])];
          } else if opcode == OpOr {
            result := result[i := Or(aBits[i], b[i])];
          } else if opcode == OpXor {
            result := result[i := Xor(aBits[i], b[i])];
          } else {
            result := result[i := Not(aBits[i])];
          }
        }
        assert result == Bitwise(opcode, aBits, b);
      } else if opcode == OpShl {
        carryOut := aBits[n - 1];
        result := aBits[1..] + [0];
      } else if opcode == OpShr {
        carryOut := aBits[0];
        result := [0] + aBits[..n - 1];
      } else if opcode == OpRol {
        carryOut := aBits[n - 1];
        result := aBits[1..] + [carryOut];
      } else if opcode == OpRor {
        carryOut := aBits[0];
        result := [carryOut] + aBits[..n - 1];
      }
      assert o == Ok(Outcome(result, carryOut, overflow));
      flags.Update(result, carryOut, overflow);
      return Ok(result);
    }
  }

  /** MUL's scan loop: `for i in range(N, 2N): if prod[i] == 1: overflow = 1; break`. */
  method ScanHighHalf(prod: seq<int>, n: nat) returns (r: Result<int>)
    ensures r == HighHalfScan(prod, n, n)
  {
    var i := n;
    while i < 2 * n
      invariant n <= i && (i <= 2 * n || n == 0)
      invariant HighHalfScan(prod, i, n) == HighHalfScan(prod, n, n)
      decreases 2 * n - i
    {
      if i >= |prod| {
        return Err(IndexError);
      }
      if prod[i] == 1 {
        return Ok(1);
      }
      i := i + 1;
    }
    return Ok(0);
  }

  // ---------------------------------------------------------------------
  // the control unit

  /** An instruction dictionary: any of its three entries may be missing. */
  datatype Instruction = Instruction(opcode: Option<int>, operandA: Option<seq<int>>, operandB: Option<seq<int>>)

  class ControlUnit {
    const alu: ALU

    constructor(alu: ALU)
      ensures this.alu == alu
    {
      this.alu := alu;
    }

    /** decode_and_execute: reject an instruction without opcode or first operand, else run it. */
    method DecodeAndExecute(instruction: Instruction) returns (r: Result<seq<int>>)
      requires alu.bitWidth >= 1
      requires instruction.operandA.Some? ==> |instruction.operandA.value| == alu.bitWidth
      requires instruction.operandB.Some? ==> |instruction.operandB.value| == alu.bitWidth
      modifies alu.flags
      ensures instruction.opcode.None? || instruction.operandA.None? ==>
                r == Err(InvalidInstruction) && unchanged(alu.flags)
      ensures instruction.opcode.Some? && instruction.operandA.Some? ==>
                var o := Operate(instruction.opcode.value, instruction.operandA.value,
                                 Operand(instruction.operandB, alu.bitWidth), alu.bitWidth);
                r == Returned(o) && alu.flags.Snapshot() == FlagsAfter(old(alu.flags.Snapshot()), o)
    {
      if instruction.opcode.None? || instruction.operandA.None? {
        return Err(InvalidInstruction);
      }
      r := alu.Execute(instruction.opcode.value, instruction.operandA.value, instruction.operandB);
    }
  }

  // ---------------------------------------------------------------------
  // what each opcode computes

  /** ADD: the adder's sum and carry; overflow is never set. */
  lemma AluAdd(a: seq<int>, b: seq<int>, n: nat)
    requires n >= 1 && |a| == n && |b| == n && IsBits(a) && IsBits(b)
    ensures Operate(OpAdd, a, b, n).Ok?
    ensures Value(Operate(OpAdd, a, b, n).value.result) == (Value(a) + Value(b)) % Pow2(n)
    ensures Operate(OpAdd, a, b, n).value.carry == 1 <==> Value(a) + Value(b) >= Pow2(n)
    ensures Operate(OpAdd, a, b, n).value.overflow == 0
  {
    AdderValue(a, b, n);
  }

  /** SUB: the difference mod 2^N, the borrow as carry, signed overflow. */
  lemma AluSub(a: seq<int>, b: seq<int>, n: nat)
    requires n >= 1 && |a| == n && |b| == n && IsBits(a) && IsBits(b)
    ensures Operate(OpSub, a, b, n).Ok?
    ensures Value(Operate(OpSub, a, b, n).value.result) == (Value(a) - Value(b)) % Pow2(n)
    ensures Value(b) != 0 ==> (Operate(OpSub, a, b, n).value.carry == 1 <==> Value(a) < Value(b))
    ensures Value(b) == 0 ==> Operate(OpSub, a, b, n).value.carry == 1
    ensures Operate(OpSub, a, b, n).value.overflow == 1 <==>
              !(-(Pow2(n - 1) as int) <= Signed(a) - Signed(b) < Pow2(n - 1))
  {
    SubtractValue(a, b, n);
    SubtractOverflow(a, b, n);
  }

  /** MUL raises, because multiply does. */
  lemma AluMulRaises(a: seq<int>, b: seq<int>, n: nat)
    requires n >= 1 && |a| == n && |b| == n
    ensures Operate(OpMul, a, b, n) == Err("NameError: name 'self_shift_left' is not defined")
  {
  }

  /** DIV by zero: a zero quotient with carry and overflow clear. */
  lemma AluDivByZero(a: seq<int>, b: seq<int>, n: nat)
    requires n >= 1 && |a| == n && |b| == n && IsBits(b) && Value(b) == 0
    ensures Operate(OpDiv, a, b, n) == Ok(Outcome(Zeros(n), 0, 0))
  {
    DivideByZero(a, b, n);
  }

  /** DIV reports divide's error whenever divide raises, and its quotient otherwise, with C = V = 0. */
  lemma AluDivFollowsDivider(a: seq<int>, b: seq<int>, n: nat)
    requires n >= 1 && |a| == n && |b| == n
    ensures DivideSpec(a, b, n).Err? ==> Operate(OpDiv, a, b, n) == Err(DivideSpec(a, b, n).error)
    ensures DivideSpec(a, b, n).Ok? ==> Operate(OpDiv, a, b, n) == Ok(Outcome(DivideSpec(a, b, n).value.0, 0, 0))
  {
  }

  /**
   * DIV raises the unpack error for every dividend with a clear top bit and
   * every divisor in 1 .. 2^(n-1), 15 / 7 on 8 bits among them.
   */
  lemma AluDivRaises(a: seq<int>, b: seq<int>, n: nat)
    requires n >= 1 && |a| == n && |b| == n && IsBits(a) && IsBits(b)
    requires a[n - 1] == 0 && 1 <= Value(b) <= Pow2(n - 1)
    ensures Operate(OpDiv, a, b, n) == Err(UnpackError)
  {
    DivideRaises(a, b, n);
  }

  /** AND, OR, XOR: bit by bit, with carry and overflow clear. */
  lemma AluLogic(opcode: int, a: seq<int>, b: seq<int>, n: nat)
    requires opcode in {OpAnd, OpOr, OpXor} && n >= 1 && |a| == n && |b| == n && IsBits(a) && IsBits(b)
    ensures Operate(opcode, a, b, n) == Ok(Outcome(Bitwise(opcode, a, b), 0, 0))
    ensures forall k :: 0 <= k < n ==>
              (Bitwise(opcode, a, b)[k] == 1 <==>
                 if opcode == OpAnd then a[k] == 1 && b[k] == 1
                 else if opcode == OpOr then a[k] == 1 || b[k] == 1
                 else a[k] != b[k])
  {
    forall k | 0 <= k < n
      ensures Bitwise(opcode, a, b)[k] == 1 <==>
                if opcode == OpAnd then a[k] == 1 && b[k] == 1
                else if opcode == OpOr then a[k] == 1 || b[k] == 1
                else a[k] != b[k]
    {
      assert IsBit(a[k]) && IsBit(b[k]);
    }
  }

  /** NOT complements every bit of the first operand: the value becomes 2^N - 1 - a. */
  lemma AluNot(a: seq<int>, b: seq<int>, n: nat)
    requires n >= 1 && |a| == n && |b| == n && IsBits(a)
    ensures Operate(OpNot, a, b, n).Ok?
    ensures Operate(OpNot, a, b, n).value.result == Invert(a)
    ensures Value(Operate(OpNot, a, b, n).value.result) == Pow2(n) - 1 - Value(a)
    ensures Operate(OpNot, a, b, n).value.carry == 0 && Operate(OpNot, a, b, n).value.overflow == 0
  {
    assert Bitwise(OpNot, a, b) == Invert(a);
    InvertValue(a);
  }

  /** The shift and rotate opcodes take only the first operand. */
  lemma AluShiftRotate(opcode: int, a: seq<int>, b: seq<int>, n: nat)
    requires opcode in {OpShl, OpShr, OpRol, OpRor} && n >= 1 && |a| == n && |b| == n
    ensures Operate(opcode, a, b, n) == Ok(ShiftRotate(opcode, a))
  {
  }

  /**
   * SHL and SHR as written: SHL moves bits towards index 0, which halves,
   * yet reports the kept top bit as carry; SHR doubles and reports bit 0.
   */
  lemma AluShifts(a: seq<int>)
    requires |a| >= 1 && IsBits(a)
    ensures ShiftRotate(OpShl, a) == Outcome(ShiftLeft(a, 1), a[|a| - 1], 0)
    ensures Value(ShiftRotate(OpShl, a).result) == Value(a) / 2
    ensures ShiftRotate(OpShr, a) == Outcome(ShiftRight(a, 1), a[0], 0)
    ensures Value(ShiftRotate(OpShr, a).result) == (2 * Value(a)) % Pow2(|a|)
  {
    ShiftLeftHalves(a);
    ShiftRightDoubles(a);
  }

  /**
   * ROL and ROR as written drop one end bit and duplicate the other:
   * they keep the multiset of bits only when the two end bits agree.
   */
  lemma AluRotations(a: seq<int>)
    requires |a| >= 1
    ensures multiset(ShiftRotate(OpRol, a).result) + multiset{a[0]} == multiset(a) + multiset{a[|a| - 1]}
    ensures multiset(ShiftRotate(OpRor, a).result) + multiset{a[|a| - 1]} == multiset(a) + multiset{a[0]}
  {
    var n := |a|;
    assert a == [a[0]] + a[1..];
    assert ShiftRotate(OpRol, a).result == a[1..] + [a[n - 1]];
    assert a == a[..n - 1] + [a[n - 1]];
    assert ShiftRotate(OpRor, a).result == [a[0]] + a[..n - 1];
  }

  /** ROL([1, 0]) is [0, 0]: a rotation that loses a one. */
  lemma AluRolLosesBit()
    ensures Operate(OpRol, [1, 0], [0, 0], 2) == Ok(Outcome([0, 0], 0, 0))
  {
    var a := [1, 0];
    assert a[1..] + [a[1]] == [0, 0];
  }

  /** An unknown opcode: N zeros, so the flags read Zero=1 and all others 0. */
  lemma AluUnknown(opcode: int, a: seq<int>, b: seq<int>, n: nat)
    requires n >= 1 && |a| == n && |b| == n
    requires opcode !in {OpAdd, OpSub, OpMul, OpDiv, OpAnd, OpOr, OpXor, OpNot, OpShl, OpShr, OpRol, OpRor}
    ensures Operate(opcode, a, b, n) == Ok(Outcome(Zeros(n), 0, 0))
    ensures FlagsFor(Zeros(n), 0, 0) == Flags(1, 0, 0, 0, 0)
  {
    OnesZeros(n);
  }

  lemma {:induction false} OnesZeros(n: nat)
    ensures Ones(Zeros(n)) == 0
  {
    if n > 0 {
      OnesZeros(n - 1);
      assert Zeros(n)[..n - 1] == Zeros(n - 1);
    }
  }

  // ---------------------------------------------------------------------
  // shifts and rotations as their comments describe them

  /**
   * The intended shifts and rotations: SHL and ROL move every bit one
   * place towards the most significant end, SHR and ROR towards bit 0;
   * the carry is the bit that leaves the word.
   */
  function IntendedShiftRotate(opcode: int, a: seq<int>): (o: Outcome)
    requires opcode in {OpShl, OpShr, OpRol, OpRor} && |a| >= 1
    ensures |o.result| == |a|
  {
    var n := |a|;
    if opcode == OpShl then Outcome([0] + a[..n - 1], a[n - 1], 0)
    else if opcode == OpShr then Outcome(a[1..] + [0], a[0], 0)
    else if opcode == OpRol then Outcome([a[n - 1]] + a[..n - 1], a[n - 1], 0)
    else Outcome(a[1..] + [a[0]], a[0], 0)
  }

  /** The intended SHL doubles mod 2^N and carries out exactly the overflow. */
  lemma IntendedShl(a: seq<int>)
    requires |a| >= 1 && IsBits(a)
    ensures Value(IntendedShiftRotate(OpShl, a).result) == (2 * Value(a)) % Pow2(|a|)
    ensures IntendedShiftRotate(OpShl, a).carry == 1 <==> 2 * Value(a) >= Pow2(|a|)
  {
    ShiftRightDoubles(a);
    TopBit(a);
    assert Pow2(|a|) == 2 * Pow2(|a| - 1);
  }

  /** The intended SHR halves and carries out the remainder. */
  lemma IntendedShr(a: seq<int>)
    requires |a| >= 1 && IsBits(a)
    ensures Value(IntendedShiftRotate(OpShr, a).result) == Value(a) / 2
    ensures IntendedShiftRotate(OpShr, a).carry == Value(a) % 2
  {
    var o := IntendedShiftRotate(OpShr, a);
    assert o.result == a[1..] + [0] && o.carry == a[0];
    ShiftLeftHalves(a);
    LowBit(a);
  }

  /** Bit 0 of a bit list is its value's remainder modulo 2. */
  lemma LowBit(a: seq<int>)
    requires |a| >= 1 && IsBits(a)
    ensures a[0] == Value(a) % 2
  {
    assert a == [a[0]] + a[1..];
    ValueCons(a[0], a[1..]);
    assert IsBit(a[0]);
    ModUnique(Value(a), 2, Value(a[1..]), a[0]);
  }

  /** The intended rotations keep every bit and undo each other. */
  lemma IntendedRotations(a: seq<int>)
    requires |a| >= 1
    ensures multiset(IntendedShiftRotate(OpRol, a).result) == multiset(a)
    ensures multiset(IntendedShiftRotate(OpRor, a).result) == multiset(a)
    ensures IntendedShiftRotate(OpRor, IntendedShiftRotate(OpRol, a).result).result == a
    ensures IntendedShiftRotate(OpRol, IntendedShiftRotate(OpRor, a).result).result == a
  {
    var n := |a|;
    assert a == [a[0]] + a[1..];
    assert a == a[..n - 1] + [a[n - 1]];
    var rol := IntendedShiftRotate(OpRol, a).result;
    assert rol[1..] + [rol[0]] == a;
    var ror := IntendedShiftRotate(OpRor, a).result;
    assert [ror[n - 1]] + ror[..n - 1] == a;
  }

  // ---------------------------------------------------------------------
  // the ALU's self-test on 8 bits: A = 15, B = 7

  const Fifteen := [1, 1, 1, 1, 0, 0, 0, 0]
  const Seven := [1, 1, 1, 0, 0, 0, 0, 0]

  /** decimal_to_binary(15, 8) and decimal_to_binary(7, 8). */
  lemma FifteenSeven()
    ensures ToBits(15, 8) == Fifteen && ToBits(7, 8) == Seven
    ensures Value(Fifteen) == 15 && Value(Seven) == 7
  {
    FifteenBits();
    SevenBits();
  }

  lemma FifteenBits()
    ensures ToBits(15, 8) == Fifteen && Value(Fifteen) == 15
  {
    assert Pow2(8) == 256;
    ValueToBits(15, 8);
  }

  lemma SevenBits()
    ensures ToBits(7, 8) == Seven && Value(Seven) == 7
  {
    assert Pow2(8) == 256;
    ValueToBits(7, 8);
  }

  /** ADD(15, 7) = 22 = 0001 0110: Zero=0, Sign=0, Parity=1. */
  lemma AluAddFifteenSeven(a: seq<int>, b: seq<int>)
    requires |a| == 8 && |b| == 8 && IsBits(a) && IsBits(b) && Value(a) == 15 && Value(b) == 7
    ensures Operate(OpAdd, a, b, 8).Ok?
    ensures Operate(OpAdd, a, b, 8).value.result == [0, 1, 1, 0, 1, 0, 0, 0]
    ensures Value([0, 1, 1, 0, 1, 0, 0, 0]) == 22
    ensures FlagsFor([0, 1, 1, 0, 1, 0, 0, 0], 0, 0) == Flags(0, 0, 0, 0, 1)
  {
    AluAdd(a, b, 8);
    var r := Operate(OpAdd, a, b, 8).value.result;
    assert Value(r) == 22 by {
      assert Pow2(8) == 256;
      assert 22 % 256 == 22;
    }
    TwentyTwo(r);
  }

  /** The only 8-bit list worth 22, and its flags. */
  lemma TwentyTwo(r: seq<int>)
    requires |r| == 8 && IsBits(r) && Value(r) == 22
    ensures r == [0, 1, 1, 0, 1, 0, 0, 0]
    ensures Value([0, 1, 1, 0, 1, 0, 0, 0]) == 22
    ensures FlagsFor([0, 1, 1, 0, 1, 0, 0, 0], 0, 0) == Flags(0, 0, 0, 0, 1)
  {
    RoundTrip(r);
    assert ToBits(22, 8) == [0, 1, 1, 0, 1, 0, 0, 0];
    ParityOf([0, 1, 1, 0, 1, 0, 0, 0]);
  }

  /** AND(15, 7) = 7 with Parity=1. */
  lemma AluAndFifteenSeven()
    ensures Operate(OpAnd, Fifteen, Seven, 8) == Ok(Outcome(Seven, 0, 0))
    ensures FlagsFor(Seven, 0, 0).parity == 1
  {
    assert Bitwise(OpAnd, Fifteen, Seven) == Seven;
    ParityOf(Seven);
  }

  /** NOT(15) = 240 = 1111 0000 with Sign=1, Parity=0. */
  lemma AluNotFifteen()
    ensures Operate(OpNot, Fifteen, Zeros(8), 8) == Ok(Outcome([0, 0, 0, 0, 1, 1, 1, 1], 0, 0))
    ensures Value([0, 0, 0, 0, 1, 1, 1, 1]) == 240
    ensures FlagsFor([0, 0, 0, 0, 1, 1, 1, 1], 0, 0).sign == 1
    ensures FlagsFor([0, 0, 0, 0, 1, 1, 1, 1], 0, 0).parity == 0
  {
    assert Bitwise(OpNot, Fifteen, Zeros(8)) == [0, 0, 0, 0, 1, 1, 1, 1];
    TwoForty();
    ParityOf([0, 0, 0, 0, 1, 1, 1, 1]);
  }

  lemma TwoForty()
    ensures Value([0, 0, 0, 0, 1, 1, 1, 1]) == 240
  {
    var z, o := [0, 0, 0, 0], [1, 1, 1, 1];
    assert z + o == [0, 0, 0, 0, 1, 1, 1, 1];
    ValueAppend(z, o);
    assert Value(z) == 0 by {
      assert z[..3] == [0, 0, 0] && [0, 0, 0][..2] == [0, 0] && [0, 0][..1] == [0];
    }
    assert Value(o) == 15 by {
      assert o[..3] == [1, 1, 1] && [1, 1, 1][..2] == [1, 1] && [1, 1][..1] == [1];
      assert Pow2(3) == 8;
    }
    assert Pow2(4) == 16;
  }

  /** SHL(15) as written gives 7, not the 30 of the self-test; the carry is 0. */
  lemma AluShlFifteen()
    ensures Operate(OpShl, Fifteen, Zeros(8), 8) == Ok(Outcome(Seven, 0, 0))
    ensures Value(Seven) == 7
  {
    assert Fifteen[1..] + [0] == Seven;
    FifteenSeven();
  }

  /** The intended SHL(15) gives 30 with carry 0. */
  lemma IntendedShlFifteen()
    ensures IntendedShiftRotate(OpShl, Fifteen) == Outcome([0, 1, 1, 1, 1, 0, 0, 0], 0, 0)
    ensures Value([0, 1, 1, 1, 1, 0, 0, 0]) == 30
  {
    assert [0] + Fifteen[..7] == [0, 1, 1, 1, 1, 0, 0, 0];
    ValueToBits(30, 8);
    assert ToBits(30, 8) == [0, 1, 1, 1, 1, 0, 0, 0];
    assert Pow2(8) == 256;
  }

  lemma ParitySnoc(s: seq<int>, i: nat)
    requires i < |s|
    ensures Parity(s[..i + 1]) == Xor(Parity(s[..i]), s[i])
  {
    assert s[..i + 1][..i] == s[..i];
  }

  /** Parity of an 8-bit list, one XOR at a time. */
  lemma ParityOf(s: seq<int>)
    requires |s| == 8
    ensures Parity(s) == Xor(Xor(Xor(Xor(Xor(Xor(Xor(Xor(0, s[0]), s[1]), s[2]), s[3]), s[4]), s[5]), s[6]), s[7])
  {
    ParitySnoc(s, 0);
    ParitySnoc(s, 1);
    ParitySnoc(s, 2);
    ParitySnoc(s, 3);
    ParitySnoc(s, 4);
    ParitySnoc(s, 5);
    ParitySnoc(s, 6);
    ParitySnoc(s, 7);
    assert s[..8] == s && s[..0] == [];
  }
}
