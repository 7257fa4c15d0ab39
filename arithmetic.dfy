/**
 * Gate-level arithmetic on LSB-first bit lists of a fixed width n
 * (binary_arithmetic.py, class BinaryArithmetic).  The class's only field
 * that changes, the display trace `execution_steps`, is not modelled, so
 * the operations are methods that take the width n (`self.bit_width`).
 */
module BinaryArithmetic {
  import opened Gates
  import opened BinaryAnalyzer

  // ---------------------------------------------------------------------
  // _shift_left / _shift_right

  function Min(x: int, y: int): int { if x < y then x else y }

  /**
   * `_shift_left`: `(bits[amount:] + [0] * amount)[:len(bits)]`.  Because the
   * lists are LSB first, this moves every bit towards index 0.
   */
  function ShiftLeft(bits: seq<int>, amount: int): (r: seq<int>)
    ensures |r| == |bits|
    ensures amount <= 0 ==> r == bits
    ensures amount > 0 ==> r == bits[Min(amount, |bits|)..] + Zeros(Min(amount, |bits|))
    ensures IsBits(bits) ==> IsBits(r)
  {
    if amount <= 0 then bits
    else
      var d := Min(amount, |bits|);
      var shifted := bits[d..] + Zeros(amount);
      assert shifted[..|bits|] == bits[d..] + Zeros(d);
      shifted[..|bits|]
  }

  /**
   * `_shift_right`: `([0] * amount + bits[:-amount])[:len(bits)]`, which
   * moves every bit away from index 0.
   */
  function ShiftRight(bits: seq<int>, amount: int): (r: seq<int>)
    ensures |r| == |bits|
    ensures amount <= 0 ==> r == bits
    ensures amount > 0 ==> r == Zeros(Min(amount, |bits|)) + bits[..|bits| - Min(amount, |bits|)]
    ensures IsBits(bits) ==> IsBits(r)
  {
    if amount <= 0 then bits
    else
      var d := Min(amount, |bits|);
      var shifted := Zeros(amount) + bits[..|bits| - d];
      assert shifted[..|bits|] == Zeros(d) + bits[..|bits| - d] by {
        if amount < |bits| {
          assert shifted == Zeros(d) + bits[..|bits| - d];
        } else {
          assert |bits| - d == 0;
        }
      }
      shifted[..|bits|]
  }

  /** `_shift_left(bits)` halves the value: it drops the least significant bit. */
  lemma ShiftLeftHalves(bits: seq<int>)
    requires |bits| >= 1
    ensures ShiftLeft(bits, 1) == bits[1..] + [0]
    ensures Value(ShiftLeft(bits, 1)) == Value(bits) / 2
  {
    var r := bits[1..] + [0];
    assert Zeros(1) == [0];
    ValueAppend(bits[1..], [0]);
    assert Value([0]) == 0;
    ValueCons(bits[0], bits[1..]);
    assert bits == [bits[0]] + bits[1..];
  }

  /** `_shift_right(bits)` doubles the value modulo 2^n: it drops the top bit. */
  lemma ShiftRightDoubles(bits: seq<int>)
    requires |bits| >= 1
    ensures ShiftRight(bits, 1) == [0] + bits[..|bits| - 1]
    ensures Value(ShiftRight(bits, 1)) == (2 * Value(bits)) % Pow2(|bits|)
  {
    var n := |bits|;
    var low := bits[..n - 1];
    assert Zeros(1) == [0];
    ValueCons(0, low);
    DoubleArith(Value(bits), Value(low), Pow2(n - 1), Pow2(n), bits[n - 1] == 1);
  }

  /** v = low + (top ? h : 0) with low < h gives 2v mod 2h = 2 low. */
  lemma DoubleArith(v: int, low: int, h: int, p: int, top: bool)
    requires 0 <= low < h && p == 2 * h && v == low + (if top then h else 0)
    ensures (2 * v) % p == 2 * low
  {
    ModUnique(2 * v, p, if top then 1 else 0, 2 * low);
  }

  // ---------------------------------------------------------------------
  // ripple_carry_adder

  /** Sum bits and carry after the first i full-adder stages, carry starting at 0. */
  function AddStages(a: seq<int>, b: seq<int>, i: nat): (r: (seq<int>, int))
    requires i <= |a| && i <= |b|
    ensures |r.0| == i && IsBit(r.1) && IsBits(r.0)
  {
    if i == 0 then ([], 0)
    else
      var (s, c) := AddStages(a, b, i - 1);
      var (x, co) := FullAdder(a[i - 1], b[i - 1], c);
      (s + [x], co)
  }

  /** Loop invariant of the adder: prefix sum plus carry * 2^i is the sum of the prefixes. */
  lemma {:induction false} AddStagesValue(a: seq<int>, b: seq<int>, i: nat)
    requires i <= |a| && i <= |b| && IsBits(a) && IsBits(b)
    ensures Value(AddStages(a, b, i).0) + (if AddStages(a, b, i).1 == 1 then Pow2(i) else 0)
            == Value(a[..i]) + Value(b[..i])
  {
    if i > 0 {
      AddStagesValue(a, b, i - 1);
      var (s, c) := AddStages(a, b, i - 1);
      var (x, co) := FullAdder(a[i - 1], b[i - 1], c);
      assert AddStages(a, b, i) == (s + [x], co);
      assert (s + [x])[..i - 1] == s;
      assert a[..i][..i - 1] == a[..i - 1];
      assert b[..i][..i - 1] == b[..i - 1];
      assert IsBit(a[i - 1]) && IsBit(b[i - 1]);
    }
  }

  /**
   * ripple_carry_adder: n chained full adders, carry rippling from index 0
   * upwards; returns the n sum bits and the final carry.
   */
  method RippleCarryAdder(a: seq<int>, b: seq<int>, n: nat) returns (sum: seq<int>, carry: int)
    requires |a| == n && |b| == n
    ensures (sum, carry) == AddStages(a, b, n)
    ensures |sum| == n && IsBits(sum) && IsBit(carry)
    ensures IsBits(a) && IsBits(b) ==> Value(sum) == (Value(a) + Value(b)) % Pow2(n)
    ensures IsBits(a) && IsBits(b) ==> (carry == 1 <==> Value(a) + Value(b) >= Pow2(n))
  {
    sum := Zeros(n);
    carry := 0;
    for i := 0 to n
      invariant |sum| == n
      invariant sum[..i] == AddStages(a, b, i).0
      invariant carry == AddStages(a, b, i).1
    {
      var (s, co) := FullAdder(a[i], b[i], carry);
      assert sum[i := s][..i + 1] == sum[..i] + [s];
      sum := sum[i := s];
      carry := co;
    }
    assert sum[..n] == sum;
    if IsBits(a) && IsBits(b) {
      AdderValue(a, b, n);
    }
  }

  /** The adder computes the sum modulo 2^n and signals carry exactly on unsigned overflow. */
  lemma AdderValue(a: seq<int>, b: seq<int>, n: nat)
    requires |a| == n && |b| == n && IsBits(a) && IsBits(b)
    ensures Value(AddStages(a, b, n).0) == (Value(a) + Value(b)) % Pow2(n)
    ensures AddStages(a, b, n).1 == 1 <==> Value(a) + Value(b) >= Pow2(n)
  {
    AddStagesValue(a, b, n);
    assert a[..n] == a && b[..n] == b;
    var (s, c) := AddStages(a, b, n);
    ModUnique(Value(a) + Value(b), Pow2(n), if c == 1 then 1 else 0, Value(s));
  }

  // ---------------------------------------------------------------------
  // twos_complement

  /** One's complement: NOT applied to every entry. */
  function Invert(bits: seq<int>): (r: seq<int>)
    ensures |r| == |bits| && IsBits(r)
    ensures forall k :: 0 <= k < |bits| ==> r[k] == Not(bits[k])
  {
    seq(|bits|, k requires 0 <= k < |bits| => Not(bits[k]))
  }

  lemma {:induction false} InvertValue(bits: seq<int>)
    requires IsBits(bits)
    ensures Value(Invert(bits)) == Pow2(|bits|) - 1 - Value(bits)
    decreases |bits|
  {
    if |bits| > 0 {
      var k := |bits| - 1;
      var low := bits[..k];
      InvertValue(low);
      assert Invert(bits)[..k] == Invert(low);
      assert IsBit(bits[k]);
    }
  }

  /** The constant `one`: a 1 at index 0, zeros above. */
  function One(n: nat): (r: seq<int>)
    requires n >= 1
    ensures |r| == n && IsBits(r) && Value(r) == 1
  {
    var r := [1] + Zeros(n - 1);
    ValueCons(1, Zeros(n - 1));
    ValueZeros(n - 1);
    r
  }

  /** Sum and carry of `~bits + 1`; twos_complement keeps the sum and drops the carry. */
  function NegateStages(bits: seq<int>, n: nat): (r: (seq<int>, int))
    requires n >= 1 && |bits| == n
    ensures |r.0| == n && IsBits(r.0) && IsBit(r.1)
  {
    AddStages(Invert(bits), One(n), n)
  }

  /** Two's complement negation modulo 2^n. */
  lemma NegateValue(bits: seq<int>, n: nat)
    requires n >= 1 && |bits| == n && IsBits(bits)
    ensures Value(NegateStages(bits, n).0) == (Pow2(n) - Value(bits)) % Pow2(n)
  {
    NegateExact(bits, n);
    NegateMod(bits, n, Value(NegateStages(bits, n).0));
  }

  lemma NegateMod(bits: seq<int>, n: nat, w: int)
    requires n >= 1 && |bits| == n
    requires Value(bits) == 0 ==> w == 0
    requires Value(bits) != 0 ==> w == Pow2(n) - Value(bits)
    ensures w == (Pow2(n) - Value(bits)) % Pow2(n)
  {
    if Value(bits) == 0 {
      ModUnique(Pow2(n) - Value(bits), Pow2(n), 1, 0);
    } else {
      ModUnique(Pow2(n) - Value(bits), Pow2(n), 0, Pow2(n) - Value(bits));
    }
  }

  /**
   * Negation without the modulus: zero stays zero with the carry out set,
   * anything else becomes 2^n - v with no carry.
   */
  lemma NegateExact(bits: seq<int>, n: nat)
    requires n >= 1 && |bits| == n && IsBits(bits)
    ensures Value(bits) == 0 ==> Value(NegateStages(bits, n).0) == 0 && NegateStages(bits, n).1 == 1
    ensures Value(bits) != 0 ==> Value(NegateStages(bits, n).0) == Pow2(n) - Value(bits) && NegateStages(bits, n).1 == 0
  {
    InvertValue(bits);
    AddStagesValue(Invert(bits), One(n), n);
    assert Invert(bits)[..n] == Invert(bits) && One(n)[..n] == One(n);
  }

  /**
   * twos_complement: invert every bit, then add `one` with the ripple
   * adder.  Fails at `one[0] = 1` when the width is 0, hence n >= 1.
   */
  method TwosComplement(bits: seq<int>, n: nat) returns (result: seq<int>)
    requires n >= 1 && |bits| == n
    ensures result == NegateStages(bits, n).0
    ensures IsBits(bits) ==> Value(result) == (Pow2(n) - Value(bits)) % Pow2(n)
  {
    var inverted := Zeros(n);
    for i := 0 to n
      invariant |inverted| == n
      invariant forall k :: 0 <= k < i ==> inverted[k] == Not(bits[k])
      invariant forall k :: i <= k < n ==> inverted[k] == 0
    {
      inverted := inverted[i := Not(bits[i])];
    }
    assert inverted == Invert(bits);
    var one := Zeros(n);
    one := one[0 := 1];
    assert one == One(n);
    var carry;
    result, carry := RippleCarryAdder(inverted, one, n);
    if IsBits(bits) {
      NegateValue(bits, n);
    }
  }

  /** Negating twice gives the original bits back. */
  lemma NegateInvolution(bits: seq<int>, n: nat)
    requires n >= 1 && |bits| == n && IsBits(bits)
    ensures NegateStages(NegateStages(bits, n).0, n).0 == bits
  {
    var neg := NegateStages(bits, n).0;
    var twice := NegateStages(neg, n).0;
    NegateExact(bits, n);
    NegateExact(neg, n);
    assert Value(twice) == Value(bits);
    ValueInjective(twice, bits);
  }

  // ---------------------------------------------------------------------
  // subtract

  /** Sign bit of an n-bit word: the entry at index n - 1. */
  function SignBit(bits: seq<int>, n: nat): int
    requires 1 <= n <= |bits|
  {
    bits[n - 1]
  }

  /** Value of an n-bit word read as two's complement. */
  function Signed(bits: seq<int>): int
    requires |bits| >= 1
  {
    if bits[|bits| - 1] == 1 then Value(bits) - Pow2(|bits|) else Value(bits)
  }

  /**
   * subtract once the two's complement `comp` of b is known: add it to a,
   * borrow = NOT(carry out), overflow = (sign a XOR sign b) AND (sign of
   * the difference XNOR sign b).
   */
  function SubtractWith(a: seq<int>, b: seq<int>, comp: seq<int>, n: nat): (r: (seq<int>, int, int))
    requires n >= 1 && |a| == n && |b| == n && |comp| == n
    ensures |r.0| == n && IsBits(r.0) && IsBit(r.1) && IsBit(r.2)
  {
    var (diff, carryOut) := AddStages(a, comp, n);
    var borrow := Not(carryOut);
    var overflow := And(Xor(SignBit(a, n), SignBit(b, n)), Xnor(SignBit(diff, n), SignBit(b, n)));
    (diff, borrow, overflow)
  }

  /** (difference, borrow, overflow) as subtract computes them. */
  function SubtractSpec(a: seq<int>, b: seq<int>, n: nat): (r: (seq<int>, int, int))
    requires n >= 1 && |a| == n && |b| == n
    ensures |r.0| == n && IsBits(r.0) && IsBit(r.1) && IsBit(r.2)
  {
    SubtractWith(a, b, NegateStages(b, n).0, n)
  }

  /**
   * The difference is (a - b) mod 2^n.  Borrow is set exactly when a < b,
   * except that subtracting 0 sets it too: the carry that ~0 + 1 produces
   * inside twos_complement is dropped.
   */
  lemma SubtractValue(a: seq<int>, b: seq<int>, n: nat)
    requires n >= 1 && |a| == n && |b| == n && IsBits(a) && IsBits(b)
    ensures Value(SubtractSpec(a, b, n).0) == (Value(a) - Value(b)) % Pow2(n)
    ensures Value(b) != 0 ==> (SubtractSpec(a, b, n).1 == 1 <==> Value(a) < Value(b))
    ensures Value(b) == 0 ==> SubtractSpec(a, b, n).1 == 1
  {
    NegateExact(b, n);
    SubtractWithValue(a, b, NegateStages(b, n).0, n);
  }

  lemma SubtractWithValue(a: seq<int>, b: seq<int>, c: seq<int>, n: nat)
    requires n >= 1 && |a| == n && |b| == n && |c| == n && IsBits(a) && IsBits(c)
    requires 0 <= Value(b) < Pow2(n)
    requires Value(b) == 0 ==> Value(c) == 0
    requires Value(b) != 0 ==> Value(c) == Pow2(n) - Value(b)
    ensures Value(SubtractWith(a, b, c, n).0) == (Value(a) - Value(b)) % Pow2(n)
    ensures Value(b) != 0 ==> (SubtractWith(a, b, c, n).1 == 1 <==> Value(a) < Value(b))
    ensures Value(b) == 0 ==> SubtractWith(a, b, c, n).1 == 1
  {
    AddComplement(a, c, n, Value(b));
    var sum := AddStages(a, c, n);
    var r := SubtractWith(a, b, c, n);
    assert r.0 == sum.0 && r.1 == Not(sum.1);
  }

  /** a + c where c is the two's complement of a number vb (c is 0 when vb is). */
  lemma AddComplement(a: seq<int>, c: seq<int>, n: nat, vb: int)
    requires n >= 1 && |a| == n && |c| == n && IsBits(a) && IsBits(c) && 0 <= vb < Pow2(n)
    requires vb == 0 ==> Value(c) == 0
    requires vb != 0 ==> Value(c) == Pow2(n) - vb
    ensures Value(AddStages(a, c, n).0) == (Value(a) - vb) % Pow2(n)
    ensures vb != 0 ==> (AddStages(a, c, n).1 == 0 <==> Value(a) < vb)
    ensures vb == 0 ==> AddStages(a, c, n).1 == 0
  {
    AddStagesValue(a, c, n);
    assert a[..n] == a && c[..n] == c;
    var sum := AddStages(a, c, n);
    SubtractArith(Value(a), vb, Pow2(n), Value(c), Value(sum.0), sum.1 == 1);
  }

  /** The arithmetic behind subtract: a + (p - b, or 0 when b is 0), with its carry. */
  lemma SubtractArith(va: int, vb: int, p: int, vc: int, vd: int, carry: bool)
    requires 0 <= va < p && 0 <= vb < p && 0 <= vd < p
    requires vb == 0 ==> vc == 0
    requires vb != 0 ==> vc == p - vb
    requires vd + (if carry then p else 0) == va + vc
    ensures vd == (va - vb) % p
    ensures vb != 0 ==> (!carry <==> va < vb)
    ensures vb == 0 ==> !carry
  {
    if vb == 0 {
      ModUnique(va - vb, p, 0, va);
    } else if va < vb {
      ModUnique(va - vb, p, -1, va - vb + p);
    } else {
      ModUnique(va - vb, p, 0, va - vb);
    }
  }

  /** Overflow is set exactly when the signed difference does not fit in n bits. */
  lemma SubtractOverflow(a: seq<int>, b: seq<int>, n: nat)
    requires n >= 1 && |a| == n && |b| == n && IsBits(a) && IsBits(b)
    ensures SubtractSpec(a, b, n).2 == 1 <==> !(-(Pow2(n - 1) as int) <= Signed(a) - Signed(b) < Pow2(n - 1))
  {
    SubtractValue(a, b, n);
    SubtractWithOverflow(a, b, NegateStages(b, n).0, n);
  }

  lemma SubtractWithOverflow(a: seq<int>, b: seq<int>, c: seq<int>, n: nat)
    requires n >= 1 && |a| == n && |b| == n && |c| == n && IsBits(a) && IsBits(b)
    requires Value(SubtractWith(a, b, c, n).0) == (Value(a) - Value(b)) % Pow2(n)
    ensures SubtractWith(a, b, c, n).2 == 1 <==> !(-(Pow2(n - 1) as int) <= Signed(a) - Signed(b) < Pow2(n - 1))
  {
    var r := SubtractWith(a, b, c, n);
    assert r.2 == And(Xor(a[n - 1], b[n - 1]), Xnor(r.0[n - 1], b[n - 1]));
    SignRule(a, b, r.0, n);
  }

  lemma SignRule(a: seq<int>, b: seq<int>, d: seq<int>, n: nat)
    requires n >= 1 && |a| == n && |b| == n && |d| == n && IsBits(a) && IsBits(b) && IsBits(d)
    requires Value(d) == (Value(a) - Value(b)) % Pow2(n)
    ensures And(Xor(a[n - 1], b[n - 1]), Xnor(d[n - 1], b[n - 1])) == 1
            <==> !(-(Pow2(n - 1) as int) <= Signed(a) - Signed(b) < Pow2(n - 1))
  {
    TopBit(a);
    TopBit(b);
    TopBit(d);
    OverflowArith(Value(a), Value(b), Value(d), Pow2(n - 1), a[n - 1], b[n - 1], d[n - 1]);
  }

  /**
   * Sign-bit overflow rule for a - b on n-bit words, where h = 2^(n-1):
   * the operands' signs differ and the difference has the sign of b exactly
   * when the signed difference leaves [-h, h).
   */
  lemma OverflowArith(va: int, vb: int, vd: int, h: int, sa: int, sb: int, sd: int)
    requires h >= 1 && 0 <= va < 2 * h && 0 <= vb < 2 * h
    requires IsBit(sa) && IsBit(sb) && IsBit(sd)
    requires sa == 1 <==> va >= h
    requires sb == 1 <==> vb >= h
    requires sd == 1 <==> vd >= h
    requires vd == (va - vb) % (2 * h)
    ensures (sa != sb && sd == sb)
            <==> !(-h <= (if sa == 1 then va - 2 * h else va) - (if sb == 1 then vb - 2 * h else vb) < h)
  {
    var p := 2 * h;
    if va >= vb {
      ModUnique(va - vb, p, 0, va - vb);
    } else {
      ModUnique(va - vb, p, -1, va - vb + p);
    }
  }

  /**
   * subtract: a + twos_complement(b) with the ripple adder; borrow is the
   * inverted carry, overflow the sign-bit rule.  Reads index n - 1, so the
   * width is at least 1.
   */
  method Subtract(a: seq<int>, b: seq<int>, n: nat) returns (diff: seq<int>, borrow: int, overflow: int)
    requires n >= 1 && |a| == n && |b| == n
    ensures (diff, borrow, overflow) == SubtractSpec(a, b, n)
    ensures IsBits(a) && IsBits(b) ==> Value(diff) == (Value(a) - Value(b)) % Pow2(n)
    ensures IsBits(a) && IsBits(b) && Value(b) != 0 ==> (borrow == 1 <==> Value(a) < Value(b))
    ensures IsBits(a) && IsBits(b) ==>
              (overflow == 1 <==> !(-(Pow2(n - 1) as int) <= Signed(a) - Signed(b) < Pow2(n - 1)))
  {
    var comp := TwosComplement(b, n);
    var carryOut;
    diff, carryOut := RippleCarryAdder(a, comp, n);
    borrow := Not(carryOut);
    var signA, signB, signRes := a[n - 1], b[n - 1], diff[n - 1];
    overflow := And(Xor(signA, signB), Xnor(signRes, signB));
    assert (diff, borrow, overflow) == SubtractWith(a, b, comp, n);
    if IsBits(a) && IsBits(b) {
      SubtractValue(a, b, n);
      SubtractOverflow(a, b, n);
    }
  }

  /** 5 - 3 on 8 bits: difference 2, no borrow. */
  lemma SubtractFiveThree(a: seq<int>, b: seq<int>)
    requires |a| == 8 && |b| == 8 && IsBits(a) && IsBits(b) && Value(a) == 5 && Value(b) == 3
    ensures Value(SubtractSpec(a, b, 8).0) == 2 && SubtractSpec(a, b, 8).1 == 0
  {
    SubtractValue(a, b, 8);
    assert Pow2(8) == 256;
  }

  /** 3 - 5 on 8 bits: difference 254 (two's complement of 2), borrow set. */
  lemma SubtractThreeFive(a: seq<int>, b: seq<int>)
    requires |a| == 8 && |b| == 8 && IsBits(a) && IsBits(b) && Value(a) == 3 && Value(b) == 5
    ensures Value(SubtractSpec(a, b, 8).0) == 254 && SubtractSpec(a, b, 8).1 == 1
  {
    SubtractValue(a, b, 8);
    assert Pow2(8) == 256;
  }

  // ---------------------------------------------------------------------
  // multiply

  /**
   * multiply as written: for any width of at least 1 the first loop
   * iteration reaches `self_shift_left(multiplicand)`, a name that does not
   * exist, and raises NameError; with width 0 the loop does not run and the
   * empty product is returned.
   */
  function Multiply(a: seq<int>, b: seq<int>, n: nat): (r: Result<seq<int>>)
    requires |a| == n && |b| == n
    ensures n >= 1 ==> r.Err?
    ensures n == 0 ==> r == Ok(Zeros(2 * n))
  {
    if n == 0 then Ok(Zeros(2 * n))
    else Err("NameError: name 'self_shift_left' is not defined")
  }

  /**
   * Which way the multiplicand moves after each iteration: `_shift_left`
   * (the helper the misspelt call names) halves it, `_shift_right` doubles it.
   */
  datatype Shift = Halving | Doubling

  function Move(m: seq<int>, shift: Shift): (r: seq<int>)
    ensures |r| == |m| && (IsBits(m) ==> IsBits(r))
  {
    if shift == Halving then ShiftLeft(m, 1) else ShiftRight(m, 1)
  }

  /**
   * (product, multiplicand) after i iterations of the shift-and-add loop on
   * 2n-bit registers: add the multiplicand when multiplier bit i is 1, then
   * move the multiplicand.
   */
  function MulState(a: seq<int>, b: seq<int>, n: nat, shift: Shift, i: nat): (r: (seq<int>, seq<int>))
    requires |a| == n && |b| == n && i <= n
    ensures |r.0| == 2 * n && |r.1| == 2 * n
  {
    if i == 0 then (Zeros(2 * n), a + Zeros(n))
    else
      var (product, multiplicand) := MulState(a, b, n, shift, i - 1);
      var product' := if b[i - 1] == 1 then AddStages(product, multiplicand, 2 * n).0 else product;
      (product', Move(multiplicand, shift))
  }

  /**
   * The shift-and-add loop of multiply with the shift call resolved either
   * way.  With Doubling (the `_shift_right` helper) it computes the full
   * 2n-bit product.
   */
  method ShiftAndAdd(a: seq<int>, b: seq<int>, n: nat, shift: Shift) returns (product: seq<int>)
    requires |a| == n && |b| == n
    ensures product == MulState(a, b, n, shift, n).0
    ensures shift == Doubling && IsBits(a) && IsBits(b) ==> Value(product) == Value(a) * Value(b)
  {
    product := Zeros(2 * n);
    var multiplicand := a + Zeros(n);
    for i := 0 to n
      invariant (product, multiplicand) == MulState(a, b, n, shift, i)
    {
      if b[i] == 1 {
        var carry;
        product, carry := RippleCarryAdder(product, multiplicand, 2 * n);
      }
      multiplicand := Move(multiplicand, shift);
    }
    if shift == Doubling && IsBits(a) && IsBits(b) {
      DoublingProduct(a, b, n);
    }
  }

  /** With the doubling shift the 2N-bit register ends holding a * b. */
  lemma DoublingProduct(a: seq<int>, b: seq<int>, n: nat)
    requires |a| == n && |b| == n && IsBits(a) && IsBits(b)
    ensures IsBits(MulState(a, b, n, Doubling, n).0)
    ensures Value(MulState(a, b, n, Doubling, n).0) == Value(a) * Value(b)
  {
    DoublingRegisters(a, b, n, n);
    PartialProductValue(a, b, n);
    assert b[..n] == b;
  }

  lemma Pow2Mono(j: nat, k: nat)
    requires j <= k
    ensures Pow2(j) <= Pow2(k)
    decreases k
  {
    if j < k {
      Pow2Mono(j, k - 1);
    }
  }

  /**
   * Sum of the multiplicand copies a * 2^j for the multiplier bits j < i
   * that equal 1, written with the shifted copy `Zeros(j) + a`.
   */
  function PartialProduct(a: seq<int>, b: seq<int>, i: nat): nat
    requires i <= |b|
  {
    if i == 0 then 0
    else PartialProduct(a, b, i - 1) + (if b[i - 1] == 1 then Value(Zeros(i - 1) + a) else 0)
  }

  lemma {:induction false} PartialProductBound(a: seq<int>, b: seq<int>, i: nat)
    requires i <= |b|
    ensures PartialProduct(a, b, i) < Pow2(|a| + i)
  {
    if i > 0 {
      PartialProductBound(a, b, i - 1);
      assert |Zeros(i - 1) + a| == |a| + i - 1;
    }
  }

  /** The partial product is the multiplicand times the multiplier's first i bits. */
  lemma {:induction false} PartialProductValue(a: seq<int>, b: seq<int>, i: nat)
    requires i <= |b|
    ensures PartialProduct(a, b, i) == Value(a) * Value(b[..i])
  {
    if i == 0 {
      assert b[..0] == [];
    } else {
      PartialProductValue(a, b, i - 1);
      PrefixValue(b, i);
      ShiftedValue(a, i - 1);
      MulStep(Value(a), Value(b[..i - 1]), Value(b[..i]), Pow2(i - 1), b[i - 1] == 1,
              PartialProduct(a, b, i - 1), Value(Zeros(i - 1) + a), PartialProduct(a, b, i));
    }
  }

  lemma MulStep(va: int, vb: int, vb': int, q: int, bit: bool, pp: int, shifted: int, pp': int)
    requires pp == va * vb && shifted == q * va
    requires vb' == vb + (if bit then q else 0) && pp' == pp + (if bit then shifted else 0)
    ensures pp' == va * vb'
  {
    if bit {
      assert va * (vb + q) == va * vb + q * va;
    }
  }

  /** Prefixing j zeros multiplies the value by 2^j. */
  lemma ShiftedValue(a: seq<int>, j: nat)
    ensures Value(Zeros(j) + a) == Pow2(j) * Value(a)
  {
    ValueZeros(j);
    ValueAppend(Zeros(j), a);
  }

  /** After i iterations of the doubling loop the multiplicand is a moved up by i places. */
  lemma {:induction false} DoublingMultiplicand(a: seq<int>, b: seq<int>, n: nat, i: nat)
    requires |a| == n && |b| == n && i <= n
    ensures MulState(a, b, n, Doubling, i).1 == Zeros(i) + a + Zeros(n - i)
  {
    if i == 0 {
      assert Zeros(0) + a + Zeros(n) == a + Zeros(n);
    } else {
      DoublingMultiplicand(a, b, n, i - 1);
      MoveUp(a, i, n);
    }
  }

  /** After i iterations of the doubling loop the product register holds the partial product. */
  lemma {:induction false} DoublingRegisters(a: seq<int>, b: seq<int>, n: nat, i: nat)
    requires |a| == n && |b| == n && i <= n && IsBits(a) && IsBits(b)
    ensures IsBits(MulState(a, b, n, Doubling, i).0)
    ensures Value(MulState(a, b, n, Doubling, i).0) == PartialProduct(a, b, i)
  {
    if i == 0 {
      ValueZeros(2 * n);
    } else {
      DoublingRegisters(a, b, n, i - 1);
      DoublingMultiplicand(a, b, n, i - 1);
      var (p, m) := MulState(a, b, n, Doubling, i - 1);
      var shifted := Zeros(i - 1) + a;
      ProductFits(a, b, n, i);
      PadValue(shifted, n - i + 1);
      assert m == shifted + Zeros(n - i + 1);
      DoublingAdd(p, m, b[i - 1], 2 * n, PartialProduct(a, b, i - 1), Value(shifted));
    }
  }

  /** The partial product plus the next multiplicand copy stays below 2^2n. */
  lemma ProductFits(a: seq<int>, b: seq<int>, n: nat, i: nat)
    requires |a| == n && |b| == n && 1 <= i <= n
    ensures PartialProduct(a, b, i - 1) + Value(Zeros(i - 1) + a) < Pow2(2 * n)
  {
    PartialProductBound(a, b, i - 1);
    assert |Zeros(i - 1) + a| == n + i - 1;
    assert Pow2(n + i) == 2 * Pow2(n + i - 1);
    Pow2Mono(n + i, 2 * n);
  }

  /** The conditional add of one iteration when the true sum fits in w bits. */
  lemma DoublingAdd(p: seq<int>, m: seq<int>, bit: int, w: nat, pp: int, shifted: int)
    requires |p| == w && |m| == w && IsBits(p) && IsBits(m)
    requires Value(p) == pp && Value(m) == shifted && pp + shifted < Pow2(w)
    ensures IsBits(if bit == 1 then AddStages(p, m, w).0 else p)
    ensures Value(if bit == 1 then AddStages(p, m, w).0 else p) == pp + (if bit == 1 then shifted else 0)
  {
    if bit == 1 {
      AddNoWrap(p, m, w);
    }
  }

  /** An addition whose true sum fits: exact sum and no carry. */
  lemma AddNoWrap(x: seq<int>, y: seq<int>, w: nat)
    requires |x| == w && |y| == w && IsBits(x) && IsBits(y) && Value(x) + Value(y) < Pow2(w)
    ensures Value(AddStages(x, y, w).0) == Value(x) + Value(y) && AddStages(x, y, w).1 == 0
  {
    AddStagesValue(x, y, w);
    assert x[..w] == x && y[..w] == y;
  }

  /** Doubling the padded multiplicand moves a up by one place. */
  lemma MoveUp(a: seq<int>, i: nat, n: nat)
    requires |a| == n && 1 <= i <= n
    ensures Move(Zeros(i - 1) + a + Zeros(n - i + 1), Doubling) == Zeros(i) + a + Zeros(n - i)
  {
    var m := Zeros(i - 1) + a + Zeros(n - i + 1);
    assert Zeros(n - i + 1) == Zeros(n - i) + [0];
    assert m[..2 * n - 1] == Zeros(i - 1) + a + Zeros(n - i);
    ZerosCons(i);
    assert Zeros(1) == [0];
  }

  /** Extending a prefix by one entry adds that entry's weight. */
  lemma PrefixValue(b: seq<int>, i: nat)
    requires 1 <= i <= |b|
    ensures Value(b[..i]) == Value(b[..i - 1]) + (if b[i - 1] == 1 then Pow2(i - 1) else 0)
  {
    assert b[..i][..i - 1] == b[..i - 1];
  }

  /** Padding with zeros on the high side keeps the value. */
  lemma PadValue(a: seq<int>, n: nat)
    ensures Value(a + Zeros(n)) == Value(a)
  {
    ValueZeros(n);
    ValueAppend(a, Zeros(n));
    assert Pow2(|a|) * Value(Zeros(n)) == 0;
  }

  /** The doubling loop multiplies: 5 * 3 on 8 bits is 15. */
  lemma MultiplyFiveThree(a: seq<int>, b: seq<int>)
    requires |a| == 8 && |b| == 8 && IsBits(a) && IsBits(b) && Value(a) == 5 && Value(b) == 3
    ensures Value(MulState(a, b, 8, Doubling, 8).0) == 15
  {
    DoublingRegisters(a, b, 8, 8);
    PartialProductValue(a, b, 8);
    assert b[..8] == b;
  }

  /** Iterations over zero multiplier bits leave the product register alone. */
  lemma {:induction false} MulStateSettles(a: seq<int>, b: seq<int>, n: nat, shift: Shift, j: nat, i: nat)
    requires |a| == n && |b| == n && j <= i <= n
    requires forall k :: j <= k < i ==> b[k] == 0
    ensures MulState(a, b, n, shift, i).0 == MulState(a, b, n, shift, j).0
    decreases i
  {
    if i > j {
      MulStateSettles(a, b, n, shift, j, i - 1);
    }
  }

  /** The bits of 3 on a list read from its least significant end: 1, 1, then zeros. */
  lemma ThreeBits(b: seq<int>)
    requires |b| >= 2 && IsBits(b) && Value(b) == 3
    ensures b[0] == 1 && b[1] == 1 && forall k :: 2 <= k < |b| ==> b[k] == 0
  {
    assert b == [b[0]] + b[1..];
    ValueCons(b[0], b[1..]);
    assert b[1..] == [b[1]] + b[2..];
    ValueCons(b[1], b[2..]);
    AllZeroValue(b[2..]);
    assert forall k :: 2 <= k < |b| ==> b[k] == b[2..][k - 2];
  }

  /**
   * With `_shift_left` resolved as written, the multiplicand halves after
   * each iteration: 5 * 3 on 8 bits adds 5 and then 2, giving 7, not 15.
   */
  lemma MultiplyHalvingFiveThree(a: seq<int>, b: seq<int>)
    requires |a| == 8 && |b| == 8 && IsBits(a) && IsBits(b) && Value(a) == 5 && Value(b) == 3
    ensures Value(MulState(a, b, 8, Halving, 8).0) == 7
  {
    ThreeBits(b);
    var m0 := a + Zeros(8);
    PadValue(a, 8);
    ValueZeros(16);
    assert Pow2(16) == 65536;
    AddNoWrap(Zeros(16), m0, 16);
    var p1 := AddStages(Zeros(16), m0, 16).0;
    assert MulState(a, b, 8, Halving, 1) == (p1, ShiftLeft(m0, 1));
    ShiftLeftHalves(m0);
    AddNoWrap(p1, ShiftLeft(m0, 1), 16);
    assert MulState(a, b, 8, Halving, 2).0 == AddStages(p1, ShiftLeft(m0, 1), 16).0;
    MulStateSettles(a, b, 8, Halving, 2, 8);
  }

  // ---------------------------------------------------------------------
  // divide

  /** A trial subtraction A - M that goes below zero wraps to A - M + 2^n and sets the top bit. */
  lemma TrialBorrows(A: seq<int>, M: seq<int>, n: nat)
    requires n >= 1 && |A| == n && |M| == n && IsBits(A) && IsBits(M)
    requires Value(A) < Value(M) <= Pow2(n - 1)
    ensures Value(SubtractSpec(A, M, n).0) == Value(A) - Value(M) + Pow2(n)
    ensures SubtractSpec(A, M, n).0[n - 1] == 1
  {
    var d := SubtractSpec(A, M, n).0;
    SubtractValue(A, M, n);
    var p, h := Pow2(n), Pow2(n - 1);
    assert p == 2 * h;
    var diff := Value(A) - Value(M);
    assert -h <= diff < 0;
    ModUnique(diff, p, -1, diff + p);
    assert Value(d) == diff + p >= h;
    TopBit(d);
  }

  /** A trial subtraction A - M with M <= A < 2M leaves A - M, below 2^(n-1). */
  lemma TrialFits(A: seq<int>, M: seq<int>, n: nat)
    requires n >= 1 && |A| == n && |M| == n && IsBits(A) && IsBits(M)
    requires Value(M) <= Value(A) < 2 * Value(M) && Value(M) <= Pow2(n - 1)
    ensures Value(SubtractSpec(A, M, n).0) == Value(A) - Value(M)
    ensures SubtractSpec(A, M, n).0[n - 1] == 0
  {
    var d := SubtractSpec(A, M, n).0;
    SubtractValue(A, M, n);
    ModUnique(Value(A) - Value(M), Pow2(n), 0, Value(A) - Value(M));
    TopBit(d);
  }

  /** The divide-by-zero test: AND over NOT of every divisor bit stays 1. */
  predicate AllZero(bits: seq<int>) { forall k :: 0 <= k < |bits| ==> bits[k] == 0 }

  /** On bit lists the zero test is exactly "the value is 0". */
  lemma AllZeroValue(bits: seq<int>)
    requires IsBits(bits)
    ensures AllZero(bits) <==> Value(bits) == 0
  {
    ValueZeros(|bits|);
    if AllZero(bits) {
      assert bits == Zeros(|bits|);
    } else if Value(bits) == 0 {
      ValueInjective(bits, Zeros(|bits|));
    }
  }

  /** divide's zero test: `is_zero = AND(is_zero, NOT(bit))` over the divisor. */
  method ZeroTest(b: seq<int>) returns (isZero: int)
    ensures isZero == (if AllZero(b) then 1 else 0)
  {
    isZero := 1;
    for i := 0 to |b|
      invariant isZero == (if AllZero(b[..i]) then 1 else 0)
    {
      assert AllZero(b[..i + 1]) <==> AllZero(b[..i]) && b[i] == 0;
      isZero := And(isZero, Not(b[i]));
    }
    assert b[..|b|] == b;
  }

  const UnpackError := "ValueError: not enough values to unpack (expected 3, got 2)"

  /**
   * One iteration of divide's final A/Q loop as written: move A and Q with
   * `_shift_left` (towards index 0), put Q's old top bit into A[0], A := A - M;
   * a negative A sets Q[0] = 0 and then unpacks the adder's pair into
   * three names, which raises.
   */
  function DivideStep(A: seq<int>, Q: seq<int>, M: seq<int>, n: nat): (r: Result<(seq<int>, seq<int>)>)
    requires n >= 1 && |A| == n && |Q| == n && |M| == n
    ensures r.Ok? ==> |r.value.0| == n && |r.value.1| == n
  {
    var qMsb := Q[n - 1];
    var shiftedA := ShiftLeft(A, 1)[0 := qMsb];
    var shiftedQ := ShiftLeft(Q, 1);
    var diff := SubtractSpec(shiftedA, M, n).0;
    if diff[n - 1] == 1 then Err(UnpackError)
    else Ok((diff, shiftedQ[0 := 1]))
  }

  /** k further iterations from registers (A, Q); the result is (quotient, remainder). */
  function DivideLoop(A: seq<int>, Q: seq<int>, M: seq<int>, n: nat, k: nat): (r: Result<(seq<int>, seq<int>)>)
    requires n >= 1 && |A| == n && |Q| == n && |M| == n
    ensures r.Ok? ==> |r.value.0| == n && |r.value.1| == n
    decreases k
  {
    if k == 0 then Ok((Q, A))
    else
      match DivideStep(A, Q, M, n)
      case Err(e) => Err(e)
      case Ok(next) => DivideLoop(next.0, next.1, M, n, k - 1)
  }

  function DivideSpec(a: seq<int>, b: seq<int>, n: nat): (r: Result<(seq<int>, seq<int>)>)
    requires |a| == n && |b| == n
    ensures r.Ok? ==> |r.value.0| == n && |r.value.1| == n
  {
    if AllZero(b) then Ok((Zeros(n), Zeros(n)))
    else DivideLoop(Zeros(n), a, b, n, n)
  }

  /**
   * divide as written.  The first restoring loop of the source only writes
   * registers that are reset before the final A/Q loop, so only the zero
   * test and the final loop are modelled.
   */
  method Divide(a: seq<int>, b: seq<int>, n: nat) returns (r: Result<(seq<int>, seq<int>)>)
    requires |a| == n && |b| == n
    ensures r == DivideSpec(a, b, n)
  {
    var isZero := ZeroTest(b);
    if isZero == 1 {
      return Ok((Zeros(n), Zeros(n)));
    }
    var A, Q, M := Zeros(n), a, b;
    var i := 0;
    while i < n
      invariant 0 <= i <= n && |A| == n && |Q| == n
      invariant DivideLoop(A, Q, M, n, n - i) == DivideLoop(Zeros(n), a, b, n, n)
    {
      var step := DivideIteration(A, Q, M, n);
      if step.Err? {
        return Err(step.error);
      }
      A, Q := step.value.0, step.value.1;
      i := i + 1;
    }
    return Ok((Q, A));
  }

  /** The body of divide's final loop, as written. */
  method DivideIteration(A: seq<int>, Q: seq<int>, M: seq<int>, n: nat) returns (r: Result<(seq<int>, seq<int>)>)
    requires n >= 1 && |A| == n && |Q| == n && |M| == n
    ensures r == DivideStep(A, Q, M, n)
  {
    var qMsb := Q[n - 1];
    var A', Q' := ShiftLeft(A, 1), ShiftLeft(Q, 1);
    A' := A'[0 := qMsb];
    var diff, borrow, overflow := Subtract(A', M, n);
    A' := diff;
    if A'[n - 1] == 1 {
      Q' := Q'[0 := 0];
      return Err(UnpackError);
    }
    Q' := Q'[0 := 1];
    return Ok((A', Q'));
  }

  /** A zero divisor gives two zero registers. */
  lemma DivideByZero(a: seq<int>, b: seq<int>, n: nat)
    requires |a| == n && |b| == n && IsBits(b) && Value(b) == 0
    ensures DivideSpec(a, b, n) == Ok((Zeros(n), Zeros(n)))
  {
    AllZeroValue(b);
  }

  /**
   * divide raises on 5 / 3 and on every dividend whose top bit is clear
   * when the divisor is between 1 and 2^(n-1): the first trial
   * subtraction 0 - b is negative.
   */
  lemma DivideRaises(a: seq<int>, b: seq<int>, n: nat)
    requires n >= 1 && |a| == n && |b| == n && IsBits(a) && IsBits(b)
    requires a[n - 1] == 0 && 1 <= Value(b) <= Pow2(n - 1)
    ensures DivideSpec(a, b, n) == Err(UnpackError)
  {
    AllZeroValue(b);
    var shiftedA := ShiftLeft(Zeros(n), 1)[0 := a[n - 1]];
    assert shiftedA == Zeros(n);
    ValueZeros(n);
    TrialBorrows(shiftedA, b, n);
  }

  /** The test's 5 / 3 on 8 bits raises. */
  lemma DivideFiveThree(a: seq<int>, b: seq<int>)
    requires |a| == 8 && |b| == 8 && IsBits(a) && IsBits(b) && Value(a) == 5 && Value(b) == 3
    ensures DivideSpec(a, b, 8).Err?
  {
    TopBit(a);
    assert Pow2(7) == 128;
    DivideRaises(a, b, 8);
  }

  // ---------------------------------------------------------------------
  // divide with only the unpack repaired

  /**
   * One iteration of divide's final loop with the unpack at the restore
   * repaired and nothing else: A and Q still move with the halving
   * `_shift_left`, and a negative trial restores A with the adder's sum.
   */
  function HalvingStep(A: seq<int>, Q: seq<int>, M: seq<int>, n: nat): (r: (seq<int>, seq<int>))
    requires n >= 1 && |A| == n && |Q| == n && |M| == n
    ensures |r.0| == n && |r.1| == n
  {
    var shiftedA := ShiftLeft(A, 1)[0 := Q[n - 1]];
    var shiftedQ := ShiftLeft(Q, 1);
    var diff := SubtractSpec(shiftedA, M, n).0;
    if diff[n - 1] == 1 then (AddStages(diff, M, n).0, shiftedQ[0 := 0]) else (diff, shiftedQ[0 := 1])
  }

  /** Where the as-written iteration does not raise, it is the repaired one. */
  lemma HalvingStepAgrees(A: seq<int>, Q: seq<int>, M: seq<int>, n: nat)
    requires n >= 1 && |A| == n && |Q| == n && |M| == n
    ensures DivideStep(A, Q, M, n).Ok? <==> HalvingStep(A, Q, M, n).1[0] == 1
    ensures DivideStep(A, Q, M, n).Ok? ==> DivideStep(A, Q, M, n).value == HalvingStep(A, Q, M, n)
  {
  }

  /** The registers (A, Q) after i repaired iterations. */
  function HalvingState(a: seq<int>, b: seq<int>, n: nat, i: nat): (r: (seq<int>, seq<int>))
    requires n >= 1 && |a| == n && |b| == n && i <= n
    ensures |r.0| == n && |r.1| == n
  {
    if i == 0 then (Zeros(n), a) else
      var prev := HalvingState(a, b, n, i - 1);
      HalvingStep(prev.0, prev.1, b, n)
  }

  /** divide with only the unpack repaired: (quotient, remainder), zeros for a zero divisor. */
  function HalvingDivide(a: seq<int>, b: seq<int>, n: nat): (seq<int>, seq<int>)
    requires n >= 1 && |a| == n && |b| == n
  {
    if AllZero(b) then (Zeros(n), Zeros(n))
    else (HalvingState(a, b, n, n).1, HalvingState(a, b, n, n).0)
  }

  /** From A = 0 and a clear top bit of Q, the trial borrows and the restore gives A = 0 back. */
  lemma HalvingFromZero(Q: seq<int>, M: seq<int>, n: nat)
    requires n >= 1 && |Q| == n && |M| == n && IsBits(M) && Q[n - 1] == 0 && 1 <= Value(M) <= Pow2(n - 1)
    ensures HalvingStep(Zeros(n), Q, M, n) == (Zeros(n), ShiftLeft(Q, 1)[0 := 0])
  {
    var shiftedA := ShiftLeft(Zeros(n), 1)[0 := Q[n - 1]];
    assert shiftedA == Zeros(n);
    ValueZeros(n);
    TrialBorrows(shiftedA, M, n);
    var diff := SubtractSpec(shiftedA, M, n).0;
    AddWrapsOnce(diff, M, n);
    ValueInjective(AddStages(diff, M, n).0, Zeros(n));
  }

  /**
   * With a dividend whose top bit is clear, Q's top bit stays 0, so every
   * trial starts from A = 0, borrows and is restored to 0, while the
   * halving shift pushes one more zero into Q from the top.
   */
  lemma {:induction false} HalvingRegisters(a: seq<int>, b: seq<int>, n: nat, i: nat)
    requires n >= 1 && |a| == n && |b| == n && IsBits(b) && i <= n
    requires a[n - 1] == 0 && 1 <= Value(b) <= Pow2(n - 1)
    ensures HalvingState(a, b, n, i).0 == Zeros(n)
    ensures forall k :: n - i <= k < n ==> HalvingState(a, b, n, i).1[k] == 0
  {
    if i > 0 {
      HalvingRegisters(a, b, n, i - 1);
      var prev := HalvingState(a, b, n, i - 1);
      HalvingKeepsZero(prev.1, b, n, i);
    }
  }

  /** One repaired iteration from A = 0 keeps A = 0 and lengthens Q's zero tail by one. */
  lemma HalvingKeepsZero(Q: seq<int>, M: seq<int>, n: nat, i: nat)
    requires n >= 1 && |Q| == n && |M| == n && IsBits(M) && 1 <= i <= n && 1 <= Value(M) <= Pow2(n - 1)
    requires forall k :: n - (i - 1) <= k < n ==> Q[k] == 0
    requires Q[n - 1] == 0
    ensures HalvingStep(Zeros(n), Q, M, n).0 == Zeros(n)
    ensures forall k :: n - i <= k < n ==> HalvingStep(Zeros(n), Q, M, n).1[k] == 0
  {
    HalvingFromZero(Q, M, n);
    ZeroFill(Q, ShiftLeft(Q, 1)[0 := 0], n, i);
  }

  /** The halving shift with Q[0] := 0 adds one zero at the top of Q's zero tail and keeps Q[0] zero. */
  lemma ZeroFill(Q: seq<int>, R: seq<int>, n: nat, i: nat)
    requires |Q| == n && 1 <= i <= n && R == ShiftLeft(Q, 1)[0 := 0]
    requires forall k :: n - (i - 1) <= k < n ==> Q[k] == 0
    ensures forall k :: n - i <= k < n ==> R[k] == 0
  {
    assert ShiftLeft(Q, 1) == Q[1..] + Zeros(1);
    forall k | n - i <= k < n
      ensures R[k] == 0
    {
      if 0 < k < n - 1 {
        assert R[k] == Q[k + 1];
      }
    }
  }

  /** divide with only the unpack repaired returns quotient 0 and remainder 0 on that domain. */
  lemma HalvingDivideZero(a: seq<int>, b: seq<int>, n: nat)
    requires n >= 1 && |a| == n && |b| == n && IsBits(b)
    requires a[n - 1] == 0 && 1 <= Value(b) <= Pow2(n - 1)
    ensures HalvingDivide(a, b, n) == (Zeros(n), Zeros(n))
  {
    AllZeroValue(b);
    HalvingRegisters(a, b, n, n);
    assert HalvingState(a, b, n, n).1 == Zeros(n);
  }

  /** The test's 5 / 3 on 8 bits with only the unpack repaired: quotient 0, remainder 0, not 1 and 2. */
  lemma HalvingFiveThree(a: seq<int>, b: seq<int>)
    requires |a| == 8 && |b| == 8 && IsBits(a) && IsBits(b) && Value(a) == 5 && Value(b) == 3
    ensures HalvingDivide(a, b, 8) == (Zeros(8), Zeros(8))
    ensures Value(HalvingDivide(a, b, 8).0) == 0 && Value(HalvingDivide(a, b, 8).1) == 0
  {
    TopBit(a);
    assert Pow2(7) == 128;
    HalvingDivideZero(a, b, 8);
    ValueZeros(8);
  }

  // ---------------------------------------------------------------------
  // restoring division, as the design describes it

  /** An addition whose true sum wraps exactly once. */
  lemma AddWrapsOnce(x: seq<int>, y: seq<int>, w: nat)
    requires |x| == w && |y| == w && IsBits(x) && IsBits(y)
    requires Pow2(w) <= Value(x) + Value(y)
    ensures Value(AddStages(x, y, w).0) == Value(x) + Value(y) - Pow2(w)
  {
    AddStagesValue(x, y, w);
    assert x[..w] == x && y[..w] == y;
  }

  /**
   * One corrected trial: A moves one place up (towards the top bit, as a
   * doubling) taking `bit` into A[0], M is subtracted, and a negative
   * result is restored by adding M back; the second component is the
   * quotient bit.
   */
  function Trial(A: seq<int>, M: seq<int>, n: nat, bit: int): (r: (seq<int>, int))
    requires n >= 1 && |A| == n && |M| == n
    ensures |r.0| == n && IsBit(r.1)
  {
    var shiftedA := ShiftRight(A, 1)[0 := bit];
    var diff := SubtractSpec(shiftedA, M, n).0;
    if diff[n - 1] == 1 then (AddStages(diff, M, n).0, 0) else (diff, 1)
  }

  /** Shifting a partial remainder below 2^(n-1) up and taking in a bit doubles it exactly. */
  lemma TrialShift(A: seq<int>, n: nat, bit: int)
    requires n >= 1 && |A| == n && IsBits(A) && IsBit(bit) && Value(A) < Pow2(n - 1)
    ensures IsBits(ShiftRight(A, 1)[0 := bit])
    ensures Value(ShiftRight(A, 1)[0 := bit]) == 2 * Value(A) + bit
  {
    TopBit(A);
    assert ShiftRight(A, 1)[0 := bit] == [bit] + A[..n - 1];
    ValueCons(bit, A[..n - 1]);
  }

  /** A trial against a divisor M <= 2^(n-1) from a remainder below M. */
  lemma TrialValue(A: seq<int>, M: seq<int>, n: nat, bit: int)
    requires n >= 1 && |A| == n && |M| == n && IsBits(A) && IsBits(M) && IsBit(bit)
    requires Value(A) < Value(M) <= Pow2(n - 1)
    ensures IsBits(Trial(A, M, n, bit).0)
    ensures Trial(A, M, n, bit).1 == 1 <==> 2 * Value(A) + bit >= Value(M)
    ensures Value(Trial(A, M, n, bit).0)
            == 2 * Value(A) + bit - (if Trial(A, M, n, bit).1 == 1 then Value(M) else 0)
  {
    var shiftedA := ShiftRight(A, 1)[0 := bit];
    TrialShift(A, n, bit);
    var diff := SubtractSpec(shiftedA, M, n).0;
    if Value(shiftedA) >= Value(M) {
      TrialFits(shiftedA, M, n);
    } else {
      TrialBorrows(shiftedA, M, n);
      AddWrapsOnce(diff, M, n);
    }
  }

  /** The registers (A, Q) after i corrected iterations. */
  function RestoringState(a: seq<int>, b: seq<int>, n: nat, i: nat): (r: (seq<int>, seq<int>))
    requires n >= 1 && |a| == n && |b| == n && i <= n
    ensures |r.0| == n && |r.1| == n
  {
    if i == 0 then (Zeros(n), a)
    else
      var prev := RestoringState(a, b, n, i - 1);
      var trial := Trial(prev.0, b, n, prev.1[n - 1]);
      (trial.0, ShiftRight(prev.1, 1)[0 := trial.1])
  }

  /** Corrected divide: (quotient, remainder), zeros for a zero divisor. */
  function RestoringDivide(a: seq<int>, b: seq<int>, n: nat): (seq<int>, seq<int>)
    requires |a| == n && |b| == n
  {
    if AllZero(b) then (Zeros(n), Zeros(n))
    else
      var final := RestoringState(a, b, n, n);
      (final.1, final.0)
  }

  /** Long division: one more dividend bit doubles the partial dividend. */
  lemma DivStepArith(h: int, d: int, bit: int, t: int, q: int)
    requires d >= 1 && h >= 0 && IsBit(bit) && IsBit(q)
    requires t == 2 * (h % d) + bit && (q == 1 <==> t >= d)
    ensures (2 * h + bit) / d == 2 * (h / d) + q
    ensures (2 * h + bit) % d == t - (if q == 1 then d else 0)
  {
    ModUnique(2 * h + bit, d, 2 * (h / d) + q, t - (if q == 1 then d else 0));
  }

  /** Moving Q up takes in the quotient bit below the quotient bits already found. */
  lemma QuotientShift(Q: seq<int>, a: seq<int>, n: nat, i: nat, q: int)
    requires |Q| == n && |a| == n && 1 <= i <= n && IsBits(Q) && IsBit(q)
    requires Q[i - 1..] == a[..n - i + 1]
    ensures IsBits(ShiftRight(Q, 1)[0 := q])
    ensures ShiftRight(Q, 1)[0 := q][i..] == a[..n - i]
    ensures Value(ShiftRight(Q, 1)[0 := q][..i]) == q + 2 * Value(Q[..i - 1])
  {
    var Q' := ShiftRight(Q, 1)[0 := q];
    assert Q' == [q] + Q[..n - 1];
    assert Q'[i..] == Q[i - 1..][..n - i];
    assert Q'[..i] == [q] + Q[..i - 1];
    ValueCons(q, Q[..i - 1]);
  }

  /** The top i dividend bits are the next bit below the top i - 1 bits. */
  lemma TopBitsValue(a: seq<int>, n: nat, i: nat)
    requires |a| == n && 1 <= i <= n
    ensures Value(a[n - i..]) == Weight(a[n - i]) + 2 * Value(a[n - i + 1..])
  {
    assert a[n - i..] == [a[n - i]] + a[n - i + 1..];
    ValueCons(a[n - i], a[n - i + 1..]);
  }

  /**
   * The long-division invariant after i iterations: Q holds the quotient bits
   * of the top i dividend bits below the dividend bits still to come, and A
   * their remainder.
   */
  predicate Divided(a: seq<int>, b: seq<int>, n: nat, i: nat, A: seq<int>, Q: seq<int>)
    requires |a| == n && |Q| == n && i <= n && Value(b) >= 1
  {
    IsBits(A) && IsBits(Q) && Q[i..] == a[..n - i]
    && Value(Q[..i]) == Value(a[n - i..]) / Value(b)
    && Value(A) == Value(a[n - i..]) % Value(b)
  }

  /** One corrected iteration keeps the long-division invariant. */
  lemma RestoringStep(a: seq<int>, b: seq<int>, n: nat, i: nat, A: seq<int>, Q: seq<int>)
    requires n >= 1 && |a| == n && |b| == n && |A| == n && |Q| == n && 1 <= i <= n
    requires IsBits(a) && IsBits(b) && 1 <= Value(b) <= Pow2(n - 1)
    requires Divided(a, b, n, i - 1, A, Q)
    ensures Divided(a, b, n, i, Trial(A, b, n, Q[n - 1]).0, ShiftRight(Q, 1)[0 := Trial(A, b, n, Q[n - 1]).1])
  {
    assert n - (i - 1) == n - i + 1;
    var bit := Q[n - 1];
    assert bit == Q[i - 1..][n - i] == a[n - i];
    TrialValue(A, b, n, bit);
    var trial := Trial(A, b, n, bit);
    TopBitsValue(a, n, i);
    DivStepArith(Value(a[n - i + 1..]), Value(b), bit, 2 * Value(A) + bit, trial.1);
    QuotientShift(Q, a, n, i, trial.1);
  }

  /** Before the first iteration A is zero and Q the dividend. */
  lemma RestoringStart(a: seq<int>, b: seq<int>, n: nat)
    requires |a| == n && IsBits(a) && Value(b) >= 1
    ensures Divided(a, b, n, 0, Zeros(n), a)
  {
    ValueZeros(n);
    assert a[n..] == [] && a[0..] == a[..n];
  }

  /** After i corrected iterations the registers satisfy the long-division invariant. */
  lemma {:induction false} RestoringInvariant(a: seq<int>, b: seq<int>, n: nat, i: nat)
    requires n >= 1 && |a| == n && |b| == n && IsBits(a) && IsBits(b) && i <= n
    requires 1 <= Value(b) <= Pow2(n - 1)
    ensures Divided(a, b, n, i, RestoringState(a, b, n, i).0, RestoringState(a, b, n, i).1)
  {
    if i == 0 {
      RestoringStart(a, b, n);
    } else {
      RestoringInvariant(a, b, n, i - 1);
      var prev := RestoringState(a, b, n, i - 1);
      var trial := Trial(prev.0, b, n, prev.1[n - 1]);
      assert RestoringState(a, b, n, i) == (trial.0, ShiftRight(prev.1, 1)[0 := trial.1]);
      RestoringStep(a, b, n, i, prev.0, prev.1);
    }
  }

  /** The corrected divide computes quotient and remainder for divisors up to 2^(n-1). */
  lemma RestoringDivideCorrect(a: seq<int>, b: seq<int>, n: nat)
    requires |a| == n && |b| == n && IsBits(a) && IsBits(b) && 2 * Value(b) <= Pow2(n)
    ensures Value(b) == 0 ==> RestoringDivide(a, b, n) == (Zeros(n), Zeros(n))
    ensures Value(b) >= 1 ==>
              Value(RestoringDivide(a, b, n).0) == Value(a) / Value(b) &&
              Value(RestoringDivide(a, b, n).1) == Value(a) % Value(b)
  {
    AllZeroValue(b);
    if Value(b) >= 1 {
      assert n >= 1 && Pow2(n) == 2 * Pow2(n - 1);
      RestoringInvariant(a, b, n, n);
      var final := RestoringState(a, b, n, n);
      assert final.1[..n] == final.1 && a[0..] == a;
    }
  }

  /**
   * divide with the two defects removed: registers move with the doubling
   * shift and a negative trial is restored with the adder's (sum, carry) pair.
   */
  method RestoringDivision(a: seq<int>, b: seq<int>, n: nat) returns (quotient: seq<int>, remainder: seq<int>)
    requires |a| == n && |b| == n
    ensures (quotient, remainder) == RestoringDivide(a, b, n)
    ensures IsBits(a) && IsBits(b) && 1 <= Value(b) && 2 * Value(b) <= Pow2(n) ==>
              Value(quotient) == Value(a) / Value(b) && Value(remainder) == Value(a) % Value(b)
  {
    var isZero := ZeroTest(b);
    if isZero == 1 {
      if IsBits(a) && IsBits(b) && 2 * Value(b) <= Pow2(n) {
        RestoringDivideCorrect(a, b, n);
      }
      return Zeros(n), Zeros(n);
    }
    var A, Q, M := Zeros(n), a, b;
    for i := 1 to n + 1
      invariant |A| == n && |Q| == n
      invariant (A, Q) == RestoringState(a, b, n, i - 1)
    {
      A, Q := RestoringIteration(A, Q, M, n);
    }
    if IsBits(a) && IsBits(b) && 2 * Value(b) <= Pow2(n) {
      RestoringDivideCorrect(a, b, n);
    }
    return Q, A;
  }

  /** One corrected iteration: doubling shifts, trial subtraction, restore. */
  method RestoringIteration(A: seq<int>, Q: seq<int>, M: seq<int>, n: nat) returns (A': seq<int>, Q': seq<int>)
    requires n >= 1 && |A| == n && |Q| == n && |M| == n
    ensures A' == Trial(A, M, n, Q[n - 1]).0
    ensures Q' == ShiftRight(Q, 1)[0 := Trial(A, M, n, Q[n - 1]).1]
  {
    var qMsb := Q[n - 1];
    A', Q' := ShiftRight(A, 1), ShiftRight(Q, 1);
    A' := A'[0 := qMsb];
    var diff, borrow, overflow := Subtract(A', M, n);
    A' := diff;
    if A'[n - 1] == 1 {
      Q' := Q'[0 := 0];
      var sum, carry := RippleCarryAdder(A', M, n);
      A' := sum;
    } else {
      Q' := Q'[0 := 1];
    }
  }

  /** The test's 5 / 3 on 8 bits: quotient 1, remainder 2. */
  lemma RestoringFiveThree(a: seq<int>, b: seq<int>)
    requires |a| == 8 && |b| == 8 && IsBits(a) && IsBits(b) && Value(a) == 5 && Value(b) == 3
    ensures Value(RestoringDivide(a, b, 8).0) == 1 && Value(RestoringDivide(a, b, 8).1) == 2
  {
    assert Pow2(8) == 256;
    RestoringDivideCorrect(a, b, 8);
  }
}
