/**
 * Single-bit Boolean gates and the combinational circuits built from them
 * (logic_gates.py).  Bits are Python integers: the gates compare their inputs
 * with `== 1` and `== 0`, so they are defined on `int` here as well, and the
 * truth-table laws are stated for inputs in {0, 1}.
 */
module Gates {

  predicate IsBit(x: int) { x == 0 || x == 1 }

  /** A list of bits: every entry is 0 or 1. */
  predicate IsBits(s: seq<int>) { forall k :: 0 <= k < |s| ==> IsBit(s[k]) }

  /** AND: 1 exactly when both inputs equal 1. */
  function And(a: int, b: int): (r: int)
    ensures IsBit(r)
    ensures r == 1 <==> a == 1 && b == 1
  {
    if a == 1 && b == 1 then 1 else 0
  }

  /** OR: 1 exactly when at least one input equals 1. */
  function Or(a: int, b: int): (r: int)
    ensures IsBit(r)
    ensures r == 1 <==> a == 1 || b == 1
  {
    if a == 1 || b == 1 then 1 else 0
  }

  /** NOT: 1 exactly when the input equals 0 (any other value gives 0). */
  function Not(a: int): (r: int)
    ensures IsBit(r)
    ensures r == 1 <==> a == 0
  {
    if a == 0 then 1 else 0
  }

  /** XOR = (a AND NOT b) OR (NOT a AND b). */
  function Xor(a: int, b: int): (r: int)
    ensures IsBit(r)
    ensures IsBit(a) && IsBit(b) ==> (r == 1 <==> a != b)
  {
    Or(And(a, Not(b)), And(Not(a), b))
  }

  function Nand(a: int, b: int): (r: int)
    ensures IsBit(r)
    ensures IsBit(a) && IsBit(b) ==> (r == 0 <==> a == 1 && b == 1)
  {
    Not(And(a, b))
  }

  function Nor(a: int, b: int): (r: int)
    ensures IsBit(r)
    ensures IsBit(a) && IsBit(b) ==> (r == 1 <==> a == 0 && b == 0)
  {
    Not(Or(a, b))
  }

  /** XNOR (equivalence): 1 exactly when two bits are equal. */
  function Xnor(a: int, b: int): (r: int)
    ensures IsBit(r)
    ensures IsBit(a) && IsBit(b) ==> (r == 1 <==> a == b)
  {
    Not(Xor(a, b))
  }

  /** NOT is an involution on bits. */
  lemma NotNot(b: int)
    requires IsBit(b)
    ensures Not(Not(b)) == b
  {
  }

  /** NAND, NOR and XNOR are the complements of AND, OR and XOR on bits. */
  lemma ComplementGates(a: int, b: int)
    requires IsBit(a) && IsBit(b)
    ensures Nand(a, b) == 1 - And(a, b)
    ensures Nor(a, b) == 1 - Or(a, b)
    ensures Xnor(a, b) == 1 - Xor(a, b)
  {
  }

  /** Half adder: sum = XOR(a, b), carry = AND(a, b). */
  function HalfAdder(a: int, b: int): (r: (int, int))
    ensures IsBit(r.0) && IsBit(r.1)
    ensures IsBit(a) && IsBit(b) ==> r.0 + 2 * r.1 == a + b
  {
    (Xor(a, b), And(a, b))
  }

  /**
   * Full adder: two half adders and an OR of their carries.  For bits the
   * pair (sum, carry_out) is the two-digit binary value of a + b + carry_in.
   */
  function FullAdder(a: int, b: int, carryIn: int): (r: (int, int))
    ensures IsBit(r.0) && IsBit(r.1)
    ensures IsBit(a) && IsBit(b) && IsBit(carryIn) ==> r.0 + 2 * r.1 == a + b + carryIn
  {
    var (s1, c1) := HalfAdder(a, b);
    var (s, c2) := HalfAdder(s1, carryIn);
    (s, Or(c1, c2))
  }

  /** 2-to-1 multiplexer: (a AND NOT select) OR (b AND select). */
  function Mux2To1(a: int, b: int, select: int): (r: int)
    ensures IsBit(r)
    ensures IsBit(a) && select == 0 ==> r == a
    ensures IsBit(b) && select == 1 ==> r == b
  {
    Or(And(a, Not(select)), And(b, select))
  }
}
