/**
 * Conversion between naturals and LSB-first bit lists, display formatting,
 * parity and width normalisation (binary_analyzer.py).
 *
 * `Value` is the abstraction function of every other component: a list of
 * Python integers denotes the sum of 2^i over the positions i that hold 1
 * (any other entry contributes nothing, exactly as `binary_to_decimal` does).
 */
module BinaryAnalyzer {
  import opened Gates
  import opened Strings

  datatype Result<T> = Ok(value: T) | Err(error: string)

  function Pow2(k: nat): (p: nat)
    ensures p >= 1
  {
    if k == 0 then 1 else 2 * Pow2(k - 1)
  }

  lemma {:induction false} Pow2Add(j: nat, k: nat)
    ensures Pow2(j + k) == Pow2(j) * Pow2(k)
    decreases k
  {
    if k > 0 {
      Pow2Add(j, k - 1);
      assert Pow2(j + k) == 2 * Pow2(j + k - 1);
    }
  }

  function Zeros(n: nat): (z: seq<int>)
    ensures |z| == n && forall k :: 0 <= k < n ==> z[k] == 0
  {
    if n == 0 then [] else Zeros(n - 1) + [0]
  }

  /** Weight of one entry at position 0: only the value 1 counts. */
  function Weight(x: int): (w: nat)
    ensures IsBit(x) ==> w == x
  {
    if x == 1 then 1 else 0
  }

  /** Sum of 2^i over the positions i with bits[i] == 1, accumulated in index order. */
  function Value(bits: seq<int>): (v: nat)
    ensures v < Pow2(|bits|)
    decreases |bits|
  {
    if |bits| == 0 then 0
    else Value(bits[..|bits| - 1]) + (if bits[|bits| - 1] == 1 then Pow2(|bits| - 1) else 0)
  }

  /** Reading the list from its least significant end: v = bits[0] + 2 * rest. */
  lemma {:induction false} ValueCons(x: int, s: seq<int>)
    ensures Value([x] + s) == Weight(x) + 2 * Value(s)
    decreases |s|
  {
    if |s| > 0 {
      var t := [x] + s;
      assert t[..|t| - 1] == [x] + s[..|s| - 1];
      ValueCons(x, s[..|s| - 1]);
    }
  }

  lemma {:induction false} ValueAppend(s: seq<int>, t: seq<int>)
    ensures Value(s + t) == Value(s) + Pow2(|s|) * Value(t)
    decreases |t|
  {
    if |t| == 0 {
      assert s + t == s;
    } else {
      var u := s + t;
      var t' := t[..|t| - 1];
      assert u[..|u| - 1] == s + t';
      ValueAppend(s, t');
      Pow2Add(|s|, |t| - 1);
      var p, w, q := Pow2(|s|), Weight(t[|t| - 1]), Pow2(|t| - 1);
      assert Value(u) == Value(s) + p * Value(t') + (if w == 1 then p * q else 0);
      assert Value(t) == Value(t') + (if w == 1 then q else 0);
      Distribute(p, Value(t'), w, q);
    }
  }

  lemma Distribute(p: int, v: int, w: int, q: int)
    ensures p * v + w * (p * q) == p * (v + w * q)
  {
  }

  lemma {:induction false} ValueZeros(n: nat)
    ensures Value(Zeros(n)) == 0
  {
    if n > 0 {
      assert Zeros(n)[..n - 1] == Zeros(n - 1);
      ValueZeros(n - 1);
    }
  }

  /** The top bit of a bit vector of length n >= 1 is set iff its value is at least 2^(n-1). */
  lemma TopBit(s: seq<int>)
    requires |s| >= 1 && IsBits(s)
    ensures s[|s| - 1] == 0 ==> Value(s) == Value(s[..|s| - 1])
    ensures s[|s| - 1] == 1 ==> Value(s) == Value(s[..|s| - 1]) + Pow2(|s| - 1)
    ensures s[|s| - 1] == 1 <==> Value(s) >= Pow2(|s| - 1)
  {
    assert IsBit(s[|s| - 1]);
  }

  /** Every value below 2^w has exactly one w-bit representation. */
  lemma {:induction false} ValueInjective(s: seq<int>, t: seq<int>)
    requires IsBits(s) && IsBits(t) && |s| == |t| && Value(s) == Value(t)
    ensures s == t
    decreases |s|
  {
    if |s| > 0 {
      var n := |s| - 1;
      TopBit(s);
      TopBit(t);
      assert s[n] == t[n];
      ValueInjective(s[..n], t[..n]);
      assert s == s[..n] + [s[n]] && t == t[..n] + [t[n]];
    }
  }

  // ---------------------------------------------------------------------
  // decimal_to_binary

  /** The w low-order binary digits of n, least significant first. */
  function ToBits(n: nat, w: nat): (bits: seq<int>)
    ensures |bits| == w && IsBits(bits)
  {
    if w == 0 then [] else [n % 2] + ToBits(n / 2, w - 1)
  }

  /** The minimal digit list the Python loop produces (no trailing zeros). */
  function Digits(n: nat): seq<int>
    decreases n
  {
    if n == 0 then [] else [n % 2] + Digits(n / 2)
  }

  lemma {:induction false} ValueToBits(n: nat, w: nat)
    ensures Value(ToBits(n, w)) == n % Pow2(w)
  {
    if w > 0 {
      ValueToBits(n / 2, w - 1);
      ValueCons(n % 2, ToBits(n / 2, w - 1));
      ModDouble(n, Pow2(w - 1));
    }
  }

  /** n mod 2m, read off from the low bit of n and (n / 2) mod m. */
  lemma ModDouble(n: nat, m: nat)
    requires m > 0
    ensures n % (2 * m) == n % 2 + 2 * ((n / 2) % m)
  {
    var q, r := (n / 2) / m, (n / 2) % m;
    assert n / 2 == m * q + r;
    assert n == (2 * m) * q + (n % 2 + 2 * r);
    ModUnique(n, 2 * m, q, n % 2 + 2 * r);
  }

  /** Euclidean division is unique. */
  lemma ModUnique(n: int, d: int, q: int, r: int)
    requires d > 0 && n == d * q + r && 0 <= r < d
    ensures n % d == r && n / d == q
  {
    var q', r' := n / d, n % d;
    assert d * q + r == d * q' + r';
    if q > q' {
      MulMono(d, q - q');
    } else if q < q' {
      MulMono(d, q' - q);
    }
  }

  lemma MulMono(d: int, k: int)
    requires d > 0 && k >= 1
    ensures d * k >= d
  {
  }

  /** Padding the minimal digit list and cutting it to w agrees with ToBits. */
  lemma {:induction false} PadTruncate(n: nat, w: nat)
    ensures (Digits(n) + Zeros(if w < |Digits(n)| then 0 else w - |Digits(n)|))[..w] == ToBits(n, w)
    ensures w <= |Digits(n) + Zeros(if w < |Digits(n)| then 0 else w - |Digits(n)|)|
    decreases w
  {
    var d := Digits(n);
    var p := d + Zeros(if w < |d| then 0 else w - |d|);
    if w == 0 {
    } else if n == 0 {
      assert d == [];
      ToBitsZero(w);
      assert p == Zeros(w);
    } else {
      PadTruncate(n / 2, w - 1);
      var d' := Digits(n / 2);
      var p' := d' + Zeros(if w - 1 < |d'| then 0 else w - 1 - |d'|);
      assert d == [n % 2] + d';
      assert p == [n % 2] + p';
      assert p[..w] == [n % 2] + p'[..w - 1];
    }
  }

  lemma {:induction false} ToBitsZero(w: nat)
    ensures ToBits(0, w) == Zeros(w)
  {
    if w > 0 {
      ToBitsZero(w - 1);
      ZerosCons(w);
    }
  }

  lemma ZerosCons(w: nat)
    requires w > 0
    ensures Zeros(w) == [0] + Zeros(w - 1)
  {
  }

  /**
   * decimal_to_binary: repeated `% 2` / `// 2` into a digit list, then
   * pad with zeros to w and truncate to w.  Negative input is rejected.
   */
  method DecimalToBinary(n: int, w: nat) returns (r: Result<seq<int>>)
    ensures n < 0 <==> r.Err?
    ensures n >= 0 ==> r == Ok(ToBits(n, w))
  {
    if n < 0 {
      return Err("Decimal to binary conversion input must be non-negative");
    }
    var bits: seq<int> := [];
    var temp: nat := n;
    while temp > 0
      invariant bits + Digits(temp) == Digits(n)
    {
      assert Digits(temp) == [temp % 2] + Digits(temp / 2);
      bits := bits + [temp % 2];
      temp := temp / 2;
    }
    assert bits == Digits(n);
    var padding := Zeros(if w < |bits| then 0 else w - |bits|);
    PadTruncate(n, w);
    r := Ok((bits + padding)[..w]);
  }

  /** decimal_to_binary(n, w) denotes n mod 2^w. */
  lemma DecimalToBinaryValue(n: nat, w: nat)
    ensures |ToBits(n, w)| == w && IsBits(ToBits(n, w))
    ensures Value(ToBits(n, w)) == n % Pow2(w)
  {
    ValueToBits(n, w);
  }

  /** Round trip: decimal_to_binary(binary_to_decimal(v), len(v)) == v for 0/1 lists. */
  lemma RoundTrip(v: seq<int>)
    requires IsBits(v)
    ensures ToBits(Value(v), |v|) == v
  {
    var t := ToBits(Value(v), |v|);
    ValueToBits(Value(v), |v|);
    ModUnique(Value(v), Pow2(|v|), 0, Value(v));
    ValueInjective(t, v);
  }

  /** Self-test at binary_analyzer.py:147-153: 42 on 8 bits. */
  lemma FortyTwo()
    ensures ToBits(42, 8) == [0, 1, 0, 1, 0, 1, 0, 0]
  {
  }

  // ---------------------------------------------------------------------
  // binary_to_decimal

  method BinaryToDecimal(bits: seq<int>) returns (d: nat)
    ensures d == Value(bits)
  {
    d := 0;
    var i := 0;
    while i < |bits|
      invariant 0 <= i <= |bits|
      invariant d == Value(bits[..i])
    {
      assert bits[..i + 1][..i] == bits[..i];
      if bits[i] == 1 {
        d := d + Pow2(i);
      }
      i := i + 1;
    }
    assert bits[..i] == bits;
  }

  // ---------------------------------------------------------------------
  // format_binary_string

  /** `"".join(map(str, bits))`. */
  function Render(bits: seq<int>): string
  {
    if |bits| == 0 then "" else IntToString(bits[0]) + Render(bits[1..])
  }

  /** The character a bit is written as. */
  function BitChar(b: int): char
    requires IsBit(b)
  {
    if b == 1 then '1' else '0'
  }

  /** On 0/1 lists `str` gives one character per bit. */
  lemma {:induction false} RenderBits(bits: seq<int>)
    requires IsBits(bits)
    ensures |Render(bits)| == |bits|
    ensures forall k :: 0 <= k < |bits| ==> Render(bits)[k] == BitChar(bits[k])
    decreases |bits|
  {
    if |bits| > 0 {
      RenderBits(bits[1..]);
      assert IntToString(bits[0]) == [BitChar(bits[0])];
    }
  }

  /** `" ".join(s[i:i+4] for i in range(0, len(s), 4))`, or s itself when it has at most 4 characters. */
  function Group4(s: string): string
    decreases |s|
  {
    if |s| <= 4 then s else s[..4] + " " + Group4(s[4..])
  }

  function RemoveSpaces(s: string): string
  {
    if |s| == 0 then "" else (if s[0] == ' ' then "" else [s[0]]) + RemoveSpaces(s[1..])
  }

  predicate NoSpaces(s: string) { forall k :: 0 <= k < |s| ==> s[k] != ' ' }

  lemma {:induction false} RemoveSpacesAppend(a: string, b: string)
    ensures RemoveSpaces(a + b) == RemoveSpaces(a) + RemoveSpaces(b)
    decreases |a|
  {
    if |a| > 0 {
      assert (a + b)[1..] == a[1..] + b;
      RemoveSpacesAppend(a[1..], b);
    } else {
      assert a + b == b;
    }
  }

  lemma {:induction false} RemoveNoSpaces(s: string)
    requires NoSpaces(s)
    ensures RemoveSpaces(s) == s
    decreases |s|
  {
    if |s| > 0 {
      RemoveNoSpaces(s[1..]);
    }
  }

  /**
   * Grouping only inserts spaces, one after every full group of four
   * characters: position k of the result is a space exactly when k % 5 == 4.
   */
  lemma {:induction false} Group4Shape(s: string)
    requires NoSpaces(s)
    ensures RemoveSpaces(Group4(s)) == s
    ensures forall k :: 0 <= k < |Group4(s)| ==> (Group4(s)[k] == ' ' <==> k % 5 == 4)
    ensures |s| <= 4 ==> Group4(s) == s
    decreases |s|
  {
    if |s| <= 4 {
      RemoveNoSpaces(s);
    } else {
      var g := Group4(s[4..]);
      Group4Shape(s[4..]);
      RemoveNoSpaces(s[..4]);
      RemoveSpacesAppend(s[..4] + " ", g);
      RemoveSpacesAppend(s[..4], " ");
      assert s[..4] + s[4..] == s;
      var r := s[..4] + " " + g;
      forall k | 0 <= k < |r|
        ensures r[k] == ' ' <==> k % 5 == 4
      {
        if k >= 5 {
          assert r[k] == g[k - 5];
        }
      }
    }
  }

  /** format_binary_string: optionally reverse for display, render, group by four. */
  function FormatBinaryString(bits: seq<int>, msbFirst: bool): (r: string)
    ensures IsBits(bits) ==> RemoveSpaces(r) == Render(if msbFirst then Reverse(bits) else bits)
    ensures IsBits(bits) ==> forall k :: 0 <= k < |r| ==> (r[k] == ' ' <==> k % 5 == 4)
    ensures IsBits(bits) && |bits| <= 4 ==> r == Render(if msbFirst then Reverse(bits) else bits)
  {
    var display := if msbFirst then Reverse(bits) else bits;
    var s := Render(display);
    if IsBits(bits) then
      RenderBits(display);
      Group4Shape(s);
      Group4(s)
    else
      Group4(s)
  }

  /** n shifted right by j binary places. */
  function Shr(n: nat, j: nat): nat
  {
    if j == 0 then n else Shr(n / 2, j - 1)
  }

  /** The first j of j + k digits, then the digits of n / 2^j. */
  lemma {:induction false} ToBitsSplit(n: nat, j: nat, k: nat)
    ensures ToBits(n, j + k) == ToBits(n, j) + ToBits(Shr(n, j), k)
    decreases j
  {
    if j > 0 {
      var h := n / 2;
      ToBitsSplit(h, j - 1, k);
      var x, y := ToBits(h, j - 1), ToBits(Shr(h, j - 1), k);
      assert ToBits(n, j + k) == [n % 2] + (x + y);
      assert ToBits(n, j) == [n % 2] + x;
      assert [n % 2] + (x + y) == ([n % 2] + x) + y;
    }
  }

  lemma {:induction false} RenderAppend(x: seq<int>, y: seq<int>)
    ensures Render(x + y) == Render(x) + Render(y)
    decreases |x|
  {
    if |x| == 0 {
      assert x + y == y;
    } else {
      assert (x + y)[1..] == x[1..] + y;
      RenderAppend(x[1..], y);
    }
  }

  lemma Low30000()
    ensures ToBits(30000, 8) == [0, 0, 0, 0, 1, 1, 0, 0]
  {
  }

  lemma High30000()
    ensures ToBits(117, 8) == [1, 0, 1, 0, 1, 1, 1, 0]
  {
  }

  lemma Render8(bits: seq<int>, str: string)
    requires |bits| == 8 && IsBits(bits) && |str| == 8
    requires forall k :: 0 <= k < 8 ==> str[k] == BitChar(bits[k])
    ensures Render(bits) == str
  {
    RenderBits(bits);
  }

  lemma Reverse8(s: seq<int>, r: seq<int>)
    requires |s| == 8 && |r| == 8
    requires forall k | 0 <= k < 8 :: r[k] == s[7 - k]
    ensures Reverse(s) == r
  {
  }

  lemma Bits30000(n: nat)
    requires n == 30000
    ensures ToBits(n, 16) == [0, 0, 0, 0, 1, 1, 0, 0] + [1, 0, 1, 0, 1, 1, 1, 0]
  {
    ToBitsSplit(n, 8, 8);
    assert Shr(30000, 8) == 117;
    Low30000();
    High30000();
  }

  lemma Reverse30000(lo: seq<int>, hi: seq<int>)
    requires lo == [0, 0, 0, 0, 1, 1, 0, 0] && hi == [1, 0, 1, 0, 1, 1, 1, 0]
    ensures Reverse(lo + hi) == [0, 1, 1, 1, 0, 1, 0, 1] + [0, 0, 1, 1, 0, 0, 0, 0]
  {
    ReverseAppend(lo, hi);
    Reverse8(hi, [0, 1, 1, 1, 0, 1, 0, 1]);
    Reverse8(lo, [0, 0, 1, 1, 0, 0, 0, 0]);
  }

  lemma Render30000(hi: seq<int>, lo: seq<int>)
    requires hi == [0, 1, 1, 1, 0, 1, 0, 1] && lo == [0, 0, 1, 1, 0, 0, 0, 0]
    ensures Render(hi + lo) == "01110101" + "00110000"
  {
    RenderAppend(hi, lo);
    Render8(hi, "01110101");
    Render8(lo, "00110000");
  }

  /** A group of four in front of more digits is split off with a space. */
  lemma Group4Cons(g: string, rest: string)
    requires |g| == 4 && |rest| > 0
    ensures Group4(g + rest) == g + " " + Group4(rest)
  {
    assert (g + rest)[..4] == g && (g + rest)[4..] == rest;
  }

  lemma Group30000()
    ensures Group4("0111010100110000") == "0111 0101 0011 0000"
  {
    var a, b, c, d := "0111", "0101", "0011", "0000";
    Group4Cons(c, d);
    Group4Cons(b, c + d);
    Group4Cons(a, b + (c + d));
    Spell30000(a, b, c, d);
  }

  lemma Spell30000(a: string, b: string, c: string, d: string)
    requires a == "0111" && b == "0101" && c == "0011" && d == "0000"
    ensures a + (b + (c + d)) == "0111010100110000"
    ensures a + " " + (b + " " + (c + " " + d)) == "0111 0101 0011 0000"
  {
  }

  /** Self-test at binary_analyzer.py:174-179: 30000 on 16 bits, MSB first. */
  lemma Format30000(n: nat)
    requires n == 30000
    ensures FormatBinaryString(ToBits(n, 16), true) == "0111 0101 0011 0000"
  {
    Bits30000(n);
    var lo, hi := [0, 0, 0, 0, 1, 1, 0, 0], [1, 0, 1, 0, 1, 1, 1, 0];
    Reverse30000(lo, hi);
    var rhi, rlo := [0, 1, 1, 1, 0, 1, 0, 1], [0, 0, 1, 1, 0, 0, 0, 0];
    Render30000(rhi, rlo);
    assert "01110101" + "00110000" == "0111010100110000";
    Group30000();
  }

  // ---------------------------------------------------------------------
  // check_parity

  /** Number of entries equal to 1. */
  function Ones(bits: seq<int>): nat
  {
    if |bits| == 0 then 0 else Ones(bits[..|bits| - 1]) + Weight(bits[|bits| - 1])
  }

  /** The XOR chain the source folds over the list, in index order. */
  function Parity(bits: seq<int>): (p: int)
    ensures IsBit(p)
    ensures IsBits(bits) ==> p == Ones(bits) % 2
  {
    if |bits| == 0 then 0 else Xor(Parity(bits[..|bits| - 1]), bits[|bits| - 1])
  }

  /** check_parity: 1 for an odd number of ones (despite the docstring's "(even)"). */
  method CheckParity(bits: seq<int>) returns (p: int)
    ensures p == Parity(bits)
    ensures IsBits(bits) ==> (p == 1 <==> Ones(bits) % 2 == 1)
  {
    p := 0;
    for i := 0 to |bits|
      invariant p == Parity(bits[..i])
    {
      assert bits[..i + 1][..i] == bits[..i];
      p := Xor(p, bits[i]);
    }
    assert bits[..|bits|] == bits;
  }

  /** Self-test at binary_analyzer.py:166-170: three ones give parity 1. */
  lemma ParityFortyTwo()
    ensures Parity([0, 1, 0, 1, 0, 1, 0, 0]) == 1
  {
    var s := [0, 1, 0, 1, 0, 1, 0, 0];
    assert [0, 1][..1] == [0];
    assert Ones([0, 1]) == 1;
    assert [0, 1, 0][..2] == [0, 1];
    assert Ones([0, 1, 0]) == 1;
    assert [0, 1, 0, 1][..3] == [0, 1, 0];
    assert Ones([0, 1, 0, 1]) == 2;
    assert [0, 1, 0, 1, 0][..4] == [0, 1, 0, 1];
    assert Ones([0, 1, 0, 1, 0]) == 2;
    assert [0, 1, 0, 1, 0, 1][..5] == [0, 1, 0, 1, 0];
    assert Ones([0, 1, 0, 1, 0, 1]) == 3;
    assert [0, 1, 0, 1, 0, 1, 0][..6] == [0, 1, 0, 1, 0, 1];
    assert Ones([0, 1, 0, 1, 0, 1, 0]) == 3;
    assert [0, 1, 0, 1, 0, 1, 0, 0][..7] == [0, 1, 0, 1, 0, 1, 0];
    assert Ones([0, 1, 0, 1, 0, 1, 0, 0]) == 3;
  }

  // ---------------------------------------------------------------------
  // validate_binary_list

  /** Truncate to w (flagging overflow) or pad with zeros to w. */
  function ValidateBinaryList(bits: seq<int>, w: nat): (r: (seq<int>, bool))
    ensures |r.0| == w
    ensures r.1 <==> |bits| > w
    ensures forall k :: 0 <= k < w ==> r.0[k] == if k < |bits| then bits[k] else 0
  {
    if |bits| > w then (bits[..w], true) else (bits + Zeros(w - |bits|), false)
  }
}
