/**
 * Truth tables (LogicExpressionParser.extract_variables,
 * generate_truth_table and format_truth_table in logic_designer.py): the
 * variables of an expression in sorted order, one row per assignment of bits
 * to them, and the text rendering of the table.
 */
module TruthTables {
  import opened Gates
  import opened Strings
  import opened Tokenizer
  import opened ExpressionParser
  import opened BinaryAnalyzer

  // ---------------------------------------------------------------------
  // Python's ordering of strings: code point by code point, a proper
  // prefix first

  predicate Less(a: string, b: string)
    decreases |a|
  {
    |b| > 0 && (|a| == 0 || a[0] < b[0] || (a[0] == b[0] && Less(a[1..], b[1..])))
  }

  lemma {:induction false} LessIrreflexive(a: string)
    ensures !Less(a, a)
    decreases |a|
  {
    if |a| > 0 {
      LessIrreflexive(a[1..]);
    }
  }

  lemma {:induction false} LessTransitive(a: string, b: string, c: string)
    requires Less(a, b) && Less(b, c)
    ensures Less(a, c)
    decreases |a|
  {
    if |a| > 0 && a[0] == b[0] && b[0] == c[0] {
      LessTransitive(a[1..], b[1..], c[1..]);
    }
  }

  lemma {:induction false} LessTotal(a: string, b: string)
    ensures a == b || Less(a, b) || Less(b, a)
    decreases |a|
  {
    if |a| > 0 && |b| > 0 && a[0] == b[0] {
      LessTotal(a[1..], b[1..]);
      if a[1..] == b[1..] {
        assert a == [a[0]] + a[1..] && b == [b[0]] + b[1..];
      }
    }
  }

  lemma LessAsymmetric(a: string, b: string)
    requires Less(a, b)
    ensures !Less(b, a)
  {
    if Less(b, a) {
      LessTransitive(a, b, a);
      LessIrreflexive(a);
    }
  }

  predicate StrictlySorted(xs: seq<string>)
  {
    forall i, j :: 0 <= i < j < |xs| ==> Less(xs[i], xs[j])
  }

  // ---------------------------------------------------------------------
  // extract_variables: a set of names, then `sorted`

  /** Adding a name to a sorted list of distinct names. */
  function Insert(xs: seq<string>, x: string): (r: seq<string>)
    ensures forall y :: y in r <==> y in xs || y == x
    decreases |xs|
  {
    if |xs| == 0 then [x]
    else if x == xs[0] then xs
    else if Less(x, xs[0]) then [x] + xs
    else [xs[0]] + Insert(xs[1..], x)
  }

  lemma {:induction false} InsertSorted(xs: seq<string>, x: string)
    requires StrictlySorted(xs)
    ensures StrictlySorted(Insert(xs, x))
    decreases |xs|
  {
    if |xs| > 0 && x != xs[0] {
      if Less(x, xs[0]) {
        var r := [x] + xs;
        forall i, j | 0 <= i < j < |r|
          ensures Less(r[i], r[j])
        {
          if i == 0 && j > 1 {
            LessTransitive(x, xs[0], xs[j - 1]);
          }
        }
      } else {
        LessTotal(x, xs[0]);
        InsertSorted(xs[1..], x);
        var t := Insert(xs[1..], x);
        var r := [xs[0]] + t;
        forall j | 0 <= j < |t|
          ensures Less(xs[0], t[j])
        {
          assert t[j] in xs[1..] || t[j] == x;
        }
      }
    }
  }

  /** Whether extract_variables keeps a token: alphabetic and not an operator word. */
  predicate IsVariable(t: string)
  {
    IsAlpha(t) && t !in Operators
  }

  /** The sorted variables of the first tokens. */
  function Variables(tokens: seq<string>): seq<string>
    decreases |tokens|
  {
    if |tokens| == 0 then []
    else
      var vars := Variables(tokens[..|tokens| - 1]);
      var t := tokens[|tokens| - 1];
      if IsVariable(t) then Insert(vars, t) else vars
  }

  /** The variables are sorted, distinct, and exactly the variable tokens. */
  lemma {:induction false} VariablesSpec(tokens: seq<string>)
    ensures StrictlySorted(Variables(tokens))
    ensures forall x :: x in Variables(tokens) <==> x in tokens && IsVariable(x)
    decreases |tokens|
  {
    if |tokens| > 0 {
      var init := tokens[..|tokens| - 1];
      VariablesSpec(init);
      var t := tokens[|tokens| - 1];
      assert tokens == init + [t];
      if IsVariable(t) {
        InsertSorted(Variables(init), t);
      }
    }
  }

  /** Only one strictly sorted list holds a given set of names: the model is `sorted(set)`. */
  lemma {:induction false} SortedUnique(xs: seq<string>, ys: seq<string>)
    requires StrictlySorted(xs) && StrictlySorted(ys)
    requires forall x :: x in xs <==> x in ys
    ensures xs == ys
    decreases |xs|
  {
    assert (|xs| > 0 ==> xs[0] in ys) && (|ys| > 0 ==> ys[0] in xs);
    if |xs| > 0 && |ys| > 0 {
      LessTotal(xs[0], ys[0]);
      if Less(xs[0], ys[0]) {
        var k :| 0 <= k < |ys| && ys[k] == xs[0];
        assert k > 0 by {
          LessIrreflexive(xs[0]);
        }
        LessAsymmetric(ys[0], ys[k]);
      }
      forall x
        ensures x in xs[1..] <==> x in ys[1..]
      {
        OnlyHead(xs, x);
        OnlyHead(ys, x);
      }
      SortedUnique(xs[1..], ys[1..]);
      assert xs == [xs[0]] + xs[1..] && ys == [ys[0]] + ys[1..];
    }
  }

  /** In a strictly sorted list the head occurs once. */
  lemma OnlyHead(xs: seq<string>, x: string)
    requires StrictlySorted(xs) && |xs| > 0
    ensures x in xs[1..] <==> x in xs && x != xs[0]
  {
    if x in xs[1..] {
      var k :| 0 <= k < |xs[1..]| && xs[1..][k] == x;
      assert Less(xs[0], xs[k + 1]);
      LessIrreflexive(xs[0]);
    }
    if x in xs && x != xs[0] {
      var k :| 0 <= k < |xs| && xs[k] == x;
      assert xs[1..][k - 1] == x;
    }
  }

  /** extract_variables. */
  method ExtractVariables(tokens: seq<string>) returns (vars: seq<string>)
    ensures vars == Variables(tokens)
    ensures StrictlySorted(vars)
    ensures forall x :: x in vars <==> x in tokens && IsVariable(x)
  {
    vars := [];
    for i := 0 to |tokens|
      invariant vars == Variables(tokens[..i])
    {
      assert tokens[..i + 1][..i] == tokens[..i];
      var token := tokens[i];
      if IsAlpha(token) && token !in Operators {
        vars := Insert(vars, token);
      }
    }
    assert tokens[..|tokens|] == tokens;
    VariablesSpec(tokens);
  }

  // ---------------------------------------------------------------------
  // generate_truth_table

  datatype Row = Row(inputs: seq<int>, output: int, binaryIndex: string)

  /**
   * The dictionary generate_truth_table returns: the table itself, or the
   * record with an 'error' entry.
   */
  datatype TruthTable =
    | Table(variables: seq<string>, rows: seq<Row>, expression: string, combinations: nat)
    | Failed(variables: seq<string>, rows: seq<Row>, error: string)

  /**
   * The bits of row i for n variables, the first variable being the most
   * significant: the bits of i / 2 for the first n - 1, then the low bit of i.
   */
  function RowBits(i: nat, n: nat): (bits: seq<int>)
    ensures |bits| == n
  {
    if n == 0 then [] else RowBits(i / 2, n - 1) + [i % 2]
  }

  /** Variable j gets `(i >> (n - 1 - j)) & 1`. */
  lemma {:induction false} RowBitsAt(i: nat, n: nat, j: nat)
    requires j < n
    ensures RowBits(i, n)[j] == Shr(i, n - 1 - j) % 2
    decreases n
  {
    if j < n - 1 {
      RowBitsAt(i / 2, n - 1, j);
    }
  }

  /** The dictionary of variable values after the first assignments. */
  function EnvOf(vars: seq<string>, bits: seq<int>): map<string, int>
    requires |vars| == |bits|
    decreases |vars|
  {
    if |vars| == 0 then map[]
    else EnvOf(vars[..|vars| - 1], bits[..|bits| - 1])[vars[|vars| - 1] := bits[|bits| - 1]]
  }

  /** `bin(i)` without its prefix: the binary digits of i, most significant first. */
  function BinaryDigits(i: nat): (s: string)
    ensures |s| > 0
    decreases i
  {
    if i < 2 then [BitChar(i)] else BinaryDigits(i / 2) + [BitChar(i % 2)]
  }

  /** `format(i, f'0{n}b')`: the binary digits, padded with zeros on the left to width n. */
  function BinaryFormat(i: nat, n: nat): string
  {
    var d := BinaryDigits(i);
    (if |d| < n then Repeat('0', n - |d|) else "") + d
  }

  function RowOf(expression: string, vars: seq<string>, i: nat): Row
  {
    var bits := RowBits(i, |vars|);
    Row(bits, Evaluation(expression, EnvOf(vars, bits)), BinaryFormat(i, |vars|))
  }

  const NoVariables := "No variables found in expression"

  /** generate_truth_table. */
  function TableOf(expression: string): TruthTable
  {
    var vars := Variables(Tokenize(expression));
    if |vars| == 0 then Failed([], [], NoVariables)
    else Table(vars, seq(Pow2(|vars|), i requires 0 <= i < Pow2(|vars|) => RowOf(expression, vars, i)),
               expression, Pow2(|vars|))
  }

  /** One pass of the outer loop: the inner loop over the variables, then the evaluation. */
  method TableRow(expression: string, vars: seq<string>, i: nat) returns (row: Row)
    ensures row == RowOf(expression, vars, i)
  {
    var n := |vars|;
    var values: map<string, int> := map[];
    var inputs: seq<int> := [];
    for j := 0 to n
      invariant inputs == RowBits(i, n)[..j]
      invariant values == EnvOf(vars[..j], inputs)
    {
      var bit := Shr(i, n - 1 - j) % 2;
      RowBitsAt(i, n, j);
      assert vars[..j + 1][..j] == vars[..j];
      assert RowBits(i, n)[..j + 1] == inputs + [bit];
      values := values[vars[j] := bit];
      inputs := inputs + [bit];
    }
    assert vars[..n] == vars && RowBits(i, n)[..n] == RowBits(i, n);
    var result := Evaluate(expression, values);
    row := Row(inputs, result, BinaryFormat(i, n));
  }

  method GenerateTruthTable(expression: string) returns (table: TruthTable)
    ensures table == TableOf(expression)
  {
    var tokens := Tokenize(expression);
    var variables := ExtractVariables(tokens);
    if |variables| == 0 {
      return Failed([], [], NoVariables);
    }
    var numCombinations := Pow2(|variables|);
    var rows: seq<Row> := [];
    for i := 0 to numCombinations
      invariant |rows| == i
      invariant forall k :: 0 <= k < i ==> rows[k] == RowOf(expression, variables, k)
    {
      var row := TableRow(expression, variables, i);
      rows := rows + [row];
    }
    table := Table(variables, rows, expression, numCombinations);
  }

  // ---------------------------------------------------------------------
  // what the rows hold

  /** The row's bits are the n low binary digits of its index, most significant first. */
  lemma {:induction false} RowBitsReverse(i: nat, n: nat)
    ensures RowBits(i, n) == Reverse(ToBits(i, n))
  {
    if n > 0 {
      RowBitsReverse(i / 2, n - 1);
      var b := ToBits(i, n);
      assert b[1..] == ToBits(i / 2, n - 1);
    }
  }

  /** Row i is a bit vector whose binary value is i. */
  lemma RowValue(i: nat, n: nat)
    requires i < Pow2(n)
    ensures IsBits(RowBits(i, n)) && Value(Reverse(RowBits(i, n))) == i
  {
    var b := ToBits(i, n);
    RowBitsReverse(i, n);
    ReverseReverse(b);
    ValueToBits(i, n);
    ModSmall(i, Pow2(n));
    ReverseBits(b);
  }

  lemma ModSmall(i: nat, m: nat)
    requires i < m
    ensures i % m == i
  {
  }

  lemma ReverseBits(b: seq<int>)
    requires IsBits(b)
    ensures IsBits(Reverse(b))
  {
    forall j | 0 <= j < |b|
      ensures IsBit(Reverse(b)[j])
    {
      assert Reverse(b)[j] == b[|b| - 1 - j];
    }
  }

  lemma RepeatSnoc(c: char, n: nat)
    ensures Repeat(c, n + 1) == Repeat(c, n) + [c]
  {
  }

  lemma {:induction false} RenderZeros(n: nat)
    ensures Render(RowBits(0, n)) == Repeat('0', n)
  {
    if n > 0 {
      RenderZeros(n - 1);
      RenderAppend(RowBits(0, n - 1), [0]);
      RepeatSnoc('0', n - 1);
    }
  }

  /** The last bit of a row, rendered. */
  lemma RenderSnoc(i: nat, n: nat)
    requires n > 0
    ensures Render(RowBits(i, n)) == Render(RowBits(i / 2, n - 1)) + [BitChar(i % 2)]
  {
    RenderAppend(RowBits(i / 2, n - 1), [i % 2]);
    assert Render([i % 2]) == [BitChar(i % 2)];
  }

  /** d padded with zeros on the left to width n. */
  function Pad(d: string, n: nat): (r: string)
    requires |d| <= n
    ensures |r| == n
  {
    Repeat('0', n - |d|) + d
  }

  lemma PadSnoc(d: string, m: nat, c: char)
    requires |d| <= m
    ensures Pad(d, m) + [c] == Pad(d + [c], m + 1)
  {
    Associative(Repeat('0', m - |d|), d, [c]);
  }

  lemma RenderOne(n: nat)
    requires n > 0
    ensures Render(RowBits(1, n)) == Pad(BinaryDigits(1), n)
  {
    RenderSnoc(1, n);
    RenderZeros(n - 1);
  }

  lemma {:induction false} RenderRowBits(i: nat, n: nat)
    requires 0 < i < Pow2(n)
    ensures |BinaryDigits(i)| <= n
    ensures Render(RowBits(i, n)) == Pad(BinaryDigits(i), n)
    decreases i
  {
    if i == 1 {
      RenderOne(n);
    } else {
      RenderSnoc(i, n);
      RenderRowBits(i / 2, n - 1);
      PadSnoc(BinaryDigits(i / 2), n - 1, BitChar(i % 2));
    }
  }

  /** `format(i, f'0{n}b')` spells the row's bits. */
  lemma BinaryIndexRendered(i: nat, n: nat)
    requires n > 0 && i < Pow2(n)
    ensures BinaryFormat(i, n) == Render(RowBits(i, n))
  {
    if i == 0 {
      RenderZeros(n);
      RepeatSnoc('0', n - 1);
    } else {
      RenderRowBits(i, n);
      assert Pad(BinaryDigits(i), n) == BinaryFormat(i, n);
    }
  }

  predicate Distinct(xs: seq<string>)
  {
    forall i, j :: 0 <= i < j < |xs| ==> xs[i] != xs[j]
  }

  lemma SortedDistinct(xs: seq<string>)
    requires StrictlySorted(xs)
    ensures Distinct(xs)
  {
    forall i, j | 0 <= i < j < |xs|
      ensures xs[i] != xs[j]
    {
      LessIrreflexive(xs[i]);
    }
  }

  /** The dictionary maps each of distinct variables to its bit, and holds nothing else. */
  lemma {:induction false} EnvLookup(vars: seq<string>, bits: seq<int>)
    requires |vars| == |bits| && Distinct(vars)
    ensures forall x :: x in EnvOf(vars, bits) <==> x in vars
    ensures forall j :: 0 <= j < |vars| ==> EnvOf(vars, bits)[vars[j]] == bits[j]
    decreases |vars|
  {
    if |vars| > 0 {
      var m := |vars| - 1;
      EnvLookup(vars[..m], bits[..m]);
      assert vars == vars[..m] + [vars[m]];
    }
  }

  /** generate_truth_table reports an error exactly when no token is a variable. */
  lemma TableVariables(expression: string)
    ensures var t := TableOf(expression);
      (t.Failed? <==> forall k :: 0 <= k < |Tokenize(expression)| ==> !IsVariable(Tokenize(expression)[k]))
      && (t.Failed? ==> t == Failed([], [], NoVariables))
      && (t.Table? ==>
            StrictlySorted(t.variables)
            && (forall x :: x in t.variables <==> x in Tokenize(expression) && IsVariable(x))
            && t.expression == expression)
  {
    var tokens := Tokenize(expression);
    VariablesSpec(tokens);
    var vars := Variables(tokens);
    if |vars| > 0 {
      assert vars[0] in tokens;
    }
  }

  /** Row k of the table: the k-th assignment, its index written in binary, and the expression's value under it. */
  lemma TableRows(expression: string, k: nat)
    requires TableOf(expression).Table? && k < |TableOf(expression).rows|
    ensures var t := TableOf(expression); var n := |t.variables|; var row := t.rows[k];
      |t.rows| == t.combinations == Pow2(n)
      && |row.inputs| == n && IsBits(row.inputs) && Value(Reverse(row.inputs)) == k
      && row.binaryIndex == Render(row.inputs)
      && (forall x :: x in EnvOf(t.variables, row.inputs) <==> x in t.variables)
      && (forall j :: 0 <= j < n ==> EnvOf(t.variables, row.inputs)[t.variables[j]] == row.inputs[j])
      && row.output == Evaluation(expression, EnvOf(t.variables, row.inputs))
      && (BitConstants(Tokenize(expression)) ==> IsBit(row.output))
  {
    var t := TableOf(expression);
    var n := |t.variables|;
    VariablesSpec(Tokenize(expression));
    SortedDistinct(t.variables);
    assert t.rows[k] == RowOf(expression, t.variables, k);
    RowValue(k, n);
    BinaryIndexRendered(k, n);
    EnvLookup(t.variables, RowBits(k, n));
    var env := EnvOf(t.variables, RowBits(k, n));
    forall x | x in env
      ensures IsBit(env[x])
    {
      var j :| 0 <= j < n && t.variables[j] == x;
    }
    if BitConstants(Tokenize(expression)) {
      EvaluationIsBit(expression, env);
    }
  }

  /** Every assignment of bits to the variables has a row. */
  lemma TableComplete(expression: string, bits: seq<int>)
    requires TableOf(expression).Table? && |bits| == |TableOf(expression).variables| && IsBits(bits)
    ensures exists k :: 0 <= k < |TableOf(expression).rows| && TableOf(expression).rows[k].inputs == bits
  {
    var t := TableOf(expression);
    var n := |bits|;
    var k := Value(Reverse(bits));
    RowValue(k, n);
    assert IsBits(Reverse(bits));
    ValueInjective(Reverse(RowBits(k, n)), Reverse(bits));
    ReverseReverse(bits);
    ReverseReverse(RowBits(k, n));
    assert t.rows[k] == RowOf(expression, t.variables, k);
  }

  /** ... and only one. */
  lemma TableDistinct(expression: string, k1: nat, k2: nat)
    requires TableOf(expression).Table? && k1 < k2 < |TableOf(expression).rows|
    ensures TableOf(expression).rows[k1].inputs != TableOf(expression).rows[k2].inputs
  {
    var t := TableOf(expression);
    var n := |t.variables|;
    assert t.rows[k1] == RowOf(expression, t.variables, k1);
    assert t.rows[k2] == RowOf(expression, t.variables, k2);
    RowValue(k1, n);
    RowValue(k2, n);
  }

  // ---------------------------------------------------------------------
  // format_truth_table

  /** The column headers: the variables and OUT, separated by " | ". */
  function Header(vars: seq<string>): string
  {
    Join(vars, " | ") + " | OUT"
  }

  /** `str(val)` for each input. */
  function Strs(inputs: seq<int>): (r: seq<string>)
    ensures |r| == |inputs|
  {
    seq(|inputs|, k requires 0 <= k < |inputs| => IntToString(inputs[k]))
  }

  function RowLine(row: Row): string
  {
    Join(Strs(row.inputs), " | ") + " |  " + IntToString(row.output) + "\n"
  }

  function RowLines(rows: seq<Row>): string
    decreases |rows|
  {
    if |rows| == 0 then "" else RowLine(rows[0]) + RowLines(rows[1..])
  }

  /** Everything above the rows: the title, its underline, a blank line, the header and its rule. */
  function Heading(expression: string, vars: seq<string>): string
  {
    "\nTruth Table for: " + expression + "\n"
    + Repeat('=', |expression| + 18) + "\n\n"
    + Header(vars) + "\n"
    + Repeat('-', |Header(vars)|) + "\n"
  }

  function FormatTable(t: TruthTable): string
  {
    match t
    case Failed(_, _, error) => "ERROR: " + error
    case Table(vars, rows, expression, _) => Heading(expression, vars) + RowLines(rows)
  }

  /** format_truth_table. */
  method FormatTruthTable(t: TruthTable) returns (output: string)
    ensures output == FormatTable(t)
  {
    if t.Failed? {
      return "ERROR: " + t.error;
    }
    var variables, rows, expression := t.variables, t.rows, t.expression;
    output := "\nTruth Table for: " + expression + "\n";
    output := output + Repeat('=', |expression| + 18) + "\n\n";
    var header := Join(variables, " | ") + " | OUT";
    output := output + header + "\n";
    output := output + Repeat('-', |header|) + "\n";
    for i := 0 to |rows|
      invariant output + RowLines(rows[i..]) == Heading(expression, variables) + RowLines(rows)
    {
      assert rows[i..][1..] == rows[i + 1..];
      var rowStr := Join(Strs(rows[i].inputs), " | ");
      rowStr := rowStr + " |  " + IntToString(rows[i].output);
      assert rowStr + "\n" == RowLine(rows[i]);
      Associative(output, rowStr, "\n");
      Associative(output, RowLine(rows[i]), RowLines(rows[i + 1..]));
      output := output + rowStr + "\n";
    }
    assert rows[|rows|..] == [];
  }

  // the layout: one line per row

  function Newlines(s: string): nat
    decreases |s|
  {
    if |s| == 0 then 0 else Newlines(s[..|s| - 1]) + (if s[|s| - 1] == '\n' then 1 else 0)
  }

  lemma {:induction false} NewlinesAppend(a: string, b: string)
    ensures Newlines(a + b) == Newlines(a) + Newlines(b)
    decreases |b|
  {
    if |b| == 0 {
      assert a + b == a;
    } else {
      NewlinesAppend(a, b[..|b| - 1]);
      assert (a + b)[..|a + b| - 1] == a + b[..|b| - 1];
    }
  }

  predicate OneLine(s: string)
  {
    forall k :: 0 <= k < |s| ==> s[k] != '\n'
  }

  lemma {:induction false} OneLineNoNewlines(s: string)
    requires OneLine(s)
    ensures Newlines(s) == 0
    decreases |s|
  {
    if |s| > 0 {
      OneLineNoNewlines(s[..|s| - 1]);
    }
  }

  lemma {:induction false} JoinOneLine(parts: seq<string>, sep: string)
    requires OneLine(sep) && forall k :: 0 <= k < |parts| ==> OneLine(parts[k])
    ensures OneLine(Join(parts, sep))
    decreases |parts|
  {
    if |parts| > 1 {
      JoinOneLine(parts[1..], sep);
      var rest := Join(parts[1..], sep);
      assert Join(parts, sep) == parts[0] + sep + rest;
    }
  }

  lemma IntOneLine(i: int)
    ensures OneLine(IntToString(i))
  {
  }

  /** Each row is one line of the text. */
  lemma RowLineNewlines(row: Row)
    ensures Newlines(RowLine(row)) == 1
  {
    var parts := Strs(row.inputs);
    forall k | 0 <= k < |parts|
      ensures OneLine(parts[k])
    {
      IntOneLine(row.inputs[k]);
    }
    JoinOneLine(parts, " | ");
    IntOneLine(row.output);
    var body := Join(parts, " | ") + " |  " + IntToString(row.output);
    assert OneLine(body);
    OneLineNoNewlines(body);
    NewlinesAppend(body, "\n");
  }

  lemma {:induction false} RowLinesNewlines(rows: seq<Row>)
    ensures Newlines(RowLines(rows)) == |rows|
    decreases |rows|
  {
    if |rows| > 0 {
      RowLinesNewlines(rows[1..]);
      RowLineNewlines(rows[0]);
      NewlinesAppend(RowLine(rows[0]), RowLines(rows[1..]));
    }
  }

  /**
   * A truth table for a one-line expression is six lines of heading and one
   * line per row.
   */
  lemma FormatLines(expression: string)
    requires OneLine(expression) && TableOf(expression).Table?
    ensures Newlines(FormatTable(TableOf(expression))) == 6 + |TableOf(expression).rows|
  {
    var t := TableOf(expression);
    TableVariables(expression);
    forall k | 0 <= k < |t.variables|
      ensures OneLine(t.variables[k])
    {
      assert t.variables[k] in t.variables;
    }
    JoinOneLine(t.variables, " | ");
    HeadingNewlines(expression, t.variables);
    RowLinesNewlines(t.rows);
    NewlinesAppend(Heading(expression, t.variables), RowLines(t.rows));
  }

  /** Text without a line break adds no line. */
  lemma AddText(a: string, b: string)
    requires OneLine(b)
    ensures Newlines(a + b) == Newlines(a)
  {
    NewlinesAppend(a, b);
    OneLineNoNewlines(b);
  }

  lemma AddBreak(a: string)
    ensures Newlines(a + "\n") == Newlines(a) + 1
  {
    assert (a + "\n")[..|a|] == a;
  }

  lemma AddBlank(a: string)
    ensures Newlines(a + "\n\n") == Newlines(a) + 2
  {
    var b := a + "\n\n";
    assert b[..|b| - 1] == a + "\n";
    AddBreak(a);
  }

  lemma TitleNewlines()
    ensures Newlines("\nTruth Table for: ") == 1
  {
    var t := "\nTruth Table for: ";
    assert OneLine(t[1..]);
    assert t == "\n" + t[1..];
    AddText("\n", t[1..]);
  }

  lemma HeadingNewlines(expression: string, vars: seq<string>)
    requires OneLine(expression) && OneLine(Join(vars, " | "))
    ensures Newlines(Heading(expression, vars)) == 6
  {
    var h := Header(vars);
    assert OneLine(h);
    var rule1 := Repeat('=', |expression| + 18);
    var rule2 := Repeat('-', |h|);
    var p := "\nTruth Table for: ";
    TitleNewlines();
    AddText(p, expression);
    AddBreak(p + expression);
    var q := p + expression + "\n";
    AddText(q, rule1);
    AddBlank(q + rule1);
    var r := q + rule1 + "\n\n";
    AddText(r, h);
    AddBreak(r + h);
    AddText(r + h + "\n", rule2);
    AddBreak(r + h + "\n" + rule2);
  }
}
