/**
 * The syntactic half of logic_designer.py's expression parser: the
 * shunting-yard conversion from infix to postfix and the stack machine that
 * evaluates postfix, each as a specification function and as the method the
 * source runs; and, as their common reference, expression trees with their
 * infix rendering, their postfix form and their value.
 */
module ExpressionParser {
  import opened Gates
  import opened Strings
  import opened Tokenizer

  // ---------------------------------------------------------------------
  // shunting yard

  /**
   * How an arriving prefix operator treats the stack. As written it pops like
   * every other operator; a prefix operator has no left operand, so the
   * corrected rule pushes it without popping anything.
   */
  datatype Rule = AsWritten | PrefixUnary

  /** The two lists of infix_to_postfix; the top of the stack is its last element. */
  datatype Shunt = Shunt(output: seq<string>, stack: seq<string>)

  function Last(st: seq<string>): string
    requires |st| > 0
  {
    st[|st| - 1]
  }

  /** Move the top of the stack to the output: `output.append(operator_stack.pop())`. */
  function MoveTop(s: Shunt): (r: Shunt)
    requires |s.stack| > 0
    ensures r.output == s.output + [Last(s.stack)] && s.stack == r.stack + [Last(s.stack)]
    ensures |r.stack| == |s.stack| - 1
    ensures multiset(r.output) + multiset(r.stack) == multiset(s.output) + multiset(s.stack)
  {
    Shunt(s.output + [Last(s.stack)], s.stack[..|s.stack| - 1])
  }

  /** The loop for ")": pop until "(" is on top. */
  function PopToOpen(s: Shunt): (r: Shunt)
    ensures |r.stack| > 0 ==> Last(r.stack) == "("
    decreases |s.stack|
  {
    if |s.stack| > 0 && Last(s.stack) != "(" then PopToOpen(MoveTop(s)) else s
  }

  /** The condition of the loop for an operator: the top is an operator of at least its precedence. */
  predicate Outranks(top: string, t: string)
    requires t in Operators
  {
    top != "(" && top in Operators && Precedence(top) >= Precedence(t)
  }

  function PopOutranking(s: Shunt, t: string): (r: Shunt)
    requires t in Operators
    ensures |r.stack| > 0 ==> !Outranks(Last(r.stack), t)
    decreases |s.stack|
  {
    if |s.stack| > 0 && Outranks(Last(s.stack), t) then PopOutranking(MoveTop(s), t) else s
  }

  /** What ")" does: pop to the "(", then drop it if there is one. */
  function Close(s: Shunt): Shunt
  {
    var r := PopToOpen(s);
    if |r.stack| > 0 then Shunt(r.output, r.stack[..|r.stack| - 1]) else r
  }

  /** What an operator does: pop what outranks it (unless the rule exempts it), then push it. */
  function Push(s: Shunt, t: string, rule: Rule): Shunt
    requires t in Operators
  {
    var r := if rule == PrefixUnary && IsUnary(t) then s else PopOutranking(s, t);
    Shunt(r.output, r.stack + [t])
  }

  /** One pass of the loop over the tokens. */
  function Step(s: Shunt, t: string, rule: Rule): Shunt
  {
    if IsAlnum(t) then Shunt(s.output + [t], s.stack)
    else if t == "(" then Shunt(s.output, s.stack + ["("])
    else if t == ")" then Close(s)
    else if t in Operators then Push(s, t, rule)
    else s
  }

  function Run(s: Shunt, tokens: seq<string>, rule: Rule): Shunt
    decreases |tokens|
  {
    if |tokens| == 0 then s else Run(Step(s, tokens[0], rule), tokens[1..], rule)
  }

  /** The final loop: pop everything that is left, "(" included. */
  function Flush(s: Shunt): seq<string>
    decreases |s.stack|
  {
    if |s.stack| == 0 then s.output else Flush(MoveTop(s))
  }

  /** infix_to_postfix, under either rule for prefix operators. */
  function Postfix(tokens: seq<string>, rule: Rule): seq<string>
  {
    Flush(Run(Shunt([], []), tokens, rule))
  }

  lemma {:induction false} RunAppend(s: Shunt, a: seq<string>, b: seq<string>, rule: Rule)
    ensures Run(s, a + b, rule) == Run(Run(s, a, rule), b, rule)
    decreases |a|
  {
    if |a| > 0 {
      RunAppend(Step(s, a[0], rule), a[1..], b, rule);
      assert (a + b)[1..] == a[1..] + b;
    } else {
      assert a + b == b;
    }
  }

  // the source's loops

  /** Pop until "(" is on top. */
  method PopUntilOpen(output: seq<string>, stack: seq<string>) returns (output': seq<string>, stack': seq<string>)
    ensures Shunt(output', stack') == PopToOpen(Shunt(output, stack))
  {
    output', stack' := output, stack;
    while |stack'| > 0 && stack'[|stack'| - 1] != "("
      invariant PopToOpen(Shunt(output', stack')) == PopToOpen(Shunt(output, stack))
      decreases |stack'|
    {
      output', stack' := output' + [stack'[|stack'| - 1]], stack'[..|stack'| - 1];
    }
  }

  /** Pop the operators of at least the precedence of t. */
  method PopWhileOutranking(output: seq<string>, stack: seq<string>, t: string)
    returns (output': seq<string>, stack': seq<string>)
    requires t in Operators
    ensures Shunt(output', stack') == PopOutranking(Shunt(output, stack), t)
  {
    output', stack' := output, stack;
    while |stack'| > 0 && stack'[|stack'| - 1] != "(" && stack'[|stack'| - 1] in Operators
          && Precedence(stack'[|stack'| - 1]) >= Precedence(t)
      invariant PopOutranking(Shunt(output', stack'), t) == PopOutranking(Shunt(output, stack), t)
      decreases |stack'|
    {
      output', stack' := output' + [stack'[|stack'| - 1]], stack'[..|stack'| - 1];
    }
  }

  /** One token, as the body of the source's loop handles it. */
  method ShuntToken(output: seq<string>, stack: seq<string>, token: string)
    returns (output': seq<string>, stack': seq<string>)
    ensures Shunt(output', stack') == Step(Shunt(output, stack), token, AsWritten)
  {
    output', stack' := output, stack;
    if IsAlnum(token) {
      output' := output' + [token];
    } else if token == "(" {
      stack' := stack' + ["("];
    } else if token == ")" {
      output', stack' := PopUntilOpen(output', stack');
      if |stack'| > 0 {
        stack' := stack'[..|stack'| - 1];
      }
    } else if token in Operators {
      output', stack' := PopWhileOutranking(output', stack', token);
      stack' := stack' + [token];
    }
  }

  /** infix_to_postfix. */
  method InfixToPostfix(tokens: seq<string>) returns (output: seq<string>)
    ensures output == Postfix(tokens, AsWritten)
  {
    output := [];
    var stack: seq<string> := [];
    for i := 0 to |tokens|
      invariant Run(Shunt(output, stack), tokens[i..], AsWritten) == Run(Shunt([], []), tokens, AsWritten)
    {
      assert tokens[i..][1..] == tokens[i + 1..];
      output, stack := ShuntToken(output, stack, tokens[i]);
    }
    assert tokens[|tokens|..] == [];
    ghost var done := Shunt(output, stack);
    while |stack| > 0
      invariant Flush(Shunt(output, stack)) == Flush(done)
      decreases |stack|
    {
      output, stack := output + [stack[|stack| - 1]], stack[..|stack| - 1];
    }
  }

  // ---------------------------------------------------------------------
  // what the conversion keeps

  /** The operands of a token list, in order: what `isalnum` sends straight to the output. */
  function Operands(ts: seq<string>): seq<string>
  {
    if |ts| == 0 then [] else Operands(ts[..|ts| - 1]) + (if IsAlnum(ts[|ts| - 1]) then [ts[|ts| - 1]] else [])
  }

  /** The operands and operators among the tokens, counted: what the conversion passes on. */
  function PassedBag(ts: seq<string>): multiset<string>
  {
    if |ts| == 0 then multiset{}
    else PassedBag(ts[..|ts| - 1]) + (if IsAlnum(ts[|ts| - 1]) || ts[|ts| - 1] in Operators then multiset{ts[|ts| - 1]} else multiset{})
  }

  /** The entries of a list other than "(", counted. */
  function Bag(ts: seq<string>): multiset<string>
  {
    if |ts| == 0 then multiset{} else Bag(ts[..|ts| - 1]) + (if ts[|ts| - 1] == "(" then multiset{} else multiset{ts[|ts| - 1]})
  }

  /** How many "(" a list holds. */
  function Opens(ts: seq<string>): nat
  {
    if |ts| == 0 then 0 else Opens(ts[..|ts| - 1]) + (if ts[|ts| - 1] == "(" then 1 else 0)
  }

  /** The parentheses still open after the tokens; a ")" with none open is ignored. */
  function Depth(ts: seq<string>): nat
  {
    if |ts| == 0 then 0
    else
      var d := Depth(ts[..|ts| - 1]);
      if ts[|ts| - 1] == "(" then d + 1 else if ts[|ts| - 1] == ")" then (if d > 0 then d - 1 else 0) else d
  }

  // how each bookkeeping function extends by one token

  lemma ExtendOperands(ts: seq<string>, t: string)
    ensures Operands(ts + [t]) == Operands(ts) + (if IsAlnum(t) then [t] else [])
  {
    assert (ts + [t])[..|ts|] == ts;
  }

  lemma ExtendBags(ts: seq<string>, t: string)
    ensures PassedBag(ts + [t]) == PassedBag(ts) + (if IsAlnum(t) || t in Operators then multiset{t} else multiset{})
    ensures Bag(ts + [t]) == Bag(ts) + (if t == "(" then multiset{} else multiset{t})
  {
    assert (ts + [t])[..|ts|] == ts;
  }

  lemma ExtendNesting(ts: seq<string>, t: string)
    ensures Opens(ts + [t]) == Opens(ts) + (if t == "(" then 1 else 0)
    ensures Depth(ts + [t]) == if t == "(" then Depth(ts) + 1 else if t == ")" then (if Depth(ts) > 0 then Depth(ts) - 1 else 0) else Depth(ts)
  {
    assert (ts + [t])[..|ts|] == ts;
  }

  /** The stack holds only "(" and operators that are not words. */
  predicate StackShape(st: seq<string>)
  {
    forall k :: 0 <= k < |st| ==> st[k] == "(" || (st[k] in Operators && !IsAlnum(st[k]))
  }

  predicate NoClose(out: seq<string>)
  {
    forall k :: 0 <= k < |out| ==> out[k] != ")"
  }

  /**
   * What an intermediate state owes to the tokens consumed so far, one aspect
   * at a time: the operands in order; every operand and operator once; the
   * open parentheses, on the stack while the tokens are read and anywhere
   * while the stack is emptied.
   */
  datatype Aspect = InOrder | Counted | Nesting | Flushing

  predicate Accounts(s: Shunt, done: seq<string>, a: Aspect)
  {
    StackShape(s.stack) && NoClose(s.output)
    && match a
       case InOrder => Operands(s.output) == Operands(done)
       case Counted => Bag(s.output) + Bag(s.stack) == PassedBag(done)
       case Nesting => Opens(s.output) == 0 && Opens(s.stack) == Depth(done)
       case Flushing => Opens(s.output) + Opens(s.stack) == Depth(done)
  }

  lemma MoveTopAccounts(s: Shunt, done: seq<string>, a: Aspect)
    requires |s.stack| > 0 && Accounts(s, done, a)
    requires a == Nesting ==> Last(s.stack) != "("
    ensures Accounts(MoveTop(s), done, a)
  {
    var r := MoveTop(s);
    var x := Last(s.stack);
    assert x == "(" || (x in Operators && !IsAlnum(x));
    assert StackShape(r.stack);
    assert NoClose(r.output) by {
      assert x != ")";
    }
    match a
    case InOrder => ExtendOperands(s.output, x);
    case Counted => ExtendBags(s.output, x); ExtendBags(r.stack, x);
    case Nesting => ExtendNesting(s.output, x); ExtendNesting(r.stack, x);
    case Flushing => ExtendNesting(s.output, x); ExtendNesting(r.stack, x);
  }

  lemma {:induction false} PopToOpenAccounts(s: Shunt, done: seq<string>, a: Aspect)
    requires Accounts(s, done, a)
    ensures Accounts(PopToOpen(s), done, a)
    decreases |s.stack|
  {
    if |s.stack| > 0 && Last(s.stack) != "(" {
      MoveTopAccounts(s, done, a);
      PopToOpenAccounts(MoveTop(s), done, a);
    }
  }

  lemma {:induction false} PopOutrankingAccounts(s: Shunt, t: string, done: seq<string>, a: Aspect)
    requires t in Operators && Accounts(s, done, a)
    ensures Accounts(PopOutranking(s, t), done, a)
    decreases |s.stack|
  {
    if |s.stack| > 0 && Outranks(Last(s.stack), t) {
      MoveTopAccounts(s, done, a);
      PopOutrankingAccounts(MoveTop(s), t, done, a);
    }
  }

  lemma OperandAccounts(s: Shunt, t: string, done: seq<string>, a: Aspect)
    requires Accounts(s, done, a) && IsAlnum(t)
    ensures Accounts(Shunt(s.output + [t], s.stack), done + [t], a)
  {
    assert t != "(" && t != ")" by {
      SymbolToken('(');
      SymbolToken(')');
    }
    match a
    case InOrder => ExtendOperands(done, t); ExtendOperands(s.output, t);
    case Counted => ExtendBags(done, t); ExtendBags(s.output, t);
    case Nesting => ExtendNesting(done, t); ExtendNesting(s.output, t);
    case Flushing => ExtendNesting(done, t); ExtendNesting(s.output, t);
  }

  lemma OpenAccounts(s: Shunt, done: seq<string>, a: Aspect)
    requires Accounts(s, done, a) && a != Flushing
    ensures Accounts(Shunt(s.output, s.stack + ["("]), done + ["("], a)
  {
    SymbolToken('(');
    assert "(" !in Operators;
    assert StackShape(s.stack + ["("]);
    match a
    case InOrder => ExtendOperands(done, "(");
    case Counted => ExtendBags(done, "("); ExtendBags(s.stack, "(");
    case Nesting => ExtendNesting(done, "("); ExtendNesting(s.stack, "(");
  }

  lemma CloseAccounts(s: Shunt, done: seq<string>, a: Aspect)
    requires Accounts(s, done, a) && a != Flushing
    ensures Accounts(Close(s), done + [")"], a)
  {
    SymbolToken(')');
    assert ")" !in Operators && ")" != "(";
    PopToOpenAccounts(s, done, a);
    var r := PopToOpen(s);
    if |r.stack| > 0 {
      var rest := r.stack[..|r.stack| - 1];
      assert r.stack == rest + ["("];
      assert StackShape(rest);
      match a
      case InOrder => ExtendOperands(done, ")");
      case Counted => ExtendBags(done, ")"); ExtendBags(rest, "(");
      case Nesting => ExtendNesting(done, ")"); ExtendNesting(rest, "(");
    } else {
      match a
      case InOrder => ExtendOperands(done, ")");
      case Counted => ExtendBags(done, ")");
      case Nesting => ExtendNesting(done, ")");
    }
  }

  lemma OperatorAccounts(s: Shunt, t: string, rule: Rule, done: seq<string>, a: Aspect)
    requires Accounts(s, done, a) && t in Operators && !IsAlnum(t) && t != "(" && t != ")"
    ensures Accounts(Push(s, t, rule), done + [t], a)
  {
    var r := if rule == PrefixUnary && IsUnary(t) then s else PopOutranking(s, t);
    assert Push(s, t, rule) == Shunt(r.output, r.stack + [t]);
    if !(rule == PrefixUnary && IsUnary(t)) {
      PopOutrankingAccounts(s, t, done, a);
    }
    PushAccounts(r, t, done, a);
  }

  /** The operator itself goes on the stack. */
  lemma PushAccounts(r: Shunt, t: string, done: seq<string>, a: Aspect)
    requires Accounts(r, done, a) && t in Operators && !IsAlnum(t) && t != "(" && t != ")"
    ensures Accounts(Shunt(r.output, r.stack + [t]), done + [t], a)
  {
    assert StackShape(r.stack + [t]);
    match a
    case InOrder => ExtendOperands(done, t);
    case Counted => ExtendBags(done, t); ExtendBags(r.stack, t);
    case Nesting => ExtendNesting(done, t); ExtendNesting(r.stack, t);
    case Flushing => ExtendNesting(done, t); ExtendNesting(r.stack, t);
  }

  lemma OtherAccounts(s: Shunt, t: string, done: seq<string>, a: Aspect)
    requires Accounts(s, done, a) && !IsAlnum(t) && t !in Operators && t != "(" && t != ")"
    ensures Accounts(s, done + [t], a)
  {
    match a
    case InOrder => ExtendOperands(done, t);
    case Counted => ExtendBags(done, t);
    case Nesting => ExtendNesting(done, t);
    case Flushing => ExtendNesting(done, t);
  }

  lemma StepAccounts(s: Shunt, t: string, rule: Rule, done: seq<string>, a: Aspect)
    requires Accounts(s, done, a) && a != Flushing
    ensures Accounts(Step(s, t, rule), done + [t], a)
  {
    if IsAlnum(t) {
      OperandAccounts(s, t, done, a);
    } else if t == "(" {
      OpenAccounts(s, done, a);
    } else if t == ")" {
      CloseAccounts(s, done, a);
    } else if t in Operators {
      OperatorAccounts(s, t, rule, done, a);
    } else {
      OtherAccounts(s, t, done, a);
    }
  }

  lemma {:induction false} RunAccounts(s: Shunt, tokens: seq<string>, rule: Rule, done: seq<string>, a: Aspect)
    requires Accounts(s, done, a) && a != Flushing
    ensures Accounts(Run(s, tokens, rule), done + tokens, a)
    decreases |tokens|
  {
    if |tokens| == 0 {
      assert done + tokens == done;
    } else {
      StepAccounts(s, tokens[0], rule, done, a);
      RunAccounts(Step(s, tokens[0], rule), tokens[1..], rule, done + [tokens[0]], a);
      assert done + [tokens[0]] + tokens[1..] == done + tokens;
    }
  }

  lemma {:induction false} FlushAccounts(s: Shunt, done: seq<string>, a: Aspect)
    requires Accounts(s, done, a) && a != Nesting
    ensures Accounts(Shunt(Flush(s), []), done, a)
    decreases |s.stack|
  {
    if |s.stack| > 0 {
      MoveTopAccounts(s, done, a);
      FlushAccounts(MoveTop(s), done, a);
    }
  }

  lemma PostfixAccounts(tokens: seq<string>, rule: Rule, a: Aspect)
    requires a != Nesting
    ensures Accounts(Shunt(Postfix(tokens, rule), []), tokens, a)
  {
    var s0 := Shunt([], []);
    var b := if a == Flushing then Nesting else a;
    assert Accounts(s0, [], b);
    RunAccounts(s0, tokens, rule, [], b);
    assert [] + tokens == tokens;
    FlushAccounts(Run(s0, tokens, rule), tokens, a);
  }

  /**
   * The conversion drops only parentheses: the operands come out in their
   * input order, no ")" comes out, the operands and operators come out
   * exactly once each, and a "(" comes out only when it was never closed.
   */
  lemma PostfixKeeps(tokens: seq<string>, rule: Rule)
    ensures forall k :: 0 <= k < |Postfix(tokens, rule)| ==> Postfix(tokens, rule)[k] != ")"
    ensures Operands(Postfix(tokens, rule)) == Operands(tokens)
    ensures Bag(Postfix(tokens, rule)) == PassedBag(tokens)
    ensures Opens(Postfix(tokens, rule)) == Depth(tokens)
  {
    PostfixAccounts(tokens, rule, InOrder);
    PostfixAccounts(tokens, rule, Counted);
    PostfixAccounts(tokens, rule, Flushing);
  }

  /** An operand is a token of the list that `isalnum` accepts. */
  lemma {:induction false} OperandsMembers(ts: seq<string>)
    ensures forall x :: x in Operands(ts) <==> x in ts && IsAlnum(x)
    decreases |ts|
  {
    if |ts| > 0 {
      var init := ts[..|ts| - 1];
      OperandsMembers(init);
      assert ts == init + [ts[|ts| - 1]];
    }
  }

  // ---------------------------------------------------------------------
  // the stack machine

  /** `variable_values.get(token, 0)`. */
  function Lookup(env: map<string, int>, name: string): int
  {
    if name in env then env[name] else 0
  }

  /** The gate a binary operator token names. */
  function Apply(t: string, a: int, b: int): int
  {
    if t in {"&", "AND"} then And(a, b) else if t in {"|", "OR"} then Or(a, b) else Xor(a, b)
  }

  /** One pass of evaluate_postfix's loop; an operator short of operands does nothing. */
  function EvalStep(stack: seq<int>, t: string, env: map<string, int>): seq<int>
  {
    if IsAlpha(t) then stack + [Lookup(env, t)]
    else if IsDigits(t) then stack + [DigitsToNat(t)]
    else if t in Operators then
      if IsUnary(t) then
        (if |stack| > 0 then stack[..|stack| - 1] + [Not(stack[|stack| - 1])] else stack)
      else if |stack| >= 2 then stack[..|stack| - 2] + [Apply(t, stack[|stack| - 2], stack[|stack| - 1])]
      else stack
    else stack
  }

  function EvalRun(stack: seq<int>, postfix: seq<string>, env: map<string, int>): seq<int>
    decreases |postfix|
  {
    if |postfix| == 0 then stack else EvalRun(EvalStep(stack, postfix[0], env), postfix[1..], env)
  }

  /** evaluate_postfix: the bottom of the final stack, or 0 when it is empty. */
  function EvalPostfix(postfix: seq<string>, env: map<string, int>): int
  {
    var st := EvalRun([], postfix, env);
    if |st| > 0 then st[0] else 0
  }

  lemma {:induction false} EvalRunAppend(stack: seq<int>, a: seq<string>, b: seq<string>, env: map<string, int>)
    ensures EvalRun(stack, a + b, env) == EvalRun(EvalRun(stack, a, env), b, env)
    decreases |a|
  {
    if |a| == 0 {
      assert a + b == b;
    } else {
      var next := EvalStep(stack, a[0], env);
      assert (a + b)[0] == a[0] && (a + b)[1..] == a[1..] + b;
      calc {
        EvalRun(stack, a + b, env);
        EvalRun(next, a[1..] + b, env);
        { EvalRunAppend(next, a[1..], b, env); }
        EvalRun(EvalRun(next, a[1..], env), b, env);
      }
    }
  }

  /** evaluate_postfix. */
  method EvaluatePostfix(postfix: seq<string>, env: map<string, int>) returns (result: int)
    ensures result == EvalPostfix(postfix, env)
  {
    var stack: seq<int> := [];
    for i := 0 to |postfix|
      invariant EvalRun(stack, postfix[i..], env) == EvalRun([], postfix, env)
    {
      assert postfix[i..][1..] == postfix[i + 1..];
      var token := postfix[i];
      if IsAlpha(token) {
        stack := stack + [Lookup(env, token)];
      } else if IsDigits(token) {
        stack := stack + [DigitsToNat(token)];
      } else if token in Operators {
        if IsUnary(token) {
          if |stack| > 0 {
            var operand := stack[|stack| - 1];
            stack := stack[..|stack| - 1] + [Not(operand)];
          }
        } else if |stack| >= 2 {
          var b := stack[|stack| - 1];
          var a := stack[|stack| - 2];
          stack := stack[..|stack| - 2] + [Apply(token, a, b)];
        }
      }
    }
    assert postfix[|postfix|..] == [];
    result := if |stack| > 0 then stack[0] else 0;
  }

  /** evaluate: tokenize, convert, evaluate. */
  function Evaluation(expression: string, env: map<string, int>): int
  {
    EvalPostfix(Postfix(Tokenize(expression), AsWritten), env)
  }

  method Evaluate(expression: string, env: map<string, int>) returns (result: int)
    ensures result == Evaluation(expression, env)
  {
    var postfix := InfixToPostfix(Tokenize(expression));
    result := EvaluatePostfix(postfix, env);
  }

  // ---------------------------------------------------------------------
  // the result is a bit

  /** Every variable is bound to 0 or 1. */
  predicate BitValues(env: map<string, int>)
  {
    forall x :: x in env ==> IsBit(env[x])
  }

  /** Every number token among the tokens is "0" or "1" (up to leading zeros). */
  predicate BitConstants(ts: seq<string>)
  {
    forall k :: 0 <= k < |ts| ==> IsDigits(ts[k]) ==> DigitsToNat(ts[k]) <= 1
  }

  /** With bit variables and bit constants the stack holds only bits. */
  lemma {:induction false} EvalRunBits(stack: seq<int>, postfix: seq<string>, env: map<string, int>)
    requires IsBits(stack) && BitValues(env) && BitConstants(postfix)
    ensures IsBits(EvalRun(stack, postfix, env))
    decreases |postfix|
  {
    if |postfix| > 0 {
      var t := postfix[0];
      var next := EvalStep(stack, t, env);
      assert IsDigits(t) ==> DigitsToNat(t) <= 1;
      assert IsBits(next);
      assert BitConstants(postfix[1..]) by {
        forall k | 0 <= k < |postfix[1..]| && IsDigits(postfix[1..][k])
          ensures DigitsToNat(postfix[1..][k]) <= 1
        {
          assert postfix[1..][k] == postfix[k + 1];
        }
      }
      EvalRunBits(next, postfix[1..], env);
    }
  }

  /** evaluate_postfix then returns 0 or 1. */
  lemma EvalPostfixIsBit(postfix: seq<string>, env: map<string, int>)
    requires BitValues(env) && BitConstants(postfix)
    ensures IsBit(EvalPostfix(postfix, env))
  {
    EvalRunBits([], postfix, env);
  }

  /** A constant other than 0 and 1 comes back unchanged: "5" evaluates to 5. */
  lemma EvalPostfixFive(env: map<string, int>)
    ensures EvalPostfix(["5"], env) == 5
  {
    assert "5"[0] == '5' && !IsAlphaChar('5');
    assert IsDigits("5") && !IsAlpha("5");
    assert DigitsToNat("5") == 10 * DigitsToNat("") + DigitValue('5') == 5;
    assert EvalRun([], ["5"], env) == EvalRun([5], [], env) == [5];
  }

  /** Number tokens reach the postfix form only from the expression. */
  lemma PostfixBitConstants(tokens: seq<string>, rule: Rule)
    requires BitConstants(tokens)
    ensures BitConstants(Postfix(tokens, rule))
  {
    var p := Postfix(tokens, rule);
    PostfixKeeps(tokens, rule);
    OperandsMembers(tokens);
    OperandsMembers(p);
    forall k | 0 <= k < |p| && IsDigits(p[k])
      ensures DigitsToNat(p[k]) <= 1
    {
      assert p[k] in p;
      assert IsAlnum(p[k]);
      var j :| 0 <= j < |tokens| && tokens[j] == p[k];
    }
  }

  /** evaluate returns 0 or 1 for bit variables when the expression's constants are bits. */
  lemma EvaluationIsBit(expression: string, env: map<string, int>)
    requires BitValues(env) && BitConstants(Tokenize(expression))
    ensures IsBit(Evaluation(expression, env))
  {
    PostfixBitConstants(Tokenize(expression), AsWritten);
    EvalPostfixIsBit(Postfix(Tokenize(expression), AsWritten), env);
  }

  // ---------------------------------------------------------------------
  // expression trees: the reference the two halves are proved against

  datatype BinOp = AndOp | OrOp | XorOp

  function Symbol(op: BinOp): (t: string)
    ensures t in Operators && !IsUnary(t) && !IsAlnum(t) && !IsAlpha(t) && !IsDigits(t)
  {
    match op
    case AndOp => SymbolToken('&'); "&"
    case OrOp => SymbolToken('|'); "|"
    case XorOp => SymbolToken('^'); "^"
  }

  datatype Expr = Var(name: string) | Num(n: nat) | Neg(arg: Expr) | Bin(op: BinOp, left: Expr, right: Expr)

  /** Variables are alphabetic words; a number is rendered as its decimal digits. */
  predicate WellFormed(e: Expr)
  {
    match e
    case Var(name) => IsAlpha(name)
    case Num(_) => true
    case Neg(x) => WellFormed(x)
    case Bin(_, l, r) => WellFormed(l) && WellFormed(r)
  }

  function Eval(e: Expr, env: map<string, int>): int
  {
    match e
    case Var(name) => Lookup(env, name)
    case Num(n) => n
    case Neg(x) => Not(Eval(x, env))
    case Bin(op, l, r) => Apply(Symbol(op), Eval(l, env), Eval(r, env))
  }

  /** The postfix form of a tree: operands, then the operator. */
  function Compile(e: Expr): seq<string>
  {
    match e
    case Var(name) => [name]
    case Num(n) => [NatToString(n)]
    case Neg(x) => Compile(x) + ["!"]
    case Bin(op, l, r) => Compile(l) + Compile(r) + [Symbol(op)]
  }

  /** How tightly the root of a tree binds: an operand 4, NOT 3, AND 2, OR and XOR 1. */
  function Level(e: Expr): nat
  {
    match e
    case Var(_) => 4
    case Num(_) => 4
    case Neg(_) => 3
    case Bin(op, _, _) => Precedence(Symbol(op))
  }

  /**
   * The infix rendering with as few parentheses as the operator table allows:
   * a left operand is parenthesised when it binds looser than its operator,
   * a right operand when it binds no tighter (the operators associate to the
   * left), the operand of NOT when it is a binary operation.
   */
  function Infix(e: Expr): seq<string>
    decreases e, 0
  {
    match e
    case Var(name) => [name]
    case Num(n) => [NatToString(n)]
    case Neg(x) => ["!"] + Wrapped(x, x.Bin?)
    case Bin(op, l, r) => Wrapped(l, Level(l) < Level(e)) + [Symbol(op)] + Wrapped(r, Level(r) <= Level(e))
  }

  function Wrapped(e: Expr, paren: bool): seq<string>
    decreases e, 1
  {
    if paren then ["("] + Infix(e) + [")"] else Infix(e)
  }

  /** No NOT directly applied to a NOT. */
  predicate NoDoubleNegation(e: Expr)
  {
    match e
    case Var(_) => true
    case Num(_) => true
    case Neg(x) => !x.Neg? && NoDoubleNegation(x)
    case Bin(_, l, r) => NoDoubleNegation(l) && NoDoubleNegation(r)
  }

  // postfix evaluation of a compiled tree

  lemma NumToken(n: nat)
    ensures IsDigits(NatToString(n)) && !IsAlpha(NatToString(n)) && IsAlnum(NatToString(n))
    ensures DigitsToNat(NatToString(n)) == n
  {
    DigitsOfNatToString(n);
    var s := NatToString(n);
    assert !IsAlphaChar(s[0]);
  }

  lemma {:induction false} EvalCompiled(e: Expr, stack: seq<int>, env: map<string, int>)
    requires WellFormed(e)
    ensures EvalRun(stack, Compile(e), env) == stack + [Eval(e, env)]
  {
    match e
    case Var(name) =>
    case Num(n) =>
      NumToken(n);
    case Neg(x) =>
      SymbolToken('!');
      EvalCompiled(x, stack, env);
      EvalRunAppend(stack, Compile(x), ["!"], env);
      assert (stack + [Eval(x, env)])[..|stack|] == stack;
    case Bin(op, l, r) =>
      EvalCompiled(l, stack, env);
      EvalCompiled(r, stack + [Eval(l, env)], env);
      EvalRunAppend(stack, Compile(l), Compile(r), env);
      EvalRunAppend(stack, Compile(l) + Compile(r), [Symbol(op)], env);
      var st := stack + [Eval(l, env)] + [Eval(r, env)];
      assert st[..|st| - 2] == stack;
  }

  /** The stack machine computes the value of every compiled tree. */
  lemma EvalPostfixCompiled(e: Expr, env: map<string, int>)
    requires WellFormed(e)
    ensures EvalPostfix(Compile(e), env) == Eval(e, env)
  {
    EvalCompiled(e, [], env);
  }

  // the conversion of a rendered tree

  /** What the rendering of a tree leaves on the output, and on the stack. */
  function Core(e: Expr): seq<string>
    decreases e, 0
  {
    match e
    case Var(name) => [name]
    case Num(n) => [NatToString(n)]
    case Neg(x) => CoreW(x, x.Bin?)
    case Bin(op, l, r) => Compile(l) + CoreW(r, Level(r) <= Level(e))
  }

  function CoreW(e: Expr, paren: bool): seq<string>
    decreases e, 1
  {
    if paren then Compile(e) else Core(e)
  }

  function Pending(e: Expr): seq<string>
    decreases e, 0
  {
    match e
    case Var(_) => []
    case Num(_) => []
    case Neg(x) => ["!"] + PendingW(x, x.Bin?)
    case Bin(op, l, r) => [Symbol(op)] + PendingW(r, Level(r) <= Level(e))
  }

  function PendingW(e: Expr, paren: bool): seq<string>
    decreases e, 1
  {
    if paren then [] else Pending(e)
  }

  /** The output part and the pending operators together spell the postfix form. */
  lemma {:induction false} CorePending(e: Expr, paren: bool)
    ensures CoreW(e, paren) + Reverse(PendingW(e, paren)) == Compile(e)
  {
    if paren {
      assert CoreW(e, paren) + Reverse([]) == Compile(e);
    } else {
      match e
      case Var(_) =>
      case Num(_) =>
      case Neg(x) =>
        ReverseCons("!", PendingW(x, x.Bin?));
        CorePending(x, x.Bin?);
      case Bin(op, l, r) =>
        ReverseCons(Symbol(op), PendingW(r, Level(r) <= Level(e)));
        CorePending(r, Level(r) <= Level(e));
    }
  }

  /** Every pending operator binds at least as tightly as the root. */
  lemma {:induction false} PendingRank(e: Expr, paren: bool)
    ensures forall k :: 0 <= k < |PendingW(e, paren)| ==>
      PendingW(e, paren)[k] in Operators && Precedence(PendingW(e, paren)[k]) >= Level(e)
  {
    if !paren {
      match e
      case Var(_) =>
      case Num(_) =>
      case Neg(x) =>
        PendingRank(x, x.Bin?);
        RankCons("!", PendingW(x, x.Bin?), Level(e));
      case Bin(op, l, r) =>
        PendingRank(r, Level(r) <= Level(e));
        RankCons(Symbol(op), PendingW(r, Level(r) <= Level(e)), Level(e));
    }
  }

  lemma RankCons(t: string, p: seq<string>, level: nat)
    requires t in Operators && Precedence(t) >= level
    requires forall k :: 0 <= k < |p| ==> p[k] in Operators && Precedence(p[k]) >= level
    ensures forall k :: 0 <= k < |[t] + p| ==> ([t] + p)[k] in Operators && Precedence(([t] + p)[k]) >= level
  {
    forall k | 0 <= k < |[t] + p|
      ensures ([t] + p)[k] in Operators && Precedence(([t] + p)[k]) >= level
    {
      if k > 0 {
        assert ([t] + p)[k] == p[k - 1];
      }
    }
  }

  /** One outranking operator moves from the stack to the output. */
  lemma PopOne(o: seq<string>, st: seq<string>, x: string, t: string)
    requires t in Operators && Outranks(x, t)
    ensures PopOutranking(Shunt(o, st + [x]), t) == PopOutranking(Shunt(o + [x], st), t)
  {
    assert MoveTop(Shunt(o, st + [x])) == Shunt(o + [x], st);
  }

  /** The pending operators move out in reverse when an operator of no higher precedence arrives. */
  lemma {:induction false} PopPending(o: seq<string>, st: seq<string>, pend: seq<string>, t: string)
    requires t in Operators
    requires forall k :: 0 <= k < |pend| ==> pend[k] in Operators && Precedence(pend[k]) >= Precedence(t)
    requires |st| == 0 || !Outranks(Last(st), t)
    ensures PopOutranking(Shunt(o, st + pend), t) == Shunt(o + Reverse(pend), st)
    decreases |pend|
  {
    if |pend| == 0 {
      assert st + pend == st;
    } else {
      var x := pend[|pend| - 1];
      var p := pend[..|pend| - 1];
      assert st + pend == (st + p) + [x];
      assert x != "(";
      assert forall k :: 0 <= k < |p| ==> p[k] == pend[k];
      PopOne(o, st + p, x, t);
      PopPending(o + [x], st, p, t);
      ReverseLast(pend);
      assert Reverse(pend) == [x] + Reverse(p);
      Associative(o, [x], Reverse(p));
    }
  }

  /** One operator above the "(" moves to the output. */
  lemma CloseOne(o: seq<string>, st: seq<string>, x: string)
    requires x != "("
    ensures PopToOpen(Shunt(o, st + [x])) == PopToOpen(Shunt(o + [x], st))
  {
    assert MoveTop(Shunt(o, st + [x])) == Shunt(o + [x], st);
  }

  /** ... and all of them move out when ")" arrives. */
  lemma {:induction false} ClosePending(o: seq<string>, bs: seq<string>, pend: seq<string>)
    requires |bs| > 0 && Last(bs) == "("
    requires forall k :: 0 <= k < |pend| ==> pend[k] != "("
    ensures PopToOpen(Shunt(o, bs + pend)) == Shunt(o + Reverse(pend), bs)
    decreases |pend|
  {
    if |pend| == 0 {
      assert bs + pend == bs;
    } else {
      var x := pend[|pend| - 1];
      var p := pend[..|pend| - 1];
      assert bs + pend == (bs + p) + [x];
      assert forall k :: 0 <= k < |p| ==> p[k] == pend[k];
      CloseOne(o, bs + p, x);
      ClosePending(o + [x], bs, p);
      ReverseLast(pend);
      assert Reverse(pend) == [x] + Reverse(p);
      Associative(o, [x], Reverse(p));
    }
  }

  // single tokens

  lemma RunOne(s: Shunt, t: string, rule: Rule)
    ensures Run(s, [t], rule) == Step(s, t, rule)
  {
    assert [t][1..] == [];
  }

  lemma OpenStep(s: Shunt, rule: Rule)
    ensures Step(s, "(", rule) == Shunt(s.output, s.stack + ["("])
  {
    SymbolToken('(');
  }

  lemma CloseStep(o: seq<string>, st: seq<string>, pend: seq<string>, rule: Rule)
    requires forall k :: 0 <= k < |pend| ==> pend[k] != "("
    ensures Step(Shunt(o, st + ["("] + pend), ")", rule) == Shunt(o + Reverse(pend), st)
  {
    var s := Shunt(o, st + ["("] + pend);
    SymbolToken(')');
    assert Step(s, ")", rule) == Close(s);
    var bs := st + ["("];
    ClosePending(o, bs, pend);
    assert bs[..|bs| - 1] == st;
  }

  lemma OperatorStep(s: Shunt, t: string, rule: Rule)
    requires t in Operators && !IsAlnum(t) && t != "(" && t != ")"
    ensures Step(s, t, rule) == Push(s, t, rule)
  {
  }

  // under which contexts a subtree is converted on its own

  /** The stack top does not take part in the subtree's conversion. */
  predicate Quiet(st: seq<string>, e: Expr, rule: Rule)
  {
    |st| == 0 || (rule == PrefixUnary && e.Neg?)
    || !(Last(st) in Operators && Precedence(Last(st)) >= Level(e))
  }

  /** The trees the rule converts faithfully: every tree for the corrected rule. */
  predicate Convertible(e: Expr, rule: Rule)
  {
    WellFormed(e) && (rule == AsWritten ==> NoDoubleNegation(e))
  }

  /** Tokens between "(" and ")" that leave operators above the "(" have them all moved out. */
  lemma WrapRun(s: Shunt, body: seq<string>, core: seq<string>, pend: seq<string>, rule: Rule)
    requires Run(Shunt(s.output, s.stack + ["("]), body, rule) == Shunt(s.output + core, s.stack + ["("] + pend)
    requires forall k :: 0 <= k < |pend| ==> pend[k] != "("
    ensures Run(s, ["("] + body + [")"], rule) == Shunt(s.output + core + Reverse(pend), s.stack)
  {
    var s2 := Shunt(s.output + core, s.stack + ["("] + pend);
    OpenStep(s, rule);
    RunOne(s, "(", rule);
    RunAppend(s, ["("], body, rule);
    RunAppend(s, ["("] + body, [")"], rule);
    RunOne(s2, ")", rule);
    CloseStep(s.output + core, s.stack, pend, rule);
  }

  /** No "(" is ever left pending. */
  lemma {:induction false} PendingNoOpen(e: Expr, paren: bool)
    ensures forall k :: 0 <= k < |PendingW(e, paren)| ==> PendingW(e, paren)[k] != "("
  {
    if !paren {
      match e
      case Var(_) =>
      case Num(_) =>
      case Neg(x) =>
        PendingNoOpen(x, x.Bin?);
        NotOpen("!", PendingW(x, x.Bin?));
      case Bin(op, l, r) =>
        PendingNoOpen(r, Level(r) <= Level(e));
        NotOpen(Symbol(op), PendingW(r, Level(r) <= Level(e)));
    }
  }

  lemma NotOpen(t: string, p: seq<string>)
    requires t in Operators && forall k :: 0 <= k < |p| ==> p[k] != "("
    ensures forall k :: 0 <= k < |[t] + p| ==> ([t] + p)[k] != "("
  {
    assert t != "(";
    forall k | 0 <= k < |[t] + p|
      ensures ([t] + p)[k] != "("
    {
      if k > 0 {
        assert ([t] + p)[k] == p[k - 1];
      }
    }
  }

  /** A parenthesised subtree leaves its whole postfix form on the output. */
  lemma Parenthesised(e: Expr, s: Shunt, rule: Rule)
    requires Run(Shunt(s.output, s.stack + ["("]), Infix(e), rule)
          == Shunt(s.output + Core(e), s.stack + ["("] + Pending(e))
    ensures Run(s, ["("] + Infix(e) + [")"], rule) == Shunt(s.output + Compile(e), s.stack)
  {
    PendingNoOpen(e, false);
    assert PendingW(e, false) == Pending(e);
    WrapRun(s, Infix(e), Core(e), Pending(e), rule);
    CorePending(e, false);
    assert s.output + Core(e) + Reverse(Pending(e)) == s.output + Compile(e);
  }

  /** A subtree in operand position, parenthesised or not. */
  lemma {:induction false} ConvertOperand(e: Expr, s: Shunt, rule: Rule, paren: bool)
    requires Convertible(e, rule) && (paren || Quiet(s.stack, e, rule))
    ensures Run(s, Wrapped(e, paren), rule) == Shunt(s.output + CoreW(e, paren), s.stack + PendingW(e, paren))
    decreases e, 2
  {
    if paren {
      ConvertInfix(e, Shunt(s.output, s.stack + ["("]), rule);
      Parenthesised(e, s, rule);
      assert s.stack + [] == s.stack;
    } else {
      ConvertInfix(e, s, rule);
    }
  }

  lemma {:induction false} ConvertInfix(e: Expr, s: Shunt, rule: Rule)
    requires Convertible(e, rule) && Quiet(s.stack, e, rule)
    ensures Run(s, Infix(e), rule) == Shunt(s.output + Core(e), s.stack + Pending(e))
    decreases e, 1
  {
    match e
    case Var(name) =>
      assert IsAlnum(name);
      RunOne(s, name, rule);
      assert s.stack + [] == s.stack;
    case Num(n) =>
      NumToken(n);
      RunOne(s, NatToString(n), rule);
      assert s.stack + [] == s.stack;
    case Neg(x) =>
      ConvertNeg(e, s, rule);
    case Bin(op, l, r) =>
      ConvertBin(e, s, rule);
  }

  lemma {:induction false} ConvertNeg(e: Expr, s: Shunt, rule: Rule)
    requires e.Neg? && Convertible(e, rule) && Quiet(s.stack, e, rule)
    ensures Run(s, Infix(e), rule) == Shunt(s.output + Core(e), s.stack + Pending(e))
    decreases e, 0
  {
    var x := e.arg;
    SymbolToken('!');
    OperatorStep(s, "!", rule);
    var s1 := Shunt(s.output, s.stack + ["!"]);
    assert Push(s, "!", rule) == s1 by {
      assert |s.stack| > 0 && !(rule == PrefixUnary) ==> !Outranks(Last(s.stack), "!");
    }
    RunOne(s, "!", rule);
    ConvertOperand(x, s1, rule, x.Bin?);
    RunAppend(s, ["!"], Wrapped(x, x.Bin?), rule);
    assert s1.stack + PendingW(x, x.Bin?) == s.stack + Pending(e);
  }

  /** A binary operator arriving above operators that outrank it moves them out, then goes on the stack. */
  lemma OperatorAfter(o: seq<string>, st: seq<string>, pend: seq<string>, t: string, rule: Rule)
    requires t in Operators && !IsUnary(t) && !IsAlnum(t) && t != "(" && t != ")"
    requires forall k :: 0 <= k < |pend| ==> pend[k] in Operators && Precedence(pend[k]) >= Precedence(t)
    requires |st| == 0 || !Outranks(Last(st), t)
    ensures Step(Shunt(o, st + pend), t, rule) == Shunt(o + Reverse(pend), st + [t])
  {
    OperatorStep(Shunt(o, st + pend), t, rule);
    PopPending(o, st, pend, t);
  }

  /** The operator of a binary node pops what its left operand left pending. */
  lemma ReadOperator(e: Expr, s: Shunt, rule: Rule)
    requires e.Bin? && Quiet(s.stack, e, rule)
    ensures Step(Shunt(s.output + CoreW(e.left, Level(e.left) < Level(e)), s.stack + PendingW(e.left, Level(e.left) < Level(e))), Symbol(e.op), rule)
         == Shunt(s.output + Compile(e.left), s.stack + [Symbol(e.op)])
  {
    var l, t, lp := e.left, Symbol(e.op), Level(e.left) < Level(e);
    var core, pend := CoreW(l, lp), PendingW(l, lp);
    PendingRank(l, lp);
    assert Level(e) == Precedence(t);
    OperatorAfter(s.output + core, s.stack, pend, t, rule);
    CorePending(l, lp);
    assert s.output + core + Reverse(pend) == s.output + Compile(l);
  }

  /** Runs compose around a single token. */
  lemma ChainRun(s: Shunt, a: seq<string>, t: string, b: seq<string>, sa: Shunt, c: seq<string>, cb: seq<string>, pb: seq<string>, rule: Rule)
    requires Run(s, a, rule) == sa && Step(sa, t, rule) == Shunt(s.output + c, s.stack + [t])
    requires Run(Shunt(s.output + c, s.stack + [t]), b, rule) == Shunt(s.output + c + cb, s.stack + [t] + pb)
    ensures Run(s, a + [t] + b, rule) == Shunt(s.output + (c + cb), s.stack + ([t] + pb))
  {
    RunOne(sa, t, rule);
    RunAppend(s, a, [t], rule);
    RunAppend(s, a + [t], b, rule);
    Associative(s.output, c, cb);
    Associative(s.stack, [t], pb);
  }

  /** The operands of a binary node are converted in contexts that leave them alone. */
  lemma BinContexts(e: Expr, st: seq<string>, rule: Rule)
    requires e.Bin? && Convertible(e, rule) && Quiet(st, e, rule)
    ensures Convertible(e.left, rule) && Convertible(e.right, rule)
    ensures Level(e.left) < Level(e) || Quiet(st, e.left, rule)
    ensures Level(e.right) <= Level(e) || Quiet(st + [Symbol(e.op)], e.right, rule)
  {
    assert Last(st + [Symbol(e.op)]) == Symbol(e.op);
  }

  lemma {:induction false} ConvertBin(e: Expr, s: Shunt, rule: Rule)
    requires e.Bin? && Convertible(e, rule) && Quiet(s.stack, e, rule)
    ensures Run(s, Infix(e), rule) == Shunt(s.output + Core(e), s.stack + Pending(e))
    decreases e, 0
  {
    var l, r, t := e.left, e.right, Symbol(e.op);
    var lp, rp := Level(l) < Level(e), Level(r) <= Level(e);
    BinContexts(e, s.stack, rule);
    ConvertOperand(l, s, rule, lp);
    ReadOperator(e, s, rule);
    var so := Shunt(s.output + Compile(l), s.stack + [t]);
    ConvertOperand(r, so, rule, rp);
    ChainRun(s, Wrapped(l, lp), t, Wrapped(r, rp), Shunt(s.output + CoreW(l, lp), s.stack + PendingW(l, lp)),
      Compile(l), CoreW(r, rp), PendingW(r, rp), rule);
  }

  lemma {:induction false} FlushAll(o: seq<string>, st: seq<string>)
    ensures Flush(Shunt(o, st)) == o + Reverse(st)
    decreases |st|
  {
    if |st| > 0 {
      FlushAll(o + [Last(st)], st[..|st| - 1]);
      ReverseLast(st);
      Associative(o, [Last(st)], Reverse(st[..|st| - 1]));
    }
  }

  /** The conversion turns the rendering of a tree into the tree's postfix form. */
  lemma PostfixOfInfix(e: Expr, rule: Rule)
    requires Convertible(e, rule)
    ensures Postfix(Infix(e), rule) == Compile(e)
  {
    ConvertInfix(e, Shunt([], []), rule);
    assert [] + Core(e) == Core(e) && [] + Pending(e) == Pending(e);
    FlushAll(Core(e), Pending(e));
    CorePending(e, false);
  }

  /** Evaluating the rendering of a tree gives the tree's value. */
  lemma EvaluatesLikeTree(e: Expr, rule: Rule, env: map<string, int>)
    requires Convertible(e, rule)
    ensures EvalPostfix(Postfix(Infix(e), rule), env) == Eval(e, env)
  {
    PostfixOfInfix(e, rule);
    EvalPostfixCompiled(e, env);
  }

  // ---------------------------------------------------------------------
  // two conversions worked out

  /** The example in infix_to_postfix's documentation: A & B | C gives A B & C |. */
  lemma DocumentedExample(a: string, b: string, c: string)
    requires IsAlpha(a) && IsAlpha(b) && IsAlpha(c)
    ensures Postfix([a, "&", b, "|", c], AsWritten) == [a, b, "&", c, "|"]
  {
    var l := Bin(AndOp, Var(a), Var(b));
    var e := Bin(OrOp, l, Var(c));
    assert Level(l) == 2 && Level(e) == 1;
    assert Wrapped(Var(a), false) == [a];
    assert Wrapped(Var(b), false) == [b];
    assert Wrapped(Var(c), false) == [c];
    assert Wrapped(l, false) == Infix(l) == [a] + ["&"] + [b];
    assert Infix(e) == Infix(l) + ["|"] + [c];
    assert Compile(l) == [a] + [b] + ["&"];
    assert Compile(e) == Compile(l) + [c] + ["|"];
    assert [a] + ["&"] + [b] + ["|"] + [c] == [a, "&", b, "|", c];
    assert [a] + [b] + ["&"] + [c] + ["|"] == [a, b, "&", c, "|"];
    PostfixOfInfix(e, AsWritten);
  }

  /** The first NOT goes on the empty stack... */
  lemma FirstNegation()
    ensures Run(Shunt([], []), ["!"], AsWritten) == Shunt([], ["!"])
  {
    SymbolToken('!');
    OperatorStep(Shunt([], []), "!", AsWritten);
    RunOne(Shunt([], []), "!", AsWritten);
  }

  /** ... and the second pops it, being of the same precedence. */
  lemma SecondNegation()
    ensures Run(Shunt([], ["!"]), ["!"], AsWritten) == Shunt(["!"], ["!"])
  {
    SymbolToken('!');
    OperatorStep(Shunt([], ["!"]), "!", AsWritten);
    PopOne([], [], "!", "!");
    assert [] + ["!"] == ["!"];
    RunOne(Shunt([], ["!"]), "!", AsWritten);
  }

  /** The conversion of NOT NOT A as written. */
  lemma DoubleNegationPostfix(a: string)
    requires IsAlpha(a)
    ensures Postfix(["!", "!", a], AsWritten) == ["!", a, "!"]
  {
    var s0, s1, s2 := Shunt([], []), Shunt([], ["!"]), Shunt(["!"], ["!"]);
    FirstNegation();
    SecondNegation();
    RunOne(s2, a, AsWritten);
    assert Step(s2, a, AsWritten) == Shunt(["!", a], ["!"]);
    RunAppend(s0, ["!"], ["!"], AsWritten);
    RunAppend(s0, ["!", "!"], [a], AsWritten);
    assert ["!"] + ["!"] == ["!", "!"] && ["!", "!"] + [a] == ["!", "!", a];
    assert Flush(Shunt(["!", a], ["!"])) == ["!", a, "!"] by {
      assert MoveTop(Shunt(["!", a], ["!"])) == Shunt(["!", a, "!"], []);
    }
  }

  /** ... and its evaluation: NOT A. */
  lemma DoubleNegationValue(a: string, env: map<string, int>)
    requires IsAlpha(a)
    ensures EvalPostfix(["!", a, "!"], env) == Not(Lookup(env, a))
  {
    SymbolToken('!');
    var v := Lookup(env, a);
    assert EvalStep([], "!", env) == [];
    assert EvalStep([], a, env) == [v];
    assert EvalStep([v], "!", env) == [Not(v)];
    var p := ["!", a, "!"];
    assert p[1..] == [a, "!"] && p[1..][1..] == ["!"];
    assert EvalRun([v], ["!"], env) == EvalRun([Not(v)], [], env) == [Not(v)];
    assert EvalRun([], [a, "!"], env) == [Not(v)];
    assert EvalRun([], p, env) == [Not(v)];
  }

  /**
   * NOT NOT A as written: the second NOT pops the first before A is read, so
   * the first NOT meets an empty stack and is dropped, and the value is NOT A
   * where the tree's value is A's bit.
   */
  lemma DoubleNegationAsWritten(a: string, env: map<string, int>)
    requires IsAlpha(a)
    ensures EvalPostfix(Postfix(Infix(Neg(Neg(Var(a)))), AsWritten), env) != Eval(Neg(Neg(Var(a))), env)
  {
    assert Wrapped(Var(a), false) == [a];
    assert Wrapped(Neg(Var(a)), false) == Infix(Neg(Var(a))) == ["!", a];
    assert Infix(Neg(Neg(Var(a)))) == ["!", "!", a];
    DoubleNegationPostfix(a);
    DoubleNegationValue(a, env);
    var w := Not(Lookup(env, a));
    assert Eval(Var(a), env) == Lookup(env, a);
    assert Eval(Neg(Var(a)), env) == w;
    assert Eval(Neg(Neg(Var(a))), env) == Not(w);
  }

  /** With the corrected rule NOT NOT A evaluates to A's bit. */
  lemma DoubleNegationCorrected(a: string, env: map<string, int>)
    requires IsAlpha(a)
    ensures EvalPostfix(Postfix(Infix(Neg(Neg(Var(a)))), PrefixUnary), env) == Eval(Neg(Neg(Var(a))), env)
  {
    EvaluatesLikeTree(Neg(Neg(Var(a))), PrefixUnary, env);
  }
}
