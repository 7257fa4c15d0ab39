/**
 * CircuitSimulator.simulate_step_by_step (logic_designer.py): the postfix
 * evaluation again, recording a trace entry for every variable loaded and
 * every gate applied, between a Parse entry and a Final entry.
 */
module CircuitSimulation {
  import opened Gates
  import opened Strings
  import opened Tokenizer
  import opened ExpressionParser

  /**
   * One entry of the execution trace. The 'step' label `Step {n}` is the
   * number n; the description text is implied by the constructor.
   */
  datatype TraceEntry =
    | Parse(infix: seq<string>, postfix: seq<string>)
    | Load(step: nat, variable: string, value: int, stack: seq<int>)
    | Negation(step: nat, operand: int, result: int, stack: seq<int>)
    | Binary(step: nat, operation: string, a: int, b: int, result: int, stack: seq<int>)
    | Constant(step: nat, value: int, stack: seq<int>)
    | Final(output: int)

  /** The name a binary operator token is reported under. */
  function OpName(t: string): (name: string)
    ensures name in {"AND", "OR", "XOR"}
    ensures name == "AND" <==> t in {"&", "AND"}
    ensures name == "OR" <==> t in {"|", "OR"}
    ensures name == "XOR" <==> t !in {"&", "AND", "|", "OR"}
  {
    if t in {"&", "AND"} then "AND" else if t in {"|", "OR"} then "OR" else "XOR"
  }

  /** The evaluation stack, the trace so far and `step_num`. */
  datatype Sim = Sim(stack: seq<int>, trace: seq<TraceEntry>, next: nat)

  /**
   * One pass of the loop over the postfix tokens. The source has no branch
   * for number tokens; `constants` adds the one evaluate_postfix has.
   */
  function SimStep(s: Sim, t: string, env: map<string, int>, constants: bool): Sim
  {
    if IsAlpha(t) then
      var value := Lookup(env, t);
      var stack := s.stack + [value];
      Sim(stack, s.trace + [Load(s.next, t, value, stack)], s.next + 1)
    else if constants && IsDigits(t) then
      var value := DigitsToNat(t);
      var stack := s.stack + [value];
      Sim(stack, s.trace + [Constant(s.next, value, stack)], s.next + 1)
    else if t in Operators then
      if IsUnary(t) then
        if |s.stack| > 0 then
          var operand := s.stack[|s.stack| - 1];
          var stack := s.stack[..|s.stack| - 1] + [Not(operand)];
          Sim(stack, s.trace + [Negation(s.next, operand, Not(operand), stack)], s.next + 1)
        else s
      else if |s.stack| >= 2 then
        var b, a := s.stack[|s.stack| - 1], s.stack[|s.stack| - 2];
        var stack := s.stack[..|s.stack| - 2] + [Apply(t, a, b)];
        Sim(stack, s.trace + [Binary(s.next, OpName(t), a, b, Apply(t, a, b), stack)], s.next + 1)
      else s
    else s
  }

  function SimRun(s: Sim, postfix: seq<string>, env: map<string, int>, constants: bool): Sim
    decreases |postfix|
  {
    if |postfix| == 0 then s else SimRun(SimStep(s, postfix[0], env, constants), postfix[1..], env, constants)
  }

  /** `stack[0] if stack else 0`. */
  function Output(stack: seq<int>): int
  {
    if |stack| > 0 then stack[0] else 0
  }

  /** The trace simulate_step_by_step records for an expression. */
  function Trace(expression: string, env: map<string, int>, constants: bool): seq<TraceEntry>
  {
    var tokens := Tokenize(expression);
    var postfix := Postfix(tokens, AsWritten);
    var r := SimRun(Sim([], [Parse(tokens, postfix)], 1), postfix, env, constants);
    r.trace + [Final(Output(r.stack))]
  }

  class CircuitSimulator {
    var trace: seq<TraceEntry>

    constructor ()
      ensures trace == []
    {
      trace := [];
    }

    /** simulate_step_by_step: rebuilds the trace and returns it. */
    method SimulateStepByStep(expression: string, env: map<string, int>) returns (result: seq<TraceEntry>)
      modifies this
      ensures trace == Trace(expression, env, false) && result == trace
    {
      trace := [];
      var tokens := Tokenize(expression);
      var postfix := InfixToPostfix(tokens);
      trace := trace + [Parse(tokens, postfix)];
      assert trace == [Parse(tokens, postfix)] && postfix[0..] == postfix;
      var stack: seq<int> := [];
      var stepNum := 1;
      for i := 0 to |postfix|
        invariant SimRun(Sim(stack, trace, stepNum), postfix[i..], env, false)
               == SimRun(Sim([], [Parse(tokens, postfix)], 1), postfix, env, false)
      {
        assert postfix[i..][1..] == postfix[i + 1..];
        stack, stepNum := TraceToken(postfix[i], stack, stepNum, env);
      }
      assert postfix[|postfix|..] == [];
      var finalResult := if |stack| > 0 then stack[0] else 0;
      trace := trace + [Final(finalResult)];
      result := trace;
    }

    /** One pass of the loop: the stack and step number move on, the trace grows. */
    method TraceToken(token: string, stack: seq<int>, stepNum: nat, env: map<string, int>) returns (stack': seq<int>, stepNum': nat)
      modifies this
      ensures Sim(stack', trace, stepNum') == SimStep(Sim(stack, old(trace), stepNum), token, env, false)
    {
      stack', stepNum' := stack, stepNum;
      if IsAlpha(token) {
        var value := Lookup(env, token);
        stack' := stack' + [value];
        trace := trace + [Load(stepNum, token, value, stack')];
        stepNum' := stepNum + 1;
      } else if token in Operators {
        if IsUnary(token) {
          if |stack'| > 0 {
            var operand := stack'[|stack'| - 1];
            var result := Not(operand);
            stack' := stack'[..|stack'| - 1] + [result];
            trace := trace + [Negation(stepNum, operand, result, stack')];
            stepNum' := stepNum + 1;
          }
        } else if |stack'| >= 2 {
          var b := stack'[|stack'| - 1];
          var a := stack'[|stack'| - 2];
          var result := Apply(token, a, b);
          stack' := stack'[..|stack'| - 2] + [result];
          trace := trace + [Binary(stepNum, OpName(token), a, b, result, stack')];
          stepNum' := stepNum + 1;
        }
      }
    }
  }

  // ---------------------------------------------------------------------
  // the shape of the trace

  predicate IsStep(e: TraceEntry)
  {
    e.Load? || e.Negation? || e.Binary? || e.Constant?
  }

  /** Parse first, then steps numbered 1, 2, ... in order, each holding the stack it left. */
  predicate Numbered(s: Sim)
  {
    |s.trace| > 0 && s.trace[0].Parse? && s.next == |s.trace|
    && forall k :: 1 <= k < |s.trace| ==> IsStep(s.trace[k]) && s.trace[k].step == k
  }

  lemma StepNumbered(s: Sim, t: string, env: map<string, int>, constants: bool)
    requires Numbered(s)
    ensures Numbered(SimStep(s, t, env, constants))
    ensures var r := SimStep(s, t, env, constants);
      |r.trace| >= |s.trace| && r.trace[..|s.trace|] == s.trace
      && (|r.trace| == |s.trace| ==> r == s)
      && (|r.trace| > |s.trace| ==> |r.trace| == |s.trace| + 1 && r.trace[|s.trace|].stack == r.stack)
  {
    var r := SimStep(s, t, env, constants);
    if |r.trace| > |s.trace| {
      assert r.trace == s.trace + [r.trace[|s.trace|]];
    }
  }

  lemma {:induction false} RunNumbered(s: Sim, postfix: seq<string>, env: map<string, int>, constants: bool)
    requires Numbered(s)
    ensures Numbered(SimRun(s, postfix, env, constants))
    ensures var r := SimRun(s, postfix, env, constants);
      |r.trace| >= |s.trace| && r.trace[..|s.trace|] == s.trace
      && (|r.trace| == |s.trace| ==> r.stack == s.stack)
      && (|r.trace| > |s.trace| ==> r.trace[|r.trace| - 1].stack == r.stack)
    decreases |postfix|
  {
    if |postfix| > 0 {
      var s1 := SimStep(s, postfix[0], env, constants);
      StepNumbered(s, postfix[0], env, constants);
      RunNumbered(s1, postfix[1..], env, constants);
      var r := SimRun(s1, postfix[1..], env, constants);
      assert r.trace[..|s.trace|] == r.trace[..|s1.trace|][..|s.trace|];
    }
  }

  /**
   * The trace opens with the tokens and their postfix form and closes with
   * the output; in between come steps numbered 1, 2, ..., the last of them
   * holding the stack whose bottom is the output.
   */
  lemma TraceShape(expression: string, env: map<string, int>, constants: bool)
    ensures var tr := Trace(expression, env, constants); var tokens := Tokenize(expression);
      |tr| >= 2
      && tr[0] == Parse(tokens, Postfix(tokens, AsWritten))
      && tr[|tr| - 1].Final?
      && (forall k :: 1 <= k < |tr| - 1 ==> IsStep(tr[k]) && tr[k].step == k)
      && (|tr| > 2 ==> Output(tr[|tr| - 2].stack) == tr[|tr| - 1].output)
  {
    var tokens := Tokenize(expression);
    var postfix := Postfix(tokens, AsWritten);
    var s := Sim([], [Parse(tokens, postfix)], 1);
    RunNumbered(s, postfix, env, constants);
    var r := SimRun(s, postfix, env, constants);
    assert r.trace[..1] == [Parse(tokens, postfix)];
  }

  // ---------------------------------------------------------------------
  // agreement with evaluate

  predicate NoConstants(ts: seq<string>)
  {
    forall k :: 0 <= k < |ts| ==> !IsDigits(ts[k])
  }

  /** The simulator's stack is the evaluator's, unless a number token is skipped. */
  lemma {:induction false} SimStacks(s: Sim, postfix: seq<string>, env: map<string, int>, constants: bool)
    requires constants || NoConstants(postfix)
    ensures SimRun(s, postfix, env, constants).stack == EvalRun(s.stack, postfix, env)
    decreases |postfix|
  {
    if |postfix| > 0 {
      assert SimStep(s, postfix[0], env, constants).stack == EvalStep(s.stack, postfix[0], env);
      if !constants {
        assert NoConstants(postfix[1..]) by {
          forall k | 0 <= k < |postfix[1..]|
            ensures !IsDigits(postfix[1..][k])
          {
            assert postfix[1..][k] == postfix[k + 1];
          }
        }
      }
      SimStacks(SimStep(s, postfix[0], env, constants), postfix[1..], env, constants);
    }
  }

  /** Number tokens reach the postfix form only from the expression. */
  lemma PostfixConstants(tokens: seq<string>, rule: Rule)
    requires NoConstants(tokens)
    ensures NoConstants(Postfix(tokens, rule))
  {
    var p := Postfix(tokens, rule);
    PostfixKeeps(tokens, rule);
    OperandsMembers(tokens);
    OperandsMembers(p);
    forall k | 0 <= k < |p|
      ensures !IsDigits(p[k])
    {
      assert p[k] in p;
      assert IsDigits(p[k]) ==> IsAlnum(p[k]);
    }
  }

  /** Without number tokens the simulated output is evaluate's result. */
  lemma TraceAgrees(expression: string, env: map<string, int>)
    requires NoConstants(Tokenize(expression))
    ensures Trace(expression, env, false)[|Trace(expression, env, false)| - 1] == Final(Evaluation(expression, env))
  {
    var tokens := Tokenize(expression);
    PostfixConstants(tokens, AsWritten);
    SimStacks(Sim([], [Parse(tokens, Postfix(tokens, AsWritten))], 1), Postfix(tokens, AsWritten), env, false);
  }

  /** With the number branch added, the output always is evaluate's result. */
  lemma TraceAgreesCorrected(expression: string, env: map<string, int>)
    ensures Trace(expression, env, true)[|Trace(expression, env, true)| - 1] == Final(Evaluation(expression, env))
  {
    var tokens := Tokenize(expression);
    SimStacks(Sim([], [Parse(tokens, Postfix(tokens, AsWritten))], 1), Postfix(tokens, AsWritten), env, true);
  }

  /** A AND 0 with A = 1: the simulator skips the 0, leaves the AND unapplied and reports 1. */
  lemma SkipsConstants(a: string, env: map<string, int>)
    requires IsAlpha(a) && Lookup(env, a) == 1
    ensures var e := Bin(AndOp, Var(a), Num(0)); var p := Postfix(Infix(e), AsWritten);
      Output(SimRun(Sim([], [], 1), p, env, false).stack) == 1 && Eval(e, env) == 0
  {
    var e := Bin(AndOp, Var(a), Num(0));
    PostfixOfInfix(e, AsWritten);
    SymbolToken('&');
    NumToken(0);
    assert NatToString(0) == "0";
    assert Compile(Var(a)) == [a] && Compile(Num(0)) == ["0"];
    var p := [a, "0", "&"];
    assert Compile(e) == p;
    var s0 := Sim([], [], 1);
    var s1 := SimStep(s0, a, env, false);
    assert s1.stack == [1];
    assert "0" !in Operators;
    assert SimStep(s1, "0", env, false) == s1;
    assert SimStep(s1, "&", env, false) == s1;
    assert SimRun(s1, [], env, false) == s1;
    assert SimRun(s1, ["&"], env, false) == s1;
    assert SimRun(s1, ["0", "&"], env, false) == s1;
    assert p[1..] == ["0", "&"];
    assert SimRun(s0, p, env, false) == s1;
    assert Eval(e, env) == And(1, 0);
  }
}
