/**
 * The evaluator: a tree-walking interpreter over real numbers with a map of
 * variable bindings, a step-by-step variant that records one step for every
 * variable, unary and binary node in post-order, and the fully parenthesised
 * printer used to describe subtrees.
 *
 * JavaScript numbers are modelled as exact reals; the formatting of a number
 * inside a string (a template literal or `toString`) is the parameter `show`.
 */
module Evaluator {
  import opened Wrappers
  import opened Types

  /** Variable bindings: the `variables` record. */
  type Bindings = map<string, real>

  // ---------------------------------------------------------------------
  // Operators

  /** Unary `+` is the identity and unary `-` negates. */
  function UnaryValue(sign: UnOp, a: real): (v: real)
    ensures sign == Pos ==> v == a
    ensures sign == Neg ==> v + a == 0.0
  {
    match sign
    case Pos => a
    case Neg => -a
  }

  /** A binary operator on two values; dividing by zero is the only failure. */
  function BinaryValue(op: BinOp, a: real, b: real): (r: Result<real, Error>)
    ensures r.Err? <==> op == Div && b == 0.0
    ensures r.Err? ==> r.error == DivisionByZero
    ensures r.Ok? && op == Div ==> r.value * b == a
    ensures r.Ok? && op == Sub ==> r.value + b == a
    ensures op == Add ==> r.Ok? && r.value - b == a
    ensures op == Mul && b != 0.0 ==> r.Ok? && r.value / b == a
  {
    match op
    case Add => Ok(a + b)
    case Sub => Ok(a - b)
    case Mul =>
      ProductOverFactor(a, b);
      Ok(a * b)
    case Div =>
      if b == 0.0 then Err(DivisionByZero)
      else
        QuotientTimesDivisor(a, b);
        Ok(a / b)
  }

  lemma ProductOverFactor(a: real, b: real)
    ensures b != 0.0 ==> (a * b) / b == a
  {
  }

  lemma QuotientTimesDivisor(a: real, b: real)
    requires b != 0.0
    ensures (a / b) * b == a
  {
  }

  // ---------------------------------------------------------------------
  // evaluate

  /**
   * The value of a tree. Operands are evaluated left before right, so when
   * both sides fail the left error is the one reported, and a division by
   * zero is detected only once both sides have values.
   */
  function Evaluate(n: Node, vars: Bindings): (r: Result<real, Error>)
    ensures r.Err? ==> r.error.UndefinedVariable? || r.error == DivisionByZero
  {
    match n
    case Number(v) => Ok(v)
    case Variable(x) => if x in vars then Ok(vars[x]) else Err(UndefinedVariable(x))
    case UnaryOp(sign, e) =>
      var a :- Evaluate(e, vars);
      Ok(UnaryValue(sign, a))
    case BinaryOp(op, l, r) =>
      var a :- Evaluate(l, vars);
      var b :- Evaluate(r, vars);
      BinaryValue(op, a, b)
  }

  /** The names of the variables a tree mentions. */
  function FreeVariables(n: Node): set<string> {
    match n
    case Number(_) => {}
    case Variable(x) => {x}
    case UnaryOp(_, e) => FreeVariables(e)
    case BinaryOp(_, l, r) => FreeVariables(l) + FreeVariables(r)
  }

  /** Whether the tree holds a division at all. */
  predicate Divides(n: Node) {
    match n
    case Number(_) => false
    case Variable(_) => false
    case UnaryOp(_, e) => Divides(e)
    case BinaryOp(op, l, r) => op == Div || Divides(l) || Divides(r)
  }

  /**
   * Evaluation succeeds only when every variable is bound; with every
   * variable bound it can fail only by dividing by zero, and with no
   * division at all it cannot fail.
   */
  lemma {:induction false} BoundVariables(n: Node, vars: Bindings)
    ensures Evaluate(n, vars).Ok? ==> FreeVariables(n) <= vars.Keys
    ensures FreeVariables(n) <= vars.Keys ==> Evaluate(n, vars).Ok? || Evaluate(n, vars) == Err(DivisionByZero)
    ensures FreeVariables(n) <= vars.Keys && !Divides(n) ==> Evaluate(n, vars).Ok?
  {
    match n
    case Number(_) =>
    case Variable(_) =>
    case UnaryOp(_, e) =>
      BoundVariables(e, vars);
    case BinaryOp(_, l, r) =>
      BoundVariables(l, vars);
      BoundVariables(r, vars);
  }

  /**
   * Every failure has a cause in the tree: an undefined variable that the
   * tree mentions and the bindings lack, or a division the tree holds.
   */
  lemma {:induction false} FailureCause(n: Node, vars: Bindings)
    requires Evaluate(n, vars).Err?
    ensures Evaluate(n, vars).error.UndefinedVariable? || Evaluate(n, vars).error == DivisionByZero
    ensures Evaluate(n, vars).error.UndefinedVariable? ==>
              Evaluate(n, vars).error.undefinedName in FreeVariables(n) &&
              Evaluate(n, vars).error.undefinedName !in vars
    ensures Evaluate(n, vars).error == DivisionByZero ==> Divides(n)
  {
    match n
    case Number(_) =>
    case Variable(_) =>
    case UnaryOp(_, e) =>
      FailureCause(e, vars);
    case BinaryOp(_, l, r) =>
      if Evaluate(l, vars).Err? {
        FailureCause(l, vars);
      } else if Evaluate(r, vars).Err? {
        FailureCause(r, vars);
      }
  }

  /** When both operands fail, the left operand's error is reported. */
  lemma LeftErrorFirst(op: BinOp, l: Node, r: Node, vars: Bindings)
    requires Evaluate(l, vars).Err? && Evaluate(r, vars).Err?
    ensures Evaluate(BinaryOp(op, l, r), vars) == Err(Evaluate(l, vars).error)
  {
  }

  /**
   * Division fails with "Division by zero" exactly when both operands have
   * values and the right one is 0; otherwise the quotient is returned.
   */
  lemma DivisionByZeroExactly(l: Node, r: Node, vars: Bindings)
    requires Evaluate(l, vars).Ok? && Evaluate(r, vars).Ok?
    ensures Evaluate(BinaryOp(Div, l, r), vars) == Err(DivisionByZero) <==> Evaluate(r, vars).value == 0.0
    ensures Evaluate(r, vars).value != 0.0 ==>
              Evaluate(BinaryOp(Div, l, r), vars) == Ok(Evaluate(l, vars).value / Evaluate(r, vars).value)
  {
  }

  /** Only the bindings of the variables a tree mentions matter. */
  lemma {:induction false} OnlyFreeVariablesMatter(n: Node, v1: Bindings, v2: Bindings)
    requires forall x :: x in FreeVariables(n) ==> (x in v1 <==> x in v2)
    requires forall x :: x in FreeVariables(n) && x in v1 ==> v1[x] == v2[x]
    ensures Evaluate(n, v1) == Evaluate(n, v2)
  {
    match n
    case Number(_) =>
    case Variable(x) =>
      assert x in FreeVariables(n);
    case UnaryOp(_, e) =>
      OnlyFreeVariablesMatter(e, v1, v2);
    case BinaryOp(_, l, r) =>
      OnlyFreeVariablesMatter(l, v1, v2);
      OnlyFreeVariablesMatter(r, v1, v2);
  }

  // ---------------------------------------------------------------------
  // evaluateStepByStep

  /**
   * The step a variable, unary or binary node records once its operands have
   * values: the substitution, the sign applied to the operand's value, or the
   * operator between the two operands' values.
   */
  function StepOf(m: Node, vars: Bindings, show: real -> string): (s: Step)
    requires !m.Number? && Evaluate(m, vars).Ok?
    ensures s.result == Evaluate(m, vars).value
  {
    match m
    case Variable(x) =>
      Step(x + " → " + show(vars[x]), SubstituteVariable(x, vars[x]), vars[x])
    case UnaryOp(sign, e) =>
      var a := Evaluate(e, vars).value;
      Step(UnSymbol(sign) + show(a), ApplyUnary(sign), UnaryValue(sign, a))
    case BinaryOp(op, l, r) =>
      var a := Evaluate(l, vars).value;
      var b := Evaluate(r, vars).value;
      Step(show(a) + " " + BinSymbol(op) + " " + show(b), ApplyBinary(op, a, b), BinaryValue(op, a, b).value)
  }

  /** The steps recorded for a tree that evaluates: the operands' steps, then the node's own. */
  function Trace(n: Node, vars: Bindings, show: real -> string): seq<Step>
    requires Evaluate(n, vars).Ok?
  {
    match n
    case Number(_) => []
    case Variable(_) => [StepOf(n, vars, show)]
    case UnaryOp(_, e) => Trace(e, vars, show) + [StepOf(n, vars, show)]
    case BinaryOp(_, l, r) => Trace(l, vars, show) + Trace(r, vars, show) + [StepOf(n, vars, show)]
  }

  /** A binary node's steps unfolded one level. */
  lemma TraceOfBinary(op: BinOp, l: Node, r: Node, vars: Bindings, show: real -> string)
    requires Evaluate(BinaryOp(op, l, r), vars).Ok?
    ensures Trace(BinaryOp(op, l, r), vars, show)
         == Trace(l, vars, show) + Trace(r, vars, show) + [StepOf(BinaryOp(op, l, r), vars, show)]
  {
  }

  /** The subtrees that are not numbers, children before parents and left before right. */
  function PostOrder(n: Node): seq<Node> {
    match n
    case Number(_) => []
    case Variable(_) => [n]
    case UnaryOp(_, e) => PostOrder(e) + [n]
    case BinaryOp(_, l, r) => PostOrder(l) + PostOrder(r) + [n]
  }

  /** How many nodes are variables or operators. */
  function Operations(n: Node): nat {
    match n
    case Number(_) => 0
    case Variable(_) => 1
    case UnaryOp(_, e) => 1 + Operations(e)
    case BinaryOp(_, l, r) => 1 + Operations(l) + Operations(r)
  }

  /** Every subtree of a tree that evaluates evaluates too. */
  lemma {:induction false} SubtreesEvaluate(n: Node, vars: Bindings)
    requires Evaluate(n, vars).Ok?
    ensures forall k :: 0 <= k < |PostOrder(n)| ==> Evaluate(PostOrder(n)[k], vars).Ok? && !PostOrder(n)[k].Number?
  {
    match n
    case Number(_) =>
    case Variable(_) =>
    case UnaryOp(_, e) =>
      SubtreesEvaluate(e, vars);
    case BinaryOp(_, l, r) =>
      SubtreesEvaluate(l, vars);
      SubtreesEvaluate(r, vars);
  }

  /** One step per variable, unary and binary node, and none per number. */
  lemma {:induction false} TraceLength(n: Node, vars: Bindings, show: real -> string)
    requires Evaluate(n, vars).Ok?
    ensures |Trace(n, vars, show)| == Operations(n)
  {
    match n
    case Number(_) =>
    case Variable(_) =>
    case UnaryOp(_, e) =>
      TraceLength(e, vars, show);
    case BinaryOp(_, l, r) =>
      TraceLength(l, vars, show);
      TraceLength(r, vars, show);
  }

  /** The k-th step is the own step of the k-th non-number node in post-order. */
  lemma {:induction false} TraceInPostOrder(n: Node, vars: Bindings, show: real -> string)
    requires Evaluate(n, vars).Ok?
    ensures |Trace(n, vars, show)| == |PostOrder(n)|
    ensures forall k :: 0 <= k < |PostOrder(n)| ==>
              !PostOrder(n)[k].Number? && Evaluate(PostOrder(n)[k], vars).Ok? &&
              Trace(n, vars, show)[k] == StepOf(PostOrder(n)[k], vars, show)
  {
    SubtreesEvaluate(n, vars);
    match n
    case Number(_) =>
    case Variable(_) =>
    case UnaryOp(_, e) =>
      TraceInPostOrder(e, vars, show);
    case BinaryOp(_, l, r) =>
      TraceInPostOrder(l, vars, show);
      TraceInPostOrder(r, vars, show);
      var tl, tr := Trace(l, vars, show), Trace(r, vars, show);
      var pl, pr := PostOrder(l), PostOrder(r);
      forall k | 0 <= k < |PostOrder(n)|
        ensures Trace(n, vars, show)[k] == StepOf(PostOrder(n)[k], vars, show)
      {
        if k < |pl| {
          assert Trace(n, vars, show)[k] == tl[k] && PostOrder(n)[k] == pl[k];
        } else if k < |pl| + |pr| {
          assert Trace(n, vars, show)[k] == tr[k - |pl|] && PostOrder(n)[k] == pr[k - |pl|];
        }
      }
  }

  /**
   * A number alone records no step; any other tree records at least one, and
   * its last step's result is the value `evaluate` returns.
   */
  lemma LastStep(n: Node, vars: Bindings, show: real -> string)
    requires Evaluate(n, vars).Ok?
    ensures Trace(n, vars, show) == [] <==> n.Number?
    ensures !n.Number? ==> Trace(n, vars, show)[|Trace(n, vars, show)| - 1].result == Evaluate(n, vars).value
  {
  }

  /**
   * The closure state of `evaluateStepByStep`: the bindings and the array
   * `steps` that the inner `evaluateWithSteps` pushes onto.
   */
  class StepRecorder {
    const variables: Bindings
    const show: real -> string
    var steps: seq<Step>

    constructor (variables: Bindings, show: real -> string)
      ensures this.variables == variables && this.show == show && steps == []
    {
      this.variables := variables;
      this.show := show;
      steps := [];
    }

    /**
     * Evaluates `n` as `evaluate` does, pushing the steps of its subtrees in
     * post-order. Steps already recorded are never removed, even on failure.
     */
    method EvaluateWithSteps(n: Node) returns (r: Result<real, Error>)
      modifies this
      decreases n, 1
      ensures r == Evaluate(n, variables)
      ensures old(steps) <= steps
      ensures r.Ok? ==> steps == old(steps) + Trace(n, variables, show)
    {
      match n
      case Number(v) =>
        r := Ok(v);
      case Variable(x) =>
        r := Substitute(x);
      case UnaryOp(sign, e) =>
        r := EvaluateUnary(sign, e);
      case BinaryOp(op, left, right) =>
        r := EvaluateBinary(op, left, right);
    }

    /** A variable: its binding, recorded as a substitution step, or an error when unbound. */
    method Substitute(x: string) returns (r: Result<real, Error>)
      modifies this
      ensures r == Evaluate(Variable(x), variables)
      ensures old(steps) <= steps
      ensures r.Ok? ==> steps == old(steps) + Trace(Variable(x), variables, show)
    {
      if x !in variables {
        return Err(UndefinedVariable(x));
      }
      var value := variables[x];
      steps := steps + [Step(x + " → " + show(value), SubstituteVariable(x, value), value)];
      r := Ok(value);
    }

    /** A signed operand: the operand's steps, then the sign's own step. */
    method EvaluateUnary(sign: UnOp, e: Node) returns (r: Result<real, Error>)
      modifies this
      decreases UnaryOp(sign, e), 0
      ensures r == Evaluate(UnaryOp(sign, e), variables)
      ensures old(steps) <= steps
      ensures r.Ok? ==> steps == old(steps) + Trace(UnaryOp(sign, e), variables, show)
    {
      var operand := EvaluateWithSteps(e);
      if operand.Err? {
        return Err(operand.error);
      }
      var a := operand.value;
      var result := if sign == Pos then a else -a;
      steps := steps + [Step(UnSymbol(sign) + show(a), ApplyUnary(sign), result)];
      r := Ok(result);
    }

    /** A binary operation: the left steps, the right steps, then the operator's own step. */
    method EvaluateBinary(op: BinOp, left: Node, right: Node) returns (r: Result<real, Error>)
      modifies this
      decreases BinaryOp(op, left, right), 0
      ensures r == Evaluate(BinaryOp(op, left, right), variables)
      ensures old(steps) <= steps
      ensures r.Ok? ==> steps == old(steps) + Trace(BinaryOp(op, left, right), variables, show)
    {
      var lv := EvaluateWithSteps(left);
      if lv.Err? {
        return Err(lv.error);
      }
      var rv := EvaluateWithSteps(right);
      if rv.Err? {
        return Err(rv.error);
      }
      var a, b := lv.value, rv.value;
      var value := BinaryValue(op, a, b);
      if value.Err? {
        return Err(value.error);
      }
      var result := value.value;
      var step := Step(show(a) + " " + BinSymbol(op) + " " + show(b), ApplyBinary(op, a, b), result);
      ghost var tl, tr := Trace(left, variables, show), Trace(right, variables, show);
      assert step == StepOf(BinaryOp(op, left, right), variables, show);
      TraceOfBinary(op, left, right, variables, show);
      Regroup(old(steps), tl, tr);
      Regroup(old(steps), tl + tr, [step]);
      steps := steps + [step];
      r := Ok(result);
    }
  }

  /**
   * `evaluateStepByStep`: fails exactly when `evaluate` fails, with the same
   * error, and otherwise returns the trace of the whole tree.
   */
  method EvaluateStepByStep(n: Node, vars: Bindings, show: real -> string) returns (r: Result<seq<Step>, Error>)
    ensures r.Ok? <==> Evaluate(n, vars).Ok?
    ensures r.Err? ==> r.error == Evaluate(n, vars).error
    ensures r.Ok? ==> r.value == Trace(n, vars, show)
  {
    var recorder := new StepRecorder(vars, show);
    var v := recorder.EvaluateWithSteps(n);
    if v.Err? {
      return Err(v.error);
    }
    return Ok(recorder.steps);
  }

  // ---------------------------------------------------------------------
  // nodeToString

  /** Fully parenthesised text: every binary node as `(l op r)`, signs as prefixes. */
  function NodeToString(n: Node, show: real -> string): (s: string)
    ensures n.BinaryOp? ==> |s| >= 2 && s[0] == '(' && s[|s| - 1] == ')'
  {
    match n
    case Number(v) => show(v)
    case Variable(x) => x
    case UnaryOp(sign, e) => UnSymbol(sign) + NodeToString(e, show)
    case BinaryOp(op, l, r) => "(" + NodeToString(l, show) + " " + BinSymbol(op) + " " + NodeToString(r, show) + ")"
  }
}
