/** The tree-walking evaluator of src/evaluator.ts. Scopes live in an arena
    of frames (module Environments) threaded through evaluation together with
    an allocation counter; the counter numbers the values the source creates
    with `new` and later compares by identity. Evaluation is bounded by fuel,
    one unit per nested expression, because guest programs may recurse for
    ever. */
module Evaluator {

  import opened Wrappers
  import Tokens
  import opened Ast
  import opened Objects
  import opened Environments

  datatype Heap = Heap(frames: seq<Frame>, nextId: nat)

  /** Why evaluation stopped without a value: the fuel ran out, or an integer
      division had a quotient that is not an integer (the source then
      produces a fractional or infinite float, which the model leaves out). */
  datatype Halt = OutOfFuel | FractionalQuotient

  datatype Evaluated<T> = Done(value: T, heap: Heap) | Halted(reason: Halt)

  /** The heap only ever gains frames and allocation numbers, and a frame
      keeps its enclosing frame for ever (only its store is rewritten). */
  predicate Grows(h: Heap, h2: Heap)
  {
    |h.frames| <= |h2.frames| && h.nextId <= h2.nextId &&
    forall i :: 0 <= i < |h.frames| ==> h2.frames[i].outer == h.frames[i].outer
  }

  /** A result that ends the enclosing evaluation: no value, or an error. */
  predicate Stops(r: Evaluated<Object>)
  {
    r.Halted? || r.value.Error?
  }

  // ---------------------------------------------------------------- helpers

  /** `nativeBooleanToMonkeyBoolean`: one of the two shared booleans. */
  function NativeBool(b: bool): (o: Object)
    ensures o == TRUE || o == FALSE
    ensures o.Boolean? && o.boolValue == b
  {
    if b then TRUE else FALSE
  }

  /** `isTruthy`: everything except NULL and FALSE. */
  predicate IsTruthy(o: Object)
    ensures o.Integer? || o.String? || o.Function? || o.Error? ==> IsTruthy(o)
    ensures o.Boolean? ==> (IsTruthy(o) <==> o.boolValue)
    ensures o.Null? ==> !IsTruthy(o)
  {
    o != NULL && o != FALSE
  }

  /** `unwrapReturnValue`: remove one return-signal layer, if any. */
  function UnwrapReturnValue(o: Object): (r: Object)
    ensures o.ReturnValue? ==> r == o.inner
    ensures !o.ReturnValue? ==> r == o
  {
    if o.ReturnValue? then o.inner else o
  }

  /** `evalBangOperatorExpression`. */
  function EvalBang(right: Object): (r: Object)
    ensures r == NativeBool(!IsTruthy(right))
  {
    if right == TRUE then FALSE
    else if right == FALSE then TRUE
    else if right == NULL then TRUE
    else FALSE
  }

  /** `evalMinusPrefixOperatorExpression`. */
  function EvalMinus(right: Object): (r: Object)
    ensures right.Integer? ==> r.Integer? && r.intValue + right.intValue == 0
    ensures !right.Integer? ==> r.Error?
  {
    if right.Integer? then Integer(-right.intValue)
    else Error("unknown operator: -" + TypeName(right))
  }

  /** `evalPrefixExpression`. */
  function EvalPrefixExpression(operator: string, right: Object): (r: Object)
    ensures operator == "!" ==> r.Boolean? && (r.boolValue <==> !IsTruthy(right))
    ensures operator == "-" ==> (r.Error? <==> !right.Integer?)
    ensures operator != "!" && operator != "-" ==> r.Error?
  {
    if operator == "!" then EvalBang(right)
    else if operator == "-" then EvalMinus(right)
    else Error("unknown operator: " + operator + TypeName(right))
  }

  function UnknownOperator(left: Object, operator: string, right: Object): Object
  {
    Error("unknown operator: " + TypeName(left) + " " + operator + " " + TypeName(right))
  }

  /** `evalIntegerInfixExpression`. Division is kept only where the quotient
      is an integer; `None` stands for the fractional or infinite float the
      source would produce. */
  function EvalIntegerInfixExpression(operator: string, a: int, b: int): (r: Option<Object>)
    ensures r.None? <==> operator == "/" && (b == 0 || a % b != 0)
    ensures r.Some? && operator == "/" ==> r.value.Integer? && r.value.intValue * b == a
    ensures operator == "+" || operator == "-" || operator == "*" ==> r.Some? && r.value.Integer?
    ensures operator == "<" || operator == ">" || operator == "==" || operator == "!=" ==> r.Some? && r.value.Boolean?
  {
    if operator == "+" then Some(Integer(a + b))
    else if operator == "-" then Some(Integer(a - b))
    else if operator == "*" then Some(Integer(a * b))
    else if operator == "/" then
      if b != 0 && a % b == 0 then Some(Integer(a / b)) else None
    else if operator == "<" then Some(NativeBool(a < b))
    else if operator == ">" then Some(NativeBool(a > b))
    else if operator == "==" then Some(NativeBool(a == b))
    else if operator == "!=" then Some(NativeBool(a != b))
    else Some(UnknownOperator(Integer(a), operator, Integer(b)))
  }

  /** A fresh allocation number. */
  function Alloc(h: Heap): (r: (nat, Heap))
    ensures r.0 == h.nextId && r.1 == h.(nextId := h.nextId + 1)
  {
    (h.nextId, h.(nextId := h.nextId + 1))
  }

  /** `evalInfixExpression`, with `evalStringInfixExpression`: two integers
      first; then `==`/`!=` by identity; then a type mismatch; then string
      concatenation; anything else is an unknown operator. */
  function EvalInfixExpression(operator: string, left: Object, right: Object, h: Heap): (r: Evaluated<Object>)
    ensures r.Done? ==> Grows(h, r.heap) && r.heap.frames == h.frames
  {
    if left.Integer? && right.Integer? then
      match EvalIntegerInfixExpression(operator, left.intValue, right.intValue)
      case Some(v) => Done(v, h)
      case None => Halted(FractionalQuotient)
    else if operator == "==" then Done(NativeBool(left == right), h)
    else if operator == "!=" then Done(NativeBool(left != right), h)
    else if TypeName(left) != TypeName(right) then
      Done(Error("type mismatch: " + TypeName(left) + " " + operator + " " + TypeName(right)), h)
    else if left.String? && right.String? then
      if operator == "+" then
        var (id, h2) := Alloc(h);
        Done(String(id, left.text + right.text), h2)
      else Done(UnknownOperator(left, operator, right), h)
    else Done(UnknownOperator(left, operator, right), h)
  }

  /** `evalIdentifier`: the binding seen from `env`, or an error. */
  function EvalIdentifier(name: Identifier, env: nat, h: Heap): (r: Object)
    ensures Lookup(h.frames, env, name.value).Some? ==> r == Lookup(h.frames, env, name.value).value
    ensures Lookup(h.frames, env, name.value).None? ==> r == Error("identifier not found: " + name.value)
  {
    match Lookup(h.frames, env, name.value)
    case Some(v) => v
    case None => Error("identifier not found: " + name.value)
  }

  /** The argument for parameter `i`, or `undefined` when the call passed fewer. */
  function Argument(args: seq<Object>, i: nat): Option<Object>
  {
    if i < |args| then Some(args[i]) else None
  }

  /** The loop of `extendFunctionEnv`: bind each parameter in order in frame
      `env`, so a repeated name keeps its last argument. */
  function BindParameters(frames: seq<Frame>, env: nat, params: seq<Identifier>, args: seq<Object>): (r: seq<Frame>)
    requires env < |frames|
    decreases |params|
    ensures |r| == |frames| && r[env].outer == frames[env].outer
    ensures forall i :: 0 <= i < |frames| && i != env ==> r[i] == frames[i]
  {
    if params == [] then frames
    else
      var n := |params| - 1;
      Bind(BindParameters(frames, env, params[..n], args), env, params[n].value, Argument(args, n))
  }

  /** `extendFunctionEnv`: a new frame after all others, enclosed by the
      function's captured scope, holding the parameters. */
  function ExtendedFrames(f: Object, args: seq<Object>, h: Heap): (r: seq<Frame>)
    requires f.Function?
    ensures |r| == |h.frames| + 1 && r[..|h.frames|] == h.frames
    ensures forall i :: 0 <= i < |h.frames| ==> r[i] == h.frames[i]
    ensures r[|h.frames|].outer == Some(f.env)
  {
    var frames := h.frames + [Frame(map[], Some(f.env))];
    assert frames[..|h.frames|] == h.frames;
    BindParameters(frames, |h.frames|, f.parameters, args)
  }

  /** The first error among evaluated arguments, in order. */
  function FirstError(values: seq<Object>): (r: Option<Object>)
    ensures r.Some? ==> r.value.Error? && r.value in values
    ensures r.None? <==> forall i :: 0 <= i < |values| ==> !values[i].Error?
  {
    if values == [] then None
    else if values[0].Error? then Some(values[0])
    else FirstError(values[1..])
  }

  /** The error found is the first one: it is the value at some index `i`
      and no value before `i` is an error. */
  lemma {:induction false} FirstErrorIsFirst(values: seq<Object>)
    requires FirstError(values).Some?
    ensures exists i :: 0 <= i < |values| && FirstError(values).value == values[i] &&
                        forall j :: 0 <= j < i ==> !values[j].Error?
  {
    if !values[0].Error? {
      FirstErrorIsFirst(values[1..]);
      var i :| 0 <= i < |values| - 1 && FirstError(values[1..]).value == values[1..][i] &&
               forall j :: 0 <= j < i ==> !values[1..][j].Error?;
      assert FirstError(values).value == values[i + 1];
      forall j | 0 <= j < i + 1
        ensures !values[j].Error?
      {
        if j > 0 {
          assert values[j] == values[1..][j - 1];
        }
      }
    }
  }

  // ---------------------------------------------------------------- evaluation

  /** `monkeyEval` on an expression. */
  function Eval(fuel: nat, e: Expression, env: nat, h: Heap): (r: Evaluated<Object>)
    requires env < |h.frames|
    decreases fuel, 0
    ensures r.Done? ==> Grows(h, r.heap)
  {
    if fuel == 0 then Halted(OutOfFuel)
    else
      var f := fuel - 1;
      match e
      case Ident(name) => Done(EvalIdentifier(name, env, h), h)
      case IntegerLiteral(_, n) => Done(Integer(n), h)
      case BooleanLiteral(_, b) => Done(NativeBool(b), h)
      case StringLiteral(_, s) =>
        var (id, h2) := Alloc(h);
        Done(String(id, s), h2)
      case PrefixExpression(_, operator, right) =>
        var r := Eval(f, right, env, h);
        if Stops(r) then r else Done(EvalPrefixExpression(operator, r.value), r.heap)
      case InfixExpression(_, left, operator, right) =>
        var lr := Eval(f, left, env, h);
        if Stops(lr) then lr
        else
          var rr := Eval(f, right, env, lr.heap);
          if Stops(rr) then rr else EvalInfixExpression(operator, lr.value, rr.value, rr.heap)
      case IfExpression(_, condition, consequence, alternative) =>
        var c := Eval(f, condition, env, h);
        if Stops(c) then c
        else if IsTruthy(c.value) then EvalBlock(f, consequence.statements, env, c.heap, NULL)
        else if alternative.Some? then EvalBlock(f, alternative.value.statements, env, c.heap, NULL)
        else Done(NULL, c.heap)
      case FunctionLiteral(_, parameters, body) =>
        var (id, h2) := Alloc(h);
        Done(Function(id, parameters, body, env), h2)
      case CallExpression(_, callee, arguments) =>
        var fr := Eval(f, callee, env, h);
        if Stops(fr) then fr
        else
          var ar := EvalExpressions(f, arguments, env, fr.heap);
          if ar.Halted? then Halted(ar.reason)
          else if FirstError(ar.value).Some? then Done(FirstError(ar.value).value, ar.heap)
          else ApplyFunction(f, fr.value, ar.value, ar.heap)
  }

  /** `evalExpressions`: every argument, left to right, errors included. */
  function EvalExpressions(fuel: nat, es: seq<Expression>, env: nat, h: Heap): (r: Evaluated<seq<Object>>)
    requires env < |h.frames|
    decreases fuel, |es| + 1
    ensures r.Done? ==> Grows(h, r.heap) && |r.value| == |es|
  {
    if es == [] then Done([], h)
    else
      var first := Eval(fuel, es[0], env, h);
      if first.Halted? then Halted(first.reason)
      else
        var rest := EvalExpressions(fuel, es[1..], env, first.heap);
        if rest.Halted? then rest else Done([first.value] + rest.value, rest.heap)
  }

  /** `monkeyEval` on a statement. A let or return without a value evaluates
      `undefined`, which yields NULL; a let yields NULL after binding. */
  function Exec(fuel: nat, s: Statement, env: nat, h: Heap): (r: Evaluated<Object>)
    requires env < |h.frames|
    decreases fuel, 1
    ensures r.Done? ==> Grows(h, r.heap)
  {
    match s
    case ExpressionStatement(_, e) => Eval(fuel, e, env, h)
    case ReturnStatement(_, value) =>
      var v := if value.Some? then Eval(fuel, value.value, env, h) else Done(NULL, h);
      if Stops(v) then v
      else
        var (id, h2) := Alloc(v.heap);
        Done(ReturnValue(id, v.value), h2)
    case LetStatement(_, name, value) =>
      var v := if value.Some? then Eval(fuel, value.value, env, h) else Done(NULL, h);
      if Stops(v) then v
      else Done(NULL, v.heap.(frames := Bind(v.heap.frames, env, name.value, Some(v.value))))
  }

  /** `evalBlockStatement` from the given statement on, `last` being the
      result so far: it stops at an error or a return signal, which it
      passes on still wrapped. */
  function EvalBlock(fuel: nat, ss: seq<Statement>, env: nat, h: Heap, last: Object): (r: Evaluated<Object>)
    requires env < |h.frames|
    decreases fuel, |ss| + 2
    ensures r.Done? ==> Grows(h, r.heap)
  {
    if ss == [] then Done(last, h)
    else
      var r := Exec(fuel, ss[0], env, h);
      if r.Halted? || r.value.ReturnValue? || r.value.Error? then r
      else EvalBlock(fuel, ss[1..], env, r.heap, r.value)
  }

  /** `applyFunction`: anything but a function is an error; a function's body
      runs in its extended scope and one return-signal layer is removed. */
  function ApplyFunction(fuel: nat, f: Object, args: seq<Object>, h: Heap): (r: Evaluated<Object>)
    decreases fuel, (if f.Function? then |f.body.statements| else 0) + 3
    ensures r.Done? ==> Grows(h, r.heap)
  {
    if !f.Function? then Done(Error("not a function: " + TypeName(f)), h)
    else
      var h2 := h.(frames := ExtendedFrames(f, args, h));
      var r := EvalBlock(fuel, f.body.statements, |h.frames|, h2, NULL);
      if r.Halted? then r else Done(UnwrapReturnValue(r.value), r.heap)
  }

  /** `evalProgram` from the given statement on: it stops at an error, and at
      a return signal, which it unwraps. */
  function EvalProgramFrom(fuel: nat, ss: seq<Statement>, env: nat, h: Heap, last: Object): (r: Evaluated<Object>)
    requires env < |h.frames|
    decreases |ss|
    ensures r.Done? ==> Grows(h, r.heap)
  {
    if ss == [] then Done(last, h)
    else
      var r := Exec(fuel, ss[0], env, h);
      if r.Halted? then r
      else if r.value.ReturnValue? then Done(r.value.inner, r.heap)
      else if r.value.Error? then r
      else EvalProgramFrom(fuel, ss[1..], env, r.heap, r.value)
  }

  // ---------------------------------------------------------------- the loops of the source

  /** `evalProgram`: NULL for no statements, otherwise the last result, an
      error as soon as one appears, or a return signal's value. */
  method EvalProgram(fuel: nat, statements: seq<Statement>, env: nat, h: Heap) returns (r: Evaluated<Object>)
    requires env < |h.frames|
    ensures r == EvalProgramFrom(fuel, statements, env, h, NULL)
  {
    var result := NULL;
    var heap := h;
    var i := 0;
    while i < |statements|
      invariant i <= |statements| && env < |heap.frames|
      invariant EvalProgramFrom(fuel, statements[i..], env, heap, result) ==
                EvalProgramFrom(fuel, statements, env, h, NULL)
    {
      assert statements[i..][1..] == statements[i + 1..];
      var step := Exec(fuel, statements[i], env, heap);
      if step.Halted? {
        return step;
      }
      result, heap := step.value, step.heap;
      if result.ReturnValue? {
        return Done(result.inner, heap);
      }
      if result.Error? {
        return step;
      }
      i := i + 1;
    }
    return Done(result, heap);
  }

  /** `evalBlockStatement`: like `evalProgram`, but a return signal is passed
      on still wrapped. */
  method EvalBlockStatement(fuel: nat, statements: seq<Statement>, env: nat, h: Heap) returns (r: Evaluated<Object>)
    requires env < |h.frames|
    ensures r == EvalBlock(fuel, statements, env, h, NULL)
  {
    var result := NULL;
    var heap := h;
    var i := 0;
    while i < |statements|
      invariant i <= |statements| && env < |heap.frames|
      invariant EvalBlock(fuel, statements[i..], env, heap, result) == EvalBlock(fuel, statements, env, h, NULL)
    {
      assert statements[i..][1..] == statements[i + 1..];
      var step := Exec(fuel, statements[i], env, heap);
      if step.Halted? {
        return step;
      }
      result, heap := step.value, step.heap;
      if result.ReturnValue? || result.Error? {
        return step;
      }
      i := i + 1;
    }
    return Done(result, heap);
  }

  /** `extendFunctionEnv`: create the call's frame, then set each parameter
      in turn. */
  method ExtendFunctionEnv(f: Object, args: seq<Object>, h: Heap) returns (frames: seq<Frame>)
    requires f.Function?
    ensures frames == ExtendedFrames(f, args, h)
  {
    var start := h.frames + [Frame(map[], Some(f.env))];
    var env := |h.frames|;
    frames := start;
    for i := 0 to |f.parameters|
      invariant frames == BindParameters(start, env, f.parameters[..i], args)
    {
      assert f.parameters[..i + 1][..i] == f.parameters[..i];
      frames := Bind(frames, env, f.parameters[i].value, Argument(args, i));
    }
    assert f.parameters[..|f.parameters|] == f.parameters;
  }

  // ---------------------------------------------------------------- operators

  /** `!` is the negation of truthiness and never fails; so `!!x` is the
      truthiness of `x`, and only NULL and FALSE give `!x == TRUE`. */
  lemma BangNegatesTruthiness(o: Object)
    ensures EvalPrefixExpression("!", o) == NativeBool(!IsTruthy(o))
    ensures EvalBang(EvalBang(o)) == NativeBool(IsTruthy(o))
    ensures EvalBang(o) == TRUE <==> o == NULL || o == FALSE
  {
  }

  /** `-` negates integers, so applying it twice gives the integer back; on
      anything else it is an error naming the operand's type. */
  lemma MinusNegatesIntegers(o: Object)
    ensures o.Integer? ==> EvalPrefixExpression("-", o) == Integer(-o.intValue) &&
                           EvalMinus(EvalMinus(o)) == o
    ensures !o.Integer? ==> EvalPrefixExpression("-", o) == Error("unknown operator: -" + TypeName(o))
  {
  }

  /** Two integers: arithmetic and comparison on their values; exact
      division; any other operator is an error naming both types. */
  lemma IntegerOperators(a: int, b: int, operator: string, h: Heap)
    ensures var r := EvalInfixExpression(operator, Integer(a), Integer(b), h);
      (operator == "+" ==> r == Done(Integer(a + b), h)) &&
      (operator == "-" ==> r == Done(Integer(a - b), h)) &&
      (operator == "*" ==> r == Done(Integer(a * b), h)) &&
      (operator == "/" && b != 0 && a % b == 0 ==> r.Done? && r.value.Integer? && r.value.intValue * b == a) &&
      (operator == "/" && b == 0 ==> r == Halted(FractionalQuotient)) &&
      (operator == "<" ==> r == Done(NativeBool(a < b), h)) &&
      (operator == ">" ==> r == Done(NativeBool(a > b), h)) &&
      (operator == "==" ==> r == Done(NativeBool(a == b), h)) &&
      (operator == "!=" ==> r == Done(NativeBool(a != b), h)) &&
      (operator !in {"+", "-", "*", "/", "<", ">", "==", "!="} ==>
         r == Done(Error("unknown operator: INTEGER " + operator + " INTEGER"), h))
  {
    assert TypeName(Integer(a)) == "INTEGER" && TypeName(Integer(b)) == "INTEGER";
    assert "unknown operator: " + "INTEGER" + " " == "unknown operator: INTEGER ";
    assert forall m: string :: ("unknown operator: INTEGER " + m) + " " + "INTEGER" == ("unknown operator: INTEGER " + m) + " INTEGER";
  }

  /** On integers, booleans and null, `==` and `!=` compare values and never fail. */
  lemma EqualityOnPlainValues(a: Object, b: Object, h: Heap)
    requires a.Integer? || a.Boolean? || a.Null?
    requires b.Integer? || b.Boolean? || b.Null?
    ensures EvalInfixExpression("==", a, b, h) == Done(NativeBool(a == b), h)
    ensures EvalInfixExpression("!=", a, b, h) == Done(NativeBool(a != b), h)
  {
  }

  /** Operands of different types: `==` is FALSE and `!=` is TRUE (so
      `5 == true` is FALSE), and every other operator is a type mismatch. */
  lemma MixedTypes(a: Object, b: Object, operator: string, h: Heap)
    requires TypeName(a) != TypeName(b)
    ensures operator == "==" ==> EvalInfixExpression(operator, a, b, h) == Done(FALSE, h)
    ensures operator == "!=" ==> EvalInfixExpression(operator, a, b, h) == Done(TRUE, h)
    ensures operator != "==" && operator != "!=" ==>
      EvalInfixExpression(operator, a, b, h) ==
        Done(Error("type mismatch: " + TypeName(a) + " " + operator + " " + TypeName(b)), h)
  {
    assert a != b && !(a.Integer? && b.Integer?);
    if operator != "==" && operator != "!=" {
      assert !(a.String? && b.String?);
    }
  }

  /** Two strings: `+` allocates their concatenation; `==` and `!=` compare
      identities, so two separately created strings with the same text are
      not equal; any other operator is an error. */
  lemma StringOperators(a: Object, b: Object, operator: string, h: Heap)
    requires a.String? && b.String?
    ensures var r := EvalInfixExpression(operator, a, b, h);
      (operator == "+" ==> r == Done(String(h.nextId, a.text + b.text), h.(nextId := h.nextId + 1))) &&
      (operator == "==" ==> r == Done(NativeBool(a.id == b.id && a.text == b.text), h)) &&
      (operator == "!=" ==> r == Done(NativeBool(!(a.id == b.id && a.text == b.text)), h)) &&
      (operator !in {"+", "==", "!="} ==> r == Done(Error("unknown operator: STRING " + operator + " STRING"), h))
    ensures a.id != b.id ==> EvalInfixExpression("==", a, b, h) == Done(FALSE, h)
  {
    assert TypeName(a) == "STRING" && TypeName(b) == "STRING";
    assert "unknown operator: " + "STRING" + " " == "unknown operator: STRING ";
    assert forall m: string :: ("unknown operator: STRING " + m) + " " + "STRING" == ("unknown operator: STRING " + m) + " STRING";
  }

  /** Same-typed operands other than integers and strings: only `==` and
      `!=` are defined. */
  lemma OtherOperatorsUnknown(a: Object, b: Object, operator: string, h: Heap)
    requires TypeName(a) == TypeName(b) && !a.Integer? && !a.String?
    requires operator != "==" && operator != "!="
    ensures EvalInfixExpression(operator, a, b, h) ==
      Done(Error("unknown operator: " + TypeName(a) + " " + operator + " " + TypeName(a)), h)
  {
  }

  // ---------------------------------------------------------------- sequencing

  /** A program is its statements run as a block, with the final return
      signal, if any, unwrapped. */
  lemma {:induction false} ProgramIsUnwrappedBlock(fuel: nat, ss: seq<Statement>, env: nat, h: Heap, last: Object)
    requires env < |h.frames| && !last.ReturnValue?
    ensures EvalProgramFrom(fuel, ss, env, h, last) ==
      var b := EvalBlock(fuel, ss, env, h, last);
      if b.Done? then Done(UnwrapReturnValue(b.value), b.heap) else b
    decreases |ss|
  {
    if ss != [] {
      var r := Exec(fuel, ss[0], env, h);
      if !r.Halted? && !r.value.ReturnValue? && !r.value.Error? {
        ProgramIsUnwrappedBlock(fuel, ss[1..], env, r.heap, r.value);
      }
    }
  }

  /** Running two statement lists one after the other is running their
      concatenation: the second list starts only if the first ran to its end
      without an error or a return signal. */
  lemma {:induction false} BlockAppend(fuel: nat, s1: seq<Statement>, s2: seq<Statement>, env: nat, h: Heap, last: Object)
    requires env < |h.frames|
    ensures EvalBlock(fuel, s1 + s2, env, h, last) ==
      var b := EvalBlock(fuel, s1, env, h, last);
      if b.Halted? || (s1 != [] && (b.value.ReturnValue? || b.value.Error?)) then b
      else EvalBlock(fuel, s2, env, b.heap, b.value)
    decreases |s1|
  {
    if s1 != [] {
      assert (s1 + s2)[0] == s1[0] && (s1 + s2)[1..] == s1[1..] + s2;
      var r := Exec(fuel, s1[0], env, h);
      if !r.Halted? && !r.value.ReturnValue? && !r.value.Error? {
        BlockAppend(fuel, s1[1..], s2, env, r.heap, r.value);
      }
    } else {
      assert s1 + s2 == s2;
    }
  }

  /** Evaluating two argument lists one after the other is evaluating their
      concatenation: the second list starts in the heap the first leaves. */
  lemma {:induction false} ExpressionsAppend(fuel: nat, es1: seq<Expression>, es2: seq<Expression>, env: nat, h: Heap)
    requires env < |h.frames|
    ensures EvalExpressions(fuel, es1 + es2, env, h) ==
      var a := EvalExpressions(fuel, es1, env, h);
      if a.Halted? then a
      else
        var b := EvalExpressions(fuel, es2, env, a.heap);
        if b.Halted? then b else Done(a.value + b.value, b.heap)
    decreases |es1|
  {
    if es1 == [] {
      assert es1 + es2 == es2;
      var b := EvalExpressions(fuel, es2, env, h);
      if b.Done? {
        assert [] + b.value == b.value;
      }
    } else {
      assert (es1 + es2)[0] == es1[0] && (es1 + es2)[1..] == es1[1..] + es2;
      var first := Eval(fuel, es1[0], env, h);
      if first.Done? {
        ExpressionsAppend(fuel, es1[1..], es2, env, first.heap);
        var a := EvalExpressions(fuel, es1[1..], env, first.heap);
        if a.Done? {
          var b := EvalExpressions(fuel, es2, env, a.heap);
          if b.Done? {
            assert [first.value] + (a.value + b.value) == ([first.value] + a.value) + b.value;
          }
        }
      }
    }
  }

  /** Arguments are evaluated left to right: when the list evaluates, its
      `i`-th value is argument `i` evaluated in the heap that the arguments
      before it leave, and those give the values before it. */
  lemma ExpressionsInOrder(fuel: nat, es: seq<Expression>, env: nat, h: Heap, i: nat)
    requires env < |h.frames| && i < |es| && EvalExpressions(fuel, es, env, h).Done?
    ensures var r := EvalExpressions(fuel, es, env, h);
      var p := EvalExpressions(fuel, es[..i], env, h);
      p.Done? && p.value == r.value[..i] &&
      Eval(fuel, es[i], env, p.heap).Done? && Eval(fuel, es[i], env, p.heap).value == r.value[i]
  {
    assert es == es[..i] + es[i..];
    ExpressionsAppend(fuel, es[..i], es[i..], env, h);
    assert es[i..][0] == es[i];
  }

  // ---------------------------------------------------------------- scopes

  /** After `let name = e` whose value is not an error, the statement yields
      NULL and `name` is bound to the value in the current frame; an error
      value is returned and nothing is bound. */
  lemma LetBinds(fuel: nat, t: Tokens.Token, name: Identifier, e: Expression, env: nat, h: Heap)
    requires env < |h.frames|
    ensures var v := Eval(fuel, e, env, h);
      var r := Exec(fuel, LetStatement(t, name, Some(e)), env, h);
      (Stops(v) ==> r == v) &&
      (!Stops(v) ==> r.Done? && r.value == NULL && |r.heap.frames| == |v.heap.frames| &&
                     Lookup(r.heap.frames, env, name.value) == Some(v.value))
  {
    var v := Eval(fuel, e, env, h);
    if !Stops(v) {
      LookupAfterBind(v.heap.frames, env, name.value, v.value);
    }
  }

  /** The position of the last parameter called `n`. */
  function LastIndex(params: seq<Identifier>, n: string): (r: Option<nat>)
    ensures r.Some? ==> r.value < |params| && params[r.value].value == n &&
                        forall k :: r.value < k < |params| ==> params[k].value != n
    ensures r.None? ==> forall k :: 0 <= k < |params| ==> params[k].value != n
  {
    if params == [] then None
    else if params[|params| - 1].value == n then Some(|params| - 1)
    else LastIndex(params[..|params| - 1], n)
  }

  /** What the parameter loop leaves in the call's frame for name `n`. */
  lemma {:induction false} BoundParameter(frames: seq<Frame>, env: nat, params: seq<Identifier>, args: seq<Object>, n: string)
    requires env < |frames|
    ensures var st := BindParameters(frames, env, params, args)[env].store;
      match LastIndex(params, n)
      case Some(j) => n in st && st[n] == Argument(args, j)
      case None => (n in st <==> n in frames[env].store) && (n in st ==> st[n] == frames[env].store[n])
    decreases |params|
  {
    if params != [] {
      BoundParameter(frames, env, params[..|params| - 1], args, n);
    }
  }

  /** The scope a call runs in: a parameter's name sees its argument (the
      last one, for a repeated name); a parameter without an argument, like
      any other name, is looked up in the function's captured scope. */
  lemma CallScope(f: Object, args: seq<Object>, h: Heap, n: string)
    requires f.Function? && f.env < |h.frames|
    ensures Lookup(ExtendedFrames(f, args, h), |h.frames|, n) ==
      match LastIndex(f.parameters, n)
      case Some(j) => if j < |args| then Some(args[j]) else Lookup(h.frames, f.env, n)
      case None => Lookup(h.frames, f.env, n)
  {
    var start := h.frames + [Frame(map[], Some(f.env))];
    var b := ExtendedFrames(f, args, h);
    BoundParameter(start, |h.frames|, f.parameters, args, n);
    assert b == h.frames + [b[|h.frames|]];
    LookupExtend(h.frames, [b[|h.frames|]], f.env, n);
  }

  /** A call strips exactly one return-signal layer from its body's result,
      and calling anything but a function is an error naming its type. */
  lemma CallUnwrapsOnce(fuel: nat, f: Object, args: seq<Object>, h: Heap)
    ensures !f.Function? ==> ApplyFunction(fuel, f, args, h) == Done(Error("not a function: " + TypeName(f)), h)
    ensures f.Function? ==>
      var b := EvalBlock(fuel, f.body.statements, |h.frames|, h.(frames := ExtendedFrames(f, args, h)), NULL);
      ApplyFunction(fuel, f, args, h) == if b.Done? then Done(UnwrapReturnValue(b.value), b.heap) else b
  {
  }

  // ---------------------------------------------------------------- errors

  /** Errors are values that end evaluation: an error from a prefix
      operator's operand is the result; an error from the left operand is the
      result and the right operand is not evaluated; then an error from the
      right operand is the result. */
  lemma OperandErrorsShortCircuit(fuel: nat, t: Tokens.Token, left: Expression, operator: string,
                                  right: Expression, env: nat, h: Heap)
    requires env < |h.frames| && fuel > 0
    ensures var p := Eval(fuel - 1, right, env, h);
      p.Done? && p.value.Error? ==> Eval(fuel, PrefixExpression(t, operator, right), env, h) == p
    ensures var l := Eval(fuel - 1, left, env, h);
      var r := Eval(fuel, InfixExpression(t, left, operator, right), env, h);
      (l.Done? && l.value.Error? ==> r == l) &&
      (l.Done? && !l.value.Error? ==>
         var rr := Eval(fuel - 1, right, env, l.heap);
         rr.Done? && rr.value.Error? ==> r == rr)
  {
  }

  /** A return statement passes on an error from its value; otherwise it
      wraps the value in a freshly allocated return signal. */
  lemma ReturnSignals(fuel: nat, t: Tokens.Token, e: Expression, env: nat, h: Heap)
    requires env < |h.frames|
    ensures var v := Eval(fuel, e, env, h);
      var r := Exec(fuel, ReturnStatement(t, Some(e)), env, h);
      (Stops(v) ==> r == v) &&
      (!Stops(v) ==> r == Done(ReturnValue(v.heap.nextId, v.value), v.heap.(nextId := v.heap.nextId + 1)) &&
                     UnwrapReturnValue(r.value) == v.value)
  {
  }

  /** A call's callee error wins; otherwise every argument is evaluated and
      the first error among them, left to right, is the result. */
  lemma CallErrorsShortCircuit(fuel: nat, t: Tokens.Token, callee: Expression, arguments: seq<Expression>, env: nat, h: Heap)
    requires env < |h.frames| && fuel > 0
    ensures var c := Eval(fuel - 1, callee, env, h);
      var r := Eval(fuel, CallExpression(t, callee, arguments), env, h);
      (c.Done? && c.value.Error? ==> r == c) &&
      (c.Done? && !c.value.Error? ==>
        var a := EvalExpressions(fuel - 1, arguments, env, c.heap);
        a.Done? && FirstError(a.value).Some? ==> r == Done(FirstError(a.value).value, a.heap))
  {
  }

  /** Only a call whose callee and arguments all evaluate without an error
      applies the callee, to the argument values, in the heap they leave. */
  lemma CallApplies(fuel: nat, t: Tokens.Token, callee: Expression, arguments: seq<Expression>, env: nat, h: Heap)
    requires env < |h.frames| && fuel > 0
    ensures var c := Eval(fuel - 1, callee, env, h);
      var r := Eval(fuel, CallExpression(t, callee, arguments), env, h);
      c.Done? && !c.value.Error? ==>
        var a := EvalExpressions(fuel - 1, arguments, env, c.heap);
        (a.Halted? ==> r == Halted(a.reason)) &&
        (a.Done? && FirstError(a.value).None? ==> r == ApplyFunction(fuel - 1, c.value, a.value, a.heap))
  {
  }

  /** An if-expression returns an error from its condition; otherwise a
      truthy condition runs the consequence, and a falsy one the alternative
      if there is one, else yields NULL. */
  lemma IfChoosesByTruthiness(fuel: nat, t: Tokens.Token, condition: Expression, consequence: BlockStatement,
                              alternative: Option<BlockStatement>, env: nat, h: Heap)
    requires env < |h.frames| && fuel > 0
    ensures var c := Eval(fuel - 1, condition, env, h);
      var r := Eval(fuel, IfExpression(t, condition, consequence, alternative), env, h);
      c.Done? ==>
        r == if c.value.Error? then c
             else if IsTruthy(c.value) then EvalBlock(fuel - 1, consequence.statements, env, c.heap, NULL)
             else if alternative.Some? then EvalBlock(fuel - 1, alternative.value.statements, env, c.heap, NULL)
             else Done(NULL, c.heap)
  {
  }

  // ---------------------------------------------------------------- captured scopes and identities

  /** A value refers only to what heap `h` holds: a closure's captured scope
      is one of its frames, and every allocation number inside the value,
      return signals included, was handed out before `h.nextId`. */
  predicate Scoped(o: Object, h: Heap)
  {
    match o
    case Function(id, _, _, env) => id < h.nextId && env < |h.frames|
    case String(id, _) => id < h.nextId
    case ReturnValue(id, inner) => id < h.nextId && Scoped(inner, h)
    case _ => true
  }

  /** The arena is well formed, and every value bound in it is scoped: the
      arena form of the source's scopes being objects that a closure keeps
      alive, and of `new` never returning an object that already exists. */
  predicate Closed(h: Heap)
  {
    WellFormed(h.frames) &&
    forall i, n :: 0 <= i < |h.frames| && n in h.frames[i].store && h.frames[i].store[n].Some? ==>
      Scoped(h.frames[i].store[n].value, h)
  }

  /** The arena a program starts with: one empty scope and no allocation. */
  lemma InitialHeapClosed()
    ensures Closed(Heap([Frame(map[], None)], 0))
  {
  }

  lemma {:induction false} ScopedInLarger(o: Object, h: Heap, h2: Heap)
    requires Scoped(o, h) && |h.frames| <= |h2.frames| && h.nextId <= h2.nextId
    ensures Scoped(o, h2)
  {
    if o.ReturnValue? {
      ScopedInLarger(o.inner, h, h2);
    }
  }

  /** Handing out allocation numbers keeps the arena closed. */
  lemma ClosedAfterAlloc(h: Heap, h2: Heap)
    requires Closed(h) && h2.frames == h.frames && h.nextId <= h2.nextId
    ensures Closed(h2)
  {
    forall i, n | 0 <= i < |h.frames| && n in h.frames[i].store && h.frames[i].store[n].Some?
      ensures Scoped(h.frames[i].store[n].value, h2)
    {
      ScopedInLarger(h.frames[i].store[n].value, h, h2);
    }
  }

  /** What a lookup finds in a closed arena is scoped in it. */
  lemma {:induction false} LookupIsScoped(h: Heap, env: nat, name: string)
    requires Closed(h)
    ensures Lookup(h.frames, env, name).Some? ==> Scoped(Lookup(h.frames, env, name).value, h)
    decreases env
  {
    if env < |h.frames| {
      var f := h.frames[env];
      if !(name in f.store && f.store[name].Some?) && f.outer.Some? && f.outer.value < env {
        LookupIsScoped(h, f.outer.value, name);
      }
    }
  }

  /** A fresh allocation number differs from every number a scoped value
      holds, so a freshly created string, closure or return signal is not
      equal to any value the heap can reach. */
  lemma FreshIsNew(o: Object, h: Heap)
    requires Scoped(o, h)
    ensures o.String? ==> forall t :: o != String(h.nextId, t)
    ensures o.Function? ==> o.id != h.nextId
    ensures o.ReturnValue? ==> o.id != h.nextId
  {
  }

  /** Operators keep the arena closed, and what they create is scoped. */
  lemma InfixKeepsClosed(operator: string, left: Object, right: Object, h: Heap)
    requires Closed(h)
    ensures var r := EvalInfixExpression(operator, left, right, h);
      r.Done? ==> Closed(r.heap) && Scoped(r.value, r.heap)
  {
    var r := EvalInfixExpression(operator, left, right, h);
    if r.Done? {
      ClosedAfterAlloc(h, r.heap);
    }
  }

  /** Binding a scoped value keeps the arena closed. */
  lemma BindKeepsClosed(h: Heap, env: nat, name: string, v: Option<Object>)
    requires Closed(h) && env < |h.frames| && (v.Some? ==> Scoped(v.value, h))
    ensures Closed(h.(frames := Bind(h.frames, env, name, v)))
  {
    var h2 := h.(frames := Bind(h.frames, env, name, v));
    var b := h2.frames;
    forall i, n | 0 <= i < |b| && n in b[i].store && b[i].store[n].Some?
      ensures Scoped(b[i].store[n].value, h2)
    {
      if i != env || n != name {
        assert n in h.frames[i].store && b[i].store[n] == h.frames[i].store[n];
        ScopedInLarger(b[i].store[n].value, h, h2);
      } else {
        ScopedInLarger(v.value, h, h2);
      }
    }
  }

  /** The parameter loop keeps the arena closed when the arguments are scoped. */
  lemma {:induction false} ParametersKeepClosed(h: Heap, env: nat, params: seq<Identifier>, args: seq<Object>)
    requires Closed(h) && env < |h.frames|
    requires forall k :: 0 <= k < |args| ==> Scoped(args[k], h)
    ensures Closed(h.(frames := BindParameters(h.frames, env, params, args)))
    decreases |params|
  {
    if params != [] {
      var n := |params| - 1;
      ParametersKeepClosed(h, env, params[..n], args);
      var h1 := h.(frames := BindParameters(h.frames, env, params[..n], args));
      forall k | 0 <= k < |args|
        ensures Scoped(args[k], h1)
      {
        ScopedInLarger(args[k], h, h1);
      }
      BindKeepsClosed(h1, env, params[n].value, Argument(args, n));
    }
  }

  /** A call's frame keeps the arena closed when the function and its
      arguments are scoped. */
  lemma ExtendKeepsClosed(f: Object, args: seq<Object>, h: Heap)
    requires Closed(h) && f.Function? && f.env < |h.frames|
    requires forall k :: 0 <= k < |args| ==> Scoped(args[k], h)
    ensures Closed(h.(frames := ExtendedFrames(f, args, h)))
  {
    var h1 := h.(frames := NewFrame(h.frames, Some(f.env)));
    forall i, n | 0 <= i < |h1.frames| && n in h1.frames[i].store && h1.frames[i].store[n].Some?
      ensures Scoped(h1.frames[i].store[n].value, h1)
    {
      assert i < |h.frames| && h1.frames[i] == h.frames[i];
      ScopedInLarger(h.frames[i].store[n].value, h, h1);
    }
    forall k | 0 <= k < |args|
      ensures Scoped(args[k], h1)
    {
      ScopedInLarger(args[k], h, h1);
    }
    ParametersKeepClosed(h1, |h.frames|, f.parameters, args);
  }

  /** Evaluation keeps the arena closed and yields scoped values, so every
      closure's captured scope is a frame that exists: a call never builds a
      frame whose enclosing index is not an earlier frame. */
  lemma {:induction false} EvalKeepsClosed(fuel: nat, e: Expression, env: nat, h: Heap)
    requires env < |h.frames| && Closed(h)
    ensures var r := Eval(fuel, e, env, h);
      r.Done? ==> Closed(r.heap) && Scoped(r.value, r.heap)
    decreases fuel, 1
  {
    if fuel > 0 {
      var f := fuel - 1;
      match e
      case Ident(name) =>
        LookupIsScoped(h, env, name.value);
      case PrefixExpression(_, _, right) =>
        EvalKeepsClosed(f, right, env, h);
      case InfixExpression(_, left, operator, right) =>
        EvalKeepsClosed(f, left, env, h);
        var lr := Eval(f, left, env, h);
        if !Stops(lr) {
          EvalKeepsClosed(f, right, env, lr.heap);
          var rr := Eval(f, right, env, lr.heap);
          if !Stops(rr) {
            InfixKeepsClosed(operator, lr.value, rr.value, rr.heap);
          }
        }
      case IfExpression(t, condition, consequence, alternative) =>
        IfKeepsClosed(fuel, t, condition, consequence, alternative, env, h);
      case CallExpression(t, callee, arguments) =>
        CallKeepsClosed(fuel, t, callee, arguments, env, h);
      case StringLiteral(_, _) =>
        ClosedAfterAlloc(h, Alloc(h).1);
      case FunctionLiteral(_, _, _) =>
        ClosedAfterAlloc(h, Alloc(h).1);
      case _ =>
    }
  }

  lemma {:induction false} IfKeepsClosed(fuel: nat, t: Tokens.Token, condition: Expression, consequence: BlockStatement,
                                         alternative: Option<BlockStatement>, env: nat, h: Heap)
    requires env < |h.frames| && Closed(h) && fuel > 0
    ensures var r := Eval(fuel, IfExpression(t, condition, consequence, alternative), env, h);
      r.Done? ==> Closed(r.heap) && Scoped(r.value, r.heap)
    decreases fuel, 0
  {
    var f := fuel - 1;
    EvalKeepsClosed(f, condition, env, h);
    var c := Eval(f, condition, env, h);
    if !Stops(c) {
      if IsTruthy(c.value) {
        BlockKeepsClosed(f, consequence.statements, env, c.heap, NULL);
      } else if alternative.Some? {
        BlockKeepsClosed(f, alternative.value.statements, env, c.heap, NULL);
      }
    }
  }

  lemma {:induction false} CallKeepsClosed(fuel: nat, t: Tokens.Token, callee: Expression, arguments: seq<Expression>,
                                           env: nat, h: Heap)
    requires env < |h.frames| && Closed(h) && fuel > 0
    ensures var r := Eval(fuel, CallExpression(t, callee, arguments), env, h);
      r.Done? ==> Closed(r.heap) && Scoped(r.value, r.heap)
    decreases fuel, 0
  {
    var f := fuel - 1;
    EvalKeepsClosed(f, callee, env, h);
    var fr := Eval(f, callee, env, h);
    if !Stops(fr) {
      ExpressionsKeepClosed(f, arguments, env, fr.heap);
      var ar := EvalExpressions(f, arguments, env, fr.heap);
      if ar.Done? && FirstError(ar.value).None? {
        ScopedInLarger(fr.value, fr.heap, ar.heap);
        ApplyKeepsClosed(f, fr.value, ar.value, ar.heap);
      }
    }
  }

  lemma {:induction false} ExpressionsKeepClosed(fuel: nat, es: seq<Expression>, env: nat, h: Heap)
    requires env < |h.frames| && Closed(h)
    ensures var r := EvalExpressions(fuel, es, env, h);
      r.Done? ==> Closed(r.heap) && forall k :: 0 <= k < |r.value| ==> Scoped(r.value[k], r.heap)
    decreases fuel, |es| + 2
  {
    if es != [] {
      EvalKeepsClosed(fuel, es[0], env, h);
      var first := Eval(fuel, es[0], env, h);
      if first.Done? {
        ExpressionsKeepClosed(fuel, es[1..], env, first.heap);
        var rest := EvalExpressions(fuel, es[1..], env, first.heap);
        if rest.Done? {
          ScopedInLarger(first.value, first.heap, rest.heap);
        }
      }
    }
  }

  lemma {:induction false} ExecKeepsClosed(fuel: nat, s: Statement, env: nat, h: Heap)
    requires env < |h.frames| && Closed(h)
    ensures var r := Exec(fuel, s, env, h);
      r.Done? ==> Closed(r.heap) && Scoped(r.value, r.heap)
    decreases fuel, 2
  {
    match s
    case ExpressionStatement(_, e) =>
      EvalKeepsClosed(fuel, e, env, h);
    case ReturnStatement(_, value) =>
      if value.Some? {
        EvalKeepsClosed(fuel, value.value, env, h);
      }
      var v := if value.Some? then Eval(fuel, value.value, env, h) else Done(NULL, h);
      if !Stops(v) {
        var h2 := Alloc(v.heap).1;
        ClosedAfterAlloc(v.heap, h2);
        ScopedInLarger(v.value, v.heap, h2);
      }
    case LetStatement(_, name, value) =>
      if value.Some? {
        EvalKeepsClosed(fuel, value.value, env, h);
      }
      var v := if value.Some? then Eval(fuel, value.value, env, h) else Done(NULL, h);
      if !Stops(v) {
        BindKeepsClosed(v.heap, env, name.value, Some(v.value));
      }
  }

  lemma {:induction false} BlockKeepsClosed(fuel: nat, ss: seq<Statement>, env: nat, h: Heap, last: Object)
    requires env < |h.frames| && Closed(h) && Scoped(last, h)
    ensures var r := EvalBlock(fuel, ss, env, h, last);
      r.Done? ==> Closed(r.heap) && Scoped(r.value, r.heap)
    decreases fuel, |ss| + 3
  {
    if ss != [] {
      ExecKeepsClosed(fuel, ss[0], env, h);
      var r := Exec(fuel, ss[0], env, h);
      if !r.Halted? && !r.value.ReturnValue? && !r.value.Error? {
        BlockKeepsClosed(fuel, ss[1..], env, r.heap, r.value);
      }
    }
  }

  /** Applying a scoped function to scoped arguments keeps the arena closed:
      the call's frame is enclosed by an earlier frame. */
  lemma {:induction false} ApplyKeepsClosed(fuel: nat, f: Object, args: seq<Object>, h: Heap)
    requires Closed(h) && Scoped(f, h)
    requires forall k :: 0 <= k < |args| ==> Scoped(args[k], h)
    ensures var r := ApplyFunction(fuel, f, args, h);
      r.Done? ==> Closed(r.heap) && Scoped(r.value, r.heap)
    decreases fuel, (if f.Function? then |f.body.statements| else 0) + 4
  {
    if f.Function? {
      ExtendKeepsClosed(f, args, h);
      var h2 := h.(frames := ExtendedFrames(f, args, h));
      BlockKeepsClosed(fuel, f.body.statements, |h.frames|, h2, NULL);
    }
  }

  /** A whole program keeps the arena closed. */
  lemma {:induction false} ProgramKeepsClosed(fuel: nat, ss: seq<Statement>, env: nat, h: Heap, last: Object)
    requires env < |h.frames| && Closed(h) && Scoped(last, h)
    ensures var r := EvalProgramFrom(fuel, ss, env, h, last);
      r.Done? ==> Closed(r.heap) && Scoped(r.value, r.heap)
    decreases |ss|
  {
    if ss != [] {
      ExecKeepsClosed(fuel, ss[0], env, h);
      var r := Exec(fuel, ss[0], env, h);
      if !r.Halted? && !r.value.ReturnValue? && !r.value.Error? {
        ProgramKeepsClosed(fuel, ss[1..], env, r.heap, r.value);
      }
    }
  }

  // ---------------------------------------------------------------- identity

  /** Values the source creates with `new` and compares by reference. */
  predicate Allocated(o: Object)
  {
    o.String? || o.Function? || o.ReturnValue?
  }

  /** Unless both operands are integers, `==` and `!=` compare the values
      themselves, so two allocated values with different allocation numbers
      (two closures, two return signals, two strings) are never equal. */
  lemma IdentityEquality(a: Object, b: Object, h: Heap)
    requires !(a.Integer? && b.Integer?)
    ensures EvalInfixExpression("==", a, b, h) == Done(NativeBool(a == b), h)
    ensures EvalInfixExpression("!=", a, b, h) == Done(NativeBool(a != b), h)
    ensures Allocated(a) && Allocated(b) && a.id != b.id ==>
      EvalInfixExpression("==", a, b, h) == Done(FALSE, h) &&
      EvalInfixExpression("!=", a, b, h) == Done(TRUE, h)
  {
  }

  /** `"a" == "a"` is FALSE: each literal creates a new string. */
  lemma NewStringsDiffer(fuel: nat, t: Tokens.Token, t1: Tokens.Token, s1: string, t2: Tokens.Token, s2: string,
                         env: nat, h: Heap)
    requires env < |h.frames| && fuel >= 2
    ensures Eval(fuel, InfixExpression(t, StringLiteral(t1, s1), "==", StringLiteral(t2, s2)), env, h) ==
      Done(FALSE, h.(nextId := h.nextId + 2))
  {
    var l := Eval(fuel - 1, StringLiteral(t1, s1), env, h);
    assert l == Done(String(h.nextId, s1), h.(nextId := h.nextId + 1));
    var r := Eval(fuel - 1, StringLiteral(t2, s2), env, l.heap);
    assert r == Done(String(h.nextId + 1, s2), h.(nextId := h.nextId + 2));
    IdentityEquality(l.value, r.value, r.heap);
  }

  /** In a closed heap a new string equals no bound value: `s == "a"` is
      FALSE whatever `s` holds, unless `s` holds an error, which is the result. */
  lemma NewStringIsNoBoundValue(fuel: nat, t: Tokens.Token, name: Identifier, t2: Tokens.Token, text: string,
                                env: nat, h: Heap)
    requires env < |h.frames| && Closed(h) && fuel >= 2
    requires Lookup(h.frames, env, name.value).Some?
    ensures var v := Lookup(h.frames, env, name.value).value;
      var r := Eval(fuel, InfixExpression(t, Ident(name), "==", StringLiteral(t2, text)), env, h);
      (v.Error? ==> r == Done(v, h)) &&
      (!v.Error? ==> r == Done(FALSE, h.(nextId := h.nextId + 1)))
  {
    var v := Lookup(h.frames, env, name.value).value;
    LookupIsScoped(h, env, name.value);
    FreshIsNew(v, h);
    assert Eval(fuel - 1, Ident(name), env, h) == Done(v, h);
    if !v.Error? {
      var right := Eval(fuel - 1, StringLiteral(t2, text), env, h);
      assert right == Done(String(h.nextId, text), h.(nextId := h.nextId + 1));
      assert v != right.value;
      IdentityEquality(v, right.value, right.heap);
    }
  }

  /** A bound value other than an error equals itself: `s == s` is TRUE. */
  lemma SameBindingIsEqual(fuel: nat, t: Tokens.Token, name: Identifier, env: nat, h: Heap)
    requires env < |h.frames| && fuel >= 2
    requires Lookup(h.frames, env, name.value).Some? && !Lookup(h.frames, env, name.value).value.Error?
    ensures Eval(fuel, InfixExpression(t, Ident(name), "==", Ident(name)), env, h) == Done(TRUE, h)
  {
    var v := Lookup(h.frames, env, name.value).value;
    assert Eval(fuel - 1, Ident(name), env, h) == Done(v, h);
    if v.Integer? {
      IntegerOperators(v.intValue, v.intValue, "==", h);
    } else {
      IdentityEquality(v, v, h);
    }
  }

  /** `let s = "a"; s == s` is TRUE: both uses see the one string the let bound. */
  lemma BoundStringEqualsItself(fuel: nat, t1: Tokens.Token, name: Identifier, t2: Tokens.Token, text: string,
                                t3: Tokens.Token, t4: Tokens.Token, env: nat, h: Heap)
    requires env < |h.frames| && fuel >= 2
    ensures var program := [LetStatement(t1, name, Some(StringLiteral(t2, text))),
                            ExpressionStatement(t3, InfixExpression(t4, Ident(name), "==", Ident(name)))];
      EvalProgramFrom(fuel, program, env, h, NULL).Done? &&
      EvalProgramFrom(fuel, program, env, h, NULL).value == TRUE
  {
    var program := [LetStatement(t1, name, Some(StringLiteral(t2, text))),
                    ExpressionStatement(t3, InfixExpression(t4, Ident(name), "==", Ident(name)))];
    var v := String(h.nextId, text);
    var h1 := h.(nextId := h.nextId + 1);
    assert Eval(fuel, StringLiteral(t2, text), env, h) == Done(v, h1);
    var h2 := h1.(frames := Bind(h1.frames, env, name.value, Some(v)));
    assert Exec(fuel, program[0], env, h) == Done(NULL, h2);
    LookupAfterBind(h1.frames, env, name.value, v);
    SameBindingIsEqual(fuel, t4, name, env, h2);
    assert Exec(fuel, program[1], env, h2) == Done(TRUE, h2);
    var rest := program[1..];
    assert rest[0] == program[1] && rest[1..] == [];
    assert EvalProgramFrom(fuel, rest[1..], env, h2, TRUE) == Done(TRUE, h2);
    assert EvalProgramFrom(fuel, rest, env, h2, NULL) == Done(TRUE, h2);
    assert EvalProgramFrom(fuel, program, env, h, NULL) == EvalProgramFrom(fuel, rest, env, h2, NULL);
  }

  // ---------------------------------------------------------------- fuel

  /** The fuel bound is only a bound: a result that did not run out of fuel
      is the same with any larger amount. */
  lemma {:induction false} EvalFuelMonotone(fuel: nat, more: nat, e: Expression, env: nat, h: Heap)
    requires env < |h.frames| && fuel <= more && Eval(fuel, e, env, h) != Halted(OutOfFuel)
    ensures Eval(more, e, env, h) == Eval(fuel, e, env, h)
    decreases fuel, 0
  {
    var f, g := fuel - 1, more - 1;
    match e
    case PrefixExpression(_, _, right) =>
      EvalFuelMonotone(f, g, right, env, h);
    case InfixExpression(_, left, _, right) =>
      EvalFuelMonotone(f, g, left, env, h);
      var lr := Eval(f, left, env, h);
      if !Stops(lr) {
        EvalFuelMonotone(f, g, right, env, lr.heap);
      }
    case IfExpression(_, condition, consequence, alternative) =>
      EvalFuelMonotone(f, g, condition, env, h);
      var c := Eval(f, condition, env, h);
      if !Stops(c) {
        if IsTruthy(c.value) {
          BlockFuelMonotone(f, g, consequence.statements, env, c.heap, NULL);
        } else if alternative.Some? {
          BlockFuelMonotone(f, g, alternative.value.statements, env, c.heap, NULL);
        }
      }
    case CallExpression(_, callee, arguments) =>
      EvalFuelMonotone(f, g, callee, env, h);
      var fr := Eval(f, callee, env, h);
      if !Stops(fr) {
        ExpressionsFuelMonotone(f, g, arguments, env, fr.heap);
        var ar := EvalExpressions(f, arguments, env, fr.heap);
        if ar.Done? && FirstError(ar.value).None? {
          ApplyFuelMonotone(f, g, fr.value, ar.value, ar.heap);
        }
      }
    case _ =>
  }

  lemma {:induction false} ExpressionsFuelMonotone(fuel: nat, more: nat, es: seq<Expression>, env: nat, h: Heap)
    requires env < |h.frames| && fuel <= more && EvalExpressions(fuel, es, env, h) != Halted(OutOfFuel)
    ensures EvalExpressions(more, es, env, h) == EvalExpressions(fuel, es, env, h)
    decreases fuel, |es| + 1
  {
    if es != [] {
      EvalFuelMonotone(fuel, more, es[0], env, h);
      var first := Eval(fuel, es[0], env, h);
      if first.Done? {
        ExpressionsFuelMonotone(fuel, more, es[1..], env, first.heap);
      }
    }
  }

  lemma {:induction false} ExecFuelMonotone(fuel: nat, more: nat, s: Statement, env: nat, h: Heap)
    requires env < |h.frames| && fuel <= more && Exec(fuel, s, env, h) != Halted(OutOfFuel)
    ensures Exec(more, s, env, h) == Exec(fuel, s, env, h)
    decreases fuel, 1
  {
    match s
    case ExpressionStatement(_, e) =>
      EvalFuelMonotone(fuel, more, e, env, h);
    case ReturnStatement(_, value) =>
      if value.Some? {
        EvalFuelMonotone(fuel, more, value.value, env, h);
      }
    case LetStatement(_, _, value) =>
      if value.Some? {
        EvalFuelMonotone(fuel, more, value.value, env, h);
      }
  }

  lemma {:induction false} BlockFuelMonotone(fuel: nat, more: nat, ss: seq<Statement>, env: nat, h: Heap, last: Object)
    requires env < |h.frames| && fuel <= more && EvalBlock(fuel, ss, env, h, last) != Halted(OutOfFuel)
    ensures EvalBlock(more, ss, env, h, last) == EvalBlock(fuel, ss, env, h, last)
    decreases fuel, |ss| + 2
  {
    if ss != [] {
      ExecFuelMonotone(fuel, more, ss[0], env, h);
      var r := Exec(fuel, ss[0], env, h);
      if !r.Halted? && !r.value.ReturnValue? && !r.value.Error? {
        BlockFuelMonotone(fuel, more, ss[1..], env, r.heap, r.value);
      }
    }
  }

  lemma {:induction false} ApplyFuelMonotone(fuel: nat, more: nat, f: Object, args: seq<Object>, h: Heap)
    requires fuel <= more && ApplyFunction(fuel, f, args, h) != Halted(OutOfFuel)
    ensures ApplyFunction(more, f, args, h) == ApplyFunction(fuel, f, args, h)
    decreases fuel, (if f.Function? then |f.body.statements| else 0) + 3
  {
    if f.Function? {
      var h2 := h.(frames := ExtendedFrames(f, args, h));
      BlockFuelMonotone(fuel, more, f.body.statements, |h.frames|, h2, NULL);
    }
  }
}
