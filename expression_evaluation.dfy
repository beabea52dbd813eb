/** The renderer from signal-like nodes to Verilog expression text
    (IEEE 1364-2005: sized binary literals of section 3.5.1, the operators
    of section 5.1, concatenation of section 5.1.14 and the conditional
    operator of section 5.1.13), and the evaluator object that holds the
    scope it renders names in. */
module ExpressionEvaluation {
  import opened Wrappers
  import opened MainTypes
  import opened Text

  /** The exceptions the renderer throws; each aborts the whole render. */
  datatype EvaluationError =
    | UnrecognisedExpressionType
    | UnrecognisedUnaryOperation
    | UnrecognisedComparrisonOperation
    | UnrecognisedBooleanOperation
    | UnrecognisedBinaryOperation

  type Rendering = Result<string, EvaluationError>

  /** How leaf names are found: `signalName` is the evaluator's signal
      resolver, `wireName` the working module's descriptor lookup. */
  datatype Scope = Scope(signalName: SignalId -> string, wireName: SignalId -> string)

  /* ------------------------------ glyphs ------------------------------- */

  /** Of the five `Operation` members only the two negations are unary. */
  function UnaryGlyph(op: Operation): Option<string> {
    match op
    case Not => Some("~")
    case LogicalNot => Some("!")
    case _ => None
  }

  /** Of the five `Operation` members only plus and minus are binary. */
  function ArithmeticGlyph(op: Operation): Option<string> {
    match op
    case Plus => Some("+")
    case Minus => Some("-")
    case _ => None
  }

  function BooleanGlyph(op: BooleanOperation): string {
    match op
    case And => "&"
    case Or => "|"
    case LogicalAnd => "&&"
    case LogicalOr => "||"
    case Xor => "^"
    case LeftShift => "<<"
    case LeftArithmeticShift => "<<<"
    case RightShift => ">>"
    case RightArithmeticShift => ">>>"
  }

  function ComparrisonGlyph(op: ComparrisonOperation): string {
    match op
    case Equal => "=="
    case GreaterThan => ">"
    case GreaterThanOrEqualTo => ">="
    case LessThan => "<"
    case LessThanOrEqualTo => "<="
    case NotEqual => "!="
  }

  /* ---------------------------- evaluation ----------------------------- */

  /** `evaluate`: a bare number prints as its decimal text, a node is
      dispatched on its tag. */
  function Evaluate(expr: SignalLikeOrValue, scope: Scope): Rendering {
    match expr
    case Value(n) => Ok(IntToDecimal(n))
    case Node(s) => EvaluateSignalLike(s, scope)
  }

  /** The tag switch of `evaluate`; a tag outside the closed set throws. */
  function EvaluateSignalLike(s: SignalLike, scope: Scope): Rendering
    decreases s, 0
  {
    match s
    case Signal(id, _) => Ok(scope.signalName(id))
    case Wire(id, _) => Ok(EvaluateWire(id, scope))
    case Constant(c) => Ok(EvaluateConstant(c))
    case Concat(c) => EvaluateConcat(c, scope)
    case UnaryExpr(u) => EvaluateUnaryExpression(u, scope)
    case ComparrisonExpr(c) => EvaluateComparrisonExpression(c, scope)
    case TernaryExpr(t) => EvaluateTernaryExpression(t, scope)
    case BooleanExpr(e) => EvaluateBooleanExpression(e, scope)
    case OperationExpr(o) => EvaluateOperationExpression(o, scope)
    case Slice(sl) => EvaluateSlice(sl, scope)
    case BaseSignal(_) => Err(UnrecognisedExpressionType)
  }

  /** `parenthize`: a left or base operand keeps its bare rendering only
      when it is a signal or wire leaf; any other node is wrapped. */
  function Parenthize(s: SignalLike, scope: Scope): Rendering
    decreases s, 1
  {
    var r :- EvaluateSignalLike(s, scope);
    Ok(if s.Signal? || s.Wire? then r else "(" + r + ")")
  }

  /** Wires are always named by the working module, whatever resolver
      the evaluator was given for signals. */
  function EvaluateWire(id: SignalId, scope: Scope): string {
    scope.wireName(id)
  }

  /** The digits after `'b`: `value.toString(2)` left-padded with zeros to
      `width` characters, never cut short. */
  function ConstantDigits(c: ConstantT): (digits: string)
    ensures IsBinary(digits) && BinaryValue(digits) == c.value
    ensures |digits| >= 1 && |digits| >= c.width
    ensures c.width >= 1 ==> (|digits| == c.width <==> c.value < Pow2(c.width))
  {
    var bits := BinaryString(c.value);
    var digits := PadStart(bits, c.width, '0');
    LeadingZerosKeepValue(digits[..|digits| - |bits|], bits);
    assert digits == digits[..|digits| - |bits|] + bits;
    if c.width >= 1 then BinaryStringFits(c.value, c.width); digits else digits
  }

  function EvaluateConstant(c: ConstantT): string {
    IntToDecimal(c.width) + "'b" + ConstantDigits(c)
  }

  /** The renderings of a concatenation's elements, in list order; the
      first element that fails aborts with its error. */
  function EvaluateAll(signals: seq<SignalLike>, scope: Scope): Result<seq<string>, EvaluationError>
    decreases signals
  {
    if signals == [] then Ok([])
    else
      var head :- EvaluateSignalLike(signals[0], scope);
      var tail :- EvaluateAll(signals[1..], scope);
      Ok([head] + tail)
  }

  function EvaluateConcat(c: ConcatT, scope: Scope): Rendering {
    var parts :- EvaluateAll(c.signals, scope);
    Ok("{" + Join(parts, ", ") + "}")
  }

  /** The operator is checked before the operand is rendered. */
  function EvaluateUnaryExpression(u: UnaryExpression, scope: Scope): Rendering {
    var op := OperationOf(u.op);
    if op.None? || UnaryGlyph(op.value).None? then
      Err(UnrecognisedUnaryOperation)
    else
      var a :- Parenthize(u.a, scope);
      Ok(UnaryGlyph(op.value).value + a)
  }

  function EvaluateComparrisonExpression(c: ComparrisonExpression, scope: Scope): Rendering {
    var op := ComparrisonOperationOf(c.comparrisonOp);
    if op.None? then
      Err(UnrecognisedComparrisonOperation)
    else
      var a :- Parenthize(c.a, scope);
      var b :- Evaluate(c.b, scope);
      Ok(a + " " + ComparrisonGlyph(op.value) + " " + b)
  }

  function EvaluateBooleanExpression(e: BooleanExpression, scope: Scope): Rendering {
    var op := BooleanOperationOf(e.op);
    if op.None? then
      Err(UnrecognisedBooleanOperation)
    else
      var a :- Parenthize(e.a, scope);
      var b :- Evaluate(e.b, scope);
      Ok(a + " " + BooleanGlyph(op.value) + " " + b)
  }

  /** The condition is rendered by the comparison rule, without a wrap. */
  function EvaluateTernaryExpression(t: TernaryExpression, scope: Scope): Rendering {
    var condition :- EvaluateComparrisonExpression(t.comparrison, scope);
    var a :- Evaluate(t.a, scope);
    var b :- Evaluate(t.b, scope);
    Ok(condition + " ? " + a + " : " + b)
  }

  function EvaluateOperationExpression(o: OperationExpression, scope: Scope): Rendering {
    var op := OperationOf(o.op);
    if op.None? || ArithmeticGlyph(op.value).None? then
      Err(UnrecognisedBinaryOperation)
    else
      var a :- Parenthize(o.a, scope);
      var b :- Evaluate(o.b, scope);
      Ok(a + " " + ArithmeticGlyph(op.value).value + " " + b)
  }

  /** A single-bit select when both bounds agree, a part select otherwise. */
  function EvaluateSlice(sl: SliceT, scope: Scope): Rendering {
    var a :- Parenthize(sl.a, scope);
    if sl.fromBit == sl.toBit then
      Ok(a + "[" + IntToDecimal(sl.fromBit) + "]")
    else
      Ok(a + "[" + IntToDecimal(sl.fromBit) + ":" + IntToDecimal(sl.toBit) + "]")
  }
}

/** The stateful evaluator object: it remembers the module it renders for
    and, optionally, a resolver injected for signals. */
module Evaluator {
  import opened Wrappers
  import opened MainTypes
  import ExpressionEvaluation

  /** A generator module, seen only through its descriptor lookup
      (`getModuleSignalDescriptor(s).name`). */
  datatype GWModule = GWModule(descriptorName: SignalId -> string)

  /** The default resolver is a closure over the evaluator itself, so it
      follows every later change of working module; an injected one does not. */
  datatype SignalResolver = Injected(resolve: SignalId -> string) | ThroughWorkingModule

  class ExpressionEvaluator {
    var workingModule: GWModule
    var signalResolver: SignalResolver

    constructor (m: GWModule, resolveSignal: Option<SignalId -> string>)
      ensures workingModule == m
      ensures signalResolver == if resolveSignal.Some? then Injected(resolveSignal.value) else ThroughWorkingModule
    {
      workingModule := m;
      signalResolver := if resolveSignal.Some? then Injected(resolveSignal.value) else ThroughWorkingModule;
    }

    /** The names a render call sees right now. */
    function CurrentScope(): ExpressionEvaluation.Scope
      reads this
    {
      var signalName := match signalResolver
        case Injected(f) => f
        case ThroughWorkingModule => workingModule.descriptorName;
      ExpressionEvaluation.Scope(signalName, workingModule.descriptorName)
    }

    method SetWorkingModule(m: GWModule)
      modifies this
      ensures workingModule == m && signalResolver == old(signalResolver)
      ensures CurrentScope().wireName == m.descriptorName
      ensures CurrentScope().signalName ==
        if signalResolver.Injected? then old(CurrentScope().signalName) else m.descriptorName
    {
      workingModule := m;
    }

    method Evaluate(expr: SignalLikeOrValue) returns (r: ExpressionEvaluation.Rendering)
      ensures r == ExpressionEvaluation.Evaluate(expr, CurrentScope())
    {
      r := ExpressionEvaluation.Evaluate(expr, CurrentScope());
    }

    method EvaluateWire(id: SignalId) returns (name: string)
      ensures name == workingModule.descriptorName(id)
    {
      name := ExpressionEvaluation.EvaluateWire(id, CurrentScope());
    }
  }
}
