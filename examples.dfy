/** Whole renders of small trees, one per shape the renderer's users meet:
    a comparison, a negated comparison, a part select of a compound base,
    a conditional with a constant branch, and a nested subtraction. */
module Examples {
  import opened Wrappers
  import opened MainTypes
  import opened Text
  import opened ExpressionEvaluation

  lemma SingleDigit(n: nat)
    requires n < 10
    ensures IntToDecimal(n) == [('0' as int + n) as char]
  {
  }

  /** `a == 3`, with signal 0 named "foo". */
  function FooEqualsThree(): ComparrisonExpression {
    ComparrisonExpression(Signal(0, 4), Value(3), ComparrisonOperation.Equal.Ordinal())
  }

  lemma ComparrisonExample(scope: Scope)
    requires scope.signalName(0) == "foo"
    ensures EvaluateSignalLike(ComparrisonExpr(FooEqualsThree()), scope) == Ok("foo == 3")
  {
    SingleDigit(3);
    assert Parenthize(Signal(0, 4), scope) == Ok("foo");
    assert Evaluate(Value(3), scope) == Ok("3");
    assert EvaluateComparrisonExpression(FooEqualsThree(), scope) == Ok("foo" + " " + "==" + " " + "3");
    assert "foo" + " " + "==" + " " + "3" == "foo == 3";
  }

  /** A logical not over a comparison wraps the comparison. */
  lemma NegatedComparrisonExample(scope: Scope)
    requires scope.signalName(0) == "foo"
    ensures EvaluateSignalLike(UnaryExpr(UnaryExpression(ComparrisonExpr(FooEqualsThree()), Operation.LogicalNot.Ordinal(), 1)), scope)
      == Ok("!(foo == 3)")
  {
    ComparrisonExample(scope);
    assert Parenthize(ComparrisonExpr(FooEqualsThree()), scope) == Ok("(" + "foo == 3" + ")");
    assert "!" + ("(" + "foo == 3" + ")") == "!(foo == 3)";
  }

  /** `[3:0]` over `x & y` wraps the and. */
  lemma PartSelectExample(scope: Scope)
    requires scope.signalName(1) == "x" && scope.signalName(2) == "y"
    ensures EvaluateSignalLike(Slice(SliceT(BooleanExpr(XAndY()), 3, 0, 4)), scope) == Ok("(x & y)[3:0]")
  {
    SingleDigit(3);
    SingleDigit(0);
    assert Parenthize(Signal(1, 8), scope) == Ok("x");
    assert Evaluate(Node(Signal(2, 8)), scope) == Ok("y");
    assert EvaluateSignalLike(BooleanExpr(XAndY()), scope) == Ok("x" + " " + "&" + " " + "y");
    assert "x" + " " + "&" + " " + "y" == "x & y";
    assert Parenthize(BooleanExpr(XAndY()), scope) == Ok("(" + "x & y" + ")");
    assert "(" + "x & y" + ")" + "[" + "3" + ":" + "0" + "]" == "(x & y)[3:0]";
  }

  /** `x & y` over eight-bit signals 1 and 2. */
  function XAndY(): BooleanExpression {
    BooleanExpression(Signal(1, 8), Node(Signal(2, 8)), BooleanOperation.And.Ordinal(), 8)
  }

  /** A four-bit zero is written with all four digits. */
  lemma ConstantExample(scope: Scope)
    ensures EvaluateSignalLike(Constant(ConstantT(0, 4)), scope) == Ok("4'b0000")
  {
    SingleDigit(4);
    assert BinaryString(0) == "0";
    assert PadStart("0", 4, '0') == "0000";
    assert EvaluateConstant(ConstantT(0, 4)) == "4" + "'b" + "0000";
    assert "4" + "'b" + "0000" == "4'b0000";
  }

  /** `a > b`, over four-bit signals 1 and 2. */
  function AGreaterThanB(): ComparrisonExpression {
    ComparrisonExpression(Signal(1, 4), Node(Signal(2, 4)), ComparrisonOperation.GreaterThan.Ordinal())
  }

  lemma GreaterThanExample(scope: Scope)
    requires scope.signalName(1) == "a" && scope.signalName(2) == "b"
    ensures EvaluateComparrisonExpression(AGreaterThanB(), scope) == Ok("a > b")
  {
    assert Parenthize(Signal(1, 4), scope) == Ok("a");
    assert Evaluate(Node(Signal(2, 4)), scope) == Ok("b");
    assert "a" + " " + ">" + " " + "b" == "a > b";
  }

  /** `a > b ? c : 4'b0000`: the condition is not wrapped. */
  lemma TernaryExample(scope: Scope)
    requires scope.signalName(1) == "a" && scope.signalName(2) == "b" && scope.signalName(3) == "c"
    ensures EvaluateSignalLike(TernaryExpr(TernaryExpression(Node(Signal(3, 4)), Node(Constant(ConstantT(0, 4))), AGreaterThanB(), 4)), scope)
      == Ok("a > b ? c : 4'b0000")
  {
    var t := TernaryExpression(Node(Signal(3, 4)), Node(Constant(ConstantT(0, 4))), AGreaterThanB(), 4);
    GreaterThanExample(scope);
    ConstantExample(scope);
    assert Evaluate(t.a, scope) == Ok("c");
    assert Evaluate(t.b, scope) == Ok("4'b0000");
    assert EvaluateTernaryExpression(t, scope) == Ok("a > b" + " ? " + "c" + " : " + "4'b0000");
    assert "a > b" + " ? " + "c" + " : " + "4'b0000" == "a > b ? c : 4'b0000";
  }


  /** `a - (b - c)` loses its grouping: a right operand is never wrapped,
      so the text is that of `(a - b) - c` without its parentheses, and
      Verilog groups binary operators of equal precedence from the left. */
  lemma RightOperandNotGrouped(scope: Scope)
    requires scope.signalName(1) == "a" && scope.signalName(2) == "b" && scope.signalName(3) == "c"
    ensures EvaluateSignalLike(OperationExpr(Minus(Signal(1, 8), OperationExpr(Minus(Signal(2, 8), Signal(3, 8))))), scope)
      == Ok("a - b - c")
    ensures EvaluateSignalLike(OperationExpr(Minus(OperationExpr(Minus(Signal(1, 8), Signal(2, 8))), Signal(3, 8))), scope)
      == Ok("(a - b) - c")
  {
    assert Parenthize(Signal(1, 8), scope) == Ok("a");
    assert Parenthize(Signal(2, 8), scope) == Ok("b");
    assert Evaluate(Node(Signal(2, 8)), scope) == Ok("b");
    assert Evaluate(Node(Signal(3, 8)), scope) == Ok("c");
    assert EvaluateSignalLike(OperationExpr(Minus(Signal(2, 8), Signal(3, 8))), scope) == Ok("b" + " " + "-" + " " + "c");
    assert EvaluateSignalLike(OperationExpr(Minus(Signal(1, 8), Signal(2, 8))), scope) == Ok("a" + " " + "-" + " " + "b");
    assert "a" + " " + "-" + " " + ("b" + " " + "-" + " " + "c") == "a - b - c";
    assert Parenthize(OperationExpr(Minus(Signal(1, 8), Signal(2, 8))), scope) == Ok("(" + ("a" + " " + "-" + " " + "b") + ")");
    assert "(" + ("a" + " " + "-" + " " + "b") + ")" + " " + "-" + " " + "c" == "(a - b) - c";
  }

  /** `a & (b | c)` renders as `a & b | c`, which Verilog reads as
      `(a & b) | c`, since `&` binds tighter than `|`. */
  lemma RightOperandLosesPrecedence(scope: Scope)
    requires scope.signalName(1) == "a" && scope.signalName(2) == "b" && scope.signalName(3) == "c"
    ensures EvaluateSignalLike(BooleanExpr(BooleanExpression(
      Signal(1, 8), Node(BooleanExpr(BooleanExpression(Signal(2, 8), Node(Signal(3, 8)), BooleanOperation.Or.Ordinal(), 8))),
      BooleanOperation.And.Ordinal(), 8)), scope)
      == Ok("a & b | c")
  {
    var inner := BooleanExpression(Signal(2, 8), Node(Signal(3, 8)), BooleanOperation.Or.Ordinal(), 8);
    assert Parenthize(Signal(1, 8), scope) == Ok("a");
    assert Parenthize(Signal(2, 8), scope) == Ok("b");
    assert Evaluate(Node(Signal(3, 8)), scope) == Ok("c");
    assert EvaluateSignalLike(BooleanExpr(inner), scope) == Ok("b" + " " + "|" + " " + "c");
    assert "a" + " " + "&" + " " + ("b" + " " + "|" + " " + "c") == "a & b | c";
  }

  /** An eight-bit subtraction. */
  function Minus(a: SignalLike, b: SignalLike): OperationExpression {
    OperationExpression(a, Node(b), Operation.Minus.Ordinal(), 8)
  }
}
