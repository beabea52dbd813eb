/** What the parenthesisation rule buys: when names contain balanced
    parentheses (identifiers contain none), every rendering has balanced
    parentheses, and a compound left or base operand comes out as one
    group whose opening parenthesis is closed by its last character, so
    the operator next to it can never take part of it. Right operands get
    no such group. */
module Grouping {
  import opened MainTypes
  import opened Text
  import opened ExpressionEvaluation
  import opened EvaluationProperties

  /** Open parentheses minus closed ones. */
  function Depth(s: string): int {
    if s == [] then 0
    else Depth(s[..|s| - 1]) + (if s[|s| - 1] == '(' then 1 else if s[|s| - 1] == ')' then -1 else 0)
  }

  /** Every prefix closes no more than it opens, and the whole closes all. */
  ghost predicate Balanced(s: string) {
    Depth(s) == 0 && forall k :: 0 <= k <= |s| ==> Depth(s[..k]) >= 0
  }

  /** One parenthesised group: the first character opens a parenthesis
      that stays open until the last character. */
  ghost predicate Enclosed(s: string) {
    |s| >= 2 && s[0] == '(' && Balanced(s) && forall k :: 1 <= k < |s| ==> Depth(s[..k]) >= 1
  }

  predicate ParenFree(s: string) {
    forall i :: 0 <= i < |s| ==> s[i] != '(' && s[i] != ')'
  }

  /* ----------------------- facts about Depth --------------------------- */

  lemma {:induction false} DepthAppend(a: string, b: string)
    ensures Depth(a + b) == Depth(a) + Depth(b)
    decreases |b|
  {
    if b == [] {
      assert a + b == a;
    } else {
      assert (a + b)[..|a + b| - 1] == a + b[..|b| - 1];
      DepthAppend(a, b[..|b| - 1]);
    }
  }

  lemma {:induction false} ParenFreeDepth(s: string)
    requires ParenFree(s)
    ensures Depth(s) == 0
  {
    if s != [] {
      ParenFreeDepth(s[..|s| - 1]);
    }
  }

  lemma ParenFreeBalanced(s: string)
    requires ParenFree(s)
    ensures Balanced(s)
  {
    ParenFreeDepth(s);
    forall k | 0 <= k <= |s|
      ensures Depth(s[..k]) >= 0
    {
      ParenFreeDepth(s[..k]);
    }
  }

  lemma BalancedAppend(a: string, b: string)
    requires Balanced(a) && Balanced(b)
    ensures Balanced(a + b)
  {
    DepthAppend(a, b);
    forall k | 0 <= k <= |a + b|
      ensures Depth((a + b)[..k]) >= 0
    {
      if k <= |a| {
        assert (a + b)[..k] == a[..k];
      } else {
        assert (a + b)[..k] == a + b[..k - |a|];
        DepthAppend(a, b[..k - |a|]);
      }
    }
  }

  lemma AppendParenFree(a: string, t: string)
    requires Balanced(a) && ParenFree(t)
    ensures Balanced(a + t)
  {
    ParenFreeBalanced(t);
    BalancedAppend(a, t);
  }

  lemma Wrap(s: string)
    requires Balanced(s)
    ensures Enclosed("(" + s + ")")
  {
    var w := "(" + s + ")";
    OneChar('(');
    OneChar(')');
    DepthAppend("(", s);
    DepthAppend("(" + s, ")");
    forall k | 1 <= k < |w|
      ensures Depth(w[..k]) >= 1
    {
      assert w[..k] == "(" + s[..k - 1];
      DepthAppend("(", s[..k - 1]);
    }
    forall k | 0 <= k <= |w|
      ensures Depth(w[..k]) >= 0
    {
      if k == 0 {
        assert w[..k] == [];
      } else if k == |w| {
        assert w[..k] == w;
      }
    }
  }

  /** A single character changes the depth by its own parenthesis. */
  lemma OneChar(c: char)
    ensures Depth([c]) == if c == '(' then 1 else if c == ')' then -1 else 0
  {
    assert [c][..0] == [];
  }

  /* -------------------------- paren-free pieces ------------------------ */

  lemma DecimalParenFree(n: int)
    ensures ParenFree(IntToDecimal(n))
  {
    if n < 0 {
      var digits := NatToDecimal(-n);
      assert IntToDecimal(n) == "-" + digits;
      assert forall i :: 0 <= i < |digits| ==> IsDigit(digits[i]);
    } else {
      assert forall i :: 0 <= i < |IntToDecimal(n)| ==> IsDigit(IntToDecimal(n)[i]);
    }
  }

  lemma ParenFreeAppend(a: string, b: string)
    requires ParenFree(a) && ParenFree(b)
    ensures ParenFree(a + b)
  {
    forall i | 0 <= i < |a + b|
      ensures (a + b)[i] != '(' && (a + b)[i] != ')'
    {
      if i >= |a| {
        assert (a + b)[i] == b[i - |a|];
      }
    }
  }

  lemma LiteralParenFree(width: string, digits: string)
    requires ParenFree(width) && IsBinary(digits)
    ensures ParenFree(width + "'b" + digits)
  {
    assert ParenFree("'b");
    assert ParenFree(digits);
    ParenFreeAppend(width, "'b");
    ParenFreeAppend(width + "'b", digits);
  }

  lemma ConstantBalanced(c: ConstantT)
    ensures Balanced(EvaluateConstant(c))
  {
    DecimalParenFree(c.width);
    LiteralParenFree(IntToDecimal(c.width), ConstantDigits(c));
    ParenFreeBalanced(EvaluateConstant(c));
  }

  lemma InfixBalanced(left: string, glyph: string, right: string)
    requires Balanced(left) && ParenFree(glyph) && Balanced(right)
    ensures Balanced(Infix(left, glyph, right))
  {
    var middle := " " + glyph + " ";
    assert ParenFree(middle);
    ParenFreeBalanced(middle);
    BalancedAppend(left, middle);
    BalancedAppend(left + middle, right);
    assert Infix(left, glyph, right) == left + middle + right;
  }

  lemma {:induction false} JoinBalanced(parts: seq<string>, separator: string)
    requires forall i :: 0 <= i < |parts| ==> Balanced(parts[i])
    requires ParenFree(separator)
    ensures Balanced(Join(parts, separator))
    decreases |parts|
  {
    if |parts| == 0 {
      ParenFreeBalanced("");
    } else if |parts| > 1 {
      JoinBalanced(parts[1..], separator);
      ParenFreeBalanced(separator);
      BalancedAppend(parts[0], separator);
      BalancedAppend(parts[0] + separator, Join(parts[1..], separator));
    }
  }

  /* ----------------------------- the theorem --------------------------- */

  /** Every name a tree's leaves receive is balanced. */
  ghost predicate BalancedNames(leaves: set<Leaf>, scope: Scope) {
    forall l :: l in leaves ==> Balanced(LeafName(l, scope))
  }

  lemma {:induction false} OperandBalanced(e: SignalLikeOrValue, scope: Scope)
    requires BalancedNames(LeavesOfOperand(e), scope)
    ensures Evaluate(e, scope).Ok? ==> Balanced(Evaluate(e, scope).value)
    decreases e, 1
  {
    match e
    case Value(n) =>
      DecimalParenFree(n);
      ParenFreeBalanced(IntToDecimal(n));
    case Node(s) =>
      LeftOperandGrouped(s, scope);
  }

  /** With balanced names, a node renders with balanced parentheses, and
      `parenthize` turns every node that is not a signal or wire leaf into
      a single enclosing group. */
  lemma {:induction false} LeftOperandGrouped(s: SignalLike, scope: Scope)
    requires BalancedNames(Leaves(s), scope)
    ensures EvaluateSignalLike(s, scope).Ok? ==> Balanced(EvaluateSignalLike(s, scope).value)
    ensures Parenthize(s, scope).Ok? ==> Balanced(Parenthize(s, scope).value)
    ensures Parenthize(s, scope).Ok? && !(s.Signal? || s.Wire?) ==> Enclosed(Parenthize(s, scope).value)
    decreases s, 0
  {
    match s {
      case Signal(id, _) =>
        assert SignalLeaf(id) in Leaves(s);
      case Wire(id, _) =>
        assert WireLeaf(id) in Leaves(s);
      case Constant(c) =>
        ConstantBalanced(c);
      case Concat(c) =>
        AllBalanced(c.signals, scope);
        ConcatBalanced(c, scope);
      case UnaryExpr(u) =>
        LeftOperandGrouped(u.a, scope);
        UnaryBalanced(u, scope);
      case ComparrisonExpr(c) =>
        ComparrisonBalanced(c, scope);
      case TernaryExpr(t) =>
        ComparrisonBalanced(t.comparrison, scope);
        OperandBalanced(t.a, scope);
        OperandBalanced(t.b, scope);
        TernaryBalanced(t, scope);
      case BooleanExpr(e) =>
        LeftOperandGrouped(e.a, scope);
        OperandBalanced(e.b, scope);
        BooleanBalanced(e, scope);
      case OperationExpr(o) =>
        LeftOperandGrouped(o.a, scope);
        OperandBalanced(o.b, scope);
        OperationBalanced(o, scope);
      case Slice(sl) =>
        LeftOperandGrouped(sl.a, scope);
        SliceBalanced(sl, scope);
      case BaseSignal(_) =>
    }
    ParenthizeGroups(s, scope);
  }

  /** Wrapping a balanced rendering gives one group. */
  lemma ParenthizeGroups(s: SignalLike, scope: Scope)
    requires EvaluateSignalLike(s, scope).Ok? ==> Balanced(EvaluateSignalLike(s, scope).value)
    ensures Parenthize(s, scope).Ok? ==> Balanced(Parenthize(s, scope).value)
    ensures Parenthize(s, scope).Ok? && !(s.Signal? || s.Wire?) ==> Enclosed(Parenthize(s, scope).value)
  {
    if EvaluateSignalLike(s, scope).Ok? && !(s.Signal? || s.Wire?) {
      Wrap(EvaluateSignalLike(s, scope).value);
    }
  }

  lemma ConcatBalanced(c: ConcatT, scope: Scope)
    requires EvaluateAll(c.signals, scope).Ok? ==>
      forall i :: 0 <= i < |EvaluateAll(c.signals, scope).value| ==> Balanced(EvaluateAll(c.signals, scope).value[i])
    ensures EvaluateConcat(c, scope).Ok? ==> Balanced(EvaluateConcat(c, scope).value)
  {
    var parts := EvaluateAll(c.signals, scope);
    if parts.Ok? {
      JoinBalanced(parts.value, ", ");
      ParenFreeBalanced("{");
      ParenFreeBalanced("}");
      BalancedAppend("{", Join(parts.value, ", "));
      BalancedAppend("{" + Join(parts.value, ", "), "}");
    }
  }

  lemma UnaryBalanced(u: UnaryExpression, scope: Scope)
    requires Parenthize(u.a, scope).Ok? ==> Balanced(Parenthize(u.a, scope).value)
    ensures EvaluateUnaryExpression(u, scope).Ok? ==> Balanced(EvaluateUnaryExpression(u, scope).value)
  {
    if EvaluateUnaryExpression(u, scope).Ok? {
      var glyph := UnaryGlyph(OperationOf(u.op).value).value;
      assert ParenFree(glyph);
      ParenFreeBalanced(glyph);
      BalancedAppend(glyph, Parenthize(u.a, scope).value);
    }
  }

  lemma TernaryBalanced(t: TernaryExpression, scope: Scope)
    requires EvaluateComparrisonExpression(t.comparrison, scope).Ok? ==>
      Balanced(EvaluateComparrisonExpression(t.comparrison, scope).value)
    requires Evaluate(t.a, scope).Ok? ==> Balanced(Evaluate(t.a, scope).value)
    requires Evaluate(t.b, scope).Ok? ==> Balanced(Evaluate(t.b, scope).value)
    ensures EvaluateTernaryExpression(t, scope).Ok? ==> Balanced(EvaluateTernaryExpression(t, scope).value)
  {
    if EvaluateTernaryExpression(t, scope).Ok? {
      var condition := EvaluateComparrisonExpression(t.comparrison, scope).value;
      var a := Evaluate(t.a, scope).value;
      var b := Evaluate(t.b, scope).value;
      ParenFreeBalanced(" ? ");
      ParenFreeBalanced(" : ");
      BalancedAppend(condition, " ? ");
      BalancedAppend(condition + " ? ", a);
      BalancedAppend(condition + " ? " + a, " : ");
      BalancedAppend(condition + " ? " + a + " : ", b);
    }
  }

  lemma BooleanBalanced(e: BooleanExpression, scope: Scope)
    requires Parenthize(e.a, scope).Ok? ==> Balanced(Parenthize(e.a, scope).value)
    requires Evaluate(e.b, scope).Ok? ==> Balanced(Evaluate(e.b, scope).value)
    ensures EvaluateBooleanExpression(e, scope).Ok? ==> Balanced(EvaluateBooleanExpression(e, scope).value)
  {
    if EvaluateBooleanExpression(e, scope).Ok? {
      InfixBalanced(Parenthize(e.a, scope).value, BooleanGlyph(BooleanOperationOf(e.op).value), Evaluate(e.b, scope).value);
    }
  }

  lemma OperationBalanced(o: OperationExpression, scope: Scope)
    requires Parenthize(o.a, scope).Ok? ==> Balanced(Parenthize(o.a, scope).value)
    requires Evaluate(o.b, scope).Ok? ==> Balanced(Evaluate(o.b, scope).value)
    ensures EvaluateOperationExpression(o, scope).Ok? ==> Balanced(EvaluateOperationExpression(o, scope).value)
  {
    if EvaluateOperationExpression(o, scope).Ok? {
      InfixBalanced(Parenthize(o.a, scope).value, ArithmeticGlyph(OperationOf(o.op).value).value, Evaluate(o.b, scope).value);
    }
  }

  lemma SliceBalanced(sl: SliceT, scope: Scope)
    requires Parenthize(sl.a, scope).Ok? ==> Balanced(Parenthize(sl.a, scope).value)
    ensures EvaluateSlice(sl, scope).Ok? ==> Balanced(EvaluateSlice(sl, scope).value)
  {
    var p := Parenthize(sl.a, scope);
    if p.Ok? {
      DecimalParenFree(sl.fromBit);
      DecimalParenFree(sl.toBit);
      SelectBalanced(p.value, IntToDecimal(sl.fromBit), IntToDecimal(sl.toBit));
    }
  }

  /** A balanced base followed by a bit or part select of paren-free
      bounds stays balanced. */
  lemma SelectBalanced(a: string, from: string, to: string)
    requires Balanced(a) && ParenFree(from) && ParenFree(to)
    ensures Balanced(a + "[" + from + "]")
    ensures Balanced(a + "[" + from + ":" + to + "]")
  {
    ParenFreeAppend("[", from);
    ParenFreeAppend("[" + from, "]");
    ParenFreeAppend("[" + from, ":");
    ParenFreeAppend("[" + from + ":", to);
    ParenFreeAppend("[" + from + ":" + to, "]");
    AppendParenFree(a, "[" + from + "]");
    assert a + "[" + from + "]" == a + ("[" + from + "]");
    AppendParenFree(a, "[" + from + ":" + to + "]");
    assert a + "[" + from + ":" + to + "]" == a + ("[" + from + ":" + to + "]");
  }

  lemma {:induction false} AllBalanced(signals: seq<SignalLike>, scope: Scope)
    requires BalancedNames(LeavesOfAll(signals), scope)
    ensures EvaluateAll(signals, scope).Ok? ==>
      forall i :: 0 <= i < |EvaluateAll(signals, scope).value| ==> Balanced(EvaluateAll(signals, scope).value[i])
    decreases signals
  {
    if signals != [] {
      LeftOperandGrouped(signals[0], scope);
      AllBalanced(signals[1..], scope);
      if EvaluateAll(signals, scope).Ok? {
        var head := EvaluateSignalLike(signals[0], scope).value;
        var tail := EvaluateAll(signals[1..], scope).value;
        assert EvaluateAll(signals, scope).value == [head] + tail;
      }
    }
  }

  lemma {:induction false} ComparrisonBalanced(c: ComparrisonExpression, scope: Scope)
    requires BalancedNames(LeavesOfComparrison(c), scope)
    ensures EvaluateComparrisonExpression(c, scope).Ok? ==> Balanced(EvaluateComparrisonExpression(c, scope).value)
    decreases c, 0
  {
    LeftOperandGrouped(c.a, scope);
    OperandBalanced(c.b, scope);
    if EvaluateComparrisonExpression(c, scope).Ok? {
      InfixBalanced(Parenthize(c.a, scope).value, ComparrisonGlyph(ComparrisonOperationOf(c.comparrisonOp).value), Evaluate(c.b, scope).value);
    }
  }
}
