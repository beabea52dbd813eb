/** What the renderer promises: the text of each node kind in terms of the
    texts of its parts, exactly which trees render and which abort, that
    only the names of a tree's own leaves matter, and how sized literals
    read back. */
module EvaluationProperties {
  import opened Wrappers
  import opened MainTypes
  import opened Text
  import opened ExpressionEvaluation

  /* ------------------------------ leaves ------------------------------- */

  /** A bare number prints as decimal text that reads back as the number. */
  lemma NumberRendering(n: int, scope: Scope)
    ensures Evaluate(Value(n), scope).Ok?
    ensures ParseInt(Evaluate(Value(n), scope).value) == Some(n)
  {
  }

  /** A signal is named by the signal resolver alone, a wire by the
      working module alone, and neither is ever parenthesised. */
  lemma LeafRendering(id: SignalId, width: nat, scope: Scope)
    ensures Evaluate(Node(Signal(id, width)), scope) == Ok(scope.signalName(id))
    ensures forall resolver: SignalId -> string ::
      Evaluate(Node(Wire(id, width)), Scope(resolver, scope.wireName)) == Ok(scope.wireName(id))
    ensures Parenthize(Signal(id, width), scope) == Ok(scope.signalName(id))
    ensures Parenthize(Wire(id, width), scope) == Ok(scope.wireName(id))
  {
  }

  /** `parenthize` adds exactly one pair of parentheses around every node
      that is not a signal or wire, constants, concatenations and slices
      included, and fails exactly when the operand fails. */
  lemma ParenthizeRule(s: SignalLike, scope: Scope)
    ensures Parenthize(s, scope).Ok? <==> EvaluateSignalLike(s, scope).Ok?
    ensures Parenthize(s, scope).Ok? && (s.Signal? || s.Wire?) ==>
      Parenthize(s, scope).value == EvaluateSignalLike(s, scope).value
    ensures Parenthize(s, scope).Ok? && !(s.Signal? || s.Wire?) ==>
      Parenthize(s, scope).value == "(" + EvaluateSignalLike(s, scope).value + ")"
  {
  }

  /* ---------------------------- constants ------------------------------ */

  /** Index of the first `'` in `text`, or `|text|` when there is none. */
  function QuoteIndex(text: string): (k: nat)
    ensures k <= |text|
    ensures forall i :: 0 <= i < k ==> text[i] != '\''
    ensures k < |text| ==> text[k] == '\''
  {
    if text == [] then 0
    else if text[0] == '\'' then 0
    else 1 + QuoteIndex(text[1..])
  }

  /** How a Verilog reader takes a sized binary literal `size'bdigits`
      (section 3.5.1 of IEEE 1364-2005): the size is a nonzero unsigned
      decimal, and the reader yields it and the value of the digits cut to
      `size` bits (a literal with more digits than its size is truncated
      from the left). Any other text is not a sized binary literal. */
  function ReadSizedBinary(text: string): Option<(nat, nat)> {
    var q := QuoteIndex(text);
    if 1 <= q && q + 2 < |text| && AllDigits(text[..q]) && DecimalValue(text[..q]) >= 1
      && text[q + 1] == 'b' && IsBinary(text[q + 2..])
    then
      var size := DecimalValue(text[..q]);
      Some((size, BinaryValue(text[q + 2..]) % Pow2(size)))
    else
      None
  }

  /** A constant always renders, as its width, `'b` and binary digits. For
      a width of at least 1 a reader gets back the width and the value cut
      to `width` bits, which is the value itself exactly when it fits; a
      zero width gives text that is not a legal sized literal. */
  lemma ConstantRendering(c: ConstantT, scope: Scope)
    ensures EvaluateSignalLike(Constant(c), scope).Ok?
    ensures c.width >= 1 ==>
      ReadSizedBinary(EvaluateSignalLike(Constant(c), scope).value) == Some((c.width, c.value % Pow2(c.width)))
    ensures c.width >= 1 ==>
      (ReadSizedBinary(EvaluateSignalLike(Constant(c), scope).value) == Some((c.width, c.value)) <==> c.value < Pow2(c.width))
    ensures c.width == 0 ==> ReadSizedBinary(EvaluateSignalLike(Constant(c), scope).value) == None
  {
    assert EvaluateSignalLike(Constant(c), scope) == Ok(EvaluateConstant(c));
    SizedLiteralReadsBack(c.width, ConstantDigits(c));
    if c.value < Pow2(c.width) {
      SmallModulus(c.value, Pow2(c.width));
    } else {
      assert c.value % Pow2(c.width) < Pow2(c.width);
    }
  }

  lemma SmallModulus(v: nat, m: nat)
    requires v < m
    ensures v % m == v
  {
  }

  /** `size'bdigits` reads back as the size and the digits' value cut to
      `size` bits when the size is nonzero, and is rejected when it is 0. */
  lemma SizedLiteralReadsBack(size: nat, digits: string)
    requires IsBinary(digits) && |digits| >= 1
    ensures size >= 1 ==>
      ReadSizedBinary(IntToDecimal(size) + "'b" + digits) == Some((size, BinaryValue(digits) % Pow2(size)))
    ensures size == 0 ==> ReadSizedBinary(IntToDecimal(size) + "'b" + digits) == None
  {
    assert IntToDecimal(size) == NatToDecimal(size);
    SizeDigitsRead(NatToDecimal(size), digits);
  }

  /** The reading of `w'bdigits` for any run of decimal digits `w`. */
  lemma SizeDigitsRead(w: string, digits: string)
    requires |w| >= 1 && AllDigits(w)
    requires IsBinary(digits) && |digits| >= 1
    ensures ReadSizedBinary(w + "'b" + digits) ==
      if DecimalValue(w) >= 1 then Some((DecimalValue(w), BinaryValue(digits) % Pow2(DecimalValue(w)))) else None
  {
    var text := w + "'b" + digits;
    assert text == w + ("'b" + digits);
    QuoteAfterDigits(w, "'b" + digits);
    assert text[..|w|] == w;
    assert text[|w| + 1] == 'b';
    assert text[|w| + 2..] == digits;
  }

  lemma {:induction false} QuoteAfterDigits(digits: string, rest: string)
    requires AllDigits(digits)
    requires |rest| >= 1 && rest[0] == '\''
    ensures QuoteIndex(digits + rest) == |digits|
  {
    if digits != [] {
      assert (digits + rest)[1..] == digits[1..] + rest;
      QuoteAfterDigits(digits[1..], rest);
    } else {
      assert digits + rest == rest;
    }
  }

  /** A zero-width zero still prints one digit, "0'b0", which is not a
      legal sized literal: its size is 0. */
  lemma ZeroWidthConstant(scope: Scope)
    ensures EvaluateSignalLike(Constant(ConstantT(0, 0)), scope) == Ok("0'b0")
    ensures ReadSizedBinary("0'b0") == None
  {
    var c := ConstantT(0, 0);
    assert BinaryString(0) == "0";
    assert PadStart("0", 0, '0') == "0";
    assert ConstantDigits(c) == "0";
    assert IntToDecimal(0) == "0";
    assert EvaluateConstant(c) == "0" + "'b" + "0" == "0'b0";
    assert EvaluateSignalLike(Constant(c), scope) == Ok(EvaluateConstant(c));
    ConstantRendering(c, scope);
  }

  /* -------------------------- compound nodes --------------------------- */

  /** The elements of a concatenation render one by one, in list order:
      the list renders exactly when every element does, one text per
      element, and otherwise fails with the error of the first element
      that fails. */
  lemma {:induction false} EvaluateAllInOrder(signals: seq<SignalLike>, scope: Scope)
    ensures EvaluateAll(signals, scope).Ok? <==> forall i :: 0 <= i < |signals| ==> EvaluateSignalLike(signals[i], scope).Ok?
    ensures EvaluateAll(signals, scope).Ok? ==> |EvaluateAll(signals, scope).value| == |signals|
    ensures EvaluateAll(signals, scope).Ok? ==>
      forall i :: 0 <= i < |signals| ==> EvaluateAll(signals, scope).value[i] == EvaluateSignalLike(signals[i], scope).value
    ensures EvaluateAll(signals, scope).Err? ==>
      exists k :: FirstFailure(signals, scope, k) && EvaluateSignalLike(signals[k], scope) == Err(EvaluateAll(signals, scope).error)
    decreases signals
  {
    if signals != [] {
      var tail := signals[1..];
      EvaluateAllInOrder(tail, scope);
      assert forall i :: 1 <= i < |signals| ==> signals[i] == tail[i - 1];
      var head := EvaluateSignalLike(signals[0], scope);
      if head.Ok? && EvaluateAll(tail, scope).Err? {
        var k :| FirstFailure(tail, scope, k) && EvaluateSignalLike(tail[k], scope) == Err(EvaluateAll(tail, scope).error);
        assert FirstFailure(signals, scope, k + 1);
      } else if head.Err? {
        assert FirstFailure(signals, scope, 0);
      }
    }
  }

  /** Element `k` fails and every element before it renders. */
  ghost predicate FirstFailure(signals: seq<SignalLike>, scope: Scope, k: int) {
    && 0 <= k < |signals|
    && EvaluateSignalLike(signals[k], scope).Err?
    && forall i :: 0 <= i < k ==> EvaluateSignalLike(signals[i], scope).Ok?
  }

  /** A concatenation renders when all its elements do, as the element
      texts in list order between braces, separated by ", ". */
  lemma ConcatRendering(c: ConcatT, scope: Scope)
    ensures EvaluateSignalLike(Concat(c), scope).Ok? <==>
      forall i :: 0 <= i < |c.signals| ==> EvaluateSignalLike(c.signals[i], scope).Ok?
    ensures EvaluateSignalLike(Concat(c), scope).Ok? ==>
      exists parts: seq<string> ::
        && |parts| == |c.signals|
        && (forall i :: 0 <= i < |parts| ==> parts[i] == EvaluateSignalLike(c.signals[i], scope).value)
        && EvaluateSignalLike(Concat(c), scope).value == "{" + Join(parts, ", ") + "}"
  {
    EvaluateAllInOrder(c.signals, scope);
    var parts := EvaluateAll(c.signals, scope);
    if parts.Ok? {
      assert |parts.value| == |c.signals|;
    }
  }

  /** A one-element concatenation is still braced. */
  lemma ConcatOfOne(x: SignalLike, width: nat, scope: Scope)
    requires EvaluateSignalLike(x, scope).Ok?
    ensures EvaluateSignalLike(Concat(ConcatT([x], width)), scope) == Ok("{" + EvaluateSignalLike(x, scope).value + "}")
  {
    EvaluateAllOfOne(x, scope);
    JoinOfOne(EvaluateSignalLike(x, scope).value, ", ");
  }

  lemma EvaluateAllOfOne(x: SignalLike, scope: Scope)
    requires EvaluateSignalLike(x, scope).Ok?
    ensures EvaluateAll([x], scope) == Ok([EvaluateSignalLike(x, scope).value])
  {
    assert [x][1..] == [];
    assert [EvaluateSignalLike(x, scope).value] + [] == [EvaluateSignalLike(x, scope).value];
  }

  lemma JoinOfOne(part: string, separator: string)
    ensures Join([part], separator) == part
  {
  }



  /** `~` and `!` prefix the parenthesised operand; every other number in
      the operator field, including Plus, Minus and Bit, throws before the
      operand is looked at. */
  lemma UnaryRendering(u: UnaryExpression, scope: Scope)
    ensures u.op == Not.Ordinal() && Parenthize(u.a, scope).Ok? ==>
      EvaluateSignalLike(UnaryExpr(u), scope) == Ok("~" + Parenthize(u.a, scope).value)
    ensures u.op == LogicalNot.Ordinal() && Parenthize(u.a, scope).Ok? ==>
      EvaluateSignalLike(UnaryExpr(u), scope) == Ok("!" + Parenthize(u.a, scope).value)
    ensures u.op != Not.Ordinal() && u.op != LogicalNot.Ordinal() ==>
      EvaluateSignalLike(UnaryExpr(u), scope) == Err(UnrecognisedUnaryOperation)
    ensures (u.op == Not.Ordinal() || u.op == LogicalNot.Ordinal()) && Parenthize(u.a, scope).Err? ==>
      EvaluateSignalLike(UnaryExpr(u), scope) == Parenthize(u.a, scope)
  {
  }

  /** The shared text shape of the three binary node kinds. */
  function Infix(left: string, glyph: string, right: string): string {
    left + " " + glyph + " " + right
  }

  /** A comparison renders as the parenthesised left operand, its glyph
      and the plain right operand; an unknown operator throws first, then
      the left operand's error wins over the right one's. */
  lemma ComparrisonRendering(c: ComparrisonExpression, scope: Scope)
    ensures ComparrisonOperationOf(c.comparrisonOp).None? ==>
      EvaluateSignalLike(ComparrisonExpr(c), scope) == Err(UnrecognisedComparrisonOperation)
    ensures ComparrisonOperationOf(c.comparrisonOp).Some? && Parenthize(c.a, scope).Err? ==>
      EvaluateSignalLike(ComparrisonExpr(c), scope) == Parenthize(c.a, scope)
    ensures ComparrisonOperationOf(c.comparrisonOp).Some? && Parenthize(c.a, scope).Ok? && Evaluate(c.b, scope).Err? ==>
      EvaluateSignalLike(ComparrisonExpr(c), scope) == Evaluate(c.b, scope)
    ensures ComparrisonOperationOf(c.comparrisonOp).Some? && Parenthize(c.a, scope).Ok? && Evaluate(c.b, scope).Ok? ==>
      EvaluateSignalLike(ComparrisonExpr(c), scope) ==
        Ok(Infix(Parenthize(c.a, scope).value, ComparrisonGlyph(ComparrisonOperationOf(c.comparrisonOp).value), Evaluate(c.b, scope).value))
  {
  }

  /** Boolean, bitwise and shift nodes follow the comparison rule. */
  lemma BooleanRendering(e: BooleanExpression, scope: Scope)
    ensures BooleanOperationOf(e.op).None? ==>
      EvaluateSignalLike(BooleanExpr(e), scope) == Err(UnrecognisedBooleanOperation)
    ensures BooleanOperationOf(e.op).Some? && Parenthize(e.a, scope).Err? ==>
      EvaluateSignalLike(BooleanExpr(e), scope) == Parenthize(e.a, scope)
    ensures BooleanOperationOf(e.op).Some? && Parenthize(e.a, scope).Ok? && Evaluate(e.b, scope).Err? ==>
      EvaluateSignalLike(BooleanExpr(e), scope) == Evaluate(e.b, scope)
    ensures BooleanOperationOf(e.op).Some? && Parenthize(e.a, scope).Ok? && Evaluate(e.b, scope).Ok? ==>
      EvaluateSignalLike(BooleanExpr(e), scope) ==
        Ok(Infix(Parenthize(e.a, scope).value, BooleanGlyph(BooleanOperationOf(e.op).value), Evaluate(e.b, scope).value))
  {
  }

  /** Arithmetic nodes render only Plus and Minus; Not, LogicalNot, Bit
      and numbers outside the enum throw. */
  lemma OperationRendering(o: OperationExpression, scope: Scope)
    ensures o.op != Plus.Ordinal() && o.op != Minus.Ordinal() ==>
      EvaluateSignalLike(OperationExpr(o), scope) == Err(UnrecognisedBinaryOperation)
    ensures (o.op == Plus.Ordinal() || o.op == Minus.Ordinal()) && Parenthize(o.a, scope).Err? ==>
      EvaluateSignalLike(OperationExpr(o), scope) == Parenthize(o.a, scope)
    ensures (o.op == Plus.Ordinal() || o.op == Minus.Ordinal()) && Parenthize(o.a, scope).Ok? && Evaluate(o.b, scope).Err? ==>
      EvaluateSignalLike(OperationExpr(o), scope) == Evaluate(o.b, scope)
    ensures o.op == Plus.Ordinal() && Parenthize(o.a, scope).Ok? && Evaluate(o.b, scope).Ok? ==>
      EvaluateSignalLike(OperationExpr(o), scope) == Ok(Infix(Parenthize(o.a, scope).value, "+", Evaluate(o.b, scope).value))
    ensures o.op == Minus.Ordinal() && Parenthize(o.a, scope).Ok? && Evaluate(o.b, scope).Ok? ==>
      EvaluateSignalLike(OperationExpr(o), scope) == Ok(Infix(Parenthize(o.a, scope).value, "-", Evaluate(o.b, scope).value))
  {
  }

  /** A ternary renders its comparison without outer parentheses, then
      " ? ", the first branch, " : " and the second branch. */
  lemma TernaryRendering(t: TernaryExpression, scope: Scope)
    ensures EvaluateComparrisonExpression(t.comparrison, scope).Err? ==>
      EvaluateSignalLike(TernaryExpr(t), scope) == EvaluateComparrisonExpression(t.comparrison, scope)
    ensures EvaluateComparrisonExpression(t.comparrison, scope).Ok? && Evaluate(t.a, scope).Ok? && Evaluate(t.b, scope).Ok? ==>
      EvaluateSignalLike(TernaryExpr(t), scope) ==
        Ok(EvaluateSignalLike(ComparrisonExpr(t.comparrison), scope).value + " ? " +
           Evaluate(t.a, scope).value + " : " + Evaluate(t.b, scope).value)
    ensures EvaluateSignalLike(TernaryExpr(t), scope).Ok? <==>
      EvaluateComparrisonExpression(t.comparrison, scope).Ok? && Evaluate(t.a, scope).Ok? && Evaluate(t.b, scope).Ok?
  {
  }

  /** A slice renders `[k]` when both bounds are `k` and `[from:to]`
      otherwise, after the parenthesised base. */
  lemma SliceRendering(sl: SliceT, scope: Scope)
    ensures EvaluateSignalLike(Slice(sl), scope).Ok? <==> EvaluateSignalLike(sl.a, scope).Ok?
    ensures Parenthize(sl.a, scope).Ok? && sl.fromBit == sl.toBit ==>
      EvaluateSignalLike(Slice(sl), scope) == Ok(Parenthize(sl.a, scope).value + "[" + IntToDecimal(sl.fromBit) + "]")
    ensures Parenthize(sl.a, scope).Ok? && sl.fromBit != sl.toBit ==>
      EvaluateSignalLike(Slice(sl), scope) ==
        Ok(Parenthize(sl.a, scope).value + "[" + IntToDecimal(sl.fromBit) + ":" + IntToDecimal(sl.toBit) + "]")
  {
    ParenthizeRule(sl.a, scope);
  }

  /** Of the node kinds a slice may take as its base, only a signal is left
      unwrapped. */
  lemma SlicableBase(sl: SliceT, scope: Scope)
    requires IsSlicable(sl.a)
    requires EvaluateSignalLike(sl.a, scope).Ok?
    ensures Parenthize(sl.a, scope).value ==
      if sl.a.Signal? then EvaluateSignalLike(sl.a, scope).value else "(" + EvaluateSignalLike(sl.a, scope).value + ")"
  {
  }

  /* ------------------------------ glyphs ------------------------------- */

  /** Distinct operators get distinct glyphs, within each table. */
  lemma GlyphTablesInjective()
    ensures forall x: BooleanOperation, y: BooleanOperation :: BooleanGlyph(x) == BooleanGlyph(y) ==> x == y
    ensures forall x: ComparrisonOperation, y: ComparrisonOperation :: ComparrisonGlyph(x) == ComparrisonGlyph(y) ==> x == y
    ensures forall x: Operation, y: Operation ::
      UnaryGlyph(x).Some? && UnaryGlyph(x) == UnaryGlyph(y) ==> x == y
    ensures forall x: Operation, y: Operation ::
      ArithmeticGlyph(x).Some? && ArithmeticGlyph(x) == ArithmeticGlyph(y) ==> x == y
  {
  }

  /** `Operation` is shared by unary and arithmetic nodes, but no member is
      rendered by both, and Bit is rendered by neither. */
  lemma SharedOperationEnum(op: Operation)
    ensures !(UnaryGlyph(op).Some? && ArithmeticGlyph(op).Some?)
    ensures op == Bit <==> UnaryGlyph(op).None? && ArithmeticGlyph(op).None?
  {
  }

  /* --------------------------- totality -------------------------------- */

  /** The trees that render, defined without the renderer: no node of an
      unknown kind, and every operator number names a member its node kind
      can print. */
  predicate RenderableOperand(e: SignalLikeOrValue) {
    match e
    case Value(_) => true
    case Node(s) => Renderable(s)
  }

  predicate Renderable(s: SignalLike) {
    match s
    case Signal(_, _) => true
    case Wire(_, _) => true
    case Constant(_) => true
    case Concat(c) => forall i :: 0 <= i < |c.signals| ==> Renderable(c.signals[i])
    case UnaryExpr(u) => (u.op == Not.Ordinal() || u.op == LogicalNot.Ordinal()) && Renderable(u.a)
    case ComparrisonExpr(c) => RenderableComparrison(c)
    case TernaryExpr(t) => RenderableComparrison(t.comparrison) && RenderableOperand(t.a) && RenderableOperand(t.b)
    case BooleanExpr(e) => 0 <= e.op < 9 && Renderable(e.a) && RenderableOperand(e.b)
    case OperationExpr(o) => (o.op == Plus.Ordinal() || o.op == Minus.Ordinal()) && Renderable(o.a) && RenderableOperand(o.b)
    case Slice(sl) => Renderable(sl.a)
    case BaseSignal(_) => false
  }

  predicate RenderableComparrison(c: ComparrisonExpression) {
    0 <= c.comparrisonOp < 6 && Renderable(c.a) && RenderableOperand(c.b)
  }

  /** Rendering succeeds exactly on the renderable trees, whatever the
      names: the only failures are unknown node kinds and operators. */
  lemma {:induction false} EvaluateSucceedsIffRenderable(e: SignalLikeOrValue, scope: Scope)
    ensures Evaluate(e, scope).Ok? <==> RenderableOperand(e)
    decreases e, 1
  {
    match e
    case Value(_) =>
    case Node(s) => SignalLikeSucceedsIffRenderable(s, scope);
  }

  lemma {:induction false} SignalLikeSucceedsIffRenderable(s: SignalLike, scope: Scope)
    ensures EvaluateSignalLike(s, scope).Ok? <==> Renderable(s)
    ensures Parenthize(s, scope).Ok? <==> Renderable(s)
    decreases s, 0
  {
    match s {
      case Signal(_, _) =>
      case Wire(_, _) =>
      case Constant(_) =>
      case Concat(c) =>
        forall i | 0 <= i < |c.signals|
          ensures EvaluateSignalLike(c.signals[i], scope).Ok? <==> Renderable(c.signals[i])
        {
          SignalLikeSucceedsIffRenderable(c.signals[i], scope);
        }
        ConcatRenders(c, scope);
      case UnaryExpr(u) =>
        SignalLikeSucceedsIffRenderable(u.a, scope);
        UnaryRenders(u, scope);
      case ComparrisonExpr(c) =>
        ComparrisonSucceedsIffRenderable(c, scope);
      case TernaryExpr(t) =>
        ComparrisonSucceedsIffRenderable(t.comparrison, scope);
        EvaluateSucceedsIffRenderable(t.a, scope);
        EvaluateSucceedsIffRenderable(t.b, scope);
        TernaryRenders(t, scope);
      case BooleanExpr(e) =>
        SignalLikeSucceedsIffRenderable(e.a, scope);
        EvaluateSucceedsIffRenderable(e.b, scope);
        BooleanRenders(e, scope);
      case OperationExpr(o) =>
        SignalLikeSucceedsIffRenderable(o.a, scope);
        EvaluateSucceedsIffRenderable(o.b, scope);
        OperationRenders(o, scope);
      case Slice(sl) =>
        SignalLikeSucceedsIffRenderable(sl.a, scope);
        SliceRenders(sl, scope);
      case BaseSignal(_) =>
    }
    ParenthizeRule(s, scope);
  }

  /* One step per node kind, from what is known of the parts. */

  lemma ConcatRenders(c: ConcatT, scope: Scope)
    requires forall i :: 0 <= i < |c.signals| ==> (EvaluateSignalLike(c.signals[i], scope).Ok? <==> Renderable(c.signals[i]))
    ensures EvaluateConcat(c, scope).Ok? <==> forall i :: 0 <= i < |c.signals| ==> Renderable(c.signals[i])
  {
    EvaluateAllInOrder(c.signals, scope);
  }

  lemma UnaryRenders(u: UnaryExpression, scope: Scope)
    ensures EvaluateUnaryExpression(u, scope).Ok? <==>
      (u.op == Not.Ordinal() || u.op == LogicalNot.Ordinal()) && Parenthize(u.a, scope).Ok?
  {
  }

  lemma TernaryRenders(t: TernaryExpression, scope: Scope)
    ensures EvaluateTernaryExpression(t, scope).Ok? <==>
      EvaluateComparrisonExpression(t.comparrison, scope).Ok? && Evaluate(t.a, scope).Ok? && Evaluate(t.b, scope).Ok?
  {
  }

  lemma BooleanRenders(e: BooleanExpression, scope: Scope)
    ensures EvaluateBooleanExpression(e, scope).Ok? <==> 0 <= e.op < 9 && Parenthize(e.a, scope).Ok? && Evaluate(e.b, scope).Ok?
  {
  }

  lemma OperationRenders(o: OperationExpression, scope: Scope)
    ensures EvaluateOperationExpression(o, scope).Ok? <==>
      (o.op == Plus.Ordinal() || o.op == Minus.Ordinal()) && Parenthize(o.a, scope).Ok? && Evaluate(o.b, scope).Ok?
  {
  }

  lemma SliceRenders(sl: SliceT, scope: Scope)
    ensures EvaluateSlice(sl, scope).Ok? <==> Parenthize(sl.a, scope).Ok?
  {
  }

  lemma {:induction false} ComparrisonSucceedsIffRenderable(c: ComparrisonExpression, scope: Scope)
    ensures EvaluateComparrisonExpression(c, scope).Ok? <==> RenderableComparrison(c)
    decreases c, 0
  {
    SignalLikeSucceedsIffRenderable(c.a, scope);
    EvaluateSucceedsIffRenderable(c.b, scope);
  }

  /* ------------------------------ locality ----------------------------- */

  /** A leaf occurrence: which name source it is looked up in. */
  datatype Leaf = SignalLeaf(id: SignalId) | WireLeaf(id: SignalId)

  function LeafName(l: Leaf, scope: Scope): string {
    match l
    case SignalLeaf(id) => scope.signalName(id)
    case WireLeaf(id) => scope.wireName(id)
  }

  function LeavesOfOperand(e: SignalLikeOrValue): set<Leaf> {
    match e
    case Value(_) => {}
    case Node(s) => Leaves(s)
  }

  function Leaves(s: SignalLike): set<Leaf> {
    match s
    case Signal(id, _) => {SignalLeaf(id)}
    case Wire(id, _) => {WireLeaf(id)}
    case Constant(_) => {}
    case Concat(c) => LeavesOfAll(c.signals)
    case UnaryExpr(u) => Leaves(u.a)
    case ComparrisonExpr(c) => LeavesOfComparrison(c)
    case TernaryExpr(t) => LeavesOfComparrison(t.comparrison) + LeavesOfOperand(t.a) + LeavesOfOperand(t.b)
    case BooleanExpr(e) => Leaves(e.a) + LeavesOfOperand(e.b)
    case OperationExpr(o) => Leaves(o.a) + LeavesOfOperand(o.b)
    case Slice(sl) => Leaves(sl.a)
    case BaseSignal(_) => {}
  }

  function LeavesOfAll(signals: seq<SignalLike>): set<Leaf> {
    if signals == [] then {} else Leaves(signals[0]) + LeavesOfAll(signals[1..])
  }

  function LeavesOfComparrison(c: ComparrisonExpression): set<Leaf> {
    Leaves(c.a) + LeavesOfOperand(c.b)
  }

  /** Two scopes that give every leaf in a set the same name. */
  ghost predicate AgreeOn(leaves: set<Leaf>, one: Scope, other: Scope) {
    forall l :: l in leaves ==> LeafName(l, one) == LeafName(l, other)
  }

  /** A rendering depends only on the names of the tree's own leaves. */
  lemma {:induction false} EvaluateIsLocal(e: SignalLikeOrValue, one: Scope, other: Scope)
    requires AgreeOn(LeavesOfOperand(e), one, other)
    ensures Evaluate(e, one) == Evaluate(e, other)
    decreases e, 1
  {
    match e
    case Value(_) =>
    case Node(s) => SignalLikeIsLocal(s, one, other);
  }

  lemma {:induction false} SignalLikeIsLocal(s: SignalLike, one: Scope, other: Scope)
    requires AgreeOn(Leaves(s), one, other)
    ensures EvaluateSignalLike(s, one) == EvaluateSignalLike(s, other)
    ensures Parenthize(s, one) == Parenthize(s, other)
    decreases s, 0
  {
    match s
    case Signal(id, _) =>
      assert SignalLeaf(id) in Leaves(s);
    case Wire(id, _) =>
      assert WireLeaf(id) in Leaves(s);
    case Constant(_) =>
    case Concat(c) =>
      AllAreLocal(c.signals, one, other);
    case UnaryExpr(u) =>
      SignalLikeIsLocal(u.a, one, other);
    case ComparrisonExpr(c) =>
      ComparrisonIsLocal(c, one, other);
    case TernaryExpr(t) =>
      ComparrisonIsLocal(t.comparrison, one, other);
      EvaluateIsLocal(t.a, one, other);
      EvaluateIsLocal(t.b, one, other);
    case BooleanExpr(e) =>
      SignalLikeIsLocal(e.a, one, other);
      EvaluateIsLocal(e.b, one, other);
    case OperationExpr(o) =>
      SignalLikeIsLocal(o.a, one, other);
      EvaluateIsLocal(o.b, one, other);
    case Slice(sl) =>
      SignalLikeIsLocal(sl.a, one, other);
    case BaseSignal(_) =>
  }

  lemma {:induction false} AllAreLocal(signals: seq<SignalLike>, one: Scope, other: Scope)
    requires AgreeOn(LeavesOfAll(signals), one, other)
    ensures EvaluateAll(signals, one) == EvaluateAll(signals, other)
    decreases signals
  {
    if signals != [] {
      SignalLikeIsLocal(signals[0], one, other);
      AllAreLocal(signals[1..], one, other);
    }
  }

  lemma {:induction false} ComparrisonIsLocal(c: ComparrisonExpression, one: Scope, other: Scope)
    requires AgreeOn(LeavesOfComparrison(c), one, other)
    ensures EvaluateComparrisonExpression(c, one) == EvaluateComparrisonExpression(c, other)
    decreases c, 0
  {
    SignalLikeIsLocal(c.a, one, other);
    EvaluateIsLocal(c.b, one, other);
  }

  /** A tree without signal leaves renders the same under any signal
      resolver: wires are named by the working module only. */
  lemma SignalResolverIrrelevantForWires(e: SignalLikeOrValue, resolver: SignalId -> string, other: SignalId -> string, wireName: SignalId -> string)
    requires forall l :: l in LeavesOfOperand(e) ==> l.WireLeaf?
    ensures Evaluate(e, Scope(resolver, wireName)) == Evaluate(e, Scope(other, wireName))
  {
    EvaluateIsLocal(e, Scope(resolver, wireName), Scope(other, wireName));
  }
}
