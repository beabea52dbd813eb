/** The expression vocabulary of the generator: the operator enums and the
    closed set of signal-like node kinds the evaluator renders. */
module MainTypes {
  import opened Wrappers

  /* ---------------------------------------------------------------------
     Operator enums. They are TypeScript numeric enums: a member is the
     number given by its position, and a field typed with the enum holds a
     plain number at run time, so a node may carry a number that names no
     member. Nodes therefore store the number (`op: int`), and the decoders
     below say which numbers name which member.
     --------------------------------------------------------------------- */

  /** Shared by unary and arithmetic nodes. */
  datatype Operation = Plus | Minus | Not | LogicalNot | Bit {
    function Ordinal(): nat {
      match this
      case Plus => 0
      case Minus => 1
      case Not => 2
      case LogicalNot => 3
      case Bit => 4
    }
  }

  datatype BooleanOperation =
    | And | Or | Xor | LogicalAnd | LogicalOr
    | LeftShift | RightShift | LeftArithmeticShift | RightArithmeticShift
  {
    function Ordinal(): nat {
      match this
      case And => 0
      case Or => 1
      case Xor => 2
      case LogicalAnd => 3
      case LogicalOr => 4
      case LeftShift => 5
      case RightShift => 6
      case LeftArithmeticShift => 7
      case RightArithmeticShift => 8
    }
  }

  datatype ComparrisonOperation =
    | Equal | NotEqual | LessThan | GreaterThan
    | LessThanOrEqualTo | GreaterThanOrEqualTo
  {
    function Ordinal(): nat {
      match this
      case Equal => 0
      case NotEqual => 1
      case LessThan => 2
      case GreaterThan => 3
      case LessThanOrEqualTo => 4
      case GreaterThanOrEqualTo => 5
    }
  }

  /** The member whose numeric value is `code`, if any. */
  function OperationOf(code: int): (r: Option<Operation>)
    ensures r.Some? <==> 0 <= code < 5
    ensures r.Some? ==> r.value.Ordinal() == code
  {
    if code == 0 then Some(Plus)
    else if code == 1 then Some(Minus)
    else if code == 2 then Some(Not)
    else if code == 3 then Some(LogicalNot)
    else if code == 4 then Some(Bit)
    else None
  }

  function BooleanOperationOf(code: int): (r: Option<BooleanOperation>)
    ensures r.Some? <==> 0 <= code < 9
    ensures r.Some? ==> r.value.Ordinal() == code
  {
    if code == 0 then Some(And)
    else if code == 1 then Some(Or)
    else if code == 2 then Some(Xor)
    else if code == 3 then Some(LogicalAnd)
    else if code == 4 then Some(LogicalOr)
    else if code == 5 then Some(LeftShift)
    else if code == 6 then Some(RightShift)
    else if code == 7 then Some(LeftArithmeticShift)
    else if code == 8 then Some(RightArithmeticShift)
    else None
  }

  function ComparrisonOperationOf(code: int): (r: Option<ComparrisonOperation>)
    ensures r.Some? <==> 0 <= code < 6
    ensures r.Some? ==> r.value.Ordinal() == code
  {
    if code == 0 then Some(Equal)
    else if code == 1 then Some(NotEqual)
    else if code == 2 then Some(LessThan)
    else if code == 3 then Some(GreaterThan)
    else if code == 4 then Some(LessThanOrEqualTo)
    else if code == 5 then Some(GreaterThanOrEqualTo)
    else None
  }

  /** `Operation` has exactly five members: decoding a member's number gives
      the member back, so distinct members have distinct numbers 0..4. */
  lemma OperationHasFiveMembers()
    ensures forall op: Operation :: op.Ordinal() < 5 && OperationOf(op.Ordinal()) == Some(op)
  {
  }

  /** `BooleanOperation` has exactly nine members, numbered 0..8. */
  lemma BooleanOperationHasNineMembers()
    ensures forall op: BooleanOperation :: op.Ordinal() < 9 && BooleanOperationOf(op.Ordinal()) == Some(op)
  {
  }

  /** `ComparrisonOperation` has exactly six members, numbered 0..5. */
  lemma ComparrisonOperationHasSixMembers()
    ensures forall op: ComparrisonOperation :: op.Ordinal() < 6 && ComparrisonOperationOf(op.Ordinal()) == Some(op)
  {
  }

  /* ---------------------------------------------------------------------
     Signal-like nodes.
     --------------------------------------------------------------------- */

  /** The identity of a declared signal or wire object; names are found
      for it by a resolver, never stored in the node. */
  type SignalId = nat

  /** An operand position that accepts a node or a bare number. */
  datatype SignalLikeOrValue = Node(s: SignalLike) | Value(n: int)

  /** The closed set of node kinds, one constructor per type tag.
      `BaseSignal` is a node whose tag is none of the others. */
  datatype SignalLike =
    | Signal(id: SignalId, width: nat)
    | Wire(id: SignalId, width: nat)
    | Constant(constant: ConstantT)
    | Concat(concat: ConcatT)
    | UnaryExpr(unary: UnaryExpression)
    | ComparrisonExpr(comparrison: ComparrisonExpression)
    | TernaryExpr(ternary: TernaryExpression)
    | BooleanExpr(boolean: BooleanExpression)
    | OperationExpr(operation: OperationExpression)
    | Slice(slice: SliceT)
    | BaseSignal(width: nat)

  datatype ConstantT = ConstantT(value: nat, width: nat)

  /** Elements are listed most significant first. */
  datatype ConcatT = ConcatT(signals: seq<SignalLike>, width: nat)

  datatype UnaryExpression = UnaryExpression(a: SignalLike, op: int, width: nat)

  /** A comparison carries no width of its own: its type fixes it at 1. */
  datatype ComparrisonExpression = ComparrisonExpression(a: SignalLike, b: SignalLikeOrValue, comparrisonOp: int)
  {
    const width: nat := 1
  }

  /** The condition is always a comparison; the branches may be numbers. */
  datatype TernaryExpression = TernaryExpression(a: SignalLikeOrValue, b: SignalLikeOrValue, comparrison: ComparrisonExpression, width: nat)

  datatype BooleanExpression = BooleanExpression(a: SignalLike, b: SignalLikeOrValue, op: int, width: nat)

  datatype OperationExpression = OperationExpression(a: SignalLike, b: SignalLikeOrValue, op: int, width: nat)

  datatype SliceT = SliceT(a: SignalLike, fromBit: int, toBit: int, width: nat)

  /** The declared width of a node; a comparison's is fixed at 1 by its type. */
  function Width(s: SignalLike): (w: nat)
    ensures s.ComparrisonExpr? ==> w == 1
  {
    match s
    case Signal(_, width) => width
    case Wire(_, width) => width
    case Constant(c) => c.width
    case Concat(c) => c.width
    case UnaryExpr(u) => u.width
    case ComparrisonExpr(c) => c.width
    case TernaryExpr(t) => t.width
    case BooleanExpr(e) => e.width
    case OperationExpr(o) => o.width
    case Slice(sl) => sl.width
    case BaseSignal(width) => width
  }

  /** The node kinds a slice may take as its base: a wire, a concatenation,
      a comparison, a ternary or a boolean node is not one of them. */
  predicate IsSlicable(s: SignalLike) {
    s.Signal? || s.Slice? || s.UnaryExpr? || s.Constant? || s.OperationExpr?
  }
}
