# gateware-ts expression renderer, modelled in Dafny

gateware-ts describes hardware in TypeScript and writes it out as Verilog.
Every expression in the generated Verilog comes from one renderer, the
`ExpressionEvaluator`. It takes a tree of signal-like nodes, or a bare
number, and returns a Verilog fragment. Signals and wires become names.
Constants become sized binary literals `w'b…` (section 3.5.1 of IEEE
1364-2005). Operator nodes become infix or prefix text with the operator
glyphs of section 5.1. Concatenations become `{…}` (section 5.1.14), ternary
nodes become `?:` (section 5.1.13), and slices become bit selects `[k]` or
part selects `[m:n]`. The renderer throws on a node of an unknown kind and on
an operator number that its node kind does not print.

The project models:

- `main_types.dfy` (module `MainTypes`): the node vocabulary.
  - The three operator enums, with the number of each member. Nodes store
    the number itself, as a TypeScript enum field does at run time, so an
    out-of-range number can reach the renderer.
  - One datatype per node interface, and the `SignalLike` union with one
    constructor per type tag. `BaseSignal` stands for any other tag.
  - `SignalLikeOrValue`, and the `Slicable` kinds.
- `text.dfy` (module `Text`): the JavaScript string primitives the renderer
  uses:
  - integer `toString()`, with the reading `ParseInt` that undoes it;
  - `toString(2)`, with the reading `BinaryValue` that undoes it;
  - `padStart` with a one-character fill, characterised by its length,
    its unchanged suffix and its fill;
  - `join`.
- `expression_evaluation.dfy`:
  - module `ExpressionEvaluation`: the renderer as total functions returning
    `Result<string, EvaluationError>`, one per `evaluate*` method, plus
    `parenthize`. Names come from a `Scope` that holds two lookups:
    - the signal resolver, which names signals;
    - the working module's descriptor lookup, which names wires.
  - module `Evaluator`: the `ExpressionEvaluator` object as a class. Its
    fields are the working module and the signal resolver. The default
    resolver reads the working module at every call, so it follows
    `setWorkingModule`; an injected resolver does not.
- `evaluation_properties.dfy` (module `EvaluationProperties`): what each node
  kind renders to, and which properties hold across kinds:
  - the error paths of each node kind;
  - exactly which trees render at all;
  - a rendering depends only on the names of the tree's own leaves;
  - a sized literal reads back as the constant's width and value.
- `grouping.dfy` (module `Grouping`): what the parenthesisation rule buys.
  Assume every name has balanced parentheses. Then:
  - every rendering is balanced;
  - every compound left operand, and every compound slice base, comes out
    as a single group. That group's opening parenthesis closes only at its
    last character.
- `examples.dfy` (module `Examples`): whole renders of small trees.

Right operands are rendered without parentheses. So the tree `a - (b - c)`
renders as `a - b - c`, which Verilog groups as `(a - b) - c`, and the tree
`a & (b | c)` renders as `a & b | c`, which Verilog reads as `(a & b) | c`
because `&` binds tighter than `|` (section 5.1.2 of IEEE 1364-2005). The
model keeps this behaviour, as the source does.
`Examples.RightOperandNotGrouped` and `Examples.RightOperandLosesPrecedence`
show it, and `Grouping` proves the grouping only for left operands and slice
bases.

## Model

| member | source | states |
|---|---|---|
| MainTypes.OperationOf | src/main-types.ts:16-22 | exactly the numbers 0..4 name an `Operation` member, and the member named has that number |
| MainTypes.BooleanOperationOf | src/main-types.ts:24-34 | exactly the numbers 0..8 name a `BooleanOperation` member, and the member named has that number |
| MainTypes.ComparrisonOperationOf | src/main-types.ts:36-43 | exactly the numbers 0..5 name a `ComparrisonOperation` member, and the member named has that number |
| MainTypes.OperationHasFiveMembers | src/main-types.ts:16-22 | every `Operation` member has a distinct number below 5 that decodes back to it |
| MainTypes.BooleanOperationHasNineMembers | src/main-types.ts:24-34 | every `BooleanOperation` member has a distinct number below 9 that decodes back to it |
| MainTypes.ComparrisonOperationHasSixMembers | src/main-types.ts:36-43 | every `ComparrisonOperation` member has a distinct number below 6 that decodes back to it |
| MainTypes.Width | src/main-types.ts:51-57 | a comparison node's width is always 1 |
| Text.NatToDecimal | src/generator/expression-evaluation.ts:29-31 | the decimal text of a natural number is non-empty, all digits, has no leading zero, and denotes the number |
| Text.IntToDecimal | src/generator/expression-evaluation.ts:29-31 | `n.toString()` for an integer reads back as `n` (sign and digits) |
| Text.IntToDecimalInjective | src/generator/expression-evaluation.ts:29-31 | distinct integers print as distinct text |
| Text.BinaryString | src/generator/expression-evaluation.ts:79 | `v.toString(2)` is non-empty, binary, has no leading zero, and denotes `v` |
| Text.BinaryStringFits | src/generator/expression-evaluation.ts:79 | for `k >= 1`, `v.toString(2)` has at most `k` digits exactly when `v < 2^k` |
| Text.LeadingZerosKeepValue | src/generator/expression-evaluation.ts:79 | zeros put in front of binary text keep it binary and keep its value |
| Text.PadStart | src/generator/expression-evaluation.ts:79 | `padStart` never shortens and pads to exactly the target length when shorter; the result ends with `s` unchanged and is all fill before it |
| ExpressionEvaluation.ConstantDigits | src/generator/expression-evaluation.ts:78-80 | a constant's digits are binary and denote its value; there are never fewer than `width`, and (for `width >= 1`) exactly `width` when the value fits in `width` bits |
| EvaluationProperties.EvaluateAllInOrder | src/generator/expression-evaluation.ts:83 | the elements render in list order, one text per element; the list fails exactly when an element fails, with the error of the first one that fails |
| Evaluator.ExpressionEvaluator.constructor | src/generator/expression-evaluation.ts:14-22 | stores the module; keeps an injected resolver, otherwise resolves signals through the working module |
| Evaluator.ExpressionEvaluator.SetWorkingModule | src/generator/expression-evaluation.ts:24-26 | replaces only the working module; wires then use the new module, and signals do too unless a resolver was injected |
| Evaluator.ExpressionEvaluator.Evaluate | src/generator/expression-evaluation.ts:28-72 | renders in the evaluator's current scope: signals through its resolver, wires through its working module |
| Evaluator.ExpressionEvaluator.EvaluateWire | src/generator/expression-evaluation.ts:74-76 | a wire's name is the working module's descriptor name |
| EvaluationProperties.NumberRendering | src/generator/expression-evaluation.ts:29-31 | a bare number renders, as decimal text that reads back as the number |
| EvaluationProperties.LeafRendering | src/generator/expression-evaluation.ts:34-39 | a signal renders as the resolver's name; a wire renders as the module's name whatever resolver is in use; `parenthize` leaves both bare |
| EvaluationProperties.ParenthizeRule | src/generator/expression-evaluation.ts:7-8 | `parenthize` fails exactly when its operand fails; it keeps signals and wires bare and wraps every other kind, constants, concatenations and slices included, in one pair of parentheses |
| EvaluationProperties.ConstantRendering | src/generator/expression-evaluation.ts:78-80 | a constant always renders; for `width >= 1` a sized-literal reader gets back its width and its value cut to `width` bits, which is the value itself exactly when it fits; a zero width gives text that is not a legal sized literal |
| EvaluationProperties.SizedLiteralReadsBack | src/generator/expression-evaluation.ts:79 | `size'bdigits` reads back as the size and the digits' value modulo `2^size` when the size is nonzero, and is rejected when it is 0 |
| EvaluationProperties.ZeroWidthConstant | src/generator/expression-evaluation.ts:79 | a zero-width zero renders as `0'b0`, one digit more than its width; that text is not legal Verilog, since section 3.5.1 of IEEE 1364-2005 requires a nonzero size |
| EvaluationProperties.ConcatRendering | src/generator/expression-evaluation.ts:82-84 | a concatenation renders exactly when every element does, as the element texts in order, joined by `, ` and braced |
| EvaluationProperties.ConcatOfOne | src/generator/expression-evaluation.ts:83 | a one-element concatenation is still braced |
| EvaluationProperties.UnaryRendering | src/generator/expression-evaluation.ts:86-100 | Not gives `~` and LogicalNot gives `!` before the parenthesised operand; every other number throws before the operand is rendered; an operand error passes through |
| EvaluationProperties.ComparrisonRendering | src/generator/expression-evaluation.ts:102-121 | an unknown operator throws first, then a left-operand error, then a right-operand error; otherwise the result is the parenthesised left, the glyph, and the bare right, separated by spaces |
| EvaluationProperties.BooleanRendering | src/generator/expression-evaluation.ts:123-169 | the same four cases for the nine boolean, bitwise and shift operators |
| EvaluationProperties.OperationRendering | src/generator/expression-evaluation.ts:175-185 | only Plus (`+`) and Minus (`-`) render; Not, LogicalNot, Bit and out-of-range numbers throw; operand errors pass through in order |
| EvaluationProperties.TernaryRendering | src/generator/expression-evaluation.ts:171-173 | a ternary renders exactly when its condition and both branches do, as the unwrapped comparison, ` ? `, the first branch, ` : `, the second; a condition error comes first |
| EvaluationProperties.SliceRendering | src/generator/expression-evaluation.ts:187-191 | a slice renders exactly when its base does: as `[k]` after the parenthesised base when both bounds are `k`, and as `[from:to]` otherwise |
| EvaluationProperties.SlicableBase | src/main-types.ts:120 | of the slicable kinds, only a signal base stays unwrapped |
| EvaluationProperties.GlyphTablesInjective | src/generator/expression-evaluation.ts:102-185 | within each glyph table, distinct operators get distinct glyphs |
| EvaluationProperties.SharedOperationEnum | src/main-types.ts:16-22 | no `Operation` member is printed by both unary and arithmetic nodes, and exactly Bit is printed by neither |
| EvaluationProperties.EvaluateSucceedsIffRenderable | src/generator/expression-evaluation.ts:28-72 | an operand renders exactly when it is a number or a renderable tree, whatever the names |
| EvaluationProperties.SignalLikeSucceedsIffRenderable | src/generator/expression-evaluation.ts:33-71 | a node, and `parenthize` of it, renders exactly when the tree has no unknown kind and every operator number names a member its node kind prints |
| EvaluationProperties.ComparrisonSucceedsIffRenderable | src/generator/expression-evaluation.ts:102-121 | a comparison renders exactly when its operator is one of the six and both operands are renderable |
| EvaluationProperties.EvaluateIsLocal | src/generator/expression-evaluation.ts:28-72 | two scopes that agree on the names of an operand's leaves render it identically |
| EvaluationProperties.SignalLikeIsLocal | src/generator/expression-evaluation.ts:33-71 | the same for a node and for `parenthize` of it |
| EvaluationProperties.AllAreLocal | src/generator/expression-evaluation.ts:82-84 | the same for the elements of a concatenation |
| EvaluationProperties.ComparrisonIsLocal | src/generator/expression-evaluation.ts:102-121 | the same for a comparison |
| EvaluationProperties.SignalResolverIrrelevantForWires | src/generator/expression-evaluation.ts:74-76 | a tree whose only leaves are wires renders the same under any signal resolver |
| Grouping.LeftOperandGrouped | src/generator/expression-evaluation.ts:7-8 | with balanced names, a node renders balanced, and `parenthize` of a node that is not a leaf is one enclosing group |
| Grouping.OperandBalanced | src/generator/expression-evaluation.ts:28-31 | with balanced names, an operand renders balanced |
| Grouping.AllBalanced | src/generator/expression-evaluation.ts:82-84 | with balanced names, every element of a concatenation renders balanced |
| Grouping.ComparrisonBalanced | src/generator/expression-evaluation.ts:120 | with balanced names, a comparison renders balanced |
| Examples.ComparrisonExample | src/generator/expression-evaluation.ts:120 | `a == 3` with `a` named `foo` renders `foo == 3` |
| Examples.NegatedComparrisonExample | src/generator/expression-evaluation.ts:92-94 | a logical not over it renders `!(foo == 3)` |
| Examples.PartSelectExample | src/generator/expression-evaluation.ts:187-191 | `[3:0]` over `x & y` renders `(x & y)[3:0]` |
| Examples.ConstantExample | src/generator/expression-evaluation.ts:78-80 | a four-bit zero renders `4'b0000` |
| Examples.TernaryExample | src/generator/expression-evaluation.ts:171-173 | `a > b ? c : 4'b0000` renders without wrapping the condition |
| Examples.RightOperandNotGrouped | src/generator/expression-evaluation.ts:184 | `a - (b - c)` renders `a - b - c`, while `(a - b) - c` renders `(a - b) - c` |
| Examples.RightOperandLosesPrecedence | src/generator/expression-evaluation.ts:168 | an `&` whose right operand is the or of `b` and `c` renders with no parentheses, so Verilog reads it as the or of `a & b` and `c` |
| ExpressionEvaluation.Parenthize | src/generator/expression-evaluation.ts:7-8 | see EvaluationProperties.ParenthizeRule and Grouping.LeftOperandGrouped |
| ExpressionEvaluation.Evaluate | src/generator/expression-evaluation.ts:28-31 | see EvaluationProperties.NumberRendering and EvaluationProperties.EvaluateSucceedsIffRenderable |
| ExpressionEvaluation.EvaluateSignalLike | src/generator/expression-evaluation.ts:33-71 | see EvaluationProperties.LeafRendering, EvaluationProperties.SignalLikeSucceedsIffRenderable and EvaluationProperties.SignalLikeIsLocal |
| ExpressionEvaluation.EvaluateWire | src/generator/expression-evaluation.ts:74-76 | see EvaluationProperties.LeafRendering and Evaluator.ExpressionEvaluator.EvaluateWire |
| ExpressionEvaluation.EvaluateConstant | src/generator/expression-evaluation.ts:78-80 | see ExpressionEvaluation.ConstantDigits and EvaluationProperties.ConstantRendering |
| ExpressionEvaluation.EvaluateAll | src/generator/expression-evaluation.ts:83 | see EvaluationProperties.EvaluateAllInOrder |
| ExpressionEvaluation.EvaluateConcat | src/generator/expression-evaluation.ts:82-84 | see EvaluationProperties.ConcatRendering and EvaluationProperties.ConcatOfOne |
| ExpressionEvaluation.EvaluateUnaryExpression | src/generator/expression-evaluation.ts:86-100 | see EvaluationProperties.UnaryRendering |
| ExpressionEvaluation.EvaluateComparrisonExpression | src/generator/expression-evaluation.ts:102-121 | see EvaluationProperties.ComparrisonRendering and EvaluationProperties.ComparrisonSucceedsIffRenderable |
| ExpressionEvaluation.EvaluateBooleanExpression | src/generator/expression-evaluation.ts:123-169 | see EvaluationProperties.BooleanRendering |
| ExpressionEvaluation.EvaluateTernaryExpression | src/generator/expression-evaluation.ts:171-173 | see EvaluationProperties.TernaryRendering |
| ExpressionEvaluation.EvaluateOperationExpression | src/generator/expression-evaluation.ts:175-185 | see EvaluationProperties.OperationRendering |
| ExpressionEvaluation.EvaluateSlice | src/generator/expression-evaluation.ts:187-191 | see EvaluationProperties.SliceRendering |
| ExpressionEvaluation.UnaryGlyph | src/generator/expression-evaluation.ts:87-99 | see EvaluationProperties.UnaryRendering, EvaluationProperties.SharedOperationEnum and EvaluationProperties.GlyphTablesInjective |
| ExpressionEvaluation.ArithmeticGlyph | src/generator/expression-evaluation.ts:177-182 | see EvaluationProperties.OperationRendering, EvaluationProperties.SharedOperationEnum and EvaluationProperties.GlyphTablesInjective |
| ExpressionEvaluation.BooleanGlyph | src/generator/expression-evaluation.ts:126-166 | see EvaluationProperties.BooleanRendering and EvaluationProperties.GlyphTablesInjective |
| ExpressionEvaluation.ComparrisonGlyph | src/generator/expression-evaluation.ts:105-118 | see EvaluationProperties.ComparrisonRendering and EvaluationProperties.GlyphTablesInjective |
| Text.Join | src/generator/expression-evaluation.ts:83 | see EvaluationProperties.ConcatRendering, EvaluationProperties.ConcatOfOne and Grouping.JoinBalanced |
| Evaluator.ExpressionEvaluator.CurrentScope | src/generator/expression-evaluation.ts:17-19 | see Evaluator.ExpressionEvaluator.constructor and Evaluator.ExpressionEvaluator.SetWorkingModule |

## Left out

- Number formatting: JavaScript prints integers of magnitude 10^21 or more in exponent form, and fractional numbers with a point. Bare numbers are modelled as `int` printed in plain decimal.
- Negative and fractional constant values: constant values are `nat`. `toString(2)` of a negative number gives a minus sign, and no signed encoding is defined for it.
- `padStart` with a fill of more than one character is not modelled. The renderer only pads with `'0'`.
- The `debugger` statement, `bind(this)` and the second, unreachable `TERNARY_EXPRESSION` case have no behaviour to model. The bound `evaluate` is modelled by passing the scope explicitly.
- `GWModule` is seen only through `getModuleSignalDescriptor(s).name`, modelled as a total function from a signal identity to a name. A lookup that fails, and the rest of the module, are not modelled.
- Signals and wires carry an identity and a width. `src/signals.ts` and `src/constants.ts` are not part of this model, so the other node shapes are taken from the fields the renderer reads.
- The statement, module and simulation types of `src/main-types.ts` (switch and case expressions, assignments, blocks, ports, time scales, edges, signedness) are not part of this model.
- Widths of nodes other than constants are carried but not checked: the renderer never reads them. A constant's width is read twice, as the size prefix and as the `padStart` target, and is a `nat`: a negative or fractional width is not modelled.
- Rendering twice gives the same text: this holds in the model because every render is a function of the tree and the scope.
- The promise of exactly `width` digits for `0 <= value < 2^width` needs `width >= 1`. A zero-width zero prints one digit (`ZeroWidthConstant`), so `ConstantDigits` states the promise for `width >= 1` only, following the code.
- Concurrency: the renderer is single-threaded and has no shared state other than the evaluator's two fields.
