# cppexprfun core, modelled in Dafny

cppexprfun is a small C++ calculator. It parses an arithmetic expression into a tree allocated from a bump arena, then evaluates the tree on a 32-slot value stack. It also prints the tree back, fully parenthesised, into a bounded character buffer. This project models that core as pure Dafny functions and proves what each step guarantees.

The modules follow the program's files:

| module | file | what it holds |
|---|---|---|
| `Wrappers` | — | `Option`, standing for a nullable pointer |
| `Ast` | expr.hpp | the seven node kinds as one `Expr` datatype; `int64_t` as `Int64`; a float literal as its two digit runs (`FloatLit`) |
| `BumpArena` | parse.cpp:10-43 | `Arena::init`, `Arena::alloc` and its padding arithmetic |
| `Lexer` | parse.cpp:45-206 | `tokenize`: skipping blanks, integers with saturation, floats, operators, anything else |
| `Parser` | parse.cpp:208-442 | `precedence_of`, `follows_oper_of_higher_precedence`, `should_associate_right`, `make_*`, `parse_primary`, `parse_expression_2` and `parse`, written as the C++ does them (precedence climbing over a cursor and an arena) |
| `Grammar` | — | an independent reference: the usual two-level recursive-descent grammar (sum of terms, term of signed primaries), with no arena |
| `ParserProofs` | — | proofs that the precedence-climbing parser returns the grammar's tree exactly when the arena can hold it |
| `Eval` | eval.cpp | `EvalVisitor` and `eval`, with the stack as 32 optional slots; the number type is a parameter |
| `Pipeline` | — | trees produced by `parse` never overflow the evaluator and evaluate to their meaning |
| `Stringify` | stringify.cpp | `append`, the `visit_*` methods and `stringify`, both as written and corrected (see Findings) |
| `RoundTrip` | — | what happens when a rendering is parsed again |
| `ParseExamples` | — | concrete inputs: grouping, precedence, signs, trailing input, a dangling operator, tiny arenas |

A cursor into the text plus an `Arena` value replaces the C++ `Scanner` and `Arena` objects. A call returns the new cursor and arena instead of mutating them. A null result is `None`.

The key modelling fact about the arena is about padding. `alloc` pads from `base + num`, not from `base + used`. So the padding depends only on the buffer address and the node size, and each node kind has a fixed cost (`Parser.Layout`, computed once per parse by `Parser.LayoutOf`). A parse therefore succeeds exactly when the grammar accepts the text and the tree's total cost (`Parser.TreeCost`) fits in the pool.

## Model

| member | source | states |
|---|---|---|
| BumpArena.Alloc | parse.cpp:29-42 | returns null exactly when used + padding + num exceeds the pool, and then leaves the arena unchanged; on success the slot is `base + used + pad`, `used` grows by exactly `pad + num`, and so the slot lies past every earlier slot and inside the pool, with less than `align` bytes of padding |
| BumpArena.PadReachesMultiple | parse.cpp:33 | the padding rounds `base + num` (the end of a slot placed at the buffer start), not the slot's own address, up to a multiple of `align` |
| BumpArena.AllocSlotMayBeMisaligned | parse.cpp:33-38 | a concrete request (16 bytes, alignment 8, one byte already used, buffer at 0) whose returned slot is not 8-aligned: alignment of the slot is not guaranteed |
| Parser.MakeNodeIsAlloc | parse.cpp:268-299 | allocating a node through the per-kind cost table gives the same outcome and the same arena as `Arena::alloc(sizeof, alignof)` for that node |
| Lexer.Tokenize | parse.cpp:105-206 | after the blanks: END exactly at the end of the text; INT or FLOAT exactly when a digit comes next; an operator consumes exactly one character; END and OTHER consume nothing but blanks; the cursor never passes the end |
| Lexer.OverflowGuardExact | parse.cpp:133 | the guard `buf > (INT64_MAX - n) / 10` holds exactly when `buf * 10 + n` would exceed INT64_MAX |
| Lexer.ScanIntValue | parse.cpp:129-147 | the integer loop, from any point inside a digit run, yields the value of the whole run saturated at INT64_MAX, and the run ends at the same place whichever digit the scan starts from |
| Lexer.TokenizeInteger | parse.cpp:113-147 | a digit run not followed by '.' is an INT holding the run's decimal value clamped to INT64_MAX, with the cursor just past the run |
| Lexer.TokenizeFloat | parse.cpp:113-178 | a digit run followed by '.' is a FLOAT whose literal is the digits before the dot and the digits after it, with the cursor past both |
| Lexer.TokenizeOperator | parse.cpp:182-200 | each of `+ - * /` gives its own token and advances one character |
| Lexer.TokenizeOther | parse.cpp:202-205 | any other non-blank, non-digit character is OTHER and the cursor stays on it |
| Parser.ParsePrimary | parse.cpp:301-337 | on success the result is a literal under at most one negation, the cursor has moved forward, and the arena has grown by exactly the cost of those one or two nodes; ParserProofs.PrimaryAgrees pins down exactly when it succeeds and which tree it returns |
| Parser.ParseExpression2 | parse.cpp:391-422 | on success the cursor has not moved back, and the arena has grown by exactly the cost of the nodes built on top of `lhs`; if an operator of high enough precedence follows, the cursor moves forward; ParserProofs.TermTailAgrees and ParserProofs.SumAfterAgrees give its result at precedences 1 and 0 |
| Parser.AssociateRight | parse.cpp:400-408 | on success the arena has grown by exactly the cost of the nodes built on top of the right operand; ParserProofs.AssociateRightAdd gives its result |
| Parser.Parse | parse.cpp:424-442 | every tree it returns fits in the pool: its total node cost is at most the pool size; ParserProofs.ParseAgrees gives the result for every input |
| Parser.FollowsOperOfHigherPrecedence | parse.cpp:237-248 | succeeds exactly on an operator whose precedence is at least `min`, consuming it; otherwise the cursor is restored |
| Parser.ShouldAssociateRight | parse.cpp:250-266 | holds exactly when the next token binds tighter than `op` (no operator here is right-associative) |
| Grammar.Expression | parse.cpp:400-405 | the reference grammar's trees are sums of terms of signed primaries: every right operand of `*` or `/` is a literal or a negated literal |
| ParserProofs.SignsAgree | parse.cpp:308-317 | the sign loop stops at the first token that is neither `+` nor `-`, and the negation flag is flipped exactly when it read an odd number of minus signs |
| ParserProofs.PrimaryAgrees | parse.cpp:301-337 | `parse_primary` returns the grammar's primary (one negation for an odd sign count, none for an even one, null before a non-number) exactly when the arena can pay for its nodes, and charges exactly their cost |
| ParserProofs.TermTailAgrees | parse.cpp:391-422 | with minimum precedence 1 the loop folds the following `* /` chain to the left, charging each new node's cost |
| ParserProofs.AssociateRightAdd | parse.cpp:400-408 | after `+` or `-`, the inner loop lets the right operand absorb the whole following `* /` chain |
| ParserProofs.SumAfterAgrees | parse.cpp:391-422 | with minimum precedence 0 the loop folds the following `+ -` chain of terms to the left, charging each new node's cost |
| ParserProofs.ParseAgrees | parse.cpp:424-442 | `parse` returns the tree of the grammar's greedy reading of the text (left-associative, `* /` tighter than `+ -`), when that tree's arena cost fits in the pool, and null otherwise. The reading stops before the first token that is not an operator and ignores the rest; an operator not followed by an operand makes the whole parse null |
| ParseExamples.SubChainGroupsLeft | parse.cpp:391-422 | `1 - 2 - 3` parses as `(1 - 2) - 3` |
| ParseExamples.MulBindsTighter | parse.cpp:400-408 | `1 + 2 * 3` parses as `1 + (2 * 3)` |
| ParseExamples.TrailingInputIgnored | parse.cpp:437-441 | `1 2` parses as the literal 1; the rest of the text is not checked |
| ParseExamples.DanglingOperatorFails | parse.cpp:394-398 | `1 + x` parses to null for every pool: the `+` is consumed and no operand follows it, although `1` alone would parse |
| ParseExamples.DoubleMinusCancels | parse.cpp:308-336 | `--5` parses as the bare literal 5 |
| ParseExamples.SingleMinusNegates | parse.cpp:308-336 | `-5` parses as a negation node over the literal 5 |
| ParseExamples.TinyArenaRejects | parse.cpp:268-275 | a pool smaller than one integer node makes even `1` fail to parse |
| Eval.Push | eval.cpp:17-39 | a leaf visit fails exactly when the stack is full; otherwise it writes the next slot and deepens by one; a failed visitor is untouched |
| Eval.NegateTop | eval.cpp:41-53 | the tail of `visit_neg`: fails exactly when the stack is empty; otherwise negates the top slot in place, with the depth unchanged; a failed visitor is untouched |
| Eval.Combine | eval.cpp:55-121 | the common tail of `visit_add` to `visit_div`: fails exactly when fewer than two values are on the stack; otherwise replaces the top two slots by `lhs op rhs`, with the left operand the lower slot, and the depth drops by one; a failed visitor is untouched |
| Eval.Visit | eval.cpp:17-121 | the failure flag never clears, and a visit that does not fail leaves exactly one more value on the stack; Eval.VisitSpec says when it fails and which value it leaves |
| Eval.VisitSticky | eval.cpp:17-121 | once `fail` is set, visiting any tree changes nothing |
| Eval.VisitSpec | eval.cpp:17-121 | from depth d, a visit fails exactly when d plus the tree's stack need exceeds 32; on success it leaves the slots below d alone, puts the tree's value in slot d and ends at depth d + 1; on failure the depth is 32 |
| Eval.BinarySpec | eval.cpp:55-121 | the same statement for binary nodes: left operand, then right operand, then the two top slots combined into one |
| Eval.VisitDefined | eval.cpp:17-121 | a visit never leaves an unwritten slot below the depth |
| Eval.EvalTree | eval.cpp:124-129 | `eval` returns the tree's meaning whenever its stack need is at most 32 |
| Eval.RightNestOverflows | eval.cpp:5-24 | a right-leaning chain of n additions needs n + 1 slots, and its evaluation fails exactly when n is at least 32 |
| Pipeline.SumNeed | parse.cpp:400-405 | a sum of terms of signed primaries needs at most 3 stack slots |
| Pipeline.ParsedNeed | parse.cpp:424-442 | every tree `parse` returns is a sum of terms of signed primaries and needs at most 3 stack slots |
| Pipeline.ParsedTreesEvaluate | eval.cpp:124-129 | every tree `parse` returns evaluates without overflow to its meaning |
| Stringify.Append | stringify.cpp:13-20 | the buffer changes exactly on the overlap of [num, num + len) with the buffer, where it holds the string, and `num` grows by the whole length even past `max` |
| Stringify.AppendCompose | stringify.cpp:13-20 | appending two strings in turn is appending their concatenation |
| Stringify.Walk | stringify.cpp:29-85 | the `visit_*` methods: the buffer keeps its size, and `num` grows by the length of the whole rendering whatever fits; Stringify.WalkRenders says what is written |
| Stringify.WalkRenders | stringify.cpp:29-85 | the visitor appends exactly the rendering: integers in decimal, a negation as `-` before its operand, a binary node as `(lhs op rhs)` with spaces around the operator |
| Stringify.VisitorOutput | stringify.cpp:13-85 | on a fresh buffer, `num` ends as the full rendering length whatever the buffer size; the buffer holds the rendering's first min(len, max) characters and is untouched beyond them |
| Stringify.NatText | stringify.cpp:29-35 | a non-negative integer prints as one or more decimal digits with no leading zero |
| RoundTrip.NatTextValue | stringify.cpp:29-35 | reading those digits back gives the number |
| Stringify.StringifyAsWritten | stringify.cpp:88-101 | the terminator store is out of bounds exactly when the rendering is longer than a non-empty buffer, and it lands at the rendering's length |
| Stringify.StringifyOverrunsSmallBuffer | stringify.cpp:94-98 | `(1 + 2)` into a 3-character buffer stores the terminator at index 7 |
| Stringify.Stringify | stringify.cpp:88-101 | corrected `stringify`: every store stays inside the buffer, for every tree and every buffer size; Stringify.StringifySpec gives the buffer and the return value |
| Stringify.StringifySpec | stringify.cpp:88-101 | corrected `stringify`: the buffer keeps its size; the rendering's first min(len, max - 1) characters are followed by a terminator and nothing after it changes; an empty buffer is untouched; the return value is the rendering's length, less one when it exactly fills the buffer |
| Stringify.StringifyAgrees | stringify.cpp:88-101 | whenever the original writes in bounds, the corrected version gives the same buffer and return value |
| RoundTrip.NonNegativeLiteralRoundTrips | stringify.cpp:29-35 | a non-negative integer leaf, printed and parsed again, comes back unchanged |
| RoundTrip.NegativeLiteralReparses | stringify.cpp:29-35 | a negative integer leaf prints as `-digits`, which parses back as a negation of the positive literal (clamped to INT64_MAX) |
| RoundTrip.Int64MinReparsesOffByOne | stringify.cpp:29-35 | INT64_MIN prints as `-9223372036854775808` and comes back as the negation of INT64_MAX |
| RoundTrip.BinaryRenderingRejected | stringify.cpp:51-85 | the rendering of any binary node starts with `(`, which the parser does not accept, so parsing it fails |
| RoundTrip.ReparseOfParsedBinaryFails | stringify.cpp:51-85 | parsing, printing and parsing again fails for every text whose parse is a binary node |

## Left out

- main.cpp, the read-print loop and `read_line`, is terminal I/O and is not part of this model.
- Float values are not computed. A FLOAT token and leaf keep the literal's two digit runs. The `double` accumulation (parse.cpp:155-178), the IEEE operators (eval.cpp:41-121) and `ostringstream` float formatting (stringify.cpp:37-43) are parameters: `Eval.Arith` and the `floatText` function.
- `uint32_t` arithmetic is unbounded `nat`. Overflow of `used + pad + num`, of the cursor and of `num` in `append` is not modelled. Texts and pools of 4 GiB or more are out of scope.
- Node sizes follow a 64-bit (LP64) target: 16 bytes for a leaf and a negation, 24 for a binary node, alignment 8 (`Parser.NodeSize`).
- BumpArena.Alloc: requires `IsPow2(align)`, which excludes 0. The source's `is_pow2` returns true for 0, so its assert admits `align == 0`. The mask `align - 1` would then wrap to all ones. Every caller passes `alignof` of a node, which is 8.
- expr.hpp's constructors and virtual `visit` dispatch are not modelled separately. Constructing a datatype value stores its fields, and the dispatch is a `match`.
- Uninitialised stack slots of `EvalVisitor` are `None`. Eval.EvalTree: when a tree needs more than 32 slots, the contract says nothing about the stale value `eval` returns from slot 31, only that the slot was written.
- Two claims one might expect do not hold in the code, and the model proves the code's behaviour instead:
  - Printing a parsed tree and parsing it again does not give back an equal value: every binary rendering starts with `(`, and the grammar has no parentheses (RoundTrip.ReparseOfParsedBinaryFails).
  - `eval` never reads an unwritten slot: after a visit the depth is at least 1, and it is 32 on overflow (Eval.VisitSpec, Eval.VisitDefined).
- The slot `alloc` returns is not aligned in general, because the padding is computed from `base + num` (BumpArena.AllocSlotMayBeMisaligned). The parser is modelled with this allocator as written, since the node costs, and so which parses succeed, depend on that formula. No corrected allocator is given.

## Findings

| source | as written | input that shows it | evidently intended | confidence | as-written member | corrected member |
|---|---|---|---|---|---|---|
| stringify.cpp:94-98 | when the rendering is longer than the buffer, `num` exceeds `max` and `dst[num] = '\0'` writes past the end of the buffer; only `num == max` is pulled back | `AddOperation(IntValue(1), IntValue(2))` into a 3-character buffer: `num` is 7 and the terminator goes to index 7 | terminate at min(num, max - 1), i.e. truncate the text and keep the terminator inside the buffer | high, not executed | Stringify.StringifyAsWritten | Stringify.Stringify |

The same overrun can be reached from main.cpp, which renders into its 512-byte input buffer. Take 26 copies of an 18-digit literal joined by `+`. That line is 493 characters and needs at most 26 × 23 + 25 × 31 bytes of pool. Its rendering adds four characters per addition, 593 in all. This follows from the statements above (Stringify.VisitorOutput, ParserProofs.ParseAgrees); it is not stated as a separate lemma.
