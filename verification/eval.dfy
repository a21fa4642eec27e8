/**
 * The stack evaluator of eval.cpp (`EvalVisitor` and `eval`). The visitor
 * keeps a sticky `fail` flag, a depth and a fixed array of 32 value slots;
 * a slot the evaluation has not written yet holds None. Numbers are kept
 * abstract: the value type `V` and its operations (the conversions of the
 * literals to `double`, negation and the four IEEE operators) are a
 * parameter, `Arith<V>`.
 */
module Eval {
  import opened Wrappers
  import opened Ast

  /** `EvalVisitor::max_depth`. */
  const MaxDepth: nat := 32

  /** The value domain: how literals become values, and the five operators. */
  datatype Arith<!V> = Arith(
    ofInt: Int64 -> V,
    ofFloat: FloatLit -> V,
    neg: V -> V,
    add: (V, V) -> V,
    sub: (V, V) -> V,
    mul: (V, V) -> V,
    div: (V, V) -> V)

  /** The visitor's state: `fail`, `depth` and the slots of `stack`. */
  datatype Machine<V> = Machine(fail: bool, depth: nat, stack: seq<Option<V>>) {
    predicate Valid() {
      depth <= MaxDepth && |stack| == MaxDepth
    }

    /** Every slot below `depth` has been written. */
    predicate Defined() {
      Valid() && forall i | 0 <= i < depth :: stack[i].Some?
    }
  }

  /** The visitor as constructed: no failure, depth 0, nothing written. */
  function Fresh<V>(): (m: Machine<V>)
    ensures m.Defined() && !m.fail && m.depth == 0
  {
    Machine(false, 0, seq(MaxDepth, _ => None))
  }

  // ---------------------------------------------------------------------
  // The reference semantics
  // ---------------------------------------------------------------------

  /** The value a tree denotes: the operators applied bottom-up. */
  function Denote<V>(ar: Arith<V>, e: Expr): V {
    match e
    case IntValue(v) => ar.ofInt(v)
    case FloatValue(f) => ar.ofFloat(f)
    case NegOperation(x) => ar.neg(Denote(ar, x))
    case AddOperation(l, r) => ar.add(Denote(ar, l), Denote(ar, r))
    case SubOperation(l, r) => ar.sub(Denote(ar, l), Denote(ar, r))
    case MulOperation(l, r) => ar.mul(Denote(ar, l), Denote(ar, r))
    case DivOperation(l, r) => ar.div(Denote(ar, l), Denote(ar, r))
  }

  /**
   * Stack slots a tree needs: a leaf takes one; a negation works in place;
   * a binary node holds its left value while its right operand is evaluated.
   */
  function Need(e: Expr): (n: nat)
    ensures n >= 1
  {
    match e
    case IntValue(_) => 1
    case FloatValue(_) => 1
    case NegOperation(x) => Need(x)
    case AddOperation(l, r) => Max(Need(l), 1 + Need(r))
    case SubOperation(l, r) => Max(Need(l), 1 + Need(r))
    case MulOperation(l, r) => Max(Need(l), 1 + Need(r))
    case DivOperation(l, r) => Max(Need(l), 1 + Need(r))
  }

  function Max(a: nat, b: nat): nat {
    if a >= b then a else b
  }

  // ---------------------------------------------------------------------
  // The visitor
  // ---------------------------------------------------------------------

  /** `visit_int` / `visit_float`: push `v`, or fail when the stack is full. */
  function Push<V>(m: Machine<V>, v: V): (r: Machine<V>)
    requires m.Valid()
    ensures r.Valid()
    ensures m.fail ==> r == m
    ensures !m.fail ==> (r.fail <==> m.depth == MaxDepth)
    ensures !r.fail ==> r.depth == m.depth + 1 && r.stack == m.stack[m.depth := Some(v)]
    ensures r.fail ==> r.depth == m.depth && r.stack == m.stack
  {
    if m.fail then m
    else if m.depth == MaxDepth then m.(fail := true)
    else m.(stack := m.stack[m.depth := Some(v)], depth := m.depth + 1)
  }

  function Lift1<V>(f: V -> V, x: Option<V>): Option<V> {
    match x
    case None => None
    case Some(a) => Some(f(a))
  }

  function Lift2<V>(f: (V, V) -> V, x: Option<V>, y: Option<V>): Option<V> {
    if x.Some? && y.Some? then Some(f(x.value, y.value)) else None
  }

  /**
   * The tail of `visit_neg`, after the operand has been visited: negate the
   * top slot in place, or fail on an empty stack.
   */
  function NegateTop<V>(ar: Arith<V>, m: Machine<V>): (r: Machine<V>)
    requires m.Valid()
    ensures r.Valid()
    ensures m.fail ==> r == m
    ensures !m.fail ==> (r.fail <==> m.depth < 1)
    ensures !r.fail ==> r.depth == m.depth
                        && r.stack == m.stack[m.depth - 1 := Lift1(ar.neg, m.stack[m.depth - 1])]
  {
    if m.fail then m
    else if m.depth < 1 then m.(fail := true)
    else m.(stack := m.stack[m.depth - 1 := Lift1(ar.neg, m.stack[m.depth - 1])])
  }

  /**
   * The tail of `visit_add` and its siblings, after both operands have been
   * visited: pop `rhs`, pop `lhs`, push `lhs op rhs`; fail with fewer than
   * two values. The popped `rhs` slot keeps its stale value.
   */
  function Combine<V>(op: (V, V) -> V, m: Machine<V>): (r: Machine<V>)
    requires m.Valid()
    ensures r.Valid()
    ensures m.fail ==> r == m
    ensures !m.fail ==> (r.fail <==> m.depth < 2)
    ensures !r.fail ==> r.depth == m.depth - 1
                        && r.stack == m.stack[m.depth - 2 := Lift2(op, m.stack[m.depth - 2], m.stack[m.depth - 1])]
  {
    if m.fail then m
    else if m.depth < 2 then m.(fail := true)
    else
      var rhs := m.stack[m.depth - 1];
      var lhs := m.stack[m.depth - 2];
      m.(stack := m.stack[m.depth - 2 := Lift2(op, lhs, rhs)], depth := m.depth - 1)
  }

  /**
   * `e->visit(visitor)`: the double dispatch becomes a match. Compound nodes
   * visit their operands unconditionally and only then look at `fail`.
   */
  function Visit<V>(ar: Arith<V>, m: Machine<V>, e: Expr): (r: Machine<V>)
    requires m.Valid()
    ensures r.Valid()
    // the failure flag never clears, and a visit that does not fail leaves
    // exactly one more value on the stack
    ensures m.fail ==> r.fail
    ensures !r.fail ==> r.depth == m.depth + 1
    decreases e
  {
    match e
    case IntValue(v) => Push(m, ar.ofInt(v))
    case FloatValue(f) => Push(m, ar.ofFloat(f))
    case NegOperation(x) => NegateTop(ar, Visit(ar, m, x))
    case AddOperation(l, rhs) => Combine(ar.add, Visit(ar, Visit(ar, m, l), rhs))
    case SubOperation(l, rhs) => Combine(ar.sub, Visit(ar, Visit(ar, m, l), rhs))
    case MulOperation(l, rhs) => Combine(ar.mul, Visit(ar, Visit(ar, m, l), rhs))
    case DivOperation(l, rhs) => Combine(ar.div, Visit(ar, Visit(ar, m, l), rhs))
  }

  // ---------------------------------------------------------------------
  // The depth discipline
  // ---------------------------------------------------------------------

  /** Once `fail` is set, a visit changes nothing: not the depth, not a slot. */
  lemma {:induction false} VisitSticky<V>(ar: Arith<V>, m: Machine<V>, e: Expr)
    requires m.Valid() && m.fail
    ensures Visit(ar, m, e) == m
    decreases e
  {
    match e
    case IntValue(_) =>
    case FloatValue(_) =>
    case NegOperation(x) => VisitSticky(ar, m, x);
    case AddOperation(l, r) => VisitSticky(ar, m, l); VisitSticky(ar, m, r);
    case SubOperation(l, r) => VisitSticky(ar, m, l); VisitSticky(ar, m, r);
    case MulOperation(l, r) => VisitSticky(ar, m, l); VisitSticky(ar, m, r);
    case DivOperation(l, r) => VisitSticky(ar, m, l); VisitSticky(ar, m, r);
  }

  /**
   * Visiting `e` from depth `d` with no failure succeeds exactly when
   * `d + Need(e)` slots fit. On success the depth is `d + 1`, the slots
   * below `d` are untouched and slot `d` holds the value of `e`; on failure
   * the depth is frozen at the maximum. So the underflow branches never
   * fire: every failure is an overflow.
   */
  lemma {:induction false} VisitSpec<V>(ar: Arith<V>, m: Machine<V>, e: Expr)
    requires m.Valid() && !m.fail
    ensures var r := Visit(ar, m, e);
            && (r.fail <==> m.depth + Need(e) > MaxDepth)
            && (!r.fail ==> r.depth == m.depth + 1
                            && r.stack[..m.depth] == m.stack[..m.depth]
                            && r.stack[m.depth] == Some(Denote(ar, e)))
            && (r.fail ==> r.depth == MaxDepth)
    decreases e, 1
  {
    match e
    case IntValue(_) =>
    case FloatValue(_) =>
    case NegOperation(x) =>
      VisitSpec(ar, m, x);
    case _ =>
      BinarySpec(ar, m, e);
  }

  /** `VisitSpec` for a binary node. */
  lemma {:induction false} BinarySpec<V>(ar: Arith<V>, m: Machine<V>, e: Expr)
    requires m.Valid() && !m.fail && e.IsBinary()
    ensures var r := Visit(ar, m, e);
            && (r.fail <==> m.depth + Need(e) > MaxDepth)
            && (!r.fail ==> r.depth == m.depth + 1
                            && r.stack[..m.depth] == m.stack[..m.depth]
                            && r.stack[m.depth] == Some(Denote(ar, e)))
            && (r.fail ==> r.depth == MaxDepth)
    decreases e, 0
  {
    hide Visit, Denote;
    var m1 := Visit(ar, m, e.lhs);
    VisitSpec(ar, m, e.lhs);
    var m2 := Visit(ar, m1, e.rhs);
    VisitBinary(ar, m, e);
    if m1.fail {
      VisitSticky(ar, m1, e.rhs);
    } else {
      VisitSpec(ar, m1, e.rhs);
      if !m2.fail {
        assert m2.stack[m.depth] == m2.stack[..m1.depth][m.depth] == m1.stack[m.depth];
        assert m2.stack[..m.depth] == m2.stack[..m1.depth][..m.depth];
      }
    }
  }

  /** The operator a binary node applies. */
  function BinOp<V>(ar: Arith<V>, e: Expr): (V, V) -> V
    requires e.IsBinary()
  {
    match e
    case AddOperation(_, _) => ar.add
    case SubOperation(_, _) => ar.sub
    case MulOperation(_, _) => ar.mul
    case DivOperation(_, _) => ar.div
  }

  /** The four `visit_add`..`visit_div` share one shape: both operands, then `Combine`. */
  lemma VisitBinary<V>(ar: Arith<V>, m: Machine<V>, e: Expr)
    requires m.Valid() && e.IsBinary()
    ensures Visit(ar, m, e) == Combine(BinOp(ar, e), Visit(ar, Visit(ar, m, e.lhs), e.rhs))
    ensures Denote(ar, e) == BinOp(ar, e)(Denote(ar, e.lhs), Denote(ar, e.rhs))
  {
  }

  /** Every slot below the depth stays written, whatever happens. */
  lemma {:induction false} VisitDefined<V>(ar: Arith<V>, m: Machine<V>, e: Expr)
    requires m.Defined()
    ensures Visit(ar, m, e).Defined()
    decreases e
  {
    match e
    case IntValue(_) =>
    case FloatValue(_) =>
    case NegOperation(x) => VisitDefined(ar, m, x);
    case AddOperation(l, r) => VisitDefined(ar, m, l); VisitDefined(ar, Visit(ar, m, l), r);
    case SubOperation(l, r) => VisitDefined(ar, m, l); VisitDefined(ar, Visit(ar, m, l), r);
    case MulOperation(l, r) => VisitDefined(ar, m, l); VisitDefined(ar, Visit(ar, m, l), r);
    case DivOperation(l, r) => VisitDefined(ar, m, l); VisitDefined(ar, Visit(ar, m, l), r);
  }

  /**
   * `eval`: visit from a fresh visitor and read `stack[depth - 1]`. The read
   * is always in bounds and of a written slot: the depth is 1 after success
   * and 32 after an overflow. When the tree fits the stack the result is its
   * value; after an overflow it is whatever operand was left in the top slot,
   * and the caller is not told.
   */
  function EvalTree<V>(ar: Arith<V>, e: Expr): (r: V)
    ensures Need(e) <= MaxDepth ==> r == Denote(ar, e)
  {
    var m := Visit(ar, Fresh(), e);
    VisitSpec(ar, Fresh(), e);
    VisitDefined(ar, Fresh(), e);
    assert 1 <= m.depth;
    m.stack[m.depth - 1].value
  }

  /**
   * Nesting that keeps every left value live: `1 + (1 + (... + 1))` with `n`
   * additions needs `n + 1` slots, so from 32 additions on the visitor fails.
   */
  function RightNest(n: nat): Expr {
    if n == 0 then IntValue(1) else AddOperation(IntValue(1), RightNest(n - 1))
  }

  lemma {:induction false} RightNestOverflows<V>(ar: Arith<V>, n: nat)
    ensures Need(RightNest(n)) == n + 1
    ensures Visit(ar, Fresh(), RightNest(n)).fail <==> n >= MaxDepth
  {
    if n > 0 {
      RightNestOverflows(ar, n - 1);
    }
    VisitSpec(ar, Fresh(), RightNest(n));
  }
}
