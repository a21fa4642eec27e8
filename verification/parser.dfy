/**
 * The precedence-climbing parser of parse.cpp, as written: `parse_primary`,
 * `parse_expression_2` (with its inner right-association loop) and `parse`.
 * The scanner is the (text, cursor) pair; look-ahead that the source undoes
 * by restoring `s.cur` is simply a cursor the model does not keep. Every
 * node is allocated in the arena; a failed allocation, like a syntax error,
 * makes the whole parse return None.
 */
module Parser {
  import opened Wrappers
  import opened Ast
  import opened BumpArena
  import opened Lexer

  // ---------------------------------------------------------------------
  // Node layout in the arena
  // ---------------------------------------------------------------------

  /** `alignof` of every node: each starts with a vtable pointer. */
  const NodeAlign: nat := 8

  /**
   * `sizeof` of the node `e` heads, for an LP64 target: a vtable pointer
   * plus an 8-byte value or one or two child pointers. The general
   * theorems do not depend on these numbers; the worked examples do.
   */
  function NodeSize(e: Expr): nat {
    match e
    case IntValue(_) => 16
    case FloatValue(_) => 16
    case NegOperation(_) => 16
    case _ => 24
  }

  /**
   * Bytes one `alloc` of a node takes, by node size: the size plus the
   * padding. The padding is computed from `base + num`, so it is the same
   * for every node of one size, whatever is already used; a parse computes
   * it once per size (`LayoutOf`) and charges each node from that table.
   */
  datatype Layout = Layout(unaryCost: nat, binaryCost: nat)

  function LayoutOf(base: nat): (l: Layout)
    ensures 16 <= l.unaryCost < 16 + NodeAlign && 24 <= l.binaryCost < 24 + NodeAlign
  {
    Layout(Pad(base, 16, NodeAlign) + 16, Pad(base, 24, NodeAlign) + 24)
  }

  /** Bytes the node `e` heads takes in the arena. */
  function NodeCost(l: Layout, e: Expr): nat {
    if e.IsBinary() then l.binaryCost else l.unaryCost
  }

  /** Bytes a whole tree takes: the sum of its nodes' costs. */
  function TreeCost(l: Layout, e: Expr): (c: nat)
    ensures c >= NodeCost(l, e)
  {
    NodeCost(l, e) +
    match e
    case IntValue(_) => 0
    case FloatValue(_) => 0
    case NegOperation(x) => TreeCost(l, x)
    case AddOperation(lhs, rhs) => TreeCost(l, lhs) + TreeCost(l, rhs)
    case SubOperation(lhs, rhs) => TreeCost(l, lhs) + TreeCost(l, rhs)
    case MulOperation(lhs, rhs) => TreeCost(l, lhs) + TreeCost(l, rhs)
    case DivOperation(lhs, rhs) => TreeCost(l, lhs) + TreeCost(l, rhs)
  }

  /** A binary node costs itself plus its operands. */
  lemma TreeCostBin(l: Layout, op: Token, lhs: Expr, rhs: Expr)
    requires op.IsOperator()
    ensures TreeCost(l, Bin(op, lhs, rhs)) == l.binaryCost + TreeCost(l, lhs) + TreeCost(l, rhs)
  {
  }

  /**
   * The `make_*` helpers: allocate the node `e` heads (its children already
   * live in the arena), charging it from the layout table. None when the
   * arena is exhausted. `MakeNodeIsAlloc` shows this is `Arena::alloc` of
   * the node's size and alignment.
   */
  function MakeNode(a: Arena, l: Layout, e: Expr): (r: Option<Arena>)
    requires a.Valid()
    ensures r.Some? <==> a.used + NodeCost(l, e) <= a.size
    ensures r.Some? ==> r.value == a.(used := a.used + NodeCost(l, e))
  {
    var cost := NodeCost(l, e);
    if a.used + cost <= a.size then Some(a.(used := a.used + cost)) else None
  }

  /**
   * With the table of the arena's own buffer, `MakeNode` does what
   * `Arena::alloc(sizeof node, alignof node)` does: it fails exactly when
   * `alloc` returns null, and otherwise leaves the arena as `alloc` does.
   */
  lemma MakeNodeIsAlloc(a: Arena, e: Expr)
    requires a.Valid()
    ensures var r := Alloc(a, NodeSize(e), NodeAlign);
            MakeNode(a, LayoutOf(a.base), e) == if r.slot.None? then None else Some(r.arena)
  {
    assert IsPow2(NodeAlign) by { assert IsPow2(4) by { assert IsPow2(2); } }
  }

  // ---------------------------------------------------------------------
  // Precedence
  // ---------------------------------------------------------------------

  /** `precedence_of`: `+ -` bind at 0, `* /` at 1, anything else is -1. */
  function PrecedenceOf(t: Token): int {
    match t
    case Add => 0
    case Sub => 0
    case Mul => 1
    case Div => 1
    case _ => -1
  }

  /** `is_right_associative`: no operator is. */
  predicate IsRightAssociative(op: Token) {
    false
  }

  /**
   * `follows_oper_of_higher_precedence`: the token at the cursor, if its
   * precedence is at least `min` (the source then keeps it consumed);
   * otherwise None and the cursor is restored. With `min >= 0` only an
   * operator is accepted, and it advances the cursor by exactly one
   * character past the blanks.
   */
  function FollowsOperOfHigherPrecedence(src: seq<char>, cur: nat, min: nat): (r: Option<Lexed>)
    requires cur <= |src|
    ensures r.Some? <==> Tokenize(src, cur).tok.IsOperator() && PrecedenceOf(Tokenize(src, cur).tok) >= min
    ensures r.Some? ==> r.value.tok == Tokenize(src, cur).tok
                        && r.value.next == SkipSpace(src, cur) + 1
  {
    var op := Tokenize(src, cur);
    if PrecedenceOf(op.tok) >= min then Some(op) else None
  }

  /**
   * `should_associate_right`: peeks at the next token (the cursor is
   * restored) and says whether the right operand of `op` must absorb it.
   * As no operator is right-associative, that is exactly when the next token
   * is `* /` and `op` is `+ -`.
   */
  predicate ShouldAssociateRight(src: seq<char>, cur: nat, op: Token)
    requires cur <= |src|
    ensures ShouldAssociateRight(src, cur, op) <==>
              PrecedenceOf(op) < PrecedenceOf(Tokenize(src, cur).tok)
  {
    var peek := Tokenize(src, cur).tok;
    var p1 := PrecedenceOf(op);
    var p2 := PrecedenceOf(peek);
    p1 < p2 || (p1 == p2 && IsRightAssociative(peek))
  }

  // ---------------------------------------------------------------------
  // The parser
  // ---------------------------------------------------------------------

  /** A parsed subtree, the cursor after it and the arena after allocating it. */
  datatype Parsed = Parsed(e: Expr, cur: nat, arena: Arena)

  predicate Progress(src: seq<char>, cur: nat, a: Arena, p: Parsed) {
    cur <= p.cur <= |src| && p.arena.Valid() && p.arena.base == a.base && p.arena.size == a.size
  }

  /** The sign loop of `parse_primary`: the first non-sign token, and the parity of `-`s. */
  datatype SignScan = SignScan(tok: Token, next: nat, neg: bool)

  function ScanSigns(src: seq<char>, cur: nat, neg: bool): (r: SignScan)
    requires cur <= |src|
    ensures cur <= r.next <= |src|
    ensures !r.tok.Add? && !r.tok.Sub?
    decreases |src| - cur
  {
    var t := Tokenize(src, cur);
    if t.tok.Sub? then ScanSigns(src, t.next, !neg)
    else if t.tok.Add? then ScanSigns(src, t.next, neg)
    else SignScan(t.tok, t.next, neg)
  }

  /**
   * `parse_primary`: signs, then an INT or FLOAT leaf, wrapped in one
   * NegOperation when the `-` signs are odd in number. Any other token, or
   * an exhausted arena, gives None.
   */
  function ParsePrimary(src: seq<char>, cur: nat, a: Arena, l: Layout): (r: Option<Parsed>)
    requires cur <= |src| && a.Valid()
    ensures r.Some? ==> Progress(src, cur, a, r.value) && cur < r.value.cur
    // a literal under at most one negation, and exactly its nodes are charged
    ensures r.Some? ==> r.value.e.IsLeaf() || (r.value.e.NegOperation? && r.value.e.op.IsLeaf())
    ensures r.Some? ==> r.value.arena.used == a.used + TreeCost(l, r.value.e)
  {
    var s := ScanSigns(src, cur, false);
    var leaf :=
      match s.tok
      case Int(v) => Some(IntValue(v))
      case Float(f) => Some(FloatValue(f))
      case _ => None;
    if leaf.None? then None
    else
      match MakeNode(a, l, leaf.value)
      case None => None
      case Some(a1) =>
        if s.neg then
          match MakeNode(a1, l, NegOperation(leaf.value))
          case None => None
          case Some(a2) => Some(Parsed(NegOperation(leaf.value), s.next, a2))
        else
          Some(Parsed(leaf.value, s.next, a1))
  }

  /**
   * `parse_expression_2(lhs, min)`: while an operator of precedence at least
   * `min` follows, consume it, parse a primary as its right operand, let that
   * operand absorb tighter-binding operators (`AssociateRight`), and fold
   * the node into `lhs`. Stops, cursor restored, at anything else.
   */
  function ParseExpression2(src: seq<char>, lhs: Expr, cur: nat, a: Arena, l: Layout, min: nat): (r: Option<Parsed>)
    requires cur <= |src| && a.Valid()
    ensures r.Some? ==> Progress(src, cur, a, r.value)
    ensures r.Some? && FollowsOperOfHigherPrecedence(src, cur, min).Some? ==> cur < r.value.cur
    // the arena grows by exactly the nodes built on top of `lhs`
    ensures r.Some? ==> r.value.arena.used + TreeCost(l, lhs) == a.used + TreeCost(l, r.value.e)
    decreases |src| - cur, 0
  {
    match FollowsOperOfHigherPrecedence(src, cur, min)
    case None => Some(Parsed(lhs, cur, a))
    case Some(op) =>
      match ParsePrimary(src, op.next, a, l)
      case None => None
      case Some(rhs) =>
        match AssociateRight(src, op.tok, rhs.e, rhs.cur, rhs.arena, l)
        case None => None
        case Some(q) =>
          var node := Bin(op.tok, lhs, q.e);
          TreeCostBin(l, op.tok, lhs, q.e);
          match MakeNode(q.arena, l, node)
          case None => None
          case Some(a2) => ParseExpression2(src, node, q.cur, a2, l, min)
  }

  /**
   * The inner loop of `parse_expression_2`: while `ShouldAssociateRight`,
   * re-parse the right operand `rhs` at minimum precedence `p1 + (p2 > p1)`.
   */
  function AssociateRight(src: seq<char>, op: Token, rhs: Expr, cur: nat, a: Arena, l: Layout): (r: Option<Parsed>)
    requires cur <= |src| && a.Valid() && op.IsOperator()
    ensures r.Some? ==> Progress(src, cur, a, r.value)
    ensures r.Some? ==> r.value.arena.used + TreeCost(l, rhs) == a.used + TreeCost(l, r.value.e)
    decreases |src| - cur, 1
  {
    if ShouldAssociateRight(src, cur, op) then
      var p1 := PrecedenceOf(op);
      var p2 := PrecedenceOf(Tokenize(src, cur).tok);
      match ParseExpression2(src, rhs, cur, a, l, p1 + if p2 > p1 then 1 else 0)
      case None => None
      case Some(q) => AssociateRight(src, op, q.e, q.cur, q.arena, l)
    else
      Some(Parsed(rhs, cur, a))
  }

  /** `parse`: a primary, then the operator chain at minimum precedence 0. */
  function Parse(src: seq<char>, base: nat, size: nat): (r: Option<Expr>)
    // every node of the tree lives in the pool
    ensures r.Some? ==> TreeCost(LayoutOf(base), r.value) <= size
  {
    var a := Init(base, size);
    var l := LayoutOf(base);
    match ParsePrimary(src, 0, a, l)
    case None => None
    case Some(p) =>
      match ParseExpression2(src, p.e, p.cur, p.arena, l, 0)
      case None => None
      case Some(q) => Some(q.e)
  }
}
