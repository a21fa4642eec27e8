/**
 * A reference reading of the expression grammar, independent of the
 * precedence-climbing machinery and of the arena: two levels of ordinary
 * recursive descent with left folds,
 *
 *   sum     := term (('+' | '-') term)*
 *   term    := primary (('*' | '/') primary)*
 *   primary := ('+' | '-')* (INT | FLOAT)
 *
 * over the same tokens. Each function returns the tree and the cursor just
 * past what it recognised. The descent is greedy: a sum ends before the
 * first token that is not an operator, and input after that is not looked
 * at; but an operator with no operand after it fails the whole parse.
 */
module Grammar {
  import opened Wrappers
  import opened Ast
  import opened Lexer

  datatype Scan = Scan(e: Expr, cur: nat)

  predicate IsAddOp(t: Token) { t.Add? || t.Sub? }
  predicate IsMulOp(t: Token) { t.Mul? || t.Div? }

  // ---------------------------------------------------------------------
  // Tree shapes the grammar produces
  // ---------------------------------------------------------------------

  /** A literal, possibly under one negation. */
  predicate IsPrimary(e: Expr) {
    e.IsLeaf() || (e.NegOperation? && e.op.IsLeaf())
  }

  /** A left-leaning chain of `* /` whose right operands are primaries. */
  predicate IsTerm(e: Expr) {
    IsPrimary(e) || ((e.MulOperation? || e.DivOperation?) && IsTerm(e.lhs) && IsPrimary(e.rhs))
  }

  /** A left-leaning chain of `+ -` whose right operands are terms. */
  predicate IsSum(e: Expr) {
    IsTerm(e) || ((e.AddOperation? || e.SubOperation?) && IsSum(e.lhs) && IsTerm(e.rhs))
  }

  /** `lhs` sits on the left spine of `e`: folding more operators onto `lhs` gave `e`. */
  predicate LeftSpine(lhs: Expr, e: Expr) {
    e == lhs || (e.IsBinary() && LeftSpine(lhs, e.lhs))
  }

  lemma {:induction false} LeftSpineTrans(a: Expr, b: Expr, c: Expr)
    requires LeftSpine(a, b) && LeftSpine(b, c)
    ensures LeftSpine(a, c)
  {
    if c != b {
      LeftSpineTrans(a, b, c.lhs);
    }
  }

  // ---------------------------------------------------------------------
  // The grammar
  // ---------------------------------------------------------------------

  /** The leading signs: how many `-` there are, and the cursor at the first non-sign token. */
  datatype Signs = Signs(minuses: nat, next: nat)

  function SignPrefix(src: seq<char>, cur: nat): (r: Signs)
    requires cur <= |src|
    ensures cur <= r.next <= |src|
    ensures !IsAddOp(Tokenize(src, r.next).tok)
    decreases |src| - cur
  {
    var t := Tokenize(src, cur);
    if t.tok.Sub? then
      var s := SignPrefix(src, t.next);
      Signs(s.minuses + 1, s.next)
    else if t.tok.Add? then
      SignPrefix(src, t.next)
    else
      Signs(0, cur)
  }

  function Primary(src: seq<char>, cur: nat): (r: Option<Scan>)
    requires cur <= |src|
    ensures r.Some? ==> cur < r.value.cur <= |src| && IsPrimary(r.value.e)
  {
    var s := SignPrefix(src, cur);
    var t := Tokenize(src, s.next);
    var leaf :=
      match t.tok
      case Int(v) => Some(IntValue(v))
      case Float(f) => Some(FloatValue(f))
      case _ => None;
    if leaf.None? then None
    else Some(Scan(if s.minuses % 2 == 1 then NegOperation(leaf.value) else leaf.value, t.next))
  }

  /** `(('*' | '/') primary)*` folded onto `lhs`. */
  function TermTail(src: seq<char>, lhs: Expr, cur: nat): (r: Option<Scan>)
    requires cur <= |src|
    ensures r.Some? ==> cur <= r.value.cur <= |src|
    ensures r.Some? ==> LeftSpine(lhs, r.value.e) && !IsMulOp(Tokenize(src, r.value.cur).tok)
    ensures r.Some? && IsTerm(lhs) ==> IsTerm(r.value.e)
    decreases |src| - cur
  {
    var t := Tokenize(src, cur);
    if IsMulOp(t.tok) then
      match Primary(src, t.next)
      case None => None
      case Some(p) =>
        var node := Bin(t.tok, lhs, p.e);
        assert LeftSpine(lhs, node);
        var res := TermTail(src, node, p.cur);
        if res.Some? then LeftSpineTrans(lhs, node, res.value.e); res else res
    else
      Some(Scan(lhs, cur))
  }

  function Term(src: seq<char>, cur: nat): (r: Option<Scan>)
    requires cur <= |src|
    ensures r.Some? ==> cur < r.value.cur <= |src| && IsTerm(r.value.e)
    ensures r.Some? ==> !IsMulOp(Tokenize(src, r.value.cur).tok)
  {
    match Primary(src, cur)
    case None => None
    case Some(p) => TermTail(src, p.e, p.cur)
  }

  /** `(('+' | '-') term)*` folded onto `lhs`, which a term has just ended. */
  function SumTail(src: seq<char>, lhs: Expr, cur: nat): (r: Option<Scan>)
    requires cur <= |src| && !IsMulOp(Tokenize(src, cur).tok)
    ensures r.Some? ==> cur <= r.value.cur <= |src|
    ensures r.Some? ==> LeftSpine(lhs, r.value.e) && !Tokenize(src, r.value.cur).tok.IsOperator()
    ensures r.Some? && IsSum(lhs) ==> IsSum(r.value.e)
    decreases |src| - cur
  {
    var t := Tokenize(src, cur);
    if IsAddOp(t.tok) then
      match Term(src, t.next)
      case None => None
      case Some(p) =>
        var node := Bin(t.tok, lhs, p.e);
        assert LeftSpine(lhs, node);
        var res := SumTail(src, node, p.cur);
        if res.Some? then LeftSpineTrans(lhs, node, res.value.e); res else res
    else
      Some(Scan(lhs, cur))
  }

  function Sum(src: seq<char>, cur: nat): (r: Option<Scan>)
    requires cur <= |src|
    ensures r.Some? ==> cur < r.value.cur <= |src| && IsSum(r.value.e)
    ensures r.Some? ==> !Tokenize(src, r.value.cur).tok.IsOperator()
  {
    match Term(src, cur)
    case None => None
    case Some(t) => SumTail(src, t.e, t.cur)
  }

  /**
   * The whole text read greedily as a sum: it stops before the first token
   * that is not an operator, and is None when an operator is not followed by
   * an operand (`1 + x`), even though a shorter prefix would be a sum.
   */
  function Expression(src: seq<char>): (r: Option<Expr>)
    ensures r.Some? ==> IsSum(r.value)
  {
    match Sum(src, 0)
    case None => None
    case Some(s) => Some(s.e)
  }
}
