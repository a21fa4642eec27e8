/**
 * The precedence-climbing parser agrees with the reference grammar: it
 * builds exactly the grammar's tree, stops at the same cursor, and fails
 * exactly when the grammar rejects the input or the arena cannot hold the
 * tree. Because padding depends only on the node size (see
 * `Parser.Layout`), the arena holds the tree exactly when the sum of its
 * nodes' costs fits.
 */
module ParserProofs {
  import opened Wrappers
  import opened Ast
  import opened BumpArena
  import opened Lexer
  import opened Parser
  import opened Grammar

  /** A tree costs at least as much as any tree on its left spine. */
  lemma {:induction false} LeftSpineCost(l: Layout, lhs: Expr, e: Expr)
    requires LeftSpine(lhs, e)
    ensures TreeCost(l, lhs) <= TreeCost(l, e)
  {
    if e != lhs {
      LeftSpineCost(l, lhs, e.lhs);
    }
  }

  /**
   * What the climbing parser should return when the grammar reads `r`:
   * the same tree and cursor, with the arena charged for the nodes of the
   * tree not already `paid` for; None when the grammar rejects or the
   * charge does not fit.
   */
  function Charge(r: Option<Scan>, paid: nat, a: Arena, l: Layout): Option<Parsed> {
    match r
    case None => None
    case Some(s) =>
      var cost := TreeCost(l, s.e);
      if paid <= cost && a.used + (cost - paid) <= a.size then
        Some(Parsed(s.e, s.cur, a.(used := a.used + (cost - paid))))
      else None
  }

  /** Paying `k` bytes up front does not change the outcome. */
  lemma ChargeShift(r: Option<Scan>, paid: nat, k: nat, a: Arena, l: Layout)
    requires a.used + k <= a.size
    requires r.Some? ==> paid + k <= TreeCost(l, r.value.e)
    ensures Charge(r, paid + k, a.(used := a.used + k), l) == Charge(r, paid, a, l)
  {
  }

  /** Paying `c` bytes first, when they fit, is charging for them with the rest. */
  lemma ChargeStep(r: Option<Scan>, paid: nat, c: nat, a: Arena, l: Layout)
    requires r.Some? ==> paid + c <= TreeCost(l, r.value.e)
    ensures (if a.used + c <= a.size then Charge(r, paid + c, a.(used := a.used + c), l) else None)
            == Charge(r, paid, a, l)
  {
  }

  /** After a term, the rest of a sum: the grammar's continuation from `lhs`. */
  function SumAfter(src: seq<char>, lhs: Expr, cur: nat): (r: Option<Scan>)
    requires cur <= |src|
    ensures r.Some? ==> LeftSpine(lhs, r.value.e) && cur <= r.value.cur <= |src|
  {
    match TermTail(src, lhs, cur)
    case None => None
    case Some(t) =>
      var res := SumTail(src, t.e, t.cur);
      if res.Some? then LeftSpineTrans(lhs, t.e, res.value.e); res else res
  }

  // ---------------------------------------------------------------------
  // Primaries
  // ---------------------------------------------------------------------

  /**
   * The source's sign loop toggles a flag on each `-`: it ends on the first
   * non-sign token with the flag flipped exactly when the `-`s were odd.
   */
  lemma {:induction false} SignsAgree(src: seq<char>, cur: nat, neg: bool)
    requires cur <= |src|
    ensures var p := SignPrefix(src, cur);
            var t := Tokenize(src, p.next);
            ScanSigns(src, cur, neg) == SignScan(t.tok, t.next, neg != (p.minuses % 2 == 1))
    decreases |src| - cur
  {
    var t := Tokenize(src, cur);
    if t.tok.Sub? || t.tok.Add? {
      SignsAgree(src, t.next, if t.tok.Sub? then !neg else neg);
    }
  }

  /** Allocating a literal, then its negation if any, is charging for the primary. */
  lemma LeafCharge(a: Arena, l: Layout, leaf: Expr, neg: bool, next: nat)
    requires a.Valid() && leaf.IsLeaf()
    ensures (match MakeNode(a, l, leaf)
             case None => None
             case Some(a1) =>
               if neg then
                 match MakeNode(a1, l, NegOperation(leaf))
                 case None => None
                 case Some(a2) => Some(Parsed(NegOperation(leaf), next, a2))
               else Some(Parsed(leaf, next, a1)))
            == Charge(Some(Scan(if neg then NegOperation(leaf) else leaf, next)), 0, a, l)
  {
    assert TreeCost(l, leaf) == l.unaryCost;
    assert TreeCost(l, NegOperation(leaf)) == l.unaryCost + l.unaryCost;
  }

  /** `parse_primary` is the grammar's primary, charged to the arena. */
  lemma PrimaryAgrees(src: seq<char>, cur: nat, a: Arena, l: Layout)
    requires cur <= |src| && a.Valid()
    ensures ParsePrimary(src, cur, a, l) == Charge(Primary(src, cur), 0, a, l)
  {
    SignsAgree(src, cur, false);
    var s := ScanSigns(src, cur, false);
    match s.tok
    case Int(v) => LeafCharge(a, l, IntValue(v), s.neg, s.next);
    case Float(f) => LeafCharge(a, l, FloatValue(f), s.neg, s.next);
    case _ =>
  }

  // ---------------------------------------------------------------------
  // The operator chains
  // ---------------------------------------------------------------------

  /** Without an operator of precedence `min` or more, the loop stops at once. */
  lemma StopAt(src: seq<char>, lhs: Expr, cur: nat, a: Arena, l: Layout, min: nat)
    requires cur <= |src| && a.Valid()
    requires FollowsOperOfHigherPrecedence(src, cur, min).None?
    ensures ParseExpression2(src, lhs, cur, a, l, min) == Some(Parsed(lhs, cur, a))
  {
  }

  /** After `* /`, the inner loop never runs: nothing binds tighter. */
  lemma AssociateRightMul(src: seq<char>, op: Token, rhs: Expr, cur: nat, a: Arena, l: Layout)
    requires cur <= |src| && a.Valid() && IsMulOp(op)
    ensures AssociateRight(src, op, rhs, cur, a, l) == Some(Parsed(rhs, cur, a))
  {
  }

  /** `parse_expression_2` unfolded once on an accepted operator. */
  lemma UnfoldOperator(src: seq<char>, lhs: Expr, cur: nat, a: Arena, l: Layout, min: nat)
    requires cur <= |src| && a.Valid()
    requires FollowsOperOfHigherPrecedence(src, cur, min).Some?
    ensures var t := Tokenize(src, cur);
            ParseExpression2(src, lhs, cur, a, l, min) ==
              match ParsePrimary(src, t.next, a, l)
              case None => None
              case Some(rhs) =>
                match AssociateRight(src, t.tok, rhs.e, rhs.cur, rhs.arena, l)
                case None => None
                case Some(q) =>
                  var node := Bin(t.tok, lhs, q.e);
                  match MakeNode(q.arena, l, node)
                  case None => None
                  case Some(a2) => ParseExpression2(src, node, q.cur, a2, l, min)
  {
  }

  /** On `* /`, the inner loop is skipped: the turn reads one primary. */
  lemma UnfoldMul(src: seq<char>, lhs: Expr, cur: nat, a: Arena, l: Layout, min: nat)
    requires cur <= |src| && a.Valid() && min <= 1
    requires IsMulOp(Tokenize(src, cur).tok)
    ensures var t := Tokenize(src, cur);
            ParseExpression2(src, lhs, cur, a, l, min) ==
              match ParsePrimary(src, t.next, a, l)
              case None => None
              case Some(rhs) =>
                var node := Bin(t.tok, lhs, rhs.e);
                match MakeNode(rhs.arena, l, node)
                case None => None
                case Some(a2) => ParseExpression2(src, node, rhs.cur, a2, l, min)
  {
    var t := Tokenize(src, cur);
    UnfoldOperator(src, lhs, cur, a, l, min);
    match ParsePrimary(src, t.next, a, l)
    case None =>
    case Some(rhs) =>
      AssociateRightMul(src, t.tok, rhs.e, rhs.cur, rhs.arena, l);
  }

  /**
   * One turn of the outer loop on a `* /` operator: a primary is read and
   * folded onto `lhs`, which costs the primary plus one binary node.
   */
  lemma MulStep(src: seq<char>, lhs: Expr, cur: nat, a: Arena, l: Layout, min: nat)
    requires cur <= |src| && a.Valid() && min <= 1
    requires IsMulOp(Tokenize(src, cur).tok)
    ensures var t := Tokenize(src, cur);
            ParseExpression2(src, lhs, cur, a, l, min) ==
              match Primary(src, t.next)
              case None => None
              case Some(p) =>
                var c := TreeCost(l, p.e) + l.binaryCost;
                if a.used + c <= a.size then
                  ParseExpression2(src, Bin(t.tok, lhs, p.e), p.cur, a.(used := a.used + c), l, min)
                else None
  {
    hide ParseExpression2, AssociateRight, ParsePrimary, Tokenize, Primary;
    var t := Tokenize(src, cur);
    UnfoldMul(src, lhs, cur, a, l, min);
    PrimaryAgrees(src, t.next, a, l);
  }

  /** `MulStep` once the primary `p` after the operator is known. */
  lemma MulStepAt(src: seq<char>, lhs: Expr, cur: nat, a: Arena, l: Layout, min: nat, t: Lexed, p: Scan)
    requires cur <= |src| && a.Valid() && min <= 1
    requires t == Tokenize(src, cur) && IsMulOp(t.tok) && Primary(src, t.next) == Some(p)
    ensures p.cur <= |src|
    ensures var c := TreeCost(l, p.e) + l.binaryCost;
            ParseExpression2(src, lhs, cur, a, l, min) ==
              if a.used + c <= a.size then
                ParseExpression2(src, Bin(t.tok, lhs, p.e), p.cur, a.(used := a.used + c), l, min)
              else None
  {
    hide ParseExpression2, AssociateRight, ParsePrimary, Tokenize, Primary;
    MulStep(src, lhs, cur, a, l, min);
  }

  /**
   * A primary followed by the inner loop of a `+ -` turn reads exactly the
   * grammar's term.
   */
  lemma TermAgrees(src: seq<char>, op: Token, cur: nat, a: Arena, l: Layout)
    requires cur <= |src| && a.Valid() && IsAddOp(op)
    ensures (match ParsePrimary(src, cur, a, l)
             case None => None
             case Some(rhs) => AssociateRight(src, op, rhs.e, rhs.cur, rhs.arena, l))
            == Charge(Term(src, cur), 0, a, l)
  {
    hide ParseExpression2, AssociateRight, ParsePrimary, Tokenize, Primary;
    PrimaryAgrees(src, cur, a, l);
    match Primary(src, cur)
    case None =>
      assert ParsePrimary(src, cur, a, l) == None;
      assert Term(src, cur) == None;
    case Some(p) =>
      var pc := TreeCost(l, p.e);
      var term := TermTail(src, p.e, p.cur);
      assert Term(src, cur) == term;
      if term.Some? {
        LeftSpineCost(l, p.e, term.value.e);
      }
      ChargeStep(term, 0, pc, a, l);
      if a.used + pc <= a.size {
        var a1 := a.(used := a.used + pc);
        assert ParsePrimary(src, cur, a, l) == Some(Parsed(p.e, p.cur, a1));
        AssociateRightAdd(src, op, p.e, p.cur, a1, l);
      } else {
        assert ParsePrimary(src, cur, a, l) == None;
      }
  }

  /**
   * One turn of the outer loop on a `+ -` operator: a whole term is read
   * (the primary and the `* /` chain the inner loop absorbs) and folded onto
   * `lhs`.
   */
  lemma AddStep(src: seq<char>, lhs: Expr, cur: nat, a: Arena, l: Layout)
    requires cur <= |src| && a.Valid()
    requires IsAddOp(Tokenize(src, cur).tok)
    ensures var t := Tokenize(src, cur);
            ParseExpression2(src, lhs, cur, a, l, 0) ==
              match Term(src, t.next)
              case None => None
              case Some(q) =>
                var c := TreeCost(l, q.e) + l.binaryCost;
                if a.used + c <= a.size then
                  ParseExpression2(src, Bin(t.tok, lhs, q.e), q.cur, a.(used := a.used + c), l, 0)
                else None
  {
    hide ParseExpression2, AssociateRight, ParsePrimary, Tokenize, Primary;
    var t := Tokenize(src, cur);
    UnfoldOperator(src, lhs, cur, a, l, 0);
    TermAgrees(src, t.tok, t.next, a, l);
  }

  /**
   * At minimum precedence 1, `parse_expression_2` is the grammar's `* /`
   * chain folded onto `lhs`.
   */
  lemma {:induction false} TermTailAgrees(src: seq<char>, lhs: Expr, cur: nat, a: Arena, l: Layout)
    requires cur <= |src| && a.Valid()
    ensures ParseExpression2(src, lhs, cur, a, l, 1) ==
              Charge(TermTail(src, lhs, cur), TreeCost(l, lhs), a, l)
    decreases |src| - cur, 1
  {
    hide ParseExpression2, AssociateRight, ParsePrimary, Tokenize, Primary;
    var t := Tokenize(src, cur);
    if IsMulOp(t.tok) {
      match Primary(src, t.next)
      case None =>
        MulStep(src, lhs, cur, a, l, 1);
      case Some(p) =>
        TermTailTurn(src, lhs, cur, a, l, t, p);
    } else {
      StopAt(src, lhs, cur, a, l, 1);
      assert a.(used := a.used + 0) == a;
    }
  }

  /** `TermTailAgrees` on a `* /` operator followed by the primary `p`. */
  lemma {:induction false} TermTailTurn(src: seq<char>, lhs: Expr, cur: nat, a: Arena, l: Layout, t: Lexed, p: Scan)
    requires cur <= |src| && a.Valid()
    requires t == Tokenize(src, cur) && IsMulOp(t.tok) && Primary(src, t.next) == Some(p)
    ensures ParseExpression2(src, lhs, cur, a, l, 1) ==
              Charge(TermTail(src, lhs, cur), TreeCost(l, lhs), a, l)
    decreases |src| - cur, 0
  {
    hide ParseExpression2, AssociateRight, ParsePrimary, Tokenize, Primary, Term, TermTail, SumTail, SumAfter, Charge, TreeCost;
    var paid := TreeCost(l, lhs);
    var node := Bin(t.tok, lhs, p.e);
    var c := TreeCost(l, p.e) + l.binaryCost;
    TermTailStep(src, lhs, cur, t, p);
    MulStepAt(src, lhs, cur, a, l, 1, t, p);
    TreeCostBin(l, t.tok, lhs, p.e);
    var ref := TermTail(src, node, p.cur);
    if ref.Some? {
      LeftSpineCost(l, node, ref.value.e);
    }
    if a.used + c <= a.size {
      TermTailAgrees(src, node, p.cur, a.(used := a.used + c), l);
    }
    ChargeStep(ref, paid, c, a, l);
  }

  /** The grammar's `* /` chain, one operator and primary in. */
  lemma TermTailStep(src: seq<char>, lhs: Expr, cur: nat, t: Lexed, p: Scan)
    requires cur <= |src|
    requires t == Tokenize(src, cur) && IsMulOp(t.tok) && Primary(src, t.next) == Some(p)
    ensures p.cur <= |src|
    ensures TermTail(src, lhs, cur) == TermTail(src, Bin(t.tok, lhs, p.e), p.cur)
    ensures var r := TermTail(src, Bin(t.tok, lhs, p.e), p.cur);
            r.Some? ==> LeftSpine(Bin(t.tok, lhs, p.e), r.value.e)
  {
    hide ParseExpression2, AssociateRight, ParsePrimary, Tokenize, Primary;
  }

  /**
   * After `+ -`, the inner loop lets the right operand absorb the `* /`
   * chain that follows it, exactly as the grammar's term does.
   */
  lemma AssociateRightAdd(src: seq<char>, op: Token, rhs: Expr, cur: nat, a: Arena, l: Layout)
    requires cur <= |src| && a.Valid() && IsAddOp(op)
    ensures AssociateRight(src, op, rhs, cur, a, l) ==
              Charge(TermTail(src, rhs, cur), TreeCost(l, rhs), a, l)
  {
    hide ParseExpression2, ParsePrimary, Tokenize, Primary, Term;
    var t := Tokenize(src, cur);
    if IsMulOp(t.tok) {
      TermTailAgrees(src, rhs, cur, a, l);
      var r := TermTail(src, rhs, cur);
      hide TermTail;
      match ParseExpression2(src, rhs, cur, a, l, 1)
      case None =>
      case Some(q) =>
        AssociateRightStops(src, op, q.e, q.cur, q.arena, l);
    } else {
      AssociateRightStops(src, op, rhs, cur, a, l);
      assert TermTail(src, rhs, cur) == Some(Scan(rhs, cur));
      assert a.(used := a.used + 0) == a;
    }
  }

  /** After `+ -`, the inner loop ends at once unless `* /` follows. */
  lemma AssociateRightStops(src: seq<char>, op: Token, rhs: Expr, cur: nat, a: Arena, l: Layout)
    requires cur <= |src| && a.Valid() && IsAddOp(op)
    requires !IsMulOp(Tokenize(src, cur).tok)
    ensures AssociateRight(src, op, rhs, cur, a, l) == Some(Parsed(rhs, cur, a))
  {
    hide ParseExpression2, ParsePrimary, Tokenize, Primary, Term;
  }

  /**
   * At minimum precedence 0, `parse_expression_2` is the grammar's
   * continuation of a sum from `lhs`.
   */
  lemma {:induction false} SumAfterAgrees(src: seq<char>, lhs: Expr, cur: nat, a: Arena, l: Layout)
    requires cur <= |src| && a.Valid()
    ensures ParseExpression2(src, lhs, cur, a, l, 0) ==
              Charge(SumAfter(src, lhs, cur), TreeCost(l, lhs), a, l)
    decreases |src| - cur, 2
  {
    hide ParseExpression2, AssociateRight, ParsePrimary, Tokenize, Primary, Term;
    var t := Tokenize(src, cur);
    if IsMulOp(t.tok) {
      SumMulTurn(src, lhs, cur, a, l);
    } else if IsAddOp(t.tok) {
      SumAddTurn(src, lhs, cur, a, l);
    } else {
      StopAt(src, lhs, cur, a, l, 0);
      assert a.(used := a.used + 0) == a;
    }
  }

  /** `SumAfterAgrees` on a `* /` operator. */
  lemma {:induction false} SumMulTurn(src: seq<char>, lhs: Expr, cur: nat, a: Arena, l: Layout)
    requires cur <= |src| && a.Valid() && IsMulOp(Tokenize(src, cur).tok)
    ensures ParseExpression2(src, lhs, cur, a, l, 0) ==
              Charge(SumAfter(src, lhs, cur), TreeCost(l, lhs), a, l)
    decreases |src| - cur, 1
  {
    hide ParseExpression2, AssociateRight, ParsePrimary, Tokenize, Primary, Term;
    var t := Tokenize(src, cur);
    match Primary(src, t.next)
    case None =>
      MulStep(src, lhs, cur, a, l, 0);
      assert SumAfter(src, lhs, cur) == None;
    case Some(p) =>
      SumMulPrimary(src, lhs, cur, a, l, t, p);
  }

  /** `SumMulTurn` once the primary `p` after the operator is known. */
  lemma {:induction false} SumMulPrimary(src: seq<char>, lhs: Expr, cur: nat, a: Arena, l: Layout, t: Lexed, p: Scan)
    requires cur <= |src| && a.Valid()
    requires t == Tokenize(src, cur) && IsMulOp(t.tok) && Primary(src, t.next) == Some(p)
    ensures ParseExpression2(src, lhs, cur, a, l, 0) ==
              Charge(SumAfter(src, lhs, cur), TreeCost(l, lhs), a, l)
    decreases |src| - cur, 0
  {
    hide ParseExpression2, AssociateRight, ParsePrimary, Tokenize, Primary, Term, TermTail, SumTail, SumAfter, Charge, TreeCost;
    var paid := TreeCost(l, lhs);
    var node := Bin(t.tok, lhs, p.e);
    var c := TreeCost(l, p.e) + l.binaryCost;
    SumAfterStep(src, lhs, cur, t, p);
    MulStepAt(src, lhs, cur, a, l, 0, t, p);
    TreeCostBin(l, t.tok, lhs, p.e);
    var ref := SumAfter(src, node, p.cur);
    if ref.Some? {
      LeftSpineCost(l, node, ref.value.e);
    }
    if a.used + c <= a.size {
      SumAfterAgrees(src, node, p.cur, a.(used := a.used + c), l);
    }
    ChargeStep(ref, paid, c, a, l);
  }

  /** The rest of a sum, one `* /` operator and primary in. */
  lemma SumAfterStep(src: seq<char>, lhs: Expr, cur: nat, t: Lexed, p: Scan)
    requires cur <= |src|
    requires t == Tokenize(src, cur) && IsMulOp(t.tok) && Primary(src, t.next) == Some(p)
    ensures p.cur <= |src|
    ensures SumAfter(src, lhs, cur) == SumAfter(src, Bin(t.tok, lhs, p.e), p.cur)
  {
    hide ParseExpression2, AssociateRight, ParsePrimary, Tokenize, Primary, Term;
    TermTailStep(src, lhs, cur, t, p);
  }

  /** `SumAfterAgrees` on a `+ -` operator. */
  lemma {:induction false} SumAddTurn(src: seq<char>, lhs: Expr, cur: nat, a: Arena, l: Layout)
    requires cur <= |src| && a.Valid() && IsAddOp(Tokenize(src, cur).tok)
    ensures ParseExpression2(src, lhs, cur, a, l, 0) ==
              Charge(SumAfter(src, lhs, cur), TreeCost(l, lhs), a, l)
    decreases |src| - cur, 1
  {
    hide ParseExpression2, AssociateRight, ParsePrimary, Tokenize, Primary, Term;
    var t := Tokenize(src, cur);
    AddStep(src, lhs, cur, a, l);
    assert SumAfter(src, lhs, cur) == SumTail(src, lhs, cur);
    match Term(src, t.next)
    case None =>
    case Some(q) =>
      SumAddTerm(src, lhs, cur, a, l, t, q);
  }

  /** `SumAddTurn` once the term `q` after the operator is known. */
  lemma {:induction false} SumAddTerm(src: seq<char>, lhs: Expr, cur: nat, a: Arena, l: Layout, t: Lexed, q: Scan)
    requires cur <= |src| && a.Valid()
    requires t == Tokenize(src, cur) && IsAddOp(t.tok) && Term(src, t.next) == Some(q)
    ensures ParseExpression2(src, lhs, cur, a, l, 0) ==
              Charge(SumAfter(src, lhs, cur), TreeCost(l, lhs), a, l)
    decreases |src| - cur, 0
  {
    hide ParseExpression2, AssociateRight, ParsePrimary, Tokenize, Primary, Term, TermTail, SumTail, SumAfter, Charge, TreeCost;
    var paid := TreeCost(l, lhs);
    var node := Bin(t.tok, lhs, q.e);
    var c := TreeCost(l, q.e) + l.binaryCost;
    AddStep(src, lhs, cur, a, l);
    TreeCostBin(l, t.tok, lhs, q.e);
    SumAfterAddStep(src, lhs, cur, t, q);
    var ref := SumAfter(src, node, q.cur);
    if ref.Some? {
      LeftSpineCost(l, node, ref.value.e);
    }
    if a.used + c <= a.size {
      SumAfterAgrees(src, node, q.cur, a.(used := a.used + c), l);
    }
    ChargeStep(ref, paid, c, a, l);
  }

  /** The rest of a sum, one `+ -` operator and term in. */
  lemma SumAfterAddStep(src: seq<char>, lhs: Expr, cur: nat, t: Lexed, q: Scan)
    requires cur <= |src|
    requires t == Tokenize(src, cur) && IsAddOp(t.tok) && Term(src, t.next) == Some(q)
    ensures q.cur <= |src|
    ensures SumAfter(src, lhs, cur) == SumAfter(src, Bin(t.tok, lhs, q.e), q.cur)
  {
    hide ParseExpression2, AssociateRight, ParsePrimary, Primary, Term;
    var node := Bin(t.tok, lhs, q.e);
    assert SumAfter(src, lhs, cur) == SumTail(src, lhs, cur) == SumTail(src, node, q.cur);
    assert TermTail(src, node, q.cur) == Some(Scan(node, q.cur));
  }

  /**
   * The parser's contract: `parse` returns the tree of the grammar's greedy
   * reading of the text when the arena can hold that tree, and None
   * otherwise: when the text does not start with an operand, when an
   * operator is not followed by one, or when the arena is too small.
   */
  lemma ParseAgrees(src: seq<char>, base: nat, size: nat)
    ensures Parse(src, base, size) ==
              match Expression(src)
              case None => None
              case Some(e) => if TreeCost(LayoutOf(base), e) <= size then Some(e) else None
  {
    var a := Init(base, size);
    var l := LayoutOf(base);
    PrimaryAgrees(src, 0, a, l);
    match Primary(src, 0)
    case None =>
    case Some(p) =>
      var pc := TreeCost(l, p.e);
      assert Sum(src, 0) == SumAfter(src, p.e, p.cur);
      var ref := SumAfter(src, p.e, p.cur);
      if ref.Some? {
        LeftSpineCost(l, p.e, ref.value.e);
      }
      if pc <= size {
        SumAfterAgrees(src, p.e, p.cur, a.(used := pc), l);
      }
      ChargeStep(ref, 0, pc, a, l);
  }
}
