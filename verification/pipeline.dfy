/**
 * The two halves of the pipeline put together: every tree `parse` returns
 * is shallow enough for the evaluator's 32-slot stack, so `eval` on parser
 * output never takes the overflow branch and returns the tree's value.
 */
module Pipeline {
  import opened Ast
  import opened Grammar
  import opened Parser
  import opened ParserProofs
  import opened Eval

  /** A primary, negated or not, takes one slot. */
  lemma PrimaryNeed(e: Expr)
    requires IsPrimary(e)
    ensures Need(e) == 1
  {
    if e.NegOperation? {
      assert Need(e.op) == 1;
    }
  }

  /** A term is a left chain of `* /` with primary right operands: two slots suffice. */
  lemma {:induction false} TermNeed(e: Expr)
    requires IsTerm(e)
    ensures Need(e) <= 2
  {
    if IsPrimary(e) {
      PrimaryNeed(e);
    } else {
      TermNeed(e.lhs);
      PrimaryNeed(e.rhs);
    }
  }

  /** A sum is a left chain of `+ -` with term right operands: three slots suffice. */
  lemma {:induction false} SumNeed(e: Expr)
    requires IsSum(e)
    ensures Need(e) <= 3
  {
    if IsTerm(e) {
      TermNeed(e);
    } else {
      SumNeed(e.lhs);
      TermNeed(e.rhs);
    }
  }

  /** Whatever `parse` returns has the grammar's shape and needs at most three slots. */
  lemma ParsedNeed(src: seq<char>, base: nat, size: nat)
    ensures Parse(src, base, size).Some? ==>
              IsSum(Parse(src, base, size).value) && Need(Parse(src, base, size).value) <= 3
  {
    ParseAgrees(src, base, size);
    if Parse(src, base, size).Some? {
      SumNeed(Parse(src, base, size).value);
    }
  }

  /**
   * On parser output the visitor never fails, and `eval` returns the value
   * the tree denotes.
   */
  lemma ParsedTreesEvaluate<V>(ar: Arith<V>, src: seq<char>, base: nat, size: nat)
    ensures Parse(src, base, size).Some? ==>
              var e := Parse(src, base, size).value;
              !Visit(ar, Fresh(), e).fail && EvalTree(ar, e) == Denote(ar, e)
  {
    ParsedNeed(src, base, size);
    if Parse(src, base, size).Some? {
      VisitSpec(ar, Fresh(), Parse(src, base, size).value);
    }
  }
}
