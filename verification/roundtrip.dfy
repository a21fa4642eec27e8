/**
 * Reading renderings back. A non-negative integer literal survives
 * `stringify` then `parse`; a negative one comes back as a negation node;
 * and any binary tree does not come back at all, because the grammar has no
 * parentheses and every binary rendering starts with `(`.
 */
module RoundTrip {
  import opened Wrappers
  import opened Ast
  import opened Lexer
  import opened Grammar
  import opened Parser
  import opened ParserProofs
  import opened Stringify

  /** The digits `NatText` writes are decimal digits whose value is `n`. */
  lemma {:induction false} NatTextValue(n: nat)
    ensures AllDigits(NatText(n)) && DecimalValue(NatText(n)) == n
  {
    var t := NatText(n);
    if n >= 10 {
      NatTextValue(n / 10);
      assert t[..|t| - 1] == NatText(n / 10);
    } else {
      assert t[..0] == [];
    }
  }

  /** A text that is all digits from `start` on is one INT token running to the end. */
  lemma DigitTailTokenizes(t: seq<char>, start: nat)
    requires start < |t| && forall i | start <= i < |t| :: IsDigit(t[i])
    ensures AllDigits(t[start..])
    ensures Tokenize(t, start) == Lexed(Int(Clamp(DecimalValue(t[start..]))), |t|)
  {
    assert SkipSpace(t, start) == start;
    DigitRunEndFrom(t, start, |t|);
    assert DigitRunEnd(t, |t|) == |t|;
    TokenizeInteger(t, start);
    assert t[start..|t|] == t[start..];
  }

  /** The scanner reads a whole `NatText` rendering back as one INT token of the same value. */
  lemma NatTextTokenizes(n: nat)
    requires n <= Int64Max
    ensures Tokenize(NatText(n), 0) == Lexed(Int(n), |NatText(n)|)
  {
    var t := NatText(n);
    NatTextValue(n);
    hide NatText;
    DigitTailTokenizes(t, 0);
    assert t[0..] == t;
  }

  /** `-` then the digits of `n`: the sign, then the literal, saturated. */
  lemma MinusNatTextTokenizes(n: nat)
    ensures var t := "-" + NatText(n);
            Tokenize(t, 0) == Lexed(Sub, 1) && Tokenize(t, 1) == Lexed(Int(Clamp(n)), |t|)
  {
    var d := NatText(n);
    var t := "-" + d;
    NatTextValue(n);
    hide NatText;
    DigitTailTokenizes(t, 1);
    assert t[1..] == d;
    assert SkipSpace(t, 0) == 0;
    TokenizeOperator(t, 0);
  }

  /** A non-negative integer leaf, rendered and parsed again, is the same leaf. */
  lemma NonNegativeLiteralRoundTrips(floatText: FloatLit -> string, v: Int64, base: nat, size: nat)
    requires 0 <= v && size >= 24
    ensures Parse(Render(floatText, IntValue(v)), base, size) == Some(IntValue(v))
  {
    var t := Render(floatText, IntValue(v));
    NatTextTokenizes(v);
    assert Tokenize(t, |t|) == Lexed(End, |t|);
    assert Expression(t) == Some(IntValue(v)) by {
      hide Tokenize;
      assert SignPrefix(t, 0) == Signs(0, 0);
      assert Term(t, 0) == Some(Scan(IntValue(v), |t|));
    }
    hide Parse, ParsePrimary, ParseExpression2, AssociateRight, Tokenize, Expression, Sum, SumTail, Term, TermTail, Primary;
    ParseAgrees(t, base, size);
  }

  /**
   * A negative integer leaf comes back as a negation of the magnitude,
   * saturated at INT64_MAX: the value survives except for INT64_MIN, whose
   * magnitude does not fit and comes back one smaller.
   */
  lemma NegativeLiteralReparses(floatText: FloatLit -> string, v: Int64, base: nat, size: nat)
    requires v < 0 && size >= 48
    ensures Parse(Render(floatText, IntValue(v)), base, size) == Some(NegOperation(IntValue(Clamp(-(v as int)))))
  {
    var m: nat := -(v as int);
    var t := Render(floatText, IntValue(v));
    assert t == "-" + NatText(m);
    MinusNatTextTokenizes(m);
    hide NatText, Render;
    SignedLiteralParses(t, Clamp(m), base, size);
  }

  /** A minus sign, a literal, and the end: a negation node, given room for two nodes. */
  lemma SignedLiteralParses(t: seq<char>, n: Int64, base: nat, size: nat)
    requires |t| >= 2 && size >= 48
    requires Tokenize(t, 0) == Lexed(Sub, 1) && Tokenize(t, 1) == Lexed(Int(n), |t|)
    ensures Parse(t, base, size) == Some(NegOperation(IntValue(n)))
  {
    assert Tokenize(t, |t|) == Lexed(End, |t|);
    assert Expression(t) == Some(NegOperation(IntValue(n))) by {
      hide Tokenize;
      assert SignPrefix(t, 1) == Signs(0, 1);
      assert SignPrefix(t, 0) == Signs(1, 1);
      assert Term(t, 0) == Some(Scan(NegOperation(IntValue(n)), |t|));
    }
    hide Parse, ParsePrimary, ParseExpression2, AssociateRight, Tokenize, Expression, Sum, SumTail, Term, TermTail, Primary;
    ParseAgrees(t, base, size);
    var l := LayoutOf(base);
    assert TreeCost(l, NegOperation(IntValue(n))) == 2 * l.unaryCost;
  }

  /** INT64_MIN renders as `-9223372036854775808` and reads back as `-9223372036854775807`. */
  lemma Int64MinReparsesOffByOne(floatText: FloatLit -> string, base: nat, size: nat)
    requires size >= 48
    ensures Parse(Render(floatText, IntValue(Int64Min)), base, size) == Some(NegOperation(IntValue(Int64Max)))
  {
    NegativeLiteralReparses(floatText, Int64Min, base, size);
  }

  /**
   * No binary tree survives: its rendering starts with `(`, which the
   * scanner reports as OTHER, so there is no primary and `parse` gives null,
   * whatever the arena.
   */
  lemma BinaryRenderingRejected(floatText: FloatLit -> string, e: Expr, base: nat, size: nat)
    requires e.IsBinary()
    ensures Parse(Render(floatText, e), base, size) == None
  {
    var t := Render(floatText, e);
    assert t[0] == '(';
    assert SkipSpace(t, 0) == 0;
    TokenizeOther(t, 0);
    assert Expression(t) == None by {
      hide Tokenize;
      assert SignPrefix(t, 0) == Signs(0, 0);
    }
    hide Parse, ParsePrimary, ParseExpression2, AssociateRight, Tokenize, Expression, Sum, SumTail, Term, TermTail, Primary;
    ParseAgrees(t, base, size);
  }

  /**
   * So `parse`, `stringify`, `parse` does not preserve what the first parse
   * found: any input whose first parse is a binary tree fails the second.
   */
  lemma ReparseOfParsedBinaryFails(floatText: FloatLit -> string, src: seq<char>, base: nat, size: nat)
    requires Parse(src, base, size).Some? && Parse(src, base, size).value.IsBinary()
    ensures Parse(Render(floatText, Parse(src, base, size).value), base, size) == None
  {
    BinaryRenderingRejected(floatText, Parse(src, base, size).value, base, size);
  }
}
