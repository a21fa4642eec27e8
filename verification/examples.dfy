/**
 * Worked inputs for `parse`, each derived from the general results: the
 * scanner lemmas give the tokens, the reference grammar gives the tree,
 * and `ParseAgrees` turns that into what `parse` returns.
 */
module ParseExamples {
  import opened Wrappers
  import opened Ast
  import opened Lexer
  import opened Grammar
  import opened Parser
  import opened ParserProofs
  import RoundTrip

  /** A lone digit (not followed by a digit or a dot) is an INT token of its value. */
  lemma SingleDigit(src: seq<char>, cur: nat)
    requires cur <= |src|
    requires var c := SkipSpace(src, cur);
             c < |src| && IsDigit(src[c]) &&
             (c + 1 == |src| || (!IsDigit(src[c + 1]) && src[c + 1] != '.'))
    ensures var c := SkipSpace(src, cur);
            Tokenize(src, cur) == Lexed(Int(DigitValue(src[c])), c + 1)
  {
    var c := SkipSpace(src, cur);
    assert DigitRunEnd(src, c) == c + 1;
    TokenizeInteger(src, cur);
    assert src[c..c + 1][..0] == [];
  }

  /** A blank and then an operator: the operator's token, and the cursor past both. */
  lemma SpacedOperator(src: seq<char>, cur: nat)
    requires cur + 1 < |src| && src[cur] == ' ' && src[cur + 1] in "+-*/"
    ensures Tokenize(src, cur) ==
              Lexed(if src[cur + 1] == '+' then Add else if src[cur + 1] == '-' then Sub
                    else if src[cur + 1] == '*' then Mul else Div, cur + 2)
  {
    assert SkipSpace(src, cur + 1) == cur + 1;
    TokenizeOperator(src, cur);
  }

  /** At the end of the text the token is END. */
  lemma AtEnd(src: seq<char>)
    ensures Tokenize(src, |src|) == Lexed(End, |src|)
  {
  }

  // ---------------------------------------------------------------------
  // Equal precedence groups to the left
  // ---------------------------------------------------------------------

  const SubChain: string := "1 - 2 - 3"

  lemma SubChainTokens()
    ensures Tokenize(SubChain, 0) == Lexed(Int(1), 1)
    ensures Tokenize(SubChain, 1) == Lexed(Sub, 3)
    ensures Tokenize(SubChain, 3) == Lexed(Int(2), 5)
    ensures Tokenize(SubChain, 5) == Lexed(Sub, 7)
    ensures Tokenize(SubChain, 7) == Lexed(Int(3), 9)
    ensures Tokenize(SubChain, 9) == Lexed(End, 9)
  {
    var s := SubChain;
    hide Tokenize;
    assert SkipSpace(s, 0) == 0; SingleDigit(s, 0);
    SpacedOperator(s, 1);
    assert SkipSpace(s, 3) == 4; SingleDigit(s, 3);
    SpacedOperator(s, 5);
    assert SkipSpace(s, 7) == 8; SingleDigit(s, 7);
    AtEnd(s);
  }

  lemma SubChainGrammar()
    ensures Expression(SubChain) == Some(SubOperation(SubOperation(IntValue(1), IntValue(2)), IntValue(3)))
  {
    var s := SubChain;
    SubChainTokens();
    hide Tokenize;
    var one, two, three := IntValue(1), IntValue(2), IntValue(3);
    assert Primary(s, 0) == Some(Scan(one, 1));
    assert Primary(s, 3) == Some(Scan(two, 5));
    assert Primary(s, 7) == Some(Scan(three, 9));
    hide Primary;
    assert Term(s, 0) == Some(Scan(one, 1));
    assert Term(s, 3) == Some(Scan(two, 5));
    assert Term(s, 7) == Some(Scan(three, 9));
    hide Term, TermTail;
    var e := SubOperation(SubOperation(one, two), three);
    assert SumTail(s, e, 9) == Some(Scan(e, 9));
    assert SumTail(s, SubOperation(one, two), 5) == Some(Scan(e, 9));
    assert SumTail(s, one, 1) == Some(Scan(e, 9));
  }

  /** `1 - 2 - 3` is `(1 - 2) - 3`, in any arena of 160 bytes or more. */
  lemma SubChainGroupsLeft(base: nat, size: nat)
    requires size >= 160
    ensures Parse(SubChain, base, size) == Some(SubOperation(SubOperation(IntValue(1), IntValue(2)), IntValue(3)))
  {
    hide Parse, ParsePrimary, ParseExpression2, AssociateRight, Tokenize, Expression, Sum, SumTail, Term, TermTail, Primary;
    SubChainGrammar();
    ParseAgrees(SubChain, base, size);
    var l := LayoutOf(base);
    var one, two, three := IntValue(1), IntValue(2), IntValue(3);
    assert TreeCost(l, one) == TreeCost(l, two) == TreeCost(l, three) == l.unaryCost;
    assert TreeCost(l, SubOperation(one, two)) == 2 * l.unaryCost + l.binaryCost;
    assert TreeCost(l, SubOperation(SubOperation(one, two), three)) == 3 * l.unaryCost + 2 * l.binaryCost;
  }

  // ---------------------------------------------------------------------
  // `*` binds tighter than `+`
  // ---------------------------------------------------------------------

  const MixedChain: string := "1 + 2 * 3"

  lemma MixedChainTokens()
    ensures Tokenize(MixedChain, 0) == Lexed(Int(1), 1)
    ensures Tokenize(MixedChain, 1) == Lexed(Add, 3)
    ensures Tokenize(MixedChain, 3) == Lexed(Int(2), 5)
    ensures Tokenize(MixedChain, 5) == Lexed(Mul, 7)
    ensures Tokenize(MixedChain, 7) == Lexed(Int(3), 9)
    ensures Tokenize(MixedChain, 9) == Lexed(End, 9)
  {
    var s := MixedChain;
    hide Tokenize;
    assert SkipSpace(s, 0) == 0; SingleDigit(s, 0);
    SpacedOperator(s, 1);
    assert SkipSpace(s, 3) == 4; SingleDigit(s, 3);
    SpacedOperator(s, 5);
    assert SkipSpace(s, 7) == 8; SingleDigit(s, 7);
    AtEnd(s);
  }

  lemma MixedChainGrammar()
    ensures Expression(MixedChain) == Some(AddOperation(IntValue(1), MulOperation(IntValue(2), IntValue(3))))
  {
    var s := MixedChain;
    MixedChainTokens();
    hide Tokenize;
    var one, two, three := IntValue(1), IntValue(2), IntValue(3);
    assert Primary(s, 0) == Some(Scan(one, 1));
    assert Primary(s, 3) == Some(Scan(two, 5));
    assert Primary(s, 7) == Some(Scan(three, 9));
    hide Primary;
    assert Term(s, 0) == Some(Scan(one, 1));
    assert TermTail(s, MulOperation(two, three), 9) == Some(Scan(MulOperation(two, three), 9));
    assert Term(s, 3) == Some(Scan(MulOperation(two, three), 9));
    hide Term, TermTail;
    var e := AddOperation(one, MulOperation(two, three));
    assert SumTail(s, e, 9) == Some(Scan(e, 9));
    assert SumTail(s, one, 1) == Some(Scan(e, 9));
  }

  /** `1 + 2 * 3` is `1 + (2 * 3)`, in any arena of 160 bytes or more. */
  lemma MulBindsTighter(base: nat, size: nat)
    requires size >= 160
    ensures Parse(MixedChain, base, size) == Some(AddOperation(IntValue(1), MulOperation(IntValue(2), IntValue(3))))
  {
    hide Parse, ParsePrimary, ParseExpression2, AssociateRight, Tokenize, Expression, Sum, SumTail, Term, TermTail, Primary;
    MixedChainGrammar();
    ParseAgrees(MixedChain, base, size);
    var l := LayoutOf(base);
    var one, two, three := IntValue(1), IntValue(2), IntValue(3);
    assert TreeCost(l, one) == TreeCost(l, two) == TreeCost(l, three) == l.unaryCost;
    assert TreeCost(l, MulOperation(two, three)) == 2 * l.unaryCost + l.binaryCost;
    assert TreeCost(l, AddOperation(one, MulOperation(two, three))) == 3 * l.unaryCost + 2 * l.binaryCost;
  }

  // ---------------------------------------------------------------------
  // Trailing input, signs, exhaustion
  // ---------------------------------------------------------------------

  const TwoLiterals: string := "1 2"

  lemma TwoLiteralsTokens()
    ensures Tokenize(TwoLiterals, 0) == Lexed(Int(1), 1)
    ensures Tokenize(TwoLiterals, 1) == Lexed(Int(2), 3)
  {
    var s := TwoLiterals;
    assert SkipSpace(s, 0) == 0; SingleDigit(s, 0);
    assert SkipSpace(s, 1) == 2; SingleDigit(s, 1);
  }

  lemma TwoLiteralsGrammar()
    ensures Expression(TwoLiterals) == Some(IntValue(1))
  {
    var s := TwoLiterals;
    TwoLiteralsTokens();
    hide Tokenize;
    assert Primary(s, 0) == Some(Scan(IntValue(1), 1));
    assert TermTail(s, IntValue(1), 1) == Some(Scan(IntValue(1), 1));
    assert SumTail(s, IntValue(1), 1) == Some(Scan(IntValue(1), 1));
  }

  /** `1 2`: the second literal is not an operator, so parsing stops after `1`. */
  lemma TrailingInputIgnored(base: nat, size: nat)
    requires size >= 32
    ensures Parse(TwoLiterals, base, size) == Some(IntValue(1))
  {
    hide Parse, ParsePrimary, ParseExpression2, AssociateRight, Tokenize, Expression, Sum, SumTail, Term, TermTail, Primary;
    TwoLiteralsGrammar();
    ParseAgrees(TwoLiterals, base, size);
  }

  // ---------------------------------------------------------------------
  // An operator with no operand after it fails the whole parse
  // ---------------------------------------------------------------------

  const DanglingOperator: string := "1 + x"

  lemma DanglingOperatorTokens()
    ensures Tokenize(DanglingOperator, 0) == Lexed(Int(1), 1)
    ensures Tokenize(DanglingOperator, 1) == Lexed(Add, 3)
    ensures Tokenize(DanglingOperator, 3) == Lexed(Other, 4)
  {
    var s := DanglingOperator;
    assert SkipSpace(s, 0) == 0; SingleDigit(s, 0);
    assert SkipSpace(s, 1) == 2;
    assert SkipSpace(s, 3) == 4;
  }

  lemma DanglingOperatorGrammar()
    ensures Expression(DanglingOperator) == None
  {
    var s := DanglingOperator;
    DanglingOperatorTokens();
    hide Tokenize;
    assert Primary(s, 0) == Some(Scan(IntValue(1), 1));
    assert TermTail(s, IntValue(1), 1) == Some(Scan(IntValue(1), 1));
    assert Primary(s, 3) == None;
    assert Term(s, 3) == None;
    assert SumTail(s, IntValue(1), 1) == None;
  }

  /**
   * `1 + x`: the `+` is consumed, no primary follows it, and the whole parse
   * is null, although the prefix `1` alone would parse. Parsing stops only
   * before a token that is not an operator.
   */
  lemma DanglingOperatorFails(base: nat, size: nat)
    ensures Parse(DanglingOperator, base, size) == None
  {
    hide Parse, ParsePrimary, ParseExpression2, AssociateRight, Tokenize, Expression, Sum, SumTail, Term, TermTail, Primary;
    DanglingOperatorGrammar();
    ParseAgrees(DanglingOperator, base, size);
  }

  const DoubleMinus: string := "--5"

  lemma DoubleMinusTokens()
    ensures Tokenize(DoubleMinus, 0) == Lexed(Sub, 1)
    ensures Tokenize(DoubleMinus, 1) == Lexed(Sub, 2)
    ensures Tokenize(DoubleMinus, 2) == Lexed(Int(5), 3)
    ensures Tokenize(DoubleMinus, 3) == Lexed(End, 3)
  {
    var s := DoubleMinus;
    assert SkipSpace(s, 0) == 0;
    assert SkipSpace(s, 1) == 1;
    assert SkipSpace(s, 2) == 2; SingleDigit(s, 2);
    assert SkipSpace(s, 3) == 3;
  }

  lemma DoubleMinusGrammar()
    ensures Expression(DoubleMinus) == Some(IntValue(5))
  {
    var s := DoubleMinus;
    DoubleMinusTokens();
    hide Tokenize;
    assert SignPrefix(s, 2) == Signs(0, 2);
    assert SignPrefix(s, 1) == Signs(1, 2);
    assert SignPrefix(s, 0) == Signs(2, 2);
    assert Primary(s, 0) == Some(Scan(IntValue(5), 3));
    assert Term(s, 0) == Some(Scan(IntValue(5), 3));
  }

  /** `--5`: two minus signs cancel, and the literal comes back bare. */
  lemma DoubleMinusCancels(base: nat, size: nat)
    requires size >= 32
    ensures Parse(DoubleMinus, base, size) == Some(IntValue(5))
  {
    hide Parse, ParsePrimary, ParseExpression2, AssociateRight, Tokenize, Expression, Sum, SumTail, Term, TermTail, Primary;
    DoubleMinusGrammar();
    ParseAgrees(DoubleMinus, base, size);
  }

  /** `-5`: one minus sign wraps the literal in a negation node. */
  lemma SingleMinusNegates(base: nat, size: nat)
    requires size >= 48
    ensures Parse("-5", base, size) == Some(NegOperation(IntValue(5)))
  {
    var s := "-5";
    assert SkipSpace(s, 0) == 0;
    assert Tokenize(s, 0) == Lexed(Sub, 1);
    assert SkipSpace(s, 1) == 1; SingleDigit(s, 1);
    RoundTrip.SignedLiteralParses(s, 5, base, size);
  }

  /** A node takes at least 16 bytes: in a smaller arena even `1` does not parse. */
  lemma TinyArenaRejects(base: nat, size: nat)
    requires size < 16
    ensures Parse("1", base, size) == None
  {
    var s := "1";
    assert SkipSpace(s, 0) == 0; SingleDigit(s, 0);
    hide Parse, ParsePrimary, ParseExpression2, AssociateRight, Tokenize, Expression, Sum, SumTail, Term, TermTail, Primary;
    ParseAgrees(s, base, size);
  }
}
