/**
 * The scanner of parse.cpp: `tokenize` over a source text and a cursor.
 * Each call skips blanks, then reads one token; the model returns the token
 * together with the cursor the source leaves behind.
 */
module Lexer {
  import opened Ast

  datatype Token =
    | Add | Sub | Mul | Div
    | Int(ival: Int64)
    | Float(fval: FloatLit)
    | Other
    | End
  {
    predicate IsOperator() { Add? || Sub? || Mul? || Div? }
  }

  /**
   * The node an operator token builds over its two operands: the choice
   * among `make_add`, `make_sub`, `make_mul` and `make_div`.
   */
  function Bin(op: Token, lhs: Expr, rhs: Expr): (e: Expr)
    requires op.IsOperator()
    ensures e.IsBinary() && e.lhs == lhs && e.rhs == rhs
  {
    match op
    case Add => AddOperation(lhs, rhs)
    case Sub => SubOperation(lhs, rhs)
    case Mul => MulOperation(lhs, rhs)
    case Div => DivOperation(lhs, rhs)
  }

  /** A token and the cursor position just after it. */
  datatype Lexed = Lexed(tok: Token, next: nat)

  predicate IsSpace(c: char) {
    c == ' ' || c == '\t' || c == '\r' || c == '\n'
  }

  predicate IsDigit(c: char) {
    '0' <= c <= '9'
  }

  function DigitValue(c: char): (n: nat)
    requires IsDigit(c)
    ensures n <= 9
  {
    c as int - '0' as int
  }

  predicate AllDigits(s: seq<char>) {
    forall i | 0 <= i < |s| :: IsDigit(s[i])
  }

  /** The value of a decimal digit string, most significant digit first. */
  function DecimalValue(s: seq<char>): nat
    requires AllDigits(s)
  {
    if |s| == 0 then 0 else 10 * DecimalValue(s[..|s| - 1]) + DigitValue(s[|s| - 1])
  }

  /** `n` saturated at the largest `int64_t`. */
  function Clamp(n: nat): Int64 {
    if n <= Int64Max then n else Int64Max
  }

  /** The loop that skips blanks: the end of the run of blanks from `cur`. */
  function SkipSpace(src: seq<char>, cur: nat): (r: nat)
    requires cur <= |src|
    ensures cur <= r <= |src|
    ensures forall i | cur <= i < r :: IsSpace(src[i])
    ensures r == |src| || !IsSpace(src[r])
    decreases |src| - cur
  {
    if cur < |src| && IsSpace(src[cur]) then SkipSpace(src, cur + 1) else cur
  }

  /** The digit-run loops (the peek, and the clamp's skip): end of the run from `cur`. */
  function DigitRunEnd(src: seq<char>, cur: nat): (r: nat)
    requires cur <= |src|
    ensures cur <= r <= |src|
    ensures forall i | cur <= i < r :: IsDigit(src[i])
    ensures r == |src| || !IsDigit(src[r])
    decreases |src| - cur
  {
    if cur < |src| && IsDigit(src[cur]) then DigitRunEnd(src, cur + 1) else cur
  }

  /**
   * The integer do-while loop, with `buf` the value accumulated so far. The
   * guard `buf > (INT64_MAX - n) / 10` detects overflow before it happens;
   * on overflow the rest of the run is skipped and INT64_MAX returned.
   */
  function ScanInt(src: seq<char>, cur: nat, buf: nat): (r: Lexed)
    requires cur < |src| && IsDigit(src[cur]) && buf <= Int64Max
    ensures r.tok.Int? && r.next == DigitRunEnd(src, cur)
    decreases |src| - cur
  {
    var n := DigitValue(src[cur]);
    if buf > (Int64Max - n) / 10 then
      Lexed(Int(Int64Max), DigitRunEnd(src, cur))
    else
      var acc := buf * 10 + n;
      if cur + 1 < |src| && IsDigit(src[cur + 1]) then
        ScanInt(src, cur + 1, acc)
      else
        Lexed(Int(acc), cur + 1)
  }

  /**
   * The float branch's do-while over the whole part: it stops on the dot
   * without testing the length, which is safe only because the peek saw a dot
   * right after the digit run. The precondition is exactly that fact.
   */
  function SkipToDot(src: seq<char>, cur: nat): (r: nat)
    requires cur <= |src| && cur < DigitRunEnd(src, cur) < |src| && src[DigitRunEnd(src, cur)] == '.'
    ensures r == DigitRunEnd(src, cur)
    decreases |src| - cur
  {
    if src[cur + 1] != '.' then SkipToDot(src, cur + 1) else cur + 1
  }

  /** `tokenize`: one token from `cur`, and where the cursor stops. */
  function Tokenize(src: seq<char>, cur: nat): (r: Lexed)
    requires cur <= |src|
    ensures SkipSpace(src, cur) <= r.next <= |src|
    ensures r.tok.End? <==> SkipSpace(src, cur) == |src|
    ensures r.tok.End? || r.tok.Other? <==> r.next == SkipSpace(src, cur)
    ensures r.tok.IsOperator() ==> r.next == SkipSpace(src, cur) + 1
    ensures (r.tok.Int? || r.tok.Float?) <==>
              SkipSpace(src, cur) < |src| && IsDigit(src[SkipSpace(src, cur)])
  {
    var c := SkipSpace(src, cur);
    if c == |src| then
      Lexed(End, c)
    else if IsDigit(src[c]) then
      var peek := DigitRunEnd(src, c);
      var noDot := peek == |src| || src[peek] != '.';
      if noDot then
        ScanInt(src, c, 0)
      else
        var dot := SkipToDot(src, c);
        var end := if dot + 1 < |src| && IsDigit(src[dot + 1]) then DigitRunEnd(src, dot + 1) else dot + 1;
        Lexed(Float(FloatLit(src[c..dot], src[dot + 1..end])), end)
    else if src[c] == '+' then
      Lexed(Add, c + 1)
    else if src[c] == '-' then
      Lexed(Sub, c + 1)
    else if src[c] == '*' then
      Lexed(Mul, c + 1)
    else if src[c] == '/' then
      Lexed(Div, c + 1)
    else
      Lexed(Other, c)
  }

  // ---------------------------------------------------------------------
  // Properties of the scanner
  // ---------------------------------------------------------------------

  /** The source's overflow guard is exactly "the next accumulation exceeds INT64_MAX". */
  lemma OverflowGuardExact(buf: nat, n: nat)
    requires n <= 9
    ensures buf > (Int64Max - n) / 10 <==> buf * 10 + n > Int64Max
  {
  }

  /** A longer digit string never has a smaller value. */
  lemma {:induction false} DecimalValueMonotone(s: seq<char>, k: nat)
    requires AllDigits(s) && k <= |s|
    ensures DecimalValue(s[..k]) <= DecimalValue(s)
    decreases |s| - k
  {
    if k < |s| {
      var t := s[..|s| - 1];
      assert t[..k] == s[..k];
      DecimalValueMonotone(t, k);
      assert DecimalValue(s) == 10 * DecimalValue(t) + DigitValue(s[|s| - 1]);
    } else {
      assert s[..k] == s;
    }
  }

  /**
   * The integer loop, started with `buf` the value of the digits read from
   * `start`, returns the clamped value of the whole run from `start`.
   */
  lemma {:induction false} ScanIntValue(src: seq<char>, start: nat, cur: nat, buf: nat)
    requires start <= cur < |src| && IsDigit(src[cur])
    requires forall i | start <= i < cur :: IsDigit(src[i])
    requires buf == DecimalValue(src[start..cur]) && buf <= Int64Max
    ensures DigitRunEnd(src, start) == DigitRunEnd(src, cur)
    ensures ScanInt(src, cur, buf).tok ==
              Int(Clamp(DecimalValue(src[start..DigitRunEnd(src, cur)])))
    decreases |src| - cur
  {
    hide ScanInt;
    var end := DigitRunEnd(src, cur);
    var acc := buf * 10 + DigitValue(src[cur]);
    DigitRunEndFrom(src, start, cur);
    RunValueStep(src, start, cur);
    ScanIntStep(src, cur, buf);
    if acc > Int64Max {
      RunValueMonotone(src, start, cur + 1, end);
    } else if cur + 1 < |src| && IsDigit(src[cur + 1]) {
      ScanIntValue(src, start, cur + 1, acc);
    } else {
      assert end == cur + 1;
    }
  }

  /** One turn of the integer loop, with the guard read as "the next value overflows". */
  lemma ScanIntStep(src: seq<char>, cur: nat, buf: nat)
    requires cur < |src| && IsDigit(src[cur]) && buf <= Int64Max
    ensures var acc := buf * 10 + DigitValue(src[cur]);
            ScanInt(src, cur, buf) ==
              if acc > Int64Max then Lexed(Int(Int64Max), DigitRunEnd(src, cur))
              else if cur + 1 < |src| && IsDigit(src[cur + 1]) then ScanInt(src, cur + 1, acc)
              else Lexed(Int(acc), cur + 1)
  {
    OverflowGuardExact(buf, DigitValue(src[cur]));
  }

  /** One more digit of a run: ten times the value so far, plus the digit. */
  lemma RunValueStep(src: seq<char>, start: nat, cur: nat)
    requires start <= cur < |src| && forall i | start <= i <= cur :: IsDigit(src[i])
    ensures AllDigits(src[start..cur]) && AllDigits(src[start..cur + 1])
    ensures DecimalValue(src[start..cur + 1]) == 10 * DecimalValue(src[start..cur]) + DigitValue(src[cur])
  {
    var run := src[start..cur + 1];
    assert run[..cur - start] == src[start..cur];
  }

  /** A longer prefix of a run has a value at least as large. */
  lemma RunValueMonotone(src: seq<char>, start: nat, k: nat, end: nat)
    requires start <= k <= end <= |src| && forall i | start <= i < end :: IsDigit(src[i])
    ensures AllDigits(src[start..k]) && AllDigits(src[start..end])
    ensures DecimalValue(src[start..k]) <= DecimalValue(src[start..end])
  {
    var run := src[start..end];
    assert run[..k - start] == src[start..k];
    DecimalValueMonotone(run, k - start);
  }

  /** Starting a digit-run scan anywhere inside the run ends at the same place. */
  lemma {:induction false} DigitRunEndFrom(src: seq<char>, start: nat, cur: nat)
    requires start <= cur <= |src|
    requires forall i | start <= i < cur :: IsDigit(src[i])
    ensures DigitRunEnd(src, start) == DigitRunEnd(src, cur)
    decreases cur - start
  {
    if start < cur {
      DigitRunEndFrom(src, start + 1, cur);
    }
  }

  /**
   * A digit run not followed by a dot is an INT token holding the run's value
   * saturated at INT64_MAX, and the cursor ends just past the whole run.
   */
  lemma TokenizeInteger(src: seq<char>, cur: nat)
    requires cur <= |src|
    requires var c := SkipSpace(src, cur);
             c < |src| && IsDigit(src[c]) &&
             (DigitRunEnd(src, c) == |src| || src[DigitRunEnd(src, c)] != '.')
    ensures var c := SkipSpace(src, cur);
            var end := DigitRunEnd(src, c);
            Tokenize(src, cur) == Lexed(Int(Clamp(DecimalValue(src[c..end]))), end)
  {
    var c := SkipSpace(src, cur);
    ScanIntValue(src, c, c, 0);
  }

  /**
   * A digit run followed by a dot is a FLOAT token: the cursor ends past the
   * dot and past the digits after it (if any), never beyond the text.
   */
  lemma TokenizeFloat(src: seq<char>, cur: nat)
    requires cur <= |src|
    requires var c := SkipSpace(src, cur);
             c < |src| && IsDigit(src[c]) &&
             DigitRunEnd(src, c) < |src| && src[DigitRunEnd(src, c)] == '.'
    ensures var c := SkipSpace(src, cur);
            var dot := DigitRunEnd(src, c);
            var end := DigitRunEnd(src, dot + 1);
            Tokenize(src, cur) == Lexed(Float(FloatLit(src[c..dot], src[dot + 1..end])), end)
            && AllDigits(src[c..dot]) && AllDigits(src[dot + 1..end])
  {
  }

  /** `+ - * /` give the matching operator and advance past exactly that character. */
  lemma TokenizeOperator(src: seq<char>, cur: nat)
    requires cur <= |src|
    requires var c := SkipSpace(src, cur);
             c < |src| && src[c] in "+-*/"
    ensures var c := SkipSpace(src, cur);
            Tokenize(src, cur) ==
              Lexed(if src[c] == '+' then Add else if src[c] == '-' then Sub
                    else if src[c] == '*' then Mul else Div, c + 1)
  {
  }

  /** Any other character is OTHER, and the cursor stays on it. */
  lemma TokenizeOther(src: seq<char>, cur: nat)
    requires cur <= |src|
    requires var c := SkipSpace(src, cur);
             c < |src| && !IsDigit(src[c]) && src[c] !in "+-*/"
    ensures Tokenize(src, cur) == Lexed(Other, SkipSpace(src, cur))
  {
  }
}
