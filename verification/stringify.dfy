/**
 * The renderer of stringify.cpp. The visitor writes into a caller's buffer
 * of `max` characters and keeps counting past the end: `num` is the length
 * the full rendering would have. The reference `Render` says what that
 * rendering is; `Walk` is the visitor, append by append.
 */
module Stringify {
  import opened Ast

  /**
   * `StringifyVisitor`'s state: the buffer (always `max` characters, its
   * initial contents whatever the caller left there) and the logical length.
   */
  datatype Sink = Sink(dst: seq<char>, num: nat, max: nat) {
    predicate Valid() { |dst| == max }
  }

  function Min(a: nat, b: nat): nat {
    if a <= b then a else b
  }

  /**
   * `append`: copy as much of `str` as fits from position `num`, then add
   * its whole length to `num`. Nothing at or past `max` is touched.
   */
  function Append(s: Sink, str: seq<char>): (r: Sink)
    requires s.Valid()
    ensures r.Valid() && r.max == s.max
    ensures r.num == s.num + |str|
    ensures forall i | 0 <= i < r.max ::
              r.dst[i] == if s.num <= i < s.num + |str| then str[i - s.num] else s.dst[i]
  {
    if s.num < s.max then
      var cpy := Min(|str|, s.max - s.num);
      s.(dst := s.dst[..s.num] + str[..cpy] + s.dst[s.num + cpy..], num := s.num + |str|)
    else
      s.(num := s.num + |str|)
  }

  /** Two appends in a row are one append of the concatenation. */
  lemma AppendCompose(s: Sink, a: seq<char>, b: seq<char>)
    requires s.Valid()
    ensures Append(Append(s, a), b) == Append(s, a + b)
  {
    var x := Append(Append(s, a), b);
    var y := Append(s, a + b);
    assert x.dst == y.dst by {
      forall i | 0 <= i < s.max
        ensures x.dst[i] == y.dst[i]
      {
      }
    }
  }

  // ---------------------------------------------------------------------
  // What a tree renders as
  // ---------------------------------------------------------------------

  function DigitChar(d: nat): (c: char)
    requires d <= 9
    ensures '0' <= c <= '9' && c as int - '0' as int == d
  {
    ('0' as int + d) as char
  }

  /** The decimal digits of `n`, most significant first, no leading zeros. */
  function NatText(n: nat): (t: string)
    ensures |t| >= 1 && forall i | 0 <= i < |t| :: '0' <= t[i] <= '9'
    ensures |t| > 1 ==> t[0] != '0'
  {
    if n < 10 then [DigitChar(n)] else NatText(n / 10) + [DigitChar(n % 10)]
  }

  /** What `operator<<` on an `int64_t` writes: a minus sign for negatives, then the digits. */
  function IntText(v: Int64): string {
    var n: int := v;
    if n < 0 then "-" + NatText(-n) else NatText(n)
  }

  function OpText(e: Expr): string
    requires e.IsBinary()
  {
    match e
    case AddOperation(_, _) => " + "
    case SubOperation(_, _) => " - "
    case MulOperation(_, _) => " * "
    case DivOperation(_, _) => " / "
  }

  /**
   * The full rendering: literals as `operator<<` writes them (a float
   * through `floatText`, standing for the stream's default formatting), a
   * negation as `-` right before its operand, and every binary node in
   * parentheses with one space on each side of the operator.
   */
  function Render(floatText: FloatLit -> string, e: Expr): string {
    match e
    case IntValue(v) => IntText(v)
    case FloatValue(f) => floatText(f)
    case NegOperation(x) => "-" + Render(floatText, x)
    case _ => "(" + Render(floatText, e.lhs) + OpText(e) + Render(floatText, e.rhs) + ")"
  }

  // ---------------------------------------------------------------------
  // The visitor
  // ---------------------------------------------------------------------

  /** The `visit_*` methods: each node appends its pieces in order, children in between. */
  function Walk(floatText: FloatLit -> string, s: Sink, e: Expr): (r: Sink)
    requires s.Valid()
    ensures r.Valid() && r.max == s.max
    // `num` counts the whole rendering, whatever fits in the buffer
    ensures r.num == s.num + |Render(floatText, e)|
    decreases e
  {
    match e
    case IntValue(v) => Append(s, IntText(v))
    case FloatValue(f) => Append(s, floatText(f))
    case NegOperation(x) => Walk(floatText, Append(s, "-"), x)
    case AddOperation(l, r) =>
      Append(Walk(floatText, Append(Walk(floatText, Append(s, "("), l), " + "), r), ")")
    case SubOperation(l, r) =>
      Append(Walk(floatText, Append(Walk(floatText, Append(s, "("), l), " - "), r), ")")
    case MulOperation(l, r) =>
      Append(Walk(floatText, Append(Walk(floatText, Append(s, "("), l), " * "), r), ")")
    case DivOperation(l, r) =>
      Append(Walk(floatText, Append(Walk(floatText, Append(s, "("), l), " / "), r), ")")
  }

  /** The traversal is one append of the whole rendering. */
  lemma {:induction false} WalkRenders(floatText: FloatLit -> string, s: Sink, e: Expr)
    requires s.Valid()
    ensures Walk(floatText, s, e) == Append(s, Render(floatText, e))
    decreases e
  {
    match e
    case IntValue(_) =>
    case FloatValue(_) =>
    case NegOperation(x) =>
      WalkRenders(floatText, Append(s, "-"), x);
      AppendCompose(s, "-", Render(floatText, x));
    case _ =>
      var open := Append(s, "(");
      var lt := Render(floatText, e.lhs);
      var rt := Render(floatText, e.rhs);
      WalkRenders(floatText, open, e.lhs);
      var afterL := Append(open, lt);
      WalkRenders(floatText, Append(afterL, OpText(e)), e.rhs);
      AppendCompose(s, "(", lt);
      AppendCompose(s, "(" + lt, OpText(e));
      AppendCompose(s, "(" + lt + OpText(e), rt);
      AppendCompose(s, "(" + lt + OpText(e) + rt, ")");
  }

  /**
   * From an empty count, the visitor ends with `num` the length of the full
   * rendering, whatever `max` is, and the first `min(num, max)` characters
   * of the buffer are that rendering's prefix; the rest is untouched.
   */
  lemma VisitorOutput(floatText: FloatLit -> string, dst: seq<char>, e: Expr)
    ensures var text := Render(floatText, e);
            var r := Walk(floatText, Sink(dst, 0, |dst|), e);
            var k := Min(|text|, |dst|);
            && r.num == |text|
            && r.dst[..k] == text[..k]
            && r.dst[k..] == dst[k..]
  {
    WalkRenders(floatText, Sink(dst, 0, |dst|), e);
  }

  // ---------------------------------------------------------------------
  // `stringify`
  // ---------------------------------------------------------------------

  /** The buffer after `stringify`, and its return value; or the index it would write out of bounds. */
  datatype Outcome =
    | Written(dst: seq<char>, ret: nat)
    | OutOfBounds(index: nat)

  /**
   * `stringify` as written: with `max > 0`, the terminator goes at `num`,
   * pulled back by one only when `num == max`. When the rendering is longer
   * than the buffer, `num > max` and the store `dst[num] = '\0'` is past
   * the end.
   */
  function StringifyAsWritten(floatText: FloatLit -> string, e: Expr, dst: seq<char>): (r: Outcome)
    ensures r.OutOfBounds? <==> |Render(floatText, e)| > |dst| > 0
    ensures r.OutOfBounds? ==> r.index == |Render(floatText, e)|
  {
    VisitorOutput(floatText, dst, e);
    var w := Walk(floatText, Sink(dst, 0, |dst|), e);
    var max := |dst|;
    if max == 0 then Written(w.dst, w.num)
    else
      var num := if w.num == max then w.num - 1 else w.num;
      if num < max then Written(w.dst[num := '\0'], num) else OutOfBounds(num)
  }

  /** The overflow needs no exotic input: `1 + 2` renders as seven characters. */
  lemma StringifyOverrunsSmallBuffer()
    ensures StringifyAsWritten(f => "", AddOperation(IntValue(1), IntValue(2)), "abc") == OutOfBounds(7)
  {
    assert Render(f => "", AddOperation(IntValue(1), IntValue(2))) == "(1 + 2)";
  }

  /**
   * `stringify` with the terminator clamped into the buffer, at
   * `min(num, max - 1)`; the return value is what the source returns
   * whenever its store is in bounds, and the full length otherwise.
   */
  function Stringify(floatText: FloatLit -> string, e: Expr, dst: seq<char>): (r: Outcome)
    ensures r.Written?
  {
    var w := Walk(floatText, Sink(dst, 0, |dst|), e);
    var max := |dst|;
    if max == 0 then Written(w.dst, w.num)
    else
      var num := if w.num == max then w.num - 1 else w.num;
      Written(w.dst[Min(num, max - 1) := '\0'], num)
  }

  /**
   * What the corrected `stringify` leaves: a buffer of the same size; if it
   * is not empty, the longest prefix of the rendering that fits with its
   * terminator, then the terminator, then the caller's bytes; and the
   * rendering's length as return value, one less when it exactly filled
   * the buffer.
   */
  lemma StringifySpec(floatText: FloatLit -> string, e: Expr, dst: seq<char>)
    ensures var text := Render(floatText, e);
            var r := Stringify(floatText, e, dst);
            && |r.dst| == |dst|
            && r.ret == (if |text| == |dst| > 0 then |text| - 1 else |text|)
            && (|dst| == 0 ==> r.dst == dst)
            && (|dst| > 0 ==>
                  var t := Min(|text|, |dst| - 1);
                  r.dst[..t] == text[..t] && r.dst[t] == '\0' && r.dst[t + 1..] == dst[t + 1..])
  {
    VisitorOutput(floatText, dst, e);
    var text := Render(floatText, e);
    var w := Walk(floatText, Sink(dst, 0, |dst|), e);
    var r := Stringify(floatText, e, dst);
    hide Walk, Render;
    if |dst| > 0 {
      var t := Min(|text|, |dst| - 1);
      var k := Min(|text|, |dst|);
      assert r.dst == w.dst[t := '\0'];
      hide Stringify;
      assert r.dst[..t] == w.dst[..t] == w.dst[..k][..t];
      if t == k {
        assert r.dst[t + 1..] == w.dst[k..][1..];
      } else {
        assert r.dst[t + 1..] == w.dst[k..];
      }
    }
  }

  /** Wherever the source's terminator store is in bounds, the corrected `stringify` does the same. */
  lemma StringifyAgrees(floatText: FloatLit -> string, e: Expr, dst: seq<char>)
    ensures StringifyAsWritten(floatText, e, dst).Written? ==>
              StringifyAsWritten(floatText, e, dst) == Stringify(floatText, e, dst)
  {
  }
}
