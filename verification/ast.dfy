/**
 * The expression tree of expr.hpp. The seven node structs and their
 * double-dispatch `visit` become one closed datatype; every traversal is a
 * `match` over it. Node storage in the arena is modelled separately (see
 * BumpArena and Parser): the tree here is the value those nodes denote.
 */
module Ast {

  const Int64Max: int := 0x7FFF_FFFF_FFFF_FFFF
  const Int64Min: int := -0x8000_0000_0000_0000

  /** The values an `int64_t` can hold. */
  type Int64 = x: int | Int64Min <= x <= Int64Max

  /**
   * A floating literal as it was written: the digits before the dot and the
   * (possibly empty) digits after it. Its conversion to a `double` is not
   * modelled; consumers that need a number take a conversion as a parameter.
   */
  datatype FloatLit = FloatLit(whole: seq<char>, frac: seq<char>)

  datatype Expr =
    | IntValue(ival: Int64)
    | FloatValue(fval: FloatLit)
    | NegOperation(op: Expr)
    | AddOperation(lhs: Expr, rhs: Expr)
    | SubOperation(lhs: Expr, rhs: Expr)
    | MulOperation(lhs: Expr, rhs: Expr)
    | DivOperation(lhs: Expr, rhs: Expr)
  {
    predicate IsLeaf() { IntValue? || FloatValue? }

    predicate IsBinary() {
      AddOperation? || SubOperation? || MulOperation? || DivOperation?
    }
  }
}
