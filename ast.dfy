/**
 * The data model of the simply-typed lambda calculus (src/stlc/ast.rs):
 * terms, types and the two kinds of binding a context entry can hold.
 */
module Ast {

  /** A type: the single base type Bool, or a function type. `==` on it is structural. */
  datatype TType = TBool | TFun(from: TType, to: TType)

  /**
   * A term. A variable is an absolute position in the context (TIndex is usize,
   * modelled as an unbounded nat); an abstraction names its parameter.
   */
  datatype Term =
    | TTrue
    | TFalse
    | TVariable(index: nat)
    | TConditional(cond: Term, thenTerm: Term, elseTerm: Term)
    | TAbstraction(param: string, body: Term)
    | TApplication(func: Term, arg: Term)

  /** A context entry's kind: an untyped placeholder or a name with a type. */
  datatype Binding = NameBinding | VariableBinding(ttype: TType)

  /** Every variable index in `t` is below `n`, so indexing a context of length `n` cannot panic. */
  predicate IndicesBelow(t: Term, n: nat)
  {
    match t
    case TTrue | TFalse => true
    case TVariable(i) => i < n
    case TConditional(c, a, b) => IndicesBelow(c, n) && IndicesBelow(a, n) && IndicesBelow(b, n)
    case TAbstraction(_, body) => IndicesBelow(body, n)
    case TApplication(f, a) => IndicesBelow(f, n) && IndicesBelow(a, n)
  }

  /** Structural equality of types, as derived by PartialEq on the Rust enum. */
  lemma TypeEqualityIsStructural(a: TType, b: TType, c: TType, d: TType)
    ensures TFun(a, b) == TFun(c, d) <==> a == c && b == d
    ensures TFun(a, b) != TBool
  {
  }
}
