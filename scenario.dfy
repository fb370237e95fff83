/**
 * The program in src/main.rs, and conversions of syntax trees for a few
 * sentences of the surface language. The grammar is not part of this model,
 * so the trees below are the shape its rules are assumed to produce:
 * a term over an application term over an atom over a bool, and a lambda
 * whose children are a variable name and a term.
 */
module Scenario {
  import opened Wrappers
  import opened Ast
  import opened Contexts
  import opened Builder
  import opened Parser

  /**
   * `main`: one typed variable x : Bool is registered, then the variable,
   * `fun x -> if x then true else false` and the conditional are checked,
   * in that order.
   */
  method MainScenario() returns (variableType: Result<TType, TypeError>,
                                 abstractionType: Result<TType, TypeError>,
                                 conditionalType: Result<TType, TypeError>)
    ensures variableType == Ok(TBool)
    ensures abstractionType == Ok(TFun(TBool, TBool))
    ensures conditionalType == Ok(TBool)
  {
    var context := new Context();
    var builder1 := new TermBuilder();
    SyncedInitially();
    var func1 := builder1.VarTyped(context, TBool, "x");
    var ttrue := builder1.TermTrue();
    var tfalse := builder1.TermFalse();
    var term4 := builder1.Conditional(func1, ttrue, tfalse);
    var func2 := builder1.Abstraction("x", term4);
    assert context.entries == [("x", VariableBinding(TBool))];
    assert FirstIndexOf(context.entries, "x") == Some(0);
    variableType := context.CheckType(func1);
    assert context.CheckType(term4) == Ok(TBool);
    abstractionType := context.CheckType(func2);
    conditionalType := context.CheckType(term4);
  }

  /** The tree of a boolean literal standing alone as a term. */
  function LiteralTree(text: string): Pair
  {
    Pair(Term, text, [Pair(ApplicationTerm, text, [Pair(Atom, text, [Pair(Bool, text, [])])])])
  }

  /** The tree of `fun x -> false`. */
  function FunXFalseTree(): Pair
  {
    Pair(Term, "fun x -> false",
      [Pair(Lambda, "fun x -> false", [Pair(VariableName, "x", []), LiteralTree("false")])])
  }

  /** "true" and "false" convert to the literals, which have type Bool in any context. */
  lemma ParseLiterals(context: Context)
    ensures Admissible(LiteralTree("true")) && Parse(LiteralTree("true")) == Some(TTrue)
    ensures Admissible(LiteralTree("false")) && Parse(LiteralTree("false")) == Some(TFalse)
    ensures context.CheckType(TTrue) == Ok(TBool) && context.CheckType(TFalse) == Ok(TBool)
  {
  }

  /**
   * `fun x -> false` converts to the abstraction the builder makes, and with
   * x : Bool already declared both have type Bool -> Bool.
   */
  lemma ParsedAndBuiltAgree(builder: TermBuilder, context: Context)
    requires context.entries == [("x", VariableBinding(TBool))]
    ensures Admissible(FunXFalseTree())
    ensures Parse(FunXFalseTree()) == Some(builder.Abstraction("x", builder.TermFalse()))
    ensures context.CheckType(builder.Abstraction("x", builder.TermFalse())) == Ok(TFun(TBool, TBool))
  {
    ParseLambdaTree("fun x -> false", "x", LiteralTree("false"));
  }

  /**
   * Documentation only: it spells out a consequence of `Admissible`'s
   * definition and proves nothing beyond it. A conditional is not converted:
   * a conditional node, or a term whose first child is one, ends in `todo!()`.
   */
  lemma ConditionalsAreNotConverted(text: string, children: seq<Pair>)
    ensures !Admissible(Pair(Conditional, text, children))
    ensures !Admissible(Pair(Term, text, [Pair(Conditional, text, children)]))
  {
  }

  /** A variable occurrence in a lambda body is an atom with no bool child: it converts to nothing. */
  lemma VariableBodiesAreNotConverted()
    ensures Admissible(Pair(Lambda, "fun x -> x",
              [Pair(VariableName, "x", []),
               Pair(Term, "x", [Pair(ApplicationTerm, "x", [Pair(Atom, "x", [Pair(VariableName, "x", [])])])])]))
    ensures Parse(Pair(Lambda, "fun x -> x",
              [Pair(VariableName, "x", []),
               Pair(Term, "x", [Pair(ApplicationTerm, "x", [Pair(Atom, "x", [Pair(VariableName, "x", [])])])])])).None?
  {
  }
  /** The surface text of a literal under abstractions. */
  function Show(t: Term): string
    requires BoolsAndAbstractions(t)
  {
    match t
    case TTrue => "true"
    case TFalse => "false"
    case TAbstraction(x, body) => "fun " + x + " -> " + Show(body)
  }

  /** The tree of the surface text of `t`, in the assumed shape above. */
  function TreeOf(t: Term): Pair
    requires BoolsAndAbstractions(t)
  {
    match t
    case TTrue | TFalse => LiteralTree(Show(t))
    case TAbstraction(x, body) =>
      Pair(Term, Show(t), [Pair(Lambda, Show(t), [Pair(VariableName, x, []), TreeOf(body)])])
  }

  /** A term over a lambda with one variable name and one term child abstracts over that child. */
  lemma ParseLambdaTree(text: string, x: string, body: Pair)
    requires body.rule == Term && Admissible(body)
    ensures Admissible(Pair(Term, text, [Pair(Lambda, text, [Pair(VariableName, x, []), body])]))
    ensures Parse(Pair(Term, text, [Pair(Lambda, text, [Pair(VariableName, x, []), body])])) ==
            if Parse(body).None? then None else Some(TAbstraction(x, Parse(body).value))
  {
    var children := [Pair(VariableName, x, []), body];
    assert LastWith(children, Term) == Some(1);
    assert LastWith(children, VariableName) == Some(0);
  }

  /**
   * Every term the converter can produce is produced from the tree of its
   * own surface text; so a term built with the builder and the conversion
   * of the same sentence are equal, and check to the same result.
   */
  lemma {:induction false} ParseTreeOf(t: Term)
    requires BoolsAndAbstractions(t)
    ensures Admissible(TreeOf(t)) && Parse(TreeOf(t)) == Some(t)
    decreases t
  {
    match t
    case TTrue | TFalse =>
    case TAbstraction(x, body) =>
      ParseTreeOf(body);
      ParseLambdaTree(Show(t), x, TreeOf(body));
  }
}
