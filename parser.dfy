/**
 * Conversion of the grammar engine's syntax tree into terms (`parse_ast` in
 * src/stlc/parser.rs). The grammar engine is not modelled: a node is given
 * as its rule tag, the text it spans and its children in order.
 */
module Parser {
  import opened Wrappers
  import Ast
  import Contexts

  /** The grammar's rule tags. */
  datatype Rule =
    | Term
    | Lambda
    | ApplicationTerm
    | Conditional
    | Atom
    | Bool
    | VariableName
    | Whitespace
    | BaseType
    | ArrowType
    | Typename
    | Keywords
    | Declaration

  /** A syntax-tree node: its rule, the source text it spans, and its children. */
  datatype Pair = Pair(rule: Rule, text: string, inner: seq<Pair>)

  /**
   * The trees `parse_ast` handles without panicking. Rules other than the
   * five it converts end in `todo!()` or `unreachable!()`, and so does a
   * lambda child that is neither a variable name nor a term. A lambda
   * converts every term child, so all of them must be admissible; the
   * application and atom arms only ever descend into an atom or a bool,
   * which never panic.
   */
  predicate Admissible(p: Pair)
    decreases p
  {
    match p.rule
    case Term => |p.inner| == 0 || Admissible(p.inner[0])
    case Lambda =>
      forall i :: 0 <= i < |p.inner| ==>
        p.inner[i].rule == VariableName || (p.inner[i].rule == Term && Admissible(p.inner[i]))
    case ApplicationTerm | Atom | Bool => true
    case Conditional | VariableName | Whitespace | BaseType | ArrowType | Typename | Keywords | Declaration =>
      false
  }

  /** The first child with the given rule, if any: `Contexts.FirstIndexOf` with rules for names. */
  function FirstWith(ps: seq<Pair>, rule: Rule): (r: Option<nat>)
    ensures r.Some? ==> r.value < |ps| && ps[r.value].rule == rule
    ensures r.Some? ==> forall j :: 0 <= j < r.value ==> ps[j].rule != rule
    ensures r.None? <==> forall j :: 0 <= j < |ps| ==> ps[j].rule != rule
  {
    if |ps| == 0 then None
    else if ps[0].rule == rule then Some(0)
    else
      match FirstWith(ps[1..], rule)
      case None => None
      case Some(k) => Some(k + 1)
  }

  /** The last child with the given rule, if any: `Builder.LastIndexOf` with rules for names. */
  function LastWith(ps: seq<Pair>, rule: Rule): (r: Option<nat>)
    ensures r.Some? ==> r.value < |ps| && ps[r.value].rule == rule
    ensures r.Some? ==> forall j :: r.value < j < |ps| ==> ps[j].rule != rule
    ensures r.None? <==> forall j :: 0 <= j < |ps| ==> ps[j].rule != rule
  {
    if |ps| == 0 then None
    else if ps[|ps| - 1].rule == rule then Some(|ps| - 1)
    else LastWith(ps[..|ps| - 1], rule)
  }

  /** Looking one more child ahead: the last match is that child, or the last match before it. */
  lemma LastWithExtend(ps: seq<Pair>, i: nat, rule: Rule)
    requires i < |ps|
    ensures LastWith(ps[..i + 1], rule) == if ps[i].rule == rule then Some(i) else LastWith(ps[..i], rule)
  {
    assert ps[..i + 1][..i] == ps[..i];
  }

  /** A lambda's parameter: the text of its last variable-name child, or "" when it has none. */
  function LambdaParam(ps: seq<Pair>): (name: string)
    ensures (forall j :: 0 <= j < |ps| ==> ps[j].rule != VariableName) ==> name == ""
    ensures forall k ::
              (0 <= k < |ps| && ps[k].rule == VariableName &&
               forall j :: k < j < |ps| ==> ps[j].rule != VariableName) ==> name == ps[k].text
  {
    match LastWith(ps, VariableName)
    case None => ""
    case Some(k) => ps[k].text
  }

  /** The terms the converter can produce: literals under any number of abstractions. */
  predicate BoolsAndAbstractions(t: Ast.Term)
  {
    match t
    case TTrue | TFalse => true
    case TAbstraction(_, body) => BoolsAndAbstractions(body)
    case TVariable(_) | TConditional(_, _, _) | TApplication(_, _) => false
  }

  /**
   * What `parse_ast` returns for an admissible tree. No arm ever builds a
   * variable, a conditional or an application.
   */
  function Parse(p: Pair): (r: Option<Ast.Term>)
    requires Admissible(p)
    ensures r.Some? ==> BoolsAndAbstractions(r.value)
    decreases p
  {
    match p.rule
    case Term => if |p.inner| == 0 then None else Parse(p.inner[0])
    case Lambda =>
      (match LastWith(p.inner, Term)
       case None => None
       case Some(k) =>
         (match Parse(p.inner[k])
          case None => None
          case Some(body) => Some(Ast.TAbstraction(LambdaParam(p.inner), body))))
    case ApplicationTerm =>
      (match FirstWith(p.inner, Atom)
       case None => None
       case Some(k) => Parse(p.inner[k]))
    case Atom =>
      (match FirstWith(p.inner, Bool)
       case None => None
       case Some(k) => Parse(p.inner[k]))
    case Bool =>
      if p.text == "true" then Some(Ast.TTrue)
      else if p.text == "false" then Some(Ast.TFalse)
      else None
    case Conditional | VariableName | Whitespace | BaseType | ArrowType | Typename | Keywords | Declaration =>
      assert false; None
  }

  /**
   * `parse_ast`: dispatch on the rule tag. It takes the context but has no
   * `modifies` clause: the context is never changed.
   */
  method ParseAst(pair: Pair, context: Contexts.Context) returns (r: Option<Ast.Term>)
    requires Admissible(pair)
    ensures r == Parse(pair)
    decreases pair, 1
  {
    match pair.rule {
      case Term =>
        if |pair.inner| == 0 {
          return None;
        }
        r := ParseAst(pair.inner[0], context);
      case Lambda =>
        r := ParseLambdaArm(pair, context);
      case ApplicationTerm =>
        r := ParseFirstChild(pair, Atom, context);
      case Atom =>
        r := ParseFirstChild(pair, Bool, context);
      case Bool =>
        if pair.text == "true" {
          r := Some(Ast.TTrue);
        } else if pair.text == "false" {
          r := Some(Ast.TFalse);
        } else {
          r := None;
        }
      case Conditional | VariableName | Whitespace | BaseType | ArrowType | Typename | Keywords | Declaration =>
        assert false;
    }
  }

  /**
   * The lambda arm: a loop over the children in which the last variable
   * name and the last converted term win, then an abstraction if there is a body.
   */
  method ParseLambdaArm(pair: Pair, context: Contexts.Context) returns (r: Option<Ast.Term>)
    requires pair.rule == Lambda && Admissible(pair)
    ensures r == Parse(pair)
    decreases pair, 0
  {
    var variableName := "";
    var innerTerm: Option<Ast.Term> := None;
    var i := 0;
    while i < |pair.inner|
      invariant 0 <= i <= |pair.inner|
      invariant variableName == LambdaParam(pair.inner[..i])
      invariant innerTerm == match LastWith(pair.inner[..i], Term)
                             case None => None
                             case Some(k) => Parse(pair.inner[k])
    {
      var innerPair := pair.inner[i];
      LastWithExtend(pair.inner, i, Term);
      LastWithExtend(pair.inner, i, VariableName);
      if innerPair.rule == VariableName {
        variableName := innerPair.text;
      } else {
        innerTerm := ParseAst(innerPair, context);
      }
      i := i + 1;
    }
    assert pair.inner[..i] == pair.inner;
    if innerTerm.None? {
      return None;
    }
    r := Some(Ast.TAbstraction(variableName, innerTerm.value));
  }

  /**
   * The application-term and atom arms: a loop that returns the conversion
   * of the first child with the wanted rule (an atom, or a bool) and skips
   * the others; nothing when there is none.
   */
  method ParseFirstChild(pair: Pair, wanted: Rule, context: Contexts.Context) returns (r: Option<Ast.Term>)
    requires wanted == Atom || wanted == Bool
    ensures r == match FirstWith(pair.inner, wanted)
                 case None => None
                 case Some(k) => Parse(pair.inner[k])
    decreases pair, 0
  {
    var i := 0;
    while i < |pair.inner|
      invariant 0 <= i <= |pair.inner|
      invariant forall j :: 0 <= j < i ==> pair.inner[j].rule != wanted
    {
      if pair.inner[i].rule == wanted {
        r := ParseAst(pair.inner[i], context);
        return;
      }
      i := i + 1;
    }
    return None;
  }

  /** A bool node converts its text: "true" and "false", and nothing else. */
  lemma ParseBool(p: Pair)
    requires p.rule == Bool
    ensures Admissible(p)
    ensures Parse(p) == Some(Ast.TTrue) <==> p.text == "true"
    ensures Parse(p) == Some(Ast.TFalse) <==> p.text == "false"
    ensures Parse(p).None? <==> p.text != "true" && p.text != "false"
  {
  }

  /** A term node converts its first child, and gives nothing when it has none. */
  lemma ParseTerm(p: Pair)
    requires p.rule == Term && Admissible(p)
    ensures |p.inner| == 0 ==> Parse(p).None?
    ensures |p.inner| > 0 ==> Admissible(p.inner[0]) && Parse(p) == Parse(p.inner[0])
  {
  }

  /**
   * A lambda takes its body from its last term child and its parameter from
   * its last variable-name child (or ""), and gives nothing when there is no
   * term child or the last one gives nothing.
   */
  lemma ParseLambda(p: Pair)
    requires p.rule == Lambda && Admissible(p)
    ensures (forall j :: 0 <= j < |p.inner| ==> p.inner[j].rule != Term) ==> Parse(p).None?
    ensures forall k ::
              (0 <= k < |p.inner| && p.inner[k].rule == Term &&
               forall j :: k < j < |p.inner| ==> p.inner[j].rule != Term) ==>
                && Admissible(p.inner[k])
                && (Parse(p.inner[k]).None? ==> Parse(p).None?)
                && (Parse(p.inner[k]).Some? ==>
                      Parse(p) == Some(Ast.TAbstraction(LambdaParam(p.inner), Parse(p.inner[k]).value)))
  {
    forall k |
      0 <= k < |p.inner| && p.inner[k].rule == Term &&
      forall j :: k < j < |p.inner| ==> p.inner[j].rule != Term
      ensures LastWith(p.inner, Term) == Some(k)
    {
    }
  }

  /**
   * An application-term node gives what its first atom child gives, or
   * nothing when it has none; it never builds an application.
   */
  lemma ParseApplicationTerm(p: Pair)
    requires p.rule == ApplicationTerm
    ensures Admissible(p)
    ensures (forall j :: 0 <= j < |p.inner| ==> p.inner[j].rule != Atom) ==> Parse(p).None?
    ensures forall k ::
              (0 <= k < |p.inner| && p.inner[k].rule == Atom &&
               forall j :: 0 <= j < k ==> p.inner[j].rule != Atom) ==>
                Admissible(p.inner[k]) && Parse(p) == Parse(p.inner[k])
    ensures Parse(p).Some? ==> !Parse(p).value.TApplication?
  {
  }

  /** An atom node gives what its first bool child gives, skipping the others, or nothing. */
  lemma ParseAtom(p: Pair)
    requires p.rule == Atom
    ensures Admissible(p)
    ensures (forall j :: 0 <= j < |p.inner| ==> p.inner[j].rule != Bool) ==> Parse(p).None?
    ensures forall k ::
              (0 <= k < |p.inner| && p.inner[k].rule == Bool &&
               forall j :: 0 <= j < k ==> p.inner[j].rule != Bool) ==>
                Parse(p) == Parse(p.inner[k])
  {
  }

  /** Literals under abstractions mention no variable index at all. */
  lemma {:induction false} BoolsAndAbstractionsAreClosed(t: Ast.Term, n: nat)
    requires BoolsAndAbstractions(t)
    ensures Ast.IndicesBelow(t, n)
    decreases t
  {
    match t
    case TTrue | TFalse =>
    case TAbstraction(_, body) => BoolsAndAbstractionsAreClosed(body, n);
  }

  /** Whatever the converter produces can be checked in any context without an index panic. */
  lemma ParsedTermsAreCheckable(p: Pair, context: Contexts.Context)
    requires Admissible(p) && Parse(p).Some?
    ensures Ast.IndicesBelow(Parse(p).value, |context.entries|)
  {
    BoolsAndAbstractionsAreClosed(Parse(p).value, |context.entries|);
  }
}
