/**
 * What `Context.CheckType` computes (src/stlc/context.rs), stated two ways:
 * as the typing rules of the calculus, written as a relation that fixes no
 * evaluation order, and as the fixed order in which the checker reports
 * its failure points.
 */
module Typing {
  import opened Wrappers
  import opened Ast
  import opened Contexts

  /** Entry `i` is the earliest one called `name`. */
  ghost predicate EarliestNamed(entries: seq<Entry>, name: string, i: nat)
  {
    i < |entries| && entries[i].0 == name && forall j :: 0 <= j < i ==> entries[j].0 != name
  }

  /**
   * The typing rules over a flat context: an abstraction's parameter type is
   * the type bound to the earliest entry with the parameter's name, and its
   * body is typed in the same context.
   */
  ghost predicate HasType(entries: seq<Entry>, t: Term, T: TType)
    decreases t
  {
    match t
    case TTrue | TFalse => T == TBool
    case TVariable(i) => i < |entries| && entries[i].1 == VariableBinding(T)
    case TConditional(c, a, b) =>
      HasType(entries, c, TBool) && HasType(entries, a, T) && HasType(entries, b, T)
    case TAbstraction(x, body) =>
      && T.TFun?
      && HasType(entries, body, T.to)
      && exists i: nat :: EarliestNamed(entries, x, i) && entries[i].1 == VariableBinding(T.from)
    case TApplication(f, a) =>
      exists A :: HasType(entries, f, TFun(A, T)) && HasType(entries, a, A)
  }

  /** The checker is sound and complete for the typing rules. */
  lemma {:induction false} CheckTypeMatchesRules(c: Context, t: Term, T: TType)
    requires IndicesBelow(t, |c.entries|)
    ensures c.CheckType(t) == Ok(T) <==> HasType(c.entries, t, T)
    decreases t
  {
    match t
    case TTrue | TFalse =>
    case TVariable(i) =>
    case TConditional(cond, a, b) =>
      CheckTypeMatchesRules(c, cond, TBool);
      CheckTypeMatchesRules(c, a, T);
      CheckTypeMatchesRules(c, b, T);
    case TAbstraction(x, body) =>
      if T.TFun? {
        CheckTypeMatchesRules(c, body, T.to);
        var found := FirstIndexOf(c.entries, x);
        if found.Some? {
          assert EarliestNamed(c.entries, x, found.value);
        }
        forall i: nat | EarliestNamed(c.entries, x, i)
          ensures found == Some(i)
        {
        }
      }
    case TApplication(f, a) =>
      forall A
        ensures c.CheckType(f) == Ok(TFun(A, T)) <==> HasType(c.entries, f, TFun(A, T))
        ensures c.CheckType(a) == Ok(A) <==> HasType(c.entries, a, A)
      {
        CheckTypeMatchesRules(c, f, TFun(A, T));
        CheckTypeMatchesRules(c, a, A);
      }
      var lambdaType := c.CheckType(f);
      if c.CheckType(t) == Ok(T) {
        var from := lambdaType.value.from;
        assert HasType(c.entries, f, TFun(from, T)) && HasType(c.entries, a, from);
      }
  }

  /** A term has at most one type in a given context. */
  lemma TypesAreUnique(c: Context, t: Term, T1: TType, T2: TType)
    requires IndicesBelow(t, |c.entries|)
    requires HasType(c.entries, t, T1) && HasType(c.entries, t, T2)
    ensures T1 == T2
  {
    CheckTypeMatchesRules(c, t, T1);
    CheckTypeMatchesRules(c, t, T2);
  }

  /** A term whose indices fit a context also fits every longer one. */
  lemma {:induction false} IndicesBelowMonotone(t: Term, n: nat, m: nat)
    requires n <= m && IndicesBelow(t, n)
    ensures IndicesBelow(t, m)
    decreases t
  {
    match t
    case TTrue | TFalse | TVariable(_) =>
    case TConditional(c, a, b) =>
      IndicesBelowMonotone(c, n, m);
      IndicesBelowMonotone(a, n, m);
      IndicesBelowMonotone(b, n, m);
    case TAbstraction(_, body) => IndicesBelowMonotone(body, n, m);
    case TApplication(f, a) =>
      IndicesBelowMonotone(f, n, m);
      IndicesBelowMonotone(a, n, m);
  }

  /**
   * The context only grows, and growth never undoes a successful check:
   * a term that type-checks keeps its type when entries are appended.
   */
  lemma {:induction false} CheckTypeStableUnderAppend(c: Context, d: Context, t: Term)
    requires |c.entries| <= |d.entries| && c.entries == d.entries[..|c.entries|]
    requires IndicesBelow(t, |c.entries|)
    requires c.CheckType(t).Ok?
    ensures IndicesBelow(t, |d.entries|) && d.CheckType(t) == c.CheckType(t)
    decreases t
  {
    IndicesBelowMonotone(t, |c.entries|, |d.entries|);
    match t
    case TTrue | TFalse =>
    case TVariable(i) =>
      assert d.entries[i] == c.entries[i];
    case TConditional(cond, a, b) =>
      CheckTypeStableUnderAppend(c, d, cond);
      CheckTypeStableUnderAppend(c, d, a);
      CheckTypeStableUnderAppend(c, d, b);
    case TAbstraction(x, body) =>
      CheckTypeStableUnderAppend(c, d, body);
      FirstIndexOfUnderAppend(c.entries, d.entries, x);
      var i := FirstIndexOf(c.entries, x).value;
      assert d.entries[i] == c.entries[i];
    case TApplication(f, a) =>
      CheckTypeStableUnderAppend(c, d, f);
      CheckTypeStableUnderAppend(c, d, a);
  }

  /** Boolean literals have type Bool in every context. */
  lemma CheckTypeLiterals(c: Context)
    ensures c.CheckType(TTrue) == Ok(TBool) && c.CheckType(TFalse) == Ok(TBool)
  {
  }

  /** A variable has the type of its typed binding; an untyped one is an error. */
  lemma CheckTypeVariable(c: Context, i: nat)
    requires i < |c.entries|
    ensures c.entries[i].1.VariableBinding? ==> c.CheckType(TVariable(i)) == Ok(c.entries[i].1.ttype)
    ensures c.entries[i].1.NameBinding? ==> c.CheckType(TVariable(i)) == Err(NoSuchType)
  {
  }

  /**
   * A conditional reports, in this order: a failing condition, a failing
   * then-branch, a failing else-branch, a non-Bool condition (even when the
   * branches also differ), and only then diverging branches.
   */
  lemma CheckTypeConditional(c: Context, cond: Term, a: Term, b: Term)
    requires IndicesBelow(TConditional(cond, a, b), |c.entries|)
    ensures c.CheckType(cond).Err? ==> c.CheckType(TConditional(cond, a, b)) == Err(BadConditionType)
    ensures c.CheckType(cond).Ok? && c.CheckType(a).Err? ==>
              c.CheckType(TConditional(cond, a, b)) == Err(BadThenType)
    ensures c.CheckType(cond).Ok? && c.CheckType(a).Ok? && c.CheckType(b).Err? ==>
              c.CheckType(TConditional(cond, a, b)) == Err(BadElseType)
    ensures c.CheckType(cond).Ok? && c.CheckType(a).Ok? && c.CheckType(b).Ok? ==>
              (c.CheckType(cond).value != TBool ==>
                 c.CheckType(TConditional(cond, a, b)) == Err(ConditionNotBool)) &&
              (c.CheckType(cond).value == TBool && c.CheckType(a) == c.CheckType(b) ==>
                 c.CheckType(TConditional(cond, a, b)) == c.CheckType(a)) &&
              (c.CheckType(cond).value == TBool && c.CheckType(a) != c.CheckType(b) ==>
                 c.CheckType(TConditional(cond, a, b)) == Err(DivergingBranches))
  {
  }

  /**
   * An abstraction reports a failing body first, then a parameter name with
   * no entry, then an earliest entry that is untyped; otherwise its type is
   * a function from that entry's type to the body's type, the body being
   * typed in the unchanged context.
   */
  lemma CheckTypeAbstraction(c: Context, x: string, body: Term)
    requires IndicesBelow(body, |c.entries|)
    ensures c.CheckType(body).Err? ==> c.CheckType(TAbstraction(x, body)) == Err(BadAbstractionType)
    ensures c.CheckType(body).Ok? && (forall j :: 0 <= j < |c.entries| ==> c.entries[j].0 != x) ==>
              c.CheckType(TAbstraction(x, body)) == Err(NoSuchBindingFound)
    ensures forall i: nat :: c.CheckType(body).Ok? && EarliestNamed(c.entries, x, i) ==>
              (c.entries[i].1.NameBinding? ==> c.CheckType(TAbstraction(x, body)) == Err(BadType)) &&
              (c.entries[i].1.VariableBinding? ==>
                 c.CheckType(TAbstraction(x, body)) == Ok(TFun(c.entries[i].1.ttype, c.CheckType(body).value)))
  {
  }

  /**
   * An application reports a failing function, then a failing argument;
   * it succeeds exactly when the function's type is a function type whose
   * domain equals the argument's type, and then has the codomain as type.
   */
  lemma CheckTypeApplication(c: Context, f: Term, a: Term)
    requires IndicesBelow(f, |c.entries|) && IndicesBelow(a, |c.entries|)
    ensures var lambdaType, argType := c.CheckType(f), c.CheckType(a);
            var r := c.CheckType(TApplication(f, a));
            && (lambdaType.Err? ==> r == Err(BadLambdaType))
            && (lambdaType.Ok? && argType.Err? ==> r == Err(BadArgumentType))
            && (r.Ok? <==> lambdaType.Ok? && lambdaType.value.TFun? && argType == Ok(lambdaType.value.from))
            && (r.Ok? ==> r.value == lambdaType.value.to)
            && (lambdaType.Ok? && lambdaType.value.TFun? && argType.Ok? && argType.value != lambdaType.value.from ==>
                  r == Err(LambdaArgumentMismatch))
            && (lambdaType == Ok(TBool) && argType.Ok? ==> r == Err(WrongLambdaType))
  {
  }
}
