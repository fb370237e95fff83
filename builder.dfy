/**
 * The term builder (the `TermBuilder` half of src/stlc/ast.rs). It keeps a
 * map from names to the index it handed out last and a counter of the next
 * index, and registers each new variable in a context it is given.
 */
module Builder {
  import opened Wrappers
  import opened Ast
  import opened Contexts

  /**
   * Back-to-front lookup by name: the latest entry called `name`, if any;
   * the mirror image of `Contexts.FirstIndexOf`.
   */
  function LastIndexOf(entries: seq<Entry>, name: string): (r: Option<nat>)
    ensures r.Some? ==> r.value < |entries| && entries[r.value].0 == name
    ensures r.Some? ==> forall j :: r.value < j < |entries| ==> entries[j].0 != name
    ensures r.None? <==> forall j :: 0 <= j < |entries| ==> entries[j].0 != name
  {
    if |entries| == 0 then None
    else if entries[|entries| - 1].0 == name then Some(|entries| - 1)
    else LastIndexOf(entries[..|entries| - 1], name)
  }

  /**
   * The builder's bookkeeping agrees with a context it alone has written:
   * the counter is the context's length, and a name is in the map exactly
   * when some entry has it, mapped to the latest such entry.
   */
  ghost predicate Synced(variables: map<string, nat>, nextIndex: nat, entries: seq<Entry>)
  {
    && nextIndex == |entries|
    && forall name :: LastIndexOf(entries, name) == (if name in variables then Some(variables[name]) else None)
  }

  /** A fresh builder is in step with an empty context. */
  lemma SyncedInitially()
    ensures Synced(map[], 0, [])
  {
  }

  /** Registering one variable keeps the builder in step with the context. */
  lemma SyncedAfterRegister(variables: map<string, nat>, nextIndex: nat, entries: seq<Entry>,
                            name: string, binding: Binding)
    requires Synced(variables, nextIndex, entries)
    ensures Synced(variables[name := nextIndex], nextIndex + 1, entries + [(name, binding)])
  {
  }

  class TermBuilder {
    /** The index handed out last for each name. */
    var variables: map<string, nat>
    /** The index the next variable gets. */
    var nextIndex: nat

    constructor ()
      ensures variables == map[] && nextIndex == 0
    {
      variables := map[];
      nextIndex := 0;
    }

    /** This builder has been the only writer to `context` since both were empty. */
    ghost predicate InSync(context: Context)
      reads this, context
    {
      Synced(variables, nextIndex, context.entries)
    }

    function TermTrue(): (t: Term)
      ensures t == TTrue
    {
      TTrue
    }

    function TermFalse(): (t: Term)
      ensures t == TFalse
    {
      TFalse
    }

    /** Registers a typed variable and returns a reference to the index the counter held. */
    method VarTyped(context: Context, ttype: TType, name: string) returns (t: Term)
      modifies this, context
      ensures context.entries == old(context.entries) + [(name, VariableBinding(ttype))]
      ensures variables == old(variables)[name := old(nextIndex)]
      ensures nextIndex == old(nextIndex) + 1
      ensures t == TVariable(old(nextIndex))
      ensures old(InSync(context)) ==>
                && InSync(context)
                && t.index < |context.entries|
                && context.GetTypeFromIdx(t.index) == Some(ttype)
    {
      ghost var wasSynced := InSync(context);
      var added := context.AddBinding(name, VariableBinding(ttype));
      variables := variables[name := nextIndex];
      var idx := nextIndex;
      nextIndex := nextIndex + 1;
      t := TVariable(idx);
      if wasSynced {
        SyncedAfterRegister(old(variables), old(nextIndex), old(context.entries), name, VariableBinding(ttype));
      }
    }

    /** Registers an untyped name and returns a reference to the index the counter held. */
    method Var(context: Context, name: string) returns (t: Term)
      modifies this, context
      ensures context.entries == old(context.entries) + [(name, NameBinding)]
      ensures variables == old(variables)[name := old(nextIndex)]
      ensures nextIndex == old(nextIndex) + 1
      ensures t == TVariable(old(nextIndex))
      ensures old(InSync(context)) ==>
                && InSync(context)
                && t.index < |context.entries|
                && context.GetBindingFromIdx(t.index) == NameBinding
                && context.GetTypeFromIdx(t.index) == None
    {
      ghost var wasSynced := InSync(context);
      var added := context.AddBinding(name, NameBinding);
      variables := variables[name := nextIndex];
      var idx := nextIndex;
      nextIndex := nextIndex + 1;
      t := TVariable(idx);
      if wasSynced {
        SyncedAfterRegister(old(variables), old(nextIndex), old(context.entries), name, NameBinding);
      }
    }

    /** Builds an application, function first; it adds no variable index of its own. */
    function Application(func: Term, arg: Term): (t: Term)
      ensures t.TApplication? && t.func == func && t.arg == arg
      ensures forall n :: IndicesBelow(t, n) <==> IndicesBelow(func, n) && IndicesBelow(arg, n)
    {
      TApplication(func, arg)
    }

    /** Builds an abstraction over `body`; it adds no variable index of its own. */
    function Abstraction(param: string, body: Term): (t: Term)
      ensures t.TAbstraction? && t.param == param && t.body == body
      ensures forall n :: IndicesBelow(t, n) <==> IndicesBelow(body, n)
    {
      TAbstraction(param, body)
    }

    /** Builds a conditional, in argument order; it adds no variable index of its own. */
    function Conditional(cond: Term, thenTerm: Term, elseTerm: Term): (t: Term)
      ensures t.TConditional? && t.cond == cond && t.thenTerm == thenTerm && t.elseTerm == elseTerm
      ensures forall n :: IndicesBelow(t, n) <==>
                IndicesBelow(cond, n) && IndicesBelow(thenTerm, n) && IndicesBelow(elseTerm, n)
    {
      TConditional(cond, thenTerm, elseTerm)
    }

    /** `lambda` with its body already built: the same as `Abstraction`. */
    function Lambda(param: string, body: Term): (t: Term)
      ensures t == Abstraction(param, body)
    {
      Abstraction(param, body)
    }
  }
}
