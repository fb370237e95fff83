/**
 * The naming context and the type checker (src/stlc/context.rs).
 *
 * A context is an append-only sequence of (name, binding) entries; a variable
 * term refers to an entry by its absolute position. `check_type` is a pure
 * read of the context, so it is a function with a `reads this` frame.
 */
module Contexts {
  import opened Wrappers
  import opened Ast

  type Entry = (string, Binding)

  /** One constructor per error string `check_type` can return. */
  datatype TypeError =
    | NoSuchType
    | BadConditionType
    | BadThenType
    | BadElseType
    | DivergingBranches
    | ConditionNotBool
    | BadAbstractionType
    | NoSuchBindingFound
    | BadType
    | BadLambdaType
    | BadArgumentType
    | LambdaArgumentMismatch
    | WrongLambdaType
  {
    /** The exact text the checker returns for this error. */
    function Message(): string
    {
      match this
      case NoSuchType => "No such type"
      case BadConditionType => "Bad condition type"
      case BadThenType => "Bad then type"
      case BadElseType => "Bad else type"
      case DivergingBranches => "Diverging branches!"
      case ConditionNotBool => "Condition is not Bool!"
      case BadAbstractionType => "Bad abstraction type!"
      case NoSuchBindingFound => "No such binding found!"
      case BadType => "Bad type"
      case BadLambdaType => "Bad lambda type!"
      case BadArgumentType => "Bad argument type"
      case LambdaArgumentMismatch => "Lambda argument mismatch"
      case WrongLambdaType => "Wrong lambda type"
    }
  }

  /** Distinct errors carry distinct messages, so the strings identify the failure points. */
  lemma MessagesAreDistinct(e1: TypeError, e2: TypeError)
    ensures e1 != e2 ==> e1.Message() != e2.Message()
  {
  }

  /**
   * The errors the checker can report for a term with this root constructor:
   * a failure deeper down is replaced by the message of the enclosing node.
   */
  function RootErrors(t: Term): set<TypeError>
  {
    match t
    case TTrue | TFalse => {}
    case TVariable(_) => {NoSuchType}
    case TConditional(_, _, _) =>
      {BadConditionType, BadThenType, BadElseType, ConditionNotBool, DivergingBranches}
    case TAbstraction(_, _) => {BadAbstractionType, NoSuchBindingFound, BadType}
    case TApplication(_, _) =>
      {BadLambdaType, BadArgumentType, LambdaArgumentMismatch, WrongLambdaType}
  }

  /**
   * Front-to-back lookup by name: the earliest entry called `name`, if any.
   * `Builder.LastIndexOf` is the back-to-front counterpart, and
   * `Parser.FirstWith`/`Parser.LastWith` are the same two searches over a
   * node's children by rule.
   */
  function FirstIndexOf(entries: seq<Entry>, name: string): (r: Option<nat>)
    ensures r.Some? ==> r.value < |entries| && entries[r.value].0 == name
    ensures r.Some? ==> forall j :: 0 <= j < r.value ==> entries[j].0 != name
    ensures r.None? <==> forall j :: 0 <= j < |entries| ==> entries[j].0 != name
  {
    if |entries| == 0 then None
    else if entries[0].0 == name then Some(0)
    else
      match FirstIndexOf(entries[1..], name)
      case None => None
      case Some(k) => Some(k + 1)
  }

  /** Appending entries never changes which entry a successful lookup finds. */
  lemma FirstIndexOfUnderAppend(prefix: seq<Entry>, entries: seq<Entry>, name: string)
    requires |prefix| <= |entries| && prefix == entries[..|prefix|]
    requires FirstIndexOf(prefix, name).Some?
    ensures FirstIndexOf(entries, name) == FirstIndexOf(prefix, name)
  {
    var k := FirstIndexOf(prefix, name).value;
    assert entries[k] == prefix[k];
    assert forall j :: 0 <= j < k ==> entries[j] == prefix[j];
  }

  class Context {
    /** The entries in the order they were added; nothing is ever removed. */
    var entries: seq<Entry>

    constructor ()
      ensures entries == []
    {
      entries := [];
    }

    /** Appends one entry and returns its position. */
    method AddBinding(name: string, binding: Binding) returns (index: nat)
      modifies this
      ensures entries == old(entries) + [(name, binding)]
      ensures index == |old(entries)|
      ensures GetNameFromIdx(index) == name && GetBindingFromIdx(index) == binding
    {
      entries := entries + [(name, binding)];
      index := |entries| - 1;
    }

    /** The binding at a position; with the name at that position it is the whole entry. */
    function GetBindingFromIdx(index: nat): (b: Binding)
      reads this
      requires index < |entries|
      ensures entries[index] == (GetNameFromIdx(index), b)
    {
      entries[index].1
    }

    /** The type at a position: present exactly for a typed binding. */
    function GetTypeFromIdx(index: nat): (r: Option<TType>)
      reads this
      requires index < |entries|
      ensures r.Some? <==> GetBindingFromIdx(index).VariableBinding?
      ensures r.Some? ==> GetBindingFromIdx(index) == VariableBinding(r.value)
    {
      match entries[index].1
      case NameBinding => None
      case VariableBinding(ttype) => Some(ttype)
    }

    /**
     * The name stored at a position. Looking that name up again finds this
     * position or an earlier one, and this one exactly when no earlier entry
     * has the name.
     */
    function GetNameFromIdx(index: nat): (name: string)
      reads this
      requires index < |entries|
      ensures name == entries[index].0
      ensures FirstIndexOf(entries, name).Some? && FirstIndexOf(entries, name).value <= index
      ensures FirstIndexOf(entries, name) == Some(index)
              <==> forall j :: 0 <= j < index ==> entries[j].0 != name
    {
      entries[index].0
    }

    /** The scan with early return; it finds what `FirstIndexOf` specifies. */
    method GetIdxFromName(name: string) returns (r: Option<nat>)
      ensures r == FirstIndexOf(entries, name)
    {
      var idx := 0;
      while idx < |entries|
        invariant 0 <= idx <= |entries|
        invariant forall j :: 0 <= j < idx ==> entries[j].0 != name
      {
        if entries[idx].0 == name {
          return Some(idx);
        }
        idx := idx + 1;
      }
      return None;
    }

    /**
     * The type checker. Sub-terms are checked in a fixed order, the first
     * failure decides the result, and a failing sub-check is reported with
     * the message of the node that ran it. An abstraction's body is checked
     * in this same context: nothing is pushed for the parameter.
     */
    function CheckType(term: Term): (r: Result<TType, TypeError>)
      reads this
      requires IndicesBelow(term, |entries|)
      ensures r.Err? ==> r.error in RootErrors(term)
      decreases term
    {
      match term
      case TTrue => Ok(TBool)
      case TFalse => Ok(TBool)
      case TVariable(index) =>
        (match GetTypeFromIdx(index)
         case None => Err(NoSuchType)
         case Some(ttype) => Ok(ttype))
      case TConditional(condition, thenTerm, elseTerm) =>
        var conditionType := CheckType(condition);
        if conditionType.Err? then Err(BadConditionType)
        else
          var thenType := CheckType(thenTerm);
          if thenType.Err? then Err(BadThenType)
          else
            var elseType := CheckType(elseTerm);
            if elseType.Err? then Err(BadElseType)
            else if conditionType.value == TBool then
              if thenType.value == elseType.value then Ok(thenType.value)
              else Err(DivergingBranches)
            else Err(ConditionNotBool)
      case TAbstraction(variableName, body) =>
        var termType := CheckType(body);
        if termType.Err? then Err(BadAbstractionType)
        else
          (match FirstIndexOf(entries, variableName)
           case None => Err(NoSuchBindingFound)
           case Some(index) =>
             (match GetTypeFromIdx(index)
              case None => Err(BadType)
              case Some(variableType) => Ok(TFun(variableType, termType.value))))
      case TApplication(lambda, arg) =>
        var lambdaType := CheckType(lambda);
        if lambdaType.Err? then Err(BadLambdaType)
        else
          var argType := CheckType(arg);
          if argType.Err? then Err(BadArgumentType)
          else
            match lambdaType.value
            case TFun(from, to) =>
              if from == argType.value then Ok(to) else Err(LambdaArgumentMismatch)
            case TBool => Err(WrongLambdaType)
    }
  }
}
