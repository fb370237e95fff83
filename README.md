# A model of a small type checker for the simply-typed lambda calculus

This project models the core of a tiny simply-typed lambda calculus written in
Rust, and proves properties of that model. The calculus has booleans,
conditionals, variables, abstraction and application, over the types `Bool`
and `A -> B`. The model covers three Rust files:

- `src/stlc/ast.rs`, the data model and the term builder. The datatypes are in
  `ast.dfy` (module `Ast`). `TermBuilder` is a class in `builder.dfy` (module
  `Builder`). Its methods write to a `Context`, and `Context` itself uses the
  datatypes. Putting the class in its own module avoids a cycle between modules.
- `src/stlc/context.rs`, the naming context and `check_type`. These are in
  `context.dfy` (module `Contexts`). The typing rules and the lemmas about the
  checker are in `typing.dfy` (module `Typing`).
- `src/stlc/parser.rs`, `parse_ast`, in `parser.dfy` (module `Parser`).

`wrappers.dfy` holds `Option` and `Result`. `scenario.dfy` holds the program in
`src/main.rs` and conversions of a few example sentences.

How the model represents the code:

- **Context.** A `Context` is a class with one field, `entries`: the sequence
  of `(name, binding)` pairs. `AddBinding` is a method that appends one entry.
  The read-only accessors and `CheckType` are functions with `reads this`.
  `get_idx_from_name` is a scan with an early return, so it is a method with a
  loop, `GetIdxFromName`. It is proved equal to the function `FirstIndexOf`,
  which `CheckType` uses because a function cannot call a method.
- **Checker behaviour.** The model does what the code does.
  - Name lookup is flat and finds the earliest entry.
  - An abstraction looks its parameter up in the same context and pushes
    nothing.
  - A failing sub-check is reported with the enclosing node's own message.
  - Every error string has one constructor of `TypeError`, and
    `TypeError.Message` gives the exact text.
- **Indexing panics.** Indexing the `Vec` out of range panics in the code, so
  it is a precondition here. `IndicesBelow(t, |entries|)` says every variable
  index in `t` is in range.
- **Term builder.** `TermBuilder` is a class with the fields `variables` (a
  map) and `nextIndex`. `VarTyped` and `Var` are methods that change the
  builder and the context. The pure constructors are functions.
  - `Synced` is the bookkeeping invariant. It holds while the builder is the
    only writer to a context that started empty: the counter equals the
    context's length, and each name in the map points to the latest entry with
    that name.
  - The builder's `lambda` takes a callback in Rust. Here it takes the body the
    callback would return.
- **Syntax tree.** A pest `Pair` is the datatype `Pair(rule, text, inner)`.
  `Parse` is the function that says what `parse_ast` returns. `ParseAst` is the
  recursive method that dispatches on the rule tag, and it is proved equal to
  `Parse`. The loops of its lambda arm and of its application-term and atom
  arms are the methods `ParseLambdaArm` and `ParseFirstChild`, each with its own
  invariants.
  - The arms that end in `todo!()` or `unreachable!()` are excluded by the
    precondition `Admissible`.
  - `ParseAst` takes the context but has no `modifies` clause, so it cannot
    change it.

Points where the code differs from a textbook checker for the simply typed
lambda calculus; the model follows the code:

- A failing sub-check of a conditional is reported as "Bad condition type",
  "Bad then type" or "Bad else type". The inner error is not passed up.
- A variable index out of range is a panic, not a typing error: the code
  indexes the `Vec` directly.
- A `conditional` node ends in `todo!()`, so "if … then … else …" is not
  converted (`ConditionalsAreNotConverted`).
- A `declaration` node ends in `unreachable!()`, so the parser never registers
  a binding.
- An atom converts only a bool child. So a variable in a lambda body converts
  to nothing (`VariableBodiesAreNotConverted`), and no conversion ever builds a
  variable, a conditional or an application.

## Model

| member | source | states |
|---|---|---|
| `Ast.TypeEqualityIsStructural` | src/stlc/ast.rs:19-23 | two function types are equal exactly when their domains and their codomains are equal; a function type is never Bool |
| `Contexts.MessagesAreDistinct` | src/stlc/context.rs:44-109 | no two failure points share an error message, so each string identifies one check |
| `Contexts.FirstIndexOf` | src/stlc/context.rs:34-42 | the lookup result is the smallest index whose entry has the name; it is absent exactly when no entry has the name; any index it gives is in range |
| `Contexts.FirstIndexOfUnderAppend` | src/stlc/context.rs:10-13 | appending entries to a context never changes a lookup that already succeeded |
| `Contexts.Context.constructor` | src/stlc/context.rs:6-8 | a new context has no entries |
| `Contexts.Context.AddBinding` | src/stlc/context.rs:10-13 | appends exactly `(name, binding)` after the unchanged earlier entries, returns the old length, and the accessors at that index give back the name and the binding |
| `Contexts.Context.GetBindingFromIdx` | src/stlc/context.rs:15-18 | for an index in range, the binding and the name at that index make up the whole entry |
| `Contexts.Context.GetTypeFromIdx` | src/stlc/context.rs:20-26 | for an index in range, it gives a type exactly when the binding there is typed, and then gives that binding's type; it gives nothing for an untyped name |
| `Contexts.Context.GetNameFromIdx` | src/stlc/context.rs:28-32 | the result is the name stored at the index; looking that name up again finds that index or an earlier one, and that index exactly when no earlier entry has the name |
| `Contexts.Context.GetIdxFromName` | src/stlc/context.rs:34-42 | the early-return scan returns the earliest index with the name, or nothing when no entry has it |
| `Contexts.Context.CheckType` | src/stlc/context.rs:44-109 | the checker never fails with a message that belongs to another kind of node: each error names a failure point of the term's own root |
| `Typing.CheckTypeMatchesRules` | src/stlc/context.rs:44-109 | the checker gives `Ok(T)` exactly when `T` is derivable by the typing rules over the flat context, with an abstraction's parameter typed by the earliest entry of its name and its body typed in the same context |
| `Typing.TypesAreUnique` | src/stlc/context.rs:44-109 | a term has at most one type in a given context |
| `Typing.IndicesBelowMonotone` | src/stlc/context.rs:16-30 | a term whose variable indices are in range for a context is also in range for any longer context |
| `Typing.CheckTypeStableUnderAppend` | src/stlc/context.rs:10-13 | a term that type-checks keeps its type after entries are appended to the context |
| `Typing.CheckTypeLiterals` | src/stlc/context.rs:46-47 | `true` and `false` have type Bool in every context |
| `Typing.CheckTypeVariable` | src/stlc/context.rs:48-51 | a variable has the type of its typed binding; an untyped name gives "No such type" |
| `Typing.CheckTypeConditional` | src/stlc/context.rs:52-74 | the errors come in this order: a failing condition, a failing then-branch, a failing else-branch, then a non-Bool condition (even when the branches also differ); with a Bool condition, equal branch types give that type and different ones give "Diverging branches!" |
| `Typing.CheckTypeAbstraction` | src/stlc/context.rs:75-87 | a failing body gives "Bad abstraction type!"; then a name with no entry gives "No such binding found!"; then an untyped earliest entry gives "Bad type"; otherwise the type is a function from that entry's type to the body's type, with the body checked in the unchanged context |
| `Typing.CheckTypeApplication` | src/stlc/context.rs:88-107 | a failing function or argument gives its own message; the result is `Ok(to)` exactly when the function has type `from -> to` and the argument has type `from`; a wrong argument gives "Lambda argument mismatch" and a non-function gives "Wrong lambda type" |
| `Builder.LastIndexOf` | src/stlc/ast.rs:57 | the latest index whose entry has the name, and nothing exactly when no entry has it |
| `Builder.SyncedInitially` | src/stlc/ast.rs:40-45 | a fresh builder is in step with an empty context |
| `Builder.SyncedAfterRegister` | src/stlc/ast.rs:55-68 | registering a variable keeps the counter equal to the context's length, and keeps each name mapped to its latest entry |
| `Builder.TermBuilder.constructor` | src/stlc/ast.rs:40-45 | a new builder has an empty map and a counter at 0 |
| `Builder.TermBuilder.TermTrue` | src/stlc/ast.rs:47-49 | builds the literal `true` |
| `Builder.TermBuilder.TermFalse` | src/stlc/ast.rs:51-53 | builds the literal `false` |
| `Builder.TermBuilder.VarTyped` | src/stlc/ast.rs:55-61 | appends exactly `(name, typed binding)` to the context; maps the name to the old counter, so a later call with the same name wins and other keys stay; adds one to the counter; returns a variable at the old counter; when the builder was in step, it stays in step and the returned index has the given type |
| `Builder.TermBuilder.Var` | src/stlc/ast.rs:63-69 | the same as `VarTyped` with an untyped binding; when in step, the returned index has no type |
| `Builder.TermBuilder.Application` | src/stlc/ast.rs:71-73 | builds an application with the function first, and adds no variable index of its own |
| `Builder.TermBuilder.Abstraction` | src/stlc/ast.rs:75-77 | builds an abstraction over the given body, and adds no variable index of its own |
| `Builder.TermBuilder.Conditional` | src/stlc/ast.rs:79-81 | builds a conditional with its parts in argument order, and adds no variable index of its own |
| `Builder.TermBuilder.Lambda` | src/stlc/ast.rs:83-86 | building a lambda from an already-built body is the same as building the abstraction |
| `Parser.FirstWith` | src/stlc/parser.rs:57-75 | the first child with a given rule, and nothing exactly when no child has it |
| `Parser.LastWith` | src/stlc/parser.rs:38-48 | the last child with a given rule, and nothing exactly when no child has it |
| `Parser.LambdaParam` | src/stlc/parser.rs:36-41 | a lambda's parameter is the text of its last variable-name child, or "" when it has none |
| `Parser.Parse` | src/stlc/parser.rs:27-94 | any term the conversion gives is built only from literals and abstractions: no variable, conditional or application |
| `Parser.ParseAst` | src/stlc/parser.rs:27-94 | the recursive dispatch on the rule tag returns what `Parse` specifies; it has no `modifies` clause, so the context is untouched |
| `Parser.ParseLambdaArm` | src/stlc/parser.rs:34-56 | the loop over a lambda's children, in which the last variable name and the last converted term win, returns what `Parse` specifies for the lambda |
| `Parser.ParseFirstChild` | src/stlc/parser.rs:57-75 | the early-return loop gives the conversion of the first child with the wanted rule (an atom, or a bool), and nothing when there is none |
| `Parser.LastWithExtend` | src/stlc/parser.rs:38-48 | after one more child, the last match is that child when it has the rule, and otherwise the last match before it |
| `Parser.ParseBool` | src/stlc/parser.rs:76-83 | a bool node gives `true` for the text "true", `false` for "false", and nothing for any other text |
| `Parser.ParseTerm` | src/stlc/parser.rs:30-33 | a term node gives what its first child gives, and nothing when it has no children |
| `Parser.ParseLambda` | src/stlc/parser.rs:34-56 | a lambda gives an abstraction over its last term child, named by its last variable-name child; it gives nothing when there is no term child or the last one gives nothing |
| `Parser.ParseApplicationTerm` | src/stlc/parser.rs:57-65 | an application-term node gives what its first atom child gives, or nothing when it has none, and never gives an application |
| `Parser.ParseAtom` | src/stlc/parser.rs:67-75 | an atom node gives what its first bool child gives, skipping other children, or nothing when it has no bool child |
| `Parser.BoolsAndAbstractionsAreClosed` | src/stlc/parser.rs:53 | literals under abstractions mention no variable index |
| `Parser.ParsedTermsAreCheckable` | src/stlc/parser.rs:27-94 | whatever the conversion gives can be checked in any context without an index panic |
| `Scenario.MainScenario` | src/main.rs:11-26 | with `x : Bool` registered, the variable has type Bool, `fun x -> if x then true else false` has type Bool -> Bool, and the conditional has type Bool |
| `Scenario.ParseLiterals` | src/stlc/parser.rs:76-83 | the trees of "true" and "false" convert to the literals, which have type Bool in every context |
| `Scenario.ParsedAndBuiltAgree` | src/stlc/parser.rs:34-56 | the tree of `fun x -> false` converts to the abstraction the builder makes; with `x : Bool` declared, its type is Bool -> Bool |
| `Scenario.ConditionalsAreNotConverted` | src/stlc/parser.rs:66 | (documentation of `Admissible`'s definition) a conditional node, or a term whose first child is one, is outside what the conversion handles without a panic |
| `Scenario.VariableBodiesAreNotConverted` | src/stlc/parser.rs:67-75 | `fun x -> x` converts to nothing, because an atom holding a variable name has no bool child |
| `Scenario.ParseLambdaTree` | src/stlc/parser.rs:30-56 | a term over a lambda with one variable-name child and one term child converts to an abstraction over what that child gives, named by the variable name |
| `Scenario.ParseTreeOf` | src/stlc/parser.rs:27-94 | every literal-and-abstraction term is what the tree of its own surface text converts to, so a built term and the conversion of the same sentence agree |

## Left out

- The grammar file, the pest-generated parser and `STLCParser::parse`. The
  grammar is not part of this model. Trees are given as `Pair` values, and the
  example trees in `scenario.dfy` assume a shape for what the grammar produces.
- The `parse()` stub. It returns an empty list and does no work.
- The parser's test functions. They only print.
- All `println!` output, and the printing in `main`. Output is I/O.
  `MainScenario` returns the three results that `main` prints.
- The commented-out line-editor loop in `main`.
- Panics (`todo!()`, `unreachable!()`, indexing past the end of the `Vec`).
  These become preconditions (`Admissible`, `IndicesBelow`, `index < |entries|`)
  rather than behaviour.
- `Contexts.Context.CheckType`: its precondition `IndicesBelow` asks that every
  variable index in the term be in range, which is stronger than what avoids the
  panic. The checker stops at the first failure, so it never indexes the
  branches of a conditional whose condition fails, nor the argument of an
  application whose function fails. For example,
  `TConditional(TAbstraction("y", TTrue), TVariable(5), TTrue)` in an empty
  context gives "Bad condition type" without a panic, but the model does not
  admit that input. Every term `main` builds and every term the parser returns
  meets the precondition (`ParsedTermsAreCheckable`).
- The `FnOnce` callback of `TermBuilder::lambda`. `Lambda` takes the finished
  body instead. A callback that also registers variables is modelled by calling
  `VarTyped`/`Var` before `Lambda`.
- `usize` overflow of `next_index` and of indices. Both are unbounded `nat`.
- `Clone` and `Box`. Terms and types are immutable values here.
- Lexical scoping, shadowing, and converting declarations and conditionals do
  not exist in the code, so they are not modelled.
