# Lambdatron special forms, contexts and parameters in Dafny

This project models the evaluation core of Lambdatron, a small Lisp interpreter written in Swift.
It has three parts.

- **Special forms** (`Lambdatron/specialforms.swift`). These are `quote`, `if`, `do`, `def`, `let`, `fn`,
  `defmacro`, `loop`, `recur`, `apply` and `attempt`, plus the helpers `extractParameters` and
  `buildSingleFnFor`. Each form maps its raw argument forms and a context to a three-way outcome:
  `Success(value)`, `Recur(values)` or `Failure(error)`.
- **Contexts** (`Lambdatron/context.swift`). A context is a scope with a mutable binding map and an
  optional parent. Lookup walks the chain innermost-first, the setter writes locally, and
  `setTopLevelBinding` writes into the root.
- **Parameters** (`Lambdatron/parameters.swift`). `Params` is an argument container with eight inline
  slots and an overflow array. It also serves as its own generator.

## Layout

- `values.dfy`
  - `Wrappers`: `Option`.
  - `Values`: runtime values, error kinds, the three-way `EvalResult`, the special-form name table and
    `next`.
- `context.dfy` (`Contexts`)
  - `Binding`.
  - The value-level view of a chain: `Scope`, a sequence of maps from innermost to root. `Resolve`
    looks a name up and `SetGlobal` writes into the root.
  - The `Context` class. Each operation is proved against those functions.
- `params.dfy` (`Parameters`): the `Params` class, proved against its ghost `Contents` sequence.
- `fnclauses.dfy` (`FnClauses`): parameter-vector parsing and clause building. It includes the
  reference `ParameterSpec`, its inverse `Encode` and the loops that implement them.
- `formspecs.dfy` (`FormSpecs`)
  - The reference semantics of every special form, as functions of the argument forms, the chain
    the form runs in and an `Evaluator`.
  - The lemmas that state what the forms promise.
- `specialforms.dfy` (`SpecialForms`)
  - The forms as the interpreter runs them: loops over the arguments, child contexts allocated for
    `let` and `loop`, and root writes for `def` and `defmacro`.
  - Each method is proved to compute its reference function.

The generic evaluator (`evaluate`), generic application (`Cons.apply`) and the closure builders
(`Function.buildFunction`, `Macro.buildMacro`) are not part of this core. They are the four fields of an
`Evaluator` value. Each field is a total function of the scope chain it runs in, and every form takes
an `Evaluator` as a parameter.

The special forms call a context API (`setVar`, `varIsValid`, `buildContext`, `symbolForName`) that
differs from the `Context` class in `context.swift`. The model follows the class and maps the calls
onto it:
- `setVar` is the global write `SetTopLevelBinding`, since `def` is documented as binding a global.
- `varIsValid` is `NameIsValid`.
- `buildContext(parent:bindings:)` is the `Child` constructor.
- Symbols are plain strings, and `"&"` is the reserved variadic marker.

A `BoundMacro` binding case is added for `defmacro`.

## Model

| member | source | states |
|---|---|---|
| Values.Next | Lambdatron/specialforms.swift:367 | the result combinator: a success continues with its value; any other outcome is passed through unchanged |
| Values.FormNamed | Lambdatron/specialforms.swift:14-27 | a name is recognised as a special form only when it is exactly that form's raw value |
| Values.FormNameRoundTrip | Lambdatron/specialforms.swift:14-27 | every special form is recognised from its own name, so no two forms share a name |
| Contexts.Resolve | Lambdatron/context.swift:52-62 | reference lookup over a chain, innermost scope first, `Invalid` once the chain is exhausted; characterised by `ResolveInnermost` |
| Contexts.SetGlobal | Lambdatron/context.swift:27-34 | reference root write: the chain keeps its length and every map but the root, and the root gains the binding |
| Contexts.ResolveInnermost | Lambdatron/context.swift:52-62 | lookup yields the binding of the innermost scope declaring the name, and `Invalid` when no scope on the chain declares it |
| Contexts.ResolveValid | Lambdatron/context.swift:52-62 | when no scope stores `Invalid`, lookup misses exactly when no scope on the chain declares the name |
| Contexts.ChildLookup | Lambdatron/context.swift:98-101 | a child's own entries shadow its ancestors; every other name resolves as in the parent chain |
| Contexts.SetGlobalResolve | Lambdatron/context.swift:27-34 | after a root write the name resolves to the new binding unless an inner scope shadows it; every other name resolves as before |
| Contexts.SetGlobalNoInvalid | Lambdatron/context.swift:27-34 | a root write of a real binding never stores `Invalid` |
| Contexts.DefaultChainNoInvalid | Lambdatron/context.swift:86-90 | the chain of a fresh global context stores no `Invalid` |
| Contexts.DefaultBindings | Lambdatron/context.swift:68-84 | the default table declares exactly the eleven names cons, first, rest, print, =, >, <, +, -, *, /, each bound to a built-in |
| Contexts.Context.IsTopLevel | Lambdatron/context.swift:22-25 | a context is top level exactly when it is the root of its own chain |
| Contexts.Context.Get | Lambdatron/context.swift:52-62 | the getter agrees with lookup over the context's chain (own map first, then the parent, `Invalid` past the root) |
| Contexts.Context.Set | Lambdatron/context.swift:63-65 | the setter updates only this context's own map; every ancestor map in the chain is unchanged |
| Contexts.Context.SetTopLevelBinding | Lambdatron/context.swift:27-34 | the new chain is the old one with only the root map updated; no intermediate scope changes |
| Contexts.Context.NameIsValid | Lambdatron/context.swift:36-42 | true exactly when lookup does not miss; when no scope stores `Invalid`, exactly when some scope declares the name |
| Contexts.Context.NameIsUnbound | Lambdatron/context.swift:44-50 | true exactly when the innermost declaration of the name is `Unbound` |
| Contexts.Context.Top | Lambdatron/context.swift:92-95 | the private initialiser builds a root with an empty map |
| Contexts.Context.Child | Lambdatron/context.swift:98-101 | a child holds exactly the given map on top of its parent's chain and copies nothing from its ancestors |
| Contexts.Context.SetupDefaultBindings | Lambdatron/context.swift:68-84 | the own map gains the eleven built-in bindings, keeping every other entry |
| Contexts.Context.GlobalContextInstance | Lambdatron/context.swift:86-90 | a fresh root whose only map is exactly the default table |
| Parameters.Params.Empty | Lambdatron/parameters.swift:29 | a new container holds no parameters |
| Parameters.Params.One | Lambdatron/parameters.swift:31-34 | the one-argument initialiser holds that value, count 1 |
| Parameters.Params.Two | Lambdatron/parameters.swift:36-39 | the two-argument initialiser holds both values in order, count 2 |
| Parameters.Params.Three | Lambdatron/parameters.swift:41-44 | the three-argument initialiser holds the three values in order, count 3 |
| Parameters.Params.Get | Lambdatron/parameters.swift:110-122 | index i below count yields the i-th appended value, whether it sits in a slot or in the overflow array |
| Parameters.Params.First | Lambdatron/parameters.swift:70-72 | nothing for an empty container, otherwise the first appended value |
| Parameters.Params.Last | Lambdatron/parameters.swift:75-77 | nothing for an empty container, otherwise the most recently appended value |
| Parameters.Params.Append | Lambdatron/parameters.swift:91-108 | the contents gain exactly the new value at the end, so count grows by one and earlier indices are unchanged; the slot layout stays valid |
| Parameters.Params.Next | Lambdatron/parameters.swift:128-135 | yields the value under the cursor and advances it; once the cursor reaches count, yields nothing and stays put |
| Parameters.Params.AsArray | Lambdatron/parameters.swift:81-87 | the values a generator copy yields, in order; for a fresh cursor, count elements with element i equal to index i |
| Parameters.Params.Rest | Lambdatron/parameters.swift:47-58 | a new container holding everything after the first yielded value; empty for an empty container |
| Parameters.Params.PrefixedBy | Lambdatron/parameters.swift:61-67 | a new container holding the prefix followed by this container's values; the receiver is untouched |
| FnClauses.ParameterSpec | Lambdatron/specialforms.swift:436-458 | reference parameter parsing; inverted by `Encode`, as `DecodeEncode` and `EncodeDecode` state |
| FnClauses.ClauseItems | Lambdatron/specialforms.swift:463-469 | the forms of a clause: a list's items or a vector's elements, nothing otherwise |
| FnClauses.AritiesSpec | Lambdatron/specialforms.swift:221-230 | reference arity list; characterised by `AritiesSpecClauses` |
| FnClauses.ExtractParameters | Lambdatron/specialforms.swift:436-458 | computes `ParameterSpec`: nothing if any element is not a symbol or `&` appears anywhere other than second-to-last; a trailing `& v` names the variadic parameter |
| FnClauses.DecodeEncode | Lambdatron/specialforms.swift:436-458 | every well-formed parameter list is read back from the vector that denotes it |
| FnClauses.EncodeDecode | Lambdatron/specialforms.swift:436-458 | every accepted vector denotes a well-formed parameter list and is exactly the vector of that list |
| FnClauses.BuildSingleFnFor | Lambdatron/specialforms.swift:462-485 | an empty clause or a non-vector first item gives nothing; an accepted clause is a parameter vector followed by the body forms; every clause headed by a well-formed parameter vector is accepted |
| FnClauses.AritiesSpecClauses | Lambdatron/specialforms.swift:221-230 | the arity list exists exactly when every clause parses, and then holds each clause's arity in order |
| FnClauses.CollectArities | Lambdatron/specialforms.swift:259-267 | the arity loop of `fn` and `defmacro` computes that arity list and stops at the first clause that does not parse |
| FormSpecs.DoSpec | Lambdatron/specialforms.swift:95-109 | reference `do`; its closed form is `DoOutcome` |
| FormSpecs.EvalAll | Lambdatron/specialforms.swift:349-357 | reference left-to-right argument evaluation; its closed form is `EvalAllOutcome` |
| FormSpecs.RecurSpec | Lambdatron/specialforms.swift:346-359 | reference `recur`; its closed form is `RecurOutcome` |
| FormSpecs.AttemptSpec | Lambdatron/specialforms.swift:416-429 | reference `attempt`; its closed form is `AttemptOutcome` |
| FormSpecs.PairsMap | Lambdatron/specialforms.swift:178 | the bindings made by a sequence of pairs; characterised by `PairsMapKeys` and `PairsMapLastWins` |
| FormSpecs.LetSpec | Lambdatron/specialforms.swift:154-200 | reference `let`; described by `LetBody` and `InitializerRecur` |
| FormSpecs.IterationScope | Lambdatron/specialforms.swift:320-333 | the chain one loop iteration runs in: the enclosing chain, or one frame on top of it |
| FormSpecs.Trampoline | Lambdatron/specialforms.swift:321-338 | reference loop body driver; described by `TrampolineFuel` and `TrampolineNeverRecurs` |
| FormSpecs.LoopSpec | Lambdatron/specialforms.swift:285-341 | reference `loop`; described by `LoopOutcome` |
| FormSpecs.Splice | Lambdatron/specialforms.swift:387-403 | the arguments a collection contributes: a non-empty list's items, a vector's elements, a map's entries; nothing otherwise |
| FormSpecs.SpliceAndApply | Lambdatron/specialforms.swift:383-409 | reference tail of `apply` once the callable and leading values are known |
| FormSpecs.ApplySpec | Lambdatron/specialforms.swift:362-412 | reference `apply`; described by `ApplyArguments` and `ApplyErrors` |
| FormSpecs.LeadingName | Lambdatron/specialforms.swift:211 | the optional name a `fn` form starts with |
| FormSpecs.AritiesOf | Lambdatron/specialforms.swift:212-231 | the arities of a `fn`/`defmacro` body: one clause when it starts with a vector, otherwise a list of clauses |
| FormSpecs.FnSpec | Lambdatron/specialforms.swift:207-233 | reference `fn`; described by `FnSingleArity` and `AritiesSpecClauses` |
| FormSpecs.QuoteForm | Lambdatron/specialforms.swift:53-59 | `quote` always succeeds, with the first form unevaluated, or `Nil` without one |
| FormSpecs.QuoteEvaluatesNothing | Lambdatron/specialforms.swift:53-59 | the result of `quote` depends neither on the evaluator nor on the context, so no form is evaluated |
| FormSpecs.Truthy | Lambdatron/specialforms.swift:73-79 | a test value is false exactly when it is `Nil` or `false` |
| FormSpecs.IfForm | Lambdatron/specialforms.swift:62-92 | an argument count other than 2 or 3 gives `ArityError`; a test that does not succeed is passed through; a truthy test selects the then-form, otherwise the else-form or `Nil` |
| FormSpecs.DoOutcome | Lambdatron/specialforms.swift:95-109 | `do` gives `Nil` for no forms, the last value when all succeed, the first failure, and a `Recur` only from the last form (`RecurMisuseError` from any other) |
| FormSpecs.DoStopsAtFailure | Lambdatron/specialforms.swift:104-105 | a failure ends `do`, and replacing the forms after it does not change the result |
| FormSpecs.DoRecurOnlyFromLast | Lambdatron/specialforms.swift:102-103 | `do` yields `Recur` exactly when every form before the last succeeds and the last yields `Recur` |
| FormSpecs.EvalAllOutcome | Lambdatron/specialforms.swift:349-357 | evaluating arguments left to right collects every value in order exactly when all succeed; otherwise the first non-success decides: its failure, or `RecurMisuseError` for a `Recur` |
| FormSpecs.RecurOutcome | Lambdatron/specialforms.swift:346-359 | `recur` yields `Recur` of all argument values in order when they all succeed; otherwise the first failure, or `RecurMisuseError` when an argument yields `Recur` |
| FormSpecs.AttemptOutcome | Lambdatron/specialforms.swift:416-429 | `attempt` yields the first success or `Recur`; when every form fails, the last form's error |
| FormSpecs.AttemptStopsAtSuccess | Lambdatron/specialforms.swift:421-427 | once a form does not fail, `attempt` returns it and the forms after it cannot affect the result |
| FormSpecs.PairsMapKeys | Lambdatron/specialforms.swift:166-185 | the bindings map declares exactly the bound symbols |
| FormSpecs.PairsMapLastWins | Lambdatron/specialforms.swift:178 | each symbol is bound to the value of the last pair naming it |
| FormSpecs.PairsMapEmpty | Lambdatron/specialforms.swift:320 | the bindings map is empty exactly when no pair was bound |
| FormSpecs.BindPairs | Lambdatron/specialforms.swift:166-185 | binding either binds every pair or halts with a non-success; in `loop` mode a halt is never a `Recur` |
| FormSpecs.BindPairsSound | Lambdatron/specialforms.swift:168-185 | when binding completes, pair i is a symbol whose initializer succeeded in a child scope holding exactly the bindings of pairs 0..i-1 |
| FormSpecs.LetBody | Lambdatron/specialforms.swift:186-196 | the `let` body runs as `do` in one child scope holding every pair's binding, each initializer having seen exactly the pairs before it |
| FormSpecs.InitializerRecur | Lambdatron/specialforms.swift:176-180 | once pairs 0..i-1 are bound in order, a `Recur` from initializer i is returned unchanged by `let`, while `loop` turns it into `RecurMisuseError` (lines 307-308) |
| FormSpecs.BindPairsResume | Lambdatron/specialforms.swift:168-185 | binding from the first pair passes through every prefix of pairs bound in order, and continues from there |
| FormSpecs.PairsMapLiterals | Lambdatron/specialforms.swift:178 | every binding a binding vector makes is a literal |
| FormSpecs.PairsMapNoInvalid | Lambdatron/specialforms.swift:187 | a child holding bound pairs on top of a chain without `Invalid` entries stores no `Invalid` either |
| FormSpecs.IterationScopeOnTop | Lambdatron/specialforms.swift:320-333 | every loop iteration runs directly on the enclosing scope: with no bindings on it alone, otherwise on one fresh child holding the loop frame, so iterations never nest |
| FormSpecs.TrampolineFuel | Lambdatron/specialforms.swift:321-338 | more iterations allowed never change a loop result already reached |
| FormSpecs.TrampolineNeverRecurs | Lambdatron/specialforms.swift:321-338 | the trampoline consumes every `Recur`, so a loop result is never a `Recur` |
| FormSpecs.LoopOutcome | Lambdatron/specialforms.swift:285-341 | `loop` never returns `Recur`; its bindings are made as `let` makes them; the enclosing scope is reused exactly when the binding vector is empty |
| FormSpecs.ApplyArguments | Lambdatron/specialforms.swift:362-412 | when every argument evaluates, `apply` calls the callable with the leading values followed by the collection's elements; an empty list or a non-collection is rejected |
| FormSpecs.ApplyErrors | Lambdatron/specialforms.swift:362-406 | fewer than two forms is an `ArityError`; a callable that does not evaluate is passed through; otherwise the first leading argument that does not succeed decides, then the final one, with a `Recur` reported as `RecurMisuseError` |
| FormSpecs.DefSpec | Lambdatron/specialforms.swift:112-150 | reference `def`: `def` itself writes only the root map, and writes nothing when it does not succeed; writes made while the initializer is evaluated are outside the model |
| FormSpecs.DefWithInitializer | Lambdatron/specialforms.swift:127-138 | a successful `def` with an initializer returns the symbol, and afterwards the name resolves to the initializer's value wherever no inner scope shadows it |
| FormSpecs.DefinitionsStoreNoInvalid | Lambdatron/specialforms.swift:132 | neither `def` nor `defmacro` stores `Invalid`, so the premise of `DefWithoutInitializer` is kept along every chain |
| FormSpecs.DefWithoutInitializer | Lambdatron/specialforms.swift:139-146 | `def` without an initializer returns the symbol, declares an undeclared name as `Unbound`, and leaves a declared one alone |
| FormSpecs.FnSingleArity | Lambdatron/specialforms.swift:211-218 | a single-arity `fn` hands the builder exactly the parameters and body it was written with, its optional name and the defining scope |
| FormSpecs.DefmacroSpec | Lambdatron/specialforms.swift:237-279 | reference `defmacro`: it writes only the root map, and writes nothing when it does not succeed |
| FormSpecs.DefmacroBinds | Lambdatron/specialforms.swift:237-279 | a successful `defmacro` had a symbol name and parseable arities, returns the name, and binds the built macro at the root, where it resolves wherever not shadowed |
| FormSpecs.FormSemantics | Lambdatron/specialforms.swift:28-42 | no form other than `def` and `defmacro` writes the chain itself, and those two write only its root; every form but `loop` always produces a result. Writes made by evaluated sub-forms are outside the model |
| SpecialForms.DoForm | Lambdatron/specialforms.swift:95-109 | the `do` loop computes the reference `do`, whose closed form `DoOutcome` gives |
| SpecialForms.RecurForm | Lambdatron/specialforms.swift:346-359 | the `recur` loop computes the reference `recur` described by `RecurOutcome` |
| SpecialForms.AttemptForm | Lambdatron/specialforms.swift:416-429 | the `attempt` loop computes the reference `attempt` described by `AttemptOutcome` |
| SpecialForms.ApplyForm | Lambdatron/specialforms.swift:362-412 | computes the reference `apply` for the order in which a final map was iterated, and that order lists each map entry once as a `[key value]` vector |
| SpecialForms.SpliceCollection | Lambdatron/specialforms.swift:383-409 | splices a non-empty list, a vector or a map after the leading values and applies; rejects anything else; passes a failure through and turns `Recur` into a misuse |
| SpecialForms.MapEntries | Lambdatron/specialforms.swift:397-400 | iterating a map yields one `[key value]` vector per entry and nothing else |
| SpecialForms.EvalInChild | Lambdatron/specialforms.swift:175 | an initializer is evaluated in a fresh child of the context holding exactly the bindings so far |
| SpecialForms.BindPairsIn | Lambdatron/specialforms.swift:166-185 | the binding loop of `let` and `loop` computes the reference binding outcome, and its map is the bindings of the bound pairs |
| SpecialForms.LetForm | Lambdatron/specialforms.swift:154-200 | `let` computes the reference `let` described by `LetBody` and `InitializerRecur` |
| SpecialForms.LoopForm | Lambdatron/specialforms.swift:285-341 | `loop` computes the reference `loop` described by `LoopOutcome` |
| SpecialForms.RunLoop | Lambdatron/specialforms.swift:318-338 | the `while true` body loop computes the trampoline: stop on success or failure, `ArityError` on a `Recur` of the wrong arity, otherwise rebind and run again |
| SpecialForms.RunIteration | Lambdatron/specialforms.swift:322 | one run of the body is a `do` in the iteration scope |
| SpecialForms.IterationContext | Lambdatron/specialforms.swift:320 | the iteration context is the enclosing context itself when the loop has no bindings, otherwise a fresh child of it |
| SpecialForms.Rebind | Lambdatron/specialforms.swift:329-332 | rebinding binds the i-th loop symbol to the i-th `recur` value |
| SpecialForms.DefForm | Lambdatron/specialforms.swift:112-150 | `def` produces the reference result and chain described by `DefSpec`, `DefWithInitializer` and `DefWithoutInitializer` |
| SpecialForms.FnForm | Lambdatron/specialforms.swift:207-233 | `fn` computes the reference `fn` described by `FnSingleArity` and `AritiesSpecClauses` |
| SpecialForms.DefmacroForm | Lambdatron/specialforms.swift:237-279 | `defmacro` produces the reference result and chain described by `DefmacroSpec` and `DefmacroBinds` |
| SpecialForms.Invoke | Lambdatron/specialforms.swift:28-42 | dispatching a form runs its implementation and produces its reference semantics, including the chain afterwards; for `apply` on a map, the spliced arguments list each entry once as a `[key value]` vector |

## Left out

- The generic evaluator, `Cons.apply`, `Function.buildFunction` and `Macro.buildMacro` are not part of this model. They are the four fields of an `Evaluator`.
- FnClauses.ClauseItems: `Cons.collectSymbols` is not part of this model. A list clause is taken to yield its items in order and never to fail, which is what lists as sequences give.
- Sub-form evaluation is side-effect free here: evaluating a form cannot change any context. So a `def` nested in a `let` body, or a `def` inside an initializer that later fails, writes nothing in the model. The frame properties of `FormSemantics`, `DefSpec` and `DefmacroSpec` speak only of the writes a form makes itself.
- `next` (the result combinator used by `if` and `apply`) is not part of this model. `Values.Next` states the behaviour the forms rely on.
- Arity dispatch, variadic binding at call time and macro expansion are not part of this model. They happen inside the unmodelled builders.
- The built-in primitives (`pr_cons`, `pr_plus` and the rest) are opaque identifiers in the root table.
- Float, character, keyword and other literal kinds are not modelled. They do not affect the control logic of the forms.
- Lists are modelled as sequences rather than cons chains.
- Symbols are strings; interning (`symbolForName`, `nameForSymbol`) is left out.
- Printing and the `Printable`/`description` conformances are left out, as is the description of a form.
- LoopForm: the `while true` trampoline runs with a `fuel` bound. The result `None` means the body still recurred after that many re-runs, so a loop that never ends is not represented.
- FnForm: requires that the form is not a lone name `(fn foo)`. In the source that input indexes the first element of an empty array and traps.
- FnSpec: carries the same exclusion of the lone-name form.
- ApplyForm: the order in which a map is iterated is unspecified. The model only states that the spliced arguments list each entry once as a `[key value]` vector, and leaves the order as a ghost output.
- Parameters.Params.Rest, Parameters.Params.PrefixedBy and Parameters.Params.AsArray: they iterate a copy of the container, which keeps the generator cursor (`generate` returns `self`). They therefore start at the cursor, as the source does. Their contents are the whole container only when the cursor is at 0, as it is for every container not used as a generator.
- Parameters.Params.Get: an index at or beyond `count` traps in the source. The model requires the index to be below `count`.
- LetForm and LoopForm: each child context is allocated and then read only through its chain. Aliasing between children is not modelled beyond the chain equalities.
