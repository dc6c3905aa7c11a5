// The special forms as the interpreter runs them: loops over the argument forms,
// child contexts built for `let` and `loop`, global writes for `def` and `defmacro`.
// Each is proved to compute its reference semantics from `FormSpecs`.

module SpecialForms {
  import opened Wrappers
  import opened Values
  import opened Contexts
  import opened FnClauses
  import opened FormSpecs

  /** `do`: evaluate every form in the context, keeping the last value. */
  method DoForm(args: seq<Value>, ctx: Context, ev: Evaluator) returns (r: EvalResult)
    requires ctx.Valid()
    ensures r == DoSpec(args, ctx.Chain(), ev)
  {
    var env := ctx.Chain();
    DoOutcome(args, env, ev);
    var finalValue := Nil;
    for idx := 0 to |args|
      invariant forall j :: 0 <= j < idx ==> ev.eval(args[j], env).Success?
      invariant idx == 0 ==> finalValue == Nil
      invariant idx > 0 ==> ev.eval(args[idx - 1], env) == Success(finalValue)
    {
      var result := ev.eval(args[idx], env);
      match result {
        case Success(v) =>
          finalValue := v;
        case Recur(_) =>
          FirstNonSuccessIs(args, idx, env, ev);
          return if idx == |args| - 1 then result else Failure(RecurMisuseError);
        case Failure(_) =>
          FirstNonSuccessIs(args, idx, env, ev);
          return result;
      }
    }
    FirstNonSuccessIsLength(args, env, ev);
    return Success(finalValue);
  }

  /** `recur`: evaluate every argument, then package the values as a `Recur` outcome. */
  method RecurForm(args: seq<Value>, ctx: Context, ev: Evaluator) returns (r: EvalResult)
    requires ctx.Valid()
    ensures r == RecurSpec(args, ctx.Chain(), ev)
  {
    var env := ctx.Chain();
    var buffer: seq<Value> := [];
    for i := 0 to |args|
      invariant |buffer| == i
      invariant forall j :: 0 <= j < i ==> ev.eval(args[j], env) == Success(buffer[j])
    {
      var result := ev.eval(args[i], env);
      match result {
        case Success(v) =>
          buffer := buffer + [v];
        case Recur(_) =>
          EvalAllStops(args, i, env, ev);
          return Failure(RecurMisuseError);
        case Failure(_) =>
          EvalAllStops(args, i, env, ev);
          return result;
      }
    }
    EvalAllSucceeds(args, buffer, env, ev);
    return EvalResult.Recur(buffer);
  }

  /** `attempt`: evaluate forms until one does not fail; otherwise the last error. */
  method AttemptForm(args: seq<Value>, ctx: Context, ev: Evaluator) returns (r: EvalResult)
    requires ctx.Valid()
    ensures r == AttemptSpec(args, ctx.Chain(), ev)
  {
    var env := ctx.Chain();
    if |args| == 0 {
      return Failure(ArityError);
    }
    AttemptOutcome(args, env, ev);
    var error: Option<EvalError> := None;
    for idx := 0 to |args|
      invariant forall j :: 0 <= j < idx ==> ev.eval(args[j], env).Failure?
      invariant idx > 0 ==> error == Some(ev.eval(args[idx - 1], env).error)
    {
      var attempt := ev.eval(args[idx], env);
      match attempt {
        case Failure(e) =>
          error := Some(e);
        case _ =>
          FirstNonFailureIs(args, idx, env, ev);
          return attempt;
      }
    }
    FirstNonFailureIsLength(args, env, ev);
    return Failure(error.value);
  }

  /** `apply`: evaluate the callable, the leading arguments and the final collection, splice the
      collection's elements after the leading values, and apply. `spliced` is the order in which a
      map in final position was iterated. */
  method ApplyForm(args: seq<Value>, ctx: Context, ev: Evaluator) returns (r: EvalResult, ghost spliced: seq<Value>)
    requires ctx.Valid()
    ensures r == ApplySpec(args, ctx.Chain(), ev, spliced)
    ensures |args| >= 2 && ev.eval(args[0], ctx.Chain()).Success? &&
            EvalAll(args[1..|args| - 1], ctx.Chain(), ev).Collected? &&
            ev.eval(args[|args| - 1], ctx.Chain()).Success? &&
            ev.eval(args[|args| - 1], ctx.Chain()).value.MapLit? ==>
              EnumeratesEntries(ev.eval(args[|args| - 1], ctx.Chain()).value.entries, spliced)
  {
    spliced := [];
    var env := ctx.Chain();
    if |args| < 2 {
      return Failure(ArityError), spliced;
    }
    var first := ev.eval(args[0], env);
    if !first.Success? {
      return first, spliced;
    }
    ghost var leading := args[1..|args| - 1];
    var buffer: seq<Value> := [];
    for i := 1 to |args| - 1
      invariant |buffer| == i - 1
      invariant forall j :: 0 <= j < i - 1 ==> ev.eval(leading[j], env) == Success(buffer[j])
    {
      var res := ev.eval(args[i], env);
      assert leading[i - 1] == args[i];
      if !res.Success? {
        EvalAllStops(leading, i - 1, env, ev);
        return if res.Recur? then Failure(RecurMisuseError) else res, spliced;
      }
      buffer := buffer + [res.value];
    }
    EvalAllSucceeds(leading, buffer, env, ev);
    var last := ev.eval(args[|args| - 1], env);
    r, spliced := SpliceCollection(first.value, buffer, last, env, ev);
  }

  /** The tail of `apply`: splice the outcome of the final argument after the leading values and apply. */
  method SpliceCollection(f: Value, lead: seq<Value>, last: EvalResult, env: Scope, ev: Evaluator)
    returns (r: EvalResult, ghost spliced: seq<Value>)
    ensures r == SpliceAndApply(f, lead, last, env, ev, spliced)
    ensures last.Success? && last.value.MapLit? ==> EnumeratesEntries(last.value.entries, spliced)
  {
    spliced := [];
    var buffer := lead;
    match last {
      case Success(collection) =>
        match collection {
          case List(l) =>
            if |l| == 0 {
              return Failure(InvalidArgumentError), spliced;
            }
            buffer := buffer + l;
          case Vector(v) =>
            buffer := buffer + v;
          case MapLit(m) =>
            var entries := MapEntries(m);
            spliced := entries;
            buffer := buffer + entries;
          case _ =>
            return Failure(InvalidArgumentError), spliced;
        }
      case Recur(_) =>
        return Failure(RecurMisuseError), spliced;
      case Failure(_) =>
        return last, spliced;
    }
    r := ev.apply(f, buffer, env);
  }

  /** Iterate a map, producing one `[key value]` vector per entry in whatever order the keys are taken. */
  method MapEntries(m: map<Value, Value>) returns (entries: seq<Value>)
    ensures EnumeratesEntries(m, entries)
  {
    entries := [];
    var keys := m.Keys;
    while keys != {}
      invariant keys <= m.Keys
      invariant |entries| + |keys| == |m|
      invariant forall k :: k in m && k !in keys ==> Vector([k, m[k]]) in entries
      invariant forall x :: x in entries ==> exists k :: k in m && k !in keys && x == Vector([k, m[k]])
      decreases |keys|
    {
      var k :| k in keys;
      entries := entries + [Vector([k, m[k]])];
      keys := keys - {k};
    }
  }

  /** Evaluate a form in a fresh child of `ctx` holding exactly `bindings`. */
  method EvalInChild(form: Value, ctx: Context, bindings: map<string, Binding>, ev: Evaluator) returns (result: EvalResult)
    requires ctx.Valid()
    ensures result == ev.eval(form, [bindings] + ctx.Chain())
  {
    var scope := new Context.Child(ctx, bindings);
    result := ev.eval(form, scope.Chain());
  }

  /** `let`: bind the pairs one by one, each initializer evaluated in a fresh child of `ctx` holding
      the bindings so far; then run the body as a `do` in a child holding them all. */
  method LetForm(args: seq<Value>, ctx: Context, ev: Evaluator) returns (r: EvalResult)
    requires ctx.Valid()
    ensures r == LetSpec(args, ctx.Chain(), ev)
  {
    var env := ctx.Chain();
    if |args| == 0 {
      return Failure(ArityError);
    }
    if !args[0].Vector? {
      return Failure(InvalidArgumentError);
    }
    var bindingsVector := args[0].elems;
    if |bindingsVector| % 2 != 0 {
      return Failure(BindingMismatchError);
    }
    var symbols, newBindings, halted, vals := BindPairsIn(bindingsVector, ctx, ev, false);
    if halted.Some? {
      return halted.value;
    }
    var newContext := new Context.Child(ctx, newBindings);
    if |args| == 1 {
      return Success(Nil);
    }
    r := DoForm(args[1..], newContext, ev);
  }

  /** `loop`: bind the pairs as `let` does (an initializer's `Recur` is a misuse here), then run the
      body; on a `Recur` of the right arity rebind the symbols positionally in a fresh child of `ctx`
      (or reuse `ctx` when there are no bindings) and run it again. The body may recur `fuel` times;
      `None` means it still recurs after that. */
  method LoopForm(args: seq<Value>, ctx: Context, ev: Evaluator, fuel: nat) returns (r: Option<EvalResult>)
    requires ctx.Valid()
    ensures r == LoopSpec(args, ctx.Chain(), ev, fuel)
  {
    var env := ctx.Chain();
    if |args| == 0 {
      return Some(Failure(ArityError));
    }
    if !args[0].Vector? {
      return Some(Failure(InvalidArgumentError));
    }
    var bindingsVector := args[0].elems;
    if |bindingsVector| % 2 != 0 {
      return Some(Failure(BindingMismatchError));
    }
    var symbols, bindings, halted, vals := BindPairsIn(bindingsVector, ctx, ev, true);
    if halted.Some? {
      return halted;
    }
    r := RunLoop(if |args| > 1 then args[1..] else [], symbols, bindings, ctx, ev, fuel);
  }

  /** The binding phase of `let` and `loop`: bind the pairs in order, each initializer evaluated in a
      fresh child of `ctx` holding the bindings so far. `halted` carries the outcome that stopped
      binding (a `Recur` is a misuse when `recurIsMisuse`, as in `loop`); otherwise every pair was bound. */
  method BindPairsIn(bindingsVector: seq<Value>, ctx: Context, ev: Evaluator, recurIsMisuse: bool)
    returns (symbols: seq<string>, bindings: map<string, Binding>, halted: Option<EvalResult>, ghost vals: seq<Value>)
    requires ctx.Valid() && |bindingsVector| % 2 == 0
    ensures |symbols| == |vals| && bindings == PairsMap(symbols, vals)
    ensures BindPairs(bindingsVector, [], [], ctx.Chain(), ev, recurIsMisuse) ==
              if halted.Some? then Halted(halted.value) else Bound(symbols, vals)
  {
    var env := ctx.Chain();
    bindings, symbols, vals := map[], [], [];
    var ctr := 0;
    while ctr < |bindingsVector|
      invariant ctr == 2 * |symbols| <= |bindingsVector| && |symbols| == |vals|
      invariant bindings == PairsMap(symbols, vals)
      invariant BindPairs(bindingsVector, [], [], env, ev, recurIsMisuse) == BindPairs(bindingsVector, symbols, vals, env, ev, recurIsMisuse)
      decreases |bindingsVector| - ctr
    {
      BindPairsStep(bindingsVector, symbols, vals, env, ev, recurIsMisuse);
      if !bindingsVector[ctr].Symbol? {
        return symbols, bindings, Some(Failure(InvalidArgumentError)), vals;
      }
      var s := bindingsVector[ctr].name;
      var result := EvalInChild(bindingsVector[ctr + 1], ctx, bindings, ev);
      if !result.Success? {
        return symbols, bindings, Some(if recurIsMisuse && result.Recur? then Failure(RecurMisuseError) else result), vals;
      }
      bindings := bindings[s := Literal(result.value)];
      symbols, vals := symbols + [s], vals + [result.value];
      ctr := ctr + 2;
    }
    BindPairsDone(bindingsVector, symbols, vals, env, ev, recurIsMisuse);
    halted := None;
  }

  /** The body of `loop` once its pairs are bound: run it as a `do` and rebind on every `Recur`. */
  method RunLoop(forms: seq<Value>, symbols: seq<string>, bindings: map<string, Binding>,
                 ctx: Context, ev: Evaluator, fuel: nat)
    returns (r: Option<EvalResult>)
    requires ctx.Valid()
    ensures r == Trampoline(forms, symbols, |bindings| == 0, bindings, ctx.Chain(), ev, fuel)
  {
    var env := ctx.Chain();
    var reuse := |bindings| == 0;
    var frame := bindings;
    var remaining := fuel;
    while true
      invariant Trampoline(forms, symbols, reuse, frame, env, ev, remaining) == Trampoline(forms, symbols, reuse, bindings, env, ev, fuel)
      decreases remaining
    {
      TrampolineUnfold(forms, symbols, reuse, frame, env, ev, remaining);
      var result := RunIteration(forms, ctx, reuse, frame, ev);
      if !result.Recur? {
        return Some(result);
      }
      var newBindingValues := result.values;
      if |newBindingValues| != |symbols| {
        return Some(Failure(ArityError));
      }
      if remaining == 0 {
        return None;
      }
      frame := Rebind(symbols, newBindingValues);
      remaining := remaining - 1;
    }
  }

  /** One run of the loop body, as a `do` in the iteration's context. */
  method RunIteration(forms: seq<Value>, ctx: Context, reuse: bool, bindings: map<string, Binding>, ev: Evaluator)
    returns (result: EvalResult)
    requires ctx.Valid()
    ensures result == DoSpec(forms, IterationScope(reuse, bindings, ctx.Chain()), ev)
  {
    var context := IterationContext(ctx, reuse, bindings);
    result := DoForm(forms, context, ev);
  }

  /** The context one loop iteration runs in: `ctx` itself when the loop has no bindings,
      otherwise a fresh child of `ctx` holding `bindings`. */
  method IterationContext(ctx: Context, reuse: bool, bindings: map<string, Binding>) returns (context: Context)
    requires ctx.Valid()
    ensures context.Valid() && context.Chain() == IterationScope(reuse, bindings, ctx.Chain())
    ensures reuse ==> context == ctx
    ensures !reuse ==> fresh(context) && context.parent == ctx
  {
    if reuse {
      context := ctx;
    } else {
      context := new Context.Child(ctx, bindings);
    }
  }

  /** The rebinding step of `loop`: the i-th symbol to the i-th value, in order. */
  method Rebind(symbols: seq<string>, newBindingValues: seq<Value>) returns (newBindings: map<string, Binding>)
    requires |symbols| == |newBindingValues|
    ensures newBindings == PairsMap(symbols, newBindingValues)
  {
    newBindings := map[];
    for idx := 0 to |newBindingValues|
      invariant newBindings == PairsMap(symbols[..idx], newBindingValues[..idx])
    {
      assert symbols[..idx + 1][..idx] == symbols[..idx];
      assert newBindingValues[..idx + 1][..idx] == newBindingValues[..idx];
      newBindings := newBindings[symbols[idx] := Literal(newBindingValues[idx])];
    }
    assert symbols[..|symbols|] == symbols && newBindingValues[..|newBindingValues|] == newBindingValues;
  }

  /** `def`: bind a global, optionally to the value of an initializer evaluated in `ctx`. */
  method DefForm(args: seq<Value>, ctx: Context, ev: Evaluator) returns (r: EvalResult)
    requires ctx.Valid()
    modifies ctx.Root()
    ensures (r, ctx.Chain()) == DefSpec(args, old(ctx.Chain()), ev)
  {
    var env := ctx.Chain();
    if |args| < 1 {
      return Failure(ArityError);
    }
    var symbol := args[0];
    match symbol {
      case Symbol(s) =>
        if |args| > 1 {
          var result := ev.eval(args[1], env);
          match result {
            case Success(v) =>
              ctx.SetTopLevelBinding(s, Literal(v));
            case Recur(_) =>
              return Failure(RecurMisuseError);
            case Failure(_) =>
              return result;
          }
        } else if !ctx.NameIsValid(s) {
          ctx.SetTopLevelBinding(s, Unbound);
        }
        return Success(symbol);
      case _ =>
        return Failure(InvalidArgumentError);
    }
  }

  /** `fn`: an optional name, then one `[params] body...` arity or a list of arity clauses, handed to
      the closure builder with the defining context. */
  method FnForm(args: seq<Value>, ctx: Context, ev: Evaluator) returns (r: EvalResult)
    requires ctx.Valid()
    requires !(|args| == 1 && args[0].Symbol?)
    ensures r == FnSpec(args, ctx.Chain(), ev)
  {
    var env := ctx.Chain();
    if |args| == 0 {
      return Failure(ArityError);
    }
    var name := if args[0].Symbol? then Some(args[0].name) else None;
    var rest := if name.None? then args else args[1..];
    if rest[0].Vector? {
      var singleArity := BuildSingleFnFor(Vector(rest), FunctionType);
      if singleArity.Some? {
        return ev.buildFunction([singleArity.value], name, env);
      }
    } else {
      var arities := CollectArities(rest, FunctionType);
      if arities.Some? {
        return ev.buildFunction(arities.value, name, env);
      }
    }
    return Failure(InvalidArgumentError);
  }

  /** `defmacro`: a name and the arities, built into a macro that is bound at the root. */
  method DefmacroForm(args: seq<Value>, ctx: Context, ev: Evaluator) returns (r: EvalResult)
    requires ctx.Valid()
    modifies ctx.Root()
    ensures (r, ctx.Chain()) == DefmacroSpec(args, old(ctx.Chain()), ev)
  {
    var env := ctx.Chain();
    if |args| < 2 {
      return Failure(ArityError);
    }
    if !args[0].Symbol? {
      return Failure(InvalidArgumentError);
    }
    var name := args[0].name;
    var rest := args[1..];
    var arities: Option<seq<SingleFn>>;
    if rest[0].Vector? {
      var singleArity := BuildSingleFnFor(Vector(rest), MacroType);
      arities := if singleArity.Some? then Some([singleArity.value]) else None;
    } else {
      arities := CollectArities(rest, MacroType);
    }
    if arities.None? {
      return Failure(InvalidArgumentError);
    }
    var macroResult := ev.buildMacro(arities.value, name, env);
    match macroResult {
      case Built(m) =>
        ctx.SetTopLevelBinding(name, BoundMacro(m));
        return Success(args[0]);
      case BuildFailed(f) =>
        return Failure(f);
    }
  }

  /** The dispatch table from each special form to its implementation. */
  method Invoke(form: SpecialForm, args: seq<Value>, ctx: Context, ev: Evaluator, fuel: nat)
    returns (r: Option<EvalResult>, ghost mapEntries: seq<Value>)
    requires ctx.Valid()
    requires form == Fn ==> !(|args| == 1 && args[0].Symbol?)
    modifies ctx.Root()
    ensures (r, ctx.Chain()) == FormSemantics(form, args, old(ctx.Chain()), ev, fuel, mapEntries)
    ensures form == Apply && |args| >= 2 && ev.eval(args[0], old(ctx.Chain())).Success? &&
            EvalAll(args[1..|args| - 1], old(ctx.Chain()), ev).Collected? &&
            ev.eval(args[|args| - 1], old(ctx.Chain())).Success? &&
            ev.eval(args[|args| - 1], old(ctx.Chain())).value.MapLit? ==>
              EnumeratesEntries(ev.eval(args[|args| - 1], old(ctx.Chain())).value.entries, mapEntries)
  {
    mapEntries := [];
    var env := ctx.Chain();
    var res: EvalResult;
    match form {
      case Quote => res := QuoteForm(args, env, ev);
      case If => res := IfForm(args, env, ev);
      case Do => res := DoForm(args, ctx, ev);
      case Def => res := DefForm(args, ctx, ev);
      case Let => res := LetForm(args, ctx, ev);
      case Fn => res := FnForm(args, ctx, ev);
      case Defmacro => res := DefmacroForm(args, ctx, ev);
      case Loop =>
        r := LoopForm(args, ctx, ev, fuel);
        return;
      case Recur => res := RecurForm(args, ctx, ev);
      case Apply => res, mapEntries := ApplyForm(args, ctx, ev);
      case Attempt => res := AttemptForm(args, ctx, ev);
    }
    r := Some(res);
  }
}
