// Reference semantics of the special forms, as functions of the raw argument forms,
// the scope chain of the active context and the evaluator; and what they promise.
//
// The generic evaluator, generic application and the closure builders are not part
// of this core: they are the fields of an `Evaluator`, given as total functions of
// the scope chain they run in.

module FormSpecs {
  import opened Wrappers
  import opened Values
  import opened Contexts
  import opened FnClauses

  /** The outcome of building a macro. */
  datatype Built = Built(macro: Callable) | BuildFailed(error: EvalError)

  /** The host interpreter as seen from the special forms. */
  datatype Evaluator = Evaluator(
    eval: (Value, Scope) -> EvalResult,
    apply: (Value, seq<Value>, Scope) -> EvalResult,
    buildFunction: (seq<SingleFn>, Option<string>, Scope) -> EvalResult,
    buildMacro: (seq<SingleFn>, string, Scope) -> Built)

  // ---------------------------------------------------------------- quote, if

  /** `quote`: the first form, unevaluated; `Nil` without one. */
  function QuoteForm(args: seq<Value>, env: Scope, ev: Evaluator): (r: EvalResult)
    ensures r.Success?
    ensures |args| > 0 ==> r.value == args[0]
    ensures |args| == 0 ==> r.value == Nil
  {
    if |args| == 0 then Success(Nil) else Success(args[0])
  }

  /** Quoting consults neither the evaluator nor the context: no form is evaluated. */
  lemma QuoteEvaluatesNothing(args: seq<Value>, env1: Scope, env2: Scope, ev1: Evaluator, ev2: Evaluator)
    ensures QuoteForm(args, env1, ev1) == QuoteForm(args, env2, ev2)
  {
  }

  /** Truthiness: `Nil` and `false` are false, everything else is true. */
  predicate Truthy(v: Value)
    ensures Truthy(v) <==> v != Nil && v != Bool(false)
  {
    match v
    case Nil => false
    case Bool(x) => x
    case _ => true
  }

  /** `if`. */
  function IfForm(args: seq<Value>, env: Scope, ev: Evaluator): (r: EvalResult)
    ensures |args| != 2 && |args| != 3 ==> r == Failure(ArityError)
    ensures (|args| == 2 || |args| == 3) && !ev.eval(args[0], env).Success? ==> r == ev.eval(args[0], env)
    ensures (|args| == 2 || |args| == 3) && ev.eval(args[0], env).Success? ==>
              var t := ev.eval(args[0], env).value;
              r == if t != Nil && t != Bool(false) then ev.eval(args[1], env)
                   else if |args| == 3 then ev.eval(args[2], env)
                   else Success(Nil)
  {
    if |args| != 2 && |args| != 3 then Failure(ArityError)
    else
      Next(ev.eval(args[0], env), testForm =>
        if Truthy(testForm) then ev.eval(args[1], env)
        else if |args| == 3 then ev.eval(args[2], env)
        else Success(Nil))
  }

  // ---------------------------------------------------------------- sequencing

  /** The index of the first form that does not evaluate to a success, or the length. */
  function FirstNonSuccess(forms: seq<Value>, env: Scope, ev: Evaluator): (k: nat)
    ensures k <= |forms|
    ensures forall j :: 0 <= j < k ==> ev.eval(forms[j], env).Success?
    ensures k < |forms| ==> !ev.eval(forms[k], env).Success?
    decreases |forms|
  {
    if |forms| == 0 then 0
    else if ev.eval(forms[0], env).Success? then 1 + FirstNonSuccess(forms[1..], env, ev)
    else 0
  }

  /** The index of the first form that does not evaluate to a failure, or the length. */
  function FirstNonFailure(forms: seq<Value>, env: Scope, ev: Evaluator): (k: nat)
    ensures k <= |forms|
    ensures forall j :: 0 <= j < k ==> ev.eval(forms[j], env).Failure?
    ensures k < |forms| ==> !ev.eval(forms[k], env).Failure?
    decreases |forms|
  {
    if |forms| == 0 then 0
    else if ev.eval(forms[0], env).Failure? then 1 + FirstNonFailure(forms[1..], env, ev)
    else 0
  }

  /** `do`, form by form. */
  function DoSpec(forms: seq<Value>, env: Scope, ev: Evaluator): EvalResult
    decreases |forms|
  {
    if |forms| == 0 then Success(Nil)
    else
      match ev.eval(forms[0], env)
      case Success(v) => if |forms| == 1 then Success(v) else DoSpec(forms[1..], env, ev)
      case Recur(_) => if |forms| == 1 then ev.eval(forms[0], env) else Failure(RecurMisuseError)
      case Failure(_) => ev.eval(forms[0], env)
  }

  /** `do` in closed form: `Nil` for no forms; the last value when all succeed; the first failure;
      a `Recur` only when it comes from the last form, `RecurMisuseError` from any other. */
  lemma {:induction false} DoOutcome(forms: seq<Value>, env: Scope, ev: Evaluator)
    ensures var k := FirstNonSuccess(forms, env, ev);
            DoSpec(forms, env, ev) ==
              if k == |forms| then (if k == 0 then Success(Nil) else ev.eval(forms[k - 1], env))
              else if ev.eval(forms[k], env).Failure? then ev.eval(forms[k], env)
              else if k == |forms| - 1 then ev.eval(forms[k], env)
              else Failure(RecurMisuseError)
    decreases |forms|
  {
    if |forms| > 1 && ev.eval(forms[0], env).Success? {
      var tail := forms[1..];
      DoOutcome(tail, env, ev);
      var k' := FirstNonSuccess(tail, env, ev);
      assert FirstNonSuccess(forms, env, ev) == k' + 1;
      if k' < |tail| {
        assert tail[k'] == forms[k' + 1];
      } else {
        assert tail[k' - 1] == forms[k'];
      }
    }
  }

  /** A failure stops `do`: forms after it are never evaluated, so they cannot change the result. */
  lemma DoStopsAtFailure(forms: seq<Value>, k: nat, later: seq<Value>, env: Scope, ev: Evaluator)
    requires k < |forms| && ev.eval(forms[k], env).Failure?
    requires forall j :: 0 <= j < k ==> ev.eval(forms[j], env).Success?
    ensures DoSpec(forms, env, ev) == ev.eval(forms[k], env)
    ensures DoSpec(forms[..k + 1] + later, env, ev) == ev.eval(forms[k], env)
  {
    var other := forms[..k + 1] + later;
    DoOutcome(forms, env, ev);
    DoOutcome(other, env, ev);
    FirstNonSuccessIs(forms, k, env, ev);
    assert forall j :: 0 <= j <= k ==> other[j] == forms[j];
    FirstNonSuccessIs(other, k, env, ev);
  }

  /** `do` yields `Recur` exactly when every form before the last succeeds and the last yields `Recur`. */
  lemma DoRecurOnlyFromLast(forms: seq<Value>, env: Scope, ev: Evaluator)
    ensures DoSpec(forms, env, ev).Recur? <==>
              && |forms| > 0
              && (forall j :: 0 <= j < |forms| - 1 ==> ev.eval(forms[j], env).Success?)
              && ev.eval(forms[|forms| - 1], env).Recur?
  {
    DoOutcome(forms, env, ev);
    if |forms| > 0 && (forall j :: 0 <= j < |forms| - 1 ==> ev.eval(forms[j], env).Success?)
       && ev.eval(forms[|forms| - 1], env).Recur? {
      FirstNonSuccessIs(forms, |forms| - 1, env, ev);
    }
  }

  /** The first non-success index is determined by the forms up to it. */
  lemma FirstNonSuccessIs(forms: seq<Value>, k: nat, env: Scope, ev: Evaluator)
    requires k < |forms| && !ev.eval(forms[k], env).Success?
    requires forall j :: 0 <= j < k ==> ev.eval(forms[j], env).Success?
    ensures FirstNonSuccess(forms, env, ev) == k
  {
  }

  /** The values of forms evaluated left to right, or the outcome that stopped the evaluation. */
  datatype Collected = Collected(values: seq<Value>) | Stopped(result: EvalResult)

  /** Evaluate argument forms left to right: a failure propagates, a `Recur` is a misuse. */
  function EvalAll(forms: seq<Value>, env: Scope, ev: Evaluator): Collected
    decreases |forms|
  {
    if |forms| == 0 then Collected([])
    else
      match ev.eval(forms[0], env)
      case Success(v) =>
        (match EvalAll(forms[1..], env, ev)
         case Collected(vs) => Collected([v] + vs)
         case stopped => stopped)
      case Recur(_) => Stopped(Failure(RecurMisuseError))
      case Failure(e) => Stopped(Failure(e))
  }

  /** Collecting succeeds exactly when every form succeeds, and then holds their values in order;
      otherwise the first non-success decides: its failure, or `RecurMisuseError` for a `Recur`. */
  lemma {:induction false} EvalAllOutcome(forms: seq<Value>, env: Scope, ev: Evaluator)
    ensures var k := FirstNonSuccess(forms, env, ev);
            && (EvalAll(forms, env, ev).Collected? <==> k == |forms|)
            && (EvalAll(forms, env, ev).Collected? ==>
                  |EvalAll(forms, env, ev).values| == |forms| &&
                  forall j :: 0 <= j < |forms| ==> ev.eval(forms[j], env) == Success(EvalAll(forms, env, ev).values[j]))
            && (k < |forms| ==>
                  EvalAll(forms, env, ev) ==
                    Stopped(if ev.eval(forms[k], env).Recur? then Failure(RecurMisuseError) else ev.eval(forms[k], env)))
    decreases |forms|
  {
    if |forms| > 0 && ev.eval(forms[0], env).Success? {
      var tail := forms[1..];
      EvalAllOutcome(tail, env, ev);
      var k' := FirstNonSuccess(tail, env, ev);
      if k' < |tail| {
        assert tail[k'] == forms[k' + 1];
      }
      if EvalAll(forms, env, ev).Collected? {
        var vs := EvalAll(forms, env, ev).values;
        forall j | 0 <= j < |forms| ensures ev.eval(forms[j], env) == Success(vs[j]) {
          if j > 0 {
            assert tail[j - 1] == forms[j];
          }
        }
      }
    }
  }

  /** When every form succeeds, collecting yields exactly their values. */
  lemma EvalAllSucceeds(forms: seq<Value>, values: seq<Value>, env: Scope, ev: Evaluator)
    requires |values| == |forms|
    requires forall j :: 0 <= j < |forms| ==> ev.eval(forms[j], env) == Success(values[j])
    ensures EvalAll(forms, env, ev) == Collected(values)
  {
    FirstNonSuccessIsLength(forms, env, ev);
    EvalAllOutcome(forms, env, ev);
    assert EvalAll(forms, env, ev).values == values;
  }

  /** Collecting stops at the first form that does not succeed. */
  lemma EvalAllStops(forms: seq<Value>, k: nat, env: Scope, ev: Evaluator)
    requires k < |forms| && !ev.eval(forms[k], env).Success?
    requires forall j :: 0 <= j < k ==> ev.eval(forms[j], env).Success?
    ensures EvalAll(forms, env, ev) ==
              Stopped(if ev.eval(forms[k], env).Recur? then Failure(RecurMisuseError) else ev.eval(forms[k], env))
  {
    FirstNonSuccessIs(forms, k, env, ev);
    EvalAllOutcome(forms, env, ev);
  }

  /** `recur`: the evaluated arguments, packaged as a `Recur` outcome. */
  function RecurSpec(forms: seq<Value>, env: Scope, ev: Evaluator): EvalResult
  {
    match EvalAll(forms, env, ev)
    case Collected(vs) => EvalResult.Recur(vs)
    case Stopped(r) => r
  }

  /** `recur` yields `Recur` of all argument values when they all succeed; otherwise the first
      failure, or `RecurMisuseError` when an argument itself yields `Recur`. */
  lemma RecurOutcome(forms: seq<Value>, env: Scope, ev: Evaluator)
    ensures var k := FirstNonSuccess(forms, env, ev);
            && (k == |forms| ==>
                  RecurSpec(forms, env, ev).Recur? && |RecurSpec(forms, env, ev).values| == |forms| &&
                  forall j :: 0 <= j < |forms| ==> ev.eval(forms[j], env) == Success(RecurSpec(forms, env, ev).values[j]))
            && (k < |forms| && ev.eval(forms[k], env).Failure? ==> RecurSpec(forms, env, ev) == ev.eval(forms[k], env))
            && (k < |forms| && ev.eval(forms[k], env).Recur? ==> RecurSpec(forms, env, ev) == Failure(RecurMisuseError))
  {
    EvalAllOutcome(forms, env, ev);
  }

  /** `attempt`, form by form. */
  function AttemptSpec(forms: seq<Value>, env: Scope, ev: Evaluator): EvalResult
    decreases |forms|
  {
    if |forms| == 0 then Failure(ArityError)
    else
      match ev.eval(forms[0], env)
      case Failure(_) => if |forms| == 1 then ev.eval(forms[0], env) else AttemptSpec(forms[1..], env, ev)
      case _ => ev.eval(forms[0], env)
  }

  /** `attempt` in closed form: the first success or `Recur`; when every form fails, the last form's error. */
  lemma {:induction false} AttemptOutcome(forms: seq<Value>, env: Scope, ev: Evaluator)
    requires |forms| > 0
    ensures var k := FirstNonFailure(forms, env, ev);
            AttemptSpec(forms, env, ev) == if k < |forms| then ev.eval(forms[k], env) else ev.eval(forms[|forms| - 1], env)
    ensures FirstNonFailure(forms, env, ev) == |forms| ==>
              AttemptSpec(forms, env, ev) == Failure(ev.eval(forms[|forms| - 1], env).error)
    decreases |forms|
  {
    if |forms| > 1 && ev.eval(forms[0], env).Failure? {
      var tail := forms[1..];
      AttemptOutcome(tail, env, ev);
      var k' := FirstNonFailure(tail, env, ev);
      if k' < |tail| {
        assert tail[k'] == forms[k' + 1];
      }
      assert tail[|tail| - 1] == forms[|forms| - 1];
    }
  }

  /** Once a form succeeds, the forms after it are never evaluated. */
  lemma AttemptStopsAtSuccess(forms: seq<Value>, k: nat, later: seq<Value>, env: Scope, ev: Evaluator)
    requires k < |forms| && !ev.eval(forms[k], env).Failure?
    requires forall j :: 0 <= j < k ==> ev.eval(forms[j], env).Failure?
    ensures AttemptSpec(forms, env, ev) == ev.eval(forms[k], env)
    ensures AttemptSpec(forms[..k + 1] + later, env, ev) == ev.eval(forms[k], env)
  {
    var other := forms[..k + 1] + later;
    AttemptOutcome(forms, env, ev);
    AttemptOutcome(other, env, ev);
    assert forall j :: 0 <= j <= k ==> other[j] == forms[j];
  }

  // ---------------------------------------------------------------- binding vectors

  /** The map built by binding `syms[i]` to `vals[i]` left to right (a later pair overwrites an earlier one). */
  function PairsMap(syms: seq<string>, vals: seq<Value>): map<string, Binding>
    requires |syms| == |vals|
    decreases |syms|
  {
    if |syms| == 0 then map[]
    else PairsMap(syms[..|syms| - 1], vals[..|vals| - 1])[syms[|syms| - 1] := Literal(vals[|vals| - 1])]
  }

  /** The map declares exactly the bound symbols. */
  lemma {:induction false} PairsMapKeys(syms: seq<string>, vals: seq<Value>)
    requires |syms| == |vals|
    ensures forall n :: n in PairsMap(syms, vals) <==> n in syms
    decreases |syms|
  {
    if |syms| > 0 {
      var n := |syms| - 1;
      PairsMapKeys(syms[..n], vals[..n]);
      assert syms == syms[..n] + [syms[n]];
    }
  }

  /** Each bound symbol maps to the value of the last pair naming it. */
  lemma {:induction false} PairsMapLastWins(syms: seq<string>, vals: seq<Value>, i: nat)
    requires |syms| == |vals| && i < |syms|
    requires forall j :: i < j < |syms| ==> syms[j] != syms[i]
    ensures syms[i] in PairsMap(syms, vals) && PairsMap(syms, vals)[syms[i]] == Literal(vals[i])
    decreases |syms|
  {
    var n := |syms| - 1;
    if i < n {
      assert syms[..n][i] == syms[i] && vals[..n][i] == vals[i];
      PairsMapLastWins(syms[..n], vals[..n], i);
    }
  }

  /** An empty binding map means no pair was bound. */
  lemma PairsMapEmpty(syms: seq<string>, vals: seq<Value>)
    requires |syms| == |vals|
    ensures |PairsMap(syms, vals)| == 0 <==> |syms| == 0
  {
    PairsMapKeys(syms, vals);
    if |syms| > 0 {
      assert syms[0] in PairsMap(syms, vals);
    }
  }

  /** Either every pair was bound (symbols and values in order), or the outcome that stopped binding. */
  datatype BindOutcome = Bound(syms: seq<string>, vals: seq<Value>) | Halted(result: EvalResult)

  /** Bind the pairs of a binding vector from pair `|syms|` on: each initializer is evaluated in a child
      of `env` holding exactly the bindings of the pairs before it. `recurIsMisuse` says whether an
      initializer's `Recur` becomes `RecurMisuseError` (`loop`) or is returned unchanged (`let`). */
  function BindPairs(vec: seq<Value>, syms: seq<string>, vals: seq<Value>, env: Scope, ev: Evaluator,
                     recurIsMisuse: bool): (r: BindOutcome)
    requires |vec| % 2 == 0 && |syms| == |vals| && 2 * |syms| <= |vec|
    ensures r.Bound? ==> |r.syms| == |r.vals| && 2 * |r.syms| == |vec|
    ensures r.Halted? ==> !r.result.Success? && (recurIsMisuse ==> !r.result.Recur?)
    decreases |vec| - 2 * |syms|
  {
    var i := 2 * |syms|;
    if i == |vec| then Bound(syms, vals)
    else
      match vec[i]
      case Symbol(s) =>
        (match ev.eval(vec[i + 1], [PairsMap(syms, vals)] + env)
         case Success(v) => BindPairs(vec, syms + [s], vals + [v], env, ev, recurIsMisuse)
         case Recur(_) =>
           Halted(if recurIsMisuse then Failure(RecurMisuseError) else ev.eval(vec[i + 1], [PairsMap(syms, vals)] + env))
         case Failure(_) => Halted(ev.eval(vec[i + 1], [PairsMap(syms, vals)] + env)))
      case _ => Halted(Failure(InvalidArgumentError))
  }

  /** One step of binding, unfolded: a non-symbol halts with `InvalidArgumentError`; an initializer
      that does not succeed halts; one that succeeds extends the bound prefix by one pair. */
  lemma BindPairsStep(vec: seq<Value>, syms: seq<string>, vals: seq<Value>, env: Scope, ev: Evaluator,
                      recurIsMisuse: bool)
    requires |vec| % 2 == 0 && |syms| == |vals| && 2 * |syms| < |vec|
    ensures 2 * |syms| + 1 < |vec|
    ensures !vec[2 * |syms|].Symbol? ==> BindPairs(vec, syms, vals, env, ev, recurIsMisuse) == Halted(Failure(InvalidArgumentError))
    ensures vec[2 * |syms|].Symbol? ==>
              var res := ev.eval(vec[2 * |syms| + 1], [PairsMap(syms, vals)] + env);
              && (res.Success? ==>
                    var s := vec[2 * |syms|].name;
                    && BindPairs(vec, syms, vals, env, ev, recurIsMisuse) == BindPairs(vec, syms + [s], vals + [res.value], env, ev, recurIsMisuse)
                    && PairsMap(syms + [s], vals + [res.value]) == PairsMap(syms, vals)[s := Literal(res.value)])
              && (!res.Success? ==>
                    BindPairs(vec, syms, vals, env, ev, recurIsMisuse) ==
                      Halted(if recurIsMisuse && res.Recur? then Failure(RecurMisuseError) else res))
  {
    if vec[2 * |syms|].Symbol? {
      var res := ev.eval(vec[2 * |syms| + 1], [PairsMap(syms, vals)] + env);
      if res.Success? {
        var s := vec[2 * |syms|].name;
        assert (syms + [s])[..|syms|] == syms && (vals + [res.value])[..|vals|] == vals;
      }
    }
  }

  /** Binding is complete once every pair is bound. */
  lemma BindPairsDone(vec: seq<Value>, syms: seq<string>, vals: seq<Value>, env: Scope, ev: Evaluator,
                      recurIsMisuse: bool)
    requires |vec| % 2 == 0 && |syms| == |vals| && 2 * |syms| == |vec|
    ensures BindPairs(vec, syms, vals, env, ev, recurIsMisuse) == Bound(syms, vals)
  {
  }

  /** The last pair of the bound prefix `syms`/`vals` was bound: its name is the pair's symbol, and
      its initializer succeeded in a child of `env` holding exactly the bindings of the pairs before it. */
  ghost predicate LastPairBound(vec: seq<Value>, syms: seq<string>, vals: seq<Value>, env: Scope, ev: Evaluator)
    requires 0 < |syms| == |vals| && 2 * |syms| <= |vec|
  {
    var i := |syms| - 1;
    && vec[2 * i] == Symbol(syms[i])
    && ev.eval(vec[2 * i + 1], [PairsMap(syms[..i], vals[..i])] + env) == Success(vals[i])
  }

  /** Every pair of the bound prefix was bound in order, as `LastPairBound` says. */
  ghost predicate BoundInOrder(vec: seq<Value>, syms: seq<string>, vals: seq<Value>, env: Scope, ev: Evaluator)
    requires |syms| == |vals| && 2 * |syms| <= |vec|
  {
    forall n :: 0 < n <= |syms| ==> LastPairBound(vec, syms[..n], vals[..n], env, ev)
  }

  /** Binding one more pair keeps the pairs bound in order. */
  lemma BoundInOrderExtend(vec: seq<Value>, syms: seq<string>, vals: seq<Value>, env: Scope, ev: Evaluator,
                           s: string, v: Value)
    requires |syms| == |vals| && 2 * |syms| + 2 <= |vec| && BoundInOrder(vec, syms, vals, env, ev)
    requires vec[2 * |syms|] == Symbol(s)
    requires ev.eval(vec[2 * |syms| + 1], [PairsMap(syms, vals)] + env) == Success(v)
    ensures BoundInOrder(vec, syms + [s], vals + [v], env, ev)
  {
    var s', v' := syms + [s], vals + [v];
    forall n | 0 < n <= |s'| ensures LastPairBound(vec, s'[..n], v'[..n], env, ev) {
      if n <= |syms| {
        assert s'[..n] == syms[..n] && v'[..n] == vals[..n];
      } else {
        assert s'[..n] == s' && v'[..n] == v';
        assert s'[..|syms|] == syms && v'[..|vals|] == vals;
      }
    }
  }

  /** Binding that runs to the end binds every pair, in order, as `BoundInOrder` says. */
  lemma {:induction false} BindPairsSound(vec: seq<Value>, syms: seq<string>, vals: seq<Value>, env: Scope,
                                          ev: Evaluator, recurIsMisuse: bool)
    requires |vec| % 2 == 0 && |syms| == |vals| && 2 * |syms| <= |vec|
    requires BoundInOrder(vec, syms, vals, env, ev)
    ensures BindPairs(vec, syms, vals, env, ev, recurIsMisuse).Bound? ==>
              var b := BindPairs(vec, syms, vals, env, ev, recurIsMisuse);
              BoundInOrder(vec, b.syms, b.vals, env, ev)
    decreases |vec| - 2 * |syms|
  {
    var i := 2 * |syms|;
    if i < |vec| && vec[i].Symbol? {
      var e := [PairsMap(syms, vals)] + env;
      if ev.eval(vec[i + 1], e).Success? {
        BoundInOrderExtend(vec, syms, vals, env, ev, vec[i].name, ev.eval(vec[i + 1], e).value);
        BindPairsSound(vec, syms + [vec[i].name], vals + [ev.eval(vec[i + 1], e).value], env, ev, recurIsMisuse);
      }
    }
  }

  /** `let`. */
  function LetSpec(args: seq<Value>, env: Scope, ev: Evaluator): EvalResult
  {
    if |args| == 0 then Failure(ArityError)
    else
      match args[0]
      case Vector(vec) =>
        if |vec| % 2 != 0 then Failure(BindingMismatchError)
        else
          (match BindPairs(vec, [], [], env, ev, false)
           case Halted(r) => r
           case Bound(syms, vals) =>
             if |args| == 1 then Success(Nil) else DoSpec(args[1..], [PairsMap(syms, vals)] + env, ev))
      case _ => Failure(InvalidArgumentError)
  }

  /** The body of `let` runs as a `do` in one child scope holding every pair's binding, each
      initializer having seen exactly the pairs before it. */
  lemma LetBody(args: seq<Value>, env: Scope, ev: Evaluator)
    requires |args| > 1 && args[0].Vector? && |args[0].elems| % 2 == 0
    requires BindPairs(args[0].elems, [], [], env, ev, false).Bound?
    ensures var b := BindPairs(args[0].elems, [], [], env, ev, false);
            && |b.syms| == |b.vals| && 2 * |b.syms| == |args[0].elems|
            && BoundInOrder(args[0].elems, b.syms, b.vals, env, ev)
            && LetSpec(args, env, ev) == DoSpec(args[1..], [PairsMap(b.syms, b.vals)] + env, ev)
  {
    BindPairsSound(args[0].elems, [], [], env, ev, false);
  }

  /** The scope one iteration of a loop body runs in: the enclosing scope itself when the loop has
      no bindings, otherwise a single child of it (iterations never nest). */
  function IterationScope(reuse: bool, frame: map<string, Binding>, env: Scope): (s: Scope)
    ensures |env| <= |s| <= |env| + 1
  {
    if reuse then env else [frame] + env
  }

  /** Every iteration runs directly on top of the enclosing scope: at most the one loop frame is
      added, and every other name resolves as it does outside the loop. */
  lemma IterationScopeOnTop(reuse: bool, frame: map<string, Binding>, env: Scope, name: string)
    ensures IterationScope(reuse, frame, env)[|IterationScope(reuse, frame, env)| - |env|..] == env
    ensures !reuse && name in frame ==> Resolve(IterationScope(reuse, frame, env), name) == frame[name]
    ensures reuse || name !in frame ==> Resolve(IterationScope(reuse, frame, env), name) == Resolve(env, name)
  {
    if !reuse {
      ChildLookup(frame, env, name);
      assert ([frame] + env)[1..] == env;
    }
  }

  /** The trampoline: run the body; on a `Recur` of the right arity rebind the loop symbols
      positionally in a fresh child of the enclosing scope and run again, at most `fuel` more times. */
  function Trampoline(forms: seq<Value>, syms: seq<string>, reuse: bool, frame: map<string, Binding>,
                      env: Scope, ev: Evaluator, fuel: nat): Option<EvalResult>
    decreases fuel
  {
    match DoSpec(forms, IterationScope(reuse, frame, env), ev)
    case Recur(vs) =>
      if |vs| != |syms| then Some(Failure(ArityError))
      else if fuel == 0 then None
      else Trampoline(forms, syms, reuse, PairsMap(syms, vs), env, ev, fuel - 1)
    case r => Some(r)
  }

  /** One turn of the trampoline, unfolded. */
  lemma TrampolineUnfold(forms: seq<Value>, syms: seq<string>, reuse: bool, frame: map<string, Binding>,
                         env: Scope, ev: Evaluator, fuel: nat)
    ensures Trampoline(forms, syms, reuse, frame, env, ev, fuel) ==
              var res := DoSpec(forms, IterationScope(reuse, frame, env), ev);
              if !res.Recur? then Some(res)
              else if |res.values| != |syms| then Some(Failure(ArityError))
              else if fuel == 0 then None
              else Trampoline(forms, syms, reuse, PairsMap(syms, res.values), env, ev, fuel - 1)
  {
  }

  /** More fuel never changes a result reached with less. */
  lemma {:induction false} TrampolineFuel(forms: seq<Value>, syms: seq<string>, reuse: bool, frame: map<string, Binding>,
                                          env: Scope, ev: Evaluator, fuel: nat, more: nat)
    requires fuel <= more
    requires Trampoline(forms, syms, reuse, frame, env, ev, fuel).Some?
    ensures Trampoline(forms, syms, reuse, frame, env, ev, more) == Trampoline(forms, syms, reuse, frame, env, ev, fuel)
    decreases fuel
  {
    match DoSpec(forms, IterationScope(reuse, frame, env), ev)
    case Recur(vs) =>
      if |vs| == |syms| {
        TrampolineFuel(forms, syms, reuse, PairsMap(syms, vs), env, ev, fuel - 1, more - 1);
      }
    case _ =>
  }

  /** A loop result is never a `Recur`: the trampoline consumes every one. */
  lemma {:induction false} TrampolineNeverRecurs(forms: seq<Value>, syms: seq<string>, reuse: bool,
                                                 frame: map<string, Binding>, env: Scope, ev: Evaluator, fuel: nat)
    ensures Trampoline(forms, syms, reuse, frame, env, ev, fuel).Some? ==>
              !Trampoline(forms, syms, reuse, frame, env, ev, fuel).value.Recur?
    decreases fuel
  {
    match DoSpec(forms, IterationScope(reuse, frame, env), ev)
    case Recur(vs) =>
      if |vs| == |syms| && fuel > 0 {
        TrampolineNeverRecurs(forms, syms, reuse, PairsMap(syms, vs), env, ev, fuel - 1);
      }
    case _ =>
  }

  /** `loop`, allowed `fuel` re-runs of its body; `None` when the body still recurs after them. */
  function LoopSpec(args: seq<Value>, env: Scope, ev: Evaluator, fuel: nat): Option<EvalResult>
  {
    if |args| == 0 then Some(Failure(ArityError))
    else
      match args[0]
      case Vector(vec) =>
        if |vec| % 2 != 0 then Some(Failure(BindingMismatchError))
        else
          (match BindPairs(vec, [], [], env, ev, true)
           case Halted(r) => Some(r)
           case Bound(syms, vals) =>
             var frame := PairsMap(syms, vals);
             Trampoline(if |args| > 1 then args[1..] else [], syms, |frame| == 0, frame, env, ev, fuel))
      case _ => Some(Failure(InvalidArgumentError))
  }

  /** The loop result is never `Recur`; the body's first run sees the bindings made as `let` makes them,
      and reuses the enclosing scope exactly when there are none. */
  lemma LoopOutcome(args: seq<Value>, env: Scope, ev: Evaluator, fuel: nat)
    ensures LoopSpec(args, env, ev, fuel).Some? ==> !LoopSpec(args, env, ev, fuel).value.Recur?
    ensures |args| > 0 && args[0].Vector? && |args[0].elems| % 2 == 0 && BindPairs(args[0].elems, [], [], env, ev, true).Bound? ==>
              var b := BindPairs(args[0].elems, [], [], env, ev, true);
              && BoundInOrder(args[0].elems, b.syms, b.vals, env, ev)
              && (|PairsMap(b.syms, b.vals)| == 0 <==> |args[0].elems| == 0)
  {
    if |args| > 0 && args[0].Vector? && |args[0].elems| % 2 == 0 {
      var vec := args[0].elems;
      BindPairsSound(vec, [], [], env, ev, true);
      match BindPairs(vec, [], [], env, ev, true)
      case Halted(_) =>
      case Bound(syms, vals) =>
        PairsMapEmpty(syms, vals);
        TrampolineNeverRecurs(if |args| > 1 then args[1..] else [], syms, |PairsMap(syms, vals)| == 0,
                              PairsMap(syms, vals), env, ev, fuel);
    }
  }

  /** A prefix of pairs bound in order was itself bound in order. */
  lemma BoundInOrderPrefix(vec: seq<Value>, syms: seq<string>, vals: seq<Value>, env: Scope, ev: Evaluator, n: nat)
    requires |syms| == |vals| && 2 * |syms| <= |vec| && n <= |syms|
    requires BoundInOrder(vec, syms, vals, env, ev)
    ensures BoundInOrder(vec, syms[..n], vals[..n], env, ev)
  {
    forall k | 0 < k <= n ensures LastPairBound(vec, syms[..n][..k], vals[..n][..k], env, ev) {
      assert syms[..n][..k] == syms[..k] && vals[..n][..k] == vals[..k];
    }
  }

  /** Binding from scratch reaches any prefix whose pairs were bound in order, and goes on from there. */
  lemma {:induction false} BindPairsResume(vec: seq<Value>, syms: seq<string>, vals: seq<Value>, env: Scope,
                                           ev: Evaluator, recurIsMisuse: bool)
    requires |vec| % 2 == 0 && |syms| == |vals| && 2 * |syms| <= |vec|
    requires BoundInOrder(vec, syms, vals, env, ev)
    ensures BindPairs(vec, [], [], env, ev, recurIsMisuse) == BindPairs(vec, syms, vals, env, ev, recurIsMisuse)
    decreases |syms|
  {
    if |syms| > 0 {
      var n := |syms| - 1;
      var syms', vals' := syms[..n], vals[..n];
      BoundInOrderPrefix(vec, syms, vals, env, ev, n);
      BindPairsResume(vec, syms', vals', env, ev, recurIsMisuse);
      assert syms[..|syms|] == syms && vals[..|vals|] == vals;
      assert LastPairBound(vec, syms, vals, env, ev);
      assert syms' + [syms[n]] == syms && vals' + [vals[n]] == vals;
      BindPairsExtend(vec, syms', vals', env, ev, recurIsMisuse, syms[n], vals[n]);
    }
  }

  /** A pair whose initializer succeeds extends the bound prefix by that pair. */
  lemma BindPairsExtend(vec: seq<Value>, syms: seq<string>, vals: seq<Value>, env: Scope, ev: Evaluator,
                        recurIsMisuse: bool, s: string, v: Value)
    requires |vec| % 2 == 0 && |syms| == |vals| && 2 * |syms| + 2 <= |vec|
    requires vec[2 * |syms|] == Symbol(s)
    requires ev.eval(vec[2 * |syms| + 1], [PairsMap(syms, vals)] + env) == Success(v)
    ensures BindPairs(vec, syms, vals, env, ev, recurIsMisuse) == BindPairs(vec, syms + [s], vals + [v], env, ev, recurIsMisuse)
  {
  }

  /** The quirk between `let` and `loop`: once the pairs before it are bound, an initializer's `Recur`
      is returned unchanged by `let` but is a `RecurMisuseError` in `loop`. */
  lemma InitializerRecur(vec: seq<Value>, syms: seq<string>, vals: seq<Value>, body: seq<Value>, env: Scope,
                         ev: Evaluator, fuel: nat)
    requires |vec| % 2 == 0 && |syms| == |vals| && 2 * |syms| < |vec|
    requires BoundInOrder(vec, syms, vals, env, ev)
    requires vec[2 * |syms|].Symbol?
    requires ev.eval(vec[2 * |syms| + 1], [PairsMap(syms, vals)] + env).Recur?
    ensures LetSpec([Vector(vec)] + body, env, ev) == ev.eval(vec[2 * |syms| + 1], [PairsMap(syms, vals)] + env)
    ensures LoopSpec([Vector(vec)] + body, env, ev, fuel) == Some(Failure(RecurMisuseError))
  {
    BindPairsResume(vec, syms, vals, env, ev, false);
    BindPairsResume(vec, syms, vals, env, ev, true);
    BindPairsStep(vec, syms, vals, env, ev, false);
    BindPairsStep(vec, syms, vals, env, ev, true);
    assert ([Vector(vec)] + body)[0] == Vector(vec);
  }

  /** Every binding made from a binding vector is a literal. */
  lemma {:induction false} PairsMapLiterals(syms: seq<string>, vals: seq<Value>)
    requires |syms| == |vals|
    ensures forall x :: x in PairsMap(syms, vals) ==> PairsMap(syms, vals)[x].Literal?
    decreases |syms|
  {
    if |syms| > 0 {
      var n := |syms| - 1;
      PairsMapLiterals(syms[..n], vals[..n]);
    }
  }

  /** A frame of bound pairs on top of a chain never stores the lookup-miss marker. */
  lemma PairsMapNoInvalid(syms: seq<string>, vals: seq<Value>, env: Scope)
    requires |syms| == |vals| && NoInvalidStored(env)
    ensures NoInvalidStored([PairsMap(syms, vals)] + env)
  {
    PairsMapLiterals(syms, vals);
    var s := [PairsMap(syms, vals)] + env;
    forall i, x | 0 <= i < |s| && x in s[i] ensures s[i][x] != Invalid {
      if i > 0 {
        assert s[i] == env[i - 1];
      }
    }
  }

  // ---------------------------------------------------------------- apply

  /** The arguments a collection contributes in splice position; `mapEntries` stands for the
      `[key value]` vectors of a map, in the unspecified order the map is iterated in. */
  function Splice(last: Value, mapEntries: seq<Value>): Option<seq<Value>>
  {
    match last
    case List(l) => if |l| > 0 then Some(l) else None
    case Vector(v) => Some(v)
    case MapLit(_) => Some(mapEntries)
    case _ => None
  }

  /** `s` holds one `[key value]` vector per entry of `m` and nothing else. */
  ghost predicate EnumeratesEntries(m: map<Value, Value>, s: seq<Value>)
  {
    && |s| == |m|
    && (forall k :: k in m ==> Vector([k, m[k]]) in s)
    && (forall x :: x in s ==> exists k :: k in m && x == Vector([k, m[k]]))
  }

  /** The tail of `apply` once the callable `f` and the leading values `lead` are known: splice the
      outcome of the final argument and apply. */
  function SpliceAndApply(f: Value, lead: seq<Value>, last: EvalResult, env: Scope, ev: Evaluator,
                          mapEntries: seq<Value>): EvalResult
  {
    match last
    case Success(collection) =>
      (match Splice(collection, mapEntries)
       case None => Failure(InvalidArgumentError)
       case Some(tail) => ev.apply(f, lead + tail, env))
    case Recur(_) => Failure(RecurMisuseError)
    case Failure(e) => Failure(e)
  }

  /** `apply`: evaluate the callable, the leading arguments and the collection; splice; apply. */
  function ApplySpec(args: seq<Value>, env: Scope, ev: Evaluator, mapEntries: seq<Value>): EvalResult
  {
    if |args| < 2 then Failure(ArityError)
    else
      Next(ev.eval(args[0], env), f =>
        match EvalAll(args[1..|args| - 1], env, ev)
        case Stopped(r) => r
        case Collected(lead) => SpliceAndApply(f, lead, ev.eval(args[|args| - 1], env), env, ev, mapEntries))
  }

  /** When the callable and every argument evaluate, `apply` calls the callable with the leading
      values followed by the collection's elements; an empty list or a non-collection is rejected. */
  lemma ApplyArguments(args: seq<Value>, env: Scope, ev: Evaluator, mapEntries: seq<Value>)
    requires |args| >= 2 && ev.eval(args[0], env).Success? && ev.eval(args[|args| - 1], env).Success?
    requires forall j :: 1 <= j < |args| - 1 ==> ev.eval(args[j], env).Success?
    ensures var lead := seq(|args| - 2, j requires 0 <= j < |args| - 2 => ev.eval(args[j + 1], env).value);
            var last := ev.eval(args[|args| - 1], env).value;
            ApplySpec(args, env, ev, mapEntries) ==
              match Splice(last, mapEntries)
              case None => Failure(InvalidArgumentError)
              case Some(tail) => ev.apply(ev.eval(args[0], env).value, lead + tail, env)
  {
    var leading := args[1..|args| - 1];
    FirstNonSuccessIsLength(leading, env, ev);
    EvalAllOutcome(leading, env, ev);
    var lead := seq(|args| - 2, j requires 0 <= j < |args| - 2 => ev.eval(args[j + 1], env).value);
    assert EvalAll(leading, env, ev).values == lead;
  }

  /** `apply` on its error paths: fewer than two forms is an `ArityError`; a callable that does not
      evaluate is passed through; otherwise the first leading argument that does not succeed decides
      (its failure, or `RecurMisuseError` for a `Recur`), and then the final argument likewise. */
  lemma ApplyErrors(args: seq<Value>, env: Scope, ev: Evaluator, mapEntries: seq<Value>)
    ensures |args| < 2 ==> ApplySpec(args, env, ev, mapEntries) == Failure(ArityError)
    ensures |args| >= 2 && !ev.eval(args[0], env).Success? ==> ApplySpec(args, env, ev, mapEntries) == ev.eval(args[0], env)
    ensures |args| >= 2 && ev.eval(args[0], env).Success? ==>
              var k := FirstNonSuccess(args[1..|args| - 1], env, ev);
              var bad := if k < |args| - 2 then ev.eval(args[k + 1], env) else ev.eval(args[|args| - 1], env);
              (k < |args| - 2 || !bad.Success?) ==>
                ApplySpec(args, env, ev, mapEntries) == if bad.Recur? then Failure(RecurMisuseError) else bad
  {
    if |args| >= 2 && ev.eval(args[0], env).Success? {
      var leading := args[1..|args| - 1];
      EvalAllOutcome(leading, env, ev);
      var k := FirstNonSuccess(leading, env, ev);
      if k < |leading| {
        assert leading[k] == args[k + 1];
      }
    }
  }

  /** The first non-failure index is determined by the forms up to it. */
  lemma FirstNonFailureIs(forms: seq<Value>, k: nat, env: Scope, ev: Evaluator)
    requires k < |forms| && !ev.eval(forms[k], env).Failure?
    requires forall j :: 0 <= j < k ==> ev.eval(forms[j], env).Failure?
    ensures FirstNonFailure(forms, env, ev) == k
  {
  }

  lemma FirstNonFailureIsLength(forms: seq<Value>, env: Scope, ev: Evaluator)
    requires forall j :: 0 <= j < |forms| ==> ev.eval(forms[j], env).Failure?
    ensures FirstNonFailure(forms, env, ev) == |forms|
  {
  }

  lemma FirstNonSuccessIsLength(forms: seq<Value>, env: Scope, ev: Evaluator)
    requires forall j :: 0 <= j < |forms| ==> ev.eval(forms[j], env).Success?
    ensures FirstNonSuccess(forms, env, ev) == |forms|
  {
  }

  // ---------------------------------------------------------------- def, fn, defmacro

  /** `def`: the result and the scope chain afterwards. `def` itself writes only the root map, and
      only on success; writes made while evaluating the initializer are not captured. */
  function DefSpec(args: seq<Value>, env: Scope, ev: Evaluator): (r: (EvalResult, Scope))
    requires |env| > 0
    ensures |r.1| == |env| && r.1[..|env| - 1] == env[..|env| - 1]
    ensures !r.0.Success? ==> r.1 == env
  {
    if |args| < 1 then (Failure(ArityError), env)
    else
      match args[0]
      case Symbol(s) =>
        if |args| > 1 then
          (match ev.eval(args[1], env)
           case Success(v) => (Success(args[0]), SetGlobal(env, s, Literal(v)))
           case Recur(_) => (Failure(RecurMisuseError), env)
           case Failure(_) => (ev.eval(args[1], env), env))
        else if Resolve(env, s) == Invalid then (Success(args[0]), SetGlobal(env, s, Unbound))
        else (Success(args[0]), env)
      case _ => (Failure(InvalidArgumentError), env)
  }

  /** A successful `def` returns the symbol, changes no scope but the root, and afterwards the name
      resolves to the initializer's value when no inner scope shadows it. */
  lemma DefWithInitializer(args: seq<Value>, env: Scope, ev: Evaluator)
    requires |env| > 0 && |args| > 1 && args[0].Symbol?
    requires DefSpec(args, env, ev).0.Success?
    requires forall i :: 0 <= i < |env| - 1 ==> args[0].name !in env[i]
    ensures DefSpec(args, env, ev).0 == Success(args[0])
    ensures DefSpec(args, env, ev).1[..|env| - 1] == env[..|env| - 1]
    ensures ev.eval(args[1], env).Success? &&
            Resolve(DefSpec(args, env, ev).1, args[0].name) == Literal(ev.eval(args[1], env).value)
  {
    SetGlobalResolve(env, args[0].name, Literal(ev.eval(args[1], env).value), args[0].name);
  }

  /** `def` without an initializer declares an undeclared name as `Unbound` and leaves a declared one alone. */
  lemma DefWithoutInitializer(name: string, env: Scope, ev: Evaluator)
    requires |env| > 0 && NoInvalidStored(env)
    ensures DefSpec([Symbol(name)], env, ev).0 == Success(Symbol(name))
    ensures Resolve(env, name) != Invalid ==> DefSpec([Symbol(name)], env, ev).1 == env
    ensures Resolve(env, name) == Invalid ==> Resolve(DefSpec([Symbol(name)], env, ev).1, name) == Unbound
  {
    ResolveValid(env, name);
    SetGlobalResolve(env, name, Unbound, name);
  }

  /** Neither `def` nor `defmacro` ever stores the lookup-miss marker, so the premise of
      `DefWithoutInitializer` holds along every chain built from the default table. */
  lemma DefinitionsStoreNoInvalid(args: seq<Value>, env: Scope, ev: Evaluator)
    requires |env| > 0 && NoInvalidStored(env)
    ensures NoInvalidStored(DefSpec(args, env, ev).1)
    ensures NoInvalidStored(DefmacroSpec(args, env, ev).1)
  {
    if |args| > 0 && args[0].Symbol? {
      var s := args[0].name;
      SetGlobalNoInvalid(env, s, Unbound);
      if |args| > 1 && ev.eval(args[1], env).Success? {
        SetGlobalNoInvalid(env, s, Literal(ev.eval(args[1], env).value));
      }
      if |args| >= 2 && AritiesOf(args[1..], MacroType).Some? {
        var m := ev.buildMacro(AritiesOf(args[1..], MacroType).value, s, env);
        if m.Built? {
          SetGlobalNoInvalid(env, s, BoundMacro(m.macro));
        }
      }
    }
  }

  /** The name a `fn`/`defmacro` form starts with, if it starts with a symbol. */
  function LeadingName(args: seq<Value>): Option<string>
  {
    if |args| > 0 && args[0].Symbol? then Some(args[0].name) else None
  }

  /** The arities of a `fn`/`defmacro` body: one `[params] body...` clause, or a list of clauses. */
  function AritiesOf(rest: seq<Value>, fnType: FnType): Option<seq<SingleFn>>
    requires |rest| > 0
  {
    if rest[0].Vector? then
      match BuildSingleFnFor(Vector(rest), fnType)
      case Some(single) => Some([single])
      case None => None
    else AritiesSpec(rest, fnType)
  }

  /** `fn`, up to the closure builder. A lone name `(fn foo)` indexes past the end of its arguments
      and is excluded. */
  function FnSpec(args: seq<Value>, env: Scope, ev: Evaluator): EvalResult
    requires !(|args| == 1 && args[0].Symbol?)
  {
    if |args| == 0 then Failure(ArityError)
    else
      var name := LeadingName(args);
      var rest := if name.None? then args else args[1..];
      match AritiesOf(rest, FunctionType)
      case Some(arities) => ev.buildFunction(arities, name, env)
      case None => Failure(InvalidArgumentError)
  }

  /** A single-arity `fn` hands the builder the parameters and body it was written with,
      the optional name, and the defining scope. */
  lemma FnSingleArity(name: Option<string>, p: ParamList, body: seq<Value>, env: Scope, ev: Evaluator)
    requires WellFormed(p)
    ensures var args := (if name.Some? then [Symbol(name.value)] else []) + [Vector(Encode(p))] + body;
            FnSpec(args, env, ev) == ev.buildFunction([SingleFn(FunctionType, p.fixed, body, p.variadic)], name, env)
  {
    var args := (if name.Some? then [Symbol(name.value)] else []) + [Vector(Encode(p))] + body;
    var rest := [Vector(Encode(p))] + body;
    assert (if name.None? then args else args[1..]) == rest;
    DecodeEncode(p);
    assert [Vector(Encode(p))] + body == [Vector(Encode(p))] + rest[1..];
  }

  /** `defmacro`: the result and the scope chain afterwards; the macro is bound at the root. */
  function DefmacroSpec(args: seq<Value>, env: Scope, ev: Evaluator): (r: (EvalResult, Scope))
    requires |env| > 0
    ensures |r.1| == |env| && r.1[..|env| - 1] == env[..|env| - 1]
    ensures !r.0.Success? ==> r.1 == env
  {
    if |args| < 2 then (Failure(ArityError), env)
    else
      match args[0]
      case Symbol(name) =>
        (match AritiesOf(args[1..], MacroType)
         case None => (Failure(InvalidArgumentError), env)
         case Some(arities) =>
           match ev.buildMacro(arities, name, env)
           case Built(m) => (Success(args[0]), SetGlobal(env, name, BoundMacro(m)))
           case BuildFailed(e) => (Failure(e), env))
      case _ => (Failure(InvalidArgumentError), env)
  }

  /** A successful `defmacro` returns its name and binds the built macro at the root: the name then
      resolves to it wherever no inner scope shadows it. */
  lemma DefmacroBinds(args: seq<Value>, env: Scope, ev: Evaluator)
    requires |env| > 0 && DefmacroSpec(args, env, ev).0.Success?
    ensures |args| >= 2 && args[0].Symbol? && DefmacroSpec(args, env, ev).0 == Success(args[0])
    ensures AritiesOf(args[1..], MacroType).Some?
    ensures var m := ev.buildMacro(AritiesOf(args[1..], MacroType).value, args[0].name, env);
            && m.Built?
            && DefmacroSpec(args, env, ev).1 == SetGlobal(env, args[0].name, BoundMacro(m.macro))
            && ((forall i :: 0 <= i < |env| - 1 ==> args[0].name !in env[i]) ==>
                  Resolve(DefmacroSpec(args, env, ev).1, args[0].name) == BoundMacro(m.macro))
  {
    var m := ev.buildMacro(AritiesOf(args[1..], MacroType).value, args[0].name, env);
    SetGlobalResolve(env, args[0].name, BoundMacro(m.macro), args[0].name);
  }

  // ---------------------------------------------------------------- dispatch

  /** What invoking a special form does: its result (`None` only for a loop that ran out of fuel)
      and the scope chain afterwards; `mapEntries` is the map order `apply` sees. No form other than
      `def` and `defmacro` writes the chain itself, and those two write only its root. Writes made by
      the sub-forms a form evaluates are not captured: the evaluator here has no effects. */
  function FormSemantics(form: SpecialForm, args: seq<Value>, env: Scope, ev: Evaluator, fuel: nat,
                         mapEntries: seq<Value>): (r: (Option<EvalResult>, Scope))
    requires |env| > 0
    requires form == Fn ==> !(|args| == 1 && args[0].Symbol?)
    ensures form != Def && form != Defmacro ==> r.1 == env
    ensures |r.1| == |env| && r.1[..|env| - 1] == env[..|env| - 1]
    ensures form != Loop ==> r.0.Some?
  {
    match form
    case Quote => (Some(QuoteForm(args, env, ev)), env)
    case If => (Some(IfForm(args, env, ev)), env)
    case Do => (Some(DoSpec(args, env, ev)), env)
    case Def => (Some(DefSpec(args, env, ev).0), DefSpec(args, env, ev).1)
    case Let => (Some(LetSpec(args, env, ev)), env)
    case Fn => (Some(FnSpec(args, env, ev)), env)
    case Defmacro => (Some(DefmacroSpec(args, env, ev).0), DefmacroSpec(args, env, ev).1)
    case Loop => (LoopSpec(args, env, ev, fuel), env)
    case Recur => (Some(RecurSpec(args, env, ev)), env)
    case Apply => (Some(ApplySpec(args, env, ev, mapEntries)), env)
    case Attempt => (Some(AttemptSpec(args, env, ev)), env)
  }
}
