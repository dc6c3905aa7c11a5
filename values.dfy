// The runtime values of the interpreter, the outcome of evaluating a form,
// and the table of special-form names.

module Wrappers {
  datatype Option<+T> = None | Some(value: T)
}

module Values {
  import opened Wrappers

  /** The eleven special forms; the string is the name the reader matches exactly. */
  datatype SpecialForm =
    | Quote | If | Do | Def | Let | Fn | Defmacro | Loop | Recur | Apply | Attempt

  /** The raw value of each special form: its name in source text. */
  function FormName(f: SpecialForm): string
  {
    match f
    case Quote => "quote"
    case If => "if"
    case Do => "do"
    case Def => "def"
    case Let => "let"
    case Fn => "fn"
    case Defmacro => "defmacro"
    case Loop => "loop"
    case Recur => "recur"
    case Apply => "apply"
    case Attempt => "attempt"
  }

  /** Recognise a special form by exact name match (the enum's raw-value initialiser). */
  function FormNamed(name: string): (r: Option<SpecialForm>)
    ensures r.Some? ==> FormName(r.value) == name
  {
    if name == "quote" then Some(Quote)
    else if name == "if" then Some(If)
    else if name == "do" then Some(Do)
    else if name == "def" then Some(Def)
    else if name == "let" then Some(Let)
    else if name == "fn" then Some(Fn)
    else if name == "defmacro" then Some(Defmacro)
    else if name == "loop" then Some(Loop)
    else if name == "recur" then Some(SpecialForm.Recur)
    else if name == "apply" then Some(Apply)
    else if name == "attempt" then Some(Attempt)
    else None
  }

  /** The name table is a bijection between the forms and their names. */
  lemma FormNameRoundTrip(f: SpecialForm)
    ensures FormNamed(FormName(f)) == Some(f)
  {
  }

  /** Identifiers of the native operations bound in the root context. */
  datatype BuiltIn =
    | ConsOp | FirstOp | RestOp | PrintOp | EqualsOp | GtOp | LtOp
    | PlusOp | MinusOp | MultiplyOp | DivideOp

  /** An opaque handle to a function or macro produced by the (unmodelled) closure builder. */
  datatype Callable = Callable(id: nat)

  /** A runtime value. Lists are cons chains in the interpreter; here a list is the
      sequence of its cells' values (the empty list is the empty sequence). */
  datatype Value =
    | Nil
    | Bool(b: bool)
    | Int(i: int)
    | Str(s: string)
    | Symbol(name: string)
    | List(items: seq<Value>)
    | Vector(elems: seq<Value>)
    | MapLit(entries: map<Value, Value>)
    | FunctionV(fn: Callable)
    | BuiltInV(op: BuiltIn)
    | Special(form: SpecialForm)

  /** The error kinds produced by this core; every other error raised by the evaluator
      or a built-in is carried opaquely. */
  datatype EvalError =
    | ArityError
    | InvalidArgumentError
    | BindingMismatchError
    | RecurMisuseError
    | OtherError(code: nat)

  /** The three-way outcome of evaluating a form. */
  datatype EvalResult =
    | Success(value: Value)
    | Recur(values: seq<Value>)
    | Failure(error: EvalError)

  /** `next`: continue with the value of a success, pass any other outcome through unchanged. */
  function Next(r: EvalResult, k: Value -> EvalResult): (o: EvalResult)
    ensures !r.Success? ==> o == r
    ensures r.Success? ==> o == k(r.value)
  {
    match r
    case Success(v) => k(v)
    case _ => r
  }
}
