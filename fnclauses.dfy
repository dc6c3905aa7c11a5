// Parsing of `fn`/`defmacro` clauses: the parameter vector with its `&` rule, a
// single `[params] body...` arity, and a list of such arities.

module FnClauses {
  import opened Wrappers
  import opened Values

  /** The reserved variadic marker. */
  const Ampersand: string := "&"

  /** The fixed parameter names of one arity and its optional variadic parameter. */
  datatype ParamList = ParamList(fixed: seq<string>, variadic: Option<string>)

  datatype FnType = FunctionType | MacroType

  /** One arity of a function or macro. */
  datatype SingleFn = SingleFn(fnType: FnType, parameters: seq<string>, forms: seq<Value>, variadic: Option<string>)

  predicate AllSymbols(args: seq<Value>)
  {
    forall i :: 0 <= i < |args| ==> args[i].Symbol?
  }

  function Names(args: seq<Value>): (names: seq<string>)
    requires AllSymbols(args)
    ensures |names| == |args| && forall i :: 0 <= i < |args| ==> args[i] == Symbol(names[i])
  {
    seq(|args|, i requires 0 <= i < |args| => args[i].name)
  }

  function Symbols(names: seq<string>): (args: seq<Value>)
    ensures |args| == |names| && forall i :: 0 <= i < |names| ==> args[i] == Symbol(names[i])
  {
    seq(|names|, i requires 0 <= i < |names| => Symbol(names[i]))
  }

  /** A parameter list that can be written down: no marker among the fixed names, and the
      variadic parameter is not the marker itself. */
  predicate WellFormed(p: ParamList)
  {
    Ampersand !in p.fixed && p.variadic != Some(Ampersand)
  }

  /** The parameter vector that denotes `p`: the fixed names, then `& v` when variadic. */
  function Encode(p: ParamList): seq<Value>
  {
    Symbols(p.fixed) + (match p.variadic case Some(v) => [Symbol(Ampersand), Symbol(v)] case None => [])
  }

  /** Reference semantics of `extractParameters`: every element a symbol; `&` only second-to-last;
      a trailing `& v` names the variadic parameter. */
  function ParameterSpec(args: seq<Value>): Option<ParamList>
  {
    if !AllSymbols(args) then None
    else
      var names := Names(args);
      if exists i :: 0 <= i < |names| && names[i] == Ampersand && i != |names| - 2 then None
      else if |names| >= 2 && names[|names| - 2] == Ampersand then
        Some(ParamList(names[..|names| - 2], Some(names[|names| - 1])))
      else Some(ParamList(names, None))
  }

  /** Every well-formed parameter list is recovered from the vector that denotes it. */
  lemma DecodeEncode(p: ParamList)
    requires WellFormed(p)
    ensures ParameterSpec(Encode(p)) == Some(p)
  {
    var args := Encode(p);
    var names := Names(args);
    assert names[..|p.fixed|] == p.fixed;
    if p.variadic.None? {
      assert names == p.fixed;
    } else {
      assert names == p.fixed + [Ampersand, p.variadic.value];
    }
  }

  /** Whatever is accepted is well formed and is exactly the vector it was read from. */
  lemma EncodeDecode(args: seq<Value>)
    requires ParameterSpec(args).Some?
    ensures WellFormed(ParameterSpec(args).value)
    ensures Encode(ParameterSpec(args).value) == args
  {
    var names := Names(args);
    var p := ParameterSpec(args).value;
    assert Encode(p) == args;
  }

  /** `extractParameters`: collect the symbol names, then check the placement of `&`. */
  method ExtractParameters(args: seq<Value>) returns (r: Option<ParamList>)
    ensures r == ParameterSpec(args)
  {
    var names: seq<string> := [];
    for i := 0 to |args|
      invariant |names| == i && forall j :: 0 <= j < i ==> args[j] == Symbol(names[j])
    {
      match args[i]
      case Symbol(s) => names := names + [s];
      case _ => return None;
    }
    assert names == Names(args);
    for idx := 0 to |names|
      invariant forall j :: 0 <= j < idx && names[j] == Ampersand ==> j == |names| - 2
    {
      if names[idx] == Ampersand && idx != |names| - 2 {
        return None;
      }
    }
    if |names| >= 2 && names[|names| - 2] == Ampersand {
      return Some(ParamList(names[..|names| - 2], Some(names[|names| - 1])));
    }
    return Some(ParamList(names, None));
  }

  /** The forms of a clause: the items of a list (the model's `collectSymbols`) or of a vector. */
  function ClauseItems(item: Value): Option<seq<Value>>
  {
    match item
    case List(l) => Some(l)
    case Vector(v) => Some(v)
    case _ => None
  }

  /** `buildSingleFnFor`: a clause is a parameter vector followed by the body forms. */
  function BuildSingleFnFor(item: Value, fnType: FnType): (r: Option<SingleFn>)
    ensures r.Some? ==>
              && ClauseItems(item).Some?
              && ClauseItems(item).value
                 == [Vector(Encode(ParamList(r.value.parameters, r.value.variadic)))] + r.value.forms
              && WellFormed(ParamList(r.value.parameters, r.value.variadic))
              && r.value.fnType == fnType
    ensures ClauseItems(item) == Some([]) ==> r.None?
    ensures ClauseItems(item).Some? && |ClauseItems(item).value| > 0 && !ClauseItems(item).value[0].Vector? ==> r.None?
    ensures forall p :: (WellFormed(p) && ClauseItems(item).Some? && |ClauseItems(item).value| > 0
                         && ClauseItems(item).value[0] == Vector(Encode(p))) ==> r.Some?
  {
    match ClauseItems(item)
    case None => None
    case Some(vector) =>
      if |vector| == 0 then None
      else
        match vector[0]
        case Vector(params) =>
          (match ParameterSpec(params)
           case Some(p) =>
             EncodeDecode(params);
             assert vector == [Vector(params)] + vector[1..];
             Some(SingleFn(fnType, p.fixed, vector[1..], p.variadic))
           case None => None)
        case _ => None
  }

  /** Reference semantics of the arity loop of `fn`/`defmacro`: every clause must parse. */
  function AritiesSpec(clauses: seq<Value>, fnType: FnType): Option<seq<SingleFn>>
  {
    if |clauses| == 0 then Some([])
    else
      match BuildSingleFnFor(clauses[0], fnType)
      case None => None
      case Some(f) =>
        match AritiesSpec(clauses[1..], fnType)
        case None => None
        case Some(fs) => Some([f] + fs)
  }

  /** The arity list is defined exactly when every clause parses, and then it holds each clause's arity in order. */
  lemma {:induction false} AritiesSpecClauses(clauses: seq<Value>, fnType: FnType)
    ensures AritiesSpec(clauses, fnType).Some? <==>
              forall i :: 0 <= i < |clauses| ==> BuildSingleFnFor(clauses[i], fnType).Some?
    ensures AritiesSpec(clauses, fnType).Some? ==>
              |AritiesSpec(clauses, fnType).value| == |clauses| &&
              forall i :: 0 <= i < |clauses| ==>
                Some(AritiesSpec(clauses, fnType).value[i]) == BuildSingleFnFor(clauses[i], fnType)
  {
    if |clauses| > 0 {
      AritiesSpecClauses(clauses[1..], fnType);
      if forall i :: 0 <= i < |clauses| ==> BuildSingleFnFor(clauses[i], fnType).Some? {
        forall i | 0 <= i < |clauses[1..]| ensures BuildSingleFnFor(clauses[1..][i], fnType).Some? {
          assert clauses[1..][i] == clauses[i + 1];
        }
      }
      if AritiesSpec(clauses, fnType).Some? {
        forall i | 0 <= i < |clauses| ensures Some(AritiesSpec(clauses, fnType).value[i]) == BuildSingleFnFor(clauses[i], fnType) {
          if i > 0 {
            assert clauses[1..][i - 1] == clauses[i];
          }
        }
      }
    }
  }

  /** The arity loop: parse each clause in order, failing on the first that does not parse. */
  method CollectArities(clauses: seq<Value>, fnType: FnType) returns (r: Option<seq<SingleFn>>)
    ensures r == AritiesSpec(clauses, fnType)
  {
    var arityBuffer: seq<SingleFn> := [];
    assert clauses[0..] == clauses;
    match AritiesSpec(clauses, fnType) {
      case Some(fs) => assert [] + fs == fs;
      case None =>
    }
    for i := 0 to |clauses|
      invariant AritiesSpec(clauses, fnType) == Prefixed(arityBuffer, AritiesSpec(clauses[i..], fnType))
    {
      assert clauses[i..][1..] == clauses[i + 1..];
      match BuildSingleFnFor(clauses[i], fnType)
      case Some(nextFn) =>
        match AritiesSpec(clauses[i + 1..], fnType) {
          case Some(fs) => assert arityBuffer + ([nextFn] + fs) == (arityBuffer + [nextFn]) + fs;
          case None =>
        }
        arityBuffer := arityBuffer + [nextFn];
      case None => return None;
    }
    assert clauses[|clauses|..] == [];
    assert arityBuffer + [] == arityBuffer;
    return Some(arityBuffer);
  }

  function Prefixed(prefix: seq<SingleFn>, o: Option<seq<SingleFn>>): Option<seq<SingleFn>>
  {
    match o
    case None => None
    case Some(fs) => Some(prefix + fs)
  }
}
