// The environment chain: scopes mapping names to bindings, each with at most one
// parent. Lookup walks innermost-first; a global write always lands in the root.

module Contexts {
  import opened Values

  /** The state of a name in a scope. `Invalid` is the lookup-miss marker. */
  datatype Binding =
    | Invalid
    | Unbound
    | Literal(value: Value)
    | BuiltInB(op: BuiltIn)
    | BoundMacro(macro: Callable)

  /** The value-level view of a context: its own map first, the root's map last. */
  type Scope = seq<map<string, Binding>>

  /** Lookup over a scope chain, innermost scope first; `Invalid` once the chain is exhausted. */
  function Resolve(s: Scope, name: string): Binding
  {
    if |s| == 0 then Invalid
    else if name in s[0] then s[0][name]
    else Resolve(s[1..], name)
  }

  /** Replace the root (last) map of a chain by the same map with `name` bound to `b`. */
  function SetGlobal(s: Scope, name: string, b: Binding): (r: Scope)
    requires |s| > 0
    ensures |r| == |s| && r[..|s| - 1] == s[..|s| - 1]
    ensures r[|s| - 1] == s[|s| - 1][name := b]
  {
    s[|s| - 1 := s[|s| - 1][name := b]]
  }

  /** No scope stores the lookup-miss marker. */
  ghost predicate NoInvalidStored(s: Scope)
  {
    forall i, n :: 0 <= i < |s| && n in s[i] ==> s[i][n] != Invalid
  }

  /** `i` is the innermost scope of `s` that declares `name`. */
  ghost predicate InnermostDeclaring(s: Scope, name: string, i: int)
  {
    0 <= i < |s| && name in s[i] && forall j :: 0 <= j < i ==> name !in s[j]
  }

  /** Lookup yields the binding of the innermost declaring scope, and `Invalid` when no scope declares the name. */
  lemma {:induction false} ResolveInnermost(s: Scope, name: string)
    ensures (forall i :: 0 <= i < |s| ==> name !in s[i]) ==> Resolve(s, name) == Invalid
    ensures (exists i :: 0 <= i < |s| && name in s[i]) ==>
              exists i :: InnermostDeclaring(s, name, i) && Resolve(s, name) == s[i][name]
    ensures forall i :: InnermostDeclaring(s, name, i) ==> Resolve(s, name) == s[i][name]
  {
    if |s| > 0 {
      if name in s[0] {
        assert InnermostDeclaring(s, name, 0);
      } else {
        ResolveInnermost(s[1..], name);
        forall i | InnermostDeclaring(s, name, i)
          ensures Resolve(s, name) == s[i][name]
        {
          assert InnermostDeclaring(s[1..], name, i - 1);
        }
        if exists i :: 0 <= i < |s| && name in s[i] {
          var i :| 0 <= i < |s| && name in s[i];
          assert name in s[1..][i - 1];
          var k :| InnermostDeclaring(s[1..], name, k) && Resolve(s[1..], name) == s[1..][k][name];
          assert InnermostDeclaring(s, name, k + 1);
        }
      }
    }
  }

  /** A name is declared somewhere on the chain exactly when lookup does not miss. */
  lemma {:induction false} ResolveValid(s: Scope, name: string)
    ensures NoInvalidStored(s) ==> (Resolve(s, name) != Invalid <==> exists i :: 0 <= i < |s| && name in s[i])
  {
    if NoInvalidStored(s) && |s| > 0 && name !in s[0] {
      assert NoInvalidStored(s[1..]) by {
        forall i, n | 0 <= i < |s[1..]| && n in s[1..][i] ensures s[1..][i][n] != Invalid {
          assert s[1..][i] == s[i + 1];
        }
      }
      ResolveValid(s[1..], name);
      if exists i :: 0 <= i < |s| && name in s[i] {
        var i :| 0 <= i < |s| && name in s[i];
        assert name in s[1..][i - 1];
      }
      if exists i :: 0 <= i < |s[1..]| && name in s[1..][i] {
        var i :| 0 <= i < |s[1..]| && name in s[1..][i];
        assert name in s[i + 1];
      }
    }
  }

  /** A child scope's own entries shadow its ancestors; other names fall through to the parent chain. */
  lemma ChildLookup(m: map<string, Binding>, parent: Scope, name: string)
    ensures name in m ==> Resolve([m] + parent, name) == m[name]
    ensures name !in m ==> Resolve([m] + parent, name) == Resolve(parent, name)
  {
    assert ([m] + parent)[1..] == parent;
  }

  /** A global write makes the name resolve to the new binding unless an inner scope shadows it,
      and leaves every other name's lookup unchanged. */
  lemma {:induction false} SetGlobalResolve(s: Scope, name: string, b: Binding, other: string)
    requires |s| > 0
    ensures (forall i :: 0 <= i < |s| - 1 ==> name !in s[i]) ==> Resolve(SetGlobal(s, name, b), name) == b
    ensures (exists i :: 0 <= i < |s| - 1 && name in s[i]) ==> Resolve(SetGlobal(s, name, b), name) == Resolve(s, name)
    ensures other != name ==> Resolve(SetGlobal(s, name, b), other) == Resolve(s, other)
  {
    if |s| > 1 {
      var t := SetGlobal(s, name, b);
      assert t[1..] == SetGlobal(s[1..], name, b);
      SetGlobalResolve(s[1..], name, b, other);
      if exists i :: 0 <= i < |s| - 1 && name in s[i] {
        var i :| 0 <= i < |s| - 1 && name in s[i];
        if i > 0 {
          assert name in s[1..][i - 1];
        }
      }
      if forall i :: 0 <= i < |s| - 1 ==> name !in s[i] {
        forall i | 0 <= i < |s[1..]| - 1 ensures name !in s[1..][i] {
          assert s[1..][i] == s[i + 1];
        }
      }
    }
  }

  /** A global write below an inner map leaves the inner map in place. */
  lemma SetGlobalBelow(m: map<string, Binding>, s: Scope, name: string, b: Binding)
    requires |s| > 0
    ensures SetGlobal([m] + s, name, b) == [m] + SetGlobal(s, name, b)
  {
  }

  /** A global write of a real binding never stores the lookup-miss marker. */
  lemma SetGlobalNoInvalid(s: Scope, name: string, b: Binding)
    requires |s| > 0 && NoInvalidStored(s) && b != Invalid
    ensures NoInvalidStored(SetGlobal(s, name, b))
  {
    var t := SetGlobal(s, name, b);
    forall i, n | 0 <= i < |t| && n in t[i] ensures t[i][n] != Invalid {
      if i < |s| - 1 {
        assert t[i] == s[..|s| - 1][i] == s[i];
      }
    }
  }

  /** The root table installed by `setupDefaultBindings`. */
  function DefaultBindings(): (m: map<string, Binding>)
    ensures m.Keys == {"cons", "first", "rest", "print", "=", ">", "<", "+", "-", "*", "/"}
    ensures forall n :: n in m ==> m[n].BuiltInB?
  {
    map[
      "cons" := BuiltInB(ConsOp), "first" := BuiltInB(FirstOp), "rest" := BuiltInB(RestOp),
      "print" := BuiltInB(PrintOp),
      "=" := BuiltInB(EqualsOp), ">" := BuiltInB(GtOp), "<" := BuiltInB(LtOp),
      "+" := BuiltInB(PlusOp), "-" := BuiltInB(MinusOp), "*" := BuiltInB(MultiplyOp), "/" := BuiltInB(DivideOp)]
  }

  /** The chain of a fresh global context stores no lookup-miss marker. */
  lemma DefaultChainNoInvalid()
    ensures NoInvalidStored([DefaultBindings()])
  {
    forall i, n | 0 <= i < 1 && n in [DefaultBindings()][i] ensures [DefaultBindings()][i][n] != Invalid {
      assert [DefaultBindings()][i] == DefaultBindings();
    }
  }

  /** A scope: a mutable binding map and an immutable, optional parent. */
  class Context {
    var bindings: map<string, Binding>
    const parent: Context?
    ghost const Repr: set<Context>
    ghost const depth: nat

    /** The parent chain is finite and acyclic; Repr is this context and its ancestors. */
    ghost predicate Valid()
      decreases depth
    {
      && this in Repr
      && (parent == null ==> Repr == {this} && depth == 0)
      && (parent != null ==>
            && parent in Repr && this !in parent.Repr && Repr == {this} + parent.Repr
            && depth == parent.depth + 1 && parent.Valid())
    }

    /** The bindings visible from this context, own map first. */
    function Chain(): (s: Scope)
      reads Repr
      requires Valid()
      decreases depth
      ensures |s| == depth + 1 && s[0] == bindings
    {
      [bindings] + (if parent == null then [] else parent.Chain())
    }

    /** The root of the chain. */
    ghost function Root(): (r: Context)
      requires Valid()
      decreases depth
      ensures r in Repr && r.Valid() && r.parent == null
      ensures r == this || r in parent.Repr
    {
      if parent == null then this else parent.Root()
    }

    /** `isTopLevel`. */
    predicate IsTopLevel()
      requires Valid()
      ensures IsTopLevel() <==> Root() == this
    {
      parent == null
    }

    /** The subscript getter: own map first, then the parent chain, `Invalid` at the root. */
    function Get(name: string): (b: Binding)
      reads Repr
      requires Valid()
      decreases depth
      ensures b == Resolve(Chain(), name)
    {
      if name in bindings then bindings[name]
      else if parent != null then parent.Get(name)
      else Invalid
    }

    /** The subscript setter: writes only this context's own map. */
    method Set(name: string, b: Binding)
      requires Valid()
      modifies this
      ensures bindings == old(bindings)[name := b]
      ensures Chain() == [bindings] + old(Chain())[1..]
    {
      bindings := bindings[name := b];
    }

    /** Write a binding into the root of the chain; no intermediate scope changes. */
    method SetTopLevelBinding(name: string, value: Binding)
      requires Valid()
      modifies Root()
      decreases depth
      ensures Chain() == SetGlobal(old(Chain()), name, value)
    {
      if IsTopLevel() {
        Set(name, value);
      } else {
        ghost var above := parent.Chain();
        parent.SetTopLevelBinding(name, value);
        SetGlobalBelow(bindings, above, name, value);
      }
    }

    /** `nameIsValid`: lookup does not miss; with no stored `Invalid`, the name is declared somewhere. */
    predicate NameIsValid(name: string)
      reads Repr
      requires Valid()
      ensures NameIsValid(name) <==> Resolve(Chain(), name) != Invalid
      ensures NoInvalidStored(Chain()) ==>
                (NameIsValid(name) <==> exists i :: 0 <= i < |Chain()| && name in Chain()[i])
    {
      ResolveValid(Chain(), name);
      match Get(name)
      case Invalid => false
      case _ => true
    }

    /** `nameIsUnbound`: the innermost declaration of the name is an unbound `def`. */
    predicate NameIsUnbound(name: string)
      reads Repr
      requires Valid()
      ensures NameIsUnbound(name) <==> Resolve(Chain(), name) == Unbound
      ensures NameIsUnbound(name) <==> exists i :: InnermostDeclaring(Chain(), name, i) && Chain()[i][name] == Unbound
    {
      ResolveInnermost(Chain(), name);
      match Get(name)
      case Unbound => true
      case _ => false
    }

    /** The private initialiser: an empty root. */
    constructor Top()
      ensures Valid() && parent == null && bindings == map[]
      ensures Chain() == [map[]]
    {
      parent := null;
      bindings := map[];
      Repr := {this};
      depth := 0;
    }

    /** `init(parent:bindings:)`: a child holding exactly the given map, copying nothing from its ancestors. */
    constructor Child(parent: Context, bindings: map<string, Binding>)
      requires parent.Valid()
      ensures Valid() && this.parent == parent && this.bindings == bindings
      ensures Chain() == [bindings] + parent.Chain()
    {
      this.parent := parent;
      this.bindings := bindings;
      Repr := {this} + parent.Repr;
      depth := parent.depth + 1;
    }

    /** Install the built-in operations into this context's own map. */
    method SetupDefaultBindings()
      requires Valid()
      modifies this
      ensures bindings == old(bindings) + DefaultBindings()
    {
      var m := bindings;
      m := m["cons" := BuiltInB(ConsOp)];
      m := m["first" := BuiltInB(FirstOp)];
      m := m["rest" := BuiltInB(RestOp)];
      m := m["print" := BuiltInB(PrintOp)];
      m := m["=" := BuiltInB(EqualsOp)];
      m := m[">" := BuiltInB(GtOp)];
      m := m["<" := BuiltInB(LtOp)];
      m := m["+" := BuiltInB(PlusOp)];
      m := m["-" := BuiltInB(MinusOp)];
      m := m["*" := BuiltInB(MultiplyOp)];
      m := m["/" := BuiltInB(DivideOp)];
      bindings := m;
    }

    /** `globalContextInstance`: a fresh root holding exactly the eleven built-in names. */
    static method GlobalContextInstance() returns (c: Context)
      ensures fresh(c) && c.Valid() && c.IsTopLevel()
      ensures c.Chain() == [DefaultBindings()]
    {
      c := new Context.Top();
      c.SetupDefaultBindings();
      assert map[] + DefaultBindings() == DefaultBindings();
    }
  }
}
