/** The scope resolver (src/scope/resolver.hpp): a stack of scopes, each mapping a name to the
    unique id it was declared with, and a counter that numbers declarations. */
module Scopes {
  import opened Wrappers

  type Scope = map<string, int>

  /** The id `resolve` finds: the binding of the innermost scope that holds the name. */
  function Lookup(scopes: seq<Scope>, name: string): Option<int>
  {
    if scopes == [] then None
    else if name in scopes[|scopes| - 1] then Some(scopes[|scopes| - 1][name])
    else Lookup(scopes[..|scopes| - 1], name)
  }

  /** `Lookup` finds a binding exactly when some scope holds the name, and what it finds is the
      binding of the innermost such scope. */
  lemma {:induction false} LookupSpec(scopes: seq<Scope>, name: string)
    ensures Lookup(scopes, name).Some? <==> exists i :: 0 <= i < |scopes| && name in scopes[i]
    ensures Lookup(scopes, name).Some? ==>
              exists i :: 0 <= i < |scopes| && name in scopes[i] && scopes[i][name] == Lookup(scopes, name).value &&
                          forall j :: i < j < |scopes| ==> name !in scopes[j]
    decreases |scopes|
  {
    if scopes != [] {
      var last := |scopes| - 1;
      var rest := scopes[..last];
      if name !in scopes[last] {
        LookupSpec(rest, name);
        if Lookup(scopes, name).Some? {
          var i :| 0 <= i < |rest| && name in rest[i] && rest[i][name] == Lookup(rest, name).value &&
                   forall j :: i < j < |rest| ==> name !in rest[j];
          assert scopes[i] == rest[i];
        }
        if exists i :: 0 <= i < |scopes| && name in scopes[i] {
          var i :| 0 <= i < |scopes| && name in scopes[i];
          assert rest[i] == scopes[i];
        }
      }
    }
  }

  /** No binding anywhere in the stack exceeds `count`, and every binding is positive. */
  ghost predicate BoundBy(scopes: seq<Scope>, count: int) {
    forall i, name :: 0 <= i < |scopes| && name in scopes[i] ==> 1 <= scopes[i][name] <= count
  }

  /** The stack after `declare` binds `name` to `id` in the innermost scope. */
  function Declared(scopes: seq<Scope>, name: string, id: int): seq<Scope>
    requires scopes != []
  {
    scopes[..|scopes| - 1] + [scopes[|scopes| - 1][name := id]]
  }

  /** After a declaration the name resolves to the new id, and every other name resolves as before. */
  lemma DeclaredLookup(scopes: seq<Scope>, name: string, id: int, other: string)
    requires scopes != []
    ensures Lookup(Declared(scopes, name, id), name) == Some(id)
    ensures other != name ==> Lookup(Declared(scopes, name, id), other) == Lookup(scopes, other)
  {
    var d := Declared(scopes, name, id);
    assert d[..|d| - 1] == scopes[..|scopes| - 1];
  }

  /** A fresh id bound above every existing one keeps the stack bounded and differs from every id
      already bound. */
  lemma DeclaredBound(scopes: seq<Scope>, count: int, name: string)
    requires scopes != [] && count >= 0 && BoundBy(scopes, count)
    ensures BoundBy(Declared(scopes, name, count + 1), count + 1)
    ensures forall i, n :: 0 <= i < |scopes| && n in scopes[i] ==> scopes[i][n] != count + 1
  {
    var d := Declared(scopes, name, count + 1);
    forall i, n | 0 <= i < |d| && n in d[i]
      ensures 1 <= d[i][n] <= count + 1
    {
      if i < |scopes| - 1 {
        assert d[i] == scopes[i];
      } else {
        assert d[i] == scopes[i][name := count + 1];
        if n != name {
          assert n in scopes[i] && d[i][n] == scopes[i][n];
        }
      }
    }
  }

  /** Opening a scope and closing it again gives back the stack, whatever the inner scope bound:
      names declared only inside stop resolving and shadowed outer bindings come back. */
  lemma {:induction false} ScopeRestored(scopes: seq<Scope>, inner: Scope, name: string)
    ensures Lookup(scopes + [inner], name) == (if name in inner then Some(inner[name]) else Lookup(scopes, name))
    ensures (scopes + [inner])[..|scopes|] == scopes
  {
    assert (scopes + [inner])[..|scopes|] == scopes;
  }

  class Resolver {
    var count: int
    var scopes: seq<Scope>

    /** Every bound id lies between 1 and `count`. */
    ghost predicate Valid()
      reads this
    {
      count >= 0 && BoundBy(scopes, count)
    }

    constructor ()
      ensures count == 0 && scopes == [map[]]
      ensures Valid()
    {
      count := 0;
      scopes := [map[]];
    }

    method BeginScope()
      modifies this
      requires Valid()
      ensures scopes == old(scopes) + [map[]] && count == old(count)
      ensures Valid()
    {
      scopes := scopes + [map[]];
    }

    /** Popping an empty stack is undefined in the source, hence the precondition. */
    method EndScope()
      modifies this
      requires Valid() && scopes != []
      ensures scopes == old(scopes)[..|old(scopes)| - 1] && count == old(count)
      ensures Valid()
    {
      scopes := scopes[..|scopes| - 1];
    }

    /** `declare`: no scope gives none; otherwise the counter is incremented and the name is
        bound (or rebound) to it in the innermost scope. */
    method Declare(name: string) returns (r: Option<int>)
      modifies this
      requires Valid()
      ensures old(scopes) == [] ==> r == None && scopes == old(scopes) && count == old(count)
      ensures old(scopes) != [] ==>
                r == Some(old(count) + 1) && count == old(count) + 1 &&
                scopes == Declared(old(scopes), name, count)
      ensures Valid()
    {
      if scopes == [] {
        return None;
      }
      DeclaredBound(scopes, count, name);
      count := count + 1;
      scopes := Declared(scopes, name, count);
      return Some(count);
    }

    /** `resolve`: a read-only walk from the innermost scope outwards. */
    method Resolve(name: string) returns (r: Option<int>)
      ensures r == Lookup(scopes, name)
    {
      var i := |scopes|;
      assert scopes[..i] == scopes;
      while i > 0
        invariant 0 <= i <= |scopes|
        invariant Lookup(scopes, name) == Lookup(scopes[..i], name)
      {
        var scope := scopes[i - 1];
        if name in scope {
          return Some(scope[name]);
        }
        assert scopes[..i][..i - 1] == scopes[..i - 1];
        i := i - 1;
      }
      return None;
    }
  }
}
