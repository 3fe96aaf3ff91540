/** The scope hierarchy of roles. */
module Scopes {
  datatype Scope = SYSTEM | GLOBAL | CLIENT | SITE_GROUP | SITE | SELF

  /** Most permissive first. */
  const SCOPE_HIERARCHY: seq<Scope> := [SYSTEM, GLOBAL, CLIENT, SITE_GROUP, SITE, SELF]

  /** Position of a scope in the hierarchy. */
  function IndexOf(scope: Scope): (i: nat)
    ensures i < |SCOPE_HIERARCHY| && SCOPE_HIERARCHY[i] == scope
  {
    match scope
    case SYSTEM => 0
    case GLOBAL => 1
    case CLIENT => 2
    case SITE_GROUP => 3
    case SITE => 4
    case SELF => 5
  }

  predicate IsScopeAtLeast(scope: Scope, required: Scope) { IndexOf(scope) <= IndexOf(required) }

  /** From SYSTEM down to SELF every scope is strictly more permissive than the next, so the order is total. */
  lemma HierarchyIsStrict()
    ensures IsScopeAtLeast(SYSTEM, GLOBAL) && IsScopeAtLeast(GLOBAL, CLIENT) && IsScopeAtLeast(CLIENT, SITE_GROUP)
    ensures IsScopeAtLeast(SITE_GROUP, SITE) && IsScopeAtLeast(SITE, SELF)
    ensures forall a, b :: IsScopeAtLeast(a, b) && IsScopeAtLeast(b, a) <==> a == b
    ensures forall a, b, c :: IsScopeAtLeast(a, b) && IsScopeAtLeast(b, c) ==> IsScopeAtLeast(a, c)
  {
    forall a, b | IsScopeAtLeast(a, b) && IsScopeAtLeast(b, a) ensures a == b {
      assert SCOPE_HIERARCHY[IndexOf(a)] == SCOPE_HIERARCHY[IndexOf(b)];
    }
  }

  function GetScopesAtLeast(scope: Scope): (r: seq<Scope>)
    ensures forall s :: s in r <==> IsScopeAtLeast(s, scope)
  {
    var r := SCOPE_HIERARCHY[..IndexOf(scope) + 1];
    assert forall s :: IsScopeAtLeast(s, scope) ==> r[IndexOf(s)] == s;
    r
  }
}
