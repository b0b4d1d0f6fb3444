/** The scopes a user effectively holds on a Resource Server, with or without an organization
    selected: server/usecases/resource-scope-entitlements.ts and organization-membership-scopes.ts. */
module EffectiveScopes {
  import opened Options
  import opened Texts
  import opened Listings
  import opened AuthorizationDetails
  import opened ScopeTexts

  type Id = string

  datatype GrantMode = Assigned | Automatic

  datatype Declared = Declared(value: Text, mode: GrantMode)

  /** A Resource Server. `visibleTo`: the organizations that activeResourceVisibleToOrganization
      admits. The built-in server has `system` scopes in place of a registry's assigned ones. */
  datatype Resource = Resource(
    id: Id,
    owner: Id,
    private_: bool,
    builtIn: bool,
    registry: seq<Declared>,
    visibleTo: set<Id>)

  datatype RoleScope = RoleScope(resource: Id, scope: Text)

  /** What roles stand for: organizations define roles of their own, a few are predefined. */
  datatype Roles = Roles(
    dynamic: map<(Id, string), seq<RoleScope>>,
    predefined: map<string, seq<Text>>,
    system: set<Text>)

  datatype Membership = Membership(organization: Id, roles: seq<string>)

  /** An active permission of the user, for one organization or for the user personally. */
  datatype Granted = Granted(organization: Option<Id>, scope: Text)

  const OWNER := "owner"

  predicate IsDeclared(r: Resource, scope: Text) { exists i :: 0 <= i < |r.registry| && r.registry[i].value == scope }

  predicate HasMode(r: Resource, scope: Text, mode: GrantMode) { Declared(scope, mode) in r.registry }

  /** The scopes in order, each once. */
  ghost predicate SortedSet(scopes: seq<Text>, of: set<Text>) {
    Distinct(scopes) && Ordered(scopes, UnitLe) && forall w :: w in scopes <==> w in of
  }

  method Sort(scopes: set<Text>) returns (sorted: seq<Text>)
    ensures SortedSet(sorted, scopes)
  {
    var listing := List(scopes);
    SortTextsMembers(listing);
    SortTextsDistinct(listing);
    SortTextsSorts(listing);
    sorted := SortTexts(listing);
  }

  // ---- One organization membership ----

  /** The scopes that one role carries on the resource. */
  predicate RoleCarries(r: Resource, roles: Roles, organization: Id, role: string, scope: Text) {
    || (r.builtIn && role in roles.predefined && scope in roles.predefined[role])
    || ((organization, role) in roles.dynamic && RoleScope(r.id, scope) in roles.dynamic[(organization, role)])
  }

  predicate AnyRoleCarries(r: Resource, roles: Roles, m: Membership, n: nat, scope: Text)
    requires n <= |m.roles|
  {
    exists i :: 0 <= i < n && RoleCarries(r, roles, m.organization, m.roles[i], scope)
  }

  /** The resource's own organization gives its owners every assigned scope. */
  predicate OwnerHolds(r: Resource, m: Membership, scope: Text) {
    OWNER in m.roles && r.owner == m.organization && HasMode(r, scope, Assigned)
  }

  /** What the membership holds on the resource. */
  predicate MembershipHolds(r: Resource, roles: Roles, m: Membership, scope: Text) {
    if r.builtIn then AnyRoleCarries(r, roles, m, |m.roles|, scope) && scope in roles.system
    else
      && (AnyRoleCarries(r, roles, m, |m.roles|, scope) || OwnerHolds(r, m, scope))
      && m.organization in r.visibleTo && HasMode(r, scope, Assigned)
  }

  method ResolveMembershipScopes(r: Resource, roles: Roles, m: Membership) returns (scopes: set<Text>)
    ensures forall w :: w in scopes <==> MembershipHolds(r, roles, m, w)
  {
    var carried := CarriedScopes(r, roles, m);
    if r.builtIn {
      return set w | w in carried && w in roles.system;
    }
    if carried == {} && OWNER !in m.roles { return {}; }
    if r.owner == m.organization && OWNER in m.roles {
      carried := carried + set i | 0 <= i < |r.registry| && r.registry[i].mode == Assigned :: r.registry[i].value;
      OwnersAssigned(r);
    }
    if carried == {} || m.organization !in r.visibleTo { return {}; }
    scopes := set w | w in carried && HasMode(r, w, Assigned);
  }

  lemma OwnersAssigned(r: Resource)
    ensures forall w :: w in (set i | 0 <= i < |r.registry| && r.registry[i].mode == Assigned :: r.registry[i].value) <==> HasMode(r, w, Assigned)
  {
    forall w ensures w in (set i | 0 <= i < |r.registry| && r.registry[i].mode == Assigned :: r.registry[i].value) <==> HasMode(r, w, Assigned) {
      if HasMode(r, w, Assigned) {
        var i :| 0 <= i < |r.registry| && r.registry[i] == Declared(w, Assigned);
        assert r.registry[i].value == w;
      }
    }
  }

  method CarriedScopes(r: Resource, roles: Roles, m: Membership) returns (scopes: set<Text>)
    ensures forall w :: w in scopes <==> AnyRoleCarries(r, roles, m, |m.roles|, w)
  {
    scopes := {};
    var i := 0;
    while i < |m.roles|
      invariant 0 <= i <= |m.roles|
      invariant forall w :: w in scopes <==> AnyRoleCarries(r, roles, m, i, w)
    {
      var added := ScopesOfRole(r, roles, m.organization, m.roles[i]);
      forall w ensures AnyRoleCarries(r, roles, m, i + 1, w)
        <==> AnyRoleCarries(r, roles, m, i, w) || RoleCarries(r, roles, m.organization, m.roles[i], w)
      {
        OneMoreRole(r, roles, m, i, w);
      }
      scopes := scopes + added;
      i := i + 1;
    }
  }

  lemma OneMoreRole(r: Resource, roles: Roles, m: Membership, i: nat, w: Text)
    requires i < |m.roles|
    ensures AnyRoleCarries(r, roles, m, i + 1, w)
            <==> AnyRoleCarries(r, roles, m, i, w) || RoleCarries(r, roles, m.organization, m.roles[i], w)
  {
  }

  method ScopesOfRole(r: Resource, roles: Roles, organization: Id, role: string) returns (scopes: set<Text>)
    ensures forall w :: w in scopes <==> RoleCarries(r, roles, organization, role, w)
  {
    scopes := {};
    if r.builtIn && role in roles.predefined { scopes := set w | w in roles.predefined[role]; }
    if (organization, role) in roles.dynamic {
      var items := roles.dynamic[(organization, role)];
      var i := 0;
      ghost var predefined := scopes;
      while i < |items|
        invariant 0 <= i <= |items|
        invariant forall w :: w in scopes <==> w in predefined || RoleScope(r.id, w) in items[..i]
      {
        assert items[..i + 1] == items[..i] + [items[i]];
        if items[i].resource == r.id { scopes := scopes + {items[i].scope}; }
        i := i + 1;
      }
      assert items[..i] == items;
    }
  }

  // ---- The user ----

  /** No context chosen, the user's own, or that of an organization. */
  datatype Tenant = Unscoped | Personal | Within(organization: Id)

  predicate MembershipCounts(r: Resource, t: Tenant, organization: Id) {
    match t
    case Unscoped => !r.private_ || organization == r.owner
    case Personal => false
    case Within(o) => organization == o
  }

  predicate GrantCounts(t: Tenant, g: Granted) {
    match t
    case Unscoped => true
    case Personal => g.organization.None?
    case Within(o) => g.organization == Some(o)
  }

  /** A private resource is closed to a user without a membership in its owner. */
  predicate Closed(r: Resource, ms: seq<Membership>, t: Tenant) {
    t.Unscoped? && r.private_ && forall i | 0 <= i < |ms| :: ms[i].organization != r.owner
  }

  predicate GrantGives(gs: seq<Granted>, t: Tenant, scope: Text) {
    exists i :: 0 <= i < |gs| && GrantCounts(t, gs[i]) && gs[i].scope == scope
  }

  predicate MembershipGives(r: Resource, roles: Roles, ms: seq<Membership>, t: Tenant, scope: Text) {
    exists i :: 0 <= i < |ms| && MembershipCounts(r, t, ms[i].organization) && MembershipHolds(r, roles, ms[i], scope)
  }

  /** What the user effectively holds. */
  predicate Holds(r: Resource, roles: Roles, ms: seq<Membership>, gs: seq<Granted>, t: Tenant, scope: Text) {
    && !Closed(r, ms, t) && IsDeclared(r, scope)
    && (HasMode(r, scope, Automatic) || GrantGives(gs, t, scope) || MembershipGives(r, roles, ms, t, scope))
  }

  method UserEffectiveScopes(r: Resource, roles: Roles, ms: seq<Membership>, gs: seq<Granted>, t: Tenant) returns (scopes: seq<Text>)
    ensures Distinct(scopes) && Ordered(scopes, UnitLe)
    ensures forall w :: w in scopes <==> Holds(r, roles, ms, gs, t, w)
  {
    var visible := VisibleMemberships(r, ms, t);
    if t == Unscoped && r.private_ && visible == [] {
      assert Closed(r, ms, t) by {
        forall i | 0 <= i < |ms| ensures ms[i].organization != r.owner {
          assert ms[i] !in visible;
        }
      }
      return [];
    }
    assert !Closed(r, ms, t) by {
      if t == Unscoped && r.private_ { assert visible[0] in visible; }
    }
    var held := set i | 0 <= i < |r.registry| && r.registry[i].mode == Automatic :: r.registry[i].value;
    AutomaticSet(r);
    var granted := GrantedScopes(gs, t);
    var carried := MembershipScopes(r, roles, visible);
    forall w ensures w in carried <==> MembershipGives(r, roles, ms, t, w) {
      VisibleGive(r, roles, ms, t, visible, w);
    }
    held := set w | w in held + granted + carried && IsDeclared(r, w);
    scopes := Sort(held);
  }

  lemma AutomaticSet(r: Resource)
    ensures forall w :: w in (set i | 0 <= i < |r.registry| && r.registry[i].mode == Automatic :: r.registry[i].value) <==> HasMode(r, w, Automatic)
  {
    forall w ensures w in (set i | 0 <= i < |r.registry| && r.registry[i].mode == Automatic :: r.registry[i].value) <==> HasMode(r, w, Automatic) {
      if HasMode(r, w, Automatic) {
        var i :| 0 <= i < |r.registry| && r.registry[i] == Declared(w, Automatic);
        assert r.registry[i].value == w;
      }
    }
  }

  lemma VisibleGive(r: Resource, roles: Roles, ms: seq<Membership>, t: Tenant, visible: seq<Membership>, w: Text)
    requires forall m :: m in visible <==> m in ms && MembershipCounts(r, t, m.organization)
    ensures (exists i :: 0 <= i < |visible| && MembershipHolds(r, roles, visible[i], w)) <==> MembershipGives(r, roles, ms, t, w)
  {
    if i :| 0 <= i < |visible| && MembershipHolds(r, roles, visible[i], w) {
      assert visible[i] in ms;
      var j :| 0 <= j < |ms| && ms[j] == visible[i];
    }
    if MembershipGives(r, roles, ms, t, w) {
      var i :| 0 <= i < |ms| && MembershipCounts(r, t, ms[i].organization) && MembershipHolds(r, roles, ms[i], w);
      assert ms[i] in visible;
      var j :| 0 <= j < |visible| && visible[j] == ms[i];
    }
  }

  method VisibleMemberships(r: Resource, ms: seq<Membership>, t: Tenant) returns (visible: seq<Membership>)
    ensures forall m :: m in visible <==> m in ms && MembershipCounts(r, t, m.organization)
  {
    visible := [];
    var i := 0;
    while i < |ms|
      invariant 0 <= i <= |ms|
      invariant forall m :: m in visible <==> m in ms[..i] && MembershipCounts(r, t, m.organization)
    {
      assert ms[..i + 1] == ms[..i] + [ms[i]];
      if MembershipCounts(r, t, ms[i].organization) { visible := visible + [ms[i]]; }
      i := i + 1;
    }
    assert ms[..i] == ms;
  }

  method GrantedScopes(gs: seq<Granted>, t: Tenant) returns (scopes: set<Text>)
    ensures forall w :: w in scopes <==> GrantGives(gs, t, w)
  {
    scopes := {};
    var i := 0;
    while i < |gs|
      invariant 0 <= i <= |gs|
      invariant forall w :: w in scopes <==> exists j :: 0 <= j < i && GrantCounts(t, gs[j]) && gs[j].scope == w
    {
      if GrantCounts(t, gs[i]) { scopes := scopes + {gs[i].scope}; }
      i := i + 1;
    }
  }

  method MembershipScopes(r: Resource, roles: Roles, visible: seq<Membership>) returns (scopes: set<Text>)
    ensures forall w :: w in scopes <==> exists i :: 0 <= i < |visible| && MembershipHolds(r, roles, visible[i], w)
  {
    scopes := {};
    var i := 0;
    while i < |visible|
      invariant 0 <= i <= |visible|
      invariant forall w :: w in scopes <==> exists j :: 0 <= j < i && MembershipHolds(r, roles, visible[j], w)
    {
      var added := ResolveMembershipScopes(r, roles, visible[i]);
      scopes := scopes + added;
      i := i + 1;
    }
  }

  // ---- Contexts taken together ----

  /** Held personally or within one of the user's organizations. */
  ghost predicate HeldSomewhere(r: Resource, roles: Roles, ms: seq<Membership>, gs: seq<Granted>, scope: Text) {
    || Holds(r, roles, ms, gs, Personal, scope)
    || exists i :: 0 <= i < |ms| && Holds(r, roles, ms, gs, Within(ms[i].organization), scope)
  }

  /** A permission for an organization the user no longer belongs to. */
  predicate Stray(ms: seq<Membership>, g: Granted) {
    g.organization.Some? && forall i | 0 <= i < |ms| :: ms[i].organization != g.organization.value
  }

  lemma SomewhereHolds(r: Resource, roles: Roles, ms: seq<Membership>, gs: seq<Granted>, scope: Text)
    requires !r.private_ && HeldSomewhere(r, roles, ms, gs, scope)
    ensures Holds(r, roles, ms, gs, Unscoped, scope)
  {
    if Holds(r, roles, ms, gs, Personal, scope) {
      HoldsWider(r, roles, ms, gs, Personal, scope);
    } else {
      var i :| 0 <= i < |ms| && Holds(r, roles, ms, gs, Within(ms[i].organization), scope);
      HoldsWider(r, roles, ms, gs, Within(ms[i].organization), scope);
    }
  }

  lemma HoldsWider(r: Resource, roles: Roles, ms: seq<Membership>, gs: seq<Granted>, t: Tenant, scope: Text)
    requires !r.private_ && Holds(r, roles, ms, gs, t, scope)
    ensures Holds(r, roles, ms, gs, Unscoped, scope)
  {
    if GrantGives(gs, t, scope) {
      var i :| 0 <= i < |gs| && GrantCounts(t, gs[i]) && gs[i].scope == scope;
      assert GrantCounts(Unscoped, gs[i]);
    }
    if MembershipGives(r, roles, ms, t, scope) {
      var i :| 0 <= i < |ms| && MembershipCounts(r, t, ms[i].organization) && MembershipHolds(r, roles, ms[i], scope);
      assert MembershipCounts(r, Unscoped, ms[i].organization);
    }
  }

  lemma GrantSomewhere(r: Resource, roles: Roles, ms: seq<Membership>, gs: seq<Granted>, i: nat)
    requires i < |gs| && IsDeclared(r, gs[i].scope) && !Stray(ms, gs[i])
    ensures HeldSomewhere(r, roles, ms, gs, gs[i].scope)
  {
    if gs[i].organization.None? {
      assert GrantCounts(Personal, gs[i]);
      assert GrantGives(gs, Personal, gs[i].scope);
    } else {
      var j :| 0 <= j < |ms| && ms[j].organization == gs[i].organization.value;
      assert GrantCounts(Within(ms[j].organization), gs[i]);
      assert GrantGives(gs, Within(ms[j].organization), gs[i].scope);
    }
  }

  lemma MembershipSomewhere(r: Resource, roles: Roles, ms: seq<Membership>, gs: seq<Granted>, i: nat, scope: Text)
    requires i < |ms| && IsDeclared(r, scope) && MembershipHolds(r, roles, ms[i], scope)
    ensures HeldSomewhere(r, roles, ms, gs, scope)
  {
    assert MembershipCounts(r, Within(ms[i].organization), ms[i].organization);
    assert MembershipGives(r, roles, ms, Within(ms[i].organization), scope);
  }

  /** On a public Resource Server, what a user holds without choosing a context is what the user
      holds personally or in some organization, exactly if no stray permission gives more. */
  lemma ContextsAddUpExactly(r: Resource, roles: Roles, ms: seq<Membership>, gs: seq<Granted>)
    requires !r.private_
    ensures (forall w :: Holds(r, roles, ms, gs, Unscoped, w) <==> HeldSomewhere(r, roles, ms, gs, w))
            <==> forall i | 0 <= i < |gs| && Stray(ms, gs[i]) && IsDeclared(r, gs[i].scope) ::
                   HeldSomewhere(r, roles, ms, gs, gs[i].scope)
  {
    forall i | 0 <= i < |gs| && IsDeclared(r, gs[i].scope) ensures Holds(r, roles, ms, gs, Unscoped, gs[i].scope) {
      assert GrantCounts(Unscoped, gs[i]);
    }
    if forall i | 0 <= i < |gs| && Stray(ms, gs[i]) && IsDeclared(r, gs[i].scope) :: HeldSomewhere(r, roles, ms, gs, gs[i].scope) {
      forall w ensures Holds(r, roles, ms, gs, Unscoped, w) <==> HeldSomewhere(r, roles, ms, gs, w) {
        if HeldSomewhere(r, roles, ms, gs, w) { SomewhereHolds(r, roles, ms, gs, w); }
        if Holds(r, roles, ms, gs, Unscoped, w) { UnscopedSomewhere(r, roles, ms, gs, w); }
      }
    }
  }

  lemma UnscopedSomewhere(r: Resource, roles: Roles, ms: seq<Membership>, gs: seq<Granted>, w: Text)
    requires Holds(r, roles, ms, gs, Unscoped, w)
    requires forall i | 0 <= i < |gs| && Stray(ms, gs[i]) && IsDeclared(r, gs[i].scope) :: HeldSomewhere(r, roles, ms, gs, gs[i].scope)
    ensures HeldSomewhere(r, roles, ms, gs, w)
  {
    if HasMode(r, w, Automatic) {
      assert Holds(r, roles, ms, gs, Personal, w);
    } else if GrantGives(gs, Unscoped, w) {
      var i :| 0 <= i < |gs| && GrantCounts(Unscoped, gs[i]) && gs[i].scope == w;
      if !Stray(ms, gs[i]) { GrantSomewhere(r, roles, ms, gs, i); }
    } else {
      var i :| 0 <= i < |ms| && MembershipCounts(r, Unscoped, ms[i].organization) && MembershipHolds(r, roles, ms[i], w);
      MembershipSomewhere(r, roles, ms, gs, i, w);
    }
  }

  /** A public Resource Server with one assigned scope. */
  function Plain(id: Id, owner: Id, scope: Text): Resource {
    Resource(id, owner, false, false, [Declared(scope, Assigned)], {})
  }

  /** A permission from an organization that the user has left: the scope is held as long as no context
      is chosen, in no context that the user can choose. */
  lemma StrayPermissionHeld(id: Id, owner: Id, left: Id, scope: Text)
    ensures var r, roles, gs := Plain(id, owner, scope), Roles(map[], map[], {}), [Granted(Some(left), scope)];
            Holds(r, roles, [], gs, Unscoped, scope) && !HeldSomewhere(r, roles, [], gs, scope)
  {
    var r, gs := Plain(id, owner, scope), [Granted(Some(left), scope)];
    assert r.registry[0].value == scope;
    assert GrantCounts(Unscoped, gs[0]);
    assert GrantGives(gs, Unscoped, scope);
    assert !HasMode(r, scope, Automatic);
  }

  // ---- More roles and permissions never take scopes away ----

  /** Every membership of `ms` is in `more`, with at least its roles. */
  ghost predicate MoreMemberships(ms: seq<Membership>, more: seq<Membership>) {
    forall i | 0 <= i < |ms| ::
      exists j :: 0 <= j < |more| && more[j].organization == ms[i].organization && forall role | role in ms[i].roles :: role in more[j].roles
  }

  lemma MoreRolesHoldMore(r: Resource, roles: Roles, m: Membership, n: Membership, w: Text)
    requires m.organization == n.organization && (forall role | role in m.roles :: role in n.roles)
    requires MembershipHolds(r, roles, m, w)
    ensures MembershipHolds(r, roles, n, w)
  {
    if AnyRoleCarries(r, roles, m, |m.roles|, w) {
      var i :| 0 <= i < |m.roles| && RoleCarries(r, roles, m.organization, m.roles[i], w);
      assert m.roles[i] in n.roles;
      var j :| 0 <= j < |n.roles| && n.roles[j] == m.roles[i];
      assert RoleCarries(r, roles, n.organization, n.roles[j], w);
    }
  }

  lemma HoldingIsMonotone(r: Resource, roles: Roles, ms: seq<Membership>, more: seq<Membership>, gs: seq<Granted>, extra: seq<Granted>,
                          t: Tenant, w: Text)
    requires MoreMemberships(ms, more) && (forall g | g in gs :: g in extra)
    requires Holds(r, roles, ms, gs, t, w)
    ensures Holds(r, roles, more, extra, t, w)
  {
    if t.Unscoped? && r.private_ {
      var i :| 0 <= i < |ms| && ms[i].organization == r.owner;
      var j :| 0 <= j < |more| && more[j].organization == ms[i].organization;
    }
    if GrantGives(gs, t, w) {
      var i :| 0 <= i < |gs| && GrantCounts(t, gs[i]) && gs[i].scope == w;
      assert gs[i] in extra;
      var j :| 0 <= j < |extra| && extra[j] == gs[i];
      assert GrantGives(extra, t, w);
    }
    if MembershipGives(r, roles, ms, t, w) {
      var i :| 0 <= i < |ms| && MembershipCounts(r, t, ms[i].organization) && MembershipHolds(r, roles, ms[i], w);
      var j :| 0 <= j < |more| && more[j].organization == ms[i].organization && forall role | role in ms[i].roles :: role in more[j].roles;
      MoreRolesHoldMore(r, roles, ms[i], more[j], w);
      assert MembershipGives(r, roles, more, t, w);
    }
  }
}
