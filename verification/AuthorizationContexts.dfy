/** The contexts offered when a user consents, and the context references accepted when a token is
    issued: server/usecases/applications.ts and server/auth-helpers.ts. */
module AuthorizationContexts {
  import opened Options

  type Id = string

  datatype Visibility = Public | Private

  /** An Application or a Resource Server: who sees it, and which organization owns it. */
  datatype Owned = Owned(visibility: Visibility, owner: Id)

  /** The organizations there are, whether they are disabled, and those the user is a member of. */
  datatype World = World(disabled: map<Id, bool>, memberships: seq<Id>)

  const USER_PREFIX := "user:"
  const ORGANIZATION_PREFIX := "organization:"

  function UserReference(user: Id): string { USER_PREFIX + user }

  function OrganizationReference(organization: Id): string { ORGANIZATION_PREFIX + organization }

  predicate StartsWith(s: string, prefix: string) { prefix <= s }

  /** The organization exists, is enabled, and the user belongs to it. */
  predicate Belongs(w: World, organization: Id) {
    organization in w.disabled && !w.disabled[organization] && organization in w.memberships
  }

  // ---- What is offered ----

  /** The organizations that private Applications and Resource Servers force upon the request. */
  function Required(application: Owned, resources: seq<Owned>): set<Id> {
    (if application.visibility.Private? then {application.owner} else {}) +
    set i | 0 <= i < |resources| && resources[i].visibility.Private? :: resources[i].owner
  }

  /** The Set that the loop over the Resource Servers fills. */
  method RequiredOrganizations(application: Owned, resources: seq<Owned>) returns (required: set<Id>)
    ensures required == Required(application, resources)
  {
    required := {};
    if application.visibility == Private { required := required + {application.owner}; }
    var i := 0;
    while i < |resources|
      invariant 0 <= i <= |resources|
      invariant required == Required(application, resources[..i])
    {
      if resources[i].visibility == Private { required := required + {resources[i].owner}; }
      RequiredOneMore(application, resources, i);
      i := i + 1;
    }
    assert resources[..i] == resources;
  }

  lemma RequiredOneMore(application: Owned, resources: seq<Owned>, n: nat)
    requires n < |resources|
    ensures Required(application, resources[..n + 1])
            == Required(application, resources[..n]) + if resources[n].visibility.Private? then {resources[n].owner} else {}
  {
    var before, after := resources[..n], resources[..n + 1];
    forall x ensures x in Required(application, after)
                     <==> x in Required(application, before) || (resources[n].visibility.Private? && x == resources[n].owner)
    {
      if i :| 0 <= i < |after| && after[i].visibility.Private? && after[i].owner == x {
        if i < n { assert before[i] == after[i]; }
      }
      if i :| 0 <= i < |before| && before[i].visibility.Private? && before[i].owner == x { assert after[i] == before[i]; }
      assert after[n] == resources[n];
    }
  }

  predicate OrganizationOffered(w: World, required: set<Id>, organization: Id) {
    Belongs(w, organization) && required <= {organization}
  }

  ghost predicate OfferedAmong(w: World, required: set<Id>, n: nat, ref: string)
    requires n <= |w.memberships|
  {
    exists j :: 0 <= j < n && OrganizationOffered(w, required, w.memberships[j]) && ref == OrganizationReference(w.memberships[j])
  }

  ghost predicate Offered(w: World, application: Owned, resources: seq<Owned>, user: Id, ref: string) {
    var required := Required(application, resources);
    (required == {} && ref == UserReference(user)) || OfferedAmong(w, required, |w.memberships|, ref)
  }

  method OrganizationContexts(w: World, required: set<Id>) returns (offered: seq<string>)
    requires |required| <= 1
    ensures forall ref :: ref in offered <==> OfferedAmong(w, required, |w.memberships|, ref)
  {
    offered := [];
    AtMostOne(required);
    var i := 0;
    while i < |w.memberships|
      invariant 0 <= i <= |w.memberships|
      invariant forall ref :: ref in offered <==> OfferedAmong(w, required, i, ref)
    {
      var organization := w.memberships[i];
      if organization in w.disabled && !w.disabled[organization] && (required == {} || organization in required) {
        offered := offered + [OrganizationReference(organization)];
      }
      forall ref ensures OfferedAmong(w, required, i + 1, ref)
        <==> OfferedAmong(w, required, i, ref) || (OrganizationOffered(w, required, organization) && ref == OrganizationReference(organization))
      {
        OneMore(w, required, i, ref);
      }
      i := i + 1;
    }
  }

  lemma OneMore(w: World, required: set<Id>, i: nat, ref: string)
    requires i < |w.memberships|
    ensures OfferedAmong(w, required, i + 1, ref)
            <==> OfferedAmong(w, required, i, ref)
                 || (OrganizationOffered(w, required, w.memberships[i]) && ref == OrganizationReference(w.memberships[i]))
  {
  }

  /** The contexts to choose from, or None where the request is refused. */
  method ListContexts(w: World, application: Owned, resources: seq<Owned>, user: Id) returns (contexts: Option<seq<string>>)
    ensures contexts.Some? ==> forall ref :: ref in contexts.value <==> Offered(w, application, resources, user, ref)
    ensures contexts.None? ==> forall ref :: !Offered(w, application, resources, user, ref)
  {
    var required := RequiredOrganizations(application, resources);
    if |required| > 1 {
      TwoElements(required);
      return None;
    }
    var organizations := OrganizationContexts(w, required);
    var offered := if required == {} then [UserReference(user)] + organizations else organizations;
    if offered == [] {
      forall ref ensures !Offered(w, application, resources, user, ref) { assert ref !in organizations; }
      return None;
    }
    contexts := Some(offered);
  }

  lemma TwoElements(s: set<Id>)
    requires |s| > 1
    ensures s != {} && forall x :: !(s <= {x})
  {
    forall x ensures !(s <= {x}) {
      if s <= {x} { Smaller(s, {x}); }
    }
  }

  lemma Smaller<T>(s: set<T>, t: set<T>)
    requires s <= t
    ensures |s| <= |t|
  {
    assert t == s + (t - s);
  }

  lemma AtMostOne(s: set<Id>)
    requires |s| <= 1
    ensures forall x :: x in s ==> s <= {x}
  {
    forall x | x in s ensures s <= {x} {
      forall y | y in s ensures y == x {
        if y != x { Smaller({x, y}, s); }
      }
    }
  }

  // ---- What is accepted ----

  datatype Resolved = Rejected | Accepted(tenant: Option<Id>)

  /** A private default context needs an enabled organization and a membership. */
  function DefaultTenant(w: World, organization: Id): Resolved {
    if Belongs(w, organization) then Accepted(Some(organization)) else Rejected
  }

  /** The organization that a reference names, with or without the prefix; empty if it names none. */
  function Selected(reference: Option<string>): Id {
    if reference.None? then ""
    else if StartsWith(reference.value, ORGANIZATION_PREFIX) then reference.value[|ORGANIZATION_PREFIX|..]
    else reference.value
  }

  /** resolveOAuthOrganizationId for a signed-in user. */
  function ResolveOrganization(w: World, user: Id, application: Owned, resource: Option<Owned>, reference: Option<string>): Resolved {
    if reference.Some? && StartsWith(reference.value, USER_PREFIX) then
      if reference.value != UserReference(user) || application.visibility.Private? then Rejected else Accepted(None)
    else
      var selected := Selected(reference);
      if selected != "" then
        if application.visibility.Private? && selected != application.owner then Rejected
        else DefaultTenant(w, selected)
      else if application.visibility.Private? then DefaultTenant(w, application.owner)
      else if resource.Some? && resource.value.visibility.Private? then DefaultTenant(w, resource.value.owner)
      else Accepted(None)
  }

  /** A signed-in user sees public Resource Servers, and private ones within their own organization. */
  predicate Visible(resource: Owned, tenant: Option<Id>) {
    resource.visibility.Public? || tenant == Some(resource.owner)
  }

  predicate Passes(w: World, user: Id, application: Owned, resource: Owned, reference: Option<string>) {
    var resolved := ResolveOrganization(w, user, application, Some(resource), reference);
    resolved.Accepted? && Visible(resource, resolved.tenant)
  }

  /** Every requested Resource Server grants a token in this context. */
  predicate AllPass(w: World, user: Id, application: Owned, resources: seq<Owned>, reference: Option<string>) {
    forall i | 0 <= i < |resources| :: Passes(w, user, application, resources[i], reference)
  }

  /** A reference as consent writes them: a user, or an organization with a name. */
  predicate WellNamed(ref: string) {
    StartsWith(ref, USER_PREFIX) || (StartsWith(ref, ORGANIZATION_PREFIX) && ref != ORGANIZATION_PREFIX)
  }

  lemma NoReferenceIsBoth(organization: Id, ref: string)
    requires ref == OrganizationReference(organization)
    ensures !StartsWith(ref, USER_PREFIX) && StartsWith(ref, ORGANIZATION_PREFIX)
    ensures ref[|ORGANIZATION_PREFIX|..] == organization
  {
    assert ref[0] == 'o';
  }

  predicate NamesUser(reference: Option<string>) {
    reference.Some? && StartsWith(reference.value, USER_PREFIX)
  }

  /** An organization passes everywhere exactly if the user belongs to it and no other is required. */
  lemma OrganizationPasses(w: World, user: Id, application: Owned, resources: seq<Owned>, reference: Option<string>)
    requires !NamesUser(reference) && Selected(reference) != "" && resources != []
    ensures AllPass(w, user, application, resources, reference)
            <==> OrganizationOffered(w, Required(application, resources), Selected(reference))
  {
    var organization := Selected(reference);
    forall i | 0 <= i < |resources|
      ensures Passes(w, user, application, resources[i], reference)
              <==> Belongs(w, organization) && (application.visibility.Private? ==> application.owner == organization)
                   && (resources[i].visibility.Private? ==> resources[i].owner == organization)
    {
    }
    AllWithin(application, resources, organization);
    assert AllPass(w, user, application, resources, reference) ==> Passes(w, user, application, resources[0], reference);
  }

  lemma AllWithin(application: Owned, resources: seq<Owned>, organization: Id)
    ensures Required(application, resources) <= {organization}
            <==> && (application.visibility.Private? ==> application.owner == organization)
                 && forall i | 0 <= i < |resources| && resources[i].visibility.Private? :: resources[i].owner == organization
  {
    var required := Required(application, resources);
    assert application.visibility.Private? ==> application.owner in required;
    assert forall i | 0 <= i < |resources| && resources[i].visibility.Private? :: resources[i].owner in required;
  }

  lemma UserPasses(w: World, user: Id, application: Owned, resources: seq<Owned>, ref: string)
    requires StartsWith(ref, USER_PREFIX) && resources != []
    ensures AllPass(w, user, application, resources, Some(ref))
            <==> Required(application, resources) == {} && ref == UserReference(user)
  {
    NothingRequired(application, resources);
    forall i | 0 <= i < |resources|
      ensures Passes(w, user, application, resources[i], Some(ref))
              <==> ref == UserReference(user) && application.visibility.Public? && resources[i].visibility.Public?
    {
    }
    assert AllPass(w, user, application, resources, Some(ref)) ==> Passes(w, user, application, resources[0], Some(ref));
  }

  lemma NothingRequired(application: Owned, resources: seq<Owned>)
    ensures Required(application, resources) == {}
            <==> application.visibility.Public? && forall i | 0 <= i < |resources| :: resources[i].visibility.Public?
  {
    var required := Required(application, resources);
    assert application.visibility.Private? ==> application.owner in required;
    assert forall i | 0 <= i < |resources| :: resources[i].visibility.Private? ==> resources[i].owner in required;
  }

  /** Of references as consent writes them, it offers exactly those that token issue accepts, for every
      requested Resource Server; of others it offers none. */
  lemma OfferedExactlyWhenAccepted(w: World, user: Id, application: Owned, resources: seq<Owned>, ref: string)
    requires resources != []
    ensures WellNamed(ref) ==> (Offered(w, application, resources, user, ref) <==> AllPass(w, user, application, resources, Some(ref)))
    ensures !WellNamed(ref) && "" !in w.memberships ==> !Offered(w, application, resources, user, ref)
  {
    if !WellNamed(ref) {
      if Offered(w, application, resources, user, ref) && ref != UserReference(user) {
        var j :| 0 <= j < |w.memberships| && ref == OrganizationReference(w.memberships[j]);
        assert w.memberships[j] in w.memberships;
        NoReferenceIsBoth(w.memberships[j], ref);
      }
    } else if StartsWith(ref, USER_PREFIX) {
      UserPasses(w, user, application, resources, ref);
      forall j | 0 <= j < |w.memberships| ensures ref != OrganizationReference(w.memberships[j]) {
        assert ref[0] == 'u' && OrganizationReference(w.memberships[j])[0] == 'o';
      }
    } else {
      var organization := ref[|ORGANIZATION_PREFIX|..];
      assert ref == OrganizationReference(organization);
      NoReferenceIsBoth(organization, ref);
      OrganizationPasses(w, user, application, resources, Some(ref));
      if Offered(w, application, resources, user, ref) {
        var j :| 0 <= j < |w.memberships| && OrganizationOffered(w, Required(application, resources), w.memberships[j])
                 && ref == OrganizationReference(w.memberships[j]);
        NoReferenceIsBoth(w.memberships[j], ref);
      }
      if OrganizationOffered(w, Required(application, resources), organization) {
        var j :| 0 <= j < |w.memberships| && w.memberships[j] == organization;
      }
    }
  }

  /** Which references token issue accepts, of any form. A user reference and an organization, with or
      without the prefix, are accepted where consent would offer them. A reference that names nothing,
      like none at all, is accepted where a private Application's own organization would be offered, and
      for a public Application where the user belongs to the owner of each private Resource Server:
      each of those then chooses its own, so even two organizations can pass. */
  lemma AcceptedExactly(w: World, user: Id, application: Owned, resources: seq<Owned>, reference: Option<string>)
    requires resources != []
    ensures AllPass(w, user, application, resources, reference)
            <==> if NamesUser(reference) then Required(application, resources) == {} && reference == Some(UserReference(user))
                 else if Selected(reference) != "" then OrganizationOffered(w, Required(application, resources), Selected(reference))
                 else if application.visibility.Private? then OrganizationOffered(w, Required(application, resources), application.owner)
                 else forall i | 0 <= i < |resources| && resources[i].visibility.Private? :: Belongs(w, resources[i].owner)
  {
    if NamesUser(reference) {
      UserPasses(w, user, application, resources, reference.value);
    } else if Selected(reference) != "" {
      OrganizationPasses(w, user, application, resources, reference);
    } else {
      NothingNamed(w, user, application, resources, reference);
    }
  }

  lemma NothingNamed(w: World, user: Id, application: Owned, resources: seq<Owned>, reference: Option<string>)
    requires resources != [] && !NamesUser(reference) && Selected(reference) == ""
    ensures AllPass(w, user, application, resources, reference)
            <==> if application.visibility.Private? then OrganizationOffered(w, Required(application, resources), application.owner)
                 else forall i | 0 <= i < |resources| && resources[i].visibility.Private? :: Belongs(w, resources[i].owner)
  {
    AllWithin(application, resources, application.owner);
    forall i | 0 <= i < |resources|
      ensures Passes(w, user, application, resources[i], reference)
              <==> if application.visibility.Private?
                   then Belongs(w, application.owner) && (resources[i].visibility.Private? ==> resources[i].owner == application.owner)
                   else resources[i].visibility.Private? ==> Belongs(w, resources[i].owner)
    {
    }
    assert AllPass(w, user, application, resources, reference) ==> Passes(w, user, application, resources[0], reference);
    if AllPass(w, user, application, resources, reference) {
      forall i | 0 <= i < |resources| ensures Passes(w, user, application, resources[i], reference) {
      }
    }
  }

  /** Two forms of reference are accepted that consent never offers: the bare name of an organization,
      wherever it is offered with the prefix, and the prefix without a name, wherever no reference
      passes. */
  lemma UnofferedReferencesPass(w: World, user: Id, application: Owned, resources: seq<Owned>, organization: Id)
    requires resources != [] && organization != "" && "" !in w.memberships
    requires !StartsWith(organization, USER_PREFIX) && !StartsWith(organization, ORGANIZATION_PREFIX)
    ensures !Offered(w, application, resources, user, organization)
    ensures AllPass(w, user, application, resources, Some(organization))
            <==> Offered(w, application, resources, user, OrganizationReference(organization))
    ensures !Offered(w, application, resources, user, ORGANIZATION_PREFIX)
    ensures AllPass(w, user, application, resources, Some(ORGANIZATION_PREFIX)) <==> AllPass(w, user, application, resources, None)
  {
    var ref := OrganizationReference(organization);
    NoReferenceIsBoth(organization, ref);
    assert ORGANIZATION_PREFIX[0] == 'o';
    assert ORGANIZATION_PREFIX[|ORGANIZATION_PREFIX|..] == "";
    AcceptedExactly(w, user, application, resources, Some(organization));
    AcceptedExactly(w, user, application, resources, Some(ref));
    AcceptedExactly(w, user, application, resources, Some(ORGANIZATION_PREFIX));
    AcceptedExactly(w, user, application, resources, None);
    OfferedExactlyWhenAccepted(w, user, application, resources, ref);
    OfferedExactlyWhenAccepted(w, user, application, resources, organization);
    OfferedExactlyWhenAccepted(w, user, application, resources, ORGANIZATION_PREFIX);
  }

  /** When two organizations are required, consent offers nothing and no reference passes that names a
      user or an organization; nor does any for a private Application. */
  lemma TwoOrganizationsShareNoContext(w: World, user: Id, application: Owned, resources: seq<Owned>, a: Id, b: Id, ref: string)
    requires a in Required(application, resources) && b in Required(application, resources) && a != b && resources != []
    ensures !Offered(w, application, resources, user, ref)
    ensures NamesUser(Some(ref)) || Selected(Some(ref)) != "" || application.visibility.Private? ==>
              !AllPass(w, user, application, resources, Some(ref))
  {
    AcceptedExactly(w, user, application, resources, Some(ref));
  }
}
