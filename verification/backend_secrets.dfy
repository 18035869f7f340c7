/**
 * The API server's `GET /api/secrets`: the secrets of the caller's
 * organisation (or of one project in it), each with the value of its
 * current version.
 */
module BackendSecrets {
  import opened Wrappers
  import opened Text
  import opened DbSchema
  import Cli = CliSchemas

  const NoMembership := "No organization membership found"
  const OrganisationNotFound := "Organisation not found"
  const NotAMember := "Not a member of this organisation"

  /** The JSON answer: 200 with the list, or an error status with a message. */
  datatype Response = Listed(secrets: seq<Cli.Secret>) | Refused(status: int, error: string)

  /** The user belongs to the organisation. */
  predicate IsMember(db: Db, userId: string, orgId: string) {
    exists m :: m in db.members && m.userId == userId && m.organizationId == orgId
  }

  /** The first organisation row with this slug. */
  function OrganisationBySlug(db: Db, slug: string): (r: Option<Organization>)
    ensures r.Some? ==> r.value in db.organizations && r.value.slug == Some(slug)
    ensures r.None? <==> forall o :: o in db.organizations ==> o.slug != Some(slug)
  {
    var rows := Filter(db.organizations, (o: Organization) => o.slug == Some(slug));
    if |rows| == 0 then None
    else
      assert rows[0] in rows;
      Some(rows[0])
  }

  /**
   * The organisation to read from: the one the slug names when a slug is
   * given, otherwise the organisation of the user's first membership.
   */
  function TargetOrganisation(db: Db, userId: string, slug: Option<string>): (r: Result<string, Response>)
    ensures r.Success? ==> IsMember(db, userId, r.value)
    ensures r.Failure? ==> r.error.Refused?
    ensures (forall m :: m in db.members ==> m.userId != userId) ==> r == Failure(Refused(403, NoMembership))
    ensures (exists m :: m in db.members && m.userId == userId) && Truthy(slug) ==>
      && (OrganisationBySlug(db, slug.value).None? ==> r == Failure(Refused(404, OrganisationNotFound)))
      && (OrganisationBySlug(db, slug.value).Some? ==>
            var o := OrganisationBySlug(db, slug.value).value;
            (if IsMember(db, userId, o.id) then r == Success(o.id) else r == Failure(Refused(403, NotAMember))))
    ensures (exists m :: m in db.members && m.userId == userId) && !Truthy(slug) ==>
      exists j :: 0 <= j < |db.members| && db.members[j].userId == userId
                  && (forall k :: 0 <= k < j ==> db.members[k].userId != userId)
                  && r == Success(db.members[j].organizationId)
  {
    var memberships := Filter(db.members, (m: Member) => m.userId == userId);
    if |memberships| == 0 then
      Failure(Refused(403, NoMembership))
    else if Truthy(slug) then
      assert memberships[0] in memberships;
      match OrganisationBySlug(db, slug.value)
      case None => Failure(Refused(404, OrganisationNotFound))
      case Some(o) =>
        if exists m :: m in memberships && m.organizationId == o.id then Success(o.id)
        else Failure(Refused(403, NotAMember))
    else
      FilterFirst(db.members, (m: Member) => m.userId == userId);
      Success(memberships[0].organizationId)
  }

  /** The projects to read: those of the organisation, narrowed to one id when a project id is given. */
  function TargetProjects(db: Db, orgId: string, projectId: Option<string>): (r: seq<Project>)
    ensures forall p :: p in r <==>
      p in db.projects && p.organizationId == orgId && (Truthy(projectId) ==> p.id == projectId.value)
  {
    Filter(db.projects, (p: Project) => p.organizationId == orgId && (Truthy(projectId) ==> p.id == projectId.value))
  }

  /** What the API returns for one secret row, if its current version holds a value. */
  predicate Listable(db: Db, s: Secret) {
    CurrentValue(db, s) != ""
  }

  function Item(db: Db, s: Secret): Cli.Secret {
    Cli.Secret(s.key, CurrentValue(db, s), Cli.Text)
  }

  /** The inner loop: the listable rows of `rows`, in order. */
  function CollectSecrets(db: Db, rows: seq<Secret>): (r: seq<Cli.Secret>)
    ensures |r| <= |rows|
    ensures forall x :: x in r ==> exists s :: s in rows && Listable(db, s) && x == Item(db, s)
    ensures forall s :: s in rows && Listable(db, s) ==> Item(db, s) in r
  {
    if |rows| == 0 then []
    else
      var rest := CollectSecrets(db, rows[1..]);
      var r := if Listable(db, rows[0]) then [Item(db, rows[0])] + rest else rest;
      assert forall x :: x in r ==> (Listable(db, rows[0]) && x == Item(db, rows[0])) || x in rest;
      assert forall s :: s in rows[1..] ==> s in rows;
      assert forall s :: s in rows ==> s == rows[0] || s in rows[1..];
      r
  }

  /** The outer loop: for each project in order, its secrets in table order. */
  function CollectProjects(db: Db, projects: seq<Project>): (r: seq<Cli.Secret>)
    ensures forall x :: x in r ==>
      exists p, s :: p in projects && s in db.secrets && s.projectId == p.id && Listable(db, s) && x == Item(db, s)
    ensures forall p, s :: p in projects && s in db.secrets && s.projectId == p.id && Listable(db, s) ==> Item(db, s) in r
  {
    if |projects| == 0 then []
    else
      var p := projects[0];
      var here := CollectSecrets(db, Filter(db.secrets, (s: Secret) => s.projectId == p.id));
      var rest := CollectProjects(db, projects[1..]);
      assert forall q :: q in projects[1..] ==> q in projects;
      assert forall q :: q in projects ==> q == p || q in projects[1..];
      here + rest
  }

  /** The route, after the authentication middleware let `userId` through. */
  function GetSecrets(db: Db, userId: string, projectId: Option<string>, slug: Option<string>): (r: Response)
    ensures r.Refused? ==> r.status in {403, 404}
    ensures r.Listed? <==> TargetOrganisation(db, userId, slug).Success?
    ensures r.Listed? ==> forall x :: x in r.secrets ==> x.value != "" && x.secretType == Cli.Text
    ensures r.Listed? ==>
      var org := TargetOrganisation(db, userId, slug).value;
      && IsMember(db, userId, org)
      && (forall x :: x in r.secrets ==>
            exists p, s :: p in db.projects && p.organizationId == org && (Truthy(projectId) ==> p.id == projectId.value)
                           && s in db.secrets && s.projectId == p.id && x == Item(db, s))
      && (forall p, s ::
            (&& p in db.projects && p.organizationId == org && (Truthy(projectId) ==> p.id == projectId.value)
             && s in db.secrets && s.projectId == p.id && Listable(db, s))
            ==> Item(db, s) in r.secrets)
  {
    match TargetOrganisation(db, userId, slug)
    case Failure(e) => e
    case Success(org) =>
      var projects := TargetProjects(db, org, projectId);
      if |projects| == 0 then Listed([])
      else Listed(CollectProjects(db, projects))
  }

  // ---- Properties ----

  /** A user is never given a secret of an organisation they do not belong to, whatever slug they send. */
  lemma NoCrossOrganisationRead(db: Db, userId: string, projectId: Option<string>, slug: Option<string>, x: Cli.Secret)
    requires GetSecrets(db, userId, projectId, slug).Listed?
    requires x in GetSecrets(db, userId, projectId, slug).secrets
    ensures exists p, s :: p in db.projects && IsMember(db, userId, p.organizationId)
                           && s in db.secrets && s.projectId == p.id && x == Item(db, s)
  {
    var org := TargetOrganisation(db, userId, slug).value;
    var p, s :| p in db.projects && p.organizationId == org && (Truthy(projectId) ==> p.id == projectId.value)
                && s in db.secrets && s.projectId == p.id && x == Item(db, s);
    assert IsMember(db, userId, p.organizationId);
  }

  /** A secret whose current version is missing or empty is left out of the answer. */
  lemma EmptyCurrentValueOmitted(db: Db, userId: string, projectId: Option<string>, slug: Option<string>, s: Secret)
    requires GetSecrets(db, userId, projectId, slug).Listed?
    requires s in db.secrets && !Listable(db, s)
    ensures Item(db, s) !in GetSecrets(db, userId, projectId, slug).secrets
  {
  }
}
