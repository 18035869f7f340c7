/**
 * The web app's root page: it sends a visitor to the login page, to the
 * organisation-creation page, or to an organisation's page, making the
 * first organisation active when there is no usable active one.
 */
module RootPage {
  import opened Wrappers
  import opened Text

  const LoginPath := "/login"
  const CreateOrganisationPath := "/organisations/create"

  /** An organisation as the listing returns it. */
  datatype Org = Org(id: string, slug: Option<string>)

  /** The page's decision: the organisation to make active, if any, and where to redirect. */
  datatype Decision = Decision(setActive: Option<string>, redirect: string)

  /** The first organisation in the list with this id. */
  function FindOrg(orgs: seq<Org>, id: string): (r: Option<Org>)
    ensures r.Some? ==> r.value in orgs && r.value.id == id
    ensures r.None? <==> forall o :: o in orgs ==> o.id != id
  {
    if |orgs| == 0 then None
    else if orgs[0].id == id then Some(orgs[0])
    else FindOrg(orgs[1..], id)
  }

  /** The page of an organisation: `/` followed by its slug. */
  function OrgPath(slug: string): string {
    "/" + slug
  }

  /** The session names an active organisation that is in the listing and has a slug to open. */
  predicate UsableActive(active: Option<string>, orgs: seq<Org>) {
    Truthy(active) && FindOrg(orgs, active.value).Some? && Truthy(FindOrg(orgs, active.value).value.slug)
  }

  /**
   * `session` is the signed-in session's active organisation id (None
   * when nobody is signed in), `orgs` what the organisation listing
   * returned (None when it returned nothing).
   */
  function Decide(session: Option<Option<string>>, orgs: Option<seq<Org>>): (d: Decision)
    ensures session.None? ==> d == Decision(None, LoginPath)
    ensures session.Some? && (orgs.None? || |orgs.value| == 0) ==> d == Decision(None, CreateOrganisationPath)
    ensures d.setActive.Some? ==> session.Some? && orgs.Some? && |orgs.value| > 0 && d.setActive.value == orgs.value[0].id
    ensures session.Some? && Truthy(session.value) && orgs.Some? ==>
      var found := FindOrg(orgs.value, session.value.value);
      found.Some? && Truthy(found.value.slug) ==> d == Decision(None, OrgPath(found.value.slug.value))
    ensures session.Some? && orgs.Some? && |orgs.value| > 0 && !UsableActive(session.value, orgs.value) ==>
      var first := orgs.value[0];
      d == Decision(Some(first.id), if Truthy(first.slug) then OrgPath(first.slug.value) else CreateOrganisationPath)
  {
    if session.None? then Decision(None, LoginPath)
    else if orgs.None? || |orgs.value| == 0 then Decision(None, CreateOrganisationPath)
    else
      var list := orgs.value;
      var active := session.value;
      var found := if Truthy(active) then FindOrg(list, active.value) else None;
      if found.Some? && Truthy(found.value.slug) then Decision(None, OrgPath(found.value.slug.value))
      else
        var first := list[0];
        Decision(Some(first.id), if Truthy(first.slug) then OrgPath(first.slug.value) else CreateOrganisationPath)
  }

  // ---- Properties ----

  /**
   * Every redirect goes to the login page, the creation page, or the page
   * of an organisation in the listing; and an organisation is made active
   * only when the active one was missing, unknown or had no slug.
   */
  lemma RedirectTargets(session: Option<Option<string>>, orgs: Option<seq<Org>>)
    ensures var d := Decide(session, orgs);
      || d.redirect == LoginPath
      || d.redirect == CreateOrganisationPath
      || (orgs.Some? && exists o :: o in orgs.value && Truthy(o.slug) && d.redirect == OrgPath(o.slug.value))
    ensures var d := Decide(session, orgs);
      d.setActive.Some? ==>
        !(Truthy(session.value) && FindOrg(orgs.value, session.value.value).Some?
          && Truthy(FindOrg(orgs.value, session.value.value).value.slug))
  {
    if session.Some? && orgs.Some? && |orgs.value| > 0 {
      assert orgs.value[0] in orgs.value;
    }
  }

  /** Without an active organisation, the first listed one is made active and opened. */
  lemma FirstOrganisationOpened(id: string, slug: string, rest: seq<Org>)
    requires slug != ""
    ensures Decide(Some(None), Some([Org(id, Some(slug))] + rest)) == Decision(Some(id), "/" + slug)
  {
  }

  /** A known active organisation without a slug falls back to the first one, which is made active. */
  lemma SluglessActiveFallsBack(first: Org, active: string)
    requires first.id != active
    ensures Decide(Some(Some(active)), Some([first, Org(active, None)])).setActive == Some(first.id)
  {
    assert [first, Org(active, None)][1..] == [Org(active, None)];
  }
}
