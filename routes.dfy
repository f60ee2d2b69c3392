/**
 * The one route of src/app/App.tsx that carries data: `/projects/:id`
 * hands the path segment after `/projects/` to the detail page as `id`.
 * Together with the card link and the detail page lookup, this closes the
 * round trip from a card in the listing to that project's own page.
 */
module Routes {
  import opened Catalogue
  import ProjectCard
  import ProjectDetail

  /** A route parameter: one non-empty path segment. */
  predicate IsSegment(s: string) {
    s != [] && forall i :: 0 <= i < |s| ==> s[i] != '/'
  }

  /** The `id` parameter of `/projects/:id`, or nothing when the path has another shape. */
  function DetailRouteId(path: string): (r: Option<string>)
    ensures r.Some? <==> exists id :: IsSegment(id) && path == ProjectCard.DetailPrefix + id
    ensures r.Some? ==> IsSegment(r.value) && path == ProjectCard.DetailPrefix + r.value
  {
    var n := |ProjectCard.DetailPrefix|;
    if |path| > n && path[..n] == ProjectCard.DetailPrefix && IsSegment(path[n..]) then
      assert path == ProjectCard.DetailPrefix + path[n..];
      Some(path[n..])
    else
      assert forall id :: IsSegment(id) && path == ProjectCard.DetailPrefix + id ==> path[n..] == id;
      None
  }

  /**
   * In a catalogue with distinct ids, following a card's link and looking
   * the parameter up shows the card's own project.
   */
  lemma CardLinkRoundTrip(ps: seq<Project>, k: nat)
    requires DistinctIds(ps) && k < |ps| && IsSegment(ps[k].id)
    ensures DetailRouteId(ProjectCard.CardLink(ps[k])) == Some(ps[k].id)
    ensures ProjectDetail.FindProject(ps, ps[k].id) == Some(ps[k])
    ensures ProjectDetail.DetailPage(ps, ps[k].id).Detail?
    ensures ProjectDetail.DetailPage(ps, ps[k].id).header.title == ps[k].title
  {
    ProjectDetail.FindOwnId(ps, k);
  }

  /** Every catalogue id is a plain path segment. */
  lemma CatalogueIdsAreSegments(k: nat)
    requires k < |CatalogueIds|
    ensures k < |Projects| && IsSegment(Projects[k].id)
  {
    CatalogueIdsDistinct();
    assert Projects[k].id == CatalogueIds[k];
  }

  /** Every card of the catalogue opens its own project's page. */
  lemma CatalogueLinksResolve(k: nat)
    requires k < |CatalogueIds|
    ensures k < |Projects| && match DetailRouteId(ProjectCard.CardLink(Projects[k]))
            case Some(id) => ProjectDetail.FindProject(Projects, id) == Some(Projects[k])
            case None => false
  {
    CatalogueIdsDistinct();
    CatalogueIdsAreSegments(k);
    CardLinkRoundTrip(Projects, k);
  }
}
