/**
 * The summary card the listing shows for one project
 * (src/components/ProjectCard.tsx): a link to the detail page and at
 * most five of the project's tags.
 */
module ProjectCard {
  import opened Catalogue

  /** The most tags a card shows. */
  const MaxCardTags: nat := 5

  /** The path of a project's detail page. */
  const DetailPrefix: string := "/projects/"

  /** `tags.slice(0, 5)`: the leading tags, up to five of them. */
  function ShownTags(tags: seq<string>): (r: seq<string>)
    ensures |r| <= MaxCardTags
    ensures |r| == if |tags| < MaxCardTags then |tags| else MaxCardTags
    ensures r == tags[..|r|]
  {
    if |tags| <= MaxCardTags then tags else tags[..MaxCardTags]
  }

  /** A tag list of five or fewer is shown whole. */
  lemma ShortTagListsShownWhole(tags: seq<string>)
    requires |tags| <= MaxCardTags
    ensures ShownTags(tags) == tags
  {
  }

  /** The link target `/projects/<id>`. */
  function CardLink(p: Project): (r: string)
    ensures |r| == |DetailPrefix| + |p.id|
    ensures r[..|DetailPrefix|] == DetailPrefix && r[|DetailPrefix|..] == p.id
  {
    DetailPrefix + p.id
  }

  /** What a card displays. */
  datatype CardView = CardView(
    link: string,
    category: string,
    year: string,
    title: string,
    tagline: string,
    tags: seq<string>)

  function Card(p: Project): (c: CardView)
    ensures c.link == CardLink(p)
    ensures c.tags == ShownTags(p.tags)
    ensures c.title == p.title && c.tagline == p.tagline
    ensures c.category == p.category && c.year == p.year
  {
    CardView(CardLink(p), p.category, p.year, p.title, p.tagline, ShownTags(p.tags))
  }
}
