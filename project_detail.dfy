/**
 * The project detail page (src/pages/ProjectDetail.tsx): looking up the
 * project named by the route, deciding which media the project has, and
 * placing the gallery, video and highlights cards into two columns under
 * an optional interactive hero.
 */
module ProjectDetail {
  import opened Catalogue

  // ---------------------------------------------------------------------
  // Lookup

  /** `projects.find((x) => x.id === id)`: the first project with that id, if any. */
  function FindProject(ps: seq<Project>, id: string): (r: Option<Project>)
    ensures r.None? <==> forall j :: 0 <= j < |ps| ==> ps[j].id != id
    ensures r.Some? ==> r.value.id == id
    ensures r.Some? ==> exists i :: 0 <= i < |ps| && ps[i] == r.value
                                    && forall j :: 0 <= j < i ==> ps[j].id != id
  {
    if ps == [] then None
    else if ps[0].id == id then
      Some(ps[0])
    else
      var r := FindProject(ps[1..], id);
      assert r.Some? ==> exists i :: 0 <= i < |ps| && ps[i] == r.value
                                     && forall j :: 0 <= j < i ==> ps[j].id != id by {
        if r.Some? {
          var i :| 0 <= i < |ps[1..]| && ps[1..][i] == r.value
                   && forall j :: 0 <= j < i ==> ps[1..][j].id != id;
          assert ps[i + 1] == r.value;
          assert forall j :: 0 <= j < i + 1 ==> ps[j].id != id by {
            forall j | 0 <= j < i + 1 ensures ps[j].id != id {
              if j > 0 { assert ps[j] == ps[1..][j - 1]; }
            }
          }
        }
      }
      assert r.None? ==> forall j :: 0 <= j < |ps| ==> ps[j].id != id by {
        if r.None? {
          forall j | 0 <= j < |ps| ensures ps[j].id != id {
            if j > 0 { assert ps[j] == ps[1..][j - 1]; }
          }
        }
      }
      r
  }

  /** With distinct ids, looking up a project's own id finds that project. */
  lemma FindOwnId(ps: seq<Project>, k: nat)
    requires DistinctIds(ps) && k < |ps|
    ensures FindProject(ps, ps[k].id) == Some(ps[k])
  {
    var r := FindProject(ps, ps[k].id);
    var i :| 0 <= i < |ps| && ps[i] == r.value && forall j :: 0 <= j < i ==> ps[j].id != ps[k].id;
    if i < k {
      assert ps[i].id == ps[k].id;
    }
  }

  // ---------------------------------------------------------------------
  // Presence flags

  /** `Boolean(s)` for an optional string: present and not empty. */
  predicate Truthy(s: Option<string>) {
    s.Some? && s.value != ""
  }

  datatype Flags = Flags(hasModel: bool, hasImages: bool, hasVideo: bool, hasIframe: bool) {
    /** An interactive hero is shown for a 3D model or an embedded viewer. */
    predicate HasInteractive() {
      hasModel || hasIframe
    }
  }

  /** The presence flags of a project; an empty model path counts as absent. */
  function FlagsOf(p: Project): (f: Flags)
    ensures f.hasModel <==> p.modelGlb.Some? && p.modelGlb.value != ""
    ensures f.hasImages <==> p.images.Some? && |p.images.value| > 0
    ensures f.hasVideo <==> p.video.Some?
    ensures f.hasIframe <==> p.iframe.Some?
    ensures f.HasInteractive() <==> Truthy(p.modelGlb) || p.iframe.Some?
  {
    Flags(Truthy(p.modelGlb), p.images.Some? && |p.images.value| > 0, p.video.Some?, p.iframe.Some?)
  }

  // ---------------------------------------------------------------------
  // The interactive hero

  /** The default embed height when the project gives none. */
  const DefaultIframeHeight: int := 800

  datatype Viewer = QuantumViewer(src: string, height: int) | ThreeModel(url: string) | NoViewer

  datatype Hero = Hero(heading: string, viewer: Viewer)

  function HeroOf(p: Project): Option<Hero> {
    var f := FlagsOf(p);
    if !f.HasInteractive() then None
    else
      var heading := if f.hasIframe then "Interactive Model" else "3D Model";
      var viewer :=
        if f.hasIframe then QuantumViewer(p.iframe.value.src,
                                          match p.iframe.value.height
                                          case Some(h) => h
                                          case None => DefaultIframeHeight)
        else if f.hasModel then ThreeModel(p.modelGlb.value)
        else NoViewer;
      Some(Hero(heading, viewer))
  }

  /** The hero exists exactly for interactive projects, prefers the embed and always has a viewer. */
  lemma HeroRule(p: Project)
    ensures HeroOf(p).Some? <==> Truthy(p.modelGlb) || p.iframe.Some?
    ensures HeroOf(p).Some? ==> HeroOf(p).value.viewer != NoViewer
    ensures p.iframe.Some? ==> HeroOf(p) == Some(Hero("Interactive Model",
              QuantumViewer(p.iframe.value.src,
                            if p.iframe.value.height.Some? then p.iframe.value.height.value else 800)))
    ensures p.iframe.None? && Truthy(p.modelGlb) ==> HeroOf(p) == Some(Hero("3D Model", ThreeModel(p.modelGlb.value)))
  {
  }

  // ---------------------------------------------------------------------
  // The two columns

  datatype Card = GalleryCard(images: seq<Image>) | VideoCard(video: Video) | HighlightsCard(items: seq<string>)

  datatype Primary = GalleryFirst | VideoFirst

  /** Which media card heads the left column. */
  function LeftPrimary(f: Flags): Primary {
    if f.HasInteractive() then (if f.hasVideo then VideoFirst else GalleryFirst)
    else (if f.hasImages then GalleryFirst else VideoFirst)
  }

  /** The gallery card, or nothing when there are no images. */
  function GalleryCardOf(p: Project): seq<Card> {
    if FlagsOf(p).hasImages then [GalleryCard(p.images.value)] else []
  }

  /** The video card, or nothing when there is no video. */
  function VideoCardOf(p: Project): seq<Card> {
    if FlagsOf(p).hasVideo then [VideoCard(p.video.value)] else []
  }

  function LeftColumn(p: Project): seq<Card> {
    if LeftPrimary(FlagsOf(p)) == GalleryFirst then GalleryCardOf(p) else VideoCardOf(p)
  }

  function RightColumn(p: Project): seq<Card> {
    var f := FlagsOf(p);
    var lp := LeftPrimary(f);
    (if lp == VideoFirst && f.hasImages then GalleryCardOf(p) else [])
    + (if !f.HasInteractive() && lp == GalleryFirst && f.hasVideo then VideoCardOf(p) else [])
    + [HighlightsCard(p.highlights)]
  }

  predicate IsGallery(c: Card) { c.GalleryCard? }
  predicate IsVideo(c: Card) { c.VideoCard? }
  predicate IsHighlights(c: Card) { c.HighlightsCard? }

  /** How many cards of `cs` are galleries. */
  function GalleryCount(cs: seq<Card>): nat {
    if cs == [] then 0 else (if IsGallery(cs[0]) then 1 else 0) + GalleryCount(cs[1..])
  }

  function VideoCount(cs: seq<Card>): nat {
    if cs == [] then 0 else (if IsVideo(cs[0]) then 1 else 0) + VideoCount(cs[1..])
  }

  function HighlightsCount(cs: seq<Card>): nat {
    if cs == [] then 0 else (if IsHighlights(cs[0]) then 1 else 0) + HighlightsCount(cs[1..])
  }

  lemma {:induction false} CountsAdd(a: seq<Card>, b: seq<Card>)
    ensures GalleryCount(a + b) == GalleryCount(a) + GalleryCount(b)
    ensures VideoCount(a + b) == VideoCount(a) + VideoCount(b)
    ensures HighlightsCount(a + b) == HighlightsCount(a) + HighlightsCount(b)
  {
    if a == [] {
      assert a + b == b;
    } else {
      assert (a + b)[1..] == a[1..] + b;
      CountsAdd(a[1..], b);
    }
  }

  /**
   * The left column holds at most one card and is empty only when the
   * project has neither images nor video; the video leads it exactly when
   * there is a video and either a hero above or no images to show.
   */
  lemma LeftColumnChoice(p: Project)
    ensures |LeftColumn(p)| <= 1
    ensures LeftColumn(p) != [] <==> (p.images.Some? && |p.images.value| > 0) || p.video.Some?
    ensures LeftColumn(p) != [] && IsVideo(LeftColumn(p)[0]) <==>
              p.video.Some? && (Truthy(p.modelGlb) || p.iframe.Some? || !(p.images.Some? && |p.images.value| > 0))
  {
  }

  /**
   * Across both columns the gallery card appears once when there are
   * images and never otherwise, the video card once when there is a video
   * and never otherwise, and the highlights card exactly once, closing
   * the right column.
   */
  lemma EveryCardShownOnce(p: Project)
    ensures GalleryCount(LeftColumn(p) + RightColumn(p)) == if p.images.Some? && |p.images.value| > 0 then 1 else 0
    ensures VideoCount(LeftColumn(p) + RightColumn(p)) == if p.video.Some? then 1 else 0
    ensures HighlightsCount(LeftColumn(p) + RightColumn(p)) == 1
    ensures RightColumn(p)[|RightColumn(p)| - 1] == HighlightsCard(p.highlights)
  {
    var f := FlagsOf(p);
    var lp := LeftPrimary(f);
    var g := if lp == VideoFirst && f.hasImages then GalleryCardOf(p) else [];
    var v := if !f.HasInteractive() && lp == GalleryFirst && f.hasVideo then VideoCardOf(p) else [];
    var h := [HighlightsCard(p.highlights)];
    assert RightColumn(p) == g + v + h;
    CountsAdd(LeftColumn(p), RightColumn(p));
    CountsAdd(g + v, h);
    CountsAdd(g, v);
    assert GalleryCount(h) == 0 && VideoCount(h) == 0 && HighlightsCount(h) == 1;
  }

  // ---------------------------------------------------------------------
  // The page

  datatype Header = Header(year: string, category: string, title: string, tagline: string, tags: seq<string>)

  /** The full-width PDF block: a link to the file and an embed titled after the project. */
  datatype PdfSection = PdfSection(href: string, embedTitle: string)

  datatype Page =
    | NotFound
    | Detail(header: Header, hero: Option<Hero>, left: seq<Card>, right: seq<Card>, pdf: Option<PdfSection>)

  /** The PDF block appears exactly when the project has a non-empty PDF path, and links to it. */
  function PdfSectionOf(p: Project): (r: Option<PdfSection>)
    ensures r.Some? <==> p.pdf.Some? && p.pdf.value != ""
    ensures r.Some? ==> r.value.href == p.pdf.value && r.value.embedTitle == p.title + " PDF"
  {
    if Truthy(p.pdf) then Some(PdfSection(p.pdf.value, p.title + " PDF")) else None
  }

  /** The page for route id `id` over catalogue `ps`. */
  function DetailPage(ps: seq<Project>, id: string): Page {
    match FindProject(ps, id)
    case None => NotFound
    case Some(p) =>
      Detail(Header(p.year, p.category, p.title, p.tagline, p.tags),
             HeroOf(p), LeftColumn(p), RightColumn(p), PdfSectionOf(p))
  }

  /**
   * The page shows "not found" exactly when no project has the id;
   * otherwise it shows the first matching project, with all its tags, and
   * the PDF block exactly when it has a non-empty PDF path.
   */
  lemma DetailPageRule(ps: seq<Project>, id: string)
    ensures DetailPage(ps, id).NotFound? <==> forall j :: 0 <= j < |ps| ==> ps[j].id != id
    ensures DetailPage(ps, id).Detail? ==>
              exists i :: 0 <= i < |ps| && ps[i].id == id
                          && (forall j :: 0 <= j < i ==> ps[j].id != id)
                          && DetailPage(ps, id).header.title == ps[i].title
                          && DetailPage(ps, id).header.tags == ps[i].tags
                          && (DetailPage(ps, id).pdf.Some? <==> Truthy(ps[i].pdf))
  {
    if DetailPage(ps, id).Detail? {
      var p := FindProject(ps, id).value;
      var i :| 0 <= i < |ps| && ps[i] == p && forall j :: 0 <= j < i ==> ps[j].id != id;
    }
  }
}
