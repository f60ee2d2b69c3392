# Portfolio site: project search, detail layout, gallery and cards

This project models the small amount of selection and matching logic in a
client-rendered portfolio site. The logic runs over the site's static
project catalogue:

- **Projects page.** It builds the category list: "All", then every
  distinct project category, sorted. It filters the catalogue by category
  and by a search query. The match is case-insensitive, ignores
  surrounding whitespace, and looks for a substring of the project's
  title, tagline and tags.
- **Project detail page.** It finds the project named by the route. It
  decides which media the project has: a 3D model, an embedded viewer,
  images or a video. It places the gallery, video and highlights cards in
  two columns under an optional interactive hero. It adds a PDF block
  when the project has a PDF.
- **Image gallery.** It has one piece of state, the active image index,
  which thumbnail clicks set. The main image and the highlighted
  thumbnail are derived from that index.
- **Project card.** It shows at most five tags and links to
  `/projects/<id>`. That route leads back to the detail page for the same
  project.

Modules: `JsText` holds the JavaScript built-ins the pages rely on; each
other module models one source file.

- `Catalogue` (catalogue.dfy): the `Project` record and the six-project
  catalogue.
- `JsText` (js_text.dfy): the JavaScript string operations the pages
  use: `toLowerCase`, `trim`, `includes`, `join`, and the UTF-16
  code-unit order of the default `sort()`.
- `ProjectSearch` (project_search.dfy): the projects page.
- `ProjectDetail` (project_detail.dfy): the detail page.
- `ImageGallery` (image_gallery.dfy): the gallery. The image list is fixed
  for the component's lifetime. The `Gallery` class holds the `active`
  field, and `Select` changes it.
- `ProjectCard` (project_card.dfy): the card.
- `Routes` (routes.dfy): the `/projects/:id` route and the round trip from
  a card link to the detail page.

The site's quantum viewer, src/components/QuantumViewer.tsx:1-24, only
embeds an iframe that points at an external address. The repository has no
frame decoder, transfer function, mesh builder or playback timer. That
viewer therefore appears here only as the `QuantumViewer(src, height)` hero
viewer.

## Model

| member | source | states |
|---|---|---|
| `Catalogue.CatalogueIdsDistinct` | src/data/projects.ts:16-155 | the catalogue holds six projects whose ids are pairwise distinct |
| `JsText.LowerIdempotent` | src/pages/Projects.tsx:15 | lower-casing a lower-cased string changes nothing |
| `JsText.LeadingSpace` | src/pages/Projects.tsx:15 | the count of characters `trim` removes at the front: all of them are whitespace, and the next character, if any, is not |
| `JsText.TrailingSpace` | src/pages/Projects.tsx:15 | the count of characters `trim` removes at the back: all of them are whitespace, and the character before them, if any, is not |
| `JsText.TrimStartSkipsWhitespace` | src/pages/Projects.tsx:15 | whitespace put in front of a string is removed by the leading cut |
| `JsText.TrimEndSkipsWhitespace` | src/pages/Projects.tsx:15 | whitespace put after a string is removed by the trailing cut |
| `JsText.TrimStartAppend` | src/pages/Projects.tsx:15 | the leading cut of a string that has a non-whitespace character stops inside it, so anything appended is kept |
| `JsText.TrimIsMiddle` | src/pages/Projects.tsx:15 | `trim` returns a contiguous middle slice with only whitespace on either side, and that slice has no whitespace at either end |
| `JsText.TrimEmptyIff` | src/pages/Projects.tsx:15 | the trimmed query is empty exactly when the query is empty or all whitespace |
| `JsText.TrimPadded` | src/pages/Projects.tsx:15 | adding whitespace on both sides of a string does not change its trim |
| `JsText.TrimIsSubstring` | src/pages/Projects.tsx:15 | the trimmed string occurs inside the original |
| `JsText.Includes` | src/pages/Projects.tsx:19 | `hay.includes(needle)` holds exactly when `needle` occurs at some index of `hay` |
| `JsText.SubstringTransitive` | src/pages/Projects.tsx:18-19 | a substring of a substring of a text is a substring of that text |
| `JsText.JoinContainsItems` | src/pages/Projects.tsx:18 | every tag occurs inside the tags joined with spaces |
| `JsText.CodeUnitsOfChar` | src/pages/Projects.tsx:11 | a character becomes one UTF-16 code unit below U+10000 and two code units otherwise; each unit is below 0x10000 |
| `JsText.StringLeqTotal` | src/pages/Projects.tsx:11 | the default sort comparison relates any two strings in at least one direction |
| `JsText.StringLeqTransitive` | src/pages/Projects.tsx:11 | the default sort comparison is transitive |
| `JsText.CodeUnitsOfCharInjective` | src/pages/Projects.tsx:11 | two characters with the same leading code units are the same character, and what follows them is the same too |
| `JsText.CodeUnitsInjective` | src/pages/Projects.tsx:11 | different strings have different UTF-16 encodings |
| `JsText.StringLeqAntisymmetric` | src/pages/Projects.tsx:11 | two strings that each sort no later than the other are equal, so the comparison is a total order |
| `JsText.StringLeq` | src/pages/Projects.tsx:11 | definition: lexicographic comparison of UTF-16 code units, a proper prefix first; `StringLeqTotal`, `StringLeqTransitive` and `StringLeqAntisymmetric` prove it is a total order |
| `JsText.Lower` | src/pages/Projects.tsx:15 | the result has the input's length, and each character is the input's character with A-Z mapped to a-z |
| `JsText.Trim` | src/pages/Projects.tsx:15 | definition: the input without its leading and trailing whitespace; `TrimIsMiddle` proves it is the one middle slice with only whitespace around it |
| `JsText.Join` | src/pages/Projects.tsx:18 | definition: the items with the separator between each adjacent pair; `JoinContainsItems` proves every item occurs in the result |
| `ProjectSearch.CategoryColumn` | src/pages/Projects.tsx:10 | element i is the category of project i, and the length is the catalogue length |
| `ProjectSearch.Distinct` | src/pages/Projects.tsx:10 | collecting into a `Set` gives a list with no duplicates and exactly the input's members |
| `ProjectSearch.InsertMultiset` | src/pages/Projects.tsx:11 | one insertion step adds exactly the inserted string |
| `ProjectSearch.InsertSorted` | src/pages/Projects.tsx:11 | inserting into an ascending list keeps it ascending |
| `ProjectSearch.InsertNoDuplicates` | src/pages/Projects.tsx:11 | inserting a new string into a duplicate-free list keeps it duplicate-free |
| `ProjectSearch.Sort` | src/pages/Projects.tsx:11 | `sort()` returns an ascending permutation of its input, and a duplicate-free input gives a duplicate-free result |
| `ProjectSearch.SortedPermutationUnique` | src/pages/Projects.tsx:11 | two ascending lists with the same elements, counted with multiplicity, are equal |
| `ProjectSearch.SortIsTheOrder` | src/pages/Projects.tsx:11 | every ascending rearrangement of a list is the one `Sort` returns, so `sort()` has exactly one possible result |
| `ProjectSearch.NoDuplicatesMultiset` | src/pages/Projects.tsx:10 | a list without duplicates holds each of its elements exactly once |
| `ProjectSearch.CategoriesUnique` | src/pages/Projects.tsx:9-12 | any ascending, duplicate-free list of exactly the projects' categories is the category list without its leading "All" |
| `ProjectSearch.Categories` | src/pages/Projects.tsx:9-12 | the list starts with "All"; the rest is ascending with no duplicates and contains exactly the categories of the projects |
| `ProjectSearch.EveryCategoryListed` | src/pages/Projects.tsx:10-11 | every project's category appears after "All" |
| `ProjectSearch.SearchText` | src/pages/Projects.tsx:18 | definition: title, tagline and the space-joined tags, separated by spaces and lower-cased; `SearchingATagFindsProject` and `SearchingTheTitleFindsProject` show its parts are found |
| `ProjectSearch.NormalizeQuery` | src/pages/Projects.tsx:15 | definition: the query lower-cased, then trimmed; `NormalizedWithinLower` and `CaseAndPaddingIgnored` state what it ignores |
| `ProjectSearch.InCategory` | src/pages/Projects.tsx:17 | definition: the category is "All" or equals the project's; `CategoryRespected` states the consequence |
| `ProjectSearch.MatchesQuery` | src/pages/Projects.tsx:19 | definition: an empty normalised query, or one the search text includes; `MatchesIsSubstring` states it against substring occurrence |
| `ProjectSearch.FilterProjects` | src/pages/Projects.tsx:16-21 | definition: the projects passing both tests, in catalogue order; `FilterIsSubsequence` and `FilterMembership` prove it |
| `ProjectSearch.Filtered` | src/pages/Projects.tsx:14-22 | definition: `FilterProjects` with the normalised query; `FilteredSpec` states what it lists |
| `ProjectSearch.MatchesIsSubstring` | src/pages/Projects.tsx:19 | the query test holds exactly when the normalised query occurs in the search text, and the empty query always passes |
| `ProjectSearch.FilterIsSubsequence` | src/pages/Projects.tsx:16 | the filter keeps a subsequence of the catalogue, in catalogue order |
| `ProjectSearch.FilterMembership` | src/pages/Projects.tsx:16-20 | a project is listed exactly when it is in the catalogue, its category passes, and its lower-cased title, tagline and tags text contains the lower-cased, trimmed query |
| `ProjectSearch.FilteredSpec` | src/pages/Projects.tsx:14-22 | the listing is an order-preserving subsequence of the catalogue, and it contains exactly the projects that pass both tests |
| `ProjectSearch.CategoryRespected` | src/pages/Projects.tsx:17 | when the category is not "All", every listed project has that category |
| `ProjectSearch.FilterNothing` | src/pages/Projects.tsx:17-19 | the category "All" with an empty normalised query keeps the whole catalogue |
| `ProjectSearch.BlankQueryListsAll` | src/pages/Projects.tsx:15-19 | category "All" with an empty or whitespace-only query lists the whole catalogue unchanged |
| `ProjectSearch.QueryNormalizationInvariant` | src/pages/Projects.tsx:15 | lower-casing the query or padding it with whitespace does not change the listing |
| `ProjectSearch.FilterMonotone` | src/pages/Projects.tsx:16-20 | when normalised query u occurs inside normalised query v, the listing for v is a subsequence of the listing for u |
| `ProjectSearch.NarrowerQueryListsSubset` | src/pages/Projects.tsx:18-19 | same as FilterMonotone, stated on raw queries: the more specific query lists a subsequence, hence a subset |
| `ProjectSearch.SubsequenceMembership` | src/pages/Projects.tsx:16 | every element of a subsequence is an element of the sequence |
| `ProjectSearch.LowerKeepsSubstring` | src/pages/Projects.tsx:18-19 | lower-casing keeps a substring a substring |
| `ProjectSearch.NormalizedWithinLower` | src/pages/Projects.tsx:15 | the normalised query occurs inside the lower-cased query |
| `ProjectSearch.PieceOfTextFindsProject` | src/pages/Projects.tsx:18-19 | a query whose lower-cased form occurs in the lower-cased title, tagline and tags text keeps the project, whatever the query's letter case |
| `ProjectSearch.SearchingATagFindsProject` | src/pages/Projects.tsx:18-19 | a query equal to one of a project's tags up to letter case, padded with any whitespace, lists that project |
| `ProjectSearch.SearchingTheTitleFindsProject` | src/pages/Projects.tsx:18-19 | a query equal to a project's title up to letter case lists that project |
| `ProjectSearch.CaseAndPaddingIgnored` | src/pages/Projects.tsx:15 | two queries that agree once lower-cased, one of them padded with whitespace on both sides, give the same listing |
| `ProjectSearch.ListingCards` | src/pages/Projects.tsx:43-45 | the page renders one card per listed project, in listing order |
| `ProjectDetail.FindProject` | src/pages/ProjectDetail.tsx:11 | the result is the first project with the route id; it is absent exactly when no project has that id |
| `ProjectDetail.FindOwnId` | src/pages/ProjectDetail.tsx:11 | with distinct ids, looking up a project's own id finds that project |
| `ProjectDetail.Truthy` | src/pages/ProjectDetail.tsx:24 | definition: `Boolean` of an optional string, true only for a present, non-empty string |
| `ProjectDetail.FlagsOf` | src/pages/ProjectDetail.tsx:24-28 | `hasModel` holds for a present, non-empty model path; `hasImages` for a present, non-empty image list; `hasVideo` and `hasIframe` for a present video and iframe; the page is interactive exactly when it has a non-empty model path or an iframe |
| `ProjectDetail.HeroOf` | src/pages/ProjectDetail.tsx:66-80 | definition: the hero heading and viewer of an interactive project; `HeroRule` states its cases |
| `ProjectDetail.GalleryCardOf` | src/pages/ProjectDetail.tsx:30 | definition: the gallery card exactly when `hasImages`; `EveryCardShownOnce` states where it goes |
| `ProjectDetail.VideoCardOf` | src/pages/ProjectDetail.tsx:32-51 | definition: the video card carrying the `Video` value exactly when `hasVideo`; `EveryCardShownOnce` states where it goes |
| `ProjectDetail.LeftPrimary` | src/pages/ProjectDetail.tsx:91-94 | definition: video first on an interactive page with a video or on a plain page without images, otherwise gallery first; `LeftColumnChoice` states the outcome |
| `ProjectDetail.LeftColumn` | src/pages/ProjectDetail.tsx:96-100 | definition: the card named by `LeftPrimary`, if present; `LeftColumnChoice` states what it holds |
| `ProjectDetail.RightColumn` | src/pages/ProjectDetail.tsx:102-114 | definition: the displaced gallery or video card, if any, then the highlights; `EveryCardShownOnce` states what both columns hold together |
| `ProjectDetail.HeroRule` | src/pages/ProjectDetail.tsx:66-80 | the hero appears exactly for interactive projects and always passes a viewer element; an iframe wins as "Interactive Model" with height 800 when unset; otherwise the model shows as "3D Model" |
| `ProjectDetail.CountsAdd` | src/pages/ProjectDetail.tsx:96-114 | card counts add up over the concatenated columns |
| `ProjectDetail.LeftColumnChoice` | src/pages/ProjectDetail.tsx:91-100 | the left column holds at most one card; it is empty only when there are neither images nor video; a video leads it exactly when there is a video and either the page is interactive or it has no images |
| `ProjectDetail.EveryCardShownOnce` | src/pages/ProjectDetail.tsx:96-114 | across both columns the gallery card appears once if there are images and never otherwise; the same holds for the video card; the highlights card appears once, as the last card of the right column |
| `ProjectDetail.PdfSectionOf` | src/pages/ProjectDetail.tsx:164-180 | the PDF block appears exactly when the PDF path is present and non-empty; it links to that path and titles the embed "<title> PDF" |
| `ProjectDetail.DetailPage` | src/pages/ProjectDetail.tsx:11-22 | definition: "not found" without a matching project, otherwise header, hero, columns and PDF block of the match; `DetailPageRule` states what it shows |
| `ProjectDetail.DetailPageRule` | src/pages/ProjectDetail.tsx:11-22 | "not found" is shown exactly when no project has the id; otherwise the page shows the first matching project with all its tags, and a PDF block exactly when that project's PDF is set |
| `ImageGallery.Render` | src/components/ImageGallery.tsx:7-19 | an empty image list renders nothing; otherwise the main image is `images[active]` |
| `ImageGallery.HighlightedCountOnlyAt` | src/components/ImageGallery.tsx:32-34 | a strip whose only highlighted thumbnail is at k has exactly one highlight |
| `ImageGallery.HighlightedCountNone` | src/components/ImageGallery.tsx:32-34 | a strip with no highlighted thumbnail has a count of zero |
| `ImageGallery.Thumbnails` | src/components/ImageGallery.tsx:26-34 | definition: one thumbnail per image, highlighted at `active`, only for two or more images; `ThumbnailRule` states it |
| `ImageGallery.ThumbnailRule` | src/components/ImageGallery.tsx:26-34 | thumbnails appear only for two or more images, one per image in order; exactly one is highlighted, the one at `active` |
| `ImageGallery.Gallery.constructor` | src/components/ImageGallery.tsx:6 | a new gallery starts with `active` 0, which is in range |
| `ImageGallery.Gallery.Select` | src/components/ImageGallery.tsx:28-31 | clicking thumbnail i sets `active` to i and keeps it within the image list |
| `ImageGallery.Gallery.View` | src/components/ImageGallery.tsx:7-19 | what the component renders in its current state: nothing for no images, otherwise the active image as main |
| `ImageGallery.ClickShowsImage` | src/components/ImageGallery.tsx:28-34 | after mounting and clicking thumbnail i, the main image is image i and only thumbnail i is highlighted |
| `ProjectCard.ShownTags` | src/components/ProjectCard.tsx:27 | at most 5 tags are shown, namely the first min(5, number of tags) in their original order |
| `ProjectCard.ShortTagListsShownWhole` | src/components/ProjectCard.tsx:27 | a project with five or fewer tags shows all of them |
| `ProjectCard.CardLink` | src/components/ProjectCard.tsx:12 | the link is "/projects/" followed by exactly the project id |
| `ProjectCard.Card` | src/components/ProjectCard.tsx:12-27 | the card shows the link, category, year, title and tagline of its project, and its shown tags |
| `Routes.DetailRouteId` | src/app/App.tsx:19 | a path yields an id exactly when it is "/projects/" followed by one non-empty segment, and the id is that segment |
| `Routes.CardLinkRoundTrip` | src/components/ProjectCard.tsx:12 | in a catalogue with distinct ids, a card's link routes to its id, and the detail page shows that same project |
| `Routes.CatalogueIdsAreSegments` | src/data/projects.ts:16-155 | every catalogue id is a non-empty string without '/' |
| `Routes.CatalogueLinksResolve` | src/data/projects.ts:16-155 | every card of the catalogue opens the detail page of its own project |

## Left out

- Strings are sequences of Unicode scalar values, not of UTF-16 code
  units, so a search-box value holding a lone surrogate cannot be
  represented. On well-formed strings `trim` and `includes` agree with the
  code-unit versions, and the sort order is computed on the UTF-16
  encoding.
- JsText.Lower: only the ASCII letters A-Z are lower-cased. JavaScript's
  `toLowerCase` also maps every other Unicode capital, such as "Ö" or "Δ",
  and some capitals expand to two characters. A query differing from a
  project's text only in non-ASCII letter case is treated as different
  here. The case- and padding-invariance lemmas rely only on lower-casing
  being idempotent, preserving whitespace and distributing over
  concatenation.
- Routes.DetailRouteId: this is a model of the one route that carries
  data, not of react-router's matcher. That matcher's case-insensitive
  literal matching, its acceptance of a trailing slash and its
  percent-decoding of parameters are not modelled. Paths of any other
  shape simply yield no id. The other routes (home, resume, not-found)
  render static pages.
- The volumetric frame decoder, transfer function, mesh builder and
  playback scheduler are not part of this model. No code for them exists:
  src/components/QuantumViewer.tsx only renders an iframe.
- The quantum viewer's own check at src/components/QuantumViewer.tsx:10,
  which renders nothing for an empty `src`, is not modelled. An iframe with
  an empty `src` would show the "Interactive Model" hero with an empty
  viewer box, while the model carries `QuantumViewer("", height)`. The
  catalogue's only iframe has a non-empty `src`.
- 3D scenes (src/components/ThreeModel.tsx, src/components/HeroScene.tsx):
  floating-point bounding-box centring and frame-time rotation done
  through Three.js calls.
- Pointer and scroll effects (src/components/PopPortrait.tsx,
  src/components/CursorGlow.tsx, src/components/ScrollProgress.tsx):
  floating-point tilt maths, window event listeners and animation
  springs.
- PDF display (src/components/PdfViewer.tsx, src/components/PdfEmbed.tsx):
  thin wrappers over a PDF library and iframes. The detail page's PDF
  block is modelled as its link and its embed title.
- Static markup (src/pages/Home.tsx, src/components/Navbar.tsx,
  src/components/Footer.tsx, src/pages/Resume.tsx, src/pages/NotFound.tsx,
  tailwind.config.js): copy and styling with no behaviour. CSS classes,
  spacing such as the "mt-5"/"mt-8" choice, and animation props are left
  out everywhere.
- Category selector: no control ever changes the page's category state
  from "All". The category is therefore a parameter of the filter, not UI
  state.
- Gallery reset: the component does not reset `active` when its `images`
  property changes. The model fixes the image list for the life of a
  `Gallery` object.
- The video card's choice between a `<video>` element (kind "file") and an
  embedded player (kind "youtube") is carried by the `Video` value in the
  card, not modelled as a separate element.
- React list keys (tag text, image path, project id) identify rendered
  items to React only. The model does not use them.
- The iframe height is a JavaScript number. It is modelled as an integer,
  the only kind of value the catalogue gives it.
