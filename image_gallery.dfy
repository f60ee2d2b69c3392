/**
 * The image gallery (src/components/ImageGallery.tsx): one piece of
 * state, the index of the active image, set by clicking a thumbnail; the
 * main image, the thumbnail strip and the highlighted thumbnail are
 * computed from the image list and that index.
 */
module ImageGallery {
  import opened Catalogue

  datatype Thumbnail = Thumbnail(image: Image, highlighted: bool)

  /** What the gallery shows: the main image and the thumbnail strip. */
  datatype GalleryView = GalleryView(main: Image, thumbnails: seq<Thumbnail>)

  /** The active index names an image, or is the initial 0 of an empty gallery. */
  predicate ActiveInRange(images: seq<Image>, active: nat) {
    active < |images| || active == 0
  }

  /** The strip: one thumbnail per image, in order, only when there is more than one image. */
  function Thumbnails(images: seq<Image>, active: nat): seq<Thumbnail> {
    if |images| > 1 then seq(|images|, i requires 0 <= i < |images| => Thumbnail(images[i], i == active))
    else []
  }

  /** The rendered gallery, or nothing for an empty image list. */
  function Render(images: seq<Image>, active: nat): (v: Option<GalleryView>)
    requires ActiveInRange(images, active)
    ensures v.None? <==> images == []
    ensures v.Some? ==> v.value.main == images[active]
  {
    if images == [] then None
    else Some(GalleryView(images[active], Thumbnails(images, active)))
  }

  /** How many thumbnails of `ts` are highlighted. */
  function HighlightedCount(ts: seq<Thumbnail>): nat {
    if ts == [] then 0 else (if ts[0].highlighted then 1 else 0) + HighlightedCount(ts[1..])
  }

  lemma {:induction false} HighlightedCountOnlyAt(ts: seq<Thumbnail>, k: nat)
    requires k < |ts| && ts[k].highlighted
    requires forall i :: 0 <= i < |ts| && i != k ==> !ts[i].highlighted
    ensures HighlightedCount(ts) == 1
  {
    if k == 0 {
      HighlightedCountNone(ts[1..]);
    } else {
      HighlightedCountOnlyAt(ts[1..], k - 1);
    }
  }

  lemma {:induction false} HighlightedCountNone(ts: seq<Thumbnail>)
    requires forall i :: 0 <= i < |ts| ==> !ts[i].highlighted
    ensures HighlightedCount(ts) == 0
  {
    if ts != [] {
      HighlightedCountNone(ts[1..]);
    }
  }

  /**
   * With more than one image the strip has one thumbnail per image, in
   * order, and exactly one of them, the active one, is highlighted; with
   * a single image there is no strip.
   */
  lemma ThumbnailRule(images: seq<Image>, active: nat)
    requires ActiveInRange(images, active)
    ensures |images| <= 1 ==> Thumbnails(images, active) == []
    ensures |images| > 1 ==>
              && |Thumbnails(images, active)| == |images|
              && (forall i :: 0 <= i < |images| ==> Thumbnails(images, active)[i].image == images[i])
              && (forall i :: 0 <= i < |images| ==> (Thumbnails(images, active)[i].highlighted <==> i == active))
              && HighlightedCount(Thumbnails(images, active)) == 1
  {
    if |images| > 1 {
      HighlightedCountOnlyAt(Thumbnails(images, active), active);
    }
  }

  /** The gallery component with its one piece of state. */
  class Gallery {
    const images: seq<Image>
    var active: nat

    ghost predicate Valid()
      reads this
    {
      ActiveInRange(images, active)
    }

    /** A freshly mounted gallery shows the first image. */
    constructor (images: seq<Image>)
      ensures Valid()
      ensures this.images == images && active == 0
    {
      this.images := images;
      active := 0;
    }

    /** Clicking thumbnail `i`; thumbnails exist only for galleries of two or more images. */
    method Select(i: nat)
      requires Valid()
      requires |images| > 1 && i < |images|
      modifies this
      ensures Valid()
      ensures active == i
    {
      active := i;
    }

    /** What the component renders in its current state. */
    function View(): (v: Option<GalleryView>)
      reads this
      requires Valid()
      ensures v.None? <==> images == []
      ensures v.Some? ==> v.value.main == images[active]
    {
      Render(images, active)
    }
  }

  /** After clicking thumbnail `i`, the main image is image `i` and its thumbnail alone is highlighted. */
  method ClickShowsImage(images: seq<Image>, i: nat) returns (v: Option<GalleryView>)
    requires |images| > 1 && i < |images|
    ensures v.Some? && v.value.main == images[i]
    ensures |v.value.thumbnails| == |images|
    ensures HighlightedCount(v.value.thumbnails) == 1 && v.value.thumbnails[i].highlighted
  {
    var g := new Gallery(images);
    g.Select(i);
    v := g.View();
    ThumbnailRule(images, i);
  }
}
