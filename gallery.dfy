/** The horizontal gallery of one collection: its image-only list, the loop that cuts that
    list into hero / duo / cluster scenes, and the lightbox state it owns. */
module Gallery {
  import opened Wrappers
  import opened Seqs
  import opened Collections
  import opened SceneView
  import opened Lightbox

  // ---------------------------------------------------------------------------
  // allImages
  // ---------------------------------------------------------------------------

  /** The image for the `i`-th entry of the image-only list. */
  function ToSceneImage(slug: string, title: string, m: MediaItem, i: nat): SceneImage {
    SceneImage(MediaSrc(slug, m.filename), AltText(title, i), m.reflection)
  }

  /** `media.filter(m => m.type === 'image').map((m, i) => ...)`. */
  function GalleryImages(slug: string, title: string, media: seq<MediaItem>): (r: seq<SceneImage>)
    ensures |r| == |ImagesOnly(media)|
  {
    var images := ImagesOnly(media);
    seq(|images|, i requires 0 <= i < |images| => ToSceneImage(slug, title, images[i], i))
  }

  /** Appending a video to the media leaves the gallery unchanged; appending an image adds
      one image at the end, numbered after all earlier images and carrying the same
      reflection. So the gallery keeps the images in media order and drops the videos. */
  lemma GalleryImagesSnoc(slug: string, title: string, media: seq<MediaItem>, m: MediaItem)
    ensures GalleryImages(slug, title, media + [m]) == GalleryImages(slug, title, media)
      + (if m.mediaType == Image then [SceneImage(MediaSrc(slug, m.filename), AltText(title, |ImagesOnly(media)|), m.reflection)] else [])
  {
    FilterSnoc(media, m, IsImage);
  }

  /** Each gallery image comes from an image of the media: its URL names that file, its
      alt text numbers it from 1, and it carries the file's reflection. */
  lemma GalleryImageSource(slug: string, title: string, media: seq<MediaItem>, i: int)
    requires 0 <= i < |GalleryImages(slug, title, media)|
    ensures var m := ImagesOnly(media)[i];
      var g := GalleryImages(slug, title, media)[i];
      && m in media && m.mediaType == Image
      && g.src == "/collections/" + slug + "/media/" + m.filename
      && g.alt == AltText(title, i)
      && g.reflection == m.reflection
  {
  }

  // ---------------------------------------------------------------------------
  // The scene partitioner
  // ---------------------------------------------------------------------------

  /** `layouts[layoutIndex % layouts.length]` with `layouts = ['hero', 'duo', 'cluster']`. */
  function NominalLayout(layoutIndex: nat): Layout {
    var r := layoutIndex % 3;
    if r == 0 then Hero else if r == 1 then Duo else Cluster
  }

  /** The short-tail adjustment: one image is always a hero, two images in a cluster slot
      are a duo. */
  function FinalLayout(layout: Layout, available: nat): (l: Layout)
    ensures 1 <= available <= Capacity(layout) ==> Capacity(l) == available
    ensures l != layout ==>
      (available == 1 && l == Hero) || (available == 2 && layout == Cluster && l == Duo)
  {
    if available == 1 then Hero
    else if available == 2 && layout == Cluster then Duo
    else layout
  }

  /** A scene: its layout, its images and the index of its first image in the gallery. */
  datatype SceneConfig = SceneConfig(layout: Layout, images: seq<SceneImage>, startIndex: nat)

  /** Reference definition of the partition: the scenes cut from `all[i..]`, with the
      layout cycle at `slot`. Each scene takes as many images as its slot holds, or all
      that remain, and records where in `all` it starts. */
  function ScenesAt(all: seq<SceneImage>, i: nat, slot: nat): seq<SceneConfig>
    decreases |all| - i
  {
    if i >= |all| then []
    else
      var stop := Min(i + Capacity(NominalLayout(slot)), |all|);
      [SceneConfig(FinalLayout(NominalLayout(slot), stop - i), all[i..stop], i)] + ScenesAt(all, stop, slot + 1)
  }

  /** One turn of the loop: the scenes built so far, followed by the next scene and the
      partition of what it leaves, are still all the scenes. */
  lemma ScenesStep(all: seq<SceneImage>, i: nat, slot: nat, done: seq<SceneConfig>)
    requires i < |all|
    requires done + ScenesAt(all, i, slot) == ScenesAt(all, 0, 0)
    ensures var stop := Min(i + Capacity(NominalLayout(slot)), |all|);
      (done + [SceneConfig(FinalLayout(NominalLayout(slot), stop - i), all[i..stop], i)]) + ScenesAt(all, stop, slot + 1)
        == ScenesAt(all, 0, 0)
  {
    var stop := Min(i + Capacity(NominalLayout(slot)), |all|);
    var scene := SceneConfig(FinalLayout(NominalLayout(slot), stop - i), all[i..stop], i);
    AppendCons(done, scene, ScenesAt(all, stop, slot + 1));
  }

  function Scenes(allImages: seq<SceneImage>): seq<SceneConfig> {
    ScenesAt(allImages, 0, 0)
  }

  /** The images of the scenes, one scene after the other. */
  function ImagesOf(scenes: seq<SceneConfig>): seq<SceneImage> {
    if scenes == [] then [] else scenes[0].images + ImagesOf(scenes[1..])
  }

  /** The scene-building `while` loop. */
  method BuildScenes(allImages: seq<SceneImage>) returns (result: seq<SceneConfig>)
    ensures result == Scenes(allImages)
    ensures ImagesOf(result) == allImages
    ensures result == [] <==> allImages == []
    ensures AllFit(result)
  {
    result := [];
    var i := 0;
    var layoutIndex := 0;
    while i < |allImages|
      invariant 0 <= i <= |allImages|
      invariant result + ScenesAt(allImages, i, layoutIndex) == Scenes(allImages)
      decreases |allImages| - i
    {
      var layout := NominalLayout(layoutIndex);
      var count := Capacity(layout);
      var available := allImages[i..Min(i + count, |allImages|)];
      if |available| > 0 {
        var finalLayout := layout;
        if |available| == 1 {
          finalLayout := Hero;
        } else if |available| == 2 && layout == Cluster {
          finalLayout := Duo;
        }
        assert finalLayout == FinalLayout(layout, |available|);
        var scene := SceneConfig(finalLayout, available, i);
        ScenesStep(allImages, i, layoutIndex, result);
        assert i + |available| == Min(i + count, |allImages|);
        result := result + [scene];
        i := i + |available|;
        layoutIndex := layoutIndex + 1;
      } else {
        assert false;
        break;
      }
    }
    ScenesPartition(allImages, 0, 0);
    assert allImages[0..] == allImages;
    ScenesFit(allImages, 0, 0);
  }

  /** Concatenating the scenes' images gives back the list they were cut from. */
  lemma {:induction false} ScenesPartition(all: seq<SceneImage>, i: nat, slot: nat)
    requires i <= |all|
    ensures ImagesOf(ScenesAt(all, i, slot)) == all[i..]
    decreases |all| - i
  {
    if i < |all| {
      var stop := Min(i + Capacity(NominalLayout(slot)), |all|);
      var scenes := ScenesAt(all, i, slot);
      ScenesPartition(all, stop, slot + 1);
      assert scenes[1..] == ScenesAt(all, stop, slot + 1);
      assert all[i..] == all[i..stop] + all[stop..];
    }
  }

  /** The number of images slots `slot .. slot+j-1` hold when all of them are full. */
  function SlotSpan(slot: nat, j: nat): nat
    decreases j
  {
    if j == 0 then 0 else Capacity(NominalLayout(slot)) + SlotSpan(slot + 1, j - 1)
  }

  /** The gallery index at which scene `k` starts when every earlier scene is full. */
  function NominalStart(k: nat): nat {
    SlotSpan(0, k)
  }

  lemma {:induction false} SlotSpanSplit(slot: nat, i: nat, j: nat)
    ensures SlotSpan(slot, i + j) == SlotSpan(slot, i) + SlotSpan(slot + i, j)
    decreases i
  {
    if i > 0 {
      SlotSpanSplit(slot + 1, i - 1, j);
    }
  }

  /** The layout cycle repeats every three slots. */
  lemma {:induction false} SlotSpanShift(slot: nat, j: nat)
    ensures SlotSpan(slot + 3, j) == SlotSpan(slot, j)
    decreases j
  {
    if j > 0 {
      assert NominalLayout(slot + 3) == NominalLayout(slot);
      SlotSpanShift(slot + 1, j - 1);
    }
  }

  /** Each scene ends where the next full slot starts. */
  lemma SlotSpanSnoc(slot: nat, j: nat)
    ensures SlotSpan(slot, j + 1) == SlotSpan(slot, j) + Capacity(NominalLayout(slot + j))
  {
    SlotSpanSplit(slot, j, 1);
  }

  /** Scene `j` is the first scene of the partition of what the full slots before it
      leave over, and that partition holds the scenes from the `j`-th on. */
  lemma ScenesSuffix(all: seq<SceneImage>, i: nat, slot: nat, j: nat)
    requires j < |ScenesAt(all, i, slot)|
    ensures var rest := ScenesAt(all, i + SlotSpan(slot, j), slot + j);
      && i + SlotSpan(slot, j) < |all|
      && |ScenesAt(all, i, slot)| == j + |rest|
      && ScenesAt(all, i, slot)[j] == rest[0]
  {
    SuffixAt(all, i, slot, j, i + SlotSpan(slot, j), slot + j);
  }

  /** `ScenesSuffix` with the start `at` and the slot `k` of scene `j` named. */
  lemma {:induction false} SuffixAt(all: seq<SceneImage>, i: nat, slot: nat, j: nat, at: nat, k: nat)
    requires j < |ScenesAt(all, i, slot)|
    requires at == i + SlotSpan(slot, j) && k == slot + j
    ensures at < |all|
    ensures |ScenesAt(all, i, slot)| == j + |ScenesAt(all, at, k)|
    ensures ScenesAt(all, i, slot)[j] == ScenesAt(all, at, k)[0]
    decreases j
  {
    if j > 0 {
      var stop := Min(i + Capacity(NominalLayout(slot)), |all|);
      ScenesAtNext(all, i, slot, j);
      SuffixAt(all, stop, slot + 1, j - 1, at, k);
    } else {
      ScenesAtTail(all, i, slot);
    }
  }

  /** Scene `j > 0` from `i` is scene `j - 1` from the end of the first, full, scene. */
  lemma ScenesAtNext(all: seq<SceneImage>, i: nat, slot: nat, j: nat)
    requires 0 < j < |ScenesAt(all, i, slot)|
    ensures var stop := Min(i + Capacity(NominalLayout(slot)), |all|);
      && stop == i + Capacity(NominalLayout(slot))
      && |ScenesAt(all, i, slot)| == 1 + |ScenesAt(all, stop, slot + 1)|
      && ScenesAt(all, i, slot)[j] == ScenesAt(all, stop, slot + 1)[j - 1]
  {
    ScenesAtTail(all, i, slot);
  }

  /** A non-empty partition is its first scene followed by the partition of the rest;
      when there is a second scene, the first one is full. */
  lemma ScenesAtTail(all: seq<SceneImage>, i: nat, slot: nat)
    requires 0 < |ScenesAt(all, i, slot)|
    ensures var stop := Min(i + Capacity(NominalLayout(slot)), |all|);
      && i < |all|
      && ScenesAt(all, i, slot)[0] == SceneConfig(FinalLayout(NominalLayout(slot), stop - i), all[i..stop], i)
      && ScenesAt(all, i, slot)[1..] == ScenesAt(all, stop, slot + 1)
      && |ScenesAt(all, i, slot)| == 1 + |ScenesAt(all, stop, slot + 1)|
      && (1 < |ScenesAt(all, i, slot)| ==> stop == i + Capacity(NominalLayout(slot)))
  {
  }

  /** Scene `j` of a partition, with `n` its image count and `nominal` its slot's layout:
      it starts where the full slots before it end; it holds between 1 and `nominal`'s
      capacity; only the last scene may be short; its layout holds exactly its images;
      and its layout differs from the slot's only when one image made it a hero or two
      images in a cluster slot made it a duo. */
  lemma SceneShape(all: seq<SceneImage>, i: nat, slot: nat, j: nat)
    requires j < |ScenesAt(all, i, slot)|
    ensures var scenes := ScenesAt(all, i, slot);
      var s := scenes[j];
      var n := |s.images|;
      var nominal := NominalLayout(slot + j);
      && s.startIndex == i + SlotSpan(slot, j)
      && 1 <= n <= Capacity(nominal)
      && (j + 1 < |scenes| ==> n == Capacity(nominal))
      && Capacity(s.layout) == n
      && (s.layout != nominal ==> (n == 1 && s.layout == Hero) || (n == 2 && nominal == Cluster && s.layout == Duo))
      && s.startIndex + n <= |all|
      && s.images == all[s.startIndex..s.startIndex + n]
  {
    var at := i + SlotSpan(slot, j);
    var nominal := NominalLayout(slot + j);
    var stop := Min(at + Capacity(nominal), |all|);
    SceneAt(all, i, slot, j);
  }

  /** Scene `j` in full: the slice from where the full slots before it end, up to its
      slot's capacity or the end of the gallery, with the adjusted layout; when another
      scene follows, the slice is full. */
  lemma SceneAt(all: seq<SceneImage>, i: nat, slot: nat, j: nat)
    requires j < |ScenesAt(all, i, slot)|
    ensures var at := i + SlotSpan(slot, j);
      var nominal := NominalLayout(slot + j);
      var stop := Min(at + Capacity(nominal), |all|);
      && at < stop <= |all|
      && ScenesAt(all, i, slot)[j] == SceneConfig(FinalLayout(nominal, stop - at), all[at..stop], at)
      && (j + 1 < |ScenesAt(all, i, slot)| ==> stop == at + Capacity(nominal))
  {
    var at := i + SlotSpan(slot, j);
    ScenesSuffix(all, i, slot, j);
    ScenesAtTail(all, at, slot + j);
  }

  /** Scene `j` exists exactly when the full slots before it leave an image over. */
  lemma {:induction false} SceneExists(all: seq<SceneImage>, i: nat, slot: nat, j: nat)
    ensures j < |ScenesAt(all, i, slot)| <==> i + SlotSpan(slot, j) < |all|
    decreases j
  {
    if i < |all| && j > 0 {
      var stop := Min(i + Capacity(NominalLayout(slot)), |all|);
      assert |ScenesAt(all, i, slot)| == 1 + |ScenesAt(all, stop, slot + 1)|;
      SceneExists(all, stop, slot + 1, j - 1);
    }
  }

  /** Scene 0 starts at 0, and each later scene starts where the previous one ends; so
      every scene's images are the slice of the gallery from its start index. */
  lemma StartIndexRecurrence(allImages: seq<SceneImage>, k: nat)
    requires k < |Scenes(allImages)|
    ensures var scenes := Scenes(allImages);
      && (k == 0 ==> scenes[k].startIndex == 0)
      && (k + 1 < |scenes| ==> scenes[k + 1].startIndex == scenes[k].startIndex + |scenes[k].images|)
      && scenes[k].startIndex + |scenes[k].images| <= |allImages|
      && scenes[k].images == allImages[scenes[k].startIndex..scenes[k].startIndex + |scenes[k].images|]
  {
    var scenes := Scenes(allImages);
    SceneShape(allImages, 0, 0, k);
    if k + 1 < |scenes| {
      SceneShape(allImages, 0, 0, k + 1);
      SlotSpanSnoc(0, k);
    }
  }

  /** The first slots start at 0, 1, 3 and 6. */
  lemma FirstStarts()
    ensures NominalStart(0) == 0 && NominalStart(1) == 1 && NominalStart(2) == 3 && NominalStart(3) == 6
  {
    assert SlotSpan(2, 1) == 3;
    assert SlotSpan(1, 2) == 5;
    assert SlotSpan(1, 1) == 2;
  }

  /** Three consecutive slots hold six images. */
  lemma NominalStartCycle(k: nat)
    requires k >= 3
    ensures NominalStart(k) == NominalStart(k - 3) + 6
  {
    SlotSpanSplit(0, 3, k - 3);
    SlotSpanShift(0, k - 3);
    FirstStarts();
  }

  /** `NominalStart` in closed form: each cycle of three slots takes six images. */
  lemma {:induction false} NominalStartClosedForm(k: nat)
    ensures NominalStart(k) == 6 * (k / 3) + [0, 1, 3][k % 3]
  {
    if k >= 3 {
      NominalStartClosedForm(k - 3);
      NominalStartCycle(k);
    } else {
      FirstStarts();
    }
  }

  /** The number of scenes for `n` images. */
  function SceneCount(n: nat): nat {
    3 * (n / 6) + [0, 1, 2, 2, 3, 3][n % 6]
  }

  /** Slot `k` starts before image `n` exactly when `k` is below the scene count. */
  lemma {:induction false} SceneCountThreshold(n: nat, k: nat)
    ensures NominalStart(k) < n <==> k < SceneCount(n)
    decreases n
  {
    if n >= 6 {
      SceneCountStep(n);
      if k >= 3 {
        NominalStartCycle(k);
        SceneCountThreshold(n - 6, k - 3);
      } else {
        FirstStarts();
      }
    } else {
      SceneCountSmall(n);
      if k >= 3 {
        NominalStartCycle(k);
      } else {
        FirstStarts();
      }
    }
  }

  /** Six more images give three more scenes. */
  lemma SceneCountStep(n: nat)
    requires n >= 6
    ensures SceneCount(n) == SceneCount(n - 6) + 3
  {
    assert n / 6 == (n - 6) / 6 + 1 && n % 6 == (n - 6) % 6;
  }

  lemma SceneCountSmall(n: nat)
    requires n < 6
    ensures SceneCount(n) == [0, 1, 2, 2, 3, 3][n]
  {
    assert n / 6 == 0 && n % 6 == n;
  }

  /** `n` images give `SceneCount(n)` scenes, and scene `k` starts at `NominalStart(k)`. */
  lemma NumberOfScenes(allImages: seq<SceneImage>)
    ensures |Scenes(allImages)| == SceneCount(|allImages|)
    ensures forall k :: 0 <= k < |Scenes(allImages)| ==> Scenes(allImages)[k].startIndex == NominalStart(k)
  {
    var n, m := |Scenes(allImages)|, SceneCount(|allImages|);
    SceneExists(allImages, 0, 0, n);
    SceneExists(allImages, 0, 0, m);
    SceneCountThreshold(|allImages|, n);
    SceneCountThreshold(|allImages|, m);
    forall k | 0 <= k < n ensures Scenes(allImages)[k].startIndex == NominalStart(k) {
      SceneShape(allImages, 0, 0, k);
    }
  }

  /** Seven images make a hero, a duo, a cluster and a final hero, starting at 0, 1, 3, 6. */
  lemma SevenImages(allImages: seq<SceneImage>)
    requires |allImages| == 7
    ensures var s := Scenes(allImages);
      && |s| == 4
      && s[0].layout == Hero && s[1].layout == Duo && s[2].layout == Cluster && s[3].layout == Hero
      && |s[0].images| == 1 && |s[1].images| == 2 && |s[2].images| == 3 && |s[3].images| == 1
      && s[0].startIndex == 0 && s[1].startIndex == 1 && s[2].startIndex == 3 && s[3].startIndex == 6
  {
    NumberOfScenes(allImages);
    FirstStarts();
    SceneShape(allImages, 0, 0, 0);
    SceneShape(allImages, 0, 0, 1);
    SceneShape(allImages, 0, 0, 2);
    SceneShape(allImages, 0, 0, 3);
  }

  // ---------------------------------------------------------------------------
  // Clicks
  // ---------------------------------------------------------------------------

  /** Every scene's layout holds exactly its images. */
  predicate AllFit(scenes: seq<SceneConfig>) {
    forall k :: 0 <= k < |scenes| ==> Capacity(scenes[k].layout) == |scenes[k].images|
  }

  /** The tiles of all scenes, scene after scene. */
  function TilesOf(scenes: seq<SceneConfig>): seq<Tile>
    requires AllFit(scenes)
  {
    if scenes == [] then []
    else Tiles(scenes[0].layout, scenes[0].images, scenes[0].startIndex) + TilesOf(scenes[1..])
  }

  lemma ScenesFit(all: seq<SceneImage>, i: nat, slot: nat)
    ensures AllFit(ScenesAt(all, i, slot))
  {
    var scenes := ScenesAt(all, i, slot);
    forall k | 0 <= k < |scenes| ensures Capacity(scenes[k].layout) == |scenes[k].images| {
      SceneShape(all, i, slot, k);
    }
  }

  /** Over the partition of `all[i..]`, the drawn tiles are the images of `all[i..]` in
      order, each reporting its own index in `all`. */
  lemma {:induction false} TilesOfScenes(all: seq<SceneImage>, i: nat, slot: nat)
    requires i <= |all|
    ensures AllFit(ScenesAt(all, i, slot))
    ensures |TilesOf(ScenesAt(all, i, slot))| == |all| - i
    ensures forall k :: 0 <= k < |all| - i ==> TilesOf(ScenesAt(all, i, slot))[k] == Tile(all[i + k], i + k)
    decreases |all| - i
  {
    ScenesFit(all, i, slot);
    if i < |all| {
      var stop := Min(i + Capacity(NominalLayout(slot)), |all|);
      var scenes := ScenesAt(all, i, slot);
      var tail := ScenesAt(all, stop, slot + 1);
      assert scenes[1..] == tail;
      TilesOfScenes(all, stop, slot + 1);
      var head := Tiles(scenes[0].layout, scenes[0].images, i);
      assert scenes[0].images == all[i..stop];
      assert |head| == stop - i;
      var tiles := TilesOf(scenes);
      assert tiles == head + TilesOf(tail);
      forall k | 0 <= k < |all| - i ensures tiles[k] == Tile(all[i + k], i + k) {
        if k < stop - i {
          assert tiles[k] == head[k];
          assert all[i..stop][k] == all[i + k];
        } else {
          assert tiles[k] == TilesOf(tail)[k - (stop - i)];
        }
      }
    }
  }

  /** Every gallery index is reported by exactly one drawn tile, in gallery order, and the
      tile at that index shows the gallery image at that index. */
  lemma ClickReportsOwnIndex(allImages: seq<SceneImage>)
    ensures AllFit(Scenes(allImages))
    ensures var tiles := TilesOf(Scenes(allImages));
      && |tiles| == |allImages|
      && forall i :: 0 <= i < |tiles| ==> tiles[i].reportedIndex == i && tiles[i].image == allImages[i]
  {
    ScenesFit(allImages, 0, 0);
    TilesOfScenes(allImages, 0, 0);
  }

  // ---------------------------------------------------------------------------
  // The gallery's lightbox state
  // ---------------------------------------------------------------------------

  /** The state cells of the gallery: whether the lightbox is open and which image it shows. */
  class GalleryViewer {
    const images: seq<SceneImage>
    var lightboxOpen: bool
    var currentImageIndex: int

    /** The lightbox starts closed on image 0. */
    constructor(images: seq<SceneImage>)
      ensures this.images == images
      ensures !lightboxOpen && currentImageIndex == 0
    {
      this.images := images;
      lightboxOpen := false;
      currentImageIndex := 0;
    }

    function State(): ViewState
      reads this
    {
      ViewState(lightboxOpen, currentImageIndex)
    }

    /** `handleImageClick(index)`: show image `index` and open the lightbox. */
    method HandleImageClick(index: int)
      modifies this
      ensures lightboxOpen && currentImageIndex == index
    {
      currentImageIndex := index;
      lightboxOpen := true;
    }

    /** `onClose`, from the backdrop, the close button or Escape. */
    method Close()
      modifies this
      ensures !lightboxOpen && currentImageIndex == old(currentImageIndex)
    {
      lightboxOpen := false;
    }

    /** A key press reaching the document while the lightbox is mounted. */
    method KeyDown(key: Key)
      modifies this
      ensures State() == KeyStep(old(State()), |images|, key)
    {
      if lightboxOpen {
        var o := HandleKeyDown(key, currentImageIndex, |images|);
        if o.close {
          Close();
        }
        if o.navigateTo.Some? {
          currentImageIndex := o.navigateTo.value;
        }
      }
    }

    /** The previous button, drawn only on a rendered lightbox past the first image. */
    method PreviousClick()
      requires Renders(lightboxOpen, images, currentImageIndex) && ShowsPrevious(currentImageIndex)
      modifies this
      ensures lightboxOpen && currentImageIndex == old(currentImageIndex) - 1
      ensures State() == KeyStep(old(State()), |images|, ArrowLeft)
    {
      currentImageIndex := currentImageIndex - 1;
    }

    /** The next button, drawn only on a rendered lightbox before the last image. */
    method NextClick()
      requires Renders(lightboxOpen, images, currentImageIndex) && ShowsNext(currentImageIndex, |images|)
      modifies this
      ensures lightboxOpen && currentImageIndex == old(currentImageIndex) + 1
      ensures State() == KeyStep(old(State()), |images|, ArrowRight)
    {
      currentImageIndex := currentImageIndex + 1;
    }
  }

  /** Clicking the tile at gallery index `i` opens the lightbox on that same image. */
  method ClickTile(viewer: GalleryViewer, i: int)
    requires 0 <= i < |viewer.images|
    modifies viewer
    ensures Renders(viewer.lightboxOpen, viewer.images, viewer.currentImageIndex)
    ensures AllFit(Scenes(viewer.images)) && |TilesOf(Scenes(viewer.images))| == |viewer.images|
      && CurrentImage(viewer.images, viewer.currentImageIndex) == Some(TilesOf(Scenes(viewer.images))[i].image)
  {
    ClickReportsOwnIndex(viewer.images);
    var tile := TilesOf(Scenes(viewer.images))[i];
    viewer.HandleImageClick(tile.reportedIndex);
  }
}
