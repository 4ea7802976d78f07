/** One scene of the horizontal gallery: which of its images are drawn for each layout,
    and which gallery index a click on each drawn image reports. */
module SceneView {
  import opened Wrappers

  /** An image as the gallery hands it to a scene and to the lightbox. */
  datatype SceneImage = SceneImage(src: string, alt: string, reflection: Option<string>)

  /** The three scene layouts. The layout type admits no other value, so the final
      "anything else is a cluster" branch of the renderer is reached by `Cluster` only. */
  datatype Layout = Hero | Duo | Cluster

  /** The number of images a layout holds. */
  function Capacity(layout: Layout): nat {
    match layout
    case Hero => 1
    case Duo => 2
    case Cluster => 3
  }

  function Min(a: int, b: int): int {
    if a <= b then a else b
  }

  /** A drawn image together with the index its click handler reports. */
  datatype Tile = Tile(image: SceneImage, reportedIndex: int)

  /** The tiles of a scene: a hero draws `images[0]`; a duo draws `images.slice(0, 2)`,
      the i-th reporting `startIndex + i`; a cluster draws `images[0]` reporting
      `startIndex`, then `images.slice(1, 3)`, the i-th reporting `startIndex + i + 1`.
      Hero and cluster read `images[0]`, so they need at least one image. */
  function Tiles(layout: Layout, images: seq<SceneImage>, startIndex: int): (r: seq<Tile>)
    requires layout == Duo || |images| > 0
    ensures |r| == Min(|images|, Capacity(layout))
    ensures forall j :: 0 <= j < |r| ==> r[j] == Tile(images[j], startIndex + j)
  {
    match layout
    case Hero => [Tile(images[0], startIndex)]
    case Duo =>
      var shown := images[..Min(|images|, 2)];
      seq(|shown|, i requires 0 <= i < |shown| => Tile(shown[i], startIndex + i))
    case Cluster =>
      var side := images[1..Min(|images|, 3)];
      [Tile(images[0], startIndex)] + seq(|side|, i requires 0 <= i < |side| => Tile(side[i], startIndex + i + 1))
  }

  /** A scene whose layout fits its image count draws every image it holds, in order. */
  lemma TilesCoverScene(layout: Layout, images: seq<SceneImage>, startIndex: int)
    requires Capacity(layout) == |images|
    ensures Tiles(layout, images, startIndex) == seq(|images|, j requires 0 <= j < |images| => Tile(images[j], startIndex + j))
  {
    var r := Tiles(layout, images, startIndex);
    assert |r| == |images|;
  }
}
