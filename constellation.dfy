/** The constellation view of the journey: one button per collection, a filter that
    toggles between "all" and one collection, and, per image, whether it is dimmed or
    enlarged. Positions, sizes and rotations are floating-point decoration and are not
    modelled. */
module Constellation {
  import opened Wrappers
  import opened Seqs
  import opened Journey

  /** The collection title of every image, in feed order. */
  function Titles(images: seq<JourneyImage>): (r: seq<string>)
    ensures |r| == |images|
    ensures forall i :: 0 <= i < |images| ==> r[i] == images[i].collection
  {
    seq(|images|, i requires 0 <= i < |images| => images[i].collection)
  }

  /** `[...new Set(titles)]`: the titles without repeats, in first-occurrence order. */
  function CollectionButtons(images: seq<JourneyImage>): seq<string> {
    Distinct(Titles(images))
  }

  /** Every image's title has a button, every button is some image's title, no title has
      two buttons, and the buttons follow the order in which titles first occur. */
  lemma CollectionButtonsAreTheTitles(images: seq<JourneyImage>)
    ensures var buttons := CollectionButtons(images);
      && NoDuplicates(buttons)
      && (forall i :: 0 <= i < |images| ==> images[i].collection in buttons)
      && (forall k :: 0 <= k < |buttons| ==> exists i :: 0 <= i < |images| && images[i].collection == buttons[k])
      && forall k, m :: 0 <= k < m < |buttons| ==> IndexOf(Titles(images), buttons[k]) < IndexOf(Titles(images), buttons[m])
  {
    var titles := Titles(images);
    var buttons := CollectionButtons(images);
    forall i | 0 <= i < |images| ensures images[i].collection in buttons {
      assert titles[i] in buttons;
    }
    forall k | 0 <= k < |buttons| ensures exists i :: 0 <= i < |images| && images[i].collection == buttons[k] {
      var i := IndexOf(titles, buttons[k]);
      assert images[i].collection == buttons[k];
    }
    DistinctFirstOccurrenceOrder(titles);
  }

  /** The click on a collection button: clear the filter if it is that collection,
      otherwise select that collection. */
  function Toggle(filter: Option<string>, collection: string): (r: Option<string>)
    ensures r == None <==> filter == Some(collection)
    ensures r != None ==> r == Some(collection)
  {
    if filter == Some(collection) then None else Some(collection)
  }

  /** Clicking the same button twice, from any filter but its own, clears the filter;
      clicking another collection's button switches straight to it. */
  lemma ToggleTwice(filter: Option<string>, collection: string, other: string)
    ensures filter != Some(collection) ==> Toggle(Toggle(filter, collection), collection) == None
    ensures other != collection ==> Toggle(Some(other), collection) == Some(collection)
  {
  }

  /** A filter is in force when it is set and, as a JavaScript condition, true: the empty
      title counts as no filter. */
  predicate FilterActive(filter: Option<string>) {
    filter.Some? && filter.value != ""
  }

  function InCollection(title: string): JourneyImage -> bool {
    (img: JourneyImage) => img.collection == title
  }

  /** `filteredImages`. */
  function FilteredImages(images: seq<JourneyImage>, filter: Option<string>): seq<JourneyImage> {
    if FilterActive(filter) then Filter(images, InCollection(filter.value)) else images
  }

  /** `isFiltered`: a filter is in force and the image is of another collection. */
  predicate Dimmed(filter: Option<string>, img: JourneyImage) {
    FilterActive(filter) && img.collection != filter.value
  }

  function Undimmed(filter: Option<string>): JourneyImage -> bool {
    (img: JourneyImage) => !Dimmed(filter, img)
  }

  /** `isHovered`: the hovered image has this image's source. */
  predicate Enlarged(hovered: Option<JourneyImage>, img: JourneyImage) {
    hovered.Some? && hovered.value.src == img.src
  }

  /** The filtered images are exactly the undimmed ones, in feed order; with no filter in
      force, they are all the images and none is dimmed. */
  lemma FilteredAreUndimmed(images: seq<JourneyImage>, filter: Option<string>)
    ensures FilteredImages(images, filter) == Filter(images, Undimmed(filter))
    ensures !FilterActive(filter) ==> FilteredImages(images, filter) == images
  {
    if FilterActive(filter) {
      FilterCongruent(images, InCollection(filter.value), Undimmed(filter));
    } else {
      FilterAll(images, Undimmed(filter));
    }
  }

  /** The view's state: the images it was given, the selected filter and the hovered
      image. */
  class ConstellationState {
    const images: seq<JourneyImage>
    var filter: Option<string>
    var hovered: Option<JourneyImage>

    /** The filter is nothing or the title of one of the buttons. */
    ghost predicate Valid()
      reads this
    {
      filter == None || filter.value in CollectionButtons(images)
    }

    constructor(images: seq<JourneyImage>)
      ensures this.images == images && filter == None && hovered == None
      ensures Valid()
    {
      this.images := images;
      filter := None;
      hovered := None;
    }

    /** The "all" button. */
    method ClickAll()
      modifies this
      ensures filter == None && hovered == old(hovered)
      ensures Valid()
    {
      filter := None;
    }

    /** The button of one collection. */
    method ClickCollection(collection: string)
      requires collection in CollectionButtons(images)
      modifies this
      ensures filter == Toggle(old(filter), collection) && hovered == old(hovered)
      ensures Valid()
    {
      filter := if filter == Some(collection) then None else Some(collection);
    }

    method MouseEnter(img: JourneyImage)
      modifies this
      ensures hovered == Some(img) && filter == old(filter)
      ensures Enlarged(hovered, img)
    {
      hovered := Some(img);
    }

    method MouseLeave()
      modifies this
      ensures hovered == None && filter == old(filter)
      ensures forall i :: 0 <= i < |images| ==> !Enlarged(hovered, images[i])
    {
      hovered := None;
    }
  }

  /** The "all" button is highlighted when no filter is selected. */
  predicate AllHighlighted(filter: Option<string>) {
    filter == None
  }

  /** A collection button is highlighted when its title is the selected filter. */
  predicate Highlighted(filter: Option<string>, collection: string) {
    filter == Some(collection)
  }

  /** With the filter nothing or one of the buttons' titles, exactly one button is
      highlighted: either "all" and no collection, or one collection button and not
      "all". */
  lemma ExactlyOneHighlighted(images: seq<JourneyImage>, filter: Option<string>)
    requires filter == None || filter.value in CollectionButtons(images)
    ensures var buttons := CollectionButtons(images);
      && (AllHighlighted(filter) <==> forall k :: 0 <= k < |buttons| ==> !Highlighted(filter, buttons[k]))
      && forall k, m :: 0 <= k < |buttons| && 0 <= m < |buttons| && Highlighted(filter, buttons[k]) && Highlighted(filter, buttons[m]) ==> k == m
  {
    var buttons := CollectionButtons(images);
    if filter != None {
      var k := IndexOf(buttons, filter.value);
      assert Highlighted(filter, buttons[k]);
    }
  }
}
