/** The full-screen lightbox: which image it shows, how the keyboard and the arrow
    buttons move through the images, and what it prints. The index itself lives in the
    gallery that opens the lightbox; here are the decisions the lightbox makes about it. */
module Lightbox {
  import opened Wrappers
  import opened Strings
  import opened SceneView

  /** The keys the handler tells apart; every other key is `OtherKey`. */
  datatype Key = Escape | ArrowLeft | ArrowRight | OtherKey

  /** What one key press asks of the gallery: whether to call `onClose`, and the index
      passed to `onNavigate`, if any. */
  datatype KeyOutcome = KeyOutcome(close: bool, navigateTo: Option<int>)

  /** The keyboard handler. Escape closes; ArrowLeft steps back unless at the first image;
      ArrowRight steps forward unless at the last. */
  function HandleKeyDown(key: Key, currentIndex: int, count: nat): (o: KeyOutcome)
    ensures o.close <==> key == Escape
    ensures key == Escape || key == OtherKey ==> o.navigateTo == None
    ensures key == ArrowLeft ==> o.navigateTo == (if currentIndex > 0 then Some(currentIndex - 1) else None)
    ensures key == ArrowRight ==> o.navigateTo == (if currentIndex < count - 1 then Some(currentIndex + 1) else None)
  {
    var close := key == Escape;
    var back := if key == ArrowLeft && currentIndex > 0 then Some(currentIndex - 1) else None;
    var forward := if key == ArrowRight && currentIndex < count - 1 then Some(currentIndex + 1) else None;
    KeyOutcome(close, if back.Some? then back else forward)
  }

  /** The previous button is drawn exactly when the index is past the first image. */
  predicate ShowsPrevious(currentIndex: int) {
    currentIndex > 0
  }

  /** The next button is drawn exactly when the index is before the last image. */
  predicate ShowsNext(currentIndex: int, count: nat) {
    currentIndex < count - 1
  }

  /** The arrow buttons appear under the same conditions as the arrow keys act, and
      navigate to the same index. */
  lemma ButtonsMatchKeys(currentIndex: int, count: nat)
    ensures ShowsPrevious(currentIndex) <==> HandleKeyDown(ArrowLeft, currentIndex, count).navigateTo.Some?
    ensures ShowsPrevious(currentIndex) ==> HandleKeyDown(ArrowLeft, currentIndex, count).navigateTo == Some(currentIndex - 1)
    ensures ShowsNext(currentIndex, count) <==> HandleKeyDown(ArrowRight, currentIndex, count).navigateTo.Some?
    ensures ShowsNext(currentIndex, count) ==> HandleKeyDown(ArrowRight, currentIndex, count).navigateTo == Some(currentIndex + 1)
  {
  }

  /** The state the lightbox reads: whether it is open and the current index. */
  datatype ViewState = ViewState(isOpen: bool, currentIndex: int)

  /** One key press: the handler is registered only while the lightbox is open; Escape
      closes it and leaves the index alone, an arrow key moves the index. */
  function KeyStep(s: ViewState, count: nat, key: Key): (t: ViewState)
    ensures !s.isOpen ==> t == s
    ensures t.isOpen ==> s.isOpen
  {
    if !s.isOpen then s
    else
      var o := HandleKeyDown(key, s.currentIndex, count);
      ViewState(!o.close, o.navigateTo.GetOr(s.currentIndex))
  }

  /** A run of key presses, in order. */
  function RunKeys(s: ViewState, count: nat, keys: seq<Key>): ViewState
    decreases |keys|
  {
    if keys == [] then s else RunKeys(KeyStep(s, count, keys[0]), count, keys[1..])
  }

  /** Starting on an existing image, no key press moves the index off the images. */
  lemma KeyStepKeepsRange(s: ViewState, count: nat, key: Key)
    requires 0 <= s.currentIndex < count
    ensures 0 <= KeyStep(s, count, key).currentIndex < count
  {
  }

  /** Starting on an existing image, no run of key presses moves the index off the images;
      once closed, the lightbox stays closed and the index stays put. */
  lemma {:induction false} RunKeysKeepsRange(s: ViewState, count: nat, keys: seq<Key>)
    requires 0 <= s.currentIndex < count
    ensures 0 <= RunKeys(s, count, keys).currentIndex < count
    ensures !s.isOpen ==> RunKeys(s, count, keys) == s
    decreases |keys|
  {
    if keys != [] {
      KeyStepKeepsRange(s, count, keys[0]);
      RunKeysKeepsRange(KeyStep(s, count, keys[0]), count, keys[1..]);
    }
  }

  /** `images[currentIndex]`, which is undefined off the ends. */
  function CurrentImage(images: seq<SceneImage>, currentIndex: int): (r: Option<SceneImage>)
    ensures r.Some? <==> 0 <= currentIndex < |images|
    ensures r.Some? ==> r.value == images[currentIndex]
  {
    if 0 <= currentIndex < |images| then Some(images[currentIndex]) else None
  }

  /** Something is drawn only while open and on an existing image. */
  predicate Renders(isOpen: bool, images: seq<SceneImage>, currentIndex: int) {
    isOpen && CurrentImage(images, currentIndex).Some?
  }

  /** `!!current?.reflection`: the current image has a reflection that is not empty. */
  predicate HasReflection(images: seq<SceneImage>, currentIndex: int) {
    var current := CurrentImage(images, currentIndex);
    current.Some? && current.value.reflection.Some? && current.value.reflection.value != ""
  }

  /** The reflection panel is drawn exactly when the lightbox is drawn and the current
      image has a non-empty reflection, and it then shows that reflection. */
  lemma ReflectionPanelShown(isOpen: bool, images: seq<SceneImage>, currentIndex: int)
    ensures Renders(isOpen, images, currentIndex) && HasReflection(images, currentIndex)
      <==> isOpen && 0 <= currentIndex < |images|
           && images[currentIndex].reflection.Some? && |images[currentIndex].reflection.value| > 0
  {
  }

  /** The counter text `<currentIndex + 1> / <images.length>`. */
  function Counter(currentIndex: nat, count: nat): (r: string)
    ensures |r| >= 5
  {
    NatToString(currentIndex + 1) + " / " + NatToString(count)
  }

  /** Different positions or totals always print different counters. */
  lemma CounterInjective(i: nat, n: nat, j: nat, m: nat)
    requires Counter(i, n) == Counter(j, m)
    ensures i == j && n == m
  {
    var a, b := NatToString(i + 1), NatToString(n);
    var c, d := NatToString(j + 1), NatToString(m);
    SplitAtSpace(a, b, c, d);
    NatToStringInjective(i + 1, j + 1);
    NatToStringInjective(n, m);
  }

  /** The number of leading decimal digits of a string. */
  function LeadingDigits(s: string): (n: nat)
    ensures n <= |s|
  {
    if s != [] && IsDigit(s[0]) then 1 + LeadingDigits(s[1..]) else 0
  }

  lemma {:induction false} LeadingDigitsOfJoin(a: string, rest: string)
    requires forall k :: 0 <= k < |a| ==> IsDigit(a[k])
    requires rest != [] && !IsDigit(rest[0])
    ensures LeadingDigits(a + rest) == |a|
  {
    if a != [] {
      assert (a + rest)[1..] == a[1..] + rest;
      LeadingDigitsOfJoin(a[1..], rest);
    } else {
      assert a + rest == rest;
    }
  }

  /** A digit string followed by " / " is recovered from the joined text. */
  lemma SplitAtSpace(a: string, b: string, c: string, d: string)
    requires forall k :: 0 <= k < |a| ==> IsDigit(a[k])
    requires forall k :: 0 <= k < |c| ==> IsDigit(c[k])
    requires a + " / " + b == c + " / " + d
    ensures a == c && b == d
  {
    var s := a + " / " + b;
    assert s == a + (" / " + b);
    assert s == c + (" / " + d);
    LeadingDigitsOfJoin(a, " / " + b);
    LeadingDigitsOfJoin(c, " / " + d);
    assert a == s[..|a|] == c;
    assert b == s[|a| + 3..] == d;
  }
}
