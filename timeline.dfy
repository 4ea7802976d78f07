/** The timeline view of the journey: images grouped by year, the years in ascending
    order, a stagger offset per image and a connector between consecutive years. The year
    of a date string is the parameter `yearOf`, which stands for
    `new Date(d).getFullYear().toString()`. */
module Timeline {
  import opened Seqs
  import opened Strings
  import opened Journey

  function YearIs(yearOf: string -> string, year: string): JourneyImage -> bool {
    (img: JourneyImage) => yearOf(img.date) == year
  }

  /** The images of one year, in input order. */
  function OfYear(images: seq<JourneyImage>, yearOf: string -> string, year: string): seq<JourneyImage> {
    Filter(images, YearIs(yearOf, year))
  }

  /** `groups` holds, under each of the distinct `keys`, the images of that year, and
      every image's year is a key; only the group of `pending` may still be empty. */
  ghost predicate GroupedExcept(groups: map<string, seq<JourneyImage>>, keys: seq<string>, images: seq<JourneyImage>, yearOf: string -> string, pending: string) {
    && NoDuplicates(keys)
    && (forall y :: y in groups <==> y in keys)
    && (forall j :: 0 <= j < |images| ==> yearOf(images[j].date) in groups)
    && forall y :: y in groups ==> groups[y] == OfYear(images, yearOf, y) && (groups[y] != [] || y == pending)
  }

  /** `groups` holds, under each of the distinct `keys`, the non-empty group of images of
      that year, and every image's year is a key. */
  ghost predicate Grouped(groups: map<string, seq<JourneyImage>>, keys: seq<string>, images: seq<JourneyImage>, yearOf: string -> string) {
    && NoDuplicates(keys)
    && (forall y :: y in groups <==> y in keys)
    && (forall j :: 0 <= j < |images| ==> yearOf(images[j].date) in groups)
    && forall y :: y in groups ==> groups[y] == OfYear(images, yearOf, y) && groups[y] != []
  }

  /** The `reduce` that builds `imagesByYear`: `groups` is the record, `keys` its keys in
      insertion order. */
  method ImagesByYear(images: seq<JourneyImage>, yearOf: string -> string)
    returns (groups: map<string, seq<JourneyImage>>, keys: seq<string>)
    ensures NoDuplicates(keys)
    ensures forall y :: y in groups <==> y in keys
    ensures forall i :: 0 <= i < |images| ==> yearOf(images[i].date) in groups
    ensures forall y :: y in groups ==> groups[y] == OfYear(images, yearOf, y) && groups[y] != []
  {
    groups := map[];
    keys := [];
    var i := 0;
    while i < |images|
      invariant 0 <= i <= |images|
      invariant Grouped(groups, keys, images[..i], yearOf)
    {
      var img := images[i];
      var year := yearOf(img.date);
      if year !in groups {
        NewYear(groups, keys, images[..i], yearOf, year);
        groups := groups[year := []];
        keys := keys + [year];
      } else {
        KnownYear(groups, keys, images[..i], yearOf, year);
      }
      GroupedStep(groups, keys, images[..i], yearOf, img);
      TakeSnoc(images, i);
      groups := groups[year := groups[year] + [img]];
      i := i + 1;
    }
    assert images[..i] == images;
  }

  /** A year seen before. */
  lemma KnownYear(groups: map<string, seq<JourneyImage>>, keys: seq<string>, images: seq<JourneyImage>, yearOf: string -> string, year: string)
    requires Grouped(groups, keys, images, yearOf)
    ensures GroupedExcept(groups, keys, images, yearOf, year)
  {
  }

  /** A year seen for the first time: no earlier image has it, and it gets an empty
      group and a new key. */
  lemma NewYear(groups: map<string, seq<JourneyImage>>, keys: seq<string>, images: seq<JourneyImage>, yearOf: string -> string, year: string)
    requires Grouped(groups, keys, images, yearOf)
    requires year !in groups
    ensures GroupedExcept(groups[year := []], keys + [year], images, yearOf, year)
  {
    forall j | 0 <= j < |images| ensures !YearIs(yearOf, year)(images[j]) {
      assert yearOf(images[j].date) in groups;
    }
    FilterNone(images, YearIs(yearOf, year));
    assert year !in keys;
  }

  /** Appending an image to the group of its year. */
  lemma GroupedStep(groups: map<string, seq<JourneyImage>>, keys: seq<string>, images: seq<JourneyImage>, yearOf: string -> string, img: JourneyImage)
    requires GroupedExcept(groups, keys, images, yearOf, yearOf(img.date))
    requires yearOf(img.date) in groups
    ensures Grouped(groups[yearOf(img.date) := groups[yearOf(img.date)] + [img]], keys, images + [img], yearOf)
  {
    var year := yearOf(img.date);
    var g := groups[year := groups[year] + [img]];
    forall y | y in g ensures g[y] == OfYear(images + [img], yearOf, y) {
      FilterSnoc(images, img, YearIs(yearOf, y));
    }
  }

  /** `Object.keys(imagesByYear).sort()`. */
  function Years(keys: seq<string>): seq<string> {
    SortStrings(keys)
  }

  /** The years are the keys, each once, in strictly ascending order. */
  lemma YearsAscending(keys: seq<string>)
    requires NoDuplicates(keys)
    ensures var years := Years(keys);
      && |years| == |keys|
      && (forall i :: 0 <= i < |years| ==> years[i] in keys)
      && (forall i :: 0 <= i < |keys| ==> keys[i] in years)
      && NoDuplicates(years)
      && forall i, j :: 0 <= i < j < |years| ==> LexLeq(years[i], years[j]) && years[i] != years[j]
  {
    var years := Years(keys);
    forall i | 0 <= i < |years| ensures years[i] in keys {
      assert years[i] in multiset(years);
    }
    forall i | 0 <= i < |keys| ensures keys[i] in years {
      assert keys[i] in multiset(keys);
    }
    NoDuplicatesPermutation(keys, years);
  }

  /** The total of the group sizes over `ys`. */
  function GroupSizes(images: seq<JourneyImage>, yearOf: string -> string, ys: seq<string>): nat {
    if ys == [] then 0 else |OfYear(images, yearOf, ys[0])| + GroupSizes(images, yearOf, ys[1..])
  }

  /** The number of times `y` occurs in `ys`. */
  function Occurrences(ys: seq<string>, y: string): nat {
    if ys == [] then 0 else (if ys[0] == y then 1 else 0) + Occurrences(ys[1..], y)
  }

  lemma {:induction false} GroupSizesSnoc(images: seq<JourneyImage>, yearOf: string -> string, ys: seq<string>, img: JourneyImage)
    ensures GroupSizes(images + [img], yearOf, ys) == GroupSizes(images, yearOf, ys) + Occurrences(ys, yearOf(img.date))
  {
    if ys != [] {
      FilterSnoc(images, img, YearIs(yearOf, ys[0]));
      GroupSizesSnoc(images, yearOf, ys[1..], img);
    }
  }

  lemma {:induction false} OccursOnce(ys: seq<string>, y: string)
    requires NoDuplicates(ys) && y in ys
    ensures Occurrences(ys, y) == 1
  {
    if ys[0] == y {
      OccursNever(ys[1..], y);
    } else {
      OccursOnce(ys[1..], y);
    }
  }

  lemma {:induction false} OccursNever(ys: seq<string>, y: string)
    requires y !in ys
    ensures Occurrences(ys, y) == 0
  {
    if ys != [] {
      OccursNever(ys[1..], y);
    }
  }

  /** Every image is in exactly one group: over distinct years that include every image's
      year, the group sizes add up to the number of images. */
  lemma {:induction false} GroupSizesSum(images: seq<JourneyImage>, yearOf: string -> string, ys: seq<string>)
    requires NoDuplicates(ys)
    requires forall i :: 0 <= i < |images| ==> yearOf(images[i].date) in ys
    ensures GroupSizes(images, yearOf, ys) == |images|
    decreases |images|
  {
    if images == [] {
      GroupSizesEmpty(yearOf, ys);
    } else {
      var init := images[..|images| - 1];
      var last := images[|images| - 1];
      assert images == init + [last];
      GroupSizesSum(init, yearOf, ys);
      GroupSizesSnoc(init, yearOf, ys, last);
      OccursOnce(ys, yearOf(last.date));
    }
  }

  lemma {:induction false} GroupSizesEmpty(yearOf: string -> string, ys: seq<string>)
    ensures GroupSizes([], yearOf, ys) == 0
  {
    if ys != [] {
      GroupSizesEmpty(yearOf, ys[1..]);
    }
  }

  /** The images of the years `ys`, counted with their multiplicity. */
  function GroupsMultiset(images: seq<JourneyImage>, yearOf: string -> string, ys: seq<string>): multiset<JourneyImage> {
    if ys == [] then multiset{} else multiset(OfYear(images, yearOf, ys[0])) + GroupsMultiset(images, yearOf, ys[1..])
  }

  /** One more image whose year is not among `ys` is not counted. */
  lemma {:induction false} GroupsMultisetSnocAbsent(images: seq<JourneyImage>, yearOf: string -> string, ys: seq<string>, img: JourneyImage)
    requires yearOf(img.date) !in ys
    ensures GroupsMultiset(images + [img], yearOf, ys) == GroupsMultiset(images, yearOf, ys)
  {
    if ys != [] {
      assert yearOf(img.date) !in ys[1..];
      GroupsMultisetSnocAbsent(images, yearOf, ys[1..], img);
      OfYearSnoc(images, yearOf, ys[0], img);
      GroupsMultisetCons(images, yearOf, ys);
      GroupsMultisetCons(images + [img], yearOf, ys);
    }
  }

  /** Over distinct years, one more image whose year is among them is counted once. */
  lemma {:induction false} GroupsMultisetSnocPresent(images: seq<JourneyImage>, yearOf: string -> string, ys: seq<string>, img: JourneyImage)
    requires NoDuplicates(ys) && yearOf(img.date) in ys
    ensures GroupsMultiset(images + [img], yearOf, ys) == GroupsMultiset(images, yearOf, ys) + multiset{img}
  {
    var tail := ys[1..];
    NoDuplicatesTail(ys);
    OfYearSnoc(images, yearOf, ys[0], img);
    GroupsMultisetCons(images, yearOf, ys);
    GroupsMultisetCons(images + [img], yearOf, ys);
    if yearOf(img.date) == ys[0] {
      GroupsMultisetSnocAbsent(images, yearOf, tail, img);
    } else {
      GroupsMultisetSnocPresent(images, yearOf, tail, img);
    }
  }

  lemma OfYearSnoc(images: seq<JourneyImage>, yearOf: string -> string, year: string, img: JourneyImage)
    ensures multiset(OfYear(images + [img], yearOf, year))
      == multiset(OfYear(images, yearOf, year)) + (if yearOf(img.date) == year then multiset{img} else multiset{})
  {
    FilterSnoc(images, img, YearIs(yearOf, year));
    assert YearIs(yearOf, year)(img) <==> yearOf(img.date) == year;
  }

  lemma GroupsMultisetCons(images: seq<JourneyImage>, yearOf: string -> string, ys: seq<string>)
    requires ys != []
    ensures GroupsMultiset(images, yearOf, ys) == multiset(OfYear(images, yearOf, ys[0])) + GroupsMultiset(images, yearOf, ys[1..])
  {
  }

  lemma {:induction false} GroupsMultisetEmpty(yearOf: string -> string, ys: seq<string>)
    ensures GroupsMultiset([], yearOf, ys) == multiset{}
  {
    if ys != [] {
      GroupsMultisetEmpty(yearOf, ys[1..]);
    }
  }

  /** Over distinct years that include every image's year, the groups hold every image
      exactly as often as the journey does. */
  lemma {:induction false} GroupsMultisetSum(images: seq<JourneyImage>, yearOf: string -> string, ys: seq<string>)
    requires NoDuplicates(ys)
    requires forall i :: 0 <= i < |images| ==> yearOf(images[i].date) in ys
    ensures GroupsMultiset(images, yearOf, ys) == multiset(images)
    decreases |images|
  {
    if images == [] {
      GroupsMultisetEmpty(yearOf, ys);
    } else {
      var init := images[..|images| - 1];
      var last := images[|images| - 1];
      assert images == init + [last];
      GroupsMultisetSum(init, yearOf, ys);
      GroupsMultisetSnocPresent(init, yearOf, ys, last);
    }
  }

  /** The images the timeline draws, year by year in the order of `ys`. */
  function Shown(groups: map<string, seq<JourneyImage>>, ys: seq<string>): seq<JourneyImage>
    requires forall k :: 0 <= k < |ys| ==> ys[k] in groups
  {
    if ys == [] then [] else groups[ys[0]] + Shown(groups, ys[1..])
  }

  lemma {:induction false} ShownSize(groups: map<string, seq<JourneyImage>>, images: seq<JourneyImage>, yearOf: string -> string, ys: seq<string>)
    requires forall k :: 0 <= k < |ys| ==> ys[k] in groups && groups[ys[k]] == OfYear(images, yearOf, ys[k])
    ensures |Shown(groups, ys)| == GroupSizes(images, yearOf, ys)
  {
    if ys != [] {
      ShownSize(groups, images, yearOf, ys[1..]);
    }
  }

  lemma {:induction false} ShownContains(groups: map<string, seq<JourneyImage>>, ys: seq<string>, k: nat, img: JourneyImage)
    requires forall k :: 0 <= k < |ys| ==> ys[k] in groups
    requires k < |ys| && img in groups[ys[k]]
    ensures img in Shown(groups, ys)
  {
    if k > 0 {
      ShownContains(groups, ys[1..], k - 1, img);
    }
  }

  lemma {:induction false} ShownMultiset(groups: map<string, seq<JourneyImage>>, images: seq<JourneyImage>, yearOf: string -> string, ys: seq<string>)
    requires forall k :: 0 <= k < |ys| ==> ys[k] in groups && groups[ys[k]] == OfYear(images, yearOf, ys[k])
    ensures multiset(Shown(groups, ys)) == GroupsMultiset(images, yearOf, ys)
  {
    if ys != [] {
      ShownMultiset(groups, images, yearOf, ys[1..]);
    }
  }

  /** The timeline, drawn from the grouping and the sorted years, shows every image of
      the journey exactly as often as the journey has it, each under the heading of its
      own year. */
  lemma TimelineShowsEveryImageOnce(images: seq<JourneyImage>, yearOf: string -> string,
                                    groups: map<string, seq<JourneyImage>>, keys: seq<string>)
    requires Grouped(groups, keys, images, yearOf)
    ensures var years := Years(keys);
      && (forall k :: 0 <= k < |years| ==> years[k] in groups)
      && |Shown(groups, years)| == |images|
      && multiset(Shown(groups, years)) == multiset(images)
      && (forall i :: 0 <= i < |images| ==> images[i] in Shown(groups, years))
      && forall k, m :: 0 <= k < |years| && 0 <= m < |groups[years[k]]| ==> yearOf(groups[years[k]][m].date) == years[k]
  {
    var years := Years(keys);
    YearsAscending(keys);
    assert forall k :: 0 <= k < |years| ==> years[k] in groups;
    forall i | 0 <= i < |images| ensures yearOf(images[i].date) in years {
      assert yearOf(images[i].date) in keys;
    }
    GroupSizesSum(images, yearOf, years);
    ShownSize(groups, images, yearOf, years);
    GroupsMultisetSum(images, yearOf, years);
    ShownMultiset(groups, images, yearOf, years);
    forall i | 0 <= i < |images| ensures images[i] in Shown(groups, years) {
      var y := yearOf(images[i].date);
      var k :| 0 <= k < |years| && years[k] == y;
      assert YearIs(yearOf, y)(images[i]);
      ShownContains(groups, years, k, images[i]);
    }
    forall k, m | 0 <= k < |years| && 0 <= m < |groups[years[k]]| ensures yearOf(groups[years[k]][m].date) == years[k] {
      assert YearIs(yearOf, years[k])(groups[years[k]][m]);
    }
  }

  /** `marginBottom` of the `imgIndex`-th image of a group: `(imgIndex % 3) * 20` pixels. */
  function ImageOffset(imgIndex: nat): (px: nat)
    ensures px == 0 || px == 20 || px == 40
    ensures px == 0 <==> imgIndex % 3 == 0
  {
    (imgIndex % 3) * 20
  }

  /** The offsets repeat every three images. */
  lemma ImageOffsetCycles(imgIndex: nat)
    ensures ImageOffset(imgIndex + 3) == ImageOffset(imgIndex)
  {
  }

  /** A connector follows the year at `yearIndex` unless it is the last year. */
  predicate HasConnector(yearIndex: nat, yearCount: nat) {
    yearIndex < yearCount - 1
  }

  /** The number of connectors among the first `k` years. */
  function Connectors(k: nat, yearCount: nat): nat {
    if k == 0 then 0 else Connectors(k - 1, yearCount) + (if HasConnector(k - 1, yearCount) then 1 else 0)
  }

  /** `n` years are joined by `n - 1` connectors. */
  lemma {:induction false} ConnectorCount(k: nat, yearCount: nat)
    requires k <= yearCount
    ensures Connectors(k, yearCount) == if k == yearCount && k > 0 then k - 1 else k
  {
    if k > 0 {
      ConnectorCount(k - 1, yearCount);
    }
  }
}
