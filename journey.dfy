/** The journey page: every image of every collection as one record, the records sorted
    by the date of their collection. Date parsing is the parameter `dateKey`, which stands
    for `new Date(d).getTime()`. */
module Journey {
  import opened Wrappers
  import opened Seqs
  import opened Sorting
  import opened FileSystem
  import opened Collections

  datatype JourneyImage = JourneyImage(src: string, alt: string, collection: string, collectionSlug: string, date: string, index: nat)

  /** The record pushed for the `i`-th image of the collection `meta`. */
  function Record(meta: CollectionMeta, m: MediaItem, i: nat): JourneyImage {
    JourneyImage(MediaSrc(meta.slug, m.filename), AltText(meta.title, i), meta.title, meta.slug, meta.date, i)
  }

  /** The records of one collection's image-only list, numbered from 0. */
  function RecordsOf(meta: CollectionMeta, images: seq<MediaItem>): (r: seq<JourneyImage>)
    ensures |r| == |images|
  {
    seq(|images|, i requires 0 <= i < |images| => Record(meta, images[i], i))
  }

  function CollectionRecords(meta: CollectionMeta, media: seq<MediaItem>): seq<JourneyImage> {
    RecordsOf(meta, ImagesOnly(media))
  }

  /** The records of one collection carry its title, slug and date, name their image
      files in media order, and number them `0 .. k-1`. */
  lemma CollectionRecordsShape(meta: CollectionMeta, media: seq<MediaItem>, i: int)
    requires 0 <= i < |CollectionRecords(meta, media)|
    ensures var r := CollectionRecords(meta, media)[i];
      var m := ImagesOnly(media)[i];
      && m in media && m.mediaType == Image
      && r.src == "/collections/" + meta.slug + "/media/" + m.filename
      && r.alt == AltText(meta.title, i)
      && r.collection == meta.title && r.collectionSlug == meta.slug && r.date == meta.date
      && r.index == i
  {
  }

  /** How the page loads a collection by slug: `getCollection`. */
  function Loader(fs: Fs, matter: string -> Matter): string -> Result<Collection, FsError> {
    slug => GetCollection(fs, matter, slug)
  }

  /** The records pushed for `metas`, collection after collection, before sorting, with
      `load` loading a collection by slug; the first collection that cannot be loaded is
      the error. */
  function FeedRecords(load: string -> Result<Collection, FsError>, metas: seq<CollectionMeta>): Result<seq<JourneyImage>, FsError>
    decreases |metas|
  {
    if metas == [] then Ok([])
    else
      var init :- FeedRecords(load, metas[..|metas| - 1]);
      var c :- load(metas[|metas| - 1].slug);
      Ok(init + CollectionRecords(metas[|metas| - 1], c.media))
  }

  /** Once a prefix of the collections fails, the whole feed fails with the same error. */
  lemma {:induction false} FeedRecordsErrPrefix(load: string -> Result<Collection, FsError>, metas: seq<CollectionMeta>, k: nat)
    requires k <= |metas|
    requires FeedRecords(load, metas[..k]).Err?
    ensures FeedRecords(load, metas) == FeedRecords(load, metas[..k])
    decreases |metas|
  {
    if k < |metas| {
      var init := metas[..|metas| - 1];
      assert init[..k] == metas[..k];
      FeedRecordsErrPrefix(load, init, k);
    } else {
      assert metas[..k] == metas;
    }
  }

  function DateKeyOf(dateKey: string -> int): JourneyImage -> int {
    (r: JourneyImage) => dateKey(r.date)
  }

  /** The journey feed: the records of all collections, in `getAllCollections` order,
      stably sorted by the date key of their collection. */
  function JourneyFeed(fs: Fs, matter: string -> Matter, dateKey: string -> int): Result<seq<JourneyImage>, FsError> {
    var metas :- GetAllCollections(fs, matter);
    var records :- FeedRecords(Loader(fs, matter), metas);
    Ok(SortByKey(records, DateKeyOf(dateKey)))
  }

  /** The `forEach` loops of `getAllImages()`: one record per image of each collection,
      collection after collection. */
  method PushRecords(load: string -> Result<Collection, FsError>, collections: seq<CollectionMeta>)
    returns (r: Result<seq<JourneyImage>, FsError>)
    ensures r == FeedRecords(load, collections)
  {
    var allImages: seq<JourneyImage> := [];
    var c := 0;
    while c < |collections|
      invariant 0 <= c <= |collections|
      invariant FeedRecords(load, collections[..c]) == Ok(allImages)
    {
      var meta := collections[c];
      var collection := load(meta.slug);
      assert collections[..c + 1][..c] == collections[..c];
      if collection.Err? {
        FeedRecordsErrPrefix(load, collections, c + 1);
        return Err(collection.error);
      }
      var images := ImagesOnly(collection.value.media);
      var before := allImages;
      var i := 0;
      while i < |images|
        invariant 0 <= i <= |images|
        invariant allImages == before + RecordsOf(meta, images)[..i]
      {
        TakeSnoc(RecordsOf(meta, images), i);
        allImages := allImages + [Record(meta, images[i], i)];
        i := i + 1;
      }
      assert RecordsOf(meta, images)[..i] == RecordsOf(meta, images);
      c := c + 1;
    }
    assert collections[..c] == collections;
    r := Ok(allImages);
  }

  /** `getAllImages()`: the records of all collections, then the sort by date. */
  method GetAllImages(fs: Fs, matter: string -> Matter, dateKey: string -> int) returns (r: Result<seq<JourneyImage>, FsError>)
    ensures r == JourneyFeed(fs, matter, dateKey)
  {
    var collections := GetAllCollections(fs, matter);
    if collections.Err? {
      return Err(collections.error);
    }
    var allImages := PushRecords(Loader(fs, matter), collections.value);
    if allImages.Err? {
      return Err(allImages.error);
    }
    r := Ok(SortByKey(allImages.value, DateKeyOf(dateKey)));
  }

  /** The feed is non-decreasing by date key, holds exactly the pushed records, and keeps
      records with equal keys in the order they were pushed. */
  lemma FeedIsStablySortedByDate(fs: Fs, matter: string -> Matter, dateKey: string -> int)
    requires JourneyFeed(fs, matter, dateKey).Ok?
    ensures var feed := JourneyFeed(fs, matter, dateKey).value;
      var records := FeedRecords(Loader(fs, matter), GetAllCollections(fs, matter).value).value;
      && (forall i, j :: 0 <= i < j < |feed| ==> dateKey(feed[i].date) <= dateKey(feed[j].date))
      && multiset(feed) == multiset(records)
      && |feed| == |records|
      && forall k :: WithKey(feed, DateKeyOf(dateKey), k) == WithKey(records, DateKeyOf(dateKey), k)
  {
    var feed := JourneyFeed(fs, matter, dateKey).value;
    assert SortedByKey(feed, DateKeyOf(dateKey));
    forall i, j | 0 <= i < j < |feed| ensures dateKey(feed[i].date) <= dateKey(feed[j].date) {
      assert DateKeyOf(dateKey)(feed[i]) <= DateKeyOf(dateKey)(feed[j]);
    }
  }

  /** The number of images of the collections in `metas`. */
  function TotalImages(load: string -> Result<Collection, FsError>, metas: seq<CollectionMeta>): nat
    decreases |metas|
  {
    if metas == [] then 0
    else
      var c := load(metas[|metas| - 1].slug);
      TotalImages(load, metas[..|metas| - 1]) + (if c.Ok? then |ImagesOnly(c.value.media)| else 0)
  }

  /** The feed has one record per image of every collection. */
  lemma {:induction false} FeedLength(load: string -> Result<Collection, FsError>, metas: seq<CollectionMeta>)
    requires FeedRecords(load, metas).Ok?
    ensures |FeedRecords(load, metas).value| == TotalImages(load, metas)
    decreases |metas|
  {
    if metas != [] {
      FeedLength(load, metas[..|metas| - 1]);
    }
  }

  predicate HasSlug(slug: string, r: JourneyImage) {
    r.collectionSlug == slug
  }

  function SlugIs(slug: string): JourneyImage -> bool {
    r => HasSlug(slug, r)
  }

  /** The records of the collection `slug`, in order. */
  function OfCollection(records: seq<JourneyImage>, slug: string): seq<JourneyImage> {
    Filter(records, SlugIs(slug))
  }

  /** A successful feed is the feed of all but the last collection followed by the
      last collection's records. */
  lemma FeedRecordsSnoc(load: string -> Result<Collection, FsError>, metas: seq<CollectionMeta>)
    requires FeedRecords(load, metas).Ok? && metas != []
    ensures var last := metas[|metas| - 1];
      && FeedRecords(load, metas[..|metas| - 1]).Ok? && load(last.slug).Ok?
      && FeedRecords(load, metas).value
         == FeedRecords(load, metas[..|metas| - 1]).value + CollectionRecords(last, load(last.slug).value.media)
  {
  }

  /** Only its own collection's records carry a collection's slug. */
  lemma OfOwnRecords(meta: CollectionMeta, media: seq<MediaItem>, slug: string)
    ensures OfCollection(CollectionRecords(meta, media), slug)
      == if meta.slug == slug then CollectionRecords(meta, media) else []
  {
    var rs := CollectionRecords(meta, media);
    assert forall i :: 0 <= i < |rs| ==> rs[i].collectionSlug == meta.slug;
    if meta.slug == slug {
      FilterAll(rs, SlugIs(slug));
    } else {
      FilterNone(rs, SlugIs(slug));
    }
  }

  /** Before sorting, the records of the collection at position `c` are exactly that
      collection's records. */
  lemma {:induction false} FeedRecordsOfCollection(load: string -> Result<Collection, FsError>, metas: seq<CollectionMeta>, c: nat)
    requires FeedRecords(load, metas).Ok?
    requires DistinctSlugs(metas)
    requires c < |metas|
    ensures load(metas[c].slug).Ok?
    ensures OfCollection(FeedRecords(load, metas).value, metas[c].slug)
      == CollectionRecords(metas[c], load(metas[c].slug).value.media)
    decreases |metas|
  {
    var n := |metas| - 1;
    var slug := metas[c].slug;
    OfCollectionSnoc(load, metas, slug);
    if c < n {
      assert metas[..n][c] == metas[c];
      assert metas[n].slug != slug;
      assert DistinctSlugs(metas[..n]);
      FeedRecordsOfCollection(load, metas[..n], c);
    } else {
      NoRecordsOfLaterSlug(load, metas[..n], slug);
    }
  }

  /** The records of one slug in a successful feed: those of all but the last collection,
      then the last collection's records if it has that slug. */
  lemma OfCollectionSnoc(load: string -> Result<Collection, FsError>, metas: seq<CollectionMeta>, slug: string)
    requires FeedRecords(load, metas).Ok? && metas != []
    ensures var n := |metas| - 1;
      && FeedRecords(load, metas[..n]).Ok? && load(metas[n].slug).Ok?
      && OfCollection(FeedRecords(load, metas).value, slug)
         == OfCollection(FeedRecords(load, metas[..n]).value, slug)
            + (if metas[n].slug == slug then CollectionRecords(metas[n], load(metas[n].slug).value.media) else [])
  {
    var n := |metas| - 1;
    var last := metas[n];
    FeedRecordsSnoc(load, metas);
    var before := FeedRecords(load, metas[..n]).value;
    var lastRecords := CollectionRecords(last, load(last.slug).value.media);
    FilterConcat(before, lastRecords, SlugIs(slug));
    OfOwnRecords(last, load(last.slug).value.media, slug);
  }

  /** A slug that no collection among `metas` has contributes no records. */
  lemma {:induction false} NoRecordsOfLaterSlug(load: string -> Result<Collection, FsError>, metas: seq<CollectionMeta>, slug: string)
    requires FeedRecords(load, metas).Ok?
    requires forall i :: 0 <= i < |metas| ==> metas[i].slug != slug
    ensures OfCollection(FeedRecords(load, metas).value, slug) == []
    decreases |metas|
  {
    if metas != [] {
      var n := |metas| - 1;
      var lastRecords := CollectionRecords(metas[n], load(metas[n].slug).value.media);
      NoRecordsOfLaterSlug(load, metas[..n], slug);
      FilterConcat(FeedRecords(load, metas[..n]).value, lastRecords, SlugIs(slug));
      FilterNone(lastRecords, SlugIs(slug));
    }
  }

  /** Every pushed record with the slug of the collection at position `c` carries that
      collection's date. */
  lemma SameSlugSameDate(load: string -> Result<Collection, FsError>, metas: seq<CollectionMeta>, c: nat)
    requires FeedRecords(load, metas).Ok?
    requires DistinctSlugs(metas)
    requires c < |metas|
    ensures var records := FeedRecords(load, metas).value;
      forall i :: 0 <= i < |records| && HasSlug(metas[c].slug, records[i]) ==> records[i].date == metas[c].date
  {
    var records := FeedRecords(load, metas).value;
    FeedRecordsOfCollection(load, metas, c);
    var own := OfCollection(records, metas[c].slug);
    forall i | 0 <= i < |records| && HasSlug(metas[c].slug, records[i]) ensures records[i].date == metas[c].date {
      assert records[i] in own;
    }
  }

  /** A stable sort by a key that is constant on one collection's records keeps those
      records in their order. */
  lemma SortKeepsCollection(records: seq<JourneyImage>, key: JourneyImage -> int, k: int, slug: string)
    requires forall i :: 0 <= i < |records| && HasSlug(slug, records[i]) ==> key(records[i]) == k
    ensures OfCollection(SortByKey(records, key), slug) == OfCollection(records, slug)
  {
    var feed := SortByKey(records, key);
    forall i | 0 <= i < |feed| && HasSlug(slug, feed[i]) ensures key(feed[i]) == k {
      assert feed[i] in multiset(records);
    }
    WithKeyThenFilter(feed, key, k, SlugIs(slug));
    WithKeyThenFilter(records, key, k, SlugIs(slug));
    assert WithKey(feed, key, k) == WithKey(records, key, k);
  }

  /** The stable sort keeps one collection's records together in their pushed order. */
  lemma SortedFeedOfCollection(load: string -> Result<Collection, FsError>, metas: seq<CollectionMeta>, dateKey: string -> int, c: nat)
    requires FeedRecords(load, metas).Ok?
    requires DistinctSlugs(metas)
    requires c < |metas|
    ensures load(metas[c].slug).Ok?
    ensures OfCollection(SortByKey(FeedRecords(load, metas).value, DateKeyOf(dateKey)), metas[c].slug)
      == CollectionRecords(metas[c], load(metas[c].slug).value.media)
  {
    var records := FeedRecords(load, metas).value;
    FeedRecordsOfCollection(load, metas, c);
    SameSlugSameDate(load, metas, c);
    SortKeepsCollection(records, DateKeyOf(dateKey), dateKey(metas[c].date), metas[c].slug);
  }

  /** The records in the feed of the collection at position `c` of `getAllCollections`
      are that collection's records, in media order, numbered `0 .. k-1`. Slugs are
      directory names, so a listing of `content/collections` has no repeats. */
  lemma OneCollectionKeepsItsOrder(fs: Fs, matter: string -> Matter, dateKey: string -> int, c: nat)
    requires JourneyFeed(fs, matter, dateKey).Ok?
    requires NoDuplicates(fs.nodes[CollectionsDir].listing)
    requires c < |GetAllCollections(fs, matter).value|
    ensures var meta := GetAllCollections(fs, matter).value[c];
      && GetCollection(fs, matter, meta.slug).Ok?
      && OfCollection(JourneyFeed(fs, matter, dateKey).value, meta.slug)
         == CollectionRecords(meta, GetCollection(fs, matter, meta.slug).value.media)
  {
    var metas := GetAllCollections(fs, matter).value;
    AllCollectionsHaveDistinctSlugs(fs, matter);
    SortedFeedOfCollection(Loader(fs, matter), metas, dateKey, c);
    assert Loader(fs, matter)(metas[c].slug) == GetCollection(fs, matter, metas[c].slug);
  }
}
