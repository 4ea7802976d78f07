/** The content loader: collections are the sub-directories of `content/collections`,
    each with a `meta.md` front-matter document and an optional `media` directory whose
    image and video files may each have a `<base>.md` reflection beside them.
    The front-matter parser is a parameter `matter`; every filesystem call that can throw
    makes the whole call fail with that error. */
module Collections {
  import opened Wrappers
  import opened Seqs
  import opened Strings
  import opened Sorting
  import opened PathNames
  import opened FileSystem

  /** `path.join(process.cwd(), 'content/collections')`, relative to the working directory. */
  const CollectionsDir: Path := ["content", "collections"]

  const MediaExtensions: seq<string> := [".jpg", ".jpeg", ".png", ".webp", ".mp4", ".webm"]
  const VideoExtensions: seq<string> := [".mp4", ".webm"]

  /** The front-matter fields the loader reads; `order` is None when null or undefined. */
  datatype FrontMatter = FrontMatter(title: string, date: string, cover: string, description: string, order: Option<int>)

  /** What `matter(text)` returns: the parsed front matter and the remaining body. */
  datatype Matter = Matter(data: FrontMatter, content: string)

  datatype CollectionMeta = CollectionMeta(slug: string, title: string, date: string, cover: string, description: string, order: int)

  datatype MediaType = Image | Video

  datatype MediaItem = MediaItem(filename: string, mediaType: MediaType, reflection: Option<string>)

  /** `{ ...meta, media }`. */
  datatype Collection = Collection(meta: CollectionMeta, media: seq<MediaItem>)

  // ---------------------------------------------------------------------------
  // getCollectionSlugs
  // ---------------------------------------------------------------------------

  predicate IsDirEntry(fs: Fs, dir: Path, name: string) {
    IsDirectoryAt(fs, dir + [name])
  }

  /** The entries of `names` that are directories under `dir`, in listing order. */
  function Subdirectories(fs: Fs, dir: Path, names: seq<string>): seq<string> {
    Filter(names, IsDirIn(fs, dir))
  }

  function IsDirIn(fs: Fs, dir: Path): string -> bool {
    n => IsDirEntry(fs, dir, n)
  }

  /** `names.filter(n => fs.statSync(join(dir, n)).isDirectory())`: the first entry that
      does not exist makes `statSync` throw. */
  function KeepDirectories(fs: Fs, dir: Path, names: seq<string>): (r: Result<seq<string>, FsError>)
    ensures r.Ok? <==> forall i :: 0 <= i < |names| ==> Exists(fs, dir + [names[i]])
    ensures r.Ok? ==> r.value == Subdirectories(fs, dir, names)
    ensures r.Err? ==> exists i :: (0 <= i < |names| && r.error == NoEntry(dir + [names[i]]) && !Exists(fs, dir + [names[i]])
      && forall j :: 0 <= j < i ==> Exists(fs, dir + [names[j]]))
  {
    if names == [] then Ok([])
    else
      var isDir :- StatIsDirectory(fs, dir + [names[0]]);
      var rest :- KeepDirectories(fs, dir, names[1..]);
      Ok((if isDir then [names[0]] else []) + rest)
  }

  /** `getCollectionSlugs()`. */
  function GetCollectionSlugs(fs: Fs): (r: Result<seq<string>, FsError>)
    ensures r.Ok? <==> (IsDirectoryAt(fs, CollectionsDir)
      && forall i :: 0 <= i < |fs.nodes[CollectionsDir].listing| ==> Exists(fs, CollectionsDir + [fs.nodes[CollectionsDir].listing[i]]))
    ensures r.Ok? ==> r.value == Subdirectories(fs, CollectionsDir, fs.nodes[CollectionsDir].listing)
  {
    var names :- ReadDir(fs, CollectionsDir);
    KeepDirectories(fs, CollectionsDir, names)
  }

  /** The slugs are exactly the listed entries that are directories, in listing order. */
  lemma SlugsAreListedDirectories(fs: Fs, i: int)
    requires GetCollectionSlugs(fs).Ok?
    ensures var slugs := GetCollectionSlugs(fs).value;
      var listing := fs.nodes[CollectionsDir].listing;
      (0 <= i < |slugs| ==> slugs[i] in listing && IsDirEntry(fs, CollectionsDir, slugs[i]))
      && (0 <= i < |listing| && IsDirEntry(fs, CollectionsDir, listing[i]) ==> listing[i] in slugs)
  {
  }

  /** A listing without repeats gives slugs without repeats. */
  lemma SlugsHaveNoRepeats(fs: Fs)
    requires GetCollectionSlugs(fs).Ok?
    requires NoDuplicates(fs.nodes[CollectionsDir].listing)
    ensures NoDuplicates(GetCollectionSlugs(fs).value)
  {
    FilterNoDuplicates(fs.nodes[CollectionsDir].listing, IsDirIn(fs, CollectionsDir));
  }

  // ---------------------------------------------------------------------------
  // getCollectionMeta and getAllCollections
  // ---------------------------------------------------------------------------

  function MetaPath(slug: string): Path {
    CollectionsDir + [slug, "meta.md"]
  }

  /** `getCollectionMeta(slug)`: the fields are copied from the front matter unchecked;
      `order` is `data.order ?? 0`. */
  function GetCollectionMeta(fs: Fs, matter: string -> Matter, slug: string): (r: Result<CollectionMeta, FsError>)
    ensures r.Ok? <==> IsFileAt(fs, MetaPath(slug))
    ensures r.Ok? ==> var data := matter(fs.nodes[MetaPath(slug)].contents).data;
      && r.value.slug == slug
      && r.value.title == data.title && r.value.date == data.date
      && r.value.cover == data.cover && r.value.description == data.description
      && r.value.order == (if data.order.Some? then data.order.value else 0)
  {
    var text :- ReadFile(fs, MetaPath(slug));
    var data := matter(text).data;
    Ok(CollectionMeta(slug, data.title, data.date, data.cover, data.description, data.order.GetOr(0)))
  }

  /** `slugs.map(getCollectionMeta)`, failing at the first slug whose `meta.md` cannot be read. */
  function MetasOf(fs: Fs, matter: string -> Matter, slugs: seq<string>): (r: Result<seq<CollectionMeta>, FsError>)
    ensures r.Ok? <==> forall i :: 0 <= i < |slugs| ==> GetCollectionMeta(fs, matter, slugs[i]).Ok?
    ensures r.Ok? ==> (|r.value| == |slugs|
      && forall i :: 0 <= i < |slugs| ==> r.value[i] == GetCollectionMeta(fs, matter, slugs[i]).value)
  {
    if slugs == [] then Ok([])
    else
      var m :- GetCollectionMeta(fs, matter, slugs[0]);
      var rest :- MetasOf(fs, matter, slugs[1..]);
      Ok([m] + rest)
  }

  function OrderOf(m: CollectionMeta): int {
    m.order
  }

  /** `getAllCollections()`: the metas of all slugs, stably sorted by `order`. */
  function GetAllCollections(fs: Fs, matter: string -> Matter): (r: Result<seq<CollectionMeta>, FsError>)
    ensures r.Ok? <==> GetCollectionSlugs(fs).Ok? && MetasOf(fs, matter, GetCollectionSlugs(fs).value).Ok?
    ensures r.Ok? ==> var metas := MetasOf(fs, matter, GetCollectionSlugs(fs).value).value;
      && SortedByKey(r.value, OrderOf)
      && multiset(r.value) == multiset(metas)
      && forall k :: WithKey(r.value, OrderOf, k) == WithKey(metas, OrderOf, k)
  {
    var slugs :- GetCollectionSlugs(fs);
    var metas :- MetasOf(fs, matter, slugs);
    Ok(SortByKey(metas, OrderOf))
  }

  /** Any ordering of the metas that is sorted by `order` and keeps equal orders in slug
      listing order is the one `getAllCollections` returns. */
  lemma AllCollectionsOrderIsDetermined(fs: Fs, matter: string -> Matter, other: seq<CollectionMeta>)
    requires GetAllCollections(fs, matter).Ok?
    requires SortedByKey(other, OrderOf)
    requires forall k :: WithKey(other, OrderOf, k) == WithKey(MetasOf(fs, matter, GetCollectionSlugs(fs).value).value, OrderOf, k)
    ensures other == GetAllCollections(fs, matter).value
  {
    StableSortUnique(other, GetAllCollections(fs, matter).value, OrderOf);
  }

  /** No two collections have the same slug. */
  predicate DistinctSlugs(metas: seq<CollectionMeta>) {
    forall i, j :: 0 <= i < j < |metas| ==> metas[i].slug != metas[j].slug
  }

  /** Rearranging collections keeps their slugs distinct. */
  lemma DistinctSlugsPermutation(metas: seq<CollectionMeta>, r: seq<CollectionMeta>)
    requires DistinctSlugs(metas) && multiset(metas) == multiset(r)
    ensures DistinctSlugs(r)
  {
    assert NoDuplicates(metas);
    NoDuplicatesPermutation(metas, r);
    forall i, j | 0 <= i < j < |r| ensures r[i].slug != r[j].slug {
      assert r[i] in multiset(metas) && r[j] in multiset(metas);
      var a :| 0 <= a < |metas| && metas[a] == r[i];
      var b :| 0 <= b < |metas| && metas[b] == r[j];
      assert a != b;
    }
  }

  lemma MetasHaveDistinctSlugs(fs: Fs, matter: string -> Matter, slugs: seq<string>)
    requires MetasOf(fs, matter, slugs).Ok? && NoDuplicates(slugs)
    ensures DistinctSlugs(MetasOf(fs, matter, slugs).value)
  {
    var metas := MetasOf(fs, matter, slugs).value;
    assert forall i :: 0 <= i < |metas| ==> metas[i].slug == slugs[i];
  }

  /** A listing of `content/collections` without repeated names gives collections with
      distinct slugs. */
  lemma AllCollectionsHaveDistinctSlugs(fs: Fs, matter: string -> Matter)
    requires GetAllCollections(fs, matter).Ok?
    requires NoDuplicates(fs.nodes[CollectionsDir].listing)
    ensures DistinctSlugs(GetAllCollections(fs, matter).value)
  {
    var slugs := GetCollectionSlugs(fs).value;
    SlugsHaveNoRepeats(fs);
    MetasHaveDistinctSlugs(fs, matter, slugs);
    DistinctSlugsPermutation(MetasOf(fs, matter, slugs).value, GetAllCollections(fs, matter).value);
  }

  // ---------------------------------------------------------------------------
  // getCollection
  // ---------------------------------------------------------------------------

  function MediaDir(slug: string): Path {
    CollectionsDir + [slug, "media"]
  }

  /** The extension test of the media filter: lower-cased, one of the six allowed. */
  predicate IsMediaFile(name: string) {
    ToLower(ExtName(name)) in MediaExtensions
  }

  /** Reflection documents are never taken for media, whatever their stem. */
  lemma ReflectionFilesAreNotMedia(stem: string)
    ensures !IsMediaFile(stem + ".md")
  {
    var name := stem + ".md";
    if stem != [] && name != ".." {
      ExtNameOfJoin(stem, ".md");
      assert ToLower(".md") == ".md";
    } else {
      assert ExtName(name) == "" by {
        assert name == ".md";
        assert LastDot(name) == Some(0) by {
          assert LastDot(name[..2]) == Some(0) by { assert name[..2][..1] == "."; }
          assert name[..2] == ".m";
        }
      }
    }
  }

  /** The media file names: none when the directory does not exist, else the listed names
      with an allowed extension, in listing order. */
  function MediaFileNames(fs: Fs, mediaDir: Path): (r: Result<seq<string>, FsError>)
    ensures !Exists(fs, mediaDir) ==> r == Ok([])
    ensures IsDirectoryAt(fs, mediaDir) ==> r == Ok(Filter(fs.nodes[mediaDir].listing, IsMediaFile))
    ensures IsFileAt(fs, mediaDir) ==> r == Err(NotADirectory(mediaDir))
  {
    if Exists(fs, mediaDir) then
      var names :- ReadDir(fs, mediaDir);
      Ok(Filter(names, IsMediaFile))
    else Ok([])
  }

  /** The reflection document of a media file: `<baseName>.md`, where the lower-cased
      extension is removed case-sensitively. */
  function ReflectionPath(mediaDir: Path, filename: string): Path {
    mediaDir + [BaseName(filename, ToLower(ExtName(filename))) + ".md"]
  }

  /** An extension that lower-casing changes is not removed: the reflection of such a
      file is `<filename>.md`. */
  lemma ReflectionKeepsMixedCaseExtension(mediaDir: Path, filename: string)
    requires ToLower(ExtName(filename)) != ExtName(filename)
    ensures ReflectionPath(mediaDir, filename) == mediaDir + [filename + ".md"]
  {
    var ext := ExtName(filename);
    var lower := ToLower(ext);
    assert ext != [];
    assert filename[|filename| - |ext|..] == ext;
    assert !EndsWith(filename, lower);
  }

  /** An extension already in lower case is removed: the reflection of such a file is
      its stem followed by `.md`. */
  lemma ReflectionDropsLowerCaseExtension(mediaDir: Path, filename: string)
    requires ExtName(filename) != [] && ToLower(ExtName(filename)) == ExtName(filename)
    ensures ReflectionPath(mediaDir, filename)
      == mediaDir + [filename[..|filename| - |ExtName(filename)|] + ".md"]
  {
  }

  /** With an upper-case extension nothing is removed: `A.JPG` looks up `A.JPG.md`. */
  lemma ReflectionOfUpperCaseExtension(mediaDir: Path)
    ensures ReflectionPath(mediaDir, "A.JPG") == mediaDir + ["A.JPG.md"]
  {
    ExtNameOfJoin("A", ".JPG");
    assert "A" + ".JPG" == "A.JPG";
    assert ToLower(".JPG")[1] == 'j';
    ReflectionKeepsMixedCaseExtension(mediaDir, "A.JPG");
    assert "A.JPG" + ".md" == "A.JPG.md";
  }

  /** With a lower-case extension it is removed: `a.jpg` looks up `a.md`. */
  lemma ReflectionOfLowerCaseExtension(mediaDir: Path)
    ensures ReflectionPath(mediaDir, "a.jpg") == mediaDir + ["a.md"]
  {
    ExtNameOfJoin("a", ".jpg");
    assert "a" + ".jpg" == "a.jpg";
    assert ToLower(".jpg") == ".jpg";
    ReflectionDropsLowerCaseExtension(mediaDir, "a.jpg");
    assert "a.jpg"[..1] == "a";
    assert "a" + ".md" == "a.md";
  }

  function TypeOf(filename: string): (t: MediaType)
    ensures t == Video <==> ToLower(ExtName(filename)) in VideoExtensions
  {
    if ToLower(ExtName(filename)) in VideoExtensions then Video else Image
  }

  /** A media item can be built unless its reflection path names a directory, which
      `existsSync` accepts and `readFileSync` then rejects. */
  predicate ItemReadable(fs: Fs, mediaDir: Path, filename: string) {
    !IsDirectoryAt(fs, ReflectionPath(mediaDir, filename))
  }

  /** One element of the `mediaFiles.map(...)` of `getCollection`. */
  function MediaItemFor(fs: Fs, matter: string -> Matter, mediaDir: Path, filename: string): (r: Result<MediaItem, FsError>)
    ensures var p := ReflectionPath(mediaDir, filename);
      && (r.Ok? <==> ItemReadable(fs, mediaDir, filename))
      && (r.Ok? ==> r.value.filename == filename && r.value.mediaType == TypeOf(filename))
      && (r.Ok? ==> (r.value.reflection.Some? <==> Exists(fs, p)))
      && (r.Ok? && Exists(fs, p) ==> r.value.reflection.value == Trim(matter(fs.nodes[p].contents).content))
  {
    var p := ReflectionPath(mediaDir, filename);
    var reflection :-
      if Exists(fs, p) then
        var text :- ReadFile(fs, p);
        Ok(Some(Trim(matter(text).content)))
      else Ok(None);
    Ok(MediaItem(filename, TypeOf(filename), reflection))
  }

  function MediaItems(fs: Fs, matter: string -> Matter, mediaDir: Path, files: seq<string>): (r: Result<seq<MediaItem>, FsError>)
    ensures r.Ok? <==> forall i :: 0 <= i < |files| ==> ItemReadable(fs, mediaDir, files[i])
    ensures r.Ok? ==> (|r.value| == |files|
      && forall i :: 0 <= i < |files| ==> r.value[i] == MediaItemFor(fs, matter, mediaDir, files[i]).value)
  {
    if files == [] then Ok([])
    else
      var item :- MediaItemFor(fs, matter, mediaDir, files[0]);
      var rest :- MediaItems(fs, matter, mediaDir, files[1..]);
      Ok([item] + rest)
  }

  function Filenames(media: seq<MediaItem>): (r: seq<string>)
    ensures |r| == |media| && forall i :: 0 <= i < |media| ==> r[i] == media[i].filename
  {
    seq(|media|, i requires 0 <= i < |media| => media[i].filename)
  }

  /** `getCollection(slug)`. */
  function GetCollection(fs: Fs, matter: string -> Matter, slug: string): (r: Result<Collection, FsError>)
    ensures r.Ok? <==> (GetCollectionMeta(fs, matter, slug).Ok? && MediaFileNames(fs, MediaDir(slug)).Ok?
      && forall i :: 0 <= i < |MediaFileNames(fs, MediaDir(slug)).value| ==>
           ItemReadable(fs, MediaDir(slug), MediaFileNames(fs, MediaDir(slug)).value[i]))
    ensures r.Ok? ==> r.value.meta == GetCollectionMeta(fs, matter, slug).value
    ensures r.Ok? ==> (SortedStrings(Filenames(r.value.media))
      && multiset(Filenames(r.value.media)) == multiset(MediaFileNames(fs, MediaDir(slug)).value))
    ensures r.Ok? ==> MediaItems(fs, matter, MediaDir(slug), Filenames(r.value.media)) == Ok(r.value.media)
  {
    var meta :- GetCollectionMeta(fs, matter, slug);
    var mediaFiles :- MediaFileNames(fs, MediaDir(slug));
    var sorted := SortStrings(mediaFiles);
    SortedSameElements(mediaFiles);
    AllItemsReadable(fs, MediaDir(slug), mediaFiles, sorted);
    var media :- MediaItems(fs, matter, MediaDir(slug), sorted);
    SortedItems(fs, matter, MediaDir(slug), sorted, media);
    Ok(Collection(meta, media))
  }

  /** Each item of a loaded collection is a media file of the collection, typed by its
      extension, whose reflection is present exactly when its `.md` document exists and is
      then that document's trimmed body. */
  lemma CollectionMediaItem(fs: Fs, matter: string -> Matter, slug: string, i: int)
    requires GetCollection(fs, matter, slug).Ok?
    requires 0 <= i < |GetCollection(fs, matter, slug).value.media|
    ensures var m := GetCollection(fs, matter, slug).value.media[i];
      var p := ReflectionPath(MediaDir(slug), m.filename);
      && m.filename in MediaFileNames(fs, MediaDir(slug)).value
      && IsMediaFile(m.filename)
      && m.mediaType == TypeOf(m.filename)
      && (m.reflection.Some? <==> Exists(fs, p))
      && (m.reflection.Some? ==> m.reflection.value == Trim(matter(fs.nodes[p].contents).content))
  {
    var media := GetCollection(fs, matter, slug).value.media;
    var files := Filenames(media);
    var mediaFiles := MediaFileNames(fs, MediaDir(slug)).value;
    assert MediaItems(fs, matter, MediaDir(slug), files) == Ok(media);
    assert media[i] == MediaItemFor(fs, matter, MediaDir(slug), files[i]).value;
    assert files[i] in multiset(files);
    assert files[i] in mediaFiles;
    var j :| 0 <= j < |mediaFiles| && mediaFiles[j] == files[i];
    assert IsDirectoryAt(fs, MediaDir(slug));
  }

  /** Whether every item can be read does not depend on the order of the files. */
  lemma AllItemsReadable(fs: Fs, mediaDir: Path, a: seq<string>, b: seq<string>)
    requires forall i :: 0 <= i < |a| ==> a[i] in b
    requires forall i :: 0 <= i < |b| ==> b[i] in a
    ensures (forall i :: 0 <= i < |a| ==> ItemReadable(fs, mediaDir, a[i]))
      <==> (forall i :: 0 <= i < |b| ==> ItemReadable(fs, mediaDir, b[i]))
  {
    if forall i :: 0 <= i < |a| ==> ItemReadable(fs, mediaDir, a[i]) {
      forall i | 0 <= i < |b| ensures ItemReadable(fs, mediaDir, b[i]) {
        var j :| 0 <= j < |a| && a[j] == b[i];
      }
    }
    if forall i :: 0 <= i < |b| ==> ItemReadable(fs, mediaDir, b[i]) {
      forall i | 0 <= i < |a| ensures ItemReadable(fs, mediaDir, a[i]) {
        var j :| 0 <= j < |b| && b[j] == a[i];
      }
    }
  }

  lemma SortedItems(fs: Fs, matter: string -> Matter, mediaDir: Path, files: seq<string>, media: seq<MediaItem>)
    requires MediaItems(fs, matter, mediaDir, files) == Ok(media)
    ensures Filenames(media) == files
  {
    assert Filenames(media) == files;
  }

  lemma SortedSameElements(s: seq<string>)
    ensures forall i :: 0 <= i < |s| ==> s[i] in SortStrings(s)
    ensures forall i :: 0 <= i < |SortStrings(s)| ==> SortStrings(s)[i] in s
  {
    var r := SortStrings(s);
    forall i | 0 <= i < |s| ensures s[i] in r {
      assert s[i] in multiset(s);
    }
    forall i | 0 <= i < |r| ensures r[i] in s {
      assert r[i] in multiset(r);
    }
  }

  // ---------------------------------------------------------------------------
  // Projections shared by the gallery and the journey page
  // ---------------------------------------------------------------------------

  predicate IsImage(m: MediaItem) {
    m.mediaType == Image
  }

  /** `media.filter(m => m.type === 'image')`. */
  function ImagesOnly(media: seq<MediaItem>): seq<MediaItem> {
    Filter(media, IsImage)
  }

  /** The public URL of a media file. */
  function MediaSrc(slug: string, filename: string): string {
    "/collections/" + slug + "/media/" + filename
  }

  /** The alt text of the image at position `i` of the image-only list. */
  function AltText(title: string, i: nat): string {
    title + " - " + NatToString(i + 1)
  }
}
