# A verified model of the portfolio site's content and gallery logic

This project models the sequential logic behind a photography portfolio built with
Next.js. The rest of the site is presentation code and is not modelled.

- **Content model.** Collections live as directories under `content/collections`. Each
  has a `meta.md` front-matter file and an optional `media` directory, where a photo may
  have a `<name>.md` "reflection" beside it. `getCollectionSlugs`, `getCollectionMeta`,
  `getAllCollections` and `getCollection` turn a directory listing into typed metadata
  and media records.
- **Journey feed.** `getAllImages` flattens every collection's photos into one feed and
  stable-sorts it by the collection's date.
- **Journey views.** The timeline groups the feed by year. The constellation offers one
  button per collection, an "all" button, a toggling filter, dimming and hover
  enlargement.
- **Horizontal gallery.** A collection's photos are cut into scenes that cycle hero (1
  image), duo (2) and cluster (3), with two downgrade rules for a short tail. Every tile
  of a scene reports its index into the flat list when clicked, and that index opens the
  lightbox.
- **Lightbox.** Keyboard and arrow-button navigation, render conditions, the reflection
  panel and the `n / total` counter.
- **Navigation bar.** Hides while scrolling down past 100 pixels, reappears on scrolling
  up, is absent on the landing page, and highlights the active link.
- **Sitemap.** Four static pages, then one page per collection slug.

The filesystem is a value: a map from paths (sequences of names) to files and
directories. `readdirSync`, `statSync`, `existsSync` and `readFileSync` are functions
over that map, and each throw becomes an error value (`NoEntry`, `NotADirectory`,
`IsADirectory`). gray-matter is a function parameter `matter`. JavaScript date parsing
is represented by two parameters: `dateKey` for `new Date(d).getTime()` and `yearOf`
for `getFullYear().toString()`.

What is imperative in the source is imperative here:
- `Gallery.BuildScenes` is the scene-building `while` loop.
- `Journey.PushRecords` and `Journey.GetAllImages` are the nested `forEach`/`push` loops.
- `Timeline.ImagesByYear` is the `reduce` over a mutable map.
- The gallery's lightbox state, the constellation's filter and hover state and the
  navigation bar are classes whose methods update their fields.

Each method's `ensures` gives its result or its new state. Some give it as a
specification function, and the properties are proved about that function:
`BuildScenes`, `PushRecords`, `GetAllImages`, `KeyDown`, `Scroll` and `ScrollAll`.
Others describe it directly: `ImagesByYear` states the groups it builds, and
`ClickAll`, `MouseEnter`, `MouseLeave`, `HandleImageClick` and `Close` give the new
field values.

Files:
- `wrappers.dfy`, `seqs.dfy`, `strings.dfy`, `sorting.dfy`: shared definitions.
  - `seqs.dfy` has filter, flatten and distinct.
  - `strings.dfy` has the default string sort, ASCII lower-casing, `trim` and decimal
    printing.
  - `sorting.dfy` has a stable sort by an integer key.
- `paths.dfy`: `path.extname` and `path.basename`.
- `filesystem.dfy`: the filesystem value.
- `collections.dfy`: `src/lib/collections.ts`.
- `journey.dfy`: `src/app/journey/page.tsx`.
- `timeline.dfy`, `constellation.dfy`: the two journey views.
- `scene.dfy`, `gallery.dfy`, `lightbox.dfy`: the gallery components.
- `navigation.dfy`, `sitemap.dfy`.

## Model

| member | source | states |
|---|---|---|
| FileSystem.ReadDir | src/lib/collections.ts:27 | Reading a directory succeeds exactly when the path is a directory, and then yields its listing in listing order. |
| FileSystem.StatIsDirectory | src/lib/collections.ts:29 | `stat` succeeds exactly when the path exists, and reports a directory exactly when it is one. |
| FileSystem.ReadFile | src/lib/collections.ts:35 | Reading succeeds exactly when the path is a file, and yields its contents. |
| Collections.KeepDirectories | src/lib/collections.ts:27-30 | The directory filter succeeds exactly when every listed name exists; it then keeps exactly the entries that are directories, in listing order. On failure it reports the first listed name that does not exist. |
| Collections.GetCollectionSlugs | src/lib/collections.ts:26-31 | The slugs are read exactly when the content directory is a directory whose entries all exist; they are then the directory entries of the listing, in listing order. |
| Collections.SlugsAreListedDirectories | src/lib/collections.ts:27-30 | Every listed entry that is a directory is a slug. |
| Collections.SlugsHaveNoRepeats | src/lib/collections.ts:27-30 | A listing without repeated names gives slugs without repeats. |
| Collections.GetCollectionMeta | src/lib/collections.ts:33-46 | The metadata is read exactly when `meta.md` is a file. The slug is the argument, and title, date, cover and description are the front matter's values unchanged. `order` is the front matter's value, or 0 when it is absent. |
| Collections.MetasOf | src/lib/collections.ts:50 | The per-slug metas are read exactly when each one reads; the i-th is the i-th slug's meta. |
| Collections.GetAllCollections | src/lib/collections.ts:48-52 | The result is a permutation of the per-slug metas, sorted by `order`. Metas with equal `order` keep the slugs' listing order, so the sort is stable. |
| Collections.AllCollectionsOrderIsDetermined | src/lib/collections.ts:51 | Any sequence sorted by `order` that keeps each order's metas in listing order is the result of `getAllCollections`: the stable sort's output is unique. |
| Collections.MetasHaveDistinctSlugs | src/lib/collections.ts:50 | Metas read from distinct slugs have distinct slugs. |
| Collections.DistinctSlugsPermutation | src/lib/collections.ts:51 | Sorting the metas keeps their slugs distinct. |
| Collections.AllCollectionsHaveDistinctSlugs | src/lib/collections.ts:48-52 | From a listing without repeated names, the sorted collections have distinct slugs. |
| Collections.ReflectionFilesAreNotMedia | src/lib/collections.ts:60-63 | A `.md` reflection file is never a media file. |
| Collections.MediaFileNames | src/lib/collections.ts:58-64 | A missing media directory gives no files and no error. Otherwise the files are exactly the listed names whose lower-cased extension is one of the six media extensions, in listing order. A file in the directory's place is an error. |
| Collections.ReflectionOfUpperCaseExtension | src/lib/collections.ts:71-74 | Because the lower-cased extension is removed case-sensitively, `A.JPG` looks up `A.JPG.md`. |
| Collections.ReflectionOfLowerCaseExtension | src/lib/collections.ts:71-74 | `a.jpg` looks up `a.md`. |
| Collections.TypeOf | src/lib/collections.ts:69-70 | A file is a video exactly when its lower-cased extension is `.mp4` or `.webm`; otherwise it is an image. |
| Collections.MediaItemFor | src/lib/collections.ts:68-87 | One media item is read exactly when its `<baseName>.md` path is not a directory, which would make the read throw. The filename is kept verbatim and the type follows the extension. A reflection is present exactly when `<baseName>.md` exists, and it is then the trimmed body with the front matter stripped. |
| Collections.MediaItems | src/lib/collections.ts:68-87 | The items are read exactly when each file's item reads; the i-th item is the i-th file's. |
| Collections.GetCollection | src/lib/collections.ts:54-90 | A collection reads exactly when its meta, its media listing and every item read. Its meta is the collection's meta. Its filenames are the media files sorted ascending, as a permutation. Every item is the one for its filename. |
| Collections.CollectionMediaItem | src/lib/collections.ts:58-86 | Each item of a collection is a listed media file, with the type for its extension and the reflection of its `<baseName>.md` when that exists. |
| Collections.SortedItems | src/lib/collections.ts:66-87 | The items' filenames are the sorted filenames they were read from, in that order. |
| Collections.SortedSameElements | src/lib/collections.ts:67 | Sorting filenames neither adds nor drops a name. |
| Collections.IsMediaFile | src/lib/collections.ts:60-63 | Definition, no contract: a file is media exactly when its lower-cased extension is one of `.jpg`, `.jpeg`, `.png`, `.webp`, `.mp4` or `.webm`. `ReflectionFilesAreNotMedia` proves what it excludes. |
| Collections.ReflectionPath | src/lib/collections.ts:71-74 | Definition, no contract: the reflection of `<name>` is `<mediaDir>/<baseName>.md`. The base name drops the lower-cased extension only when the name ends with it exactly. `ReflectionKeepsMixedCaseExtension` and `ReflectionDropsLowerCaseExtension` prove the two cases. |
| Collections.ReflectionKeepsMixedCaseExtension | src/lib/collections.ts:71-74 | When lower-casing changes a file's extension, the base name keeps the whole filename, so the reflection looked up is `<filename>.md`. |
| Collections.ReflectionDropsLowerCaseExtension | src/lib/collections.ts:71-74 | When a file's extension is already lower case, the reflection looked up is the filename without that extension, followed by `.md`. |
| PathNames.LastDot | src/lib/collections.ts:61 | The position found is the last `.` of the name, or there is none. |
| PathNames.ExtName | src/lib/collections.ts:61 | The extension is empty or a suffix of the name that starts with its only `.`, and it is shorter than the name. |
| PathNames.ExtNameOfJoin | src/lib/collections.ts:61 | A non-empty stem followed by a dotted suffix has that suffix as its extension. |
| PathNames.BaseName | src/lib/collections.ts:71 | The suffix is removed exactly when the name ends with it, and the name is unchanged otherwise. |
| Strings.SortStrings | src/lib/collections.ts:67 | The default array sort yields a sorted permutation of its input. |
| Strings.SortedUnique | src/lib/collections.ts:67 | Two sorted permutations of the same strings are equal, so the sorted order is determined. |
| Strings.LexLeqTotal | src/lib/collections.ts:67 | Any two strings are comparable in the default sort order. |
| Strings.LexLeqAntisymmetric | src/lib/collections.ts:67 | Strings ordered both ways are equal. |
| Strings.LexLeqTransitive | src/lib/collections.ts:67 | The default sort order is transitive. |
| Strings.InsertString | src/lib/collections.ts:67 | Inserting into a sorted sequence keeps it sorted and adds exactly that string. |
| Strings.ToLower | src/lib/collections.ts:61 | Lower-casing keeps the length and maps each capital ASCII letter to its small letter. |
| Strings.Trim | src/lib/collections.ts:79 | The trimmed text is the input with exactly its leading and trailing whitespace removed. |
| Strings.TrimIdempotent | src/lib/collections.ts:79 | Trimming twice is trimming once. |
| Strings.NatToString | src/components/gallery/Lightbox.tsx:130 | A number prints as a non-empty string of digits without a leading zero. |
| Strings.DecimalRoundTrip | src/components/gallery/Lightbox.tsx:130 | Reading the printed digits back gives the number. |
| Strings.NatToStringInjective | src/components/gallery/Lightbox.tsx:130 | Different numbers print differently. |
| Sorting.SortByKey | src/app/journey/page.tsx:57 | The sort by an integer key yields a sorted permutation in which the elements of each key keep their input order, so the sort is stable. |
| Sorting.InsertByKey | src/app/journey/page.tsx:57 | Inserting into a key-sorted sequence keeps it sorted and adds exactly that element. |
| Sorting.InsertByKeyStable | src/app/journey/page.tsx:57 | The inserted element comes after every element of its key. |
| Sorting.StableSortUnique | src/lib/collections.ts:51 | Two key-sorted sequences that keep each key's elements in the same order are equal. |
| Journey.RecordsOf | src/app/journey/page.tsx:44-53 | One record per image. |
| Journey.CollectionRecordsShape | src/app/journey/page.tsx:42-52 | The i-th record of a collection comes from its i-th image, an image-type item. Its src is `/collections/<slug>/media/<filename>` and its alt is `<title> - <i+1>`. It carries the collection's title, slug and date, and `index` i. |
| Journey.PushRecords | src/app/journey/page.tsx:40-54 | The nested loops over collections and their images build exactly the concatenated per-collection records, or stop at the first collection that does not read. |
| Journey.GetAllImages | src/app/journey/page.tsx:29-58 | The feed is the concatenated records sorted by date key. |
| Journey.FeedRecordsErrPrefix | src/app/journey/page.tsx:40-41 | Once one collection fails to read, the whole feed fails with that error. |
| Journey.FeedIsStablySortedByDate | src/app/journey/page.tsx:57 | The feed is sorted by date key, has as many records as were pushed, and is a permutation of them. Records with equal date keep their push order. |
| Journey.FeedLength | src/app/journey/page.tsx:40-54 | The feed has as many records as the collections have images. |
| Journey.FeedRecordsSnoc | src/app/journey/page.tsx:40-54 | Adding a collection appends exactly its records. |
| Journey.OfOwnRecords | src/app/journey/page.tsx:49 | The records of one collection are all of that collection's slug. |
| Journey.FeedRecordsOfCollection | src/app/journey/page.tsx:40-54 | For collections with distinct slugs, the records of one slug are exactly that collection's records, in media order. |
| Journey.NoRecordsOfLaterSlug | src/app/journey/page.tsx:49 | A slug no collection has contributes no records. |
| Journey.SameSlugSameDate | src/app/journey/page.tsx:49-50 | Records of the same slug carry the same date. |
| Journey.SortKeepsCollection | src/app/journey/page.tsx:57 | When all of a slug's records share one key, the stable sort keeps their order. |
| Journey.SortedFeedOfCollection | src/app/journey/page.tsx:57 | After the sort, one collection's records are still its records in media order. |
| Journey.OneCollectionKeepsItsOrder | src/app/journey/page.tsx:29-58 | In the journey feed, each collection's images appear in that collection's media order, numbered from 0. |
| Journey.JourneyFeed | src/app/journey/page.tsx:29-58 | Definition, no contract: read every collection, take each one's image records in collection order, then stable-sort by date key. The first read error is the result. `GetAllImages` is proved equal to it, and `FeedIsStablySortedByDate` and `FeedLength` state its properties. |
| Timeline.ImagesByYear | src/components/journey/TimelineView.tsx:24-29 | The reduce makes one group per year present. Each group holds exactly that year's images in feed order and is non-empty. The years are recorded without repeats. |
| Timeline.KnownYear | src/components/journey/TimelineView.tsx:26 | A year already grouped needs no new group. |
| Timeline.NewYear | src/components/journey/TimelineView.tsx:26 | A new year starts an empty group. |
| Timeline.GroupedStep | src/components/journey/TimelineView.tsx:27 | Pushing an image onto its year's group keeps every group equal to its year's images so far. |
| Timeline.YearsAscending | src/components/journey/TimelineView.tsx:31 | `years` lists each grouped year exactly once, in strictly ascending string order. |
| Timeline.GroupSizesSum | src/components/journey/TimelineView.tsx:24-29 | When every image's year is listed once, the group sizes sum to the number of images. |
| Timeline.GroupSizesSnoc | src/components/journey/TimelineView.tsx:27 | One more image adds one to its year's group and nothing to the others. |
| Timeline.ShownSize | src/components/journey/TimelineView.tsx:40-55 | The timeline draws as many images as its groups hold. |
| Timeline.ShownContains | src/components/journey/TimelineView.tsx:40-55 | An image of a drawn group is drawn. |
| Timeline.GroupsMultisetSnocAbsent | src/components/journey/TimelineView.tsx:27 | An image whose year is not among the given years adds nothing to their groups. |
| Timeline.GroupsMultisetSnocPresent | src/components/journey/TimelineView.tsx:27 | Over distinct years, an image whose year is among them is added to their groups exactly once. |
| Timeline.GroupsMultisetSum | src/components/journey/TimelineView.tsx:24-29 | Over distinct years that include every image's year, the groups together hold every image exactly as often as the feed does. |
| Timeline.ShownMultiset | src/components/journey/TimelineView.tsx:40-55 | The images drawn under the given years are, as a multiset, the union of those years' groups. |
| Timeline.TimelineShowsEveryImageOnce | src/components/journey/TimelineView.tsx:24-55 | Every sorted year has a group. The timeline draws exactly as many images as the feed has, each image exactly as often as the feed holds it (as multisets), and each under its own year. |
| Timeline.ImageOffset | src/components/journey/TimelineView.tsx:63 | An image's bottom margin is 0, 20 or 40 pixels, and it is 0 exactly on every third image of a group. |
| Timeline.ImageOffsetCycles | src/components/journey/TimelineView.tsx:63 | The margins repeat every three images. |
| Timeline.ConnectorCount | src/components/journey/TimelineView.tsx:92 | Every year but the last is followed by a connector, so k years have k-1 connectors. |
| Timeline.Years | src/components/journey/TimelineView.tsx:31 | Definition, no contract: the group keys in the default string order. `YearsAscending` proves they are exactly the keys, each once, strictly ascending. |
| Constellation.Titles | src/components/journey/ConstellationView.tsx:26 | The i-th title is the i-th image's collection. |
| Constellation.CollectionButtonsAreTheTitles | src/components/journey/ConstellationView.tsx:25-28 | The buttons have no repeats. Every image's collection has a button, every button is some image's collection, and the buttons follow first-occurrence order. |
| Constellation.Toggle | src/components/journey/ConstellationView.tsx:61 | A collection button clears the filter exactly when it was that collection's, and selects that collection otherwise. |
| Constellation.ToggleTwice | src/components/journey/ConstellationView.tsx:61 | Clicking a button twice returns to no filter, and a different collection's button switches straight to it. |
| Constellation.FilteredAreUndimmed | src/components/journey/ConstellationView.tsx:41-77 | The filtered images are exactly the undimmed ones, in feed order. With no filter, or the empty title, they are all the images. |
| Constellation.ConstellationState.constructor | src/components/journey/ConstellationView.tsx:22-23 | The view starts with no filter and no hovered image. |
| Constellation.ConstellationState.ClickAll | src/components/journey/ConstellationView.tsx:49 | The "all" button clears the filter and leaves the hover unchanged. |
| Constellation.ConstellationState.ClickCollection | src/components/journey/ConstellationView.tsx:61 | A collection button toggles the filter and leaves the hover unchanged; the filter stays nothing or a button's title. |
| Constellation.ConstellationState.MouseEnter | src/components/journey/ConstellationView.tsx:78-97 | Entering an image hovers it, and it is enlarged. |
| Constellation.ConstellationState.MouseLeave | src/components/journey/ConstellationView.tsx:78-98 | Leaving clears the hover, and no image is enlarged. |
| Constellation.ExactlyOneHighlighted | src/components/journey/ConstellationView.tsx:51-63 | With the filter nothing or a button's title, "all" is highlighted exactly when no collection button is, and at most one collection button is highlighted. |
| Constellation.CollectionButtons | src/components/journey/ConstellationView.tsx:25-28 | Definition, no contract: the images' collection titles with repeats removed, first occurrence first. `CollectionButtonsAreTheTitles` proves its properties. |
| Constellation.FilteredImages | src/components/journey/ConstellationView.tsx:41-43 | Definition, no contract: under a non-empty filter, the images of that collection in feed order; otherwise all images. `FilteredAreUndimmed` relates it to dimming. |
| Constellation.Dimmed | src/components/journey/ConstellationView.tsx:77 | Definition, no contract: an image is dimmed exactly when a non-empty filter is set and the image belongs to another collection. |
| Constellation.Enlarged | src/components/journey/ConstellationView.tsx:78 | Definition, no contract: an image is enlarged exactly when some image is hovered and it has the same `src`. |
| SceneView.Tiles | src/components/gallery/Scene.tsx:25-115 | A scene draws at most its layout's number of images. The image at position j of the scene reports `startIndex + j` when clicked. |
| SceneView.TilesCoverScene | src/components/gallery/Scene.tsx:34-102 | A scene holding exactly its layout's number of images draws all of them, each reporting `startIndex` plus its position. |
| Gallery.GalleryImages | src/components/gallery/HorizontalGallery.tsx:30-39 | There is one gallery image per image-type media item. |
| Gallery.GalleryImagesSnoc | src/components/gallery/HorizontalGallery.tsx:30-39 | The gallery images follow media order. A trailing image item adds one image at the end, with the next number in its alt text and its reflection unchanged. A trailing video adds none. |
| Gallery.GalleryImageSource | src/components/gallery/HorizontalGallery.tsx:33-37 | The k-th gallery image comes from the k-th image-type item, with src `/collections/<slug>/media/<filename>`, alt `<title> - <k+1>` and its reflection unchanged. |
| Gallery.BuildScenes | src/components/gallery/HorizontalGallery.tsx:42-71 | The loop builds the partition's scenes, whose images concatenate to exactly the gallery images. There are no scenes exactly when there are no images. Every scene holds its final layout's number of images. The `else break` branch is unreachable, and the loop terminates. |
| Gallery.ScenesPartition | src/components/gallery/HorizontalGallery.tsx:48-66 | The scenes from any position on concatenate to the images from that position on. |
| Gallery.ScenesStep | src/components/gallery/HorizontalGallery.tsx:59-65 | One loop pass appends exactly the next scene of the partition. |
| Gallery.SceneShape | src/components/gallery/HorizontalGallery.tsx:45-64 | Scene j starts at the slots' nominal span so far. It holds between 1 and its nominal layout's count of images, and only the last scene may hold fewer. Its final layout holds exactly its image count. The layout differs from the nominal one only as 1 image giving hero, or 2 images under cluster giving duo. Its images are the flat list's slice from its start index. |
| Gallery.StartIndexRecurrence | src/components/gallery/HorizontalGallery.tsx:51-64 | Scene 0 starts at 0, and each later scene starts at the previous start plus the previous image count. Each scene's images are the flat list's slice from its start. |
| Gallery.SceneExists | src/components/gallery/HorizontalGallery.tsx:48 | Scene j exists exactly when the nominal start of slot j is inside the image list. |
| Gallery.SlotSpanSplit | src/components/gallery/HorizontalGallery.tsx:45-50 | The nominal image span of consecutive slots adds up. |
| Gallery.SlotSpanShift | src/components/gallery/HorizontalGallery.tsx:49 | The layouts cycle every three slots. |
| Gallery.NominalStartClosedForm | src/components/gallery/HorizontalGallery.tsx:45-50 | Scene k nominally starts at 6·(k div 3) plus 0, 1 or 3 for k mod 3 = 0, 1 or 2. |
| Gallery.NominalStartCycle | src/components/gallery/HorizontalGallery.tsx:45-50 | Every three scenes the start advances by six images. |
| Gallery.SceneCountThreshold | src/components/gallery/HorizontalGallery.tsx:48 | Scene k exists for n images exactly when k is below the scene count for n. |
| Gallery.NumberOfScenes | src/components/gallery/HorizontalGallery.tsx:42-71 | The number of scenes is the scene count for the number of images, and scene k starts at its nominal start. |
| Gallery.SevenImages | src/components/gallery/HorizontalGallery.tsx:45-66 | Seven images give hero, duo, cluster and hero scenes of 1, 2, 3 and 1 images starting at 0, 1, 3 and 6. |
| Gallery.ScenesFit | src/components/gallery/HorizontalGallery.tsx:55-57 | Every scene the partition makes holds exactly its layout's number of images, so hero and cluster always have a first image. |
| Gallery.TilesOfScenes | src/components/gallery/HorizontalGallery.tsx:85-96 | The tiles of the scenes from a position on are the images from that position on, each reporting its own index. |
| Gallery.ClickReportsOwnIndex | src/components/gallery/Scene.tsx:34-102 | Across all scenes there is exactly one tile per gallery image. Tile i shows image i and reports index i, so every index is clickable exactly once. |
| Gallery.GalleryViewer.constructor | src/components/gallery/HorizontalGallery.tsx:26-27 | The lightbox starts closed on image 0. |
| Gallery.GalleryViewer.HandleImageClick | src/components/gallery/HorizontalGallery.tsx:73-76 | A click selects the reported image and opens the lightbox. |
| Gallery.GalleryViewer.Close | src/components/gallery/HorizontalGallery.tsx:114 | Closing keeps the selected image. |
| Gallery.GalleryViewer.KeyDown | src/components/gallery/Lightbox.tsx:19-23 | A key press moves the viewer by the lightbox's key transition. |
| Gallery.GalleryViewer.PreviousClick | src/components/gallery/Lightbox.tsx:55-57 | The previous button, when drawn, moves back by one, the same move as ArrowLeft. |
| Gallery.GalleryViewer.NextClick | src/components/gallery/Lightbox.tsx:104-106 | The next button, when drawn, moves forward by one, the same move as ArrowRight. |
| Gallery.ClickTile | src/components/gallery/HorizontalGallery.tsx:73-118 | Clicking tile i opens the lightbox on exactly the image that tile shows. |
| Gallery.NominalLayout | src/components/gallery/HorizontalGallery.tsx:49 | Definition, no contract: slot k's layout is hero, duo or cluster for k mod 3 = 0, 1 or 2. `SlotSpanShift` proves the three-slot cycle, and `NominalStartClosedForm` the resulting start positions. |
| Gallery.FinalLayout | src/components/gallery/HorizontalGallery.tsx:55-57 | When 1 to the slot's count of images are available, the final layout holds exactly that many. The layout changes only for 1 image (to hero) or for 2 images under cluster (to duo). |
| Gallery.ScenesAt | src/components/gallery/HorizontalGallery.tsx:42-71 | Definition, no contract: the reference partition of the images from position i on, at layout slot `slot`. `ScenesPartition`, `SceneShape`, `SceneExists` and `NumberOfScenes` prove its properties. |
| Gallery.Scenes | src/components/gallery/HorizontalGallery.tsx:42-71 | Definition, no contract: the partition of all images from position 0 at slot 0. `BuildScenes` is proved to compute it. |
| Lightbox.HandleKeyDown | src/components/gallery/Lightbox.tsx:19-23 | Escape closes and never navigates. ArrowLeft moves back only from a positive index, and ArrowRight moves forward only below the last index. Other keys do nothing. |
| Lightbox.ButtonsMatchKeys | src/components/gallery/Lightbox.tsx:55-106 | The previous and next buttons are drawn exactly when the arrow keys would navigate, and they go to the same index. |
| Lightbox.KeyStep | src/components/gallery/Lightbox.tsx:25-27 | Keys change nothing while the lightbox is closed, and no key opens it. |
| Lightbox.KeyStepKeepsRange | src/components/gallery/Lightbox.tsx:21-22 | From an index in range, a key keeps it in range. |
| Lightbox.RunKeysKeepsRange | src/components/gallery/Lightbox.tsx:21-22 | From an index in range, any sequence of keys keeps it in range; a closed lightbox ignores them all. |
| Lightbox.CurrentImage | src/components/gallery/Lightbox.tsx:16 | The current image exists exactly when the index is in range, and it is the image at that index. |
| Lightbox.ReflectionPanelShown | src/components/gallery/Lightbox.tsx:17-90 | The reflection panel is drawn exactly when the lightbox is open on an existing image whose reflection is a non-empty string. |
| Lightbox.CounterInjective | src/components/gallery/Lightbox.tsx:130 | The counter text `<index+1> / <count>` determines both the index and the count. |
| Lightbox.SplitAtSpace | src/components/gallery/Lightbox.tsx:130 | A digit string followed by ` / ` can be split back at that separator in one way only. |
| Lightbox.ShowsPrevious | src/components/gallery/Lightbox.tsx:55 | Definition, no contract: the previous button is drawn exactly when the index is above 0. `ButtonsMatchKeys` ties it to the arrow keys. |
| Lightbox.ShowsNext | src/components/gallery/Lightbox.tsx:104 | Definition, no contract: the next button is drawn exactly when the index is below the last one. `ButtonsMatchKeys` ties it to the arrow keys. |
| Lightbox.Renders | src/components/gallery/Lightbox.tsx:16-38 | Definition, no contract: the lightbox is drawn exactly when it is open and the index names an image. |
| Lightbox.HasReflection | src/components/gallery/Lightbox.tsx:17 | Definition, no contract: the current image exists and has a non-empty reflection. `ReflectionPanelShown` proves its consequence. |
| Lightbox.Counter | src/components/gallery/Lightbox.tsx:130 | The counter `<index+1> / <count>` has at least five characters. `CounterInjective` proves that different positions give different counters. |
| Navigation.NextVisible | src/components/Navigation.tsx:19-25 | Below 100 pixels the bar is always shown. At or beyond 100 pixels it is shown exactly when the position does not exceed the last one. |
| Navigation.AtMostOneLinkActive | src/components/Navigation.tsx:35-67 | Collections and About are never active together, and neither is on the landing page, which draws no bar. Every path under `/collections` activates Collections. |
| Navigation.NavigationBar.constructor | src/components/Navigation.tsx:9-10 | The bar starts visible, with last position 0. |
| Navigation.NavigationBar.Scroll | src/components/Navigation.tsx:13-32 | On the landing page a scroll changes nothing. Elsewhere the visibility follows the rule above and the last position becomes the event's. |
| Navigation.ScrollRunEndsAtLastEvent | src/components/Navigation.tsx:19-27 | After any run of scroll events, the last position is the last event's, and the visibility is decided by the last two positions. |
| Navigation.ScrollAll | src/components/Navigation.tsx:16-28 | A run of events through the handler ends in the run's state, and keeps the bar hidden only past the always-shown band. |
| Navigation.RendersBar | src/components/Navigation.tsx:35 | Definition, no contract: the bar is drawn on every path except the landing path `/`. |
| Navigation.CollectionsActive | src/components/Navigation.tsx:57 | Definition, no contract: the Collections link is highlighted exactly on paths that start with `/collections`. |
| Navigation.AboutActive | src/components/Navigation.tsx:67 | Definition, no contract: the About link is highlighted on `/about` only. `AtMostOneLinkActive` proves the two are exclusive. |
| Sitemap.BaseUrl | src/app/sitemap.ts:5 | The base URL is the environment variable when it is set and non-empty, and `https://harmeetrai.com` otherwise. |
| Sitemap.BuildSitemap | src/app/sitemap.ts:4-45 | The sitemap is produced exactly when the slugs are read, and is then the entries for those slugs. |
| Sitemap.EntriesShape | src/app/sitemap.ts:8-44 | There are 4 + n entries. The first four are the home, collections, about and journey pages with their frequencies and priorities. Entry 4+k is `/collections/<slug k>`, weekly with priority 0.8. |
| Sitemap.UrlIsBasePlusPath | src/app/sitemap.ts:10-38 | Every URL is the base URL followed by the page's path. |
| Sitemap.PathsDistinct | src/app/sitemap.ts:8-44 | With distinct slugs, no two entries have the same path. |
| Sitemap.UrlsDistinct | src/app/sitemap.ts:8-44 | With distinct slugs, no two entries have the same URL. |
| Sitemap.SitemapUrlsDistinct | src/app/sitemap.ts:36-44 | A listing without repeated names gives a sitemap without repeated URLs. |
| Sitemap.StaticPages | src/app/sitemap.ts:8-33 | Definition, no contract: the home page (weekly, 1.0), `/collections` (weekly, 0.9), `/about` and `/journey` (monthly, 0.7), in that order. |
| Sitemap.CollectionPages | src/app/sitemap.ts:36-42 | Definition, no contract: one entry `/collections/<slug>` per slug, in slug order, weekly with priority 0.8. |
| Sitemap.Entries | src/app/sitemap.ts:44 | Definition, no contract: the static pages followed by the collection pages. `EntriesShape` and `SitemapUrlsDistinct` prove its properties. |

## Left out

- Filesystem and process I/O are inputs to the model. The filesystem is a value, and path
  joining is a sequence of names, so there is no string normalisation. `process.cwd()`
  is a fixed root, and `process.env.NEXT_PUBLIC_SITE_URL` is a parameter.
- gray-matter parsing is the `matter` parameter, and its own failures are not modelled.
- `new Date(...)` is the `dateKey` and `yearOf` parameters. The comparator's behaviour on
  unparseable dates (NaN) and on non-numeric `order` values is not modelled: both are
  integers here.
- `lastModified: new Date()` in the sitemap reads the clock and is not modelled.
- Floating-point positions, sizes and rotations in the constellation, and all animation
  delays and transitions, are not modelled.
- Adding and removing keyboard and scroll listeners, and `document.body.style.overflow`,
  are side effects on the DOM. The listener is represented only by which handler runs.
- Strings are sequences of characters, not UTF-16 code units, so the default sort
  compares characters. `toLowerCase` lower-cases ASCII letters only. `trim` removes the
  full ECMAScript white-space and line-terminator set, so nothing is left out there.
- `window.scrollY` is a whole number of pixels.
- `Collections.GetAllCollections`: the in-place `Array.prototype.sort` calls are modelled
  as a pure stable sort. `getCollection`'s `let` reassignments are modelled as a pure
  function, so there is no update in place or aliasing to model.
- `Sorting.SortByKey`: the `order` comparator subtracts numbers, and keys are integers
  here.
- Layout and key values outside the ones the code distinguishes (`hero`, `duo`, `cluster`;
  Escape and the arrows) are not representable. Scene.tsx's "any other layout is a
  cluster" is therefore reached only by `cluster`, and every other key is `OtherKey`.
- `SceneView.Tiles` requires a non-empty image list for hero and cluster, because the
  source reads `images[0]` there. `Gallery.ScenesFit` proves that every scene of the
  partition meets this.
- No validation that the code does not do: missing front-matter fields are copied
  through.
- The hover caption, the button labels' `toLowerCase()` and the link targets of the
  journey views are presentation and are not modelled.
- `filteredImages` is computed, but the page draws every image and only dims the
  filtered-out ones. The model proves how the two relate and does not use the filtered
  list for drawing.
- `Lightbox.Counter`: its own contract states only a length bound. What it promises is in
  `Lightbox.CounterInjective`: the text determines the index and the count.
- `Journey.OneCollectionKeepsItsOrder`, `Collections.AllCollectionsHaveDistinctSlugs` and
  `Sitemap.SitemapUrlsDistinct` require a directory listing without repeated names. A
  real directory has that property, but the filesystem value does not enforce it.
- `Constellation.ConstellationState.ClickCollection` requires the clicked title to be one
  of the buttons, as it is for every button the view draws.
- Presentational components are not part of this model: the collection grid, cards,
  image and video wrappers, filmstrip, reflection panel component, hero image, film
  grain, scroll hint, progress indicator, decorative SVGs, page metadata and the
  Tailwind configuration.
