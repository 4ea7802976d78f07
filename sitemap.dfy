/** The sitemap: four static pages followed by one page per collection slug, all under
    one base URL. The `lastModified` stamps are the build clock and are not modelled. */
module Sitemap {
  import opened Wrappers
  import opened Seqs
  import opened Strings
  import opened FileSystem
  import opened Collections

  const DefaultBaseUrl: string := "https://harmeetrai.com"

  /** `process.env.NEXT_PUBLIC_SITE_URL || default`: an unset or empty variable gives the
      default. */
  function BaseUrl(env: Option<string>): (url: string)
    ensures env.Some? && env.value != "" ==> url == env.value
    ensures env.None? || env.value == "" ==> url == DefaultBaseUrl
  {
    if env.Some? && env.value != "" then env.value else DefaultBaseUrl
  }

  datatype ChangeFrequency = Weekly | Monthly

  datatype SitemapEntry = SitemapEntry(url: string, changeFrequency: ChangeFrequency, priority: real)

  function StaticPages(base: string): seq<SitemapEntry> {
    [ SitemapEntry(base, Weekly, 1.0),
      SitemapEntry(base + "/collections", Weekly, 0.9),
      SitemapEntry(base + "/about", Monthly, 0.7),
      SitemapEntry(base + "/journey", Monthly, 0.7) ]
  }

  function CollectionPage(base: string, slug: string): SitemapEntry {
    SitemapEntry(base + "/collections/" + slug, Weekly, 0.8)
  }

  function CollectionPages(base: string, slugs: seq<string>): seq<SitemapEntry> {
    seq(|slugs|, k requires 0 <= k < |slugs| => CollectionPage(base, slugs[k]))
  }

  /** The list for given slugs: the static pages, then the collection pages. */
  function Entries(env: Option<string>, slugs: seq<string>): seq<SitemapEntry> {
    StaticPages(BaseUrl(env)) + CollectionPages(BaseUrl(env), slugs)
  }

  /** `sitemap()`: listing the slugs throws when the collections directory cannot be
      read. */
  function BuildSitemap(fs: Fs, env: Option<string>): (r: Result<seq<SitemapEntry>, FsError>)
    ensures r.Ok? <==> GetCollectionSlugs(fs).Ok?
    ensures r.Ok? ==> r.value == Entries(env, GetCollectionSlugs(fs).value)
  {
    var slugs :- GetCollectionSlugs(fs);
    Ok(Entries(env, slugs))
  }

  /** The shape of the list: four static pages in their order, then entry `4 + k` for
      `slugs[k]`, weekly at priority 0.8. */
  lemma EntriesShape(env: Option<string>, slugs: seq<string>)
    ensures var base := BaseUrl(env); var e := Entries(env, slugs);
      && |e| == 4 + |slugs|
      && e[0] == SitemapEntry(base, Weekly, 1.0)
      && e[1] == SitemapEntry(base + "/collections", Weekly, 0.9)
      && e[2] == SitemapEntry(base + "/about", Monthly, 0.7)
      && e[3] == SitemapEntry(base + "/journey", Monthly, 0.7)
      && forall k :: 0 <= k < |slugs| ==>
           (e[4 + k].url == base + "/collections/" + slugs[k] && e[4 + k].changeFrequency == Weekly && e[4 + k].priority == 0.8)
  {
  }

  /** The URL of entry `i`. */
  function UrlAt(env: Option<string>, slugs: seq<string>, i: nat): string
    requires i < 4 + |slugs|
  {
    Entries(env, slugs)[i].url
  }

  /** The text after the base URL of entry `i`. */
  function PathAt(slugs: seq<string>, i: nat): string
    requires i < 4 + |slugs|
  {
    if i == 0 then "" else if i == 1 then "/collections" else if i == 2 then "/about"
    else if i == 3 then "/journey" else "/collections/" + slugs[i - 4]
  }

  lemma UrlIsBasePlusPath(env: Option<string>, slugs: seq<string>, i: nat)
    requires i < 4 + |slugs|
    ensures UrlAt(env, slugs, i) == BaseUrl(env) + PathAt(slugs, i)
  {
    if i == 0 {
      assert BaseUrl(env) + "" == BaseUrl(env);
    } else if i >= 4 {
      assert BaseUrl(env) + "/collections/" + slugs[i - 4] == BaseUrl(env) + ("/collections/" + slugs[i - 4]);
    }
  }

  /** Different entries have different paths when the slugs have no repeats. */
  lemma PathsDistinct(slugs: seq<string>, i: nat, j: nat)
    requires NoDuplicates(slugs)
    requires i < j < 4 + |slugs|
    ensures PathAt(slugs, i) != PathAt(slugs, j)
  {
    var p, q := PathAt(slugs, i), PathAt(slugs, j);
    if j >= 4 {
      assert |q| > |"/collections"| && q[1] == 'c';
      if i >= 4 {
        assert p == "/collections/" + slugs[i - 4];
        assert slugs[i - 4] == p[13..] && slugs[j - 4] == q[13..];
      } else if i == 1 {
        assert |p| < |q|;
      } else if i == 2 {
        assert p[1] == 'a';
      }
    }
  }

  /** With slugs that have no repeats, every URL in the sitemap is listed once. */
  lemma UrlsDistinct(env: Option<string>, slugs: seq<string>)
    requires NoDuplicates(slugs)
    ensures forall i, j :: 0 <= i < j < 4 + |slugs| ==> UrlAt(env, slugs, i) != UrlAt(env, slugs, j)
  {
    forall i, j | 0 <= i < j < 4 + |slugs| ensures UrlAt(env, slugs, i) != UrlAt(env, slugs, j) {
      UrlIsBasePlusPath(env, slugs, i);
      UrlIsBasePlusPath(env, slugs, j);
      PathsDistinct(slugs, i, j);
      var base := BaseUrl(env);
      assert (base + PathAt(slugs, i))[|base|..] == PathAt(slugs, i);
      assert (base + PathAt(slugs, j))[|base|..] == PathAt(slugs, j);
    }
  }

  /** A directory listing without repeats gives slugs without repeats, so sitemap URLs
      are all different. */
  lemma SitemapUrlsDistinct(fs: Fs, env: Option<string>)
    requires BuildSitemap(fs, env).Ok?
    requires NoDuplicates(fs.nodes[CollectionsDir].listing)
    ensures var e := BuildSitemap(fs, env).value;
      forall i, j :: 0 <= i < j < |e| ==> e[i].url != e[j].url
  {
    var slugs := GetCollectionSlugs(fs).value;
    SlugsHaveNoRepeats(fs);
    UrlsDistinct(env, slugs);
    var e := Entries(env, slugs);
    assert BuildSitemap(fs, env).value == e;
    assert |e| == 4 + |slugs|;
    assert forall i :: 0 <= i < |e| ==> e[i].url == UrlAt(env, slugs, i);
  }
}
