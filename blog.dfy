/** The parts of the blog application that compute something from the posts
    directory, the frontmatter and the environment: the post listing, the
    image URL of a post page, the sitemap entries and the robots.txt body.
    Environment variables are parameters (`None` when unset); the posts
    directory is its listing, and the posts' frontmatter is a map from file
    name to metadata. */
module Blog {
  import opened Wrappers
  import opened Frontmatter
  import opened FileNames

  // ---------------------------------------------------------------------
  // get_posts

  /** The slugs of the `.md` files of a listing, in listing order. */
  function PostNames(listing: seq<string>): (posts: seq<string>)
    ensures |posts| <= |listing|
  {
    if listing == [] then []
    else
      var last := listing[|listing| - 1];
      PostNames(listing[..|listing| - 1]) + (if IsMarkdown(last) then [Stem(last)] else [])
  }

  /** `get_posts`: no posts when the directory does not exist, otherwise the
      name of every `.md` file without its suffix. */
  method GetPosts(dirExists: bool, listing: seq<string>) returns (posts: seq<string>)
    ensures posts == if dirExists then PostNames(listing) else []
  {
    posts := [];
    if !dirExists {
      return;
    }
    for i := 0 to |listing|
      invariant posts == PostNames(listing[..i])
    {
      assert listing[..i + 1][..i] == listing[..i];
      if IsMarkdown(listing[i]) {
        posts := posts + [Stem(listing[i])];
      }
    }
    assert listing[..|listing|] == listing;
  }

  /** A slug is listed exactly when the directory holds a file of that name
      with the `.md` suffix. */
  lemma {:induction false} PostNamesMembers(listing: seq<string>, slug: string)
    ensures slug in PostNames(listing) <==> slug + MarkdownSuffix in listing
    decreases |listing|
  {
    if listing != [] {
      var init, last := listing[..|listing| - 1], listing[|listing| - 1];
      PostNamesMembers(init, slug);
      assert listing == init + [last];
      StemOfSuffixed(slug);
      if IsMarkdown(last) && Stem(last) == slug {
        assert last == slug + MarkdownSuffix;
      }
    }
  }

  /** Every listed slug names a post file: the page and sitemap open
      `slug + ".md"` in the same directory. */
  lemma PostNamesSuffixed(listing: seq<string>)
    ensures forall slug :: slug in PostNames(listing) ==> slug + MarkdownSuffix in listing
  {
    forall slug | slug in PostNames(listing)
      ensures slug + MarkdownSuffix in listing
    {
      PostNamesMembers(listing, slug);
    }
  }

  // ---------------------------------------------------------------------
  // The image URL of post_detail and sitemap

  /** `f"{BUCKET_ENDPOINT}/{image}" if metadata.get('image') else None`. */
  function ImageUrl(meta: Metadata, endpoint: Option<string>): (url: Option<string>)
    ensures url.Some? <==> "image" in meta && Truthy(meta["image"])
  {
    var image := Get(meta, "image", Null);
    if Truthy(image) then Some(Shown(endpoint) + "/" + Str(image)) else None
  }

  /** The URL is the endpoint, a slash, and the image path of the
      frontmatter; an unset endpoint shows as "None". */
  lemma ImageUrlParts(meta: Metadata, endpoint: Option<string>)
    requires ImageUrl(meta, endpoint).Some?
    ensures var url, prefix := ImageUrl(meta, endpoint).value, Shown(endpoint) + "/";
            && prefix <= url
            && url[|prefix|..] == Str(meta["image"])
            && (endpoint.None? ==> "None/" <= url)
  {
    var url, prefix := ImageUrl(meta, endpoint).value, Shown(endpoint) + "/";
    assert url == prefix + Str(meta["image"]);
  }

  /** The metadata handed to the post template: the frontmatter, with
      `image` replaced by its full URL or by None. */
  function PostDetailMetadata(meta: Metadata, endpoint: Option<string>): (shown: Metadata)
    ensures shown.Keys == meta.Keys + {"image"}
    ensures forall k :: k in meta && k != "image" ==> shown[k] == meta[k]
  {
    meta["image" := match ImageUrl(meta, endpoint) case Some(url) => Text(url) case None => Null]
  }

  /** `post_detail`: a 404 (`None`) when the post file does not exist,
      otherwise the page's metadata. */
  function PostDetail(slug: string, store: map<string, Metadata>, endpoint: Option<string>): (page: Option<Metadata>)
    ensures page.None? <==> slug + MarkdownSuffix !in store
    ensures page.Some? ==> page.value == PostDetailMetadata(store[slug + MarkdownSuffix], endpoint)
    ensures page.Some? ==> page.value.Keys == store[slug + MarkdownSuffix].Keys + {"image"}
  {
    var path := slug + MarkdownSuffix;
    if path in store then Some(PostDetailMetadata(store[path], endpoint)) else None
  }

  // ---------------------------------------------------------------------
  // sitemap

  /** One `<url>` entry of the sitemap template. */
  datatype SitemapEntry = SitemapEntry(lastmod: Value, slug: Value, image: Option<string>, title: Value)

  /** `metadata.get('updated_at', metadata.get('created_at'))`: the update
      date whenever the key is present, even when its value is empty. */
  function Lastmod(meta: Metadata): (date: Value)
    ensures "updated_at" in meta ==> date == meta["updated_at"]
    ensures "updated_at" !in meta && "created_at" in meta ==> date == meta["created_at"]
    ensures "updated_at" !in meta && "created_at" !in meta ==> date == Null
  {
    Get(meta, "updated_at", Get(meta, "created_at", Null))
  }

  function EntryOf(meta: Metadata, endpoint: Option<string>): SitemapEntry {
    SitemapEntry(Lastmod(meta), Get(meta, "slug", Null), ImageUrl(meta, endpoint), Get(meta, "title", Null))
  }

  /** The entries for the posts whose file exists, in post order. */
  function SitemapEntries(posts: seq<string>, store: map<string, Metadata>, endpoint: Option<string>): (entries: seq<SitemapEntry>)
    ensures |entries| <= |posts|
  {
    if posts == [] then []
    else
      var path := posts[|posts| - 1] + MarkdownSuffix;
      SitemapEntries(posts[..|posts| - 1], store, endpoint)
        + (if path in store then [EntryOf(store[path], endpoint)] else [])
  }

  /** `sitemap`, up to the template: one entry per listed post whose file
      can be opened. */
  method Sitemap(dirExists: bool, listing: seq<string>, store: map<string, Metadata>, endpoint: Option<string>)
    returns (entries: seq<SitemapEntry>)
    ensures entries == SitemapEntries(if dirExists then PostNames(listing) else [], store, endpoint)
  {
    var postsPath := GetPosts(dirExists, listing);
    entries := [];
    for i := 0 to |postsPath|
      invariant entries == SitemapEntries(postsPath[..i], store, endpoint)
    {
      assert postsPath[..i + 1][..i] == postsPath[..i];
      var path := postsPath[i] + MarkdownSuffix;
      if path !in store {
        continue;
      }
      var meta := store[path];
      var imageFullUrl: Option<string> := None;
      if Truthy(Get(meta, "image", Null)) {
        imageFullUrl := Some(Shown(endpoint) + "/" + Str(Get(meta, "image", Null)));
      }
      entries := entries + [SitemapEntry(Get(meta, "updated_at", Get(meta, "created_at", Null)),
                                         Get(meta, "slug", Null), imageFullUrl, Get(meta, "title", Null))];
    }
    assert postsPath[..|postsPath|] == postsPath;
  }

  /** An entry is in the sitemap exactly when it comes from a listed post
      whose file exists. */
  lemma {:induction false} SitemapEntriesMembers(posts: seq<string>, store: map<string, Metadata>,
                                                 endpoint: Option<string>, e: SitemapEntry)
    ensures e in SitemapEntries(posts, store, endpoint)
            <==> exists p :: p in posts && p + MarkdownSuffix in store && e == EntryOf(store[p + MarkdownSuffix], endpoint)
    decreases |posts|
  {
    if posts != [] {
      var init, last := posts[..|posts| - 1], posts[|posts| - 1];
      SitemapEntriesMembers(init, store, endpoint, e);
      assert posts == init + [last];
      if p :| p in posts && p + MarkdownSuffix in store && e == EntryOf(store[p + MarkdownSuffix], endpoint) {
        if p != last {
          assert p in init;
        }
      }
    }
  }

  /** When every listed post's file exists, the sitemap has one entry per
      post. */
  lemma {:induction false} SitemapComplete(posts: seq<string>, store: map<string, Metadata>, endpoint: Option<string>)
    requires forall i :: 0 <= i < |posts| ==> posts[i] + MarkdownSuffix in store
    ensures |SitemapEntries(posts, store, endpoint)| == |posts|
    decreases |posts|
  {
    if posts != [] {
      SitemapComplete(posts[..|posts| - 1], store, endpoint);
    }
  }

  /** The post page and the sitemap show the same image URL for a post. */
  lemma ImagesAgree(meta: Metadata, endpoint: Option<string>)
    ensures var image := PostDetailMetadata(meta, endpoint)["image"];
            match EntryOf(meta, endpoint).image
            case Some(url) => image == Text(url)
            case None => image == Null
  {
  }

  // ---------------------------------------------------------------------
  // robots

  /** `"\n".join(lines)`. */
  function Join(lines: seq<string>): string {
    if lines == [] then ""
    else if |lines| == 1 then lines[0]
    else lines[0] + "\n" + Join(lines[1..])
  }

  /** `s.split("\n")`, the inverse of `Join` on lines without newlines. */
  function Split(s: string): (lines: seq<string>)
    ensures |lines| >= 1
  {
    if s == [] then [""]
    else if s[0] == '\n' then [""] + Split(s[1..])
    else
      var rest := Split(s[1..]);
      [[s[0]] + rest[0]] + rest[1..]
  }

  lemma {:induction false} SplitLine(line: string, rest: string)
    requires '\n' !in line
    ensures Split(line + rest) == [line + Split(rest)[0]] + Split(rest)[1..]
    decreases |line|
  {
    if line != [] {
      assert line[0] != '\n' && '\n' !in line[1..] by {
        assert line[0] in line;
        assert forall c :: c in line[1..] ==> c in line;
      }
      SplitLine(line[1..], rest);
      assert line + rest == [line[0]] + (line[1..] + rest);
      SplitCons(line[0], line[1..] + rest);
      assert [line[0]] + (line[1..] + Split(rest)[0]) == line + Split(rest)[0];
    } else {
      var lines := Split(rest);
      assert line + rest == rest;
      assert line + lines[0] == lines[0];
      assert lines == [lines[0]] + lines[1..];
    }
  }

  lemma SplitCons(c: char, t: string)
    requires c != '\n'
    ensures Split([c] + t) == [[c] + Split(t)[0]] + Split(t)[1..]
  {
    assert ([c] + t)[1..] == t;
  }

  /** Splitting the joined lines gives the lines back. */
  lemma {:induction false} SplitJoin(lines: seq<string>)
    requires lines != []
    requires forall i :: 0 <= i < |lines| ==> '\n' !in lines[i]
    ensures Split(Join(lines)) == lines
    decreases |lines|
  {
    if |lines| == 1 {
      SplitLine(lines[0], "");
      assert lines[0] + "" == lines[0];
    } else {
      var tail := Join(lines[1..]);
      SplitJoin(lines[1..]);
      assert ("\n" + tail)[1..] == tail;
      assert Split("\n" + tail) == [""] + lines[1..];
      SplitLine(lines[0], "\n" + tail);
      assert lines[0] + "\n" + tail == lines[0] + ("\n" + tail);
      assert lines[0] + "" == lines[0];
      assert lines == [lines[0]] + lines[1..];
    }
  }

  /** A joined text never ends with the separator when its last line is
      not empty. */
  lemma {:induction false} JoinEnd(lines: seq<string>)
    requires lines != [] && lines[|lines| - 1] != ""
    ensures var body := Join(lines); body != "" && body[|body| - 1] == lines[|lines| - 1][|lines[|lines| - 1]| - 1]
    decreases |lines|
  {
    if |lines| > 1 {
      JoinEnd(lines[1..]);
    }
  }

  /** `os.getenv('FLASK_ENV', 'development')`. */
  function EnvName(flaskEnv: Option<string>): string {
    flaskEnv.GetOr("development")
  }

  /** `f"{site['url']}/sitemap.xml"`. */
  function SitemapUrl(siteUrl: Option<string>): (url: string)
    ensures siteUrl.Some? ==> url == siteUrl.value + "/sitemap.xml"
    ensures siteUrl.None? ==> url == "None/sitemap.xml"
  {
    Shown(siteUrl) + "/sitemap.xml"
  }

  /** The robots.txt lines: crawling allowed, with the sitemap, only in
      production; everything disallowed in any other environment. */
  function RobotsLines(flaskEnv: Option<string>, siteUrl: Option<string>): seq<string> {
    if EnvName(flaskEnv) == "production" then
      ["User-agent: *", "Allow: /", "Disallow: /admin/", "Disallow: /search/",
       "Sitemap: " + SitemapUrl(siteUrl)]
    else
      ["User-agent: *", "Disallow: /"]
  }

  /** `robots`: build the lines for the environment and join them. */
  method Robots(flaskEnv: Option<string>, siteUrl: Option<string>) returns (body: string)
    ensures body == Join(RobotsLines(flaskEnv, siteUrl))
    ensures (siteUrl.Some? ==> '\n' !in siteUrl.value) ==> Split(body) == RobotsLines(flaskEnv, siteUrl)
    ensures body != "" && body[|body| - 1] != '\n'
  {
    var sitemapUrl := SitemapUrl(siteUrl);
    var env := EnvName(flaskEnv);
    var lines: seq<string> := [];
    if env == "production" {
      lines := lines + ["User-agent: *"];
      lines := lines + ["Allow: /"];
      lines := lines + ["Disallow: /admin/"];
      lines := lines + ["Disallow: /search/"];
      lines := lines + ["Sitemap: " + sitemapUrl];
    } else {
      lines := lines + ["User-agent: *"];
      lines := lines + ["Disallow: /"];
    }
    assert lines == RobotsLines(flaskEnv, siteUrl);
    body := Join(lines);
    var last := lines[|lines| - 1];
    assert last[|last| - 1] != '\n' by {
      if env == "production" {
        assert last[|last| - 1] == "/sitemap.xml"[11];
      }
    }
    JoinEnd(lines);
    if siteUrl.Some? ==> '\n' !in siteUrl.value {
      RobotsLinesRecovered(flaskEnv, siteUrl);
    }
  }

  /** The lines can be read back from the body when the site URL has no
      newline of its own. */
  lemma RobotsLinesRecovered(flaskEnv: Option<string>, siteUrl: Option<string>)
    requires siteUrl.Some? ==> '\n' !in siteUrl.value
    ensures Split(Join(RobotsLines(flaskEnv, siteUrl))) == RobotsLines(flaskEnv, siteUrl)
  {
    var lines := RobotsLines(flaskEnv, siteUrl);
    assert '\n' !in Shown(siteUrl);
    assert '\n' !in "Sitemap: " + SitemapUrl(siteUrl);
    SplitJoin(lines);
  }

  /** Outside production, and when FLASK_ENV is unset, every path is
      disallowed. */
  lemma DevelopmentBody(flaskEnv: Option<string>, siteUrl: Option<string>)
    requires EnvName(flaskEnv) != "production"
    ensures Join(RobotsLines(flaskEnv, siteUrl)) == "User-agent: *\nDisallow: /"
    ensures flaskEnv.None? ==> EnvName(flaskEnv) == "development"
  {
    assert ["User-agent: *", "Disallow: /"][1..] == ["Disallow: /"];
  }

  /** Crawlers are allowed in, and told where the sitemap is, exactly in
      production. */
  lemma CrawlingOnlyInProduction(flaskEnv: Option<string>, siteUrl: Option<string>)
    requires siteUrl.Some? ==> '\n' !in siteUrl.value
    ensures var lines := Split(Join(RobotsLines(flaskEnv, siteUrl)));
            && ("Allow: /" in lines <==> EnvName(flaskEnv) == "production")
            && ("Disallow: /" in lines <==> EnvName(flaskEnv) != "production")
            && (EnvName(flaskEnv) == "production" ==> lines[|lines| - 1] == "Sitemap: " + SitemapUrl(siteUrl))
  {
    RobotsLinesRecovered(flaskEnv, siteUrl);
    var lines := RobotsLines(flaskEnv, siteUrl);
    if EnvName(flaskEnv) == "production" {
      assert "Sitemap: " + SitemapUrl(siteUrl) != "Disallow: /" by {
        assert ("Sitemap: " + SitemapUrl(siteUrl))[0] == 'S';
      }
      assert lines[0] != "Disallow: /" && lines[1] != "Disallow: /";
    }
  }
}
