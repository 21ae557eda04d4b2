/**
 * The page and site-file generators of admin/file-api.py: the navigation link
 * list, `generate_page` with its placeholder loop and logo block,
 * `robots.txt`, `sitemap.xml`, and the two path helpers of the file server
 * (`get_content_type`, `clean_path`). The request's `site_data` and the
 * branding document are JSON values; every `.get` on something that is not a
 * dict raises in Python and is `None` here.
 */
module Pages {
  import opened Wrappers
  import opened Json
  import opened Text
  import opened Template
  import Branding

  // ---------------------------------------------------------------------------
  // generate_nav_links
  // ---------------------------------------------------------------------------

  function NavLink(href: string, caption: string): string {
    "<a href=\"" + href + "\" class=\"nav-link\">" + caption + "</a>"
  }

  /** The flags `generate_nav_links` tests, in its order, with the link each adds. */
  const NavLinkEntries: seq<(string, string)> := [
    ("includeAbout", NavLink("about.html", "About")),
    ("includeContact", NavLink("contact.html", "Contact")),
    ("includeBlog", NavLink("blog.html", "Blog")),
    ("includePortfolio", NavLink("portfolio.html", "Portfolio")),
    ("includeServices", NavLink("services.html", "Services"))]

  /** A newline and the indentation of the header's link row. */
  const NavSeparator := "\n                    "

  /** The links of the set flags, in the fixed order, joined by the separator. */
  function NavLinks(flags: seq<Member>): string {
    Join(Chosen(NavLinkEntries, flags), NavSeparator)
  }

  /** `generate_nav_links(site_data)`, step by step; `NavLinks` is the text it builds. */
  method GenerateNavLinks(siteData: Value) returns (r: Option<string>)
    ensures r == if siteData.Obj? then Some(NavLinks(siteData.members)) else None
  {
    if !siteData.Obj? {
      return None;
    }
    var flags := siteData.members;
    var e := NavLinkEntries;
    var links: seq<string> := [];
    assert e[..0] == [];
    links := AppendIfSet(links, e, flags, 0);  // includeAbout
    links := AppendIfSet(links, e, flags, 1);  // includeContact
    links := AppendIfSet(links, e, flags, 2);  // includeBlog
    links := AppendIfSet(links, e, flags, 3);  // includePortfolio
    links := AppendIfSet(links, e, flags, 4);  // includeServices
    assert e[..5] == e;
    return Some(Join(links, NavSeparator));
  }

  /** The text is empty exactly when no flag is set. */
  lemma NavLinksEmpty(flags: seq<Member>)
    ensures NavLinks(flags) == "" <==> forall k :: 0 <= k < |NavLinkEntries| ==> !Flag(flags, NavLinkEntries[k].0)
  {
    var links := Chosen(NavLinkEntries, flags);
    ChosenEmpty(NavLinkEntries, flags);
    if links != [] {
      ChosenOnly(NavLinkEntries, flags);
      assert links[0] in links;
      assert |NavLinks(flags)| >= |links[0]| > 0;
    }
  }

  /** A link is in the list exactly when its flag is set. */
  lemma NavLinksChosen(flags: seq<Member>, k: nat)
    requires k < |NavLinkEntries|
    ensures NavLinkEntries[k].1 in Chosen(NavLinkEntries, flags) <==> Flag(flags, NavLinkEntries[k].0)
  {
    if Flag(flags, NavLinkEntries[k].0) {
      ChosenIncludes(NavLinkEntries, flags, k);
    }
    ChosenOnly(NavLinkEntries, flags);
    if NavLinkEntries[k].1 in Chosen(NavLinkEntries, flags) {
      var m :| 0 <= m < |NavLinkEntries| && NavLinkEntries[m].1 == NavLinkEntries[k].1 && Flag(flags, NavLinkEntries[m].0);
      NavLinksDistinct(m, k);
    }
  }

  /** The five links differ from each other. */
  lemma NavLinksDistinct(m: nat, k: nat)
    requires m < |NavLinkEntries| && k < |NavLinkEntries|
    requires NavLinkEntries[m].1 == NavLinkEntries[k].1
    ensures m == k
  {
    var e := NavLinkEntries;
    assert e[m].1[9] == e[k].1[9];
    assert e[m].1[10] == e[k].1[10];
  }

  // ---------------------------------------------------------------------------
  // generate_robots_txt, generate_sitemap
  // ---------------------------------------------------------------------------

  /** The GitHub Pages address both generators build from `githubUsername` and `githubRepo`. */
  function SiteUrl(siteData: Value): Option<string> {
    if !siteData.Obj? then None
    else
      var user := PyStr(Lookup(siteData.members, "githubUsername", Str("username")));
      var repo := PyStr(Lookup(siteData.members, "githubRepo", Str("repository")));
      Some("https://" + user + ".github.io/" + repo)
  }

  const RobotsHead := "User-agent: *\nAllow: /\n\nSitemap: "

  /** `generate_robots_txt(site_data)` */
  function RobotsTxt(siteData: Value): Option<string> {
    match SiteUrl(siteData)
    case None => None
    case Some(url) => Some(RobotsHead + url + "/sitemap.xml")
  }

  /** The address of one page: the home page is the site itself. */
  function PageUrl(siteUrl: string, file: string): string {
    if file == "index.html" then siteUrl else siteUrl + "/" + file
  }

  function UrlEntry(url: string): string {
    "  <url><loc>" + url + "</loc><changefreq>weekly</changefreq></url>"
  }

  /** The entries the sitemap loop appends for the first files, in order. */
  function SitemapEntries(siteUrl: string, files: seq<string>): seq<string>
    decreases |files|
  {
    if files == [] then []
    else
      var last := files[|files| - 1];
      SitemapEntries(siteUrl, files[..|files| - 1]) +
        (if EndsWith(last, ".html") then [UrlEntry(PageUrl(siteUrl, last))] else [])
  }

  /** The HTML files of the list, in order. */
  function HtmlFiles(files: seq<string>): seq<string>
    decreases |files|
  {
    if files == [] then []
    else
      var last := files[|files| - 1];
      HtmlFiles(files[..|files| - 1]) + (if EndsWith(last, ".html") then [last] else [])
  }

  const SitemapHead := "<?xml version=\"1.0\" encoding=\"UTF-8\"?>\n<urlset xmlns=\"http://www.sitemaps.org/schemas/sitemap/0.9\">\n"

  function SitemapText(entries: seq<string>): string {
    SitemapHead + Join(entries, "\n") + "\n</urlset>"
  }

  /** `generate_sitemap(site_data, files)`, step by step; `SitemapText` of `SitemapEntries` is the text it builds. */
  method GenerateSitemap(siteData: Value, files: seq<string>) returns (r: Option<string>)
    ensures r == match SiteUrl(siteData)
      case None => None
      case Some(url) => Some(SitemapText(SitemapEntries(url, files)))
  {
    if !siteData.Obj? {
      return None;
    }
    var siteUrl := SiteUrl(siteData).value;
    var urls: seq<string> := [];
    var i := 0;
    while i < |files|
      invariant 0 <= i <= |files|
      invariant urls == SitemapEntries(siteUrl, files[..i])
    {
      var file := files[i];
      assert files[..i + 1][..i] == files[..i];
      if EndsWith(file, ".html") {
        var url;
        if file == "index.html" {
          url := siteUrl;
        } else {
          url := siteUrl + "/" + file;
        }
        urls := urls + [UrlEntry(url)];
      }
      i := i + 1;
    }
    assert files[..|files|] == files;
    return Some(SitemapText(urls));
  }

  /** One entry per HTML file, in input order, each at that file's address; nothing else. */
  lemma {:induction false} SitemapEntriesSpec(siteUrl: string, files: seq<string>)
    ensures |SitemapEntries(siteUrl, files)| == |HtmlFiles(files)|
    ensures forall k :: 0 <= k < |HtmlFiles(files)| ==>
      SitemapEntries(siteUrl, files)[k] == UrlEntry(PageUrl(siteUrl, HtmlFiles(files)[k]))
    decreases |files|
  {
    if files != [] {
      SitemapEntriesSpec(siteUrl, files[..|files| - 1]);
    }
  }

  /** The HTML files are exactly the listed names ending in `.html`. */
  lemma {:induction false} HtmlFilesSpec(files: seq<string>)
    ensures |HtmlFiles(files)| <= |files|
    ensures forall f :: f in HtmlFiles(files) <==> f in files && EndsWith(f, ".html")
    decreases |files|
  {
    if files != [] {
      var init := files[..|files| - 1];
      HtmlFilesSpec(init);
      assert files == init + [files[|files| - 1]];
    }
  }

  /**
   * `robots.txt` points at the `sitemap.xml` under the same site address that
   * the sitemap gives the home page.
   */
  lemma RobotsMatchSitemap(siteData: Value, files: seq<string>)
    requires siteData.Obj? && "index.html" in files
    ensures var url := SiteUrl(siteData).value;
      EndsWith(RobotsTxt(siteData).value, url + "/sitemap.xml") &&
      UrlEntry(url) in SitemapEntries(url, files)
  {
    var url := SiteUrl(siteData).value;
    assert RobotsTxt(siteData).value == RobotsHead + (url + "/sitemap.xml");
    EndsWithAppend(RobotsHead, url + "/sitemap.xml");
    HtmlFilesSpec(files);
    assert EndsWith("index.html", ".html");
    var k :| 0 <= k < |HtmlFiles(files)| && HtmlFiles(files)[k] == "index.html";
    SitemapEntriesSpec(url, files);
    assert SitemapEntries(url, files)[k] == UrlEntry(url);
  }

  // ---------------------------------------------------------------------------
  // get_content_type
  // ---------------------------------------------------------------------------

  /** The `content_types` table of `get_content_type`. */
  const ContentTypes: map<string, string> := map[
    ".html" := "text/html",
    ".css" := "text/css",
    ".js" := "application/javascript",
    ".json" := "application/json",
    ".png" := "image/png",
    ".jpg" := "image/jpeg",
    ".jpeg" := "image/jpeg",
    ".gif" := "image/gif",
    ".svg" := "image/svg+xml",
    ".ico" := "image/x-icon",
    ".txt" := "text/plain",
    ".xml" := "application/xml"]

  const DefaultContentType := "application/octet-stream"

  /** `s.rfind(c)`: the index of the last `c`, or -1. */
  function RFind(s: string, c: char): (r: int)
    ensures -1 <= r < |s|
    ensures r >= 0 ==> s[r] == c
    ensures forall k :: r < k < |s| ==> s[k] != c
    decreases |s|
  {
    if s == [] then -1
    else if s[|s| - 1] == c then |s| - 1
    else RFind(s[..|s| - 1], c)
  }

  /**
   * `os.path.splitext(path)[1]` on POSIX: from the last `.` of the last path
   * component, provided something other than dots comes before it in that
   * component; otherwise empty (so `.html` alone has no extension).
   */
  function Extension(path: string): string {
    var sep := RFind(path, '/');
    var dot := RFind(path, '.');
    if dot > sep && exists k :: sep < k < dot && path[k] != '.' then path[dot..] else ""
  }

  /** `get_content_type(file_path)` */
  function ContentType(path: string): string {
    var ext := Lower(Extension(path));
    if ext in ContentTypes then ContentTypes[ext] else DefaultContentType
  }

  /** A name that does not end in `.` or `/`, a dot, and a suffix without dots or slashes: that suffix is the extension. */
  lemma ExtensionOf(stem: string, suffix: string)
    requires stem != [] && stem[|stem| - 1] != '.' && stem[|stem| - 1] != '/'
    requires '.' !in suffix && '/' !in suffix
    ensures Extension(stem + "." + suffix) == "." + suffix
  {
    var p := stem + "." + suffix;
    var d := |stem|;
    assert p[d] == '.';
    assert forall k :: d < k < |p| ==> p[k] == suffix[k - d - 1];
    assert RFind(p, '.') == d;
    assert p[d - 1] == stem[d - 1];
    assert p[d..] == "." + suffix;
  }

  /**
   * The type depends only on the extension, with its letters lower-cased: each
   * of the twelve listed extensions gives its type in any letter case, anything
   * else the default.
   */
  lemma ContentTypeOf(stem: string, suffix: string)
    requires stem != [] && stem[|stem| - 1] != '.' && stem[|stem| - 1] != '/'
    requires '.' !in suffix && '/' !in suffix
    ensures ContentType(stem + "." + suffix) ==
      if "." + Lower(suffix) in ContentTypes then ContentTypes["." + Lower(suffix)] else DefaultContentType
  {
    ExtensionOf(stem, suffix);
    assert Lower("." + suffix) == "." + Lower(suffix);
  }

  /** A last path component that is a dot and a name, like `.html`, has no extension and is served as bytes. */
  lemma HiddenFileHasNoType(dir: string, name: string)
    requires dir == [] || dir[|dir| - 1] == '/'
    requires '.' !in name && '/' !in name
    ensures Extension(dir + "." + name) == ""
    ensures ContentType(dir + "." + name) == DefaultContentType
  {
    var p := dir + "." + name;
    var d := |dir|;
    assert p[d] == '.';
    assert forall k :: d < k < |p| ==> p[k] == name[k - d - 1];
    assert RFind(p, '.') == d;
    if dir != [] {
      assert p[d - 1] == '/';
      assert RFind(p, '/') == d - 1;
    }
    assert Lower("") == "";
  }

  // ---------------------------------------------------------------------------
  // clean_path
  // ---------------------------------------------------------------------------

  const ParentRef := "../"

  /** `clean_path(path)`, as written: one pass of `replace('../', '')`, then at most one leading `/` goes. */
  function CleanPath(path: string): string {
    var cleaned := ReplaceAll(path, ParentRef, "");
    if StartsWith(cleaned, "/") then cleaned[1..] else cleaned
  }

  /** One pass is not enough: removing `../` from `....//` joins the rest into a new `../`. */
  lemma CleanPathLeavesParentRef()
    ensures CleanPath("....//") == "../"
  {
    var s := "....//";
    var t := s[1..];
    assert s[..3][2] == '.' && t[..3][2] == '.';
    assert ReplaceAll(s, ParentRef, "") == [s[0]] + ReplaceAll(t, ParentRef, "");
    assert ReplaceAll(t, ParentRef, "") == [t[0]] + ReplaceAll(t[1..], ParentRef, "");
    assert t[1..] == ParentRef + "/";
    ReplaceAtStart(ParentRef, "/", "");
    assert ReplaceAll("/", ParentRef, "") == "/";
  }

  /** Removes `../` until none is left. */
  function RemoveParentRefs(s: string): string
    decreases |s|
  {
    if Contains(s, ParentRef) then
      ReplaceByEmptyShorter(s, ParentRef);
      RemoveParentRefs(ReplaceAll(s, ParentRef, ""))
    else s
  }

  /**
   * `clean_path` with the parent-directory route closed: no `../` is left in
   * the result. Only one leading `/` is dropped, as in `clean_path`, so a path
   * such as `//etc/passwd` still comes out absolute.
   */
  function CleanPathFixed(path: string): string {
    var cleaned := RemoveParentRefs(path);
    if StartsWith(cleaned, "/") then cleaned[1..] else cleaned
  }

  lemma {:induction false} RemoveParentRefsClean(s: string)
    ensures !Contains(RemoveParentRefs(s), ParentRef)
    decreases |s|
  {
    if Contains(s, ParentRef) {
      ReplaceByEmptyShorter(s, ParentRef);
      RemoveParentRefsClean(ReplaceAll(s, ParentRef, ""));
    }
  }

  /** The corrected path holds no `../`, and it agrees with `clean_path` whenever one pass is enough. */
  lemma CleanPathFixedSpec(path: string)
    ensures !Contains(CleanPathFixed(path), ParentRef)
    ensures !Contains(ReplaceAll(path, ParentRef, ""), ParentRef) ==> CleanPathFixed(path) == CleanPath(path)
  {
    var c := RemoveParentRefs(path);
    RemoveParentRefsClean(path);
    if StartsWith(c, "/") && Contains(c[1..], ParentRef) {
      var i :| 0 <= i <= |c[1..]| && OccursAt(c[1..], ParentRef, i);
      OccursAtTail(c, ParentRef, i);
    }
    var once := ReplaceAll(path, ParentRef, "");
    if Contains(path, ParentRef) && !Contains(once, ParentRef) {
      ReplaceByEmptyShorter(path, ParentRef);
      assert RemoveParentRefs(once) == once;
    }
    if !Contains(path, ParentRef) {
      ReplaceAbsent(path, ParentRef, "");
    }
  }

  // ---------------------------------------------------------------------------
  // generate_page
  // ---------------------------------------------------------------------------

  /** The placeholders of `generate_page`'s `replacements` dict, in insertion order. */
  const PageNames: seq<string> := [
    "TITLE", "SITE_TITLE", "SITE_NAME", "CONTENT", "DESCRIPTION", "SITE_DESCRIPTION",
    "SITE_AUTHOR", "SITE_URL", "BRAND_PRIMARY_COLOR", "BRAND_SECONDARY_COLOR",
    "BRAND_ACCENT_COLOR", "BRAND_FONT", "TAILWIND_CDN_URL", "CUSTOM_CSS_PATH",
    "NAV_LINKS", "MOBILE_NAV_LINKS", "CURRENT_YEAR"]

  /**
   * The values of that dict: the title and content, the site fields with their
   * defaults, the top-level brand keys of the branding document, two fixed
   * URLs, the two navigation renderings and the year.
   */
  function PageValues(title: string, content: string, site: seq<Member>, branding: seq<Member>,
                      navLinks: string, mobileNavLinks: string, year: nat): seq<Value>
  {
    [Str(title), Str(title),
     Lookup(site, "siteName", Str("My Website")),
     Str(content),
     Lookup(site, "siteDescription", Str("A website built with ForgeWeb")),
     Lookup(site, "siteDescription", Str("A website built with ForgeWeb")),
     Lookup(site, "siteAuthor", Str("Website Owner")),
     Lookup(site, "siteUrl", Str("https://example.com")),
     Lookup(branding, "primaryColor", Str(Branding.DefaultPrimary)),
     Lookup(branding, "secondaryColor", Str(Branding.DefaultSecondary)),
     Lookup(branding, "accentColor", Str(Branding.DefaultAccent)),
     Lookup(branding, "font", Str("Inter")),
     Str("https://cdn.tailwindcss.com"),
     Str("assets/css/custom.css"),
     Str(navLinks), Str(mobileNavLinks),
     Str(NatText(year))]
  }

  const LogoOpen := "{{#LOGO_PATH}}"
  const LogoClose := "{{/LOGO_PATH}}"
  const LogoPlaceholder := "{{LOGO_PATH}}"

  /**
   * The `{{#LOGO_PATH}}` block after substitution: with a logo the markers go
   * and the path is filled in (a path that is not a string makes `replace`
   * raise); without one every block goes, marker to first closing marker.
   */
  function WithLogo(page: string, logoPath: Value): Option<string> {
    if Truthy(logoPath) then
      var unmarked := ReplaceAll(ReplaceAll(page, LogoOpen, ""), LogoClose, "");
      if logoPath.Str? then Some(ReplaceAll(unmarked, LogoPlaceholder, logoPath.s)) else None
    else Some(RemoveBlocks(page, LogoOpen, LogoClose))
  }

  /** `CONTENT` is the fourth placeholder and `SITE_URL` the eighth; the eight first are distinct and brace-free. */
  lemma ContentBeforeSiteUrl()
    ensures Placeholder(PageNames[3]) == "{{CONTENT}}" && Placeholder(PageNames[7]) == "{{SITE_URL}}"
    ensures forall k :: 0 <= k <= 7 ==> NoBraces(PageNames[k])
    ensures forall k :: 0 <= k < 7 && k != 3 ==> PageNames[k] != PageNames[3] && PageNames[k] != PageNames[7]
  {
  }

  /** What `generate_page` returns, or `None` where it raises. */
  function Page(template: string, title: string, content: string, siteData: Value, branding: Value, year: nat): Option<string> {
    if !siteData.Obj? || !branding.Obj? then None
    else
      var nav := NavLinks(siteData.members);
      var values := PageValues(title, content, siteData.members, branding.members, nav, nav, year);
      match Substituted(template, Dict(PageNames, values))
      case None => None
      case Some(page) => WithLogo(page, Lookup(siteData.members, "logoPath", Str("")))
  }

  /**
   * `generate_page(base_template, title, content, site_data)`, with the
   * branding document `load_branding_config` returned and the current year
   * passed in.
   */
  method GeneratePage(template: string, title: string, content: string, siteData: Value, branding: Value, year: nat)
    returns (r: Option<string>)
    ensures r == Page(template, title, content, siteData, branding, year)
  {
    if !siteData.Obj? || !branding.Obj? {
      return None;
    }
    var navLinks := GenerateNavLinks(siteData);
    var mobileNavLinks := GenerateNavLinks(siteData);
    var values := PageValues(title, content, siteData.members, branding.members, navLinks.value, mobileNavLinks.value, year);
    var substituted := Substitute(template, Dict(PageNames, values));
    if substituted.None? {
      return None;
    }
    var page := substituted.value;
    var logoPath := Lookup(siteData.members, "logoPath", Str(""));
    if Truthy(logoPath) {
      page := ReplaceAll(ReplaceAll(page, LogoOpen, ""), LogoClose, "");
      if !logoPath.Str? {
        return None;
      }
      page := ReplaceAll(page, LogoPlaceholder, logoPath.s);
    } else {
      page := RemoveBlocks(page, LogoOpen, LogoClose);
    }
    return Some(page);
  }

  /** The markers and the path placeholder are `{{`-markers that differ in their third character. */
  lemma LogoMarkers()
    ensures Marker(LogoOpen) && Marker(LogoClose) && Marker(LogoPlaceholder)
    ensures LogoOpen[2] == '#' && LogoClose[2] == '/' && LogoPlaceholder[2] == 'L'
  {
  }

  /** Without a logo path, a block whose text holds no `{` goes with its markers; text before it stays. */
  lemma LogoBlockDropped(a: string, b: string, c: string, logoPath: Value)
    requires !Truthy(logoPath) && NoOpenBrace(a) && NoOpenBrace(b)
    ensures WithLogo(a + LogoOpen + b + LogoClose + c, logoPath) == Some(a + RemoveBlocks(c, LogoOpen, LogoClose))
  {
    RemoveFirstBlock(a, b, c, LogoOpen, LogoClose);
  }

  /**
   * With a logo path, the markers go, the block's text stays, and
   * `{{LOGO_PATH}}` inside it becomes the path.
   */
  lemma LogoShown(a: string, b1: string, b2: string, c: string, path: string)
    requires path != [] && NoOpenBrace(a) && NoOpenBrace(b1) && NoOpenBrace(b2) && NoOpenBrace(c)
    ensures WithLogo(a + LogoOpen + b1 + LogoPlaceholder + b2 + LogoClose + c, Str(path)) ==
      Some(a + b1 + path + b2 + c)
  {
    LogoMarkers();
    ShowBlock(LogoOpen, LogoPlaceholder, LogoClose, a, b1, b2, c, path);
  }

  /** Text without a `{` holds no marker, so the logo step leaves it alone unless the path is not a string. */
  lemma WithLogoBraceFree(s: string, logoPath: Value)
    requires NoOpenBrace(s)
    ensures WithLogo(s, logoPath) == if Truthy(logoPath) && !logoPath.Str? then None else Some(s)
  {
    LogoMarkers();
    MarkerBrace(LogoOpen);
    MarkerBrace(LogoClose);
    MarkerBrace(LogoPlaceholder);
    NoPlaceholderWithoutBrace(s, LogoOpen);
    NoPlaceholderWithoutBrace(s, LogoClose);
    NoPlaceholderWithoutBrace(s, LogoPlaceholder);
    ReplaceAbsent(s, LogoOpen, "");
    ReplaceAbsent(s, LogoClose, "");
    if logoPath.Str? {
      ReplaceAbsent(s, LogoPlaceholder, logoPath.s);
    }
    RemoveBlocksAbsent(s, LogoOpen, LogoClose);
  }

  /**
   * `generate_page` fails exactly when `site_data` or the branding document is
   * not a dict, when a value of the replacements dict is not a string, or when
   * a truthy logo path is not a string.
   */
  lemma PageFails(template: string, title: string, content: string, siteData: Value, branding: Value, year: nat)
    ensures Page(template, title, content, siteData, branding, year).None? <==>
      !siteData.Obj? || !branding.Obj? ||
      !AllStr(PageValues(title, content, siteData.members, branding.members,
                         NavLinks(siteData.members), NavLinks(siteData.members), year)) ||
      (Truthy(Lookup(siteData.members, "logoPath", Str(""))) && !Lookup(siteData.members, "logoPath", Str("")).Str?)
  {
    if siteData.Obj? && branding.Obj? {
      var nav := NavLinks(siteData.members);
      SubstitutedSpec(template, PageNames, PageValues(title, content, siteData.members, branding.members, nav, nav, year));
    }
  }

  /**
   * When no branding file could be parsed, the document `load_branding_config`
   * hands to `generate_page` has no top-level brand keys, so the three colours
   * and the font are always the defaults.
   */
  lemma BrandColoursAlwaysDefault(brandingFile: JsonFile, env: map<string, string>, siteConfig: JsonFile,
                                  title: string, content: string, site: seq<Member>,
                                  navLinks: string, mobileNavLinks: string, year: nat)
    requires !brandingFile.Parsed?
    ensures Branding.LoadBrandingConfig(brandingFile, env, siteConfig).Obj?
    ensures PageValues(title, content, site, Branding.LoadBrandingConfig(brandingFile, env, siteConfig).members,
                       navLinks, mobileNavLinks, year)[8..12] ==
      [Str(Branding.DefaultPrimary), Str(Branding.DefaultSecondary), Str(Branding.DefaultAccent), Str("Inter")]
  {
    Branding.NoTopLevelColours(brandingFile, env, siteConfig, "primaryColor", Str(Branding.DefaultPrimary));
    Branding.NoTopLevelColours(brandingFile, env, siteConfig, "secondaryColor", Str(Branding.DefaultSecondary));
    Branding.NoTopLevelColours(brandingFile, env, siteConfig, "accentColor", Str(Branding.DefaultAccent));
    Branding.NoTopLevelColours(brandingFile, env, siteConfig, "font", Str("Inter"));
  }

  /**
   * Page content is substituted before the site URL, so a `{{SITE_URL}}` in the
   * content comes out as the site's URL.
   */
  lemma ContentExpandsSiteUrl(title: string, siteData: Value, branding: Value, year: nat, url: string)
    requires siteData.Obj? && branding.Obj?
    requires Lookup(siteData.members, "siteUrl", Str("https://example.com")) == Str(url) && NoOpenBrace(url)
    requires AllStr(PageValues(title, "{{SITE_URL}}", siteData.members, branding.members,
                               NavLinks(siteData.members), NavLinks(siteData.members), year))
    ensures Page("{{CONTENT}}", title, "{{SITE_URL}}", siteData, branding, year) ==
      WithLogo(url, Lookup(siteData.members, "logoPath", Str("")))
  {
    var nav := NavLinks(siteData.members);
    var vals := PageValues(title, "{{SITE_URL}}", siteData.members, branding.members, nav, nav, year);
    assert Substituted("{{CONTENT}}", Dict(PageNames, vals)) == Some(url) by {
      ContentBeforeSiteUrl();
      assert vals[3] == Str(Placeholder(PageNames[7])) && vals[7] == Str(url);
      LaterPlaceholderExpanded(PageNames, vals, 3, 7);
    }
  }
}
