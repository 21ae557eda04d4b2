/**
 * What `generate_site_config_js` in admin/file-api.py puts into
 * `site-config.js`: the site's name, URL and description, the navigation list
 * (from the database's active items when there are any, otherwise from the
 * `include_*` flags of `site-config.json` through
 * `build_navigation_from_config`), and the four social handles. The parsed
 * `site-config.json` and the database's navigation rows are parameters.
 */
module SiteConfig {
  import opened Wrappers
  import opened Json
  import Database

  /** One entry of the `navigation` list: `target` and `class` are present only when set. */
  datatype NavEntry = NavEntry(title: string, url: string, target: Option<string>, cssClass: Option<string>)

  /** The entry `generate_site_config_js` builds from one database row. */
  function DbEntry(row: Database.NavRow): (e: NavEntry)
    ensures e.title == row.title && e.url == row.url
    ensures e.target.Some? <==> row.openNewTab
    ensures e.target.Some? ==> e.target.value == "_blank"
    ensures e.cssClass.Some? <==> row.cssClass.Some? && row.cssClass.value != ""
    ensures e.cssClass.Some? ==> e.cssClass == row.cssClass
  {
    NavEntry(row.title, row.url,
             if row.openNewTab then Some("_blank") else None,
             if row.cssClass.Some? && row.cssClass.value != "" then row.cssClass else None)
  }

  function DbEntries(rows: seq<Database.NavRow>): seq<NavEntry> {
    seq(|rows|, i requires 0 <= i < |rows| => DbEntry(rows[i]))
  }

  /** The loop over the active database items, one entry per item, in the listing's order. */
  method DbNavigation(items: seq<Database.NavRow>) returns (navigation: seq<NavEntry>)
    ensures |navigation| == |items|
    ensures forall i :: 0 <= i < |items| ==> navigation[i] == DbEntry(items[i])
  {
    navigation := [];
    var i := 0;
    while i < |items|
      invariant 0 <= i <= |items|
      invariant |navigation| == i
      invariant forall j :: 0 <= j < i ==> navigation[j] == DbEntry(items[j])
    {
      var item := items[i];
      var target := None;
      if item.openNewTab {
        target := Some("_blank");
      }
      var cssClass := None;
      if item.cssClass.Some? && item.cssClass.value != "" {
        cssClass := item.cssClass;
      }
      navigation := navigation + [NavEntry(item.title, item.url, target, cssClass)];
      i := i + 1;
    }
  }

  function Plain(title: string, url: string): NavEntry {
    NavEntry(title, url, None, None)
  }

  const HomeEntry := Plain("Home", "index.html")

  /** The flags `build_navigation_from_config` tests, in its order, with the entry each adds. */
  const ConfigEntries: seq<(string, NavEntry)> := [
    ("include_about", Plain("About", "about.html")),
    ("include_services", Plain("Services", "services.html")),
    ("include_portfolio", Plain("Portfolio", "portfolio.html")),
    ("include_blog", Plain("Blog", "blog.html")),
    ("include_contact", Plain("Contact", "contact.html"))]

  /**
   * Home, then the entries whose flag in `site_config['content']` is truthy;
   * `None` where a `.get` meets something that is not a dict.
   */
  function ConfigNavigation(siteConfig: Value): Option<seq<NavEntry>> {
    match DictGet(siteConfig, "content", Obj([]))
    case Some(Obj(flags)) => Some([HomeEntry] + Chosen(ConfigEntries, flags))
    case _ => None
  }

  /** `build_navigation_from_config(site_config)`, step by step; `ConfigNavigation` is the list it builds. */
  method BuildNavigationFromConfig(siteConfig: Value) returns (r: Option<seq<NavEntry>>)
    ensures r == ConfigNavigation(siteConfig)
  {
    var navigation := [HomeEntry];
    var content := DictGet(siteConfig, "content", Obj([]));
    if content.None? || !content.value.Obj? {
      return None;
    }
    var flags := content.value.members;
    var e := ConfigEntries;
    var chosen: seq<NavEntry> := [];
    assert e[..0] == [];
    chosen := AppendIfSet(chosen, e, flags, 0);  // include_about
    chosen := AppendIfSet(chosen, e, flags, 1);  // include_services
    chosen := AppendIfSet(chosen, e, flags, 2);  // include_portfolio
    chosen := AppendIfSet(chosen, e, flags, 3);  // include_blog
    chosen := AppendIfSet(chosen, e, flags, 4);  // include_contact
    assert e[..5] == e;
    return Some(navigation + chosen);
  }

  /**
   * The configured list starts with Home, holds an entry exactly when its flag
   * is set, and has at most six entries; it fails exactly when `site_config`
   * or its `content` is not a dict.
   */
  lemma ConfigNavigationSpec(siteConfig: Value, k: nat)
    requires k < |ConfigEntries|
    ensures ConfigNavigation(siteConfig).Some? <==>
      siteConfig.Obj? && Lookup(siteConfig.members, "content", Obj([])).Obj?
    ensures ConfigNavigation(siteConfig).Some? ==>
      var nav := ConfigNavigation(siteConfig).value;
      var flags := Lookup(siteConfig.members, "content", Obj([])).members;
      1 <= |nav| <= 6 && nav[0] == HomeEntry &&
      (ConfigEntries[k].1 in nav[1..] <==> Flag(flags, ConfigEntries[k].0))
  {
    if ConfigNavigation(siteConfig).Some? {
      var flags := Lookup(siteConfig.members, "content", Obj([])).members;
      var chosen := Chosen(ConfigEntries, flags);
      ChosenOnly(ConfigEntries, flags);
      assert ([HomeEntry] + chosen)[1..] == chosen;
      if Flag(flags, ConfigEntries[k].0) {
        ChosenIncludes(ConfigEntries, flags, k);
      }
    }
  }

  /** With every flag set the list is Home, About, Services, Portfolio, Blog, Contact, in that order. */
  lemma AllFlagsOrder(flags: seq<Member>)
    requires forall k :: 0 <= k < |ConfigEntries| ==> Flag(flags, ConfigEntries[k].0)
    ensures ConfigNavigation(Obj([Member("content", Obj(flags))])) == Some([
      HomeEntry, Plain("About", "about.html"), Plain("Services", "services.html"),
      Plain("Portfolio", "portfolio.html"), Plain("Blog", "blog.html"), Plain("Contact", "contact.html")])
  {
    var e := ConfigEntries;
    ChosenAll(e, flags);
    var want := [HomeEntry, Plain("About", "about.html"), Plain("Services", "services.html"),
      Plain("Portfolio", "portfolio.html"), Plain("Blog", "blog.html"), Plain("Contact", "contact.html")];
    assert [HomeEntry] + Chosen(e, flags) == want;
    assert Lookup([Member("content", Obj(flags))], "content", Obj([])) == Obj(flags);
    assert ConfigNavigation(Obj([Member("content", Obj(flags))])) == Some(want);
  }

  /**
   * The navigation list: the active database items in `ORDER BY position, id`
   * order when a database is open and has any, otherwise the configured list.
   */
  function SiteNavigation(dbRows: Option<seq<Database.NavRow>>, siteConfig: Value): Option<seq<NavEntry>> {
    if dbRows.Some? && Database.Listing(dbRows.value, true) != [] then
      Some(DbEntries(Database.Listing(dbRows.value, true)))
    else ConfigNavigation(siteConfig)
  }

  /**
   * The configured list is used exactly when there is no database or no row
   * of it is active; otherwise each entry comes from an active row, in
   * listing order.
   */
  lemma NavigationSource(dbRows: Option<seq<Database.NavRow>>, siteConfig: Value)
    ensures (dbRows.None? || forall i :: 0 <= i < |dbRows.value| ==> !dbRows.value[i].isActive) ==>
      SiteNavigation(dbRows, siteConfig) == ConfigNavigation(siteConfig)
    ensures dbRows.Some? && (exists i :: 0 <= i < |dbRows.value| && dbRows.value[i].isActive) ==>
      var listing := Database.Listing(dbRows.value, true);
      var nav := SiteNavigation(dbRows, siteConfig);
      nav.Some? && |nav.value| == |listing| > 0 &&
      Database.NavSorted(listing) &&
      (forall i :: 0 <= i < |listing| ==> listing[i].isActive && listing[i] in dbRows.value) &&
      (forall i :: 0 <= i < |listing| ==> nav.value[i] == DbEntry(listing[i]))
  {
    if dbRows.Some? {
      var rows := dbRows.value;
      var listing := Database.Listing(rows, true);
      Database.ListingSpec(rows, true);
      if exists i :: 0 <= i < |rows| && rows[i].isActive {
        var i :| 0 <= i < |rows| && rows[i].isActive;
        assert multiset(rows)[rows[i]] > 0;
        assert multiset(listing)[rows[i]] > 0;
      }
      forall j | 0 <= j < |listing| ensures listing[j].isActive && listing[j] in rows {
        assert multiset(listing)[listing[j]] > 0;
      }
    }
  }

  /** An active item just added to the database appears in the navigation list. */
  lemma AddedItemListed(rows: seq<Database.NavRow>, x: Database.NavRow, siteConfig: Value)
    requires x.isActive
    ensures SiteNavigation(Some(rows + [x]), siteConfig).Some?
    ensures DbEntry(x) in SiteNavigation(Some(rows + [x]), siteConfig).value
  {
    var all := rows + [x];
    assert all[|rows|] == x;
    NavigationSource(Some(all), siteConfig);
    var listing := Database.Listing(all, true);
    Database.ListingSpec(all, true);
    assert multiset(all)[x] > 0;
    assert x in listing;
    var i :| 0 <= i < |listing| && listing[i] == x;
    assert SiteNavigation(Some(all), siteConfig).value[i] == DbEntry(x);
  }

  // ---------------------------------------------------------------------------
  // social handles
  // ---------------------------------------------------------------------------

  const Platforms: seq<string> := ["twitter", "linkedin", "facebook", "github"]

  /** `social_config.get('platforms', {}).get(platform, {}).get('handle', '')` */
  function Handle(social: Value, platform: string): Option<Value> {
    match DictGet(social, "platforms", Obj([]))
    case None => None
    case Some(platforms) => DictGet2(platforms, platform, "handle", Str(""))
  }

  /** The `social` dict, keyed in the four platforms' order. */
  function Social(siteConfig: Value): Option<seq<Member>> {
    match DictGet(siteConfig, "social", Obj([]))
    case None => None
    case Some(social) =>
      var handles := seq(4, k requires 0 <= k < 4 => Handle(social, Platforms[k]));
      if forall k :: 0 <= k < 4 ==> handles[k].Some? then
        Some(seq(4, k requires 0 <= k < 4 => Member(Platforms[k], handles[k].value)))
      else None
  }

  /**
   * The handles are read through `social`, `platforms` and the platform's own
   * dict, each missing level counting as empty; any level that is not a dict
   * makes the generator fail.
   */
  lemma SocialSpec(siteConfig: Value, k: nat)
    requires k < 4
    ensures Social(siteConfig).Some? <==>
      siteConfig.Obj? &&
      Lookup(siteConfig.members, "social", Obj([])).Obj? &&
      Lookup(Lookup(siteConfig.members, "social", Obj([])).members, "platforms", Obj([])).Obj? &&
      forall j :: 0 <= j < 4 ==>
        Lookup(Lookup(Lookup(siteConfig.members, "social", Obj([])).members, "platforms", Obj([])).members,
               Platforms[j], Obj([])).Obj?
    ensures Social(siteConfig).Some? ==>
      var platforms := Lookup(Lookup(siteConfig.members, "social", Obj([])).members, "platforms", Obj([])).members;
      |Social(siteConfig).value| == 4 &&
      Social(siteConfig).value[k] == Member(Platforms[k], Lookup(Lookup(platforms, Platforms[k], Obj([])).members, "handle", Str("")))
  {
    match DictGet(siteConfig, "social", Obj([]))
    case None =>
    case Some(social) =>
      var handles := seq(4, j requires 0 <= j < 4 => Handle(social, Platforms[j]));
      forall j | 0 <= j < 4
        ensures handles[j].Some? <==>
          social.Obj? && Lookup(social.members, "platforms", Obj([])).Obj? &&
          Lookup(Lookup(social.members, "platforms", Obj([])).members, Platforms[j], Obj([])).Obj?
      {
      }
      if !(social.Obj? && Lookup(social.members, "platforms", Obj([])).Obj?) {
        assert handles[0].None?;
      }
  }

  /** A `site-config.json` without a `social` section gives four empty handles. */
  lemma NoSocialSection(members: seq<Member>)
    requires forall i :: 0 <= i < |members| ==> members[i].key != "social"
    ensures Social(Obj(members)) == Some([
      Member("twitter", Str("")), Member("linkedin", Str("")), Member("facebook", Str("")), Member("github", Str(""))])
  {
    LookupAbsent(members, "social", Obj([]));
    assert DictGet(Obj(members), "social", Obj([])) == Some(Obj([]));
    var handles := seq(4, j requires 0 <= j < 4 => Handle(Obj([]), Platforms[j]));
    forall j | 0 <= j < 4 ensures handles[j] == Some(Str("")) {
    }
    assert Social(Obj(members)) == Some(seq(4, j requires 0 <= j < 4 => Member(Platforms[j], handles[j].value)));
    var want := [Member("twitter", Str("")), Member("linkedin", Str("")), Member("facebook", Str("")), Member("github", Str(""))];
    assert seq(4, j requires 0 <= j < 4 => Member(Platforms[j], handles[j].value)) == want;
  }

  // ---------------------------------------------------------------------------
  // generate_site_config_js
  // ---------------------------------------------------------------------------

  /** The data `site-config.js` carries. */
  datatype SiteConfigJs = SiteConfigJs(
    siteName: Value, siteUrl: Value, description: Value, navigation: seq<NavEntry>, social: seq<Member>)

  /** No `site-config.json` (nothing written), a generated file, or a caught exception. */
  datatype JsOutcome = NoSiteConfig | Generated(js: SiteConfigJs) | Failed

  function SiteConfigJsOf(siteConfigFile: JsonFile, dbRows: Option<seq<Database.NavRow>>): JsOutcome {
    match siteConfigFile
    case Missing => NoSiteConfig
    case Unreadable(_) => Failed
    case Parsed(doc) =>
      var navigation := SiteNavigation(dbRows, doc);
      var social := Social(doc);
      var name := DictGet2(doc, "site", "name", Str("My Website"));
      var url := DictGet2(doc, "site", "url", Str(""));
      var description := DictGet2(doc, "site", "description", Str(""));
      if navigation.Some? && social.Some? && name.Some? && url.Some? && description.Some? then
        Generated(SiteConfigJs(name.value, url.value, description.value, navigation.value, social.value))
      else Failed
  }

  /**
   * `generate_site_config_js()`, with `site-config.json` and the database's rows (if it opened) passed in,
   * step by step; `SiteConfigJsOf` is its outcome.
   */
  method GenerateSiteConfigJs(siteConfigFile: JsonFile, dbRows: Option<seq<Database.NavRow>>) returns (out: JsOutcome)
    ensures out == SiteConfigJsOf(siteConfigFile, dbRows)
  {
    if siteConfigFile.Missing? {
      return NoSiteConfig;
    }
    if siteConfigFile.Unreadable? {
      return Failed;
    }
    var siteConfig := siteConfigFile.doc;
    var navigation: Option<seq<NavEntry>>;
    if dbRows.Some? {
      var items := Database.Listing(dbRows.value, true);
      if items != [] {
        var built := DbNavigation(items);
        assert built == DbEntries(items);
        navigation := Some(built);
      } else {
        navigation := BuildNavigationFromConfig(siteConfig);
      }
    } else {
      navigation := BuildNavigationFromConfig(siteConfig);
    }
    var social := Social(siteConfig);
    var name := DictGet2(siteConfig, "site", "name", Str("My Website"));
    var url := DictGet2(siteConfig, "site", "url", Str(""));
    var description := DictGet2(siteConfig, "site", "description", Str(""));
    if navigation.None? || social.None? || name.None? || url.None? || description.None? {
      return Failed;
    }
    return Generated(SiteConfigJs(name.value, url.value, description.value, navigation.value, social.value));
  }
}
