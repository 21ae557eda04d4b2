/**
 * regenerate-index.py: the standalone script that rebuilds `index.html` from
 * `site-config.json`, `branding-config.json` and `templates/base.html`. The
 * loaded files, the script's fixed home-page markup and the current year are
 * parameters; `None` is any exception that stops the script before it
 * writes.
 */
module RegenerateIndex {
  import opened Wrappers
  import opened Json
  import opened Text
  import opened Template
  import Branding
  import Pages

  // ---------------------------------------------------------------------------
  // branding source
  // ---------------------------------------------------------------------------

  /**
   * The `branding` dict: built from the colours and heading font of
   * `branding-config.json` when that file exists, otherwise
   * `site_config.get('branding', {})`.
   */
  function IndexBranding(brandingFile: JsonFile, siteConfig: Value): Option<Value> {
    match brandingFile
    case Missing => DictGet(siteConfig, "branding", Obj([]))
    case Unreadable(_) => None
    case Parsed(bc) =>
      var primary := DictGet2(bc, "colors", "primary", Str(Branding.DefaultPrimary));
      var secondary := DictGet2(bc, "colors", "secondary", Str(Branding.DefaultSecondary));
      var accent := DictGet2(bc, "colors", "accent", Str(Branding.DefaultAccent));
      var font := DictGet2(bc, "typography", "headingFont", Str("Inter"));
      if primary.Some? && secondary.Some? && accent.Some? && font.Some? then
        Some(Obj([Member("primaryColor", primary.value), Member("secondaryColor", secondary.value),
                  Member("accentColor", accent.value), Member("font", font.value)]))
      else None
  }

  /**
   * From a branding file, the script reads the same four values the admin
   * server's `convert_branding_format` writes into `site-config.json`, and
   * fails on the same documents.
   */
  lemma IndexBrandingMatchesConvert(bc: Value, siteConfig: Value)
    ensures IndexBranding(Parsed(bc), siteConfig).Some? <==> Branding.ConvertBrandingFormat(bc).Some?
    ensures IndexBranding(Parsed(bc), siteConfig).Some? ==>
      var m := Branding.ConvertBrandingFormat(bc).value.members;
      IndexBranding(Parsed(bc), siteConfig).value.members == [m[0], m[1], m[2], m[5]]
  {
  }

  // ---------------------------------------------------------------------------
  // navigation and footer links
  // ---------------------------------------------------------------------------

  const NavLinkClass := "text-gray-700 hover:text-primary px-3 py-2 rounded-md text-sm font-medium"

  /** The header link for one page, in the script's fixed style. */
  function IndexLink(href: string, caption: string): string {
    "<a href=\"" + href + "\" class=\"" + NavLinkClass + "\">" +
    caption + "</a>"
  }

  /** The flags the script tests, in its order, with the link each adds. */
  const IndexNavEntries: seq<(string, string)> := [
    ("include_about", IndexLink("about.html", "About")),
    ("include_services", IndexLink("services.html", "Services")),
    ("include_blog", IndexLink("blog.html", "Blog")),
    ("include_contact", IndexLink("contact.html", "Contact"))]

  /** A newline and the indentation of the header and footer link rows. */
  const IndexSeparator := "\n                        "
  /** A newline and the indentation of the mobile menu. */
  const MobileSeparator := "\n                "

  /** The conditional appends to `nav_links`. */
  method BuildNavLinks(content: seq<Member>) returns (links: seq<string>)
    ensures links == Chosen(IndexNavEntries, content)
  {
    var e := IndexNavEntries;
    var flags := content;
    links := [];
    assert e[..0] == [];
    links := AppendIfSet(links, e, flags, 0);  // include_about
    links := AppendIfSet(links, e, flags, 1);  // include_services
    links := AppendIfSet(links, e, flags, 2);  // include_blog
    links := AppendIfSet(links, e, flags, 3);  // include_contact
    assert e[..4] == e;
  }

  /** The four links differ in the first letter of their target. */
  lemma IndexLinksDistinct(m: nat, k: nat)
    requires m < |IndexNavEntries| && k < |IndexNavEntries|
    requires IndexNavEntries[m].1 == IndexNavEntries[k].1
    ensures m == k
  {
    var e := IndexNavEntries;
    assert e[m].1[9] == e[k].1[9];
  }

  /** A link is in `nav_links` exactly when its flag is set; there are at most four. */
  lemma IndexNavLinksChosen(content: seq<Member>, k: nat)
    requires k < |IndexNavEntries|
    ensures IndexNavEntries[k].1 in Chosen(IndexNavEntries, content) <==> Flag(content, IndexNavEntries[k].0)
    ensures |Chosen(IndexNavEntries, content)| <= 4
  {
    if Flag(content, IndexNavEntries[k].0) {
      ChosenIncludes(IndexNavEntries, content, k);
    }
    ChosenOnly(IndexNavEntries, content);
    if IndexNavEntries[k].1 in Chosen(IndexNavEntries, content) {
      var m :| 0 <= m < |IndexNavEntries| && IndexNavEntries[m].1 == IndexNavEntries[k].1 &&
        Flag(content, IndexNavEntries[m].0);
      IndexLinksDistinct(m, k);
    }
  }

  /** `{{MOBILE_NAV_LINKS}}`: each link passed through `.replace('text-gray-700', 'text-gray-700')`. */
  function MobileNavLinks(links: seq<string>): string {
    Join(seq(|links|, i requires 0 <= i < |links| => ReplaceAll(links[i], "text-gray-700", "text-gray-700")), MobileSeparator)
  }

  /** The replacement is the identity, so the mobile menu holds the header's links; only the separator differs. */
  lemma MobileNavLinksSame(links: seq<string>)
    ensures MobileNavLinks(links) == Join(links, MobileSeparator)
  {
    var replaced := seq(|links|, i requires 0 <= i < |links| => ReplaceAll(links[i], "text-gray-700", "text-gray-700"));
    forall i | 0 <= i < |links| ensures replaced[i] == links[i] {
      ReplaceSelf(links[i], "text-gray-700");
    }
    assert replaced == links;
  }

  const FooterHome := "<li><a href=\"index.html\" class=\"hover:text-accent\">Home</a></li>"
  const FooterAbout := "<li><a href=\"about.html\" class=\"hover:text-accent\">About</a></li>"
  const FooterContact := "<li><a href=\"contact.html\" class=\"hover:text-accent\">Contact</a></li>"

  /** `{{FOOTER_LINKS}}`: always three entries, an excluded page giving an empty one. */
  function FooterLinks(content: seq<Member>): string {
    Join([FooterHome,
          if Flag(content, "include_about") then FooterAbout else "",
          if Flag(content, "include_contact") then FooterContact else ""], IndexSeparator)
  }

  /** Home comes first and the two separators are there whichever pages are excluded. */
  lemma FooterShape(content: seq<Member>)
    ensures FooterLinks(content) ==
      FooterHome + IndexSeparator + (if Flag(content, "include_about") then FooterAbout else "") +
      IndexSeparator + (if Flag(content, "include_contact") then FooterContact else "")
    ensures StartsWith(FooterLinks(content), FooterHome)
  {
    var a := if Flag(content, "include_about") then FooterAbout else "";
    var c := if Flag(content, "include_contact") then FooterContact else "";
    FooterParts(FooterHome, a, c, IndexSeparator);
  }

  lemma FooterParts(h: string, a: string, c: string, sep: string)
    ensures Join([h, a, c], sep) == h + sep + a + sep + c
    ensures StartsWith(Join([h, a, c], sep), h)
  {
    JoinThree(h, a, c, sep);
    assert h + sep + a + sep + c == h + (sep + a + sep + c);
    StartsWithAppend(h, sep + a + sep + c);
  }

  // ---------------------------------------------------------------------------
  // the replacements dict and index.html
  // ---------------------------------------------------------------------------

  /** The keys of `replacements`, in insertion order, without their braces. */
  const IndexNames: seq<string> := [
    "SITE_NAME", "SITE_DESCRIPTION", "SITE_AUTHOR", "SITE_URL",
    "BRAND_PRIMARY_COLOR", "BRAND_SECONDARY_COLOR", "BRAND_ACCENT_COLOR", "TAILWIND_CDN_URL",
    "NAV_LINKS", "MOBILE_NAV_LINKS", "MAIN_CONTENT", "FOOTER_LINKS",
    "CURRENT_YEAR", "GITHUB_REPO", "CTA_BUTTONS"]

  const CtaButtons :=
    "<a href=\"about.html\" class=\"inline-block bg-white text-primary font-bold py-3 px-8 rounded-lg hover:bg-opacity-90 transition-all\">Learn More</a>\n" +
    "                    <a href=\"contact.html\" class=\"inline-block border-2 border-white text-white font-bold py-3 px-8 rounded-lg hover:bg-white hover:text-primary transition-all\">Contact Us</a>"

  /**
   * The values of `replacements`, or `None` where a `.get` meets something
   * that is not a dict.
   */
  function IndexValues(siteConfig: Value, branding: Value, navLinks: string, mobileNavLinks: string, footer: string,
                       homeContent: string, year: nat): (r: Option<seq<Value>>)
    ensures r.Some? ==> |r.value| == |IndexNames| && r.value[10] == Str(homeContent)
  {
    var name := DictGet2(siteConfig, "site", "name", Str("My Website"));
    var description := DictGet2(siteConfig, "site", "description", Str("A website built with ForgeWeb"));
    var author := DictGet2(siteConfig, "site", "author", Str("Website Owner"));
    var url := DictGet2(siteConfig, "site", "url", Str("https://example.com"));
    var primary := DictGet(branding, "primaryColor", Str(Branding.DefaultPrimary));
    var secondary := DictGet(branding, "secondaryColor", Str(Branding.DefaultSecondary));
    var accent := DictGet(branding, "accentColor", Str(Branding.DefaultAccent));
    if name.None? || description.None? || author.None? || url.None? ||
       primary.None? || secondary.None? || accent.None? then None
    else
      Some([name.value, description.value, author.value, url.value,
            primary.value, secondary.value, accent.value, Str("https://cdn.tailwindcss.com"),
            Str(navLinks), Str(mobileNavLinks), Str(homeContent), Str(footer),
            Str(NatText(year)), Str("startupinaday"), Str(CtaButtons)])
  }

  /**
   * The text written to `index.html`: the sequential replacement over the
   * template, then every `{{#LOGO_PATH}}…{{/LOGO_PATH}}` block removed.
   */
  function IndexHtml(siteConfigFile: JsonFile, brandingFile: JsonFile, template: string,
                     homeContent: string, year: nat): Option<string>
  {
    match siteConfigFile
    case Parsed(siteConfig) =>
      (match IndexBranding(brandingFile, siteConfig)
       case None => None
       case Some(branding) => PageFor(siteConfig, branding, template, homeContent, year))
    case _ => None
  }

  /** The page once the branding dict is known: nav and footer links from `content`, then the replacements. */
  function PageFor(siteConfig: Value, branding: Value, template: string, homeContent: string, year: nat): Option<string> {
    match DictGet(siteConfig, "content", Obj([]))
    case Some(Obj(content)) =>
      var links := Chosen(IndexNavEntries, content);
      (match IndexValues(siteConfig, branding, Join(links, IndexSeparator), MobileNavLinks(links), FooterLinks(content), homeContent, year)
       case None => None
       case Some(vals) => FilledTemplate(template, vals))
    case _ => None
  }

  /** The substituted template with the logo blocks removed. */
  function FilledTemplate(template: string, vals: seq<Value>): Option<string>
    requires |vals| == |IndexNames|
  {
    match Substituted(template, Dict(IndexNames, vals))
    case None => None
    case Some(page) => Some(RemoveBlocks(page, Pages.LogoOpen, Pages.LogoClose))
  }

  /**
   * Unlike the admin server's page generator, the script removes the logo
   * block whatever the site's logo path is: a block in the substituted page
   * goes with its markers.
   */
  lemma LogoBlockAlwaysRemoved(template: string, vals: seq<Value>, a: string, b: string, c: string)
    requires |vals| == |IndexNames| && NoOpenBrace(a) && NoOpenBrace(b)
    requires Substituted(template, Dict(IndexNames, vals)) == Some(a + Pages.LogoOpen + b + Pages.LogoClose + c)
    ensures FilledTemplate(template, vals) == Some(a + RemoveBlocks(c, Pages.LogoOpen, Pages.LogoClose))
  {
    Pages.LogoMarkers();
    MarkerBrace(Pages.LogoOpen);
    MarkerBrace(Pages.LogoClose);
    RemoveFirstBlock(a, b, c, Pages.LogoOpen, Pages.LogoClose);
  }

  /** The script, from the loaded files to the text it writes, step by step; `IndexHtml` is that text. */
  method Regenerate(siteConfigFile: JsonFile, brandingFile: JsonFile, template: string,
                    homeContent: string, year: nat) returns (html: Option<string>)
    ensures html == IndexHtml(siteConfigFile, brandingFile, template, homeContent, year)
  {
    if !siteConfigFile.Parsed? {
      return None;
    }
    var siteConfig := siteConfigFile.doc;
    var branding := IndexBranding(brandingFile, siteConfig);
    if branding.None? {
      return None;
    }
    html := FillPage(siteConfig, branding.value, template, homeContent, year);
  }

  /** The links, footer and replace loop of the script, step by step; `PageFor` is the page they give. */
  method FillPage(siteConfig: Value, branding: Value, template: string, homeContent: string, year: nat)
    returns (html: Option<string>)
    ensures html == PageFor(siteConfig, branding, template, homeContent, year)
  {
    var content := DictGet(siteConfig, "content", Obj([]));
    if content.None? || !content.value.Obj? {
      return None;
    }
    var navLinks := BuildNavLinks(content.value.members);
    var replacements := IndexValues(siteConfig, branding, Join(navLinks, IndexSeparator), MobileNavLinks(navLinks),
                                    FooterLinks(content.value.members), homeContent, year);
    if replacements.None? {
      return None;
    }
    html := FillTemplate(template, replacements.value);
  }

  /** The replace loop over the template, then the `re.sub` that drops the logo blocks; `FilledTemplate` is the result. */
  method FillTemplate(template: string, vals: seq<Value>) returns (html: Option<string>)
    requires |vals| == |IndexNames|
    ensures html == FilledTemplate(template, vals)
  {
    var page := Substitute(template, Dict(IndexNames, vals));
    if page.None? {
      return None;
    }
    return Some(RemoveBlocks(page.value, Pages.LogoOpen, Pages.LogoClose));
  }

  /** Where `SITE_URL`, `MAIN_CONTENT` and `CURRENT_YEAR` sit in the dict; the names are distinct and brace-free. */
  lemma IndexNamesOrder()
    ensures |IndexNames| == 15
    ensures IndexNames[3] == "SITE_URL" && IndexNames[10] == "MAIN_CONTENT" && IndexNames[12] == "CURRENT_YEAR"
    ensures forall k :: 0 <= k < 15 ==> NoBraces(IndexNames[k])
    ensures forall k, m :: 0 <= k < m < 15 ==> IndexNames[k] != IndexNames[m]
  {
    FirstNamesNoBraces();
    MiddleNamesNoBraces();
    LastNamesNoBraces();
  }

  lemma FirstNamesNoBraces()
    ensures forall k :: 0 <= k < 5 ==> NoBraces(IndexNames[k])
  {
  }

  lemma MiddleNamesNoBraces()
    ensures forall k :: 5 <= k < 10 ==> NoBraces(IndexNames[k])
  {
  }

  lemma LastNamesNoBraces()
    ensures forall k :: 10 <= k < 15 ==> NoBraces(IndexNames[k])
  {
  }

  /**
   * The home content is substituted before the year, so a `{{CURRENT_YEAR}}`
   * in it comes out as the year.
   */
  lemma MainContentExpandsYear(vals: seq<Value>)
    requires |vals| == |IndexNames| && AllStr(vals)
    requires vals[10] == Str("{{CURRENT_YEAR}}") && NoOpenBrace(vals[12].s)
    ensures Substituted("{{MAIN_CONTENT}}", Dict(IndexNames, vals)) == Some(vals[12].s)
  {
    IndexNamesOrder();
    assert Placeholder(IndexNames[10]) == "{{MAIN_CONTENT}}" && Placeholder(IndexNames[12]) == "{{CURRENT_YEAR}}";
    LaterPlaceholderExpanded(IndexNames, vals, 10, 12);
  }

  /**
   * The site URL is substituted before the home content, so a `{{SITE_URL}}`
   * in it is left in the page as it is.
   */
  lemma MainContentKeepsSiteUrl(vals: seq<Value>)
    requires |vals| == |IndexNames| && AllStr(vals)
    requires vals[10] == Str("{{SITE_URL}}")
    ensures Substituted("{{MAIN_CONTENT}}", Dict(IndexNames, vals)) == Some("{{SITE_URL}}")
  {
    var t := Dict(IndexNames, vals);
    IndexNamesOrder();
    assert Placeholder(IndexNames[10]) == "{{MAIN_CONTENT}}" && Placeholder(IndexNames[3]) == "{{SITE_URL}}";
    UpToValue(IndexNames, vals, 10);
    OtherPlaceholdersAbsent(IndexNames, vals, 3, 11, 15);
    SubstitutedSkip("{{SITE_URL}}", t, 11, 15);
  }

  /** A template without `{` comes out of the script unchanged. */
  lemma BraceFreeTemplateUnchanged(siteConfigFile: JsonFile, brandingFile: JsonFile, template: string,
                                   homeContent: string, year: nat)
    requires NoOpenBrace(template)
    ensures IndexHtml(siteConfigFile, brandingFile, template, homeContent, year).Some? ==>
      IndexHtml(siteConfigFile, brandingFile, template, homeContent, year) == Some(template)
  {
    var r := IndexHtml(siteConfigFile, brandingFile, template, homeContent, year);
    if r.Some? {
      var siteConfig := siteConfigFile.doc;
      var branding := IndexBranding(brandingFile, siteConfig).value;
      var content := DictGet(siteConfig, "content", Obj([])).value.members;
      var links := Chosen(IndexNavEntries, content);
      var vals := IndexValues(siteConfig, branding, Join(links, IndexSeparator), MobileNavLinks(links), FooterLinks(content), homeContent, year).value;
      assert r == FilledTemplate(template, vals);
      FilledBraceFree(template, vals);
    }
  }

  lemma FilledBraceFree(template: string, vals: seq<Value>)
    requires NoOpenBrace(template) && |vals| == |IndexNames|
    ensures FilledTemplate(template, vals).Some? ==> FilledTemplate(template, vals) == Some(template)
  {
    var t := Dict(IndexNames, vals);
    if Substituted(template, t).Some? {
      assert AllStr(vals) by { SubstitutedSpec(template, IndexNames, vals); }
      forall k | 0 <= k < |t| ensures t[k].1.Str? && StartsWith(t[k].0, "{") {
        assert t[k].0[..1] == "{";
      }
      BraceFreeValueKept(template, t, 0);
      assert t[0..] == t;
      Pages.LogoMarkers();
      MarkerBrace(Pages.LogoOpen);
      NoPlaceholderWithoutBrace(template, Pages.LogoOpen);
      RemoveBlocksAbsent(template, Pages.LogoOpen, Pages.LogoClose);
    }
  }
}
