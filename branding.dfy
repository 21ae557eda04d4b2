/**
 * Branding in admin/file-api.py: where the branding document comes from
 * (`load_branding_config`, `get_config_value`), how it is converted for
 * `site-config.json` (`convert_branding_format`), and the shared stylesheet
 * `custom.css` built from it (`generate_custom_css`, `get_font_css`,
 * `get_border_radius`).
 *
 * Every `d.get(...)` on a value that is not a dict raises in Python; those
 * paths yield `None` here.
 */
module Branding {
  import opened Wrappers
  import opened Json
  import Text

  const DefaultPrimary := "#1b5fa3"
  const DefaultSecondary := "#144a84"
  const DefaultAccent := "#f9943b"

  // ---------------------------------------------------------------------------
  // Loading
  // ---------------------------------------------------------------------------

  /**
   * `get_config_value(key, default)`: the environment variable when set; else
   * the lower-cased key of `site-config.json`; else `default`. Any error while
   * reading the file, or a file that is not a dict, falls back to `default`.
   */
  function ConfigValue(env: map<string, string>, siteConfig: JsonFile, key: string, default: Value): Value {
    if key in env then Str(env[key])
    else if siteConfig.Parsed? && siteConfig.doc.Obj? then Lookup(siteConfig.doc.members, Text.Lower(key), default)
    else default
  }

  /** The document `load_branding_config` builds when there is no `branding-config.json`. */
  function DefaultBranding(env: map<string, string>, siteConfig: JsonFile): Value {
    DefaultBrandingWith(
      ConfigValue(env, siteConfig, "BRAND_PRIMARY_COLOR", Str(DefaultPrimary)),
      ConfigValue(env, siteConfig, "BRAND_SECONDARY_COLOR", Str(DefaultSecondary)),
      ConfigValue(env, siteConfig, "BRAND_ACCENT_COLOR", Str(DefaultAccent)),
      ConfigValue(env, siteConfig, "LOGO_PATH", Str("")))
  }

  /** The shape of that default document, for the four configured values. */
  function DefaultBrandingWith(primary: Value, secondary: Value, accent: Value, logoPath: Value): Value {
    Obj([
      Member("colors", Obj([
        Member("primary", primary),
        Member("secondary", secondary),
        Member("accent", accent)])),
      Member("typography", Obj([
        Member("fontFamily", Str("system")),
        Member("customFontUrl", Str("")),
        Member("borderRadius", Str("md"))])),
      Member("assets", Obj([
        Member("logoPath", logoPath),
        Member("logoAltText", Str("Company Logo")),
        Member("faviconPath", Str("/favicon.ico"))])),
      Member("customCSS", Str(""))])
  }

  /**
   * `load_branding_config`, the second definition in the file (the one Python
   * keeps): the parsed `branding-config.json` when it exists, `{'error': …}`
   * when reading it fails, the default document otherwise.
   */
  function LoadBrandingConfig(brandingFile: JsonFile, env: map<string, string>, siteConfig: JsonFile): Value {
    match brandingFile
    case Parsed(doc) => doc
    case Unreadable(e) => Obj([Member("error", Str(e))])
    case Missing => DefaultBranding(env, siteConfig)
  }

  /** The environment wins over `site-config.json`, which wins over the default. */
  lemma ConfigValueOrder(env: map<string, string>, siteConfig: JsonFile, key: string, default: Value)
    ensures key in env ==> ConfigValue(env, siteConfig, key, default) == Str(env[key])
    ensures key !in env && siteConfig.Parsed? && HasKey(siteConfig.doc, Text.Lower(key)) ==>
      exists i :: 0 <= i < |siteConfig.doc.members| && siteConfig.doc.members[i].key == Text.Lower(key) &&
        ConfigValue(env, siteConfig, key, default) == siteConfig.doc.members[i].val
    ensures key !in env && (siteConfig.Parsed? ==> !HasKey(siteConfig.doc, Text.Lower(key))) ==>
      ConfigValue(env, siteConfig, key, default) == default
  {
    if key !in env && siteConfig.Parsed? {
      DictGetSpec(siteConfig.doc, Text.Lower(key), default);
    }
  }

  /**
   * Whatever the environment says, the document `load_branding_config` returns
   * without a branding file keeps its colours under `colors`: a top-level
   * `primaryColor` lookup, as `generate_page` does, always finds the default.
   */
  lemma NoTopLevelColours(brandingFile: JsonFile, env: map<string, string>, siteConfig: JsonFile, key: string, d: Value)
    requires !brandingFile.Parsed?
    requires key in {"primaryColor", "secondaryColor", "accentColor", "font"}
    ensures DictGet(LoadBrandingConfig(brandingFile, env, siteConfig), key, d) == Some(d)
  {
    if brandingFile.Missing? {
      var p := ConfigValue(env, siteConfig, "BRAND_PRIMARY_COLOR", Str(DefaultPrimary));
      var s := ConfigValue(env, siteConfig, "BRAND_SECONDARY_COLOR", Str(DefaultSecondary));
      var a := ConfigValue(env, siteConfig, "BRAND_ACCENT_COLOR", Str(DefaultAccent));
      var l := ConfigValue(env, siteConfig, "LOGO_PATH", Str(""));
      DefaultBrandingKeys(p, s, a, l, key, d);
    } else {
      LookupAbsent([Member("error", Str(brandingFile.error))], key, d);
    }
  }

  /** The default document has only the four sections at its top level. */
  lemma DefaultBrandingKeys(primary: Value, secondary: Value, accent: Value, logoPath: Value, key: string, d: Value)
    requires key !in {"colors", "typography", "assets", "customCSS"}
    ensures DictGet(DefaultBrandingWith(primary, secondary, accent, logoPath), key, d) == Some(d)
  {
    LookupAbsent(DefaultBrandingWith(primary, secondary, accent, logoPath).members, key, d);
  }

  // ---------------------------------------------------------------------------
  // convert_branding_format
  // ---------------------------------------------------------------------------

  /** The six keys of the `branding` section of `site-config.json`, with their sources and defaults. */
  const ConvertedKeys: seq<(string, string, string, string)> := [
    ("primaryColor", "colors", "primary", DefaultPrimary),
    ("secondaryColor", "colors", "secondary", DefaultSecondary),
    ("accentColor", "colors", "accent", DefaultAccent),
    ("darkColor", "colors", "dark", "#1F2937"),
    ("lightColor", "colors", "light", "#F3F4F6"),
    ("font", "typography", "headingFont", "Inter")]

  /** `convert_branding_format(branding_data)` */
  function ConvertBrandingFormat(b: Value): Option<Value> {
    var colors := DictGet(b, "colors", Obj([]));
    var typography := DictGet(b, "typography", Obj([]));
    if colors.None? || !colors.value.Obj? || !typography.value.Obj? then None
    else
      var c, t := colors.value.members, typography.value.members;
      Some(Obj([
        Member("primaryColor", Lookup(c, "primary", Str(DefaultPrimary))),
        Member("secondaryColor", Lookup(c, "secondary", Str(DefaultSecondary))),
        Member("accentColor", Lookup(c, "accent", Str(DefaultAccent))),
        Member("darkColor", Lookup(c, "dark", Str("#1F2937"))),
        Member("lightColor", Lookup(c, "light", Str("#F3F4F6"))),
        Member("font", Lookup(t, "headingFont", Str("Inter")))]))
  }

  /**
   * The converted section has exactly the six keys, in order, and each holds
   * the two-level lookup `branding[section].get(field, default)`.
   */
  lemma ConvertBrandingSpec(b: Value)
    ensures ConvertBrandingFormat(b).Some? <==>
      b.Obj? && DictGet(b, "colors", Obj([])).value.Obj? && DictGet(b, "typography", Obj([])).value.Obj?
    ensures ConvertBrandingFormat(b).Some? ==>
      var r := ConvertBrandingFormat(b).value;
      r.Obj? && |r.members| == |ConvertedKeys| &&
      forall k :: 0 <= k < |ConvertedKeys| ==>
        r.members[k].key == ConvertedKeys[k].0 &&
        Some(r.members[k].val) == DictGet2(b, ConvertedKeys[k].1, ConvertedKeys[k].2, Str(ConvertedKeys[k].3))
  {
  }

  /** A branding document without colours or typography converts to the defaults. */
  lemma ConvertEmptyBranding()
    ensures ConvertBrandingFormat(Obj([])) == Some(Obj([
      Member("primaryColor", Str("#1b5fa3")), Member("secondaryColor", Str("#144a84")),
      Member("accentColor", Str("#f9943b")), Member("darkColor", Str("#1F2937")),
      Member("lightColor", Str("#F3F4F6")), Member("font", Str("Inter"))]))
  {
  }

  // ---------------------------------------------------------------------------
  // The stylesheet
  // ---------------------------------------------------------------------------

  /** The `radius_map` of `get_border_radius`. */
  const RadiusMap: map<string, string> :=
    map["none" := "0px", "sm" := "4px", "md" := "8px", "lg" := "12px", "xl" := "16px", "full" := "50%"]

  /**
   * `get_border_radius(setting)`: `radius_map.get(setting, '8px')`. A list or
   * dict is not hashable, so looking it up raises.
   */
  function BorderRadius(setting: Value): Option<string> {
    if setting.Arr? || setting.Obj? then None
    else if setting.Str? && setting.s in RadiusMap then Some(RadiusMap[setting.s])
    else Some("8px")
  }

  /** The six names map to their radii, anything else hashable to `8px`, and nothing else comes out. */
  lemma BorderRadiusSpec(setting: Value)
    ensures BorderRadius(setting).None? <==> setting.Arr? || setting.Obj?
    ensures BorderRadius(Str("none")) == Some("0px") && BorderRadius(Str("sm")) == Some("4px")
    ensures BorderRadius(Str("md")) == Some("8px") && BorderRadius(Str("lg")) == Some("12px")
    ensures BorderRadius(Str("xl")) == Some("16px") && BorderRadius(Str("full")) == Some("50%")
    ensures (setting.Str? ==> setting.s !in RadiusMap) && BorderRadius(setting).Some? ==>
      BorderRadius(setting) == Some("8px")
    ensures BorderRadius(setting).Some? ==>
      BorderRadius(setting).value in {"0px", "4px", "8px", "12px", "16px", "50%"}
  {
  }

  const SystemFontCss := "body { font-family: system-ui, -apple-system, sans-serif; }"

  /** The web fonts `get_font_css` knows, with the Google Fonts URL and the family name. */
  const WebFonts: seq<(string, string, string)> := [
    ("inter", "https://fonts.googleapis.com/css2?family=Inter:wght@300;400;500;600;700&display=swap", "Inter"),
    ("roboto", "https://fonts.googleapis.com/css2?family=Roboto:wght@300;400;500;700&display=swap", "Roboto"),
    ("opensans", "https://fonts.googleapis.com/css2?family=Open+Sans:wght@300;400;500;600;700&display=swap", "Open Sans"),
    ("lato", "https://fonts.googleapis.com/css2?family=Lato:wght@300;400;700&display=swap", "Lato"),
    ("montserrat", "https://fonts.googleapis.com/css2?family=Montserrat:wght@300;400;500;600;700&display=swap", "Montserrat")]

  function ImportedFont(url: string, family: string): string {
    "@import url('" + url + "');\nbody { font-family: '" + family + "', system-ui, sans-serif; }"
  }

  /** The first web font named `name`, if any. */
  function WebFont(name: Value, fonts: seq<(string, string, string)>): Option<(string, string, string)>
    decreases |fonts|
  {
    if fonts == [] then None
    else if name == Str(fonts[0].0) then Some(fonts[0])
    else WebFont(name, fonts[1..])
  }

  /**
   * `get_font_css(typography)`: a custom font when the family is `custom` and
   * a URL is set, one of the five web fonts by name, else the system stack.
   */
  function FontCss(typography: Value): Option<string> {
    if !typography.Obj? then None
    else
      var family := Lookup(typography.members, "fontFamily", Str("system"));
      var url := Lookup(typography.members, "customFontUrl", Str(""));
      if family == Str("custom") && Truthy(url) then Some(ImportedFont(PyStr(url), "Custom Font"))
      else match WebFont(family, WebFonts)
        case Some(f) => Some(ImportedFont(f.1, f.2))
        case None => Some(SystemFontCss)
  }

  /** A font name that is none of the known ones falls back to the system stack. */
  lemma {:induction false} WebFontAbsent(name: Value, fonts: seq<(string, string, string)>)
    requires forall k :: 0 <= k < |fonts| ==> name != Str(fonts[k].0)
    ensures WebFont(name, fonts) == None
    decreases |fonts|
  {
    if fonts != [] {
      WebFontAbsent(name, fonts[1..]);
    }
  }

  /** A known web font is found under its own name. */
  lemma {:induction false} WebFontFound(fonts: seq<(string, string, string)>, k: nat)
    requires k < |fonts|
    requires forall i, j :: 0 <= i < j < |fonts| ==> fonts[i].0 != fonts[j].0
    ensures WebFont(Str(fonts[k].0), fonts) == Some(fonts[k])
    decreases k
  {
    if k > 0 {
      assert fonts[0].0 != fonts[k].0;
      WebFontFound(fonts[1..], k - 1);
    }
  }

  /**
   * The custom font needs both the `custom` family and a URL; each of the five
   * names selects its own web font; any other name gives the system stack.
   */
  lemma FontCssSpec(typography: Value)
    requires typography.Obj?
    ensures var family := Lookup(typography.members, "fontFamily", Str("system"));
      var url := Lookup(typography.members, "customFontUrl", Str(""));
      (family == Str("custom") && Truthy(url) ==> FontCss(typography) == Some(ImportedFont(PyStr(url), "Custom Font"))) &&
      (forall k :: 0 <= k < |WebFonts| && family == Str(WebFonts[k].0) ==>
        FontCss(typography) == Some(ImportedFont(WebFonts[k].1, WebFonts[k].2))) &&
      ((forall k :: 0 <= k < |WebFonts| ==> family != Str(WebFonts[k].0)) && !(family == Str("custom") && Truthy(url)) ==>
        FontCss(typography) == Some(SystemFontCss))
  {
    var family := Lookup(typography.members, "fontFamily", Str("system"));
    forall k | 0 <= k < |WebFonts| && family == Str(WebFonts[k].0)
      ensures WebFont(family, WebFonts) == Some(WebFonts[k])
    {
      WebFontFound(WebFonts, k);
    }
    if forall k :: 0 <= k < |WebFonts| ==> family != Str(WebFonts[k].0) {
      WebFontAbsent(family, WebFonts);
    }
  }

  /** The part of `custom.css` after the two button rules' shared radius, up to the user's CSS. */
  const CssTail :=
    ".btn-brand-outline:hover {\n    background-color: var(--brand-primary);\n    color: white;\n}\n\n" +
    "/* Navigation enhancements */\n.nav-link {\n    color: #374151;\n    transition: color 0.2s;\n}\n\n" +
    ".nav-link:hover {\n    color: var(--brand-primary);\n}\n\n" +
    ".nav-link.active {\n    color: var(--brand-primary);\n}\n\n" +
    "/* Card hover effects */\n.card-hover {\n    transition: transform 0.3s ease, box-shadow 0.3s ease;\n}\n\n" +
    ".card-hover:hover {\n    transform: translateY(-4px);\n    box-shadow: 0 20px 40px rgba(0,0,0,0.1);\n}\n\n" +
    "/* Custom CSS from user */\n"

  /** The `:root` block with the three brand colours. */
  function CssRoot(primary: string, secondary: string, accent: string): string {
    "/* ForgeWeb Custom Styles - Auto-generated */\n:root {\n    /* Brand colors */\n" +
    "    --brand-primary: " + primary + ";\n" +
    "    --brand-secondary: " + secondary + ";\n" +
    "    --brand-accent: " + accent + ";\n" +
    "    \n    /* Additional brand variables */\n    --brand-text: #1f2937;\n    --brand-bg: #f9fafb;\n" +
    "    --brand-border: #e5e7eb;\n}\n\n/* Typography */\n"
  }

  /** The two button rules, both with the same radius. */
  function CssButtons(radius: string): string {
    "\n\n/* Custom button styles */\n.btn-brand {\n    background-color: var(--brand-primary);\n    color: white;\n" +
    "    padding: 0.75rem 1.5rem;\n    border-radius: " + radius + ";\n    font-weight: 500;\n" +
    "    transition: background-color 0.2s;\n}\n\n.btn-brand:hover {\n    background-color: var(--brand-secondary);\n}\n\n" +
    ".btn-brand-outline {\n    border: 2px solid var(--brand-primary);\n    color: var(--brand-primary);\n" +
    "    padding: 0.75rem 1.5rem;\n    border-radius: " + radius + ";\n    font-weight: 500;\n" +
    "    background: transparent;\n    transition: all 0.2s;\n}\n\n"
  }

  /** The values `generate_custom_css` looks up before filling in the stylesheet. */
  datatype CssInputs = CssInputs(primary: string, secondary: string, accent: string, font: string, radius: string, custom: string)

  /** Everything in `custom.css` before the user's own CSS. */
  function CssHead(v: CssInputs): string {
    CssRoot(v.primary, v.secondary, v.accent) + v.font + CssButtons(v.radius) + CssTail
  }

  /** The stylesheet text for the looked-up values: the user's CSS comes last, then a newline. */
  function CssText(v: CssInputs): string {
    CssHead(v) + (v.custom + "\n")
  }

  /**
   * The lookups of `generate_custom_css(branding_data)`: each colour under
   * `colors` with its default and rendered by an f-string, the font rules, the
   * radius of `typography.borderRadius`, and the top-level `customCSS`.
   */
  function CssInputsOf(b: Value): Option<CssInputs> {
    var colors := DictGet(b, "colors", Obj([]));
    var typography := DictGet(b, "typography", Obj([]));
    if colors.None? || !colors.value.Obj? || !typography.value.Obj? then None
    else
      var c, t := colors.value.members, typography.value.members;
      var font := FontCss(typography.value);
      var radius := BorderRadius(Lookup(t, "borderRadius", Str("md")));
      if radius.None? then None
      else
        Some(CssInputs(
          PyStr(Lookup(c, "primary", Str(DefaultPrimary))),
          PyStr(Lookup(c, "secondary", Str(DefaultSecondary))),
          PyStr(Lookup(c, "accent", Str(DefaultAccent))),
          font.value, radius.value,
          PyStr(Lookup(b.members, "customCSS", Str("")))))
  }

  /** `generate_custom_css(branding_data)` */
  function CustomCss(b: Value): Option<string> {
    match CssInputsOf(b)
    case None => None
    case Some(v) => Some(CssText(v))
  }

  /**
   * The stylesheet is built exactly when the document, its colours and its
   * typography are dicts and the radius setting is hashable; each value is the
   * corresponding lookup with its default.
   */
  lemma CssInputsSpec(b: Value)
    ensures CssInputsOf(b).Some? <==>
      b.Obj? && DictGet(b, "colors", Obj([])).value.Obj? && DictGet(b, "typography", Obj([])).value.Obj? &&
      BorderRadius(DictGet2(b, "typography", "borderRadius", Str("md")).value).Some?
    ensures CssInputsOf(b).Some? ==>
      var v := CssInputsOf(b).value;
      v.primary == PyStr(DictGet2(b, "colors", "primary", Str(DefaultPrimary)).value) &&
      v.secondary == PyStr(DictGet2(b, "colors", "secondary", Str(DefaultSecondary)).value) &&
      v.accent == PyStr(DictGet2(b, "colors", "accent", Str(DefaultAccent)).value) &&
      Some(v.font) == FontCss(DictGet(b, "typography", Obj([])).value) &&
      Some(v.radius) == BorderRadius(DictGet2(b, "typography", "borderRadius", Str("md")).value) &&
      v.custom == PyStr(DictGet(b, "customCSS", Str("")).value)
  {
  }
  /**
   * Whether `generate_custom_css` gets through its lookups: the document,
   * its colours and its typography are dicts and the radius setting is not a
   * list or a dict.
   */
  predicate CssBuildable(b: Value) {
    b.Obj? && DictGet(b, "colors", Obj([])).value.Obj? && DictGet(b, "typography", Obj([])).value.Obj? &&
    var radius := DictGet2(b, "typography", "borderRadius", Str("md")).value;
    !radius.Arr? && !radius.Obj?
  }

  /** The stylesheet generator raises exactly when the document is not buildable. */
  lemma CustomCssBuildable(b: Value)
    ensures CustomCss(b).Some? <==> CssBuildable(b)
  {
    assert CssInputsOf(b).Some? <==> CssBuildable(b) by {
      CssInputsSpec(b);
    }
  }


  /** The user's CSS closes the stylesheet, followed by one newline. */
  lemma CssTextEnds(v: CssInputs)
    ensures Text.EndsWith(CssText(v), v.custom + "\n")
  {
    Text.EndsWithAppend(CssHead(v), v.custom + "\n");
  }

  /** A branding document with no colours, typography or custom CSS gives the default stylesheet. */
  lemma CustomCssDefaults()
    ensures CssInputsOf(Obj([])) == Some(CssInputs("#1b5fa3", "#144a84", "#f9943b", SystemFontCss, "8px", ""))
  {
    assert FontCss(Obj([])) == Some(SystemFontCss) by {
      WebFontAbsent(Str("system"), WebFonts);
    }
    assert BorderRadius(Str("md")) == Some("8px");
  }

  /** The default document `load_branding_config` builds gives the stylesheet of its configured colours. */
  lemma DefaultBrandingCss(primary: Value, secondary: Value, accent: Value, logoPath: Value)
    ensures CssInputsOf(DefaultBrandingWith(primary, secondary, accent, logoPath)) ==
      Some(CssInputs(PyStr(primary), PyStr(secondary), PyStr(accent), SystemFontCss, "8px", ""))
  {
    var b := DefaultBrandingWith(primary, secondary, accent, logoPath);
    DefaultColours(primary, secondary, accent, logoPath);
    DefaultTypography(primary, secondary, accent, logoPath);
    LookupLast(b.members, "customCSS", Str(""), 3);
    CssInputsSpec(b);
  }

  lemma DefaultColours(primary: Value, secondary: Value, accent: Value, logoPath: Value)
    ensures var b := DefaultBrandingWith(primary, secondary, accent, logoPath);
      DictGet2(b, "colors", "primary", Str(DefaultPrimary)) == Some(primary) &&
      DictGet2(b, "colors", "secondary", Str(DefaultSecondary)) == Some(secondary) &&
      DictGet2(b, "colors", "accent", Str(DefaultAccent)) == Some(accent)
  {
    var b := DefaultBrandingWith(primary, secondary, accent, logoPath);
    LookupLast(b.members, "colors", Obj([]), 0);
    var c := b.members[0].val.members;
    LookupLast(c, "primary", Str(DefaultPrimary), 0);
    LookupLast(c, "secondary", Str(DefaultSecondary), 1);
    LookupLast(c, "accent", Str(DefaultAccent), 2);
  }

  lemma DefaultTypography(primary: Value, secondary: Value, accent: Value, logoPath: Value)
    ensures var b := DefaultBrandingWith(primary, secondary, accent, logoPath);
      DictGet(b, "typography", Obj([])) == Some(b.members[1].val) &&
      FontCss(b.members[1].val) == Some(SystemFontCss) &&
      DictGet2(b, "typography", "borderRadius", Str("md")) == Some(Str("md"))
  {
    var b := DefaultBrandingWith(primary, secondary, accent, logoPath);
    LookupLast(b.members, "typography", Obj([]), 1);
    var t := b.members[1].val.members;
    LookupLast(t, "fontFamily", Str("system"), 0);
    LookupLast(t, "customFontUrl", Str(""), 1);
    LookupLast(t, "borderRadius", Str("md"), 2);
    WebFontAbsent(Str("system"), WebFonts);
  }
}
