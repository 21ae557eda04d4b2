/**
 * The request handlers of admin/file-api.py that change configuration, and
 * which generated file each of them rewrites. The server object holds the
 * database (null when it could not be opened), the two JSON files under
 * `admin/` and the two generated assets under `website/assets/`, with a
 * count of how often each asset has been written.
 */
module Handlers {
  import opened Wrappers
  import opened Json
  import opened Text
  import Database
  import Branding
  import SiteConfig

  /** The HTTP answer: success, success with a new id, or an error status. */
  datatype Response = Ok | Created(id: nat) | Error(status: nat)

  /** The asset after a `generate_site_config_js()` call: only a generated outcome is written. */
  function JsAfter(outcome: SiteConfig.JsOutcome, before: Option<SiteConfig.SiteConfigJs>): Option<SiteConfig.SiteConfigJs> {
    if outcome.Generated? then Some(outcome.js) else before
  }

  /**
   * `site_config['branding'] = convert_branding_format(branding_data)` on the
   * file as it stands: an absent file is left absent, and `None` is the
   * exception raised by an unreadable file, a failed conversion or a
   * document that is not a dict.
   */
  function BrandingIntoSiteConfig(siteConfigFile: JsonFile, brandingData: Value): Option<JsonFile> {
    match siteConfigFile
    case Missing => Some(Missing)
    case Unreadable(_) => None
    case Parsed(doc) =>
      match Branding.ConvertBrandingFormat(brandingData)
      case None => None
      case Some(converted) =>
        if doc.Obj? then Some(Parsed(Obj(Put(doc.members, "branding", converted)))) else None
  }

  /** `site_config['social'] = accounts_data`, starting from `{}` when the file is absent. */
  function SocialIntoSiteConfig(siteConfigFile: JsonFile, accounts: Value): Option<JsonFile> {
    match siteConfigFile
    case Missing => Some(Parsed(Obj([Member("social", accounts)])))
    case Unreadable(_) => None
    case Parsed(doc) => if doc.Obj? then Some(Parsed(Obj(Put(doc.members, "social", accounts)))) else None
  }

  /** The social section written to `site-config.json` reads back as the accounts sent. */
  lemma SocialSaved(siteConfigFile: JsonFile, accounts: Value)
    ensures SocialIntoSiteConfig(siteConfigFile, accounts).Some? <==>
      siteConfigFile.Missing? || (siteConfigFile.Parsed? && siteConfigFile.doc.Obj?)
    ensures SocialIntoSiteConfig(siteConfigFile, accounts).Some? ==>
      var f := SocialIntoSiteConfig(siteConfigFile, accounts).value;
      f.Parsed? && f.doc.Obj? && Lookup(f.doc.members, "social", Obj([])) == accounts &&
      (siteConfigFile.Parsed? ==>
        forall k :: k != "social" ==> Lookup(f.doc.members, k, Null) == Lookup(siteConfigFile.doc.members, k, Null))
  {
    if siteConfigFile.Parsed? && siteConfigFile.doc.Obj? {
      PutSpec(siteConfigFile.doc.members, "social", accounts);
    }
  }

  /** The branding section written to `site-config.json` is the converted document; nothing else changes. */
  lemma BrandingSaved(siteConfigFile: JsonFile, brandingData: Value)
    requires siteConfigFile.Parsed? && siteConfigFile.doc.Obj?
    ensures BrandingIntoSiteConfig(siteConfigFile, brandingData).Some? <==>
      Branding.ConvertBrandingFormat(brandingData).Some?
    ensures BrandingIntoSiteConfig(siteConfigFile, brandingData).Some? ==>
      var f := BrandingIntoSiteConfig(siteConfigFile, brandingData).value;
      f.Parsed? && f.doc.Obj? &&
      Lookup(f.doc.members, "branding", Null) == Branding.ConvertBrandingFormat(brandingData).value &&
      forall k :: k != "branding" ==> Lookup(f.doc.members, k, Null) == Lookup(siteConfigFile.doc.members, k, Null)
  {
    var converted := Branding.ConvertBrandingFormat(brandingData);
    if converted.Some? {
      PutSpec(siteConfigFile.doc.members, "branding", converted.value);
    }
  }

  class Server {
    /** The module-level `db`, or null when `ForgeWebDB()` failed. */
    var db: Database.ForgeWebDB?
    /** admin/branding-config.json */
    var brandingFile: JsonFile
    /** admin/site-config.json */
    var siteConfigFile: JsonFile
    /**
     * website/assets/css/custom.css, absent until first written, held as the
     * branding document it was generated from: its text is
     * `Branding.CustomCss` of that document.
     */
    var cssSource: Option<Value>
    /** website/assets/js/site-config.js, absent until first written */
    var siteConfigJs: Option<SiteConfig.SiteConfigJs>
    var cssWrites: nat
    var jsWrites: nat

    predicate Valid()
      reads this, db
    {
      db != null ==> db.Valid()
    }

    /** The rows `db.get_navigation_items` reads, when there is a database. */
    function DbRows(): Option<seq<Database.NavRow>>
      reads this, db
    {
      if db == null then None else Some(db.navigation)
    }

    constructor (db: Database.ForgeWebDB?, brandingFile: JsonFile, siteConfigFile: JsonFile)
      requires db != null ==> db.Valid()
      ensures Valid()
      ensures this.db == db && this.brandingFile == brandingFile && this.siteConfigFile == siteConfigFile
      ensures cssSource == None && siteConfigJs == None && cssWrites == 0 && jsWrites == 0
    {
      this.db := db;
      this.brandingFile := brandingFile;
      this.siteConfigFile := siteConfigFile;
      cssSource := None;
      siteConfigJs := None;
      cssWrites := 0;
      jsWrites := 0;
    }

    /**
     * `generate_site_config_js()`: rewrites `site-config.js` from the current
     * `site-config.json` and database, unless the file is absent or the
     * generator fails.
     */
    method RegenerateSiteConfigJs()
      requires Valid()
      modifies this
      ensures Valid()
      ensures db == old(db) && brandingFile == old(brandingFile) && siteConfigFile == old(siteConfigFile)
      ensures cssSource == old(cssSource) && cssWrites == old(cssWrites)
      ensures var outcome := SiteConfig.SiteConfigJsOf(siteConfigFile, DbRows());
        siteConfigJs == JsAfter(outcome, old(siteConfigJs)) &&
        jsWrites == old(jsWrites) + (if outcome.Generated? then 1 else 0)
    {
      var rows := if db == null then None else Some(db.navigation);
      var outcome := SiteConfig.GenerateSiteConfigJs(siteConfigFile, rows);
      if outcome.Generated? {
        siteConfigJs := Some(outcome.js);
        jsWrites := jsWrites + 1;
      }
    }

    /**
     * `update_static_assets(branding_data)`: writes `custom.css`, then
     * regenerates `site-config.js`; fails, writing nothing, when the
     * stylesheet generator raises.
     */
    method UpdateStaticAssets(brandingData: Value) returns (ok: bool)
      requires Valid()
      modifies this
      ensures Valid()
      ensures ok <==> Branding.CssBuildable(brandingData)
      ensures db == old(db) && brandingFile == old(brandingFile) && siteConfigFile == old(siteConfigFile)
      ensures !ok ==> (cssSource == old(cssSource) && siteConfigJs == old(siteConfigJs) &&
                       cssWrites == old(cssWrites) && jsWrites == old(jsWrites))
      ensures ok ==> cssSource == Some(brandingData) && cssWrites == old(cssWrites) + 1
      ensures ok ==> var outcome := SiteConfig.SiteConfigJsOf(siteConfigFile, DbRows());
        siteConfigJs == JsAfter(outcome, old(siteConfigJs)) &&
        jsWrites == old(jsWrites) + (if outcome.Generated? then 1 else 0)
    {
      if !Branding.CssBuildable(brandingData) {
        return false;
      }
      cssSource := Some(brandingData);
      cssWrites := cssWrites + 1;
      RegenerateSiteConfigJs();
      return true;
    }

    /**
     * `save_branding_config(branding_data)`: writes `branding-config.json`,
     * the `branding` section of `site-config.json` when that file exists, the
     * database's `branding` key, and then both assets. An exception on the
     * way leaves the writes already made in place.
     */
    method SaveBrandingConfig(brandingData: Value) returns (success: bool)
      requires Valid()
      modifies this, db
      ensures Valid()
      ensures db == old(db) && brandingFile == Parsed(brandingData)
      ensures success <==>
        BrandingIntoSiteConfig(old(siteConfigFile), brandingData).Some? && Branding.CssBuildable(brandingData)
      ensures BrandingIntoSiteConfig(old(siteConfigFile), brandingData).None? ==>
        siteConfigFile == old(siteConfigFile) && (db != null ==> unchanged(db)) &&
        cssSource == old(cssSource) && siteConfigJs == old(siteConfigJs) &&
        cssWrites == old(cssWrites) && jsWrites == old(jsWrites)
      ensures BrandingIntoSiteConfig(old(siteConfigFile), brandingData).Some? ==>
        siteConfigFile == BrandingIntoSiteConfig(old(siteConfigFile), brandingData).value &&
        (db != null ==> db.State() == old(db.State()).(siteConfig := old(db.siteConfig)["branding" := Database.StoredText(brandingData)]))
      ensures !success ==>
        cssSource == old(cssSource) && siteConfigJs == old(siteConfigJs) &&
        cssWrites == old(cssWrites) && jsWrites == old(jsWrites)
      ensures success ==> cssSource == Some(brandingData) && cssWrites == old(cssWrites) + 1
      ensures success ==> var outcome := SiteConfig.SiteConfigJsOf(siteConfigFile, DbRows());
        siteConfigJs == JsAfter(outcome, old(siteConfigJs)) &&
        jsWrites == old(jsWrites) + (if outcome.Generated? then 1 else 0)
    {
      brandingFile := Parsed(brandingData);
      var saved := BrandingIntoSiteConfig(siteConfigFile, brandingData);
      if saved.None? {
        return false;
      }
      siteConfigFile := saved.value;
      if db != null {
        db.SetSiteConfig("branding", brandingData);
      }
      success := UpdateStaticAssets(brandingData);
    }

    /**
     * `handle_social_accounts()`: stores the accounts in `site-config.json`
     * and the database, and rewrites neither asset.
     */
    method HandleSocialAccounts(accounts: Value) returns (r: Response)
      requires Valid()
      modifies this, db
      ensures Valid()
      ensures db == old(db) && brandingFile == old(brandingFile)
      ensures cssSource == old(cssSource) && siteConfigJs == old(siteConfigJs)
      ensures cssWrites == old(cssWrites) && jsWrites == old(jsWrites)
      ensures r == (if SocialIntoSiteConfig(old(siteConfigFile), accounts).Some? then Ok else Error(500))
      ensures r.Error? ==> siteConfigFile == old(siteConfigFile) && (db != null ==> unchanged(db))
      ensures r.Ok? ==> siteConfigFile == SocialIntoSiteConfig(old(siteConfigFile), accounts).value
      ensures r.Ok? && db != null ==>
        db.State() == old(db.State()).(siteConfig := old(db.siteConfig)["social" := Database.StoredText(accounts)])
    {
      var saved := SocialIntoSiteConfig(siteConfigFile, accounts);
      if saved.None? {
        return Error(500);
      }
      siteConfigFile := saved.value;
      if db != null {
        db.SetSiteConfig("social", accounts);
      }
      return Ok;
    }

    /**
     * `handle_navigation_add()`: with a database and a title and URL that
     * are not blank once stripped, inserts the item and rewrites only
     * `site-config.js`.
     */
    method HandleNavigationAdd(title: string, url: string, position: int, parentId: Option<int>,
                               isActive: bool, openNewTab: bool, cssClass: string)
      returns (r: Response)
      requires Valid()
      modifies this, db
      ensures Valid()
      ensures db == old(db) && brandingFile == old(brandingFile) && siteConfigFile == old(siteConfigFile)
      ensures cssSource == old(cssSource) && cssWrites == old(cssWrites)
      ensures db == null ==> r == Error(500)
      ensures db != null && (Strip(title) == "" || Strip(url) == "") ==> r == Error(400)
      ensures r.Error? ==> (db != null ==> unchanged(db)) && siteConfigJs == old(siteConfigJs) && jsWrites == old(jsWrites)
      ensures db != null && Strip(title) != "" && Strip(url) != "" ==>
        r == Created(db.lastNavId) &&
        db.State() == old(db.State()).(
          navigation := old(db.navigation) +
            [Database.NavRow(old(db.lastNavId) + 1, Strip(title), Strip(url), position, parentId, isActive, openNewTab, Some(cssClass))],
          lastNavId := old(db.lastNavId) + 1)
      ensures r.Created? ==> var outcome := SiteConfig.SiteConfigJsOf(siteConfigFile, DbRows());
        siteConfigJs == JsAfter(outcome, old(siteConfigJs)) &&
        jsWrites == old(jsWrites) + (if outcome.Generated? then 1 else 0)
    {
      if db == null {
        return Error(500);
      }
      var t := Strip(title);
      var u := Strip(url);
      if t == "" || u == "" {
        return Error(400);
      }
      var id := db.AddNavigationItem(t, u, position, parentId, isActive, openNewTab, Some(cssClass));
      RegenerateSiteConfigJs();
      return Created(id);
    }

    /**
     * `handle_navigation_update()`: `navId` is the last path segment as an
     * integer, `None` when it does not parse. Rewrites only `site-config.js`,
     * and only when the update changed a row.
     */
    method HandleNavigationUpdate(navId: Option<int>, patch: Database.NavPatch) returns (r: Response)
      requires Valid()
      modifies this, db
      ensures Valid()
      ensures db == old(db) && brandingFile == old(brandingFile) && siteConfigFile == old(siteConfigFile)
      ensures cssSource == old(cssSource) && cssWrites == old(cssWrites)
      ensures r == if db == null then Error(500)
        else if navId.None? then Error(400)
        else if Database.EmptyPatch(patch) || !Database.HasId(old(db.navigation), navId.value) then Error(404)
        else Ok
      ensures r.Error? ==> siteConfigJs == old(siteConfigJs) && jsWrites == old(jsWrites)
      ensures db != null && navId.None? ==> unchanged(db)
      ensures db != null && navId.Some? ==>
        db.State() == old(db.State()).(
          navigation := if Database.EmptyPatch(patch) then old(db.navigation)
                        else Database.PatchRows(old(db.navigation), navId.value, patch))
      ensures r.Ok? ==> var outcome := SiteConfig.SiteConfigJsOf(siteConfigFile, DbRows());
        siteConfigJs == JsAfter(outcome, old(siteConfigJs)) &&
        jsWrites == old(jsWrites) + (if outcome.Generated? then 1 else 0)
    {
      if db == null {
        return Error(500);
      }
      if navId.None? {
        return Error(400);
      }
      var success := db.UpdateNavigationItem(navId.value, patch);
      if !success {
        return Error(404);
      }
      RegenerateSiteConfigJs();
      return Ok;
    }

    /**
     * `handle_navigation_delete()`: removes the row with that id and
     * rewrites only `site-config.js`, and only when a row was removed.
     */
    method HandleNavigationDelete(navId: Option<int>) returns (r: Response)
      requires Valid()
      modifies this, db
      ensures Valid()
      ensures db == old(db) && brandingFile == old(brandingFile) && siteConfigFile == old(siteConfigFile)
      ensures cssSource == old(cssSource) && cssWrites == old(cssWrites)
      ensures r == if db == null then Error(500)
        else if navId.None? then Error(400)
        else if !Database.HasId(old(db.navigation), navId.value) then Error(404)
        else Ok
      ensures r.Error? ==> siteConfigJs == old(siteConfigJs) && jsWrites == old(jsWrites)
      ensures db != null && navId.None? ==> unchanged(db)
      ensures db != null && navId.Some? ==>
        db.State() == old(db.State()).(navigation := Database.DeleteId(old(db.navigation), navId.value))
      ensures r.Ok? ==> var outcome := SiteConfig.SiteConfigJsOf(siteConfigFile, DbRows());
        siteConfigJs == JsAfter(outcome, old(siteConfigJs)) &&
        jsWrites == old(jsWrites) + (if outcome.Generated? then 1 else 0)
    {
      if db == null {
        return Error(500);
      }
      if navId.None? {
        return Error(400);
      }
      var existed := db.DeleteNavigationItem(navId.value);
      if !existed {
        return Error(404);
      }
      RegenerateSiteConfigJs();
      return Ok;
    }
  }
}
