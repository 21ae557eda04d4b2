# ForgeWeb core in Dafny

This project models the core of ForgeWeb. ForgeWeb is a local admin server that stores a small static website's configuration and generates its pages and shared assets. The model covers three parts:

- **The configuration store `ForgeWebDB`** (admin/database.py). It is a class whose fields are the SQLite tables, held in memory:
  - `site_config` and `settings` are maps from a key to the stored text of a value;
  - `pages` and `articles` are sequences of rows in `updated_at` order, so an upsert moves the written row to the end;
  - `design_config` and `navigation` are sequences of rows in id (insertion) order, and deactivating, updating or repositioning a row leaves it where it is;
  - AUTOINCREMENT ids come from high-water marks.
  The store's upserts, the deactivate-then-insert step of the design config, the navigation listing, the partial update, the delete and the reorder are methods. Each method states its whole new state, and lemmas about the table functions state what the source promises.
- **The admin server's generators and handlers** (admin/file-api.py):
  - the stylesheet `custom.css` (`generate_custom_css`, `get_font_css`, `get_border_radius`);
  - `convert_branding_format`;
  - the data of `site-config.js` (navigation from the database or from the `include_*` flags, and the social handles);
  - `generate_nav_links`, `generate_sitemap` and `generate_robots_txt`;
  - the placeholder loop and the logo block of `generate_page`;
  - `get_content_type` and `clean_path`.
  The branding, social and navigation handlers are methods of a `Server` class. The class holds the database, the two JSON files and the two generated assets, so each handler's contract says which assets it rewrites.
- **The homepage regenerator** (regenerate-index.py):
  - the choice of branding source;
  - the header, mobile and footer link lists;
  - the `replacements` dict, the sequential replace loop and the unconditional removal of the logo block.

Modules, one per file:

| module | file | models |
|---|---|---|
| `Wrappers` | wrappers.dfy | `Option` |
| `Json` | json.dfy | JSON values, `json.dumps`/`json.loads` as `Encode`/`Decode` with a round trip, Python `dict.get`, truthiness, `str()`, the "append when the flag is truthy" pattern |
| `Text` | text.dfy | `str.replace`, `str.join`, `str.strip`, `str.lower`, the non-greedy `re.sub` block removal, `{{NAME}}` placeholders |
| `Template` | template.dfy | the replace loop over a `replacements` dict in insertion order |
| `Database` | database.dfy | `ForgeWebDB` |
| `Branding` | branding.dfy | the branding document, `convert_branding_format`, `custom.css` |
| `Pages` | pages.dfy | nav links, sitemap, robots.txt, content types, `clean_path`, `generate_page` |
| `SiteConfig` | siteconfig.dfy | the navigation and social data of `site-config.js` |
| `Handlers` | handlers.dfy | the branding, social and navigation handlers and the assets they rewrite |
| `RegenerateIndex` | regenerate_index.dfy | regenerate-index.py |

Python's raising behaviour is modelled as `None`. This covers a `.get` on something that is not a dict, a `str.replace` with a value that is not a string, and a file that cannot be parsed. A file on disk is a `JsonFile`: `Missing`, `Unreadable` or `Parsed(doc)`.

The following are parameters, not effects:

- files read;
- the database rows;
- the environment;
- the current year;
- the home-page markup of the regenerator.

Where the code and its own comments disagree, the model follows the code:

- `delete_navigation_item` says children are deleted "due to CASCADE". Foreign keys are never switched on for the connection, so only the row with that id goes (`Database.DeleteKeepsChildren`).
- `load_branding_config` is defined twice. Python keeps the second definition, whose default document keeps its colours under `colors`. So `generate_page`'s top-level `branding.get('primaryColor', …)` lookups always give the defaults (`Pages.BrandColoursAlwaysDefault`).

## Model

| member | source | states |
|---|---|---|
| Json.DecodeEncode | admin/database.py:178-189 | `json.loads(json.dumps(v)) == v` for every value the model stores |
| Json.DictGetSpec | admin/file-api.py:1157-1166 | `dict.get` raises on a value that is not a dict, gives the default for an absent key and a value stored under a present key |
| Json.PutSpec | admin/file-api.py:1132 | assigning a key makes it read as the new value and leaves every other key as it was |
| Database.LoadStored | admin/database.py:166-189 | a stored non-string reads back as itself; a stored string reads back decoded when it parses as JSON and unchanged otherwise |
| Database.NumericStringComesBackAsNumber | admin/database.py:166-189 | the string `"123"` is stored as it is and read back as the number 123 |
| Database.SetThenGet | admin/database.py:166-189 | after an upsert, a read of that key gives the value written (non-string or non-JSON string); every other key reads as before |
| Database.LatestActiveSpec | admin/database.py:191-208 | no design exactly when no row is active; otherwise the design is an active row with no active row after it |
| Database.SetDesignActivatesOnlyNewRow | admin/database.py:210-224 | after deactivate-all-then-insert, exactly one row is active and it is the one `get_design_config` picks |
| Database.DesignValidAfterSet | admin/database.py:210-224 | the invariant "at most one active row, every `cdn_urls` is JSON" is preserved |
| Database.UpsertExisting | admin/database.py:226-259 | re-adding a slug keeps that row's id, takes the new columns, adds no row and keeps slugs unique |
| Database.UpsertNew | admin/database.py:226-259 | a new slug adds exactly one row, with the next id, and keeps slugs unique |
| Database.UpsertIds | admin/database.py:226-259 | ids stay unique and below the AUTOINCREMENT mark, which moves only when a row is inserted; slugs stay unique |
| Database.NewestFirst | admin/database.py:261-271 | `ORDER BY updated_at DESC` lists the rows in reverse write order |
| Database.SortNavSpec | admin/database.py:342-348 | sorting gives an ordered permutation of the rows |
| Database.ActiveOnlyCount | admin/database.py:345-347 | the `is_active = 1` filter keeps each active row as often as it occurs and nothing else |
| Database.ListingSpec | admin/database.py:342-365 | the listing is ordered by (position, id) and is a permutation of the table, or of exactly its active rows with `active_only` |
| Database.SortedUnique | admin/database.py:348 | with unique ids there is only one (position, id)-ordered arrangement of a set of rows |
| Database.PatchedFields | admin/database.py:379-408 | each column takes the patch's value when it is given and keeps its own otherwise; the id never changes; an empty patch changes nothing |
| Database.AssignmentsPatch | admin/database.py:379-408 | running the `SET` list built so far writes exactly the columns the patch gives |
| Database.SetList | admin/database.py:383-404 | the `updates` list built one `if` at a time is the `SET` list of the patch, and it is empty exactly when every field is `None` |
| Database.ParentNeverCleared | admin/database.py:394-396 | an update never makes a set `parent_id` NULL again |
| Database.UpdateByAssignments | admin/database.py:406-411 | applying the `SET` list to the table patches exactly the rows with that id and keeps the id invariants |
| Database.DeleteMembers | admin/database.py:417-422 | the rows left are exactly the rows without that id |
| Database.DeleteKeepsChildren | admin/database.py:417-422 | deleting an existing id removes exactly one row, an unknown id removes none, and children of the deleted item stay |
| Database.DeleteSubsequence | admin/database.py:417-422 | the remaining rows keep their id order |
| Database.DeleteCount | admin/database.py:417-422 | with ids in increasing order, an existing id loses exactly one row and an unknown id leaves the table as it was |
| Database.DeleteIds | admin/database.py:417-422 | the id invariants (unique, below the AUTOINCREMENT mark) survive a delete |
| Database.ReorderedSpec | admin/database.py:424-436 | after the pairs, each row differs only in `position`, which is the last pair's position for its id, or unchanged when no pair names it |
| Database.ForgeWebDB.constructor | admin/database.py:16-164 | a new store has empty tables and all AUTOINCREMENT marks at zero |
| Database.ForgeWebDB.SetSiteConfig | admin/database.py:178-189 | the key now maps to the value's stored text; no other table changes |
| Database.ForgeWebDB.SetSetting | admin/database.py:285-296 | the (category, key) pair now maps to the value's stored text; no other table changes |
| Database.ForgeWebDB.GetDesignConfig | admin/database.py:191-208 | `None` exactly when no design row is active |
| Database.ForgeWebDB.SetDesignConfig | admin/database.py:210-224 | every old row is deactivated and one active row is appended; `get_design_config` then returns the new fields with `cdn_urls` decoded as given |
| Database.ForgeWebDB.AddPage | admin/database.py:226-240 | upsert by slug; an id is returned exactly when the slug was new, and it is the next AUTOINCREMENT id |
| Database.ForgeWebDB.AddArticle | admin/database.py:242-259 | the same upsert on `articles` |
| Database.ForgeWebDB.GetNavigationItems | admin/database.py:342-365 | the result is ordered by (position, id) and is a permutation of the table or of its active rows |
| Database.ForgeWebDB.AddNavigationItem | admin/database.py:367-377 | appends one row whose id is the next AUTOINCREMENT id, greater than every id ever used |
| Database.ForgeWebDB.UpdateNavigationItem | admin/database.py:379-415 | answers true exactly when some field is given and a row has that id; the table is the patched table, or unchanged for an empty patch |
| Database.ForgeWebDB.DeleteNavigationItem | admin/database.py:417-422 | answers whether the id existed; the table loses exactly the rows with that id |
| Database.ForgeWebDB.ReorderNavigation | admin/database.py:424-436 | the loop over the pairs leaves the table the pairs applied left to right |
| Branding.ConfigValueOrder | admin/file-api.py:172-189 | the environment wins over the lower-cased key of `site-config.json`, which wins over the default |
| Branding.NoTopLevelColours | admin/file-api.py:1083-1114 | without a branding file the loaded document has no top-level `primaryColor`, `secondaryColor`, `accentColor` or `font` |
| Branding.DefaultBrandingKeys | admin/file-api.py:1092-1110 | the default document has only `colors`, `typography`, `assets` and `customCSS` at its top level |
| Branding.DefaultColours | admin/file-api.py:1092-1097 | the default document's colours are the configured values |
| Branding.ConvertBrandingSpec | admin/file-api.py:1155-1167 | conversion succeeds exactly when the document, its colours and its typography are dicts; it gives the six keys in order, each the two-level lookup with its default |
| Branding.ConvertEmptyBranding | admin/file-api.py:1155-1167 | an empty document converts to the six defaults |
| Branding.BorderRadiusSpec | admin/file-api.py:1497-1507 | none/sm/md/lg/xl/full map to 0px/4px/8px/12px/16px/50%; any other hashable value gives 8px; a list or dict raises |
| Branding.FontCssSpec | admin/file-api.py:1471-1495 | a custom family with a URL imports that URL; each known web font imports its own stylesheet; anything else gives the system font stack |
| Branding.WebFontFound | admin/file-api.py:1476-1493 | a known font name finds its own entry |
| Branding.CssInputsSpec | admin/file-api.py:1391-1469 | the stylesheet's values are the colour lookups with their defaults, the font CSS, the radius and the top-level `customCSS`; it fails exactly when a level is not a dict or the radius is unhashable |
| Branding.CustomCssBuildable | admin/file-api.py:1391-1469 | `generate_custom_css` raises exactly when the document is not buildable |
| Branding.CssTextEnds | admin/file-api.py:1464-1469 | the user's CSS comes last in the stylesheet, followed by a newline |
| Branding.CustomCssDefaults | admin/file-api.py:1391-1469 | an empty document gives the default colours, the system font and 8px |
| Branding.DefaultBrandingCss | admin/file-api.py:1092-1110 | the default branding document gives the stylesheet of its configured colours, the system font and 8px |
| Branding.DefaultTypography | admin/file-api.py:1099-1103 | the default typography selects the system font and the `md` radius |
| Text.ReplaceSelf | regenerate-index.py:97 | replacing a text by itself changes nothing |
| Text.RemoveFirstBlock | regenerate-index.py:115 | the non-greedy block removal drops a block with its markers and keeps the text before it |
| Text.RemoveBlocksAbsent | regenerate-index.py:115 | text without an opening marker is left as it is |
| Text.ShowBlock | admin/file-api.py:801-803 | removing both markers and filling the placeholder leaves the block's text with the path in it |
| Text.StripSpec | admin/file-api.py:1537-1538 | `strip()` is the slice between the leading and trailing whitespace, and starts and ends with a non-space |
| Text.StripIdempotent | admin/file-api.py:1537-1538 | stripping twice is stripping once |
| Text.JoinThree | regenerate-index.py:99-103 | a three-part join holds both separators whatever the parts are |
| Text.Lower | admin/file-api.py:380 | every character is lower-cased in place, and the length is kept |
| Template.Substitute | admin/file-api.py:794-797 | the loop's result is the sequential substitution of the dict in insertion order |
| Template.SubstitutedSpec | admin/file-api.py:794-797 | the loop raises exactly when a value is not a string, and otherwise is the plain string replace loop |
| Template.LaterPlaceholderExpanded | admin/file-api.py:794-797 | a value that is a later entry's placeholder ends up as that later entry's value |
| Template.SubstitutedSkip | admin/file-api.py:794-797 | string-valued entries whose placeholder does not occur in the text leave it as it is |
| Pages.GenerateNavLinks | admin/file-api.py:964-979 | `None` when the site data is not a dict; otherwise the conditional appends build the links of the truthy flags, in fixed order, joined by the separator |
| Pages.NavLinksEmpty | admin/file-api.py:964-979 | the text is empty exactly when no flag is set |
| Pages.NavLinksChosen | admin/file-api.py:964-979 | a link is present exactly when its flag is truthy |
| Pages.NavLinksDistinct | admin/file-api.py:964-979 | the five links are pairwise different, so a link in the text names one flag |
| Pages.GenerateSitemap | admin/file-api.py:1041-1057 | the loop's text is the sitemap of the entries below |
| Pages.SitemapEntriesSpec | admin/file-api.py:1046-1052 | one entry per HTML file, in input order, at `site_url` for `index.html` and `site_url/file` otherwise |
| Pages.HtmlFilesSpec | admin/file-api.py:1046-1047 | the files kept are exactly those ending in `.html` |
| Pages.RobotsMatchSitemap | admin/file-api.py:1033-1057 | robots.txt points to the sitemap of the same site URL, which lists the home page |
| Pages.ExtensionOf | admin/file-api.py:380 | `os.path.splitext` of a name with a suffix gives that suffix |
| Pages.ContentTypeOf | admin/file-api.py:378-395 | the lower-cased extension selects one of the twelve MIME types, and anything else is `application/octet-stream` |
| Pages.HiddenFileHasNoType | admin/file-api.py:378-395 | a leading-dot name like `.html` has no extension and is served as `application/octet-stream` |
| Pages.CleanPathLeavesParentRef | admin/file-api.py:1837-1842 | one pass of `replace('../', '')` turns `....//` into `../` |
| Pages.CleanPathFixedSpec | admin/file-api.py:1837-1842 | the corrected path never contains `../`, and it agrees with `clean_path` whenever one pass is enough |
| Pages.GeneratePage | admin/file-api.py:769-807 | the replace loop and the logo step give the page the page function describes |
| Pages.LogoBlockDropped | admin/file-api.py:804-805 | without a logo path a block goes with its markers |
| Pages.LogoShown | admin/file-api.py:800-803 | with a logo path the markers go and the path fills `{{LOGO_PATH}}` |
| Pages.WithLogoBraceFree | admin/file-api.py:798-805 | text without `{` is untouched by the logo step, which raises only for a truthy non-string path |
| Pages.PageFails | admin/file-api.py:769-807 | `generate_page` raises exactly when the site data or branding is not a dict, a value is not a string, or the logo path is truthy but not a string |
| Pages.BrandColoursAlwaysDefault | admin/file-api.py:784-787 | with the loaded default branding, the brand colours and font are always the defaults |
| Pages.ContentBeforeSiteUrl | admin/file-api.py:775-783 | `CONTENT` is the fourth and `SITE_URL` the eighth placeholder of the dict, and no name before them clashes with either |
| Pages.ContentExpandsSiteUrl | admin/file-api.py:794-797 | a `{{SITE_URL}}` inside the content is expanded, because `CONTENT` comes before `SITE_URL` in the dict |
| SiteConfig.DbEntry | admin/file-api.py:1234-1242 | title and url copied; `target: '_blank'` exactly when `open_new_tab`; `class` exactly when `css_class` is non-empty |
| SiteConfig.DbNavigation | admin/file-api.py:1233-1242 | one entry per active item, in listing order |
| SiteConfig.BuildNavigationFromConfig | admin/file-api.py:1197-1214 | the conditional appends build Home and the flagged pages |
| SiteConfig.ConfigNavigationSpec | admin/file-api.py:1197-1214 | Home first, an entry exactly when its flag is truthy, at most six entries; fails exactly when the config or its `content` is not a dict |
| SiteConfig.AllFlagsOrder | admin/file-api.py:1197-1214 | with every flag set the order is Home, About, Services, Portfolio, Blog, Contact |
| SiteConfig.NavigationSource | admin/file-api.py:1228-1248 | the configured list is used exactly when there is no database or no active row; otherwise each entry comes from an active row in (position, id) order |
| SiteConfig.AddedItemListed | admin/file-api.py:1228-1248 | an active item just added appears in the navigation |
| SiteConfig.SocialSpec | admin/file-api.py:1250-1257 | four handles in platform order, each the three-level lookup defaulting to empty; fails exactly when a level is not a dict |
| SiteConfig.NoSocialSection | admin/file-api.py:1250-1257 | no `social` section gives four empty handles |
| SiteConfig.GenerateSiteConfigJs | admin/file-api.py:1216-1325 | nothing when `site-config.json` is absent, a failure when it cannot be read or a lookup raises, otherwise the name, URL, description, navigation and social data |
| Handlers.SocialSaved | admin/file-api.py:1657-1687 | the saved file's `social` is the accounts sent, every other key is kept, and an absent file starts from `{}` |
| Handlers.BrandingSaved | admin/file-api.py:1125-1135 | the saved `branding` is the converted document and every other key is kept |
| Handlers.Server.RegenerateSiteConfigJs | admin/file-api.py:1216-1325 | `site-config.js` is rewritten exactly when the generator succeeds; `custom.css` is untouched |
| Handlers.Server.UpdateStaticAssets | admin/file-api.py:1169-1195 | `custom.css` is rewritten from the branding and then `site-config.js` is regenerated; a stylesheet failure writes neither |
| Handlers.Server.SaveBrandingConfig | admin/file-api.py:1116-1153 | writes the branding file, the converted `branding` of `site-config.json` and the database key, then both assets; success exactly when all steps get through; a stylesheet failure rewrites neither asset; the database changes only in its `branding` key |
| Handlers.Server.HandleSocialAccounts | admin/file-api.py:1657-1687 | stores the accounts in the file and the database's `social` key, changes nothing else in the database, and rewrites neither asset |
| Handlers.Server.HandleNavigationAdd | admin/file-api.py:1524-1572 | 500 without a database, 400 for a blank stripped title or URL, otherwise one new row with the stripped fields and the next id, and no other table or mark changes; only `site-config.js` is regenerated |
| Handlers.Server.HandleNavigationUpdate | admin/file-api.py:1574-1620 | 500/400/404/OK as the source decides; the navigation table is the patched table and every other table and mark is unchanged; only `site-config.js` is regenerated, and only on success |
| Handlers.Server.HandleNavigationDelete | admin/file-api.py:1622-1655 | 500/400/404/OK as the source decides; the row is deleted and every other table and mark is unchanged; only `site-config.js` is regenerated, and only on success |
| RegenerateIndex.IndexBrandingMatchesConvert | regenerate-index.py:22-34 | from a branding file the script reads the same primary, secondary, accent and font as `convert_branding_format`, and fails on the same documents |
| RegenerateIndex.BuildNavLinks | regenerate-index.py:42-51 | the conditional appends give the links of the truthy flags, in the order About, Services, Blog, Contact |
| RegenerateIndex.IndexNavLinksChosen | regenerate-index.py:42-51 | a link is present exactly when its flag is truthy, and there are at most four |
| RegenerateIndex.IndexLinksDistinct | regenerate-index.py:42-51 | the four links are pairwise different |
| RegenerateIndex.MobileNavLinksSame | regenerate-index.py:96-97 | the mobile menu holds the same links as the header; only the separator differs |
| RegenerateIndex.FooterShape | regenerate-index.py:99-103 | Home first, then the About and Contact entries or empty strings, always with two separators |
| RegenerateIndex.IndexValues | regenerate-index.py:87-107 | the dict has fifteen values and `MAIN_CONTENT` is the home content |
| RegenerateIndex.Regenerate | regenerate-index.py:17-115 | the script's steps give the page the index function describes |
| RegenerateIndex.FillPage | regenerate-index.py:41-115 | the links, footer and replacements built from the loaded config give the page the page function describes |
| RegenerateIndex.FillTemplate | regenerate-index.py:109-115 | the replace loop, then the logo-block removal |
| RegenerateIndex.IndexNamesOrder | regenerate-index.py:87-107 | fifteen distinct placeholder names; `SITE_URL` comes before `MAIN_CONTENT`, which comes before `CURRENT_YEAR` |
| RegenerateIndex.MainContentExpandsYear | regenerate-index.py:109-111 | a `{{CURRENT_YEAR}}` in the home content comes out as the year, because the year is substituted later |
| RegenerateIndex.MainContentKeepsSiteUrl | regenerate-index.py:109-111 | a `{{SITE_URL}}` in the home content stays in the page, because the site URL is substituted earlier |
| RegenerateIndex.LogoBlockAlwaysRemoved | regenerate-index.py:113-115 | a logo block in the substituted page goes, whatever the logo path |
| RegenerateIndex.BraceFreeTemplateUnchanged | regenerate-index.py:109-115 | a template without `{` is written out unchanged |

## Left out

- HTTP plumbing is not modelled: routing, request-body parsing, JSON responses, static file serving and Jinja2 rendering. Handlers take typed request fields. A path id that does not parse as an integer is `None`.
- File and directory effects are not modelled: `makedirs`, the `site.js` copy, `.gitignore`, and write errors after a file was opened. Files are `JsonFile` values; the generated assets are fields of `Handlers.Server`.
- The SQLite engine is not modelled: timestamps, and `lastrowid` after an upsert conflict. `Database.ForgeWebDB.AddPage` and `AddArticle` return `None` when an existing slug was updated, instead of the engine's `lastrowid`.
- Database.ForgeWebDB.constructor: models `initialize_db` on a new database file only. On an existing `admin/forgeweb.db`, `CREATE TABLE IF NOT EXISTS` keeps the rows already stored; the model starts from empty tables.
- Pages.CleanPathFixedSpec: the corrected path closes only the `../` route. Like `clean_path`, it drops a single leading `/`, so `//etc/passwd` still becomes the absolute `/etc/passwd`, which `os.path.join` at the write site would treat as outside the site root.
- `migrate_from_json`, `get_all_pages`/`get_all_articles` field dictionaries and `close` are not modelled. They are I/O or engine formatting.
- The GitHub API, dotenv loading, `update_env_variables`, `run_site_generator` and the pages only it generates are not modelled. They are external calls or dead code. The first `load_branding_config` is shadowed and is left out for the same reason.
- JSON text is abstract. `Encode` is a compact encoding with integers and strings only: no floats, no `indent=`. The JavaScript text around the data of `site-config.js` is not modelled; the model keeps its data (`SiteConfig.SiteConfigJs`). `str()` of a list or dict is rendered as JSON, not Python `repr`.
- Database.LoadStored: `Json.Decode` reads a narrower grammar than `json.loads`. It reads integers only: `1.5` and `1e3` do not parse. Inside strings it reads only the `\"` and `\\` escapes, so `\n`, `\t`, `\/` and `\uXXXX` do not parse. It also accepts raw control characters inside a string, which strict `json.loads` rejects. Text that `json.loads` would decode but `Decode` does not is returned unchanged as a string. Text with a raw control character comes back decoded where Python returns it unchanged.
- Database.SetThenGet: "a string that does not decode" uses the same narrow grammar as `Database.LoadStored`. A stored string such as `"a\nb"`, with a JSON escape, reads back as the raw text, where Python decodes it.
- `Text.Strip` and `Text.Lower` handle ASCII only. Python's Unicode whitespace and case tables are not modelled.
- Handlers.Server.UpdateStaticAssets: `custom.css` is held as the branding document it was generated from (`cssSource`), not as its text. The text is `Branding.CustomCss` of that document.
- RegenerateIndex.Regenerate: the home-page markup is a parameter, not the script's literal.
- `generate_page`'s loading of branding is not modelled inside `Pages.Page`. It takes the branding document; `Pages.BrandColoursAlwaysDefault` connects the two.

## Findings

| source | as written | input that shows it | evidently intended | confidence | as-written member | corrected member |
|---|---|---|---|---|---|---|
| admin/file-api.py:1837-1842 | one pass of `path.replace('../', '')` | `....//` becomes `../` | the cleaned path contains no `../` (a second leading `/` is a separate escape, not closed here) | not executed | Pages.CleanPathLeavesParentRef | Pages.CleanPathFixedSpec |
