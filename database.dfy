/**
 * The configuration store `ForgeWebDB`: SQLite tables held in memory.
 *
 * - `site_config` and `settings` map a key (or a `(category, key)` pair) to the
 *   stored text of a value: strings are stored as they are, anything else as
 *   its JSON encoding.
 * - `pages` and `articles` are sequences of rows in the order of their
 *   `updated_at` timestamps: an upsert moves the written row to the end.
 * - `design_config` and `navigation` are sequences of rows in id (insertion)
 *   order: deactivating, updating or repositioning a row leaves it in place.
 * - AUTOINCREMENT ids come from a high-water mark that never goes down.
 */
module Database {
  import opened Wrappers
  import Json

  // ---------------------------------------------------------------------------
  // site_config and settings: values stored as text
  // ---------------------------------------------------------------------------

  /** `json.dumps(value) if not isinstance(value, str) else value` */
  function StoredText(v: Json.Value): string {
    if v.Str? then v.s else Json.Encode(v)
  }

  /** `json.loads(text)`, or the text itself when it is not JSON. */
  function Loaded(text: string): Json.Value {
    match Json.Decode(text)
    case Some(w) => w
    case None => Json.Str(text)
  }

  /**
   * Reading back a stored value: anything but a string comes back as it was;
   * a string comes back decoded when it parses as JSON and unchanged otherwise.
   */
  lemma LoadStored(v: Json.Value)
    ensures !v.Str? ==> Loaded(StoredText(v)) == v
    ensures v.Str? && Json.Decode(v.s).Some? ==> Loaded(StoredText(v)) == Json.Decode(v.s).value
    ensures v.Str? && Json.Decode(v.s).None? ==> Loaded(StoredText(v)) == v
  {
    if !v.Str? {
      Json.DecodeEncode(v);
    }
  }

  /** The string "123" is stored as it is and read back as the number 123. */
  lemma NumericStringComesBackAsNumber()
    ensures Loaded(StoredText(Json.Str("123"))) == Json.Int(123)
  {
    Json.DecodeNumberText();
  }

  /** `get_site_config(key, default)` / `get_setting(category, key, default)` over one table. */
  function Get<K>(table: map<K, string>, key: K, default: Json.Value): Json.Value {
    if key in table then Loaded(table[key]) else default
  }

  /** An upsert followed by a read of the same key gives back what was written, and no other key changes. */
  lemma SetThenGet<K>(table: map<K, string>, key: K, v: Json.Value, other: K, default: Json.Value)
    ensures !v.Str? ==> Get(table[key := StoredText(v)], key, default) == v
    ensures v.Str? && Json.Decode(v.s).None? ==> Get(table[key := StoredText(v)], key, default) == v
    ensures other != key ==> Get(table[key := StoredText(v)], other, default) == Get(table, other, default)
  {
    LoadStored(v);
  }

  // ---------------------------------------------------------------------------
  // design_config: deactivate every row, then insert one active row
  // ---------------------------------------------------------------------------

  datatype DesignRow = DesignRow(
    id: nat, systemName: string, cdnUrls: string, bodyClasses: string, customCss: string, isActive: bool)

  /** What `get_design_config` returns: the row's fields with `cdn_urls` decoded. */
  datatype DesignConfig = DesignConfig(system: string, cdnUrls: Json.Value, bodyClasses: string, customCss: string)

  function ActiveCount(rows: seq<DesignRow>): nat
    decreases |rows|
  {
    if rows == [] then 0
    else (if rows[|rows| - 1].isActive then 1 else 0) + ActiveCount(rows[..|rows| - 1])
  }

  /** `UPDATE design_config SET is_active = 0` */
  function Deactivated(rows: seq<DesignRow>): (r: seq<DesignRow>)
    ensures |r| == |rows|
    ensures forall i :: 0 <= i < |rows| ==> r[i] == rows[i].(isActive := false)
  {
    seq(|rows|, i requires 0 <= i < |rows| => rows[i].(isActive := false))
  }

  /** The latest active row (`WHERE is_active = 1 ORDER BY updated_at DESC LIMIT 1`). */
  function LatestActive(rows: seq<DesignRow>): Option<DesignRow>
    decreases |rows|
  {
    if rows == [] then None
    else if rows[|rows| - 1].isActive then Some(rows[|rows| - 1])
    else LatestActive(rows[..|rows| - 1])
  }

  /** No active row means no design; otherwise the design is the last active row. */
  lemma {:induction false} LatestActiveSpec(rows: seq<DesignRow>)
    ensures LatestActive(rows).None? <==> forall i :: 0 <= i < |rows| ==> !rows[i].isActive
    ensures LatestActive(rows).Some? ==>
      exists i :: 0 <= i < |rows| && rows[i] == LatestActive(rows).value && rows[i].isActive &&
        (forall j :: i < j < |rows| ==> !rows[j].isActive)
    decreases |rows|
  {
    if rows != [] && !rows[|rows| - 1].isActive {
      var init := rows[..|rows| - 1];
      LatestActiveSpec(init);
      assert forall i :: 0 <= i < |init| ==> init[i] == rows[i];
    }
  }

  /** A table with no active row counts none. */
  lemma {:induction false} NoneActive(rows: seq<DesignRow>)
    requires forall i :: 0 <= i < |rows| ==> !rows[i].isActive
    ensures ActiveCount(rows) == 0
    decreases |rows|
  {
    if rows != [] {
      NoneActive(rows[..|rows| - 1]);
    }
  }

  /**
   * After `set_design_config` exactly one row is active, the new one, and it is
   * the row `get_design_config` picks.
   */
  lemma SetDesignActivatesOnlyNewRow(rows: seq<DesignRow>, row: DesignRow)
    requires row.isActive
    ensures ActiveCount(Deactivated(rows) + [row]) == 1
    ensures LatestActive(Deactivated(rows) + [row]) == Some(row)
  {
    var d := Deactivated(rows);
    assert (d + [row])[..|d|] == d;
    NoneActive(d);
  }

  /** At most one active row, and every stored `cdn_urls` text is JSON. */
  predicate DesignValid(rows: seq<DesignRow>) {
    ActiveCount(rows) <= 1 && forall i :: 0 <= i < |rows| ==> Json.Decode(rows[i].cdnUrls).Some?
  }

  /** `get_design_config` on the rows: the latest active row, with `cdn_urls` decoded. */
  function Design(rows: seq<DesignRow>): (r: Option<DesignConfig>)
    requires DesignValid(rows)
    ensures r.None? <==> forall i :: 0 <= i < |rows| ==> !rows[i].isActive
  {
    LatestActiveSpec(rows);
    match LatestActive(rows)
    case None => None
    case Some(row) =>
      Some(DesignConfig(row.systemName, Json.Decode(row.cdnUrls).value, row.bodyClasses, row.customCss))
  }

  /** After `set_design_config` the design read back is the row just written. */
  lemma DesignAfterPut(rows: seq<DesignRow>, row: DesignRow)
    requires DesignValid(rows) && row.isActive && Json.Decode(row.cdnUrls).Some?
    ensures DesignValid(Deactivated(rows) + [row])
    ensures Design(Deactivated(rows) + [row]) ==
      Some(DesignConfig(row.systemName, Json.Decode(row.cdnUrls).value, row.bodyClasses, row.customCss))
  {
    SetDesignActivatesOnlyNewRow(rows, row);
    DesignValidAfterSet(rows, row);
  }

  lemma DesignValidAfterSet(rows: seq<DesignRow>, row: DesignRow)
    requires DesignValid(rows) && row.isActive && Json.Decode(row.cdnUrls).Some?
    ensures DesignValid(Deactivated(rows) + [row])
  {
    SetDesignActivatesOnlyNewRow(rows, row);
    var r := Deactivated(rows) + [row];
    forall i | 0 <= i < |r| ensures Json.Decode(r[i].cdnUrls).Some? {
      if i < |rows| {
        assert r[i].cdnUrls == rows[i].cdnUrls;
      }
    }
  }

  // ---------------------------------------------------------------------------
  // pages and articles: upsert by slug
  // ---------------------------------------------------------------------------

  datatype Page = Page(title: string, filePath: string, template: string, status: string)

  datatype Article = Article(
    title: string, filePath: string, category: string, tags: string, excerpt: string, author: string, status: string)

  /** A row of `pages` or `articles`: the id and unique slug, and the columns an upsert overwrites. */
  datatype Keyed<T> = Keyed(id: nat, slug: string, data: T)

  predicate UniqueSlugs<T>(rows: seq<Keyed<T>>) {
    forall i, j :: 0 <= i < j < |rows| ==> rows[i].slug != rows[j].slug
  }

  /** `id INTEGER PRIMARY KEY`: no two rows share an id. */
  predicate UniqueIds<T>(rows: seq<Keyed<T>>) {
    forall i, j :: 0 <= i < j < |rows| ==> rows[i].id != rows[j].id
  }

  /** Slugs and ids are unique and no id exceeds the AUTOINCREMENT mark. */
  predicate KeyedValid<T>(rows: seq<Keyed<T>>, lastId: nat) {
    UniqueSlugs(rows) && UniqueIds(rows) && forall i :: 0 <= i < |rows| ==> rows[i].id <= lastId
  }

  predicate HasSlug<T>(rows: seq<Keyed<T>>, slug: string) {
    exists i :: 0 <= i < |rows| && rows[i].slug == slug
  }

  /** The rows without the one at index `k`. */
  function Without<T>(rows: seq<Keyed<T>>, k: nat): (r: seq<Keyed<T>>)
    requires k < |rows|
    ensures |r| == |rows| - 1
    ensures forall i :: 0 <= i < k ==> r[i] == rows[i]
    ensures forall i :: k <= i < |r| ==> r[i] == rows[i + 1]
  {
    rows[..k] + rows[k + 1..]
  }

  /**
   * `INSERT ... ON CONFLICT(slug) DO UPDATE`: an existing slug keeps its id and
   * gets the new columns; a new slug is inserted with id `nextId`. Either way
   * the written row now has the latest `updated_at`, so it goes last.
   */
  function Upsert<T>(rows: seq<Keyed<T>>, slug: string, data: T, nextId: nat): (r: seq<Keyed<T>>)
    requires UniqueSlugs(rows)
  {
    if HasSlug(rows, slug) then
      var k :| 0 <= k < |rows| && rows[k].slug == slug;
      Without(rows, k) + [Keyed(rows[k].id, slug, data)]
    else
      rows + [Keyed(nextId, slug, data)]
  }

  /**
   * Re-adding a slug overwrites that row without adding one: it keeps its id,
   * takes the new columns and goes last; every other row is kept in order.
   */
  lemma UpsertExisting<T>(rows: seq<Keyed<T>>, slug: string, data: T, nextId: nat, k: nat)
    requires UniqueSlugs(rows)
    requires k < |rows| && rows[k].slug == slug
    ensures Upsert(rows, slug, data, nextId) == Without(rows, k) + [Keyed(rows[k].id, slug, data)]
    ensures UniqueSlugs(Upsert(rows, slug, data, nextId))
  {
    var k' :| 0 <= k' < |rows| && rows[k'].slug == slug && Upsert(rows, slug, data, nextId) == Without(rows, k') + [Keyed(rows[k'].id, slug, data)];
    assert k' == k;
    var r := Without(rows, k) + [Keyed(rows[k].id, slug, data)];
    forall i, j | 0 <= i < j < |r| ensures r[i].slug != r[j].slug {
      var i0 := if i < k then i else i + 1;
      if j < |r| - 1 {
        var j0 := if j < k then j else j + 1;
        assert r[i] == rows[i0] && r[j] == rows[j0] && i0 < j0;
      } else {
        assert r[i] == rows[i0] && i0 != k;
      }
    }
  }

  /** A new slug adds exactly one row, last, with the next id. */
  lemma UpsertNew<T>(rows: seq<Keyed<T>>, slug: string, data: T, nextId: nat)
    requires UniqueSlugs(rows)
    requires !HasSlug(rows, slug)
    ensures Upsert(rows, slug, data, nextId) == rows + [Keyed(nextId, slug, data)]
    ensures UniqueSlugs(Upsert(rows, slug, data, nextId))
  {
    var r := rows + [Keyed(nextId, slug, data)];
    assert forall i :: 0 <= i < |rows| ==> rows[i].slug != slug;
    assert forall i :: 0 <= i < |rows| ==> r[i] == rows[i];
  }

  /** `SELECT * FROM pages ORDER BY updated_at DESC`: newest first. */
  function NewestFirst<T>(rows: seq<T>): (r: seq<T>)
    ensures |r| == |rows|
    ensures forall i :: 0 <= i < |rows| ==> r[i] == rows[|rows| - 1 - i]
    decreases |rows|
  {
    if rows == [] then [] else [rows[|rows| - 1]] + NewestFirst(rows[..|rows| - 1])
  }

  // ---------------------------------------------------------------------------
  // navigation
  // ---------------------------------------------------------------------------

  datatype NavRow = NavRow(
    id: nat, title: string, url: string, position: int, parentId: Option<int>,
    isActive: bool, openNewTab: bool, cssClass: Option<string>)

  /** `ORDER BY position ASC, id ASC` */
  predicate NavBefore(a: NavRow, b: NavRow) {
    a.position < b.position || (a.position == b.position && a.id <= b.id)
  }

  predicate NavSorted(rows: seq<NavRow>) {
    forall i, j :: 0 <= i < j < |rows| ==> NavBefore(rows[i], rows[j])
  }

  /** Places `x` before the first row it precedes. */
  function InsertNav(x: NavRow, rows: seq<NavRow>): seq<NavRow>
    decreases |rows|
  {
    if rows == [] || NavBefore(x, rows[0]) then [x] + rows
    else [rows[0]] + InsertNav(x, rows[1..])
  }

  /** The rows in `ORDER BY position, id` order. */
  function SortNav(rows: seq<NavRow>): seq<NavRow>
    decreases |rows|
  {
    if rows == [] then [] else InsertNav(rows[0], SortNav(rows[1..]))
  }

  /** `WHERE is_active = 1` */
  function ActiveOnly(rows: seq<NavRow>): seq<NavRow>
    decreases |rows|
  {
    if rows == [] then []
    else (if rows[0].isActive then [rows[0]] else []) + ActiveOnly(rows[1..])
  }

  /** `get_navigation_items(active_only)` */
  function Listing(rows: seq<NavRow>, activeOnly: bool): seq<NavRow> {
    SortNav(if activeOnly then ActiveOnly(rows) else rows)
  }

  lemma {:induction false} InsertNavMultiset(x: NavRow, rows: seq<NavRow>)
    ensures multiset(InsertNav(x, rows)) == multiset(rows) + multiset{x}
    decreases |rows|
  {
    if rows != [] && !NavBefore(x, rows[0]) {
      InsertNavMultiset(x, rows[1..]);
      assert rows == [rows[0]] + rows[1..];
    }
  }

  lemma {:induction false} InsertNavSorted(x: NavRow, rows: seq<NavRow>)
    requires NavSorted(rows)
    ensures NavSorted(InsertNav(x, rows))
    decreases |rows|
  {
    if rows == [] {
    } else if NavBefore(x, rows[0]) {
      InsertFront(x, rows);
    } else {
      InsertNavSorted(x, rows[1..]);
      InsertNavMultiset(x, rows[1..]);
      InsertBehind(x, rows, InsertNav(x, rows[1..]));
    }
  }

  /** A row that precedes the first of a sorted listing may go in front. */
  lemma InsertFront(x: NavRow, rows: seq<NavRow>)
    requires NavSorted(rows) && rows != [] && NavBefore(x, rows[0])
    ensures NavSorted([x] + rows)
  {
    var r := [x] + rows;
    forall i, j | 0 <= i < j < |r| ensures NavBefore(r[i], r[j]) {
      assert r[j] == rows[j - 1];
      if i > 0 {
        assert r[i] == rows[i - 1];
      } else if j > 1 {
        assert NavBefore(rows[0], rows[j - 1]);
      }
    }
  }

  /** The first row stays first when `x` goes into the sorted rest behind it. */
  lemma InsertBehind(x: NavRow, rows: seq<NavRow>, t: seq<NavRow>)
    requires NavSorted(rows) && rows != [] && !NavBefore(x, rows[0])
    requires NavSorted(t) && multiset(t) == multiset(rows[1..]) + multiset{x}
    ensures NavSorted([rows[0]] + t)
  {
    var r := [rows[0]] + t;
    forall i, j | 0 <= i < j < |r| ensures NavBefore(r[i], r[j]) {
      assert r[j] == t[j - 1];
      if i > 0 {
        assert r[i] == t[i - 1];
      } else {
        assert t[j - 1] in multiset(rows[1..]) + multiset{x};
        if t[j - 1] != x {
          var k :| 0 <= k < |rows[1..]| && rows[1..][k] == t[j - 1];
          assert rows[k + 1] == t[j - 1];
        }
      }
    }
  }

  /** Sorting gives an ordered permutation of the rows. */
  lemma {:induction false} SortNavSpec(rows: seq<NavRow>)
    ensures NavSorted(SortNav(rows))
    ensures multiset(SortNav(rows)) == multiset(rows)
    decreases |rows|
  {
    if rows != [] {
      SortNavSpec(rows[1..]);
      InsertNavSorted(rows[0], SortNav(rows[1..]));
      InsertNavMultiset(rows[0], SortNav(rows[1..]));
      assert rows == [rows[0]] + rows[1..];
    }
  }

  /** The filter keeps each active row as often as it occurs, and nothing else. */
  lemma {:induction false} ActiveOnlyCount(rows: seq<NavRow>)
    ensures forall x :: multiset(ActiveOnly(rows))[x] == if x.isActive then multiset(rows)[x] else 0
    decreases |rows|
  {
    if rows != [] {
      ActiveOnlyCount(rows[1..]);
      assert rows == [rows[0]] + rows[1..];
    }
  }

  /**
   * The listing is ordered by position, then id, and holds every row as often
   * as the table does, or, with `active_only`, exactly the active rows.
   */
  lemma ListingSpec(rows: seq<NavRow>, activeOnly: bool)
    ensures NavSorted(Listing(rows, activeOnly))
    ensures !activeOnly ==> multiset(Listing(rows, activeOnly)) == multiset(rows)
    ensures activeOnly ==> forall x ::
      multiset(Listing(rows, activeOnly))[x] == if x.isActive then multiset(rows)[x] else 0
  {
    SortNavSpec(if activeOnly then ActiveOnly(rows) else rows);
    if activeOnly {
      ActiveOnlyCount(rows);
    }
  }

  /** Ids are unique, increase with insertion order, and never exceed the AUTOINCREMENT mark. */
  predicate IdsIncreasing(rows: seq<NavRow>) {
    forall i, j :: 0 <= i < j < |rows| ==> rows[i].id < rows[j].id
  }

  predicate NavIds(rows: seq<NavRow>, lastId: nat) {
    IdsIncreasing(rows) &&
    (forall i :: 0 <= i < |rows| ==> 0 < rows[i].id <= lastId)
  }

  /** Two sorted listings of the same rows start with the same row, when ids are unique. */
  lemma SameFirst(a: seq<NavRow>, b: seq<NavRow>)
    requires NavSorted(a) && NavSorted(b) && multiset(a) == multiset(b) && a != []
    requires IdsIncreasing(a) || forall i, j :: 0 <= i < j < |a| ==> a[i].id != a[j].id
    ensures b != [] && a[0] == b[0]
  {
    assert a[0] in multiset(b);
    var i :| 0 <= i < |b| && b[i] == a[0];
    assert b[0] in multiset(a);
    var j :| 0 <= j < |a| && a[j] == b[0];
    assert NavBefore(a[0], a[j]);
    assert NavBefore(b[0], b[i]);
    assert a[0].id == a[j].id;
    assert j == 0;
  }

  /** With unique ids the order by (position, id) is total, so the listing is determined by the rows. */
  lemma {:induction false} SortedUnique(a: seq<NavRow>, b: seq<NavRow>)
    requires NavSorted(a) && NavSorted(b) && multiset(a) == multiset(b)
    requires forall i, j :: 0 <= i < j < |a| ==> a[i].id != a[j].id
    ensures a == b
    decreases |a|
  {
    if a == [] {
      assert |b| == |multiset(b)| == 0;
    } else {
      SameFirst(a, b);
      assert a == [a[0]] + a[1..];
      assert b == [b[0]] + b[1..];
      assert multiset(a) == multiset{a[0]} + multiset(a[1..]);
      assert multiset(b) == multiset{b[0]} + multiset(b[1..]);
      forall x ensures multiset(a[1..])[x] == multiset(b[1..])[x] {
        assert multiset(a)[x] == multiset{a[0]}[x] + multiset(a[1..])[x];
        assert multiset(b)[x] == multiset{b[0]}[x] + multiset(b[1..])[x];
      }
      assert multiset(a[1..]) == multiset(b[1..]);
      SortedUnique(a[1..], b[1..]);
    }
  }

  /** The fields `update_navigation_item` was given; `None` means "leave as is". */
  datatype NavPatch = NavPatch(
    title: Option<string>, url: Option<string>, position: Option<int>, parentId: Option<int>,
    isActive: Option<bool>, openNewTab: Option<bool>, cssClass: Option<string>)

  /** One `col = ?` item of the `SET` list. */
  datatype Assignment =
    | SetTitle(title: string)
    | SetUrl(url: string)
    | SetPosition(position: int)
    | SetParent(parentId: int)
    | SetActive(isActive: bool)
    | SetNewTab(openNewTab: bool)
    | SetClass(cssClass: string)

  function Assign(row: NavRow, a: Assignment): NavRow {
    match a
    case SetTitle(t) => row.(title := t)
    case SetUrl(u) => row.(url := u)
    case SetPosition(p) => row.(position := p)
    case SetParent(p) => row.(parentId := Some(p))
    case SetActive(b) => row.(isActive := b)
    case SetNewTab(b) => row.(openNewTab := b)
    case SetClass(c) => row.(cssClass := Some(c))
  }

  /** The row after the `SET` list, applied left to right. */
  function AssignAll(row: NavRow, updates: seq<Assignment>): NavRow
    decreases |updates|
  {
    if updates == [] then row
    else Assign(AssignAll(row, updates[..|updates| - 1]), updates[|updates| - 1])
  }

  /** The seven updatable columns, numbered in the order `update_navigation_item` visits them. */
  const ColumnCount: nat := 7

  /** The `SET` item for column `k`, when the patch gives that column. */
  function Given(p: NavPatch, k: nat): (r: seq<Assignment>)
    ensures |r| <= 1
  {
    match k
    case 0 => if p.title.Some? then [SetTitle(p.title.value)] else []
    case 1 => if p.url.Some? then [SetUrl(p.url.value)] else []
    case 2 => if p.position.Some? then [SetPosition(p.position.value)] else []
    case 3 => if p.parentId.Some? then [SetParent(p.parentId.value)] else []
    case 4 => if p.isActive.Some? then [SetActive(p.isActive.value)] else []
    case 5 => if p.openNewTab.Some? then [SetNewTab(p.openNewTab.value)] else []
    case _ => if p.cssClass.Some? then [SetClass(p.cssClass.value)] else []
  }

  /** The row with column `k` taken from the patch, when the patch gives it. */
  function PatchColumn(row: NavRow, p: NavPatch, k: nat): NavRow {
    match k
    case 0 => if p.title.Some? then row.(title := p.title.value) else row
    case 1 => if p.url.Some? then row.(url := p.url.value) else row
    case 2 => if p.position.Some? then row.(position := p.position.value) else row
    case 3 => if p.parentId.Some? then row.(parentId := p.parentId) else row
    case 4 => if p.isActive.Some? then row.(isActive := p.isActive.value) else row
    case 5 => if p.openNewTab.Some? then row.(openNewTab := p.openNewTab.value) else row
    case _ => if p.cssClass.Some? then row.(cssClass := p.cssClass) else row
  }

  /** The `SET` items for the first `k` columns. */
  function AssignmentsUpTo(p: NavPatch, k: nat): seq<Assignment>
    decreases k
  {
    if k == 0 then [] else AssignmentsUpTo(p, k - 1) + Given(p, k - 1)
  }

  /** The row with the first `k` columns taken from the patch. */
  function PatchedUpTo(row: NavRow, p: NavPatch, k: nat): NavRow
    decreases k
  {
    if k == 0 then row else PatchColumn(PatchedUpTo(row, p, k - 1), p, k - 1)
  }

  /** The `SET` list `update_navigation_item` builds: one item per column that is not `None`. */
  function Assignments(p: NavPatch): (r: seq<Assignment>)
    ensures r == [] <==> EmptyPatch(p)
  {
    AssignmentsUpTo(p, ColumnCount)
  }

  /** The row as the patch leaves it. */
  function Patched(row: NavRow, p: NavPatch): NavRow {
    PatchedUpTo(row, p, ColumnCount)
  }

  predicate EmptyPatch(p: NavPatch) {
    p.title.None? && p.url.None? && p.position.None? && p.parentId.None? &&
    p.isActive.None? && p.openNewTab.None? && p.cssClass.None?
  }

  /** Column `c` is the only one `PatchColumn` may change. */
  lemma ColumnFields(row: NavRow, p: NavPatch, c: nat)
    requires c < ColumnCount
    ensures var r := PatchColumn(row, p, c);
      r.id == row.id &&
      r.title == (if c == 0 && p.title.Some? then p.title.value else row.title) &&
      r.url == (if c == 1 && p.url.Some? then p.url.value else row.url) &&
      r.position == (if c == 2 && p.position.Some? then p.position.value else row.position) &&
      r.parentId == (if c == 3 && p.parentId.Some? then p.parentId else row.parentId) &&
      r.isActive == (if c == 4 && p.isActive.Some? then p.isActive.value else row.isActive) &&
      r.openNewTab == (if c == 5 && p.openNewTab.Some? then p.openNewTab.value else row.openNewTab) &&
      r.cssClass == (if c == 6 && p.cssClass.Some? then p.cssClass else row.cssClass)
  {
  }

  /** After the first `k` columns, exactly those the patch gives among them have changed. */
  lemma {:induction false} PatchedUpToFields(row: NavRow, p: NavPatch, k: nat)
    requires k <= ColumnCount
    ensures var r := PatchedUpTo(row, p, k);
      r.id == row.id &&
      r.title == (if 0 < k && p.title.Some? then p.title.value else row.title) &&
      r.url == (if 1 < k && p.url.Some? then p.url.value else row.url) &&
      r.position == (if 2 < k && p.position.Some? then p.position.value else row.position) &&
      r.parentId == (if 3 < k && p.parentId.Some? then p.parentId else row.parentId) &&
      r.isActive == (if 4 < k && p.isActive.Some? then p.isActive.value else row.isActive) &&
      r.openNewTab == (if 5 < k && p.openNewTab.Some? then p.openNewTab.value else row.openNewTab) &&
      r.cssClass == (if 6 < k && p.cssClass.Some? then p.cssClass else row.cssClass)
    decreases k
  {
    if k > 0 {
      PatchedUpToFields(row, p, k - 1);
      ColumnFields(PatchedUpTo(row, p, k - 1), p, k - 1);
    }
  }

  /** A field keeps its value exactly when the patch leaves it `None`; the id never changes. */
  lemma PatchedFields(row: NavRow, p: NavPatch)
    ensures Patched(row, p).id == row.id
    ensures Patched(row, p).title == p.title.GetOr(row.title)
    ensures Patched(row, p).url == p.url.GetOr(row.url)
    ensures Patched(row, p).position == p.position.GetOr(row.position)
    ensures Patched(row, p).parentId == if p.parentId.Some? then p.parentId else row.parentId
    ensures Patched(row, p).isActive == p.isActive.GetOr(row.isActive)
    ensures Patched(row, p).openNewTab == p.openNewTab.GetOr(row.openNewTab)
    ensures Patched(row, p).cssClass == if p.cssClass.Some? then p.cssClass else row.cssClass
    ensures EmptyPatch(p) ==> Patched(row, p) == row
  {
    PatchedUpToFields(row, p, ColumnCount);
  }

  /** The `SET` item for a column does what `PatchColumn` says. */
  lemma GivenColumn(row: NavRow, p: NavPatch, c: nat)
    ensures (if Given(p, c) == [] then row else Assign(row, Given(p, c)[0])) == PatchColumn(row, p, c)
  {
  }

  /** Appending at most one assignment to the `SET` list applies it last. */
  lemma AssignStep(row: NavRow, u: seq<Assignment>, a: seq<Assignment>)
    requires |a| <= 1
    ensures AssignAll(row, u + a) == if a == [] then AssignAll(row, u) else Assign(AssignAll(row, u), a[0])
  {
    if a == [] {
      assert u + a == u;
    } else {
      assert (u + a)[..|u|] == u;
    }
  }

  /** Running the built `SET` list writes exactly the fields the patch gives and keeps the rest. */
  lemma {:induction false} AssignmentsPatch(row: NavRow, p: NavPatch, k: nat)
    ensures AssignAll(row, AssignmentsUpTo(p, k)) == PatchedUpTo(row, p, k)
    decreases k
  {
    if k > 0 {
      AssignmentsPatch(row, p, k - 1);
      AssignmentsNext(row, p, k);
    }
  }

  lemma AssignmentsNext(row: NavRow, p: NavPatch, k: nat)
    requires k > 0 && AssignAll(row, AssignmentsUpTo(p, k - 1)) == PatchedUpTo(row, p, k - 1)
    ensures AssignAll(row, AssignmentsUpTo(p, k)) == PatchedUpTo(row, p, k)
  {
    var u, g, cur := AssignmentsUpTo(p, k - 1), Given(p, k - 1), PatchedUpTo(row, p, k - 1);
    AssignStep(row, u, g);
    GivenColumn(cur, p, k - 1);
  }

  /** `parent_id = None` means "unchanged", so an update can never set the parent back to NULL. */
  lemma ParentNeverCleared(row: NavRow, p: NavPatch)
    ensures row.parentId.Some? ==> Patched(row, p).parentId.Some?
    ensures Patched(row, p).parentId.None? <==> row.parentId.None? && p.parentId.None?
  {
    PatchedFields(row, p);
  }

  /** `UPDATE navigation SET ... WHERE id = ?` on every row with that id. */
  function PatchRows(rows: seq<NavRow>, id: int, p: NavPatch): (r: seq<NavRow>)
    ensures |r| == |rows|
    ensures forall i :: 0 <= i < |rows| ==> r[i] == if rows[i].id == id then Patched(rows[i], p) else rows[i]
  {
    seq(|rows|, i requires 0 <= i < |rows| => if rows[i].id == id then Patched(rows[i], p) else rows[i])
  }

  /** `UPDATE navigation SET <updates> WHERE id = ?` */
  function ApplyUpdate(rows: seq<NavRow>, id: int, updates: seq<Assignment>): (r: seq<NavRow>)
    ensures |r| == |rows|
    ensures forall i :: 0 <= i < |rows| ==> r[i] == if rows[i].id == id then AssignAll(rows[i], updates) else rows[i]
  {
    seq(|rows|, i requires 0 <= i < |rows| => if rows[i].id == id then AssignAll(rows[i], updates) else rows[i])
  }

  /** Running the built `SET` list on the table patches the row with that id and keeps the ids. */
  lemma UpdateByAssignments(rows: seq<NavRow>, lastId: nat, id: int, p: NavPatch)
    requires NavIds(rows, lastId)
    ensures ApplyUpdate(rows, id, Assignments(p)) == PatchRows(rows, id, p)
    ensures NavIds(PatchRows(rows, id, p), lastId)
  {
    var r := PatchRows(rows, id, p);
    forall i | 0 <= i < |rows| ensures r[i].id == rows[i].id {
      PatchedFields(rows[i], p);
    }
    forall i | 0 <= i < |rows| ensures ApplyUpdate(rows, id, Assignments(p))[i] == r[i] {
      AssignmentsPatch(rows[i], p, ColumnCount);
    }
  }

  predicate HasId(rows: seq<NavRow>, id: int) {
    exists i :: 0 <= i < |rows| && rows[i].id == id
  }

  /** `DELETE FROM navigation WHERE id = ?` */
  function DeleteId(rows: seq<NavRow>, id: int): (r: seq<NavRow>)
    ensures |r| <= |rows|
    decreases |rows|
  {
    if rows == [] then []
    else (if rows[0].id == id then [] else [rows[0]]) + DeleteId(rows[1..], id)
  }

  /** The rows left are exactly those without the id. */
  lemma {:induction false} DeleteMembers(rows: seq<NavRow>, id: int)
    ensures forall x :: x in DeleteId(rows, id) <==> x in rows && x.id != id
    decreases |rows|
  {
    if rows != [] {
      DeleteMembers(rows[1..], id);
      assert rows == [rows[0]] + rows[1..];
    }
  }

  /** A lower bound on every id survives a delete. */
  lemma {:induction false} DeleteAbove(rows: seq<NavRow>, id: int, b: int)
    requires forall i :: 0 <= i < |rows| ==> b < rows[i].id
    ensures forall i :: 0 <= i < |DeleteId(rows, id)| ==> b < DeleteId(rows, id)[i].id
    decreases |rows|
  {
    if rows != [] {
      DeleteAbove(rows[1..], id, b);
      var t := DeleteId(rows[1..], id);
      var r := DeleteId(rows, id);
      forall i | 0 <= i < |r| ensures b < r[i].id {
        if rows[0].id != id && i > 0 {
          assert r[i] == t[i - 1];
        }
      }
    }
  }

  /**
   * Deleting an item removes that one row (ids are unique) and keeps its
   * children: foreign keys are never switched on, so ON DELETE CASCADE does
   * not fire.
   */
  lemma DeleteKeepsChildren(rows: seq<NavRow>, lastId: nat, id: int)
    requires NavIds(rows, lastId)
    ensures HasId(rows, id) ==> |DeleteId(rows, id)| == |rows| - 1
    ensures !HasId(rows, id) ==> DeleteId(rows, id) == rows
    ensures forall x :: x in rows && x.parentId == Some(id) && x.id != id ==> x in DeleteId(rows, id)
  {
    DeleteCount(rows, id);
    DeleteMembers(rows, id);
  }

  lemma {:induction false} DeleteCount(rows: seq<NavRow>, id: int)
    requires IdsIncreasing(rows)
    ensures HasId(rows, id) ==> |DeleteId(rows, id)| == |rows| - 1
    ensures !HasId(rows, id) ==> DeleteId(rows, id) == rows
    decreases |rows|
  {
    if rows != [] {
      DeleteStep(rows, id);
      DeleteCount(rows[1..], id);
    }
  }

  /** One step of `DeleteId`: the first row goes exactly when it has the id, and then no later row has it. */
  lemma DeleteStep(rows: seq<NavRow>, id: int)
    requires rows != [] && IdsIncreasing(rows)
    ensures IdsIncreasing(rows[1..])
    ensures DeleteId(rows, id) == (if rows[0].id == id then [] else [rows[0]]) + DeleteId(rows[1..], id)
    ensures rows[0].id == id ==> HasId(rows, id) && !HasId(rows[1..], id)
    ensures rows[0].id != id ==> (HasId(rows, id) <==> HasId(rows[1..], id))
  {
    var t := rows[1..];
    forall i, j | 0 <= i < j < |t| ensures t[i].id < t[j].id {
      assert t[i] == rows[i + 1] && t[j] == rows[j + 1];
    }
    if rows[0].id == id {
      forall i | 0 <= i < |t| ensures t[i].id != id {
        assert t[i] == rows[i + 1];
      }
    } else {
      if HasId(rows, id) {
        var i :| 0 <= i < |rows| && rows[i].id == id;
        assert t[i - 1] == rows[i];
      }
      if HasId(t, id) {
        var i :| 0 <= i < |t| && t[i].id == id;
        assert rows[i + 1] == t[i];
      }
    }
  }

  /** The position an item has after the `(id, position)` pairs: the last pair for its id wins. */
  function FinalPosition(pairs: seq<(int, int)>, id: int, current: int): int
    decreases |pairs|
  {
    if pairs == [] then current
    else if pairs[|pairs| - 1].0 == id then pairs[|pairs| - 1].1
    else FinalPosition(pairs[..|pairs| - 1], id, current)
  }

  /** Sets the position of every row with the given id. */
  function Repositioned(rows: seq<NavRow>, id: int, pos: int): (r: seq<NavRow>)
    ensures |r| == |rows|
    ensures forall i :: 0 <= i < |rows| ==> r[i] == if rows[i].id == id then rows[i].(position := pos) else rows[i]
  {
    seq(|rows|, i requires 0 <= i < |rows| => if rows[i].id == id then rows[i].(position := pos) else rows[i])
  }

  /** `reorder_navigation(order_list)`: one `UPDATE ... SET position` per pair, left to right. */
  function Reordered(rows: seq<NavRow>, pairs: seq<(int, int)>): (r: seq<NavRow>)
    ensures |r| == |rows|
    decreases |pairs|
  {
    if pairs == [] then rows
    else
      var last := pairs[|pairs| - 1];
      Repositioned(Reordered(rows, pairs[..|pairs| - 1]), last.0, last.1)
  }

  /**
   * Only `position` changes; an id without a row is ignored; when an id
   * appears in several pairs the last one wins.
   */
  lemma {:induction false} ReorderedSpec(rows: seq<NavRow>, pairs: seq<(int, int)>)
    ensures |Reordered(rows, pairs)| == |rows|
    ensures forall i :: 0 <= i < |rows| ==>
      Reordered(rows, pairs)[i] == rows[i].(position := FinalPosition(pairs, rows[i].id, rows[i].position))
    decreases |pairs|
  {
    if pairs != [] {
      ReorderedSpec(rows, pairs[..|pairs| - 1]);
    }
  }

  /**
   * The `SET` list of `update_navigation_item`, built one `if` per column:
   * it holds an item for each column the patch gives, in column order.
   */
  method SetList(patch: NavPatch) returns (updates: seq<Assignment>)
    ensures updates == Assignments(patch)
    ensures updates == [] <==> EmptyPatch(patch)
  {
    updates := [];
    ghost var k: nat := 0;
    if patch.title.Some? { updates := updates + [SetTitle(patch.title.value)]; }
    k := k + 1;
    assert updates == AssignmentsUpTo(patch, k);
    if patch.url.Some? { updates := updates + [SetUrl(patch.url.value)]; }
    k := k + 1;
    assert updates == AssignmentsUpTo(patch, k);
    if patch.position.Some? { updates := updates + [SetPosition(patch.position.value)]; }
    k := k + 1;
    assert updates == AssignmentsUpTo(patch, k);
    if patch.parentId.Some? { updates := updates + [SetParent(patch.parentId.value)]; }
    k := k + 1;
    assert updates == AssignmentsUpTo(patch, k);
    if patch.isActive.Some? { updates := updates + [SetActive(patch.isActive.value)]; }
    k := k + 1;
    assert updates == AssignmentsUpTo(patch, k);
    if patch.openNewTab.Some? { updates := updates + [SetNewTab(patch.openNewTab.value)]; }
    k := k + 1;
    assert updates == AssignmentsUpTo(patch, k);
    if patch.cssClass.Some? { updates := updates + [SetClass(patch.cssClass.value)]; }
    k := k + 1;
    assert updates == AssignmentsUpTo(patch, k);
  }

  // ---------------------------------------------------------------------------
  // The store
  // ---------------------------------------------------------------------------

  /** Every table of the store and every AUTOINCREMENT mark, as one value. */
  datatype Tables = Tables(
    siteConfig: map<string, string>, settings: map<(string, string), string>,
    designConfig: seq<DesignRow>, lastDesignId: nat,
    pages: seq<Keyed<Page>>, lastPageId: nat,
    articles: seq<Keyed<Article>>, lastArticleId: nat,
    navigation: seq<NavRow>, lastNavId: nat)

  class ForgeWebDB {
    var siteConfig: map<string, string>
    var settings: map<(string, string), string>
    var designConfig: seq<DesignRow>
    var lastDesignId: nat
    var pages: seq<Keyed<Page>>
    var lastPageId: nat
    var articles: seq<Keyed<Article>>
    var lastArticleId: nat
    var navigation: seq<NavRow>
    var lastNavId: nat

    /** The constraints the schema and the code keep. */
    predicate Valid()
      reads this
    {
      DesignValid(designConfig) && KeyedValid(pages, lastPageId) && KeyedValid(articles, lastArticleId) &&
      NavIds(navigation, lastNavId)
    }

    /** The store's whole state. */
    function State(): Tables
      reads this
    {
      Tables(siteConfig, settings, designConfig, lastDesignId, pages, lastPageId, articles, lastArticleId,
             navigation, lastNavId)
    }

    /** `initialize_db` on a new database file: every table empty. */
    constructor ()
      ensures Valid()
      ensures siteConfig == map[] && settings == map[] && designConfig == [] && pages == [] &&
              articles == [] && navigation == []
      ensures lastDesignId == 0 && lastPageId == 0 && lastArticleId == 0 && lastNavId == 0
    {
      siteConfig := map[];
      settings := map[];
      designConfig := [];
      lastDesignId := 0;
      pages := [];
      lastPageId := 0;
      articles := [];
      lastArticleId := 0;
      navigation := [];
      lastNavId := 0;
    }

    function GetSiteConfig(key: string, default: Json.Value): Json.Value
      reads this
    {
      Get(siteConfig, key, default)
    }

    method SetSiteConfig(key: string, value: Json.Value)
      requires Valid()
      modifies this
      ensures Valid()
      ensures siteConfig == old(siteConfig)[key := StoredText(value)]
      ensures settings == old(settings) && designConfig == old(designConfig) && pages == old(pages)
      ensures articles == old(articles) && navigation == old(navigation)
      ensures lastPageId == old(lastPageId) && lastArticleId == old(lastArticleId)
      ensures lastNavId == old(lastNavId) && lastDesignId == old(lastDesignId)
    {
      siteConfig := siteConfig[key := StoredText(value)];
    }

    function GetSetting(category: string, key: string, default: Json.Value): Json.Value
      reads this
    {
      Get(settings, (category, key), default)
    }

    method SetSetting(category: string, key: string, value: Json.Value)
      requires Valid()
      modifies this
      ensures Valid()
      ensures settings == old(settings)[(category, key) := StoredText(value)]
      ensures siteConfig == old(siteConfig) && designConfig == old(designConfig) && pages == old(pages)
      ensures articles == old(articles) && navigation == old(navigation)
      ensures lastPageId == old(lastPageId) && lastArticleId == old(lastArticleId)
      ensures lastNavId == old(lastNavId) && lastDesignId == old(lastDesignId)
    {
      settings := settings[(category, key) := StoredText(value)];
    }

    /** `get_design_config()`: the active row with `cdn_urls` decoded, or `None`. */
    function GetDesignConfig(): (r: Option<DesignConfig>)
      requires Valid()
      reads this
      ensures r.None? <==> forall i :: 0 <= i < |designConfig| ==> !designConfig[i].isActive
    {
      Design(designConfig)
    }

    method SetDesignConfig(systemName: string, cdnUrls: Json.Value, bodyClasses: string, customCss: string)
      requires Valid()
      modifies this
      ensures Valid()
      ensures designConfig == Deactivated(old(designConfig)) +
        [DesignRow(old(lastDesignId) + 1, systemName, Json.Encode(cdnUrls), bodyClasses, customCss, true)]
      ensures lastDesignId == old(lastDesignId) + 1
      ensures GetDesignConfig() == Some(DesignConfig(systemName, cdnUrls, bodyClasses, customCss))
      ensures siteConfig == old(siteConfig) && settings == old(settings) && pages == old(pages)
      ensures articles == old(articles) && navigation == old(navigation)
      ensures lastPageId == old(lastPageId) && lastArticleId == old(lastArticleId) && lastNavId == old(lastNavId)
    {
      Json.DecodeEncode(cdnUrls);
      PutDesignRow(DesignRow(lastDesignId + 1, systemName, Json.Encode(cdnUrls), bodyClasses, customCss, true));
    }

    /** The write of `set_design_config`, on a row whose `cdn_urls` is already encoded. */
    method PutDesignRow(row: DesignRow)
      requires Valid() && row.id == lastDesignId + 1 && row.isActive && Json.Decode(row.cdnUrls).Some?
      modifies this
      ensures Valid()
      ensures designConfig == Deactivated(old(designConfig)) + [row]
      ensures lastDesignId == old(lastDesignId) + 1
      ensures GetDesignConfig() == Some(DesignConfig(row.systemName, Json.Decode(row.cdnUrls).value, row.bodyClasses, row.customCss))
      ensures siteConfig == old(siteConfig) && settings == old(settings) && pages == old(pages)
      ensures articles == old(articles) && navigation == old(navigation)
      ensures lastPageId == old(lastPageId) && lastArticleId == old(lastArticleId) && lastNavId == old(lastNavId)
    {
      DesignAfterPut(designConfig, row);
      designConfig := Deactivated(designConfig) + [row];
      lastDesignId := lastDesignId + 1;
    }

    /** `add_page`: returns the new row's id when a row was inserted, `None` when an existing slug was updated. */
    method AddPage(title: string, slug: string, filePath: string, template: string, status: string)
      returns (inserted: Option<nat>)
      requires Valid()
      modifies this
      ensures Valid()
      ensures pages == Upsert(old(pages), slug, Page(title, filePath, template, status), old(lastPageId) + 1)
      ensures inserted.Some? <==> !HasSlug(old(pages), slug)
      ensures inserted.Some? ==> inserted.value == old(lastPageId) + 1 == lastPageId
      ensures inserted.None? ==> lastPageId == old(lastPageId)
      ensures siteConfig == old(siteConfig) && settings == old(settings) && designConfig == old(designConfig)
      ensures articles == old(articles) && navigation == old(navigation)
      ensures lastArticleId == old(lastArticleId) && lastNavId == old(lastNavId) && lastDesignId == old(lastDesignId)
    {
      var data := Page(title, filePath, template, status);
      UpsertIds(pages, slug, data, lastPageId);
      var known := HasSlug(pages, slug);
      pages := Upsert(pages, slug, data, lastPageId + 1);
      if known {
        inserted := None;
      } else {
        lastPageId := lastPageId + 1;
        inserted := Some(lastPageId);
      }
    }

    /** `add_article`, the same upsert on the `articles` table. */
    method AddArticle(title: string, slug: string, filePath: string, category: string, tags: string,
                      excerpt: string, author: string, status: string)
      returns (inserted: Option<nat>)
      requires Valid()
      modifies this
      ensures Valid()
      ensures articles == Upsert(old(articles), slug,
        Article(title, filePath, category, tags, excerpt, author, status), old(lastArticleId) + 1)
      ensures inserted.Some? <==> !HasSlug(old(articles), slug)
      ensures inserted.Some? ==> inserted.value == old(lastArticleId) + 1 == lastArticleId
      ensures inserted.None? ==> lastArticleId == old(lastArticleId)
      ensures siteConfig == old(siteConfig) && settings == old(settings) && designConfig == old(designConfig)
      ensures pages == old(pages) && navigation == old(navigation)
      ensures lastPageId == old(lastPageId) && lastNavId == old(lastNavId) && lastDesignId == old(lastDesignId)
    {
      var data := Article(title, filePath, category, tags, excerpt, author, status);
      UpsertIds(articles, slug, data, lastArticleId);
      var known := HasSlug(articles, slug);
      articles := Upsert(articles, slug, data, lastArticleId + 1);
      if known {
        inserted := None;
      } else {
        lastArticleId := lastArticleId + 1;
        inserted := Some(lastArticleId);
      }
    }

    function GetAllPages(): seq<Keyed<Page>>
      reads this
    {
      NewestFirst(pages)
    }

    function GetAllArticles(): seq<Keyed<Article>>
      reads this
    {
      NewestFirst(articles)
    }

    /** `get_navigation_items(active_only)` */
    function GetNavigationItems(activeOnly: bool): (r: seq<NavRow>)
      reads this
      ensures NavSorted(r)
      ensures !activeOnly ==> multiset(r) == multiset(navigation)
      ensures activeOnly ==> forall x :: multiset(r)[x] == if x.isActive then multiset(navigation)[x] else 0
    {
      ListingSpec(navigation, activeOnly);
      Listing(navigation, activeOnly)
    }

    /** `add_navigation_item`: one new row whose id no row has had before. */
    method AddNavigationItem(title: string, url: string, position: int, parentId: Option<int>,
                             isActive: bool, openNewTab: bool, cssClass: Option<string>)
      returns (id: nat)
      requires Valid()
      modifies this
      ensures Valid()
      ensures id == old(lastNavId) + 1 == lastNavId
      ensures forall i :: 0 <= i < |old(navigation)| ==> old(navigation)[i].id < id
      ensures navigation == old(navigation) + [NavRow(id, title, url, position, parentId, isActive, openNewTab, cssClass)]
      ensures siteConfig == old(siteConfig) && settings == old(settings) && designConfig == old(designConfig)
      ensures pages == old(pages) && articles == old(articles)
      ensures lastPageId == old(lastPageId) && lastArticleId == old(lastArticleId) && lastDesignId == old(lastDesignId)
    {
      lastNavId := lastNavId + 1;
      id := lastNavId;
      navigation := navigation + [NavRow(id, title, url, position, parentId, isActive, openNewTab, cssClass)];
    }

    /**
     * `update_navigation_item`: builds the `SET` list from the fields that are
     * not `None`; writes nothing and answers false when the list is empty;
     * otherwise answers whether a row with that id was updated.
     */
    method UpdateNavigationItem(navId: int, patch: NavPatch) returns (success: bool)
      requires Valid()
      modifies this
      ensures Valid()
      ensures success <==> !EmptyPatch(patch) && HasId(old(navigation), navId)
      ensures navigation == if EmptyPatch(patch) then old(navigation) else PatchRows(old(navigation), navId, patch)
      ensures siteConfig == old(siteConfig) && settings == old(settings) && designConfig == old(designConfig)
      ensures pages == old(pages) && articles == old(articles)
      ensures lastNavId == old(lastNavId) && lastPageId == old(lastPageId)
      ensures lastArticleId == old(lastArticleId) && lastDesignId == old(lastDesignId)
    {
      var updates := SetList(patch);
      if updates == [] {
        return false;
      }
      success := HasId(navigation, navId);
      UpdateByAssignments(navigation, lastNavId, navId, patch);
      navigation := ApplyUpdate(navigation, navId, updates);
    }

    /** `delete_navigation_item`: removes the row with that id, and only it. */
    method DeleteNavigationItem(navId: int) returns (existed: bool)
      requires Valid()
      modifies this
      ensures Valid()
      ensures existed <==> HasId(old(navigation), navId)
      ensures navigation == DeleteId(old(navigation), navId)
      ensures siteConfig == old(siteConfig) && settings == old(settings) && designConfig == old(designConfig)
      ensures pages == old(pages) && articles == old(articles)
      ensures lastNavId == old(lastNavId) && lastPageId == old(lastPageId)
      ensures lastArticleId == old(lastArticleId) && lastDesignId == old(lastDesignId)
    {
      existed := HasId(navigation, navId);
      DeleteIds(navigation, lastNavId, navId);
      navigation := DeleteId(navigation, navId);
    }

    /** `reorder_navigation(order_list)`: one position update per pair, in order. */
    method ReorderNavigation(orderList: seq<(int, int)>)
      requires Valid()
      modifies this
      ensures Valid()
      ensures navigation == Reordered(old(navigation), orderList)
      ensures siteConfig == old(siteConfig) && settings == old(settings) && designConfig == old(designConfig)
      ensures pages == old(pages) && articles == old(articles)
      ensures lastNavId == old(lastNavId) && lastPageId == old(lastPageId)
      ensures lastArticleId == old(lastArticleId) && lastDesignId == old(lastDesignId)
    {
      var k := 0;
      while k < |orderList|
        invariant 0 <= k <= |orderList|
        invariant navigation == Reordered(old(navigation), orderList[..k])
        invariant Valid()
        invariant siteConfig == old(siteConfig) && settings == old(settings) && designConfig == old(designConfig)
        invariant pages == old(pages) && articles == old(articles)
        invariant lastNavId == old(lastNavId) && lastPageId == old(lastPageId)
        invariant lastArticleId == old(lastArticleId) && lastDesignId == old(lastDesignId)
      {
        var (navId, position) := orderList[k];
        assert orderList[..k + 1][..k] == orderList[..k];
        navigation := Repositioned(navigation, navId, position);
        k := k + 1;
      }
      assert orderList[..k] == orderList;
    }
  }

  /** Ids stay unique and bounded by the AUTOINCREMENT mark after an upsert. */
  lemma UpsertIds<T>(rows: seq<Keyed<T>>, slug: string, data: T, lastId: nat)
    requires KeyedValid(rows, lastId)
    ensures KeyedValid(Upsert(rows, slug, data, lastId + 1), if HasSlug(rows, slug) then lastId else lastId + 1)
  {
    if HasSlug(rows, slug) {
      var k :| 0 <= k < |rows| && rows[k].slug == slug;
      UpsertExisting(rows, slug, data, lastId + 1, k);
      MovedLastIds(rows, k, slug, data);
    } else {
      UpsertNew(rows, slug, data, lastId + 1);
      assert forall i :: 0 <= i < |rows| ==> (rows + [Keyed(lastId + 1, slug, data)])[i] == rows[i];
    }
  }

  /** Moving a row to the end under its own id keeps ids unique. */
  lemma MovedLastIds<T>(rows: seq<Keyed<T>>, k: nat, slug: string, data: T)
    requires k < |rows| && UniqueIds(rows)
    ensures UniqueIds(Without(rows, k) + [Keyed(rows[k].id, slug, data)])
  {
    var r := Without(rows, k) + [Keyed(rows[k].id, slug, data)];
    forall i, j | 0 <= i < j < |r| ensures r[i].id != r[j].id {
      var i0 := if i < k then i else i + 1;
      if j < |r| - 1 {
        var j0 := if j < k then j else j + 1;
        assert r[i] == rows[i0] && r[j] == rows[j0] && i0 < j0;
      } else {
        assert r[i] == rows[i0] && i0 != k;
      }
    }
  }

  /** Deleting keeps the ids increasing. */
  lemma DeleteIds(rows: seq<NavRow>, lastId: nat, id: int)
    requires NavIds(rows, lastId)
    ensures NavIds(DeleteId(rows, id), lastId)
  {
    DeleteSubsequence(rows, id);
    DeleteMembers(rows, id);
    var r := DeleteId(rows, id);
    forall i | 0 <= i < |r| ensures 0 < r[i].id <= lastId {
      assert r[i] in rows;
    }
  }

  /** The rows left by a delete keep their relative order. */
  lemma {:induction false} DeleteSubsequence(rows: seq<NavRow>, id: int)
    requires IdsIncreasing(rows)
    ensures IdsIncreasing(DeleteId(rows, id))
    decreases |rows|
  {
    if rows != [] {
      DeleteStep(rows, id);
      DeleteSubsequence(rows[1..], id);
      var t := DeleteId(rows[1..], id);
      if rows[0].id != id {
        DeleteAbove(rows[1..], id, rows[0].id);
        var r := [rows[0]] + t;
        forall i, j | 0 <= i < j < |r| ensures r[i].id < r[j].id {
          assert r[j] == t[j - 1];
          if i > 0 {
            assert r[i] == t[i - 1];
          }
        }
      }
    }
  }


}
