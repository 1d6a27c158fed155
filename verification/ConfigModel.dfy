/**
 The backup document: what each section exports, how a record is planned against the rows of a
 hub, and how a planned record is written. Rows are addressed by name.
 */
module ConfigModel {
  import opened Common
  import opened Mac
  import opened JsonValues

  const SENTINEL := Str("__redacted__")

  // ---------- columns ----------

  /** What a null value of a text column comes to: itself, an error, or a default that only a new row is given. */
  datatype Missing = Allowed | Forbidden | Default(text: string)

  /**
   How a column leaves and enters: text as it is, text that is never null, a truth value, any value
   with an empty one filled in, or a number.
   */
  datatype Column =
    | Text(width: Option<nat>, missing: Missing)
    | Line(width: Option<nat>)
    | Flag(absent: bool)
    | Filled(shown: Json, stored: Json)
    | Whole(default: int)

  function OrElse(v: Json, empty: Json): Json {
    if Truthy(v) then v else empty
  }

  function Shown(c: Column, v: Json): Json {
    match c
    case Flag(_) => Bool(Truthy(v))
    case Filled(shown, _) => OrElse(v, shown)
    case _ => v
  }

  /** Text a column of this width takes; PostgreSQL text holds no NUL. */
  predicate Fits(s: string, width: Option<nat>) {
    (width.Some? ==> |s| <= width.value) && '\0' !in s
  }

  predicate InRange(n: int) {
    -0x8000_0000 <= n < 0x8000_0000
  }

  /** The number a run of digits stands for; single underscores may stand between them. */
  function Digits(s: string): Option<int> {
    if s == "" || !('0' <= s[|s| - 1] <= '9') then None
    else
      var last := s[|s| - 1] as int - '0' as int;
      if |s| == 1 then Some(last)
      else
        var before := Digits(if s[|s| - 2] == '_' then s[..|s| - 2] else s[..|s| - 1]);
        if before.None? then None else Some(10 * before.value + last)
  }

  /** Python's int of a value; None where it raises. */
  function IntFrom(v: Json): Option<int> {
    if IsInt(v) then Some(IntOf(v))
    else if !v.Str? || Trim(v.s) == "" then None
    else
      var t := Trim(v.s);
      var n := Digits(if t[0] in "+-" then t[1..] else t);
      if n.None? then None else Some(if t[0] == '-' then -n.value else n.value)
  }

  /** None where the conversion raises or the column refuses what comes out; a new row has its defaults filled in. */
  function Stored(c: Column, creating: bool, fields: Fields, key: string): Option<Json> {
    match c
    case Text(width, missing) =>
      var v := Get(fields, key);
      if v.Str? && Fits(v.s, width) then Some(v)
      else if v.Null? && missing.Allowed? then Some(Null)
      else if v.Null? && missing.Default? && creating then Some(Str(missing.text))
      else None
    case Line(width) =>
      var v := OrElse(Get(fields, key), Str(""));
      if v.Str? && Fits(v.s, width) then Some(v) else None
    case Flag(absent) => Some(Bool(if key in fields then Truthy(fields[key]) else absent))
    case Filled(_, stored) => Some(OrElse(Get(fields, key), stored))
    case Whole(default) =>
      var n := if key in fields then IntFrom(fields[key]) else Some(default);
      if n.Some? && InRange(n.value) then Some(Num(n.value)) else None
  }

  /** What the table's own constraints leave possible in the column. */
  predicate Typed(c: Column, v: Json) {
    match c
    case Text(width, missing) => if v.Null? then missing.Allowed? else v.Str? && Fits(v.s, width)
    case Line(width) => v.Str? && Fits(v.s, width)
    case Flag(_) => v.Bool?
    case Filled(shown, _) => Truthy(v) || v == shown
    case Whole(_) => v.Num? && InRange(v.n)
  }

  /** The filled-in value of an empty column is the same both ways, or the column is not empty. */
  predicate Survives(c: Column, v: Json) {
    c.Filled? ==> Truthy(v) || c.stored == c.shown
  }

  lemma ColumnRoundTripsExactly(c: Column, creating: bool, v: Json, fields: Fields, key: string)
    requires Typed(c, v) && key in fields && fields[key] == Shown(c, v) && (c.Filled? ==> !Truthy(c.shown))
    ensures Stored(c, creating, fields, key).Some?
    ensures Stored(c, creating, fields, key) == Some(v) <==> Survives(c, v)
  {
  }

  /** A section: the width of its names, its columns, and whether its rows link to a site or carry a config blob. */
  datatype Schema = Schema(name: nat, columns: map<string, Column>, linked: bool, configured: bool)

  predicate Proper(m: Schema) {
    && "site_name" !in m.columns && "config" !in m.columns
    && forall k | k in m.columns && m.columns[k].Filled? ::
         !Truthy(m.columns[k].shown) && (m.columns[k].stored == m.columns[k].shown || Truthy(m.columns[k].stored))
  }

  const NOTHING := Obj(map[])
  const NO_ITEMS := Arr([])

  const MEMO := Text(None, Allowed)
  const NOTE := Text(Some(500), Allowed)

  const SITES := Schema(120, map["description" := MEMO], false, false)
  const GROUPS := Schema(120, map["description" := MEMO], true, false)
  const RULES := Schema(
    120,
    map["description" := NOTE,
        "enabled" := Flag(true),
        "probe" := Filled(NOTHING, NOTHING),
        "target" := Filled(NOTHING, NOTHING),
        "action" := Filled(NOTHING, NOTHING),
        "escalation" := Filled(NOTHING, Obj(map["kind" := Str("stop")])),
        "maintenance_windows" := Filled(NO_ITEMS, NO_ITEMS),
        "failure_threshold" := Whole(3),
        "recovery_threshold" := Whole(2),
        "window_seconds" := Whole(60),
        "cooldown_seconds" := Whole(300),
        "max_retries" := Whole(3),
        "retry_delay_seconds" := Whole(60)],
    true, false)
  const SCHEDULES := Schema(
    120,
    map["description" := NOTE,
        "enabled" := Flag(true),
        "kind" := Text(Some(40), Forbidden),
        "recurrence" := Text(Some(20), Default("daily")),
        "at_time_utc" := Text(Some(5), Allowed),
        "weekdays" := Filled(NO_ITEMS, NO_ITEMS),
        "duration_seconds" := Whole(0),
        "target" := Filled(NOTHING, NOTHING),
        "power_off_seconds" := Whole(5),
        "post_reboot_holdoff_seconds" := Whole(180)],
    false, false)
  const SCENES := Schema(120, map["description" := NOTE, "items" := Filled(NO_ITEMS, NO_ITEMS)], false, false)
  const SOURCES := Schema(
    200,
    map["kind" := Text(Some(40), Forbidden),
        "host" := Line(Some(200)),
        "port" := Whole(8060),
        "enabled" := Flag(true),
        "poll_interval_seconds" := Whole(30)],
    false, true)

  // ---------- rows and tables ----------

  /** A row: the exported columns, the site it links to, its config blob, and what a backup does not carry. */
  datatype Row = Row(id: Id, cols: Fields, site: Option<Id>, config: Fields, kept: Fields)

  type Table = map<string, Row>

  /** The site of this id; names and ids are unique. */
  ghost predicate NamesSite(sites: Table, name: string, id: Id) {
    name in sites && sites[name].id == id
  }

  ghost function SiteName(sites: Table, site: Option<Id>): Json {
    if site.Some? && exists name :: NamesSite(sites, name, site.value) then
      var name :| NamesSite(sites, name, site.value);
      Str(name)
    else Null
  }

  function SiteId(sites: Table, name: Json): Option<Id> {
    if name.Str? && name.s in sites then Some(sites[name.s].id) else None
  }

  ghost predicate UniqueIds(t: Table) {
    forall a, b | a in t && b in t && t[a].id == t[b].id :: a == b
  }

  lemma SiteNameThere(sites: Table, name: string)
    requires UniqueIds(sites) && name in sites
    ensures SiteName(sites, Some(sites[name].id)) == Str(name)
  {
    assert NamesSite(sites, name, sites[name].id);
  }

  ghost predicate LinkResolves(sites: Table, site: Option<Id>) {
    site.Some? ==> exists name :: NamesSite(sites, name, site.value)
  }

  /** A link that resolves is found again under the name it is exported by. */
  lemma SiteLinkRoundTrips(sites: Table, site: Option<Id>)
    requires UniqueIds(sites) && LinkResolves(sites, site)
    ensures SiteId(sites, SiteName(sites, site)) == site
  {
  }

  // ---------- export ----------

  datatype Rec = Rec(name: Option<string>, fields: Fields)

  function Lower(s: string): string {
    seq(|s|, i requires 0 <= i < |s| => if 'A' <= s[i] <= 'Z' then (s[i] as int + 32) as char else s[i])
  }

  predicate Contains(s: string, part: string) {
    part <= s || (s != "" && Contains(s[1..], part))
  }

  predicate Secret(name: string, tokens: seq<string>) {
    exists t | t in tokens :: Contains(Lower(name), t)
  }

  /** The words that mark a setting, or a key of a config blob, as secret; none if secrets are included. */
  datatype Redaction = Redaction(settings: seq<string>, config: seq<string>)

  const REDACTED := Redaction(["password", "secret", "token", "api_key", "hmac"],
                              ["token", "api_key", "jwt", "community", "password", "secret"])
  const INCLUDED := Redaction([], [])

  function RedactedConfig(config: Fields, tokens: seq<string>): Fields {
    map k | k in config :: if Secret(k, tokens) then SENTINEL else config[k]
  }

  ghost function Exported(m: Schema, red: Redaction, sites: Table, name: string, row: Row): Rec {
    Rec(Some(name),
        (map k | k in m.columns :: Shown(m.columns[k], Get(row.cols, k)))
        + (if m.linked then map["site_name" := SiteName(sites, row.site)] else map[])
        + (if m.configured then map["config" := Obj(RedactedConfig(row.config, red.config))] else map[]))
  }

  /** Names of the table, none twice. */
  predicate Listed<T>(order: seq<string>, t: map<string, T>) {
    && (forall n | n in order :: n in t)
    && (forall i, j | 0 <= i < j < |order| :: order[i] != order[j])
  }

  /** The order a table is listed in: every name once. */
  predicate Lists<T>(order: seq<string>, t: map<string, T>) {
    Listed(order, t) && forall n | n in t :: n in order
  }

  /** What each row of a section exports. */
  ghost function Exports(m: Schema, red: Redaction, sites: Table, t: Table): map<string, Rec> {
    map n | n in t :: Exported(m, red, sites, n, t[n])
  }

  /** The records in the order they are listed. */
  function Section(out: map<string, Rec>, order: seq<string>): seq<Rec>
    requires Listed(order, out)
  {
    seq(|order|, i requires 0 <= i < |order| => out[order[i]])
  }

  // ---------- plan ----------

  datatype Disposition = Create | Update | Skip | Conflict

  datatype Item = Item(key: string, disposition: Disposition, rec: Rec)

  function NameOf(rec: Rec): string {
    if rec.name.None? then "" else Trim(rec.name.value)
  }

  function NamesOf(recs: seq<Rec>): set<string> {
    set r | r in recs && NameOf(r) != "" :: NameOf(r)
  }

  function PlanOne(existing: set<string>, seen: set<string>, rec: Rec): Item {
    var name := NameOf(rec);
    if name == "" then Item("(unnamed)", Skip, rec)
    else if name in seen then Item(name, Conflict, rec)
    else if name in existing then Item(name, Update, rec)
    else Item(name, Create, rec)
  }

  function PlanNamed(existing: set<string>, recs: seq<Rec>): seq<Item> {
    seq(|recs|, i requires 0 <= i < |recs| => PlanOne(existing, NamesOf(recs[..i]), recs[i]))
  }

  // ---------- apply ----------

  datatype Tally = Tally(created: nat, updated: nat, skipped: nat)

  datatype Outcome<T> = Outcome(rows: map<string, T>, tally: Tally)

  predicate Writes(it: Item) {
    it.disposition == Create || it.disposition == Update
  }

  function StoredColumns(m: Schema, creating: bool, fields: Fields): Option<Fields> {
    if forall k | k in m.columns :: Stored(m.columns[k], creating, fields, k).Some?
    then Some(map k | k in m.columns :: Stored(m.columns[k], creating, fields, k).value) else None
  }

  function ConfigOf(fields: Fields): Option<Fields> {
    var v := OrElse(Get(fields, "config"), NOTHING);
    if v.Obj? then Some(map k | k in v.fields && v.fields[k] != SENTINEL :: v.fields[k]) else None
  }

  /**
   No conversion of the record raises, a list or an object as a site's name included, and the table takes
   the result.
   */
  predicate Acceptable(m: Schema, creating: bool, rec: Rec) {
    && rec.name.Some?
    && (creating ==> Fits(rec.name.value, Some(m.name)))
    && StoredColumns(m, creating, rec.fields).Some?
    && (m.linked ==> !Get(rec.fields, "site_name").Arr? && !Get(rec.fields, "site_name").Obj?)
    && (m.configured ==> ConfigOf(rec.fields).Some?)
  }

  /** One record over the row of its name, or onto a new row. */
  function Written(m: Schema, sites: Table, mint: string -> Id, row: Option<Row>, rec: Rec): Row
    requires Acceptable(m, row.None?, rec)
  {
    var cols := StoredColumns(m, row.None?, rec.fields).value;
    var config := if m.configured then ConfigOf(rec.fields).value else map[];
    var site := if m.linked then SiteId(sites, Get(rec.fields, "site_name")) else None;
    match row
    case None => Row(mint(rec.name.value), cols, site, config, map[])
    case Some(r) => r.(cols := cols, site := if m.linked then site else r.site, config := r.config + config)
  }

  /** How a section writes a record over a row or onto a new one; None where that fails. */
  type Writer<!T> = (Option<T>, Rec) -> Option<T>

  function RowWriter(m: Schema, sites: Table, mint: string -> Id): Writer<Row> {
    (row: Option<Row>, rec: Rec) =>
      if Acceptable(m, row.None?, rec) then Some(Written(m, sites, mint, row, rec)) else None
  }

  /** The width of a setting's name. */
  const SETTING_NAME: nat := 80

  predicate AcceptableSetting(creating: bool, rec: Rec) {
    creating ==> rec.name.Some? && Fits(rec.name.value, Some(SETTING_NAME))
  }

  function SettingWriter(): Writer<Json> {
    (row: Option<Json>, rec: Rec) => if AcceptableSetting(row.None?, rec) then Some(Get(rec.fields, "value")) else None
  }

  function Skipped<T>(o: Outcome<T>): Outcome<T> {
    o.(tally := o.tally.(skipped := o.tally.skipped + 1))
  }

  /** The rows found at the start say what is updated; creating one name twice breaks its key. */
  function Put<T>(start: map<string, T>, o: Outcome<T>, name: string, row: T): Option<Outcome<T>> {
    if name in start then Some(Outcome(o.rows[name := row], o.tally.(updated := o.tally.updated + 1)))
    else if name in o.rows then None
    else Some(Outcome(o.rows[name := row], o.tally.(created := o.tally.created + 1)))
  }

  function RowIn<T>(t: map<string, T>, name: string): Option<T> {
    if name in t then Some(t[name]) else None
  }

  function ApplyItem<T>(write: Writer<T>, start: map<string, T>, o: Outcome<T>, it: Item): Option<Outcome<T>> {
    if !Writes(it) then Some(Skipped(o))
    else if it.rec.name.None? then None
    else
      var name := it.rec.name.value;
      var row := write(if name in start then RowIn(o.rows, name) else None, it.rec);
      if row.None? then None else Put(start, o, name, row.value)
  }

  function Applied<T>(write: Writer<T>, start: map<string, T>, items: seq<Item>): Option<Outcome<T>> {
    if items == [] then Some(Outcome(start, Tally(0, 0, 0)))
    else
      var o := Applied(write, start, items[..|items| - 1]);
      if o.None? then None else ApplyItem(write, start, o.value, items[|items| - 1])
  }

  // ---------- settings ----------

  function PlanSetting(existing: set<string>, rec: Rec): seq<Item> {
    var name := NameOf(rec);
    if name == "" then []
    else if Get(rec.fields, "value") == SENTINEL || "network." <= name then [Item(name, Skip, rec)]
    else [Item(name, if name in existing then Update else Create, rec)]
  }

  function PlanSettings(existing: set<string>, recs: seq<Rec>): seq<Item> {
    if recs == [] then [] else PlanSettings(existing, recs[..|recs| - 1]) + PlanSetting(existing, recs[|recs| - 1])
  }

  function ExportedSetting(red: Redaction, name: string, value: Json): Rec {
    Rec(Some(name), map["value" := if Secret(name, red.settings) then SENTINEL else value])
  }

  function ExportsOfSettings(red: Redaction, settings: map<string, Json>): map<string, Rec> {
    map n | n in settings :: ExportedSetting(red, n, settings[n])
  }
}
