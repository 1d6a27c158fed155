/**
 The outbox applier: what one event of a peer hub does to the local tables.

 The four syncable tables are one map from entity to row, a row is a map from
 column to value, and the database's constraints are the predicate Consistent
 that every flush checks.
 */
module SyncModel {
  import opened Common

  datatype Kind = Device | Site | Group | User

  datatype Column =
    | IdColumn | UpdatedAt | SiteId | OrganizationId | Name | Email | PowerSource
    | Attribute(name: string)

  datatype Value = Null | Text(text: string) | Stamp(at: Time)

  type Columns = map<Column, Value>

  datatype Entity = Entity(kind: Kind, id: Id)

  type Rows = map<Entity, Columns>

  /** One table: its columns, those holding timestamps, those NOT NULL, and the column defaults. */
  datatype Table = Table(columns: set<Column>, stamps: set<Column>, required: set<Column>, defaults: Columns)

  datatype Tombstone = Tombstone(kind: Kind, createdAt: Time, fromSeq: nat)

  datatype Replica = Replica(rows: Rows, tombstones: map<Id, Tombstone>)

  /** An event as the applier receives it; entityKind is None for a type that does not sync. */
  datatype Event = Event(
    seqNo: nat, at: Option<Time>, entityKind: Option<Kind>, entityId: Id,
    payload: Columns, tombstoneFor: Option<Id>, claim: Option<Id>)

  /**
   What one hub fixes for its applier: the schema, the organizations that exist, the
   organization that owns a Default site, whether org isolation is enforced or only
   logged, and which of several rows an unordered SELECT returns first.
   */
  datatype Config = Config(
    schema: map<Kind, Table>, orgs: set<Id>, defaultOrg: Option<Id>, enforcing: bool, pick: set<Id> -> Id)

  const DEFAULT_SITE_NAME := "Default"

  ghost predicate ValidTable(kind: Kind, t: Table) {
    && {IdColumn, UpdatedAt} <= t.columns
    && UpdatedAt in t.stamps
    && UpdatedAt in t.required
    && t.stamps !! {IdColumn, SiteId, OrganizationId, Name, Email, PowerSource}
    && t.stamps <= t.columns
    && t.required <= t.columns
    && t.defaults.Keys == t.columns
    && (forall c | c in t.stamps :: !t.defaults[c].Text?)
    && (forall c | c in {SiteId, OrganizationId, Email, PowerSource} * t.columns :: t.defaults[c] == Null)
    && (PowerSource in t.columns <==> kind == Device)
    && PowerSource !in t.required
    && (SiteId in t.columns <==> kind in {Device, Group})
    && (kind in {Site, Group} ==> {OrganizationId, Name} <= t.required)
    && (kind == User ==> Email in t.required)
  }

  ghost predicate ValidConfig(cfg: Config) {
    && (forall k: Kind :: k in cfg.schema && ValidTable(k, cfg.schema[k]))
    && (forall ids: set<Id> :: ids != {} ==> cfg.pick(ids) in ids)
    && (cfg.defaultOrg.Some? ==> cfg.defaultOrg.value in cfg.orgs)
  }

  // ---------- the database's constraints ----------

  predicate RowTyped(t: Table, id: Id, row: Columns) {
    && row.Keys == t.columns
    && IdColumn in row && row[IdColumn] == Text(id)
    && (forall c | c in t.stamps :: c in row && !row[c].Text?)
    && (forall c | c in t.required :: c in row && row[c] != Null)
  }

  predicate Typed(cfg: Config, rows: Rows)
    requires ValidConfig(cfg)
  {
    forall e | e in rows :: RowTyped(cfg.schema[e.kind], e.id, rows[e])
  }

  predicate RefersTo(rows: Rows, v: Value, kind: Kind) {
    v == Null || (v.Text? && Entity(kind, v.text) in rows)
  }

  /** The columns of one row that point at other tables point at rows that exist. */
  predicate RowLinked(cfg: Config, rows: Rows, e: Entity, row: Columns)
  {
    && (e.kind in {Device, Group} && SiteId in row ==> RefersTo(rows, row[SiteId], Site))
    && (e.kind == Device && PowerSource in row ==> RefersTo(rows, row[PowerSource], Device))
    && (e.kind in {Site, Group} && OrganizationId in row
        ==> row[OrganizationId].Text? && row[OrganizationId].text in cfg.orgs)
  }

  predicate Linked(cfg: Config, rows: Rows)
  {
    forall e | e in rows :: RowLinked(cfg, rows, e, rows[e])
  }

  /** Two rows of one table that a UNIQUE constraint does not let coexist. */
  predicate Clash(kind: Kind, a: Columns, b: Columns) {
    if kind == User then
      Email in a && Email in b && a[Email] == b[Email]
    else if kind in {Site, Group} then
      && OrganizationId in a && OrganizationId in b && a[OrganizationId] == b[OrganizationId]
      && Name in a && Name in b && a[Name] == b[Name]
    else
      false
  }

  predicate Unique(rows: Rows)
  {
    forall e, f | e in rows && f in rows :: e != f && e.kind == f.kind ==> !Clash(e.kind, rows[e], rows[f])
  }

  predicate Consistent(cfg: Config, rows: Rows)
    requires ValidConfig(cfg)
  {
    Typed(cfg, rows) && Linked(cfg, rows) && Unique(rows)
  }

  // ---------- reading the event ----------

  predicate Truthy(v: Value) {
    v != Null && v != Text("")
  }

  /** event_org_id: the organization an event claims, an empty claim counting as none. */
  function ClaimedOrg(ev: Event): Option<Id> {
    if ev.claim.Some? && ev.claim.value != "" then ev.claim else None
  }

  /** A timestamp column arrives as an ISO string; one that does not parse is no timestamp. */
  function Coerce(v: Value): Value {
    if v.Stamp? then v else Null
  }

  /** The payload columns this table has, timestamps coerced. */
  function Incoming(t: Table, payload: Columns): (incoming: Columns)
    ensures incoming.Keys == payload.Keys * t.columns
  {
    map c | c in payload && c in t.columns :: if c in t.stamps then Coerce(payload[c]) else payload[c]
  }

  /** A site or group is pinned to the organization of the verified claim. */
  function Pinned(kind: Kind, incoming: Columns, scope: Option<Id>): Columns {
    if scope.Some? && kind in {Site, Group} then incoming[OrganizationId := Text(scope.value)] else incoming
  }

  function IncomingTime(ev: Event): Option<Time> {
    if UpdatedAt in ev.payload && ev.payload[UpdatedAt].Stamp? then Some(ev.payload[UpdatedAt].at) else ev.at
  }

  // ---------- lookups under the event's scope ----------

  /** Enforced isolation hides the sites and groups of other organizations. */
  predicate Visible(cfg: Config, rows: Rows, scope: Option<Id>, e: Entity)
    requires e in rows
  {
    cfg.enforcing && scope.Some? && e.kind in {Site, Group} ==>
      OrganizationId in rows[e] && rows[e][OrganizationId] == Text(scope.value)
  }

  predicate Found(cfg: Config, rows: Rows, scope: Option<Id>, e: Entity) {
    e in rows && Visible(cfg, rows, scope, e)
  }

  function VisibleIds(cfg: Config, rows: Rows, scope: Option<Id>, kind: Kind): set<Id> {
    set e | e in rows && e.kind == kind && Visible(cfg, rows, scope, e) :: e.id
  }

  function IdsWith(cfg: Config, rows: Rows, scope: Option<Id>, kind: Kind, c: Column, v: Value): set<Id> {
    set e | e in rows && e.kind == kind && Visible(cfg, rows, scope, e) && c in rows[e] && rows[e][c] == v :: e.id
  }

  function NaturalKey(kind: Kind): Option<Column> {
    match kind
    case Device => None
    case Site => Some(Name)
    case Group => Some(Name)
    case User => Some(Email)
  }

  /** The local row an upsert lands on: by id, else by the table's natural key. */
  function Existing(cfg: Config, rows: Rows, scope: Option<Id>, kind: Kind, id: Id, incoming: Columns): Option<Entity>
    requires ValidConfig(cfg)
  {
    if Found(cfg, rows, scope, Entity(kind, id)) then
      Some(Entity(kind, id))
    else
      var key := NaturalKey(kind);
      if key.None? || key.value !in incoming || incoming[key.value] == Null then
        None
      else
        var ids := IdsWith(cfg, rows, scope, kind, key.value, incoming[key.value]);
        if ids == {} then None else Some(Entity(kind, cfg.pick(ids)))
  }

  // ---------- writing ----------

  /** A new row: what is given, the write time for an absent updated_at, else the column's default. */
  function NewRow(t: Table, given: Columns, id: Id, now: Time): (row: Columns)
    requires t.defaults.Keys == t.columns
    ensures row.Keys == t.columns
  {
    map c | c in t.columns ::
      if c == IdColumn then Text(id)
      else if c in given then given[c]
      else if c == UpdatedAt then Stamp(now)
      else t.defaults[c]
  }

  /** Every sent column is assigned except the primary key. */
  function Assigned(row: Columns, incoming: Columns): (r: Columns)
    ensures r.Keys == row.Keys + (incoming.Keys - {IdColumn})
  {
    map c | c in row.Keys + (incoming.Keys - {IdColumn}) ::
      if c in incoming && c != IdColumn then incoming[c] else row[c]
  }

  /** ON DELETE SET NULL: a row that pointed at the deleted row points at nothing. */
  function Detached(gone: Entity, row: Columns): (r: Columns)
    ensures r.Keys == row.Keys
  {
    map c | c in row ::
      if row[c] == Text(gone.id) && ((c == SiteId && gone.kind == Site) || (c == PowerSource && gone.kind == Device))
      then Null else row[c]
  }

  function Removed(rows: Rows, gone: Entity): (r: Rows)
    ensures r.Keys == rows.Keys - {gone}
  {
    map e | e in rows && e != gone :: Detached(gone, rows[e])
  }

  // ---------- the Default site ----------

  datatype Refusal = UnknownOrg | NoDefaultOrg | CrossOrgWrite | Integrity

  datatype SiteChoice = Local(id: Id, rows: Rows) | Unresolved(why: Refusal)

  /**
   resolve_default_site_id: the site named Default, else the only site, else a new Default site.
   A constraint the new site breaks still stands at the final flush, which then refuses the event.
   */
  function DefaultSite(cfg: Config, rows: Rows, scope: Option<Id>, now: Time, newId: Id): SiteChoice
    requires ValidConfig(cfg)
  {
    var named := IdsWith(cfg, rows, scope, Site, Name, Text(DEFAULT_SITE_NAME));
    var all := VisibleIds(cfg, rows, scope, Site);
    if named != {} then
      Local(cfg.pick(named), rows)
    else if |all| == 1 then
      Local(cfg.pick(all), rows)
    else if cfg.defaultOrg.None? then
      Unresolved(NoDefaultOrg)
    else if cfg.enforcing && scope.Some? && scope.value != cfg.defaultOrg.value then
      Unresolved(CrossOrgWrite)
    else
      var e := Entity(Site, newId);
      var row := NewRow(cfg.schema[Site],
                        map[Name := Text(DEFAULT_SITE_NAME), OrganizationId := Text(cfg.defaultOrg.value)], newId, now);
      if e in rows then Unresolved(Integrity) else Local(newId, rows[e := row])
  }

  /** Where the site link of an incoming device or group lands. */
  function Remap(cfg: Config, rows: Rows, scope: Option<Id>, kind: Kind, incoming: Columns, now: Time,
                 newId: Id): SiteChoice
    requires ValidConfig(cfg) && SiteId in incoming
  {
    var v := incoming[SiteId];
    if v.Text? && Found(cfg, rows, scope, Entity(Site, v.text)) then Local(v.text, rows)
    else DefaultSite(cfg, rows, scope, now, newId)
  }

  predicate NeedsSite(kind: Kind, incoming: Columns) {
    kind in {Device, Group} && SiteId in incoming && Truthy(incoming[SiteId])
  }

  // ---------- one event ----------

  datatype Outcome = Applied | Skipped | Refused(why: Refusal)

  datatype Step = Step(replica: Replica, outcome: Outcome)

  function NewId(incoming: Columns, entityId: Id, newId: Id): Id {
    if IdColumn !in incoming then entityId
    else if incoming[IdColumn].Text? then incoming[IdColumn].text
    else newId
  }

  function Deletion(ev: Event): Option<Id> {
    if ev.tombstoneFor.Some? && ev.tombstoneFor.value != "" then ev.tombstoneFor else None
  }

  function Delete(cfg: Config, r: Replica, ev: Event, kind: Kind, id: Id, scope: Option<Id>, now: Time): Replica {
    Replica(
      if Found(cfg, r.rows, scope, Entity(kind, id)) then Removed(r.rows, Entity(kind, id)) else r.rows,
      if id in r.tombstones then r.tombstones else r.tombstones[id := Tombstone(kind, now, ev.seqNo)])
  }

  /** Insert or last-writer-wins update of the remapped columns. */
  function Upsert(cfg: Config, r: Replica, ev: Event, kind: Kind, incoming: Columns, scope: Option<Id>, now: Time,
                  newId: Id): Step
    requires ValidConfig(cfg)
  {
    var target := Existing(cfg, r.rows, scope, kind, ev.entityId, incoming);
    if target.None? then
      var e := Entity(kind, NewId(incoming, ev.entityId, newId));
      if e in r.rows then Step(r, Refused(Integrity))
      else Step(r.(rows := r.rows[e := NewRow(cfg.schema[kind], incoming, e.id, now)]), Applied)
    else if target.value !in r.rows then
      Step(r, Refused(Integrity))
    else
      var row := r.rows[target.value];
      if IncomingTime(ev).Some? && UpdatedAt in row && row[UpdatedAt].Stamp?
         && IncomingTime(ev).value <= row[UpdatedAt].at then
        Step(r, Skipped)
      else
        Step(r.(rows := r.rows[target.value := Assigned(row, incoming)]), Applied)
  }

  datatype Prepared = Ready(incoming: Columns, rows: Rows) | Unready(why: Refusal)

  /** The columns to write: the sent ones, pinned to the claim and with a site link that exists here. */
  function Prepare(cfg: Config, rows: Rows, ev: Event, kind: Kind, scope: Option<Id>, now: Time, newId: Id): Prepared
    requires ValidConfig(cfg)
  {
    var incoming := Pinned(kind, Incoming(cfg.schema[kind], ev.payload), scope);
    if !NeedsSite(kind, incoming) then Ready(incoming, rows)
    else
      match Remap(cfg, rows, scope, kind, incoming, now, newId)
      case Unresolved(why) => Unready(why)
      case Local(id, rows') => Ready(incoming[SiteId := Text(id)], rows')
  }

  function Core(cfg: Config, r: Replica, ev: Event, scope: Option<Id>, now: Time, newId: Id): Step
    requires ValidConfig(cfg)
  {
    if ev.entityId in r.tombstones || ev.entityKind.None? then
      Step(r, Skipped)
    else if Deletion(ev).Some? then
      Step(Delete(cfg, r, ev, ev.entityKind.value, Deletion(ev).value, scope, now), Applied)
    else if Incoming(cfg.schema[ev.entityKind.value], ev.payload) == map[] then
      Step(r, Skipped)
    else
      var kind := ev.entityKind.value;
      match Prepare(cfg, r.rows, ev, kind, scope, now, newId)
      case Unready(why) => Step(r, Refused(why))
      case Ready(incoming, rows) => Upsert(cfg, r.(rows := rows), ev, kind, incoming, scope, now, newId)
  }

  /** apply_outbox_event: verify the claim, apply in its scope, flush; a refusal rolls everything back. */
  function Apply(cfg: Config, r: Replica, ev: Event, now: Time, newId: Id): (s: Step)
    requires ValidConfig(cfg)
    ensures s.replica == r || Consistent(cfg, s.replica.rows)
  {
    var scope := ClaimedOrg(ev);
    if scope.Some? && scope.value !in cfg.orgs then
      Step(r, Refused(UnknownOrg))
    else
      var s := Core(cfg, r, ev, scope, now, newId);
      if s.outcome.Refused? then Step(r, s.outcome)
      else if !Consistent(cfg, s.replica.rows) then Step(r, Refused(Integrity))
      else s
  }
}
