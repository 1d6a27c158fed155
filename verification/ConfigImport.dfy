/** The whole import: nine sections, planned against one hub and written in one transaction. */
module ConfigImport {
  import opened Common
  import opened Mac
  import opened JsonValues
  import opened ConfigModel
  import opened ConfigBackup
  import opened ConfigRoundTrip

  datatype Device = Device(mac: Option<string>, config: Json, mode: Json)

  datatype Hub = Hub(
    settings: map<string, Json>, sites: Table, groups: Table, members: set<(Id, Id)>,
    rules: Table, schedules: Table, scenes: Table, sources: Table, devices: map<Id, Device>)

  datatype Member = Member(group: Option<string>, mac: string)

  datatype DeviceRec = DeviceRec(mac: string, config: Json, mode: Json)

  /** A parsed backup document. */
  datatype Doc = Doc(
    settings: seq<Rec>, sites: seq<Rec>, groups: seq<Rec>, members: seq<Member>,
    rules: seq<Rec>, schedules: seq<Rec>, scenes: seq<Rec>, sources: seq<Rec>, devices: seq<DeviceRec>)

  // ---------- memberships and device configs, addressed by MAC ----------

  ghost predicate HasMac(devices: map<Id, Device>, d: Id, mac: string) {
    d in devices && devices[d].mac == Some(mac)
  }

  /** The device of a MAC as stored. */
  ghost function DeviceOf(devices: map<Id, Device>, mac: string): Option<Id> {
    if mac != "" && exists d :: HasMac(devices, d, mac) then
      var d :| HasMac(devices, d, mac);
      Some(d)
    else None
  }

  ghost predicate UniqueMacs(devices: map<Id, Device>) {
    forall a, b, mac :: mac != "" && HasMac(devices, a, mac) && HasMac(devices, b, mac) ==> a == b
  }

  lemma DeviceOfIs(devices: map<Id, Device>, d: Id, mac: string)
    requires UniqueMacs(devices) && mac != "" && HasMac(devices, d, mac)
    ensures DeviceOf(devices, mac) == Some(d)
  {
  }

  ghost function PlanMember(hub: Hub, m: Member): Disposition {
    var device, group := DeviceOf(hub.devices, Trim(m.mac)), if m.group.None? then "" else Trim(m.group.value);
    if device.None? then Skip
    else if group in hub.groups && (hub.groups[group].id, device.value) in hub.members then Skip
    else Create
  }

  ghost function PlanDevice(hub: Hub, r: DeviceRec): Disposition {
    if Trim(r.mac) == "" || DeviceOf(hub.devices, Trim(r.mac)).None? then Skip else Update
  }

  datatype Joined = Joined(members: set<(Id, Id)>, created: nat, skipped: nat)

  /** The group and the device of a membership, by the names as sent. */
  ghost function PairOf(hub: Hub, groups: Table, m: Member): Option<(Id, Id)> {
    var device := DeviceOf(hub.devices, m.mac);
    if m.group.None? || m.group.value !in groups || device.None? then None
    else Some((groups[m.group.value].id, device.value))
  }

  /** Memberships are written after the groups are flushed; what cannot be attached is counted as skipped. */
  ghost function ApplyMembers(hub: Hub, groups: Table, ms: seq<Member>): Joined {
    if ms == [] then Joined(hub.members, 0, 0)
    else
      var j := ApplyMembers(hub, groups, ms[..|ms| - 1]);
      var m := ms[|ms| - 1];
      var pair := PairOf(hub, groups, m);
      if PlanMember(hub, m) != Create || pair.None? || pair.value in j.members then j.(skipped := j.skipped + 1)
      else Joined(j.members + {pair.value}, j.created + 1, j.skipped)
  }

  datatype Configured = Configured(devices: map<Id, Device>, updated: nat, skipped: nat)

  ghost function ApplyDevices(hub: Hub, recs: seq<DeviceRec>): Configured {
    if recs == [] then Configured(hub.devices, 0, 0)
    else
      var c := ApplyDevices(hub, recs[..|recs| - 1]);
      var r := recs[|recs| - 1];
      var device := DeviceOf(hub.devices, r.mac);
      if PlanDevice(hub, r) != Update || device.None? || device.value !in c.devices then c.(skipped := c.skipped + 1)
      else c.(devices := c.devices[device.value := c.devices[device.value].(config := r.config, mode := r.mode)],
              updated := c.updated + 1)
  }

  /** Every membership and device record is counted once. */
  lemma {:induction false} EveryMemberIsCounted(hub: Hub, groups: Table, ms: seq<Member>)
    ensures var j := ApplyMembers(hub, groups, ms);
            j.created + j.skipped == |ms| && hub.members <= j.members && |j.members| == |hub.members| + j.created
  {
    if ms != [] { EveryMemberIsCounted(hub, groups, ms[..|ms| - 1]); }
  }

  lemma {:induction false} EveryDeviceIsCounted(hub: Hub, recs: seq<DeviceRec>)
    ensures var c := ApplyDevices(hub, recs);
            && c.updated + c.skipped == |recs|
            && c.devices.Keys == hub.devices.Keys
            && forall d | d in hub.devices :: c.devices[d].mac == hub.devices[d].mac
  {
    if recs != [] { EveryDeviceIsCounted(hub, recs[..|recs| - 1]); }
  }

  // ---------- the export of a hub ----------

  datatype Orders = Orders(
    settings: seq<string>, sites: seq<string>, groups: seq<string>, rules: seq<string>,
    schedules: seq<string>, scenes: seq<string>, sources: seq<string>)

  ghost predicate IsSection(m: Schema, red: Redaction, sites: Table, t: Table, order: seq<string>, recs: seq<Rec>) {
    Lists(order, Exports(m, red, sites, t)) && recs == Section(Exports(m, red, sites, t), order)
  }

  /** A membership in the table, under the names it is exported by. */
  ghost predicate Joins(hub: Hub, m: Member, pair: (Id, Id)) {
    && pair in hub.members
    && m.group.Some? && m.group.value in hub.groups && hub.groups[m.group.value].id == pair.0
    && m.mac != "" && HasMac(hub.devices, pair.1, m.mac)
  }

  ghost predicate Joinable(hub: Hub, m: Member) {
    exists pair :: Joins(hub, m, pair)
  }

  /** A device's MAC, config and mode as they are. */
  ghost predicate OfDevice(hub: Hub, r: DeviceRec) {
    r.mac != "" && exists d :: d in hub.devices && hub.devices[d] == Device(Some(r.mac), r.config, r.mode)
  }

  /** A device with a MAC and something to restore is exported. */
  predicate Portable(d: Device) {
    d.mac.Some? && d.mac.value != "" && !(d.config.Null? && d.mode.Null?)
  }

  /** The document lists the hub: every section in some order. */
  ghost predicate ExportOf(hub: Hub, red: Redaction, o: Orders, doc: Doc) {
    && Lists(o.settings, ExportsOfSettings(red, hub.settings))
    && doc.settings == Section(ExportsOfSettings(red, hub.settings), o.settings)
    && IsSection(SITES, red, hub.sites, hub.sites, o.sites, doc.sites)
    && IsSection(GROUPS, red, hub.sites, hub.groups, o.groups, doc.groups)
    && IsSection(RULES, red, hub.sites, hub.rules, o.rules, doc.rules)
    && IsSection(SCHEDULES, red, hub.sites, hub.schedules, o.schedules, doc.schedules)
    && IsSection(SCENES, red, hub.sites, hub.scenes, o.scenes, doc.scenes)
    && IsSection(SOURCES, red, hub.sites, hub.sources, o.sources, doc.sources)
    && (forall i | 0 <= i < |doc.members| :: Joinable(hub, doc.members[i]))
    && (forall m, pair :: Joins(hub, m, pair) ==> m in doc.members)
    && (forall i | 0 <= i < |doc.devices| :: OfDevice(hub, doc.devices[i]))
    && (forall d | d in hub.devices && Portable(hub.devices[d]) ::
          DeviceRec(hub.devices[d].mac.value, hub.devices[d].config, hub.devices[d].mode) in doc.devices)
  }

  // ---------- the import ----------

  /** New ids, by table and name. */
  datatype Mint = Mint(sites: string -> Id, others: string -> Id)

  ghost predicate Fresh(mint: Mint, hub: Hub) {
    && (forall a, b :: mint.sites(a) == mint.sites(b) ==> a == b)
    && (forall a, n | n in hub.sites :: mint.sites(a) != hub.sites[n].id)
  }

  ghost function Rows(m: Schema, sites: Table, mint: string -> Id, t: Table, recs: seq<Rec>): Option<Outcome<Row>> {
    Applied(RowWriter(m, sites, mint), t, PlanNamed(t.Keys, recs))
  }

  ghost function ImportedSettings(hub: Hub, doc: Doc): Option<Outcome<Json>> {
    Applied(SettingWriter(), hub.settings, PlanSettings(hub.settings.Keys, doc.settings))
  }

  /** The sites a group can link to: its own section runs before the new ones are flushed. */
  ghost function ImportedGroups(hub: Hub, doc: Doc, mint: Mint): Option<Outcome<Row>> {
    Rows(GROUPS, hub.sites, mint.others, hub.groups, doc.groups)
  }

  ghost function ImportedSites(hub: Hub, doc: Doc, mint: Mint): Option<Outcome<Row>> {
    Rows(SITES, hub.sites, mint.sites, hub.sites, doc.sites)
  }

  /** The width of a device's mode. */
  const MODE: nat := 40

  predicate ModeFits(mode: Json) {
    mode.Null? || (mode.Str? && Fits(mode.s, Some(MODE)))
  }

  /** A device's row takes its new mode; one that stays is not written. */
  predicate ModeTaken(was: Device, now: Device) {
    now.mode == was.mode || ModeFits(now.mode)
  }

  /** The device rows are judged when all records have been written. */
  ghost predicate ModesTaken(hub: Hub, recs: seq<DeviceRec>) {
    var now := ApplyDevices(hub, recs).devices;
    forall d | d in hub.devices && d in now :: ModeTaken(hub.devices[d], now[d])
  }

  /** All or nothing: None where a section fails and the transaction rolls back. */
  ghost function Import(hub: Hub, doc: Doc, mint: Mint): Option<Hub> {
    var settings, sites, groups :=
      ImportedSettings(hub, doc), ImportedSites(hub, doc, mint), ImportedGroups(hub, doc, mint);
    if settings.None? || sites.None? || groups.None? then None
    else
      var flushed := sites.value.rows;
      var rules := Rows(RULES, flushed, mint.others, hub.rules, doc.rules);
      var schedules := Rows(SCHEDULES, flushed, mint.others, hub.schedules, doc.schedules);
      var scenes := Rows(SCENES, flushed, mint.others, hub.scenes, doc.scenes);
      var sources := Rows(SOURCES, flushed, mint.others, hub.sources, doc.sources);
      if rules.None? || schedules.None? || scenes.None? || sources.None? || !ModesTaken(hub, doc.devices) then None
      else Some(Hub(
        settings.value.rows, flushed, groups.value.rows, ApplyMembers(hub, groups.value.rows, doc.members).members,
        rules.value.rows, schedules.value.rows, scenes.value.rows, sources.value.rows,
        ApplyDevices(hub, doc.devices).devices))
  }

  // ---------- the sections' own columns ----------

  lemma SectionsAreProper()
    ensures forall m | m in {SITES, GROUPS, RULES, SCHEDULES, SCENES, SOURCES} :: Proper(m)
  {
    SmallSectionsAreProper();
    RulesAreProper();
    SchedulesAreProper();
  }

  lemma SmallSectionsAreProper()
    ensures Proper(SITES) && Proper(GROUPS) && Proper(SCENES) && Proper(SOURCES)
  {
  }

  lemma RulesAreProper()
    ensures Proper(RULES)
  {
  }

  lemma SchedulesAreProper()
    ensures Proper(SCHEDULES)
  {
  }

  /** Only one column of one section is filled in differently on the way in: a rule's escalation. */
  lemma FilledTheSame()
    ensures forall m, k | m in {SITES, GROUPS, SCHEDULES, SCENES, SOURCES} && k in m.columns && m.columns[k].Filled? ::
              m.columns[k].stored == m.columns[k].shown
    ensures forall k | k in RULES.columns && RULES.columns[k].Filled? && k != "escalation" ::
              RULES.columns[k].stored == RULES.columns[k].shown
    ensures RULES.columns["escalation"].Filled?
    ensures RULES.columns["escalation"].stored != RULES.columns["escalation"].shown
  {
    assert "kind" in RULES.columns["escalation"].stored.fields;
  }

  ghost predicate Escalates(rules: Table) {
    forall n | n in rules :: Truthy(Get(rules[n].cols, "escalation"))
  }

  lemma RulesSurviveExactly(sites: Table, rules: Table)
    requires TableOk(RULES, sites, rules)
    ensures AllSurvive(RULES, rules) <==> Escalates(rules)
  {
    FilledTheSame();
    forall n | n in rules ensures Survivor(RULES, rules[n]) <==> Truthy(Get(rules[n].cols, "escalation")) {
      assert TypedRow(RULES, rules[n]);
      assert "escalation" in RULES.columns;
    }
  }

  lemma OthersSurvive(m: Schema, sites: Table, t: Table)
    requires m in {SITES, GROUPS, SCHEDULES, SCENES, SOURCES} && TableOk(m, sites, t)
    ensures AllSurvive(m, t)
  {
    FilledTheSame();
    forall n | n in t ensures TypedRow(m, t[n]) {}
  }

  // ---------- importing a hub's own export ----------

  /** Links resolve, columns hold what their types allow, names come trimmed, and MACs are unique. */
  ghost predicate HubOk(hub: Hub) {
    && UniqueIds(hub.sites) && UniqueMacs(hub.devices)
    && TableOk(SITES, hub.sites, hub.sites) && TableOk(GROUPS, hub.sites, hub.groups)
    && TableOk(RULES, hub.sites, hub.rules)
    && TableOk(SCHEDULES, hub.sites, hub.schedules) && TableOk(SCENES, hub.sites, hub.scenes)
    && TableOk(SOURCES, hub.sites, hub.sources)
    && (forall n | n in hub.settings :: n != "" && Trim(n) == n && Fits(n, Some(SETTING_NAME)))
    && (forall d | d in hub.devices :: ModeFits(hub.devices[d].mode))
  }

  /** Writes that put every named row back as it is. */
  ghost predicate Harmless<T>(write: Writer<T>, start: map<string, T>, it: Item) {
    Writes(it) ==> it.rec.name.Some? && it.rec.name.value in start
                   && write(Some(start[it.rec.name.value]), it.rec) == Some(start[it.rec.name.value])
  }

  lemma {:induction false} HarmlessItems<T>(write: Writer<T>, start: map<string, T>, items: seq<Item>)
    requires forall it | it in items :: Harmless(write, start, it)
    ensures Applied(write, start, items).Some? && Applied(write, start, items).value.rows == start
  {
    if items != [] {
      HarmlessItems(write, start, items[..|items| - 1]);
      assert Harmless(write, start, items[|items| - 1]);
    }
  }

  lemma {:induction false} PlannedSettingIsWritable(existing: set<string>, recs: seq<Rec>)
    ensures forall it | it in PlanSettings(existing, recs) ::
              it.rec in recs && (Writes(it) ==> Get(it.rec.fields, "value") != SENTINEL)
  {
    if recs != [] {
      PlannedSettingIsWritable(existing, recs[..|recs| - 1]);
    }
  }

  lemma OwnSettings(hub: Hub, red: Redaction, o: Orders, doc: Doc)
    requires ExportOf(hub, red, o, doc)
    ensures ImportedSettings(hub, doc).Some? && ImportedSettings(hub, doc).value.rows == hub.settings
  {
    var items := PlanSettings(hub.settings.Keys, doc.settings);
    PlannedSettingIsWritable(hub.settings.Keys, doc.settings);
    forall it | it in items ensures Harmless(SettingWriter(), hub.settings, it) {
      var i :| 0 <= i < |doc.settings| && doc.settings[i] == it.rec;
      assert o.settings[i] in o.settings;
      assert it.rec == ExportedSetting(red, o.settings[i], hub.settings[o.settings[i]]);
    }
    HarmlessItems(SettingWriter(), hub.settings, items);
  }

  lemma {:induction false} OwnMembers(hub: Hub, ms: seq<Member>)
    requires UniqueMacs(hub.devices) && forall i | 0 <= i < |ms| :: Joinable(hub, ms[i])
    ensures ApplyMembers(hub, hub.groups, ms) == Joined(hub.members, 0, |ms|)
  {
    if ms != [] {
      var n := |ms| - 1;
      OwnMembers(hub, ms[..n]);
      assert Joinable(hub, ms[n]);
      var pair :| Joins(hub, ms[n], pair);
      DeviceOfIs(hub.devices, pair.1, ms[n].mac);
      assert pair == (pair.0, pair.1);
    }
  }

  lemma {:induction false} OwnDevices(hub: Hub, recs: seq<DeviceRec>)
    requires UniqueMacs(hub.devices) && forall i | 0 <= i < |recs| :: OfDevice(hub, recs[i])
    ensures ApplyDevices(hub, recs).devices == hub.devices
  {
    if recs != [] {
      var n := |recs| - 1;
      OwnDevices(hub, recs[..n]);
      assert OfDevice(hub, recs[n]);
      var d :| d in hub.devices && hub.devices[d] == Device(Some(recs[n].mac), recs[n].config, recs[n].mode);
      DeviceOfIs(hub.devices, d, recs[n].mac);
    }
  }

  lemma OwnRows(m: Schema, red: Redaction, sites: Table, mint: string -> Id, t: Table, order: seq<string>,
                recs: seq<Rec>)
    requires Proper(m) && UniqueIds(sites) && TableOk(m, sites, t) && IsSection(m, red, sites, t, order, recs)
    ensures Rows(m, sites, mint, t, recs).Some? && (Rows(m, sites, mint, t, recs).value.rows == t <==> AllSurvive(m, t))
  {
    OwnSectionExactly(m, red, sites, mint, t, order);
  }

  lemma OwnOtherRows(m: Schema, red: Redaction, sites: Table, mint: string -> Id, t: Table, order: seq<string>,
                     recs: seq<Rec>)
    requires m in {SITES, GROUPS, SCHEDULES, SCENES, SOURCES} && UniqueIds(sites) && TableOk(m, sites, t)
    requires IsSection(m, red, sites, t, order, recs)
    ensures Rows(m, sites, mint, t, recs).Some? && Rows(m, sites, mint, t, recs).value.rows == t
  {
    SectionsAreProper();
    OwnRows(m, red, sites, mint, t, order, recs);
    OthersSurvive(m, sites, t);
  }

  /** The import goes through, and moves no section but perhaps the rules. */
  ghost predicate MovesOnlyRules(hub: Hub, doc: Doc, mint: Mint) {
    && ImportedSettings(hub, doc).Some? && ImportedSettings(hub, doc).value.rows == hub.settings
    && ImportedSites(hub, doc, mint).Some? && ImportedSites(hub, doc, mint).value.rows == hub.sites
    && ImportedGroups(hub, doc, mint).Some? && ImportedGroups(hub, doc, mint).value.rows == hub.groups
    && Rows(RULES, hub.sites, mint.others, hub.rules, doc.rules).Some?
    && Stays(SCHEDULES, hub, mint, hub.schedules, doc.schedules)
    && Stays(SCENES, hub, mint, hub.scenes, doc.scenes)
    && Stays(SOURCES, hub, mint, hub.sources, doc.sources)
    && ApplyMembers(hub, hub.groups, doc.members).members == hub.members
    && ApplyDevices(hub, doc.devices).devices == hub.devices
  }

  ghost predicate Stays(m: Schema, hub: Hub, mint: Mint, t: Table, recs: seq<Rec>) {
    var rows := Rows(m, hub.sites, mint.others, t, recs);
    rows.Some? && rows.value.rows == t
  }

  /** The import succeeds, changes nothing but perhaps rules, and not even those exactly if they escalate. */
  ghost predicate LeavesAllBut(hub: Hub, done: Option<Hub>) {
    && done.Some?
    && done.value.(rules := hub.rules) == hub
    && (done.value == hub <==> Escalates(hub.rules))
  }

  lemma ImportIs(hub: Hub, doc: Doc, mint: Mint)
    requires MovesOnlyRules(hub, doc, mint)
    requires Rows(RULES, hub.sites, mint.others, hub.rules, doc.rules).value.rows == hub.rules <==> Escalates(hub.rules)
    ensures LeavesAllBut(hub, Import(hub, doc, mint))
  {
  }

  lemma OwnSites(hub: Hub, red: Redaction, o: Orders, doc: Doc, mint: Mint)
    requires HubOk(hub) && ExportOf(hub, red, o, doc)
    ensures ImportedSites(hub, doc, mint).Some? && ImportedSites(hub, doc, mint).value.rows == hub.sites
  {
    OwnOtherRows(SITES, red, hub.sites, mint.sites, hub.sites, o.sites, doc.sites);
  }

  lemma OwnGroups(hub: Hub, red: Redaction, o: Orders, doc: Doc, mint: Mint)
    requires HubOk(hub) && ExportOf(hub, red, o, doc)
    ensures ImportedGroups(hub, doc, mint).Some? && ImportedGroups(hub, doc, mint).value.rows == hub.groups
  {
    OwnOtherRows(GROUPS, red, hub.sites, mint.others, hub.groups, o.groups, doc.groups);
  }

  lemma OwnStays(m: Schema, hub: Hub, red: Redaction, mint: Mint, t: Table, order: seq<string>, recs: seq<Rec>)
    requires m in {SCHEDULES, SCENES, SOURCES} && UniqueIds(hub.sites) && TableOk(m, hub.sites, t)
    requires IsSection(m, red, hub.sites, t, order, recs)
    ensures Stays(m, hub, mint, t, recs)
  {
    OwnOtherRows(m, red, hub.sites, mint.others, t, order, recs);
  }

  lemma OwnMovesOnlyRules(hub: Hub, red: Redaction, o: Orders, doc: Doc, mint: Mint)
    requires HubOk(hub) && ExportOf(hub, red, o, doc)
    ensures MovesOnlyRules(hub, doc, mint)
  {
    OwnSettings(hub, red, o, doc);
    OwnSites(hub, red, o, doc, mint);
    OwnGroups(hub, red, o, doc, mint);
    OwnRules(hub, red, o, doc, mint);
    OwnStays(SCHEDULES, hub, red, mint, hub.schedules, o.schedules, doc.schedules);
    OwnStays(SCENES, hub, red, mint, hub.scenes, o.scenes, doc.scenes);
    OwnStays(SOURCES, hub, red, mint, hub.sources, o.sources, doc.sources);
    OwnMembers(hub, doc.members);
    OwnDevices(hub, doc.devices);
  }

  /**
   Planning and applying a hub's own export, redacted or not, goes through and leaves the whole
   hub, secrets included, as it was: exactly when no rule has an empty escalation.
   */
  lemma OwnImportExactly(hub: Hub, red: Redaction, o: Orders, doc: Doc, mint: Mint)
    requires HubOk(hub) && ExportOf(hub, red, o, doc)
    ensures LeavesAllBut(hub, Import(hub, doc, mint))
  {
    OwnMovesOnlyRules(hub, red, o, doc, mint);
    OwnRules(hub, red, o, doc, mint);
    ImportIs(hub, doc, mint);
  }

  lemma OwnRules(hub: Hub, red: Redaction, o: Orders, doc: Doc, mint: Mint)
    requires HubOk(hub) && ExportOf(hub, red, o, doc)
    ensures var rules := Rows(RULES, hub.sites, mint.others, hub.rules, doc.rules);
            rules.Some? && (rules.value.rows == hub.rules <==> Escalates(hub.rules))
  {
    SectionsAreProper();
    OwnRows(RULES, red, hub.sites, mint.others, hub.rules, o.rules, doc.rules);
    RulesSurviveExactly(hub.sites, hub.rules);
  }

  // ---------- importing elsewhere ----------

  /** A hub whose tables hold nothing yet; devices may have enrolled. */
  predicate Bare(hub: Hub) {
    && hub.sites == map[] && hub.groups == map[] && hub.rules == map[]
    && hub.schedules == map[] && hub.scenes == map[] && hub.sources == map[]
  }

  /** A new row: a minted id, and the site its record names. */
  lemma NewRowShape(m: Schema, red: Redaction, from: Table, to: Table, mint: string -> Id, t: Table,
                    out: map<string, Rec>, write: Writer<Row>, n: string)
    requires Proper(m) && TableOk(m, from, t) && out == Exports(m, red, from, t) && write == RowWriter(m, to, mint)
    requires n in t
    ensures n in out && out[n].name == Some(n) && n != "" && Trim(n) == n
    ensures write(None, out[n]).Some? && write(None, out[n]).value.id == mint(n)
    ensures m.linked ==> write(None, out[n]).value.site == SiteId(to, SiteName(from, t[n].site))
  {
    var rec := Exported(m, red, from, n, t[n]);
    ExportedFields(m, red, from, n, t[n]);
    ColumnsRoundTrip(m, true, rec.fields, t[n]);
    if m.configured {
      RedactedConfigIsHarmless(t[n].config, red.config, rec.fields);
    }
    assert Acceptable(m, true, rec);
    assert out[n] == rec;
  }

  /** The rows of an import into an empty table. */
  lemma NewShapes(m: Schema, red: Redaction, from: Table, to: Table, mint: string -> Id, t: Table,
                  order: seq<string>, recs: seq<Rec>)
    requires Proper(m) && TableOk(m, from, t) && IsSection(m, red, from, t, order, recs)
    ensures var rows := Rows(m, to, mint, map[], recs);
            && rows.Some?
            && rows.value.rows.Keys == t.Keys
            && forall n | n in t ::
                 && rows.value.rows[n].id == mint(n)
                 && (m.linked ==> rows.value.rows[n].site == SiteId(to, SiteName(from, t[n].site)))
  {
    var none: Table := map[];
    assert none.Keys == {};
    var out, write := Exports(m, red, from, t), RowWriter(m, to, mint);
    Shapes(m, red, from, to, mint, t, out, write);
    NewTable(write, out, order);
    var rows := Applied(write, map[], PlanNamed({}, Section(out, order))).value.rows;
    forall n | n in t ensures Shaped(m, from, to, mint, n, t[n].site, Some(rows[n])) {
      assert Shaped(m, from, to, mint, n, t[n].site, write(None, out[n]));
    }
  }

  /** The new row of n has the id and the site expected. */
  ghost predicate Shaped(m: Schema, from: Table, to: Table, mint: string -> Id, n: string, site: Option<Id>,
                         row: Option<Row>) {
    row.Some? && row.value.id == mint(n) && (m.linked ==> row.value.site == SiteId(to, SiteName(from, site)))
  }

  lemma Shapes(m: Schema, red: Redaction, from: Table, to: Table, mint: string -> Id, t: Table,
               out: map<string, Rec>, write: Writer<Row>)
    requires Proper(m) && TableOk(m, from, t) && out == Exports(m, red, from, t) && write == RowWriter(m, to, mint)
    ensures Named(out) && out.Keys == t.Keys
    ensures forall n | n in t :: Shaped(m, from, to, mint, n, t[n].site, write(None, out[n]))
  {
    forall n | n in t
      ensures n in out && out[n].name == Some(n) && n != "" && Trim(n) == n
      ensures Shaped(m, from, to, mint, n, t[n].site, write(None, out[n]))
    {
      NewRowShape(m, red, from, to, mint, t, out, write, n);
    }
  }

  /** A link found under its name at the source is found under that name in any table with the same names. */
  lemma LinkCarries(from: Table, to: Table, site: Option<Id>)
    requires UniqueIds(to) && from.Keys == to.Keys
    ensures SiteName(to, SiteId(to, SiteName(from, site))) == SiteName(from, site)
  {
    var name := SiteName(from, site);
    if name.Str? {
      SiteNameThere(to, name.s);
    }
  }

  lemma NewRows(m: Schema, red: Redaction, from: Table, to: Table, mint: string -> Id, t: Table, order: seq<string>,
                recs: seq<Rec>)
    requires Proper(m) && !m.configured && TableOk(m, from, t) && IsSection(m, red, from, t, order, recs)
    requires m.linked ==> UniqueIds(to) && from.Keys == to.Keys
    ensures var rows := Rows(m, to, mint, map[], recs);
            rows.Some? && (Exports(m, red, to, rows.value.rows) == Exports(m, red, from, t) <==> AllSurvive(m, t))
  {
    var none: Table := map[];
    assert none.Keys == {};
    if m.linked {
      forall n | n in t { LinkCarries(from, to, t[n].site); }
    }
    EmptyImportExactly(m, red, from, to, mint, t, order);
  }

  lemma OneSettingGoesThrough(start: map<string, Json>, items: seq<Item>, seen: set<string>, rec: Rec)
    requires Applied(SettingWriter(), start, items).Some?
    requires Applied(SettingWriter(), start, items).value.rows.Keys <= start.Keys + seen
    requires rec.name.Some? && NameOf(rec) == rec.name.value && NameOf(rec) !in seen && AcceptableSetting(true, rec)
    ensures var done := Applied(SettingWriter(), start, items + PlanSetting(start.Keys, rec));
            done.Some? && done.value.rows.Keys <= start.Keys + seen + {NameOf(rec)}
  {
    var more := PlanSetting(start.Keys, rec);
    if more == [] {
      assert items + more == items;
    } else {
      assert more == [more[0]];
      AppliedOneMore(SettingWriter(), start, items, more[0]);
    }
  }

  /** Settings under different trimmed names never trip over a key. */
  lemma {:induction false} SettingsGoThrough(start: map<string, Json>, recs: seq<Rec>)
    requires forall i | 0 <= i < |recs| ::
               recs[i].name.Some? && recs[i].name.value != "" && NameOf(recs[i]) == recs[i].name.value
    requires forall i | 0 <= i < |recs| :: AcceptableSetting(true, recs[i])
    requires forall i, j | 0 <= i < j < |recs| :: recs[i].name != recs[j].name
    ensures var done := Applied(SettingWriter(), start, PlanSettings(start.Keys, recs));
            done.Some? && done.value.rows.Keys <= start.Keys + NamesOf(recs)
  {
    if recs != [] {
      var n := |recs| - 1;
      SettingsGoThrough(start, recs[..n]);
      NamesOfOneMore(recs);
      assert NameOf(recs[n]) !in NamesOf(recs[..n]) by {
        forall r | r in recs[..n] ensures NameOf(r) != NameOf(recs[n]) {
          var i :| 0 <= i < n && recs[i] == r;
        }
      }
      OneSettingGoesThrough(start, PlanSettings(start.Keys, recs[..n]), NamesOf(recs[..n]), recs[n]);
    }
  }

  lemma SettingsImport(from: Hub, hub: Hub, red: Redaction, o: Orders, doc: Doc)
    requires forall n | n in from.settings :: n != "" && Trim(n) == n && Fits(n, Some(SETTING_NAME))
    requires Lists(o.settings, ExportsOfSettings(red, from.settings))
    requires doc.settings == Section(ExportsOfSettings(red, from.settings), o.settings)
    ensures ImportedSettings(hub, doc).Some?
  {
    forall i | 0 <= i < |doc.settings|
      ensures doc.settings[i].name == Some(o.settings[i]) && o.settings[i] in from.settings
    {
      assert o.settings[i] in o.settings;
    }
    SettingsGoThrough(hub.settings, doc.settings);
  }

  /** The section of an imported hub, as it would export it, is the one in the document. */
  ghost predicate Reproduced(m: Schema, red: Redaction, sites: Table, rows: Table, from: Hub, t: Table) {
    Exports(m, red, sites, rows) == Exports(m, red, from.sites, t)
  }

  lemma BareSites(from: Hub, hub: Hub, red: Redaction, o: Orders, doc: Doc, mint: Mint)
    requires HubOk(from) && ExportOf(from, red, o, doc) && Bare(hub) && Fresh(mint, hub)
    ensures var sites := ImportedSites(hub, doc, mint);
            && sites.Some? && sites.value.rows.Keys == from.sites.Keys && UniqueIds(sites.value.rows)
            && Reproduced(SITES, red, sites.value.rows, sites.value.rows, from, from.sites)
  {
    SectionsAreProper();
    NewRows(SITES, red, from.sites, map[], mint.sites, from.sites, o.sites, doc.sites);
    OthersSurvive(SITES, from.sites, from.sites);
    NewShapes(SITES, red, from.sites, map[], mint.sites, from.sites, o.sites, doc.sites);
    var to := ImportedSites(hub, doc, mint).value.rows;
    UnlinkedExports(SITES, red, map[], to, to);
  }

  lemma BareRows(from: Hub, to: Table, red: Redaction, o: Orders, doc: Doc, mint: Mint)
    requires HubOk(from) && ExportOf(from, red, o, doc) && to.Keys == from.sites.Keys && UniqueIds(to)
    ensures var rules := Rows(RULES, to, mint.others, map[], doc.rules);
            rules.Some? && (Reproduced(RULES, red, to, rules.value.rows, from, from.rules) <==> Escalates(from.rules))
    ensures var schedules := Rows(SCHEDULES, to, mint.others, map[], doc.schedules);
            schedules.Some? && Reproduced(SCHEDULES, red, to, schedules.value.rows, from, from.schedules)
    ensures var scenes := Rows(SCENES, to, mint.others, map[], doc.scenes);
            scenes.Some? && Reproduced(SCENES, red, to, scenes.value.rows, from, from.scenes)
  {
    SectionsAreProper();
    NewRows(RULES, red, from.sites, to, mint.others, from.rules, o.rules, doc.rules);
    RulesSurviveExactly(from.sites, from.rules);
    NewRows(SCHEDULES, red, from.sites, to, mint.others, from.schedules, o.schedules, doc.schedules);
    OthersSurvive(SCHEDULES, from.sites, from.schedules);
    NewRows(SCENES, red, from.sites, to, mint.others, from.scenes, o.scenes, doc.scenes);
    OthersSurvive(SCENES, from.sites, from.scenes);
  }

  lemma BareOthers(from: Hub, hub: Hub, to: Table, red: Redaction, o: Orders, doc: Doc, mint: Mint)
    requires HubOk(from) && ExportOf(from, red, o, doc) && Bare(hub)
    ensures ImportedSettings(hub, doc).Some? && ImportedGroups(hub, doc, mint).Some?
    ensures Rows(SOURCES, to, mint.others, hub.sources, doc.sources).Some?
  {
    SectionsAreProper();
    SettingsImport(from, hub, red, o, doc);
    NewShapes(GROUPS, red, from.sites, hub.sites, mint.others, from.groups, o.groups, doc.groups);
    NewShapes(SOURCES, red, from.sites, to, mint.others, from.sources, o.sources, doc.sources);
  }

  /** The imported hub holds the exported sites, schedules and scenes, and the rules exactly if every one escalates. */
  ghost predicate Reproduces(from: Hub, red: Redaction, done: Option<Hub>) {
    && done.Some?
    && var to := done.value;
    && Reproduced(SITES, red, to.sites, to.sites, from, from.sites)
    && Reproduced(SCHEDULES, red, to.sites, to.schedules, from, from.schedules)
    && Reproduced(SCENES, red, to.sites, to.scenes, from, from.scenes)
    && (Reproduced(RULES, red, to.sites, to.rules, from, from.rules) <==> Escalates(from.rules))
  }

  /**
   Importing into a bare hub goes through, all sections of it, and reproduces the sites, schedules
   and scenes as exported, and the rules with the names of their sites, exactly when no rule has
   an empty escalation.
   */
  lemma BareImportReproduces(from: Hub, hub: Hub, red: Redaction, o: Orders, doc: Doc, mint: Mint)
    requires HubOk(from) && ExportOf(from, red, o, doc) && Bare(hub) && Fresh(mint, hub)
    ensures Reproduces(from, red, Import(hub, doc, mint))
  {
    BareSites(from, hub, red, o, doc, mint);
    var to := ImportedSites(hub, doc, mint).value.rows;
    BareRows(from, to, red, o, doc, mint);
    BareOthers(from, hub, to, red, o, doc, mint);
    forall i | 0 <= i < |doc.devices| ensures ModeFits(doc.devices[i].mode) {
      assert OfDevice(from, doc.devices[i]);
    }
    FittingModesAreTaken(hub, doc.devices);
    PutTogether(from, hub, red, doc, mint, to);
  }

  lemma {:induction false} FittingModesAreTaken(hub: Hub, recs: seq<DeviceRec>)
    requires forall i | 0 <= i < |recs| :: ModeFits(recs[i].mode)
    ensures ModesTaken(hub, recs)
  {
    if recs != [] {
      FittingModesAreTaken(hub, recs[..|recs| - 1]);
    }
  }

  lemma PutTogether(from: Hub, hub: Hub, red: Redaction, doc: Doc, mint: Mint, to: Table)
    requires Bare(hub) && ImportedSettings(hub, doc).Some? && ImportedGroups(hub, doc, mint).Some?
    requires ImportedSites(hub, doc, mint).Some? && to == ImportedSites(hub, doc, mint).value.rows
    requires Reproduced(SITES, red, to, to, from, from.sites)
    requires var rules := Rows(RULES, to, mint.others, map[], doc.rules);
             rules.Some? && (Reproduced(RULES, red, to, rules.value.rows, from, from.rules) <==> Escalates(from.rules))
    requires var schedules := Rows(SCHEDULES, to, mint.others, map[], doc.schedules);
             schedules.Some? && Reproduced(SCHEDULES, red, to, schedules.value.rows, from, from.schedules)
    requires var scenes := Rows(SCENES, to, mint.others, map[], doc.scenes);
             scenes.Some? && Reproduced(SCENES, red, to, scenes.value.rows, from, from.scenes)
    requires Rows(SOURCES, to, mint.others, hub.sources, doc.sources).Some? && ModesTaken(hub, doc.devices)
    ensures Reproduces(from, red, Import(hub, doc, mint))
  {
  }

  // ---------- the two kinds of export ----------

  /** Redacted, as by default, or with the secrets in an encrypted file: a hub takes its own export back unchanged. */
  lemma BothExportsAreHarmless(hub: Hub, o: Orders, redacted: Doc, full: Doc, mint: Mint)
    requires HubOk(hub) && ExportOf(hub, REDACTED, o, redacted) && ExportOf(hub, INCLUDED, o, full)
    ensures LeavesAllBut(hub, Import(hub, redacted, mint)) && LeavesAllBut(hub, Import(hub, full, mint))
  {
    OwnImportExactly(hub, REDACTED, o, redacted, mint);
    OwnImportExactly(hub, INCLUDED, o, full, mint);
  }

  /** The full export holds no sentinel but those the hub itself stores. */
  lemma FullExportHidesNothing(settings: map<string, Json>, config: Fields)
    ensures forall n | n in settings :: ExportsOfSettings(INCLUDED, settings)[n].fields["value"] == settings[n]
    ensures RedactedConfig(config, INCLUDED.config) == config
  {
  }

  lemma UnlinkedExports(m: Schema, red: Redaction, a: Table, b: Table, t: Table)
    requires !m.linked
    ensures Exports(m, red, a, t) == Exports(m, red, b, t)
  {
  }

  /**
   A group's section runs before the new sites are flushed: an imported group is linked exactly to
   a site that was there before the import, so a bare hub gets its groups without their sites.
   */
  lemma GroupsLinkOnlyToOldSites(from: Hub, hub: Hub, red: Redaction, o: Orders, doc: Doc, mint: Mint, n: string)
    requires TableOk(GROUPS, from.sites, from.groups)
    requires IsSection(GROUPS, red, from.sites, from.groups, o.groups, doc.groups)
    requires hub.groups == map[] && n in from.groups
    ensures var groups := ImportedGroups(hub, doc, mint);
            && groups.Some? && n in groups.value.rows
            && groups.value.rows[n].site == SiteId(hub.sites, SiteName(from.sites, from.groups[n].site))
            && (hub.sites == map[] ==> groups.value.rows[n].site.None?)
  {
    SectionsAreProper();
    NewShapes(GROUPS, red, from.sites, hub.sites, mint.others, from.groups, o.groups, doc.groups);
  }
}
