/**
 What the preview of an import promises, section by section and as a whole, and exactly when the import keeps
 to it.
 */
module ConfigDryRun {
  import opened Common
  import opened ConfigModel
  import opened ConfigBackup
  import opened ConfigImport

  // ---------- sections of named rows ----------

  /** Some record to be written holds a value that does not convert or that the table refuses. */
  ghost predicate RowsRefused(m: Schema, t: Table, recs: seq<Rec>) {
    Raises(Accepts(m), t.Keys, PlanNamed(t.Keys, recs))
  }

  /** As many items slip from update to creation as overtake the other way. */
  predicate Level<T>(t: map<string, T>, items: seq<Item>) {
    SlipsIn(t.Keys, items) == OvertakesIn(t.Keys, items)
  }

  lemma RowsKeptExactly(m: Schema, sites: Table, mint: string -> Id, t: Table, recs: seq<Rec>)
    ensures var done := Rows(m, sites, mint, t, recs);
            && (done.None? <==> RowsRefused(m, t, recs))
            && (done.Some? ==> (done.value.tally == Planned(PlanNamed(t.Keys, recs))
                                <==> Level(t, PlanNamed(t.Keys, recs))))
  {
    RowWriterJudges(m, sites, mint);
    DryRunIsHonestExactly(RowWriter(m, sites, mint), Accepts(m), t, recs);
  }

  // ---------- settings ----------

  ghost predicate SettingsRefused(hub: Hub, doc: Doc) {
    var items := PlanSettings(hub.settings.Keys, doc.settings);
    Raises(AcceptsSetting(), hub.settings.Keys, items) || Collides(hub.settings.Keys, items)
  }

  lemma SettingsKeptExactly(hub: Hub, doc: Doc)
    ensures var done, items := ImportedSettings(hub, doc), PlanSettings(hub.settings.Keys, doc.settings);
            && (done.None? <==> SettingsRefused(hub, doc))
            && (done.Some? ==> (done.value.tally == Planned(items) <==> Level(hub.settings, items)))
  {
    SettingsDryRunIsHonestExactly(hub.settings, doc.settings);
  }

  // ---------- memberships ----------

  ghost predicate Announced(hub: Hub, m: Member) {
    PlanMember(hub, m) == Create
  }

  ghost function PlannedMembers(hub: Hub, ms: seq<Member>): Tally {
    if ms == [] then Tally(0, 0, 0)
    else
      var t := PlannedMembers(hub, ms[..|ms| - 1]);
      if Announced(hub, ms[|ms| - 1]) then t.(created := t.created + 1) else t.(skipped := t.skipped + 1)
  }

  /** An announced membership whose group and device are found and that is neither there nor made by an earlier one. */
  ghost predicate Attached(hub: Hub, groups: Table, ms: seq<Member>, i: nat)
    requires i < |ms|
  {
    var pair := PairOf(hub, groups, ms[i]);
    pair.Some? && pair.value !in hub.members && !MakesPair(hub, groups, ms[..i], pair.value)
  }

  ghost predicate MakesPair(hub: Hub, groups: Table, ms: seq<Member>, pair: (Id, Id)) {
    exists m :: m in ms && Announced(hub, m) && PairOf(hub, groups, m) == Some(pair)
  }

  ghost predicate AllAttached(hub: Hub, groups: Table, ms: seq<Member>) {
    forall i | 0 <= i < |ms| && Announced(hub, ms[i]) :: Attached(hub, groups, ms, i)
  }

  lemma AttachedOneMore(hub: Hub, groups: Table, ms: seq<Member>)
    requires ms != []
    ensures var n := |ms| - 1;
            && (AllAttached(hub, groups, ms)
                <==> AllAttached(hub, groups, ms[..n]) && (Announced(hub, ms[n]) ==> Attached(hub, groups, ms, n)))
            && forall pair :: MakesPair(hub, groups, ms, pair)
                 <==> MakesPair(hub, groups, ms[..n], pair)
                      || (Announced(hub, ms[n]) && PairOf(hub, groups, ms[n]) == Some(pair))
  {
    var n := |ms| - 1;
    assert ms == ms[..n] + [ms[n]];
    forall i | 0 <= i < n ensures Attached(hub, groups, ms, i) <==> Attached(hub, groups, ms[..n], i) {
      assert ms[..n][..i] == ms[..i];
    }
    assert forall i | 0 <= i < n :: ms[..n][i] == ms[i];
  }

  /** As many memberships are created as were announced exactly when each of them is attached. */
  lemma {:induction false} MembersKeptExactly(hub: Hub, groups: Table, ms: seq<Member>)
    ensures var j, t := ApplyMembers(hub, groups, ms), PlannedMembers(hub, ms);
            && (forall pair :: pair in j.members <==> pair in hub.members || MakesPair(hub, groups, ms, pair))
            && j.created <= t.created && t.created + t.skipped == |ms| && t.updated == 0
            && (j.created == t.created <==> AllAttached(hub, groups, ms))
  {
    if ms != [] {
      MembersKeptExactly(hub, groups, ms[..|ms| - 1]);
      AttachedOneMore(hub, groups, ms);
    }
  }

  /** A group of this name is here or comes with the import. */
  predicate GroupComes(hub: Hub, doc: Doc, group: Option<string>) {
    group.Some? && group.value in hub.groups.Keys + WrittenNames(PlanNamed(hub.groups.Keys, doc.groups))
  }

  ghost predicate AlreadyJoined(hub: Hub, m: Member) {
    && m.group.Some? && m.group.value in hub.groups && DeviceOf(hub.devices, m.mac).Some?
    && (hub.groups[m.group.value].id, DeviceOf(hub.devices, m.mac).value) in hub.members
  }

  /** Each announced membership comes once, names its group and device as they are stored, and is not there already. */
  ghost predicate MembersAsAnnounced(hub: Hub, doc: Doc) {
    forall i | 0 <= i < |doc.members| && Announced(hub, doc.members[i]) ::
      && GroupComes(hub, doc, doc.members[i].group)
      && DeviceOf(hub.devices, doc.members[i].mac).Some?
      && !AlreadyJoined(hub, doc.members[i])
      && doc.members[i] !in doc.members[..i]
  }

  /** Groups have ids of their own, new ones included, and memberships belong to groups. */
  ghost predicate Keyed(hub: Hub, mint: Mint) {
    && UniqueIds(hub.groups)
    && (forall a, b :: mint.others(a) == mint.others(b) ==> a == b)
    && (forall a, n | n in hub.groups :: mint.others(a) != hub.groups[n].id)
    && (forall pair | pair in hub.members :: exists n :: NamesSite(hub.groups, n, pair.0))
  }

  /** A row keeps its id; a new one has the id minted for its name. */
  predicate Identified(mint: string -> Id, start: Table, rows: Table) {
    start.Keys <= rows.Keys && forall n | n in rows :: rows[n].id == if n in start then start[n].id else mint(n)
  }

  lemma {:induction false} IdsAfter(m: Schema, sites: Table, mint: string -> Id, start: Table, items: seq<Item>)
    ensures var done := Applied(RowWriter(m, sites, mint), start, items);
            done.Some? ==> Identified(mint, start, done.value.rows)
  {
    if items != [] {
      IdsAfter(m, sites, mint, start, items[..|items| - 1]);
      var o := Applied(RowWriter(m, sites, mint), start, items[..|items| - 1]);
      if o.Some? { IdKept(m, sites, mint, start, o.value, items[|items| - 1]); }
    }
  }

  lemma IdKept(m: Schema, sites: Table, mint: string -> Id, start: Table, o: Outcome<Row>, it: Item)
    requires Identified(mint, start, o.rows)
    ensures var done := ApplyItem(RowWriter(m, sites, mint), start, o, it);
            done.Some? ==> Identified(mint, start, done.value.rows)
  {
  }

  ghost predicate GroupsAfter(hub: Hub, doc: Doc, mint: Mint, groups: Table) {
    && groups.Keys == hub.groups.Keys + WrittenNames(PlanNamed(hub.groups.Keys, doc.groups))
    && Identified(mint.others, hub.groups, groups)
  }

  lemma GroupsImport(hub: Hub, doc: Doc, mint: Mint)
    ensures var done := ImportedGroups(hub, doc, mint); done.Some? ==> GroupsAfter(hub, doc, mint, done.value.rows)
  {
    var items := PlanNamed(hub.groups.Keys, doc.groups);
    IdsAfter(GROUPS, hub.sites, mint.others, hub.groups, items);
    RowWriterJudges(GROUPS, hub.sites, mint.others);
    ImportFollows(RowWriter(GROUPS, hub.sites, mint.others), Accepts(GROUPS), hub.groups, items);
  }

  /** Two memberships found are the same pair exactly if they are the same record. */
  lemma PairNamesMember(hub: Hub, doc: Doc, mint: Mint, groups: Table, a: Member, b: Member)
    requires Keyed(hub, mint) && GroupsAfter(hub, doc, mint, groups) && PairOf(hub, groups, a).Some?
    ensures PairOf(hub, groups, a) == PairOf(hub, groups, b) <==> a == b
    ensures PairOf(hub, groups, a).value in hub.members <==> AlreadyJoined(hub, a)
  {
  }

  lemma AttachedAsAnnounced(hub: Hub, doc: Doc, mint: Mint, groups: Table)
    requires Keyed(hub, mint) && GroupsAfter(hub, doc, mint, groups)
    ensures AllAttached(hub, groups, doc.members) <==> MembersAsAnnounced(hub, doc)
  {
    var ms := doc.members;
    forall i | 0 <= i < |ms| && Announced(hub, ms[i])
      ensures Attached(hub, groups, ms, i)
              <==> GroupComes(hub, doc, ms[i].group) && DeviceOf(hub.devices, ms[i].mac).Some?
                   && !AlreadyJoined(hub, ms[i]) && ms[i] !in ms[..i]
    {
      if PairOf(hub, groups, ms[i]).Some? {
        forall m ensures PairOf(hub, groups, ms[i]) == PairOf(hub, groups, m) <==> ms[i] == m {
          PairNamesMember(hub, doc, mint, groups, ms[i], m);
        }
        PairNamesMember(hub, doc, mint, groups, ms[i], ms[i]);
      }
    }
  }

  // ---------- device configs ----------

  ghost function PlannedDevices(hub: Hub, recs: seq<DeviceRec>): Tally {
    if recs == [] then Tally(0, 0, 0)
    else
      var t := PlannedDevices(hub, recs[..|recs| - 1]);
      if PlanDevice(hub, recs[|recs| - 1]) == Update then t.(updated := t.updated + 1) else t.(skipped := t.skipped + 1)
  }

  /** The record is announced, and its MAC as sent is this device's. */
  ghost predicate Reaches(hub: Hub, r: DeviceRec, d: Id) {
    PlanDevice(hub, r) == Update && DeviceOf(hub.devices, r.mac) == Some(d)
  }

  /** Each announced record names its device's MAC as it is stored. */
  ghost predicate DevicesAsAnnounced(hub: Hub, recs: seq<DeviceRec>) {
    forall i | 0 <= i < |recs| && PlanDevice(hub, recs[i]) == Update :: DeviceOf(hub.devices, recs[i].mac).Some?
  }

  lemma DevicesAsAnnouncedOneMore(hub: Hub, recs: seq<DeviceRec>)
    requires recs != []
    ensures var n := |recs| - 1;
            DevicesAsAnnounced(hub, recs) <==>
            DevicesAsAnnounced(hub, recs[..n])
            && (PlanDevice(hub, recs[n]) == Update ==> DeviceOf(hub.devices, recs[n].mac).Some?)
  {
    assert forall i | 0 <= i < |recs| - 1 :: recs[..|recs| - 1][i] == recs[i];
  }

  lemma DeviceCountOneMore(hub: Hub, recs: seq<DeviceRec>)
    requires recs != []
    ensures var n := |recs| - 1;
            ApplyDevices(hub, recs).updated
            == ApplyDevices(hub, recs[..n]).updated
               + if PlanDevice(hub, recs[n]) == Update && DeviceOf(hub.devices, recs[n].mac).Some? then 1 else 0
  {
    EveryDeviceIsCounted(hub, recs[..|recs| - 1]);
  }

  /** As many devices are updated as were announced exactly when each of them is found. */
  lemma {:induction false} DevicesKeptExactly(hub: Hub, recs: seq<DeviceRec>)
    ensures var c, t := ApplyDevices(hub, recs), PlannedDevices(hub, recs);
            && c.updated <= t.updated && t.updated + t.skipped == |recs| && t.created == 0
            && (c.updated == t.updated <==> DevicesAsAnnounced(hub, recs))
  {
    if recs != [] {
      DevicesKeptExactly(hub, recs[..|recs| - 1]);
      DevicesAsAnnouncedOneMore(hub, recs);
      DeviceCountOneMore(hub, recs);
    }
  }

  /** The last record that reaches a device. */
  ghost predicate LastFor(hub: Hub, recs: seq<DeviceRec>, i: int, d: Id) {
    && 0 <= i < |recs| && Reaches(hub, recs[i], d)
    && forall j | i < j < |recs| :: !Reaches(hub, recs[j], d)
  }

  lemma DeviceOneMore(hub: Hub, recs: seq<DeviceRec>, d: Id)
    requires recs != [] && d in hub.devices
    ensures var n := |recs| - 1;
            var was, now := ApplyDevices(hub, recs[..n]).devices, ApplyDevices(hub, recs).devices;
            && d in was && d in now
            && now[d] == if Reaches(hub, recs[n], d) then was[d].(config := recs[n].config, mode := recs[n].mode)
                         else was[d]
  {
    EveryDeviceIsCounted(hub, recs[..|recs| - 1]);
  }

  /** A device ends with what the last record that reaches it carries. */
  lemma {:induction false} LastRecordWins(hub: Hub, recs: seq<DeviceRec>, i: nat, d: Id)
    requires LastFor(hub, recs, i, d) && d in hub.devices
    ensures var now := ApplyDevices(hub, recs).devices;
            d in now && now[d].config == recs[i].config && now[d].mode == recs[i].mode
    decreases |recs|
  {
    var n := |recs| - 1;
    DeviceOneMore(hub, recs, d);
    if i < n {
      assert forall j | 0 <= j < n :: recs[..n][j] == recs[j];
      LastRecordWins(hub, recs[..n], i, d);
    }
  }

  lemma {:induction false} UnreachedStays(hub: Hub, recs: seq<DeviceRec>, d: Id)
    requires d in hub.devices && forall i | 0 <= i < |recs| :: !Reaches(hub, recs[i], d)
    ensures d in ApplyDevices(hub, recs).devices && ApplyDevices(hub, recs).devices[d] == hub.devices[d]
  {
    if recs != [] {
      var n := |recs| - 1;
      DeviceOneMore(hub, recs, d);
      UnreachedStays(hub, recs[..n], d);
    }
  }

  lemma {:induction false} SomeIsLast(hub: Hub, recs: seq<DeviceRec>, i: nat, d: Id) returns (last: nat)
    requires i < |recs| && Reaches(hub, recs[i], d)
    ensures LastFor(hub, recs, last, d)
    decreases |recs| - i
  {
    if j :| i < j < |recs| && Reaches(hub, recs[j], d) {
      last := SomeIsLast(hub, recs, j, d);
    } else {
      last := i;
    }
  }

  /** The last record for some device carries a new mode that its column refuses. */
  ghost predicate ModeRefused(hub: Hub, recs: seq<DeviceRec>) {
    exists i, d :: LastFor(hub, recs, i, d) && recs[i].mode != hub.devices[d].mode && !ModeFits(recs[i].mode)
  }

  lemma ModesTakenExactly(hub: Hub, recs: seq<DeviceRec>)
    ensures ModesTaken(hub, recs) <==> !ModeRefused(hub, recs)
  {
    var now := ApplyDevices(hub, recs).devices;
    EveryDeviceIsCounted(hub, recs);
    forall i, d | LastFor(hub, recs, i, d) ensures d in hub.devices && now[d].mode == recs[i].mode {
      assert HasMac(hub.devices, d, recs[i].mac);
      LastRecordWins(hub, recs, i, d);
    }
    forall d | d in hub.devices && now[d] != hub.devices[d] ensures exists i :: LastFor(hub, recs, i, d) {
      if i :| 0 <= i < |recs| && Reaches(hub, recs[i], d) {
        var last := SomeIsLast(hub, recs, i, d);
      } else {
        UnreachedStays(hub, recs, d);
      }
    }
  }

  // ---------- the whole import ----------

  /** What a dry run shows, or what an import reports: the counts of all nine sections. */
  datatype Summary = Summary(
    settings: Tally, sites: Tally, groups: Tally, members: Tally, rules: Tally,
    schedules: Tally, scenes: Tally, sources: Tally, devices: Tally)

  /** The preview looks into the config blob of every source it announces, and raises on one that is no object. */
  predicate Unreadable(hub: Hub, doc: Doc) {
    exists it | it in PlanNamed(hub.sources.Keys, doc.sources) :: Writes(it) && ConfigOf(it.rec.fields).None?
  }

  ghost function Preview(hub: Hub, doc: Doc): Option<Summary> {
    if Unreadable(hub, doc) then None
    else Some(Summary(
      Planned(PlanSettings(hub.settings.Keys, doc.settings)), Planned(PlanNamed(hub.sites.Keys, doc.sites)),
      Planned(PlanNamed(hub.groups.Keys, doc.groups)), PlannedMembers(hub, doc.members),
      Planned(PlanNamed(hub.rules.Keys, doc.rules)), Planned(PlanNamed(hub.schedules.Keys, doc.schedules)),
      Planned(PlanNamed(hub.scenes.Keys, doc.scenes)), Planned(PlanNamed(hub.sources.Keys, doc.sources)),
      PlannedDevices(hub, doc.devices)))
  }

  ghost function Performed(hub: Hub, doc: Doc, mint: Mint): Summary
    requires Import(hub, doc, mint).Some?
  {
    var groups, flushed := ImportedGroups(hub, doc, mint).value, ImportedSites(hub, doc, mint).value.rows;
    var j, c := ApplyMembers(hub, groups.rows, doc.members), ApplyDevices(hub, doc.devices);
    Summary(
      ImportedSettings(hub, doc).value.tally, ImportedSites(hub, doc, mint).value.tally, groups.tally,
      Tally(j.created, 0, j.skipped),
      Rows(RULES, flushed, mint.others, hub.rules, doc.rules).value.tally,
      Rows(SCHEDULES, flushed, mint.others, hub.schedules, doc.schedules).value.tally,
      Rows(SCENES, flushed, mint.others, hub.scenes, doc.scenes).value.tally,
      Rows(SOURCES, flushed, mint.others, hub.sources, doc.sources).value.tally,
      Tally(0, c.updated, c.skipped))
  }

  /** Some section refuses a value it is to write, or two settings of one new name are sent. */
  ghost predicate Refuses(hub: Hub, doc: Doc) {
    || SettingsRefused(hub, doc)
    || RowsRefused(SITES, hub.sites, doc.sites) || RowsRefused(GROUPS, hub.groups, doc.groups)
    || RowsRefused(RULES, hub.rules, doc.rules) || RowsRefused(SCHEDULES, hub.schedules, doc.schedules)
    || RowsRefused(SCENES, hub.scenes, doc.scenes) || RowsRefused(SOURCES, hub.sources, doc.sources)
    || ModeRefused(hub, doc.devices)
  }

  /** Names, groups and MACs are sent as they are found, up to slips that make up for each other. */
  ghost predicate AsAnnounced(hub: Hub, doc: Doc) {
    && Level(hub.settings, PlanSettings(hub.settings.Keys, doc.settings))
    && Level(hub.sites, PlanNamed(hub.sites.Keys, doc.sites))
    && Level(hub.groups, PlanNamed(hub.groups.Keys, doc.groups))
    && Level(hub.rules, PlanNamed(hub.rules.Keys, doc.rules))
    && Level(hub.schedules, PlanNamed(hub.schedules.Keys, doc.schedules))
    && Level(hub.scenes, PlanNamed(hub.scenes.Keys, doc.scenes))
    && Level(hub.sources, PlanNamed(hub.sources.Keys, doc.sources))
    && MembersAsAnnounced(hub, doc) && DevicesAsAnnounced(hub, doc.devices)
  }

  /** What the preview cannot read the import cannot write. */
  lemma UnreadableIsRefused(hub: Hub, doc: Doc)
    requires Unreadable(hub, doc)
    ensures RowsRefused(SOURCES, hub.sources, doc.sources)
  {
    var items := PlanNamed(hub.sources.Keys, doc.sources);
    var it :| it in items && Writes(it) && ConfigOf(it.rec.fields).None?;
    var i :| 0 <= i < |items| && items[i] == it;
    assert Refused(Accepts(SOURCES), hub.sources.Keys, items[i]);
  }

  lemma ImportFailsExactly(hub: Hub, doc: Doc, mint: Mint)
    ensures Import(hub, doc, mint).None? <==> Refuses(hub, doc)
  {
    SettingsKeptExactly(hub, doc);
    RowsKeptExactly(SITES, hub.sites, mint.sites, hub.sites, doc.sites);
    RowsKeptExactly(GROUPS, hub.sites, mint.others, hub.groups, doc.groups);
    if ImportedSites(hub, doc, mint).Some? {
      var flushed := ImportedSites(hub, doc, mint).value.rows;
      RowsKeptExactly(RULES, flushed, mint.others, hub.rules, doc.rules);
      RowsKeptExactly(SCHEDULES, flushed, mint.others, hub.schedules, doc.schedules);
      RowsKeptExactly(SCENES, flushed, mint.others, hub.scenes, doc.scenes);
      RowsKeptExactly(SOURCES, flushed, mint.others, hub.sources, doc.sources);
    }
    ModesTakenExactly(hub, doc.devices);
  }

  /**
   The promise of a dry run, over all nine sections: the import that follows fails exactly on a
   value some section refuses or a new setting sent twice, and if it goes through it reports what
   the preview showed exactly when names, memberships and MACs are sent as they are found.
   */
  lemma PreviewIsKeptExactly(hub: Hub, doc: Doc, mint: Mint)
    requires Keyed(hub, mint)
    ensures Import(hub, doc, mint).None? <==> Refuses(hub, doc)
    ensures Import(hub, doc, mint).Some? ==>
              && Preview(hub, doc).Some?
              && (Performed(hub, doc, mint) == Preview(hub, doc).value <==> AsAnnounced(hub, doc))
  {
    ImportFailsExactly(hub, doc, mint);
    if Import(hub, doc, mint).Some? {
      if Unreadable(hub, doc) { UnreadableIsRefused(hub, doc); }
      NamedSectionsKept(hub, doc, mint);
      OthersKept(hub, doc, mint);
    }
  }

  lemma NamedSectionsKept(hub: Hub, doc: Doc, mint: Mint)
    requires Import(hub, doc, mint).Some? && Preview(hub, doc).Some?
    ensures var done, shown := Performed(hub, doc, mint), Preview(hub, doc).value;
            && (done.settings == shown.settings <==> Level(hub.settings, PlanSettings(hub.settings.Keys, doc.settings)))
            && (done.sites == shown.sites <==> Level(hub.sites, PlanNamed(hub.sites.Keys, doc.sites)))
            && (done.groups == shown.groups <==> Level(hub.groups, PlanNamed(hub.groups.Keys, doc.groups)))
            && (done.rules == shown.rules <==> Level(hub.rules, PlanNamed(hub.rules.Keys, doc.rules)))
            && (done.schedules == shown.schedules
                <==> Level(hub.schedules, PlanNamed(hub.schedules.Keys, doc.schedules)))
            && (done.scenes == shown.scenes <==> Level(hub.scenes, PlanNamed(hub.scenes.Keys, doc.scenes)))
            && (done.sources == shown.sources <==> Level(hub.sources, PlanNamed(hub.sources.Keys, doc.sources)))
  {
    var flushed := ImportedSites(hub, doc, mint).value.rows;
    SettingsKeptExactly(hub, doc);
    RowsKeptExactly(SITES, hub.sites, mint.sites, hub.sites, doc.sites);
    RowsKeptExactly(GROUPS, hub.sites, mint.others, hub.groups, doc.groups);
    RowsKeptExactly(RULES, flushed, mint.others, hub.rules, doc.rules);
    RowsKeptExactly(SCHEDULES, flushed, mint.others, hub.schedules, doc.schedules);
    RowsKeptExactly(SCENES, flushed, mint.others, hub.scenes, doc.scenes);
    RowsKeptExactly(SOURCES, flushed, mint.others, hub.sources, doc.sources);
  }

  lemma OthersKept(hub: Hub, doc: Doc, mint: Mint)
    requires Keyed(hub, mint) && Import(hub, doc, mint).Some? && Preview(hub, doc).Some?
    ensures var done, shown := Performed(hub, doc, mint), Preview(hub, doc).value;
            && (done.members == shown.members <==> MembersAsAnnounced(hub, doc))
            && (done.devices == shown.devices <==> DevicesAsAnnounced(hub, doc.devices))
  {
    var groups := ImportedGroups(hub, doc, mint).value.rows;
    GroupsImport(hub, doc, mint);
    AttachedAsAnnounced(hub, doc, mint, groups);
    MembersKeptExactly(hub, groups, doc.members);
    EveryMemberIsCounted(hub, groups, doc.members);
    DevicesKeptExactly(hub, doc.devices);
    EveryDeviceIsCounted(hub, doc.devices);
  }
}
