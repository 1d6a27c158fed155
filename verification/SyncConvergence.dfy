/**
 Replica convergence: for full-snapshot device events the final rows and tombstones depend
 only on which events were delivered, not on their order or how often each one was.
 */
module SyncConvergence {
  import opened Common
  import opened SyncModel
  import opened SyncSafety
  import opened SyncTombstones

  ghost predicate Accepted(cfg: Config, ev: Event) {
    ClaimedOrg(ev).Some? ==> ClaimedOrg(ev).value in cfg.orgs
  }

  ghost predicate DeletesDevice(cfg: Config, ev: Event) {
    Accepted(cfg, ev) && ev.entityKind == Some(Device) && Deletion(ev) == Some(ev.entityId)
  }

  ghost predicate WritesDevice(cfg: Config, ev: Event) {
    Accepted(cfg, ev) && ev.entityKind == Some(Device) && Deletion(ev).None?
  }

  /** The site link needs no new site: it is empty, known here, or the default resolves to a site there is. */
  ghost predicate SiteResolves(cfg: Config, rows: Rows, ev: Event)
    requires ValidConfig(cfg)
  {
    var scope := ClaimedOrg(ev);
    SiteId in ev.payload && Truthy(ev.payload[SiteId]) ==>
      || (ev.payload[SiteId].Text? && Found(cfg, rows, scope, Entity(Site, ev.payload[SiteId].text)))
      || IdsWith(cfg, rows, scope, Site, Name, Text(DEFAULT_SITE_NAME)) != {}
      || |VisibleIds(cfg, rows, scope, Site)| == 1
  }

  /** The row a device event carries, as it lands on a hub with these sites. */
  ghost function Landed(cfg: Config, rows: Rows, ev: Event): Columns
    requires ValidConfig(cfg) && ev.entityKind == Some(Device) && SiteResolves(cfg, rows, ev)
  {
    LandedDoesNotMint(cfg, rows, ev, 0, "");
    Prepare(cfg, rows, ev, Device, ClaimedOrg(ev), 0, "").incoming
  }

  lemma LandedDoesNotMint(cfg: Config, rows: Rows, ev: Event, now: Time, newId: Id)
    requires ValidConfig(cfg) && ev.entityKind == Some(Device) && SiteResolves(cfg, rows, ev)
    ensures Prepare(cfg, rows, ev, Device, ClaimedOrg(ev), now, newId).Ready?
    ensures Prepare(cfg, rows, ev, Device, ClaimedOrg(ev), now, newId).rows == rows
    ensures Prepare(cfg, rows, ev, Device, ClaimedOrg(ev), now, newId)
            == Prepare(cfg, rows, ev, Device, ClaimedOrg(ev), 0, "")
  {
  }

  /** Every column sent, under the row's own id, with a write time and nothing the table refuses. */
  ghost predicate FullSnapshot(cfg: Config, rows: Rows, ev: Event)
    requires ValidConfig(cfg)
  {
    && cfg.schema[Device].columns <= ev.payload.Keys
    && ev.payload[IdColumn] == Text(ev.entityId)
    && ev.payload[UpdatedAt].Stamp?
    && (ev.payload[SiteId] == Text("") ==> Entity(Site, "") in rows)
    && !ev.payload[SiteId].Stamp?
    && (forall c | c in cfg.schema[Device].required :: Incoming(cfg.schema[Device], ev.payload)[c] != Null)
  }

  ghost predicate DeletedIn(cfg: Config, events: set<Event>, id: Id) {
    exists ev :: ev in events && DeletesDevice(cfg, ev) && ev.entityId == id
  }

  /** Device events as hubs emit them: deletions, and full snapshots of devices whose site resolves here. */
  ghost predicate GoodBatch(cfg: Config, r: Replica, batch: set<Event>)
    requires ValidConfig(cfg)
  {
    && Consistent(cfg, r.rows)
    && (forall id | id in r.tombstones :: Entity(Device, id) !in r.rows)
    && (forall ev | ev in batch && Accepted(cfg, ev) ::
          DeletesDevice(cfg, ev)
          || (WritesDevice(cfg, ev) && SiteResolves(cfg, r.rows, ev) && FullSnapshot(cfg, r.rows, ev)))
  }

  // ---------- what the delivered events leave behind ----------

  /** A row some source gives the device: the hub's own at the start, or an event's. */
  ghost predicate Candidate(cfg: Config, r: Replica, events: set<Event>, id: Id, row: Columns)
    requires ValidConfig(cfg)
  {
    || (Entity(Device, id) in r.rows && row == r.rows[Entity(Device, id)])
    || (exists ev :: ev in events && LandsAs(cfg, r, ev, id, row))
  }

  ghost predicate LandsAs(cfg: Config, r: Replica, ev: Event, id: Id, row: Columns)
    requires ValidConfig(cfg)
  {
    WritesDevice(cfg, ev) && ev.entityId == id && SiteResolves(cfg, r.rows, ev) && row == Landed(cfg, r.rows, ev)
  }

  ghost function Written(row: Columns): Time {
    if UpdatedAt in row && row[UpdatedAt].Stamp? then row[UpdatedAt].at else 0
  }

  /** The row once the deleted device it drew its power from is gone: detached from it, and not touched otherwise. */
  ghost function Unplugged(cfg: Config, events: set<Event>, id: Id, row: Columns): Columns {
    if PowerSource in row && row[PowerSource].Text? && row[PowerSource].text != id
       && DeletedIn(cfg, events, row[PowerSource].text)
    then row[PowerSource := Null] else row
  }

  /** No candidate is newer; the hub's own row wins a tie. */
  ghost predicate Newest(cfg: Config, r: Replica, events: set<Event>, id: Id, row: Columns)
    requires ValidConfig(cfg)
  {
    var e := Entity(Device, id);
    && Candidate(cfg, r, events, id, row)
    && (forall other :: Candidate(cfg, r, events, id, other) ==> Written(other) <= Written(row))
    && (e in r.rows && Written(r.rows[e]) == Written(row) ==> row == r.rows[e])
  }

  /** Deleted if any delivered event deletes it, else the newest candidate, off a power source that was deleted. */
  ghost predicate Settled(cfg: Config, r: Replica, events: set<Event>, id: Id, after: Replica)
    requires ValidConfig(cfg)
  {
    var e := Entity(Device, id);
    if id in r.tombstones || DeletedIn(cfg, events, id) then
      id in after.tombstones && e !in after.rows
    else
      && id !in after.tombstones
      && (e !in after.rows ==> forall row :: !Candidate(cfg, r, events, id, row))
      && (e in after.rows ==>
            exists row :: Newest(cfg, r, events, id, row) && after.rows[e] == Unplugged(cfg, events, id, row))
  }

  ghost predicate SameOthers(rows: Rows, other: Rows) {
    forall e: Entity | e.kind != Device :: (e in rows <==> e in other) && (e in rows ==> rows[e] == other[e])
  }

  /** The state reached from r by delivering exactly these events of the batch. */
  ghost predicate Reached(cfg: Config, r: Replica, batch: set<Event>, events: set<Event>, after: Replica)
    requires ValidConfig(cfg)
  {
    && events <= batch
    && SameOthers(r.rows, after.rows)
    && (forall id :: Settled(cfg, r, events, id, after))
  }

  // ---------- which write is refused ----------

  lemma LandedIsSound(cfg: Config, r: Replica, ev: Event)
    requires ValidConfig(cfg) && WritesDevice(cfg, ev) && SiteResolves(cfg, r.rows, ev) && FullSnapshot(cfg, r.rows, ev)
    ensures RowTyped(cfg.schema[Device], ev.entityId, Landed(cfg, r.rows, ev))
    ensures RefersTo(r.rows, Landed(cfg, r.rows, ev)[SiteId], Site)
    ensures Written(Landed(cfg, r.rows, ev)) == ev.payload[UpdatedAt].at
    ensures Landed(cfg, r.rows, ev)[UpdatedAt].Stamp?
  {
    var scope := ClaimedOrg(ev);
    var incoming := Incoming(cfg.schema[Device], ev.payload);
    var row := Landed(cfg, r.rows, ev);
    assert incoming == Pinned(Device, incoming, scope);
    assert incoming.Keys == cfg.schema[Device].columns;
    if NeedsSite(Device, incoming)
       && !(incoming[SiteId].Text? && Found(cfg, r.rows, scope, Entity(Site, incoming[SiteId].text))) {
      DefaultSiteExists(cfg, r.rows, scope, 0, "");
    }
  }

  /** Other devices coming and going do not change how an event's site link lands. */
  lemma LandsTheSame(cfg: Config, rows: Rows, other: Rows, ev: Event, now: Time, newId: Id)
    requires ValidConfig(cfg) && SameOthers(rows, other)
    requires ev.entityKind == Some(Device) && SiteResolves(cfg, rows, ev)
    ensures Prepare(cfg, other, ev, Device, ClaimedOrg(ev), now, newId) == Ready(Landed(cfg, rows, ev), other)
  {
    SameSitesSameLookups(cfg, rows, other, ClaimedOrg(ev), Name, Text(DEFAULT_SITE_NAME));
    LandedDoesNotMint(cfg, rows, ev, now, newId);
  }

  /** Inserting or overwriting with a full row leaves exactly that row, unless what is here is as new. */
  lemma FullUpsert(cfg: Config, cur: Replica, ev: Event, row: Columns, scope: Option<Id>, now: Time, newId: Id)
    requires ValidConfig(cfg) && RowTyped(cfg.schema[Device], ev.entityId, row)
    requires row[UpdatedAt].Stamp? && IncomingTime(ev) == Some(row[UpdatedAt].at)
    requires var e := Entity(Device, ev.entityId); e in cur.rows ==> RowTyped(cfg.schema[Device], e.id, cur.rows[e])
    ensures var e := Entity(Device, ev.entityId);
            Upsert(cfg, cur, ev, Device, row, scope, now, newId) ==
            if e in cur.rows && Written(row) <= Written(cur.rows[e]) then Step(cur, Skipped)
            else Step(cur.(rows := cur.rows[e := row]), Applied)
  {
    var e := Entity(Device, ev.entityId);
    if e in cur.rows {
      assert Assigned(cur.rows[e], row) == row;
    } else {
      assert NewRow(cfg.schema[Device], row, e.id, now) == row;
    }
  }

  /** The effect of a device upsert that arrives on a hub whose sites are still those of r. */
  lemma DeviceUpsert(cfg: Config, r: Replica, cur: Replica, ev: Event, now: Time, newId: Id)
    requires ValidConfig(cfg) && SameOthers(r.rows, cur.rows) && Typed(cfg, cur.rows)
    requires WritesDevice(cfg, ev) && SiteResolves(cfg, r.rows, ev) && FullSnapshot(cfg, r.rows, ev)
    requires ev.entityId !in cur.tombstones
    ensures var e := Entity(Device, ev.entityId);
            var landed := Landed(cfg, r.rows, ev);
            Core(cfg, cur, ev, ClaimedOrg(ev), now, newId) ==
            if e in cur.rows && Written(landed) <= Written(cur.rows[e]) then Step(cur, Skipped)
            else Step(cur.(rows := cur.rows[e := landed]), Applied)
  {
    LandsTheSame(cfg, r.rows, cur.rows, ev, now, newId);
    LandedIsSound(cfg, r, ev);
    assert UpdatedAt in Incoming(cfg.schema[Device], ev.payload);
    FullUpsert(cfg, cur, ev, Landed(cfg, r.rows, ev), ClaimedOrg(ev), now, newId);
  }

  lemma SameLanding(cfg: Config, rows: Rows, other: Rows, ev: Event)
    requires ValidConfig(cfg) && SameOthers(rows, other) && WritesDevice(cfg, ev)
    requires SiteResolves(cfg, rows, ev) && FullSnapshot(cfg, rows, ev)
    ensures SiteResolves(cfg, other, ev) && FullSnapshot(cfg, other, ev)
    ensures Landed(cfg, other, ev) == Landed(cfg, rows, ev)
  {
    SameSitesSameLookups(cfg, rows, other, ClaimedOrg(ev), Name, Text(DEFAULT_SITE_NAME));
    LandsTheSame(cfg, rows, other, ev, 0, "");
  }

  /** The write is to a device this hub holds a row of that is as new. */
  ghost predicate Stale(cfg: Config, rows: Rows, ev: Event)
    requires ValidConfig(cfg) && WritesDevice(cfg, ev) && SiteResolves(cfg, rows, ev)
  {
    var e := Entity(Device, ev.entityId);
    e in rows && Written(Landed(cfg, rows, ev)) <= Written(rows[e])
  }

  /** The device it draws its power from is none, itself, or here. */
  ghost predicate Powered(cfg: Config, rows: Rows, ev: Event)
    requires ValidConfig(cfg) && WritesDevice(cfg, ev) && SiteResolves(cfg, rows, ev)
    requires PowerSource in Landed(cfg, rows, ev)
  {
    var source := Landed(cfg, rows, ev)[PowerSource];
    source == Text(ev.entityId) || RefersTo(rows, source, Device)
  }

  /** Landing a full row breaks a constraint exactly when its power source is missing. */
  lemma LandingFitsExactly(cfg: Config, rows: Rows, ev: Event)
    requires ValidConfig(cfg) && Consistent(cfg, rows)
    requires WritesDevice(cfg, ev) && SiteResolves(cfg, rows, ev) && FullSnapshot(cfg, rows, ev)
    ensures PowerSource in Landed(cfg, rows, ev)
    ensures Consistent(cfg, rows[Entity(Device, ev.entityId) := Landed(cfg, rows, ev)]) <==> Powered(cfg, rows, ev)
  {
    var e, row := Entity(Device, ev.entityId), Landed(cfg, rows, ev);
    LandedIsSound(cfg, Replica(rows, map[]), ev);
    var after := rows[e := row];
    assert RowLinked(cfg, after, e, row) <==> Powered(cfg, rows, ev);
    assert after[e] == row;
    forall f | f in rows && f != e ensures RowLinked(cfg, after, f, after[f]) {
      assert RowLinked(cfg, rows, f, rows[f]);
    }
    forall f, g | f in after && g in after && f != g && f.kind == g.kind ensures !Clash(f.kind, after[f], after[g]) {
      assert f.kind != Device ==> !Clash(f.kind, rows[f], rows[g]);
    }
  }

  /**
   A full write is refused exactly when it would land, being neither to a tombstoned device nor
   stale, and its power source is neither none, nor the device itself, nor a device that is here.
   */
  lemma WriteRefusedExactly(cfg: Config, cur: Replica, ev: Event, now: Time, newId: Id)
    requires ValidConfig(cfg) && Consistent(cfg, cur.rows)
    requires WritesDevice(cfg, ev) && SiteResolves(cfg, cur.rows, ev) && FullSnapshot(cfg, cur.rows, ev)
    ensures PowerSource in Landed(cfg, cur.rows, ev)
    ensures Apply(cfg, cur, ev, now, newId).outcome.Refused?
            <==> ev.entityId !in cur.tombstones && !Stale(cfg, cur.rows, ev) && !Powered(cfg, cur.rows, ev)
  {
    LandingFitsExactly(cfg, cur.rows, ev);
    if ev.entityId !in cur.tombstones {
      DeviceUpsert(cfg, cur, cur, ev, now, newId);
    }
  }

  /** A deletion of a device is never refused: what it powered is detached. */
  lemma DeletionNeverRefused(cfg: Config, cur: Replica, ev: Event, now: Time, newId: Id)
    requires ValidConfig(cfg) && Consistent(cfg, cur.rows) && DeletesDevice(cfg, ev)
    ensures Apply(cfg, cur, ev, now, newId) == Core(cfg, cur, ev, ClaimedOrg(ev), now, newId)
    ensures !Apply(cfg, cur, ev, now, newId).outcome.Refused?
  {
    if ev.entityId !in cur.tombstones {
      DeletionSteps(cfg, cur, ev, now, newId);
      if Entity(Device, ev.entityId) in cur.rows {
        RemovalIsRefusedExactly(cfg, cur.rows, Entity(Device, ev.entityId));
      }
    }
  }

  lemma DeletionSteps(cfg: Config, cur: Replica, ev: Event, now: Time, newId: Id)
    requires ValidConfig(cfg) && DeletesDevice(cfg, ev) && ev.entityId !in cur.tombstones
    ensures var e := Entity(Device, ev.entityId);
            var s := Core(cfg, cur, ev, ClaimedOrg(ev), now, newId);
            && s.outcome.Applied?
            && s.replica.rows == (if e in cur.rows then Removed(cur.rows, e) else cur.rows)
            && s.replica.tombstones.Keys == cur.tombstones.Keys + {ev.entityId}
  {
  }

  // ---------- one more delivery ----------

  /** An event says nothing about a device it neither writes nor deletes. */
  lemma SameMeaning(cfg: Config, r: Replica, events: set<Event>, ev: Event, id: Id)
    requires ValidConfig(cfg)
    requires ev.entityId != id || (!WritesDevice(cfg, ev) && !DeletesDevice(cfg, ev))
    ensures DeletedIn(cfg, events + {ev}, id) == DeletedIn(cfg, events, id)
    ensures forall row :: Candidate(cfg, r, events + {ev}, id, row) == Candidate(cfg, r, events, id, row)
  {
  }

  /** Only a deletion unplugs anything. */
  lemma SamePlugs(cfg: Config, events: set<Event>, ev: Event, id: Id, row: Columns)
    requires !DeletesDevice(cfg, ev)
    ensures Unplugged(cfg, events + {ev}, id, row) == Unplugged(cfg, events, id, row)
  {
    forall other ensures DeletedIn(cfg, events + {ev}, other) == DeletedIn(cfg, events, other) {
      if x :| x in events + {ev} && DeletesDevice(cfg, x) && x.entityId == other {
        assert x in events;
      }
    }
  }

  lemma UnpluggedKeepsTime(cfg: Config, events: set<Event>, id: Id, row: Columns)
    ensures Written(Unplugged(cfg, events, id, row)) == Written(row)
  {
  }

  /** A device an event that deletes nothing is not about stays settled. */
  lemma BystanderStaysSettled(cfg: Config, r: Replica, events: set<Event>, ev: Event, id: Id, cur: Replica,
                              after: Replica)
    requires ValidConfig(cfg) && Settled(cfg, r, events, id, cur) && !DeletesDevice(cfg, ev)
    requires ev.entityId != id || !WritesDevice(cfg, ev)
    requires var e := Entity(Device, id);
             (e in cur.rows <==> e in after.rows) && (e in cur.rows ==> after.rows[e] == cur.rows[e])
    requires id in cur.tombstones <==> id in after.tombstones
    ensures Settled(cfg, r, events + {ev}, id, after)
  {
    var e := Entity(Device, id);
    SameMeaning(cfg, r, events, ev, id);
    if !(id in r.tombstones || DeletedIn(cfg, events, id)) && e in cur.rows {
      var row :| Newest(cfg, r, events, id, row) && cur.rows[e] == Unplugged(cfg, events, id, row);
      SamePlugs(cfg, events, ev, id, row);
      assert Newest(cfg, r, events + {ev}, id, row);
    }
  }

  lemma CandidatesOfOneMore(cfg: Config, r: Replica, events: set<Event>, ev: Event, row: Columns)
    requires ValidConfig(cfg) && WritesDevice(cfg, ev) && SiteResolves(cfg, r.rows, ev)
    ensures Candidate(cfg, r, events + {ev}, ev.entityId, row)
            <==> Candidate(cfg, r, events, ev.entityId, row) || row == Landed(cfg, r.rows, ev)
  {
    var id := ev.entityId;
    assert LandsAs(cfg, r, ev, id, Landed(cfg, r.rows, ev));
    if x :| x in events && LandsAs(cfg, r, x, id, row) {
      assert x in events + {ev};
    }
  }

  /** The effect of a write on its own device: kept if what is here is as new, else overwritten. */
  ghost predicate LandedOver(cfg: Config, r: Replica, cur: Replica, after: Replica, ev: Event)
    requires ValidConfig(cfg) && WritesDevice(cfg, ev) && SiteResolves(cfg, r.rows, ev)
  {
    var e := Entity(Device, ev.entityId);
    var landed := Landed(cfg, r.rows, ev);
    && after.tombstones == cur.tombstones
    && after.rows == if e in cur.rows && Written(landed) <= Written(cur.rows[e]) then cur.rows
                     else cur.rows[e := landed]
  }

  /** Comparing one arriving write with the row that is here keeps the newest of all writes seen. */
  lemma NewestSettles(cfg: Config, r: Replica, events: set<Event>, cur: Replica, after: Replica, ev: Event)
    requires ValidConfig(cfg) && WritesDevice(cfg, ev) && SiteResolves(cfg, r.rows, ev)
    requires ev.entityId !in cur.tombstones && Settled(cfg, r, events, ev.entityId, cur)
    requires LandedOver(cfg, r, cur, after, ev)
    requires Unplugged(cfg, events, ev.entityId, Landed(cfg, r.rows, ev)) == Landed(cfg, r.rows, ev)
             || after.rows == cur.rows
    ensures Settled(cfg, r, events + {ev}, ev.entityId, after)
  {
    var id := ev.entityId;
    var e := Entity(Device, id);
    var landed := Landed(cfg, r.rows, ev);
    forall row
      ensures Candidate(cfg, r, events + {ev}, id, row) <==> Candidate(cfg, r, events, id, row) || row == landed
      ensures Unplugged(cfg, events + {ev}, id, row) == Unplugged(cfg, events, id, row)
      ensures Written(Unplugged(cfg, events, id, row)) == Written(row)
    {
      CandidatesOfOneMore(cfg, r, events, ev, row);
      SamePlugs(cfg, events, ev, id, row);
      UnpluggedKeepsTime(cfg, events, id, row);
    }
    assert !DeletedIn(cfg, events + {ev}, id);
    if e in cur.rows {
      var row :| Newest(cfg, r, events, id, row) && cur.rows[e] == Unplugged(cfg, events, id, row);
      assert Newest(cfg, r, events + {ev}, id, if Written(landed) <= Written(row) then row else landed);
    } else {
      FirstIsNewest(cfg, r, events, ev);
    }
  }

  /** The first row a device is ever given is the newest. */
  lemma FirstIsNewest(cfg: Config, r: Replica, events: set<Event>, ev: Event)
    requires ValidConfig(cfg) && WritesDevice(cfg, ev) && SiteResolves(cfg, r.rows, ev)
    requires forall row :: !Candidate(cfg, r, events, ev.entityId, row)
    ensures Newest(cfg, r, events + {ev}, ev.entityId, Landed(cfg, r.rows, ev))
  {
    var e := Entity(Device, ev.entityId);
    forall row ensures Candidate(cfg, r, events + {ev}, ev.entityId, row) <==> row == Landed(cfg, r.rows, ev) {
      CandidatesOfOneMore(cfg, r, events, ev, row);
    }
    if e in r.rows { assert Candidate(cfg, r, events, ev.entityId, r.rows[e]); }
  }

  /** A row that lands has its power source here, so no delivered event has deleted that. */
  lemma LandedIsPlugged(cfg: Config, r: Replica, events: set<Event>, cur: Replica, ev: Event)
    requires ValidConfig(cfg) && SameOthers(r.rows, cur.rows) && (forall id :: Settled(cfg, r, events, id, cur))
    requires WritesDevice(cfg, ev) && SiteResolves(cfg, r.rows, ev) && FullSnapshot(cfg, r.rows, ev)
    requires SiteResolves(cfg, cur.rows, ev) && PowerSource in Landed(cfg, cur.rows, ev) && Powered(cfg, cur.rows, ev)
    ensures Unplugged(cfg, events, ev.entityId, Landed(cfg, r.rows, ev)) == Landed(cfg, r.rows, ev)
  {
    SameLanding(cfg, r.rows, cur.rows, ev);
    var source := Landed(cfg, r.rows, ev)[PowerSource];
    if source.Text? {
      assert Settled(cfg, r, events, source.text, cur);
    }
  }

  lemma WriteLandsOver(cfg: Config, r: Replica, cur: Replica, ev: Event, now: Time, newId: Id)
    requires ValidConfig(cfg) && SameOthers(r.rows, cur.rows) && Consistent(cfg, cur.rows)
    requires WritesDevice(cfg, ev) && SiteResolves(cfg, r.rows, ev) && FullSnapshot(cfg, r.rows, ev)
    requires !Apply(cfg, cur, ev, now, newId).outcome.Refused? && ev.entityId !in cur.tombstones
    ensures LandedOver(cfg, r, cur, Apply(cfg, cur, ev, now, newId).replica, ev)
  {
    DeviceUpsert(cfg, r, cur, ev, now, newId);
  }

  /** A write that is not refused keeps the row that is here or is plugged in. */
  lemma LandsPlugged(cfg: Config, r: Replica, events: set<Event>, cur: Replica, ev: Event, now: Time, newId: Id)
    requires ValidConfig(cfg) && SameOthers(r.rows, cur.rows) && Consistent(cfg, cur.rows)
    requires forall id :: Settled(cfg, r, events, id, cur)
    requires WritesDevice(cfg, ev) && SiteResolves(cfg, r.rows, ev) && FullSnapshot(cfg, r.rows, ev)
    requires !Apply(cfg, cur, ev, now, newId).outcome.Refused? && ev.entityId !in cur.tombstones
    requires LandedOver(cfg, r, cur, Apply(cfg, cur, ev, now, newId).replica, ev)
    ensures var landed := Landed(cfg, r.rows, ev);
            Unplugged(cfg, events, ev.entityId, landed) == landed
            || Apply(cfg, cur, ev, now, newId).replica.rows == cur.rows
  {
    SameLanding(cfg, r.rows, cur.rows, ev);
    WriteRefusedExactly(cfg, cur, ev, now, newId);
    if !Stale(cfg, cur.rows, ev) {
      LandedIsPlugged(cfg, r, events, cur, ev);
    }
  }

  lemma DeletedStaysSettled(cfg: Config, r: Replica, events: set<Event>, cur: Replica, ev: Event)
    requires ValidConfig(cfg) && WritesDevice(cfg, ev) && ev.entityId in cur.tombstones
    requires Settled(cfg, r, events, ev.entityId, cur)
    ensures Settled(cfg, r, events + {ev}, ev.entityId, cur)
  {
  }

  lemma WriteSettlesItsDevice(cfg: Config, r: Replica, events: set<Event>, cur: Replica, ev: Event, now: Time,
                              newId: Id)
    requires ValidConfig(cfg) && SameOthers(r.rows, cur.rows) && Consistent(cfg, cur.rows)
    requires forall id :: Settled(cfg, r, events, id, cur)
    requires WritesDevice(cfg, ev) && SiteResolves(cfg, r.rows, ev) && FullSnapshot(cfg, r.rows, ev)
    requires !Apply(cfg, cur, ev, now, newId).outcome.Refused?
    ensures var after := Apply(cfg, cur, ev, now, newId).replica;
            && (after == cur || LandedOver(cfg, r, cur, after, ev))
            && Settled(cfg, r, events + {ev}, ev.entityId, after)
  {
    assert Settled(cfg, r, events, ev.entityId, cur);
    if ev.entityId in cur.tombstones {
      DeletedStaysSettled(cfg, r, events, cur, ev);
    } else {
      WriteLandsOver(cfg, r, cur, ev, now, newId);
      LandsPlugged(cfg, r, events, cur, ev, now, newId);
      NewestSettles(cfg, r, events, cur, Apply(cfg, cur, ev, now, newId).replica, ev);
    }
  }

  /** Deliver one accepted write that is not refused. */
  lemma WriteSettles(cfg: Config, r: Replica, batch: set<Event>, events: set<Event>, cur: Replica, ev: Event,
                     now: Time, newId: Id)
    requires ValidConfig(cfg) && GoodBatch(cfg, r, batch) && Reached(cfg, r, batch, events, cur)
    requires Consistent(cfg, cur.rows)
    requires ev in batch && WritesDevice(cfg, ev) && !Apply(cfg, cur, ev, now, newId).outcome.Refused?
    ensures Reached(cfg, r, batch, events + {ev}, Apply(cfg, cur, ev, now, newId).replica)
  {
    WriteSettlesItsDevice(cfg, r, events, cur, ev, now, newId);
    OthersStaySettled(cfg, r, events, ev, cur, Apply(cfg, cur, ev, now, newId).replica);
  }

  lemma OthersStaySettled(cfg: Config, r: Replica, events: set<Event>, ev: Event, cur: Replica, after: Replica)
    requires ValidConfig(cfg) && WritesDevice(cfg, ev)
    requires after == cur || (SiteResolves(cfg, r.rows, ev) && LandedOver(cfg, r, cur, after, ev))
    ensures forall id | id != ev.entityId && Settled(cfg, r, events, id, cur) ::
              Settled(cfg, r, events + {ev}, id, after)
  {
    forall id | id != ev.entityId && Settled(cfg, r, events, id, cur)
      ensures Settled(cfg, r, events + {ev}, id, after)
    {
      BystanderStaysSettled(cfg, r, events, ev, id, cur, after);
    }
  }

  /** An event of an organization this hub does not know, delivered or not, is all the same. */
  lemma StrangerSettles(cfg: Config, r: Replica, batch: set<Event>, events: set<Event>, cur: Replica, ev: Event)
    requires ValidConfig(cfg) && Reached(cfg, r, batch, events, cur) && ev in batch && !Accepted(cfg, ev)
    ensures Reached(cfg, r, batch, events + {ev}, cur)
  {
    forall id ensures Settled(cfg, r, events + {ev}, id, cur) {
      assert Settled(cfg, r, events, id, cur);
      BystanderStaysSettled(cfg, r, events, ev, id, cur, cur);
    }
  }

  /** A deletion detaches exactly the rows that its device powered. */
  lemma DeletionUnplugs(cfg: Config, r: Replica, events: set<Event>, cur: Replica, after: Replica, ev: Event, id: Id)
    requires ValidConfig(cfg) && Settled(cfg, r, events, id, cur) && DeletesDevice(cfg, ev) && id != ev.entityId
    requires id in cur.tombstones <==> id in after.tombstones
    requires var e := Entity(Device, id);
             && (e in after.rows <==> e in cur.rows)
             && (e in cur.rows ==> after.rows[e] == Detached(Entity(Device, ev.entityId), cur.rows[e]))
    ensures Settled(cfg, r, events + {ev}, id, after)
  {
    var e := Entity(Device, id);
    SameMeaning(cfg, r, events, ev, id);
    if !(id in r.tombstones || DeletedIn(cfg, events, id)) && e in cur.rows {
      var row :| Newest(cfg, r, events, id, row) && cur.rows[e] == Unplugged(cfg, events, id, row);
      assert Newest(cfg, r, events + {ev}, id, row);
      DetachedIsUnplugged(cfg, events, ev, id, row);
    }
  }

  /** Removing a row, or not finding it, detaches what points at it, which without it is nothing. */
  lemma RemovedOrAbsent(cfg: Config, rows: Rows, gone: Entity, e: Entity)
    requires ValidConfig(cfg) && Linked(cfg, rows) && gone.kind == Device && e.kind == Device && e in rows && e != gone
    ensures var after := if gone in rows then Removed(rows, gone) else rows;
            e in after && after[e] == Detached(gone, rows[e])
  {
    assert RowLinked(cfg, rows, e, rows[e]);
    if gone !in rows {
      assert Detached(gone, rows[e]) == rows[e];
    }
  }

  lemma DetachedIsUnplugged(cfg: Config, events: set<Event>, ev: Event, id: Id, row: Columns)
    requires DeletesDevice(cfg, ev) && id != ev.entityId
    ensures Unplugged(cfg, events + {ev}, id, row)
            == Detached(Entity(Device, ev.entityId), Unplugged(cfg, events, id, row))
  {
    DeletedInOneMore(cfg, events, ev);
  }

  lemma DeletedInOneMore(cfg: Config, events: set<Event>, ev: Event)
    requires DeletesDevice(cfg, ev)
    ensures forall id :: DeletedIn(cfg, events + {ev}, id) <==> DeletedIn(cfg, events, id) || id == ev.entityId
  {
    forall id ensures DeletedIn(cfg, events + {ev}, id) <==> DeletedIn(cfg, events, id) || id == ev.entityId {
      if x :| x in events && DeletesDevice(cfg, x) && x.entityId == id {
        assert x in events + {ev};
      }
    }
  }

  lemma DeletionSettlesItsDevice(cfg: Config, r: Replica, events: set<Event>, cur: Replica, ev: Event, now: Time,
                                 newId: Id)
    requires ValidConfig(cfg) && Settled(cfg, r, events, ev.entityId, cur) && DeletesDevice(cfg, ev)
    ensures var gone, after := Entity(Device, ev.entityId), Core(cfg, cur, ev, ClaimedOrg(ev), now, newId).replica;
            && Settled(cfg, r, events + {ev}, ev.entityId, after)
            && after.rows == (if gone in cur.rows then Removed(cur.rows, gone) else cur.rows)
            && after.tombstones.Keys == cur.tombstones.Keys + {ev.entityId}
  {
    DeletedInOneMore(cfg, events, ev);
    if ev.entityId !in cur.tombstones {
      DeletionSteps(cfg, cur, ev, now, newId);
    }
  }

  /** Deliver one accepted deletion. */
  lemma DeletionSettles(cfg: Config, r: Replica, batch: set<Event>, events: set<Event>, cur: Replica, ev: Event,
                        now: Time, newId: Id)
    requires ValidConfig(cfg) && Reached(cfg, r, batch, events, cur) && Consistent(cfg, cur.rows)
    requires ev in batch && DeletesDevice(cfg, ev)
    ensures Reached(cfg, r, batch, events + {ev}, Apply(cfg, cur, ev, now, newId).replica)
  {
    var gone, after := Entity(Device, ev.entityId), Apply(cfg, cur, ev, now, newId).replica;
    DeletionNeverRefused(cfg, cur, ev, now, newId);
    assert Settled(cfg, r, events, ev.entityId, cur);
    DeletionSettlesItsDevice(cfg, r, events, cur, ev, now, newId);
    OtherKindsStay(cfg, cur.rows, gone);
    forall id | id != ev.entityId ensures Settled(cfg, r, events + {ev}, id, after) {
      assert Settled(cfg, r, events, id, cur);
      if Entity(Device, id) in cur.rows {
        RemovedOrAbsent(cfg, cur.rows, gone, Entity(Device, id));
      }
      DeletionUnplugs(cfg, r, events, cur, after, ev, id);
    }
  }

  /** Nothing but devices draws power. */
  lemma OtherKindsStay(cfg: Config, rows: Rows, gone: Entity)
    requires ValidConfig(cfg) && Typed(cfg, rows) && gone.kind == Device
    ensures SameOthers(rows, Removed(rows, gone))
  {
    forall f: Entity | f.kind != Device && f in rows ensures Removed(rows, gone)[f] == rows[f] {
      OtherKindStays(cfg, rows[f], f, gone);
    }
  }

  lemma OtherKindStays(cfg: Config, row: Columns, f: Entity, gone: Entity)
    requires ValidConfig(cfg) && RowTyped(cfg.schema[f.kind], f.id, row) && f.kind != Device && gone.kind == Device
    ensures Detached(gone, row) == row
  {
    assert PowerSource !in cfg.schema[f.kind].columns;
  }

  // ---------- the theorems ----------

  function EventsOf(ds: seq<Delivery>): set<Event> {
    set d | d in ds :: d.ev
  }

  /** The delivery is not refused, unless it is of an organization this hub does not know. */
  ghost predicate GoesThrough(cfg: Config, cur: Replica, d: Delivery)
    requires ValidConfig(cfg)
  {
    Accepted(cfg, d.ev) ==> !Apply(cfg, cur, d.ev, d.now, d.newId).outcome.Refused?
  }

  ghost predicate AllGoThrough(cfg: Config, r: Replica, ds: seq<Delivery>)
    requires ValidConfig(cfg)
  {
    ds != [] ==> AllGoThrough(cfg, r, ds[..|ds| - 1]) && GoesThrough(cfg, Run(cfg, r, ds[..|ds| - 1]), ds[|ds| - 1])
  }

  lemma DeliverySettles(cfg: Config, r: Replica, batch: set<Event>, events: set<Event>, cur: Replica, d: Delivery)
    requires ValidConfig(cfg) && GoodBatch(cfg, r, batch) && Reached(cfg, r, batch, events, cur)
    requires Consistent(cfg, cur.rows)
    requires d.ev in batch && GoesThrough(cfg, cur, d)
    ensures Reached(cfg, r, batch, events + {d.ev}, Apply(cfg, cur, d.ev, d.now, d.newId).replica)
  {
    if !Accepted(cfg, d.ev) {
      StrangerSettles(cfg, r, batch, events, cur, d.ev);
    } else if WritesDevice(cfg, d.ev) {
      WriteSettles(cfg, r, batch, events, cur, d.ev, d.now, d.newId);
    } else {
      DeletionSettles(cfg, r, batch, events, cur, d.ev, d.now, d.newId);
    }
  }

  lemma StartIsReached(cfg: Config, r: Replica, batch: set<Event>)
    requires ValidConfig(cfg) && GoodBatch(cfg, r, batch)
    ensures Reached(cfg, r, batch, {}, r)
  {
    forall id ensures Settled(cfg, r, {}, id, r) {
      var e := Entity(Device, id);
      if e in r.rows {
        assert Newest(cfg, r, {}, id, r.rows[e]);
      }
    }
  }

  lemma {:induction false} RunStaysConsistent(cfg: Config, r: Replica, ds: seq<Delivery>)
    requires ValidConfig(cfg) && Consistent(cfg, r.rows)
    ensures Consistent(cfg, Run(cfg, r, ds).rows)
  {
    if ds != [] {
      RunStaysConsistent(cfg, r, ds[..|ds| - 1]);
    }
  }

  lemma EventsOfOneMore(ds: seq<Delivery>)
    requires ds != []
    ensures EventsOf(ds) == EventsOf(ds[..|ds| - 1]) + {ds[|ds| - 1].ev}
  {
    assert ds == ds[..|ds| - 1] + [ds[|ds| - 1]];
  }

  /** Deliveries that go through reach the state that the set of their events determines. */
  lemma {:induction false} RunReaches(cfg: Config, r: Replica, batch: set<Event>, ds: seq<Delivery>)
    requires ValidConfig(cfg) && GoodBatch(cfg, r, batch) && EventsOf(ds) <= batch && AllGoThrough(cfg, r, ds)
    ensures Reached(cfg, r, batch, EventsOf(ds), Run(cfg, r, ds))
  {
    if ds == [] {
      StartIsReached(cfg, r, batch);
      assert EventsOf(ds) == {};
    } else {
      var n := |ds| - 1;
      EventsOfOneMore(ds);
      RunReaches(cfg, r, batch, ds[..n]);
      RunStaysConsistent(cfg, r, ds[..n]);
      DeliverySettles(cfg, r, batch, EventsOf(ds[..n]), Run(cfg, r, ds[..n]), ds[n]);
    }
  }

  lemma RefusedWriteIsBehind(cfg: Config, r: Replica, events: set<Event>, cur: Replica, ev: Event)
    requires ValidConfig(cfg) && SameOthers(r.rows, cur.rows)
    requires WritesDevice(cfg, ev) && SiteResolves(cfg, r.rows, ev) && FullSnapshot(cfg, r.rows, ev)
    requires SiteResolves(cfg, cur.rows, ev)
    requires ev.entityId !in cur.tombstones && !Stale(cfg, cur.rows, ev)
    ensures !Settled(cfg, r, events + {ev}, ev.entityId, cur)
  {
    if Settled(cfg, r, events + {ev}, ev.entityId, cur) {
      assert ev in events + {ev};
      SeenIsStale(cfg, r, events + {ev}, cur, ev);
    }
  }

  /** A refused delivery leaves its device behind what has been delivered. */
  lemma RefusedIsBehind(cfg: Config, r: Replica, batch: set<Event>, events: set<Event>, cur: Replica, d: Delivery)
    requires ValidConfig(cfg) && SameOthers(r.rows, cur.rows) && Consistent(cfg, cur.rows)
    requires WritesDevice(cfg, d.ev) && SiteResolves(cfg, r.rows, d.ev) && FullSnapshot(cfg, r.rows, d.ev)
    requires Apply(cfg, cur, d.ev, d.now, d.newId).outcome.Refused?
    ensures !Reached(cfg, r, batch, events + {d.ev}, Apply(cfg, cur, d.ev, d.now, d.newId).replica)
  {
    SameLanding(cfg, r.rows, cur.rows, d.ev);
    WriteRefusedExactly(cfg, cur, d.ev, d.now, d.newId);
    RefusedWriteIsBehind(cfg, r, events, cur, d.ev);
  }

  /** One more delivery reaches the state of one more event exactly if it goes through. */
  lemma DeliverySettlesExactly(cfg: Config, r: Replica, batch: set<Event>, events: set<Event>, cur: Replica,
                               d: Delivery)
    requires ValidConfig(cfg) && GoodBatch(cfg, r, batch) && Reached(cfg, r, batch, events, cur)
    requires Consistent(cfg, cur.rows)
    requires d.ev in batch
    ensures Reached(cfg, r, batch, events + {d.ev}, Apply(cfg, cur, d.ev, d.now, d.newId).replica)
            <==> GoesThrough(cfg, cur, d)
  {
    if GoesThrough(cfg, cur, d) {
      DeliverySettles(cfg, r, batch, events, cur, d);
    } else {
      if DeletesDevice(cfg, d.ev) {
        DeletionNeverRefused(cfg, cur, d.ev, d.now, d.newId);
      }
      RefusedIsBehind(cfg, r, batch, events, cur, d);
    }
  }

  ghost predicate ReachedAfter(cfg: Config, r: Replica, batch: set<Event>, ds: seq<Delivery>)
    requires ValidConfig(cfg)
  {
    Reached(cfg, r, batch, EventsOf(ds), Run(cfg, r, ds))
  }

  /** All along, the state is the one the delivered events determine, exactly if no delivery is refused. */
  lemma {:induction false} RunReachesExactly(cfg: Config, r: Replica, batch: set<Event>, ds: seq<Delivery>)
    requires ValidConfig(cfg) && GoodBatch(cfg, r, batch) && EventsOf(ds) <= batch
    ensures (forall k | 0 <= k <= |ds| :: ReachedAfter(cfg, r, batch, ds[..k])) <==> AllGoThrough(cfg, r, ds)
  {
    if ds == [] {
      StartIsReached(cfg, r, batch);
      assert EventsOf(ds) == {} && ds[..0] == ds;
    } else {
      var n := |ds| - 1;
      EventsOfOneMore(ds);
      RunReachesExactly(cfg, r, batch, ds[..n]);
      RunStaysConsistent(cfg, r, ds[..n]);
      assert ds[..n][..n] == ds[..n] && ds[..n + 1] == ds;
      forall k | 0 <= k <= n ensures ds[..n][..k] == ds[..k] {}
      LastReachesExactly(cfg, r, batch, ds);
    }
  }

  lemma LastReachesExactly(cfg: Config, r: Replica, batch: set<Event>, ds: seq<Delivery>)
    requires ValidConfig(cfg) && GoodBatch(cfg, r, batch) && EventsOf(ds) <= batch && ds != []
    ensures ReachedAfter(cfg, r, batch, ds[..|ds| - 1]) ==>
              (ReachedAfter(cfg, r, batch, ds) <==> GoesThrough(cfg, Run(cfg, r, ds[..|ds| - 1]), ds[|ds| - 1]))
  {
    var n := |ds| - 1;
    EventsOfOneMore(ds);
    RunStaysConsistent(cfg, r, ds[..n]);
    if ReachedAfter(cfg, r, batch, ds[..n]) {
      DeliverySettlesExactly(cfg, r, batch, EventsOf(ds[..n]), Run(cfg, r, ds[..n]), ds[n]);
    }
  }

  // ---------- deliveries that go through ----------

  ghost predicate WrittenIn(cfg: Config, events: set<Event>, id: Id) {
    exists ev :: ev in events && WritesDevice(cfg, ev) && ev.entityId == id
  }

  /** The device that the sent row draws its power from is none, itself, or known from the start or by then. */
  ghost predicate Supplied(cfg: Config, r: Replica, seen: set<Event>, ev: Event) {
    WritesDevice(cfg, ev) && PowerSource in ev.payload ==>
      var source := ev.payload[PowerSource];
      || source == Null || source == Text(ev.entityId)
      || (source.Text? && source.text !in r.tombstones
          && (Entity(Device, source.text) in r.rows || WrittenIn(cfg, seen, source.text)))
  }

  /** The write draws its device's power from another. */
  ghost predicate DrawsFrom(cfg: Config, ev: Event, id: Id) {
    WritesDevice(cfg, ev) && PowerSource in ev.payload && ev.payload[PowerSource] == Text(id) && id != ev.entityId
  }

  /** The row a write sends is no newer than one its device has from the start or from a write seen. */
  ghost predicate Outdated(cfg: Config, r: Replica, seen: set<Event>, ev: Event)
    requires ValidConfig(cfg)
  {
    && UpdatedAt in ev.payload && ev.payload[UpdatedAt].Stamp?
    && exists row :: Candidate(cfg, r, seen, ev.entityId, row) && ev.payload[UpdatedAt].at <= Written(row)
  }

  /** Supplied by a device not deleted so far; an outdated write and one to a deleted device need no supply. */
  ghost predicate Sourced(cfg: Config, r: Replica, seen: set<Event>, ev: Event)
    requires ValidConfig(cfg)
  {
    || ev.entityId in r.tombstones || DeletedIn(cfg, seen, ev.entityId) || Outdated(cfg, r, seen, ev)
    || (Supplied(cfg, r, seen, ev) && forall id :: DrawsFrom(cfg, ev, id) ==> !DeletedIn(cfg, seen, id))
  }

  /** Each device comes before the devices it powers and is not deleted before they are written. */
  ghost predicate Ordered(cfg: Config, r: Replica, ds: seq<Delivery>)
    requires ValidConfig(cfg)
  {
    forall k | 0 <= k < |ds| :: Sourced(cfg, r, EventsOf(ds[..k]), ds[k].ev)
  }

  /** A device that is known and not deleted is here. */
  lemma KnownIsHere(cfg: Config, r: Replica, batch: set<Event>, events: set<Event>, cur: Replica, id: Id)
    requires ValidConfig(cfg) && GoodBatch(cfg, r, batch) && events <= batch && Settled(cfg, r, events, id, cur)
    requires id !in r.tombstones && !DeletedIn(cfg, events, id)
    requires Entity(Device, id) in r.rows || WrittenIn(cfg, events, id)
    ensures Entity(Device, id) in cur.rows
  {
    if Entity(Device, id) in r.rows {
      assert Candidate(cfg, r, events, id, r.rows[Entity(Device, id)]);
    } else {
      var ev :| ev in events && WritesDevice(cfg, ev) && ev.entityId == id;
      assert LandsAs(cfg, r, ev, id, Landed(cfg, r.rows, ev));
      assert Candidate(cfg, r, events, id, Landed(cfg, r.rows, ev));
    }
  }

  lemma LandedSource(cfg: Config, rows: Rows, ev: Event)
    requires ValidConfig(cfg) && WritesDevice(cfg, ev) && SiteResolves(cfg, rows, ev) && FullSnapshot(cfg, rows, ev)
    ensures PowerSource in ev.payload && PowerSource in Landed(cfg, rows, ev)
    ensures Landed(cfg, rows, ev)[PowerSource] == ev.payload[PowerSource]
  {
  }

  /** A device that is here is known and not deleted. */
  lemma HereIsKnown(cfg: Config, r: Replica, events: set<Event>, cur: Replica, id: Id)
    requires ValidConfig(cfg) && Settled(cfg, r, events, id, cur) && Entity(Device, id) in cur.rows
    ensures id !in r.tombstones && !DeletedIn(cfg, events, id)
    ensures Entity(Device, id) in r.rows || WrittenIn(cfg, events, id)
  {
    var row :| Newest(cfg, r, events, id, row);
    if Entity(Device, id) !in r.rows {
      var ev :| ev in events && LandsAs(cfg, r, ev, id, row);
    }
  }

  /** Among the settled a write is stale exactly if it is outdated. */
  lemma StaleExactly(cfg: Config, r: Replica, events: set<Event>, cur: Replica, ev: Event)
    requires ValidConfig(cfg) && SameOthers(r.rows, cur.rows) && ev.entityId !in cur.tombstones
    requires WritesDevice(cfg, ev) && SiteResolves(cfg, r.rows, ev) && FullSnapshot(cfg, r.rows, ev)
    requires Settled(cfg, r, events, ev.entityId, cur) && SiteResolves(cfg, cur.rows, ev)
    ensures Stale(cfg, cur.rows, ev) <==> Outdated(cfg, r, events, ev)
  {
    var id := ev.entityId;
    var e := Entity(Device, id);
    SameLanding(cfg, r.rows, cur.rows, ev);
    LandedIsSound(cfg, r, ev);
    if e in cur.rows {
      var row :| Newest(cfg, r, events, id, row) && cur.rows[e] == Unplugged(cfg, events, id, row);
      UnpluggedKeepsTime(cfg, events, id, row);
    }
  }

  /** Among the settled a write has its power source here exactly if that is supplied and not deleted. */
  lemma PoweredExactly(cfg: Config, r: Replica, batch: set<Event>, events: set<Event>, cur: Replica, ev: Event)
    requires ValidConfig(cfg) && GoodBatch(cfg, r, batch) && Reached(cfg, r, batch, events, cur) && ev in batch
    requires WritesDevice(cfg, ev) && SiteResolves(cfg, cur.rows, ev)
    requires PowerSource in ev.payload && PowerSource in Landed(cfg, cur.rows, ev)
    requires Landed(cfg, cur.rows, ev)[PowerSource] == ev.payload[PowerSource]
    ensures Powered(cfg, cur.rows, ev)
            <==> Supplied(cfg, r, events, ev) && forall id :: DrawsFrom(cfg, ev, id) ==> !DeletedIn(cfg, events, id)
  {
    var source := ev.payload[PowerSource];
    if source.Text? && source.text != ev.entityId {
      assert Settled(cfg, r, events, source.text, cur) && DrawsFrom(cfg, ev, source.text);
      if Entity(Device, source.text) in cur.rows {
        HereIsKnown(cfg, r, events, cur, source.text);
      } else if Powered(cfg, cur.rows, ev) || (Supplied(cfg, r, events, ev) && !DeletedIn(cfg, events, source.text)) {
        KnownIsHere(cfg, r, batch, events, cur, source.text);
      }
    }
  }

  /** A write seen before is outdated. */
  lemma SeenIsSourced(cfg: Config, r: Replica, batch: set<Event>, events: set<Event>, ev: Event)
    requires ValidConfig(cfg) && GoodBatch(cfg, r, batch) && ev in batch && ev in events
    ensures Sourced(cfg, r, events, ev)
  {
    if WritesDevice(cfg, ev) {
      LandedIsSound(cfg, r, ev);
      assert LandsAs(cfg, r, ev, ev.entityId, Landed(cfg, r.rows, ev));
      assert Candidate(cfg, r, events, ev.entityId, Landed(cfg, r.rows, ev));
    }
  }

  /** A delivery to a settled replica goes through exactly if it is sourced. */
  lemma SourcedGoesThroughExactly(cfg: Config, r: Replica, batch: set<Event>, events: set<Event>, cur: Replica,
                                  d: Delivery)
    requires ValidConfig(cfg) && GoodBatch(cfg, r, batch) && Reached(cfg, r, batch, events, cur)
    requires Consistent(cfg, cur.rows)
    requires d.ev in batch && Accepted(cfg, d.ev)
    ensures !Apply(cfg, cur, d.ev, d.now, d.newId).outcome.Refused? <==> Sourced(cfg, r, events, d.ev)
  {
    var ev := d.ev;
    if DeletesDevice(cfg, ev) {
      DeletionNeverRefused(cfg, cur, ev, d.now, d.newId);
    } else {
      SameLanding(cfg, r.rows, cur.rows, ev);
      LandedSource(cfg, cur.rows, ev);
      WriteRefusedExactly(cfg, cur, ev, d.now, d.newId);
      assert Settled(cfg, r, events, ev.entityId, cur);
      if ev.entityId !in cur.tombstones {
        StaleExactly(cfg, r, events, cur, ev);
        PoweredExactly(cfg, r, batch, events, cur, ev);
      }
    }
  }

  /** A write delivered before is stale. */
  lemma SeenIsStale(cfg: Config, r: Replica, events: set<Event>, cur: Replica, ev: Event)
    requires ValidConfig(cfg) && SameOthers(r.rows, cur.rows) && ev in events && ev.entityId !in cur.tombstones
    requires WritesDevice(cfg, ev) && SiteResolves(cfg, r.rows, ev) && FullSnapshot(cfg, r.rows, ev)
    requires Settled(cfg, r, events, ev.entityId, cur) && SiteResolves(cfg, cur.rows, ev)
    ensures Stale(cfg, cur.rows, ev)
  {
    var id := ev.entityId;
    var e := Entity(Device, id);
    SameLanding(cfg, r.rows, cur.rows, ev);
    assert LandsAs(cfg, r, ev, id, Landed(cfg, r.rows, ev));
    assert Candidate(cfg, r, events, id, Landed(cfg, r.rows, ev));
    var row :| Newest(cfg, r, events, id, row) && cur.rows[e] == Unplugged(cfg, events, id, row);
    UnpluggedKeepsTime(cfg, events, id, row);
  }

  lemma OrderedOneMore(cfg: Config, r: Replica, ds: seq<Delivery>)
    requires ValidConfig(cfg) && ds != []
    ensures var n := |ds| - 1;
            Ordered(cfg, r, ds) <==> Ordered(cfg, r, ds[..n]) && Sourced(cfg, r, EventsOf(ds[..n]), ds[n].ev)
  {
    var n := |ds| - 1;
    forall k | 0 <= k < n ensures ds[..n][..k] == ds[..k] && ds[..n][k] == ds[k] {}
  }

  /**
   No delivery is refused exactly when each device comes before the devices it powers and is not
   deleted before they are written, but for writes that are outdated or to deleted devices.
   */
  lemma {:induction false} GoThroughExactly(cfg: Config, r: Replica, batch: set<Event>, ds: seq<Delivery>)
    requires ValidConfig(cfg) && GoodBatch(cfg, r, batch) && EventsOf(ds) <= batch
    ensures AllGoThrough(cfg, r, ds) <==> Ordered(cfg, r, ds)
  {
    if ds != [] {
      var n := |ds| - 1;
      EventsOfOneMore(ds);
      OrderedOneMore(cfg, r, ds);
      GoThroughExactly(cfg, r, batch, ds[..n]);
      if AllGoThrough(cfg, r, ds[..n]) {
        LastGoesThroughExactly(cfg, r, batch, ds);
      }
    }
  }

  lemma LastGoesThroughExactly(cfg: Config, r: Replica, batch: set<Event>, ds: seq<Delivery>)
    requires ValidConfig(cfg) && GoodBatch(cfg, r, batch) && EventsOf(ds) <= batch && ds != []
    requires AllGoThrough(cfg, r, ds[..|ds| - 1])
    ensures var n := |ds| - 1;
            GoesThrough(cfg, Run(cfg, r, ds[..n]), ds[n]) <==> Sourced(cfg, r, EventsOf(ds[..n]), ds[n].ev)
  {
    var n := |ds| - 1;
    EventsOfOneMore(ds);
    RunReaches(cfg, r, batch, ds[..n]);
    RunStaysConsistent(cfg, r, ds[..n]);
    if Accepted(cfg, ds[n].ev) {
      SourcedGoesThroughExactly(cfg, r, batch, EventsOf(ds[..n]), Run(cfg, r, ds[..n]), ds[n]);
    }
  }

  lemma {:induction false} FirstGoThrough(cfg: Config, r: Replica, ds: seq<Delivery>, k: nat)
    requires ValidConfig(cfg) && AllGoThrough(cfg, r, ds) && k <= |ds|
    ensures AllGoThrough(cfg, r, ds[..k])
    ensures k < |ds| ==> GoesThrough(cfg, Run(cfg, r, ds[..k]), ds[k])
  {
    var n := |ds| - 1;
    if k == |ds| {
      assert ds[..k] == ds;
    } else {
      assert ds[..n][..k] == ds[..k];
      if k < n {
        FirstGoThrough(cfg, r, ds[..n], k);
      }
    }
  }

  // ---------- convergence ----------

  /** Two writes of one device that carry the same time carry the same row. */
  ghost predicate DistinctWrites(cfg: Config, r: Replica, events: set<Event>)
    requires ValidConfig(cfg)
  {
    forall a, b, id, x, y | a in events && b in events && LandsAs(cfg, r, a, id, x) && LandsAs(cfg, r, b, id, y) ::
      Written(x) == Written(y) ==> x == y
  }

  /** The delivered set of events determines the device rows and the tombstoned ids. */
  lemma ReachedIsUnique(cfg: Config, r: Replica, batch: set<Event>, events: set<Event>, one: Replica, other: Replica)
    requires ValidConfig(cfg) && DistinctWrites(cfg, r, events)
    requires Reached(cfg, r, batch, events, one) && Reached(cfg, r, batch, events, other)
    ensures one.rows == other.rows && one.tombstones.Keys == other.tombstones.Keys
  {
    forall id
      ensures id in one.tombstones <==> id in other.tombstones
      ensures var e := Entity(Device, id);
              (e in one.rows <==> e in other.rows) && (e in one.rows ==> one.rows[e] == other.rows[e])
    {
      SettledIsUnique(cfg, r, events, id, one, other);
    }
    forall e | e in one.rows ensures e in other.rows && one.rows[e] == other.rows[e] {
      assert e.kind == Device ==> e == Entity(Device, e.id);
    }
    forall e | e in other.rows ensures e in one.rows {
      assert e.kind == Device ==> e == Entity(Device, e.id);
    }
  }

  lemma SettledIsUnique(cfg: Config, r: Replica, events: set<Event>, id: Id, one: Replica, other: Replica)
    requires ValidConfig(cfg) && DistinctWrites(cfg, r, events)
    requires Settled(cfg, r, events, id, one) && Settled(cfg, r, events, id, other)
    ensures id in one.tombstones <==> id in other.tombstones
    ensures var e := Entity(Device, id);
            (e in one.rows <==> e in other.rows) && (e in one.rows ==> one.rows[e] == other.rows[e])
  {
    var e := Entity(Device, id);
    if !(id in r.tombstones || DeletedIn(cfg, events, id)) {
      if e in one.rows {
        var x :| Newest(cfg, r, events, id, x) && one.rows[e] == Unplugged(cfg, events, id, x);
        if e in other.rows {
          var y :| Newest(cfg, r, events, id, y) && other.rows[e] == Unplugged(cfg, events, id, y);
        }
      }
      if e in other.rows {
        var y :| Newest(cfg, r, events, id, y) && other.rows[e] == Unplugged(cfg, events, id, y);
      }
    }
  }

  /**
   Convergence: two hubs that start alike and receive the same events, in whatever order and
   however often, hold the same rows and the same tombstones if no delivery was refused.
   */
  lemma ReplicasConverge(cfg: Config, r: Replica, one: seq<Delivery>, other: seq<Delivery>)
    requires ValidConfig(cfg) && EventsOf(one) == EventsOf(other)
    requires GoodBatch(cfg, r, EventsOf(one)) && DistinctWrites(cfg, r, EventsOf(one))
    requires AllGoThrough(cfg, r, one) && AllGoThrough(cfg, r, other)
    ensures Run(cfg, r, one).rows == Run(cfg, r, other).rows
    ensures Run(cfg, r, one).tombstones.Keys == Run(cfg, r, other).tombstones.Keys
  {
    RunReaches(cfg, r, EventsOf(one), one);
    RunReaches(cfg, r, EventsOf(one), other);
    ReachedIsUnique(cfg, r, EventsOf(one), EventsOf(one), Run(cfg, r, one), Run(cfg, r, other));
  }

  /** Every power source in the batch is none, the device itself, or here from the start, and is never deleted. */
  ghost predicate SourcesKnown(cfg: Config, r: Replica, batch: set<Event>) {
    forall ev | ev in batch ::
      Supplied(cfg, r, {}, ev) && forall id :: DrawsFrom(cfg, ev, id) ==> !DeletedIn(cfg, batch, id)
  }

  /** Then every order of delivery converges. */
  lemma AnyOrderConverges(cfg: Config, r: Replica, one: seq<Delivery>, other: seq<Delivery>)
    requires ValidConfig(cfg) && EventsOf(one) == EventsOf(other) && SourcesKnown(cfg, r, EventsOf(one))
    requires GoodBatch(cfg, r, EventsOf(one)) && DistinctWrites(cfg, r, EventsOf(one))
    ensures Run(cfg, r, one).rows == Run(cfg, r, other).rows
    ensures Run(cfg, r, one).tombstones.Keys == Run(cfg, r, other).tombstones.Keys
  {
    KnownSourcesAreOrdered(cfg, r, EventsOf(one), one);
    KnownSourcesAreOrdered(cfg, r, EventsOf(one), other);
    GoThroughExactly(cfg, r, EventsOf(one), one);
    GoThroughExactly(cfg, r, EventsOf(one), other);
    ReplicasConverge(cfg, r, one, other);
  }

  lemma KnownSourcesAreOrdered(cfg: Config, r: Replica, batch: set<Event>, ds: seq<Delivery>)
    requires ValidConfig(cfg) && SourcesKnown(cfg, r, batch) && EventsOf(ds) == batch
    ensures Ordered(cfg, r, ds)
  {
    forall k | 0 <= k < |ds| ensures Sourced(cfg, r, EventsOf(ds[..k]), ds[k].ev) {
      var ev, seen := ds[k].ev, EventsOf(ds[..k]);
      assert ds[k] in ds && ev in batch;
      forall x | x in seen ensures x in batch {
        var d :| d in ds[..k] && d.ev == x;
        assert d in ds;
      }
      assert Supplied(cfg, r, seen, ev);
    }
  }

  /**
   Two snapshots that hang together do not commute: a child delivered before the device that
   powers it is refused and missing, while the other order takes both.
   */
  lemma ChildBeforeParentIsRefused(cfg: Config, r: Replica, parent: Event, child: Event, now: Time, newId: Id)
    requires ValidConfig(cfg) && GoodBatch(cfg, r, {parent, child}) && WritesDevice(cfg, parent)
    requires DrawsFrom(cfg, child, parent.entityId)
    requires Supplied(cfg, r, {}, parent)
    requires forall id | id in {parent.entityId, child.entityId} :: id !in r.tombstones && Entity(Device, id) !in r.rows
    ensures Apply(cfg, r, child, now, newId).outcome.Refused?
    ensures !Apply(cfg, r, parent, now, newId).outcome.Refused?
    ensures !Apply(cfg, Apply(cfg, r, parent, now, newId).replica, child, now, newId).outcome.Refused?
  {
    LandedSource(cfg, r.rows, child);
    WriteRefusedExactly(cfg, r, child, now, newId);
    var batch := {parent, child};
    StartIsReached(cfg, r, batch);
    SourcedGoesThroughExactly(cfg, r, batch, {}, r, Delivery(parent, now, newId));
    DeliverySettles(cfg, r, batch, {}, r, Delivery(parent, now, newId));
    assert {} + {parent} == {parent};
    assert WrittenIn(cfg, {parent}, parent.entityId);
    SourcedGoesThroughExactly(cfg, r, batch, {parent}, Apply(cfg, r, parent, now, newId).replica,
                              Delivery(child, now, newId));
  }
}
