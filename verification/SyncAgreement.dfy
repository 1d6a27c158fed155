/**
 Agreement of a whole network: hubs that start alike, edit devices locally and pull from each
 other, with crashes, hold the same rows once caught up, except where a hub deleted a device.
 */
module SyncAgreement {
  import opened Common
  import opened SyncModel
  import opened SyncSafety
  import opened SyncConvergence
  import opened SyncStore
  import opened SyncNetwork

  /** No row but its own draws its power from a device that the batch deletes. */
  ghost predicate PowerKept(cfg: Config, batch: set<Event>, rows: Rows) {
    forall e | e in rows && e.kind == Device && PowerSource in rows[e]
               && rows[e][PowerSource].Text? && rows[e][PowerSource].text != e.id ::
      !DeletedIn(cfg, batch, rows[e][PowerSource].text)
  }

  /** A good batch whose writes never draw power from a device that it deletes. */
  ghost predicate KeptBatch(cfg: Config, r: Replica, batch: set<Event>)
    requires ValidConfig(cfg)
  {
    && GoodBatch(cfg, r, batch)
    && PowerKept(cfg, batch, r.rows)
    && (forall ev, id | ev in batch && DrawsFrom(cfg, ev, id) :: !DeletedIn(cfg, batch, id))
  }

  /** What is known of one hub that has taken the events seen, out of the batch of the whole run. */
  ghost predicate HubState(cfg: Config, r: Replica, batch: set<Event>, seen: set<Event>, cur: Replica)
    requires ValidConfig(cfg)
  {
    && seen <= batch
    && SameOthers(r.rows, cur.rows)
    && Consistent(cfg, cur.rows)
    && PowerKept(cfg, batch, cur.rows)
    && (forall id | !DeletedIn(cfg, batch, id) :: Settled(cfg, r, seen, id, cur))
    && TombstonesKept(cfg, r, batch, cur)
  }

  /** Tombstones are those of the start and of deletions, and none has a row. */
  ghost predicate TombstonesKept(cfg: Config, r: Replica, batch: set<Event>, cur: Replica) {
    && (forall id | id in cur.tombstones ::
          (id in r.tombstones || DeletedIn(cfg, batch, id)) && Entity(Device, id) !in cur.rows)
    && r.tombstones.Keys <= cur.tombstones.Keys
  }

  // ---------- one received event ----------

  lemma StrangerKeepsHub(cfg: Config, r: Replica, batch: set<Event>, seen: set<Event>, cur: Replica, ev: Event)
    requires ValidConfig(cfg) && HubState(cfg, r, batch, seen, cur) && ev in batch && !Accepted(cfg, ev)
    ensures HubState(cfg, r, batch, seen + {ev}, cur)
  {
    forall id | !DeletedIn(cfg, batch, id) ensures Settled(cfg, r, seen + {ev}, id, cur) {
      BystanderStaysSettled(cfg, r, seen, ev, id, cur, cur);
    }
  }

  /** A write lands or is stale, unless its device is tombstoned here. */
  ghost predicate WrittenOver(cfg: Config, r: Replica, cur: Replica, after: Replica, ev: Event)
    requires ValidConfig(cfg) && WritesDevice(cfg, ev) && SiteResolves(cfg, r.rows, ev)
  {
    if ev.entityId in cur.tombstones then after == cur else LandedOver(cfg, r, cur, after, ev)
  }

  lemma WriteKeepsPower(cfg: Config, r: Replica, batch: set<Event>, cur: Replica, after: Replica, ev: Event)
    requires ValidConfig(cfg) && PowerKept(cfg, batch, cur.rows)
    requires forall id | DrawsFrom(cfg, ev, id) :: !DeletedIn(cfg, batch, id)
    requires WritesDevice(cfg, ev) && SiteResolves(cfg, r.rows, ev) && FullSnapshot(cfg, r.rows, ev)
    requires WrittenOver(cfg, r, cur, after, ev)
    ensures PowerKept(cfg, batch, after.rows) && SameOthers(cur.rows, after.rows)
  {
    LandedSource(cfg, r.rows, ev);
    var source := ev.payload[PowerSource];
    assert source.Text? && source.text != ev.entityId ==> DrawsFrom(cfg, ev, source.text);
  }

  lemma WriteSettlesItsOwn(cfg: Config, r: Replica, batch: set<Event>, seen: set<Event>, cur: Replica,
                           after: Replica, ev: Event)
    requires ValidConfig(cfg) && seen <= batch && Settled(cfg, r, seen, ev.entityId, cur)
    requires forall id | DrawsFrom(cfg, ev, id) :: !DeletedIn(cfg, batch, id)
    requires WritesDevice(cfg, ev) && SiteResolves(cfg, r.rows, ev) && FullSnapshot(cfg, r.rows, ev)
    requires WrittenOver(cfg, r, cur, after, ev)
    ensures Settled(cfg, r, seen + {ev}, ev.entityId, after)
  {
    if ev.entityId in cur.tombstones {
      DeletedStaysSettled(cfg, r, seen, cur, ev);
    } else {
      LandedSource(cfg, r.rows, ev);
      var source := ev.payload[PowerSource];
      assert source.Text? && source.text != ev.entityId ==> DrawsFrom(cfg, ev, source.text);
      NewestSettles(cfg, r, seen, cur, after, ev);
    }
  }

  lemma WriteSettlesAll(cfg: Config, r: Replica, batch: set<Event>, seen: set<Event>, cur: Replica, after: Replica,
                        ev: Event)
    requires ValidConfig(cfg) && seen <= batch
    requires forall id | !DeletedIn(cfg, batch, id) :: Settled(cfg, r, seen, id, cur)
    requires forall id | DrawsFrom(cfg, ev, id) :: !DeletedIn(cfg, batch, id)
    requires WritesDevice(cfg, ev) && SiteResolves(cfg, r.rows, ev) && FullSnapshot(cfg, r.rows, ev)
    requires WrittenOver(cfg, r, cur, after, ev)
    ensures forall id | !DeletedIn(cfg, batch, id) :: Settled(cfg, r, seen + {ev}, id, after)
  {
    forall id | !DeletedIn(cfg, batch, id) ensures Settled(cfg, r, seen + {ev}, id, after) {
      assert Settled(cfg, r, seen, id, cur);
      if id == ev.entityId {
        WriteSettlesItsOwn(cfg, r, batch, seen, cur, after, ev);
      } else {
        BystanderStaysSettled(cfg, r, seen, ev, id, cur, after);
      }
    }
  }

  lemma WriteKeepsTombstones(cfg: Config, r: Replica, batch: set<Event>, cur: Replica, after: Replica, ev: Event)
    requires ValidConfig(cfg) && WritesDevice(cfg, ev) && SiteResolves(cfg, r.rows, ev)
    requires WrittenOver(cfg, r, cur, after, ev)
    requires TombstonesKept(cfg, r, batch, cur)
    ensures TombstonesKept(cfg, r, batch, after)
  {
  }

  lemma WriteKeepsHub(cfg: Config, r: Replica, batch: set<Event>, seen: set<Event>, cur: Replica, after: Replica,
                      ev: Event)
    requires ValidConfig(cfg) && HubState(cfg, r, batch, seen, cur) && ev in batch && WritesDevice(cfg, ev)
    requires SiteResolves(cfg, r.rows, ev) && FullSnapshot(cfg, r.rows, ev)
    requires forall id | DrawsFrom(cfg, ev, id) :: !DeletedIn(cfg, batch, id)
    requires WrittenOver(cfg, r, cur, after, ev) && Consistent(cfg, after.rows)
    ensures HubState(cfg, r, batch, seen + {ev}, after)
  {
    WriteKeepsPower(cfg, r, batch, cur, after, ev);
    WriteSettlesAll(cfg, r, batch, seen, cur, after, ev);
    WriteKeepsTombstones(cfg, r, batch, cur, after, ev);
  }

  ghost predicate RemovedOver(cur: Replica, after: Replica, ev: Event) {
    var e := Entity(Device, ev.entityId);
    && after.rows == (if e in cur.rows then Removed(cur.rows, e) else cur.rows)
    && cur.tombstones.Keys <= after.tombstones.Keys <= cur.tombstones.Keys + {ev.entityId}
  }

  lemma RemovalKeepsPower(cfg: Config, batch: set<Event>, rows: Rows, gone: Entity)
    requires PowerKept(cfg, batch, rows)
    ensures PowerKept(cfg, batch, Removed(rows, gone))
  {
  }

  lemma RemovalSettlesAll(cfg: Config, r: Replica, batch: set<Event>, seen: set<Event>, cur: Replica,
                          after: Replica, ev: Event)
    requires ValidConfig(cfg) && (forall id | !DeletedIn(cfg, batch, id) :: Settled(cfg, r, seen, id, cur))
    requires ev in batch && DeletesDevice(cfg, ev) && RemovedOver(cur, after, ev) && Linked(cfg, cur.rows)
    ensures forall id | !DeletedIn(cfg, batch, id) :: Settled(cfg, r, seen + {ev}, id, after)
  {
    assert DeletedIn(cfg, batch, ev.entityId);
    forall id | !DeletedIn(cfg, batch, id) ensures Settled(cfg, r, seen + {ev}, id, after) {
      assert Settled(cfg, r, seen, id, cur);
      if Entity(Device, id) in cur.rows {
        RemovedOrAbsent(cfg, cur.rows, Entity(Device, ev.entityId), Entity(Device, id));
      }
      DeletionUnplugs(cfg, r, seen, cur, after, ev, id);
    }
  }

  lemma RemovalKeepsTombstones(cfg: Config, r: Replica, batch: set<Event>, cur: Replica, after: Replica, ev: Event)
    requires TombstonesKept(cfg, r, batch, cur) && DeletedIn(cfg, batch, ev.entityId) && RemovedOver(cur, after, ev)
    ensures TombstonesKept(cfg, r, batch, after)
  {
  }

  lemma RemovalKeepsHub(cfg: Config, r: Replica, batch: set<Event>, seen: set<Event>, cur: Replica, after: Replica,
                        ev: Event)
    requires ValidConfig(cfg) && HubState(cfg, r, batch, seen, cur)
    requires ev in batch && DeletesDevice(cfg, ev) && RemovedOver(cur, after, ev) && Consistent(cfg, after.rows)
    ensures HubState(cfg, r, batch, seen + {ev}, after)
  {
    assert DeletedIn(cfg, batch, ev.entityId);
    OtherKindsStay(cfg, cur.rows, Entity(Device, ev.entityId));
    RemovalKeepsPower(cfg, batch, cur.rows, Entity(Device, ev.entityId));
    RemovalSettlesAll(cfg, r, batch, seen, cur, after, ev);
    RemovalKeepsTombstones(cfg, r, batch, cur, after, ev);
  }

  lemma SuppliedIsPowered(cfg: Config, r: Replica, batch: set<Event>, seen: set<Event>, cur: Replica, ev: Event)
    requires ValidConfig(cfg) && KeptBatch(cfg, r, batch) && HubState(cfg, r, batch, seen, cur)
    requires ev in batch && WritesDevice(cfg, ev) && Supplied(cfg, r, seen, ev) && SiteResolves(cfg, cur.rows, ev)
    requires PowerSource in ev.payload && PowerSource in Landed(cfg, cur.rows, ev)
    requires Landed(cfg, cur.rows, ev)[PowerSource] == ev.payload[PowerSource]
    ensures Powered(cfg, cur.rows, ev)
  {
    var source := ev.payload[PowerSource];
    if source.Text? && source.text != ev.entityId {
      assert DrawsFrom(cfg, ev, source.text);
      assert Settled(cfg, r, seen, source.text, cur);
      KnownIsHere(cfg, r, batch, seen, cur, source.text);
    }
  }

  /** A supplied write is not refused: the device that powers it is not deleted by anyone, so it is here. */
  lemma SuppliedIsNotRefused(cfg: Config, r: Replica, batch: set<Event>, seen: set<Event>, cur: Replica, ev: Event,
                             now: Time, newId: Id)
    requires ValidConfig(cfg) && KeptBatch(cfg, r, batch) && HubState(cfg, r, batch, seen, cur)
    requires ev in batch && WritesDevice(cfg, ev) && Supplied(cfg, r, seen, ev)
    ensures !Apply(cfg, cur, ev, now, newId).outcome.Refused?
  {
    SameLanding(cfg, r.rows, cur.rows, ev);
    LandedSource(cfg, r.rows, ev);
    SuppliedIsPowered(cfg, r, batch, seen, cur, ev);
    WriteRefusedExactly(cfg, cur, ev, now, newId);
  }

  lemma WriteIsWrittenOver(cfg: Config, r: Replica, cur: Replica, ev: Event, now: Time, newId: Id)
    requires ValidConfig(cfg) && SameOthers(r.rows, cur.rows) && Consistent(cfg, cur.rows)
    requires WritesDevice(cfg, ev) && SiteResolves(cfg, r.rows, ev) && FullSnapshot(cfg, r.rows, ev)
    requires !Apply(cfg, cur, ev, now, newId).outcome.Refused?
    ensures WrittenOver(cfg, r, cur, Apply(cfg, cur, ev, now, newId).replica, ev)
  {
    if ev.entityId !in cur.tombstones {
      WriteLandsOver(cfg, r, cur, ev, now, newId);
    }
  }

  /**
   What an accepted event makes of one device: a write brings it, a deletion takes it, for good where a
   tombstone is.
   */
  ghost predicate Presence(cfg: Config, cur: Replica, after: Replica, ev: Event) {
    && (forall id | id != ev.entityId || !Accepted(cfg, ev) ::
          Entity(Device, id) in after.rows <==> Entity(Device, id) in cur.rows)
    && (WritesDevice(cfg, ev) && ev.entityId !in cur.tombstones ==> Entity(Device, ev.entityId) in after.rows)
    && cur.tombstones.Keys <= after.tombstones.Keys
    && after.tombstones.Keys <= cur.tombstones.Keys + (if DeletesDevice(cfg, ev) then {ev.entityId} else {})
    && (DeletesDevice(cfg, ev) ==> ev.entityId in after.tombstones)
  }

  lemma WritePresence(cfg: Config, r: Replica, cur: Replica, after: Replica, ev: Event)
    requires ValidConfig(cfg) && WritesDevice(cfg, ev) && SiteResolves(cfg, r.rows, ev)
    requires WrittenOver(cfg, r, cur, after, ev)
    ensures Presence(cfg, cur, after, ev)
  {
  }

  lemma ApplyWriteKeepsHub(cfg: Config, r: Replica, batch: set<Event>, seen: set<Event>, cur: Replica, ev: Event,
                           now: Time, newId: Id)
    requires ValidConfig(cfg) && KeptBatch(cfg, r, batch) && HubState(cfg, r, batch, seen, cur)
    requires ev in batch && WritesDevice(cfg, ev) && Supplied(cfg, r, seen, ev)
    ensures var after := Apply(cfg, cur, ev, now, newId).replica;
            HubState(cfg, r, batch, seen + {ev}, after) && Presence(cfg, cur, after, ev)
  {
    SuppliedIsNotRefused(cfg, r, batch, seen, cur, ev, now, newId);
    WriteIsWrittenOver(cfg, r, cur, ev, now, newId);
    var after := Apply(cfg, cur, ev, now, newId).replica;
    assert forall id | DrawsFrom(cfg, ev, id) :: !DeletedIn(cfg, batch, id);
    WriteKeepsHub(cfg, r, batch, seen, cur, after, ev);
    WritePresence(cfg, r, cur, after, ev);
  }

  lemma DeletionRemoves(cfg: Config, cur: Replica, ev: Event, now: Time, newId: Id)
    requires ValidConfig(cfg) && Consistent(cfg, cur.rows) && DeletesDevice(cfg, ev)
    requires ev.entityId in cur.tombstones ==> Entity(Device, ev.entityId) !in cur.rows
    ensures var after := Apply(cfg, cur, ev, now, newId).replica;
            RemovedOver(cur, after, ev) && Consistent(cfg, after.rows) && Presence(cfg, cur, after, ev)
  {
    DeletionNeverRefused(cfg, cur, ev, now, newId);
    if ev.entityId !in cur.tombstones {
      DeletionSteps(cfg, cur, ev, now, newId);
    }
  }

  lemma ApplyDeleteKeepsHub(cfg: Config, r: Replica, batch: set<Event>, seen: set<Event>, cur: Replica, ev: Event,
                            now: Time, newId: Id)
    requires ValidConfig(cfg) && HubState(cfg, r, batch, seen, cur) && ev in batch && DeletesDevice(cfg, ev)
    ensures var after := Apply(cfg, cur, ev, now, newId).replica;
            HubState(cfg, r, batch, seen + {ev}, after) && Presence(cfg, cur, after, ev)
  {
    DeletionRemoves(cfg, cur, ev, now, newId);
    RemovalKeepsHub(cfg, r, batch, seen, cur, Apply(cfg, cur, ev, now, newId).replica, ev);
  }

  /** Applying one supplied peer event moves the hub to the state that has seen it; a deletion is remembered. */
  lemma ApplyKeepsHub(cfg: Config, r: Replica, batch: set<Event>, seen: set<Event>, cur: Replica, ev: Event,
                      now: Time, newId: Id)
    requires ValidConfig(cfg) && KeptBatch(cfg, r, batch) && HubState(cfg, r, batch, seen, cur) && ev in batch
    requires Supplied(cfg, r, seen, ev)
    ensures var after := Apply(cfg, cur, ev, now, newId).replica;
            HubState(cfg, r, batch, seen + {ev}, after) && Presence(cfg, cur, after, ev)
  {
    if !Accepted(cfg, ev) {
      StrangerKeepsHub(cfg, r, batch, seen, cur, ev);
    } else if WritesDevice(cfg, ev) {
      ApplyWriteKeepsHub(cfg, r, batch, seen, cur, ev, now, newId);
    } else {
      ApplyDeleteKeepsHub(cfg, r, batch, seen, cur, ev, now, newId);
    }
  }

  /** Each event of a list is supplied by the time it comes. */
  ghost predicate SuppliedAll(cfg: Config, r: Replica, seen: set<Event>, events: seq<Event>)
    decreases |events|
  {
    events != [] ==> Supplied(cfg, r, seen, events[0]) && SuppliedAll(cfg, r, seen + {events[0]}, events[1..])
  }

  ghost predicate WritesIn(cfg: Config, events: seq<Event>, id: Id) {
    exists ev :: ev in events && WritesDevice(cfg, ev) && ev.entityId == id
  }

  ghost predicate DeletesIn(cfg: Config, events: seq<Event>, id: Id) {
    exists ev :: ev in events && DeletesDevice(cfg, ev) && ev.entityId == id
  }

  lemma SaidByFirst(cfg: Config, events: seq<Event>, id: Id)
    requires events != []
    ensures WritesIn(cfg, events, id)
            <==> (WritesDevice(cfg, events[0]) && events[0].entityId == id) || WritesIn(cfg, events[1..], id)
    ensures DeletesIn(cfg, events, id)
            <==> (DeletesDevice(cfg, events[0]) && events[0].entityId == id) || DeletesIn(cfg, events[1..], id)
  {
    assert events == [events[0]] + events[1..];
  }

  /** Sources known from the start supply whatever is received, in any order. */
  lemma {:induction false} KnownSourcesSupply(cfg: Config, r: Replica, batch: set<Event>, seen: set<Event>,
                                              events: seq<Event>)
    requires SourcesKnown(cfg, r, batch) && EventSet(events) <= batch
    ensures SuppliedAll(cfg, r, seen, events)
    decreases |events|
  {
    if events != [] {
      assert events[0] in EventSet(events);
      assert EventSet(events[1..]) <= EventSet(events);
      KnownSourcesSupply(cfg, r, batch, seen + {events[0]}, events[1..]);
    }
  }

  /** The hub has seen these events more, keeps its tombstones, and gains just those of the deletions among them. */
  ghost predicate Moved(cfg: Config, r: Replica, batch: set<Event>, h: Hub, events: seq<Event>, after: Hub)
    requires ValidConfig(cfg)
  {
    && HubState(cfg, r, batch, after.seen, after.replica)
    && after.seen == h.seen + EventSet(events)
    && h.replica.tombstones.Keys <= after.replica.tombstones.Keys
    && (forall ev | ev in events && DeletesDevice(cfg, ev) :: ev.entityId in after.replica.tombstones)
    && (forall id | id in after.replica.tombstones :: id in h.replica.tombstones || DeletesIn(cfg, events, id))
  }

  lemma MovedOneMore(cfg: Config, r: Replica, batch: set<Event>, h: Hub, one: Hub, events: seq<Event>, after: Hub)
    requires ValidConfig(cfg) && events != [] && Moved(cfg, r, batch, one, events[1..], after)
    requires one.seen == h.seen + {events[0]} && Presence(cfg, h.replica, one.replica, events[0])
    ensures Moved(cfg, r, batch, h, events, after)
  {
    assert EventSet(events) == {events[0]} + EventSet(events[1..]);
    assert events == [events[0]] + events[1..];
    forall id | id in after.replica.tombstones ensures id in h.replica.tombstones || DeletesIn(cfg, events, id) {
      assert id in one.replica.tombstones || DeletesIn(cfg, events[1..], id);
    }
  }

  lemma {:induction false} ReceiveKeepsHub(cfg: Config, r: Replica, batch: set<Event>, h: Hub, events: seq<Event>,
                                           now: Time, newId: Id)
    requires ValidConfig(cfg) && KeptBatch(cfg, r, batch) && h.cfg == cfg
    requires HubState(cfg, r, batch, h.seen, h.replica) && EventSet(events) <= batch
    requires SuppliedAll(cfg, r, h.seen, events)
    ensures Moved(cfg, r, batch, h, events, Receive(h, events, now, newId))
    decreases |events|
  {
    if events != [] {
      var ev := events[0];
      assert ev in EventSet(events);
      ApplyKeepsHub(cfg, r, batch, h.seen, h.replica, ev, now, newId);
      var one := h.(replica := Apply(h.cfg, h.replica, ev, now, newId).replica, seen := h.seen + {ev});
      assert EventSet(events) == {ev} + EventSet(events[1..]);
      ReceiveKeepsHub(cfg, r, batch, one, events[1..], now, newId);
      MovedOneMore(cfg, r, batch, h, one, events, Receive(h, events, now, newId));
    }
  }

  // ---------- local edits ----------

  /**
   A local write stores a well-typed row of a site and a power source that exist, stamps it later
   than the row it edits, and gives a device it creates an id no one has used.
   */
  ghost predicate LegalWrite(cfg: Config, r: Replica, h: Hub, id: Id, row: Columns)
    requires ValidConfig(cfg)
  {
    var e := Entity(Device, id);
    && RowTyped(cfg.schema[Device], id, row)
    && row[UpdatedAt].Stamp?
    && RefersTo(h.replica.rows, row[SiteId], Site)
    && RefersTo(h.replica.rows[e := row], row[PowerSource], Device)
    && (e in h.replica.rows ==> Written(h.replica.rows[e]) < Written(row))
    && (e !in h.replica.rows
        ==> e !in r.rows && id !in h.replica.tombstones && forall ev | ev in h.seen :: ev.entityId != id)
  }

  /** The event a local write emits would land, on a hub with the same sites, as the row itself. */
  lemma LocalWriteLandsAsIs(cfg: Config, r: Replica, h: Hub, id: Id, row: Columns, now: Time)
    requires ValidConfig(cfg) && Consistent(cfg, r.rows) && SameOthers(r.rows, h.replica.rows)
    requires LegalWrite(cfg, r, h, id, row)
    ensures var e := Entity(Device, id);
            var ev := WriteEvent(|h.outbox| + 1, h.replica.rows[e := row], e, row, now);
            WritesDevice(cfg, ev) && LandsAs(cfg, r, ev, id, row)
  {
    var e := Entity(Device, id);
    var rows := h.replica.rows[e := row];
    var ev := WriteEvent(|h.outbox| + 1, rows, e, row, now);
    if row[SiteId].Text? {
      ClaimSeesItsSite(cfg, r.rows, rows, row, ev);
    }
    LandsUnchanged(cfg, r.rows, row, ev);
  }

  /** The claim of a device's event is its site's organization, under which the site is found. */
  lemma ClaimSeesItsSite(cfg: Config, rows: Rows, own: Rows, row: Columns, ev: Event)
    requires ValidConfig(cfg) && Consistent(cfg, rows)
    requires SiteId in row && row[SiteId].Text?
    requires var site := Entity(Site, row[SiteId].text); site in rows && site in own && own[site] == rows[site]
    requires ev.claim == OwningOrg(own, Device, row)
    ensures Found(cfg, rows, ClaimedOrg(ev), Entity(Site, row[SiteId].text))
    ensures Accepted(cfg, ev)
  {
  }

  lemma LandsUnchanged(cfg: Config, rows: Rows, row: Columns, ev: Event)
    requires ValidConfig(cfg) && RowTyped(cfg.schema[Device], ev.entityId, row) && ev.payload == row
    requires ev.entityKind == Some(Device) && (row[SiteId] == Null || row[SiteId].Text?)
    requires row[SiteId].Text? ==> Found(cfg, rows, ClaimedOrg(ev), Entity(Site, row[SiteId].text))
    ensures SiteResolves(cfg, rows, ev) && Landed(cfg, rows, ev) == row
  {
  }

  lemma LocalWriteFits(cfg: Config, r: Replica, h: Hub, id: Id, row: Columns, now: Time)
    requires ValidConfig(cfg) && Consistent(cfg, r.rows) && SameOthers(r.rows, h.replica.rows)
    requires Consistent(cfg, h.replica.rows)
    requires LegalWrite(cfg, r, h, id, row)
    requires var ev := WriteEvent(|h.outbox| + 1, h.replica.rows[Entity(Device, id) := row], Entity(Device, id),
                                  row, now);
             SiteResolves(cfg, r.rows, ev) ==> FullSnapshot(cfg, r.rows, ev)
    ensures Consistent(cfg, h.replica.rows[Entity(Device, id) := row])
  {
    var ev := WriteEvent(|h.outbox| + 1, h.replica.rows[Entity(Device, id) := row], Entity(Device, id), row, now);
    LocalWriteLandsAsIs(cfg, r, h, id, row, now);
    SameLanding(cfg, r.rows, h.replica.rows, ev);
    LandingFitsExactly(cfg, h.replica.rows, ev);
  }

  lemma LocalWriteKeepsHub(cfg: Config, r: Replica, batch: set<Event>, h: Hub, id: Id, row: Columns, now: Time)
    requires ValidConfig(cfg) && KeptBatch(cfg, r, batch) && HubState(cfg, r, batch, h.seen, h.replica)
    requires LegalWrite(cfg, r, h, id, row) && WriteStep(h, id, row, now).seen <= batch
    ensures HubState(cfg, r, batch, WriteStep(h, id, row, now).seen, WriteStep(h, id, row, now).replica)
  {
    var e := Entity(Device, id);
    var ev := WriteEvent(|h.outbox| + 1, h.replica.rows[e := row], e, row, now);
    LocalWriteLandsAsIs(cfg, r, h, id, row, now);
    assert ev in batch;
    LocalWriteFits(cfg, r, h, id, row, now);
    WriteKeepsHub(cfg, r, batch, h.seen, h.replica, WriteStep(h, id, row, now).replica, ev);
  }

  lemma LocalDeleteKeepsHub(cfg: Config, r: Replica, batch: set<Event>, h: Hub, id: Id, now: Time)
    requires ValidConfig(cfg) && HubState(cfg, r, batch, h.seen, h.replica)
    requires id != "" && Entity(Device, id) in h.replica.rows && DeleteStep(h, id, now).seen <= batch
    ensures HubState(cfg, r, batch, DeleteStep(h, id, now).seen, DeleteStep(h, id, now).replica)
  {
    var ev := DeleteEvent(|h.outbox| + 1, Entity(Device, id), now);
    assert ev in batch;
    RemovalIsRefusedExactly(cfg, h.replica.rows, Entity(Device, id));
    RemovalKeepsHub(cfg, r, batch, h.seen, h.replica, DeleteStep(h, id, now).replica, ev);
  }

  // ---------- the whole network ----------

  ghost function AllEvents(net: Network): set<Event> {
    set h, ev | h in net && ev in net[h].outbox :: ev
  }

  ghost predicate DeletedBy(cfg: Config, h: Hub, id: Id) {
    DeletesIn(cfg, h.outbox, id)
  }

  /**
   Tombstones were there from the start or come from deletions in other hubs' outboxes; a hub deletes what
   it holds.
   */
  ghost predicate Origins(cfg: Config, r: Replica, net: Network, id: Id, h: Hub) {
    && (forall x | x in h.replica.tombstones ::
          x in r.tombstones || exists p :: p in net && p != id && DeletedBy(cfg, net[p], x))
    && (forall x | DeletedBy(cfg, h, x) :: x !in r.tombstones)
  }

  /** The part of the network state that one hub's replica and history carry. */
  ghost predicate HubKnows(cfg: Config, net: Network, id: Id, h: Hub)
    requires ValidConfig(cfg)
  {
    && EventSet(h.outbox) <= h.seen
    && (forall p | p in net :: CursorOf(h, p) <= |net[p].outbox| && EventSet(net[p].outbox[..CursorOf(h, p)]) <= h.seen)
    && h.seen <= AllEvents(net)
    && (forall p, ev | p in net && p != id && ev in net[p].outbox[..CursorOf(h, p)] && DeletesDevice(cfg, ev) ::
          ev.entityId in h.replica.tombstones)
  }

  ghost predicate HubOk(cfg: Config, r: Replica, batch: set<Event>, net: Network, id: Id, h: Hub)
    requires ValidConfig(cfg)
  {
    h.cfg == cfg && HubState(cfg, r, batch, h.seen, h.replica) && HubKnows(cfg, net, id, h)
    && Origins(cfg, r, net, id, h)
  }

  ghost predicate NetworkState(cfg: Config, r: Replica, batch: set<Event>, net: Network)
    requires ValidConfig(cfg)
  {
    && ValidNetwork(net)
    && forall h | h in net ::
         HubOk(cfg, r, batch, net, h, net[h])
  }

  ghost predicate Legal(cfg: Config, r: Replica, net: Network, a: Action)
    requires ValidConfig(cfg)
  {
    && Enabled(net, a)
    && (a.PullFrom? ==>
          SuppliedAll(cfg, r, net[a.hub].seen, TakenBy(net[a.hub], a.peer, net[a.peer].outbox, a)))
    && (a.WriteDevice? ==> LegalWrite(cfg, r, net[a.hub], a.id, a.row))
    && (a.DeleteDevice? ==> a.id != "" && Entity(Device, a.id) in net[a.hub].replica.rows)
  }

  ghost predicate LegalRun(cfg: Config, r: Replica, net: Network, actions: seq<Action>)
    requires ValidConfig(cfg)
    decreases |actions|
  {
    actions != [] ==>
      && ValidNetwork(net)
      && Legal(cfg, r, net, actions[0])
      && LegalRun(cfg, r, Next(net, actions[0]), actions[1..])
  }

  ghost function EndOf(cfg: Config, r: Replica, net: Network, actions: seq<Action>): Network
    requires ValidConfig(cfg) && LegalRun(cfg, r, net, actions)
    decreases |actions|
  {
    if actions == [] then net else EndOf(cfg, r, Next(net, actions[0]), actions[1..])
  }

  lemma StepGrowsEvents(net: Network, a: Action)
    requires ValidNetwork(net) && Enabled(net, a)
    ensures AllEvents(net) <= AllEvents(Next(net, a))
  {
    var after := Next(net, a);
    forall h, ev | h in net && ev in net[h].outbox ensures h in after && ev in after[h].outbox {
      assert net[h].outbox <= after[h].outbox;
    }
  }

  /** Outboxes only grow along a run. */
  lemma {:induction false} EventsOnlyGrow(cfg: Config, r: Replica, net: Network, actions: seq<Action>)
    requires ValidConfig(cfg) && LegalRun(cfg, r, net, actions)
    ensures AllEvents(net) <= AllEvents(EndOf(cfg, r, net, actions))
    decreases |actions|
  {
    if actions != [] {
      StepGrowsEvents(net, actions[0]);
      EventsOnlyGrow(cfg, r, Next(net, actions[0]), actions[1..]);
    }
  }

  // ---------- every step keeps the network state ----------

  /** Prefixes already taken stay what they were when an outbox grows. */
  lemma KnowsThroughGrowth(cfg: Config, net: Network, after: Network, id: Id, h: Hub)
    requires ValidConfig(cfg) && HubKnows(cfg, net, id, h)
    requires after.Keys == net.Keys && forall p | p in net :: net[p].outbox <= after[p].outbox
    ensures HubKnows(cfg, after, id, h)
  {
    forall p | p in net
      ensures CursorOf(h, p) <= |after[p].outbox|
              && after[p].outbox[..CursorOf(h, p)] == net[p].outbox[..CursorOf(h, p)]
    {}
    forall ev | ev in h.seen ensures ev in AllEvents(after) {
      var p :| p in net && ev in net[p].outbox;
      assert ev in after[p].outbox;
    }
  }

  lemma OriginsThroughGrowth(cfg: Config, r: Replica, net: Network, after: Network, id: Id, h: Hub)
    requires Origins(cfg, r, net, id, h)
    requires after.Keys == net.Keys && forall p | p in net :: net[p].outbox <= after[p].outbox
    ensures Origins(cfg, r, after, id, h)
  {
    forall x | x in h.replica.tombstones && x !in r.tombstones
      ensures exists p :: p in after && p != id && DeletedBy(cfg, after[p], x)
    {
      var p :| p in net && p != id && DeletedBy(cfg, net[p], x);
      assert DeletedBy(cfg, after[p], x);
    }
  }

  /** The events a pull applies, a stretch of the peer's log from the cursor on; none past the next cursor. */
  lemma TakenEvents(net: Network, a: Action) returns (taken: seq<Event>)
    requires ValidNetwork(net) && Enabled(net, a) && a.PullFrom?
    ensures taken == TakenBy(net[a.hub], a.peer, net[a.peer].outbox, a)
    ensures var h, outbox := net[a.hub], net[a.peer].outbox;
            var from := CursorOf(h, a.peer);
            var h' := PullStep(h, a.peer, outbox, a);
            && from + |taken| <= |outbox| && taken == outbox[from..from + |taken|]
            && h' == Receive(h, taken, a.now, a.newId).(cursors := h'.cursors)
            && from <= CursorOf(h', a.peer) <= from + |taken|
            && (forall p | p != a.peer :: CursorOf(h', p) == CursorOf(h, p))
  {
    var h, outbox := net[a.hub], net[a.peer].outbox;
    FetchIsNextPage(outbox, CursorOf(h, a.peer), a.limit);
    PullMovesCursor(h, a.peer, outbox, a);
    var page := Fetch(outbox, CursorOf(h, a.peer), a.limit);
    taken := if a.applied < |page| then page[..a.applied] else page;
  }

  lemma TakenAreKnown(net: Network, peer: Id, taken: seq<Event>, from: nat)
    requires peer in net && from + |taken| <= |net[peer].outbox| && taken == net[peer].outbox[from..from + |taken|]
    ensures EventSet(taken) <= AllEvents(net)
  {
    forall ev | ev in taken ensures ev in AllEvents(net) {
      assert ev in net[peer].outbox;
    }
  }

  lemma PullKeepsHub(cfg: Config, r: Replica, batch: set<Event>, net: Network, a: Action)
    requires ValidConfig(cfg) && KeptBatch(cfg, r, batch) && ValidNetwork(net)
    requires Legal(cfg, r, net, a) && a.PullFrom? && AllEvents(net) <= batch
    requires HubOk(cfg, r, batch, net, a.hub, net[a.hub])
    ensures var h' := PullStep(net[a.hub], a.peer, net[a.peer].outbox, a);
            HubOk(cfg, r, batch, net, a.hub, h')
  {
    var h := net[a.hub];
    var taken := TakenEvents(net, a);
    TakenAreKnown(net, a.peer, taken, CursorOf(h, a.peer));
    ReceivedKeepsHub(cfg, r, batch, h, taken, a.now, a.newId, Receive(h, taken, a.now, a.newId));
    PulledHubIsOk(cfg, r, batch, net, a, PullStep(h, a.peer, net[a.peer].outbox, a), taken);
  }

  lemma PulledHubIsOk(cfg: Config, r: Replica, batch: set<Event>, net: Network, a: Action, h': Hub, taken: seq<Event>)
    requires ValidConfig(cfg) && Enabled(net, a) && a.PullFrom?
    requires HubKnows(cfg, net, a.hub, net[a.hub]) && Origins(cfg, r, net, a.hub, net[a.hub])
    requires h'.cfg == cfg && h'.outbox == net[a.hub].outbox && HubState(cfg, r, batch, h'.seen, h'.replica)
    requires h'.seen == net[a.hub].seen + EventSet(taken) && EventSet(taken) <= AllEvents(net)
    requires forall p | p != a.peer :: CursorOf(h', p) == CursorOf(net[a.hub], p)
    requires var from, to := CursorOf(net[a.hub], a.peer), CursorOf(h', a.peer);
             from <= to <= from + |taken| <= |net[a.peer].outbox| && taken == net[a.peer].outbox[from..from + |taken|]
    requires net[a.hub].replica.tombstones.Keys <= h'.replica.tombstones.Keys
    requires forall ev | ev in taken && DeletesDevice(cfg, ev) :: ev.entityId in h'.replica.tombstones
    requires forall id | id in h'.replica.tombstones :: id in net[a.hub].replica.tombstones || DeletesIn(cfg, taken, id)
    ensures HubOk(cfg, r, batch, net, a.hub, h')
  {
    PullKnows(cfg, net, a, h', CursorOf(net[a.hub], a.peer), CursorOf(h', a.peer), taken);
    PullOrigins(cfg, r, net, a, h', taken);
  }

  lemma PullOrigins(cfg: Config, r: Replica, net: Network, a: Action, h': Hub, taken: seq<Event>)
    requires Enabled(net, a) && a.PullFrom? && Origins(cfg, r, net, a.hub, net[a.hub])
    requires h'.outbox == net[a.hub].outbox && (forall ev | ev in taken :: ev in net[a.peer].outbox)
    requires forall x | x in h'.replica.tombstones :: x in net[a.hub].replica.tombstones || DeletesIn(cfg, taken, x)
    ensures Origins(cfg, r, net, a.hub, h')
  {
    forall x | x in h'.replica.tombstones && x !in net[a.hub].replica.tombstones
      ensures DeletedBy(cfg, net[a.peer], x)
    {
      var ev :| ev in taken && DeletesDevice(cfg, ev) && ev.entityId == x;
    }
  }

  /** What receiving keeps, of the hub it ends in. */
  lemma ReceivedKeepsHub(cfg: Config, r: Replica, batch: set<Event>, h: Hub, events: seq<Event>, now: Time,
                         newId: Id, after: Hub)
    requires ValidConfig(cfg) && KeptBatch(cfg, r, batch) && h.cfg == cfg && HubState(cfg, r, batch, h.seen, h.replica)
    requires EventSet(events) <= batch && SuppliedAll(cfg, r, h.seen, events) && after == Receive(h, events, now, newId)
    ensures HubState(cfg, r, batch, after.seen, after.replica)
    ensures after.cfg == cfg && after.outbox == h.outbox && after.seen == h.seen + EventSet(events)
    ensures h.replica.tombstones.Keys <= after.replica.tombstones.Keys
    ensures forall ev | ev in events && DeletesDevice(cfg, ev) :: ev.entityId in after.replica.tombstones
    ensures forall id | id in after.replica.tombstones :: id in h.replica.tombstones || DeletesIn(cfg, events, id)
  {
    ReceiveKeepsHub(cfg, r, batch, h, events, now, newId);
  }

  lemma PullKnows(cfg: Config, net: Network, a: Action, h': Hub, from: nat, to: nat, taken: seq<Event>)
    requires ValidConfig(cfg) && Enabled(net, a) && a.PullFrom? && HubKnows(cfg, net, a.hub, net[a.hub])
    requires from == CursorOf(net[a.hub], a.peer) && to == CursorOf(h', a.peer)
    requires forall p | p != a.peer :: CursorOf(h', p) == CursorOf(net[a.hub], p)
    requires h'.outbox == net[a.hub].outbox
    requires h'.seen == net[a.hub].seen + EventSet(taken) && EventSet(taken) <= AllEvents(net)
    requires from <= to <= from + |taken| <= |net[a.peer].outbox| && taken == net[a.peer].outbox[from..from + |taken|]
    requires net[a.hub].replica.tombstones.Keys <= h'.replica.tombstones.Keys
    requires forall ev | ev in taken && DeletesDevice(cfg, ev) :: ev.entityId in h'.replica.tombstones
    ensures HubKnows(cfg, net, a.hub, h')
  {
    var outbox := net[a.peer].outbox;
    forall ev | ev in outbox[..to] ensures ev in outbox[..from] || ev in taken {
      var i :| 0 <= i < to && outbox[i] == ev;
      if i < from {
        assert ev == outbox[..from][i];
      } else {
        assert ev == taken[i - from];
      }
    }
    forall p | p in net ensures EventSet(net[p].outbox[..CursorOf(h', p)]) <= h'.seen {
      assert EventSet(net[p].outbox[..CursorOf(net[a.hub], p)]) <= net[a.hub].seen;
    }
  }

  /** The other hubs are as they were when one hub is replaced and its outbox has only grown. */
  lemma OthersStayOk(cfg: Config, r: Replica, batch: set<Event>, net: Network, hub: Id, h': Hub, h: Id)
    requires ValidConfig(cfg) && hub in net && net[hub].outbox <= h'.outbox && h in net && h != hub
    requires HubOk(cfg, r, batch, net, h, net[h])
    ensures HubOk(cfg, r, batch, net[hub := h'], h, net[h])
  {
    KnowsThroughGrowth(cfg, net, net[hub := h'], h, net[h]);
    OriginsThroughGrowth(cfg, r, net, net[hub := h'], h, net[h]);
  }

  /** Replacing one hub by one that knows what it must, in outboxes that only grew, keeps the state. */
  lemma ReplaceHub(cfg: Config, r: Replica, batch: set<Event>, net: Network, hub: Id, h': Hub)
    requires ValidConfig(cfg) && NetworkState(cfg, r, batch, net) && hub in net
    requires net[hub].outbox <= h'.outbox && Numbered(h'.outbox)
    requires HubOk(cfg, r, batch, net[hub := h'], hub, h')
    ensures NetworkState(cfg, r, batch, net[hub := h'])
  {
    var after := net[hub := h'];
    forall h | h in after ensures HubOk(cfg, r, batch, after, h, after[h]) {
      if h != hub {
        OthersStayOk(cfg, r, batch, net, hub, h', h);
      }
    }
    assert forall h | h in after :: HubKnows(cfg, after, h, after[h]);
  }

  lemma PullStepKeepsNetwork(cfg: Config, r: Replica, batch: set<Event>, net: Network, a: Action)
    requires ValidConfig(cfg) && KeptBatch(cfg, r, batch) && NetworkState(cfg, r, batch, net)
    requires Legal(cfg, r, net, a) && a.PullFrom? && AllEvents(net) <= batch
    ensures NetworkState(cfg, r, batch, Next(net, a))
  {
    PullKeepsHub(cfg, r, batch, net, a);
    var h' := PullStep(net[a.hub], a.peer, net[a.peer].outbox, a);
    KnowsThroughGrowth(cfg, net, net[a.hub := h'], a.hub, h');
    OriginsThroughGrowth(cfg, r, net, net[a.hub := h'], a.hub, h');
    assert HubOk(cfg, r, batch, net[a.hub := h'], a.hub, h');
    ReplaceHub(cfg, r, batch, net, a.hub, h');
  }

  /** A local edit appends its own event, which the hub has thereby seen. */
  lemma EditKnows(cfg: Config, net: Network, hub: Id, h': Hub, ev: Event)
    requires ValidConfig(cfg) && hub in net && HubKnows(cfg, net, hub, net[hub])
    requires h'.cursors == net[hub].cursors && h'.replica.tombstones == net[hub].replica.tombstones
    requires h'.outbox == net[hub].outbox + [ev] && h'.seen == net[hub].seen + {ev}
    ensures HubKnows(cfg, net[hub := h'], hub, h')
  {
    var after := net[hub := h'];
    KnowsThroughGrowth(cfg, net, after, hub, net[hub]);
    assert ev in after[hub].outbox;
    assert forall p :: CursorOf(h', p) == CursorOf(net[hub], p);
  }

  /** A local edit adds no tombstone, and a deletion is of a device that is here. */
  lemma EditOrigins(cfg: Config, r: Replica, net: Network, hub: Id, h': Hub, ev: Event)
    requires ValidConfig(cfg) && hub in net && Origins(cfg, r, net, hub, net[hub])
    requires h'.replica.tombstones == net[hub].replica.tombstones && h'.outbox == net[hub].outbox + [ev]
    requires DeletesDevice(cfg, ev) ==> ev.entityId !in r.tombstones
    ensures Origins(cfg, r, net[hub := h'], hub, h')
  {
    var after := net[hub := h'];
    OriginsThroughGrowth(cfg, r, net, after, hub, net[hub]);
    forall x | DeletedBy(cfg, h', x) ensures x !in r.tombstones {
      assert DeletedBy(cfg, net[hub], x) || (DeletesDevice(cfg, ev) && ev.entityId == x);
    }
  }

  lemma WrittenHubIsOk(cfg: Config, r: Replica, batch: set<Event>, net: Network, a: Action, h': Hub)
    requires ValidConfig(cfg) && KeptBatch(cfg, r, batch) && a.hub in net
    requires HubOk(cfg, r, batch, net, a.hub, net[a.hub])
    requires a.WriteDevice? && LegalWrite(cfg, r, net[a.hub], a.id, a.row)
    requires h' == WriteStep(net[a.hub], a.id, a.row, a.now) && h'.seen <= batch
    ensures HubOk(cfg, r, batch, net[a.hub := h'], a.hub, h')
  {
    EditKnows(cfg, net, a.hub, h', h'.outbox[|net[a.hub].outbox|]);
    EditOrigins(cfg, r, net, a.hub, h', h'.outbox[|net[a.hub].outbox|]);
    LocalWriteKeepsHub(cfg, r, batch, net[a.hub], a.id, a.row, a.now);
  }

  lemma DeletedHubIsOk(cfg: Config, r: Replica, batch: set<Event>, net: Network, a: Action, h': Hub)
    requires ValidConfig(cfg) && KeptBatch(cfg, r, batch) && a.hub in net
    requires HubOk(cfg, r, batch, net, a.hub, net[a.hub])
    requires a.DeleteDevice? && a.id != "" && Entity(Device, a.id) in net[a.hub].replica.rows
    requires h' == DeleteStep(net[a.hub], a.id, a.now) && h'.seen <= batch
    ensures HubOk(cfg, r, batch, net[a.hub := h'], a.hub, h')
  {
    EditKnows(cfg, net, a.hub, h', h'.outbox[|net[a.hub].outbox|]);
    EditOrigins(cfg, r, net, a.hub, h', h'.outbox[|net[a.hub].outbox|]);
    LocalDeleteKeepsHub(cfg, r, batch, net[a.hub], a.id, a.now);
  }

  lemma EditStepKeepsNetwork(cfg: Config, r: Replica, batch: set<Event>, net: Network, a: Action)
    requires ValidConfig(cfg) && KeptBatch(cfg, r, batch) && NetworkState(cfg, r, batch, net)
    requires Legal(cfg, r, net, a) && !a.PullFrom? && AllEvents(Next(net, a)) <= batch
    ensures NetworkState(cfg, r, batch, Next(net, a))
  {
    var h' := Next(net, a)[a.hub];
    EditIsSeen(net, a, h', batch);
    if a.WriteDevice? {
      WrittenHubIsOk(cfg, r, batch, net, a, h');
    } else {
      DeletedHubIsOk(cfg, r, batch, net, a, h');
    }
    ReplaceHub(cfg, r, batch, net, a.hub, h');
  }

  lemma EditIsSeen(net: Network, a: Action, h': Hub, batch: set<Event>)
    requires ValidNetwork(net) && Enabled(net, a) && !a.PullFrom? && h' == Next(net, a)[a.hub]
    requires AllEvents(Next(net, a)) <= batch && net[a.hub].seen <= AllEvents(net)
    ensures h'.seen <= batch && net[a.hub].outbox <= h'.outbox && Numbered(h'.outbox)
  {
    StepGrowsEvents(net, a);
    var ev := h'.outbox[|net[a.hub].outbox|];
    assert h'.seen == net[a.hub].seen + {ev};
    assert ev in Next(net, a)[a.hub].outbox;
  }

  lemma StepKeepsNetwork(cfg: Config, r: Replica, batch: set<Event>, net: Network, a: Action, rest: seq<Action>)
    requires ValidConfig(cfg) && KeptBatch(cfg, r, batch) && NetworkState(cfg, r, batch, net) && Legal(cfg, r, net, a)
    requires LegalRun(cfg, r, Next(net, a), rest) && AllEvents(EndOf(cfg, r, Next(net, a), rest)) <= batch
    ensures NetworkState(cfg, r, batch, Next(net, a))
  {
    StepGrowsEvents(net, a);
    EventsOnlyGrow(cfg, r, Next(net, a), rest);
    if a.PullFrom? {
      PullStepKeepsNetwork(cfg, r, batch, net, a);
    } else {
      EditStepKeepsNetwork(cfg, r, batch, net, a);
    }
  }

  lemma {:induction false} RunKeepsNetwork(cfg: Config, r: Replica, batch: set<Event>, net: Network,
                                           actions: seq<Action>)
    requires ValidConfig(cfg) && KeptBatch(cfg, r, batch) && NetworkState(cfg, r, batch, net)
    requires LegalRun(cfg, r, net, actions) && AllEvents(EndOf(cfg, r, net, actions)) <= batch
    ensures NetworkState(cfg, r, batch, EndOf(cfg, r, net, actions))
    decreases |actions|
  {
    if actions != [] {
      StepKeepsNetwork(cfg, r, batch, net, actions[0], actions[1..]);
      RunKeepsNetwork(cfg, r, batch, Next(net, actions[0]), actions[1..]);
    }
  }

  // ---------- the theorems ----------

  /** Hubs that start with the same rows, nothing emitted and nothing taken. */
  ghost predicate FreshNetwork(cfg: Config, r: Replica, net: Network) {
    forall h | h in net :: net[h] == Hub(cfg, r, [], map[], {})
  }

  ghost predicate CaughtUp(net: Network) {
    forall h, p | h in net && p in net && h != p :: CursorOf(net[h], p) == |net[p].outbox|
  }

  lemma FreshIsNetworkState(cfg: Config, r: Replica, batch: set<Event>, net: Network)
    requires ValidConfig(cfg) && KeptBatch(cfg, r, batch) && FreshNetwork(cfg, r, net)
    ensures NetworkState(cfg, r, batch, net)
  {
    FreshHubState(cfg, r, batch);
  }

  lemma CaughtUpHasSeenAll(cfg: Config, net: Network, h: Id)
    requires ValidConfig(cfg) && h in net && HubKnows(cfg, net, h, net[h]) && CaughtUp(net)
    ensures net[h].seen == AllEvents(net)
  {
  }

  ghost predicate SameDevice(one: Replica, other: Replica, id: Id) {
    var e := Entity(Device, id);
    && (e in one.rows <==> e in other.rows) && (e in one.rows ==> one.rows[e] == other.rows[e])
    && (id in one.tombstones <==> id in other.tombstones)
  }

  /** The hub deleted the device, and no other hub did. */
  ghost predicate SoleDeleter(cfg: Config, net: Network, h: Id, id: Id)
    requires h in net
  {
    DeletedBy(cfg, net[h], id) && forall p | p in net && p != h :: !DeletedBy(cfg, net[p], id)
  }

  /** A caught-up hub has the tombstone of whatever another hub deleted, and of nothing else. */
  lemma CaughtUpTombstones(cfg: Config, r: Replica, batch: set<Event>, net: Network, h: Id, id: Id)
    requires ValidConfig(cfg) && h in net && HubOk(cfg, r, batch, net, h, net[h]) && CaughtUp(net)
    ensures id in net[h].replica.tombstones
            <==> id in r.tombstones || exists p :: p in net && p != h && DeletedBy(cfg, net[p], id)
  {
    forall p | p in net && p != h && DeletedBy(cfg, net[p], id) ensures id in net[h].replica.tombstones {
      assert net[p].outbox[..CursorOf(net[h], p)] == net[p].outbox;
      var ev :| ev in net[p].outbox && DeletesDevice(cfg, ev) && ev.entityId == id;
    }
  }

  lemma DeletedBySomeone(cfg: Config, net: Network, id: Id)
    ensures DeletedIn(cfg, AllEvents(net), id) <==> exists p :: p in net && DeletedBy(cfg, net[p], id)
  {
    if ev :| ev in AllEvents(net) && DeletesDevice(cfg, ev) && ev.entityId == id {
      var p :| p in net && ev in net[p].outbox;
      assert DeletedBy(cfg, net[p], id);
    }
  }

  lemma CaughtUpStatesAgree(cfg: Config, r: Replica, net: Network, h: Id, k: Id, id: Id)
    requires ValidConfig(cfg) && NetworkState(cfg, r, AllEvents(net), net) && DistinctWrites(cfg, r, AllEvents(net))
    requires CaughtUp(net) && h in net && k in net && h != k
    ensures SameDevice(net[h].replica, net[k].replica, id)
            <==> !SoleDeleter(cfg, net, h, id) && !SoleDeleter(cfg, net, k, id)
  {
    DeletedBySomeone(cfg, net, id);
    if DeletedIn(cfg, AllEvents(net), id) {
      DeletedAgreeExactly(cfg, r, net, h, k, id);
    } else {
      UndeletedAgree(cfg, r, net, h, k, id);
    }
  }

  lemma DeletedAgreeExactly(cfg: Config, r: Replica, net: Network, h: Id, k: Id, id: Id)
    requires ValidConfig(cfg) && NetworkState(cfg, r, AllEvents(net), net)
    requires CaughtUp(net) && h in net && k in net && h != k && DeletedIn(cfg, AllEvents(net), id)
    ensures SameDevice(net[h].replica, net[k].replica, id)
            <==> !SoleDeleter(cfg, net, h, id) && !SoleDeleter(cfg, net, k, id)
  {
    TombstonedExactly(cfg, r, net, h, id);
    TombstonedExactly(cfg, r, net, k, id);
  }

  /** A deleted device is tombstoned, and gone, on every hub but one that alone deleted it. */
  lemma TombstonedExactly(cfg: Config, r: Replica, net: Network, h: Id, id: Id)
    requires ValidConfig(cfg) && NetworkState(cfg, r, AllEvents(net), net)
    requires CaughtUp(net) && h in net && DeletedIn(cfg, AllEvents(net), id)
    ensures id in net[h].replica.tombstones <==> !SoleDeleter(cfg, net, h, id)
    ensures id in net[h].replica.tombstones ==> Entity(Device, id) !in net[h].replica.rows
  {
    assert HubOk(cfg, r, AllEvents(net), net, h, net[h]);
    DeletedBySomeone(cfg, net, id);
    CaughtUpTombstones(cfg, r, AllEvents(net), net, h, id);
  }

  lemma UndeletedAgree(cfg: Config, r: Replica, net: Network, h: Id, k: Id, id: Id)
    requires ValidConfig(cfg) && NetworkState(cfg, r, AllEvents(net), net) && DistinctWrites(cfg, r, AllEvents(net))
    requires CaughtUp(net) && h in net && k in net && !DeletedIn(cfg, AllEvents(net), id)
    ensures SameDevice(net[h].replica, net[k].replica, id)
  {
    assert HubOk(cfg, r, AllEvents(net), net, h, net[h]) && HubOk(cfg, r, AllEvents(net), net, k, net[k]);
    CaughtUpHasSeenAll(cfg, net, h);
    CaughtUpHasSeenAll(cfg, net, k);
    SettledIsUnique(cfg, r, AllEvents(net), id, net[h].replica, net[k].replica);
  }

  /**
   Agreement: after any run of local edits, pulls and crashes that ends with every cursor at its
   peer's last event, two hubs agree on a device exactly unless one of them alone deleted it; and
   a device is tombstoned, and gone, on every hub that another hub's deletion of it has reached.
   */
  lemma CaughtUpHubsAgree(cfg: Config, r: Replica, net: Network, actions: seq<Action>, h: Id, k: Id, id: Id)
    requires ValidConfig(cfg) && FreshNetwork(cfg, r, net) && LegalRun(cfg, r, net, actions)
    requires var end := EndOf(cfg, r, net, actions);
             && KeptBatch(cfg, r, AllEvents(end)) && DistinctWrites(cfg, r, AllEvents(end))
             && CaughtUp(end) && h in end && k in end && h != k
    ensures var end := EndOf(cfg, r, net, actions);
            && (SameDevice(end[h].replica, end[k].replica, id)
                <==> !SoleDeleter(cfg, end, h, id) && !SoleDeleter(cfg, end, k, id))
            && (DeletedBy(cfg, end[k], id)
                ==> id in end[h].replica.tombstones && Entity(Device, id) !in end[h].replica.rows)
  {
    var end := EndOf(cfg, r, net, actions);
    FreshIsNetworkState(cfg, r, AllEvents(end), net);
    RunKeepsNetwork(cfg, r, AllEvents(end), net, actions);
    CaughtUpStatesAgree(cfg, r, end, h, k, id);
    assert HubOk(cfg, r, AllEvents(end), end, h, end[h]);
    CaughtUpTombstones(cfg, r, AllEvents(end), end, h, id);
  }

  // ---------- what the deleter holds ----------

  /**
   Whether a hub holds the device after a run: a local write brings it, a local deletion takes
   it, and after that a write received from a peer brings it back.
   */
  ghost predicate Holds(cfg: Config, r: Replica, net: Network, actions: seq<Action>, h: Id, id: Id, here: bool)
    requires ValidConfig(cfg) && h in net && LegalRun(cfg, r, net, actions)
    decreases |actions|
  {
    if actions == [] then here
    else Holds(cfg, r, Next(net, actions[0]), actions[1..], h, id, HeldNext(cfg, net, actions[0], h, id, here))
  }

  ghost predicate HeldNext(cfg: Config, net: Network, a: Action, h: Id, id: Id, here: bool)
    requires ValidNetwork(net) && Enabled(net, a) && h in net
  {
    if a.hub != h then here
    else
      match a
      case WriteDevice(_, _, written, _) => here || written == id
      case DeleteDevice(_, deleted, _) => here && deleted != id
      case PullFrom(_, peer, _, _, _, _) => here || WritesIn(cfg, TakenBy(net[h], peer, net[peer].outbox, a), id)
  }

  lemma ApplyBrings(cfg: Config, r: Replica, batch: set<Event>, seen: set<Event>, cur: Replica, ev: Event,
                    now: Time, newId: Id, id: Id)
    requires ValidConfig(cfg) && KeptBatch(cfg, r, batch) && HubState(cfg, r, batch, seen, cur) && ev in batch
    requires Supplied(cfg, r, seen, ev)
    requires id !in cur.tombstones && !(DeletesDevice(cfg, ev) && ev.entityId == id)
    ensures var after, e := Apply(cfg, cur, ev, now, newId).replica, Entity(Device, id);
            && HubState(cfg, r, batch, seen + {ev}, after) && id !in after.tombstones
            && (e in after.rows <==> e in cur.rows || (WritesDevice(cfg, ev) && ev.entityId == id))
  {
    ApplyKeepsHub(cfg, r, batch, seen, cur, ev, now, newId);
  }

  /** Receiving events none of which deletes the device brings it exactly if one of them writes it. */
  lemma {:induction false} ReceiveBrings(cfg: Config, r: Replica, batch: set<Event>, h: Hub, events: seq<Event>,
                                         now: Time, newId: Id, id: Id)
    requires ValidConfig(cfg) && KeptBatch(cfg, r, batch) && h.cfg == cfg
    requires HubState(cfg, r, batch, h.seen, h.replica) && EventSet(events) <= batch
    requires SuppliedAll(cfg, r, h.seen, events)
    requires id !in h.replica.tombstones && !DeletesIn(cfg, events, id)
    ensures var e := Entity(Device, id);
            e in Receive(h, events, now, newId).replica.rows <==> e in h.replica.rows || WritesIn(cfg, events, id)
    decreases |events|
  {
    if events != [] {
      var ev := events[0];
      FirstAndRest(events);
      SaidByFirst(cfg, events, id);
      ApplyBrings(cfg, r, batch, h.seen, h.replica, ev, now, newId, id);
      var one := h.(replica := Apply(h.cfg, h.replica, ev, now, newId).replica, seen := h.seen + {ev});
      ReceiveBrings(cfg, r, batch, one, events[1..], now, newId, id);
    }
  }

  lemma FirstAndRest(events: seq<Event>)
    requires events != []
    ensures events[0] in EventSet(events) && EventSet(events) == {events[0]} + EventSet(events[1..])
  {
  }

  lemma PullHolds(cfg: Config, r: Replica, batch: set<Event>, net: Network, a: Action, id: Id)
    requires ValidConfig(cfg) && KeptBatch(cfg, r, batch) && ValidNetwork(net) && AllEvents(net) <= batch
    requires Legal(cfg, r, net, a) && a.PullFrom? && HubOk(cfg, r, batch, net, a.hub, net[a.hub])
    requires id !in net[a.hub].replica.tombstones && !DeletedBy(cfg, net[a.peer], id)
    ensures var e, h, outbox := Entity(Device, id), net[a.hub], net[a.peer].outbox;
            e in PullStep(h, a.peer, outbox, a).replica.rows
            <==> e in h.replica.rows || WritesIn(cfg, TakenBy(h, a.peer, outbox, a), id)
  {
    var taken := TakenEvents(net, a);
    TakenAreKnown(net, a.peer, taken, CursorOf(net[a.hub], a.peer));
    assert forall ev | ev in taken :: ev in net[a.peer].outbox;
    ReceiveBrings(cfg, r, batch, net[a.hub], taken, a.now, a.newId, id);
  }

  lemma StepHolds(cfg: Config, r: Replica, batch: set<Event>, net: Network, a: Action, h: Id, id: Id)
    requires ValidConfig(cfg) && KeptBatch(cfg, r, batch) && ValidNetwork(net) && AllEvents(net) <= batch
    requires Legal(cfg, r, net, a) && h in net && HubOk(cfg, r, batch, net, h, net[h]) && id !in r.tombstones
    requires forall p | p in net && p != h :: !DeletedBy(cfg, net[p], id)
    ensures var e := Entity(Device, id);
            e in Next(net, a)[h].replica.rows <==> HeldNext(cfg, net, a, h, id, e in net[h].replica.rows)
  {
    if a.hub == h && a.PullFrom? {
      PullHolds(cfg, r, batch, net, a, id);
    }
  }

  lemma StepGrowsOutboxes(net: Network, a: Action)
    requires ValidNetwork(net) && Enabled(net, a)
    ensures Next(net, a).Keys == net.Keys && forall p | p in net :: net[p].outbox <= Next(net, a)[p].outbox
  {
  }

  lemma {:induction false} OutboxesOnlyGrow(cfg: Config, r: Replica, net: Network, actions: seq<Action>)
    requires ValidConfig(cfg) && LegalRun(cfg, r, net, actions)
    ensures EndOf(cfg, r, net, actions).Keys == net.Keys
    ensures forall p | p in net :: net[p].outbox <= EndOf(cfg, r, net, actions)[p].outbox
    decreases |actions|
  {
    if actions != [] {
      StepGrowsOutboxes(net, actions[0]);
      OutboxesOnlyGrow(cfg, r, Next(net, actions[0]), actions[1..]);
    }
  }

  /** A device that no hub but this one deletes in the end is deleted by none of the others on the way. */
  lemma NotDeletedYet(cfg: Config, r: Replica, net: Network, actions: seq<Action>, p: Id, id: Id)
    requires ValidConfig(cfg) && LegalRun(cfg, r, net, actions) && p in net
    requires p in EndOf(cfg, r, net, actions) && !DeletedBy(cfg, EndOf(cfg, r, net, actions)[p], id)
    ensures !DeletedBy(cfg, net[p], id)
  {
    OutboxesOnlyGrow(cfg, r, net, actions);
    assert net[p].outbox <= EndOf(cfg, r, net, actions)[p].outbox;
  }

  lemma {:induction false} RunHolds(cfg: Config, r: Replica, batch: set<Event>, net: Network, actions: seq<Action>,
                                    h: Id, id: Id)
    requires ValidConfig(cfg) && KeptBatch(cfg, r, batch) && NetworkState(cfg, r, batch, net) && h in net
    requires id !in r.tombstones
    requires LegalRun(cfg, r, net, actions) && AllEvents(EndOf(cfg, r, net, actions)) <= batch
    requires forall p | p in net && p != h && p in EndOf(cfg, r, net, actions) ::
               !DeletedBy(cfg, EndOf(cfg, r, net, actions)[p], id)
    ensures h in EndOf(cfg, r, net, actions)
    ensures var e := Entity(Device, id);
            e in EndOf(cfg, r, net, actions)[h].replica.rows
            <==> Holds(cfg, r, net, actions, h, id, e in net[h].replica.rows)
    decreases |actions|
  {
    if actions != [] {
      var a := actions[0];
      OutboxesOnlyGrow(cfg, r, net, actions);
      EventsOnlyGrow(cfg, r, net, actions);
      forall p | p in net && p != h ensures !DeletedBy(cfg, net[p], id) {
        NotDeletedYet(cfg, r, net, actions, p, id);
      }
      assert HubOk(cfg, r, batch, net, h, net[h]);
      StepHolds(cfg, r, batch, net, a, h, id);
      StepKeepsNetwork(cfg, r, batch, net, a, actions[1..]);
      RunHolds(cfg, r, batch, Next(net, a), actions[1..], h, id);
    }
  }

  /**
   What a hub that alone deleted a device holds in the end: the row, exactly if the last it did or
   heard about the device was a write. Received after its deletion, such a write brings the row
   back, which all the others have tombstoned.
   */
  lemma SoleDeleterHolds(cfg: Config, r: Replica, net: Network, actions: seq<Action>, h: Id, id: Id)
    requires ValidConfig(cfg) && FreshNetwork(cfg, r, net) && LegalRun(cfg, r, net, actions) && h in net
    requires var end := EndOf(cfg, r, net, actions);
             KeptBatch(cfg, r, AllEvents(end)) && h in end && SoleDeleter(cfg, end, h, id)
    ensures var e := Entity(Device, id);
            e in EndOf(cfg, r, net, actions)[h].replica.rows <==> Holds(cfg, r, net, actions, h, id, e in r.rows)
  {
    var end := EndOf(cfg, r, net, actions);
    FreshIsNetworkState(cfg, r, AllEvents(end), net);
    RunKeepsNetwork(cfg, r, AllEvents(end), net, actions);
    assert HubOk(cfg, r, AllEvents(end), end, h, end[h]);
    RunHolds(cfg, r, AllEvents(end), net, actions, h, id);
  }

  /**
   Why the deleting hub is excepted: a local deletion leaves no tombstone, so when two hubs at
   the same state respectively delete and edit a device and then exchange their events, the
   deleter takes the edit as a creation and holds the row that its peer has tombstoned.
   */
  lemma DeleterTakesTheRowBack(cfg: Config, r: Replica, id: Id, row: Columns, deletedAt: Time, editedAt: Time,
                               now: Time, newId: Id)
    requires ValidConfig(cfg) && id != "" && Entity(Device, id) in r.rows && id !in r.tombstones
    requires var h := Hub(cfg, r, [], map[], {});
             var batch := DeleteStep(h, id, deletedAt).seen + WriteStep(h, id, row, editedAt).seen;
             LegalWrite(cfg, r, h, id, row) && KeptBatch(cfg, r, batch)
    ensures var h := Hub(cfg, r, [], map[], {});
            var deleter, editor := DeleteStep(h, id, deletedAt), WriteStep(h, id, row, editedAt);
            var a := Apply(cfg, deleter.replica, editor.outbox[0], now, newId).replica;
            var b := Apply(cfg, editor.replica, deleter.outbox[0], now, newId).replica;
            && Entity(Device, id) in a.rows && a.rows[Entity(Device, id)] == row && id !in a.tombstones
            && Entity(Device, id) !in b.rows && id in b.tombstones
  {
    var h := Hub(cfg, r, [], map[], {});
    var batch := DeleteStep(h, id, deletedAt).seen + WriteStep(h, id, row, editedAt).seen;
    FreshHubState(cfg, r, batch);
    EditComesBack(cfg, r, batch, h, id, row, deletedAt, editedAt, now, newId);
    DeletionReachesEditor(cfg, r, batch, h, id, row, editedAt, DeleteStep(h, id, deletedAt).outbox[0], now, newId);
  }

  lemma DeleterIsBare(cfg: Config, r: Replica, batch: set<Event>, h: Hub, id: Id, deletedAt: Time)
    requires ValidConfig(cfg) && h == Hub(cfg, r, [], map[], {}) && HubState(cfg, r, batch, {}, r)
    requires id != "" && Entity(Device, id) in r.rows && id !in r.tombstones
    requires DeleteStep(h, id, deletedAt).seen <= batch
    ensures var deleter := DeleteStep(h, id, deletedAt);
            && HubState(cfg, r, batch, deleter.seen, deleter.replica)
            && id !in deleter.replica.tombstones && Entity(Device, id) !in deleter.replica.rows
  {
    LocalDeleteKeepsHub(cfg, r, batch, h, id, deletedAt);
  }

  lemma EditComesBack(cfg: Config, r: Replica, batch: set<Event>, h: Hub, id: Id, row: Columns, deletedAt: Time,
                      editedAt: Time, now: Time, newId: Id)
    requires ValidConfig(cfg) && KeptBatch(cfg, r, batch) && h == Hub(cfg, r, [], map[], {})
    requires HubState(cfg, r, batch, {}, r)
    requires id != "" && Entity(Device, id) in r.rows && id !in r.tombstones && LegalWrite(cfg, r, h, id, row)
    requires DeleteStep(h, id, deletedAt).seen <= batch && WriteStep(h, id, row, editedAt).seen <= batch
    ensures var a := Apply(cfg, DeleteStep(h, id, deletedAt).replica, WriteStep(h, id, row, editedAt).outbox[0],
                           now, newId).replica;
            Entity(Device, id) in a.rows && a.rows[Entity(Device, id)] == row && id !in a.tombstones
  {
    LocalWriteLandsAsIs(cfg, r, h, id, row, editedAt);
    DeleterIsBare(cfg, r, batch, h, id, deletedAt);
    EditReachesDeleter(cfg, r, batch, DeleteStep(h, id, deletedAt), WriteStep(h, id, row, editedAt).outbox[0], row,
                       now, newId);
  }

  lemma DeletionReachesEditor(cfg: Config, r: Replica, batch: set<Event>, h: Hub, id: Id, row: Columns,
                              editedAt: Time, deletion: Event, now: Time, newId: Id)
    requires ValidConfig(cfg) && KeptBatch(cfg, r, batch) && HubState(cfg, r, batch, h.seen, h.replica)
    requires LegalWrite(cfg, r, h, id, row) && WriteStep(h, id, row, editedAt).seen <= batch
    requires deletion in batch && DeletesDevice(cfg, deletion) && deletion.entityId == id
    ensures var b := Apply(cfg, WriteStep(h, id, row, editedAt).replica, deletion, now, newId).replica;
            Entity(Device, id) !in b.rows && id in b.tombstones
  {
    var editor := WriteStep(h, id, row, editedAt);
    LocalWriteKeepsHub(cfg, r, batch, h, id, row, editedAt);
    ApplyDeleteKeepsHub(cfg, r, batch, editor.seen, editor.replica, deletion, now, newId);
  }

  lemma EditReachesDeleter(cfg: Config, r: Replica, batch: set<Event>, deleter: Hub, edit: Event, row: Columns,
                           now: Time, newId: Id)
    requires ValidConfig(cfg) && KeptBatch(cfg, r, batch) && HubState(cfg, r, batch, deleter.seen, deleter.replica)
    requires edit in batch && WritesDevice(cfg, edit) && LandsAs(cfg, r, edit, edit.entityId, row)
    requires edit.payload == row
    requires edit.entityId !in deleter.replica.tombstones && Entity(Device, edit.entityId) !in deleter.replica.rows
    requires PowerSource in row
    requires row[PowerSource] == Text(edit.entityId) || RefersTo(r.rows, row[PowerSource], Device)
    ensures var a := Apply(cfg, deleter.replica, edit, now, newId).replica;
            Entity(Device, edit.entityId) in a.rows && a.rows[Entity(Device, edit.entityId)] == row
            && a.tombstones == deleter.replica.tombstones
  {
    assert Supplied(cfg, r, deleter.seen, edit);
    SuppliedIsNotRefused(cfg, r, batch, deleter.seen, deleter.replica, edit, now, newId);
    WriteIsWrittenOver(cfg, r, deleter.replica, edit, now, newId);
  }

  lemma FreshHubState(cfg: Config, r: Replica, batch: set<Event>)
    requires ValidConfig(cfg) && KeptBatch(cfg, r, batch)
    ensures HubState(cfg, r, batch, {}, r)
  {
    StartIsReached(cfg, r, batch);
  }
}
