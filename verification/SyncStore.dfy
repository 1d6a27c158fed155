/** The hub's own tables: local edits emit outbox events, applied peer events do not. */
module SyncStore {
  import opened Common
  import opened SyncModel

  /** The organization an emitted event claims: a site's own, a device's or group's through its site. */
  function OwningOrg(rows: Rows, kind: Kind, row: Columns): Option<Id> {
    if kind == Site then
      if OrganizationId in row && row[OrganizationId].Text? then Some(row[OrganizationId].text) else None
    else if kind in {Device, Group} && SiteId in row && row[SiteId].Text? then
      var site := Entity(Site, row[SiteId].text);
      if site in rows && OrganizationId in rows[site] && rows[site][OrganizationId].Text?
      then Some(rows[site][OrganizationId].text) else None
    else
      None
  }

  /** The event a local insert or update of a row leaves in the outbox: its full column snapshot. */
  function WriteEvent(number: nat, rows: Rows, e: Entity, row: Columns, now: Time): Event {
    Event(number, Some(now), Some(e.kind), e.id, row, None, OwningOrg(rows, e.kind, row))
  }

  function DeleteEvent(number: nat, e: Entity, now: Time): Event {
    Event(number, Some(now), Some(e.kind), e.id, map[Attribute("deleted") := Null], Some(e.id), None)
  }

  class Store {
    const cfg: Config
    var rows: Rows
    var tombstones: map<Id, Tombstone>
    var outbox: seq<Event>
    var cursors: map<Id, nat>
    var suppressed: bool

    ghost predicate Valid()
      reads this
    {
      ValidConfig(cfg) && Consistent(cfg, rows)
    }

    function State(): Replica
      reads this
    {
      Replica(rows, tombstones)
    }

    constructor (cfg: Config, rows: Rows)
      requires ValidConfig(cfg) && Consistent(cfg, rows)
      ensures Valid() && State() == Replica(rows, map[]) && this.cfg == cfg
      ensures outbox == [] && cursors == map[] && !suppressed
    {
      this.cfg, this.rows := cfg, rows;
      tombstones, outbox, cursors, suppressed := map[], [], map[], false;
    }

    /** Insert or update one row; the mapper hook records the write unless emission is suppressed. */
    method Put(e: Entity, row: Columns, now: Time)
      modifies this`rows, this`outbox
      ensures rows == old(rows)[e := row]
      ensures outbox == if suppressed then old(outbox)
                        else old(outbox) + [WriteEvent(|old(outbox)| + 1, old(rows)[e := row], e, row, now)]
    {
      rows := rows[e := row];
      if !suppressed {
        outbox := outbox + [WriteEvent(|outbox| + 1, rows, e, row, now)];
      }
    }

    /** Delete one row, detaching what points at it; no tombstone is written for a local deletion. */
    method Drop(e: Entity, now: Time)
      modifies this`rows, this`outbox
      ensures rows == Removed(old(rows), e)
      ensures outbox == if suppressed then old(outbox) else old(outbox) + [DeleteEvent(|old(outbox)| + 1, e, now)]
    {
      rows := Removed(rows, e);
      if !suppressed {
        outbox := outbox + [DeleteEvent(|outbox| + 1, e, now)];
      }
    }

    method AddTombstone(id: Id, kind: Kind, number: nat, now: Time)
      modifies this`tombstones
      ensures tombstones == if id in old(tombstones) then old(tombstones)
                            else old(tombstones)[id := Tombstone(kind, now, number)]
    {
      if id !in tombstones {
        tombstones := tombstones[id := Tombstone(kind, now, number)];
      }
    }

    /** Get and set the last sequence number taken from a peer; a peer never seen stands at 0. */
    function Cursor(peer: Id): nat
      reads this
    {
      if peer in cursors then cursors[peer] else 0
    }

    method UpdateCursor(peer: Id, last: nat)
      modifies this`cursors
      ensures Cursor(peer) == last
      ensures forall other | other != peer :: Cursor(other) == old(Cursor(other))
    {
      cursors := cursors[peer := last];
    }

    /** Insert, or overwrite unless the local row is at least as new. */
    method UpsertRow(ev: Event, kind: Kind, incoming: Columns, scope: Option<Id>, now: Time, newId: Id)
      returns (outcome: Outcome)
      requires ValidConfig(cfg) && suppressed
      modifies this`rows, this`outbox
      ensures Step(State(), outcome) == Upsert(cfg, old(State()), ev, kind, incoming, scope, now, newId)
      ensures outbox == old(outbox)
    {
      var target := Existing(cfg, rows, scope, kind, ev.entityId, incoming);
      if target.None? {
        var e := Entity(kind, NewId(incoming, ev.entityId, newId));
        if e in rows {
          return Refused(Integrity);
        }
        Put(e, NewRow(cfg.schema[kind], incoming, e.id, now), now);
        return Applied;
      }
      if target.value !in rows {
        return Refused(Integrity);
      }
      var row := rows[target.value];
      var incomingTime := IncomingTime(ev);
      if incomingTime.Some? && UpdatedAt in row && row[UpdatedAt].Stamp? && incomingTime.value <= row[UpdatedAt].at {
        return Skipped;
      }
      Put(target.value, Assigned(row, incoming), now);
      return Applied;
    }

    method ApplyCore(ev: Event, scope: Option<Id>, now: Time, newId: Id) returns (outcome: Outcome)
      requires ValidConfig(cfg) && suppressed
      modifies this`rows, this`outbox, this`tombstones
      ensures outbox == old(outbox)
      ensures var s := Core(cfg, old(State()), ev, scope, now, newId);
              outcome == s.outcome && (!outcome.Refused? ==> State() == s.replica)
    {
      if ev.entityId in tombstones || ev.entityKind.None? {
        return Skipped;
      }
      var kind := ev.entityKind.value;
      var deleted := Deletion(ev);
      if deleted.Some? {
        AddTombstone(deleted.value, kind, ev.seqNo, now);
        if Found(cfg, rows, scope, Entity(kind, deleted.value)) {
          Drop(Entity(kind, deleted.value), now);
        }
        return Applied;
      }
      if Incoming(cfg.schema[kind], ev.payload) == map[] {
        return Skipped;
      }
      match Prepare(cfg, rows, ev, kind, scope, now, newId) {
        case Unready(why) => return Refused(why);
        case Ready(incoming, sites) =>
          rows := sites;
          outcome := UpsertRow(ev, kind, incoming, scope, now, newId);
      }
    }

    /**
     Apply one peer event in its own transaction: nothing is emitted, the suppression flag is
     restored on every path, and a refusal leaves every table as it was.
     */
    method ApplyOutboxEvent(ev: Event, now: Time, newId: Id) returns (outcome: Outcome)
      requires Valid()
      modifies this`rows, this`outbox, this`tombstones, this`suppressed
      ensures Valid()
      ensures Step(State(), outcome) == Apply(cfg, old(State()), ev, now, newId)
      ensures outbox == old(outbox) && suppressed == old(suppressed)
    {
      var savedRows, savedTombstones, wasSuppressed := rows, tombstones, suppressed;
      var scope := ClaimedOrg(ev);
      suppressed := true;
      if scope.Some? && scope.value !in cfg.orgs {
        outcome := Refused(UnknownOrg);
      } else {
        outcome := ApplyCore(ev, scope, now, newId);
        if !outcome.Refused? && !Consistent(cfg, rows) {
          outcome := Refused(Integrity);
        }
      }
      if outcome.Refused? {
        rows, tombstones := savedRows, savedTombstones;
      }
      suppressed := wasSuppressed;
    }
  }
}
