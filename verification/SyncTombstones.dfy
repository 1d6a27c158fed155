/** Deleted stays deleted: what the tombstone table guarantees over one event and over whole runs. */
module SyncTombstones {
  import opened Common
  import opened SyncModel
  import opened SyncSafety

  /** No tombstoned id names a row of any table. */
  ghost predicate Honoured(r: Replica) {
    forall id, k: Kind :: id in r.tombstones ==> Entity(k, id) !in r.rows
  }

  /**
   What an event must look like for the tombstones to stay honoured: a deletion reaches the
   row it names, and a creation does not smuggle a tombstoned id in through its payload.
   */
  ghost predicate RespectsTombstones(cfg: Config, r: Replica, ev: Event, scope: Option<Id>, now: Time, newId: Id)
    requires ValidConfig(cfg) && ev.entityKind.Some?
  {
    var kind := ev.entityKind.value;
    if Deletion(ev).Some? then
      forall k: Kind :: Entity(k, Deletion(ev).value) in r.rows ==>
                          k == kind && Found(cfg, r.rows, scope, Entity(k, Deletion(ev).value))
    else
      var ready := Prepare(cfg, r.rows, ev, kind, scope, now, newId);
      ready.Ready? && Existing(cfg, ready.rows, scope, kind, ev.entityId, ready.incoming).None? ==>
        NewId(ready.incoming, ev.entityId, newId) !in r.tombstones
  }

  lemma DeletionHonouredExactly(cfg: Config, r: Replica, ev: Event, scope: Option<Id>, now: Time, newId: Id)
    requires ValidConfig(cfg) && Honoured(r) && ev.entityKind.Some? && Deletion(ev).Some?
    ensures Honoured(Delete(cfg, r, ev, ev.entityKind.value, Deletion(ev).value, scope, now))
            <==> RespectsTombstones(cfg, r, ev, scope, now, newId)
  {
  }

  /** An upsert puts one row in place, which has a tombstoned id only if it is new. */
  lemma UpsertHonouredExactly(cfg: Config, r: Replica, rows: Rows, ev: Event, kind: Kind, incoming: Columns,
                              scope: Option<Id>, now: Time, newId: Id)
    requires ValidConfig(cfg) && Honoured(r) && newId !in r.tombstones && incoming.Keys <= cfg.schema[kind].columns
    requires r.rows.Keys <= rows.Keys <= r.rows.Keys + {Entity(Site, newId)}
    requires Upsert(cfg, r.(rows := rows), ev, kind, incoming, scope, now, newId).outcome.Applied?
    ensures Honoured(Upsert(cfg, r.(rows := rows), ev, kind, incoming, scope, now, newId).replica)
            <==> (Existing(cfg, rows, scope, kind, ev.entityId, incoming).None? ==>
                    NewId(incoming, ev.entityId, newId) !in r.tombstones)
  {
    var t := WrittenRow(cfg, r.(rows := rows), ev, kind, incoming, scope, now, newId);
    UpsertTouchesOneRow(cfg, r.(rows := rows), ev, kind, incoming, scope, now, newId);
    OneRowHonouredExactly(r, rows, Upsert(cfg, r.(rows := rows), ev, kind, incoming, scope, now, newId).replica, t,
                          newId);
  }

  lemma OneRowHonouredExactly(r: Replica, rows: Rows, after: Replica, t: Entity, newId: Id)
    requires Honoured(r) && newId !in r.tombstones && r.rows.Keys <= rows.Keys <= r.rows.Keys + {Entity(Site, newId)}
    requires after.tombstones == r.tombstones && after.rows.Keys == rows.Keys + {t}
    ensures Honoured(after) <==> (t !in rows ==> t.id !in r.tombstones)
  {
    assert t == Entity(t.kind, t.id);
  }

  lemma WriteHonouredExactly(cfg: Config, r: Replica, ev: Event, scope: Option<Id>, now: Time, newId: Id)
    requires ValidConfig(cfg) && Honoured(r) && newId !in r.tombstones && ev.entityKind.Some? && Deletion(ev).None?
    requires Core(cfg, r, ev, scope, now, newId).outcome.Applied?
    ensures Honoured(Core(cfg, r, ev, scope, now, newId).replica) <==> RespectsTombstones(cfg, r, ev, scope, now, newId)
  {
    var kind := ev.entityKind.value;
    AppliedIsUpsert(cfg, r, ev, scope, now, newId);
    var ready := Prepare(cfg, r.rows, ev, kind, scope, now, newId);
    PreparedRows(cfg, r.rows, ev, kind, scope, now, newId);
    UpsertHonouredExactly(cfg, r, ready.rows, ev, kind, ready.incoming, scope, now, newId);
  }

  /** An applied event keeps the tombstones honoured exactly when it respects them. */
  lemma HonouredExactly(cfg: Config, r: Replica, ev: Event, scope: Option<Id>, now: Time, newId: Id)
    requires ValidConfig(cfg) && Honoured(r) && newId !in r.tombstones
    requires Core(cfg, r, ev, scope, now, newId).outcome.Applied?
    ensures Honoured(Core(cfg, r, ev, scope, now, newId).replica) <==> RespectsTombstones(cfg, r, ev, scope, now, newId)
  {
    if Deletion(ev).Some? {
      DeletionHonouredExactly(cfg, r, ev, scope, now, newId);
    } else {
      WriteHonouredExactly(cfg, r, ev, scope, now, newId);
    }
  }

  /** Preparing an event adds at most the Default site. */
  lemma PreparedRows(cfg: Config, rows: Rows, ev: Event, kind: Kind, scope: Option<Id>, now: Time, newId: Id)
    requires ValidConfig(cfg) && Prepare(cfg, rows, ev, kind, scope, now, newId).Ready?
    ensures var ready := Prepare(cfg, rows, ev, kind, scope, now, newId);
            && rows.Keys <= ready.rows.Keys <= rows.Keys + {Entity(Site, newId)}
            && ready.incoming.Keys <= cfg.schema[kind].columns
  {
    var incoming := Pinned(kind, Incoming(cfg.schema[kind], ev.payload), scope);
    if NeedsSite(kind, incoming)
       && !(incoming[SiteId].Text? && Found(cfg, rows, scope, Entity(Site, incoming[SiteId].text))) {
      DefaultSiteExists(cfg, rows, scope, now, newId);
    }
  }

  // ---------- whole runs ----------

  datatype Delivery = Delivery(ev: Event, now: Time, newId: Id)

  /** The replica after a sequence of deliveries, in order. */
  function Run(cfg: Config, r: Replica, ds: seq<Delivery>): Replica
    requires ValidConfig(cfg)
  {
    if ds == [] then r
    else
      var d := ds[|ds| - 1];
      Apply(cfg, Run(cfg, r, ds[..|ds| - 1]), d.ev, d.now, d.newId).replica
  }

  /** Ids carry their table in a prefix, and peers send rows under their own id. */
  ghost predicate Aimed(cfg: Config, kindOf: Id -> Kind, d: Delivery) {
    && kindOf(d.newId) == Site
    && (d.ev.entityKind.Some? ==> kindOf(d.ev.entityId) == d.ev.entityKind.value)
    && (IdColumn in d.ev.payload ==> d.ev.payload[IdColumn] == Text(d.ev.entityId))
    && (Deletion(d.ev).Some? && d.ev.entityKind.Some? ==>
          kindOf(Deletion(d.ev).value) == d.ev.entityKind.value && (cfg.enforcing ==> ClaimedOrg(d.ev).None?))
  }

  ghost predicate Prefixed(kindOf: Id -> Kind, r: Replica) {
    forall e | e in r.rows :: kindOf(e.id) == e.kind
  }

  ghost predicate FreshIds(r: Replica, ds: seq<Delivery>) {
    forall d | d in ds :: d.newId !in r.tombstones && d.newId !in DeletedIds(ds)
  }

  lemma UpsertAdds(cfg: Config, r: Replica, ev: Event, kind: Kind, incoming: Columns, scope: Option<Id>, now: Time,
                   newId: Id)
    requires ValidConfig(cfg)
    requires IdColumn in incoming ==> incoming[IdColumn] == Text(ev.entityId)
    ensures Upsert(cfg, r, ev, kind, incoming, scope, now, newId).replica.rows.Keys <= r.rows.Keys
            + {Entity(kind, ev.entityId)}
  {
  }

  /** The only ids an event can add rows for: the Default site's, and the one it is sent under. */
  lemma RowsAdded(cfg: Config, r: Replica, ev: Event, scope: Option<Id>, now: Time, newId: Id)
    requires ValidConfig(cfg) && ev.entityKind.Some?
    requires IdColumn in ev.payload ==> ev.payload[IdColumn] == Text(ev.entityId)
    ensures Core(cfg, r, ev, scope, now, newId).replica.rows.Keys
            <= r.rows.Keys + {Entity(Site, newId), Entity(ev.entityKind.value, ev.entityId)}
  {
    var kind := ev.entityKind.value;
    if Deletion(ev).None? && Prepare(cfg, r.rows, ev, kind, scope, now, newId).Ready? {
      var ready := Prepare(cfg, r.rows, ev, kind, scope, now, newId);
      PreparedRows(cfg, r.rows, ev, kind, scope, now, newId);
      UpsertAdds(cfg, r.(rows := ready.rows), ev, kind, ready.incoming, scope, now, newId);
    }
  }

  lemma TombstonesAdded(cfg: Config, r: Replica, ev: Event, scope: Option<Id>, now: Time, newId: Id)
    requires ValidConfig(cfg)
    ensures var after := Core(cfg, r, ev, scope, now, newId).replica;
            && r.tombstones.Keys <= after.tombstones.Keys
            && after.tombstones.Keys <= r.tombstones.Keys + (if Deletion(ev).Some? then {Deletion(ev).value} else {})
            && (Deletion(ev).None? ==> after.tombstones == r.tombstones)
  {
    if ev.entityId in r.tombstones || ev.entityKind.None? || Deletion(ev).Some? {
    } else if Prepare(cfg, r.rows, ev, ev.entityKind.value, scope, now, newId).Ready? {
      var ready := Prepare(cfg, r.rows, ev, ev.entityKind.value, scope, now, newId);
      UpsertTouchesOneRow(cfg, r.(rows := ready.rows), ev, ev.entityKind.value, ready.incoming, scope, now, newId);
    }
  }

  /** An aimed event respects the tombstones. */
  lemma AimedRespects(cfg: Config, kindOf: Id -> Kind, r: Replica, d: Delivery, scope: Option<Id>)
    requires ValidConfig(cfg) && Honoured(r) && Prefixed(kindOf, r) && scope == ClaimedOrg(d.ev)
    requires Aimed(cfg, kindOf, d) && d.ev.entityKind.Some? && d.ev.entityId !in r.tombstones
    ensures RespectsTombstones(cfg, r, d.ev, scope, d.now, d.newId)
  {
  }

  /** A skipped event adds at most the Default site it prepared. */
  lemma SkippedAdds(cfg: Config, r: Replica, d: Delivery, scope: Option<Id>)
    requires ValidConfig(cfg) && Core(cfg, r, d.ev, scope, d.now, d.newId).outcome.Skipped?
    requires IdColumn in d.ev.payload ==> d.ev.payload[IdColumn] == Text(d.ev.entityId)
    ensures var after := Core(cfg, r, d.ev, scope, d.now, d.newId).replica;
            && after.tombstones == r.tombstones
            && (after == r
                || (d.ev.entityKind.Some? && d.ev.entityId !in r.tombstones
                    && after.rows.Keys
                       <= r.rows.Keys + {Entity(Site, d.newId), Entity(d.ev.entityKind.value, d.ev.entityId)}))
  {
    if d.ev.entityKind.Some? && d.ev.entityId !in r.tombstones {
      RowsAdded(cfg, r, d.ev, scope, d.now, d.newId);
    }
  }

  lemma SkippedHonours(cfg: Config, r: Replica, d: Delivery, scope: Option<Id>)
    requires ValidConfig(cfg) && Honoured(r) && d.newId !in r.tombstones
    requires IdColumn in d.ev.payload ==> d.ev.payload[IdColumn] == Text(d.ev.entityId)
    requires Core(cfg, r, d.ev, scope, d.now, d.newId).outcome.Skipped?
    ensures Honoured(Core(cfg, r, d.ev, scope, d.now, d.newId).replica)
  {
    SkippedAdds(cfg, r, d, scope);
  }

  lemma CoreHonours(cfg: Config, kindOf: Id -> Kind, r: Replica, d: Delivery, scope: Option<Id>)
    requires ValidConfig(cfg) && Honoured(r) && Prefixed(kindOf, r) && scope == ClaimedOrg(d.ev)
    requires Aimed(cfg, kindOf, d) && d.newId !in r.tombstones
    requires !Core(cfg, r, d.ev, scope, d.now, d.newId).outcome.Refused?
    ensures Honoured(Core(cfg, r, d.ev, scope, d.now, d.newId).replica)
  {
    if Core(cfg, r, d.ev, scope, d.now, d.newId).outcome.Skipped? {
      SkippedHonours(cfg, r, d, scope);
    } else {
      AimedRespects(cfg, kindOf, r, d, scope);
      HonouredExactly(cfg, r, d.ev, scope, d.now, d.newId);
    }
  }

  lemma AppliedKeepsAim(cfg: Config, kindOf: Id -> Kind, r: Replica, d: Delivery)
    requires ValidConfig(cfg) && Honoured(r) && Prefixed(kindOf, r)
    requires Aimed(cfg, kindOf, d) && d.newId !in r.tombstones
    ensures var after := Apply(cfg, r, d.ev, d.now, d.newId).replica;
            && Honoured(after) && Prefixed(kindOf, after)
            && r.tombstones.Keys <= after.tombstones.Keys
            && after.tombstones.Keys <= r.tombstones.Keys
               + (if Deletion(d.ev).Some? then {Deletion(d.ev).value} else {})
  {
    var scope := ClaimedOrg(d.ev);
    var core := Core(cfg, r, d.ev, scope, d.now, d.newId);
    if !core.outcome.Refused? {
      CoreHonours(cfg, kindOf, r, d, scope);
      TombstonesAdded(cfg, r, d.ev, scope, d.now, d.newId);
      if d.ev.entityKind.Some? {
        RowsAdded(cfg, r, d.ev, scope, d.now, d.newId);
      }
    }
  }

  /**
   Over any run of aimed deliveries: the constraints hold, tombstones only grow, and no
   tombstoned id ever has a row again.
   */
  lemma {:induction false} TombstonesAreForever(cfg: Config, kindOf: Id -> Kind, r: Replica, ds: seq<Delivery>)
    requires ValidConfig(cfg) && Consistent(cfg, r.rows) && Honoured(r) && Prefixed(kindOf, r)
    requires forall d | d in ds :: Aimed(cfg, kindOf, d)
    requires FreshIds(r, ds)
    ensures var after := Run(cfg, r, ds);
            && Consistent(cfg, after.rows) && Honoured(after) && Prefixed(kindOf, after)
            && r.tombstones.Keys <= after.tombstones.Keys
            && (forall id :: id in after.tombstones ==> id in r.tombstones || id in DeletedIds(ds))
  {
    if ds != [] {
      var front, d := ds[..|ds| - 1], ds[|ds| - 1];
      TombstonesAreForever(cfg, kindOf, r, front);
      var before := Run(cfg, r, front);
      AppliedKeepsAim(cfg, kindOf, before, d);
    }
  }

  /** The ids the deletion events of a run name. */
  function DeletedIds(ds: seq<Delivery>): set<Id> {
    set d | d in ds && Deletion(d.ev).Some? :: Deletion(d.ev).value
  }
}
