/** What one event of a peer can and cannot do to a consistent replica. */
module SyncSafety {
  import opened Common
  import opened SyncModel

  /** The two tables hold the same sites, so every site lookup answers the same. */
  ghost predicate SameSites(rows: Rows, other: Rows) {
    forall e: Entity | e.kind == Site :: (e in rows <==> e in other) && (e in rows ==> rows[e] == other[e])
  }

  lemma SameSitesSameLookups(cfg: Config, rows: Rows, other: Rows, scope: Option<Id>, c: Column, v: Value)
    requires SameSites(rows, other)
    ensures IdsWith(cfg, rows, scope, Site, c, v) == IdsWith(cfg, other, scope, Site, c, v)
    ensures VisibleIds(cfg, rows, scope, Site) == VisibleIds(cfg, other, scope, Site)
  {
  }

  /** What Core hands to Upsert: only columns of the table, and the claimed organization. */
  ghost predicate Scoped(cfg: Config, kind: Kind, scope: Option<Id>, incoming: Columns)
    requires ValidConfig(cfg)
  {
    && incoming.Keys <= cfg.schema[kind].columns
    && (scope.Some? && kind in {Site, Group} ==>
          OrganizationId in incoming && incoming[OrganizationId] == Text(scope.value))
  }

  // ---------- re-delivery ----------

  /** A lookup that found nothing finds exactly the row just inserted to match it. */
  lemma LookupAfterInsert(cfg: Config, rows: Rows, scope: Option<Id>, c: Column, v: Value, e: Entity, row: Columns)
    requires e !in rows && c in row && row[c] == v
    requires IdsWith(cfg, rows, scope, e.kind, c, v) == {}
    requires Visible(cfg, rows[e := row], scope, e)
    ensures IdsWith(cfg, rows[e := row], scope, e.kind, c, v) == {e.id}
  {
  }

  /** A lookup keeps its answer when one matching row is rewritten and still matches. */
  lemma LookupAfterRewrite(cfg: Config, rows: Rows, scope: Option<Id>, c: Column, v: Value, e: Entity, row: Columns)
    requires e in rows && c in row && row[c] == v
    requires e.id in IdsWith(cfg, rows, scope, e.kind, c, v)
    requires Visible(cfg, rows[e := row], scope, e)
    ensures IdsWith(cfg, rows[e := row], scope, e.kind, c, v) == IdsWith(cfg, rows, scope, e.kind, c, v)
  {
  }

  /** Looking again after an insert finds the new row, or nothing when its own id hides it. */
  lemma ExistingAfterCreate(cfg: Config, rows: Rows, scope: Option<Id>, entityId: Id, incoming: Columns, e: Entity,
                            row: Columns)
    requires ValidConfig(cfg) && Scoped(cfg, e.kind, scope, incoming)
    requires Existing(cfg, rows, scope, e.kind, entityId, incoming).None?
    requires e !in rows && row.Keys == cfg.schema[e.kind].columns
    requires forall c | c in incoming && c != IdColumn :: row[c] == incoming[c]
    ensures Existing(cfg, rows[e := row], scope, e.kind, entityId, incoming) in {None, Some(e)}
  {
    var after := rows[e := row];
    assert Visible(cfg, after, scope, e);
    if entityId != e.id {
      var same := Entity(e.kind, entityId);
      assert Found(cfg, after, scope, same) == Found(cfg, rows, scope, same);
      var key := NaturalKey(e.kind);
      if key.Some? && key.value in incoming && incoming[key.value] != Null {
        LookupAfterInsert(cfg, rows, scope, key.value, incoming[key.value], e, row);
      }
    }
  }

  lemma UpsertTwiceAfterCreate(cfg: Config, r: Replica, ev: Event, kind: Kind, incoming: Columns, scope: Option<Id>,
                               now: Time, newId: Id, later: Time, otherId: Id)
    requires ValidConfig(cfg) && Scoped(cfg, kind, scope, incoming)
    requires IdColumn in incoming ==> incoming[IdColumn].Text?
    requires Existing(cfg, r.rows, scope, kind, ev.entityId, incoming).None?
    ensures var once := Upsert(cfg, r, ev, kind, incoming, scope, now, newId);
            !once.outcome.Refused?
            ==> Upsert(cfg, once.replica, ev, kind, incoming, scope, later, otherId).replica == once.replica
  {
    var e := Entity(kind, NewId(incoming, ev.entityId, newId));
    if e in r.rows { return; }
    var row := NewRow(cfg.schema[kind], incoming, e.id, now);
    ExistingAfterCreate(cfg, r.rows, scope, ev.entityId, incoming, e, row);
    assert Assigned(row, incoming) == row;
    assert r.rows[e := row][e := row] == r.rows[e := row];
  }

  lemma UpsertTwiceAfterUpdate(cfg: Config, r: Replica, ev: Event, kind: Kind, incoming: Columns, scope: Option<Id>,
                               now: Time, newId: Id, later: Time, otherId: Id)
    requires ValidConfig(cfg) && Scoped(cfg, kind, scope, incoming)
    requires Existing(cfg, r.rows, scope, kind, ev.entityId, incoming).Some?
    ensures var once := Upsert(cfg, r, ev, kind, incoming, scope, now, newId);
            !once.outcome.Refused?
            ==> Upsert(cfg, once.replica, ev, kind, incoming, scope, later, otherId).replica == once.replica
  {
    var t := Existing(cfg, r.rows, scope, kind, ev.entityId, incoming).value;
    var once := Upsert(cfg, r, ev, kind, incoming, scope, now, newId);
    if once.replica == r || t !in r.rows { return; }
    var row := Assigned(r.rows[t], incoming);
    var rows := r.rows[t := row];
    assert Visible(cfg, rows, scope, t);
    if t.id != ev.entityId {
      var key := NaturalKey(kind).value;
      LookupAfterRewrite(cfg, r.rows, scope, key, incoming[key], t, row);
    }
    assert Existing(cfg, rows, scope, kind, ev.entityId, incoming) == Some(t);
    AssignedTwice(r.rows[t], incoming);
    assert rows[t := row] == rows;
  }

  lemma AssignedTwice(row: Columns, incoming: Columns)
    ensures Assigned(Assigned(row, incoming), incoming) == Assigned(row, incoming)
  {
  }

  /** An upsert writes one row, of its own kind, with only that kind's columns. */
  lemma UpsertTouchesOneRow(cfg: Config, r: Replica, ev: Event, kind: Kind, incoming: Columns, scope: Option<Id>,
                            now: Time, newId: Id)
    requires ValidConfig(cfg)
    ensures var s := Upsert(cfg, r, ev, kind, incoming, scope, now, newId);
            && s.replica.tombstones == r.tombstones
            && (forall f: Entity | f.kind != kind ::
                  (f in s.replica.rows <==> f in r.rows) && (f in r.rows ==> s.replica.rows[f] == r.rows[f]))
  {
  }

  /** Minting a Default site leaves it as the one site of that name the scope sees. */
  lemma MintedSiteIsFound(cfg: Config, rows: Rows, scope: Option<Id>, now: Time, newId: Id)
    requires ValidConfig(cfg)
    requires IdsWith(cfg, rows, scope, Site, Name, Text(DEFAULT_SITE_NAME)) == {}
    requires |VisibleIds(cfg, rows, scope, Site)| != 1
    requires DefaultSite(cfg, rows, scope, now, newId).Local?
    ensures var minted := DefaultSite(cfg, rows, scope, now, newId);
            && minted.id == newId
            && Entity(Site, newId) !in rows
            && minted.rows.Keys == rows.Keys + {Entity(Site, newId)}
            && (forall f | f in rows :: minted.rows[f] == rows[f])
            && IdsWith(cfg, minted.rows, scope, Site, Name, Text(DEFAULT_SITE_NAME)) == {newId}
  {
    var e := Entity(Site, newId);
    var minted := DefaultSite(cfg, rows, scope, now, newId);
    var row := NewRow(cfg.schema[Site],
                      map[Name := Text(DEFAULT_SITE_NAME), OrganizationId := Text(cfg.defaultOrg.value)], newId, now);
    assert minted.rows == rows[e := row];
    LookupAfterInsert(cfg, rows, scope, Name, Text(DEFAULT_SITE_NAME), e, row);
  }

  /** Once resolved, the default site resolves to itself in any table with the same sites. */
  lemma DefaultSiteIsStable(cfg: Config, rows: Rows, after: Rows, scope: Option<Id>, now: Time, newId: Id,
                            later: Time, otherId: Id)
    requires ValidConfig(cfg)
    requires DefaultSite(cfg, rows, scope, now, newId).Local?
    requires SameSites(DefaultSite(cfg, rows, scope, now, newId).rows, after)
    ensures DefaultSite(cfg, after, scope, later, otherId) == Local(DefaultSite(cfg, rows, scope, now, newId).id, after)
  {
    SameSitesSameLookups(cfg, DefaultSite(cfg, rows, scope, now, newId).rows, after, scope, Name,
                         Text(DEFAULT_SITE_NAME));
    if IdsWith(cfg, rows, scope, Site, Name, Text(DEFAULT_SITE_NAME)) == {}
       && |VisibleIds(cfg, rows, scope, Site)| != 1 {
      MintedSiteIsFound(cfg, rows, scope, now, newId);
      assert cfg.pick({newId}) in {newId};
    }
  }

  /** After the event's row is written, the site link is remapped to the same site again. */
  lemma RemapIsStable(cfg: Config, rows: Rows, after: Rows, scope: Option<Id>, kind: Kind, incoming: Columns,
                      now: Time, newId: Id, later: Time, otherId: Id)
    requires ValidConfig(cfg) && SiteId in incoming
    requires Remap(cfg, rows, scope, kind, incoming, now, newId).Local?
    requires SameSites(Remap(cfg, rows, scope, kind, incoming, now, newId).rows, after)
    ensures Remap(cfg, after, scope, kind, incoming, later, otherId)
            == Local(Remap(cfg, rows, scope, kind, incoming, now, newId).id, after)
  {
    var v := incoming[SiteId];
    if !(v.Text? && Found(cfg, rows, scope, Entity(Site, v.text))) {
      DefaultSiteIsStable(cfg, rows, after, scope, now, newId, later, otherId);
      if v.Text? {
        OnlyTheDefaultIsNew(cfg, rows, after, scope, v.text, now, newId);
      }
    }
  }

  /** A site that was not found and now is can only be the Default site just made. */
  lemma OnlyTheDefaultIsNew(cfg: Config, rows: Rows, after: Rows, scope: Option<Id>, id: Id, now: Time, newId: Id)
    requires ValidConfig(cfg) && !Found(cfg, rows, scope, Entity(Site, id))
    requires DefaultSite(cfg, rows, scope, now, newId).Local?
    requires SameSites(DefaultSite(cfg, rows, scope, now, newId).rows, after)
    ensures Found(cfg, after, scope, Entity(Site, id)) ==> id == DefaultSite(cfg, rows, scope, now, newId).id
  {
    if IdsWith(cfg, rows, scope, Site, Name, Text(DEFAULT_SITE_NAME)) == {}
       && |VisibleIds(cfg, rows, scope, Site)| != 1 {
      MintedSiteIsFound(cfg, rows, scope, now, newId);
    }
  }

  lemma CoreTwice(cfg: Config, r: Replica, ev: Event, scope: Option<Id>, now: Time, newId: Id, later: Time, otherId: Id)
    requires ValidConfig(cfg)
    requires IdColumn in ev.payload ==> ev.payload[IdColumn].Text?
    ensures var once := Core(cfg, r, ev, scope, now, newId);
            !once.outcome.Refused? ==> Core(cfg, once.replica, ev, scope, later, otherId).replica == once.replica
  {
    var once := Core(cfg, r, ev, scope, now, newId);
    if once.outcome.Refused? || ev.entityId in r.tombstones || ev.entityKind.None? {
    } else if Deletion(ev).Some? {
      var e := Entity(ev.entityKind.value, Deletion(ev).value);
      assert !Found(cfg, once.replica.rows, scope, e);
    } else {
      var kind := ev.entityKind.value;
      if Incoming(cfg.schema[kind], ev.payload) != map[] {
        var ready := Prepare(cfg, r.rows, ev, kind, scope, now, newId);
        var r1 := r.(rows := ready.rows);
        UpsertTwice(cfg, r1, ev, kind, ready.incoming, scope, now, newId, later, otherId);
        UpsertTouchesOneRow(cfg, r1, ev, kind, ready.incoming, scope, now, newId);
        PrepareIsStable(cfg, r.rows, once.replica.rows, ev, kind, scope, now, newId, later, otherId);
      }
    }
  }

  lemma PrepareIsStable(cfg: Config, rows: Rows, after: Rows, ev: Event, kind: Kind, scope: Option<Id>,
                        now: Time, newId: Id, later: Time, otherId: Id)
    requires ValidConfig(cfg) && Prepare(cfg, rows, ev, kind, scope, now, newId).Ready?
    requires kind in {Device, Group} ==> SameSites(Prepare(cfg, rows, ev, kind, scope, now, newId).rows, after)
    ensures Prepare(cfg, after, ev, kind, scope, later, otherId)
            == Ready(Prepare(cfg, rows, ev, kind, scope, now, newId).incoming, after)
  {
    var incoming := Pinned(kind, Incoming(cfg.schema[kind], ev.payload), scope);
    if NeedsSite(kind, incoming) {
      RemapIsStable(cfg, rows, after, scope, kind, incoming, now, newId, later, otherId);
    }
  }

  lemma UpsertTwice(cfg: Config, r: Replica, ev: Event, kind: Kind, incoming: Columns, scope: Option<Id>,
                    now: Time, newId: Id, later: Time, otherId: Id)
    requires ValidConfig(cfg) && Scoped(cfg, kind, scope, incoming)
    requires IdColumn in incoming ==> incoming[IdColumn].Text?
    ensures var once := Upsert(cfg, r, ev, kind, incoming, scope, now, newId);
            !once.outcome.Refused?
            ==> Upsert(cfg, once.replica, ev, kind, incoming, scope, later, otherId).replica == once.replica
  {
    if Existing(cfg, r.rows, scope, kind, ev.entityId, incoming).None? {
      UpsertTwiceAfterCreate(cfg, r, ev, kind, incoming, scope, now, newId, later, otherId);
    } else {
      UpsertTwiceAfterUpdate(cfg, r, ev, kind, incoming, scope, now, newId, later, otherId);
    }
  }

  /**
   Applying an event a second time, at any later moment, changes nothing: the
   at-least-once delivery of the outbox is absorbed, for every kind of event.
   */
  lemma RedeliveryIsAbsorbed(cfg: Config, r: Replica, ev: Event, now: Time, newId: Id, later: Time, otherId: Id)
    requires ValidConfig(cfg)
    requires IdColumn in ev.payload ==> ev.payload[IdColumn].Text?
    ensures var once := Apply(cfg, r, ev, now, newId);
            !once.outcome.Refused? ==> Apply(cfg, once.replica, ev, later, otherId).replica == once.replica
  {
    CoreTwice(cfg, r, ev, ClaimedOrg(ev), now, newId, later, otherId);
  }

  // ---------- which constraint an event can break ----------

  lemma UpdatedRow(cfg: Config, r: Replica, ev: Event, kind: Kind, incoming: Columns, scope: Option<Id>, now: Time,
                   newId: Id)
    requires ValidConfig(cfg) && Existing(cfg, r.rows, scope, kind, ev.entityId, incoming).Some?
    requires Upsert(cfg, r, ev, kind, incoming, scope, now, newId).outcome.Applied?
    ensures var t := Existing(cfg, r.rows, scope, kind, ev.entityId, incoming).value;
            && t in r.rows && t.kind == kind
            && Upsert(cfg, r, ev, kind, incoming, scope, now, newId).replica.rows
               == r.rows[t := Assigned(r.rows[t], incoming)]
  {
    var t := Existing(cfg, r.rows, scope, kind, ev.entityId, incoming).value;
    if t.id != ev.entityId {
      var named := IdsWith(cfg, r.rows, scope, kind, NaturalKey(kind).value, incoming[NaturalKey(kind).value]);
      assert cfg.pick(named) in named;
    }
  }

  /** An applied upsert leaves one row carrying every sent column, all other rows as they were. */
  lemma WrittenRow(cfg: Config, r: Replica, ev: Event, kind: Kind, incoming: Columns, scope: Option<Id>, now: Time,
                   newId: Id)
    returns (t: Entity)
    requires ValidConfig(cfg) && incoming.Keys <= cfg.schema[kind].columns
    requires Upsert(cfg, r, ev, kind, incoming, scope, now, newId).outcome.Applied?
    ensures var after := Upsert(cfg, r, ev, kind, incoming, scope, now, newId).replica.rows;
            && t.kind == kind && after.Keys == r.rows.Keys + {t}
            && (forall f | f in r.rows && f != t :: after[f] == r.rows[f])
            && (forall c | c in incoming && c != IdColumn :: c in after[t] && after[t][c] == incoming[c])
            && (forall c | c in after[t] && c !in incoming && c != IdColumn && c != UpdatedAt ::
                  (t in r.rows && c in r.rows[t] && after[t][c] == r.rows[t][c])
                  || (c in cfg.schema[kind].columns && after[t][c] == cfg.schema[kind].defaults[c]))
    ensures Existing(cfg, r.rows, scope, kind, ev.entityId, incoming).Some? ==>
              t == Existing(cfg, r.rows, scope, kind, ev.entityId, incoming).value && t in r.rows
    ensures Existing(cfg, r.rows, scope, kind, ev.entityId, incoming).None? ==>
              t.id == NewId(incoming, ev.entityId, newId) && t !in r.rows
  {
    var target := Existing(cfg, r.rows, scope, kind, ev.entityId, incoming);
    t := if target.Some? then target.value else Entity(kind, NewId(incoming, ev.entityId, newId));
    if target.Some? {
      UpdatedRow(cfg, r, ev, kind, incoming, scope, now, newId);
    }
  }

  ghost predicate RewrittenAt(rows: Rows, after: Rows, t: Entity) {
    after.Keys == rows.Keys + {t} && forall f | f in rows && f != t :: after[f] == rows[f]
  }

  lemma UniqueAfterWrite(rows: Rows, after: Rows, t: Entity)
    requires Unique(rows) && RewrittenAt(rows, after, t)
    ensures Unique(after) <==> forall f | f in rows && f != t && f.kind == t.kind :: !Clash(t.kind, after[t], rows[f])
  {
  }

  /** The event renames the account it names to an email another account holds. */
  ghost predicate TakesAnothersEmail(r: Replica, ev: Event) {
    && Entity(User, ev.entityId) in r.rows
    && Email in ev.payload
    && (exists f ::
          f in r.rows && f.kind == User && f.id != ev.entityId && Email in r.rows[f]
          && r.rows[f][Email] == ev.payload[Email])
  }

  /**
   A user event collides on email exactly when it renames the account found by id to an
   address in use; reconciling on the email keeps the create path free of collisions.
   */
  lemma EmailCollidesOnlyOnRename(cfg: Config, r: Replica, ev: Event, scope: Option<Id>, now: Time, newId: Id)
    requires ValidConfig(cfg) && Typed(cfg, r.rows) && Unique(r.rows)
    requires ev.entityKind == Some(User) && Deletion(ev).None?
    requires Core(cfg, r, ev, scope, now, newId).outcome.Applied?
    ensures Unique(Core(cfg, r, ev, scope, now, newId).replica.rows) <==> !TakesAnothersEmail(r, ev)
  {
    var incoming := Pinned(User, Incoming(cfg.schema[User], ev.payload), scope);
    var after := Core(cfg, r, ev, scope, now, newId).replica.rows;
    var t := WrittenRow(cfg, r, ev, User, incoming, scope, now, newId);
    UniqueAfterWrite(r.rows, after, t);
    UserEmailAfterWrite(cfg, r, ev, scope, incoming, after, t, newId);
  }

  ghost predicate EmailFree(rows: Rows, t: Entity, v: Value) {
    forall f | f in rows && f != t && f.kind == User && Email in rows[f] :: rows[f][Email] != v
  }

  /** Reconciling on the email: the row found, or made when none is, is its only holder. */
  lemma ReconciledEmailIsFree(cfg: Config, rows: Rows, id: Id, scope: Option<Id>, incoming: Columns, newId: Id)
    requires ValidConfig(cfg) && Unique(rows)
    requires Entity(User, id) !in rows && Email in incoming && incoming[Email] != Null
    ensures var target := Existing(cfg, rows, scope, User, id, incoming);
            EmailFree(rows, if target.Some? then target.value else Entity(User, newId), incoming[Email])
  {
    var holders := IdsWith(cfg, rows, scope, User, Email, incoming[Email]);
    assert forall f | f in rows && f.kind == User && Email in rows[f] && rows[f][Email] == incoming[Email] ::
             f.id in holders;
    if holders != {} {
      var t := Entity(User, cfg.pick(holders));
      assert t.id in holders;
      assert t in rows && rows[t][Email] == incoming[Email];
      forall f | f in rows && f != t && f.kind == User && Email in rows[f] ensures rows[f][Email] != incoming[Email] {
        assert !Clash(User, rows[t], rows[f]);
      }
    }
  }

  lemma UserEmailAfterWrite(cfg: Config, r: Replica, ev: Event, scope: Option<Id>, incoming: Columns, after: Rows,
                            t: Entity, newId: Id)
    requires ValidConfig(cfg) && Typed(cfg, r.rows) && Unique(r.rows)
    requires incoming == Incoming(cfg.schema[User], ev.payload)
    requires t.kind == User && t in after && Email in after[t]
    requires Email in incoming ==> after[t][Email] == incoming[Email]
    requires Email !in incoming ==> (t in r.rows && after[t][Email] == r.rows[t][Email]) || after[t][Email] == Null
    requires var target := Existing(cfg, r.rows, scope, User, ev.entityId, incoming);
             if target.Some? then t == target.value && t in r.rows else t !in r.rows
    ensures !TakesAnothersEmail(r, ev) <==> EmailFree(r.rows, t, after[t][Email])
  {
    var byId := Entity(User, ev.entityId);
    assert forall f | f in r.rows && f.kind == User :: Email in r.rows[f] && r.rows[f][Email] != Null by {
      forall f | f in r.rows && f.kind == User ensures Email in r.rows[f] && r.rows[f][Email] != Null {
        assert RowTyped(cfg.schema[User], f.id, r.rows[f]);
      }
    }
    if Email !in incoming {
      if t in r.rows && after[t][Email] == r.rows[t][Email] {
        forall f | f in r.rows && f != t && f.kind == User && Email in r.rows[f]
          ensures r.rows[f][Email] != after[t][Email]
        {
          assert !Clash(User, r.rows[t], r.rows[f]);
        }
      }
    } else if byId !in r.rows && incoming[Email] != Null {
      ReconciledEmailIsFree(cfg, r.rows, ev.entityId, scope, incoming, t.id);
    }
  }

  predicate SitesLinked(rows: Rows) {
    forall e | e in rows :: e.kind in {Device, Group} && SiteId in rows[e] ==> RefersTo(rows, rows[e][SiteId], Site)
  }

  lemma DefaultSiteExists(cfg: Config, rows: Rows, scope: Option<Id>, now: Time, newId: Id)
    requires ValidConfig(cfg) && DefaultSite(cfg, rows, scope, now, newId).Local?
    ensures var d := DefaultSite(cfg, rows, scope, now, newId);
            && Entity(Site, d.id) in d.rows
            && rows.Keys <= d.rows.Keys && (forall e | e in rows :: d.rows[e] == rows[e])
            && d.rows.Keys <= rows.Keys + {Entity(Site, newId)}
  {
  }

  /** An applied event that deletes nothing is an upsert into the prepared rows. */
  lemma AppliedIsUpsert(cfg: Config, r: Replica, ev: Event, scope: Option<Id>, now: Time, newId: Id)
    requires ValidConfig(cfg) && Deletion(ev).None? && Core(cfg, r, ev, scope, now, newId).outcome.Applied?
    ensures ev.entityKind.Some? && ev.entityId !in r.tombstones
    ensures var ready := Prepare(cfg, r.rows, ev, ev.entityKind.value, scope, now, newId);
            && ready.Ready?
            && Core(cfg, r, ev, scope, now, newId)
               == Upsert(cfg, r.(rows := ready.rows), ev, ev.entityKind.value, ready.incoming, scope, now, newId)
  {
  }

  /** Remapping leaves the site link of a device or group dangling for no payload but an empty one. */
  lemma RemapKeepsSiteLinks(cfg: Config, r: Replica, ev: Event, scope: Option<Id>, now: Time, newId: Id)
    requires ValidConfig(cfg) && SitesLinked(r.rows)
    requires ev.entityKind in {Some(Device), Some(Group)} && Deletion(ev).None?
    requires Core(cfg, r, ev, scope, now, newId).outcome.Applied?
    ensures SitesLinked(Core(cfg, r, ev, scope, now, newId).replica.rows)
            <==> !(SiteId in ev.payload && (ev.payload[SiteId] == Text("")) && Entity(Site, "") !in r.rows)
  {
    var kind := ev.entityKind.value;
    AppliedIsUpsert(cfg, r, ev, scope, now, newId);
    PreparedSiteExists(cfg, r.rows, ev, kind, scope, now, newId);
    var ready := Prepare(cfg, r.rows, ev, kind, scope, now, newId);
    UpsertLinksExactly(cfg, r.(rows := ready.rows), ev, kind, ready.incoming, scope, now, newId);
  }

  /** An upsert keeps site links resolvable exactly if the link it brings resolves. */
  lemma UpsertLinksExactly(cfg: Config, r: Replica, ev: Event, kind: Kind, incoming: Columns, scope: Option<Id>,
                           now: Time, newId: Id)
    requires ValidConfig(cfg) && SitesLinked(r.rows) && kind in {Device, Group}
    requires incoming.Keys <= cfg.schema[kind].columns
    requires Upsert(cfg, r, ev, kind, incoming, scope, now, newId).outcome.Applied?
    ensures SitesLinked(Upsert(cfg, r, ev, kind, incoming, scope, now, newId).replica.rows)
            <==> (SiteId in incoming ==> RefersTo(r.rows, incoming[SiteId], Site))
  {
    var t := WrittenRow(cfg, r, ev, kind, incoming, scope, now, newId);
    WrittenLink(cfg, r.rows, Upsert(cfg, r, ev, kind, incoming, scope, now, newId).replica.rows, t, incoming);
  }

  lemma WrittenLink(cfg: Config, rows: Rows, after: Rows, t: Entity, incoming: Columns)
    requires ValidConfig(cfg) && SitesLinked(rows) && RewrittenAt(rows, after, t) && t.kind in {Device, Group}
    requires SiteId in incoming ==> SiteId in after[t] && after[t][SiteId] == incoming[SiteId]
    requires SiteId in after[t] && SiteId !in incoming ==>
               (t in rows && SiteId in rows[t] && after[t][SiteId] == rows[t][SiteId]) || after[t][SiteId] == Null
    ensures SitesLinked(after) <==> (SiteId in incoming ==> RefersTo(rows, incoming[SiteId], Site))
  {
  }

  lemma PreparedSiteExists(cfg: Config, rows: Rows, ev: Event, kind: Kind, scope: Option<Id>, now: Time, newId: Id)
    requires ValidConfig(cfg) && SitesLinked(rows) && kind in {Device, Group}
    requires Prepare(cfg, rows, ev, kind, scope, now, newId).Ready?
    ensures var ready := Prepare(cfg, rows, ev, kind, scope, now, newId);
            && SitesLinked(ready.rows)
            && (SiteId in ready.incoming ==> (RefersTo(ready.rows, ready.incoming[SiteId], Site)
                  <==> !(ev.payload[SiteId] == Text("") && Entity(Site, "") !in rows)))
            && (SiteId in ready.incoming <==> SiteId in ev.payload)
            && (SiteId in ready.incoming && ready.incoming[SiteId] == Text("") && ev.payload[SiteId] == Text("")
                ==> ready.rows == rows)
  {
    var incoming := Pinned(kind, Incoming(cfg.schema[kind], ev.payload), scope);
    if NeedsSite(kind, incoming)
       && !(incoming[SiteId].Text? && Found(cfg, rows, scope, Entity(Site, incoming[SiteId].text))) {
      DefaultSiteExists(cfg, rows, scope, now, newId);
      var d := DefaultSite(cfg, rows, scope, now, newId);
      forall e | e in d.rows && e.kind in {Device, Group} && SiteId in d.rows[e]
        ensures RefersTo(d.rows, d.rows[e][SiteId], Site)
      {
        assert RefersTo(rows, rows[e][SiteId], Site);
      }
    }
  }

  /** The column through which a row points at another, if it may not be null. */
  ghost predicate PinnedBy(cfg: Config, gone: Entity, e: Entity, row: Columns)
    requires ValidConfig(cfg)
  {
    gone.kind == Site && SiteId in cfg.schema[e.kind].required && SiteId in row && row[SiteId] == Text(gone.id)
  }

  lemma RemovalKeepsLinks(cfg: Config, rows: Rows, gone: Entity)
    requires Linked(cfg, rows) && gone in rows
    ensures Linked(cfg, Removed(rows, gone))
  {
  }

  lemma RemovalKeepsKeys(rows: Rows, gone: Entity)
    requires Unique(rows)
    ensures Unique(Removed(rows, gone))
  {
  }

  /**
   Removing a row keeps every link and every unique key; it is refused exactly when another
   row points at it through a column that may not be null (a device's site, in production).
   */
  lemma RemovalIsRefusedExactly(cfg: Config, rows: Rows, gone: Entity)
    requires ValidConfig(cfg) && Consistent(cfg, rows) && gone in rows
    ensures Linked(cfg, Removed(rows, gone)) && Unique(Removed(rows, gone))
    ensures Consistent(cfg, Removed(rows, gone))
            <==> !exists e :: e in rows && e != gone && PinnedBy(cfg, gone, e, rows[e])
  {
    RemovalKeepsLinks(cfg, rows, gone);
    RemovalKeepsKeys(rows, gone);
    RemovalTyping(cfg, rows, gone);
  }

  lemma RemovalTyping(cfg: Config, rows: Rows, gone: Entity)
    requires ValidConfig(cfg) && Typed(cfg, rows) && gone in rows
    ensures Typed(cfg, Removed(rows, gone)) <==> !exists e :: e in rows && e != gone && PinnedBy(cfg, gone, e, rows[e])
  {
    var after := Removed(rows, gone);
    forall e | e in after
      ensures RowTyped(cfg.schema[e.kind], e.id, after[e]) <==> !PinnedBy(cfg, gone, e, rows[e])
    {
      DetachedTyping(cfg, gone, e, rows[e]);
    }
    if e :| e in rows && e != gone && PinnedBy(cfg, gone, e, rows[e]) {
      assert e in after;
    }
  }

  lemma DetachedTyping(cfg: Config, gone: Entity, e: Entity, row: Columns)
    requires ValidConfig(cfg) && RowTyped(cfg.schema[e.kind], e.id, row)
    ensures RowTyped(cfg.schema[e.kind], e.id, Detached(gone, row)) <==> !PinnedBy(cfg, gone, e, row)
  {
  }
}
