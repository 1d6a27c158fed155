/** Hubs pulling each other's outboxes: paging, crashes, quiescence, and agreement. */
module SyncNetwork {
  import opened Common
  import opened SyncModel
  import opened SyncTombstones
  import opened SyncConvergence
  import opened SyncStore

  // ---------- paging one outbox ----------

  /** Sequence numbers count the outbox from 1. */
  ghost predicate Numbered(outbox: seq<Event>) {
    forall i | 0 <= i < |outbox| :: outbox[i].seqNo == i + 1
  }

  function Since(outbox: seq<Event>, since: nat): seq<Event> {
    if outbox == [] then []
    else (if outbox[0].seqNo > since then [outbox[0]] else []) + Since(outbox[1..], since)
  }

  /** fetch_outbox_events_since: the events numbered above since, in order, at most limit of them. */
  function Fetch(outbox: seq<Event>, since: nat, limit: nat): seq<Event> {
    var later := Since(outbox, since);
    if |later| <= limit then later else later[..limit]
  }

  lemma {:induction false} SinceIsSuffix(outbox: seq<Event>, first: nat, since: nat)
    requires forall i | 0 <= i < |outbox| :: outbox[i].seqNo == first + i + 1
    ensures Since(outbox, since)
            == if since <= first then outbox else if since <= first + |outbox| then outbox[since - first..] else []
  {
    if outbox != [] {
      SinceIsSuffix(outbox[1..], first + 1, since);
    }
  }

  /** A page is the next stretch of the log: nothing is skipped and nothing comes twice. */
  lemma FetchIsNextPage(outbox: seq<Event>, since: nat, limit: nat)
    requires Numbered(outbox) && since <= |outbox|
    ensures Fetch(outbox, since, limit) == outbox[since..if since + limit <= |outbox| then since + limit else |outbox|]
  {
    SinceIsSuffix(outbox, 0, since);
  }

  /**
   One pull of a growing log: the page is applied event by event; only a pull that finishes
   its page saves the cursor, so a crash re-delivers on the next pull.
   */
  datatype Pull = Pull(log: seq<Event>, limit: nat, applied: nat, now: Time, newId: Id)

  datatype Consumer = Consumer(cursor: nat, deliveries: seq<Delivery>)

  function AsDeliveries(events: seq<Event>, now: Time, newId: Id): (ds: seq<Delivery>)
    ensures |ds| == |events| && forall i | 0 <= i < |ds| :: ds[i] == Delivery(events[i], now, newId)
  {
    seq(|events|, i requires 0 <= i < |events| => Delivery(events[i], now, newId))
  }

  function PullOnce(c: Consumer, p: Pull): Consumer {
    var page := Fetch(p.log, c.cursor, p.limit);
    if p.applied < |page| then
      Consumer(c.cursor, c.deliveries + AsDeliveries(page[..p.applied], p.now, p.newId))
    else
      Consumer(if page == [] then c.cursor else page[|page| - 1].seqNo,
               c.deliveries + AsDeliveries(page, p.now, p.newId))
  }

  function PullAll(ps: seq<Pull>): Consumer {
    if ps == [] then Consumer(0, []) else PullOnce(PullAll(ps[..|ps| - 1]), ps[|ps| - 1])
  }

  /** The log only grows from one pull to the next, up to its final contents. */
  ghost predicate GrowingLog(ps: seq<Pull>, log: seq<Event>) {
    && Numbered(log)
    && (forall p | p in ps :: p.log <= log)
    && (forall i, j | 0 <= i < j < |ps| :: ps[i].log <= ps[j].log)
  }

  function EventSet(events: seq<Event>): set<Event> {
    set e | e in events
  }

  lemma PrefixIsNumbered(part: seq<Event>, log: seq<Event>)
    requires Numbered(log) && part <= log
    ensures Numbered(part)
  {
    forall i | 0 <= i < |part| ensures part[i].seqNo == i + 1 { assert part[i] == log[i]; }
  }

  /** The cursor marks exactly how far the log has certainly been delivered. */
  lemma {:induction false} PullsCoverTheLog(ps: seq<Pull>, log: seq<Event>)
    requires GrowingLog(ps, log)
    ensures var c := PullAll(ps);
            && c.cursor <= |log|
            && (ps != [] ==> c.cursor <= |ps[|ps| - 1].log|)
            && EventSet(log[..c.cursor]) <= EventsOf(c.deliveries) <= EventSet(log)
  {
    if ps != [] {
      var front, p := ps[..|ps| - 1], ps[|ps| - 1];
      PullsCoverTheLog(front, log);
      var before, c := PullAll(front), PullAll(ps);
      if front != [] {
        assert ps[|front| - 1].log <= p.log;
      }
      PrefixIsNumbered(p.log, log);
      FetchIsNextPage(p.log, before.cursor, p.limit);
      PullExtends(before, p, log);
    }
  }

  lemma EventsDelivered(events: seq<Event>, now: Time, newId: Id)
    ensures EventsOf(AsDeliveries(events, now, newId)) == EventSet(events)
  {
  }

  lemma EventsOfBoth(a: seq<Delivery>, b: seq<Delivery>)
    ensures EventsOf(a + b) == EventsOf(a) + EventsOf(b)
  {
  }

  lemma StretchOf(log: seq<Event>, from: nat, to: nat)
    requires from <= to <= |log|
    ensures EventSet(log[..to]) == EventSet(log[..from]) + EventSet(log[from..to])
    ensures EventSet(log[..to]) <= EventSet(log)
  {
  }

  /** What one pull delivers is the next stretch of the log; the cursor moves to its end or not at all. */
  lemma PullOnceIs(before: Consumer, p: Pull) returns (taken: seq<Event>)
    requires before.cursor <= |p.log|
    requires Fetch(p.log, before.cursor, p.limit)
             == p.log[before.cursor..if before.cursor + p.limit <= |p.log| then before.cursor + p.limit else |p.log|]
    requires Numbered(p.log)
    ensures var c, from := PullOnce(before, p), before.cursor;
            && from + |taken| <= |p.log| && taken == p.log[from..from + |taken|]
            && c.deliveries == before.deliveries + AsDeliveries(taken, p.now, p.newId)
            && (c.cursor == from || c.cursor == from + |taken|)
  {
    var page := Fetch(p.log, before.cursor, p.limit);
    taken := if p.applied < |page| then page[..p.applied] else page;
  }

  lemma StretchExtends(ds: seq<Delivery>, log: seq<Event>, from: nat, to: nat, now: Time, newId: Id)
    requires from <= to <= |log| && EventSet(log[..from]) <= EventsOf(ds) <= EventSet(log)
    ensures var more := EventsOf(ds + AsDeliveries(log[from..to], now, newId));
            EventSet(log[..from]) <= EventSet(log[..to]) <= more <= EventSet(log)
  {
    EventsDelivered(log[from..to], now, newId);
    EventsOfBoth(ds, AsDeliveries(log[from..to], now, newId));
    StretchOf(log, from, to);
  }

  lemma PullExtends(before: Consumer, p: Pull, log: seq<Event>)
    requires Numbered(p.log) && p.log <= log && before.cursor <= |p.log|
    requires EventSet(log[..before.cursor]) <= EventsOf(before.deliveries) <= EventSet(log)
    requires Fetch(p.log, before.cursor, p.limit)
             == p.log[before.cursor..if before.cursor + p.limit <= |p.log| then before.cursor + p.limit else |p.log|]
    ensures var c := PullOnce(before, p);
            c.cursor <= |p.log| && EventSet(log[..c.cursor]) <= EventsOf(c.deliveries) <= EventSet(log)
  {
    var taken := PullOnceIs(before, p);
    var from := before.cursor;
    assert p.log[from..from + |taken|] == log[from..from + |taken|];
    StretchExtends(before.deliveries, log, from, from + |taken|, p.now, p.newId);
  }

  /** Whether an event is refused depends on the rows and the tombstoned ids only. */
  lemma SameRefusal(cfg: Config, r: Replica, batch: set<Event>, one: Replica, other: Replica, d: Delivery, e: Delivery)
    requires ValidConfig(cfg) && GoodBatch(cfg, r, batch) && d.ev in batch && d.ev == e.ev
    requires SameOthers(r.rows, one.rows)
    requires one.rows == other.rows && one.tombstones.Keys == other.tombstones.Keys && Consistent(cfg, one.rows)
    ensures GoesThrough(cfg, one, d) <==> GoesThrough(cfg, other, e)
  {
    if DeletesDevice(cfg, d.ev) {
      DeletionNeverRefused(cfg, one, d.ev, d.now, d.newId);
      DeletionNeverRefused(cfg, other, e.ev, e.now, e.newId);
    } else if Accepted(cfg, d.ev) {
      SameLanding(cfg, r.rows, one.rows, d.ev);
      WriteRefusedExactly(cfg, one, d.ev, d.now, d.newId);
      WriteRefusedExactly(cfg, other, e.ev, e.now, e.newId);
    }
  }

  /** A log whose events, applied once in order, all go through. */
  ghost predicate Sequential(cfg: Config, r: Replica, log: seq<Event>, now: Time, newId: Id)
    requires ValidConfig(cfg)
  {
    && GoodBatch(cfg, r, EventSet(log)) && DistinctWrites(cfg, r, EventSet(log))
    && AllGoThrough(cfg, r, AsDeliveries(log, now, newId))
  }

  /** The next event of the log goes through wherever exactly those before it have been delivered. */
  lemma NextGoesThrough(cfg: Config, r: Replica, log: seq<Event>, ds: seq<Delivery>, m: nat, d: Delivery, now: Time,
                        newId: Id)
    requires ValidConfig(cfg) && Sequential(cfg, r, log, now, newId) && AllGoThrough(cfg, r, ds)
    requires m < |log| && EventsOf(ds) == EventSet(log[..m]) && d.ev == log[m]
    ensures GoesThrough(cfg, Run(cfg, r, ds), d)
  {
    var batch, once := EventSet(log), AsDeliveries(log, now, newId);
    FirstGoThrough(cfg, r, once, m);
    assert once[..m] == AsDeliveries(log[..m], now, newId);
    EventsDelivered(log[..m], now, newId);
    StretchOf(log, 0, m);
    RunReaches(cfg, r, batch, once[..m]);
    RunReaches(cfg, r, batch, ds);
    ReachedIsUnique(cfg, r, batch, EventsOf(ds), Run(cfg, r, ds), Run(cfg, r, once[..m]));
    RunStaysConsistent(cfg, r, ds);
    SameRefusal(cfg, r, batch, Run(cfg, r, ds), Run(cfg, r, once[..m]), d, once[m]);
  }

  /** An event of the log that was delivered before goes through again. */
  lemma RepeatGoesThrough(cfg: Config, r: Replica, batch: set<Event>, ds: seq<Delivery>, d: Delivery)
    requires ValidConfig(cfg) && GoodBatch(cfg, r, batch) && EventsOf(ds) <= batch && AllGoThrough(cfg, r, ds)
    requires d.ev in EventsOf(ds)
    ensures GoesThrough(cfg, Run(cfg, r, ds), d)
  {
    RunReaches(cfg, r, batch, ds);
    RunStaysConsistent(cfg, r, ds);
    if Accepted(cfg, d.ev) {
      SeenIsSourced(cfg, r, batch, EventsOf(ds), d.ev);
      SourcedGoesThroughExactly(cfg, r, batch, EventsOf(ds), Run(cfg, r, ds), d);
    }
  }

  /** Delivering an event that is next in the log, or was delivered before, goes through. */
  lemma OneMoreGoesThrough(cfg: Config, r: Replica, log: seq<Event>, ds: seq<Delivery>, m: nat, i: nat, d: Delivery,
                           now: Time, newId: Id)
    requires ValidConfig(cfg) && Sequential(cfg, r, log, now, newId) && AllGoThrough(cfg, r, ds)
    requires i <= m <= |log| && i < |log| && EventsOf(ds) == EventSet(log[..m]) && d.ev == log[i]
    ensures AllGoThrough(cfg, r, ds + [d]) && EventsOf(ds + [d]) == EventSet(log[..if i < m then m else i + 1])
  {
    assert (ds + [d])[..|ds|] == ds;
    EventsOfOneMore(ds + [d]);
    StretchOf(log, 0, m);
    if i < m {
      assert log[..m][i] == d.ev;
      RepeatGoesThrough(cfg, r, EventSet(log), ds, d);
    } else {
      NextGoesThrough(cfg, r, log, ds, m, d, now, newId);
      assert log[..m + 1] == log[..m] + [d.ev];
    }
  }

  lemma DeliveriesOfOneMore(log: seq<Event>, ds: seq<Delivery>, from: nat, n: nat, now: Time, newId: Id)
    requires 0 < n && from + n <= |log|
    ensures ds + AsDeliveries(log[from..from + n], now, newId)
            == ds + AsDeliveries(log[from..from + n - 1], now, newId) + [Delivery(log[from + n - 1], now, newId)]
  {
  }

  /** Delivering a stretch of the log that starts within what has been delivered goes through. */
  lemma {:induction false} StretchGoesThrough(cfg: Config, r: Replica, log: seq<Event>, ds: seq<Delivery>, m: nat,
                                              from: nat, n: nat, p: Pull, now: Time, newId: Id)
    requires ValidConfig(cfg) && Sequential(cfg, r, log, now, newId) && AllGoThrough(cfg, r, ds)
    requires from <= m <= |log| && from + n <= |log| && EventsOf(ds) == EventSet(log[..m])
    ensures var more := ds + AsDeliveries(log[from..from + n], p.now, p.newId);
            && AllGoThrough(cfg, r, more)
            && EventsOf(more) == EventSet(log[..if from + n <= m then m else from + n])
  {
    if n == 0 {
      assert ds + AsDeliveries(log[from..from], p.now, p.newId) == ds;
    } else {
      StretchGoesThrough(cfg, r, log, ds, m, from, n - 1, p, now, newId);
      var most := ds + AsDeliveries(log[from..from + n - 1], p.now, p.newId);
      var reached := if from + n - 1 <= m then m else from + n - 1;
      OneMoreGoesThrough(cfg, r, log, most, reached, from + n - 1, Delivery(log[from + n - 1], p.now, p.newId), now,
                         newId);
      DeliveriesOfOneMore(log, ds, from, n, p.now, p.newId);
    }
  }

  /** What one pull of a part of the log delivers, as a stretch of the log. */
  lemma PullTakes(before: Consumer, p: Pull, log: seq<Event>) returns (n: nat)
    requires Numbered(p.log) && p.log <= log && before.cursor <= |p.log|
    ensures var c, from := PullOnce(before, p), before.cursor;
            && from + n <= |log|
            && c.deliveries == before.deliveries + AsDeliveries(log[from..from + n], p.now, p.newId)
            && (c.cursor == from || c.cursor == from + n)
  {
    FetchIsNextPage(p.log, before.cursor, p.limit);
    var taken := PullOnceIs(before, p);
    n := |taken|;
    assert taken == log[before.cursor..before.cursor + n];
  }

  lemma OnePullGoesThrough(cfg: Config, r: Replica, before: Consumer, p: Pull, log: seq<Event>, m: nat, now: Time,
                           newId: Id)
    returns (m': nat)
    requires ValidConfig(cfg) && Sequential(cfg, r, log, now, newId) && AllGoThrough(cfg, r, before.deliveries)
    requires Numbered(p.log) && p.log <= log && before.cursor <= |p.log|
    requires before.cursor <= m <= |log| && EventsOf(before.deliveries) == EventSet(log[..m])
    ensures var c := PullOnce(before, p);
            c.cursor <= m' <= |log| && EventsOf(c.deliveries) == EventSet(log[..m'])
            && AllGoThrough(cfg, r, c.deliveries)
  {
    var n := PullTakes(before, p, log);
    m' := if before.cursor + n <= m then m else before.cursor + n;
    TakenGoesThrough(cfg, r, before, PullOnce(before, p), n, p, log, m, now, newId);
  }

  /** A consumer that has taken n events from its cursor on has taken as much of the log as that reaches, or more. */
  lemma TakenGoesThrough(cfg: Config, r: Replica, before: Consumer, c: Consumer, n: nat, p: Pull, log: seq<Event>,
                         m: nat, now: Time, newId: Id)
    requires ValidConfig(cfg) && Sequential(cfg, r, log, now, newId) && AllGoThrough(cfg, r, before.deliveries)
    requires before.cursor <= m <= |log| && before.cursor + n <= |log|
    requires EventsOf(before.deliveries) == EventSet(log[..m])
    requires c.deliveries == before.deliveries + AsDeliveries(log[before.cursor..before.cursor + n], p.now, p.newId)
    requires c.cursor == before.cursor || c.cursor == before.cursor + n
    ensures var m' := if before.cursor + n <= m then m else before.cursor + n;
            c.cursor <= m' && EventsOf(c.deliveries) == EventSet(log[..m']) && AllGoThrough(cfg, r, c.deliveries)
  {
    StretchGoesThrough(cfg, r, log, before.deliveries, m, before.cursor, n, p, now, newId);
  }

  lemma PullStartsWithin(ps: seq<Pull>, log: seq<Event>)
    requires GrowingLog(ps, log) && ps != []
    ensures var front, p := ps[..|ps| - 1], ps[|ps| - 1];
            GrowingLog(front, log) && Numbered(p.log) && p.log <= log && PullAll(front).cursor <= |p.log|
  {
    var front, p := ps[..|ps| - 1], ps[|ps| - 1];
    PullsCoverTheLog(front, log);
    if front != [] {
      assert ps[|front| - 1].log <= p.log;
    }
    PrefixIsNumbered(p.log, log);
  }

  /** Pulling never runs into a refusal, and has delivered a first part of the log, at least up to the cursor. */
  lemma {:induction false} PullsGoThrough(cfg: Config, r: Replica, ps: seq<Pull>, log: seq<Event>, now: Time, newId: Id)
    returns (m: nat)
    requires ValidConfig(cfg) && GrowingLog(ps, log) && Sequential(cfg, r, log, now, newId)
    ensures var c := PullAll(ps);
            c.cursor <= m <= |log| && EventsOf(c.deliveries) == EventSet(log[..m]) && AllGoThrough(cfg, r, c.deliveries)
  {
    m := 0;
    if ps != [] {
      PullStartsWithin(ps, log);
      m := PullsGoThrough(cfg, r, ps[..|ps| - 1], log, now, newId);
      m := OnePullGoesThrough(cfg, r, PullAll(ps[..|ps| - 1]), ps[|ps| - 1], log, m, now, newId);
    }
  }

  /**
   At-least-once pulling is exact: whatever the page sizes, crashes and re-pulls, once the cursor
   has reached the end of a log that goes through when applied once in order, no pull was refused
   anything and the replica is the one that applies the log once.
   */
  lemma PullingIsExact(cfg: Config, r: Replica, ps: seq<Pull>, log: seq<Event>, now: Time, newId: Id)
    requires ValidConfig(cfg) && GrowingLog(ps, log) && PullAll(ps).cursor == |log|
    requires Sequential(cfg, r, log, now, newId)
    ensures var pulled := Run(cfg, r, PullAll(ps).deliveries);
            var once := Run(cfg, r, AsDeliveries(log, now, newId));
            && AllGoThrough(cfg, r, PullAll(ps).deliveries)
            && pulled.rows == once.rows && pulled.tombstones.Keys == once.tombstones.Keys
  {
    var m := PullsGoThrough(cfg, r, ps, log, now, newId);
    assert log[..|log|] == log;
    EventsDelivered(log, now, newId);
    ReplicasConverge(cfg, r, PullAll(ps).deliveries, AsDeliveries(log, now, newId));
  }

  // ---------- a network of hubs ----------

  /** One hub; seen is the history of every event whose effect its rows carry. */
  datatype Hub = Hub(cfg: Config, replica: Replica, outbox: seq<Event>, cursors: map<Id, nat>, seen: set<Event>)

  type Network = map<Id, Hub>

  datatype Action =
    | PullFrom(hub: Id, peer: Id, limit: nat, applied: nat, now: Time, newId: Id)
    | WriteDevice(hub: Id, row: Columns, id: Id, now: Time)
    | DeleteDevice(hub: Id, id: Id, now: Time)

  function CursorOf(h: Hub, peer: Id): nat {
    if peer in h.cursors then h.cursors[peer] else 0
  }

  /** Each event in its own transaction; a refused one leaves the replica as it was. */
  function Receive(h: Hub, events: seq<Event>, now: Time, newId: Id): (h': Hub)
    requires ValidConfig(h.cfg)
    ensures h'.outbox == h.outbox && h'.cursors == h.cursors && h'.cfg == h.cfg
    decreases |events|
  {
    if events == [] then h
    else Receive(h.(replica := Apply(h.cfg, h.replica, events[0], now, newId).replica, seen := h.seen + {events[0]}),
                 events[1..], now, newId)
  }

  /** The events of its page that a pull gets to apply before it ends or crashes. */
  function TakenBy(h: Hub, peer: Id, outbox: seq<Event>, a: Action): seq<Event>
    requires a.PullFrom?
  {
    var page := Fetch(outbox, CursorOf(h, peer), a.limit);
    if a.applied < |page| then page[..a.applied] else page
  }

  /** Only a pull that applied its whole page saves the cursor. */
  function PullStep(h: Hub, peer: Id, outbox: seq<Event>, a: Action): Hub
    requires ValidConfig(h.cfg) && a.PullFrom?
  {
    var page := Fetch(outbox, CursorOf(h, peer), a.limit);
    var h' := Receive(h, TakenBy(h, peer, outbox, a), a.now, a.newId);
    if a.applied < |page| || page == [] then h' else h'.(cursors := h'.cursors[peer := page[|page| - 1].seqNo])
  }

  /** What a local write of a device does: the row, and its event in the outbox. */
  function WriteStep(h: Hub, id: Id, row: Columns, now: Time): Hub {
    var e := Entity(Device, id);
    var rows := h.replica.rows[e := row];
    var ev := WriteEvent(|h.outbox| + 1, rows, e, row, now);
    h.(replica := h.replica.(rows := rows), outbox := h.outbox + [ev], seen := h.seen + {ev})
  }

  function DeleteStep(h: Hub, id: Id, now: Time): Hub {
    var e := Entity(Device, id);
    var ev := DeleteEvent(|h.outbox| + 1, e, now);
    h.(replica := h.replica.(rows := Removed(h.replica.rows, e)), outbox := h.outbox + [ev], seen := h.seen + {ev})
  }

  ghost predicate ValidNetwork(net: Network) {
    forall h | h in net ::
      && ValidConfig(net[h].cfg)
      && Numbered(net[h].outbox)
      && (forall p | p in net :: CursorOf(net[h], p) <= |net[p].outbox|)
  }

  ghost predicate Enabled(net: Network, a: Action) {
    && a.hub in net
    && (a.PullFrom? ==> a.peer in net && a.peer != a.hub)
  }

  function Next(net: Network, a: Action): Network
    requires ValidNetwork(net) && Enabled(net, a)
  {
    var h := net[a.hub];
    match a
    case PullFrom(_, peer, _, _, _, _) => net[a.hub := PullStep(h, peer, net[peer].outbox, a)]
    case WriteDevice(_, row, id, now) => net[a.hub := WriteStep(h, id, row, now)]
    case DeleteDevice(_, id, now) => net[a.hub := DeleteStep(h, id, now)]
  }

  // ---------- quiescence ----------

  /** How many events of the peer the hub has not taken yet. */
  function Lag(net: Network, hub: Id, peer: Id): int
    requires hub in net && peer in net
  {
    |net[peer].outbox| - CursorOf(net[hub], peer)
  }

  /** The events still to take over a list of (hub, peer) links. */
  function Backlog(net: Network, links: seq<(Id, Id)>): int
    requires forall l | l in links :: l.0 in net && l.1 in net
  {
    if links == [] then 0 else Lag(net, links[0].0, links[0].1) + Backlog(net, links[1..])
  }

  /** A pull moves its own cursor, to the end of the page if it completes, and nothing else of the hub's links. */
  lemma PullMovesCursor(h: Hub, peer: Id, outbox: seq<Event>, a: Action)
    requires ValidConfig(h.cfg) && a.PullFrom? && Numbered(outbox) && CursorOf(h, peer) <= |outbox|
    ensures var after := PullStep(h, peer, outbox, a);
            var page := Fetch(outbox, CursorOf(h, peer), a.limit);
            && after.cfg == h.cfg && after.outbox == h.outbox
            && CursorOf(after, peer) == CursorOf(h, peer) + (if a.applied < |page| then 0 else |page|) <= |outbox|
            && forall p | p != peer :: CursorOf(after, p) == CursorOf(h, p)
  {
    FetchIsNextPage(outbox, CursorOf(h, peer), a.limit);
  }

  /** A pull takes its page off its own link and touches no outbox and no other link. */
  lemma PullMovesOneLink(net: Network, a: Action)
    requires ValidNetwork(net) && Enabled(net, a) && a.PullFrom?
    ensures var after := Next(net, a);
            var page := Fetch(net[a.peer].outbox, CursorOf(net[a.hub], a.peer), a.limit);
            && ValidNetwork(after) && after.Keys == net.Keys
            && (forall h | h in net :: after[h].outbox == net[h].outbox)
            && Lag(after, a.hub, a.peer) == Lag(net, a.hub, a.peer) - (if a.applied < |page| then 0 else |page|)
            && (forall h, p | h in net && p in net && (h, p) != (a.hub, a.peer) :: Lag(after, h, p) == Lag(net, h, p))
  {
    PullMovesCursor(net[a.hub], a.peer, net[a.peer].outbox, a);
  }

  lemma {:induction false} BacklogAfterPull(net: Network, a: Action, links: seq<(Id, Id)>)
    requires ValidNetwork(net) && Enabled(net, a) && a.PullFrom?
    requires forall l | l in links :: l.0 in net && l.1 in net
    requires forall i, j | 0 <= i < j < |links| :: links[i] != links[j]
    ensures Next(net, a).Keys == net.Keys
    ensures Backlog(Next(net, a), links) == Backlog(net, links)
            - (if (a.hub, a.peer) in links then Lag(net, a.hub, a.peer) - Lag(Next(net, a), a.hub, a.peer) else 0)
  {
    PullMovesOneLink(net, a);
    if links != [] {
      BacklogAfterPull(net, a, links[1..]);
      if links[0] == (a.hub, a.peer) {
        assert (a.hub, a.peer) !in links[1..];
      } else {
        assert (a.hub, a.peer) in links <==> (a.hub, a.peer) in links[1..];
      }
    }
  }

  /** A pull that takes something: the peer is ahead, the page is not empty, and it completes. */
  ghost predicate Productive(net: Network, a: Action) {
    && Enabled(net, a) && a.PullFrom?
    && CursorOf(net[a.hub], a.peer) < |net[a.peer].outbox|
    && 1 <= a.limit <= a.applied
  }

  ghost predicate ProductiveRun(net: Network, actions: seq<Action>)
    requires ValidNetwork(net)
    decreases actions
  {
    actions != [] ==>
      && Productive(net, actions[0])
      && (PullMovesOneLink(net, actions[0]); ProductiveRun(Next(net, actions[0]), actions[1..]))
  }

  ghost function EndOfRun(net: Network, actions: seq<Action>): Network
    requires ValidNetwork(net) && ProductiveRun(net, actions)
    decreases actions
  {
    if actions == [] then net
    else
      PullMovesOneLink(net, actions[0]);
      EndOfRun(Next(net, actions[0]), actions[1..])
  }

  ghost predicate AllLinks(net: Network, links: seq<(Id, Id)>) {
    && (forall l | l in links :: l.0 in net && l.1 in net && l.0 != l.1)
    && (forall h, p | h in net && p in net && h != p :: (h, p) in links)
    && (forall i, j | 0 <= i < j < |links| :: links[i] != links[j])
  }

  lemma {:induction false} BacklogIsNatural(net: Network, links: seq<(Id, Id)>)
    requires ValidNetwork(net) && forall l | l in links :: l.0 in net && l.1 in net
    ensures Backlog(net, links) >= 0
    ensures Backlog(net, links) == 0 <==> forall l | l in links :: Lag(net, l.0, l.1) == 0
  {
    if links != [] {
      BacklogIsNatural(net, links[1..]);
      assert forall l | l in links :: l == links[0] || l in links[1..];
    }
  }

  /**
   Quiescence: with no local edits, applying peer events grows no outbox, every productive pull
   shrinks the total backlog, so no run has more productive pulls than the backlog it started
   with, and a run that cannot go on has taken everything.
   */
  lemma {:induction false} PullingTerminates(net: Network, actions: seq<Action>, links: seq<(Id, Id)>)
    requires ValidNetwork(net) && AllLinks(net, links) && ProductiveRun(net, actions)
    ensures var end := EndOfRun(net, actions);
            && ValidNetwork(end) && end.Keys == net.Keys
            && (forall h | h in net :: end[h].outbox == net[h].outbox)
            && Backlog(end, links) + |actions| <= Backlog(net, links)
            && ((forall a :: !Productive(end, a)) <==> Backlog(end, links) == 0)
    decreases actions
  {
    if actions == [] {
      QuietExactly(net, links);
    } else {
      ProductiveShrinks(net, actions[0], links);
      PullingTerminates(Next(net, actions[0]), actions[1..], links);
    }
  }

  /** Nothing is left to pull exactly when the backlog is zero. */
  lemma QuietExactly(net: Network, links: seq<(Id, Id)>)
    requires ValidNetwork(net) && AllLinks(net, links)
    ensures (forall a :: !Productive(net, a)) <==> Backlog(net, links) == 0
  {
    BacklogIsNatural(net, links);
    if Backlog(net, links) != 0 {
      var l :| l in links && Lag(net, l.0, l.1) != 0;
      assert Productive(net, PullFrom(l.0, l.1, 1, 1, 0, ""));
    } else {
      forall a ensures !Productive(net, a) {
        if Enabled(net, a) && a.PullFrom? {
          assert (a.hub, a.peer) in links;
          assert Lag(net, (a.hub, a.peer).0, (a.hub, a.peer).1) == 0;
        }
      }
    }
  }

  lemma ProductiveShrinks(net: Network, a: Action, links: seq<(Id, Id)>)
    requires ValidNetwork(net) && AllLinks(net, links) && Productive(net, a)
    ensures ValidNetwork(Next(net, a)) && Next(net, a).Keys == net.Keys
    ensures Backlog(Next(net, a), links) < Backlog(net, links)
    ensures forall h | h in net :: Next(net, a)[h].outbox == net[h].outbox
  {
    PullMovesOneLink(net, a);
    FetchIsNextPage(net[a.peer].outbox, CursorOf(net[a.hub], a.peer), a.limit);
    BacklogAfterPull(net, a, links);
    assert (a.hub, a.peer) in links;
  }
}
