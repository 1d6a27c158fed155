/** The command queue: rows are appended, handed out, reported on, cancelled and expired. */
module Commands {
  import opened Common
  import opened JsonValues
  import opened CommandPayloads

  datatype Status = Pending | Accepted | Running | Completed | Failed | Expired | Cancelled

  datatype Command = Command(
    device: Id, group: Option<Id>, kind: string, payload: Fields, status: Status,
    expiresAt: Time, deliveredAt: Option<Time>, ackAt: Option<Time>, completedAt: Option<Time>)

  datatype Target = Target(guarded: bool, heldOff: bool)

  /** The commands in the order they were created, and the devices they may be for. */
  datatype Queue = Queue(cmds: seq<Command>, devices: map<Id, Target>)

  const POWER: set<string> := {"relay_on", "relay_off", "relay_toggle", "relay_cycle", "device_restart"}
  const POWER_ON: set<string> := {"relay_on", "relay_toggle", "relay_cycle"}
  const DEFAULT_TTL: int := 600
  const GRACE: int := 10 * SECOND

  datatype Refusal = Unsupported | BadPayload | NoDevice | DeviceLocked

  datatype Order = Order(kind: string, payload: Fields, ttl: Option<int>, override: bool)

  function Expiry(order: Order, now: Time): Time {
    now + (if order.ttl.Some? && order.ttl.value != 0 then order.ttl.value else DEFAULT_TTL) * SECOND
  }

  function NewCommand(device: Id, group: Option<Id>, order: Order, payload: Fields, now: Time): Command {
    Command(device, group, order.kind, payload, Pending, Expiry(order, now), None, None, None)
  }

  /** A protected device takes no power command unless overridden. */
  predicate LockedOut(q: Queue, device: Id, order: Order)
    requires device in q.devices
  {
    order.kind in POWER && q.devices[device].guarded && !order.override
  }

  // ---------- enqueue ----------

  function EnqueueCheck(q: Queue, device: Id, order: Order): Option<Refusal> {
    if order.kind !in TYPES then Some(Unsupported)
    else if Validate(order.kind, order.payload).None? then Some(BadPayload)
    else if device !in q.devices then Some(NoDevice)
    else if LockedOut(q, device, order) then Some(DeviceLocked)
    else None
  }

  /** Ordering a device on again is what lifts its hold-off. */
  function Held(t: Target, order: Order, hold: bool): Target {
    t.(heldOff := if hold then true else t.heldOff && order.kind !in POWER_ON)
  }

  function Enqueued(q: Queue, device: Id, order: Order, hold: bool, now: Time): Queue {
    if EnqueueCheck(q, device, order).Some? then q
    else Queue(q.cmds + [NewCommand(device, None, order, Validate(order.kind, order.payload).value, now)],
               q.devices[device := Held(q.devices[device], order, hold)])
  }

  /** The members of one fate, in order: missing rows, locked-out devices, or those commanded. */
  datatype Fate = Missing | Skipped | Commanded

  function FateOf(q: Queue, device: Id, order: Order): Fate {
    if device !in q.devices then Missing else if LockedOut(q, device, order) then Skipped else Commanded
  }

  function WithFate(q: Queue, members: seq<Id>, order: Order, fate: Fate): seq<Id> {
    if members == [] then []
    else WithFate(q, members[..|members| - 1], order, fate)
         + if FateOf(q, members[|members| - 1], order) == fate then [members[|members| - 1]] else []
  }

  function Fanned(q: Queue, group: Id, members: seq<Id>, order: Order, payload: Fields, now: Time): Queue {
    var chosen := WithFate(q, members, order, Commanded);
    Queue(q.cmds + seq(|chosen|,
                       i requires 0 <= i < |chosen| => NewCommand(chosen[i], Some(group), order, payload, now)),
          map d | d in q.devices :: if d in chosen then Held(q.devices[d], order, false) else q.devices[d])
  }

  lemma {:induction false} FanOutSortsByFate(q: Queue, members: seq<Id>, order: Order, fate: Fate, d: Id)
    ensures d in WithFate(q, members, order, fate) <==> d in members && FateOf(q, d, order) == fate
  {
    if members != [] {
      var n := |members| - 1;
      FanOutSortsByFate(q, members[..n], order, fate, d);
      assert d in members <==> d in members[..n] || d == members[n];
    }
  }

  /** Fan-out accounts for every member once: commanded, skipped as locked, or gone. */
  lemma {:induction false} FanOutAccountsForEveryMember(q: Queue, members: seq<Id>, order: Order)
    ensures |WithFate(q, members, order, Commanded)| + |WithFate(q, members, order, Skipped)|
            + |WithFate(q, members, order, Missing)| == |members|
  {
    if members != [] {
      FanOutAccountsForEveryMember(q, members[..|members| - 1], order);
    }
  }

  // ---------- hand-off ----------

  predicate Live(c: Command) {
    c.status in {Pending, Accepted, Running}
  }

  predicate Eligible(c: Command, device: Id, now: Time, grace: Option<int>) {
    && c.device == device && Live(c) && now < c.expiresAt
    && (grace.Some? && c.deliveredAt.Some? ==> c.deliveredAt.value <= now - grace.value)
  }

  /** The rows a poll returns, oldest first. */
  function Handed(cmds: seq<Command>, device: Id, now: Time, grace: Option<int>): (rows: seq<nat>)
    ensures forall i: nat :: i in rows <==> i < |cmds| && Eligible(cmds[i], device, now, grace)
    ensures forall a, b | 0 <= a < b < |rows| :: rows[a] < rows[b]
  {
    if cmds == [] then []
    else
      var n := |cmds| - 1;
      var earlier := Handed(cmds[..n], device, now, grace);
      assert forall a | 0 <= a < |earlier| :: earlier[a] in earlier;
      earlier + if Eligible(cmds[n], device, now, grace) then [n] else []
  }

  /** Only a pending row is stamped; a repeated hand-off keeps the first time. */
  function Stamped(c: Command, now: Time): Command {
    if c.status == Pending then c.(status := Accepted, deliveredAt := Some(now)) else c
  }

  function Delivered(cmds: seq<Command>, rows: seq<nat>, now: Time): seq<Command> {
    seq(|cmds|, i requires 0 <= i < |cmds| => if i in rows then Stamped(cmds[i], now) else cmds[i])
  }

  // ---------- cancel, report, expire ----------

  function CancelledQueue(q: Queue, i: nat, now: Time): Queue {
    if i < |q.cmds| && q.cmds[i].status == Pending
    then q.(cmds := q.cmds[i := q.cmds[i].(status := Cancelled, completedAt := Some(now))]) else q
  }

  /** The statuses a device may report. */
  predicate Reportable(s: Status) {
    s !in {Pending, Cancelled}
  }

  predicate Reports(q: Queue, device: Id, i: nat, status: Status) {
    Reportable(status) && i < |q.cmds| && q.cmds[i].device == device
  }

  function Reported(q: Queue, device: Id, i: nat, status: Status, completed: Option<Time>, now: Time): Queue {
    if !Reports(q, device, i, status) then q
    else
      var c := q.cmds[i];
      q.(cmds := q.cmds[i := c.(status := status, completedAt := Some(if completed.Some? then completed.value else now),
                                 ackAt := Some(if c.ackAt.Some? then c.ackAt.value else now))])
  }

  function Lapsed(c: Command, now: Time): Command {
    if Live(c) && c.expiresAt <= now then c.(status := Expired) else c
  }

  function Swept(q: Queue, now: Time): Queue {
    q.(cmds := seq(|q.cmds|, i requires 0 <= i < |q.cmds| => Lapsed(q.cmds[i], now)))
  }

  // ---------- the service ----------

  class CommandService {
    var cmds: seq<Command>
    var devices: map<Id, Target>

    function Tables(): Queue
      reads this
    {
      Queue(cmds, devices)
    }

    constructor (devices: map<Id, Target>)
      ensures Tables() == Queue([], devices)
    {
      cmds, this.devices := [], devices;
    }

    method EnqueueForDevice(device: Id, order: Order, hold: bool, now: Time) returns (refused: Option<Refusal>)
      modifies this
      ensures refused == EnqueueCheck(old(Tables()), device, order)
      ensures Tables() == Enqueued(old(Tables()), device, order, hold, now)
    {
      if order.kind !in TYPES {
        return Some(Unsupported);
      }
      var payload := Validate(order.kind, order.payload);
      if payload.None? {
        return Some(BadPayload);
      }
      if device !in devices {
        return Some(NoDevice);
      }
      if order.kind in POWER && devices[device].guarded && !order.override {
        return Some(DeviceLocked);
      }
      if hold {
        devices := devices[device := devices[device].(heldOff := true)];
      } else if order.kind in POWER_ON && devices[device].heldOff {
        devices := devices[device := devices[device].(heldOff := false)];
      }
      cmds := cmds + [NewCommand(device, None, order, payload.value, now)];
      return None;
    }

    /** One member of a group: command it, skip it as locked, or pass over a missing row. */
    method CommandMember(device: Id, group: Id, order: Order, payload: Fields, now: Time) returns (fate: Fate)
      modifies this`devices
      ensures fate == FateOf(old(Tables()), device, order)
      ensures devices == if fate == Commanded then old(devices)[device := Held(old(devices)[device], order, false)]
                         else old(devices)
    {
      if device !in devices {
        return Missing;
      }
      if order.kind in POWER && devices[device].guarded && !order.override {
        return Skipped;
      }
      if order.kind in POWER_ON && devices[device].heldOff {
        devices := devices[device := devices[device].(heldOff := false)];
      }
      return Commanded;
    }

    /** Fan a validated order out over a group, in one transaction. */
    method EnqueueForMembers(group: Id, members: seq<Id>, order: Order, payload: Fields, now: Time)
      returns (created: seq<Command>, skipped: seq<Id>)
      modifies this
      ensures Tables() == Fanned(old(Tables()), group, members, order, payload, now)
      ensures cmds == old(cmds) + created
      ensures skipped == WithFate(old(Tables()), members, order, Skipped)
    {
      created, skipped := [], [];
      ghost var q := Tables();
      ghost var chosen := [];
      for k := 0 to |members|
        invariant cmds == q.cmds && devices.Keys == q.devices.Keys
        invariant skipped == WithFate(q, members[..k], order, Skipped)
        invariant chosen == WithFate(q, members[..k], order, Commanded)
        invariant created ==
                  seq(|chosen|, i requires 0 <= i < |chosen| => NewCommand(chosen[i], Some(group), order, payload, now))
        invariant forall d | d in devices ::
                    devices[d] == if d in chosen then Held(q.devices[d], order, false) else q.devices[d]
      {
        assert members[..k + 1][..k] == members[..k];
        var fate := CommandMember(members[k], group, order, payload, now);
        if fate == Skipped {
          skipped := skipped + [members[k]];
        } else if fate == Commanded {
          chosen := chosen + [members[k]];
          created := created + [NewCommand(members[k], Some(group), order, payload, now)];
        }
      }
      assert members[..|members|] == members;
      cmds := cmds + created;
    }

    method EnqueueForGroup(group: Id, members: seq<Id>, order: Order, now: Time)
      returns (refused: Option<Refusal>, created: seq<Command>, skipped: seq<Id>)
      modifies this
      ensures refused.None? <==> order.kind in TYPES && Validate(order.kind, order.payload).Some?
      ensures refused.Some? ==> Tables() == old(Tables()) && created == [] && skipped == []
      ensures refused.None? ==>
                && Tables() == Fanned(old(Tables()), group, members, order,
                                      Validate(order.kind, order.payload).value, now)
                && cmds == old(cmds) + created
                && skipped == WithFate(old(Tables()), members, order, Skipped)
    {
      if order.kind !in TYPES {
        return Some(Unsupported), [], [];
      }
      var payload := Validate(order.kind, order.payload);
      if payload.None? {
        return Some(BadPayload), [], [];
      }
      created, skipped := EnqueueForMembers(group, members, order, payload.value, now);
      refused := None;
    }

    method CancelPendingCommand(i: nat, now: Time) returns (cancelled: bool)
      modifies this`cmds
      ensures Tables() == CancelledQueue(old(Tables()), i, now)
      ensures cancelled == (i < |old(cmds)| && old(cmds)[i].status == Pending)
    {
      if i >= |cmds| || cmds[i].status != Pending {
        return false;
      }
      cmds := cmds[i := cmds[i].(status := Cancelled, completedAt := Some(now))];
      return true;
    }

    method ListPendingForDevice(device: Id, mark: bool, grace: Option<int>, now: Time) returns (rows: seq<nat>)
      modifies this`cmds
      ensures rows == Handed(old(cmds), device, now, grace)
      ensures cmds == if mark then Delivered(old(cmds), rows, now) else old(cmds)
    {
      rows := [];
      for i := 0 to |cmds|
        invariant rows == Handed(cmds[..i], device, now, grace)
      {
        assert cmds[..i + 1][..i] == cmds[..i];
        if Eligible(cmds[i], device, now, grace) {
          rows := rows + [i];
        }
      }
      assert cmds[..|cmds|] == cmds;
      if mark {
        MarkDelivered(rows, now);
      }
    }

    /** Stamp the rows of a hand-off that are still pending. */
    method MarkDelivered(rows: seq<nat>, now: Time)
      requires forall i | i in rows :: i < |cmds|
      modifies this`cmds
      ensures cmds == Delivered(old(cmds), rows, now)
    {
      ghost var before := cmds;
      for k := 0 to |rows|
        invariant |cmds| == |before|
        invariant forall i | 0 <= i < |cmds| :: cmds[i] == if i in rows[..k] then Stamped(before[i], now) else before[i]
      {
        assert rows[k] in rows && rows[..k + 1] == rows[..k] + [rows[k]];
        if cmds[rows[k]].status == Pending {
          cmds := cmds[rows[k] := cmds[rows[k]].(status := Accepted, deliveredAt := Some(now))];
        }
      }
      assert rows[..|rows|] == rows;
    }

    method RecordResult(device: Id, i: nat, status: Status, completed: Option<Time>, now: Time) returns (ok: bool)
      modifies this`cmds
      ensures Tables() == Reported(old(Tables()), device, i, status, completed, now)
      ensures ok == Reports(old(Tables()), device, i, status)
    {
      if !Reportable(status) || i >= |cmds| || cmds[i].device != device {
        return false;
      }
      var c := cmds[i];
      if c.ackAt.None? {
        c := c.(ackAt := Some(now));
      }
      cmds := cmds[i := c.(status := status, completedAt := Some(if completed.Some? then completed.value else now))];
      return true;
    }

    method ExpireOverdueCommands(now: Time) returns (count: nat)
      modifies this`cmds
      ensures Tables() == Swept(old(Tables()), now)
      ensures count == |set i | 0 <= i < |old(cmds)| && Live(old(cmds)[i]) && old(cmds)[i].expiresAt <= now|
    {
      ghost var before := cmds;
      ghost var hit: set<int> := {};
      count := 0;
      for i := 0 to |cmds|
        invariant |cmds| == |before|
        invariant forall j | 0 <= j < |cmds| :: cmds[j] == if j < i then Lapsed(before[j], now) else before[j]
        invariant hit == set j | 0 <= j < i && Live(before[j]) && before[j].expiresAt <= now
        invariant count == |hit|
      {
        if Live(cmds[i]) && cmds[i].expiresAt <= now {
          cmds := cmds[i := cmds[i].(status := Expired)];
          count := count + 1;
          hit := hit + {i};
        }
      }
    }
  }
}
