/**
 Hand-offs over whole runs: orders, cancels, heartbeats and polls, results and expiry in any order,
 each as one transaction with nothing in between.
 */
module CommandRuns {
  import opened Common
  import opened CommandPayloads
  import opened Commands

  /** One answered heartbeat or poll: the rows it carried. */
  datatype Batch = Batch(rows: seq<nat>, at: Time)

  datatype Hub = Hub(q: Queue, log: seq<Batch>)

  datatype Act =
    | Enqueue(device: Id, order: Order, hold: bool, at: Time)
    | FanOut(group: Id, members: seq<Id>, order: Order, at: Time)
    | Cancel(cmd: nat, at: Time)
    | Deliver(device: Id, at: Time)
    | Report(device: Id, cmd: nat, status: Status, completed: Option<Time>, at: Time)
    | Sweep(at: Time)

  function Step(h: Hub, act: Act): Hub {
    match act
    case Enqueue(device, order, hold, t) => h.(q := Enqueued(h.q, device, order, hold, t))
    case FanOut(group, members, order, t) =>
      if order.kind in TYPES && Validate(order.kind, order.payload).Some?
      then h.(q := Fanned(h.q, group, members, order, Validate(order.kind, order.payload).value, t)) else h
    case Cancel(i, t) => h.(q := CancelledQueue(h.q, i, t))
    case Deliver(device, t) =>
      var rows := Handed(h.q.cmds, device, t, Some(GRACE));
      Hub(h.q.(cmds := Delivered(h.q.cmds, rows, t)), h.log + [Batch(rows, t)])
    case Report(device, i, status, completed, t) => h.(q := Reported(h.q, device, i, status, completed, t))
    case Sweep(t) => h.(q := Swept(h.q, t))
  }

  predicate WasHanded(log: seq<Batch>, i: nat) {
    exists k :: 0 <= k < |log| && i in log[k].rows
  }

  /** Devices report only on commands they were handed. */
  predicate Honest(h: Hub, act: Act) {
    act.Report? ==> WasHanded(h.log, act.cmd)
  }

  /** Batch k is the first that carried command i; the later ones that did came a grace period after. */
  predicate FirstHandOff(log: seq<Batch>, i: nat, k: nat) {
    && k < |log|
    && i in log[k].rows
    && (forall j | 0 <= j < k :: i !in log[j].rows)
    && (forall j | k < j < |log| && i in log[j].rows :: log[j].at >= log[k].at + GRACE)
  }

  ghost predicate CommandOk(c: Command, log: seq<Batch>, i: nat) {
    && (c.status == Pending || c.status == Cancelled ==> c.deliveredAt.None?)
    && (c.deliveredAt.None? ==> c.status in {Pending, Cancelled, Expired} && !WasHanded(log, i))
    && (c.deliveredAt.Some? ==> exists k: nat :: FirstHandOff(log, i, k) && log[k].at == c.deliveredAt.value)
  }

  ghost predicate Inv(h: Hub) {
    && (forall i | 0 <= i < |h.q.cmds| :: CommandOk(h.q.cmds[i], h.log, i))
    && (forall i: nat :: WasHanded(h.log, i) ==> i < |h.q.cmds|)
  }

  lemma DeliverKeepsCommand(h: Hub, device: Id, t: Time, i: nat)
    requires i < |h.q.cmds| && CommandOk(h.q.cmds[i], h.log, i)
    ensures var after := Step(h, Deliver(device, t)); CommandOk(after.q.cmds[i], after.log, i)
  {
    var after := Step(h, Deliver(device, t));
    var c := h.q.cmds[i];
    var rows := Handed(h.q.cmds, device, t, Some(GRACE));
    if c.deliveredAt.Some? {
      var k: nat :| FirstHandOff(h.log, i, k) && h.log[k].at == c.deliveredAt.value;
      assert FirstHandOff(after.log, i, k) && after.log[k].at == c.deliveredAt.value;
    } else if i in rows {
      assert forall j | 0 <= j < |h.log| :: after.log[j] == h.log[j];
      assert !WasHanded(h.log, i);
      assert FirstHandOff(after.log, i, |h.log|) && after.log[|h.log|].at == t;
    } else {
      assert forall j | 0 <= j < |h.log| :: i !in h.log[j].rows;
    }
  }

  lemma WasHandedOneMore(log: seq<Batch>, batch: Batch, i: nat)
    ensures WasHanded(log + [batch], i) <==> WasHanded(log, i) || i in batch.rows
  {
    var more := log + [batch];
    assert more[|log|] == batch;
    if WasHanded(log, i) {
      var k :| 0 <= k < |log| && i in log[k].rows;
      assert more[k] == log[k];
    }
  }

  lemma DeliverKeepsInv(h: Hub, device: Id, t: Time)
    requires Inv(h)
    ensures Inv(Step(h, Deliver(device, t)))
  {
    var after := Step(h, Deliver(device, t));
    var rows := Handed(h.q.cmds, device, t, Some(GRACE));
    forall i | 0 <= i < |after.q.cmds| ensures CommandOk(after.q.cmds[i], after.log, i) {
      DeliverKeepsCommand(h, device, t, i);
    }
    forall i: nat | WasHanded(after.log, i) ensures i < |after.q.cmds| {
      WasHandedOneMore(h.log, Batch(rows, t), i);
    }
  }

  lemma AppendingKeepsInv(h: Hub, more: seq<Command>, devices: map<Id, Target>)
    requires Inv(h) && forall i | 0 <= i < |more| :: more[i].status == Pending && more[i].deliveredAt.None?
    ensures Inv(h.(q := Queue(h.q.cmds + more, devices)))
  {
  }

  lemma StepKeepsInv(h: Hub, act: Act)
    requires Inv(h) && Honest(h, act)
    ensures Inv(Step(h, act))
  {
    match act
    case Enqueue(device, order, hold, t) =>
      if EnqueueCheck(h.q, device, order).None? {
        AppendingKeepsInv(h, [NewCommand(device, None, order, Validate(order.kind, order.payload).value, t)],
                          Step(h, act).q.devices);
      }
    case FanOut(group, members, order, t) =>
      if order.kind in TYPES && Validate(order.kind, order.payload).Some? {
        var chosen := WithFate(h.q, members, order, Commanded);
        var payload := Validate(order.kind, order.payload).value;
        var made :=
          seq(|chosen|, i requires 0 <= i < |chosen| => NewCommand(chosen[i], Some(group), order, payload, t));
        AppendingKeepsInv(h, made, Step(h, act).q.devices);
      }
    case Deliver(device, t) => DeliverKeepsInv(h, device, t);
    case _ =>
  }

  predicate HonestRun(h: Hub, acts: seq<Act>)
    decreases |acts|
  {
    acts != [] ==> Honest(h, acts[0]) && HonestRun(Step(h, acts[0]), acts[1..])
  }

  function After(h: Hub, acts: seq<Act>): Hub
    decreases |acts|
  {
    if acts == [] then h else After(Step(h, acts[0]), acts[1..])
  }

  /** What a row never gives up: being out of pending, its first delivery time, its place in the log. */
  predicate Keeps(h: Hub, later: Hub) {
    && |h.q.cmds| <= |later.q.cmds|
    && h.log <= later.log
    && (forall i | 0 <= i < |h.q.cmds| ::
          && (h.q.cmds[i].status != Pending ==> later.q.cmds[i].status != Pending)
          && (h.q.cmds[i].deliveredAt.Some? ==> later.q.cmds[i].deliveredAt == h.q.cmds[i].deliveredAt)
          && (h.q.cmds[i].status == Cancelled ==> later.q.cmds[i].status == Cancelled)
          && later.q.cmds[i].device == h.q.cmds[i].device)
  }

  lemma StepKeeps(h: Hub, act: Act)
    requires Inv(h) && Honest(h, act)
    ensures Keeps(h, Step(h, act))
  {
  }

  /**
   Over every interleaving: no command returns to pending, its first delivery time is written
   once and is that of its first hand-off, no later hand-off follows the first by less than the
   grace period, and a cancelled command is never handed out, before or after.
   */
  lemma {:induction false} HandOffsAlongRuns(h: Hub, acts: seq<Act>)
    requires Inv(h) && HonestRun(h, acts)
    ensures var end := After(h, acts);
            && Inv(end)
            && Keeps(h, end)
            && (forall i | 0 <= i < |end.q.cmds| && end.q.cmds[i].status == Cancelled :: !WasHanded(end.log, i))
            && (forall i: nat, j: nat, k: nat | j < |end.log| && FirstHandOff(end.log, i, k) && i in end.log[j].rows ::
                  j == k || end.log[j].at >= end.log[k].at + GRACE)
            && (forall i: nat | WasHanded(end.log, i) ::
                  && i < |end.q.cmds|
                  && exists k: nat :: FirstHandOff(end.log, i, k) && end.q.cmds[i].deliveredAt == Some(end.log[k].at))
    decreases |acts|
  {
    if acts != [] {
      StepKeepsInv(h, acts[0]);
      StepKeeps(h, acts[0]);
      HandOffsAlongRuns(Step(h, acts[0]), acts[1..]);
    }
  }

  // ---------- what the grace period does not cover ----------

  /**
   A command handed out is handed out again by a poll within the next grace period exactly when
   it was not pending: only the hand-off of a pending command starts such a period.
   */
  lemma RepeatedWithinGraceExactly(h: Hub, i: nat, device: Id, t: Time, u: Time)
    requires i in Handed(h.q.cmds, device, t, Some(GRACE)) && t <= u < t + GRACE && u < h.q.cmds[i].expiresAt
    ensures i in Handed(Step(h, Deliver(device, t)).q.cmds, device, u, Some(GRACE)) <==> h.q.cmds[i].status != Pending
  {
  }

  /** A repeat is never restamped: once the grace period after the first is over, any two polls hand it out again. */
  lemma LaterHandOffsCanBeArbitrarilyClose(h: Hub, i: nat, t: Time, u: Time)
    requires i < |h.q.cmds| && Live(h.q.cmds[i]) && h.q.cmds[i].deliveredAt.Some? && h.q.cmds[i].status != Pending
    requires h.q.cmds[i].deliveredAt.value + GRACE <= t <= u < h.q.cmds[i].expiresAt
    ensures var device := h.q.cmds[i].device;
            var end := After(h, [Deliver(device, t), Deliver(device, u)]);
            && |end.log| == |h.log| + 2
            && i in end.log[|h.log|].rows && i in end.log[|h.log| + 1].rows
            && |end.q.cmds| == |h.q.cmds| && end.q.cmds[i] == h.q.cmds[i]
  {
    var device := h.q.cmds[i].device;
    var once := Step(h, Deliver(device, t));
    assert i in Handed(h.q.cmds, device, t, Some(GRACE));
    assert once.q.cmds[i] == h.q.cmds[i];
    assert i in Handed(once.q.cmds, device, u, Some(GRACE));
    var twice := Step(once, Deliver(device, u));
    assert [Deliver(device, t), Deliver(device, u)][1..] == [Deliver(device, u)];
    assert [Deliver(device, u)][1..] == [];
    assert After(twice, []) == twice;
    assert After(once, [Deliver(device, u)]) == twice;
  }

  /**
   A report on a command never handed out exempts it from the grace period exactly when it names
   a live status; any other ends its life.
   */
  lemma EarlyReportExemptsExactly(h: Hub, i: nat, status: Status, at: Time, t: Time, u: Time)
    requires i < |h.q.cmds| && h.q.cmds[i].status == Pending && h.q.cmds[i].deliveredAt.None? && Reportable(status)
    requires t <= u < t + GRACE && u < h.q.cmds[i].expiresAt
    ensures var device := h.q.cmds[i].device;
            var reported := Step(h, Report(device, i, status, None, at)).q.cmds;
            var once := Delivered(reported, Handed(reported, device, t, Some(GRACE)), t);
            && (i in Handed(reported, device, t, Some(GRACE)) && i in Handed(once, device, u, Some(GRACE))
                <==> status == Accepted || status == Running)
            && (i in Handed(reported, device, t, Some(GRACE)) <==> i in Handed(once, device, u, Some(GRACE)))
  {
  }

  /**
   A report on a command that was never handed out leaves it unstamped, so that no grace period ever applies
   to it.
   */
  lemma EarlyReportDefeatsTheGrace(h: Hub, i: nat, at: Time, t: Time)
    requires i < |h.q.cmds| && h.q.cmds[i].status == Pending && h.q.cmds[i].deliveredAt.None?
    requires t < h.q.cmds[i].expiresAt
    ensures var device := h.q.cmds[i].device;
            var reported := Step(h, Report(device, i, Running, None, at));
            var once := Step(reported, Deliver(device, t));
            && i in once.log[|h.log|].rows
            && once.q.cmds[i].deliveredAt.None?
            && i in Step(once, Deliver(device, t)).log[|h.log| + 1].rows
  {
  }
}
