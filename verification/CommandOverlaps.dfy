/**
 Hand-offs under true interleaving: polls and cancels read the rows they change without locking
 them and write them back by primary key, so anything may happen in between.
 */
module CommandOverlaps {
  import opened Common
  import opened Commands
  import opened CommandRuns

  /** A transaction that has read and not yet written: the rows of a poll, or a command seen pending by a cancel. */
  datatype Open = Polling(read: seq<Command>, rows: seq<nat>, at: Time) | Cancelling(cmd: nat, when: Time)

  /** cancelled is the history of the commands whose cancellation was reported to the operator. */
  datatype Desk = Desk(h: Hub, open: map<Id, Open>, cancelled: set<nat>)

  datatype Move =
    | Whole(act: Act)
    | ReadPoll(tx: Id, device: Id, at: Time)
    | WritePoll(tx: Id)
    | ReadCancel(tx: Id, cmd: nat, at: Time)
    | WriteCancel(tx: Id)

  // ---------- one write back ----------

  /** A poll's write: by primary key, the status and time decided when the row was read. */
  function WrittenBack(current: seq<Command>, read: seq<Command>, rows: seq<nat>, t: Time): seq<Command> {
    seq(|current|, i requires 0 <= i < |current| =>
      if i < |read| && i in rows && read[i].status == Pending
      then current[i].(status := Accepted, deliveredAt := Some(t)) else current[i])
  }

  /** With nothing in between, reading and writing back is the one-step delivery. */
  lemma WriteBackIsDelivery(cmds: seq<Command>, device: Id, t: Time)
    ensures var rows := Handed(cmds, device, t, Some(GRACE));
            WrittenBack(cmds, cmds, rows, t) == Delivered(cmds, rows, t)
  {
  }

  /**
   A poll's write keeps the cancels that committed since it read exactly when none of them is of
   a row it read as pending.
   */
  lemma CancelsKeptExactly(current: seq<Command>, read: seq<Command>, rows: seq<nat>, t: Time)
    ensures (forall i | 0 <= i < |current| && current[i].status == Cancelled ::
               WrittenBack(current, read, rows, t)[i].status == Cancelled)
            <==> forall i | 0 <= i < |current| && i < |read| && i in rows && read[i].status == Pending ::
                   current[i].status != Cancelled
  {
    var after := WrittenBack(current, read, rows, t);
    forall i | 0 <= i < |current| && i < |read| && i in rows && read[i].status == Pending
      ensures after[i].status == Accepted
    {}
  }

  /**
   If a cancel commits between the read and the write, the cancelled command is handed out and comes back as
   accepted.
   */
  lemma OverlappingCancelIsLost(h: Hub, i: nat, at: Time, t: Time)
    requires i < |h.q.cmds| && h.q.cmds[i].status == Pending && h.q.cmds[i].deliveredAt.None?
    requires t < h.q.cmds[i].expiresAt
    ensures var read := Handed(h.q.cmds, h.q.cmds[i].device, t, Some(GRACE));
            var cancelled := CancelledQueue(h.q, i, at);
            && i in read
            && cancelled.cmds[i].status == Cancelled
            && WrittenBack(cancelled.cmds, h.q.cmds, read, t)[i].status == Accepted
  {
  }

  // ---------- the steps ----------

  predicate Enabled(d: Desk, m: Move) {
    match m
    case Whole(act) => Honest(d.h, act) && !act.Deliver? && !act.Cancel?
    case ReadPoll(tx, _, _) => tx !in d.open
    case WritePoll(tx) => tx in d.open && d.open[tx].Polling?
    case ReadCancel(tx, _, _) => tx !in d.open
    case WriteCancel(tx) => tx in d.open && d.open[tx].Cancelling? && d.open[tx].cmd < |d.h.q.cmds|
  }

  function WithCmds(h: Hub, cmds: seq<Command>): Hub {
    h.(q := h.q.(cmds := cmds))
  }

  function Next(d: Desk, m: Move): Desk
    requires Enabled(d, m)
  {
    match m
    case Whole(act) => d.(h := Step(d.h, act))
    case ReadPoll(tx, device, t) =>
      d.(open := d.open[tx := Polling(d.h.q.cmds, Handed(d.h.q.cmds, device, t, Some(GRACE)), t)])
    case WritePoll(tx) =>
      var p := d.open[tx];
      d.(h := WithCmds(d.h, WrittenBack(d.h.q.cmds, p.read, p.rows, p.at)).(log := d.h.log + [Batch(p.rows, p.at)]),
         open := d.open - {tx})
    case ReadCancel(tx, i, t) =>
      if i < |d.h.q.cmds| && d.h.q.cmds[i].status == Pending then d.(open := d.open[tx := Cancelling(i, t)]) else d
    case WriteCancel(tx) =>
      var i := d.open[tx].cmd;
      Desk(WithCmds(d.h, d.h.q.cmds[i := d.h.q.cmds[i].(status := Cancelled, completedAt := Some(d.open[tx].when))]),
           d.open - {tx}, d.cancelled + {i})
  }

  /** What was read as pending has since been neither cancelled nor handed out. */
  predicate Undisturbed(d: Desk, m: Move)
    requires Enabled(d, m)
  {
    match m
    case WritePoll(tx) =>
      var p := d.open[tx];
      forall i | 0 <= i < |p.read| && i < |d.h.q.cmds| && i in p.rows && p.read[i].status == Pending ::
        i !in d.cancelled && d.h.q.cmds[i].deliveredAt.None?
    case WriteCancel(tx) => d.h.q.cmds[d.open[tx].cmd].deliveredAt.None?
    case _ => true
  }

  // ---------- the guarantees ----------

  /** A poll in progress has read rows as they were; one it found handed out still carries that time. */
  ghost predicate PollOk(h: Hub, p: Open)
    requires p.Polling?
  {
    && |p.read| <= |h.q.cmds|
    && (forall i | i in p.rows :: i < |p.read|)
    && (forall i | i in p.rows && p.read[i].status != Pending ::
          && p.read[i].deliveredAt.Some? && p.read[i].deliveredAt.value + GRACE <= p.at
          && h.q.cmds[i].deliveredAt == p.read[i].deliveredAt)
  }

  /** First hand-offs are stamped, repeats a grace period later, no cancelled command handed out, and no cancel lost. */
  ghost predicate Guaranteed(d: Desk) {
    && Inv(d.h)
    && (forall i | i in d.cancelled :: i < |d.h.q.cmds| && d.h.q.cmds[i].status == Cancelled)
    && (forall i | 0 <= i < |d.h.q.cmds| && d.h.q.cmds[i].status == Cancelled :: i in d.cancelled)
    && (forall tx | tx in d.open && d.open[tx].Polling? :: PollOk(d.h, d.open[tx]))
    && (forall tx | tx in d.open && d.open[tx].Cancelling? :: d.open[tx].cmd < |d.h.q.cmds|)
  }

  lemma WholeKeeps(d: Desk, act: Act)
    requires Guaranteed(d) && Enabled(d, Whole(act))
    ensures Guaranteed(Next(d, Whole(act)))
  {
    StepKeepsInv(d.h, act);
    StepKeeps(d.h, act);
  }

  lemma ReadKeeps(d: Desk, m: Move)
    requires Guaranteed(d) && Enabled(d, m) && (m.ReadPoll? || m.ReadCancel?)
    ensures Guaranteed(Next(d, m))
  {
  }

  /** An undisturbed cancel keeps the guarantees, and a disturbed one breaks them. */
  lemma WriteCancelKeepsExactly(d: Desk, tx: Id)
    requires Guaranteed(d) && Enabled(d, WriteCancel(tx))
    ensures Guaranteed(Next(d, WriteCancel(tx))) <==> Undisturbed(d, WriteCancel(tx))
  {
    var i, after := d.open[tx].cmd, Next(d, WriteCancel(tx));
    assert after.h.q.cmds[i].status == Cancelled && after.h.q.cmds[i].deliveredAt == d.h.q.cmds[i].deliveredAt;
  }

  /** What the write makes of one command, in the log that has its batch. */
  lemma WritePollKeepsCommandExactly(d: Desk, tx: Id, i: nat)
    requires Guaranteed(d) && Enabled(d, WritePoll(tx)) && i < |d.h.q.cmds|
    ensures var p, after := d.open[tx], Next(d, WritePoll(tx));
            (CommandOk(after.h.q.cmds[i], after.h.log, i)
             && (i in d.cancelled ==> after.h.q.cmds[i].status == Cancelled))
            <==> (i in p.rows && p.read[i].status == Pending ==> i !in d.cancelled && d.h.q.cmds[i].deliveredAt.None?)
  {
    var p, after := d.open[tx], Next(d, WritePoll(tx));
    var c, log := d.h.q.cmds[i], after.h.log;
    assert forall j | 0 <= j < |d.h.log| :: log[j] == d.h.log[j];
    WasHandedOneMore(d.h.log, Batch(p.rows, p.at), i);
    assert CommandOk(c, d.h.log, i) && PollOk(d.h, p);
    if i in p.rows && p.read[i].status == Pending {
      if c.deliveredAt.None? {
        assert FirstHandOff(log, i, |d.h.log|) && log[|d.h.log|].at == p.at;
      } else {
        var k: nat :| FirstHandOff(d.h.log, i, k) && d.h.log[k].at == c.deliveredAt.value;
        SecondStampBreaks(d.h.log, log, i, k, p.at);
      }
    } else if c.deliveredAt.Some? {
      var k: nat :| FirstHandOff(d.h.log, i, k) && d.h.log[k].at == c.deliveredAt.value;
      assert FirstHandOff(log, i, k);
    }
  }

  /** A second stamp is either not that of the first hand-off, or within its grace period. */
  lemma SecondStampBreaks(was: seq<Batch>, log: seq<Batch>, i: nat, k: nat, at: Time)
    requires FirstHandOff(was, i, k) && |log| == |was| + 1 && log[..|was|] == was && i in log[|was|].rows
    requires log[|was|].at == at
    ensures forall j: nat :: FirstHandOff(log, i, j) ==> log[j].at != at
  {
    assert log[k] == was[k];
  }

  /** An undisturbed poll keeps the guarantees, and a disturbed one breaks them. */
  lemma WritePollKeepsExactly(d: Desk, tx: Id)
    requires Guaranteed(d) && Enabled(d, WritePoll(tx))
    ensures Guaranteed(Next(d, WritePoll(tx))) <==> Undisturbed(d, WritePoll(tx))
  {
    var p, after := d.open[tx], Next(d, WritePoll(tx));
    forall i | 0 <= i < |d.h.q.cmds|
      ensures (CommandOk(after.h.q.cmds[i], after.h.log, i)
               && (i in d.cancelled ==> after.h.q.cmds[i].status == Cancelled))
              <==> (i in p.rows && p.read[i].status == Pending ==> i !in d.cancelled && d.h.q.cmds[i].deliveredAt.None?)
    {
      WritePollKeepsCommandExactly(d, tx, i);
    }
    forall i: nat | WasHanded(after.h.log, i) ensures i < |after.h.q.cmds| {
      WasHandedOneMore(d.h.log, Batch(p.rows, p.at), i);
    }
    if Undisturbed(d, WritePoll(tx)) {
      forall x | x in after.open && after.open[x].Polling? ensures PollOk(after.h, after.open[x]) {
        assert PollOk(d.h, d.open[x]);
        OthersReadOn(d, tx, x);
      }
    }
  }

  /** An undisturbed write leaves the times that other polls in progress rely on. */
  lemma OthersReadOn(d: Desk, tx: Id, x: Id)
    requires Enabled(d, WritePoll(tx)) && Undisturbed(d, WritePoll(tx)) && PollOk(d.h, d.open[tx])
    requires x in d.open && d.open[x].Polling? && PollOk(d.h, d.open[x])
    ensures PollOk(Next(d, WritePoll(tx)).h, d.open[x])
  {
  }

  /** One step keeps the guarantees exactly when, being a write, it is undisturbed. */
  lemma MoveKeepsExactly(d: Desk, m: Move)
    requires Guaranteed(d) && Enabled(d, m)
    ensures Guaranteed(Next(d, m)) <==> Undisturbed(d, m)
  {
    match m
    case Whole(act) => WholeKeeps(d, act);
    case WritePoll(tx) => WritePollKeepsExactly(d, tx);
    case WriteCancel(tx) => WriteCancelKeepsExactly(d, tx);
    case _ => ReadKeeps(d, m);
  }

  // ---------- runs ----------

  predicate Run(d: Desk, moves: seq<Move>)
    decreases |moves|
  {
    moves != [] ==> Enabled(d, moves[0]) && Run(Next(d, moves[0]), moves[1..])
  }

  /** The guarantees hold in every state the run passes through. */
  ghost predicate AlwaysGuaranteed(d: Desk, moves: seq<Move>)
    requires Run(d, moves)
    decreases |moves|
  {
    Guaranteed(d) && (moves != [] ==> AlwaysGuaranteed(Next(d, moves[0]), moves[1..]))
  }

  predicate AllUndisturbed(d: Desk, moves: seq<Move>)
    requires Run(d, moves)
    decreases |moves|
  {
    moves != [] ==> Undisturbed(d, moves[0]) && AllUndisturbed(Next(d, moves[0]), moves[1..])
  }

  /**
   Over every interleaving of reads and writes the guarantees hold throughout exactly when every
   write finds what it had read as pending neither cancelled nor handed out since.
   */
  lemma {:induction false} OverlapsAreSafeExactly(d: Desk, moves: seq<Move>)
    requires Guaranteed(d) && Run(d, moves)
    ensures AlwaysGuaranteed(d, moves) <==> AllUndisturbed(d, moves)
    decreases |moves|
  {
    if moves != [] {
      MoveKeepsExactly(d, moves[0]);
      if Undisturbed(d, moves[0]) {
        OverlapsAreSafeExactly(Next(d, moves[0]), moves[1..]);
      }
    }
  }

  function After(d: Desk, moves: seq<Move>): Desk
    requires Run(d, moves)
    decreases |moves|
  {
    if moves == [] then d else After(Next(d, moves[0]), moves[1..])
  }

  /** Disturbed or not, no command ever returns to pending, and none is lost. */
  lemma {:induction false} NeverPendingAgain(d: Desk, moves: seq<Move>, i: nat)
    requires Run(d, moves) && i < |d.h.q.cmds| && d.h.q.cmds[i].status != Pending
    ensures i < |After(d, moves).h.q.cmds| && After(d, moves).h.q.cmds[i].status != Pending
    decreases |moves|
  {
    if moves != [] {
      NeverPendingAgain(Next(d, moves[0]), moves[1..], i);
    }
  }
}
