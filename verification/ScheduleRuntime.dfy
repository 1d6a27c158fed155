/** The scheduler's tick over the schedules table, and the maintenance flag it reconciles. */
module ScheduleRuntime {
  import opened Common
  import opened Schedules

  /** What firing a schedule came to: its outcome text, or the exception's. */
  datatype Fired = Ok(outcome: string) | Failed(error: string)

  predicate Due(s: Schedule, now: Time) {
    s.enabled && s.nextRun.Some? && s.nextRun.value <= now
  }

  function Ran(s: Schedule, now: Time, fired: Fired): Schedule {
    var ran := s.(lastOutcome := Some(if fired.Ok? then fired.outcome else "error: " + fired.error),
                  lastRun := Some(now));
    ran.(nextRun := ComputeNext(ran, now))
  }

  /** One tick of one row: schedule it for the first time, fire it if it is due, or leave it. */
  function Ticked(s: Schedule, now: Time, fired: Fired): Schedule {
    if !s.enabled then s
    else if s.nextRun.None? then s.(nextRun := ComputeNext(s, now))
    else if Due(s, now) then Ran(s, now, fired)
    else s
  }

  function Toggled(s: Schedule, on: bool, now: Time): Schedule {
    if on then s.(enabled := true, nextRun := ComputeNext(s, now)) else s.(enabled := false)
  }

  // ---------- one row over a run ----------

  datatype Event = Tick(at: Time, fired: Fired) | SetEnabled(on: bool, at: Time)

  function Next(s: Schedule, e: Event): Schedule {
    match e
    case Tick(t, fired) => Ticked(s, t, fired)
    case SetEnabled(on, t) => Toggled(s, on, t)
  }

  function StateAt(s: Schedule, events: seq<Event>, k: nat): Schedule
    requires k <= |events|
  {
    if k == 0 then s else Next(StateAt(s, events, k - 1), events[k - 1])
  }

  predicate Fires(s: Schedule, events: seq<Event>, k: nat)
    requires k < |events|
  {
    events[k].Tick? && Due(StateAt(s, events, k), events[k].at)
  }

  predicate Chronological(start: Time, events: seq<Event>) {
    forall i | 0 <= i < |events| :: start <= events[i].at && forall j | i < j < |events| :: events[i].at <= events[j].at
  }

  /** The time of the last tick or enabling before event k, or the start. */
  function Since(start: Time, events: seq<Event>, k: nat): Time
    requires k <= |events|
  {
    if k == 0 then start
    else if events[k - 1] == SetEnabled(false, events[k - 1].at) then Since(start, events, k - 1)
    else events[k - 1].at
  }

  /** The schedule has an occurrence after u and no later than t. */
  ghost predicate OccursWithin(s: Schedule, u: Time, t: Time) {
    exists o :: u < o <= t && Occurs(s, o)
  }

  /** The row keeps the next run of some instant since which nothing has been missed. */
  ghost predicate Armed(s: Schedule, since: Time) {
    s.enabled ==> exists u :: u <= since && s.nextRun == ComputeNext(s, u) && !OccursWithin(s, u, since)
  }

  lemma ComputeNextIgnoresTheRest(s: Schedule, r: Schedule, now: Time)
    requires Recurs(s) && s.recurrence == r.recurrence && s.at == r.at && s.weekdays == r.weekdays
    ensures ComputeNext(s, now) == ComputeNext(r, now)
    ensures forall t :: Occurs(s, t) <==> Occurs(r, t)
  {
  }

  lemma DueExactly(s: Schedule, since: Time, now: Time)
    requires Recurs(s) && s.enabled && Armed(s, since) && since <= now
    ensures Due(s, now) <==> OccursWithin(s, since, now)
    ensures !Due(s, now) ==> Armed(s, now)
  {
    var u :| u <= since && s.nextRun == ComputeNext(s, u) && !OccursWithin(s, u, since);
    NextRunIsLeastOccurrence(s, u);
    if Due(s, now) {
      assert since < s.nextRun.value <= now && Occurs(s, s.nextRun.value);
    }
    if !Due(s, now) {
      assert !OccursWithin(s, u, now);
    }
  }

  lemma FreshlyArmed(s: Schedule, now: Time)
    requires s.nextRun == ComputeNext(s, now)
    ensures Armed(s, now)
  {
  }

  lemma {:induction false} StaysArmed(s: Schedule, start: Time, events: seq<Event>, k: nat)
    requires Recurs(s) && Armed(s, start) && Chronological(start, events) && k <= |events|
    ensures var r := StateAt(s, events, k);
            && r.recurrence == s.recurrence && r.at == s.at && r.weekdays == s.weekdays
            && Since(start, events, k) >= start && (k > 0 ==> Since(start, events, k) <= events[k - 1].at)
            && Armed(r, Since(start, events, k))
  {
    if k > 0 {
      StaysArmed(s, start, events, k - 1);
      var r := StateAt(s, events, k - 1);
      var after := StateAt(s, events, k);
      var t := events[k - 1].at;
      ComputeNextIgnoresTheRest(r, after, t);
      match events[k - 1]
      case SetEnabled(on, _) =>
        if on { FreshlyArmed(after, t); }
      case Tick(_, _) =>
        if r.enabled {
          DueExactly(r, Since(start, events, k - 1), t);
          if Due(r, t) || r.nextRun.None? { FreshlyArmed(after, t); }
        }
    }
  }

  /**
   Over every run of ticks and toggles, a tick fires the schedule exactly when it is enabled and
   has an occurrence since the last tick or enabling: what was missed coalesces into one fire,
   and no occurrence fires twice.
   */
  lemma TickFiresExactly(s: Schedule, start: Time, events: seq<Event>, k: nat)
    requires Recurs(s) && Armed(s, start) && Chronological(start, events)
    requires k < |events| && events[k].Tick?
    ensures Fires(s, events, k)
            <==> StateAt(s, events, k).enabled && OccursWithin(s, Since(start, events, k), events[k].at)
  {
    StaysArmed(s, start, events, k);
    var r := StateAt(s, events, k);
    ComputeNextIgnoresTheRest(s, r, start);
    if r.enabled {
      if k > 0 {
        assert events[k - 1].at <= events[k].at;
      }
      DueExactly(r, Since(start, events, k), events[k].at);
    }
  }

  // ---------- one-shot schedules ----------

  ghost predicate OnceOk(s: Schedule) {
    && (s.lastRun.Some? ==> s.nextRun.None?)
    && (s.nextRun.Some? ==> s.nextRun == s.startAt)
  }

  lemma {:induction false} OnceKeeps(s: Schedule, events: seq<Event>, k: nat)
    requires s.recurrence == Once && OnceOk(s) && k <= |events|
    ensures var r := StateAt(s, events, k); OnceOk(r) && r.recurrence == Once && r.startAt == s.startAt
    ensures forall j | 0 <= j < k && Fires(s, events, j) :: StateAt(s, events, k).lastRun.Some?
  {
    if k > 0 {
      OnceKeeps(s, events, k - 1);
    }
  }

  /** The row's next run is the start exactly if that is still to come; what ran has started. */
  ghost predicate OnceArmed(s: Schedule, since: Time) {
    && OnceOk(s)
    && (s.enabled ==> (s.nextRun.Some? <==> s.startAt.Some? && since < s.startAt.value))
    && (s.lastRun.Some? && s.startAt.Some? ==> s.startAt.value <= since)
  }

  lemma {:induction false} OnceStaysArmed(s: Schedule, start: Time, events: seq<Event>, k: nat)
    requires s.recurrence == Once && OnceArmed(s, start) && Chronological(start, events) && k <= |events|
    ensures var r := StateAt(s, events, k);
            && r.recurrence == Once && r.startAt == s.startAt
            && Since(start, events, k) >= start && (k > 0 ==> Since(start, events, k) <= events[k - 1].at)
            && OnceArmed(r, Since(start, events, k))
  {
    if k > 0 {
      OnceStaysArmed(s, start, events, k - 1);
      if k > 1 {
        assert events[k - 2].at <= events[k - 1].at;
      }
    }
  }

  /**
   Over every run of ticks and toggles a tick fires a one-shot exactly when it is enabled and its
   start lies between the last tick or enabling and now: once, and never if it was disabled then.
   */
  lemma OnceFiresExactly(s: Schedule, start: Time, events: seq<Event>, k: nat)
    requires s.recurrence == Once && OnceArmed(s, start) && Chronological(start, events)
    requires k < |events| && events[k].Tick?
    ensures Fires(s, events, k)
            <==> StateAt(s, events, k).enabled && s.startAt.Some?
                 && Since(start, events, k) < s.startAt.value <= events[k].at
  {
    OnceStaysArmed(s, start, events, k);
  }

  /** A one-shot that create has just written is armed. */
  lemma CreatedOnceIsArmed(q: Request, now: Time)
    requires q.recurrence == Once
    ensures OnceArmed(NewSchedule(q).(nextRun := ComputeNext(NewSchedule(q), now)), now)
  {
  }

  /** A one-shot fires at most once, whatever the ticks and toggles, and not before its start. */
  lemma OnceFiresAtMostOnce(s: Schedule, events: seq<Event>, j: nat, k: nat)
    requires s.recurrence == Once && OnceOk(s) && j < |events| && k < |events|
    requires Fires(s, events, j) && Fires(s, events, k)
    ensures j == k && s.startAt.Some? && s.startAt.value <= events[j].at
  {
    OnceKeeps(s, events, j);
    OnceKeeps(s, events, k);
  }

  /** It is lost when it is enabled again only after its start: it then never fires. */
  lemma {:induction false} OnceEnabledTooLate(s: Schedule, events: seq<Event>, late: Time, k: nat)
    requires s.recurrence == Once && OnceOk(s) && s.lastRun.None? && s.startAt.Some? && s.startAt.value <= late
    requires |events| > 0 && events[0] == SetEnabled(true, late) && Chronological(late, events) && 0 < k <= |events|
    ensures StateAt(s, events, k).nextRun.None?
    ensures forall j | 0 <= j < k :: !Fires(s, events, j)
  {
    if k == 1 {
      assert StateAt(s, events, 0) == s;
    } else {
      OnceEnabledTooLate(s, events, late, k - 1);
      OnceKeeps(s, events, k - 1);
    }
  }

  // ---------- the maintenance flag ----------

  datatype Flag = Flag(on: bool, reason: Option<string>, setAt: Time, overrideAt: Option<Time>)

  const OWN: seq<string> := ["schedule", "schedule_window_ended"]

  function Shortened(reason: Option<string>): Option<string> {
    if reason.Some? && |reason.value| > 200 then Some(reason.value[..197] + "...") else reason
  }

  /** Setting the flag; every reason but the scheduler's own two stamps an operator override. */
  function Set(on: bool, reason: Option<string>, now: Time): Flag {
    var r := Shortened(reason);
    Flag(on, r, now, if r.Some? && r.value in OWN then None else Some(now))
  }

  /** An enabled maintenance schedule's window, from its last run on, covers t. */
  predicate Covers(s: Schedule, t: Time) {
    s.enabled && s.kind == Maintenance && s.lastRun.Some?
    && s.lastRun.value <= t <= s.lastRun.value + s.duration * SECOND
  }

  /** The start of the first window in the table's order that covers t. */
  function WindowStart(table: seq<Schedule>, t: Time): Option<Time> {
    if table == [] then None
    else if Covers(table[0], t) then table[0].lastRun
    else WindowStart(table[1..], t)
  }

  function Reconciled(flag: Option<Flag>, table: seq<Schedule>, now: Time): Option<Flag> {
    var start := WindowStart(table, now);
    var on := flag.Some? && flag.value.on;
    if start.Some? && !on && !(flag.Some? && flag.value.overrideAt.Some? && start.value <= flag.value.overrideAt.value)
    then Some(Set(true, Some("schedule"), now))
    else if start.None? && on && flag.value.reason == Some("schedule")
    then Some(Set(false, Some("schedule_window_ended"), now))
    else flag
  }

  lemma {:induction false} WindowStartExactly(table: seq<Schedule>, t: Time)
    ensures WindowStart(table, t).Some? <==> exists i :: 0 <= i < |table| && Covers(table[i], t)
    ensures WindowStart(table, t).Some? ==>
              exists i :: 0 <= i < |table| && Covers(table[i], t) && table[i].lastRun == WindowStart(table, t)
                && forall j | 0 <= j < i :: !Covers(table[j], t)
  {
    if table != [] && !Covers(table[0], t) {
      WindowStartExactly(table[1..], t);
      if WindowStart(table, t).Some? {
        var i :| 0 <= i < |table[1..]| && Covers(table[1..][i], t)
                 && table[1..][i].lastRun == WindowStart(table[1..], t)
                 && forall j | 0 <= j < i :: !Covers(table[1..][j], t);
        assert table[i + 1] == table[1..][i];
        forall j | 0 <= j < i + 1 ensures !Covers(table[j], t) {
          if j > 0 {
            assert table[j] == table[1..][j - 1];
          }
        }
      } else {
        forall i | 0 <= i < |table| ensures !Covers(table[i], t) {
          if i > 0 {
            assert table[i] == table[1..][i - 1];
          }
        }
      }
    }
  }

  // ---------- the whole runtime over runs ----------

  datatype State = State(table: seq<Schedule>, flag: Option<Flag>)

  datatype Act =
    | DoTick(at: Time, fired: seq<Fired>)
    | Enable(row: nat, on: bool, at: Time)
    | Operator(on: bool, reason: Option<string>, at: Time)
    | Add(fresher: Schedule)
    | Delete(row: nat)

  function TickedTable(table: seq<Schedule>, now: Time, fired: seq<Fired>): seq<Schedule>
    requires |fired| == |table|
  {
    seq(|table|, i requires 0 <= i < |table| => Ticked(table[i], now, fired[i]))
  }

  predicate Possible(st: State, act: Act) {
    (act.DoTick? ==> |act.fired| == |st.table|) && (act.Enable? ==> act.row < |st.table|)
    && (act.Delete? ==> act.row < |st.table|)
  }

  function Step(st: State, act: Act): State
    requires Possible(st, act)
  {
    match act
    case DoTick(t, fired) =>
      var table := TickedTable(st.table, t, fired);
      State(table, Reconciled(st.flag, table, t))
    case Enable(i, on, t) => st.(table := st.table[i := Toggled(st.table[i], on, t)])
    case Operator(on, reason, t) => st.(flag := Some(Set(on, reason, t)))
    case Add(fresher) => st.(table := st.table + [fresher])
    case Delete(i) => st.(table := st.table[..i] + st.table[i + 1..])
  }

  predicate Run(st: State, acts: seq<Act>)
    decreases |acts|
  {
    acts != [] ==> Possible(st, acts[0]) && Run(Step(st, acts[0]), acts[1..])
  }

  function After(st: State, acts: seq<Act>): State
    requires Run(st, acts)
    decreases |acts|
  {
    if acts == [] then st else After(Step(st, acts[0]), acts[1..])
  }

  /** No operator has touched the flag. */
  predicate OwnFlag(flag: Option<Flag>) {
    flag.Some? ==> flag.value.overrideAt.None? && (flag.value.on ==> flag.value.reason == Some("schedule"))
  }

  /** Without operators, after every tick of every run the flag is on exactly when some window covers the tick. */
  lemma {:induction false} FlagFollowsWindows(st: State, acts: seq<Act>, t: Time, fired: seq<Fired>)
    requires OwnFlag(st.flag) && Run(st, acts) && (forall i | 0 <= i < |acts| :: !acts[i].Operator?)
    requires Possible(After(st, acts), DoTick(t, fired))
    ensures var end := Step(After(st, acts), DoTick(t, fired));
            (end.flag.Some? && end.flag.value.on) <==> exists i :: 0 <= i < |end.table| && Covers(end.table[i], t)
    decreases |acts|
  {
    if acts == [] {
      WindowStartExactly(TickedTable(st.table, t, fired), t);
    } else {
      var act := acts[0];
      assert OwnFlag(Step(st, act).flag);
      assert forall i | 0 <= i < |acts[1..]| :: acts[1..][i] == acts[i + 1];
      FlagFollowsWindows(Step(st, act), acts[1..], t, fired);
    }
  }

  /** An operator's ON, for a reason of its own, outlives every run without another operator. */
  lemma {:induction false} OperatorOnIsNeverCleared(st: State, acts: seq<Act>)
    requires st.flag.Some? && st.flag.value.on && st.flag.value.reason != Some("schedule")
    requires Run(st, acts) && forall i | 0 <= i < |acts| :: !acts[i].Operator?
    ensures After(st, acts).flag == st.flag
    decreases |acts|
  {
    if acts != [] {
      assert !acts[0].Operator?;
      assert forall i | 0 <= i < |acts[1..]| :: acts[1..][i] == acts[i + 1];
      OperatorOnIsNeverCleared(Step(st, acts[0]), acts[1..]);
    }
  }

  /**
   A tick undoes an operator's OFF exactly when the first covering window, in the table's order,
   began after the OFF: with overlapping windows that need not be the one that was overridden.
   */
  lemma OperatorOffIsUndoneExactly(st: State, t: Time, fired: seq<Fired>)
    requires st.flag.Some? && !st.flag.value.on && st.flag.value.overrideAt.Some?
    requires Possible(st, DoTick(t, fired))
    ensures var end := Step(st, DoTick(t, fired));
            end.flag != st.flag <==>
              exists i ::
                0 <= i < |end.table| && Covers(end.table[i], t)
                && st.flag.value.overrideAt.value < end.table[i].lastRun.value
                && forall j | 0 <= j < i :: !Covers(end.table[j], t)
  {
    var table := TickedTable(st.table, t, fired);
    WindowStartExactly(table, t);
    if exists i :: 0 <= i < |table| && Covers(table[i], t) && st.flag.value.overrideAt.value < table[i].lastRun.value
         && forall j | 0 <= j < i :: !Covers(table[j], t) {
      var i :| 0 <= i < |table| && Covers(table[i], t) && st.flag.value.overrideAt.value < table[i].lastRun.value
               && forall j | 0 <= j < i :: !Covers(table[j], t);
      var k :| 0 <= k < |table| && Covers(table[k], t) && table[k].lastRun == WindowStart(table, t)
               && forall j | 0 <= j < k :: !Covers(table[j], t);
      assert i == k;
    }
  }

  /** Every maintenance row last ran no later than o. */
  predicate NotRunSince(table: seq<Schedule>, o: Time) {
    forall i | 0 <= i < |table| && table[i].kind == Maintenance && table[i].lastRun.Some? :: table[i].lastRun.value <= o
  }

  /** No maintenance schedule fires, or is brought in with a run of its own, along these acts. */
  predicate QuietAfter(st: State, acts: seq<Act>, o: Time)
    requires Run(st, acts)
    decreases |acts|
  {
    NotRunSince(st.table, o) && (acts != [] ==> QuietAfter(Step(st, acts[0]), acts[1..], o))
  }

  /** An operator's OFF survives every tick until a maintenance schedule fires again. */
  lemma {:induction false} OperatorOffSurvivesUntilNextFire(st: State, acts: seq<Act>)
    requires st.flag.Some? && !st.flag.value.on && st.flag.value.overrideAt.Some?
    requires Run(st, acts) && QuietAfter(st, acts, st.flag.value.overrideAt.value)
    requires forall i | 0 <= i < |acts| :: !acts[i].Operator?
    ensures After(st, acts).flag == st.flag
    decreases |acts|
  {
    if acts != [] {
      var o := st.flag.value.overrideAt.value;
      assert !acts[0].Operator?;
      var next := Step(st, acts[0]);
      if acts[0].DoTick? {
        assert NotRunSince(next.table, o);
        WindowStartExactly(next.table, acts[0].at);
      }
      assert forall i | 0 <= i < |acts[1..]| :: acts[1..][i] == acts[i + 1];
      OperatorOffSurvivesUntilNextFire(next, acts[1..]);
    }
  }

  // ---------- the service ----------

  function CountOf(table: seq<Schedule>, p: Schedule -> bool): nat {
    if table == [] then 0 else CountOf(table[..|table| - 1], p) + if p(table[|table| - 1]) then 1 else 0
  }

  class Scheduler {
    var table: seq<Schedule>
    var flag: Option<Flag>

    function Tables(): State
      reads this
    {
      State(table, flag)
    }

    constructor ()
      ensures Tables() == State([], None)
    {
      table, flag := [], None;
    }

    method SetMaintenanceMode(on: bool, reason: Option<string>, now: Time)
      modifies this`flag
      ensures Tables() == Step(old(Tables()), Operator(on, reason, now))
    {
      var r := reason;
      if r.Some? && |r.value| > 200 {
        r := Some(r.value[..197] + "...");
      }
      flag := Some(Flag(on, r, now, if r.Some? && r.value in OWN then None else Some(now)));
    }

    method SetEnabled(row: nat, on: bool, now: Time) returns (found: bool)
      modifies this`table
      ensures found == (row < |old(table)|)
      ensures found ==> Tables() == Step(old(Tables()), Enable(row, on, now))
      ensures !found ==> table == old(table)
    {
      if row >= |table| {
        return false;
      }
      var s := table[row].(enabled := on);
      if on {
        var next := ComputeNextRunAt(s, now);
        s := s.(nextRun := next);
      }
      table := table[row := s];
      return true;
    }

    method ReconcileMaintenanceFlag(now: Time)
      modifies this`flag
      ensures flag == Reconciled(old(flag), table, now)
    {
      var start := None;
      for i := 0 to |table|
        invariant start == None
        invariant WindowStart(table, now) == WindowStart(table[i..], now)
      {
        if Covers(table[i], now) {
          start := table[i].lastRun;
          break;
        }
      }
      var on := flag.Some? && flag.value.on;
      var overridden := flag.Some? && flag.value.overrideAt.Some? && start.Some?
                        && start.value <= flag.value.overrideAt.value;
      if start.Some? && !on && !overridden {
        SetMaintenanceMode(true, Some("schedule"), now);
      } else if start.None? && on && flag.value.reason == Some("schedule") {
        SetMaintenanceMode(false, Some("schedule_window_ended"), now);
      }
    }

    /** Go over the enabled rows, fire what is due, then reconcile the flag. */
    method Tick(now: Time, fired: seq<Fired>) returns (considered: nat, ok: nat, errors: nat)
      requires |fired| == |table|
      modifies this`table, this`flag
      ensures Tables() == Step(old(Tables()), DoTick(now, fired))
      ensures considered == CountOf(old(table), (s: Schedule) => s.enabled)
      ensures ok + errors == CountOf(old(table), (s: Schedule) => Due(s, now))
    {
      ghost var before := table;
      considered, ok, errors := 0, 0, 0;
      for i := 0 to |table|
        invariant |table| == |before| && this.flag == old(this.flag)
        invariant forall j | 0 <= j < i :: table[j] == Ticked(before[j], now, fired[j])
        invariant forall j | i <= j < |table| :: table[j] == before[j]
        invariant considered == CountOf(before[..i], (s: Schedule) => s.enabled)
        invariant ok + errors == CountOf(before[..i], (s: Schedule) => Due(s, now))
      {
        assert before[..i + 1][..i] == before[..i];
        var s := table[i];
        if s.enabled {
          considered := considered + 1;
          if s.nextRun.None? {
            var next := ComputeNextRunAt(s, now);
            table := table[i := s.(nextRun := next)];
          } else if s.nextRun.value <= now {
            if fired[i].Ok? {
              ok := ok + 1;
              s := s.(lastOutcome := Some(fired[i].outcome));
            } else {
              errors := errors + 1;
              s := s.(lastOutcome := Some("error: " + fired[i].error));
            }
            s := s.(lastRun := Some(now));
            var next := ComputeNextRunAt(s, now);
            table := table[i := s.(nextRun := next)];
          }
        }
      }
      assert before[..|before|] == before;
      assert table == TickedTable(before, now, fired);
      ReconcileMaintenanceFlag(now);
    }
  }
}
