/**
 Schedules: what a recurrence means, when a schedule is due next, and how its row is written.
 Times are counted from midnight UTC of some Monday.
 */
module Schedules {
  import opened Common
  import opened Mac

  const MINUTE: int := 60 * SECOND
  const HOUR: int := 60 * MINUTE
  const DAY: int := 24 * HOUR

  datatype Kind = PowerCycle | Maintenance | UnknownKind(name: string)
  datatype Recurrence = Once | Daily | Weekly | UnknownRecurrence(name: string)

  datatype Schedule = Schedule(
    name: string, enabled: bool, kind: Kind, recurrence: Recurrence, at: Option<string>, weekdays: set<int>,
    startAt: Option<Time>, duration: int, lastRun: Option<Time>, nextRun: Option<Time>, lastOutcome: Option<string>)

  // ---------- the clock time as text ----------

  datatype Clock = Clock(hour: int, minute: int)

  predicate OnTheClock(c: Clock) {
    0 <= c.hour <= 23 && 0 <= c.minute <= 59
  }

  predicate Digit(c: char) {
    '0' <= c <= '9'
  }

  function Num(s: string): int {
    if s == "" then 0 else 10 * Num(s[..|s| - 1]) + (s[|s| - 1] as int - '0' as int)
  }

  function Two(n: int): string
    requires 0 <= n <= 99
  {
    [('0' as int + n / 10) as char, ('0' as int + n % 10) as char]
  }

  function ClockText(c: Clock): string
    requires OnTheClock(c)
  {
    Two(c.hour) + ":" + Two(c.minute)
  }

  /** What create accepts: one or two digits, a colon, two digits, in range. */
  function Validated(text: string): (r: Option<Clock>)
    ensures r.Some? ==> OnTheClock(r.value)
  {
    var t := Trim(text);
    var colon := |t| - 3;
    if (colon == 1 || colon == 2) && t[colon] == ':' && (forall i | 0 <= i < |t| && i != colon :: Digit(t[i]))
    then
      var c := Clock(Num(t[..colon]), Num(t[colon + 1..]));
      if OnTheClock(c) then Some(c) else None
    else None
  }

  /** The clock time of a stored row. */
  function Stored(at: Option<string>): (r: Option<Clock>)
    ensures r.Some? ==> OnTheClock(r.value)
  {
    if at.None? then None else Validated(at.value)
  }

  /** What create stores is five characters wide and read back as the time that was given. */
  lemma ClockRoundTrip(c: Clock)
    requires OnTheClock(c)
    ensures |ClockText(c)| == 5 && Stored(Some(ClockText(c))) == Some(c)
  {
    var t := ClockText(c);
    assert Trim(t) == t;
    assert t[..2] == Two(c.hour) && t[3..] == Two(c.minute);
    TwoDigits(c.hour);
    TwoDigits(c.minute);
  }

  lemma TwoDigits(n: int)
    requires 0 <= n <= 99
    ensures Num(Two(n)) == n && Digit(Two(n)[0]) && Digit(Two(n)[1])
  {
    var s := Two(n);
    assert s[..1] == [s[0]];
    assert s[..1][..0] == "";
    assert Num(s[..1]) == n / 10;
  }

  // ---------- occurrences ----------

  function Weekday(t: Time): int {
    (t / DAY) % 7
  }

  function TimeOfDay(c: Clock): int {
    c.hour * HOUR + c.minute * MINUTE
  }

  /** A daily or weekly schedule is meant to happen at t. */
  predicate Occurs(s: Schedule, t: Time) {
    && Stored(s.at).Some?
    && t % DAY == TimeOfDay(Stored(s.at).value)
    && (s.recurrence == Daily || (s.recurrence == Weekly && Weekday(t) in s.weekdays))
  }

  /** The given time of day, on the day of now or the day after. */
  function Candidate(c: Clock, now: Time): Time {
    var today := now - now % DAY + TimeOfDay(c);
    if today <= now then today + DAY else today
  }

  /** The first of so many days from c on whose weekday is wanted. */
  function Walk(c: Time, weekdays: set<int>, days: nat): Option<Time>
    decreases days
  {
    if days == 0 then None
    else if Weekday(c) in weekdays then Some(c)
    else Walk(c + DAY, weekdays, days - 1)
  }

  function ComputeNext(s: Schedule, now: Time): Option<Time> {
    match s.recurrence
    case Once => if s.startAt.Some? && s.lastRun.None? && s.startAt.value > now then s.startAt else None
    case Daily => if Stored(s.at).None? then None else Some(Candidate(Stored(s.at).value, now))
    case Weekly => if Stored(s.at).None? then None else Walk(Candidate(Stored(s.at).value, now), s.weekdays, 7)
    case UnknownRecurrence(_) => None
  }

  /** The same time of day, i days on. */
  function Days(c: Time, i: int): Time {
    c + i * DAY
  }

  lemma DaysOn(c: Time, i: int)
    ensures Days(c, i) % DAY == c % DAY && Weekday(Days(c, i)) == (Weekday(c) + i) % 7
  {
    assert Days(c, i) == DAY * (c / DAY + i) + c % DAY;
    assert Days(c, i) / DAY == c / DAY + i;
  }

  /** The walk returns the first wanted day among those it looks at, and fails if there is none. */
  lemma {:induction false} WalkIsFirst(c: Time, weekdays: set<int>, days: nat) returns (k: nat)
    ensures k <= days
    ensures Walk(c, weekdays, days) == if k < days then Some(Days(c, k)) else None
    ensures k < days ==> Weekday(Days(c, k)) in weekdays
    ensures forall i | 0 <= i < k :: Weekday(Days(c, i)) !in weekdays
    decreases days
  {
    if days == 0 || Weekday(c) in weekdays {
      k := 0;
    } else {
      var rest := WalkIsFirst(c + DAY, weekdays, days - 1);
      k := rest + 1;
      forall i | 0 <= i < k ensures Weekday(Days(c, i)) !in weekdays {
        if i > 0 {
          assert Days(c, i) == Days(c + DAY, i - 1);
        }
      }
    }
  }

  /** Seven days in a row meet every weekday: the walk falls through only if none is wanted. */
  lemma WalkFallsThroughExactly(c: Time, weekdays: set<int>)
    ensures Walk(c, weekdays, 7).None? <==> forall d | 0 <= d <= 6 :: d !in weekdays
  {
    var k := WalkIsFirst(c, weekdays, 7);
    if k == 7 {
      forall d | 0 <= d <= 6 ensures d !in weekdays {
        var i := (d - Weekday(c)) % 7;
        DaysOn(c, i);
      }
    }
  }

  lemma SameTimeOfDay(c: Time, t: Time)
    requires t % DAY == c % DAY
    ensures t == Days(c, t / DAY - c / DAY)
  {
  }

  lemma CandidateIsNext(c: Clock, now: Time)
    requires OnTheClock(c)
    ensures now < Candidate(c, now) <= now + DAY
    ensures Candidate(c, now) % DAY == TimeOfDay(c)
    ensures forall t :: now < t && t % DAY == TimeOfDay(c) ==> Candidate(c, now) <= t
  {
  }

  predicate Recurs(s: Schedule) {
    s.recurrence == Daily || s.recurrence == Weekly
  }

  lemma WeeklyIsLeast(s: Schedule, now: Time)
    requires s.recurrence == Weekly && Stored(s.at).Some?
    ensures match ComputeNext(s, now)
            case Some(n) => now < n <= now + 7 * DAY && Occurs(s, n) && forall t :: now < t < n ==> !Occurs(s, t)
            case None => forall t :: !Occurs(s, t)
  {
    var c := Candidate(Stored(s.at).value, now);
    CandidateIsNext(Stored(s.at).value, now);
    var k := WalkIsFirst(c, s.weekdays, 7);
    DaysOn(c, k);
    WalkFallsThroughExactly(c, s.weekdays);
    forall t | now < t && (k < 7 ==> t < Days(c, k)) ensures !Occurs(s, t) {
      if Occurs(s, t) {
        SameTimeOfDay(c, t);
      }
    }
    if k == 7 {
      NeverOnNoDay(s);
    }
  }

  lemma NeverOnNoDay(s: Schedule)
    requires s.recurrence == Weekly && forall d | 0 <= d <= 6 :: d !in s.weekdays
    ensures forall t :: !Occurs(s, t)
  {
  }

  /**
   The next run of a daily or weekly schedule is its least occurrence strictly after now, at most
   one day or seven days away; it exists exactly when the schedule has any occurrence at all.
   */
  lemma NextRunIsLeastOccurrence(s: Schedule, now: Time)
    requires Recurs(s)
    ensures match ComputeNext(s, now)
            case Some(n) =>
              && now < n <= now + (if s.recurrence == Daily then DAY else 7 * DAY)
              && Occurs(s, n)
              && forall t :: now < t < n ==> !Occurs(s, t)
            case None =>
              forall t :: !Occurs(s, t)
    ensures ComputeNext(s, now).Some? <==>
            Stored(s.at).Some? && (s.recurrence == Weekly ==> exists d | 0 <= d <= 6 :: d in s.weekdays)
  {
    if Stored(s.at).Some? {
      CandidateIsNext(Stored(s.at).value, now);
      if s.recurrence == Weekly {
        WeeklyIsLeast(s, now);
        WalkFallsThroughExactly(Candidate(Stored(s.at).value, now), s.weekdays);
      }
    }
  }

  // ---------- the operations ----------

  method ComputeNextRunAt(s: Schedule, now: Time) returns (next: Option<Time>)
    ensures next == ComputeNext(s, now)
  {
    if s.recurrence == Once {
      if s.startAt.None? || s.lastRun.Some? {
        return None;
      }
      return if s.startAt.value > now then s.startAt else None;
    }
    if s.recurrence == Daily || s.recurrence == Weekly {
      if Stored(s.at).None? {
        return None;
      }
      var candidate := now - now % DAY + TimeOfDay(Stored(s.at).value);
      if candidate <= now {
        candidate := candidate + DAY;
      }
      if s.recurrence == Daily {
        return Some(candidate);
      }
      for step := 0 to 7
        invariant ComputeNext(s, now) == Walk(candidate, s.weekdays, 7 - step)
      {
        if Weekday(candidate) in s.weekdays {
          return Some(candidate);
        }
        candidate := candidate + DAY;
      }
    }
    return None;
  }

  datatype Request = Request(
    name: string, kind: Kind, recurrence: Recurrence, targetKind: Option<string>, at: Option<string>,
    weekdays: set<int>, startAt: Option<Time>, duration: int)

  /** What create insists on. */
  predicate Creatable(q: Request) {
    && 0 < |Trim(q.name)| <= 120
    && !q.kind.UnknownKind? && !q.recurrence.UnknownRecurrence?
    && (q.recurrence == Daily || q.recurrence == Weekly ==> Stored(q.at).Some?)
    && (q.recurrence == Weekly ==> (exists d :: d in q.weekdays) && forall d | d in q.weekdays :: 0 <= d <= 6)
    && (q.recurrence == Once ==> q.startAt.Some?)
    && (q.kind == PowerCycle ==> q.targetKind.Some? && q.targetKind.value in ["device", "group", "tag"])
    && (q.kind == Maintenance ==> q.duration > 0)
  }

  /** The row create writes, before its next run is computed. */
  function NewSchedule(q: Request): Schedule {
    Schedule(Trim(q.name), true, q.kind, q.recurrence,
             if (q.recurrence == Daily || q.recurrence == Weekly) && Stored(q.at).Some?
             then Some(ClockText(Stored(q.at).value)) else q.at,
             q.weekdays, q.startAt, q.duration, None, None, None)
  }

  /** A created daily or weekly schedule is always due some time, at the clock time requested. */
  lemma CreatedIsDue(q: Request, now: Time)
    requires Creatable(q) && Recurs(NewSchedule(q))
    ensures ComputeNext(NewSchedule(q), now).Some?
    ensures Stored(NewSchedule(q).at) == Stored(q.at) && |NewSchedule(q).at.value| == 5
  {
    ClockRoundTrip(Stored(q.at).value);
    if q.recurrence == Weekly {
      var d :| d in q.weekdays;
    }
    NextRunIsLeastOccurrence(NewSchedule(q), now);
  }

  method Create(q: Request, now: Time) returns (row: Option<Schedule>)
    ensures row.Some? <==> Creatable(q)
    ensures row.Some? ==> row.value == NewSchedule(q).(nextRun := ComputeNext(NewSchedule(q), now))
  {
    if !Creatable(q) {
      return None;
    }
    var at := q.at;
    if q.recurrence == Daily || q.recurrence == Weekly {
      at := Some(ClockText(Stored(q.at).value));
    }
    var s := Schedule(Trim(q.name), true, q.kind, q.recurrence, at, q.weekdays, q.startAt, q.duration, None, None,
                      None);
    var next := ComputeNextRunAt(s, now);
    return Some(s.(nextRun := next));
  }
}
