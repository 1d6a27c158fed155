/** Heartbeats: history rows, the device's cached columns, and the events read off the differences. */
module Heartbeats {
  import opened Common
  import opened JsonValues

  type Payload = map<string, Json>

  /** The fields mirrored onto the device's row, and those copied onto the history row. */
  datatype Schema = Schema(hot: seq<string>, status: seq<string>)

  const FIRMWARE := Schema(
    ["recovery_mode", "auto_recovery_triggered", "last_known_good_restored", "consecutive_unhealthy_boots",
     "in_captive_portal", "central_enabled", "central_registered", "central_state"],
    ["wifi_rssi_dbm", "recovery_mode", "auto_recovery_triggered", "last_known_good_restored",
     "consecutive_unhealthy_boots", "in_captive_portal", "holdoff_remaining_seconds", "cooldown_remaining_seconds",
     "central_enabled", "central_registered", "central_state", "central_device_id", "central_heartbeat_age_seconds",
     "power_analytics_enabled", "power_chip_type", "power_sample_rate_hz", "power_batch_seconds"])

  datatype Beat = Beat(at: Time, uptime: Json, status: map<string, Json>)

  datatype Reboot = Reboot(at: Time, prior: int, uptime: int)

  datatype Trigger = LastKnownGoodRestored | RecoveryExit

  /** What the hub keeps of one device's heartbeats; an unset column is absent from hot. */
  datatype Record = Record(
    hot: map<string, Json>, firmware: Json, localIp: Json, lastBeat: Option<Time>,
    history: seq<Beat>, reboots: seq<Reboot>, triggers: seq<(Time, Trigger)>)

  predicate Regressed(prior: Json, uptime: Json) {
    IsInt(prior) && IsInt(uptime) && IntOf(uptime) < IntOf(prior)
  }

  predicate IsTrue(hot: map<string, Json>, field: string) {
    field in hot && hot[field] == Bool(true)
  }

  predicate IsFalse(hot: map<string, Json>, field: string) {
    field in hot && hot[field] == Bool(false)
  }

  /** The recovery edge between two states of the hot columns; a restore masks an exit. */
  function Edge(before: map<string, Json>, after: map<string, Json>): Option<Trigger> {
    if !IsTrue(before, "last_known_good_restored") && IsTrue(after, "last_known_good_restored")
    then Some(LastKnownGoodRestored)
    else if IsTrue(before, "recovery_mode") && IsFalse(after, "recovery_mode") then Some(RecoveryExit)
    else None
  }

  /** The payload's values of the fields it carries, over those kept. */
  function Carried(kept: map<string, Json>, p: Payload, fields: seq<string>): map<string, Json> {
    map f | f in kept.Keys + (set g | g in fields && g in p) :: if f in fields && f in p then p[f] else kept[f]
  }

  function TruthyOr(p: Payload, k: string, kept: Json): Json {
    if Truthy(Get(p, k)) then p[k] else kept
  }

  datatype Sent = Sent(payload: Payload, at: Time)

  function BeatOf(m: Schema, s: Sent): Beat {
    Beat(s.at, Get(s.payload, "uptime_seconds"), Carried(map[], s.payload, m.status))
  }

  function LastKnownUptime(history: seq<Beat>): Json {
    if history == [] then Null else history[|history| - 1].uptime
  }

  function NewReboots(history: seq<Beat>, uptime: Json, now: Time): seq<Reboot> {
    var prior := LastKnownUptime(history);
    if Regressed(prior, uptime) then [Reboot(now, IntOf(prior), IntOf(uptime))] else []
  }

  function Recorded(m: Schema, r: Record, p: Payload, now: Time): Record {
    var hot := Carried(r.hot, p, m.hot);
    Record(hot, TruthyOr(p, "firmware_version", r.firmware), TruthyOr(p, "local_ip", r.localIp), Some(now),
           r.history + [BeatOf(m, Sent(p, now))],
           r.reboots + NewReboots(r.history, Get(p, "uptime_seconds"), now),
           r.triggers + if Edge(r.hot, hot).Some? then [(now, Edge(r.hot, hot).value)] else [])
  }

  // ---------- agreement with the history of payloads ----------

  function After(m: Schema, r: Record, sent: seq<Sent>): Record {
    if sent == [] then r
    else Recorded(m, After(m, r, sent[..|sent| - 1]), sent[|sent| - 1].payload, sent[|sent| - 1].at)
  }

  /** k is the latest payload that carried the field. */
  predicate LatestWith(sent: seq<Sent>, field: string, k: nat) {
    k < |sent| && field in sent[k].payload && forall j | k < j < |sent| :: field !in sent[j].payload
  }

  function HotAfter(hot: map<string, Json>, sent: seq<Sent>, fields: seq<string>): map<string, Json> {
    if sent == [] then hot else Carried(HotAfter(hot, sent[..|sent| - 1], fields), sent[|sent| - 1].payload, fields)
  }

  lemma {:induction false} HotIsHotAfter(m: Schema, r: Record, sent: seq<Sent>)
    ensures After(m, r, sent).hot == HotAfter(r.hot, sent, m.hot)
  {
    if sent != [] {
      HotIsHotAfter(m, r, sent[..|sent| - 1]);
    }
  }

  lemma {:induction false} HotAfterIsLatest(hot: map<string, Json>, sent: seq<Sent>, fields: seq<string>,
                                            field: string, k: nat)
    requires field in fields && LatestWith(sent, field, k)
    ensures var end := HotAfter(hot, sent, fields); field in end && end[field] == sent[k].payload[field]
  {
    var n := |sent| - 1;
    if k < n {
      assert field !in sent[n].payload;
      HotAfterIsLatest(hot, sent[..n], fields, field, k);
    }
  }

  lemma {:induction false} HotAfterNone(hot: map<string, Json>, sent: seq<Sent>, fields: seq<string>, field: string)
    requires forall k | 0 <= k < |sent| :: field !in sent[k].payload
    ensures var end := HotAfter(hot, sent, fields);
            (field in end <==> field in hot) && (field in hot ==> end[field] == hot[field])
  {
    if sent != [] {
      HotAfterNone(hot, sent[..|sent| - 1], fields, field);
    }
  }

  /** Each hot column is the value of the latest payload that carried it, and unchanged if none did. */
  lemma HotColumnsAreLatest(m: Schema, r: Record, sent: seq<Sent>, field: string)
    requires field in m.hot
    ensures var hot := After(m, r, sent).hot;
            && (forall k: nat :: LatestWith(sent, field, k) ==> field in hot && hot[field] == sent[k].payload[field])
            && ((forall k | 0 <= k < |sent| :: field !in sent[k].payload) ==>
                  (field in hot <==> field in r.hot) && (field in r.hot ==> hot[field] == r.hot[field]))
  {
    HotIsHotAfter(m, r, sent);
    forall k: nat | LatestWith(sent, field, k) {
      HotAfterIsLatest(r.hot, sent, m.hot, field, k);
    }
    if forall k | 0 <= k < |sent| :: field !in sent[k].payload {
      HotAfterNone(r.hot, sent, m.hot, field);
    }
  }

  /** The uptime a heartbeat reported, Null if it did not. */
  function UptimeAt(r: Record, sent: seq<Sent>, k: int): Json
    requires -1 <= k < |sent|
  {
    if k >= 0 then Get(sent[k].payload, "uptime_seconds")
    else LastKnownUptime(r.history)
  }

  predicate RegressedAt(r: Record, sent: seq<Sent>, k: nat) {
    k < |sent| && Regressed(UptimeAt(r, sent, k - 1), UptimeAt(r, sent, k))
  }

  /** The heartbeats whose uptime fell below the one just before. */
  function Regressions(r: Record, sent: seq<Sent>): set<nat> {
    set k: nat | k < |sent| && RegressedAt(r, sent, k)
  }

  lemma HistoryOfOneMore(m: Schema, r: Record, sent: seq<Sent>)
    requires sent != []
    ensures After(m, r, sent).history == After(m, r, sent[..|sent| - 1]).history + [BeatOf(m, sent[|sent| - 1])]
  {
  }

  /** The history gains one row for each heartbeat, in order, with what it carried. */
  lemma {:induction false} HistoryIsSent(m: Schema, r: Record, sent: seq<Sent>)
    ensures After(m, r, sent).history == r.history + seq(|sent|, k requires 0 <= k < |sent| => BeatOf(m, sent[k]))
  {
    if sent != [] {
      HistoryOfOneMore(m, r, sent);
      HistoryIsSent(m, r, sent[..|sent| - 1]);
    }
  }

  /** The reboot event of heartbeat k. */
  function RebootAt(r: Record, sent: seq<Sent>, k: nat): Reboot
    requires RegressedAt(r, sent, k)
  {
    Reboot(sent[k].at, IntOf(UptimeAt(r, sent, k - 1)), IntOf(UptimeAt(r, sent, k)))
  }

  lemma RegressionsOfOneMore(r: Record, sent: seq<Sent>)
    requires sent != []
    ensures var n := |sent| - 1;
            && Regressions(r, sent) == Regressions(r, sent[..n]) + (if RegressedAt(r, sent, n) then {n} else {})
            && n !in Regressions(r, sent[..n])
            && forall k | k in Regressions(r, sent[..n]) ::
                 RegressedAt(r, sent, k) && RebootAt(r, sent, k) == RebootAt(r, sent[..n], k)
  {
  }

  lemma RebootsOfOneMore(m: Schema, r: Record, sent: seq<Sent>)
    requires sent != []
    ensures var n := |sent| - 1;
            After(m, r, sent).reboots
            == After(m, r, sent[..n]).reboots + if RegressedAt(r, sent, n) then [RebootAt(r, sent, n)] else []
  {
  }

  /** One reboot event for every adjacent regression of integer uptimes, and no other. */
  lemma {:induction false} RebootsAreRegressions(m: Schema, r: Record, sent: seq<Sent>)
    ensures |After(m, r, sent).reboots| == |r.reboots| + |Regressions(r, sent)|
    ensures r.reboots <= After(m, r, sent).reboots
    ensures forall k | k in Regressions(r, sent) :: RebootAt(r, sent, k) in After(m, r, sent).reboots
  {
    if sent == [] {
      assert Regressions(r, sent) == {};
    } else {
      RebootsAreRegressions(m, r, sent[..|sent| - 1]);
      RegressionsOfOneMore(r, sent);
      RebootsOfOneMore(m, r, sent);
    }
  }

  /** The recovery edge that heartbeat k made in the hot columns. */
  function EdgeAt(m: Schema, r: Record, sent: seq<Sent>, k: nat): Option<Trigger>
    requires k < |sent|
  {
    Edge(After(m, r, sent[..k]).hot, After(m, r, sent[..k + 1]).hot)
  }

  function Edges(m: Schema, r: Record, sent: seq<Sent>): set<nat> {
    set k: nat | k < |sent| && EdgeAt(m, r, sent, k).Some?
  }

  lemma EdgesOfPrefix(m: Schema, r: Record, sent: seq<Sent>, k: nat)
    requires k < |sent| - 1
    ensures EdgeAt(m, r, sent, k) == EdgeAt(m, r, sent[..|sent| - 1], k)
  {
    var was := sent[..|sent| - 1];
    assert was[..k] == sent[..k] && was[..k + 1] == sent[..k + 1];
  }

  lemma EdgesOfOneMore(m: Schema, r: Record, sent: seq<Sent>)
    requires sent != []
    ensures var n := |sent| - 1;
            && Edges(m, r, sent) == Edges(m, r, sent[..n]) + (if EdgeAt(m, r, sent, n).Some? then {n} else {})
            && n !in Edges(m, r, sent[..n])
            && (forall k: nat | k < n :: EdgeAt(m, r, sent, k) == EdgeAt(m, r, sent[..n], k))
  {
    var n := |sent| - 1;
    forall k: nat | k < n ensures EdgeAt(m, r, sent, k) == EdgeAt(m, r, sent[..n], k) {
      EdgesOfPrefix(m, r, sent, k);
    }
  }

  lemma TriggersOfOneMore(m: Schema, r: Record, sent: seq<Sent>)
    requires sent != []
    ensures var n := |sent| - 1;
            After(m, r, sent).triggers
            == After(m, r, sent[..n]).triggers + if EdgeAt(m, r, sent, n).Some?
                                                 then [(sent[n].at, EdgeAt(m, r, sent, n).value)] else []
  {
    assert sent[..|sent| - 1 + 1] == sent;
  }

  /** One recovery trigger for every edge of the hot columns, at most one a heartbeat, and no other. */
  lemma {:induction false} TriggersAreEdges(m: Schema, r: Record, sent: seq<Sent>)
    ensures |After(m, r, sent).triggers| == |r.triggers| + |Edges(m, r, sent)|
    ensures forall k | k in Edges(m, r, sent) :: (sent[k].at, EdgeAt(m, r, sent, k).value) in After(m, r, sent).triggers
  {
    if sent == [] {
      assert Edges(m, r, sent) == {};
    } else {
      TriggersAreEdges(m, r, sent[..|sent| - 1]);
      EdgesOfOneMore(m, r, sent);
      TriggersOfOneMore(m, r, sent);
    }
  }

  // ---------- the service ----------

  class DeviceRecord {
    var hot: map<string, Json>
    var firmware: Json
    var localIp: Json
    var lastBeat: Option<Time>
    var history: seq<Beat>
    var reboots: seq<Reboot>
    var triggers: seq<(Time, Trigger)>
    const m: Schema

    function Row(): Record
      reads this
    {
      Record(hot, firmware, localIp, lastBeat, history, reboots, triggers)
    }

    constructor ()
      ensures m == FIRMWARE && Row() == Record(map[], Null, Null, None, [], [], [])
    {
      m := FIRMWARE;
      hot, firmware, localIp, lastBeat := map[], Null, Null, None;
      history, reboots, triggers := [], [], [];
    }

    /** Copy the listed fields that the payload carries. */
    method Copy(into: map<string, Json>, p: Payload, fields: seq<string>) returns (out: map<string, Json>)
      ensures out == Carried(into, p, fields)
    {
      out := into;
      for i := 0 to |fields|
        invariant out == Carried(into, p, fields[..i])
      {
        assert fields[..i + 1] == fields[..i] + [fields[i]];
        if fields[i] in p {
          out := out[fields[i] := p[fields[i]]];
        }
      }
      assert fields[..|fields|] == fields;
    }

    /** Add the history row; an uptime below that of the row before means the device restarted in between. */
    method AppendHistory(p: Payload, now: Time)
      modifies this`history, this`reboots
      ensures history == old(history) + [BeatOf(m, Sent(p, now))]
      ensures reboots == old(reboots) + NewReboots(old(history), Get(p, "uptime_seconds"), now)
    {
      var prior := LastKnownUptime(history);
      var uptime := Get(p, "uptime_seconds");
      var status := Copy(map[], p, m.status);
      history := history + [Beat(now, uptime, status)];
      if IsInt(prior) && IsInt(uptime) && IntOf(uptime) < IntOf(prior) {
        reboots := reboots + [Reboot(now, IntOf(prior), IntOf(uptime))];
      }
    }

    /** Refresh the hot columns the payload carries, and read off the recovery edge. */
    method RefreshHot(p: Payload, now: Time) returns (trigger: Option<Trigger>)
      modifies this`hot, this`triggers
      ensures hot == Carried(old(hot), p, m.hot)
      ensures trigger == Edge(old(hot), hot)
      ensures triggers == old(triggers) + if trigger.Some? then [(now, trigger.value)] else []
    {
      var before := hot;
      hot := Copy(hot, p, m.hot);
      trigger := None;
      if !IsTrue(before, "last_known_good_restored") && IsTrue(hot, "last_known_good_restored") {
        trigger := Some(LastKnownGoodRestored);
      } else if IsTrue(before, "recovery_mode") && IsFalse(hot, "recovery_mode") {
        trigger := Some(RecoveryExit);
      }
      if trigger.Some? {
        triggers := triggers + [(now, trigger.value)];
      }
    }

    method RecordHeartbeat(p: Payload, now: Time) returns (trigger: Option<Trigger>)
      modifies this
      ensures Row() == Recorded(m, old(Row()), p, now)
      ensures trigger == Edge(old(hot), hot)
    {
      lastBeat := Some(now);
      if Truthy(Get(p, "firmware_version")) {
        firmware := p["firmware_version"];
      }
      if Truthy(Get(p, "local_ip")) {
        localIp := p["local_ip"];
      }
      AppendHistory(p, now);
      trigger := RefreshHot(p, now);
    }
  }
}
