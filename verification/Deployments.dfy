/** Firmware deployments: each targets a set of devices and gives each of them an assignment row. */
module Deployments {
  import opened Common
  import opened Mac

  datatype State = Pending | Delivered | Completed | Failed | Superseded

  datatype Assignment = Assignment(
    deployment: nat, release: Id, device: Id, state: State, lastReported: Option<string>, error: Option<string>)

  /** A deployment and the devices it resolved to when it was created. */
  datatype Deployment = Deployment(release: Id, targets: set<Id>)

  /** Rows and deployments in the order they were created; releases by id, with their version. */
  datatype Firmware = Firmware(releases: map<Id, string>, deployments: seq<Deployment>, rows: seq<Assignment>)

  datatype Target = OneDevice(id: Option<Id>) | Group(id: Option<Id>) | Site(id: Option<Id>) | AllDevices | OtherTarget

  /** The devices and who belongs where. */
  datatype Fleet = Fleet(sites: map<Id, Option<Id>>, members: map<Id, set<Id>>)

  function Resolved(f: Fleet, t: Target): set<Id> {
    match t
    case OneDevice(id) => if id.Some? && id.value in f.sites then {id.value} else {}
    case Group(id) => if id.Some? && id.value in f.members then f.members[id.value] else {}
    case Site(id) => set d | d in f.sites && id.Some? && f.sites[d] == id
    case AllDevices => f.sites.Keys
    case OtherTarget => {}
  }

  datatype Refusal = BadTarget | NoRelease | NoDevice

  predicate NamesTarget(t: Target) {
    t.AllDevices? || (!t.OtherTarget? && t.id.Some? && t.id.value != "")
  }

  function CreateCheck(fw: Firmware, f: Fleet, release: Id, t: Target): Option<Refusal> {
    if !NamesTarget(t) then Some(BadTarget)
    else if release !in fw.releases then Some(NoRelease)
    else if t.OneDevice? && t.id.value !in f.sites then Some(NoDevice)
    else None
  }

  predicate Active(a: Assignment) {
    a.state == Pending || a.state == Delivered
  }

  // ---------- creating a deployment ----------

  function Stepped(a: Assignment, devices: set<Id>): Assignment {
    if a.device in devices && Active(a) then a.(state := Superseded) else a
  }

  function Assigned(deployment: nat, release: Id, device: Id): Assignment {
    Assignment(deployment, release, device, Pending, None, None)
  }

  function Created(fw: Firmware, release: Id, ids: seq<Id>): Firmware {
    var targets := set d | d in ids;
    fw.(deployments := fw.deployments + [Deployment(release, targets)],
        rows := seq(|fw.rows|, i requires 0 <= i < |fw.rows| => Stepped(fw.rows[i], targets))
                + seq(|ids|, i requires 0 <= i < |ids| => Assigned(|fw.deployments|, release, ids[i])))
  }

  // ---------- a device fetches and reports ----------

  /** The newest row of the device in one of the states wanted. */
  function Newest(rows: seq<Assignment>, device: Id, states: set<State>): (k: Option<nat>)
    ensures k.Some? ==> k.value < |rows| && rows[k.value].device == device && rows[k.value].state in states
    ensures forall i | (match k case None => 0 case Some(v) => v + 1) <= i < |rows| ::
              !(rows[i].device == device && rows[i].state in states)
  {
    if rows == [] then None
    else
      var n := |rows| - 1;
      if rows[n].device == device && rows[n].state in states then Some(n) else Newest(rows[..n], device, states)
  }

  function Fetched(fw: Firmware, device: Id): Firmware {
    var k := Newest(fw.rows, device, {Pending});
    if k.None? then fw else fw.(rows := fw.rows[k.value := fw.rows[k.value].(state := Delivered)])
  }

  function Stripped(v: Option<string>): Option<string> {
    if v.None? || Trim(v.value) == "" then None else Some(Trim(v.value))
  }

  /** The version a row's release is complete at. */
  function Goal(fw: Firmware, a: Assignment): Option<string> {
    if a.release in fw.releases then Stripped(Some(fw.releases[a.release])) else None
  }

  function Told(fw: Firmware, a: Assignment, version: Option<string>, error: Option<string>): Assignment {
    var v := Stripped(version);
    var noted := a.(lastReported := v, error := if error.Some? && error.value != "" then error else a.error);
    if v.Some? && Goal(fw, a) == v then noted.(state := Completed, error := None) else noted
  }

  function Reported(fw: Firmware, device: Id, version: Option<string>, error: Option<string>): Firmware {
    var k := Newest(fw.rows, device, {Pending, Delivered});
    if device == "" || k.None? then fw
    else fw.(rows := fw.rows[k.value := Told(fw, fw.rows[k.value], version, error)])
  }

  // ---------- what every reachable state keeps ----------

  predicate Distinct(ids: seq<Id>) {
    forall i, j | 0 <= i < j < |ids| :: ids[i] != ids[j]
  }

  /** A row belongs to a deployment that targeted its device; if it is active, to the newest such. */
  predicate RowOk(fw: Firmware, a: Assignment) {
    && a.deployment < |fw.deployments|
    && a.release == fw.deployments[a.deployment].release
    && a.device in fw.deployments[a.deployment].targets
    && a.release in fw.releases
    && (Active(a) ==> forall d | a.deployment < d < |fw.deployments| :: a.device !in fw.deployments[d].targets)
    && (a.state == Completed
        ==> a.lastReported.Some? && a.lastReported == Stripped(Some(fw.releases[a.release])) && a.error.None?)
  }

  predicate OneActive(rows: seq<Assignment>) {
    forall i, j | 0 <= i < j < |rows| && rows[i].device == rows[j].device :: !(Active(rows[i]) && Active(rows[j]))
  }

  predicate Inv(fw: Firmware) {
    OneActive(fw.rows) && forall i | 0 <= i < |fw.rows| :: RowOk(fw, fw.rows[i])
  }

  /** Rows that are over stay as they are, and no row is lost. */
  predicate Frozen(before: Firmware, after: Firmware) {
    && |before.rows| <= |after.rows|
    && (forall i | 0 <= i < |before.rows| && !Active(before.rows[i]) :: after.rows[i] == before.rows[i])
    && (forall i | 0 <= i < |before.rows| ::
          after.rows[i].device == before.rows[i].device && after.rows[i].deployment == before.rows[i].deployment)
  }

  lemma CreatedRowsOk(fw: Firmware, release: Id, ids: seq<Id>)
    requires Inv(fw) && Distinct(ids) && release in fw.releases
    ensures var after := Created(fw, release, ids); forall i | 0 <= i < |after.rows| :: RowOk(after, after.rows[i])
  {
    var after := Created(fw, release, ids);
    forall i | 0 <= i < |after.rows| ensures RowOk(after, after.rows[i]) {
      if i < |fw.rows| {
        assert RowOk(fw, fw.rows[i]);
      } else {
        assert ids[i - |fw.rows|] in ids;
      }
    }
  }

  lemma CreatedForEach(fw: Firmware, release: Id, ids: seq<Id>)
    ensures var after := Created(fw, release, ids);
            forall d | d in ids ::
              exists i :: |fw.rows| <= i < |fw.rows| + |ids| && after.rows[i] == Assigned(|fw.deployments|, release, d)
  {
    var after := Created(fw, release, ids);
    forall d | d in ids
      ensures exists i :: |fw.rows| <= i < |fw.rows| + |ids| && after.rows[i] == Assigned(|fw.deployments|, release, d)
    {
      var k :| 0 <= k < |ids| && ids[k] == d;
      assert after.rows[|fw.rows| + k] == Assigned(|fw.deployments|, release, d);
    }
  }

  lemma CreateKeepsInv(fw: Firmware, release: Id, ids: seq<Id>)
    requires Inv(fw) && Distinct(ids) && release in fw.releases
    ensures Inv(Created(fw, release, ids)) && Frozen(fw, Created(fw, release, ids))
    ensures forall d | d in ids :: exists i ::
              |fw.rows| <= i < |fw.rows| + |ids|
              && Created(fw, release, ids).rows[i] == Assigned(|fw.deployments|, release, d)
  {
    CreatedRowsOk(fw, release, ids);
    CreatedForEach(fw, release, ids);
  }

  lemma FetchKeepsInv(fw: Firmware, device: Id)
    requires Inv(fw)
    ensures Inv(Fetched(fw, device)) && Frozen(fw, Fetched(fw, device))
  {
  }

  lemma ReportKeepsInv(fw: Firmware, device: Id, version: Option<string>, error: Option<string>)
    requires Inv(fw)
    ensures Inv(Reported(fw, device, version, error)) && Frozen(fw, Reported(fw, device, version, error))
  {
  }

  datatype Act =
    | Create(fleet: Fleet, release: Id, target: Target, ids: seq<Id>)
    | Fetch(device: Id)
    | Report(device: Id, version: Option<string>, error: Option<string>)

  /** The ids are what the query for the target returns, in some order. */
  predicate Resolves(act: Act) {
    act.Create? ==> Distinct(act.ids) && (set d | d in act.ids) == Resolved(act.fleet, act.target)
  }

  function Step(fw: Firmware, act: Act): Firmware {
    match act
    case Create(fleet, release, target, ids) =>
      if CreateCheck(fw, fleet, release, target).None? then Created(fw, release, ids) else fw
    case Fetch(device) => Fetched(fw, device)
    case Report(device, version, error) => Reported(fw, device, version, error)
  }

  lemma StepKeepsInv(fw: Firmware, act: Act)
    requires Inv(fw) && Resolves(act)
    ensures Inv(Step(fw, act)) && Frozen(fw, Step(fw, act))
  {
    match act
    case Create(fleet, release, target, ids) =>
      if CreateCheck(fw, fleet, release, target).None? { CreateKeepsInv(fw, release, ids); }
    case Fetch(device) => FetchKeepsInv(fw, device);
    case Report(device, version, error) => ReportKeepsInv(fw, device, version, error);
  }

  function After(fw: Firmware, acts: seq<Act>): Firmware
    decreases |acts|
  {
    if acts == [] then fw else After(Step(fw, acts[0]), acts[1..])
  }

  /**
   In every reachable state each device has at most one active assignment, of the newest
   deployment that targeted it; rows that are over never change; and a completed row last heard
   exactly its release's version, without an error.
   */
  lemma {:induction false} AssignmentsAlongRuns(fw: Firmware, acts: seq<Act>)
    requires Inv(fw) && forall i | 0 <= i < |acts| :: Resolves(acts[i])
    ensures Inv(After(fw, acts)) && Frozen(fw, After(fw, acts))
    decreases |acts|
  {
    if acts != [] {
      assert Resolves(acts[0]);
      StepKeepsInv(fw, acts[0]);
      assert forall i | 0 <= i < |acts[1..]| :: acts[1..][i] == acts[i + 1];
      AssignmentsAlongRuns(Step(fw, acts[0]), acts[1..]);
    }
  }

  /** A report completes the device's active row exactly when it names the release's version, whitespace aside. */
  lemma ReportCompletesExactly(fw: Firmware, device: Id, i: nat, version: Option<string>, error: Option<string>)
    requires Inv(fw) && device != "" && i < |fw.rows| && fw.rows[i].device == device && Active(fw.rows[i])
    ensures var row := Reported(fw, device, version, error).rows[i];
            && (row.state == Completed
                <==> Stripped(version).Some? && Stripped(version) == Stripped(Some(fw.releases[row.release])))
            && (row.state != Completed ==> row.state == fw.rows[i].state)
            && forall j | 0 <= j < |fw.rows| && j != i :: Reported(fw, device, version, error).rows[j] == fw.rows[j]
  {
  }

  // ---------- the service ----------

  class FirmwareService {
    var releases: map<Id, string>
    var deployments: seq<Deployment>
    var rows: seq<Assignment>

    function Tables(): Firmware
      reads this
    {
      Firmware(releases, deployments, rows)
    }

    constructor (releases: map<Id, string>)
      ensures Tables() == Firmware(releases, [], []) && Inv(Tables())
    {
      this.releases, deployments, rows := releases, [], [];
    }

    /** Supersede what is active on the targeted devices, then assign each of them. */
    method CreateDeployment(fleet: Fleet, release: Id, target: Target, ids: seq<Id>) returns (refused: Option<Refusal>)
      requires Resolves(Create(fleet, release, target, ids))
      modifies this
      ensures refused == CreateCheck(old(Tables()), fleet, release, target)
      ensures Tables() == Step(old(Tables()), Create(fleet, release, target, ids))
    {
      refused := CreateCheck(Tables(), fleet, release, target);
      if refused.Some? {
        return;
      }
      ghost var before := rows;
      var targets := set d | d in ids;
      for i := 0 to |rows|
        invariant |rows| == |before| && deployments == old(deployments) && releases == old(releases)
        invariant forall j | 0 <= j < |rows| :: rows[j] == if j < i then Stepped(before[j], targets) else before[j]
      {
        if rows[i].device in ids && Active(rows[i]) {
          rows := rows[i := rows[i].(state := Superseded)];
        }
      }
      ghost var superseded := rows;
      for i := 0 to |ids|
        invariant |rows| == |superseded| + i && deployments == old(deployments) && releases == old(releases)
        invariant forall k | 0 <= k < |superseded| :: rows[k] == superseded[k]
        invariant forall k | |superseded| <= k < |rows| ::
                    rows[k] == Assigned(|deployments|, release, ids[k - |superseded|])
      {
        rows := rows + [Assigned(|deployments|, release, ids[i])];
      }
      ghost var wanted := Created(old(Tables()), release, ids).rows;
      assert forall k | 0 <= k < |wanted| :: rows[k] == wanted[k];
      deployments := deployments + [Deployment(release, targets)];
    }

    /** The newest matching row, read off a descending scan. */
    method FindNewest(device: Id, states: set<State>) returns (k: Option<nat>)
      ensures k == Newest(rows, device, states)
    {
      var i := |rows|;
      assert rows[..i] == rows;
      while i > 0
        invariant 0 <= i <= |rows|
        invariant Newest(rows, device, states) == Newest(rows[..i], device, states)
      {
        i := i - 1;
        assert rows[..i + 1][..i] == rows[..i];
        if rows[i].device == device && rows[i].state in states {
          return Some(i);
        }
      }
      return None;
    }

    method MarkAssignmentDelivered(device: Id)
      modifies this`rows
      ensures Tables() == Step(old(Tables()), Fetch(device))
    {
      var k := FindNewest(device, {Pending});
      if k.Some? {
        rows := rows[k.value := rows[k.value].(state := Delivered)];
      }
    }

    method ReconcileReportedVersion(device: Id, version: Option<string>, error: Option<string>)
      modifies this`rows
      ensures Tables() == Step(old(Tables()), Report(device, version, error))
    {
      var normalized := Stripped(version);
      if device == "" {
        return;
      }
      var k := FindNewest(device, {Pending, Delivered});
      if k.None? {
        return;
      }
      var a := rows[k.value];
      if a.lastReported != normalized {
        a := a.(lastReported := normalized);
      }
      if error.Some? && error.value != "" && a.error != error {
        a := a.(error := error);
      }
      var goal := Goal(Tables(), a);
      if normalized.Some? && normalized == goal {
        a := a.(state := Completed);
        a := a.(error := None);
      }
      rows := rows[k.value := a];
    }
  }
}
