/**
 Registrations as the transactions they are: each locks its token row, decides, and commits or
 rolls back, and the steps of different transactions interleave with each other and with
 minting, revoking and every other write to the devices table.
 */
module EnrollmentRuns {
  import opened Common
  import opened Mac
  import opened Enrollment

  /** An open transaction: the token row it holds, and what it will write once it has decided. */
  datatype Tx = Tx(token: Id, registration: Registration, now: Time, plan: Option<Plan>)

  /** One committed registration. */
  datatype Redemption = Redemption(token: Id, device: Id, created: bool)

  datatype Hub = Hub(reg: Registry, open: map<Id, Tx>, log: seq<Redemption>)

  datatype Step =
    | Lock(tx: Id, secret: string, registration: Registration, now: Time)
    | Decide(tx: Id)
    | Finish(tx: Id, draw: Draw)
    | Abort(tx: Id)
    | Mint(token: Id, row: Token)
    | Revoke(token: Id)
    | Write(device: Id, facts: Device)
    | Remove(device: Id)

  ghost predicate Locked(hub: Hub, token: Id) {
    exists tx :: tx in hub.open && hub.open[tx].token == token
  }

  /** Which steps can be taken: a held row blocks, ids and secrets that are drawn are new. */
  ghost predicate Enabled(hub: Hub, step: Step) {
    match step
    case Lock(tx, secret, _, _) =>
      tx !in hub.open && (forall id :: Owns(hub.reg, id, secret) ==> !Locked(hub, id))
    case Decide(tx) => tx in hub.open && hub.open[tx].plan.None?
    case Finish(tx, draw) =>
      && tx in hub.open
      && hub.open[tx].plan.Some?
      && Unused(hub.reg, draw)
      && (hub.open[tx].plan.value.Restore? ==> hub.open[tx].plan.value.device in hub.reg.devices)
    case Abort(tx) => tx in hub.open
    case Mint(token, row) =>
      && token !in hub.reg.tokens
      && row.consumedAt.None?
      && (forall t | t in hub.reg.tokens :: hub.reg.tokens[t].secret != row.secret)
    case Revoke(token) => !Locked(hub, token)
    case Write(device, _) => device in hub.reg.devices || forall i | 0 <= i < |hub.log| :: hub.log[i].device != device
    case Remove(device) => forall tx | tx in hub.open :: !Names(hub.reg, hub.open[tx].token, device)
  }

  /** Deleting the device would rewrite this token row. */
  predicate Names(reg: Registry, token: Id, device: Id) {
    token in reg.tokens && Some(device) in {reg.tokens[token].target, reg.tokens[token].consumedBy}
  }

  ghost function Next(hub: Hub, step: Step): Hub
    requires Held(hub) && Enabled(hub, step)
  {
    var reg := hub.reg;
    match step
    case Lock(tx, secret, p, now) =>
      if Lookup(reg, secret).None? then hub
      else hub.(open := hub.open[tx := Tx(Lookup(reg, secret).value, p, now, None)])
    case Decide(tx) =>
      var t := hub.open[tx];
      (match Check(reg, Some(t.token), t.registration, t.now)
       case Rejected(_) => hub.(open := hub.open - {tx})
       case Redeem(_, plan) => hub.(open := hub.open[tx := t.(plan := Some(plan))]))
    case Finish(tx, draw) =>
      var t := hub.open[tx];
      Hub(Commit(reg, t.token, t.plan.value, t.registration, t.now, draw),
          hub.open - {tx},
          hub.log + [Redemption(t.token, TargetOf(t.plan.value, draw), t.plan.value.Fresh?)])
    case Abort(tx) => hub.(open := hub.open - {tx})
    case Mint(token, row) => hub.(reg := reg.(tokens := reg.tokens[token := row]))
    case Revoke(token) =>
      if token !in reg.tokens || reg.tokens[token].consumedAt.Some? then hub
      else hub.(reg := reg.(tokens := reg.tokens - {token}))
    case Write(device, facts) => hub.(reg := reg.(devices := reg.devices[device := facts]))
    case Remove(device) =>
      hub.(reg := WithoutDevice(reg, device))
  }

  // ---------- at most once ----------

  /** Open transactions hold existing tokens, and one that has decided holds a live one. */
  ghost predicate Held(hub: Hub) {
    forall tx | tx in hub.open ::
      && hub.open[tx].token in hub.reg.tokens
      && (hub.open[tx].plan.Some? ==> hub.reg.tokens[hub.open[tx].token].consumedAt.None?)
      && (hub.open[tx].plan.Some?
          ==> (hub.open[tx].plan.value.Restore? <==> Given(hub.reg.tokens[hub.open[tx].token].target)))
  }

  ghost predicate Exclusive(hub: Hub) {
    forall a, b | a in hub.open && b in hub.open && hub.open[a].token == hub.open[b].token :: a == b
  }

  /** The log names redeemed tokens, none twice. */
  ghost predicate RedeemedOnce(hub: Hub) {
    && (forall i | 0 <= i < |hub.log| ::
          && hub.log[i].token in hub.reg.tokens
          && hub.reg.tokens[hub.log[i].token].consumedAt.Some?)
    && (forall i, j | 0 <= i < j < |hub.log| :: hub.log[i].token != hub.log[j].token)
  }

  /** The token rows say what the log says: which device, and whether it was created. */
  ghost predicate RowsAgree(hub: Hub) {
    forall i | 0 <= i < |hub.log| && hub.log[i].token in hub.reg.tokens ::
      && hub.reg.tokens[hub.log[i].token].consumedBy == Some(hub.log[i].device)
      && (hub.log[i].created <==> !Given(hub.reg.tokens[hub.log[i].token].target))
  }

  ghost predicate HasCredential(reg: Registry, device: Id) {
    exists c :: c in reg.credentials && reg.credentials[c].device == device
  }

  /** Every registered device that still exists has a credential; Sound says: exactly one. */
  ghost predicate Credentialed(hub: Hub) {
    forall i | 0 <= i < |hub.log| && hub.log[i].device in hub.reg.devices :: HasCredential(hub.reg, hub.log[i].device)
  }

  ghost predicate Inv(hub: Hub) {
    Sound(hub.reg) && Held(hub) && Exclusive(hub) && RedeemedOnce(hub) && Credentialed(hub)
  }

  lemma StepKeepsSound(hub: Hub, step: Step)
    requires Inv(hub) && Enabled(hub, step)
    ensures Sound(Next(hub, step).reg)
  {
  }

  lemma StepKeepsHeld(hub: Hub, step: Step)
    requires Held(hub) && Exclusive(hub) && Enabled(hub, step)
    ensures Held(Next(hub, step))
  {
  }

  lemma StepKeepsExclusive(hub: Hub, step: Step)
    requires Inv(hub) && Enabled(hub, step)
    ensures Exclusive(Next(hub, step))
  {
  }

  lemma StepKeepsRedeemedOnce(hub: Hub, step: Step)
    requires Inv(hub) && Enabled(hub, step)
    ensures RedeemedOnce(Next(hub, step))
  {
  }

  lemma StepKeepsCredentialed(hub: Hub, step: Step)
    requires Inv(hub) && Enabled(hub, step)
    ensures Credentialed(Next(hub, step))
  {
    var after := Next(hub, step);
    forall i | 0 <= i < |after.log| && after.log[i].device in after.reg.devices
      ensures HasCredential(after.reg, after.log[i].device)
    {
      var device := after.log[i].device;
      if step.Finish? && device == TargetOf(hub.open[step.tx].plan.value, step.draw) {
        assert step.draw.credential in after.reg.credentials;
      } else {
        assert i < |hub.log| && device == hub.log[i].device;
        if device in hub.reg.devices {
          var c :| c in hub.reg.credentials && hub.reg.credentials[c].device == device;
          assert c in after.reg.credentials;
        }
      }
    }
  }

  lemma StepKeepsInv(hub: Hub, step: Step)
    requires Inv(hub) && Enabled(hub, step)
    ensures Inv(Next(hub, step))
  {
    StepKeepsSound(hub, step);
    StepKeepsHeld(hub, step);
    StepKeepsExclusive(hub, step);
    StepKeepsRedeemedOnce(hub, step);
    StepKeepsCredentialed(hub, step);
  }

  ghost predicate RunOf(hub: Hub, steps: seq<Step>)
    requires Inv(hub)
    decreases |steps|
  {
    steps != [] ==>
      Enabled(hub, steps[0]) && (StepKeepsInv(hub, steps[0]); RunOf(Next(hub, steps[0]), steps[1..]))
  }

  ghost function After(hub: Hub, steps: seq<Step>): (r: Hub)
    requires Inv(hub) && RunOf(hub, steps)
    ensures Inv(r)
    decreases |steps|
  {
    if steps == [] then hub else StepKeepsInv(hub, steps[0]); After(Next(hub, steps[0]), steps[1..])
  }

  lemma {:induction false} LogOnlyGrows(hub: Hub, steps: seq<Step>)
    requires Inv(hub) && RunOf(hub, steps)
    ensures hub.log <= After(hub, steps).log
    decreases |steps|
  {
    if steps != [] {
      StepKeepsInv(hub, steps[0]);
      LogOnlyGrows(Next(hub, steps[0]), steps[1..]);
    }
  }

  /**
   However the steps of any registrations interleave: no token is redeemed twice, a redemption
   is never undone, and each registered device that still exists has exactly one credential.
   */
  lemma EnrolledAtMostOnce(hub: Hub, steps: seq<Step>)
    requires Inv(hub) && RunOf(hub, steps)
    ensures var end := After(hub, steps);
            && hub.log <= end.log
            && (forall i, j | 0 <= i < |end.log| && 0 <= j < |end.log| && end.log[i].token == end.log[j].token ::
                  i == j)
            && (forall i | 0 <= i < |end.log| && end.log[i].device in end.reg.devices ::
                  exists c :: c in end.reg.credentials && end.reg.credentials[c].device == end.log[i].device
                    && forall d | d in end.reg.credentials && end.reg.credentials[d].device == end.log[i].device ::
                         d == c)
  {
    LogOnlyGrows(hub, steps);
    var end := After(hub, steps);
    forall i | 0 <= i < |end.log| && end.log[i].device in end.reg.devices
      ensures exists c :: c in end.reg.credentials && end.reg.credentials[c].device == end.log[i].device
                && forall d | d in end.reg.credentials && end.reg.credentials[d].device == end.log[i].device :: d == c
    {
      assert HasCredential(end.reg, end.log[i].device);
    }
  }

  // ---------- one device per fresh token ----------

  /** The devices that committed fresh registrations created. */
  ghost function Created(log: seq<Redemption>): set<Id> {
    set i | 0 <= i < |log| && log[i].created :: log[i].device
  }

  /** The table holds the devices of the start and those created since, one for each fresh redemption. */
  ghost predicate Accounted(start: set<Id>, hub: Hub) {
    && hub.reg.devices.Keys == start + Created(hub.log)
    && start !! Created(hub.log)
    && (forall i, j | 0 <= i < j < |hub.log| && hub.log[i].created && hub.log[j].created ::
          hub.log[i].device != hub.log[j].device)
    && RowsAgree(hub)
    && (forall t | t in hub.reg.tokens && hub.reg.tokens[t].consumedAt.Some? :: Logged(hub.log, t))
  }

  /** No other writer adds or removes devices in this step. */
  predicate KeepsDevices(hub: Hub, step: Step) {
    (step.Write? ==> step.device in hub.reg.devices) && !step.Remove?
  }

  lemma CreatedByOneMore(log: seq<Redemption>, last: Redemption)
    ensures Created(log + [last]) == Created(log) + if last.created then {last.device} else {}
  {
    var more := log + [last];
    forall d | d in Created(log) ensures d in Created(more) {
      var i :| 0 <= i < |log| && log[i].created && log[i].device == d;
      assert more[i] == log[i];
    }
    assert more[|log|] == last;
  }

  ghost predicate Logged(log: seq<Redemption>, token: Id) {
    exists i :: 0 <= i < |log| && log[i].token == token
  }

  lemma StepKeepsRowsAgree(hub: Hub, step: Step)
    requires Held(hub) && RedeemedOnce(hub) && Enabled(hub, step) && RowsAgree(hub) && !step.Remove?
    ensures RowsAgree(Next(hub, step))
  {
  }

  lemma LoggedOneMore(log: seq<Redemption>, last: Redemption, token: Id)
    ensures Logged(log + [last], token) <==> Logged(log, token) || token == last.token
  {
    var more := log + [last];
    assert more[|log|] == last;
    if Logged(log, token) {
      var i :| 0 <= i < |log| && log[i].token == token;
      assert more[i] == log[i];
    }
  }

  lemma FinishKeepsAccounted(start: set<Id>, hub: Hub, tx: Id, draw: Draw)
    requires Held(hub) && RedeemedOnce(hub) && Accounted(start, hub) && Enabled(hub, Finish(tx, draw))
    ensures Accounted(start, Next(hub, Finish(tx, draw)))
  {
    var after := Next(hub, Finish(tx, draw));
    var last := after.log[|hub.log|];
    CreatedByOneMore(hub.log, last);
    StepKeepsRowsAgree(hub, Finish(tx, draw));
    forall i | 0 <= i < |hub.log| && hub.log[i].created ensures hub.log[i].device in Created(hub.log) {}
    forall t { LoggedOneMore(hub.log, last, t); }
  }

  lemma StepKeepsAccounted(start: set<Id>, hub: Hub, step: Step)
    requires Held(hub) && RedeemedOnce(hub) && Enabled(hub, step) && Accounted(start, hub) && KeepsDevices(hub, step)
    ensures Accounted(start, Next(hub, step))
  {
    if step.Finish? {
      FinishKeepsAccounted(start, hub, step.tx, step.draw);
    } else {
      StepKeepsRowsAgree(hub, step);
    }
  }

  ghost predicate KeepsDevicesAlong(hub: Hub, steps: seq<Step>)
    requires Inv(hub) && RunOf(hub, steps)
    decreases |steps|
  {
    steps != [] ==>
      KeepsDevices(hub, steps[0]) && (StepKeepsInv(hub, steps[0]); KeepsDevicesAlong(Next(hub, steps[0]), steps[1..]))
  }

  /** A redeemed token that named no target. */
  predicate SpentFresh(reg: Registry, token: Id) {
    token in reg.tokens && reg.tokens[token].consumedAt.Some? && !Given(reg.tokens[token].target)
  }

  /** The devices beyond those of the start are, one to one, the consumers of spent fresh tokens. */
  ghost predicate OneToOne(start: set<Id>, reg: Registry) {
    && (forall t ::
          SpentFresh(reg, t) ==> reg.tokens[t].consumedBy.Some?
                                 && reg.tokens[t].consumedBy.value in reg.devices.Keys - start)
    && (forall d | d in reg.devices.Keys - start ::
          exists t :: SpentFresh(reg, t) && reg.tokens[t].consumedBy == Some(d))
    && (forall t, u ::
          SpentFresh(reg, t) && SpentFresh(reg, u) && reg.tokens[t].consumedBy == reg.tokens[u].consumedBy ==> t == u)
  }

  lemma AccountedIsOneToOne(start: set<Id>, hub: Hub)
    requires RedeemedOnce(hub) && Accounted(start, hub)
    ensures OneToOne(start, hub.reg)
  {
  }

  /** Devices created are exactly fresh tokens redeemed, over every run. */
  lemma {:induction false} OneDevicePerFreshToken(start: set<Id>, hub: Hub, steps: seq<Step>)
    requires Inv(hub) && Accounted(start, hub) && RunOf(hub, steps) && KeepsDevicesAlong(hub, steps)
    ensures OneToOne(start, After(hub, steps).reg)
    decreases |steps|
  {
    if steps == [] {
      AccountedIsOneToOne(start, hub);
    } else {
      StepKeepsAccounted(start, hub, steps[0]);
      StepKeepsInv(hub, steps[0]);
      OneDevicePerFreshToken(start, Next(hub, steps[0]), steps[1..]);
    }
  }

  // ---------- two devices of one MAC ----------

  predicate ActiveMac(reg: Registry, device: Id, mac: string) {
    device in reg.devices && reg.devices[device].state == Active && TrimUpper(reg.devices[device].mac) == mac
  }

  /** No two active devices share a non-empty trimmed, upper-cased MAC. */
  ghost predicate NoTwins(reg: Registry) {
    forall a, b, mac :: mac != "" && ActiveMac(reg, a, mac) && ActiveMac(reg, b, mac) ==> a == b
  }

  /** The MAC the device of a committed plan ends up with. */
  function PlannedMac(reg: Registry, plan: Plan, p: Registration): string
    requires plan.Restore? ==> plan.device in reg.devices
  {
    TrimUpper(if plan.Restore? && !plan.setMac then reg.devices[plan.device].mac else p.mac)
  }

  /** The device of a committed plan ends up active: restored rows were made active when the plan was decided. */
  predicate EndsActive(reg: Registry, plan: Plan)
    requires plan.Restore? ==> plan.device in reg.devices
  {
    plan.Restore? ==> plan.activate || reg.devices[plan.device].state == Active
  }

  /** Another active device has this MAC. */
  ghost predicate Taken(reg: Registry, mac: string, but: Id) {
    mac != "" && exists d :: d != but && ActiveMac(reg, d, mac)
  }

  /** A commit makes twins exactly when another active device has the MAC by then. */
  lemma CommitMakesTwinsExactly(reg: Registry, token: Id, plan: Plan, p: Registration, now: Time, draw: Draw)
    requires NoTwins(reg) && token in reg.tokens && (plan.Restore? ==> plan.device in reg.devices)
    ensures NoTwins(Commit(reg, token, plan, p, now, draw))
            <==> !(EndsActive(reg, plan) && Taken(reg, PlannedMac(reg, plan, p), TargetOf(plan, draw)))
  {
    var after := Commit(reg, token, plan, p, now, draw);
    var device, mac := TargetOf(plan, draw), PlannedMac(reg, plan, p);
    assert EndsActive(reg, plan) <==> ActiveMac(after, device, mac);
    assert forall d, m | d != device :: ActiveMac(after, d, m) <==> ActiveMac(reg, d, m);
    if EndsActive(reg, plan) && Taken(reg, mac, device) {
      var d :| d != device && ActiveMac(reg, d, mac);
      assert ActiveMac(after, d, mac);
    }
  }

  /** A registration nothing else interrupts never adds a twin: a fresh one is refused instead. */
  lemma SerialFreshNeverMakesTwins(reg: Registry, token: Option<Id>, p: Registration, now: Time, draw: Draw)
    requires NoTwins(reg) && Unused(reg, draw)
    requires token.Some? ==> token.value in reg.tokens && !Given(reg.tokens[token.value].target)
    ensures NoTwins(Register(reg, token, p, now, draw).0)
  {
    var c := Check(reg, token, p, now);
    if c.Redeem? {
      CommitMakesTwinsExactly(reg, c.token, c.plan, p, now, draw);
      assert forall d :: ActiveMac(reg, d, TrimUpper(p.mac)) ==> ActiveWithMac(reg, TrimUpper(p.mac));
    }
  }

  /** A MAC no active device other than this has and no other open registration brings. */
  ghost predicate Clear(hub: Hub, mac: string, device: Id, tx: Option<Id>) {
    && !Taken(hub.reg, mac, device)
    && (mac != "" ==> forall x | x in hub.open && Some(x) != tx :: TrimUpper(hub.open[x].registration.mac) != mac)
  }

  /** What other writers and operators respect: one MAC at a time is registered, restored or activated. */
  ghost predicate OneMacAtATime(hub: Hub, step: Step)
    requires Enabled(hub, step)
  {
    match step
    case Lock(tx, _, p, _) =>
      TrimUpper(p.mac) != "" ==> forall x | x in hub.open :: TrimUpper(hub.open[x].registration.mac) != TrimUpper(p.mac)
    case Finish(tx, draw) =>
      var t := hub.open[tx];
      t.plan.value.Restore? && EndsActive(hub.reg, t.plan.value) ==>
        Clear(hub, PlannedMac(hub.reg, t.plan.value, t.registration), t.plan.value.device, Some(tx))
    case Write(device, row) => row.state == Active ==> Clear(hub, TrimUpper(row.mac), device, None)
    case _ => true
  }

  /** The open fresh registrations bring MACs that are still free, all different. */
  ghost predicate StillFree(hub: Hub) {
    && (forall x | x in hub.open && hub.open[x].plan.Some? && hub.open[x].plan.value.Fresh? ::
          forall d, mac :: mac == TrimUpper(hub.open[x].registration.mac) && mac != "" ==> !ActiveMac(hub.reg, d, mac))
    && (forall x, y | x in hub.open && y in hub.open && x != y ::
          TrimUpper(hub.open[x].registration.mac) == TrimUpper(hub.open[y].registration.mac)
          ==> TrimUpper(hub.open[x].registration.mac) == "")
  }

  lemma FinishKeepsMacsApart(hub: Hub, tx: Id, draw: Draw)
    requires Held(hub) && Enabled(hub, Finish(tx, draw)) && OneMacAtATime(hub, Finish(tx, draw)) && NoTwins(hub.reg)
    requires StillFree(hub)
    ensures NoTwins(Next(hub, Finish(tx, draw)).reg) && StillFree(Next(hub, Finish(tx, draw)))
  {
    var t := hub.open[tx];
    var after := Next(hub, Finish(tx, draw));
    var device, mac := TargetOf(t.plan.value, draw), PlannedMac(hub.reg, t.plan.value, t.registration);
    CommitMakesTwinsExactly(hub.reg, t.token, t.plan.value, t.registration, t.now, draw);
    assert forall d, m | d != device :: ActiveMac(after.reg, d, m) <==> ActiveMac(hub.reg, d, m);
    assert forall m | ActiveMac(after.reg, device, m) :: m == mac && EndsActive(hub.reg, t.plan.value);
  }

  lemma WriteKeepsMacsApart(hub: Hub, device: Id, facts: Device)
    requires Held(hub) && Enabled(hub, Write(device, facts)) && OneMacAtATime(hub, Write(device, facts))
    requires NoTwins(hub.reg) && StillFree(hub)
    ensures NoTwins(Next(hub, Write(device, facts)).reg) && StillFree(Next(hub, Write(device, facts)))
  {
    var after := Next(hub, Write(device, facts));
    assert forall d, m | d != device :: ActiveMac(after.reg, d, m) <==> ActiveMac(hub.reg, d, m);
    assert forall m | ActiveMac(after.reg, device, m) :: m == TrimUpper(facts.mac) && facts.state == Active;
  }

  lemma FewerDevicesKeepMacsApart(hub: Hub, after: Hub)
    requires NoTwins(hub.reg) && StillFree(hub)
    requires forall d, m | ActiveMac(after.reg, d, m) :: ActiveMac(hub.reg, d, m)
    requires forall x | x in after.open :: x in hub.open && after.open[x] == hub.open[x]
    ensures NoTwins(after.reg) && StillFree(after)
  {
  }

  lemma DecideKeepsMacsApart(hub: Hub, tx: Id)
    requires Held(hub) && Enabled(hub, Decide(tx)) && NoTwins(hub.reg) && StillFree(hub)
    ensures NoTwins(Next(hub, Decide(tx)).reg) && StillFree(Next(hub, Decide(tx)))
  {
  }

  lemma StepKeepsMacsApart(hub: Hub, step: Step)
    requires Held(hub) && Enabled(hub, step) && OneMacAtATime(hub, step) && NoTwins(hub.reg) && StillFree(hub)
    ensures NoTwins(Next(hub, step).reg) && StillFree(Next(hub, step))
  {
    match step
    case Finish(tx, draw) => FinishKeepsMacsApart(hub, tx, draw);
    case Decide(tx) => DecideKeepsMacsApart(hub, tx);
    case Write(device, facts) => WriteKeepsMacsApart(hub, device, facts);
    case Lock(_, _, _, _) =>
    case _ => FewerDevicesKeepMacsApart(hub, Next(hub, step));
  }

  ghost predicate OneMacAtATimeAlong(hub: Hub, steps: seq<Step>)
    requires Inv(hub) && RunOf(hub, steps)
    decreases |steps|
  {
    steps != [] ==>
      OneMacAtATime(hub, steps[0]) && (StepKeepsInv(hub, steps[0]); OneMacAtATimeAlong(Next(hub, steps[0]), steps[1..]))
  }

  /** As long as no MAC is registered twice at once, interleaving makes no twins either. */
  lemma {:induction false} NoTwinsAlongRuns(hub: Hub, steps: seq<Step>)
    requires Inv(hub) && RunOf(hub, steps) && OneMacAtATimeAlong(hub, steps) && NoTwins(hub.reg) && StillFree(hub)
    ensures NoTwins(After(hub, steps).reg)
    decreases |steps|
  {
    if steps != [] {
      StepKeepsMacsApart(hub, steps[0]);
      StepKeepsInv(hub, steps[0]);
      NoTwinsAlongRuns(Next(hub, steps[0]), steps[1..]);
    }
  }

  /** A token that a fresh registration of p may redeem. */
  predicate Usable(reg: Registry, token: Id, now: Time) {
    token in reg.tokens && reg.tokens[token].consumedAt.None? && reg.tokens[token].expiresAt > now
    && !Given(reg.tokens[token].target)
  }

  function PlanFor(reg: Registry, token: Id, p: Registration): Plan
    requires token in reg.tokens
  {
    var name := Or(p.name, reg.tokens[token].nameHint);
    Fresh(if name.Some? then name.value else "")
  }

  lemma LockTakes(hub: Hub, tx: Id, token: Id, p: Registration, now: Time)
    requires Inv(hub) && tx !in hub.open && token in hub.reg.tokens && !Locked(hub, token)
    ensures var step := Lock(tx, hub.reg.tokens[token].secret, p, now);
            && Enabled(hub, step)
            && Inv(Next(hub, step))
            && Next(hub, step) == hub.(open := hub.open[tx := Tx(token, p, now, None)])
  {
    LookupIsUnique(hub.reg, token, hub.reg.tokens[token].secret);
    StepKeepsInv(hub, Lock(tx, hub.reg.tokens[token].secret, p, now));
  }

  /** An undecided transaction whose checks would pass now. */
  predicate Succeeds(hub: Hub, tx: Id) {
    && tx in hub.open
    && var t := hub.open[tx];
    && t.plan.None?
    && ValidRegistration(t.registration)
    && !ActiveWithMac(hub.reg, TrimUpper(t.registration.mac))
    && Usable(hub.reg, t.token, t.now)
  }

  lemma DecideTakes(hub: Hub, tx: Id)
    requires Inv(hub) && Succeeds(hub, tx)
    ensures var t := hub.open[tx];
            && Inv(Next(hub, Decide(tx)))
            && Next(hub, Decide(tx))
               == hub.(open := hub.open[tx := t.(plan := Some(PlanFor(hub.reg, t.token, t.registration)))])
  {
  }

  lemma RunOfOne(hub: Hub, step: Step)
    requires Inv(hub) && Enabled(hub, step)
    ensures RunOf(hub, [step]) && After(hub, [step]) == Next(hub, step)
  {
  }

  lemma RunOfMore(hub: Hub, step: Step, steps: seq<Step>)
    requires Inv(hub) && Enabled(hub, step) && Inv(Next(hub, step)) && RunOf(Next(hub, step), steps)
    ensures RunOf(hub, [step] + steps) && After(hub, [step] + steps) == After(Next(hub, step), steps)
  {
  }

  lemma RunOfTwo(hub: Hub, s: Step, t: Step)
    requires Inv(hub) && Enabled(hub, s) && Inv(Next(hub, s)) && Enabled(Next(hub, s), t)
    ensures RunOf(hub, [s, t]) && After(hub, [s, t]) == Next(Next(hub, s), t)
  {
    RunOfOne(Next(hub, s), t);
    RunOfMore(hub, s, [t]);
  }

  lemma BothLock(hub: Hub, a: Id, b: Id, x: Id, y: Id, p: Registration, now: Time)
    requires Inv(hub) && hub.open == map[] && x != y && a != b && a in hub.reg.tokens && b in hub.reg.tokens
    ensures var steps := [Lock(x, hub.reg.tokens[a].secret, p, now), Lock(y, hub.reg.tokens[b].secret, p, now)];
            && RunOf(hub, steps)
            && After(hub, steps) == hub.(open := map[x := Tx(a, p, now, None), y := Tx(b, p, now, None)])
  {
    LockTakes(hub, x, a, p, now);
    LockTakes(hub.(open := map[x := Tx(a, p, now, None)]), y, b, p, now);
    RunOfTwo(hub, Lock(x, hub.reg.tokens[a].secret, p, now), Lock(y, hub.reg.tokens[b].secret, p, now));
  }

  /** Two open transactions on usable tokens both decide on a fresh device. */
  lemma BothDecide(hub: Hub, x: Id, y: Id)
    requires Inv(hub) && x != y && Succeeds(hub, x) && Succeeds(hub, y)
    ensures RunOf(hub, [Decide(x), Decide(y)])
    ensures var t, u := hub.open[x], hub.open[y];
            After(hub, [Decide(x), Decide(y)])
            == hub.(open := hub.open[x := t.(plan := Some(PlanFor(hub.reg, t.token, t.registration)))]
                                    [y := u.(plan := Some(PlanFor(hub.reg, u.token, u.registration)))])
  {
    DecideTakes(hub, x);
    var t := hub.open[x];
    var h := hub.(open := hub.open[x := t.(plan := Some(PlanFor(hub.reg, t.token, t.registration)))]);
    DecideTakes(h, y);
    RunOfTwo(hub, Decide(x), Decide(y));
  }

  /** Two decided fresh registrations of one MAC both commit. */
  lemma BothCommit(h4: Hub, x: Id, y: Id, d: Draw, e: Draw)
    requires Inv(h4) && x != y && x in h4.open && y in h4.open && h4.open[x].plan.Some? && h4.open[y].plan.Some?
    requires h4.open[x].plan.value.Fresh? && h4.open[y].plan.value.Fresh?
    requires TrimUpper(h4.open[x].registration.mac) == TrimUpper(h4.open[y].registration.mac) != ""
    requires Unused(h4.reg, d) && Unused(h4.reg, e) && d.device != e.device && d.credential != e.credential
    requires d.secret != e.secret
    ensures RunOf(h4, [Finish(x, d), Finish(y, e)])
    ensures !NoTwins(After(h4, [Finish(x, d), Finish(y, e)]).reg)
  {
    var mac := TrimUpper(h4.open[x].registration.mac);
    StepKeepsInv(h4, Finish(x, d));
    var h5 := Next(h4, Finish(x, d));
    RunOfTwo(h4, Finish(x, d), Finish(y, e));
    var h6 := Next(h5, Finish(y, e));
    assert ActiveMac(h6.reg, d.device, mac);
    assert ActiveMac(h6.reg, e.device, mac);
  }

  /**
   The token row is all that is locked: two usable tokens presented at once with one MAC both
   pass the check, and the second commit leaves two active devices of that MAC.
   */
  lemma TwoTokensMakeTwins(hub: Hub, a: Id, b: Id, x: Id, y: Id, p: Registration, now: Time, d: Draw, e: Draw)
    requires Inv(hub) && hub.open == map[] && x != y && ValidRegistration(p) && TrimUpper(p.mac) != ""
    requires !ActiveWithMac(hub.reg, TrimUpper(p.mac)) && a != b && Usable(hub.reg, a, now) && Usable(hub.reg, b, now)
    requires Unused(hub.reg, d) && Unused(hub.reg, e) && d.device != e.device && d.credential != e.credential
    requires d.secret != e.secret
    ensures var locks := [Lock(x, hub.reg.tokens[a].secret, p, now), Lock(y, hub.reg.tokens[b].secret, p, now)];
            var decides := [Decide(x), Decide(y)];
            var commits := [Finish(x, d), Finish(y, e)];
            && RunOf(hub, locks)
            && RunOf(After(hub, locks), decides)
            && RunOf(After(After(hub, locks), decides), commits)
            && !NoTwins(After(After(After(hub, locks), decides), commits).reg)
  {
    BothLock(hub, a, b, x, y, p, now);
    var locked := After(hub, [Lock(x, hub.reg.tokens[a].secret, p, now), Lock(y, hub.reg.tokens[b].secret, p, now)]);
    BothDecide(locked, x, y);
    BothCommit(After(locked, [Decide(x), Decide(y)]), x, y, d, e);
  }
}
