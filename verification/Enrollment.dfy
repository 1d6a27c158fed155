/**
 Enrollment tokens, devices and their bearer credentials: what one registration checks and
 writes. A token's hash is as good as its secret, so tokens and credentials carry the secret.
 */
module Enrollment {
  import opened Common
  import opened Mac

  datatype Token = Token(
    secret: string, siteId: Option<Id>, nameHint: Option<string>, target: Option<Id>,
    expiresAt: Time, consumedAt: Option<Time>, consumedBy: Option<Id>)

  datatype DeviceState = Pending | Active | Disabled | Revoked | Decommissioned

  datatype Device = Device(
    name: string, mac: Option<string>, localIp: Option<string>, firmware: Option<string>, siteId: Option<Id>,
    state: DeviceState, managed: bool, lastHeartbeat: Option<Time>, updatedAt: Time)

  datatype Credential = Credential(device: Id, secret: string)

  datatype Registry = Registry(tokens: map<Id, Token>, devices: map<Id, Device>, credentials: map<Id, Credential>)

  datatype Registration = Registration(
    name: Option<string>, model: Option<string>, revision: Option<string>, firmware: Option<string>,
    mac: Option<string>, serial: Option<string>, localIp: Option<string>)

  datatype Refusal =
    ValidationFailed | EnrollmentInvalid | EnrollmentConsumed | EnrollmentExpired | DeviceMismatch | AlreadyRegistered

  /** What the checks of a registration decide to write. */
  datatype Plan =
    | Fresh(name: string)
    | Restore(device: Id, setMac: bool, activate: bool)

  datatype Checked = Rejected(why: Refusal) | Redeem(token: Id, plan: Plan)

  predicate Given(v: Option<string>) {
    v.Some? && v.value != ""
  }

  function Or(v: Option<string>, fallback: Option<string>): Option<string> {
    if Given(v) then v else fallback
  }

  // ---------- the checks ----------

  /** The registration fields with the width of the column each one goes into. */
  function Fields(p: Registration): seq<(Option<string>, nat)> {
    [(p.name, 120), (p.model, 80), (p.revision, 40), (p.firmware, 40), (p.mac, 40), (p.serial, 80), (p.localIp, 64)]
  }

  predicate MacCharacter(c: char) {
    '0' <= c <= '9' || 'A' <= c <= 'F' || 'a' <= c <= 'f' || c in ":.-" || IsSpace(c)
  }

  predicate ValidRegistration(p: Registration) {
    && (forall f | f in Fields(p) :: f.0.Some? ==> |f.0.value| <= f.1)
    && (Given(p.mac) ==> forall c | c in p.mac.value :: MacCharacter(c))
  }

  /** An active device of this trimmed, upper-cased MAC exists. */
  predicate ActiveWithMac(reg: Registry, mac: string) {
    exists d | d in reg.devices :: reg.devices[d].state == Active && TrimUpper(reg.devices[d].mac) == mac
  }

  ghost predicate Owns(reg: Registry, id: Id, secret: string) {
    id in reg.tokens && reg.tokens[id].secret == secret
  }

  /** The token row of a presented secret. */
  ghost function Lookup(reg: Registry, secret: string): Option<Id> {
    if id :| Owns(reg, id, secret) then Some(id) else None
  }

  function Check(reg: Registry, token: Option<Id>, p: Registration, now: Time): Checked
    requires token.Some? ==> token.value in reg.tokens
  {
    if !ValidRegistration(p) then Rejected(ValidationFailed)
    else if token.None? then Rejected(EnrollmentInvalid)
    else
      var t := reg.tokens[token.value];
      var mac := TrimUpper(p.mac);
      if t.consumedAt.Some? then Rejected(EnrollmentConsumed)
      else if t.expiresAt <= now then Rejected(EnrollmentExpired)
      else if Given(t.target) then
        if t.target.value !in reg.devices || reg.devices[t.target.value].state == Decommissioned
        then Rejected(EnrollmentInvalid)
        else
          var device := reg.devices[t.target.value];
          var existing := TrimUpper(device.mac);
          if mac != "" && existing != "" && mac != existing then Rejected(DeviceMismatch)
          else Redeem(token.value, Restore(t.target.value, mac != "" && existing == "", device.state != Active))
      else if mac != "" && ActiveWithMac(reg, mac) then Rejected(AlreadyRegistered)
      else
        var name := Or(p.name, t.nameHint);
        Redeem(token.value, Fresh(if name.Some? then name.value else ""))
  }

  // ---------- the writes ----------

  function Consumed(t: Token, device: Id, now: Time): Token {
    t.(consumedAt := Some(now), consumedBy := Some(device))
  }

  /** The freshly flashed unit's facts over the kept row: identity, name and site stay. */
  function Restored(d: Device, p: Registration, plan: Plan, now: Time): Device
    requires plan.Restore?
  {
    d.(firmware := Or(p.firmware, d.firmware),
       localIp := Or(p.localIp, d.localIp),
       mac := if plan.setMac then p.mac else d.mac,
       state := if plan.activate then Active else d.state,
       lastHeartbeat := None,
       updatedAt := now)
  }

  function CreatedDevice(t: Token, p: Registration, name: string, defaultSite: Id, now: Time): Device {
    Device(name, p.mac, p.localIp, p.firmware, Some(if Given(t.siteId) then t.siteId.value else defaultSite),
           Active, true, None, now)
  }

  /** The ids and secrets a registration draws: all unused so far. */
  datatype Draw = Draw(device: Id, credential: Id, secret: string, defaultSite: Id)

  function TargetOf(plan: Plan, draw: Draw): Id {
    if plan.Restore? then plan.device else draw.device
  }

  /** Revoke every credential of the device, then issue one. */
  function Rotated(credentials: map<Id, Credential>, device: Id, draw: Draw): map<Id, Credential> {
    (map c | c in credentials && credentials[c].device != device ::
       credentials[c])[draw.credential := Credential(device, draw.secret)]
  }

  function Commit(reg: Registry, token: Id, plan: Plan, p: Registration, now: Time, draw: Draw): Registry
    requires token in reg.tokens && (plan.Restore? ==> plan.device in reg.devices)
  {
    var device := TargetOf(plan, draw);
    var row := if plan.Restore? then Restored(reg.devices[device], p, plan, now)
               else CreatedDevice(reg.tokens[token], p, plan.name, draw.defaultSite, now);
    Registry(reg.tokens[token := Consumed(reg.tokens[token], device, now)],
             reg.devices[device := row],
             if plan.Restore? then Rotated(reg.credentials, device, draw)
             else reg.credentials[draw.credential := Credential(device, draw.secret)])
  }

  /** One registration, nothing else happening between its checks and its writes. */
  function Register(reg: Registry, token: Option<Id>, p: Registration, now: Time, draw: Draw): (Registry, Checked)
    requires token.Some? ==> token.value in reg.tokens
  {
    match Check(reg, token, p, now)
    case Rejected(why) => (reg, Rejected(why))
    case Redeem(id, plan) => (Commit(reg, id, plan, p, now, draw), Redeem(id, plan))
  }

  /** Deleting a device row: its credential goes with it, and tokens that name it forget it. */
  function WithoutDevice(reg: Registry, device: Id): Registry {
    Registry(
      map t | t in reg.tokens ::
        reg.tokens[t].(target := Unless(reg.tokens[t].target, device),
                       consumedBy := Unless(reg.tokens[t].consumedBy, device)),
      reg.devices - {device},
      map c | c in reg.credentials && reg.credentials[c].device != device :: reg.credentials[c])
  }

  function Unless(v: Option<Id>, gone: Id): Option<Id> {
    if v == Some(gone) then None else v
  }

  /**
   The refusal for a restore target that no longer exists cannot fire after a plain delete: the
   deleted device's tokens have lost their target and register a fresh device.
   */
  lemma DeletedTargetRegistersAfresh(reg: Registry, token: Id, p: Registration, now: Time)
    requires token in reg.tokens && Given(reg.tokens[token].target)
    requires ValidRegistration(p) && reg.tokens[token].consumedAt.None? && now < reg.tokens[token].expiresAt
    ensures var after := WithoutDevice(reg, reg.tokens[token].target.value);
            (Check(after, Some(token), p, now).Redeem? && Check(after, Some(token), p, now).plan.Fresh?)
            <==> TrimUpper(p.mac) == "" || !ActiveWithMac(after, TrimUpper(p.mac))
  {
  }

  // ---------- what every state of the tables keeps ----------

  /** Token secrets, credential secrets and credential devices are unique; credentials belong to devices. */
  ghost predicate Sound(reg: Registry) {
    && (forall a, b | a in reg.tokens && b in reg.tokens && reg.tokens[a].secret == reg.tokens[b].secret :: a == b)
    && (forall a, b | a in reg.credentials && b in reg.credentials ::
          reg.credentials[a].device == reg.credentials[b].device
          || reg.credentials[a].secret == reg.credentials[b].secret
          ==> a == b)
    && (forall c | c in reg.credentials :: reg.credentials[c].device in reg.devices)
  }

  ghost predicate Unused(reg: Registry, draw: Draw) {
    && draw.device !in reg.devices
    && draw.credential !in reg.credentials
    && (forall c | c in reg.credentials :: reg.credentials[c].secret != draw.secret)
  }

  /** The device a bearer secret authenticates. */
  ghost predicate Authenticates(reg: Registry, secret: string, device: Id) {
    exists c :: c in reg.credentials && reg.credentials[c] == Credential(device, secret)
  }

  /**
   A redemption keeps the tables sound, leaves its device exactly one working secret, the one it
   hands out (so a restore invalidates the previous one), and no other device's changes.
   */
  lemma CommitGivesOneCredential(reg: Registry, token: Id, plan: Plan, p: Registration, now: Time, draw: Draw)
    requires Sound(reg) && Unused(reg, draw)
    requires token in reg.tokens && (plan.Restore? ==> plan.device in reg.devices)
    ensures var after := Commit(reg, token, plan, p, now, draw);
            && Sound(after)
            && (forall s :: Authenticates(after, s, TargetOf(plan, draw)) <==> s == draw.secret)
            && (forall s, d | d != TargetOf(plan, draw) :: Authenticates(after, s, d) <==> Authenticates(reg, s, d))
  {
    var after := Commit(reg, token, plan, p, now, draw);
    var device := TargetOf(plan, draw);
    assert after.credentials[draw.credential] == Credential(device, draw.secret);
    forall s, d | d != device ensures Authenticates(after, s, d) <==> Authenticates(reg, s, d) {
      if c :| c in reg.credentials && reg.credentials[c] == Credential(d, s) {
        assert after.credentials[c] == Credential(d, s);
      }
    }
  }

  /** The lookup is the token of that secret, whichever row the query would return. */
  lemma LookupIsUnique(reg: Registry, id: Id, secret: string)
    requires Sound(reg) && Owns(reg, id, secret)
    ensures Lookup(reg, secret) == Some(id)
  {
  }

  // ---------- revoking ----------

  const MAX_TTL: int := 60 * 60 * 24 * 30

  /** A positive requested lifetime, capped at thirty days; else the configured one. */
  function Lifetime(requested: Option<int>, configured: int): int {
    if requested.None? || requested.value <= 0 then configured
    else if requested.value < MAX_TTL then requested.value else MAX_TTL
  }

  datatype Fate = Revocable | Unknown | Redeemed

  function FateOf(tokens: map<Id, Token>, id: Id): Fate {
    if id !in tokens then Unknown else if tokens[id].consumedAt.Some? then Redeemed else Revocable
  }

  /** The given ids of one fate, in the order given. */
  function Sorted(tokens: map<Id, Token>, ids: seq<Id>, fate: Fate): seq<Id> {
    if ids == [] then []
    else Sorted(tokens, ids[..|ids| - 1], fate) + if FateOf(tokens, ids[|ids| - 1]) == fate then [ids[|ids| - 1]]
                                                  else []
  }

  function Occurrences(ids: seq<Id>, id: Id): nat {
    if ids == [] then 0 else Occurrences(ids[..|ids| - 1], id) + if ids[|ids| - 1] == id then 1 else 0
  }

  /** Every id given lands, as often as it was given, in the list of its fate and in no other. */
  lemma {:induction false} BulkRevocationAccountsForEveryId(tokens: map<Id, Token>, ids: seq<Id>, fate: Fate, id: Id)
    ensures Occurrences(Sorted(tokens, ids, fate), id) == if FateOf(tokens, id) == fate then Occurrences(ids, id) else 0
  {
    if ids != [] {
      var rest, last := Sorted(tokens, ids[..|ids| - 1], fate), ids[|ids| - 1];
      BulkRevocationAccountsForEveryId(tokens, ids[..|ids| - 1], fate, id);
      if FateOf(tokens, last) == fate {
        assert Sorted(tokens, ids, fate) == rest + [last];
        assert (rest + [last])[..|rest|] == rest;
      } else {
        assert Sorted(tokens, ids, fate) == rest;
      }
    }
  }

  // ---------- the service ----------

  class Service {
    var tokens: map<Id, Token>
    var devices: map<Id, Device>
    var credentials: map<Id, Credential>

    function Tables(): Registry
      reads this
    {
      Registry(tokens, devices, credentials)
    }

    constructor ()
      ensures Tables() == Registry(map[], map[], map[]) && Sound(Tables())
    {
      tokens, devices, credentials := map[], map[], map[];
    }

    /** Mint a token; its secret is new. */
    method MintEnrollmentToken(id: Id, secret: string, siteId: Option<Id>, nameHint: Option<string>, target: Option<Id>,
                               ttlSeconds: Option<int>, configuredTtl: int, now: Time)
      requires Sound(Tables()) && id !in tokens && forall t | t in tokens :: tokens[t].secret != secret
      modifies this`tokens
      ensures Sound(Tables())
      ensures tokens == old(tokens)[id := Token(secret, siteId, nameHint, target,
                                                now + Lifetime(ttlSeconds, configuredTtl) * SECOND, None, None)]
    {
      var ttl := configuredTtl;
      if ttlSeconds.Some? && ttlSeconds.value > 0 {
        ttl := if ttlSeconds.value < MAX_TTL then ttlSeconds.value else MAX_TTL;
      }
      tokens := tokens[id := Token(secret, siteId, nameHint, target, now + ttl * SECOND, None, None)];
    }

    /** Width and character checks, field by field. */
    method Validate(p: Registration) returns (ok: bool)
      ensures ok == ValidRegistration(p)
    {
      var fields := Fields(p);
      for i := 0 to |fields|
        invariant forall j | 0 <= j < i :: fields[j].0.Some? ==> |fields[j].0.value| <= fields[j].1
      {
        if fields[i].0.Some? && |fields[i].0.value| > fields[i].1 {
          assert fields[i] in Fields(p);
          return false;
        }
      }
      if Given(p.mac) {
        for i := 0 to |p.mac.value|
          invariant forall j | 0 <= j < i :: MacCharacter(p.mac.value[j])
        {
          if !MacCharacter(p.mac.value[i]) {
            return false;
          }
        }
      }
      return true;
    }

    /**
     Exchange a token for a device and its secret. The row lock on the token spans the whole
     body, so the checks and the writes are those of one registration.
     */
    method ConsumeEnrollmentToken(secret: string, p: Registration, now: Time, draw: Draw) returns (result: Checked)
      requires Sound(Tables()) && Unused(Tables(), draw)
      modifies this
      ensures (Tables(), result) == Register(old(Tables()), Lookup(old(Tables()), secret), p, now, draw)
      ensures Sound(Tables())
    {
      ghost var before := Tables();
      var valid := Validate(p);
      if !valid {
        return Rejected(ValidationFailed);
      }
      if !exists id | id in tokens :: tokens[id].secret == secret {
        assert forall id :: !Owns(before, id, secret);
        return Rejected(EnrollmentInvalid);
      }
      var id :| id in tokens && tokens[id].secret == secret;
      LookupIsUnique(before, id, secret);
      result := Check(Tables(), Some(id), p, now);
      if result.Rejected? {
        return;
      }
      CommitGivesOneCredential(before, id, result.plan, p, now, draw);
      var token := tokens[id];
      var device := TargetOf(result.plan, draw);
      match result.plan {
        case Restore(target, _, _) =>
          devices := devices[target := Restored(devices[target], p, result.plan, now)];
          credentials := map c | c in credentials && credentials[c].device != target :: credentials[c];
          credentials := credentials[draw.credential := Credential(target, draw.secret)];
        case Fresh(name) =>
          devices := devices[device := CreatedDevice(token, p, name, draw.defaultSite, now)];
          credentials := credentials[draw.credential := Credential(device, draw.secret)];
      }
      tokens := tokens[id := Consumed(token, device, now)];
    }

    /** Delete one token unless it is unknown or was redeemed. */
    method RevokeEnrollmentToken(id: Id) returns (deleted: bool)
      modifies this`tokens
      ensures deleted <==> id in old(tokens) && old(tokens)[id].consumedAt.None?
      ensures tokens == if deleted then old(tokens) - {id} else old(tokens)
    {
      if id !in tokens || tokens[id].consumedAt.Some? {
        return false;
      }
      tokens := tokens - {id};
      return true;
    }

    /**
     Sort the given ids into three lists and delete the revoked rows. The rows go at the flush
     after the loop, so a repeated id is sorted the same way every time.
     */
    method RevokeEnrollmentTokensBulk(ids: seq<Id>) returns (revoked: seq<Id>, unknown: seq<Id>, consumed: seq<Id>)
      modifies this`tokens
      ensures revoked == Sorted(old(tokens), ids, Revocable)
      ensures unknown == Sorted(old(tokens), ids, Unknown)
      ensures consumed == Sorted(old(tokens), ids, Redeemed)
      ensures tokens == old(tokens) - (set id | id in revoked)
    {
      revoked, unknown, consumed := [], [], [];
      for i := 0 to |ids|
        invariant revoked == Sorted(tokens, ids[..i], Revocable)
        invariant unknown == Sorted(tokens, ids[..i], Unknown)
        invariant consumed == Sorted(tokens, ids[..i], Redeemed)
      {
        assert ids[..i + 1][..i] == ids[..i];
        if ids[i] !in tokens {
          unknown := unknown + [ids[i]];
        } else if tokens[ids[i]].consumedAt.Some? {
          consumed := consumed + [ids[i]];
        } else {
          revoked := revoked + [ids[i]];
        }
      }
      assert ids[..|ids|] == ids;
      tokens := tokens - (set id | id in revoked);
    }
  }
}
