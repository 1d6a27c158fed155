/**
 Announcements: a device without a token polls under its MAC until an operator adopts it, picks
 up an enrollment token, registers, and is cross-linked back to its announcement row.
 */
module AdoptionModel {
  import opened Common
  import opened Mac
  import opened Enrollment

  datatype Claims = Claims(model: Option<string>, revision: Option<string>, firmware: Option<string>,
                           ip: Option<string>, serial: Option<string>, hint: Option<string>)

  datatype Announcement = Announcement(
    mac: string, claims: Claims, sourceIp: Option<string>, firstSeen: Time, lastSeen: Time, count: nat,
    adoptedAt: Option<Time>, secret: Option<string>, tokenId: Option<Id>,
    deliveredAt: Option<Time>, consumedAt: Option<Time>, rejectedAt: Option<Time>)

  type Rows = map<Id, Announcement>

  datatype Desk = Desk(rows: Rows, reg: Registry)

  datatype Response = Refused | Backoff | Wait | Adopted(secret: string) | Registered | AwaitingRegister

  datatype Mode = AsNew | Restoring(target: Option<Id>)

  datatype Outcome = Done | AlreadyAdopted | NotFound | WasRejected | Invalid | AlreadyConsumed | NoActiveDevice

  /** A minted token's id and secret: unused so far. */
  datatype Minted = Minted(id: Id, secret: string)

  /** How the database orders an unordered scan. */
  type Pick = set<Id> -> Id

  ghost predicate Picks(pick: Pick) {
    forall ids: set<Id> :: ids != {} ==> pick(ids) in ids
  }

  // ---------- announce ----------

  function Caps(c: Claims): seq<(Option<string>, nat)> {
    [(c.model, 80), (c.revision, 40), (c.firmware, 40), (c.ip, 64), (c.serial, 80), (c.hint, 120)]
  }

  function Raw(mac: Option<string>): string {
    if mac.None? then "" else Trim(mac.value)
  }

  predicate Acceptable(mac: Option<string>, claims: Claims) {
    && 0 < |Raw(mac)| <= 40
    && (forall c | c in Raw(mac) :: MacCharacter(c))
    && (forall f | f in Caps(claims) :: f.0.Some? ==> |f.0.value| <= f.1)
  }

  function Refreshed(kept: Claims, fresher: Claims): Claims {
    Claims(Or(fresher.model, kept.model), Or(fresher.revision, kept.revision), Or(fresher.firmware, kept.firmware),
           Or(fresher.ip, kept.ip), Or(fresher.serial, kept.serial), Or(fresher.hint, kept.hint))
  }

  const NoClaims := Claims(None, None, None, None, None, None)

  ghost predicate Distinct(rows: Rows) {
    forall a, b | a in rows && b in rows && rows[a].mac == rows[b].mac :: a == b
  }

  predicate HasMac(rows: Rows, id: Id, mac: string) {
    id in rows && rows[id].mac == mac
  }

  /** The row of a stored MAC; the column is unique. */
  ghost function RowOf(rows: Rows, mac: string): Option<Id> {
    if id :| HasMac(rows, id, mac) then Some(id) else None
  }

  lemma RowOfIsUnique(rows: Rows, id: Id)
    requires Distinct(rows) && id in rows
    ensures RowOf(rows, rows[id].mac) == Some(id)
  {
    assert HasMac(rows, id, rows[id].mac);
  }

  function Announced(rows: Rows, found: Option<Id>, mac: string, claims: Claims, sourceIp: Option<string>,
                     now: Time, newId: Id): Rows
    requires found.Some? ==> found.value in rows
  {
    match found
    case None =>
      rows[newId := Announcement(mac, Refreshed(NoClaims, claims), sourceIp, now, now, 1, None, None, None, None,
                                 None, None)]
    case Some(id) =>
      rows[id := rows[id].(lastSeen := now, count := rows[id].count + 1, sourceIp := sourceIp,
                           claims := Refreshed(rows[id].claims, claims))]
  }

  function Fallback(mac: string): string {
    "device-" + Without(mac[if |mac| < 5 then 0 else |mac| - 5..], ":")
  }

  function Text(v: Option<string>): string {
    if v.None? then "" else Trim(v.value)
  }

  const DAY: int := 86400 * SECOND

  // ---------- the two self-heal paths ----------

  function RebindCandidates(reg: Registry, mac: string): set<Id> {
    set d | d in reg.devices && reg.devices[d].state != Decommissioned && reg.devices[d].managed
            && Normalized(reg.devices[d].mac) == Normalized(Some(mac)) :: d
  }

  /** The announcing or the claimed address is the one the device was last known by. */
  predicate SameAddress(row: Announcement, device: Device) {
    var known := Text(device.localIp);
    known != "" && (Text(row.claims.ip) == known || Text(row.sourceIp) == known)
  }

  predicate Rebinds(desk: Desk, id: Id, pick: Pick)
    requires id in desk.rows
  {
    var row := desk.rows[id];
    var found := RebindCandidates(desk.reg, row.mac);
    && row.consumedAt.Some? && row.secret.None?
    && found != {}
    && pick(found) in desk.reg.devices
    && SameAddress(row, desk.reg.devices[pick(found)])
  }

  /** A known device that lost its token gets a restore token for the row it already has. */
  function Rebound(desk: Desk, id: Id, now: Time, minted: Minted, pick: Pick): Desk
    requires id in desk.rows
  {
    if !Rebinds(desk, id, pick) then desk
    else
      var row := desk.rows[id];
      var d := pick(RebindCandidates(desk.reg, row.mac));
      var device := desk.reg.devices[d];
      var hint := Or(row.claims.hint, Some(if device.name != "" then device.name else Fallback(row.mac)));
      Desk(desk.rows[id := row.(adoptedAt := Some(now), secret := Some(minted.secret), tokenId := Some(minted.id),
                                deliveredAt := None, consumedAt := None)],
           desk.reg.(tokens := desk.reg.tokens[minted.id := Token(minted.secret, device.siteId, hint, Some(d),
                                                                  now + DAY, None, None)]))
  }

  predicate Stranded(row: Announcement) {
    row.adoptedAt.Some? && row.rejectedAt.None? && row.secret.None? && row.consumedAt.None? && row.deliveredAt.Some?
  }

  function TokenOf(desk: Desk, row: Announcement): Option<Token> {
    if Given(row.tokenId) && row.tokenId.value in desk.reg.tokens then Some(desk.reg.tokens[row.tokenId.value])
    else None
  }

  /** Deleting a token row empties the references to it. */
  function Unlinked(rows: Rows, token: Id): Rows {
    map id | id in rows :: rows[id].(tokenId := Unless(rows[id].tokenId, token))
  }

  /** A delivered token whose secret was dropped is replaced by a new one, or found to be spent. */
  function Recovered(desk: Desk, id: Id, now: Time, minted: Minted): Desk
    requires id in desk.rows
  {
    var row := desk.rows[id];
    var was := TokenOf(desk, row);
    if !Stranded(row) then desk
    else if was.Some? && was.value.consumedAt.Some? then
      desk.(rows := desk.rows[id := row.(consumedAt := was.value.consumedAt)])
    else
      var hint := Or(if was.Some? then was.value.nameHint else None, Or(row.claims.hint, Some(Fallback(row.mac))));
      var token := Token(minted.secret, if was.Some? then was.value.siteId else None, hint,
                         if was.Some? then was.value.target else None, now + 7 * DAY, None, None);
      var rearmed := desk.rows[id := row.(secret := Some(minted.secret), tokenId := Some(minted.id),
                                          deliveredAt := None)];
      if was.None? then Desk(rearmed, desk.reg.(tokens := desk.reg.tokens[minted.id := token]))
      else Desk(Unlinked(rearmed, row.tokenId.value),
                desk.reg.(tokens := desk.reg.tokens[minted.id := token] - {row.tokenId.value}))
  }

  function Reply(row: Announcement): Response {
    if row.rejectedAt.Some? then Backoff
    else if row.adoptedAt.None? then Wait
    else if row.secret.Some? then Adopted(row.secret.value)
    else if row.consumedAt.Some? then Registered
    else AwaitingRegister
  }

  /** A reply that hands out the secret stamps the first delivery and keeps the secret. */
  function Stamped(row: Announcement, now: Time): Announcement {
    if Reply(row).Adopted? && row.deliveredAt.None? then row.(deliveredAt := Some(now)) else row
  }

  datatype Poll = Poll(mac: Option<string>, claims: Claims, sourceIp: Option<string>, now: Time, newId: Id,
                       minted: Minted)

  ghost function Polled(desk: Desk, poll: Poll, pick: Pick): (Desk, Response) {
    if !Acceptable(poll.mac, poll.claims) then (desk, Refused)
    else
      var mac := Normalized(Some(Raw(poll.mac)));
      var found := RowOf(desk.rows, mac);
      var id := if found.Some? then found.value else poll.newId;
      var seen := desk.(rows := Announced(desk.rows, found, mac, poll.claims, poll.sourceIp, poll.now, poll.newId));
      var healed := Recovered(Rebound(seen, id, poll.now, poll.minted, pick), id, poll.now, poll.minted);
      (healed.(rows := healed.rows[id := Stamped(healed.rows[id], poll.now)]), Reply(healed.rows[id]))
  }

  // ---------- the operator's actions ----------

  predicate SameMac(mac: string, device: Device) {
    var a, d := TrimUpper(Some(mac)), TrimUpper(device.mac);
    a == "" || d == "" || a == d
  }

  function AdoptCheck(desk: Desk, id: Id, mode: Mode): Outcome {
    if mode.Restoring? && !Given(mode.target) then Invalid
    else if id !in desk.rows then NotFound
    else if desk.rows[id].rejectedAt.Some? then WasRejected
    else if desk.rows[id].adoptedAt.Some? then AlreadyAdopted
    else if mode.AsNew? then Done
    else if mode.target.value !in desk.reg.devices then NotFound
    else if desk.reg.devices[mode.target.value].state == Decommissioned then Invalid
    else if !SameMac(desk.rows[id].mac, desk.reg.devices[mode.target.value]) then Invalid
    else Done
  }

  function AdoptRow(desk: Desk, id: Id, mode: Mode, name: Option<string>, now: Time, minted: Minted): (Desk, Outcome) {
    var outcome := AdoptCheck(desk, id, mode);
    if outcome != Done then (desk, outcome)
    else
      var row := desk.rows[id];
      var hint := Or(name, Or(row.claims.hint, Some(Fallback(row.mac))));
      var token := Token(minted.secret, None, hint, if mode.Restoring? then mode.target else None,
                         now + 7 * DAY, None, None);
      (Desk(desk.rows[id := row.(adoptedAt := Some(now), secret := Some(minted.secret), tokenId := Some(minted.id))],
            desk.reg.(tokens := desk.reg.tokens[minted.id := token])), Done)
  }

  function RejectRow(desk: Desk, id: Id, now: Time): Desk {
    if id in desk.rows && desk.rows[id].rejectedAt.None?
    then desk.(rows := desk.rows[id := desk.rows[id].(rejectedAt := Some(now))]) else desk
  }

  function Spent(row: Announcement, now: Time): Announcement {
    row.(consumedAt := Some(now), secret := None)
  }

  predicate ActiveMatch(reg: Registry, mac: string) {
    exists d | d in reg.devices :: reg.devices[d].state == Active && Normalized(reg.devices[d].mac) == mac
  }

  function Reconciled(desk: Desk, id: Id, now: Time): (Desk, Outcome) {
    if id !in desk.rows then (desk, NotFound)
    else if desk.rows[id].consumedAt.Some? then (desk, AlreadyConsumed)
    else if Normalized(Some(desk.rows[id].mac)) == "" || !ActiveMatch(desk.reg, Normalized(Some(desk.rows[id].mac)))
         then (desk, NoActiveDevice)
    else (desk.(rows := desk.rows[id := Spent(desk.rows[id], now)]), Done)
  }

  // ---------- register ----------

  /** Rows whose stored MAC is that canonical MAC in another form. */
  function LegacyRows(rows: Rows, target: string): set<Id> {
    set id | id in rows && Normalized(Some(rows[id].mac)) == target :: id
  }

  /** The row a registration is cross-linked to: the exact column first, then a scan. */
  ghost function Linked(rows: Rows, mac: Option<string>, pick: Pick): Option<Id> {
    var target := Normalized(mac);
    if target == "" then None
    else if RowOf(rows, target).Some? then RowOf(rows, target)
    else if LegacyRows(rows, target) != {} && pick(LegacyRows(rows, target)) in rows
         then Some(pick(LegacyRows(rows, target)))
    else None
  }

  ghost function Marked(rows: Rows, mac: Option<string>, now: Time, pick: Pick): Rows {
    var id := Linked(rows, mac, pick);
    if id.Some? && rows[id.value].consumedAt.None? then rows[id.value := Spent(rows[id.value], now)] else rows
  }

  /** A registration and then, as a transaction of its own, the cross-link to the row of its MAC. */
  ghost function Registering(desk: Desk, secret: string, p: Registration, now: Time, draw: Draw, pick: Pick)
    : (Desk, Checked)
  {
    var (reg, result) := Register(desk.reg, Lookup(desk.reg, secret), p, now, draw);
    match result
    case Rejected(_) => (desk, result)
    case Redeem(_, plan) => (Desk(Marked(desk.rows, reg.devices[TargetOf(plan, draw)].mac, now, pick), reg), result)
  }
}
