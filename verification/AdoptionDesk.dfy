/** The announcement service over its tables: rows are looked up and updated in place. */
module AdoptionDesk {
  import opened Common
  import opened Mac
  import opened Enrollment
  import opened AdoptionModel
  import Adoption

  class AnnouncementService {
    var rows: Rows
    var reg: Registry
    const pick: Pick

    function Tables(): Desk
      reads this
    {
      Desk(rows, reg)
    }

    constructor (pick: Pick)
      ensures Adoption.Inv(Tables()) && this.pick == pick && rows == map[]
    {
      rows, reg, this.pick := map[], Registry(map[], map[], map[]), pick;
    }

    /** Field by field, as the caps table lists them. */
    method Validate(mac: Option<string>, claims: Claims) returns (ok: bool)
      ensures ok == Acceptable(mac, claims)
    {
      var raw := Raw(mac);
      if raw == "" || |raw| > 40 {
        return false;
      }
      for i := 0 to |raw|
        invariant forall j | 0 <= j < i :: MacCharacter(raw[j])
      {
        if !MacCharacter(raw[i]) {
          return false;
        }
      }
      var caps := Caps(claims);
      for i := 0 to |caps|
        invariant forall j | 0 <= j < i :: caps[j].0.Some? ==> |caps[j].0.value| <= caps[j].1
      {
        if caps[i].0.Some? && |caps[i].0.value| > caps[i].1 {
          assert caps[i] in Caps(claims);
          return false;
        }
      }
      return true;
    }

    method MaybePrepareAutoRebind(id: Id, now: Time, minted: Minted)
      requires id in rows
      modifies this`rows, this`reg
      ensures Tables() == Rebound(old(Tables()), id, now, minted, pick)
    {
      var row := rows[id];
      if row.consumedAt.None? || row.secret.Some? {
        return;
      }
      var found := RebindCandidates(reg, row.mac);
      if found == {} || pick(found) !in reg.devices {
        return;
      }
      var device := reg.devices[pick(found)];
      if !SameAddress(row, device) {
        return;
      }
      var hint := Or(row.claims.hint, Some(if device.name != "" then device.name else Fallback(row.mac)));
      reg := reg.(tokens := reg.tokens[minted.id := Token(minted.secret, device.siteId, hint, Some(pick(found)),
                                                          now + DAY, None, None)]);
      row := row.(adoptedAt := Some(now), secret := Some(minted.secret), tokenId := Some(minted.id));
      row := row.(deliveredAt := None, consumedAt := None);
      rows := rows[id := row];
    }

    method MaybeRecoverStrandedPickup(id: Id, now: Time, minted: Minted)
      requires id in rows
      modifies this`rows, this`reg
      ensures Tables() == Recovered(old(Tables()), id, now, minted)
    {
      var row := rows[id];
      if row.adoptedAt.None? || row.rejectedAt.Some? || row.secret.Some? || row.consumedAt.Some?
         || row.deliveredAt.None? {
        return;
      }
      var original := TokenOf(Tables(), row);
      if original.Some? && original.value.consumedAt.Some? {
        rows := rows[id := row.(consumedAt := original.value.consumedAt)];
        return;
      }
      var site, target, hint := None, None, None;
      if original.Some? {
        site, target, hint := original.value.siteId, original.value.target, original.value.nameHint;
      }
      hint := Or(hint, Or(row.claims.hint, Some(Fallback(row.mac))));
      reg := reg.(tokens := reg.tokens[minted.id := Token(minted.secret, site, hint, target,
                                                          now + 7 * DAY, None, None)]);
      rows := rows[id := row.(secret := Some(minted.secret), tokenId := Some(minted.id), deliveredAt := None)];
      if original.Some? {
        reg := reg.(tokens := reg.tokens - {row.tokenId.value});
        rows := Unlinked(rows, row.tokenId.value);
      }
    }

    /** Find the row of this MAC and refresh it, or insert one. */
    method UpsertRow(poll: Poll, mac: string) returns (id: Id)
      requires Distinct(rows) && poll.newId !in rows
      modifies this`rows
      ensures rows == Announced(old(rows), RowOf(old(rows), mac), mac, poll.claims, poll.sourceIp, poll.now, poll.newId)
      ensures id == (if RowOf(old(rows), mac).Some? then RowOf(old(rows), mac).value else poll.newId) && id in rows
    {
      if exists found | found in rows :: rows[found].mac == mac {
        id :| id in rows && rows[id].mac == mac;
        Adoption.RowIsFound(rows, id, mac);
        rows := rows[id := rows[id].(lastSeen := poll.now, count := rows[id].count + 1, sourceIp := poll.sourceIp,
                                     claims := Refreshed(rows[id].claims, poll.claims))];
      } else {
        assert forall found :: !HasMac(rows, found, mac);
        id := poll.newId;
        rows := rows[id := Announcement(mac, Refreshed(NoClaims, poll.claims), poll.sourceIp, poll.now, poll.now, 1,
                                        None, None, None, None, None, None)];
      }
    }

    /** One poll: upsert the row, try both self-heal paths, answer by where the row stands. */
    method UpsertAnnouncement(poll: Poll) returns (reply: Response)
      requires Distinct(rows) && poll.newId !in rows
      modifies this`rows, this`reg
      ensures (Tables(), reply) == Polled(old(Tables()), poll, pick)
    {
      var ok := Validate(poll.mac, poll.claims);
      if !ok {
        return Refused;
      }
      var mac := NormalizeMac(Some(Raw(poll.mac)));
      var id := UpsertRow(poll, mac);
      MaybePrepareAutoRebind(id, poll.now, poll.minted);
      MaybeRecoverStrandedPickup(id, poll.now, poll.minted);
      ghost var healed := Tables();
      reply := Reply(rows[id]);
      if reply.Adopted? && rows[id].deliveredAt.None? {
        rows := rows[id := rows[id].(deliveredAt := Some(poll.now))];
      }
      assert rows == healed.rows[id := Stamped(healed.rows[id], poll.now)];
    }

    method Adopt(id: Id, mode: Mode, name: Option<string>, now: Time, minted: Minted) returns (outcome: Outcome)
      modifies this`rows, this`reg
      ensures (Tables(), outcome) == AdoptRow(old(Tables()), id, mode, name, now, minted)
    {
      outcome := AdoptCheck(Tables(), id, mode);
      if outcome != Done {
        return;
      }
      var hint := Or(name, Or(rows[id].claims.hint, Some(Fallback(rows[id].mac))));
      var target := if mode.Restoring? then mode.target else None;
      reg := reg.(tokens := reg.tokens[minted.id := Token(minted.secret, None, hint, target,
                                                          now + 7 * DAY, None, None)]);
      rows := rows[id := rows[id].(adoptedAt := Some(now), secret := Some(minted.secret), tokenId := Some(minted.id))];
    }

    method Reject(id: Id, now: Time) returns (found: bool)
      modifies this`rows
      ensures found == (id in old(rows)) && Tables() == RejectRow(old(Tables()), id, now)
    {
      found := id in rows;
      if found && rows[id].rejectedAt.None? {
        rows := rows[id := rows[id].(rejectedAt := Some(now))];
      }
    }

    /** The cross-link after a registration: an exact hit on the column, else a scan. */
    method MarkConsumed(mac: Option<string>, now: Time)
      requires Distinct(rows) && Picks(pick)
      modifies this`rows
      ensures rows == Marked(old(rows), mac, now, pick)
    {
      var target := NormalizeMac(mac);
      if target == "" {
        return;
      }
      var id: Id;
      if exists hit | hit in rows :: rows[hit].mac == target {
        id :| id in rows && rows[id].mac == target;
        Adoption.RowIsFound(rows, id, target);
      } else {
        var scan := LegacyRows(rows, target);
        if scan == {} {
          return;
        }
        id := pick(scan);
        assert id in scan;
      }
      if rows[id].consumedAt.None? {
        rows := rows[id := rows[id].(consumedAt := Some(now), secret := None)];
      }
    }

    method ForceAdoptReconcile(id: Id, now: Time) returns (outcome: Outcome)
      modifies this`rows
      ensures (Tables(), outcome) == Reconciled(old(Tables()), id, now)
    {
      if id !in rows {
        return NotFound;
      }
      if rows[id].consumedAt.Some? {
        return AlreadyConsumed;
      }
      var target := NormalizeMac(Some(rows[id].mac));
      if target == "" || !ActiveMatch(reg, target) {
        return NoActiveDevice;
      }
      rows := rows[id := rows[id].(consumedAt := Some(now), secret := None)];
      return Done;
    }

    method Delete(id: Id) returns (deleted: bool)
      modifies this`rows
      ensures deleted == (id in old(rows)) && rows == old(rows) - {id}
    {
      deleted := id in rows;
      rows := rows - {id};
    }
  }
}
