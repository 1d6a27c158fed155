/**
 What announcing, adopting and registering keep: an adopted device always finds a live token at
 its next poll, or is told that it has registered.
 */
module Adoption {
  import opened Common
  import opened Mac
  import opened Enrollment
  import opened AdoptionModel

  /** A row that carries a secret is adopted, not yet consumed, and the secret is its live token's. */
  predicate Armed(row: Announcement, tokens: map<Id, Token>) {
    && row.adoptedAt.Some?
    && row.consumedAt.None?
    && row.tokenId.Some?
    && row.tokenId.value in tokens
    && row.secret == Some(tokens[row.tokenId.value].secret)
    && tokens[row.tokenId.value].consumedAt.None?
  }

  predicate RowOk(row: Announcement, tokens: map<Id, Token>) {
    && (row.secret.Some? ==> Armed(row, tokens))
    && (row.tokenId.Some? ==> row.tokenId.value in tokens)
    && (row.adoptedAt.Some? && row.consumedAt.None? && row.secret.None? ==> row.deliveredAt.Some?)
  }

  ghost predicate OwnTokens(rows: Rows) {
    forall a, b | a in rows && b in rows && rows[a].tokenId.Some? && rows[a].tokenId == rows[b].tokenId :: a == b
  }

  ghost predicate Inv(desk: Desk) {
    && Sound(desk.reg)
    && Distinct(desk.rows)
    && OwnTokens(desk.rows)
    && (forall id | id in desk.rows :: RowOk(desk.rows[id], desk.reg.tokens))
  }

  ghost predicate Unminted(desk: Desk, minted: Minted) {
    && minted.id !in desk.reg.tokens
    && (forall t | t in desk.reg.tokens :: desk.reg.tokens[t].secret != minted.secret)
  }

  lemma RowIsFound(rows: Rows, id: Id, mac: string)
    requires Distinct(rows) && HasMac(rows, id, mac)
    ensures RowOf(rows, mac) == Some(id)
  {
  }

  // ---------- one poll ----------

  lemma AnnouncedKeeps(desk: Desk, mac: string, claims: Claims, sourceIp: Option<string>, now: Time, newId: Id)
    requires Inv(desk) && newId !in desk.rows
    ensures Inv(desk.(rows := Announced(desk.rows, RowOf(desk.rows, mac), mac, claims, sourceIp, now, newId)))
  {
    if RowOf(desk.rows, mac).None? {
      assert forall id | id in desk.rows :: !HasMac(desk.rows, id, mac);
    }
  }

  /** Putting a new token on a row, beside the old tokens. */
  lemma RearmingKeeps(desk: Desk, id: Id, row: Announcement, minted: Minted, token: Token)
    requires Inv(desk) && Unminted(desk, minted) && id in desk.rows && row.mac == desk.rows[id].mac
    requires row.adoptedAt.Some? && row.consumedAt.None? && row.secret == Some(minted.secret)
    requires row.tokenId == Some(minted.id)
    requires token.secret == minted.secret && token.consumedAt.None?
    ensures Inv(Desk(desk.rows[id := row], desk.reg.(tokens := desk.reg.tokens[minted.id := token])))
  {
  }

  lemma UnlinkingKeeps(desk: Desk, token: Id)
    requires Inv(desk)
    requires forall id | id in desk.rows && desk.rows[id].tokenId == Some(token) :: desk.rows[id].secret.None?
    ensures Inv(Desk(Unlinked(desk.rows, token), desk.reg.(tokens := desk.reg.tokens - {token})))
  {
  }

  lemma ReboundKeeps(desk: Desk, id: Id, now: Time, minted: Minted, pick: Pick)
    requires Inv(desk) && Unminted(desk, minted) && id in desk.rows
    ensures var after := Rebound(desk, id, now, minted, pick);
            Inv(after) && (after == desk || after.rows[id].secret.Some?)
  {
    if Rebinds(desk, id, pick) {
      var after := Rebound(desk, id, now, minted, pick);
      RearmingKeeps(desk, id, after.rows[id], minted, after.reg.tokens[minted.id]);
    }
  }

  lemma RecoveredKeeps(desk: Desk, id: Id, now: Time, minted: Minted)
    requires Inv(desk) && id in desk.rows && (desk.rows[id].secret.None? ==> Unminted(desk, minted))
    ensures Inv(Recovered(desk, id, now, minted))
  {
    var row := desk.rows[id];
    if Stranded(row) {
      var was := TokenOf(desk, row);
      if was.None? || was.value.consumedAt.None? {
        var hint := Or(if was.Some? then was.value.nameHint else None, Or(row.claims.hint, Some(Fallback(row.mac))));
        var token := Token(minted.secret, if was.Some? then was.value.siteId else None, hint,
                           if was.Some? then was.value.target else None, now + 7 * DAY, None, None);
        var rearmed := row.(secret := Some(minted.secret), tokenId := Some(minted.id), deliveredAt := None);
        RearmingKeeps(desk, id, rearmed, minted, token);
        if was.Some? {
          UnlinkingKeeps(Desk(desk.rows[id := rearmed], desk.reg.(tokens := desk.reg.tokens[minted.id := token])),
                         row.tokenId.value);
        }
      }
    }
  }

  lemma StampedKeeps(desk: Desk, id: Id, now: Time)
    requires Inv(desk) && id in desk.rows
    ensures Inv(desk.(rows := desk.rows[id := Stamped(desk.rows[id], now)]))
  {
  }

  lemma PollKeepsInv(desk: Desk, poll: Poll, pick: Pick)
    requires Inv(desk) && Unminted(desk, poll.minted) && poll.newId !in desk.rows
    ensures Inv(Polled(desk, poll, pick).0)
  {
    if Acceptable(poll.mac, poll.claims) {
      var mac := Normalized(Some(Raw(poll.mac)));
      var found := RowOf(desk.rows, mac);
      var id := if found.Some? then found.value else poll.newId;
      var seen := desk.(rows := Announced(desk.rows, found, mac, poll.claims, poll.sourceIp, poll.now, poll.newId));
      AnnouncedKeeps(desk, mac, poll.claims, poll.sourceIp, poll.now, poll.newId);
      ReboundKeeps(seen, id, poll.now, poll.minted, pick);
      var rebound := Rebound(seen, id, poll.now, poll.minted, pick);
      RecoveredKeeps(rebound, id, poll.now, poll.minted);
      StampedKeeps(Recovered(rebound, id, poll.now, poll.minted), id, poll.now);
    }
  }

  /** The row a poll finds, if any. */
  ghost function Asked(desk: Desk, poll: Poll): Option<Id> {
    RowOf(desk.rows, Normalized(Some(Raw(poll.mac))))
  }

  /** The last answer is given exactly for an adopted row that never delivered and has no secret. */
  lemma AwaitingRegisterExactly(desk: Desk, poll: Poll, pick: Pick)
    ensures Polled(desk, poll, pick).1.AwaitingRegister? <==>
            && Acceptable(poll.mac, poll.claims)
            && Asked(desk, poll).Some?
            && var row := desk.rows[Asked(desk, poll).value];
            && row.adoptedAt.Some? && row.rejectedAt.None? && row.secret.None? && row.consumedAt.None?
            && row.deliveredAt.None?
  {
  }

  /** A secret handed out, now or again, is that of a token that exists and is unconsumed. */
  lemma AdoptedMeansLiveToken(desk: Desk, poll: Poll, pick: Pick)
    requires Inv(desk) && Unminted(desk, poll.minted) && poll.newId !in desk.rows
    ensures var (after, reply) := Polled(desk, poll, pick);
            reply.Adopted? ==>
              && Lookup(after.reg, reply.secret).Some?
              && after.reg.tokens[Lookup(after.reg, reply.secret).value].consumedAt.None?
  {
    PollKeepsInv(desk, poll, pick);
    var (after, reply) := Polled(desk, poll, pick);
    if reply.Adopted? {
      var mac := Normalized(Some(Raw(poll.mac)));
      var id := if RowOf(desk.rows, mac).Some? then RowOf(desk.rows, mac).value else poll.newId;
      assert after.rows[id].secret == Some(reply.secret);
      LookupIsUnique(after.reg, after.rows[id].tokenId.value, reply.secret);
    }
  }

  /**
   Never stranded: polling an adopted, unrejected, unconsumed row hands out a live token, or
   finds the row's own token spent and says so. No poll is left waiting.
   */
  lemma NeverStranded(desk: Desk, poll: Poll, pick: Pick)
    requires Inv(desk) && Unminted(desk, poll.minted) && poll.newId !in desk.rows && Acceptable(poll.mac, poll.claims)
    ensures var (after, reply) := Polled(desk, poll, pick);
            && !reply.AwaitingRegister?
            && (Asked(desk, poll).Some? ==>
                  var was := desk.rows[Asked(desk, poll).value];
                  var row := after.rows[Asked(desk, poll).value];
                  was.adoptedAt.Some? && was.rejectedAt.None? && was.consumedAt.None? ==>
                    || (&& reply.Adopted? && row.deliveredAt.Some?
                        && Lookup(after.reg, reply.secret).Some?
                        && after.reg.tokens[Lookup(after.reg, reply.secret).value].consumedAt.None?)
                    || (&& reply.Registered? && row.consumedAt.Some?
                        && TokenOf(desk, was).Some? && TokenOf(desk, was).value.consumedAt == row.consumedAt))
  {
    AwaitingRegisterExactly(desk, poll, pick);
    AdoptedMeansLiveToken(desk, poll, pick);
  }

  // ---------- the other operations ----------

  /** Adopting keeps the invariant exactly when it does not reach an already consumed row. */
  lemma AdoptKeepsInvExactly(desk: Desk, id: Id, mode: Mode, name: Option<string>, now: Time, minted: Minted)
    requires Inv(desk) && Unminted(desk, minted)
    ensures var (after, outcome) := AdoptRow(desk, id, mode, name, now, minted);
            Inv(after) <==> (outcome == Done ==> desk.rows[id].consumedAt.None?)
  {
    var (after, outcome) := AdoptRow(desk, id, mode, name, now, minted);
    if outcome == Done {
      if desk.rows[id].consumedAt.None? {
        RearmingKeeps(desk, id, after.rows[id], minted, after.reg.tokens[minted.id]);
      } else {
        assert !RowOk(after.rows[id], after.reg.tokens);
      }
    }
  }

  lemma RejectKeepsInv(desk: Desk, id: Id, now: Time)
    requires Inv(desk)
    ensures Inv(RejectRow(desk, id, now))
  {
  }

  lemma ReconcileKeepsInv(desk: Desk, id: Id, now: Time)
    requires Inv(desk)
    ensures Inv(Reconciled(desk, id, now).0)
  {
  }

  /** No row carries the secret of a token that a redemption of this one would leave dead. */
  ghost predicate Crosslinks(desk: Desk, token: Id, mac: Option<string>, pick: Pick) {
    forall id | id in desk.rows && desk.rows[id].secret.Some? && desk.rows[id].tokenId == Some(token) ::
      Linked(desk.rows, mac, pick) == Some(id)
  }

  /** The rows keep their MACs and tokens, and change only by being spent. */
  predicate OnlySpent(rows: Rows, marked: Rows) {
    && marked.Keys == rows.Keys
    && (forall id | id in marked :: marked[id].mac == rows[id].mac && marked[id].tokenId == rows[id].tokenId)
    && (forall id | id in marked && marked[id] != rows[id] :: marked[id].secret.None? && marked[id].consumedAt.Some?)
  }

  lemma SpendingKeepsTables(rows: Rows, marked: Rows)
    requires OnlySpent(rows, marked) && Distinct(rows) && OwnTokens(rows)
    ensures Distinct(marked) && OwnTokens(marked)
  {
  }

  lemma RowOkExactly(rows: Rows, marked: Rows, tokens: map<Id, Token>, after: map<Id, Token>, token: Id, id: Id)
    requires OnlySpent(rows, marked) && id in rows && RowOk(rows[id], tokens)
    requires token in tokens && after.Keys == tokens.Keys && after[token].consumedAt.Some?
    requires forall t | t in tokens && t != token :: after[t] == tokens[t]
    ensures RowOk(marked[id], after) <==> !(marked[id].secret.Some? && marked[id].tokenId == Some(token))
  {
  }

  lemma RegisterKeepsSound(desk: Desk, token: Id, plan: Plan, p: Registration, now: Time, draw: Draw, marked: Rows)
    requires Inv(desk) && Unused(desk.reg, draw) && token in desk.reg.tokens
    requires plan.Restore? ==> plan.device in desk.reg.devices
    requires OnlySpent(desk.rows, marked)
    ensures var after := Desk(marked, Commit(desk.reg, token, plan, p, now, draw));
            Inv(after) <==> forall id | id in marked && marked[id].secret.Some? :: marked[id].tokenId != Some(token)
  {
    var after := Commit(desk.reg, token, plan, p, now, draw);
    CommitGivesOneCredential(desk.reg, token, plan, p, now, draw);
    SpendingKeepsTables(desk.rows, marked);
    forall id | id in marked
      ensures RowOk(marked[id], after.tokens) <==> !(marked[id].secret.Some? && marked[id].tokenId == Some(token))
    {
      RowOkExactly(desk.rows, marked, desk.reg.tokens, after.tokens, token, id);
    }
  }

  lemma LinkedRowExists(rows: Rows, mac: Option<string>, pick: Pick)
    ensures Linked(rows, mac, pick).Some? ==> Linked(rows, mac, pick).value in rows
  {
  }

  /** Registering keeps the invariant exactly when the row that armed the token is the one cross-linked. */
  lemma RegisterKeepsInvExactly(desk: Desk, secret: string, p: Registration, now: Time, draw: Draw, pick: Pick)
    requires Inv(desk) && Unused(desk.reg, draw)
    ensures var (after, result) := Registering(desk, secret, p, now, draw, pick);
            Inv(after) <==> (result.Redeem? ==>
              Crosslinks(desk, result.token, after.reg.devices[TargetOf(result.plan, draw)].mac, pick))
  {
    var (after, result) := Registering(desk, secret, p, now, draw, pick);
    if result.Redeem? {
      var mac := after.reg.devices[TargetOf(result.plan, draw)].mac;
      LinkedRowExists(desk.rows, mac, pick);
      RegisterKeepsSound(desk, result.token, result.plan, p, now, draw, Marked(desk.rows, mac, now, pick));
    }
  }

  /** The registered device's row ends up with the MAC announced, whichever branch was taken. */
  lemma RegisteredMac(reg: Registry, token: Option<Id>, p: Registration, now: Time, draw: Draw)
    requires token.Some? ==> token.value in reg.tokens
    requires Normalized(p.mac) != ""
    ensures var (after, result) := Register(reg, token, p, now, draw);
            result.Redeem? ==> Normalized(after.devices[TargetOf(result.plan, draw)].mac) == Normalized(p.mac)
  {
  }

  /** A device that registers with the MAC it announced under leaves no row with a dead token. */
  lemma AnnouncingMacCrosslinks(desk: Desk, secret: string, p: Registration, now: Time, draw: Draw, pick: Pick)
    requires Inv(desk) && Unused(desk.reg, draw)
    requires forall id | id in desk.rows && desk.rows[id].secret == Some(secret) ::
               desk.rows[id].mac == Normalized(p.mac) != ""
    ensures Inv(Registering(desk, secret, p, now, draw, pick).0)
  {
    var (after, result) := Registering(desk, secret, p, now, draw, pick);
    RegisterKeepsInvExactly(desk, secret, p, now, draw, pick);
    if result.Redeem? {
      assert result.token == Lookup(desk.reg, secret).value && Owns(desk.reg, result.token, secret);
      var mac := after.reg.devices[TargetOf(result.plan, draw)].mac;
      forall id | id in desk.rows && desk.rows[id].secret.Some? && desk.rows[id].tokenId == Some(result.token)
        ensures Linked(desk.rows, mac, pick) == Some(id)
      {
        RegisteredMac(desk.reg, Lookup(desk.reg, secret), p, now, draw);
        RowOfIsUnique(desk.rows, id);
      }
    }
  }

  // ---------- between a registration and its cross-link ----------

  /** Some unconsumed token has this secret. */
  ghost predicate Live(reg: Registry, secret: string) {
    exists t :: t in reg.tokens && reg.tokens[t].secret == secret && reg.tokens[t].consumedAt.None?
  }

  /**
   On any tables: a poll hands out a dead secret exactly when the row it finds carries one and is adopted,
   not rejected.
   */
  lemma DeadSecretExactly(desk: Desk, poll: Poll, pick: Pick)
    requires Unminted(desk, poll.minted)
    ensures var (after, reply) := Polled(desk, poll, pick);
            (reply.Adopted? && !Live(after.reg, reply.secret)) <==>
            && Acceptable(poll.mac, poll.claims)
            && Asked(desk, poll).Some?
            && var row := desk.rows[Asked(desk, poll).value];
            row.secret.Some? && row.adoptedAt.Some? && row.rejectedAt.None? && !Live(desk.reg, row.secret.value)
  {
    var (after, reply) := Polled(desk, poll, pick);
    if Acceptable(poll.mac, poll.claims) {
      var found := Asked(desk, poll);
      if found.Some? && desk.rows[found.value].secret.Some? {
        assert after.reg == desk.reg;
      } else if reply.Adopted? {
        assert poll.minted.id in after.reg.tokens && after.reg.tokens[poll.minted.id].consumedAt.None?;
      }
    }
  }

  /**
   A registration commits before it is cross-linked, which may never happen. A poll in between is
   handed a dead secret exactly for the row that armed the token just redeemed.
   */
  lemma PollBeforeCrosslinkExactly(desk: Desk, secret: string, p: Registration, now: Time, draw: Draw, poll: Poll,
                                   pick: Pick)
    requires Inv(desk) && Unminted(desk, poll.minted)
    ensures var (reg, result) := Register(desk.reg, Lookup(desk.reg, secret), p, now, draw);
            var (after, reply) := Polled(desk.(reg := reg), poll, pick);
            result.Redeem? ==>
              ((reply.Adopted? && !Live(after.reg, reply.secret)) <==>
               && Acceptable(poll.mac, poll.claims)
               && Asked(desk, poll).Some?
               && var row := desk.rows[Asked(desk, poll).value];
               row.secret.Some? && row.rejectedAt.None? && row.tokenId == Some(result.token))
  {
    var (reg, result) := Register(desk.reg, Lookup(desk.reg, secret), p, now, draw);
    if result.Redeem? {
      var mid := desk.(reg := reg);
      DeadSecretExactly(mid, poll, pick);
      if Asked(desk, poll).Some? {
        var row := desk.rows[Asked(desk, poll).value];
        if row.secret.Some? {
          assert row.tokenId != Some(result.token)
                 ==> reg.tokens[row.tokenId.value] == desk.reg.tokens[row.tokenId.value];
          assert Live(reg, row.secret.value) <==> row.tokenId != Some(result.token);
        }
      }
    }
  }

  // ---------- runs ----------

  datatype Step =
    | Announce(poll: Poll)
    | Adopt(row: Id, mode: Mode, name: Option<string>, now: Time, minted: Minted)
    | Reject(row: Id, now: Time)
    | RegisterWith(secret: string, registration: Registration, now: Time, draw: Draw)
    | CommitOnly(secret: string, registration: Registration, now: Time, draw: Draw)
    | Crosslink(mac: Option<string>, now: Time)
    | Reconcile(row: Id, now: Time)
    | Delete(row: Id)
    | Mint(id: Id, token: Token)
    | RevokeToken(id: Id)
    | Edit(reg: Registry)

  ghost function Next(desk: Desk, step: Step, pick: Pick): Desk {
    match step
    case Announce(poll) => Polled(desk, poll, pick).0
    case Adopt(row, mode, name, now, minted) => AdoptRow(desk, row, mode, name, now, minted).0
    case Reject(row, now) => RejectRow(desk, row, now)
    case RegisterWith(secret, p, now, draw) => Registering(desk, secret, p, now, draw, pick).0
    case CommitOnly(secret, p, now, draw) => desk.(reg := Register(desk.reg, Lookup(desk.reg, secret), p, now, draw).0)
    case Crosslink(mac, now) => desk.(rows := Marked(desk.rows, mac, now, pick))
    case Reconcile(row, now) => Reconciled(desk, row, now).0
    case Delete(row) => desk.(rows := desk.rows - {row})
    case Mint(id, token) => desk.(reg := desk.reg.(tokens := desk.reg.tokens[id := token]))
    case RevokeToken(id) =>
      if FateOf(desk.reg.tokens, id) == Revocable
      then Desk(Unlinked(desk.rows, id), desk.reg.(tokens := desk.reg.tokens - {id})) else desk
    case Edit(reg) => desk.(reg := reg)
  }

  /** Ids and secrets are new; an edit of devices leaves the tokens' secrets and consumption alone. */
  ghost predicate Enabled(desk: Desk, step: Step) {
    match step
    case Announce(poll) => Unminted(desk, poll.minted) && poll.newId !in desk.rows
    case Adopt(_, _, _, _, minted) => Unminted(desk, minted)
    case RegisterWith(_, _, _, draw) => Unused(desk.reg, draw)
    case CommitOnly(_, _, _, draw) => Unused(desk.reg, draw)
    case Mint(id, token) => Unminted(desk, Minted(id, token.secret)) && token.consumedAt.None?
    case Edit(reg) =>
      && Sound(reg)
      && reg.tokens.Keys == desk.reg.tokens.Keys
      && (forall t | t in reg.tokens ::
            reg.tokens[t].secret == desk.reg.tokens[t].secret
            && reg.tokens[t].consumedAt == desk.reg.tokens[t].consumedAt)
    case _ => true
  }

  /**
   What the people and devices do: adopt only rows the default list shows, register with the
   MAC that was announced, have the secret of a row cross-linked at once, and leave the token of
   an adopted row alone.
   */
  ghost predicate Customary(desk: Desk, step: Step) {
    match step
    case Adopt(row, _, _, _, _) =>
      row in desk.rows ==> desk.rows[row].consumedAt.None? && desk.rows[row].rejectedAt.None?
    case RegisterWith(secret, p, _, _) =>
      forall id | id in desk.rows && desk.rows[id].secret == Some(secret) ::
        desk.rows[id].mac == Normalized(p.mac) != ""
    case CommitOnly(secret, _, _, _) => forall id | id in desk.rows :: desk.rows[id].secret != Some(secret)
    case RevokeToken(token) =>
      forall id | id in desk.rows && desk.rows[id].tokenId == Some(token) :: desk.rows[id].secret.None?
    case _ => true
  }

  lemma CommitKeepsInv(desk: Desk, secret: string, p: Registration, now: Time, draw: Draw)
    requires Inv(desk) && Unused(desk.reg, draw)
    requires forall id | id in desk.rows :: desk.rows[id].secret != Some(secret)
    ensures Inv(desk.(reg := Register(desk.reg, Lookup(desk.reg, secret), p, now, draw).0))
  {
    var (reg, result) := Register(desk.reg, Lookup(desk.reg, secret), p, now, draw);
    if result.Redeem? {
      RegisterKeepsSound(desk, result.token, result.plan, p, now, draw, desk.rows);
    }
  }

  lemma MintKeepsInv(desk: Desk, id: Id, token: Token)
    requires Inv(desk) && Unminted(desk, Minted(id, token.secret)) && token.consumedAt.None?
    ensures Inv(desk.(reg := desk.reg.(tokens := desk.reg.tokens[id := token])))
  {
  }

  lemma EditKeepsInv(desk: Desk, reg: Registry)
    requires Inv(desk) && Enabled(desk, Edit(reg))
    ensures Inv(desk.(reg := reg))
  {
  }

  lemma StepKeepsInv(desk: Desk, step: Step, pick: Pick)
    requires Inv(desk) && Enabled(desk, step) && Customary(desk, step)
    ensures Inv(Next(desk, step, pick))
  {
    match step
    case Announce(poll) => PollKeepsInv(desk, poll, pick);
    case Adopt(row, mode, name, now, minted) => AdoptKeepsInvExactly(desk, row, mode, name, now, minted);
    case Reject(row, now) => RejectKeepsInv(desk, row, now);
    case RegisterWith(secret, p, now, draw) => AnnouncingMacCrosslinks(desk, secret, p, now, draw, pick);
    case CommitOnly(secret, p, now, draw) => CommitKeepsInv(desk, secret, p, now, draw);
    case Crosslink(mac, now) => LinkedRowExists(desk.rows, mac, pick);
    case Reconcile(row, now) => ReconcileKeepsInv(desk, row, now);
    case Delete(row) =>
    case Mint(id, token) => MintKeepsInv(desk, id, token);
    case RevokeToken(id) => if FateOf(desk.reg.tokens, id) == Revocable { UnlinkingKeeps(desk, id); }
    case Edit(reg) => EditKeepsInv(desk, reg);
  }

  ghost predicate CustomaryRun(desk: Desk, steps: seq<Step>, pick: Pick)
    decreases |steps|
  {
    steps != [] ==> Enabled(desk, steps[0]) && Customary(desk, steps[0])
                    && CustomaryRun(Next(desk, steps[0], pick), steps[1..], pick)
  }

  ghost function After(desk: Desk, steps: seq<Step>, pick: Pick): Desk
    decreases |steps|
  {
    if steps == [] then desk else After(Next(desk, steps[0], pick), steps[1..], pick)
  }

  /** Rows as a version that dropped the secret at its first delivery left them. */
  ghost predicate Legacy(desk: Desk) {
    && Sound(desk.reg) && Distinct(desk.rows) && OwnTokens(desk.rows)
    && (forall id | id in desk.rows :: var row := desk.rows[id];
          && row.secret.None?
          && (row.tokenId.Some? ==> row.tokenId.value in desk.reg.tokens)
          && (row.adoptedAt.Some? && row.consumedAt.None? ==> row.deliveredAt.Some?))
  }

  /** Runs may start from such rows. */
  lemma LegacyIsSound(desk: Desk)
    requires Legacy(desk)
    ensures Inv(desk)
  {
  }

  /** Over every customary run no poll is answered with awaiting_register, and the secrets handed out stay live. */
  lemma {:induction false} NeverStrandedAlongRuns(desk: Desk, steps: seq<Step>, poll: Poll, pick: Pick)
    requires Inv(desk) && CustomaryRun(desk, steps, pick) && Enabled(After(desk, steps, pick), Announce(poll))
    ensures Inv(After(desk, steps, pick)) && !Polled(After(desk, steps, pick), poll, pick).1.AwaitingRegister?
    decreases |steps|
  {
    if steps == [] {
      AwaitingRegisterExactly(desk, poll, pick);
    } else {
      StepKeepsInv(desk, steps[0], pick);
      NeverStrandedAlongRuns(Next(desk, steps[0], pick), steps[1..], poll, pick);
    }
  }

  /** Who was adopted and has neither a secret nor registered was at least handed one. */
  ghost predicate Delivered(desk: Desk) {
    forall id | id in desk.rows :: var row := desk.rows[id];
      row.adoptedAt.Some? && row.consumedAt.None? && row.secret.None? ==> row.deliveredAt.Some?
  }

  lemma StepKeepsDelivered(desk: Desk, step: Step, pick: Pick)
    requires Delivered(desk)
    ensures Delivered(Next(desk, step, pick))
  {
    match step
    case Crosslink(mac, now) => LinkedRowExists(desk.rows, mac, pick);
    case RegisterWith(secret, p, now, draw) =>
      var (reg, result) := Register(desk.reg, Lookup(desk.reg, secret), p, now, draw);
      if result.Redeem? { LinkedRowExists(desk.rows, reg.devices[TargetOf(result.plan, draw)].mac, pick); }
    case _ =>
  }

  /**
   No run whatever leads to an awaiting_register: not a registration whose cross-link comes late
   or never, nor a foreign MAC, a revoked token or an adoption of a consumed row.
   */
  lemma {:induction false} NeverAwaitingAlongAnyRun(desk: Desk, steps: seq<Step>, poll: Poll, pick: Pick)
    requires Delivered(desk)
    ensures Delivered(After(desk, steps, pick)) && !Polled(After(desk, steps, pick), poll, pick).1.AwaitingRegister?
    decreases |steps|
  {
    if steps == [] {
      AwaitingRegisterExactly(desk, poll, pick);
    } else {
      StepKeepsDelivered(desk, steps[0], pick);
      NeverAwaitingAlongAnyRun(Next(desk, steps[0], pick), steps[1..], poll, pick);
    }
  }

  // ---------- completing, and what goes wrong ----------

  /** What the checks of a registration can still object to once the token is known to be live. */
  predicate OnlyForeseen(why: Refusal) {
    why in {ValidationFailed, EnrollmentExpired, EnrollmentInvalid, DeviceMismatch, AlreadyRegistered}
  }

  /**
   The secret of the last answer registers its device: the token is never found already used,
   and an accepted registration under the announced MAC closes the row it was handed out from.
   */
  lemma PollThenRegisterCompletes(desk: Desk, poll: Poll, p: Registration, now: Time, draw: Draw, pick: Pick)
    requires Inv(desk) && Unminted(desk, poll.minted) && poll.newId !in desk.rows && Picks(pick)
    requires Polled(desk, poll, pick).1.Adopted? && Unused(Polled(desk, poll, pick).0.reg, draw)
    requires Normalized(p.mac) == Normalized(Some(Raw(poll.mac))) != ""
    ensures var (answered, reply) := Polled(desk, poll, pick);
            var (after, result) := Registering(answered, reply.secret, p, now, draw, pick);
            && (result.Rejected? ==> OnlyForeseen(result.why))
            && (result.Redeem? ==>
                  && Inv(after)
                  && RowOf(after.rows, Normalized(p.mac)).Some?
                  && var row := after.rows[RowOf(after.rows, Normalized(p.mac)).value];
                  row.consumedAt == Some(now) && row.secret.None?
                  && Authenticates(after.reg, draw.secret, TargetOf(result.plan, draw)))
  {
    var (answered, reply) := Polled(desk, poll, pick);
    PollKeepsInv(desk, poll, pick);
    AdoptedMeansLiveToken(desk, poll, pick);
    var mac := Normalized(Some(Raw(poll.mac)));
    var id := if RowOf(desk.rows, mac).Some? then RowOf(desk.rows, mac).value else poll.newId;
    PolledRow(desk, poll, pick, id);
    Completing(answered, id, p, now, draw, pick);
  }

  /** The row a poll answers for keeps its MAC and carries the secret that is handed out. */
  lemma PolledRow(desk: Desk, poll: Poll, pick: Pick, id: Id)
    requires Acceptable(poll.mac, poll.claims)
    requires id == if Asked(desk, poll).Some? then Asked(desk, poll).value else poll.newId
    ensures var (after, reply) := Polled(desk, poll, pick);
            && HasMac(after.rows, id, Normalized(Some(Raw(poll.mac))))
            && (reply.Adopted? ==> after.rows[id].secret == Some(reply.secret))
  {
  }

  lemma Completing(desk: Desk, id: Id, p: Registration, now: Time, draw: Draw, pick: Pick)
    requires Inv(desk) && Unused(desk.reg, draw) && id in desk.rows && desk.rows[id].secret.Some?
    requires desk.rows[id].mac == Normalized(p.mac) != ""
    ensures var (after, result) := Registering(desk, desk.rows[id].secret.value, p, now, draw, pick);
            && (result.Rejected? ==> OnlyForeseen(result.why))
            && (result.Redeem? ==>
                  && Inv(after)
                  && RowOf(after.rows, Normalized(p.mac)) == Some(id)
                  && after.rows[id].consumedAt == Some(now) && after.rows[id].secret.None?
                  && Authenticates(after.reg, draw.secret, TargetOf(result.plan, draw)))
  {
    var secret := desk.rows[id].secret.value;
    var (after, result) := Registering(desk, secret, p, now, draw, pick);
    LookupIsUnique(desk.reg, desk.rows[id].tokenId.value, secret);
    assert forall other | other in desk.rows && desk.rows[other].secret == Some(secret) ::
             desk.rows[other].tokenId == desk.rows[id].tokenId;
    AnnouncingMacCrosslinks(desk, secret, p, now, draw, pick);
    RowOfIsUnique(desk.rows, id);
    if result.Redeem? {
      RegisteredMac(desk.reg, Lookup(desk.reg, secret), p, now, draw);
      CommitGivesOneCredential(desk.reg, result.token, result.plan, p, now, draw);
      RowOfIsUnique(after.rows, id);
    }
  }

  /**
   A row whose token was spent under another MAC is stuck: every poll hands the dead secret out
   again, and every registration with it is refused.
   */
  lemma DeadTokenIsHandedOutAgain(desk: Desk, poll: Poll, p: Registration, now: Time, draw: Draw, pick: Pick)
    requires Sound(desk.reg) && Acceptable(poll.mac, poll.claims) && Asked(desk, poll).Some? && ValidRegistration(p)
    requires var row := desk.rows[Asked(desk, poll).value];
             && row.secret.Some? && row.adoptedAt.Some? && row.rejectedAt.None?
             && Lookup(desk.reg, row.secret.value).Some?
             && desk.reg.tokens[Lookup(desk.reg, row.secret.value).value].consumedAt.Some?
    ensures var id := Asked(desk, poll).value;
            var (after, reply) := Polled(desk, poll, pick);
            && reply == Adopted(desk.rows[id].secret.value)
            && after.reg == desk.reg
            && after.rows[id].secret == desk.rows[id].secret && after.rows[id].consumedAt == desk.rows[id].consumedAt
            && Registering(after, reply.secret, p, now, draw, pick) == (after, Rejected(EnrollmentConsumed))
  {
  }

  lemma SameMacExactly(mac: string, raw: Option<string>, device: Device)
    requires mac == Normalized(raw) == Normalized(device.mac) && TrimUpper(Some(mac)) != ""
    ensures SameMac(mac, device) <==> forall c | c in TrimUpper(device.mac) :: c !in SEPARATORS
  {
    WithoutKeepsTheRest(TrimUpper(raw), SEPARATORS);
    KeepsOut(mac, SEPARATORS);
    var stored := TrimUpper(device.mac);
    assert stored != "";
    if forall c | c in stored :: c !in SEPARATORS {
      WithoutAbsent(stored, SEPARATORS);
      TrimUpperTwice(device.mac);
    }
  }

  /**
   Restoring compares the announcement's separator-free MAC with the device's MAC as stored: for
   a device of that very hardware it is accepted exactly when the stored MAC has no separators.
   */
  lemma RestoreNeedsSeparatorFreeMac(desk: Desk, id: Id, device: Id, raw: Option<string>)
    requires id in desk.rows && desk.rows[id].adoptedAt.None? && desk.rows[id].rejectedAt.None?
    requires device != "" && device in desk.reg.devices && desk.reg.devices[device].state != Decommissioned
    requires desk.rows[id].mac == Normalized(raw) == Normalized(desk.reg.devices[device].mac)
    requires TrimUpper(Some(desk.rows[id].mac)) != ""
    ensures AdoptCheck(desk, id, Restoring(Some(device))) == Done
            <==> forall c | c in TrimUpper(desk.reg.devices[device].mac) :: c !in SEPARATORS
  {
    SameMacExactly(desk.rows[id].mac, raw, desk.reg.devices[device]);
  }
}
