/** Role bindings, the scopes they resolve to, and the list filters built on the scopes. */
module Rbac {
  import opened Common

  datatype ScopeType = Global | SiteScope | GroupScope | DeviceScope | UnknownScope

  datatype Binding = Binding(user: Id, kind: ScopeType, scope: Option<Id>, role: string)

  /** Bindings in table order, each device's site, and who is a member of which group. */
  datatype Tables = Tables(bindings: seq<Binding>, sites: map<Id, Option<Id>>, members: set<(Id, Id)>)

  datatype Scope = All | Only(ids: set<Id>)

  function Rank(role: string): nat {
    match role
    case "super_admin" => 4
    case "admin" => 3
    case "operator" => 2
    case "viewer" => 1
    case _ => 0
  }

  predicate Satisfies(have: string, need: string) {
    Rank(have) >= Rank(need)
  }

  // ---------- what a binding means ----------

  /** A binding of this user, at or above the role needed. */
  predicate Serves(b: Binding, user: Id, need: string) {
    b.user == user && Satisfies(b.role, need)
  }

  predicate CoversDevice(t: Tables, b: Binding, d: Id) {
    && b.scope.Some?
    && match b.kind
       case DeviceScope => b.scope == Some(d)
       case SiteScope => d in t.sites && t.sites[d] == b.scope
       case GroupScope => (b.scope.value, d) in t.members
       case _ => false
  }

  predicate Reaches(t: Tables, user: Id, need: string, d: Id) {
    exists b | b in t.bindings :: Serves(b, user, need) && (b.kind == Global || CoversDevice(t, b, d))
  }

  predicate HasGlobal(bindings: seq<Binding>, user: Id, need: string) {
    exists b | b in bindings :: Serves(b, user, need) && b.kind == Global
  }

  /** The scope ids of the user's satisfying bindings of one kind. */
  function ScopeIds(bindings: seq<Binding>, user: Id, need: string, kind: ScopeType): set<Id> {
    set b | b in bindings && Serves(b, user, need) && b.kind == kind && b.scope.Some? :: b.scope.value
  }

  function SiteOrGroupScope(t: Tables, user: Id, need: string, kind: ScopeType): Scope {
    if HasGlobal(t.bindings, user, need) then All else Only(ScopeIds(t.bindings, user, need, kind))
  }

  function EffectiveDevices(t: Tables, user: Id, need: string): Scope {
    if HasGlobal(t.bindings, user, need) then All
    else
      var sites := ScopeIds(t.bindings, user, need, SiteScope);
      var groups := ScopeIds(t.bindings, user, need, GroupScope);
      Only(ScopeIds(t.bindings, user, need, DeviceScope)
           + (set d | d in t.sites && t.sites[d].Some? && t.sites[d].value in sites)
           + (set m | m in t.members && m.0 in groups :: m.1))
  }

  predicate Allows(s: Scope, id: Id) {
    s.All? || id in s.ids
  }

  /** The resolved scope allows exactly what some satisfying binding covers, and is ALL exactly for a global one. */
  lemma ResolverIsPointwise(t: Tables, user: Id, need: string)
    ensures EffectiveDevices(t, user, need).All? <==> HasGlobal(t.bindings, user, need)
    ensures forall d :: Allows(EffectiveDevices(t, user, need), d) <==> Reaches(t, user, need, d)
  {
  }

  predicate Within(a: Scope, b: Scope) {
    b.All? || (a.Only? && a.ids <= b.ids)
  }

  /** Needing a higher role never widens a scope; more bindings never narrow it. */
  lemma ScopeIsAntitoneAndMonotone(t: Tables, more: Tables, user: Id, need: string, higher: string)
    requires Rank(need) <= Rank(higher)
    requires (forall b | b in t.bindings :: b in more.bindings) && t.sites == more.sites && t.members == more.members
    ensures Within(EffectiveDevices(t, user, higher), EffectiveDevices(more, user, need))
    ensures forall kind :: Within(SiteOrGroupScope(t, user, higher, kind), SiteOrGroupScope(more, user, need, kind))
  {
  }

  /** Whoever may act on a site or a group may act on every device in it. */
  lemma ReachingTheWholeReachesTheParts(t: Tables, user: Id, need: string, d: Id)
    ensures d in t.sites && t.sites[d].Some? && Allows(SiteOrGroupScope(t, user, need, SiteScope), t.sites[d].value) ==>
              Allows(EffectiveDevices(t, user, need), d)
    ensures forall g :: (g, d) in t.members && Allows(SiteOrGroupScope(t, user, need, GroupScope), g) ==>
              Allows(EffectiveDevices(t, user, need), d)
  {
  }

  // ---------- granting and revoking ----------

  predicate SameKey(b: Binding, user: Id, kind: ScopeType, scope: Option<Id>) {
    b.user == user && b.kind == kind && b.scope == scope
  }

  predicate UniqueKeys(bindings: seq<Binding>) {
    forall i, j | 0 <= i < j < |bindings| ::
      !SameKey(bindings[i], bindings[j].user, bindings[j].kind, bindings[j].scope)
  }

  predicate Grantable(kind: ScopeType, scope: Option<Id>, role: string) {
    && kind != UnknownScope
    && (kind == Global ==> scope.None?)
    && (kind != Global ==> scope.Some? && scope.value != "")
    && Rank(role) > 0
  }

  class BindingTable {
    var bindings: seq<Binding>

    constructor ()
      ensures bindings == []
    {
      bindings := [];
    }

    method Find(user: Id, kind: ScopeType, scope: Option<Id>) returns (at: Option<nat>)
      ensures at.Some? ==> at.value < |bindings| && SameKey(bindings[at.value], user, kind, scope)
      ensures at.None? ==> forall b | b in bindings :: !SameKey(b, user, kind, scope)
    {
      for i := 0 to |bindings|
        invariant forall j | 0 <= j < i :: !SameKey(bindings[j], user, kind, scope)
      {
        if SameKey(bindings[i], user, kind, scope) {
          return Some(i);
        }
      }
      return None;
    }

    /** Insert the binding, or give the existing one of the same key the new role. */
    method Grant(user: Id, kind: ScopeType, scope: Option<Id>, role: string) returns (ok: bool)
      requires UniqueKeys(bindings)
      modifies this
      ensures UniqueKeys(bindings)
      ensures ok == Grantable(kind, scope, role)
      ensures !ok ==> bindings == old(bindings)
      ensures ok ==> forall b :: b in bindings <==>
                       b == Binding(user, kind, scope, role) || (b in old(bindings) && !SameKey(b, user, kind, scope))
    {
      if !Grantable(kind, scope, role) {
        return false;
      }
      var at := Find(user, kind, scope);
      ghost var before := bindings;
      if at.Some? {
        bindings := bindings[at.value := bindings[at.value].(role := role)];
        assert bindings[at.value] == Binding(user, kind, scope, role);
        forall b | b in before && !SameKey(b, user, kind, scope) ensures b in bindings {
          var i :| 0 <= i < |before| && before[i] == b;
          assert bindings[i] == b;
        }
      } else {
        bindings := bindings + [Binding(user, kind, scope, role)];
      }
      return true;
    }

    /** Drop the binding of this key. */
    method Revoke(user: Id, kind: ScopeType, scope: Option<Id>) returns (dropped: bool)
      requires UniqueKeys(bindings)
      modifies this
      ensures UniqueKeys(bindings)
      ensures dropped <==> exists b | b in old(bindings) :: SameKey(b, user, kind, scope)
      ensures forall b :: b in bindings <==> b in old(bindings) && !SameKey(b, user, kind, scope)
    {
      var at := Find(user, kind, scope);
      if at.None? {
        return false;
      }
      ghost var before := bindings;
      assert before[at.value] in before;
      bindings := bindings[..at.value] + bindings[at.value + 1..];
      forall b | b in before && !SameKey(b, user, kind, scope) ensures b in bindings {
        var i :| 0 <= i < |before| && before[i] == b;
        assert bindings[if i < at.value then i else i - 1] == b;
      }
      return true;
    }

    method EffectiveIds(user: Id, need: string, kind: ScopeType) returns (eff: Scope)
      ensures eff == SiteOrGroupScope(Tables(bindings, map[], {}), user, need, kind)
    {
      for i := 0 to |bindings|
        invariant forall j | 0 <= j < i :: !(Serves(bindings[j], user, need) && bindings[j].kind == Global)
      {
        if bindings[i].user == user && bindings[i].kind == Global && Satisfies(bindings[i].role, need) {
          return All;
        }
      }
      return Only(set b | b in bindings && Serves(b, user, need) && b.kind == kind && b.scope.Some? :: b.scope.value);
    }

    /** A global binding short-circuits; otherwise the three other sources are united. */
    method EffectiveDeviceIds(user: Id, need: string, sites: map<Id, Option<Id>>, members: set<(Id, Id)>)
      returns (eff: Scope)
      ensures eff == EffectiveDevices(Tables(bindings, sites, members), user, need)
    {
      var direct := EffectiveIds(user, need, DeviceScope);
      if direct.All? {
        return All;
      }
      var inSites := ScopeIds(bindings, user, need, SiteScope);
      var inGroups := ScopeIds(bindings, user, need, GroupScope);
      var ids := direct.ids;
      if inSites != {} {
        ids := ids + set d | d in sites && sites[d].Some? && sites[d].value in inSites;
      }
      if inGroups != {} {
        ids := ids + set m | m in members && m.0 in inGroups :: m.1;
      }
      return Only(ids);
    }
  }

  // ---------- filtering a device list ----------

  function InScope(rows: seq<Id>, scope: Scope): seq<Id> {
    if rows == [] then []
    else InScope(rows[..|rows| - 1], scope) + if Allows(scope, rows[|rows| - 1]) then [rows[|rows| - 1]] else []
  }

  function Ids(rows: seq<Id>): set<Id> {
    set d | d in rows
  }

  predicate Distinct(rows: seq<Id>) {
    forall i, j | 0 <= i < j < |rows| :: rows[i] != rows[j]
  }

  datatype Diff = Diff(total: nat, scoped: int, hidden: set<Id>)

  /** The diff shadow mode works out from the rows it returns anyway, without a second query. */
  function CheapDiff(rows: seq<Id>, scope: set<Id>): Diff {
    var hidden := Ids(rows) - scope;
    Diff(|Ids(rows)|, |Ids(rows)| - |hidden|, hidden)
  }

  datatype Mode = Shadow | Enforce

  /** A system job or a super admin sees everything; so does whoever's scope is ALL. */
  method FilterDevices(rows: seq<Id>, unscoped: bool, scope: Scope, mode: Mode)
    returns (shown: seq<Id>, diff: Option<Diff>)
    ensures shown == if !unscoped && scope.Only? && mode == Enforce then InScope(rows, scope) else rows
    ensures diff.Some? <==> !unscoped && scope.Only? && mode == Shadow && Ids(rows) - scope.ids != {}
    ensures diff.Some? ==> diff.value == CheapDiff(rows, scope.ids)
  {
    if unscoped || scope.All? {
      return rows, None;
    }
    if mode == Enforce {
      shown := [];
      for i := 0 to |rows|
        invariant shown == InScope(rows[..i], scope)
      {
        assert rows[..i + 1][..i] == rows[..i];
        if rows[i] in scope.ids {
          shown := shown + [rows[i]];
        }
      }
      assert rows[..|rows|] == rows;
      return shown, None;
    }
    var hidden := Ids(rows) - scope.ids;
    return rows, if hidden != {} then Some(CheapDiff(rows, scope.ids)) else None;
  }

  lemma {:induction false} InScopeIds(rows: seq<Id>, scope: Scope)
    ensures forall d :: d in InScope(rows, scope) <==> d in rows && Allows(scope, d)
    ensures Distinct(rows) ==> Distinct(InScope(rows, scope))
  {
    if rows != [] {
      InScopeIds(rows[..|rows| - 1], scope);
      assert rows == rows[..|rows| - 1] + [rows[|rows| - 1]];
    }
  }

  lemma {:induction false} DistinctCount(rows: seq<Id>)
    requires Distinct(rows)
    ensures |Ids(rows)| == |rows|
  {
    if rows != [] {
      var n := |rows| - 1;
      DistinctCount(rows[..n]);
      assert Ids(rows) == Ids(rows[..n]) + {rows[n]};
    }
  }

  /** For an unlimited query the cheap diff is what enforcing would do: the rows dropped, and how many it would keep. */
  lemma ShadowDiffIsWhatEnforceDrops(rows: seq<Id>, scope: set<Id>)
    requires Distinct(rows)
    ensures CheapDiff(rows, scope).hidden == Ids(rows) - Ids(InScope(rows, Only(scope)))
    ensures CheapDiff(rows, scope).scoped == |InScope(rows, Only(scope))|
    ensures CheapDiff(rows, scope).total == |rows|
  {
    InScopeIds(rows, Only(scope));
    DistinctCount(rows);
    DistinctCount(InScope(rows, Only(scope)));
    assert Ids(rows) - Ids(InScope(rows, Only(scope))) == Ids(rows) - scope;
    assert Ids(rows) == (Ids(rows) - scope) + Ids(InScope(rows, Only(scope)));
  }

  function FirstOf(rows: seq<Id>, limit: nat): seq<Id> {
    if |rows| <= limit then rows else rows[..limit]
  }

  lemma {:induction false} InScopeSplits(a: seq<Id>, b: seq<Id>, scope: Scope)
    ensures InScope(a + b, scope) == InScope(a, scope) + InScope(b, scope)
  {
    if b == [] {
      assert a + b == a;
    } else {
      var n := |b| - 1;
      InScopeSplits(a, b[..n], scope);
      assert (a + b)[..|a + b| - 1] == a + b[..n];
    }
  }

  lemma {:induction false} InScopeNoLonger(rows: seq<Id>, scope: Scope)
    ensures |InScope(rows, scope)| <= |rows|
    ensures |InScope(rows, scope)| == |rows| <==> forall i | 0 <= i < |rows| :: Allows(scope, rows[i])
  {
    if rows != [] { InScopeNoLonger(rows[..|rows| - 1], scope); }
  }

  /**
   With a page limit the cheap diff counts what is left of one page, and enforcing fills the page
   up: the counts agree exactly when the page is all in scope or nothing in scope lies beyond it.
   */
  lemma LimitedDiffIsExactWhen(page: seq<Id>, beyond: seq<Id>, scope: set<Id>)
    requires Distinct(page)
    ensures CheapDiff(page, scope).scoped == |FirstOf(InScope(page + beyond, Only(scope)), |page|)|
            <==> (forall i | 0 <= i < |page| :: page[i] in scope)
                 || (forall i | 0 <= i < |beyond| :: beyond[i] !in scope)
  {
    ShadowDiffIsWhatEnforceDrops(page, scope);
    InScopeSplits(page, beyond, Only(scope));
    InScopeNoLonger(page, Only(scope));
    InScopeEmpty(beyond, Only(scope));
  }

  /** Such a page is misjudged: the diff counts nothing as left where enforcing would show the next row. */
  lemma HiddenPageIsMisjudged(hidden: Id, shown: Id)
    requires hidden != shown
    ensures CheapDiff([hidden], {shown}).scoped == 0
    ensures |FirstOf(InScope([hidden] + [shown], Only({shown})), 1)| == 1
  {
    var scope := Only({shown});
    ShadowDiffIsWhatEnforceDrops([hidden], {shown});
    InScopeSplits([hidden], [shown], scope);
    InScopeEmpty([hidden], scope);
    InScopeNoLonger([shown], scope);
  }

  lemma {:induction false} InScopeEmpty(rows: seq<Id>, scope: Scope)
    ensures InScope(rows, scope) == [] <==> forall i | 0 <= i < |rows| :: !Allows(scope, rows[i])
  {
    if rows != [] { InScopeEmpty(rows[..|rows| - 1], scope); }
  }

  // ---------- filtering the audit log ----------

  datatype AuditEvent = AuditEvent(id: Id, kind: Option<string>, target: Option<Id>)

  /** One disjunct of the filter. */
  datatype Clause = KindIsNull | KindIs(kind: string) | KindIsWithin(kind: string, ids: set<Id>) | KindIsOther

  const SCOPED: seq<string> := ["device", "site", "group"]

  /** SQL truth: None is unknown. */
  function Eval(c: Clause, e: AuditEvent): Option<bool> {
    match c
    case KindIsNull => Some(e.kind.None?)
    case KindIs(k) => if e.kind.None? then None else Some(e.kind.value == k)
    case KindIsWithin(k, ids) =>
      var isKind := if e.kind.None? then None else Some(e.kind.value == k);
      var within := if ids == {} then Some(false) else if e.target.None? then None else Some(e.target.value in ids);
      if isKind == Some(false) || within == Some(false) then Some(false)
      else if isKind == Some(true) && within == Some(true) then Some(true) else None
    case KindIsOther => if e.kind.None? then None else Some(e.kind.value !in SCOPED)
  }

  predicate Selected(clauses: seq<Clause>, e: AuditEvent) {
    exists i :: 0 <= i < |clauses| && Eval(clauses[i], e) == Some(true)
  }

  function ClauseFor(kind: string, scope: Scope): Clause {
    if scope.All? then KindIs(kind) else KindIsWithin(kind, scope.ids)
  }

  method AuditClauses(devices: Scope, sites: Scope, groups: Scope) returns (clauses: seq<Clause>)
    ensures clauses == AuditFilter(devices, sites, groups)
  {
    clauses := [KindIsNull];
    if devices.Only? {
      clauses := clauses + [KindIsWithin("device", devices.ids)];
    } else {
      clauses := clauses + [KindIs("device")];
    }
    if sites.Only? {
      clauses := clauses + [KindIsWithin("site", sites.ids)];
    } else {
      clauses := clauses + [KindIs("site")];
    }
    if groups.Only? {
      clauses := clauses + [KindIsWithin("group", groups.ids)];
    } else {
      clauses := clauses + [KindIs("group")];
    }
    clauses := clauses + [KindIsOther];
  }

  function AuditFilter(devices: Scope, sites: Scope, groups: Scope): seq<Clause> {
    [KindIsNull, ClauseFor("device", devices), ClauseFor("site", sites), ClauseFor("group", groups), KindIsOther]
  }

  /** The scope that decides about events on this kind of target, if any does. */
  function ScopeOf(kind: string, devices: Scope, sites: Scope, groups: Scope): Option<Scope> {
    match kind
    case "device" => Some(devices)
    case "site" => Some(sites)
    case "group" => Some(groups)
    case _ => None
  }

  /**
   The filter shows an event exactly if it has no target kind, or one that is not scoped, or its
   target is in scope; an event on a scoped kind that names no target needs the whole kind.
   */
  lemma AuditFilterIsTargetAccess(devices: Scope, sites: Scope, groups: Scope, e: AuditEvent)
    ensures Selected(AuditFilter(devices, sites, groups), e) <==>
            || e.kind.None?
            || ScopeOf(e.kind.value, devices, sites, groups).None?
            || var scope := ScopeOf(e.kind.value, devices, sites, groups).value;
               if e.target.None? then scope.All? else Allows(scope, e.target.value)
  {
    var clauses := AuditFilter(devices, sites, groups);
    assert Selected(clauses, e) <==>
           || Eval(clauses[0], e) == Some(true) || Eval(clauses[1], e) == Some(true)
              || Eval(clauses[2], e) == Some(true)
           || Eval(clauses[3], e) == Some(true) || Eval(clauses[4], e) == Some(true);
  }
}
