/** What exporting, planning and applying keep: round trips, conservation, and what a dry run promises. */
module ConfigBackup {
  import opened Common
  import opened Mac
  import opened JsonValues
  import opened ConfigModel

  // ---------- conservation ----------

  function CountOf(items: seq<Item>, d: Disposition): nat {
    if items == [] then 0 else CountOf(items[..|items| - 1], d) + if items[|items| - 1].disposition == d then 1 else 0
  }

  /**
   Every planned item is counted once, whatever the plan, if the import goes through; and only rows named in
   it change.
   */
  lemma {:induction false} EveryItemIsCounted<T>(write: Writer<T>, start: map<string, T>, items: seq<Item>)
    requires Applied(write, start, items).Some?
    ensures var done := Applied(write, start, items).value;
            && done.tally.created + done.tally.updated + done.tally.skipped == |items|
            && done.tally.skipped == CountOf(items, Skip) + CountOf(items, Conflict)
            && start.Keys <= done.rows.Keys && |done.rows| == |start| + done.tally.created
            && forall n | n in start && (forall it | it in items :: !Writes(it) || it.rec.name != Some(n)) ::
                 done.rows[n] == start[n]
  {
    if items != [] {
      var last := items[|items| - 1];
      EveryItemIsCounted(write, start, items[..|items| - 1]);
      assert last in items && forall it | it in items[..|items| - 1] :: it in items;
    }
  }

  // ---------- what a dry run promises ----------

  /** Names come as they will be stored. */
  predicate Trimmed(recs: seq<Rec>) {
    forall r | r in recs && r.name.Some? :: Trim(r.name.value) == r.name.value
  }

  lemma PlanOfPrefix(existing: set<string>, recs: seq<Rec>)
    requires recs != []
    ensures PlanNamed(existing, recs)
            == PlanNamed(existing, recs[..|recs| - 1])
            + [PlanOne(existing, NamesOf(recs[..|recs| - 1]), recs[|recs| - 1])]
  {
  }

  lemma NamesOfOneMore(recs: seq<Rec>)
    requires recs != []
    ensures var last := NameOf(recs[|recs| - 1]);
            NamesOf(recs) == NamesOf(recs[..|recs| - 1]) + if last == "" then {} else {last}
  {
  }

  /** Whether a record can be written depends on nothing of the row it is written over, but on there being one. */
  ghost predicate Judges<T(!new)>(write: Writer<T>, ok: (bool, Rec) -> bool) {
    forall row: Option<T>, rec :: write(row, rec).Some? <==> ok(row.None?, rec)
  }

  /** An item written under a name, as sent, that no row has. */
  predicate Adds(existing: set<string>, it: Item) {
    Writes(it) && it.rec.name.Some? && it.rec.name.value !in existing
  }

  predicate Refused(ok: (bool, Rec) -> bool, existing: set<string>, it: Item) {
    Writes(it) && (it.rec.name.None? || !ok(Adds(existing, it), it.rec))
  }

  /** Some planned write holds a value that does not convert or that the table refuses. */
  ghost predicate Raises(ok: (bool, Rec) -> bool, existing: set<string>, items: seq<Item>) {
    exists i :: 0 <= i < |items| && Refused(ok, existing, items[i])
  }

  /** Two planned writes add a row of the same name. */
  ghost predicate Collides(existing: set<string>, items: seq<Item>) {
    exists i, j :: 0 <= i < j < |items| && Adds(existing, items[i]) && Adds(existing, items[j])
                   && items[i].rec.name == items[j].rec.name
  }

  lemma AppliedOneMore<T>(write: Writer<T>, start: map<string, T>, items: seq<Item>, it: Item)
    ensures var o := Applied(write, start, items);
            Applied(write, start, items + [it]) == if o.None? then None else ApplyItem(write, start, o.value, it)
  {
  }

  function Planned(items: seq<Item>): Tally {
    Tally(CountOf(items, Create), CountOf(items, Update), CountOf(items, Skip) + CountOf(items, Conflict))
  }

  /** An item announced as an update for which there is no row of the name as sent, so that one is created. */
  predicate Slips(existing: set<string>, it: Item) {
    it.disposition == Update && it.rec.name.Some? && it.rec.name.value !in existing
  }

  /** An item announced as a creation for which there is a row of the name as sent, so that it is updated. */
  predicate Overtakes(existing: set<string>, it: Item) {
    it.disposition == Create && it.rec.name.Some? && it.rec.name.value in existing
  }

  function SlipsIn(existing: set<string>, items: seq<Item>): nat {
    if items == [] then 0
    else SlipsIn(existing, items[..|items| - 1]) + if Slips(existing, items[|items| - 1]) then 1 else 0
  }

  function OvertakesIn(existing: set<string>, items: seq<Item>): nat {
    if items == [] then 0
    else OvertakesIn(existing, items[..|items| - 1]) + if Overtakes(existing, items[|items| - 1]) then 1 else 0
  }

  /** The names, as sent, of the records that are written. */
  function WrittenNames(items: seq<Item>): set<string> {
    set it | it in items && Writes(it) && it.rec.name.Some? :: it.rec.name.value
  }

  /** The import fails exactly if an item is refused or two collide; else it writes the names as sent. */
  ghost predicate Follows<T>(write: Writer<T>, ok: (bool, Rec) -> bool, start: map<string, T>, items: seq<Item>) {
    var done, p := Applied(write, start, items), Planned(items);
    var s, o := SlipsIn(start.Keys, items), OvertakesIn(start.Keys, items);
    && (done.None? <==> Raises(ok, start.Keys, items) || Collides(start.Keys, items))
    && (done.Some? ==>
          && done.value.rows.Keys == start.Keys + WrittenNames(items)
          && done.value.tally.created == p.created + s - o
          && done.value.tally.updated == p.updated - s + o
          && done.value.tally.skipped == p.skipped)
  }

  lemma RaisesOneMore(ok: (bool, Rec) -> bool, existing: set<string>, items: seq<Item>, it: Item)
    ensures Raises(ok, existing, items + [it]) <==> Raises(ok, existing, items) || Refused(ok, existing, it)
  {
    var more := items + [it];
    assert more[|items|] == it && forall i | 0 <= i < |items| :: more[i] == items[i];
  }

  lemma CollidesOneMore(existing: set<string>, items: seq<Item>, it: Item)
    ensures Collides(existing, items + [it])
            <==> Collides(existing, items) || (Adds(existing, it) && it.rec.name.value in WrittenNames(items))
  {
    var more := items + [it];
    assert more[|items|] == it && forall i | 0 <= i < |items| :: more[i] == items[i];
    if Adds(existing, it) && it.rec.name.value in WrittenNames(items) {
      var x :| x in items && Writes(x) && x.rec.name == it.rec.name;
      var i :| 0 <= i < |items| && items[i] == x;
      assert Adds(existing, more[i]) && Adds(existing, more[|items|]);
    }
  }

  lemma CountsOneMore(existing: set<string>, items: seq<Item>, it: Item)
    ensures forall d :: CountOf(items + [it], d) == CountOf(items, d) + if it.disposition == d then 1 else 0
    ensures SlipsIn(existing, items + [it]) == SlipsIn(existing, items) + if Slips(existing, it) then 1 else 0
    ensures OvertakesIn(existing, items + [it])
            == OvertakesIn(existing, items) + if Overtakes(existing, it) then 1 else 0
  {
    assert (items + [it])[..|items|] == items;
  }

  lemma NamesOneMore(items: seq<Item>, it: Item)
    ensures WrittenNames(items + [it])
            == WrittenNames(items) + if Writes(it) && it.rec.name.Some? then {it.rec.name.value} else {}
  {
    forall n | n in WrittenNames(items) ensures n in WrittenNames(items + [it]) {
      var x :| x in items && Writes(x) && x.rec.name == Some(n);
      assert x in items + [it];
    }
    if Writes(it) && it.rec.name.Some? {
      assert it in items + [it];
    }
  }

  lemma FollowsOneMore<T(!new)>(write: Writer<T>, ok: (bool, Rec) -> bool,
                                start: map<string, T>, items: seq<Item>, it: Item)
    requires Judges(write, ok) && Follows(write, ok, start, items)
    ensures Follows(write, ok, start, items + [it])
  {
    AppliedOneMore(write, start, items, it);
    RaisesOneMore(ok, start.Keys, items, it);
    CollidesOneMore(start.Keys, items, it);
    CountsOneMore(start.Keys, items, it);
    NamesOneMore(items, it);
  }

  lemma {:induction false} ImportFollows<T(!new)>(
    write: Writer<T>, ok: (bool, Rec) -> bool, start: map<string, T>, items: seq<Item>)
    requires Judges(write, ok)
    ensures Follows(write, ok, start, items)
  {
    if items != [] {
      var n := |items| - 1;
      ImportFollows(write, ok, start, items[..n]);
      FollowsOneMore(write, ok, start, items[..n], items[n]);
      assert items == items[..n] + [items[n]];
    }
  }

  lemma {:induction false} CountedExactly(existing: set<string>, items: seq<Item>)
    ensures SlipsIn(existing, items) == 0 <==> forall i | 0 <= i < |items| :: !Slips(existing, items[i])
    ensures OvertakesIn(existing, items) == 0 <==> forall i | 0 <= i < |items| :: !Overtakes(existing, items[i])
  {
    if items != [] { CountedExactly(existing, items[..|items| - 1]); }
  }

  /**
   Whatever the plan, it fails exactly on a value that does not convert or that the table refuses,
   or on a name added twice. If it goes through, it creates and updates as many records as the
   dry run said exactly when as many items slip from update to creation as overtake the other
   way, names being compared as sent when written and trimmed when planned.
   */
  lemma PlanIsKeptExactly<T(!new)>(write: Writer<T>, ok: (bool, Rec) -> bool, start: map<string, T>, items: seq<Item>)
    requires Judges(write, ok)
    ensures var done := Applied(write, start, items);
            && (done.None? <==> Raises(ok, start.Keys, items) || Collides(start.Keys, items))
            && (done.Some? ==>
                  (done.value.tally == Planned(items)
                   <==> SlipsIn(start.Keys, items) == OvertakesIn(start.Keys, items)))
  {
    ImportFollows(write, ok, start, items);
  }

  /** Names that are the same as sent are the same trimmed, and the second of them is a conflict. */
  lemma NamedNeverCollide(existing: set<string>, recs: seq<Rec>)
    ensures !Collides(existing, PlanNamed(existing, recs))
  {
    var items := PlanNamed(existing, recs);
    forall i, j | 0 <= i < j < |items| && Adds(existing, items[i]) && Adds(existing, items[j])
      ensures items[i].rec.name != items[j].rec.name
    {
      assert recs[i] == recs[..j][i];
    }
  }

  /** A section planned by name never trips over a key: only a value can fail it. */
  lemma DryRunIsHonestExactly<T(!new)>(write: Writer<T>, ok: (bool, Rec) -> bool, start: map<string, T>, recs: seq<Rec>)
    requires Judges(write, ok)
    ensures var items := PlanNamed(start.Keys, recs);
            var done := Applied(write, start, items);
            && (done.None? <==> Raises(ok, start.Keys, items))
            && (done.Some? ==>
                  (done.value.tally == Planned(items)
                   <==> SlipsIn(start.Keys, items) == OvertakesIn(start.Keys, items)))
  {
    PlanIsKeptExactly(write, ok, start, PlanNamed(start.Keys, recs));
    NamedNeverCollide(start.Keys, recs);
  }

  /** An item announced as an update whose record carries a name that trimming changes. */
  predicate Misnamed(it: Item) {
    it.disposition == Update && it.rec.name.Some? && Trim(it.rec.name.value) != it.rec.name.value
  }

  /** Over rows stored under trimmed names: exactly when no record announced as an update carries an untrimmed name. */
  lemma DryRunOverTrimmedRows<T(!new)>(write: Writer<T>, ok: (bool, Rec) -> bool, start: map<string, T>, recs: seq<Rec>)
    requires Judges(write, ok) && (forall n | n in start :: Trim(n) == n)
    ensures var items := PlanNamed(start.Keys, recs);
            var done := Applied(write, start, items);
            && (done.None? <==> Raises(ok, start.Keys, items))
            && (done.Some? ==> (done.value.tally == Planned(items)
                                <==> forall i | 0 <= i < |items| :: !Misnamed(items[i])))
  {
    DryRunIsHonestExactly(write, ok, start, recs);
    OnlyMisnamedSlip(start.Keys, recs);
  }

  lemma OnlyMisnamedSlip(existing: set<string>, recs: seq<Rec>)
    requires forall n | n in existing :: Trim(n) == n
    ensures var items := PlanNamed(existing, recs);
            && OvertakesIn(existing, items) == 0
            && (SlipsIn(existing, items) == 0 <==> forall i | 0 <= i < |items| :: !Misnamed(items[i]))
  {
    var items := PlanNamed(existing, recs);
    CountedExactly(existing, items);
    forall i | 0 <= i < |items|
      ensures !Overtakes(existing, items[i]) && (Slips(existing, items[i]) <==> Misnamed(items[i]))
    {
      assert items[i] == PlanOne(existing, NamesOf(recs[..i]), recs[i]);
    }
  }

  /** When the names come trimmed, the dry run is kept to whatever the rows are called, and adds just the new names. */
  lemma DryRunIsHonest<T(!new)>(write: Writer<T>, ok: (bool, Rec) -> bool, start: map<string, T>, recs: seq<Rec>)
    requires Trimmed(recs) && Judges(write, ok)
    ensures var items := PlanNamed(start.Keys, recs);
            var done := Applied(write, start, items);
            && (done.None? <==> Raises(ok, start.Keys, items))
            && (done.Some? ==> done.value.tally == Planned(items) && done.value.rows.Keys == start.Keys + NamesOf(recs))
  {
    ImportFollows(write, ok, start, PlanNamed(start.Keys, recs));
    NamedNeverCollide(start.Keys, recs);
    TrimmedNeverSlip(start.Keys, recs);
    TrimmedAreWritten(start.Keys, recs);
  }

  lemma TrimmedNeverSlip(existing: set<string>, recs: seq<Rec>)
    requires Trimmed(recs)
    ensures SlipsIn(existing, PlanNamed(existing, recs)) == 0 && OvertakesIn(existing, PlanNamed(existing, recs)) == 0
  {
    var items := PlanNamed(existing, recs);
    CountedExactly(existing, items);
    forall i | 0 <= i < |items| ensures !Overtakes(existing, items[i]) && !Slips(existing, items[i]) {
      assert items[i] == PlanOne(existing, NamesOf(recs[..i]), recs[i]) && recs[i] in recs;
    }
  }

  lemma {:induction false} TrimmedAreWritten(existing: set<string>, recs: seq<Rec>)
    requires Trimmed(recs)
    ensures WrittenNames(PlanNamed(existing, recs)) == NamesOf(recs)
  {
    if recs != [] {
      var n := |recs| - 1;
      TrimmedAreWritten(existing, recs[..n]);
      PlanOfPrefix(existing, recs);
      NamesOfOneMore(recs);
      assert recs[n] in recs;
      NamesOneMore(PlanNamed(existing, recs[..n]), PlanOne(existing, NamesOf(recs[..n]), recs[n]));
    }
  }

  function Accepts(m: Schema): (bool, Rec) -> bool {
    (creating, rec) => Acceptable(m, creating, rec)
  }

  lemma RowWriterJudges(m: Schema, sites: Table, mint: string -> Id)
    ensures Judges(RowWriter(m, sites, mint), Accepts(m))
  {
  }

  function AcceptsSetting(): (bool, Rec) -> bool {
    (creating, rec) => AcceptableSetting(creating, rec)
  }

  /** Settings are planned without a look at the names before: one new name sent twice is two creations, and fails. */
  lemma SettingsDryRunIsHonestExactly(start: map<string, Json>, recs: seq<Rec>)
    ensures var items := PlanSettings(start.Keys, recs);
            var done := Applied(SettingWriter(), start, items);
            && (done.None? <==> Raises(AcceptsSetting(), start.Keys, items) || Collides(start.Keys, items))
            && (done.Some? ==>
                  (done.value.tally == Planned(items)
                   <==> SlipsIn(start.Keys, items) == OvertakesIn(start.Keys, items)))
  {
    PlanIsKeptExactly(SettingWriter(), AcceptsSetting(), start, PlanSettings(start.Keys, recs));
  }

  /** Planning trims, writing does not: a name with spaces around it is announced as an update and creates a row. */
  lemma UntrimmedNameDiverges<T>(write: Writer<T>, start: map<string, T>, rec: Rec)
    requires rec.name.Some? && write(None, rec).Some? && NameOf(rec) in start && NameOf(rec) != ""
    requires rec.name.value !in start
    ensures var items := PlanNamed(start.Keys, [rec]);
            && items == [Item(NameOf(rec), Update, rec)]
            && Applied(write, start, items)
               == Some(Outcome(start[rec.name.value := write(None, rec).value], Tally(1, 0, 0)))
  {
  }

  /** A new schedule without a kind is announced as a creation and fails on the column. */
  lemma KindlessScheduleFails(sites: Table, mint: string -> Id, start: Table, rec: Rec)
    requires NameOf(rec) != "" && NameOf(rec) !in start && Get(rec.fields, "kind") == Null
    ensures var items := PlanNamed(start.Keys, [rec]);
            Planned(items) == Tally(1, 0, 0) && Applied(RowWriter(SCHEDULES, sites, mint), start, items).None?
  {
    var items := PlanNamed(start.Keys, [rec]);
    assert items == [Item(NameOf(rec), Create, rec)];
    CountsOneMore(start.Keys, [], items[0]);
    assert [] + [items[0]] == items;
    assert "kind" in SCHEDULES.columns;
    assert forall creating :: Stored(SCHEDULES.columns["kind"], creating, rec.fields, "kind").None?;
    assert Refused(Accepts(SCHEDULES), start.Keys, items[0]);
    RowWriterJudges(SCHEDULES, sites, mint);
    DryRunIsHonestExactly(RowWriter(SCHEDULES, sites, mint), Accepts(SCHEDULES), start, [rec]);
  }

  /** A new setting sent twice is announced as two creations and fails on the key. */
  lemma RepeatedSettingFails(start: map<string, Json>, rec: Rec)
    requires NameOf(rec) != "" && rec.name == Some(NameOf(rec)) && NameOf(rec) !in start
    requires Get(rec.fields, "value") != SENTINEL && !("network." <= NameOf(rec))
    ensures var items := PlanSettings(start.Keys, [rec, rec]);
            Planned(items) == Tally(2, 0, 0) && Applied(SettingWriter(), start, items).None?
  {
    var it := Item(NameOf(rec), Create, rec);
    assert PlanSetting(start.Keys, rec) == [it];
    PlanSettingsOneMore(start.Keys, [], rec);
    PlanSettingsOneMore(start.Keys, [rec], rec);
    assert [] + [rec] == [rec] && [rec] + [rec] == [rec, rec] && [it] + [it] == [it, it];
    TwoCreations(start.Keys, it);
    SettingsDryRunIsHonestExactly(start, [rec, rec]);
  }

  lemma PlanSettingsOneMore(existing: set<string>, recs: seq<Rec>, rec: Rec)
    ensures PlanSettings(existing, recs + [rec]) == PlanSettings(existing, recs) + PlanSetting(existing, rec)
  {
    assert (recs + [rec])[..|recs|] == recs;
  }

  lemma TwoCreations(existing: set<string>, it: Item)
    requires it.disposition == Create && Adds(existing, it)
    ensures Planned([it, it]) == Tally(2, 0, 0) && Collides(existing, [it, it])
  {
    CountsOneMore(existing, [], it);
    CountsOneMore(existing, [it], it);
    assert [] + [it] == [it] && [it] + [it] == [it, it];
    assert Adds(existing, [it, it][0]) && Adds(existing, [it, it][1]);
  }
}
