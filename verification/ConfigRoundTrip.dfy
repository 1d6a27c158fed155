/** Importing a hub's own backup leaves it as it is; importing it elsewhere reproduces its sections. */
module ConfigRoundTrip {
  import opened Common
  import opened Mac
  import opened JsonValues
  import opened ConfigModel
  import opened ConfigBackup

  // ---------- one row ----------

  predicate TypedRow(m: Schema, row: Row) {
    && row.cols.Keys == m.columns.Keys
    && (forall k | k in m.columns :: Typed(m.columns[k], row.cols[k]))
    && (!m.configured ==> row.config == map[])
  }

  /** No column of the row is empty where the import would fill in something else. */
  predicate Survivor(m: Schema, row: Row)
    requires row.cols.Keys == m.columns.Keys
  {
    forall k | k in m.columns :: Survives(m.columns[k], row.cols[k])
  }

  lemma ExportedFields(m: Schema, red: Redaction, sites: Table, name: string, row: Row)
    requires Proper(m) && TypedRow(m, row)
    ensures var f := Exported(m, red, sites, name, row).fields;
            && (forall k | k in m.columns :: k in f && f[k] == Shown(m.columns[k], row.cols[k]))
            && (m.linked ==> Get(f, "site_name") == SiteName(sites, row.site))
            && (m.configured ==> Get(f, "config") == Obj(RedactedConfig(row.config, red.config)))
  {
  }

  lemma ColumnsRoundTrip(m: Schema, creating: bool, fields: Fields, row: Row)
    requires Proper(m) && TypedRow(m, row)
    requires forall k | k in m.columns :: k in fields && fields[k] == Shown(m.columns[k], row.cols[k])
    ensures StoredColumns(m, creating, fields).Some?
    ensures StoredColumns(m, creating, fields).value == row.cols <==> Survivor(m, row)
    ensures forall k | k in m.columns && Survives(m.columns[k], row.cols[k]) ::
              StoredColumns(m, creating, fields).value[k] == row.cols[k]
    ensures forall k | k in m.columns && !Survives(m.columns[k], row.cols[k]) ::
              StoredColumns(m, creating, fields).value[k] == m.columns[k].stored && row.cols[k] == m.columns[k].shown
  {
    forall k | k in m.columns
      ensures Stored(m.columns[k], creating, fields, k).Some?
      ensures Stored(m.columns[k], creating, fields, k) == Some(row.cols[k]) <==> Survives(m.columns[k], row.cols[k])
    {
      ColumnRoundTripsExactly(m.columns[k], creating, row.cols[k], fields, k);
    }
  }

  /** What a redacted config brings back never changes the config it was taken from. */
  lemma RedactedConfigIsHarmless(config: Fields, tokens: seq<string>, fields: Fields)
    requires Get(fields, "config") == Obj(RedactedConfig(config, tokens))
    ensures ConfigOf(fields).Some? && config + ConfigOf(fields).value == config
  {
  }

  /** Writing a row's own export over it changes nothing, exactly when every column survives. */
  lemma OwnRowExactly(m: Schema, red: Redaction, sites: Table, mint: string -> Id, name: string, row: Row)
    requires Proper(m) && TypedRow(m, row) && UniqueIds(sites) && (m.linked ==> LinkResolves(sites, row.site))
    ensures var rec := Exported(m, red, sites, name, row);
            Acceptable(m, false, rec) && (Written(m, sites, mint, Some(row), rec) == row <==> Survivor(m, row))
  {
    var rec := Exported(m, red, sites, name, row);
    ExportedFields(m, red, sites, name, row);
    ColumnsRoundTrip(m, false, rec.fields, row);
    SiteLinkRoundTripsIf(m, sites, row);
    if m.configured {
      RedactedConfigIsHarmless(row.config, red.config, rec.fields);
    }
    var again := Written(m, sites, mint, Some(row), rec);
    assert again.config == row.config && again.site == row.site && again.id == row.id && again.kept == row.kept;
  }

  lemma SiteLinkRoundTripsIf(m: Schema, sites: Table, row: Row)
    requires UniqueIds(sites) && (m.linked ==> LinkResolves(sites, row.site))
    ensures m.linked ==> SiteId(sites, SiteName(sites, row.site)) == row.site
  {
  }

  /** A row made from an export is exported the same, exactly when every column survives; secrets aside. */
  lemma ReimportedRowExactly(m: Schema, red: Redaction, from: Table, to: Table, mint: string -> Id, name: string,
                             row: Row)
    requires Proper(m) && TypedRow(m, row) && !m.configured && Fits(name, Some(m.name))
    requires m.linked ==> SiteName(to, SiteId(to, SiteName(from, row.site))) == SiteName(from, row.site)
    ensures var rec := Exported(m, red, from, name, row);
            && Acceptable(m, true, rec)
            && (Exported(m, red, to, name, Written(m, to, mint, None, rec)) == rec <==> Survivor(m, row))
  {
    var rec := Exported(m, red, from, name, row);
    ExportedFields(m, red, from, name, row);
    ColumnsRoundTrip(m, true, rec.fields, row);
    var made := Written(m, to, mint, None, rec);
    ReshownExactly(m, rec.fields, row, made.cols);
    if !Survivor(m, row) {
      var k :| k in m.columns && Shown(m.columns[k], made.cols[k]) != rec.fields[k];
      assert Exported(m, red, to, name, made).fields[k] == Shown(m.columns[k], made.cols[k]);
    }
  }

  /** What was stored from a row's export shows as the row did, exactly when every column survives. */
  lemma ReshownExactly(m: Schema, fields: Fields, row: Row, cols: Fields)
    requires Proper(m) && TypedRow(m, row) && Some(cols) == StoredColumns(m, true, fields)
    requires forall k | k in m.columns :: k in fields && fields[k] == Shown(m.columns[k], row.cols[k])
    ensures cols.Keys == m.columns.Keys
    ensures Survivor(m, row) <==> forall k | k in m.columns :: Shown(m.columns[k], cols[k]) == fields[k]
    ensures Survivor(m, row) ==> (map k | k in m.columns :: Shown(m.columns[k], Get(cols, k)))
                                 == (map k | k in m.columns :: Shown(m.columns[k], Get(row.cols, k)))
  {
    ColumnsRoundTrip(m, true, fields, row);
  }

  // ---------- one section ----------

  /** Every row exports a record under its own name, and the name comes back from a file as it is. */
  predicate Named(out: map<string, Rec>) {
    forall n | n in out :: out[n].name == Some(n) && n != "" && Trim(n) == n
  }

  /** What a table becomes when the records are written over it. */
  function Rewritten<T>(write: Writer<T>, start: map<string, T>, out: map<string, Rec>): map<string, Option<T>> {
    map n | n in start.Keys + out.Keys :: if n in out then write(RowIn(start, n), out[n]) else Some(start[n])
  }

  predicate Matches<T(==)>(rows: map<string, T>, want: map<string, Option<T>>) {
    rows.Keys == want.Keys && forall n | n in rows :: want[n] == Some(rows[n])
  }

  /** Applying the items goes through, skips none of them, and leaves the table rewritten by these records. */
  ghost predicate Lands<T>(write: Writer<T>, start: map<string, T>, out: map<string, Rec>, items: seq<Item>) {
    var done := Applied(write, start, items);
    && done.Some?
    && done.value.tally.skipped == 0
    && done.value.tally.created + done.value.tally.updated == |items|
    && Matches(done.value.rows, Rewritten(write, start, out))
  }

  /** Planning and applying one more record of a new name puts its row in place. */
  lemma NextIsPut<T>(write: Writer<T>, start: map<string, T>, seen: set<string>, name: string, rec: Rec, o: Outcome<T>)
    requires rec.name == Some(name) && name != "" && Trim(name) == name && write(RowIn(start, name), rec).Some?
    requires name !in seen && (name in start ==> name in o.rows && o.rows[name] == start[name])
    requires name in o.rows ==> name in start
    ensures ApplyItem(write, start, o, PlanOne(start.Keys, seen, rec))
            == Some(Outcome(o.rows[name := write(RowIn(start, name), rec).value],
                            if name in start then o.tally.(updated := o.tally.updated + 1)
                            else o.tally.(created := o.tally.created + 1)))
  {
  }

  lemma RewriteOneMore<T>(write: Writer<T>, start: map<string, T>, was: map<string, Rec>, name: string, rec: Rec,
                          o: Outcome<T>)
    requires Matches(o.rows, Rewritten(write, start, was)) && name !in was
    requires rec.name == Some(name) && name != "" && Trim(name) == name && write(RowIn(start, name), rec).Some?
    ensures var done := ApplyItem(write, start, o, PlanOne(start.Keys, was.Keys, rec));
            && done.Some?
            && done.value.tally == (if name in start then o.tally.(updated := o.tally.updated + 1)
                                    else o.tally.(created := o.tally.created + 1))
            && Matches(done.value.rows, Rewritten(write, start, was[name := rec]))
  {
    assert name in start ==> Rewritten(write, start, was)[name] == Some(start[name]);
    NextIsPut(write, start, was.Keys, name, rec, o);
  }

  lemma LandsOneMore<T>(write: Writer<T>, start: map<string, T>, was: map<string, Rec>, items: seq<Item>,
                        name: string, rec: Rec)
    requires Lands(write, start, was, items) && name !in was
    requires rec.name == Some(name) && name != "" && Trim(name) == name && write(RowIn(start, name), rec).Some?
    ensures Lands(write, start, was[name := rec], items + [PlanOne(start.Keys, was.Keys, rec)])
  {
    AppliedOneMore(write, start, items, PlanOne(start.Keys, was.Keys, rec));
    RewriteOneMore(write, start, was, name, rec, Applied(write, start, items).value);
  }

  /** The records of these names only. */
  function Only(out: map<string, Rec>, order: seq<string>): map<string, Rec> {
    map n | n in out && n in order :: out[n]
  }

  lemma OnlyOneMore(out: map<string, Rec>, order: seq<string>)
    requires order != [] && Listed(order, out) && Named(out)
    ensures var n := |order| - 1;
            && Listed(order[..n], out)
            && order[n] !in Only(out, order[..n])
            && Only(out, order) == Only(out, order[..n])[order[n] := out[order[n]]]
            && Section(out, order)[..n] == Section(out, order[..n])
  {
  }

  lemma {:induction false} SectionNames(out: map<string, Rec>, order: seq<string>)
    requires Listed(order, out) && Named(out)
    ensures NamesOf(Section(out, order)) == Only(out, order).Keys
  {
    if order != [] {
      var n := |order| - 1;
      OnlyOneMore(out, order);
      SectionNames(out, order[..n]);
      NamesOfOneMore(Section(out, order));
      assert order[n] in order;
    } else {
      assert Section(out, order) == [];
    }
  }

  lemma {:induction false} SectionLands<T>(write: Writer<T>, start: map<string, T>, out: map<string, Rec>,
                                           order: seq<string>)
    requires Listed(order, out) && Named(out) && (forall n | n in out :: write(RowIn(start, n), out[n]).Some?)
    ensures Lands(write, start, Only(out, order), PlanNamed(start.Keys, Section(out, order)))
  {
    if order == [] {
      NothingLands(write, start, out);
    } else {
      var n := |order| - 1;
      OnlyOneMore(out, order);
      SectionLands(write, start, out, order[..n]);
      SectionNames(out, order[..n]);
      PlanOfPrefix(start.Keys, Section(out, order));
      assert order[n] in order;
      LandsOneMore(write, start, Only(out, order[..n]), PlanNamed(start.Keys, Section(out, order[..n])), order[n],
                   out[order[n]]);
    }
  }

  lemma NothingLands<T>(write: Writer<T>, start: map<string, T>, out: map<string, Rec>)
    ensures Lands(write, start, Only(out, []), PlanNamed(start.Keys, []))
  {
  }

  /** A whole listed section: nothing is skipped, and each record lands on the row of its name. */
  lemma WholeSectionLands<T>(write: Writer<T>, start: map<string, T>, out: map<string, Rec>, order: seq<string>)
    requires Lists(order, out) && Named(out) && (forall n | n in out :: write(RowIn(start, n), out[n]).Some?)
    ensures Lands(write, start, out, PlanNamed(start.Keys, Section(out, order)))
  {
    SectionLands(write, start, out, order);
    assert Only(out, order) == out;
  }

  /** A table whose rows fit the section, under names that come back as they are. */
  ghost predicate TableOk(m: Schema, sites: Table, t: Table) {
    && (forall n | n in t :: n != "" && Trim(n) == n && Fits(n, Some(m.name)) && TypedRow(m, t[n]))
    && (m.linked ==> forall n | n in t :: LinkResolves(sites, t[n].site))
  }

  /** All columns of all rows survive. */
  ghost predicate AllSurvive(m: Schema, t: Table) {
    forall n | n in t :: t[n].cols.Keys == m.columns.Keys && Survivor(m, t[n])
  }

  /** What writing a section's own export over it comes to. */
  lemma OwnWrites(m: Schema, red: Redaction, sites: Table, mint: string -> Id, t: Table, n: string)
    requires Proper(m) && UniqueIds(sites) && TableOk(m, sites, t) && n in t
    ensures var w := RowWriter(m, sites, mint)(Some(t[n]), Exports(m, red, sites, t)[n]);
            w.Some? && (w == Some(t[n]) <==> Survivor(m, t[n]))
  {
    OwnRowExactly(m, red, sites, mint, n, t[n]);
  }

  lemma OwnRowsExactly<T>(write: Writer<T>, t: map<string, T>, out: map<string, Rec>, rows: map<string, T>)
    requires out.Keys == t.Keys && Matches(rows, Rewritten(write, t, out))
    ensures rows == t <==> forall n | n in t :: write(Some(t[n]), out[n]) == Some(t[n])
  {
  }

  /**
   A hub's own section, planned and applied: nothing is skipped, and every row with its secrets
   is as before, exactly when no column is empty that the import would fill in.
   */
  lemma OwnSectionExactly(m: Schema, red: Redaction, sites: Table, mint: string -> Id, t: Table, order: seq<string>)
    requires Proper(m) && UniqueIds(sites) && TableOk(m, sites, t) && Lists(order, Exports(m, red, sites, t))
    ensures var items := PlanNamed(t.Keys, Section(Exports(m, red, sites, t), order));
            && Lands(RowWriter(m, sites, mint), t, Exports(m, red, sites, t), items)
            && (Applied(RowWriter(m, sites, mint), t, items).value.rows == t <==> AllSurvive(m, t))
  {
    var out, write := Exports(m, red, sites, t), RowWriter(m, sites, mint);
    OwnWritesAll(m, red, sites, mint, t, out, write);
    OwnTableExactly(write, t, out, order);
  }

  lemma OwnWritesAll(m: Schema, red: Redaction, sites: Table, mint: string -> Id, t: Table, out: map<string, Rec>,
                     write: Writer<Row>)
    requires Proper(m) && UniqueIds(sites) && TableOk(m, sites, t)
    requires out == Exports(m, red, sites, t) && write == RowWriter(m, sites, mint)
    ensures Named(out) && out.Keys == t.Keys
    ensures forall n | n in t :: write(Some(t[n]), out[n]).Some?
    ensures AllSurvive(m, t) <==> forall n | n in t :: write(Some(t[n]), out[n]) == Some(t[n])
  {
    forall n | n in t
      ensures write(Some(t[n]), out[n]).Some? && (write(Some(t[n]), out[n]) == Some(t[n]) <==> Survivor(m, t[n]))
    {
      OwnWrites(m, red, sites, mint, t, n);
    }
  }

  lemma OwnTableExactly<T>(write: Writer<T>, t: map<string, T>, out: map<string, Rec>, order: seq<string>)
    requires Lists(order, out) && Named(out) && out.Keys == t.Keys
    requires forall n | n in t :: write(Some(t[n]), out[n]).Some?
    ensures var items := PlanNamed(t.Keys, Section(out, order));
            && Lands(write, t, out, items)
            && (Applied(write, t, items).value.rows == t
                <==> forall n | n in t :: write(Some(t[n]), out[n]) == Some(t[n]))
  {
    WholeSectionLands(write, t, out, order);
    OwnRowsExactly(write, t, out, Applied(write, t, PlanNamed(t.Keys, Section(out, order))).value.rows);
  }

  lemma NewTable<T>(write: Writer<T>, out: map<string, Rec>, order: seq<string>)
    requires Lists(order, out) && Named(out) && (forall n | n in out :: write(None, out[n]).Some?)
    ensures var items := PlanNamed({}, Section(out, order));
            var done := Applied(write, map[], items);
            && done.Some?
            && done.value.tally == Tally(|order|, 0, 0)
            && done.value.rows.Keys == out.Keys
            && forall n | n in out :: write(None, out[n]) == Some(done.value.rows[n])
  {
    var none: map<string, T> := map[];
    assert none.Keys == {};
    WholeSectionLands(write, none, out, order);
    NothingUpdated(write, PlanNamed({}, Section(out, order)));
    assert forall n | n in out :: Rewritten(write, none, out)[n] == write(None, out[n]);
  }

  lemma {:induction false} NothingUpdated<T>(write: Writer<T>, items: seq<Item>)
    ensures var done := Applied(write, map[], items); done.Some? ==> done.value.tally.updated == 0
  {
    if items != [] {
      NothingUpdated(write, items[..|items| - 1]);
    }
  }

  lemma NewWrites(m: Schema, red: Redaction, from: Table, to: Table, mint: string -> Id, t: Table, n: string)
    requires Proper(m) && !m.configured && TableOk(m, from, t) && n in t
    requires m.linked ==> SiteName(to, SiteId(to, SiteName(from, t[n].site))) == SiteName(from, t[n].site)
    ensures var w := RowWriter(m, to, mint)(None, Exports(m, red, from, t)[n]);
            w.Some? && (Exported(m, red, to, n, w.value) == Exports(m, red, from, t)[n] <==> Survivor(m, t[n]))
  {
    ReimportedRowExactly(m, red, from, to, mint, n, t[n]);
  }

  /** Importing a section into an empty table reproduces it, exactly when every column survives. */
  lemma EmptyImportExactly(m: Schema, red: Redaction, from: Table, to: Table, mint: string -> Id, t: Table,
                           order: seq<string>)
    requires Proper(m) && !m.configured && TableOk(m, from, t) && Lists(order, Exports(m, red, from, t))
    requires m.linked ==> forall n | n in t ::
                            SiteName(to, SiteId(to, SiteName(from, t[n].site))) == SiteName(from, t[n].site)
    ensures var out := Exports(m, red, from, t);
            var done := Applied(RowWriter(m, to, mint), map[], PlanNamed({}, Section(out, order)));
            && done.Some?
            && done.value.tally == Tally(|order|, 0, 0)
            && (Exports(m, red, to, done.value.rows) == out <==> AllSurvive(m, t))
  {
    var out, write := Exports(m, red, from, t), RowWriter(m, to, mint);
    NewWritesAll(m, red, from, to, mint, t, out, write);
    NewTable(write, out, order);
    NewRowsExactly(m, red, to, t, out, write, Applied(write, map[], PlanNamed({}, Section(out, order))).value.rows);
  }

  ghost predicate SurvivesAs(m: Schema, red: Redaction, to: Table, n: string, rec: Rec, row: Option<Row>, was: Row)
    requires was.cols.Keys == m.columns.Keys
  {
    row.Some? && (Exported(m, red, to, n, row.value) == rec <==> Survivor(m, was))
  }

  lemma NewWritesAll(m: Schema, red: Redaction, from: Table, to: Table, mint: string -> Id, t: Table,
                     out: map<string, Rec>, write: Writer<Row>)
    requires Proper(m) && !m.configured && TableOk(m, from, t)
    requires m.linked ==> forall n | n in t ::
                            SiteName(to, SiteId(to, SiteName(from, t[n].site))) == SiteName(from, t[n].site)
    requires out == Exports(m, red, from, t) && write == RowWriter(m, to, mint)
    ensures Named(out) && out.Keys == t.Keys && forall n | n in t :: t[n].cols.Keys == m.columns.Keys
    ensures forall n | n in t :: SurvivesAs(m, red, to, n, out[n], write(None, out[n]), t[n])
  {
    forall n | n in t ensures SurvivesAs(m, red, to, n, out[n], write(None, out[n]), t[n]) {
      NewWrites(m, red, from, to, mint, t, n);
    }
  }

  lemma NewRowsExactly(m: Schema, red: Redaction, to: Table, t: Table, out: map<string, Rec>, write: Writer<Row>,
                       rows: Table)
    requires out.Keys == t.Keys == rows.Keys && forall n | n in t :: t[n].cols.Keys == m.columns.Keys
    requires forall n | n in t :: SurvivesAs(m, red, to, n, out[n], write(None, out[n]), t[n])
    requires forall n | n in out :: write(None, out[n]) == Some(rows[n])
    ensures Exports(m, red, to, rows) == out <==> AllSurvive(m, t)
  {
  }
}
