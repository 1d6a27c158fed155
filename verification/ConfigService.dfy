/** Planning and applying one section over its table, record by record. */
module ConfigService {
  import opened Common
  import opened ConfigModel
  import opened JsonValues
  import opened ConfigBackup

  /** Replace the secret keys of a config blob by the sentinel. */
  method RedactExtConfig(config: Fields, tokens: seq<string>) returns (out: Fields)
    ensures out == RedactedConfig(config, tokens)
  {
    out := config;
    var keys := config.Keys;
    while keys != {}
      invariant keys <= config.Keys && out.Keys == config.Keys
      invariant forall k | k in config :: out[k] == if k !in keys && Secret(k, tokens) then SENTINEL else config[k]
    {
      var k :| k in keys;
      if Secret(k, tokens) {
        out := out[k := SENTINEL];
      }
      keys := keys - {k};
    }
  }

  class SectionTable {
    var rows: Table
    const schema: Schema

    constructor (schema: Schema)
      ensures rows == map[] && this.schema == schema
    {
      this.schema, rows := schema, map[];
    }

    /** The dry run: sort each record by what its name is found to be; writes nothing. */
    method Plan(recs: seq<Rec>) returns (items: seq<Item>)
      ensures items == PlanNamed(rows.Keys, recs)
    {
      items := [];
      var seen := {};
      for i := 0 to |recs|
        invariant items == PlanNamed(rows.Keys, recs[..i])
        invariant seen == NamesOf(recs[..i])
      {
        PlanOfPrefix(rows.Keys, recs[..i + 1]);
        NamesOfOneMore(recs[..i + 1]);
        assert recs[..i + 1][..i] == recs[..i];
        var name := NameOf(recs[i]);
        if name == "" {
          items := items + [Item("(unnamed)", Skip, recs[i])];
        } else if name in seen {
          items := items + [Item(name, Conflict, recs[i])];
        } else {
          seen := seen + {name};
          items := items + [Item(name, if name in rows then Update else Create, recs[i])];
        }
      }
      assert recs[..|recs|] == recs;
    }

    /** Write the creates and updates, count the rest; a failure rolls everything back. */
    method Apply(items: seq<Item>, sites: Table, mint: string -> Id) returns (tally: Option<Tally>)
      modifies this
      ensures var done := Applied(RowWriter(schema, sites, mint), old(rows), items);
              && (tally.Some? <==> done.Some?)
              && (done.Some? ==> rows == done.value.rows && tally == Some(done.value.tally))
              && (done.None? ==> rows == old(rows))
    {
      var existing := rows;
      ghost var write := RowWriter(schema, sites, mint);
      var created, updated, skipped := 0, 0, 0;
      for i := 0 to |items|
        invariant existing.Keys <= rows.Keys
        invariant Applied(write, existing, items[..i]) == Some(Outcome(rows, Tally(created, updated, skipped)))
      {
        assert items[..i + 1] == items[..i] + [items[i]];
        AppliedOneMore(write, existing, items[..i], items[i]);
        var it := items[i];
        if !Writes(it) {
          skipped := skipped + 1;
        } else if it.rec.name.None? || !Acceptable(schema, it.rec.name.value !in existing, it.rec)
                  || (it.rec.name.value !in existing && it.rec.name.value in rows) {
          AppliedStaysNone(write, existing, items, i + 1);
          rows := existing;
          return None;
        } else if it.rec.name.value in existing {
          rows := rows[it.rec.name.value := Written(schema, sites, mint, RowIn(rows, it.rec.name.value), it.rec)];
          updated := updated + 1;
        } else {
          rows := rows[it.rec.name.value := Written(schema, sites, mint, None, it.rec)];
          created := created + 1;
        }
      }
      assert items[..|items|] == items;
      return Some(Tally(created, updated, skipped));
    }
  }

  lemma {:induction false} AppliedStaysNone<T>(write: Writer<T>, start: map<string, T>, items: seq<Item>, k: nat)
    requires k <= |items| && Applied(write, start, items[..k]).None?
    ensures Applied(write, start, items).None?
  {
    if k == |items| {
      assert items[..k] == items;
    } else {
      assert items[..|items| - 1][..k] == items[..k];
      AppliedStaysNone(write, start, items[..|items| - 1], k);
    }
  }
}
