/**
 * Facts that hold between the console and the server: what the server makes
 * of the drafts the console sends, and what the console shows of the rows
 * the server returns.
 */
module Crosscheck {
  import opened Wrappers
  import opened Json
  import opened Entities
  import opened Schema
  import opened Tables
  import opened Stats
  import opened Drafts

  /**
   * An untouched new link is refused with 422 naming both end points: the
   * seed leaves them null but the schema requires them.
   */
  lemma UneditedLinkRejected()
    ensures var r := Validate(Veze, Obj(Seed(Veze)));
      && r.Err? && r.error.BadFields?
      && "lokacija_a_id" in r.error.names && "lokacija_b_id" in r.error.names
  {
    var fs := Fields(Veze);
    assert fs[0] == Field("lokacija_a_id", Integer, true) && fs[1] == Field("lokacija_b_id", Integer, true);
    assert !FieldOk(fs[0], Lookup(Seed(Veze), fs[0].name));
    assert !FieldOk(fs[1], Lookup(Seed(Veze), fs[1].name));
  }

  /** An untouched new device is refused with 422 naming its site. */
  lemma UneditedDeviceRejected()
    ensures var r := Validate(Oprema, Obj(Seed(Oprema)));
      && r.Err? && r.error.BadFields? && "lokacija_id" in r.error.names
  {
    var fs := Fields(Oprema);
    assert fs[0] == Field("lokacija_id", Integer, true);
    assert !FieldOk(fs[0], Lookup(Seed(Oprema), fs[0].name));
  }

  /**
   * A second untouched customer collides with a stored one whose `oib` is still
   * the seed's empty text, so its insert is refused on the unique column
   * (500) rather than stored.
   */
  lemma SecondUneditedCustomerCollides(rows: seq<Row>, k: nat)
    requires k < |rows| && Lookup(rows[k].fields, "oib") == Str("")
    ensures Collides(Korisnici, rows, Seed(Korisnici), None)
  {
    assert UniqueValue(Korisnici, rows[k].fields) == UniqueValue(Korisnici, Seed(Korisnici));
  }

  /**
   * Editing round trip: the dialog is filled with a row as the server rendered
   * it (with its `id`); saving it unchanged validates back to the stored
   * fields, and the PUT goes to that row's id.
   */
  lemma {:induction false} UnchangedEditRoundTrip(e: Entity, row: Row)
    requires Conforms(e, row.fields)
    ensures Render(row).Obj? && Get(Render(row).fields, "id") == Some(Int(row.id))
    ensures Validate(e, Render(row)) == Ok(row.fields)
  {
    assert "id" !in Names(Fields(e));
    ValidateIgnoresExtra(e, row.fields, "id", Int(row.id));
    ValidateConforming(e, row.fields);
  }

  /**
   * Saving an unchanged edit leaves the table as it was: the row is replaced
   * by a row with the same id and the same fields.
   */
  lemma UnchangedEditKeepsRows(e: Entity, rows: seq<Row>, k: nat)
    requires k < |rows| && Conforms(e, rows[k].fields)
    ensures Validate(e, Render(rows[k])) == Ok(rows[k].fields)
    ensures rows[k := Row(rows[k].id, Validate(e, Render(rows[k])).value)] == rows
  {
    UnchangedEditRoundTrip(e, rows[k]);
  }

  /**
   * The console asks for a collection without paging parameters, so it sees
   * the server's default page: the first hundred rows in id order, and never
   * a row past them.
   */
  lemma ConsoleSeesFirstHundred(t: Table)
    requires t.Valid() && |t.rows| > DefaultLimit
    ensures |t.List(DefaultSkip, DefaultLimit).body.items| == DefaultLimit
    ensures forall i :: 0 <= i < DefaultLimit ==> t.List(DefaultSkip, DefaultLimit).body.items[i] == Render(t.rows[i])
  {
    DefaultPageTruncates(t.rows);
  }

  /**
   * The chip colours of customers and sites agree with `/stats`: a row counts
   * as active there exactly when its chip is coloured as active.
   */
  lemma ChipAgreesWithStats(row: Row)
    ensures ChipActive(Korisnici, Lookup(row.fields, "status")) <==> HasStatus(row, "aktivan")
    ensures ChipActive(Lokacije, Lookup(row.fields, "status")) <==> HasStatus(row, "aktivna")
  {
  }

  /** Storing an untouched new customer raises the active-customer count by one. */
  lemma {:induction false} UneditedCustomerCountsActive(rows: seq<Row>, id: int)
    ensures CountStatus(rows + [Row(id, Seed(Korisnici))], "aktivan") == CountStatus(rows, "aktivan") + 1
  {
    CountStatusAppend(rows, Row(id, Seed(Korisnici)), "aktivan");
  }
}
