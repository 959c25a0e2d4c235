/** The `/stats` endpoint: totals per table and the active customers and sites. */
module Stats {
  import opened Entities
  import opened Json
  import opened Tables

  datatype Statistics = Statistics(
    korisnici: nat, lokacije: nat, veze: nat, oprema: nat,
    aktivniKorisnici: nat, aktivneLokacije: nat)

  /** Whether a row's status column holds exactly `status`. */
  predicate HasStatus(row: Row, status: string)
    ensures HasStatus(row, status) <==> "status" in row.fields && row.fields["status"] == Str(status)
  {
    Lookup(row.fields, "status") == Str(status)
  }

  /** `query(...).filter(status == s).count()`. */
  function CountStatus(rows: seq<Row>, status: string): (n: nat)
    ensures n <= |rows|
    ensures n == |rows| <==> forall i :: 0 <= i < |rows| ==> HasStatus(rows[i], status)
    ensures n == 0 <==> forall i :: 0 <= i < |rows| ==> !HasStatus(rows[i], status)
  {
    if rows == [] then 0
    else
      assert forall i :: 1 <= i < |rows| ==> rows[1..][i - 1] == rows[i];
      (if HasStatus(rows[0], status) then 1 else 0) + CountStatus(rows[1..], status)
  }

  /** A row added at the end raises the count by one exactly when it has the status. */
  lemma {:induction false} CountStatusAppend(rows: seq<Row>, row: Row, status: string)
    ensures CountStatus(rows + [row], status) == CountStatus(rows, status) + if HasStatus(row, status) then 1 else 0
  {
    if rows != [] {
      assert (rows + [row])[1..] == rows[1..] + [row];
      CountStatusAppend(rows[1..], row, status);
    }
  }

  /** Removing a row lowers the count by one exactly when it had the status. */
  lemma {:induction false} CountStatusWithout(rows: seq<Row>, k: nat, status: string)
    requires k < |rows|
    ensures CountStatus(rows, status) == CountStatus(Without(rows, k), status) + if HasStatus(rows[k], status) then 1 else 0
  {
    if k > 0 {
      assert Without(rows, k)[1..] == Without(rows[1..], k - 1);
      CountStatusWithout(rows[1..], k - 1, status);
    } else {
      assert Without(rows, k) == rows[1..];
    }
  }

  /** `GET /stats` over the four tables. */
  function GetStatistics(k: Table, l: Table, v: Table, o: Table): (s: Statistics)
    requires k.entity == Korisnici && l.entity == Lokacije && v.entity == Veze && o.entity == Oprema
    reads k, l, v, o
    ensures s.korisnici == |k.rows| && s.lokacije == |l.rows| && s.veze == |v.rows| && s.oprema == |o.rows|
    ensures s.aktivniKorisnici == CountStatus(k.rows, "aktivan") && s.aktivneLokacije == CountStatus(l.rows, "aktivna")
    ensures s.aktivniKorisnici <= s.korisnici && s.aktivneLokacije <= s.lokacije
    ensures s.aktivniKorisnici == s.korisnici <==> forall i :: 0 <= i < |k.rows| ==> HasStatus(k.rows[i], "aktivan")
    ensures s.aktivneLokacije == s.lokacije <==> forall i :: 0 <= i < |l.rows| ==> HasStatus(l.rows[i], "aktivna")
  {
    Statistics(|k.rows|, |l.rows|, |v.rows|, |o.rows|,
      CountStatus(k.rows, "aktivan"), CountStatus(l.rows, "aktivna"))
  }
}
