/**
 * The browser's per-entity form knowledge: the seed of a new record
 * (`getEmptyItem`), the choices of the kind and status selects, and the
 * status the tables show with a success-coloured chip.
 */
module Drafts {
  import opened Wrappers
  import opened Json
  import opened Entities
  import opened Schema

  /** The field that holds a record's kind. */
  function KindField(e: Entity): string
  {
    if e == Korisnici then "tip_korisnika" else "tip"
  }

  /** The choices of the kind select, in menu order. */
  function KindOptions(e: Entity): (r: seq<string>)
    ensures |r| >= 2
    ensures forall i, j :: 0 <= i < j < |r| ==> r[i] != r[j]
  {
    match e
    case Korisnici => ["fizicki", "pravni"]
    case Lokacije => ["korisnik", "servisna", "pomocna"]
    case Veze => ["optika", "bakar", "wireless", "P2P", "P2MP"]
    case Oprema => ["switch", "router", "ONT", "antena"]
  }

  /** The choices of the status select, in menu order. */
  function StatusOptions(e: Entity): (r: seq<string>)
    ensures |r| >= 2
    ensures forall i, j :: 0 <= i < j < |r| ==> r[i] != r[j]
  {
    match e
    case Korisnici => ["aktivan", "neaktivan"]
    case Lokacije => ["planirana", "aktivna", "neaktivna"]
    case Veze => ["aktivan", "planiran", "u_kvaru"]
    case Oprema => ["u_upotrebi", "rezerva", "otpisana"]
  }

  /** The status a table row shows with a success-coloured chip. */
  function ActiveStatus(e: Entity): (s: string)
    ensures s in StatusOptions(e)
  {
    match e
    case Korisnici => "aktivan"
    case Lokacije => "aktivna"
    case Veze => "aktivan"
    case Oprema => "u_upotrebi"
  }

  /** `item.status === ...`: whether a row's chip is coloured as active. */
  predicate ChipActive(e: Entity, status: Value)
    ensures ChipActive(e, status) ==> status.Str? && status.s in StatusOptions(e)
  {
    status == Str(ActiveStatus(e))
  }

  /**
   * The seed of a new record: exactly the schema's fields, the first kind,
   * the active status, empty text, and null for every number, date and
   * reference.
   */
  function Seed(e: Entity): (r: Record)
    ensures KindField(e) in r && r[KindField(e)] == Str(KindOptions(e)[0])
    ensures "status" in r && ChipActive(e, r["status"])
    ensures forall f :: f in References(e) ==> f in r && r[f] == Null
  {
    match e
    case Korisnici =>
      map["oib" := Str(""), "naziv" := Str(""), "adresa" := Str(""), "tip_korisnika" := Str("fizicki"),
          "paket_usluga" := Str(""), "status" := Str("aktivan"), "kontakt_admin" := Str(""),
          "kontakt_tehnika" := Str("")]
    case Lokacije =>
      map["naziv" := Str(""), "tip" := Str("korisnik"), "adresa" := Str(""), "latitude" := Null,
          "longitude" := Null, "status" := Str("aktivna"), "korisnik_id" := Null]
    case Veze =>
      map["lokacija_a_id" := Null, "lokacija_b_id" := Null, "tip" := Str("optika"),
          "kapacitet_vlakana" := Null, "kapacitet_parica" := Null, "brzina_mbps" := Null,
          "status" := Str("aktivan"), "redundantna_veza_id" := Null]
    case Oprema =>
      map["lokacija_id" := Null, "tip" := Str("switch"), "proizvodjac" := Str(""), "model" := Str(""),
          "serijski_broj" := Str(""), "inventurni_broj" := Str(""), "status" := Str("u_upotrebi"),
          "datum_instalacije" := Null]
  }

  /** A seed carries exactly the fields of the entity's schema: nothing missing, nothing extra. */
  lemma SeedKeys(e: Entity)
    ensures Seed(e).Keys == Names(Fields(e))
  {
    match e
    case Korisnici => CustomerSeedKeys();
    case Lokacije => SiteSeedKeys();
    case Veze => LinkSeedKeys();
    case Oprema => DeviceSeedKeys();
  }

  lemma CustomerSeedKeys()
    ensures Seed(Korisnici).Keys == Names(Fields(Korisnici))
  {
    var fs := Fields(Korisnici);
    assert fs[0].name == "oib" && fs[1].name == "naziv" && fs[2].name == "adresa" && fs[3].name == "tip_korisnika";
    assert fs[4].name == "paket_usluga" && fs[5].name == "status" && fs[6].name == "kontakt_admin";
    assert fs[7].name == "kontakt_tehnika";
    assert Names(fs) == {"oib", "naziv", "adresa", "tip_korisnika", "paket_usluga", "status", "kontakt_admin", "kontakt_tehnika"};
  }

  lemma SiteSeedKeys()
    ensures Seed(Lokacije).Keys == Names(Fields(Lokacije))
  {
    var fs := Fields(Lokacije);
    assert fs[0].name == "naziv" && fs[1].name == "tip" && fs[2].name == "adresa" && fs[3].name == "latitude";
    assert fs[4].name == "longitude" && fs[5].name == "status" && fs[6].name == "korisnik_id";
    assert Names(fs) == {"naziv", "tip", "adresa", "latitude", "longitude", "status", "korisnik_id"};
  }

  lemma LinkSeedKeys()
    ensures Seed(Veze).Keys == Names(Fields(Veze))
  {
    var fs := Fields(Veze);
    assert fs[0].name == "lokacija_a_id" && fs[1].name == "lokacija_b_id" && fs[2].name == "tip";
    assert fs[3].name == "kapacitet_vlakana" && fs[4].name == "kapacitet_parica" && fs[5].name == "brzina_mbps";
    assert fs[6].name == "status" && fs[7].name == "redundantna_veza_id";
    assert Names(fs) == {"lokacija_a_id", "lokacija_b_id", "tip", "kapacitet_vlakana", "kapacitet_parica",
      "brzina_mbps", "status", "redundantna_veza_id"};
  }

  lemma DeviceSeedKeys()
    ensures Seed(Oprema).Keys == Names(Fields(Oprema))
  {
    var fs := Fields(Oprema);
    assert fs[0].name == "lokacija_id" && fs[1].name == "tip" && fs[2].name == "proizvodjac" && fs[3].name == "model";
    assert fs[4].name == "serijski_broj" && fs[5].name == "inventurni_broj" && fs[6].name == "status";
    assert fs[7].name == "datum_instalacije";
    assert Names(fs) == {"lokacija_id", "tip", "proizvodjac", "model", "serijski_broj", "inventurni_broj",
      "status", "datum_instalacije"};
  }

  /** `getEmptyItem(entity)`: the seed of a known collection name, `{}` for any other. */
  function GetEmptyItem(entity: string): (r: Record)
    ensures Parse(entity).None? ==> r == map[]
    ensures forall e: Entity :: Name(e) == entity ==> r == Seed(e)
  {
    match Parse(entity)
    case None => map[]
    case Some(e) => Seed(e)
  }
}
