/**
 * The request schemas of the server (the Pydantic `*Base` models) and the
 * validation a request body goes through before any handler runs.
 */
module Schema {
  import opened Wrappers
  import opened Json
  import opened Entities

  /** The declared Python type of a schema field. */
  datatype Kind = Text | Integer | Real | Timestamp

  /** A field of a request schema: `name: kind` when required, `name: Optional[kind] = None` otherwise. */
  datatype Field = Field(name: string, kind: Kind, required: bool)

  /** Why a body was rejected with status 422: not an object, or these fields (in schema order). */
  datatype Invalid = NotAnObject | BadFields(names: seq<string>)

  function Names(fs: seq<Field>): set<string>
  {
    set i | 0 <= i < |fs| :: fs[i].name
  }

  /** The fields of the create/update schema of each entity, in declaration order. */
  function Fields(e: Entity): (fs: seq<Field>)
    ensures "id" !in Names(fs)
  {
    match e
    case Korisnici => [
      Field("oib", Text, true), Field("naziv", Text, true), Field("adresa", Text, true),
      Field("tip_korisnika", Text, true), Field("paket_usluga", Text, true), Field("status", Text, true),
      Field("kontakt_admin", Text, false), Field("kontakt_tehnika", Text, false)]
    case Lokacije => [
      Field("naziv", Text, true), Field("tip", Text, true), Field("adresa", Text, true),
      Field("latitude", Real, false), Field("longitude", Real, false), Field("status", Text, true),
      Field("korisnik_id", Integer, false)]
    case Veze => [
      Field("lokacija_a_id", Integer, true), Field("lokacija_b_id", Integer, true), Field("tip", Text, true),
      Field("kapacitet_vlakana", Integer, false), Field("kapacitet_parica", Integer, false),
      Field("brzina_mbps", Integer, false), Field("status", Text, true),
      Field("redundantna_veza_id", Integer, false)]
    case Oprema => [
      Field("lokacija_id", Integer, true), Field("tip", Text, true), Field("proizvodjac", Text, true),
      Field("model", Text, true), Field("serijski_broj", Text, true), Field("inventurni_broj", Text, true),
      Field("status", Text, true), Field("datum_instalacije", Timestamp, false)]
  }

  /** Whether the schema of `e` declares a field `name` of the given kind. */
  predicate Declares(e: Entity, name: string, kind: Kind, required: bool)
  {
    exists i :: 0 <= i < |Fields(e)| && Fields(e)[i] == Field(name, kind, required)
  }

  /**
   * The foreign-key columns of each table and the table they point into:
   * site -> customer, link -> two sites and a redundant link, equipment -> site.
   */
  function References(e: Entity): (refs: map<string, Entity>)
    ensures forall f :: f in refs ==> Declares(e, f, Integer, f != "korisnik_id" && f != "redundantna_veza_id")
  {
    match e
    case Korisnici => map[]
    case Lokacije =>
      assert Fields(e)[6] == Field("korisnik_id", Integer, false);
      map["korisnik_id" := Korisnici]
    case Veze =>
      assert Fields(e)[0] == Field("lokacija_a_id", Integer, true);
      assert Fields(e)[1] == Field("lokacija_b_id", Integer, true);
      assert Fields(e)[7] == Field("redundantna_veza_id", Integer, false);
      map["lokacija_a_id" := Lokacije, "lokacija_b_id" := Lokacije, "redundantna_veza_id" := Veze]
    case Oprema =>
      assert Fields(e)[0] == Field("lokacija_id", Integer, true);
      map["lokacija_id" := Lokacije]
  }

  /** The column declared `unique=True`, if the table has one. */
  function UniqueField(e: Entity): (f: Option<string>)
    ensures f.Some? <==> e == Korisnici || e == Oprema
    ensures f.Some? ==> Declares(e, f.value, Text, true)
  {
    match e
    case Korisnici =>
      assert Fields(e)[0] == Field("oib", Text, true);
      Some("oib")
    case Oprema =>
      assert Fields(e)[4] == Field("serijski_broj", Text, true);
      Some("serijski_broj")
    case _ => None
  }

  /** The JSON values a non-null field of each kind accepts. */
  predicate Accepts(k: Kind, v: Value)
  {
    match k
    case Text => v.Str?
    case Integer => v.Int?
    case Real => v.Int? || v.Float?
    case Timestamp => v.Str? || v.Int? || v.Float?
  }

  /** Null (or absence) is accepted exactly by the optional fields. */
  predicate FieldOk(f: Field, v: Value)
  {
    if v == Null then !f.required else Accepts(f.kind, v)
  }

  /**
   * Checks the fields `fs` of a body object: every field's value (null when
   * absent) is collected, and every field that fails is reported, in order.
   */
  function Check(fs: seq<Field>, body: Record): (r: Result<Record, seq<string>>)
    ensures r.Ok? <==> forall i :: 0 <= i < |fs| ==> FieldOk(fs[i], Lookup(body, fs[i].name))
  {
    if fs == [] then Ok(map[])
    else
      var v := Lookup(body, fs[0].name);
      match Check(fs[1..], body)
      case Ok(m) => if FieldOk(fs[0], v) then Ok(m[fs[0].name := v]) else Err([fs[0].name])
      case Err(names) => if FieldOk(fs[0], v) then Err(names) else Err([fs[0].name] + names)
  }

  /** An accepted body yields exactly the checked fields, each with the body's value. */
  lemma {:induction false} CheckCollects(fs: seq<Field>, body: Record)
    requires Check(fs, body).Ok?
    ensures Check(fs, body).value.Keys == Names(fs)
    ensures forall i :: 0 <= i < |fs| ==> Check(fs, body).value[fs[i].name] == Lookup(body, fs[i].name)
  {
    if fs != [] {
      var tail := fs[1..];
      CheckCollects(tail, body);
      assert Names(fs) == {fs[0].name} + Names(tail) by {
        forall n | n in Names(fs) ensures n in {fs[0].name} + Names(tail) {
          var i :| 0 <= i < |fs| && fs[i].name == n;
          if i > 0 { assert tail[i - 1].name == n; }
        }
        forall n | n in Names(tail) ensures n in Names(fs) {
          var i :| 0 <= i < |tail| && tail[i].name == n;
          assert fs[i + 1].name == n;
        }
      }
      var m := Check(fs, body).value;
      forall i | 0 <= i < |fs| ensures m[fs[i].name] == Lookup(body, fs[i].name) {
        if i > 0 {
          assert fs[i] == tail[i - 1];
        }
      }
    }
  }

  /** A rejected body names exactly the fields that fail, and nothing else. */
  lemma {:induction false} CheckReports(fs: seq<Field>, body: Record)
    requires Check(fs, body).Err?
    ensures forall n :: n in Check(fs, body).error <==>
      exists i :: 0 <= i < |fs| && fs[i].name == n && !FieldOk(fs[i], Lookup(body, fs[i].name))
  {
    var tail := fs[1..];
    var errs := Check(fs, body).error;
    if Check(tail, body).Err? {
      CheckReports(tail, body);
    }
    forall n ensures n in errs <==> exists i :: 0 <= i < |fs| && fs[i].name == n && !FieldOk(fs[i], Lookup(body, fs[i].name)) {
      if n in errs && n != fs[0].name {
        var k :| 0 <= k < |tail| && tail[k].name == n && !FieldOk(tail[k], Lookup(body, tail[k].name));
        assert fs[k + 1] == tail[k];
      }
      if n !in errs {
        forall i | 0 <= i < |fs| && fs[i].name == n ensures FieldOk(fs[i], Lookup(body, fs[i].name)) {
          if i > 0 { assert fs[i] == tail[i - 1]; }
        }
      }
    }
  }

  /** A stored record: exactly the schema's fields, each with a value its field accepts. */
  predicate Conforms(e: Entity, r: Record)
  {
    && r.Keys == Names(Fields(e))
    && forall i :: 0 <= i < |Fields(e)| ==> FieldOk(Fields(e)[i], r[Fields(e)[i].name])
  }

  /**
   * Validation of a request body against the schema of `e`: keys outside the
   * schema are dropped, absent optional fields become null.
   */
  function Validate(e: Entity, body: Value): (r: Result<Record, Invalid>)
    ensures r.Ok? <==> body.Obj? && forall i :: 0 <= i < |Fields(e)| ==> FieldOk(Fields(e)[i], Lookup(body.fields, Fields(e)[i].name))
    ensures r.Ok? ==> Conforms(e, r.value)
    ensures r.Ok? ==> forall i :: 0 <= i < |Fields(e)| ==> r.value[Fields(e)[i].name] == Lookup(body.fields, Fields(e)[i].name)
    ensures !body.Obj? ==> r == Err(NotAnObject)
    ensures body.Obj? && r.Err? ==> r.error.BadFields? && forall n :: n in r.error.names <==>
      exists i :: 0 <= i < |Fields(e)| && Fields(e)[i].name == n && !FieldOk(Fields(e)[i], Lookup(body.fields, Fields(e)[i].name))
  {
    if !body.Obj? then Err(NotAnObject)
    else
      match Check(Fields(e), body.fields)
      case Ok(m) => CheckCollects(Fields(e), body.fields); Ok(m)
      case Err(names) => CheckReports(Fields(e), body.fields); Err(BadFields(names))
  }

  /** A conforming record passes validation unchanged. */
  lemma {:induction false} ValidateConforming(e: Entity, r: Record)
    requires Conforms(e, r)
    ensures Validate(e, Obj(r)) == Ok(r)
  {
    var fs := Fields(e);
    var v := Validate(e, Obj(r));
    assert v.Ok?;
    assert v.value.Keys == r.Keys;
    forall k | k in r
      ensures v.value[k] == r[k]
    {
      var i :| 0 <= i < |fs| && fs[i].name == k;
    }
    assert v.value == r;
  }

  /** Checking reads a body only through the checked fields. */
  lemma {:induction false} CheckAgrees(fs: seq<Field>, a: Record, b: Record)
    requires forall i :: 0 <= i < |fs| ==> Lookup(a, fs[i].name) == Lookup(b, fs[i].name)
    ensures Check(fs, a) == Check(fs, b)
  {
    if fs != [] {
      assert forall i :: 0 <= i < |fs| - 1 ==> fs[1..][i] == fs[i + 1];
      CheckAgrees(fs[1..], a, b);
    }
  }

  /** Keys outside the schema (such as `id`) do not affect validation. */
  lemma ValidateIgnoresExtra(e: Entity, body: Record, key: string, x: Value)
    requires key !in Names(Fields(e))
    ensures Validate(e, Obj(body[key := x])) == Validate(e, Obj(body))
  {
    var fs := Fields(e);
    forall i | 0 <= i < |fs|
      ensures Lookup(body[key := x], fs[i].name) == Lookup(body, fs[i].name)
    {
      assert fs[i].name in Names(fs);
    }
    CheckAgrees(fs, body[key := x], body);
  }
}
