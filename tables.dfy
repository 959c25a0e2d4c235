/**
 * The server's four CRUD tables. Each entity gets the same create / list /
 * get / update / delete handlers over an id-keyed table, so one `Table`
 * class, instantiated once per entity, models all four blocks.
 */
module Tables {
  import opened Wrappers
  import opened Json
  import opened Entities
  import opened Schema

  /** A stored row: the database id and the schema fields. */
  datatype Row = Row(id: int, fields: Record)

  /** The HTTP outcome of a handler. */
  datatype Response =
    | Success(body: Value)            // 200 with a JSON body
    | NotFound(detail: string)        // 404 raised by the handler
    | Unprocessable(reason: Invalid)  // 422: the request body failed validation
    | ServerError                     // 500: the commit violated a unique column

  /** The query defaults of every list endpoint. */
  const DefaultSkip: int := 0
  const DefaultLimit: int := 100

  /** The model name used in the handlers' messages. */
  function Singular(e: Entity): string
  {
    match e
    case Korisnici => "Korisnik"
    case Lokacije => "Lokacija"
    case Veze => "Veza"
    case Oprema => "Oprema"
  }

  /** The response model of a row: its schema fields and its id. */
  function Render(row: Row): (v: Value)
    ensures v.Obj? && v.fields.Keys == row.fields.Keys + {"id"}
    ensures v.fields["id"] == Int(row.id)
    ensures forall k :: k in row.fields && k != "id" ==> v.fields[k] == row.fields[k]
  {
    Obj(row.fields["id" := Int(row.id)])
  }

  function RenderAll(rows: seq<Row>): seq<Value>
  {
    seq(|rows|, i requires 0 <= i < |rows| => Render(rows[i]))
  }

  /** Rows are kept in increasing id order (the table's rowid order), so ids are distinct. */
  ghost predicate Ascending(rows: seq<Row>)
  {
    forall i, j :: 0 <= i < j < |rows| ==> rows[i].id < rows[j].id
  }

  /** The position of the first row with the given id: `filter(id == ...).first()`. */
  function Find(rows: seq<Row>, id: int): (r: Option<nat>)
    ensures r.Some? ==> r.value < |rows| && rows[r.value].id == id
    ensures r.Some? ==> forall j :: 0 <= j < r.value ==> rows[j].id != id
    ensures r.None? <==> forall i :: 0 <= i < |rows| ==> rows[i].id != id
  {
    if rows == [] then None
    else if rows[0].id == id then Some(0)
    else match Find(rows[1..], id)
      case None => None
      case Some(k) => Some(k + 1)
  }

  /** The rows without the one at position `k`. */
  function Without(rows: seq<Row>, k: nat): seq<Row>
    requires k < |rows|
  {
    rows[..k] + rows[k + 1..]
  }

  /** The unique column's value of a row, when the table has a unique column. */
  function UniqueValue(e: Entity, r: Record): Value
  {
    match UniqueField(e)
    case None => Null
    case Some(f) => Lookup(r, f)
  }

  /**
   * Whether writing `rec` would duplicate the unique column of a row other
   * than the one with id `except` (SQL lets NULLs repeat).
   */
  predicate Collides(e: Entity, rows: seq<Row>, rec: Record, except: Option<int>)
    ensures Collides(e, rows, rec, except) ==> e == Korisnici || e == Oprema
    ensures rows == [] ==> !Collides(e, rows, rec, except)
    ensures Collides(e, rows, rec, except) ==>
      var f := UniqueField(e).value;
      Lookup(rec, f) != Null &&
      exists i :: 0 <= i < |rows| && Some(rows[i].id) != except && Lookup(rows[i].fields, f) == Lookup(rec, f)
  {
    && UniqueValue(e, rec) != Null
    && exists i :: 0 <= i < |rows| && Some(rows[i].id) != except && UniqueValue(e, rows[i].fields) == UniqueValue(e, rec)
  }

  /** No two rows share a non-null value of the unique column. */
  ghost predicate NoDuplicates(e: Entity, rows: seq<Row>)
  {
    forall i, j :: 0 <= i < |rows| && 0 <= j < |rows| && i != j && UniqueValue(e, rows[i].fields) != Null ==>
      UniqueValue(e, rows[i].fields) != UniqueValue(e, rows[j].fields)
  }

  /** Every id was handed out by the counter: positive and below `nextId`. */
  ghost predicate IdsBelow(rows: seq<Row>, nextId: int)
  {
    forall i :: 0 <= i < |rows| ==> 1 <= rows[i].id < nextId
  }

  ghost predicate AllConform(e: Entity, rows: seq<Row>)
  {
    forall i :: 0 <= i < |rows| ==> Conforms(e, rows[i].fields)
  }

  /** What every table keeps: ordered fresh ids below the counter, conforming rows, a unique column. */
  ghost predicate Invariant(e: Entity, rows: seq<Row>, nextId: int)
  {
    && 1 <= nextId
    && Ascending(rows)
    && IdsBelow(rows, nextId)
    && AllConform(e, rows)
    && NoDuplicates(e, rows)
  }

  /** `.offset(skip).limit(limit)` as SQLite runs it: a negative offset is 0, a negative limit is no limit. */
  function Page(rows: seq<Row>, skip: int, limit: int): (r: seq<Row>)
    ensures var lo := if skip < 0 then 0 else skip;
      && (limit >= 0 ==> |r| == if lo + limit <= |rows| then limit else if lo <= |rows| then |rows| - lo else 0)
      && (limit < 0 ==> |r| == if lo <= |rows| then |rows| - lo else 0)
      && forall i :: 0 <= i < |r| ==> r[i] == rows[lo + i]
  {
    var lo := if skip < 0 then 0 else if skip > |rows| then |rows| else skip;
    var hi := if limit < 0 || lo + limit > |rows| then |rows| else lo + limit;
    rows[lo..hi]
  }

  /** Appending a row under a fresh, larger id keeps the invariant when it conforms and does not collide. */
  lemma InvariantAppend(e: Entity, rows: seq<Row>, nextId: int, rec: Record)
    requires Invariant(e, rows, nextId)
    requires Conforms(e, rec) && !Collides(e, rows, rec, None)
    ensures Invariant(e, rows + [Row(nextId, rec)], nextId + 1)
  {
    var rows' := rows + [Row(nextId, rec)];
    forall i, j | 0 <= i < |rows'| && 0 <= j < |rows'| && i != j && UniqueValue(e, rows'[i].fields) != Null
      ensures UniqueValue(e, rows'[i].fields) != UniqueValue(e, rows'[j].fields)
    {
      if i == |rows| {
        assert rows'[j] == rows[j];
      } else if j == |rows| {
        assert rows'[i] == rows[i];
      }
    }
  }

  /** Replacing the fields of the row at `k` keeps the invariant when they conform and do not collide. */
  lemma InvariantReplace(e: Entity, rows: seq<Row>, nextId: int, k: nat, rec: Record)
    requires Invariant(e, rows, nextId) && k < |rows|
    requires Conforms(e, rec) && !Collides(e, rows, rec, Some(rows[k].id))
    ensures Invariant(e, rows[k := Row(rows[k].id, rec)], nextId)
  {
    var rows' := rows[k := Row(rows[k].id, rec)];
    IdsReplace(rows, nextId, k, rec);
    ConformsReplace(e, rows, k, rec);
    NoDuplicatesReplace(e, rows, k, rec);
  }

  lemma IdsReplace(rows: seq<Row>, nextId: int, k: nat, rec: Record)
    requires Ascending(rows) && k < |rows|
    requires IdsBelow(rows, nextId)
    ensures Ascending(rows[k := Row(rows[k].id, rec)])
    ensures IdsBelow(rows[k := Row(rows[k].id, rec)], nextId)
  {
  }

  lemma ConformsReplace(e: Entity, rows: seq<Row>, k: nat, rec: Record)
    requires AllConform(e, rows) && k < |rows|
    requires Conforms(e, rec)
    ensures AllConform(e, rows[k := Row(rows[k].id, rec)])
  {
    var rows' := rows[k := Row(rows[k].id, rec)];
    forall i | 0 <= i < |rows'| ensures Conforms(e, rows'[i].fields) {
      if i != k { assert rows'[i] == rows[i]; }
    }
  }

  lemma NoDuplicatesReplace(e: Entity, rows: seq<Row>, k: nat, rec: Record)
    requires Ascending(rows) && NoDuplicates(e, rows) && k < |rows|
    requires !Collides(e, rows, rec, Some(rows[k].id))
    ensures NoDuplicates(e, rows[k := Row(rows[k].id, rec)])
  {
    var rows' := rows[k := Row(rows[k].id, rec)];
    forall i, j | 0 <= i < |rows'| && 0 <= j < |rows'| && i != j && UniqueValue(e, rows'[i].fields) != Null
      ensures UniqueValue(e, rows'[i].fields) != UniqueValue(e, rows'[j].fields)
    {
      if i == k {
        assert rows[j].id != rows[k].id by { assert j < k || k < j; }
        assert rows'[j] == rows[j];
      } else if j == k {
        assert rows[i].id != rows[k].id by { assert i < k || k < i; }
        assert rows'[i] == rows[i];
      } else {
        assert rows'[i] == rows[i] && rows'[j] == rows[j];
      }
    }
  }

  /** The rows after removing position `k`: those before it, then those after it shifted down by one. */
  lemma WithoutShifts(rows: seq<Row>, k: nat)
    requires k < |rows|
    ensures |Without(rows, k)| == |rows| - 1
    ensures forall i :: 0 <= i < |rows| - 1 ==> Without(rows, k)[i] == rows[if i < k then i else i + 1]
  {
  }

  lemma AscendingRemove(rows: seq<Row>, k: nat)
    requires Ascending(rows) && k < |rows|
    ensures Ascending(Without(rows, k))
  {
    WithoutShifts(rows, k);
  }

  lemma NoDuplicatesRemove(e: Entity, rows: seq<Row>, k: nat)
    requires NoDuplicates(e, rows) && k < |rows|
    ensures NoDuplicates(e, Without(rows, k))
  {
    WithoutShifts(rows, k);
    var rows' := Without(rows, k);
    forall i, j | 0 <= i < |rows'| && 0 <= j < |rows'| && i != j && UniqueValue(e, rows'[i].fields) != Null
      ensures UniqueValue(e, rows'[i].fields) != UniqueValue(e, rows'[j].fields)
    {
      var i0, j0 := if i < k then i else i + 1, if j < k then j else j + 1;
      assert rows'[i] == rows[i0] && rows'[j] == rows[j0] && i0 != j0;
    }
  }

  /** Removing the row at `k` keeps the invariant. */
  lemma InvariantRemove(e: Entity, rows: seq<Row>, nextId: int, k: nat)
    requires Invariant(e, rows, nextId) && k < |rows|
    ensures Invariant(e, Without(rows, k), nextId)
  {
    WithoutShifts(rows, k);
    AscendingRemove(rows, k);
    NoDuplicatesRemove(e, rows, k);
  }

  /** After removing the row found for `id`, no row has that id. */
  lemma RemovedIsGone(rows: seq<Row>, id: int, k: nat)
    requires Ascending(rows) && Find(rows, id) == Some(k)
    ensures Find(Without(rows, k), id).None?
  {
    WithoutShifts(rows, k);
  }

  /** After removing the row found for `id`, every other row is still there. */
  lemma OthersKept(rows: seq<Row>, id: int, k: nat)
    requires Ascending(rows) && Find(rows, id) == Some(k)
    ensures forall r :: r in Without(rows, k) <==> r in rows && r.id != id
  {
    var rows' := Without(rows, k);
    WithoutShifts(rows, k);
    forall r | r in rows && r.id != id ensures r in rows' {
      var i :| 0 <= i < |rows| && rows[i] == r;
      assert rows'[if i < k then i else i - 1] == r;
    }
  }

  /** A row appended under an id larger than every other is found at the end. */
  lemma {:induction false} AppendedIsFound(rows: seq<Row>, id: int, rec: Record)
    requires forall i :: 0 <= i < |rows| ==> rows[i].id < id
    ensures Find(rows + [Row(id, rec)], id) == Some(|rows|)
  {
    if rows != [] {
      assert (rows + [Row(id, rec)])[1..] == rows[1..] + [Row(id, rec)];
      AppendedIsFound(rows[1..], id, rec);
    }
  }

  /** A list with the default query returns at most 100 rows, so rows past the hundredth are never listed. */
  lemma DefaultPageTruncates(rows: seq<Row>)
    requires Ascending(rows) && |rows| > DefaultLimit
    ensures |Page(rows, DefaultSkip, DefaultLimit)| == DefaultLimit
    ensures forall i :: DefaultLimit <= i < |rows| ==> rows[i] !in Page(rows, DefaultSkip, DefaultLimit)
  {
  }

  /** A table of fewer than 100 rows lists a newly appended row with the default query. */
  lemma DefaultPageShowsAppended(rows: seq<Row>, row: Row)
    requires |rows| < DefaultLimit
    ensures Page(rows + [row], DefaultSkip, DefaultLimit) == rows + [row]
  {
  }

  /** One table of the database: its rows in id order and the next id the database hands out. */
  class Table {
    const entity: Entity
    var rows: seq<Row>
    var nextId: int

    ghost predicate Valid()
      reads this
    {
      Invariant(entity, rows, nextId)
    }

    constructor (e: Entity)
      ensures Valid() && entity == e
      ensures rows == [] && nextId == 1
    {
      entity := e;
      rows := [];
      nextId := 1;
    }

    /** `GET /{entity}/{id}`: the row, or 404 when no row has that id. */
    function Get(id: int): (r: Response)
      reads this
      ensures r.Success? <==> exists i :: 0 <= i < |rows| && rows[i].id == id
      ensures r.Success? ==> exists i :: 0 <= i < |rows| && rows[i].id == id && r.body == Render(rows[i])
      ensures !r.Success? ==> r == NotFound(Singular(entity) + " not found")
    {
      match Find(rows, id)
      case Some(k) => Success(Render(rows[k]))
      case None => NotFound(Singular(entity) + " not found")
    }

    /** `GET /{entity}?skip=..&limit=..`: the rows at positions [skip, skip + limit). */
    function List(skip: int, limit: int): (r: Response)
      reads this
      ensures r.Success? && r.body.Arr?
      ensures limit >= 0 ==> |r.body.items| <= limit
      ensures |r.body.items| <= |rows|
      ensures |r.body.items| == |Page(rows, skip, limit)|
      ensures forall i :: 0 <= i < |r.body.items| ==>
        var j := (if skip < 0 then 0 else skip) + i; j < |rows| && r.body.items[i] == Render(rows[j])
    {
      Success(Arr(RenderAll(Page(rows, skip, limit))))
    }

    /** `POST /{entity}`: validate, insert under a fresh id, commit. */
    method Create(body: Value) returns (resp: Response)
      requires Valid()
      modifies this
      ensures Valid()
      ensures Validate(entity, body).Err? ==> resp == Unprocessable(Validate(entity, body).error)
      ensures Validate(entity, body).Ok? && Collides(entity, old(rows), Validate(entity, body).value, None) ==>
        resp == ServerError
      ensures resp.Success? <==> Validate(entity, body).Ok? && !Collides(entity, old(rows), Validate(entity, body).value, None)
      ensures resp.Success? ==>
        && Find(old(rows), old(nextId)).None?
        && rows == old(rows) + [Row(old(nextId), Validate(entity, body).value)]
        && nextId == old(nextId) + 1
        && resp.body == Render(Row(old(nextId), Validate(entity, body).value))
      ensures !resp.Success? ==> rows == old(rows) && nextId == old(nextId)
    {
      match Validate(entity, body)
      case Err(reason) =>
        resp := Unprocessable(reason);
      case Ok(rec) =>
        if Collides(entity, rows, rec, None) {
          resp := ServerError;
        } else {
          InvariantAppend(entity, rows, nextId, rec);
          var row := Row(nextId, rec);
          rows := rows + [row];
          nextId := nextId + 1;
          resp := Success(Render(row));
        }
    }

    /**
     * `PUT /{entity}/{id}`: the body is validated before the handler runs;
     * then every schema field of the row is overwritten from it.
     */
    method Update(id: int, body: Value) returns (resp: Response)
      requires Valid()
      modifies this
      ensures Valid() && nextId == old(nextId)
      ensures Validate(entity, body).Err? ==> resp == Unprocessable(Validate(entity, body).error)
      ensures Validate(entity, body).Ok? && Find(old(rows), id).None? ==>
        resp == NotFound(Singular(entity) + " not found")
      ensures (Validate(entity, body).Ok? && Find(old(rows), id).Some? &&
        Collides(entity, old(rows), Validate(entity, body).value, Some(id))) ==> resp == ServerError
      ensures resp.Success? <==> (Validate(entity, body).Ok? && Find(old(rows), id).Some? &&
        !Collides(entity, old(rows), Validate(entity, body).value, Some(id)))
      ensures resp.Success? ==>
        && rows == old(rows)[Find(old(rows), id).value := Row(id, Validate(entity, body).value)]
        && resp.body == Render(Row(id, Validate(entity, body).value))
      ensures !resp.Success? ==> rows == old(rows)
    {
      match Validate(entity, body)
      case Err(reason) =>
        resp := Unprocessable(reason);
      case Ok(rec) =>
        match Find(rows, id)
        case None =>
          resp := NotFound(Singular(entity) + " not found");
        case Some(k) =>
          if Collides(entity, rows, rec, Some(id)) {
            resp := ServerError;
          } else {
            InvariantReplace(entity, rows, nextId, k, rec);
            rows := rows[k := Row(id, rec)];
            resp := Success(Render(Row(id, rec)));
          }
    }

    /** `DELETE /{entity}/{id}`: remove the row, or 404 when no row has that id. */
    method Delete(id: int) returns (resp: Response)
      requires Valid()
      modifies this
      ensures Valid() && nextId == old(nextId)
      ensures Find(old(rows), id).None? ==> resp == NotFound(Singular(entity) + " not found") && rows == old(rows)
      ensures Find(old(rows), id).Some? ==>
        && rows == Without(old(rows), Find(old(rows), id).value)
        && resp == Success(Obj(map["message" := Str(Singular(entity) + " deleted successfully")]))
    {
      match Find(rows, id)
      case None =>
        resp := NotFound(Singular(entity) + " not found");
      case Some(k) =>
        InvariantRemove(entity, rows, nextId, k);
        rows := Without(rows, k);
        resp := Success(Obj(map["message" := Str(Singular(entity) + " deleted successfully")]));
    }
  }
}
