/**
 * The browser console: one component whose state is the fetched collections,
 * the create/edit dialog and a notification banner. Each handler is modelled
 * as one atomic step; what the network answered and what the user confirmed
 * are parameters, and each handler returns the requests it issued, in order.
 */
module App {
  import opened Wrappers
  import opened Json
  import opened Entities
  import opened Drafts
  import opened Inputs

  datatype Severity = Success | Error

  /** The notification banner. */
  datatype Notice = Notice(open: bool, message: string, severity: Severity)

  /** What `fetch` produced: a response (2xx or not; body parsed as JSON or not), or a thrown error. */
  datatype Reply = Responded(ok: bool, body: Option<Value>) | NetworkError

  /** A request to the server. */
  datatype Request =
    | ListRequest(entity: Entity)                                    // GET /{entity}
    | CreateRequest(entity: Entity, body: Record)                    // POST /{entity}
    | UpdateRequest(entity: Entity, draftId: Option<Value>, body: Record) // PUT /{entity}/{draft.id}
    | DeleteRequest(entity: Entity, rowId: Value)                       // DELETE /{entity}/{id}

  /** The dialog as a state machine. */
  datatype DialogState = Closed | Creating(entity: Entity, draft: Record) | Editing(entity: Entity, draft: Record)

  const Added: string := "Uspješno dodano!"
  const Updated: string := "Uspješno ažurirano!"
  const Deleted: string := "Uspješno obrisano!"
  const SaveFailed: string := "Greška pri spremanju podataka"
  const DeleteFailed: string := "Greška pri brisanju"

  function FetchFailed(e: Entity): string
  {
    "Greška pri dohvaćanju " + Name(e)
  }

  /** `response.ok`: the only replies the save and delete handlers treat as success. */
  predicate Succeeded(reply: Reply)
  {
    reply.Responded? && reply.ok
  }

  /** Whether fetchData gets a value to store: it never checks `response.ok`, it only needs a JSON body. */
  predicate HasBody(reply: Reply)
  {
    reply.Responded? && reply.body.Some?
  }

  /**
   * The collections after fetchData for `e`: a reply with a JSON body replaces
   * that entity's collection and no other; a failed fetch keeps them all.
   */
  function AfterFetch(data: map<Entity, Value>, e: Entity, reply: Reply): (d: map<Entity, Value>)
    ensures forall x :: x != e ==> (x in d <==> x in data) && (x in d ==> d[x] == data[x])
    ensures HasBody(reply) ==> e in d && d[e] == reply.body.value
    ensures !HasBody(reply) ==> d == data
  {
    if HasBody(reply) then data[e := reply.body.value] else data
  }

  /** The banner after fetchData for `e`: an error notice exactly when there was no body to store. */
  function AfterFetchNotice(n: Notice, e: Entity, reply: Reply): (n': Notice)
    ensures HasBody(reply) ==> n' == n
    ensures !HasBody(reply) ==> n'.open && n'.severity == Error && n'.message == FetchFailed(e)
  {
    if HasBody(reply) then n else Notice(true, FetchFailed(e), Error)
  }

  /**
   * `(data[entity] || []).length === 0`: the table shows the "Nema podataka"
   * placeholder. JavaScript reads `length` as a key of any object, so an object
   * whose `length` is 0 shows it too.
   */
  predicate ShowsPlaceholder(v: Value)
    ensures v.Arr? ==> (ShowsPlaceholder(v) <==> v.items == [])
    ensures v.Str? ==> (ShowsPlaceholder(v) <==> v.s == [])
    ensures v.Null? ==> ShowsPlaceholder(v)
    ensures v.Obj? ==> (ShowsPlaceholder(v) <==> "length" in v.fields && v.fields["length"] == Int(0))
    ensures v.Float? ==> !ShowsPlaceholder(v)
  {
    || Falsy(v)
    || v == Arr([])
    || (v.Obj? && "length" in v.fields && v.fields["length"] == Int(0))
  }

  /**
   * A non-2xx reply whose body is an error object still replaces the
   * collection; the placeholder then shows only for an object whose `length`
   * is 0, so never for FastAPI's `{"detail": ...}`.
   */
  lemma {:induction false} ErrorBodyReplacesCollection(data: map<Entity, Value>, e: Entity, detail: Record)
    ensures AfterFetch(data, e, Responded(false, Some(Obj(detail))))[e] == Obj(detail)
    ensures ShowsPlaceholder(AfterFetch(data, e, Responded(false, Some(Obj(detail))))[e]) <==>
      "length" in detail && detail["length"] == Int(0)
    ensures detail.Keys == {"detail"} ==> !ShowsPlaceholder(AfterFetch(data, e, Responded(false, Some(Obj(detail))))[e])
  {
  }

  class Console {
    var tabValue: nat
    var data: map<Entity, Value>
    var open: bool
    var editMode: bool
    var currentItem: Record
    var currentEntity: Entity
    var snackbar: Notice

    /** Every collection is present; edit mode and a non-empty draft only exist while the dialog is open. */
    ghost predicate Valid()
      reads this
    {
      && tabValue < |Tabs|
      && (forall e: Entity :: e in data)
      && (editMode ==> open)
      && (!open ==> currentItem == map[])
    }

    ghost function Dialog(): DialogState
      reads this
    {
      if !open then Closed
      else if editMode then Editing(currentEntity, currentItem)
      else Creating(currentEntity, currentItem)
    }

    /** The initial state: first tab, four empty collections, the dialog closed, no banner. */
    constructor ()
      ensures Valid() && Dialog() == Closed && !editMode
      ensures tabValue == 0 && currentEntity == Korisnici
      ensures data == map[Korisnici := Arr([]), Lokacije := Arr([]), Veze := Arr([]), Oprema := Arr([])]
      ensures snackbar == Notice(false, "", Success)
    {
      tabValue := 0;
      data := map[Korisnici := Arr([]), Lokacije := Arr([]), Veze := Arr([]), Oprema := Arr([])];
      open := false;
      editMode := false;
      currentItem := map[];
      currentEntity := Korisnici;
      snackbar := Notice(false, "", Success);
      new;
      forall e: Entity ensures e in data {
        match e
        case Korisnici =>
        case Lokacije =>
        case Veze =>
        case Oprema =>
      }
    }

    method ShowSnackbar(message: string, severity: Severity)
      modifies this`snackbar
      ensures snackbar == Notice(true, message, severity)
    {
      snackbar := Notice(true, message, severity);
    }

    /** The banner's close button and its timeout. */
    method DismissSnackbar()
      modifies this`snackbar
      ensures snackbar == old(snackbar).(open := false)
    {
      snackbar := snackbar.(open := false);
    }

    /** `fetchData(entity)`: GET the collection and store whatever JSON came back. */
    method FetchData(entity: Entity, reply: Reply) returns (req: Request)
      requires Valid()
      modifies this`data, this`snackbar
      ensures Valid()
      ensures req == ListRequest(entity)
      ensures data == AfterFetch(old(data), entity, reply)
      ensures snackbar == AfterFetchNotice(old(snackbar), entity, reply)
    {
      req := ListRequest(entity);
      if HasBody(reply) {
        data := data[entity := reply.body.value];
      } else {
        ShowSnackbar(FetchFailed(entity), Error);
      }
    }

    /** The mount effect: fetch the four collections, in tab order. */
    method Mount(rk: Reply, rl: Reply, rv: Reply, ro: Reply) returns (reqs: seq<Request>)
      requires Valid()
      modifies this`data, this`snackbar
      ensures Valid()
      ensures reqs == [ListRequest(Korisnici), ListRequest(Lokacije), ListRequest(Veze), ListRequest(Oprema)]
      ensures data == AfterFetch(AfterFetch(AfterFetch(AfterFetch(old(data), Korisnici, rk), Lokacije, rl), Veze, rv), Oprema, ro)
      ensures snackbar ==
        AfterFetchNotice(AfterFetchNotice(AfterFetchNotice(AfterFetchNotice(old(snackbar), Korisnici, rk), Lokacije, rl), Veze, rv), Oprema, ro)
    {
      var a := FetchData(Korisnici, rk);
      var b := FetchData(Lokacije, rl);
      var c := FetchData(Veze, rv);
      var d := FetchData(Oprema, ro);
      reqs := [a, b, c, d];
    }

    /** `handleTabChange`: the tab and the current entity follow the selected index. */
    method HandleTabChange(newValue: nat)
      requires Valid() && newValue < |Tabs|
      modifies this`tabValue, this`currentEntity
      ensures Valid()
      ensures tabValue == newValue && currentEntity == EntityAt(newValue) && TabOf(currentEntity) == tabValue
    {
      tabValue := newValue;
      currentEntity := EntityAt(newValue);
    }

    /** `handleOpen(entity, item)`: edit a copy of the row, or create from the entity's seed. */
    method HandleOpen(entity: Entity, item: Option<Record>)
      requires Valid()
      modifies this`currentEntity, this`currentItem, this`editMode, this`open
      ensures Valid()
      ensures item.Some? ==> Dialog() == Editing(entity, item.value)
      ensures item.None? ==> Dialog() == Creating(entity, GetEmptyItem(Name(entity)))
    {
      currentEntity := entity;
      open := true;
      match item
      case Some(record) =>
        currentItem := record;
        editMode := true;
      case None =>
        currentItem := GetEmptyItem(Name(entity));
        editMode := false;
    }

    /** The add button: a create dialog for the entity of the current tab. */
    method HandleAdd()
      requires Valid()
      modifies this`currentEntity, this`currentItem, this`editMode, this`open
      ensures Valid()
      ensures Dialog() == Creating(EntityAt(tabValue), Seed(EntityAt(tabValue)))
    {
      HandleOpen(EntityAt(tabValue), None);
    }

    /** The refresh button: re-fetch the collection of the current tab. */
    method HandleRefresh(reply: Reply) returns (req: Request)
      requires Valid()
      modifies this`data, this`snackbar
      ensures Valid()
      ensures req == ListRequest(EntityAt(tabValue))
      ensures data == AfterFetch(old(data), EntityAt(tabValue), reply)
      ensures snackbar == AfterFetchNotice(old(snackbar), EntityAt(tabValue), reply)
    {
      req := FetchData(EntityAt(tabValue), reply);
    }

    /** `handleClose`: cancel discards the draft and leaves edit mode. */
    method HandleClose()
      requires Valid()
      modifies this`open, this`currentItem, this`editMode
      ensures Valid()
      ensures Dialog() == Closed && !editMode && currentItem == map[]
    {
      open := false;
      currentItem := map[];
      editMode := false;
    }

    /** `handleInputChange(field, value)`: one key of the draft is set, every other key is kept. */
    method HandleInputChange(field: string, value: Value)
      requires Valid() && open
      modifies this`currentItem
      ensures Valid()
      ensures field in currentItem && currentItem[field] == value
      ensures forall k :: k != field ==> (k in currentItem <==> k in old(currentItem))
      ensures forall k :: k != field && k in currentItem ==> currentItem[k] == old(currentItem)[k]
    {
      currentItem := currentItem[field := value];
    }

    /** A whole-number field's onChange: `parseInt(text) || null`. */
    method HandleNumberChange(field: string, text: string)
      requires Valid() && open
      modifies this`currentItem
      ensures Valid()
      ensures currentItem == old(currentItem)[field := IntInput(text)]
    {
      HandleInputChange(field, IntInput(text));
    }

    /** The customer select's onChange: the empty choice is stored as null. */
    method HandleCustomerChange(choice: Value)
      requires Valid() && open
      modifies this`currentItem
      ensures Valid()
      ensures currentItem == old(currentItem)["korisnik_id" := SelectInput(choice)]
    {
      HandleInputChange("korisnik_id", SelectInput(choice));
    }

    /**
     * `handleSave`: PUT the draft in edit mode, POST it otherwise. Success
     * closes the dialog, reports by the mode held before closing, and
     * refreshes the entity; failure keeps the dialog and the draft.
     */
    method HandleSave(reply: Reply, refresh: Reply) returns (reqs: seq<Request>)
      requires Valid() && open
      modifies this`data, this`snackbar, this`open, this`editMode, this`currentItem
      ensures Valid()
      ensures |reqs| >= 1
      ensures old(editMode) ==> reqs[0] == UpdateRequest(currentEntity, Get(old(currentItem), "id"), old(currentItem))
      ensures !old(editMode) ==> reqs[0] == CreateRequest(currentEntity, old(currentItem))
      ensures Succeeded(reply) ==>
        && reqs == [reqs[0], ListRequest(currentEntity)]
        && Dialog() == Closed
        && data == AfterFetch(old(data), currentEntity, refresh)
        && snackbar == AfterFetchNotice(Notice(true, if old(editMode) then Updated else Added, Success), currentEntity, refresh)
      ensures !Succeeded(reply) ==>
        && reqs == [reqs[0]]
        && Dialog() == old(Dialog())
        && data == old(data)
        && snackbar == Notice(true, SaveFailed, Error)
    {
      var wasEditing := editMode;
      var save := if editMode then UpdateRequest(currentEntity, Get(currentItem, "id"), currentItem)
                  else CreateRequest(currentEntity, currentItem);
      if Succeeded(reply) {
        // fetchData is started first, but its result lands after its await,
        // that is after the dialog has closed and the success banner is up.
        HandleClose();
        ShowSnackbar(if wasEditing then Updated else Added, Success);
        var list := FetchData(currentEntity, refresh);
        reqs := [save, list];
      } else {
        ShowSnackbar(SaveFailed, Error);
        reqs := [save];
      }
    }

    /**
     * `handleDelete(entity, id)`: nothing happens unless the user confirms;
     * then DELETE, and on success refresh the entity.
     */
    method HandleDelete(entity: Entity, id: Value, confirmed: bool, reply: Reply, refresh: Reply) returns (reqs: seq<Request>)
      requires Valid()
      modifies this`data, this`snackbar
      ensures Valid()
      ensures !confirmed ==> reqs == [] && data == old(data) && snackbar == old(snackbar)
      ensures confirmed && Succeeded(reply) ==>
        && reqs == [DeleteRequest(entity, id), ListRequest(entity)]
        && data == AfterFetch(old(data), entity, refresh)
        && snackbar == AfterFetchNotice(Notice(true, Deleted, Success), entity, refresh)
      ensures confirmed && !Succeeded(reply) ==>
        && reqs == [DeleteRequest(entity, id)]
        && data == old(data)
        && snackbar == Notice(true, DeleteFailed, Error)
    {
      if !confirmed {
        return [];
      }
      if Succeeded(reply) {
        ShowSnackbar(Deleted, Success);
        var list := FetchData(entity, refresh);
        reqs := [DeleteRequest(entity, id), list];
      } else {
        ShowSnackbar(DeleteFailed, Error);
        reqs := [DeleteRequest(entity, id)];
      }
    }
  }
}
