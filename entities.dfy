/**
 * The four record types of the inventory and the names under which both
 * the browser and the server address them (`/korisnici`, `/lokacije`, ...).
 */
module Entities {
  import opened Wrappers

  datatype Entity = Korisnici | Lokacije | Veze | Oprema

  /** The tab order of the console: customers, sites, links, equipment. */
  const Tabs: seq<Entity> := [Korisnici, Lokacije, Veze, Oprema]

  /** The collection name: the URL path segment and the key of the browser's data map. */
  function Name(e: Entity): string
  {
    match e
    case Korisnici => "korisnici"
    case Lokacije => "lokacije"
    case Veze => "veze"
    case Oprema => "oprema"
  }

  /** The entity a collection name stands for, if any. */
  function Parse(s: string): (r: Option<Entity>)
    ensures forall e: Entity :: r == Some(e) <==> Name(e) == s
  {
    if s == "korisnici" then Some(Korisnici)
    else if s == "lokacije" then Some(Lokacije)
    else if s == "veze" then Some(Veze)
    else if s == "oprema" then Some(Oprema)
    else None
  }

  /** The entity shown by the tab at `index` (the `entities[newValue]` lookup). */
  function EntityAt(index: nat): (e: Entity)
    requires index < |Tabs|
    ensures Tabs[index] == e
    ensures TabOf(e) == index
  {
    Tabs[index]
  }

  /** The tab that shows an entity. */
  function TabOf(e: Entity): (index: nat)
    ensures index < |Tabs| && Tabs[index] == e
  {
    match e
    case Korisnici => 0
    case Lokacije => 1
    case Veze => 2
    case Oprema => 3
  }
}
