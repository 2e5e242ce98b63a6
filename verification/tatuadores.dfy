/** The artist routes: list, create, update, delete. None of them tests the
    content type or catches a database error. */
module Tatuadores {
  import opened Common
  import opened Models

  /** The keys of an artist body the routes read. */
  datatype Body = Body(nombre: Json<string>, estilo: Json<string>)

  /** One element of the list answer. */
  datatype View = View(id: Id, nombre: string, estilo: Option<string>)

  /** POST /api/tatuadores. `data["nombre"]` raises on a missing key and a
      null nombre breaks NOT NULL at commit; neither is caught. Otherwise the
      artist is stored under the generated id `newId`. Names need not be
      unique. */
  function Create(db: Db, b: Body, newId: Id): (r: Reply)
    requires newId !in db.tatuadores
    ensures r.outcome.Created? <==> b.nombre.Val?
    ensures !b.nombre.Val? ==> r == Reply(Unhandled, db)
    ensures r.outcome.Created? ==>
              && r.outcome.id == newId
              && r.db.tatuadores.Keys == db.tatuadores.Keys + {newId}
              && r.db.tatuadores[newId] == Tatuador(b.nombre.v, Get(b.estilo))
              && SameExcept(db.tatuadores, r.db.tatuadores, newId)
              && r.db.clientes == db.clientes
              && r.db.citas == db.citas
    ensures Valid(db) ==> Valid(r.db)
  {
    if !b.nombre.Val? then Reply(Unhandled, db)
    else
      var t := Tatuador(b.nombre.v, Get(b.estilo));
      Reply(Created(newId), db.(tatuadores := db.tatuadores[newId := t]))
  }

  /** PUT /api/tatuadores/<id>. nombre and estilo are replaced when their keys
      are present (estilo by null when the value is null) and kept otherwise;
      a null nombre breaks NOT NULL at commit, uncaught. */
  function Update(db: Db, id: Id, b: Body): (r: Reply)
    ensures id !in db.tatuadores ==> r == Reply(NotFound, db)
    ensures r.outcome.Updated? <==> id in db.tatuadores && !b.nombre.Null?
    ensures id in db.tatuadores && b.nombre.Null? ==> r == Reply(Unhandled, db)
    ensures r.outcome.Updated? ==>
              && r.db.tatuadores.Keys == db.tatuadores.Keys
              && r.db.tatuadores[id].nombre ==
                   (if b.nombre.Val? then b.nombre.v else db.tatuadores[id].nombre)
              && r.db.tatuadores[id].estilo ==
                   (if b.estilo.Absent? then db.tatuadores[id].estilo else Get(b.estilo))
              && SameExcept(db.tatuadores, r.db.tatuadores, id)
              && r.db.clientes == db.clientes
              && r.db.citas == db.citas
    ensures !r.outcome.Updated? ==> r.db == db
    ensures Valid(db) ==> Valid(r.db)
  {
    if id !in db.tatuadores then Reply(NotFound, db)
    else
      var t := db.tatuadores[id];
      var nombre := GetOr(b.nombre, Some(t.nombre));
      var estilo := GetOr(b.estilo, t.estilo);
      if nombre.None? then Reply(Unhandled, db)
      else Reply(Updated, db.(tatuadores := db.tatuadores[id := Tatuador(nombre.value, estilo)]))
  }

  /** DELETE /api/tatuadores/<id>. As for clients, an artist that appointments
      still reference cannot be deleted: the commit fails, uncaught. */
  function Delete(db: Db, id: Id): (r: Reply)
    ensures id !in db.tatuadores ==> r == Reply(NotFound, db)
    ensures r.outcome.Deleted? <==> id in db.tatuadores && !ArtistHasCitas(db.citas, id)
    ensures id in db.tatuadores && ArtistHasCitas(db.citas, id) ==> r == Reply(Unhandled, db)
    ensures r.outcome.Deleted? ==>
              && r.db.tatuadores.Keys == db.tatuadores.Keys - {id}
              && SameExcept(db.tatuadores, r.db.tatuadores, id)
              && r.db.clientes == db.clientes
              && r.db.citas == db.citas
    ensures !r.outcome.Deleted? ==> r.db == db
    ensures Valid(db) ==> Valid(r.db)
  {
    if id !in db.tatuadores then Reply(NotFound, db)
    else if ArtistHasCitas(db.citas, id) then Reply(Unhandled, db)
    else Reply(Deleted, db.(tatuadores := db.tatuadores - {id}))
  }

  /** GET /api/tatuadores: every stored artist exactly once, with id, nombre
      and estilo. */
  method List(db: Db) returns (rows: seq<View>)
    ensures |rows| == |db.tatuadores|
    ensures forall i :: 0 <= i < |rows| ==>
              rows[i].id in db.tatuadores
              && db.tatuadores[rows[i].id] == Tatuador(rows[i].nombre, rows[i].estilo)
    ensures forall i, j :: 0 <= i < j < |rows| ==> rows[i].id != rows[j].id
    ensures forall k :: k in db.tatuadores ==> exists i :: 0 <= i < |rows| && rows[i].id == k
  {
    var ids := Enumerate(db.tatuadores);
    rows := seq(|ids|, i requires 0 <= i < |ids| =>
      var t := db.tatuadores[ids[i]]; View(ids[i], t.nombre, t.estilo));
    forall k | k in db.tatuadores
      ensures exists i :: 0 <= i < |rows| && rows[i].id == k
    {
      var i :| 0 <= i < |ids| && ids[i] == k;
      assert rows[i].id == k;
    }
  }

  /** There is no uniqueness constraint on artists: creating one with the name
      of an existing artist succeeds, and both are stored. */
  lemma SameNameArtistsCoexist(db: Db, b: Body, newId: Id, other: Id)
    requires newId !in db.tatuadores && other in db.tatuadores
    requires b.nombre == Val(db.tatuadores[other].nombre)
    ensures var r := Create(db, b, newId);
      && r.outcome == Created(newId)
      && r.db.tatuadores[other].nombre == r.db.tatuadores[newId].nombre
      && other != newId
  {
  }
}
