/** The client routes: list, create, update, delete. Only creation and update
    read a body, and only these routes test the request's content type. */
module Clientes {
  import opened Common
  import opened Models

  /** The keys of a client body the routes read. */
  datatype Body = Body(nombre: Json<string>, email: Json<string>, telefono: Json<string>)

  /** A request body: JSON (`request.is_json`) or anything else. */
  datatype Request = NonJsonRequest | JsonRequest(data: Body)

  /** One element of the list answer. */
  datatype View = View(id: Id, nombre: string, email: string, telefono: Option<string>)

  /** Whether some client holds `email`. */
  predicate EmailHeld(cs: map<Id, Cliente>, email: string)
  {
    exists k :: k in cs && cs[k].email == email
  }

  /** Whether a client other than `id` holds `email`. */
  predicate EmailHeldByOther(cs: map<Id, Cliente>, id: Id, email: string)
  {
    exists k :: k in cs && k != id && cs[k].email == email
  }

  /** The required keys that are missing from the body, in the order nombre,
      email. Presence is by key only: a null or empty value counts as present. */
  function MissingKeys(b: Body): (r: seq<string>)
    ensures |r| <= 2
    ensures forall k :: k in r ==> k == "nombre" || k == "email"
    ensures "nombre" in r <==> b.nombre.Absent?
    ensures "email" in r <==> b.email.Absent?
    ensures |r| == 2 ==> r == ["nombre", "email"]
  {
    (if b.nombre.Absent? then ["nombre"] else []) + (if b.email.Absent? then ["email"] else [])
  }

  /** POST /api/clientes. A non-JSON request is refused first, then a body
      missing nombre or email. The insert is attempted next; the database
      refuses it when nombre or email is null or the email is already held,
      and that integrity error is rolled back and answered with 409. `newId`
      is the id the database generates. */
  function Create(db: Db, req: Request, newId: Id): (r: Reply)
    requires newId !in db.clientes
    ensures req.NonJsonRequest? ==> r == Reply(NotJson, db)
    ensures req.JsonRequest? && MissingKeys(req.data) != [] ==>
              r == Reply(MissingFields(MissingKeys(req.data)), db)
    ensures r.outcome.Created? <==>
              && req.JsonRequest?
              && req.data.nombre.Val?
              && req.data.email.Val?
              && !EmailHeld(db.clientes, req.data.email.v)
    ensures req.JsonRequest? && MissingKeys(req.data) == [] && !r.outcome.Created? ==>
              r == Reply(EmailTaken, db)
    ensures r.outcome.Created? ==>
              && r.outcome.id == newId
              && r.db.clientes.Keys == db.clientes.Keys + {newId}
              && r.db.clientes[newId] ==
                   Cliente(req.data.nombre.v, req.data.email.v, Get(req.data.telefono))
              && SameExcept(db.clientes, r.db.clientes, newId)
              && r.db.tatuadores == db.tatuadores
              && r.db.citas == db.citas
    ensures !r.outcome.Created? ==> r.db == db
    ensures Valid(db) ==> Valid(r.db)
  {
    match req
    case NonJsonRequest => Reply(NotJson, db)
    case JsonRequest(b) =>
      var missing := MissingKeys(b);
      if missing != [] then Reply(MissingFields(missing), db)
      else if !b.nombre.Val? || !b.email.Val? || EmailHeld(db.clientes, b.email.v) then
        Reply(EmailTaken, db)
      else
        var c := Cliente(b.nombre.v, b.email.v, Get(b.telefono));
        Reply(Created(newId), db.(clientes := db.clientes[newId := c]))
  }

  /** PUT /api/clientes/<id>. The id is looked up before the content type is
      tested. Each of nombre, email and telefono is replaced when its key is
      present (by null when the value is null) and kept otherwise; the commit
      fails, is rolled back and is answered with 409 when nombre or email ends
      up null or the email is held by another client. */
  function Update(db: Db, id: Id, req: Request): (r: Reply)
    ensures id !in db.clientes ==> r == Reply(NotFound, db)
    ensures id in db.clientes && req.NonJsonRequest? ==> r == Reply(NotJson, db)
    ensures r.outcome.Updated? <==>
              && id in db.clientes
              && req.JsonRequest?
              && !req.data.nombre.Null?
              && !req.data.email.Null?
              && !EmailHeldByOther(db.clientes, id,
                   if req.data.email.Val? then req.data.email.v else db.clientes[id].email)
    ensures id in db.clientes && req.JsonRequest? && !r.outcome.Updated? ==>
              r == Reply(EmailTaken, db)
    ensures r.outcome.Updated? ==>
              && r.db.clientes.Keys == db.clientes.Keys
              && r.db.clientes[id].nombre ==
                   (if req.data.nombre.Val? then req.data.nombre.v else db.clientes[id].nombre)
              && r.db.clientes[id].email ==
                   (if req.data.email.Val? then req.data.email.v else db.clientes[id].email)
              && r.db.clientes[id].telefono ==
                   (if req.data.telefono.Absent? then db.clientes[id].telefono
                    else Get(req.data.telefono))
              && SameExcept(db.clientes, r.db.clientes, id)
              && r.db.tatuadores == db.tatuadores
              && r.db.citas == db.citas
    ensures !r.outcome.Updated? ==> r.db == db
    ensures Valid(db) ==> Valid(r.db)
  {
    if id !in db.clientes then Reply(NotFound, db)
    else if req.NonJsonRequest? then Reply(NotJson, db)
    else
      var c := db.clientes[id];
      var b := req.data;
      var nombre := GetOr(b.nombre, Some(c.nombre));
      var email := GetOr(b.email, Some(c.email));
      var telefono := GetOr(b.telefono, c.telefono);
      if nombre.None? || email.None? || EmailHeldByOther(db.clientes, id, email.value) then
        Reply(EmailTaken, db)
      else
        var c' := Cliente(nombre.value, email.value, telefono);
        Reply(Updated, db.(clientes := db.clientes[id := c']))
  }

  /** DELETE /api/clientes/<id>. Deleting a client that appointments still
      reference makes the ORM null their cliente_id, which the NOT NULL
      constraint refuses at commit; that error is not caught. */
  function Delete(db: Db, id: Id): (r: Reply)
    ensures id !in db.clientes ==> r == Reply(NotFound, db)
    ensures r.outcome.Deleted? <==> id in db.clientes && !ClientHasCitas(db.citas, id)
    ensures id in db.clientes && ClientHasCitas(db.citas, id) ==> r == Reply(Unhandled, db)
    ensures r.outcome.Deleted? ==>
              && r.db.clientes.Keys == db.clientes.Keys - {id}
              && SameExcept(db.clientes, r.db.clientes, id)
              && r.db.tatuadores == db.tatuadores
              && r.db.citas == db.citas
    ensures !r.outcome.Deleted? ==> r.db == db
    ensures Valid(db) ==> Valid(r.db)
  {
    if id !in db.clientes then Reply(NotFound, db)
    else if ClientHasCitas(db.citas, id) then Reply(Unhandled, db)
    else Reply(Deleted, db.(clientes := db.clientes - {id}))
  }

  /** GET /api/clientes: every stored client exactly once, with all its fields. */
  method List(db: Db) returns (rows: seq<View>)
    ensures |rows| == |db.clientes|
    ensures forall i :: 0 <= i < |rows| ==>
              rows[i].id in db.clientes
              && db.clientes[rows[i].id] ==
                   Cliente(rows[i].nombre, rows[i].email, rows[i].telefono)
    ensures forall i, j :: 0 <= i < j < |rows| ==> rows[i].id != rows[j].id
    ensures forall k :: k in db.clientes ==> exists i :: 0 <= i < |rows| && rows[i].id == k
  {
    var ids := Enumerate(db.clientes);
    rows := seq(|ids|, i requires 0 <= i < |ids| =>
      var c := db.clientes[ids[i]]; View(ids[i], c.nombre, c.email, c.telefono));
    forall k | k in db.clientes
      ensures exists i :: 0 <= i < |rows| && rows[i].id == k
    {
      var i :| 0 <= i < |ids| && ids[i] == k;
      assert rows[i].id == k;
    }
  }

  /** A second client with an email some client already holds is refused with
      409, and the first client is left as it was. */
  lemma DuplicateEmailRefused(db: Db, b: Body, newId: Id, holder: Id)
    requires newId !in db.clientes
    requires holder in db.clientes && !b.nombre.Absent? && b.email == Val(db.clientes[holder].email)
    ensures Create(db, JsonRequest(b), newId) == Reply(EmailTaken, db)
  {
  }

  /** Keeping one's own email is not a clash: in a valid store, an update whose
      email is absent or equal to the client's current one, and whose nombre is
      not null, always succeeds. */
  lemma UpdateKeepingOwnEmail(db: Db, id: Id, b: Body)
    requires Valid(db) && id in db.clientes
    requires b.email.Absent? || b.email == Val(db.clientes[id].email)
    requires !b.nombre.Null?
    ensures Update(db, id, JsonRequest(b)).outcome == Updated
  {
    forall k | k in db.clientes && k != id
      ensures db.clientes[k].email != db.clientes[id].email
    {
    }
  }

  /** Deleting a client just created gives back the store it was created in:
      no appointment of a valid store can reference the new id. */
  lemma CreateThenDelete(db: Db, b: Body, newId: Id)
    requires newId !in db.clientes
    requires Valid(db) && Create(db, JsonRequest(b), newId).outcome.Created?
    ensures Delete(Create(db, JsonRequest(b), newId).db, newId) == Reply(Deleted, db)
  {
    var db' := Create(db, JsonRequest(b), newId).db;
    forall k | k in db'.citas ensures db'.citas[k].clienteId != newId {
      assert db'.citas[k].clienteId in db.clientes;
    }
    assert db'.clientes - {newId} == db.clientes;
  }
}
