/** The appointment routes: list, create (with the overlap check), update and
    delete. None of them tests the content type; a missing key read with
    `data[...]`, a value `strptime` rejects and a broken foreign key at commit
    all raise, uncaught. */
module Citas {
  import opened Common
  import opened Models
  import opened Formats

  /** The keys of an appointment body the routes read. */
  datatype Body = Body(
    fecha: Json<string>,
    horaInicio: Json<string>,
    horaFin: Json<string>,
    clienteId: Json<Id>,
    tatuadorId: Json<Id>,
    descripcion: Json<string>,
    imagenUrl: Json<string>)

  /** The embedded client of a listed appointment. */
  datatype ClienteRef = ClienteRef(id: Id, nombre: string)

  /** The embedded artist of a listed appointment. */
  datatype TatuadorRef = TatuadorRef(id: Id, nombre: string, estilo: Option<string>)

  /** One element of the list answer; date and times as text. */
  datatype View = View(
    id: Id,
    clienteId: Id,
    cliente: Option<ClienteRef>,
    tatuadorId: Id,
    tatuador: Option<TatuadorRef>,
    fecha: string,
    horaInicio: string,
    horaFin: string,
    descripcion: Option<string>,
    imagenUrl: Option<string>)

  /** `strptime(data[k], "%Y-%m-%d")`: None for a missing key, a null or a
      text the format rejects. */
  function DateField(j: Json<string>): Option<CalendarDate>
  {
    if j.Val? then ParseDate(j.v) else None
  }

  /** `strptime(data[k], "%H:%M")`, likewise. */
  function TimeField(j: Json<string>): Option<Clock>
  {
    if j.Val? then ParseTime(j.v) else None
  }

  /** The overlap query: some stored appointment of artist `tid` on `fecha`
      starts before `fin` and ends after `ini`. */
  predicate Clashes(citas: map<Id, Cita>, tid: Id, fecha: CalendarDate, ini: Clock, fin: Clock)
  {
    exists k :: k in citas && citas[k].tatuadorId == tid && citas[k].fecha == fecha
                && citas[k].horaInicio < fin && citas[k].horaFin > ini
  }

  /** The body's fields the creation route reads before the overlap query are
      present and well formed. */
  predicate Parsed(b: Body)
  {
    DateField(b.fecha).Some? && TimeField(b.horaInicio).Some? && TimeField(b.horaFin).Some?
    && b.tatuadorId.Val?
  }

  /** POST /api/citas. Date and times are parsed first; then an appointment of
      the same artist on the same date whose interval intersects the new one
      answers 409; otherwise the appointment is inserted under the generated
      id `newId`. Start before end is never checked. */
  function Create(db: Db, b: Body, newId: Id): (r: Reply)
    requires newId !in db.citas
    ensures r.outcome == Overlapping <==>
              && Parsed(b)
              && Clashes(db.citas, b.tatuadorId.v, DateField(b.fecha).value,
                         TimeField(b.horaInicio).value, TimeField(b.horaFin).value)
    ensures r.outcome.Created? <==>
              && Parsed(b)
              && !Clashes(db.citas, b.tatuadorId.v, DateField(b.fecha).value,
                          TimeField(b.horaInicio).value, TimeField(b.horaFin).value)
              && b.clienteId.Val?
              && b.clienteId.v in db.clientes
              && b.tatuadorId.v in db.tatuadores
    ensures r.outcome in {Overlapping, Unhandled} || r.outcome.Created?
    ensures r.outcome.Created? ==>
              && r.outcome.id == newId
              && r.db.citas.Keys == db.citas.Keys + {newId}
              && r.db.citas[newId] ==
                   Cita(DateField(b.fecha).value, TimeField(b.horaInicio).value,
                        TimeField(b.horaFin).value, Get(b.descripcion), Get(b.imagenUrl),
                        b.clienteId.v, b.tatuadorId.v)
              && SameExcept(db.citas, r.db.citas, newId)
              && r.db.clientes == db.clientes
              && r.db.tatuadores == db.tatuadores
    ensures !r.outcome.Created? ==> r.db == db
  {
    var fecha := DateField(b.fecha);
    var ini := TimeField(b.horaInicio);
    var fin := TimeField(b.horaFin);
    if fecha.None? || ini.None? || fin.None? || !b.tatuadorId.Val? then Reply(Unhandled, db)
    else if Clashes(db.citas, b.tatuadorId.v, fecha.value, ini.value, fin.value) then
      Reply(Overlapping, db)
    else if !b.clienteId.Val? || b.clienteId.v !in db.clientes || b.tatuadorId.v !in db.tatuadores then
      Reply(Unhandled, db)
    else
      var c := Cita(fecha.value, ini.value, fin.value, Get(b.descripcion), Get(b.imagenUrl),
                    b.clienteId.v, b.tatuadorId.v);
      Reply(Created(newId), db.(citas := db.citas[newId := c]))
  }

  /** PUT /api/citas/<id>. Date and times are re-parsed when their keys are
      present, descripcion and imagen_url replaced when theirs are; client,
      artist and id never change, and the overlap check is not repeated. */
  function Update(db: Db, id: Id, b: Body): (r: Reply)
    ensures id !in db.citas ==> r == Reply(NotFound, db)
    ensures r.outcome.Updated? <==>
              && id in db.citas
              && (b.fecha.Absent? || DateField(b.fecha).Some?)
              && (b.horaInicio.Absent? || TimeField(b.horaInicio).Some?)
              && (b.horaFin.Absent? || TimeField(b.horaFin).Some?)
    ensures id in db.citas && !r.outcome.Updated? ==> r == Reply(Unhandled, db)
    ensures r.outcome.Updated? ==> id in db.citas && r.db.citas.Keys == db.citas.Keys
    ensures r.outcome.Updated? ==>
              var prev := db.citas[id];
              var next := r.db.citas[id];
              && next.fecha == (if b.fecha.Absent? then prev.fecha else DateField(b.fecha).value)
              && next.horaInicio ==
                   (if b.horaInicio.Absent? then prev.horaInicio else TimeField(b.horaInicio).value)
              && next.horaFin ==
                   (if b.horaFin.Absent? then prev.horaFin else TimeField(b.horaFin).value)
              && next.descripcion ==
                   (if b.descripcion.Absent? then prev.descripcion else Get(b.descripcion))
              && next.imagenUrl ==
                   (if b.imagenUrl.Absent? then prev.imagenUrl else Get(b.imagenUrl))
              && next.clienteId == prev.clienteId
              && next.tatuadorId == prev.tatuadorId
              && SameExcept(db.citas, r.db.citas, id)
              && r.db.clientes == db.clientes
              && r.db.tatuadores == db.tatuadores
    ensures !r.outcome.Updated? ==> r.db == db
  {
    if id !in db.citas then Reply(NotFound, db)
    else
      var c := db.citas[id];
      var fecha := if b.fecha.Absent? then Some(c.fecha) else DateField(b.fecha);
      var ini := if b.horaInicio.Absent? then Some(c.horaInicio) else TimeField(b.horaInicio);
      var fin := if b.horaFin.Absent? then Some(c.horaFin) else TimeField(b.horaFin);
      if fecha.None? || ini.None? || fin.None? then Reply(Unhandled, db)
      else
        var c' := c.(fecha := fecha.value, horaInicio := ini.value, horaFin := fin.value,
                     descripcion := GetOr(b.descripcion, c.descripcion),
                     imagenUrl := GetOr(b.imagenUrl, c.imagenUrl));
        Reply(Updated, db.(citas := db.citas[id := c']))
  }

  /** DELETE /api/citas/<id>: removes that appointment and nothing else. */
  function Delete(db: Db, id: Id): (r: Reply)
    ensures id !in db.citas ==> r == Reply(NotFound, db)
    ensures id in db.citas ==> r.outcome == Deleted
    ensures r.outcome.Deleted? ==>
              && r.db.citas.Keys == db.citas.Keys - {id}
              && SameExcept(db.citas, r.db.citas, id)
              && r.db.clientes == db.clientes
              && r.db.tatuadores == db.tatuadores
    ensures !r.outcome.Deleted? ==> r.db == db
    ensures NoOverlap(db.citas) ==> NoOverlap(r.db.citas)
  {
    if id !in db.citas then Reply(NotFound, db)
    else Reply(Deleted, db.(citas := db.citas - {id}))
  }

  /** What a list entry says about the appointment it shows: the stored
      fields, the date and times as texts in the canonical YYYY-MM-DD and
      HH:MM forms that read back as the stored values, and the client and
      artist embedded, under their own ids, exactly when they exist. */
  ghost predicate Shows(db: Db, v: View)
  {
    && v.id in db.citas
    && var c := db.citas[v.id];
    && v.clienteId == c.clienteId && v.tatuadorId == c.tatuadorId
    && |v.fecha| == 10 && ' ' !in v.fecha && ParseDate(v.fecha) == Some(c.fecha)
    && |v.horaInicio| == 5 && ParseTime(v.horaInicio) == Some(c.horaInicio)
    && |v.horaFin| == 5 && ParseTime(v.horaFin) == Some(c.horaFin)
    && v.descripcion == c.descripcion && v.imagenUrl == c.imagenUrl
    && (v.cliente.Some? <==> c.clienteId in db.clientes)
    && (v.cliente.Some? ==>
          v.cliente.value.id == c.clienteId
          && v.cliente.value.nombre == db.clientes[c.clienteId].nombre)
    && (v.tatuador.Some? <==> c.tatuadorId in db.tatuadores)
    && (v.tatuador.Some? ==>
          v.tatuador.value.id == c.tatuadorId
          && v.tatuador.value.nombre == db.tatuadores[c.tatuadorId].nombre
          && v.tatuador.value.estilo == db.tatuadores[c.tatuadorId].estilo)
  }

  /** The list entry of appointment `id`. */
  function ViewOf(db: Db, id: Id): View
    requires id in db.citas
  {
    var c := db.citas[id];
    View(id, c.clienteId,
      if c.clienteId in db.clientes
        then Some(ClienteRef(c.clienteId, db.clientes[c.clienteId].nombre)) else None,
      c.tatuadorId,
      if c.tatuadorId in db.tatuadores
        then Some(TatuadorRef(c.tatuadorId, db.tatuadores[c.tatuadorId].nombre,
                              db.tatuadores[c.tatuadorId].estilo))
        else None,
      FormatDate(c.fecha), FormatTime(c.horaInicio), FormatTime(c.horaFin),
      c.descripcion, c.imagenUrl)
  }

  /** The route's list entry shows its appointment. */
  lemma ViewOfShows(db: Db, id: Id)
    requires id in db.citas
    ensures Shows(db, ViewOf(db, id))
  {
    var c := db.citas[id];
    FormatThenParseDate(c.fecha);
    FormatThenParseTime(c.horaInicio);
    FormatThenParseTime(c.horaFin);
  }

  /** A list entry is determined by the appointment it shows: the only entry
      that shows appointment `v.id` is the one the route prints. */
  lemma ShowsDeterminesView(db: Db, v: View)
    requires Shows(db, v)
    ensures v == ViewOf(db, v.id)
  {
    ParseThenFormatDate(v.fecha);
    ParseThenFormatTime(v.horaInicio);
    ParseThenFormatTime(v.horaFin);
  }

  /** GET /api/citas: every stored appointment exactly once. Its date and
      times are printed in the canonical YYYY-MM-DD and HH:MM forms, which
      the creation route reads back as the stored values; its client and
      artist are embedded when they exist. */
  method List(db: Db) returns (rows: seq<View>)
    ensures |rows| == |db.citas|
    ensures forall i, j :: 0 <= i < j < |rows| ==> rows[i].id != rows[j].id
    ensures forall k :: k in db.citas ==> exists i :: 0 <= i < |rows| && rows[i].id == k
    ensures forall i :: 0 <= i < |rows| ==> Shows(db, rows[i])
  {
    var ids := Enumerate(db.citas);
    rows := seq(|ids|, i requires 0 <= i < |ids| => ViewOf(db, ids[i]));
    forall i | 0 <= i < |rows| ensures rows[i].id == ids[i] && Shows(db, rows[i]) {
      ViewOfShows(db, ids[i]);
    }
    forall k | k in db.citas
      ensures exists j :: 0 <= j < |rows| && rows[j].id == k
    {
      var j :| 0 <= j < |ids| && ids[j] == k;
      assert rows[j].id == k;
    }
  }

  // ---------------------------------------------------------------------
  // Properties of the appointment book
  // ---------------------------------------------------------------------

  /** The overlap query answers exactly whether the new appointment would
      overlap a stored one, in either order of the pair. */
  lemma ClashesIsOverlap(citas: map<Id, Cita>, c: Cita)
    ensures Clashes(citas, c.tatuadorId, c.fecha, c.horaInicio, c.horaFin) <==>
            exists k :: k in citas && Overlaps(citas[k], c)
    ensures Clashes(citas, c.tatuadorId, c.fecha, c.horaInicio, c.horaFin) <==>
            exists k :: k in citas && Overlaps(c, citas[k])
  {
  }

  /** Creation keeps every artist free of double bookings: if no two stored
      appointments overlap, none do after a successful creation either. */
  lemma CreatePreservesNoOverlap(db: Db, b: Body, newId: Id)
    requires newId !in db.citas
    requires NoOverlap(db.citas)
    ensures NoOverlap(Create(db, b, newId).db.citas)
  {
    var r := Create(db, b, newId);
    if r.outcome.Created? {
      var c := r.db.citas[newId];
      ClashesIsOverlap(db.citas, c);
      forall i, j | i in r.db.citas && j in r.db.citas && i != j
        ensures !Overlaps(r.db.citas[i], r.db.citas[j])
      {
        if i == newId {
          assert !Overlaps(c, db.citas[j]);
        } else if j == newId {
          assert !Overlaps(db.citas[i], c);
        } else {
          assert r.db.citas[i] == db.citas[i] && r.db.citas[j] == db.citas[j];
        }
      }
    }
  }

  /** Creation, update and deletion of appointments keep the foreign keys
      and the unique emails: creation only commits when both referenced rows
      exist, update never changes the references, deletion drops a row no
      other row depends on. */
  lemma WritesPreserveValid(db: Db, b: Body, id: Id)
    requires Valid(db)
    ensures id !in db.citas ==> Valid(Create(db, b, id).db)
    ensures Valid(Update(db, id, b).db)
    ensures Valid(Delete(db, id).db)
  {
    if id !in db.citas {
      var r := Create(db, b, id);
      forall k | k in r.db.citas
        ensures r.db.citas[k].clienteId in r.db.clientes
        ensures r.db.citas[k].tatuadorId in r.db.tatuadores
      {
        if k != id { assert r.db.citas[k] == db.citas[k]; }
      }
    }
    var u := Update(db, id, b);
    forall k | k in u.db.citas
      ensures u.db.citas[k].clienteId in u.db.clientes
      ensures u.db.citas[k].tatuadorId in u.db.tatuadores
    {
      assert k in db.citas;
    }
    var d := Delete(db, id);
    forall k | k in d.db.citas
      ensures d.db.citas[k].clienteId in d.db.clientes
      ensures d.db.citas[k].tatuadorId in d.db.tatuadores
    {
      assert d.db.citas[k] == db.citas[k];
    }
  }

  /** A creation whose date and times are given in the canonical forms is
      listed with exactly the texts it was given: any entry that shows the
      new appointment, as every row of the list does, carries them. */
  lemma CreateThenListTexts(db: Db, b: Body, newId: Id, v: View)
    requires newId !in db.citas
    requires Create(db, b, newId).outcome.Created?
    requires |b.fecha.v| == 10 && ' ' !in b.fecha.v
    requires |b.horaInicio.v| == 5 && |b.horaFin.v| == 5
    requires Shows(Create(db, b, newId).db, v) && v.id == newId
    ensures v.fecha == b.fecha.v && v.horaInicio == b.horaInicio.v && v.horaFin == b.horaFin.v
  {
    ParseThenFormatDate(b.fecha.v);
    ParseThenFormatTime(b.horaInicio.v);
    ParseThenFormatTime(b.horaFin.v);
    ParseThenFormatDate(v.fecha);
    ParseThenFormatTime(v.horaInicio);
    ParseThenFormatTime(v.horaFin);
  }

  // ---------------------------------------------------------------------
  // Worked examples on a one-artist studio
  // ---------------------------------------------------------------------

  /** One client, one artist, and one appointment of theirs on `d` from `s`
      to `e`. */
  function Studio(d: CalendarDate, s: Clock, e: Clock): Db
  {
    Db(map[1 := Cliente("Ana", "ana@example.com", None)],
       map[1 := Tatuador("Leo", None)],
       map[1 := Cita(d, s, e, None, None, 1, 1)])
  }

  /** A booking with artist 1 and client 1 on `d`, as the client would send
      it: date and times in their printed forms. */
  function Booking(d: CalendarDate, ini: Clock, fin: Clock): Body
  {
    Body(Val(FormatDate(d)), Val(FormatTime(ini)), Val(FormatTime(fin)),
         Val(1), Val(1), Absent, Absent)
  }

  /** Touching intervals do not conflict. With 10:00-11:00 booked (s = 600,
      e = 660), 11:00-12:00 (f = 720) is accepted and 10:30-11:30 (m = 630,
      n = 690) is refused with 409; so is every booking of the same shape on
      any date. */
  lemma BoundaryTouchAccepted(d: CalendarDate, s: Clock, e: Clock, f: Clock, m: Clock, n: Clock)
    requires s < e < f
    requires m < e && s < n
    ensures Create(Studio(d, s, e), Booking(d, e, f), 2).outcome == Created(2)
    ensures Create(Studio(d, s, e), Booking(d, m, n), 2).outcome == Overlapping
  {
    TouchingBookingAccepted(d, s, e, f);
    OverlappingBookingRefused(d, s, e, m, n);
  }

  /** A booking that starts where the stored one ends is accepted. */
  lemma TouchingBookingAccepted(d: CalendarDate, s: Clock, e: Clock, f: Clock)
    requires s < e < f
    ensures Create(Studio(d, s, e), Booking(d, e, f), 2).outcome == Created(2)
  {
    BookingFields(d, e, f);
    assert !Clashes(Studio(d, s, e).citas, 1, d, e, f);
  }

  /** A booking that starts before the stored one ends and ends after it
      starts is refused. */
  lemma OverlappingBookingRefused(d: CalendarDate, s: Clock, e: Clock, m: Clock, n: Clock)
    requires m < e && s < n
    ensures Create(Studio(d, s, e), Booking(d, m, n), 2).outcome == Overlapping
  {
    BookingFields(d, m, n);
    var db := Studio(d, s, e);
    assert db.citas[1].horaInicio < n && db.citas[1].horaFin > m;
  }

  /** A booking reads back as the date and times it prints. */
  lemma BookingFields(d: CalendarDate, ini: Clock, fin: Clock)
    ensures DateField(Booking(d, ini, fin).fecha) == Some(d)
    ensures TimeField(Booking(d, ini, fin).horaInicio) == Some(ini)
    ensures TimeField(Booking(d, ini, fin).horaFin) == Some(fin)
  {
    FormatThenParseDate(d);
    FormatThenParseTime(ini);
    FormatThenParseTime(fin);
  }

  /** Update does not repeat the overlap check. Take two bookings of one
      artist on one date that do not overlap, the first ending no later than
      the second starts (10:00-11:00 and 11:00-12:00, say); an update that
      moves only the second one's start to before the first one's end (10:30)
      is accepted and leaves the artist double booked. */
  lemma UpdateCanBreakNoOverlap(db: Db, i: Id, j: Id, b: Body)
    requires NoOverlap(db.citas)
    requires i in db.citas && j in db.citas && i != j
    requires db.citas[i].tatuadorId == db.citas[j].tatuadorId
    requires db.citas[i].fecha == db.citas[j].fecha
    requires db.citas[i].horaInicio < db.citas[i].horaFin <= db.citas[j].horaInicio
    requires b.fecha.Absent? && b.horaFin.Absent? && TimeField(b.horaInicio).Some?
    requires TimeField(b.horaInicio).value < db.citas[i].horaFin
    requires db.citas[i].horaInicio < db.citas[j].horaFin
    ensures Update(db, j, b).outcome == Updated
    ensures !NoOverlap(Update(db, j, b).db.citas)
  {
    var u := Update(db, j, b);
    assert u.db.citas[i] == db.citas[i];
    assert Overlaps(u.db.citas[i], u.db.citas[j]);
  }
}
