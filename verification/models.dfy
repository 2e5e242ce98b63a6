/** The three tables of the studio's database and the constraints the schema
    declares on them, read as invariants of the store. */
module Models {
  import opened Common

  /** A calendar date as (year, month, day). */
  datatype Date = Date(year: int, month: int, day: int)

  predicate IsLeap(y: int)
  {
    y % 4 == 0 && (y % 100 != 0 || y % 400 == 0)
  }

  function DaysInMonth(y: int, m: int): int
    requires 1 <= m <= 12
  {
    if m == 2 then (if IsLeap(y) then 29 else 28)
    else if m == 4 || m == 6 || m == 9 || m == 11 then 30
    else 31
  }

  /** The dates Python's `datetime.date` can hold (years 1 to 9999). */
  predicate ValidDate(d: Date)
  {
    && 1 <= d.year <= 9999
    && 1 <= d.month <= 12
    && 1 <= d.day <= DaysInMonth(d.year, d.month)
  }

  /** The value of a `Date` column. */
  type CalendarDate = d: Date | ValidDate(d) witness Date(1, 1, 1)

  /** The value of a `Time` column, in minutes since midnight (seconds are
      always zero: times are parsed with `%H:%M`). */
  type Clock = m: int | 0 <= m < 1440

  /** Table `clientes`: nombre and email are NOT NULL, telefono is nullable. */
  datatype Cliente = Cliente(nombre: string, email: string, telefono: Option<string>)

  /** Table `tatuadores`: nombre is NOT NULL, estilo is nullable. */
  datatype Tatuador = Tatuador(nombre: string, estilo: Option<string>)

  /** Table `citas`: date and both times NOT NULL, two optional texts, and two
      NOT NULL foreign keys. */
  datatype Cita = Cita(
    fecha: CalendarDate,
    horaInicio: Clock,
    horaFin: Clock,
    descripcion: Option<string>,
    imagenUrl: Option<string>,
    clienteId: Id,
    tatuadorId: Id)

  /** The whole database, each table keyed by its primary key. */
  datatype Db = Db(
    clientes: map<Id, Cliente>,
    tatuadores: map<Id, Tatuador>,
    citas: map<Id, Cita>)

  /** A route's answer together with the store it leaves behind (the old
      store when nothing was committed). */
  datatype Reply = Reply(outcome: Outcome, db: Db)

  /** The UNIQUE constraint on `clientes.email`. */
  ghost predicate EmailsDistinct(cs: map<Id, Cliente>)
  {
    forall i, j :: i in cs && j in cs && i != j ==> cs[i].email != cs[j].email
  }

  /** The two foreign keys of `citas`. */
  ghost predicate RefIntegrity(db: Db)
  {
    forall id :: id in db.citas ==>
      db.citas[id].clienteId in db.clientes && db.citas[id].tatuadorId in db.tatuadores
  }

  /** Every state the database can be in. */
  ghost predicate Valid(db: Db)
  {
    EmailsDistinct(db.clientes) && RefIntegrity(db)
  }

  /** Whether some appointment references the client `id`. */
  predicate ClientHasCitas(citas: map<Id, Cita>, id: Id)
  {
    exists k :: k in citas && citas[k].clienteId == id
  }

  /** Whether some appointment references the artist `id`. */
  predicate ArtistHasCitas(citas: map<Id, Cita>, id: Id)
  {
    exists k :: k in citas && citas[k].tatuadorId == id
  }

  /** The booking conflict the appointment route tests: same artist, same
      date, and the half-open intervals [horaInicio, horaFin) intersect. */
  predicate Overlaps(a: Cita, b: Cita)
  {
    && a.tatuadorId == b.tatuadorId
    && a.fecha == b.fecha
    && a.horaInicio < b.horaFin
    && a.horaFin > b.horaInicio
  }

  /** No artist is booked twice at once on any date. The schema does not
      declare this; only appointment creation maintains it. */
  ghost predicate NoOverlap(citas: map<Id, Cita>)
  {
    forall i, j :: i in citas && j in citas && i != j ==> !Overlaps(citas[i], citas[j])
  }

  /** `after` agrees with `before` on every key other than `id`. */
  ghost predicate SameExcept<V>(before: map<Id, V>, after: map<Id, V>, id: Id)
  {
    && (forall k :: k in before && k != id ==> k in after && after[k] == before[k])
    && (forall k :: k in after && k != id ==> k in before)
  }

  /** Minute `t` of the day lies in the appointment's [horaInicio, horaFin). */
  predicate Covers(c: Cita, t: int)
  {
    c.horaInicio <= t < c.horaFin
  }

  /** Some minute lies in both appointments' intervals. */
  ghost predicate SharesMinute(a: Cita, b: Cita)
  {
    exists t :: Covers(a, t) && Covers(b, t)
  }

  /** For appointments that last at least a minute, the conflict test is
      exactly "same artist, same date, and some minute booked twice". */
  lemma OverlapsIsSharedMinute(a: Cita, b: Cita)
    requires a.horaInicio < a.horaFin && b.horaInicio < b.horaFin
    ensures Overlaps(a, b) <==>
              a.tatuadorId == b.tatuadorId && a.fecha == b.fecha && SharesMinute(a, b)
  {
    if Overlaps(a, b) {
      var t := if a.horaInicio < b.horaInicio then b.horaInicio else a.horaInicio;
      assert Covers(a, t) && Covers(b, t);
    }
  }

  /** One appointment lying wholly within another of the same artist and date
      conflicts with it, in either order. */
  lemma ContainedOverlaps(a: Cita, b: Cita)
    requires a.tatuadorId == b.tatuadorId && a.fecha == b.fecha
    requires b.horaInicio < b.horaFin
    requires a.horaInicio <= b.horaInicio && b.horaFin <= a.horaFin
    ensures Overlaps(a, b) && Overlaps(b, a)
  {
  }

  /** An appointment that starts and ends at the same minute strictly inside
      another of the same artist and date books no minute, yet the test still
      counts it as a conflict. */
  lemma EmptyInsideOverlaps(a: Cita, b: Cita)
    requires a.tatuadorId == b.tatuadorId && a.fecha == b.fecha
    requires b.horaInicio == b.horaFin && a.horaInicio < b.horaInicio < a.horaFin
    ensures Overlaps(a, b) && Overlaps(b, a)
    ensures !SharesMinute(a, b)
  {
  }

  /** The overlap test is symmetric, so checking each existing appointment
      against the new one covers both orders of every pair. */
  lemma OverlapsSymmetric(a: Cita, b: Cita)
    ensures Overlaps(a, b) <==> Overlaps(b, a)
  {
  }

  /** Appointments of different artists, or on different dates, or whose
      intervals only touch at an end point, never conflict. */
  lemma NoConflictOutsideSlot(a: Cita, b: Cita)
    requires a.tatuadorId != b.tatuadorId || a.fecha != b.fecha
             || a.horaFin == b.horaInicio || b.horaFin == a.horaInicio
    ensures !Overlaps(a, b) && !Overlaps(b, a)
  {
  }
}
