# Tattoo studio appointment book, modelled in Dafny

This project models the booking backend of a tattoo studio. The backend keeps
three tables: clients (`clientes`), tattoo artists (`tatuadores`) and
appointments (`citas`). Its one piece of real logic is the overlap check run
when an appointment is booked: a booking is refused when the artist already
holds an appointment on that date that starts before the new one ends and ends
after it starts. For appointments that last at least a minute, this means
some minute would be booked twice. An appointment that starts and ends at the
same minute, strictly inside a stored one, books no minute but is still
refused. Updating an appointment does not repeat the check, so an update can
still double-book an artist. Around that
check sit plain create/update/delete/list routes for the three tables, and a
report that groups every appointment by artist with a grand total and
per-artist counts.

The database is a value `Db` holding three finite maps from id to entity. Each
writing route (create, update, delete) is a pure function from the store and
the request to a `Reply`: the outcome the route answers with, and the store it
leaves behind. The reading routes (the three lists and the report) are methods:
the database returns rows in an order the code does not fix, so they draw the
order from `Common.Enumerate`, which lists the keys of a table once each in
some order, and their contracts hold for every order. On a failure,
nothing is committed and the old store is returned. Times are minutes since
midnight. Dates are (year, month, day). A generated id is any id not already
in its table: the caller passes it in as `newId`.

Each key of a JSON request body has one of three states: `Absent`, `Null` or
`Val(v)`. With these, `k in data`, `data[k]`, `data.get(k)` and
`data.get(k, default)` each behave as in the source. A route that raises an
exception its code does not catch answers with the outcome `Unhandled`. The
framework turns this into a server error, and nothing is committed. Examples
are a `KeyError`, a `strptime` failure, and a NOT NULL or foreign-key
violation at commit.

Files:

- `common.dfy` holds `Option`, the `Json` key states, the outcomes with their
  HTTP status codes, and `Enumerate` (one pass over a table in the database's
  order).
- `models.dfy` holds the entities, the store, the schema constraints as
  invariants (`Valid`: unique emails and both foreign keys), the overlap
  relation and the `NoOverlap` invariant.
- `formats.dfy` models `date.isoformat()`, `strftime("%H:%M")` and the two
  `strptime` formats, with round trips in both directions.
- `clientes.dfy`, `tatuadores.dfy` and `citas.dfy` hold the routes of each
  table.
- `reporte.dfy` holds the grouped report as a tree.

## Model

| member | source | states |
|---|---|---|
| `Common.Enumerate` | routes/citas.py:85 | The rows of `query.all()` contain every key of the table exactly once, with no repetition. |
| `Models.OverlapsIsSharedMinute` | routes/citas.py:34-36 | For appointments that last at least a minute, the conflict test holds exactly when they have the same artist and date and some minute of the day lies in both intervals. |
| `Models.ContainedOverlaps` | routes/citas.py:34-36 | An appointment lying wholly within another of the same artist and date (at least a minute long) conflicts with it, in either order. |
| `Models.EmptyInsideOverlaps` | routes/citas.py:34-36 | An appointment whose start equals its end, strictly inside another of the same artist and date, conflicts with it although the two share no minute. |
| `Models.OverlapsSymmetric` | routes/citas.py:34-36 | The overlap test is symmetric. So testing each stored appointment against the new one covers both orders of every pair. |
| `Models.NoConflictOutsideSlot` | routes/citas.py:34-36 | Appointments of different artists, on different dates, or whose intervals only touch at an end point never overlap, in either order. |
| `Formats.Split` | routes/citas.py:29-31 | Cutting at the first separator gives a prefix with no separator, followed by the separator and the rest. It fails exactly when the separator is absent. |
| `Formats.SplitAtFirst` | routes/citas.py:29-31 | A text built as prefix, separator, rest (with no separator in the prefix) splits back into exactly that prefix and rest. |
| `Formats.ValueConcat` | routes/citas.py:29-31 | The value of concatenated digit runs is positional: the left run's value times ten to the length of the right run, plus the right run's value. |
| `Formats.FormatDate` | routes/citas.py:18 | `isoformat()` prints ten characters: digits, with dashes at positions 4 and 7 and never a space. |
| `Formats.FormatTime` | routes/citas.py:19-20 | `strftime("%H:%M")` prints five characters: digits, with a colon at position 2. |
| `Formats.ParseDate` | routes/citas.py:29 | `strptime` with `%Y-%m-%d` accepts only texts of 8 to 10 characters. These begin with four digits and a dash, and the four digits are the year. |
| `Formats.ParseTime` | routes/citas.py:30-31 | `strptime` with `%H:%M` accepts only texts of 3 to 5 characters that contain a colon and no space. |
| `Formats.Pad4Value` | routes/citas.py:18 | A four-digit field that is read and then printed with `%04d` gives back the same text. |
| `Formats.FormatThenParseDate` | routes/citas.py:18-29 | A valid date printed by `isoformat()` and parsed with `%Y-%m-%d` gives back the same date. |
| `Formats.FormatThenParseTime` | routes/citas.py:19-30 | A time printed with `%H:%M` and parsed with `%H:%M` gives back the same time. |
| `Formats.ParseThenFormatDate` | routes/citas.py:18-29 | A date that parses, given in the ten-character form with no space-padded day, is printed back exactly as given. |
| `Formats.ParseThenFormatTime` | routes/citas.py:19-30 | A time that parses, given in the five-character form, is printed back exactly as given. |
| `Clientes.MissingKeys` | routes/clientes.py:25 | Lists exactly the absent required keys, in the order nombre, email. Presence is by key only, so null and empty values count as present. |
| `Clientes.Create` | routes/clientes.py:19-40 | A non-JSON request gets 400 before anything else. Missing keys give 400 with their names. Otherwise the client is created iff nombre and email are non-null and the email is not held. When created, it is exactly one new client under the new id with the given fields (telefono null when absent), and every other client is unchanged. Every failure is 409 or 400 with the store unchanged. Unique emails and the foreign keys are preserved. |
| `Clientes.Update` | routes/clientes.py:42-57 | An unknown id gets 404 before the content type is looked at. A non-JSON request gets 400. Only the supplied fields are replaced. The update succeeds iff nombre and email do not become null and the resulting email is held by no other client; otherwise the answer is 409 with the store unchanged. Only that client changes, and the invariants are preserved. |
| `Clientes.Delete` | routes/clientes.py:59-64 | An unknown id gets 404 with nothing changed. A present id without appointments is removed, and nothing else changes. A client that appointments still reference is not removed. |
| `Clientes.List` | routes/clientes.py:11-17 | Lists every stored client exactly once, with its stored fields. |
| `Clientes.DuplicateEmailRefused` | routes/clientes.py:29-40 | Creating a client with an email some client already holds, with `nombre` present (a value or null), gives 409 and leaves the store as it was. |
| `Clientes.UpdateKeepingOwnEmail` | routes/clientes.py:49-57 | In a valid store, an update that keeps the client's own email (absent, or equal to the current one) and has a non-null nombre always succeeds. |
| `Clientes.CreateThenDelete` | routes/clientes.py:29-64 | In a valid store, deleting a client just created gives back the store from before the creation. |
| `Tatuadores.Create` | routes/tatuadores.py:11-17 | The artist is created iff nombre has a value. Then it is exactly one new artist with the given nombre and estilo (null when absent), and the other artists are unchanged. A missing or null nombre raises with nothing stored. The invariants are preserved. |
| `Tatuadores.Update` | routes/tatuadores.py:19-26 | An unknown id gets 404 with nothing changed. Only the supplied nombre and estilo are replaced, and every other artist is unchanged. A null nombre raises with nothing committed. |
| `Tatuadores.Delete` | routes/tatuadores.py:28-33 | An unknown id gets 404. A present id without appointments is removed, and nothing else changes. An artist that appointments still reference is not removed. The invariants are preserved. |
| `Tatuadores.List` | routes/tatuadores.py:6-9 | Lists every stored artist exactly once, with its id, nombre and estilo. |
| `Tatuadores.SameNameArtistsCoexist` | models.py:12-16 | Artist names are not unique: creating an artist with an existing artist's name succeeds, and both are stored. |
| `Citas.Create` | routes/citas.py:26-53 | The answer is 409 with the store unchanged iff the date and times parse, the artist is given, and a stored appointment of the same artist on the same date starts before the new end and ends after the new start. The appointment is created iff there is no such clash and both referenced rows exist. When created, it is exactly one new appointment under the new id with the given fields (optional ones null when absent), and all others are unchanged. Start before end is never required. |
| `Citas.Update` | routes/citas.py:55-70 | An unknown id gets 404. The update succeeds iff every supplied date or time parses. Only the supplied fecha, hora_inicio, hora_fin, descripcion and imagen_url change. The id, cliente_id and tatuador_id never change, and the other appointments are unchanged. |
| `Citas.Delete` | routes/citas.py:72-77 | An unknown id gets 404 with nothing changed. A present id removes exactly that appointment, and nothing else changes. Deleting preserves the no-overlap invariant. |
| `Citas.List` | routes/citas.py:8-24 | Lists every stored appointment exactly once, with its stored ids and texts. The date is printed in the ten-character form with no space, and the times in the five-character form. These texts parse back to the stored values. The client and the artist are embedded, under their own ids, exactly when they exist. |
| `Citas.ViewOfShows` | routes/citas.py:12-23 | The entry the route builds for an appointment shows it, in the sense `List` promises. |
| `Citas.ShowsDeterminesView` | routes/citas.py:12-23 | Exactly one entry shows a given appointment: the one the route builds. So every row of the list is exactly what the route prints. |
| `Citas.ClashesIsOverlap` | routes/citas.py:34-37 | The overlap query finds a row iff some stored appointment overlaps the new one, whichever side of the test each is on. |
| `Citas.CreatePreservesNoOverlap` | routes/citas.py:33-52 | If no two stored appointments of an artist overlap on a date, that still holds after any creation. |
| `Citas.WritesPreserveValid` | models.py:26-27 | Appointment creation, update and deletion keep both foreign keys and the unique emails. |
| `Citas.CreateThenListTexts` | routes/citas.py:18-31 | An appointment created with its date and times in canonical form is listed with exactly those texts, by every entry that shows it, including its row in the list. |
| `Citas.BoundaryTouchAccepted` | routes/citas.py:34-40 | Take one appointment booked from s to e on any date, for example 10:00-11:00. A booking for the same artist and date from e to a later time is accepted, for example 11:00-12:00. A booking that starts before e and ends after s gets 409, for example 10:30-11:30. |
| `Citas.TouchingBookingAccepted` | routes/citas.py:34-53 | A booking that starts exactly where the artist's stored appointment ends is created. |
| `Citas.OverlappingBookingRefused` | routes/citas.py:34-40 | A booking that starts before the artist's stored appointment ends, and ends after it starts, gets 409. |
| `Citas.UpdateCanBreakNoOverlap` | routes/citas.py:60-69 | Update does not repeat the overlap check. Moving one of two adjacent bookings so that it overlaps the other is accepted, and the artist is then double booked. |
| `Reporte.AddRow` | routes/citas.py:90-96 | One step of the grouping loop. The id is appended to its artist's entry, or a new entry is opened at the end, as in dictionary insertion. No other entry changes, and no artist gets two entries. |
| `Reporte.AppendedFlatten` | routes/citas.py:96 | Appending to the artist's existing entry adds the id once when the artist has an entry, and not at all otherwise. |
| `Reporte.GroupRows` | routes/citas.py:88-96 | The grouping dictionary never holds an artist twice. |
| `Reporte.AddRowFlatten` | routes/citas.py:96 | One grouping step adds exactly that appointment id to the grouped appointments. |
| `Reporte.GroupRowsCount` | routes/citas.py:88-96 | The groups together hold every appointment as often as the query returned it. |
| `Reporte.GroupRowsNonEmpty` | routes/citas.py:90-96 | Every group holds at least one appointment. |
| `Reporte.GroupRowsMembers` | routes/citas.py:89-96 | Every appointment in a group belongs to that group's artist. |
| `Reporte.NodeOf` | routes/citas.py:105-121 | A `<tatuador>` element carries its artist's id, nombre and estilo (empty when null). Its `<total_citas>` is the number of its `<cita>` children, and those are the group's appointments in order. |
| `Reporte.CitaNodeReadsBack` | routes/citas.py:120-126 | A `<cita>` element carries the appointment's id and cliente_id, and its description or an empty text. Its date is ten characters with no space (zero-padded, as `isoformat()` prints it) and its times five characters, and each reads back as the stored value. |
| `Reporte.NodesFlatten` | routes/citas.py:105-121 | The appointment nodes of the report, artist after artist, are the grouped ids. The per-artist totals add up to their number. |
| `Reporte.Export` | routes/citas.py:81-126 | total_general is the number of appointments and the sum of the per-artist total_citas. Each total_citas is its node's number of appointments and is positive. No artist has two nodes, and each node carries its artist's nombre and estilo (empty when null). Every stored appointment appears exactly once, under its own artist's node, and nothing else appears. |

## Left out

- HTTP wiring, blueprints, CORS, configuration, the JSON and XML serialisation, and the health, debug, init-db and ping routes are left out: they are framework plumbing.
- The database connectivity script is left out: it is I/O only.
- Sessions, commit and rollback are modelled as "new store" and "old store". Autoincrement ids are modelled as any id not in the table.
- The race between the overlap query and the insert under concurrent requests is left out: the model is sequential.
- The percentage (`total / total_general * 100` printed with two decimals) is left out because it is floating point. The report keeps integer counts only.
- The content type of artist and appointment requests is left out. Those routes call `request.get_json()` without testing it, and what that does on a non-JSON body depends on the framework version. Only the client routes, which test it, model it.
- Request values of the wrong JSON type (a number for a name, a string for an id) are left out. Text fields carry text and id fields carry natural numbers.
- Request bodies that are not a JSON object are left out: a body is always an object. A body that is a JSON array (`[]` for a new client gets 400 naming both keys) or `null` (which raises) is not modelled.
- The `String(n)` length limits are left out: the database enforces them and the code does not handle them.
- Digits outside ASCII, which Python's `strptime` also accepts, are left out.
- Why the code raises is not modelled. `Unhandled` only records that the route raises and commits nothing. This covers a missing key read with `data[...]`, a text `strptime` rejects, a null or dangling foreign key at commit, and deleting a client or artist that appointments still reference. In that last case the ORM nulls the children's foreign key, which NOT NULL refuses.
- `Clientes.Create`: when nombre or email is null, it answers 409 like a duplicate email. This is because the source catches every integrity error as "email already exists". The model keeps that answer, not a separate one.
