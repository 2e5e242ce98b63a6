/** GET /api/citas/xml: every appointment, grouped by artist, with a grand
    total and a count per artist. The report is modelled as the tree the route
    builds, not as its XML text. */
module Reporte {
  import opened Common
  import opened Models
  import opened Formats

  /** One `<cita>` element. */
  datatype CitaNode = CitaNode(
    id: Id,
    clienteId: Id,
    fecha: string,
    horaInicio: string,
    horaFin: string,
    descripcion: string)

  /** One `<tatuador>` element with its `<total_citas>` and its appointments. */
  datatype TatuadorNode = TatuadorNode(
    id: Id,
    nombre: string,
    estilo: string,
    totalCitas: nat,
    citas: seq<CitaNode>)

  /** The `<reporte>` root: `<resumen><total_general>` and one node per artist. */
  datatype Reporte = Reporte(totalGeneral: nat, tatuadores: seq<TatuadorNode>)

  // ---------------------------------------------------------------------
  // Grouping in the order artists are first met
  // ---------------------------------------------------------------------

  /** An appointment as the grouping loop sees it: its id and its artist. */
  datatype Row = Row(id: Id, tid: Id)

  /** One entry of the grouping dictionary: an artist and its appointments in
      the order they were met. */
  datatype Group = Group(tid: Id, ids: seq<Id>)

  /** Whether artist `tid` has an entry. */
  predicate HasGroup(g: seq<Group>, tid: Id)
  {
    exists k :: 0 <= k < |g| && g[k].tid == tid
  }

  /** No artist has two entries. */
  predicate DistinctTids(g: seq<Group>)
  {
    forall a, b :: 0 <= a < b < |g| ==> g[a].tid != g[b].tid
  }

  /** All appointment ids of the groups, group after group. */
  function Flatten(g: seq<Group>): seq<Id>
  {
    if g == [] then [] else g[0].ids + Flatten(g[1..])
  }

  /** An entry with `id` appended when it is artist `tid`'s. */
  function Append(e: Group, tid: Id, id: Id): Group
  {
    if e.tid == tid then Group(tid, e.ids + [id]) else e
  }

  /** Every entry with `id` appended when it is artist `tid`'s. */
  function Appended(g: seq<Group>, tid: Id, id: Id): seq<Group>
  {
    seq(|g|, k requires 0 <= k < |g| => Append(g[k], tid, id))
  }

  /** One step of the grouping loop: append `id` to the entry of artist `tid`,
      or open a new entry for it at the end, as insertion into a Python dict
      does. */
  function AddRow(g: seq<Group>, tid: Id, id: Id): (r: seq<Group>)
    requires DistinctTids(g)
    ensures DistinctTids(r)
    ensures |r| == if HasGroup(g, tid) then |g| else |g| + 1
    ensures forall k :: 0 <= k < |g| ==>
              r[k].tid == g[k].tid
              && r[k].ids == g[k].ids + (if g[k].tid == tid then [id] else [])
    ensures !HasGroup(g, tid) ==> r[|g|] == Group(tid, [id])
  {
    if HasGroup(g, tid) then Appended(g, tid, id) else Appended(g, tid, id) + [Group(tid, [id])]
  }

  /** The grouping loop over the rows in query order. */
  function GroupRows(rows: seq<Row>): (r: seq<Group>)
    ensures DistinctTids(r)
    decreases |rows|
  {
    if rows == [] then []
    else
      var last := rows[|rows| - 1];
      AddRow(GroupRows(rows[..|rows| - 1]), last.tid, last.id)
  }

  function RowIds(rows: seq<Row>): seq<Id>
    decreases |rows|
  {
    if rows == [] then [] else RowIds(rows[..|rows| - 1]) + [rows[|rows| - 1].id]
  }

  lemma {:induction false} FlattenAppend(g: seq<Group>, e: Group)
    ensures Flatten(g + [e]) == Flatten(g) + e.ids
    decreases |g|
  {
    if g == [] {
      assert Flatten([e]) == e.ids + Flatten([]);
    } else {
      assert (g + [e])[1..] == g[1..] + [e];
      FlattenAppend(g[1..], e);
    }
  }

  /** An artist has an entry iff it has the first one or one further on. */
  lemma HasGroupCons(g: seq<Group>, tid: Id)
    requires g != []
    ensures HasGroup(g, tid) <==> g[0].tid == tid || HasGroup(g[1..], tid)
  {
    if HasGroup(g, tid) && g[0].tid != tid {
      var k :| 0 <= k < |g| && g[k].tid == tid;
      assert g[1..][k - 1].tid == tid;
    }
    if HasGroup(g[1..], tid) {
      var k :| 0 <= k < |g| - 1 && g[1..][k].tid == tid;
      assert g[k + 1].tid == tid;
    }
  }

  /** Without repeated artists, the first entry's artist has no other entry,
      and the remaining entries have no repeated artists either. */
  lemma DistinctTail(g: seq<Group>)
    requires g != [] && DistinctTids(g)
    ensures DistinctTids(g[1..]) && !HasGroup(g[1..], g[0].tid)
  {
    forall k | 0 <= k < |g| - 1 ensures g[1..][k].tid != g[0].tid {
      assert g[1..][k] == g[k + 1];
    }
  }

  /** Appending `id` to the entries adds it once if artist `tid` has an
      entry, and not at all otherwise. */
  lemma {:induction false} AppendedFlatten(g: seq<Group>, tid: Id, id: Id)
    requires DistinctTids(g)
    ensures multiset(Flatten(Appended(g, tid, id))) ==
            multiset(Flatten(g)) + (if HasGroup(g, tid) then multiset{id} else multiset{})
    decreases |g|
  {
    if g != [] {
      var a, t := Appended(g, tid, id), g[1..];
      assert a[1..] == Appended(t, tid, id);
      DistinctTail(g);
      HasGroupCons(g, tid);
      AppendedFlatten(t, tid, id);
      assert Flatten(a) == a[0].ids + Flatten(a[1..]);
      if g[0].tid == tid {
        assert a[0].ids == g[0].ids + [id];
      } else {
        assert a[0] == g[0];
      }
    }
  }

  /** Appending to one group adds exactly that id to the flattened report. */
  lemma AddRowFlatten(g: seq<Group>, tid: Id, id: Id)
    requires DistinctTids(g)
    ensures multiset(Flatten(AddRow(g, tid, id))) == multiset(Flatten(g)) + multiset{id}
  {
    AppendedFlatten(g, tid, id);
    FlattenAppend(Appended(g, tid, id), Group(tid, [id]));
  }

  /** The groups together hold each row's id exactly as often as the rows do. */
  lemma {:induction false} GroupRowsCount(rows: seq<Row>)
    ensures multiset(Flatten(GroupRows(rows))) == multiset(RowIds(rows))
    decreases |rows|
  {
    if rows != [] {
      var pre := rows[..|rows| - 1];
      var last := rows[|rows| - 1];
      assert GroupRows(rows) == AddRow(GroupRows(pre), last.tid, last.id);
      GroupRowsCount(pre);
      AddRowFlatten(GroupRows(pre), last.tid, last.id);
    }
  }

  /** Every group is non-empty. */
  lemma {:induction false} GroupRowsNonEmpty(rows: seq<Row>)
    ensures forall k :: 0 <= k < |GroupRows(rows)| ==> |GroupRows(rows)[k].ids| > 0
    decreases |rows|
  {
    if rows != [] {
      var pre := rows[..|rows| - 1];
      var last := rows[|rows| - 1];
      var g0 := GroupRows(pre);
      assert GroupRows(rows) == AddRow(g0, last.tid, last.id);
      GroupRowsNonEmpty(pre);
    }
  }

  /** Every id in a group is a row of that group's artist. */
  lemma {:induction false} GroupRowsMembers(rows: seq<Row>)
    ensures forall k, j :: 0 <= k < |GroupRows(rows)| && 0 <= j < |GroupRows(rows)[k].ids| ==>
              Row(GroupRows(rows)[k].ids[j], GroupRows(rows)[k].tid) in rows
    decreases |rows|
  {
    if rows != [] {
      var pre := rows[..|rows| - 1];
      var last := rows[|rows| - 1];
      var g0 := GroupRows(pre);
      var g := AddRow(g0, last.tid, last.id);
      assert GroupRows(rows) == g;
      assert rows == pre + [last];
      GroupRowsMembers(pre);
      forall k, j | 0 <= k < |g| && 0 <= j < |g[k].ids|
        ensures Row(g[k].ids[j], g[k].tid) in rows
      {
        if k < |g0| {
          var extra := if g0[k].tid == last.tid then [last.id] else [];
          assert g[k].ids == g0[k].ids + extra;
          if j < |g0[k].ids| {
            assert Row(g0[k].ids[j], g0[k].tid) in pre;
          } else {
            assert g[k].ids[j] == last.id && g[k].tid == last.tid;
          }
        } else {
          assert g[k] == Group(last.tid, [last.id]);
        }
      }
    }
  }

  // ---------------------------------------------------------------------
  // The report tree
  // ---------------------------------------------------------------------

  /** `x or ""` on a nullable text. */
  function Text(o: Option<string>): string
  {
    if o.Some? then o.value else ""
  }

  /** The `<cita>` element of appointment `id`. */
  function CitaNodeOf(id: Id, c: Cita): CitaNode
  {
    CitaNode(id, c.clienteId, FormatDate(c.fecha), FormatTime(c.horaInicio),
             FormatTime(c.horaFin), Text(c.descripcion))
  }

  /** A `<cita>` element carries its appointment's id and client, its date
      and times in the canonical forms that read back as the stored values,
      and its description, empty when there is none. */
  lemma CitaNodeReadsBack(id: Id, c: Cita)
    ensures var n := CitaNodeOf(id, c);
      && n.id == id && n.clienteId == c.clienteId
      && |n.fecha| == 10 && ' ' !in n.fecha && ParseDate(n.fecha) == Some(c.fecha)
      && |n.horaInicio| == 5 && ParseTime(n.horaInicio) == Some(c.horaInicio)
      && |n.horaFin| == 5 && ParseTime(n.horaFin) == Some(c.horaFin)
      && (c.descripcion.Some? ==> n.descripcion == c.descripcion.value)
      && (c.descripcion.None? ==> n.descripcion == "")
  {
    FormatThenParseDate(c.fecha);
    FormatThenParseTime(c.horaInicio);
    FormatThenParseTime(c.horaFin);
  }

  /** The `<tatuador>` element of one group: the artist's id, nombre and
      estilo (empty when null), a `<total_citas>` equal to the number of its
      `<cita>` children, and those children in the group's order. */
  function NodeOf(db: Db, g: Group): (r: TatuadorNode)
    requires g.tid in db.tatuadores
    requires forall j :: 0 <= j < |g.ids| ==> g.ids[j] in db.citas
    ensures r.id == g.tid
    ensures r.nombre == db.tatuadores[g.tid].nombre && r.estilo == Text(db.tatuadores[g.tid].estilo)
    ensures r.totalCitas == |r.citas| == |g.ids|
    ensures forall j :: 0 <= j < |r.citas| ==> r.citas[j].id == g.ids[j]
  {
    var t := db.tatuadores[g.tid];
    TatuadorNode(g.tid, t.nombre, Text(t.estilo), |g.ids|,
      seq(|g.ids|, j requires 0 <= j < |g.ids| => CitaNodeOf(g.ids[j], db.citas[g.ids[j]])))
  }

  function Nodes(db: Db, g: seq<Group>): seq<TatuadorNode>
    requires forall k :: 0 <= k < |g| ==> g[k].tid in db.tatuadores
    requires forall k, j :: 0 <= k < |g| && 0 <= j < |g[k].ids| ==> g[k].ids[j] in db.citas
  {
    if g == [] then [] else [NodeOf(db, g[0])] + Nodes(db, g[1..])
  }

  /** The ids of all `<cita>` elements, artist after artist. */
  function AllCitaIds(ns: seq<TatuadorNode>): seq<Id>
  {
    if ns == [] then [] else seq(|ns[0].citas|, j requires 0 <= j < |ns[0].citas| => ns[0].citas[j].id)
                              + AllCitaIds(ns[1..])
  }

  /** The sum of the `<total_citas>` of the artist nodes. */
  function SumTotals(ns: seq<TatuadorNode>): nat
  {
    if ns == [] then 0 else ns[0].totalCitas + SumTotals(ns[1..])
  }

  lemma {:induction false} NodesFlatten(db: Db, g: seq<Group>)
    requires forall k :: 0 <= k < |g| ==> g[k].tid in db.tatuadores
    requires forall k, j :: 0 <= k < |g| && 0 <= j < |g[k].ids| ==> g[k].ids[j] in db.citas
    ensures AllCitaIds(Nodes(db, g)) == Flatten(g)
    ensures SumTotals(Nodes(db, g)) == |Flatten(g)|
    decreases |g|
  {
    if g != [] {
      NodesFlatten(db, g[1..]);
      var ns := Nodes(db, g);
      assert ns[1..] == Nodes(db, g[1..]);
      assert seq(|ns[0].citas|, j requires 0 <= j < |ns[0].citas| => ns[0].citas[j].id) == g[0].ids;
    }
  }

  /** In a sequence without repetitions every element occurs once. */
  lemma {:induction false} DistinctOnce(s: seq<Id>, x: Id)
    requires forall i, j :: 0 <= i < j < |s| ==> s[i] != s[j]
    ensures multiset(s)[x] == if x in s then 1 else 0
    decreases |s|
  {
    if s != [] {
      var pre := s[..|s| - 1];
      assert s == pre + [s[|s| - 1]];
      DistinctOnce(pre, x);
      if x == s[|s| - 1] {
        assert x !in pre;
      }
    }
  }

  /** The rows the grouping loop reads: each appointment id with its artist. */
  function RowsOf(db: Db, ids: seq<Id>): seq<Row>
    requires forall i :: 0 <= i < |ids| ==> ids[i] in db.citas
    decreases |ids|
  {
    if ids == [] then []
    else RowsOf(db, ids[..|ids| - 1]) + [Row(ids[|ids| - 1], db.citas[ids[|ids| - 1]].tatuadorId)]
  }

  lemma {:induction false} RowsOfFacts(db: Db, ids: seq<Id>)
    requires forall i :: 0 <= i < |ids| ==> ids[i] in db.citas
    ensures RowIds(RowsOf(db, ids)) == ids
    ensures forall r :: r in RowsOf(db, ids) ==> r.id in db.citas && db.citas[r.id].tatuadorId == r.tid
    decreases |ids|
  {
    if ids != [] {
      var pre := ids[..|ids| - 1];
      RowsOfFacts(db, pre);
      var rows := RowsOf(db, ids);
      assert rows == RowsOf(db, pre) + [rows[|rows| - 1]];
      assert rows[..|rows| - 1] == RowsOf(db, pre);
      assert pre + [ids[|ids| - 1]] == ids;
    }
  }

  /** The groups built from a store's appointments: artists that exist, ids
      of appointments of that artist, no empty group, no artist twice. */
  ghost predicate WellGrouped(db: Db, g: seq<Group>)
  {
    && DistinctTids(g)
    && (forall k :: 0 <= k < |g| ==> g[k].tid in db.tatuadores && |g[k].ids| > 0)
    && (forall k, j :: 0 <= k < |g| && 0 <= j < |g[k].ids| ==>
          g[k].ids[j] in db.citas && db.citas[g[k].ids[j]].tatuadorId == g[k].tid)
  }

  lemma GroupsOfStore(db: Db, ids: seq<Id>)
    requires RefIntegrity(db)
    requires forall i :: 0 <= i < |ids| ==> ids[i] in db.citas
    ensures WellGrouped(db, GroupRows(RowsOf(db, ids)))
    ensures multiset(Flatten(GroupRows(RowsOf(db, ids)))) == multiset(ids)
  {
    var rows := RowsOf(db, ids);
    var g := GroupRows(rows);
    RowsOfFacts(db, ids);
    GroupRowsCount(rows);
    GroupRowsNonEmpty(rows);
    GroupRowsMembers(rows);
    forall k | 0 <= k < |g| ensures g[k].tid in db.tatuadores {
      assert Row(g[k].ids[0], g[k].tid) in rows;
    }
  }

  /** What each artist node of the report says. */
  lemma NodesFacts(db: Db, g: seq<Group>)
    requires WellGrouped(db, g)
    ensures var ns := Nodes(db, g);
      && (forall a, b :: 0 <= a < b < |ns| ==> ns[a].id != ns[b].id)
      && (forall k :: 0 <= k < |ns| ==>
            && ns[k].totalCitas == |ns[k].citas| > 0
            && ns[k].id in db.tatuadores
            && ns[k].nombre == db.tatuadores[ns[k].id].nombre
            && ns[k].estilo == Text(db.tatuadores[ns[k].id].estilo))
      && (forall k, j :: 0 <= k < |ns| && 0 <= j < |ns[k].citas| ==>
            && ns[k].citas[j].id in db.citas
            && db.citas[ns[k].citas[j].id].tatuadorId == ns[k].id
            && ns[k].citas[j] == CitaNodeOf(ns[k].citas[j].id, db.citas[ns[k].citas[j].id]))
  {
    NodesShape(db, g);
  }

  /** The report. Every appointment of the store appears exactly once, under
      the node of its own artist; only artists with appointments get a node,
      each at most once; the grand total is the number of appointments and the
      sum of the per-artist totals. */
  method Export(db: Db) returns (rep: Reporte)
    requires RefIntegrity(db)
    ensures rep.totalGeneral == |db.citas|
    ensures SumTotals(rep.tatuadores) == rep.totalGeneral
    ensures forall a, b :: 0 <= a < b < |rep.tatuadores| ==>
              rep.tatuadores[a].id != rep.tatuadores[b].id
    ensures forall k :: 0 <= k < |rep.tatuadores| ==>
              && rep.tatuadores[k].totalCitas == |rep.tatuadores[k].citas| > 0
              && rep.tatuadores[k].id in db.tatuadores
              && rep.tatuadores[k].nombre == db.tatuadores[rep.tatuadores[k].id].nombre
              && rep.tatuadores[k].estilo == Text(db.tatuadores[rep.tatuadores[k].id].estilo)
    ensures forall k, j :: 0 <= k < |rep.tatuadores| && 0 <= j < |rep.tatuadores[k].citas| ==>
              var c := rep.tatuadores[k].citas[j];
              && c.id in db.citas
              && db.citas[c.id].tatuadorId == rep.tatuadores[k].id
              && c == CitaNodeOf(c.id, db.citas[c.id])
    ensures forall id :: id in db.citas ==> multiset(AllCitaIds(rep.tatuadores))[id] == 1
    ensures forall id :: id in AllCitaIds(rep.tatuadores) ==> id in db.citas
  {
    var ids := Enumerate(db.citas);
    var groups := GroupRows(RowsOf(db, ids));
    GroupsOfStore(db, ids);
    NodesFacts(db, groups);
    NodesFlatten(db, groups);
    rep := Reporte(|ids|, Nodes(db, groups));
    forall id | id in db.citas
      ensures multiset(AllCitaIds(rep.tatuadores))[id] == 1
    {
      DistinctOnce(ids, id);
    }
    forall id | id in AllCitaIds(rep.tatuadores) ensures id in db.citas {
      assert id in multiset(ids);
    }
    assert |multiset(ids)| == |ids|;
  }

  /** Each node shows its group: artist attributes, count and appointments. */
  lemma {:induction false} NodesShape(db: Db, g: seq<Group>)
    requires forall k :: 0 <= k < |g| ==> g[k].tid in db.tatuadores
    requires forall k, j :: 0 <= k < |g| && 0 <= j < |g[k].ids| ==> g[k].ids[j] in db.citas
    ensures |Nodes(db, g)| == |g|
    ensures forall k :: 0 <= k < |g| ==> Nodes(db, g)[k] == NodeOf(db, g[k])
    decreases |g|
  {
    if g != [] {
      NodesShape(db, g[1..]);
      var ns := Nodes(db, g);
      forall k | 0 <= k < |g| ensures ns[k] == NodeOf(db, g[k]) {
        if k > 0 { assert ns[k] == Nodes(db, g[1..])[k - 1]; assert g[1..][k - 1] == g[k]; }
      }
    }
  }
}
