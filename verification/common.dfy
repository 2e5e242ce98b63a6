/** Vocabulary shared by every part of the appointment book: optional values,
    the three states of a key in a JSON request body, the outcomes a route
    answers with, and the enumeration of a table in query order. */
module Common {

  /** Primary keys of every table. */
  type Id = nat

  /** A nullable column or a nullable Python value. */
  datatype Option<+T> = None | Some(value: T)

  /** One key of a JSON request body: missing from the object, present with
      `null`, or present with a value. The routes tell these apart with
      `k in data`, `data[k]`, `data.get(k)` and `data.get(k, default)`. */
  datatype Json<+T> = Absent | Null | Val(v: T)

  /** `data.get(k)`: the value, or None when the key is missing or null. */
  function Get<T>(j: Json<T>): Option<T>
  {
    if j.Val? then Some(j.v) else None
  }

  /** `data.get(k, default)`: a missing key yields the default, a null yields None. */
  function GetOr<T>(j: Json<T>, default: Option<T>): Option<T>
  {
    match j
    case Absent => default
    case Null => None
    case Val(v) => Some(v)
  }

  /** What a route answers. `Unhandled` stands for an exception that escapes
      the handler (a KeyError, a failed `strptime`, an integrity error that is
      not caught): the framework answers with a server error and the session is
      discarded, so nothing is committed. */
  datatype Outcome =
    | Created(id: Id)
    | Updated
    | Deleted
    | NotJson
    | MissingFields(fields: seq<string>)
    | NotFound
    | EmailTaken
    | Overlapping
    | Unhandled

  /** The HTTP status code of each outcome. */
  function Status(o: Outcome): int
  {
    match o
    case Created(_) => 201
    case Updated => 200
    case Deleted => 200
    case NotJson => 400
    case MissingFields(_) => 400
    case NotFound => 404
    case EmailTaken => 409
    case Overlapping => 409
    case Unhandled => 500
  }

  /** Every key of `m` exactly once, as `Model.query.all()` returns the rows of
      a table. The order is the database's and is left unspecified. */
  method Enumerate<V>(m: map<Id, V>) returns (ids: seq<Id>)
    ensures |ids| == |m|
    ensures forall i :: 0 <= i < |ids| ==> ids[i] in m
    ensures forall k :: k in m ==> k in ids
    ensures forall i, j :: 0 <= i < j < |ids| ==> ids[i] != ids[j]
  {
    var rest := m.Keys;
    ids := [];
    while rest != {}
      invariant rest <= m.Keys
      invariant forall i :: 0 <= i < |ids| ==> ids[i] in m && ids[i] !in rest
      invariant forall k :: k in m ==> k in rest || k in ids
      invariant forall i, j :: 0 <= i < j < |ids| ==> ids[i] != ids[j]
      invariant |ids| + |rest| == |m.Keys|
      decreases |rest|
    {
      var k :| k in rest;
      ids := ids + [k];
      rest := rest - {k};
    }
  }
}
