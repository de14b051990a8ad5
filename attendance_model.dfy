/** The attendance table (backend/models/Attendance.js): one row per scan, with
    `email`, `day` and `session` required and `timestamp` set from the clock.
    The schema declares no unique index on (email, day, session). */
module AttendanceModel {
  import opened Wrappers

  datatype Attendance = Attendance(id: string, email: string, day: string, session: string, timestamp: int)

  /** `a` is a record of this (email, day, session). */
  predicate IsTriple(a: Attendance, email: string, day: string, session: string) {
    a.email == email && a.day == day && a.session == session
  }

  /** Some row records this (email, day, session). */
  predicate HasTriple(rows: seq<Attendance>, email: string, day: string, session: string) {
    exists i :: 0 <= i < |rows| && IsTriple(rows[i], email, day, session)
  }

  /** At most one row per (email, day, session). */
  predicate TriplesUnique(rows: seq<Attendance>) {
    forall i, j :: 0 <= i < j < |rows| ==> !IsTriple(rows[j], rows[i].email, rows[i].day, rows[i].session)
  }

  /** No two rows share an `_id`. */
  predicate IdsUnique(rows: seq<Attendance>) {
    forall i, j :: 0 <= i < j < |rows| ==> rows[i].id != rows[j].id
  }

  /** `findOne({ email, day, session })`: the first row of the triple. */
  function FindTriple(rows: seq<Attendance>, email: string, day: string, session: string): (r: Option<Attendance>)
    ensures r.Some? <==> HasTriple(rows, email, day, session)
    ensures r.Some? ==> r.value in rows && IsTriple(r.value, email, day, session)
  {
    if rows == [] then None
    else if IsTriple(rows[0], email, day, session) then Some(rows[0])
    else
      var r := FindTriple(rows[1..], email, day, session);
      assert forall i :: 1 <= i < |rows| ==> rows[i] == rows[1..][i - 1];
      r
  }

  /** The paths a save reports as missing: the required validator of a string path
      refuses the empty string. Listed in declaration order. */
  function MissingPaths(email: string, day: string, session: string): (r: seq<string>)
    ensures ("email" in r <==> email == "") && ("day" in r <==> day == "") && ("session" in r <==> session == "")
    ensures r == [] <==> email != "" && day != "" && session != ""
  {
    (if email == "" then ["email"] else []) + (if day == "" then ["day"] else [])
      + (if session == "" then ["session"] else [])
  }

  /** Why `save` rejects a record. */
  datatype SaveError = ValidationError(paths: seq<string>) | DuplicateKey(field: string)

  /** The error saving this record into `rows` meets, if any: validation first,
      then the `_id` index. No other index exists. */
  function SaveConflict(rows: seq<Attendance>, a: Attendance): (r: Option<SaveError>)
    ensures r.None? <==> MissingPaths(a.email, a.day, a.session) == [] && forall j :: 0 <= j < |rows| ==> rows[j].id != a.id
  {
    var missing := MissingPaths(a.email, a.day, a.session);
    if missing != [] then Some(ValidationError(missing))
    else if exists j :: 0 <= j < |rows| && rows[j].id == a.id then Some(DuplicateKey("_id"))
    else None
  }

  /** Nothing in the schema keeps a second record of a triple out: a record with
      a fresh id and the required fields is accepted whatever the table holds. */
  lemma SchemaAdmitsDuplicateTriple(rows: seq<Attendance>, k: nat, id: string, now: int)
    requires k < |rows| && rows[k].email != "" && rows[k].day != "" && rows[k].session != ""
    requires forall j :: 0 <= j < |rows| ==> rows[j].id != id
    ensures SaveConflict(rows, Attendance(id, rows[k].email, rows[k].day, rows[k].session, now)).None?
    ensures !TriplesUnique(rows + [Attendance(id, rows[k].email, rows[k].day, rows[k].session, now)])
  {
    var t := rows + [Attendance(id, rows[k].email, rows[k].day, rows[k].session, now)];
    assert t[k] == rows[k];
    assert IsTriple(t[|rows|], t[k].email, t[k].day, t[k].session);
  }

  /** The attendance collection, held in storage order. */
  class Attendances {
    var rows: seq<Attendance>

    ghost predicate Valid()
      reads this
    {
      IdsUnique(rows)
    }

    constructor ()
      ensures Valid() && rows == []
    {
      rows := [];
    }

    /** `record.save()` for `new Attendance({ email, day, session })`, stamped `now`. */
    method Save(a: Attendance) returns (r: Option<SaveError>)
      requires Valid()
      modifies this
      ensures Valid()
      ensures r == SaveConflict(old(rows), a)
      ensures r.Some? ==> rows == old(rows)
      ensures r.None? ==> rows == old(rows) + [a]
    {
      r := SaveConflict(rows, a);
      if r.None? {
        rows := rows + [a];
      }
    }
  }
}
