/** `markAttendance` (backend/controllers/attendanceController.js): validate the
    three fields, refuse a triple already recorded, otherwise save a new record and
    reply with it and the photo of the user with that email. */
module AttendanceController {
  import opened Wrappers
  import UserModel
  import opened AttendanceModel

  /** What the handler sends. `NoResponse` is a handler that throws before replying:
      the save fails, or no user has the email so `photo.photo` reads a property of null. */
  datatype MarkResponse =
    | BadRequest(message: string)
    | Conflict(message: string)
    | Created(message: string, record: Attendance, photo_url: string)
    | NoResponse

  /** The HTTP status of a reply; none when nothing is sent. */
  function StatusOf(r: MarkResponse): Option<int> {
    match r
    case BadRequest(_) => Some(400)
    case Conflict(_) => Some(409)
    case Created(_, _, _) => Some(201)
    case NoResponse => None
  }

  /** The reply and the attendance rows after one call, on attendance rows `rows` and
      user rows `users`; `id` and `now` are the new record's `_id` and clock reading. */
  function Mark(rows: seq<Attendance>, users: seq<UserModel.User>, email: string, day: string, session: string,
                id: string, now: int): (out: (MarkResponse, seq<Attendance>))
    ensures (email == "" || day == "" || session == "") <==> out.0 == BadRequest("All fields required")
    ensures out.0.BadRequest? ==> out.1 == rows
    ensures out.0 == Conflict("Already marked") <==>
      email != "" && day != "" && session != "" && HasTriple(rows, email, day, session)
    ensures out.0.Conflict? ==> out.1 == rows
    ensures out.1 == rows || out.1 == rows + [Attendance(id, email, day, session, now)]
    ensures out.1 != rows <==>
      email != "" && day != "" && session != "" && !HasTriple(rows, email, day, session)
      && forall j :: 0 <= j < |rows| ==> rows[j].id != id
    ensures out.0.Created? <==> out.1 != rows && UserModel.FindByEmail(users, email).Some?
    ensures out.0.Created? ==>
      && out.0.record == Attendance(id, email, day, session, now)
      && out.0.photo_url == UserModel.FindByEmail(users, email).value.photo
    ensures TriplesUnique(rows) ==> TriplesUnique(out.1)
    ensures IdsUnique(rows) ==> IdsUnique(out.1)
  {
    if email == "" || day == "" || session == "" then (BadRequest("All fields required"), rows)
    else if FindTriple(rows, email, day, session).Some? then (Conflict("Already marked"), rows)
    else
      var rec := Attendance(id, email, day, session, now);
      var photo := UserModel.FindByEmail(users, email);
      if SaveConflict(rows, rec).Some? then (NoResponse, rows)
      else
        assert forall i :: 0 <= i < |rows| ==> (rows + [rec])[i] == rows[i];
        if photo.None? then (NoResponse, rows + [rec])
        else (Created("Attendance marked", rec, photo.value.photo), rows + [rec])
  }

  /** A user row carries the photo the reply names when its email is unique. */
  lemma PhotoOfTheUser(rows: seq<Attendance>, users: seq<UserModel.User>, k: nat, day: string, session: string,
                       id: string, now: int)
    requires UserModel.EmailsUnique(users) && k < |users|
    requires Mark(rows, users, users[k].email, day, session, id, now).0.Created?
    ensures Mark(rows, users, users[k].email, day, session, id, now).0.photo_url == users[k].photo
  {
    UserModel.FindByEmailUnique(users, k);
  }

  /** Marking a triple twice: whatever the second call's id and time, it is refused
      with 409 and leaves the rows as the first call left them, which hold the triple
      exactly once when the rows started with at most one per triple. */
  lemma {:induction false} MarkTwice(rows: seq<Attendance>, users: seq<UserModel.User>, email: string, day: string,
                                      session: string, id1: string, now1: int, id2: string, now2: int)
    requires email != "" && day != "" && session != ""
    requires forall j :: 0 <= j < |rows| ==> rows[j].id != id1
    ensures var t := Mark(rows, users, email, day, session, id1, now1).1;
      && HasTriple(t, email, day, session)
      && Mark(t, users, email, day, session, id2, now2) == (Conflict("Already marked"), t)
      && (TriplesUnique(rows) ==> TriplesUnique(t))
  {
    var t := Mark(rows, users, email, day, session, id1, now1).1;
    if !HasTriple(rows, email, day, session) {
      assert t == rows + [Attendance(id1, email, day, session, now1)];
      assert IsTriple(t[|rows|], email, day, session);
    }
  }

  /** A record of another day or session for the same email is no duplicate: the
      call appends a row just as it would on a table without that record. */
  lemma OtherSessionIsNoDuplicate(rows: seq<Attendance>, users: seq<UserModel.User>, email: string, day: string,
                                  session: string, other: string, id1: string, now1: int, id2: string, now2: int)
    requires email != "" && day != "" && session != "" && other != "" && other != session
    requires !HasTriple(rows, email, day, other)
    requires forall j :: 0 <= j < |rows| ==> rows[j].id != id1 && rows[j].id != id2
    requires id1 != id2
    ensures var t := Mark(rows, users, email, day, session, id1, now1).1;
      Mark(t, users, email, day, other, id2, now2).1 == t + [Attendance(id2, email, day, other, now2)]
  {
    var t := Mark(rows, users, email, day, session, id1, now1).1;
    assert forall j :: 0 <= j < |t| ==> !IsTriple(t[j], email, day, other) by {
      if t != rows {
        assert t == rows + [Attendance(id1, email, day, session, now1)];
        assert forall j :: 0 <= j < |rows| ==> t[j] == rows[j];
      }
    }
    assert forall j :: 0 <= j < |t| ==> t[j].id != id2 by {
      if t != rows {
        assert forall j :: 0 <= j < |rows| ==> t[j] == rows[j];
      }
    }
  }

  /** The handler itself: the triple lookup, the user lookup, then the save. */
  method MarkAttendance(table: Attendances, users: UserModel.Users, email: string, day: string, session: string,
                        id: string, now: int) returns (resp: MarkResponse)
    requires table.Valid()
    modifies table
    ensures table.Valid()
    ensures (resp, table.rows) == Mark(old(table.rows), users.rows, email, day, session, id, now)
  {
    if email == "" || day == "" || session == "" {
      return BadRequest("All fields required");
    }
    var found := FindTriple(table.rows, email, day, session);
    if found.Some? {
      return Conflict("Already marked");
    }
    var rec := Attendance(id, email, day, session, now);
    var photo := UserModel.FindByEmail(users.rows, email);
    var err := table.Save(rec);
    if err.Some? || photo.None? {
      return NoResponse;
    }
    return Created("Attendance marked", rec, photo.value.photo);
  }
}
