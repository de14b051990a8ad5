/** The group-leader endpoints (backend/controllers/leader.controller.js) over the
    leaders table and the users table: log-in by email, the leader's group list,
    setting a payment status, and deleting a user. */
module LeaderController {
  import opened Wrappers
  import opened Seqs
  import opened Sorting
  import opened UserModel

  /** A row of the leaders table; its email is a unique key. */
  datatype Leader = Leader(email: string, group: string)

  predicate LeaderEmailsUnique(leaders: seq<Leader>) {
    forall i, j :: 0 <= i < j < |leaders| ==> leaders[i].email != leaders[j].email
  }

  /** `leaders.findUnique({ where: { email } })`. */
  function FindLeader(leaders: seq<Leader>, email: string): (r: Option<Leader>)
    ensures r.Some? ==> r.value in leaders && r.value.email == email
    ensures r.None? <==> forall i :: 0 <= i < |leaders| ==> leaders[i].email != email
  {
    if leaders == [] then None
    else if leaders[0].email == email then Some(leaders[0])
    else FindLeader(leaders[1..], email)
  }

  /** A value read from a JSON request body. */
  datatype Json = Missing | Null | Bool(b: bool) | Str(s: string) | Other

  /** A reply: 200 with data, 400 with a message, 401, or 500. */
  datatype Reply<T> = Ok(data: T) | BadRequest(error: string) | Unauthorized | ServerError

  function StatusOf<T>(r: Reply<T>): int {
    match r
    case Ok(_) => 200
    case BadRequest(_) => 400
    case Unauthorized => 401
    case ServerError => 500
  }

  /** `leaderEmail`: the leader with the body's email, 401 when there is none.
      A missing, null or non-string email makes the lookup throw, hence 500. */
  function LeaderEmail(leaders: seq<Leader>, email: Json): (r: Reply<Leader>)
    ensures r.Ok? <==> email.Str? && exists i :: 0 <= i < |leaders| && leaders[i].email == email.s
    ensures r.Ok? ==> r.data in leaders && r.data.email == email.s
    ensures r.Unauthorized? <==> email.Str? && forall i :: 0 <= i < |leaders| ==> leaders[i].email != email.s
    ensures r.ServerError? <==> !email.Str?
  {
    if !email.Str? then ServerError
    else match FindLeader(leaders, email.s)
      case None => Unauthorized
      case Some(l) => Ok(l)
  }

  /** With unique leader emails the log-in returns the one leader with that email. */
  lemma LeaderEmailFindsTheLeader(leaders: seq<Leader>, k: nat)
    requires LeaderEmailsUnique(leaders) && k < |leaders|
    ensures LeaderEmail(leaders, Str(leaders[k].email)) == Ok(leaders[k])
  {
    var r := LeaderEmail(leaders, Str(leaders[k].email));
    var i :| 0 <= i < |leaders| && leaders[i] == r.data;
  }

  /** The fields `groupData` selects; `createdAt`, dob, photo, qr and reference are not among them. */
  datatype GroupRow = GroupRow(
    id: string,
    first_name: string,
    middle_name: Option<string>,
    last_name: string,
    address: string,
    group: string,
    email: string,
    phone: string,
    city: Option<string>,
    payment_status: bool)

  function GroupRowOf(u: User): GroupRow {
    GroupRow(u.id, u.first_name, u.middle_name, u.last_name, u.address, u.group, u.email, u.phone,
             u.city, u.payment_status)
  }

  /** `orderBy: { createdAt: "desc" }`. */
  predicate UserNewestFirst(a: User, b: User) {
    a.createdAt >= b.createdAt
  }

  /** The users of a group, newest first: exactly the users whose group is `group`,
      each as often as it is stored. */
  function GroupMembers(users: seq<User>, group: string): (r: seq<User>)
    ensures SortedBy(r, UserNewestFirst)
    ensures multiset(r) == multiset(Filter(users, (u: User) => u.group == group))
  {
    var sel := Filter(users, (u: User) => u.group == group);
    assert TotalPreorder(UserNewestFirst);
    SortSorted(sel, UserNewestFirst);
    Sort(sel, UserNewestFirst)
  }

  /** The members listed are exactly the stored users of that group. */
  lemma GroupMembersAreTheGroup(users: seq<User>, group: string)
    ensures forall i :: 0 <= i < |GroupMembers(users, group)| ==>
      GroupMembers(users, group)[i].group == group && GroupMembers(users, group)[i] in users
    ensures forall i :: 0 <= i < |users| && users[i].group == group ==> users[i] in GroupMembers(users, group)
  {
    var r := GroupMembers(users, group);
    var sel := Filter(users, (u: User) => u.group == group);
    forall x ensures x in r <==> x in sel {
      assert x in r <==> x in multiset(r);
    }
    forall i | 0 <= i < |r| ensures r[i].group == group && r[i] in users {
      assert r[i] in sel;
      var k :| 0 <= k < |sel| && sel[k] == r[i];
    }
  }

  /** `groupData` for the `:email` route parameter. */
  function GroupData(leaders: seq<Leader>, users: seq<User>, email: string): (r: Reply<seq<GroupRow>>)
    ensures email == "" <==> r == BadRequest("Email is required")
    ensures r == Unauthorized <==> email != "" && FindLeader(leaders, email).None?
    ensures r.Ok? <==> email != "" && FindLeader(leaders, email).Some?
    ensures r.Ok? ==> r.data == Map(GroupMembers(users, FindLeader(leaders, email).value.group), GroupRowOf)
  {
    if email == "" then BadRequest("Email is required")
    else match FindLeader(leaders, email)
      case None => Unauthorized
      case Some(l) => Ok(Map(GroupMembers(users, l.group), GroupRowOf))
  }

  /** A leader sees every user of their group and nobody from another group. */
  lemma GroupDataIsTheGroup(leaders: seq<Leader>, users: seq<User>, k: nat)
    requires LeaderEmailsUnique(leaders) && k < |leaders| && leaders[k].email != ""
    ensures var r := GroupData(leaders, users, leaders[k].email);
      && r.Ok?
      && (forall i :: 0 <= i < |users| && users[i].group == leaders[k].group ==> GroupRowOf(users[i]) in r.data)
      && (forall i :: 0 <= i < |r.data| ==> r.data[i].group == leaders[k].group)
  {
    var l := FindLeader(leaders, leaders[k].email);
    var j :| 0 <= j < |leaders| && leaders[j] == l.value;
    var members := GroupMembers(users, leaders[k].group);
    GroupMembersAreTheGroup(users, leaders[k].group);
    var data := Map(members, GroupRowOf);
    forall i | 0 <= i < |users| && users[i].group == leaders[k].group ensures GroupRowOf(users[i]) in data {
      var m :| 0 <= m < |members| && members[m] == users[i];
      assert data[m] == GroupRowOf(users[i]);
    }
  }

  /** `paymentDone` on the user rows, for the body's `payment_status` and `id`: the
      reply and the rows afterwards. Only null and undefined count as missing; a
      non-boolean status or a non-string id fails validation in the store (500). */
  function PaymentDone(rows: seq<User>, status: Json, id: Json): (out: (Reply<User>, seq<User>))
    ensures (status.Missing? || status.Null?) <==> out.0 == BadRequest("Pyament status is required")
    ensures !out.0.Ok? ==> out.1 == rows
    ensures out.0.Ok? <==> status.Bool? && id.Str? && IndexOfId(rows, id.s).Some?
    ensures out.0.Ok? ==> var k := IndexOfId(rows, id.s).value;
      && out.1 == WithPaymentStatus(rows, k, status.b)
      && out.0.data == rows[k].(payment_status := status.b)
  {
    if status.Missing? || status.Null? then (BadRequest("Pyament status is required"), rows)
    else if !status.Bool? || !id.Str? then (ServerError, rows)
    else match IndexOfId(rows, id.s)
      case None => (ServerError, rows)
      case Some(k) =>
        var t := WithPaymentStatus(rows, k, status.b);
        (Ok(t[k]), t)
  }

  /** Setting a status touches one row and one field: with unique ids, the row with
      that id gets exactly the new status, in particular `false`, and every other row
      is as it was. */
  lemma PaymentDoneChangesOneField(rows: seq<User>, k: nat, b: bool)
    requires IdsUnique(rows) && k < |rows|
    ensures var (reply, t) := PaymentDone(rows, Bool(b), Str(rows[k].id));
      && reply == Ok(rows[k].(payment_status := b))
      && |t| == |rows| && t[k] == rows[k].(payment_status := b)
      && forall j :: 0 <= j < |rows| && j != k ==> t[j] == rows[j]
  {
  }

  /** `deleteUser` for the `:id` route parameter: the reply (`deletedId`) and the
      rows afterwards. */
  function DeleteUser(rows: seq<User>, id: string): (out: (Reply<string>, seq<User>))
    ensures id == "" <==> out.0 == BadRequest("Id is required")
    ensures out.0 == ServerError <==> id != "" && IndexOfId(rows, id).None?
    ensures !out.0.Ok? ==> out.1 == rows
    ensures out.0.Ok? ==> out.0.data == id && out.1 == WithoutRow(rows, IndexOfId(rows, id).value)
  {
    if id == "" then (BadRequest("Id is required"), rows)
    else match IndexOfId(rows, id)
      case None => (ServerError, rows)
      case Some(k) => (Ok(id), WithoutRow(rows, k))
  }

  /** A successful delete removes exactly the user with that id: the rows left are
      the other rows, in their order, and with unique ids none of them has that id. */
  lemma DeleteUserRemovesOnlyThatUser(rows: seq<User>, id: string)
    requires IdsUnique(rows) && DeleteUser(rows, id).0.Ok?
    ensures var t := DeleteUser(rows, id).1;
      && |t| == |rows| - 1
      && (forall j :: 0 <= j < |t| ==> t[j].id != id)
      && (forall j :: 0 <= j < |rows| && rows[j].id != id ==> rows[j] in t)
  {
    var k := IndexOfId(rows, id).value;
    var t := DeleteUser(rows, id).1;
    forall j | 0 <= j < |rows| && rows[j].id != id ensures rows[j] in t {
      if j < k {
        assert t[j] == rows[j];
      } else {
        assert t[j - 1] == rows[j];
      }
    }
  }

  /** The handlers that change the users table. */
  method HandlePaymentDone(users: Users, status: Json, id: Json) returns (r: Reply<User>)
    requires users.Valid()
    modifies users
    ensures users.Valid()
    ensures (r, users.rows) == PaymentDone(old(users.rows), status, id)
  {
    if status.Missing? || status.Null? {
      return BadRequest("Pyament status is required");
    }
    if !status.Bool? || !id.Str? {
      return ServerError;
    }
    var changed := users.UpdatePaymentStatus(id.s, status.b);
    if changed.None? {
      return ServerError;
    }
    return Ok(changed.value);
  }

  method HandleDeleteUser(users: Users, id: string) returns (r: Reply<string>)
    requires users.Valid()
    modifies users
    ensures users.Valid()
    ensures (r, users.rows) == DeleteUser(old(users.rows), id)
  {
    if id == "" {
      return BadRequest("Id is required");
    }
    var deleted := users.DeleteById(id);
    if deleted.None? {
      return ServerError;
    }
    return Ok(deleted.value);
  }
}
