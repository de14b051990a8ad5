/** The users table: the record a registration stores (backend/models/User.js, joined
    with the columns the leader endpoints read through Prisma), the projection that
    leaves out the QR filename, and the store operations the controllers call on it.
    Email and `_id` are unique indexes; nothing else is. */
module UserModel {
  import opened Wrappers

  /** A registered participant. `photo` and `qr` are filenames in the upload
      directory, not image data; `createdAt` is set from the clock when the row is saved. */
  datatype User = User(
    id: string,
    first_name: string,
    middle_name: Option<string>,
    last_name: string,
    dob: string,
    email: string,
    phone: string,
    address: string,
    city: Option<string>,
    photo: string,
    qr: string,
    reference: string,
    group: string,
    payment_status: bool,
    createdAt: int)

  /** A user as `select('-qr')` returns it: every field except `qr`. */
  datatype PublicUser = PublicUser(
    id: string,
    first_name: string,
    middle_name: Option<string>,
    last_name: string,
    dob: string,
    email: string,
    phone: string,
    address: string,
    city: Option<string>,
    photo: string,
    reference: string,
    group: string,
    payment_status: bool,
    createdAt: int)

  function Public(u: User): PublicUser {
    PublicUser(u.id, u.first_name, u.middle_name, u.last_name, u.dob, u.email, u.phone,
               u.address, u.city, u.photo, u.reference, u.group, u.payment_status, u.createdAt)
  }

  /** The fields a registration supplies; `occupation` and `qualification` are not
      among them because the schema does not declare them. */
  datatype NewUser = NewUser(
    first_name: string,
    last_name: string,
    dob: string,
    email: string,
    phone: string,
    address: string,
    photo: string,
    qr: string,
    reference: string,
    group: string)

  /** No two rows share an email (the unique index on `email`). */
  predicate EmailsUnique(rows: seq<User>) {
    forall i, j :: 0 <= i < j < |rows| ==> rows[i].email != rows[j].email
  }

  /** No two rows share an id (the primary key). */
  predicate IdsUnique(rows: seq<User>) {
    forall i, j :: 0 <= i < j < |rows| ==> rows[i].id != rows[j].id
  }

  /** The position of the first row with this id. */
  function IndexOfId(rows: seq<User>, id: string): (r: Option<nat>)
    ensures r.Some? ==> r.value < |rows| && rows[r.value].id == id
    ensures r.Some? ==> forall j :: 0 <= j < r.value ==> rows[j].id != id
    ensures r.None? ==> forall j :: 0 <= j < |rows| ==> rows[j].id != id
  {
    if rows == [] then None
    else if rows[0].id == id then Some(0)
    else match IndexOfId(rows[1..], id)
      case None => None
      case Some(k) => Some(k + 1)
  }

  /** `findOne({ email })`: the first row whose email is exactly `email`. */
  function FindByEmail(rows: seq<User>, email: string): (r: Option<User>)
    ensures r.Some? ==> r.value in rows && r.value.email == email
    ensures r.None? ==> forall j :: 0 <= j < |rows| ==> rows[j].email != email
  {
    if rows == [] then None
    else if rows[0].email == email then Some(rows[0])
    else FindByEmail(rows[1..], email)
  }

  /** With unique emails the first match is the only one. */
  lemma FindByEmailUnique(rows: seq<User>, k: nat)
    requires EmailsUnique(rows) && k < |rows|
    ensures FindByEmail(rows, rows[k].email) == Some(rows[k])
  {
    var r := FindByEmail(rows, rows[k].email);
    var j :| 0 <= j < |rows| && rows[j] == r.value;
  }

  /** Why a save is refused: MongoDB's duplicate-key error (code 11000), naming the
      first key of the index that clashed (its `keyPattern`), or Mongoose's cast
      error for a path whose value it cannot convert to the schema type. */
  datatype SaveError = DuplicateKey(field: string) | CastError(path: string)

  /** The error a save of a row with this id and email meets, if any. The `_id`
      index is consulted before the `email` index. */
  function SaveConflict(rows: seq<User>, id: string, email: string): (r: Option<SaveError>)
    ensures r == Some(DuplicateKey("_id")) <==> exists j :: 0 <= j < |rows| && rows[j].id == id
    ensures r == Some(DuplicateKey("email")) <==>
      (forall j :: 0 <= j < |rows| ==> rows[j].id != id) && exists j :: 0 <= j < |rows| && rows[j].email == email
    ensures r.None? <==> forall j :: 0 <= j < |rows| ==> rows[j].id != id && rows[j].email != email
    ensures r.Some? ==> r.value.DuplicateKey?
  {
    if IndexOfId(rows, id).Some? then Some(DuplicateKey("_id"))
    else if FindByEmail(rows, email).Some? then Some(DuplicateKey("email"))
    else None
  }

  /** The error `save()` meets, if any. The schema declares `dob: Date`, so the
      document is validated first: `dobCasts` is whether Mongoose can cast the `dob`
      text to a Date (the empty string casts to null; text that `new Date` cannot
      read, such as "null" or "abc", does not cast). Only a document that passes
      validation reaches the unique indexes. */
  function SaveRefusal(rows: seq<User>, id: string, email: string, dobCasts: bool): (r: Option<SaveError>)
    ensures r == Some(CastError("dob")) <==> !dobCasts
    ensures dobCasts ==> r == SaveConflict(rows, id, email)
    ensures r.None? <==> dobCasts && forall j :: 0 <= j < |rows| ==> rows[j].id != id && rows[j].email != email
  {
    if !dobCasts then Some(CastError("dob")) else SaveConflict(rows, id, email)
  }

  /** The row a successful save appends: the supplied fields, no middle name or city,
      `payment_status` false and `createdAt` the current time. */
  function NewRow(id: string, d: NewUser, now: int): User {
    User(id, d.first_name, None, d.last_name, d.dob, d.email, d.phone, d.address, None,
         d.photo, d.qr, d.reference, d.group, false, now)
  }

  /** The rows with only `payment_status` of row `k` replaced. */
  function WithPaymentStatus(rows: seq<User>, k: nat, status: bool): (r: seq<User>)
    requires k < |rows|
    ensures |r| == |rows| && r[k].payment_status == status
    ensures r[k] == rows[k].(payment_status := status)
    ensures forall j :: 0 <= j < |rows| && j != k ==> r[j] == rows[j]
    ensures EmailsUnique(rows) ==> EmailsUnique(r)
    ensures IdsUnique(rows) ==> IdsUnique(r)
  {
    rows[k := rows[k].(payment_status := status)]
  }

  /** The rows without row `k`, the others in their order. */
  function WithoutRow(rows: seq<User>, k: nat): (r: seq<User>)
    requires k < |rows|
    ensures |r| == |rows| - 1
    ensures forall j :: 0 <= j < k ==> r[j] == rows[j]
    ensures forall j :: k <= j < |r| ==> r[j] == rows[j + 1]
    ensures multiset(r) + multiset{rows[k]} == multiset(rows)
    ensures IdsUnique(rows) ==> IdsUnique(r) && forall j :: 0 <= j < |r| ==> r[j].id != rows[k].id
    ensures EmailsUnique(rows) ==> EmailsUnique(r)
  {
    assert rows == rows[..k] + [rows[k]] + rows[k + 1..];
    rows[..k] + rows[k + 1..]
  }

  /** The users collection, held in storage order. */
  class Users {
    var rows: seq<User>

    ghost predicate Valid()
      reads this
    {
      EmailsUnique(rows) && IdsUnique(rows)
    }

    constructor ()
      ensures Valid() && rows == []
    {
      rows := [];
    }

    /** `new User({...}).save()`: appends the row unless the `dob` cast or an id or
        email index refuses it. */
    method Save(id: string, d: NewUser, now: int, dobCasts: bool) returns (r: Result)
      requires Valid()
      modifies this
      ensures Valid()
      ensures r.Failure? <==> SaveRefusal(old(rows), id, d.email, dobCasts).Some?
      ensures r.Failure? ==> r.error == SaveRefusal(old(rows), id, d.email, dobCasts).value && rows == old(rows)
      ensures r.Success? ==> r.user == NewRow(id, d, now) && rows == old(rows) + [r.user]
    {
      var conflict := SaveRefusal(rows, id, d.email, dobCasts);
      if conflict.Some? {
        return Failure(conflict.value);
      }
      var u := NewRow(id, d, now);
      rows := rows + [u];
      return Success(u);
    }

    /** `update({ where: { id }, data: { payment_status } })`: None where no row has the
        id (Prisma's record-not-found error) and nothing changes. */
    method UpdatePaymentStatus(id: string, status: bool) returns (r: Option<User>)
      requires Valid()
      modifies this
      ensures Valid()
      ensures r.None? <==> IndexOfId(old(rows), id).None?
      ensures r.None? ==> rows == old(rows)
      ensures r.Some? ==> var k := IndexOfId(old(rows), id).value;
        rows == WithPaymentStatus(old(rows), k, status) && r.value == rows[k]
    {
      var k := IndexOfId(rows, id);
      if k.None? {
        return None;
      }
      rows := WithPaymentStatus(rows, k.value, status);
      return Some(rows[k.value]);
    }

    /** `delete({ where: { id } })`: None where no row has the id and nothing changes. */
    method DeleteById(id: string) returns (r: Option<string>)
      requires Valid()
      modifies this
      ensures Valid()
      ensures r.None? <==> IndexOfId(old(rows), id).None?
      ensures r.None? ==> rows == old(rows)
      ensures r.Some? ==> r.value == id && rows == WithoutRow(old(rows), IndexOfId(old(rows), id).value)
    {
      var k := IndexOfId(rows, id);
      if k.None? {
        return None;
      }
      rows := WithoutRow(rows, k.value);
      return Some(id);
    }
  }

  /** The outcome of `Users.Save`. */
  datatype Result = Success(user: User) | Failure(error: SaveError)
}
