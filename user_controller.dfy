/** `registerUser` (backend/controllers/userController.js): compress the uploaded
    photo into `compressed-<file>`, delete the upload, write a QR code holding the
    email into `<email>-qr.png`, then save the user naming both files. The upload
    directory and the users table are the two things it changes. */
module UserController {
  import opened Wrappers
  import opened UserModel

  /** What a file in the upload directory holds: an uploaded photo (named by the
      client's file name), a compressed copy of some content, or a QR code image of
      a payload. Image data itself is not modelled. */
  datatype FileContent = Photo(originalname: string) | Compressed(of: FileContent) | QrCode(payload: string)

  /** The upload directory: file names to contents. */
  class UploadDir {
    var files: map<string, FileContent>

    constructor (files0: map<string, FileContent>)
      ensures files == files0
    {
      files := files0;
    }

    /** A library writing a file (`sharp(...).toFile`, `QRCode.toFile`); it replaces a file of that name. */
    method Write(name: string, content: FileContent)
      modifies this
      ensures files == old(files)[name := content]
    {
      files := files[name := content];
    }

    /** `fs.unlinkSync`: false, touching nothing, when there is no such file. */
    method Unlink(name: string) returns (ok: bool)
      modifies this
      ensures ok <==> name in old(files)
      ensures files == old(files) - {name}
    {
      ok := name in files;
      files := files - {name};
    }
  }

  /** The multipart fields `registerUser` reads. `occupation` and `qualification`
      are read too, but the schema drops them, so they do not appear here. */
  datatype Body = Body(
    first_name: string,
    last_name: string,
    dob: string,
    email: string,
    phone: string,
    address: string,
    reference: string,
    group: string)

  /** The stored name of the compressed photo. */
  function CompressedName(filename: string): (r: string)
    ensures |r| == |filename| + 11 && r[11..] == filename
  {
    "compressed-" + filename
  }

  /** The stored name of the QR image for an email. */
  function QrName(email: string): (r: string)
    ensures |r| == |email| + 7 && r[..|email|] == email && r[|email|..] == "-qr.png"
  {
    email + "-qr.png"
  }

  /** The QR code's payload: the email as a template literal renders it. */
  function QrPayload(email: string): string {
    email
  }

  /** The user draft built from the body and the two derived filenames. */
  function Draft(body: Body, filename: string): (d: NewUser)
    ensures d.photo == CompressedName(filename) && d.qr == QrName(body.email)
    ensures d.first_name == body.first_name && d.last_name == body.last_name && d.dob == body.dob
      && d.email == body.email && d.phone == body.phone && d.address == body.address
      && d.reference == body.reference && d.group == body.group
  {
    NewUser(body.first_name, body.last_name, body.dob, body.email, body.phone, body.address,
            CompressedName(filename), QrName(body.email), body.reference, body.group)
  }

  /** The reply: 200 with the saved user, 409 naming the clashing key, or 500. */
  datatype RegisterReply = Registered(user: User) | Conflict(error: string) | Failed(error: string)

  function StatusOf(r: RegisterReply): int {
    match r
    case Registered(_) => 200
    case Conflict(_) => 409
    case Failed(_) => 500
  }

  /** The 409 message for a duplicate key on `field`. */
  function DuplicateMessage(field: string): string {
    "A user with this " + field + " already exists."
  }

  /** The directory after the photo steps: the compressed copy written and the
      upload removed. */
  function AfterPhoto(files: map<string, FileContent>, f: string): map<string, FileContent>
    requires f in files
  {
    files[CompressedName(f) := Compressed(files[f])] - {f}
  }

  /** The whole effect of one registration on the user rows and the directory.
      `file` is `req.file.filename`, absent when no photo was uploaded;
      `compressOk` and `qrOk` are whether `sharp` and `qrcode` succeed, and
      `dobCasts` whether Mongoose can cast `dob` (see `SaveRefusal`). A cast error
      has no code 11000, so it ends in the 500 reply. */
  function Register(rows: seq<User>, files: map<string, FileContent>, body: Body, file: Option<string>,
                    id: string, now: int, compressOk: bool, qrOk: bool, dobCasts: bool)
    : (out: (RegisterReply, seq<User>, map<string, FileContent>))
    ensures out.0.Registered? <==>
      file.Some? && compressOk && file.value in files && qrOk && SaveRefusal(rows, id, body.email, dobCasts).None?
    ensures out.0.Registered? ==> file.Some? && out.0.user == NewRow(id, Draft(body, file.value), now)
    ensures out.0.Registered? ==>
      && out.0.user.photo == CompressedName(file.value) && out.0.user.qr == QrName(body.email)
      && out.0.user.email == body.email && !out.0.user.payment_status && out.0.user.createdAt == now
    ensures out.0.Registered? ==> out.1 == rows + [out.0.user]
    ensures out.0.Registered? || out.1 == rows
    ensures out.0.Conflict? <==>
      file.Some? && compressOk && file.value in files && qrOk && dobCasts && SaveConflict(rows, id, body.email).Some?
    ensures out.0.Conflict? ==> out.0.error == DuplicateMessage(SaveConflict(rows, id, body.email).value.field)
    ensures out.0.Failed? ==> out.0.error == "Registration failed"
    ensures file.None? ==> out == (Failed("Registration failed"), rows, files)
    ensures !(file.Some? && compressOk && file.value in files) ==> out.2 == files
    ensures file.Some? && compressOk && file.value in files ==>
      && file.value !in AfterPhoto(files, file.value)
      && out.2 == (if qrOk then AfterPhoto(files, file.value)[QrName(body.email) := QrCode(QrPayload(body.email))]
                   else AfterPhoto(files, file.value))
  {
    if file.None? then (Failed("Registration failed"), rows, files)
    else
      var f := file.value;
      if !compressOk || f !in files then (Failed("Registration failed"), rows, files)
      else
        var afterUnlink := AfterPhoto(files, f);
        if !qrOk then (Failed("Registration failed"), rows, afterUnlink)
        else
          var written := afterUnlink[QrName(body.email) := QrCode(QrPayload(body.email))];
          match SaveRefusal(rows, id, body.email, dobCasts)
          case Some(DuplicateKey(field)) => (Conflict(DuplicateMessage(field)), rows, written)
          case Some(CastError(_)) => (Failed("Registration failed"), rows, written)
          case None =>
            var u := NewRow(id, Draft(body, f), now);
            (Registered(u), rows + [u], written)
  }

  /** A save refused for a duplicate key still leaves the compressed photo and the
      QR image in the directory (the QR image overwrites a file of the same name),
      and the upload gone; the reply is 409 when `dob`
      casts and 500 when it does not. */
  lemma DuplicateKeepsFiles(rows: seq<User>, files: map<string, FileContent>, body: Body, f: string,
                            id: string, now: int, dobCasts: bool)
    requires f in files && SaveConflict(rows, id, body.email).Some?
    ensures var (reply, rows2, files2) := Register(rows, files, body, Some(f), id, now, true, true, dobCasts);
      && StatusOf(reply) == (if dobCasts then 409 else 500)
      && rows2 == rows
      && CompressedName(f) in files2
      && (CompressedName(f) != QrName(body.email) ==> files2[CompressedName(f)] == Compressed(files[f]))
      && (f != QrName(body.email) ==> f !in files2)
      && QrName(body.email) in files2 && files2[QrName(body.email)] == QrCode(body.email)
  {
  }

  /** Registering an email already stored is refused with 409 naming the email when
      `dob` casts, and with 500 when it does not; either way the table is unchanged. */
  lemma DuplicateEmailIs409(rows: seq<User>, files: map<string, FileContent>, body: Body, f: string,
                            id: string, now: int, k: nat, dobCasts: bool)
    requires f in files && k < |rows| && rows[k].email == body.email
    requires forall j :: 0 <= j < |rows| ==> rows[j].id != id
    ensures var (reply, rows2, _) := Register(rows, files, body, Some(f), id, now, true, true, dobCasts);
      && reply == (if dobCasts then Conflict("A user with this email already exists.") else Failed("Registration failed"))
      && rows2 == rows
  {
  }

  /** A successful registration keeps the table's unique keys unique. */
  lemma RegisterKeepsKeysUnique(rows: seq<User>, files: map<string, FileContent>, body: Body, file: Option<string>,
                                id: string, now: int, compressOk: bool, qrOk: bool, dobCasts: bool)
    requires EmailsUnique(rows) && IdsUnique(rows)
    ensures var rows2 := Register(rows, files, body, file, id, now, compressOk, qrOk, dobCasts).1;
      EmailsUnique(rows2) && IdsUnique(rows2)
  {
    var out := Register(rows, files, body, file, id, now, compressOk, qrOk, dobCasts);
    if out.0.Registered? {
      assert SaveConflict(rows, id, body.email).None?;
      assert forall j :: 0 <= j < |rows| ==> out.1[j] == rows[j];
    }
  }

  /** The handler: the file steps in the source's order, then the save. */
  method RegisterUser(users: Users, dir: UploadDir, body: Body, file: Option<string>,
                      id: string, now: int, compressOk: bool, qrOk: bool, dobCasts: bool) returns (r: RegisterReply)
    requires users.Valid()
    modifies users, dir
    ensures users.Valid()
    ensures (r, users.rows, dir.files) == Register(old(users.rows), old(dir.files), body, file, id, now, compressOk, qrOk, dobCasts)
  {
    if file.None? {
      return Failed("Registration failed");
    }
    var f := file.value;
    if !compressOk || f !in dir.files {
      return Failed("Registration failed");
    }
    dir.Write(CompressedName(f), Compressed(dir.files[f]));
    var unlinked := dir.Unlink(f);
    if !unlinked {
      return Failed("Registration failed");
    }
    if !qrOk {
      return Failed("Registration failed");
    }
    dir.Write(QrName(body.email), QrCode(QrPayload(body.email)));
    var saved := users.Save(id, Draft(body, f), now, dobCasts);
    match saved {
      case Failure(DuplicateKey(field)) =>
        return Conflict(DuplicateMessage(field));
      case Failure(CastError(_)) =>
        return Failed("Registration failed");
      case Success(u) =>
        return Registered(u);
    }
  }
}
