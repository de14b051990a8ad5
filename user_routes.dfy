/** The user routes (backend/routes/userRoutes.js): the name under which an upload is
    stored, the card lookup by email, and the user count. */
module UserRoutes {
  import opened Wrappers
  import opened Text
  import opened UserModel
  import Uri

  /** multer's `filename`: the upload time in milliseconds, a dash, the client's file name. */
  function UploadName(now: nat, originalname: string): (r: string)
    ensures |r| > |originalname| && r[|r| - |originalname|..] == originalname
  {
    Decimal(now) + "-" + originalname
  }

  /** The stored name gives back both parts: what precedes its first dash is the
      upload time, and what follows that dash is the client's file name, whatever
      dashes it contains. */
  lemma UploadNameRoundTrip(now: nat, originalname: string)
    ensures var name := UploadName(now, originalname);
      && IsDigitString(Before(name, '-'))
      && DecimalValue(Before(name, '-')) == now
      && |Before(name, '-')| < |name|
      && name[|Before(name, '-')| + 1..] == originalname
  {
    var d := Decimal(now);
    assert !HasChar(d, '-') by {
      forall i | 0 <= i < |d| ensures d[i] != '-' {
        assert IsDigit(d[i]);
      }
    }
    SplitAfterPiece(d, '-', originalname);
    assert UploadName(now, originalname) == d + ['-'] + originalname;
    DecimalRoundTrip(now);
  }

  predicate IsDigitString(s: string) {
    forall i :: 0 <= i < |s| ==> IsDigit(s[i])
  }

  /** The reply of `/getUserByEmail`. `NoResponse` is `decodeURIComponent` throwing a
      URIError, which happens outside the handler's `try`, so nothing is sent. */
  datatype LookupReply = Found(user: User) | EmailRequired | NotFound | NoResponse

  function StatusOf(r: LookupReply): Option<int> {
    match r
    case Found(_) => Some(200)
    case EmailRequired => Some(400)
    case NotFound => Some(404)
    case NoResponse => None
  }

  /** `decodeURIComponent(rawEmail || "").toLowerCase()`; None when decoding throws. */
  function NormalizeEmail(raw: Option<string>): (r: Option<string>)
    ensures raw.None? || raw == Some("") ==> r == Some("")
    ensures r.None? <==> Uri.Decode(raw.GetOr("")).None?
    ensures r.Some? ==> r.value == Lower(r.value)
  {
    match Uri.Decode(raw.GetOr(""))
    case None => None
    case Some(e) =>
      LowerIdempotent(e);
      Some(Lower(e))
  }

  lemma LowerIdempotent(s: string)
    ensures Lower(Lower(s)) == Lower(s)
  {
  }

  /** `findFirst` with `equals` in `insensitive` mode: the first user whose email
      equals `email` ignoring case. */
  function FindFirstInsensitive(rows: seq<User>, email: string): (r: Option<User>)
    ensures r.Some? ==> r.value in rows && EqualsIgnoreCase(r.value.email, email)
    ensures r.None? <==> forall j :: 0 <= j < |rows| ==> !EqualsIgnoreCase(rows[j].email, email)
  {
    if rows == [] then None
    else if EqualsIgnoreCase(rows[0].email, email) then Some(rows[0])
    else FindFirstInsensitive(rows[1..], email)
  }

  /** `/getUserByEmail` for the query parameter `email` (None when absent). */
  function GetUserByEmail(rows: seq<User>, raw: Option<string>): (r: LookupReply)
    ensures r == NoResponse <==> NormalizeEmail(raw).None?
    ensures r == EmailRequired <==> NormalizeEmail(raw) == Some("")
    ensures raw.None? || raw == Some("") ==> r == EmailRequired
    ensures r.Found? ==> r.user in rows && EqualsIgnoreCase(r.user.email, NormalizeEmail(raw).value)
    ensures r == NotFound <==>
      NormalizeEmail(raw).Some? && NormalizeEmail(raw).value != ""
      && forall j :: 0 <= j < |rows| ==> !EqualsIgnoreCase(rows[j].email, NormalizeEmail(raw).value)
  {
    match NormalizeEmail(raw)
    case None => NoResponse
    case Some(email) =>
      if email == "" then EmailRequired
      else match FindFirstInsensitive(rows, email)
        case None => NotFound
        case Some(u) => Found(u)
  }

  /** With emails unique ignoring case, the lookup returns the one user whose email
      matches, however the link spells its case. */
  lemma LookupFindsTheUser(rows: seq<User>, k: nat, raw: string)
    requires k < |rows| && rows[k].email != ""
    requires forall i, j :: 0 <= i < j < |rows| ==> !EqualsIgnoreCase(rows[i].email, rows[j].email)
    requires Uri.Decode(raw) == Some(rows[k].email)
    ensures GetUserByEmail(rows, Some(raw)) == Found(rows[k])
  {
    var e := Lower(rows[k].email);
    assert |e| == |rows[k].email|;
    LowerIdempotent(rows[k].email);
    var r := FindFirstInsensitive(rows, e);
    var j :| 0 <= j < |rows| && rows[j] == r.value;
  }

  /** The set of stored emails. */
  function Emails(rows: seq<User>): set<string> {
    set i | 0 <= i < |rows| :: rows[i].email
  }

  /** `/getAllUsers`: `countDocuments()` on the users table. */
  function CountUsers(rows: seq<User>): (count: nat)
    ensures count == |rows|
    ensures EmailsUnique(rows) ==> count == |Emails(rows)|
  {
    EmailCount(rows);
    |rows|
  }

  /** With unique emails there are as many stored emails as users. */
  lemma {:induction false} EmailCount(rows: seq<User>)
    ensures EmailsUnique(rows) ==> |Emails(rows)| == |rows|
  {
    if rows != [] && EmailsUnique(rows) {
      var tail := rows[1..];
      assert EmailsUnique(tail) by {
        forall i, j | 0 <= i < j < |tail| ensures tail[i].email != tail[j].email {
          assert tail[i] == rows[i + 1] && tail[j] == rows[j + 1];
        }
      }
      EmailCount(tail);
      assert Emails(rows) == {rows[0].email} + Emails(tail) by {
        forall e | e in Emails(rows) ensures e in {rows[0].email} + Emails(tail) {
          var i :| 0 <= i < |rows| && rows[i].email == e;
          if i > 0 { assert tail[i - 1].email == e; }
        }
        forall e | e in Emails(tail) ensures e in Emails(rows) {
          var i :| 0 <= i < |tail| && tail[i].email == e;
          assert rows[i + 1].email == e;
        }
      }
    }
  }
}
