/** The card component that looks a participant up (frontend/src/pages/Card.jsx).
    It reads `email` from its own query string with `URLSearchParams`, then asks the
    backend for `?email=${email}`, with the value interpolated as it is. Express
    parses that query string again before the route decodes the value once more.
    frontend/src/App.jsx mounts Card3D, which looks nobody up, at "/card"; this
    module is the lookup as Card.jsx writes it. */
module CardPage {
  import opened Wrappers
  import opened Text
  import Uri
  import UserModel
  import UserRoutes
  import ShowCard

  /** A form-encoded query value's '+' read as a space. */
  function PlusToSpace(s: string): string {
    seq(|s|, i requires 0 <= i < |s| => if s[i] == '+' then ' ' else s[i])
  }

  /** A query parameter's value as `URLSearchParams.get` and Express's query parser
      both read it from the text after `email=`: up to the next '&', with '+' as a
      space and the escapes decoded; text whose escapes are malformed is kept. */
  function ParamValue(raw: string): string {
    var p := PlusToSpace(Before(raw, '&'));
    match Uri.Decode(p)
    case Some(d) => d
    case None => p
  }

  /** A value without '&', '+' or '%' is read as it is written. */
  lemma ParamValueOfPlain(raw: string)
    requires forall i :: 0 <= i < |raw| ==> raw[i] != '&' && raw[i] != '+' && raw[i] != '%'
    ensures ParamValue(raw) == raw
  {
    SplitNoSeparator(raw, '&');
    assert PlusToSpace(raw) == raw;
    Uri.DecodePlain(raw);
  }

  /** An encoded value is read back as the text that was encoded. */
  lemma ParamValueOfEncoded(s: string)
    ensures ParamValue(Uri.Encode(s)) == s
  {
    var t := Uri.Encode(s);
    Uri.EncodedHasNoDelimiters(s);
    assert !HasChar(t, '&');
    SplitNoSeparator(t, '&');
    assert PlusToSpace(t) == t;
    Uri.DecodeEncode(s);
  }

  /** The card page's `email`, read from the path the card finder opened. */
  function PageEmail(path: string): string
    requires |path| >= |ShowCard.CardPrefix|
  {
    ParamValue(ShowCard.QueryValue(path))
  }

  /** The reply to the page's lookup: no request for an empty `email`, otherwise
      `/getUserByEmail?email=${email}` as Express hands it to the route. */
  function Lookup(rows: seq<UserModel.User>, email: string): (r: Option<UserRoutes.LookupReply>)
    ensures r.None? <==> email == ""
  {
    if email == "" then None
    else Some(UserRoutes.GetUserByEmail(rows, Some(ParamValue(email))))
  }

  /** The card page reads back exactly the email typed into the card finder. */
  lemma PageEmailIsTyped(typed: string)
    requires typed != ""
    ensures PageEmail(ShowCard.HandleSubmit(typed).path) == typed
  {
    ParamValueOfEncoded(typed);
  }

  /** An address made of letters, digits, `- _ . ! ~ * ' ( )` and '@': every
      character survives the unencoded second request. */
  predicate PlainAddress(e: string) {
    forall i :: 0 <= i < |e| ==> Uri.IsUnescaped(e[i]) || e[i] == '@'
  }

  /** With emails unique ignoring case, a registered user with a plain address who
      types their email into the card finder is found by the card page's lookup. */
  lemma CardFindsTheUser(rows: seq<UserModel.User>, k: nat)
    requires k < |rows| && rows[k].email != "" && PlainAddress(rows[k].email)
    requires forall i, j :: 0 <= i < j < |rows| ==> !EqualsIgnoreCase(rows[i].email, rows[j].email)
    ensures var email := PageEmail(ShowCard.HandleSubmit(rows[k].email).path);
      email == rows[k].email && Lookup(rows, email) == Some(UserRoutes.Found(rows[k]))
  {
    var e := rows[k].email;
    PageEmailIsTyped(e);
    ParamValueOfPlain(e);
    Uri.DecodePlain(e);
    UserRoutes.LookupFindsTheUser(rows, k, e);
  }

  /** The restriction to plain addresses is needed: the page reads a '+' typed in
      the email back correctly, but sends it unencoded, so the backend reads a space
      there, and even the only registered user is not found. */
  lemma PlusAddressIsNotFound(u: UserModel.User)
    requires HasChar(u.email, '+')
    requires forall i :: 0 <= i < |u.email| ==> Uri.IsUnescaped(u.email[i]) || u.email[i] == '@' || u.email[i] == '+'
    ensures var email := PageEmail(ShowCard.HandleSubmit(u.email).path);
      email == u.email && Lookup([u], email) == Some(UserRoutes.NotFound)
  {
    var e := u.email;
    PageEmailIsTyped(e);
    SplitNoSeparator(e, '&');
    var p := PlusToSpace(e);
    Uri.DecodePlain(p);
    assert ParamValue(e) == p;
    var i :| 0 <= i < |e| && e[i] == '+';
    assert Lower(e)[i] == '+';
    assert Lower(Lower(p))[i] == ' ';
    assert !EqualsIgnoreCase(u.email, Lower(p));
  }
}
