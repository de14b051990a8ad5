/** The group-leader sign-in page (frontend/src/pages/admin/group-leader-id-page.jsx):
    a format check on the email, the leader lookup, and the panel it opens. */
module LeaderIdPage {
  import opened Wrappers
  import opened Text
  import opened LeaderController

  /** Neither white space (`\s`) nor '@': the class `[^\s@]`. */
  predicate Plain(c: char) {
    !IsSpace(c) && c != '@'
  }

  /** `[^\s@]+`. */
  predicate PlainRun(s: string) {
    |s| > 0 && forall i :: 0 <= i < |s| ==> Plain(s[i])
  }

  /** The regular expression `^[^\s@]+@[^\s@]+\.[^\s@]+$`, read off its structure:
      a plain run, '@', a plain run, '.', a plain run. */
  predicate MatchesEmailPattern(s: string) {
    exists a, d :: 0 < a < d < |s| - 1
      && PlainRun(s[..a]) && s[a] == '@' && PlainRun(s[a + 1..d]) && s[d] == '.' && PlainRun(s[d + 1..])
  }

  /** The position of the first `c` in `s`, or `|s|`. */
  function IndexOf(s: string, c: char): (i: nat)
    ensures i <= |s| && (forall j :: 0 <= j < i ==> s[j] != c) && (i < |s| ==> s[i] == c)
  {
    if s == [] then 0 else if s[0] == c then 0 else 1 + IndexOf(s[1..], c)
  }

  /** The test as the page applies it, in plain terms: no white space, exactly one
      '@', something before it, and after it a '.' with something on both sides. */
  predicate EmailAccepted(s: string) {
    var a := IndexOf(s, '@');
    && (forall i :: 0 <= i < |s| ==> !IsSpace(s[i]))
    && 0 < a < |s|
    && (forall i :: a < i < |s| ==> s[i] != '@')
    && exists d :: a + 1 < d < |s| - 1 && s[d] == '.'
  }

  lemma PatternAccepted(s: string)
    requires MatchesEmailPattern(s)
    ensures EmailAccepted(s)
  {
    var a, d :| 0 < a < d < |s| - 1
      && PlainRun(s[..a]) && s[a] == '@' && PlainRun(s[a + 1..d]) && s[d] == '.' && PlainRun(s[d + 1..]);
    forall i | 0 <= i < |s| ensures Plain(s[i]) || i == a {
      if i < a { assert s[..a][i] == s[i]; }
      else if a < i < d { assert s[a + 1..d][i - a - 1] == s[i]; }
      else if d < i { assert s[d + 1..][i - d - 1] == s[i]; }
    }
    assert IndexOf(s, '@') == a;
  }

  lemma AcceptedPattern(s: string)
    requires EmailAccepted(s)
    ensures MatchesEmailPattern(s)
  {
    var a := IndexOf(s, '@');
    var d :| a + 1 < d < |s| - 1 && s[d] == '.';
    assert PlainRun(s[..a]);
    assert PlainRun(s[a + 1..d]);
    assert PlainRun(s[d + 1..]);
  }

  /** The plain reading agrees with the pattern in both directions. */
  lemma EmailAcceptedIffPattern(s: string)
    ensures EmailAccepted(s) <==> MatchesEmailPattern(s)
  {
    if EmailAccepted(s) { AcceptedPattern(s); }
    if MatchesEmailPattern(s) { PatternAccepted(s); }
  }

  const PanelPrefix: string := "/hpys2025-group-leader-panel-369/"

  /** How the POST ends: a 2xx status with the body's `data` (None when absent), an
      error status the server sent, or no response at all. */
  datatype PostReply = Answered(status: int, data: Option<Leader>) | ErrorStatus(code: int) | NoAnswer

  /** What a submit leaves: the error line, whether the request went out, a toast,
      and where it navigates. */
  datatype IdResult = IdResult(error: string, sent: bool, toast: Option<string>, navigateTo: Option<string>)

  /** `handleSubmit` for the typed email and the reply it would get. */
  function HandleSubmit(email: string, reply: PostReply): (r: IdResult)
    ensures !EmailAccepted(email) <==> r.error == "Please enter a valid email address"
    ensures !EmailAccepted(email) ==> !r.sent && r.toast.None? && r.navigateTo.None?
    ensures EmailAccepted(email) ==> r.sent && r.error == ""
    ensures r.navigateTo.Some? <==> EmailAccepted(email) && reply.Answered? && reply.status == 200 && reply.data.Some?
    ensures r.navigateTo.Some? ==> r.navigateTo.value == PanelPrefix + reply.data.value.email
    ensures r.toast.Some? <==> EmailAccepted(email) && reply.ErrorStatus? && (reply.code == 401 || reply.code == 500)
    ensures r.toast.Some? ==> r.toast.value == "Please Enter the valid email"
  {
    EmailAcceptedIffPattern(email);
    if !MatchesEmailPattern(email) then IdResult("Please enter a valid email address", false, None, None)
    else match reply
      case Answered(status, data) =>
        if status == 200 && data.Some? then IdResult("", true, None, Some(PanelPrefix + data.value.email))
        else IdResult("", true, None, None)
      case ErrorStatus(code) =>
        if code == 401 || code == 500 then IdResult("", true, Some("Please Enter the valid email"), None)
        else IdResult("", true, None, None)
      case NoAnswer => IdResult("", true, None, None)
  }

  /** The reply `leaderEmail` gives, as the page receives it. */
  function ReplyOf(r: Reply<Leader>): PostReply {
    match r
    case Ok(l) => Answered(200, Some(l))
    case BadRequest(_) => ErrorStatus(400)
    case Unauthorized => ErrorStatus(401)
    case ServerError => ErrorStatus(500)
  }

  /** A leader who types their stored (well-formed) email reaches the panel at that
      email; an unknown well-formed email gets the toast and stays. */
  lemma SignInOpensThePanel(leaders: seq<Leader>, email: string)
    requires LeaderEmailsUnique(leaders) && EmailAccepted(email)
    ensures var r := HandleSubmit(email, ReplyOf(LeaderEmail(leaders, Str(email))));
      && ((exists k :: 0 <= k < |leaders| && leaders[k].email == email) ==>
            r.navigateTo == Some(PanelPrefix + email))
      && ((forall k :: 0 <= k < |leaders| ==> leaders[k].email != email) ==>
            r.navigateTo.None? && r.toast == Some("Please Enter the valid email"))
  {
  }
}
