/** The admin queries (backend/controllers/adminController.js): the user list with its
    optional name/address search, and the attendance list, which selects by a user
    search, a day and a session, sorts by one of three orders and joins every record
    to its user. Both are read-only. */
module AdminController {
  import opened Wrappers
  import opened Text
  import opened Seqs
  import opened Sorting
  import opened UserModel
  import AM = AttendanceModel

  /** The `$or` of case-insensitive matches on first name, last name and address. */
  predicate NameOrAddressMatches(first_name: string, last_name: string, address: string, term: string) {
    ContainsIgnoreCase(first_name, term) || ContainsIgnoreCase(last_name, term) || ContainsIgnoreCase(address, term)
  }

  predicate UserMatches(u: User, term: string) {
    NameOrAddressMatches(u.first_name, u.last_name, u.address, term)
  }

  /** `sort({ createdAt: -1 })`. */
  predicate NewestFirst(a: PublicUser, b: PublicUser) {
    a.createdAt >= b.createdAt
  }

  lemma NewestFirstIsPreorder()
    ensures TotalPreorder(NewestFirst)
  {
  }

  /** The JSON body of a successful reply. */
  datatype UsersReply = UsersReply(success: bool, data: seq<PublicUser>, total: nat)

  /** The users the query selects: all of them without a search term. */
  function SelectedUsers(users: seq<User>, search: string): seq<User> {
    if search == "" then users else Filter(users, u => UserMatches(u, search))
  }

  /** Every user the query selects is among those it may select, and conversely. */
  lemma SelectedUsersMembers(users: seq<User>, search: string)
    ensures forall i :: 0 <= i < |users| && (search == "" || UserMatches(users[i], search)) ==> users[i] in SelectedUsers(users, search)
    ensures forall k :: 0 <= k < |SelectedUsers(users, search)| ==>
      SelectedUsers(users, search)[k] in users && (search == "" || UserMatches(SelectedUsers(users, search)[k], search))
  {
  }

  /** Sorting keeps exactly the elements it was given. */
  lemma SortMembers<T(!new)>(s: seq<T>, le: (T, T) -> bool)
    ensures forall x :: x in Sort(s, le) <==> x in s
  {
    forall x ensures x in Sort(s, le) <==> x in s {
      assert x in Sort(s, le) <==> x in multiset(Sort(s, le));
    }
  }

  /** A user the query may select is listed, through its public projection. */
  lemma SelectedListed(users: seq<User>, search: string, i: nat)
    requires i < |users| && (search == "" || UserMatches(users[i], search))
    ensures Public(users[i]) in Map(SelectedUsers(users, search), Public)
  {
    var sel := SelectedUsers(users, search);
    SelectedUsersMembers(users, search);
    var k :| 0 <= k < |sel| && sel[k] == users[i];
    assert Map(sel, Public)[k] == Public(users[i]);
  }

  /** Everything listed is the projection of a user the query may select. */
  lemma ListedSelected(users: seq<User>, search: string, x: PublicUser)
    requires x in Map(SelectedUsers(users, search), Public)
    ensures exists j :: 0 <= j < |users| && x == Public(users[j]) && (search == "" || UserMatches(users[j], search))
  {
    var sel := SelectedUsers(users, search);
    SelectedUsersMembers(users, search);
    var pub := Map(sel, Public);
    var k :| 0 <= k < |pub| && pub[k] == x;
    assert sel[k] in users;
    var j :| 0 <= j < |users| && users[j] == sel[k];
    assert x == Public(users[j]);
  }

  /** `getAllUsers`, with "" standing for an absent `search` (both are falsy): the
      selected users without `qr`, newest first, and their number. */
  function GetAllUsers(users: seq<User>, search: string): (r: UsersReply)
    ensures r.success && r.total == |r.data|
    ensures SortedBy(r.data, NewestFirst)
    ensures multiset(r.data) == multiset(Map(SelectedUsers(users, search), Public))
  {
    var pub := Map(SelectedUsers(users, search), Public);
    var data := Sort(pub, NewestFirst);
    NewestFirstIsPreorder();
    SortSorted(pub, NewestFirst);
    UsersReply(true, data, |data|)
  }

  /** A user is listed exactly when there is no search term or the term matches
      its first name, last name or address. */
  lemma GetAllUsersSelects(users: seq<User>, search: string)
    ensures forall i :: 0 <= i < |users| && (search == "" || UserMatches(users[i], search)) ==>
      Public(users[i]) in GetAllUsers(users, search).data
    ensures forall i :: 0 <= i < |GetAllUsers(users, search).data| ==>
      exists j :: 0 <= j < |users| && GetAllUsers(users, search).data[i] == Public(users[j])
        && (search == "" || UserMatches(users[j], search))
  {
    var data := GetAllUsers(users, search).data;
    var pub := Map(SelectedUsers(users, search), Public);
    SortMembers(pub, NewestFirst);
    forall i | 0 <= i < |users| && (search == "" || UserMatches(users[i], search)) ensures Public(users[i]) in data {
      SelectedListed(users, search, i);
    }
    forall i | 0 <= i < |data|
      ensures exists j :: 0 <= j < |users| && data[i] == Public(users[j]) && (search == "" || UserMatches(users[j], search))
    {
      ListedSelected(users, search, data[i]);
    }
  }

  /** With a term that occurs in no user's names or address, the list is empty. */
  lemma NoMatchNoUsers(users: seq<User>, search: string)
    requires search != "" && forall i :: 0 <= i < |users| ==> !UserMatches(users[i], search)
    ensures GetAllUsers(users, search).data == [] && GetAllUsers(users, search).total == 0
  {
    GetAllUsersSelects(users, search);
  }

  // ----- attendance records -----

  /** The query string of `getAttendanceRecords`; "" stands for an absent parameter. */
  datatype Query = Query(search: string, day: string, session: string, sortBy: string)

  /** The attendance search's `$or`, which also matches on email. */
  predicate UserMatchesWithEmail(u: User, term: string) {
    UserMatches(u, term) || ContainsIgnoreCase(u.email, term)
  }

  /** The emails of the users the search matches (`users.map(user => user.email)`). */
  function SearchEmails(users: seq<User>, search: string): (r: seq<string>)
    ensures forall e :: e in r <==> exists j :: 0 <= j < |users| && users[j].email == e && UserMatchesWithEmail(users[j], search)
  {
    var m := Filter(users, u => UserMatchesWithEmail(u, search));
    var r := Map(m, (u: User) => u.email);
    forall e ensures e in r <==> exists j :: 0 <= j < |users| && users[j].email == e && UserMatchesWithEmail(users[j], search) {
      if e in r {
        var k :| 0 <= k < |r| && r[k] == e;
        var j :| 0 <= j < |users| && users[j] == m[k];
      }
      if j :| 0 <= j < |users| && users[j].email == e && UserMatchesWithEmail(users[j], search) {
        var k :| 0 <= k < |m| && m[k] == users[j];
        assert r[k] == e;
      }
    }
    r
  }

  /** The record filter the query builds: an email in the matched set when there is a
      search, the day and session when given, all combined with AND. */
  predicate Selected(a: AM.Attendance, users: seq<User>, q: Query) {
    && (q.search == "" || a.email in SearchEmails(users, q.search))
    && (q.day == "" || a.day == q.day)
    && (q.session == "" || a.session == q.session)
  }

  /** `{ timestamp: -1 }`. */
  predicate TimestampDesc(a: AM.Attendance, b: AM.Attendance) {
    a.timestamp >= b.timestamp
  }

  /** A sort specification with one more ascending string key in front of `rest`. */
  function ThenBy<T>(key: T -> string, rest: (T, T) -> bool): (T, T) -> bool {
    (a: T, b: T) => StrLess(key(a), key(b)) || (key(a) == key(b) && rest(a, b))
  }

  lemma ThenByIsPreorder<T(!new)>(key: T -> string, rest: (T, T) -> bool)
    requires TotalPreorder(rest)
    ensures TotalPreorder(ThenBy(key, rest))
  {
    var le := ThenBy(key, rest);
    forall a, b ensures le(a, b) || le(b, a) {
      if key(a) != key(b) {
        StrLessTotal(key(a), key(b));
      }
    }
    forall a, b, c | le(a, b) && le(b, c) ensures le(a, c) {
      if StrLess(key(a), key(b)) && StrLess(key(b), key(c)) {
        StrLessTransitive(key(a), key(b), key(c));
      }
    }
  }

  /** The sort order `sortBy` selects: (day, session, timestamp desc) for "day",
      (session, day, timestamp desc) for "session", timestamp desc otherwise. */
  function Order(sortBy: string): (le: (AM.Attendance, AM.Attendance) -> bool)
    ensures TotalPreorder(le)
  {
    var tsOrder := (a: AM.Attendance, b: AM.Attendance) => TimestampDesc(a, b);
    assert TotalPreorder(tsOrder);
    var day := (a: AM.Attendance) => a.day;
    var session := (a: AM.Attendance) => a.session;
    ThenByIsPreorder(session, tsOrder);
    ThenByIsPreorder(day, ThenBy(session, tsOrder));
    ThenByIsPreorder(day, tsOrder);
    ThenByIsPreorder(session, ThenBy(day, tsOrder));
    if sortBy == "day" then ThenBy(day, ThenBy(session, tsOrder))
    else if sortBy == "session" then ThenBy(session, ThenBy(day, tsOrder))
    else tsOrder
  }

  /** The "day" order ranks an earlier day first, then an earlier session, then the newer scan. */
  lemma DayOrderMeaning(a: AM.Attendance, b: AM.Attendance)
    ensures Order("day")(a, b) <==>
      StrLess(a.day, b.day)
      || (a.day == b.day && (StrLess(a.session, b.session) || (a.session == b.session && a.timestamp >= b.timestamp)))
  {
  }

  /** The "session" order ranks an earlier session first, then an earlier day, then the newer scan. */
  lemma SessionOrderMeaning(a: AM.Attendance, b: AM.Attendance)
    ensures Order("session")(a, b) <==>
      StrLess(a.session, b.session)
      || (a.session == b.session && (StrLess(a.day, b.day) || (a.day == b.day && a.timestamp >= b.timestamp)))
  {
  }

  /** Any other `sortBy` ranks by timestamp alone, newest first. */
  lemma DefaultOrderMeaning(sortBy: string, a: AM.Attendance, b: AM.Attendance)
    requires sortBy != "day" && sortBy != "session"
    ensures Order(sortBy)(a, b) <==> a.timestamp >= b.timestamp
  {
  }

  /** One reply row: the record's fields and the user with its email, or null. */
  datatype Row = Row(id: string, email: string, day: string, session: string, timestamp: int, user: Option<PublicUser>)

  /** The record a row copies. */
  function RecordOf(r: Row): AM.Attendance {
    AM.Attendance(r.id, r.email, r.day, r.session, r.timestamp)
  }

  /** `User.findOne({ email }).select('-qr')`. */
  function UserOf(users: seq<User>, email: string): (r: Option<PublicUser>)
    ensures r.Some? ==> r.value.email == email && exists j :: 0 <= j < |users| && r.value == Public(users[j])
    ensures r.None? <==> forall j :: 0 <= j < |users| ==> users[j].email != email
  {
    match FindByEmail(users, email)
    case None => None
    case Some(u) =>
      var j :| 0 <= j < |users| && users[j] == u;
      Some(Public(u))
  }

  function Join(users: seq<User>, a: AM.Attendance): (r: Row)
    ensures RecordOf(r) == a
  {
    Row(a.id, a.email, a.day, a.session, a.timestamp, UserOf(users, a.email))
  }

  datatype RecordsReply = RecordsReply(success: bool, data: seq<Row>, total: nat)

  /** `getAttendanceRecords` over the user rows and the attendance rows. */
  function GetAttendanceRecords(users: seq<User>, rows: seq<AM.Attendance>, q: Query): (r: RecordsReply)
    ensures r.success && r.total == |r.data|
    ensures multiset(Map(r.data, RecordOf)) == multiset(Filter(rows, a => Selected(a, users, q)))
    ensures forall a :: a in Map(r.data, RecordOf) <==> a in rows && Selected(a, users, q)
    ensures SortedBy(Map(r.data, RecordOf), Order(q.sortBy))
    ensures forall i :: 0 <= i < |r.data| ==> r.data[i].user == UserOf(users, r.data[i].email)
  {
    var sel := Filter(rows, a => Selected(a, users, q));
    var sorted := Sort(sel, Order(q.sortBy));
    var data := Map(sorted, a => Join(users, a));
    SortSorted(sel, Order(q.sortBy));
    assert Map(data, RecordOf) == sorted;
    forall a ensures a in sorted <==> a in rows && Selected(a, users, q) {
      assert a in sorted <==> a in multiset(sorted);
      if a in sel {
        var k :| 0 <= k < |sel| && sel[k] == a;
      }
    }
    RecordsReply(true, data, |data|)
  }

  /** A search no user matches returns no rows at all, rather than leaving the
      records unfiltered. */
  lemma NoMatchingUserNoRecords(users: seq<User>, rows: seq<AM.Attendance>, q: Query)
    requires q.search != "" && forall j :: 0 <= j < |users| ==> !UserMatchesWithEmail(users[j], q.search)
    ensures GetAttendanceRecords(users, rows, q).data == []
  {
  }

  /** Without search, day or session every record is returned. */
  lemma NoFilterAllRecords(users: seq<User>, rows: seq<AM.Attendance>, sortBy: string)
    ensures multiset(Map(GetAttendanceRecords(users, rows, Query("", "", "", sortBy)).data, RecordOf)) == multiset(rows)
  {
    FilterAll(rows, a => Selected(a, users, Query("", "", "", sortBy)));
  }

  lemma {:induction false} FilterAll<T>(s: seq<T>, p: T -> bool)
    requires forall i :: 0 <= i < |s| ==> p(s[i])
    ensures Filter(s, p) == s
  {
    if s != [] {
      FilterAll(s[1..], p);
      assert [s[0]] + s[1..] == s;
    }
  }
}
