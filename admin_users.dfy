/** The admin user list (frontend/src/pages/admin/AdminUsers.jsx): every user is
    fetched once from the admin users endpoint without a search term, and the
    search field then filters that list locally. */
module AdminUsers {
  import opened Wrappers
  import opened Text
  import opened Seqs
  import opened Sorting
  import opened UserModel
  import opened AdminController

  /** The local test: a non-empty first name, last name or address whose lower-cased
      text includes the lower-cased term. */
  predicate LocalMatches(u: PublicUser, term: string) {
    (u.first_name != "" && Contains(Lower(u.first_name), Lower(term)))
    || (u.last_name != "" && Contains(Lower(u.last_name), Lower(term)))
    || (u.address != "" && Contains(Lower(u.address), Lower(term)))
  }

  function Matcher(term: string): PublicUser -> bool {
    (u: PublicUser) => LocalMatches(u, term)
  }

  /** What the filter effect shows: everything for an empty term, else the matching users. */
  function LocalFilter(all: seq<PublicUser>, term: string): seq<PublicUser> {
    if term == "" then all else Filter(all, Matcher(term))
  }

  /** An empty term shows everything; otherwise the list shown is an order-preserving
      sub-list of all users holding exactly the users that match. */
  lemma LocalFilterMeaning(all: seq<PublicUser>, term: string)
    ensures term == "" ==> LocalFilter(all, term) == all
    ensures IsSubsequence(LocalFilter(all, term), all)
    ensures term != "" ==> forall i :: 0 <= i < |LocalFilter(all, term)| ==> LocalMatches(LocalFilter(all, term)[i], term)
    ensures forall i :: 0 <= i < |all| && (term == "" || LocalMatches(all[i], term)) ==> all[i] in LocalFilter(all, term)
  {
    if term == "" {
      SubsequenceRefl(all);
    } else {
      FilterIsSubsequence(all, Matcher(term));
    }
  }

  /** For a non-empty term the local test is the server's `$or` of case-insensitive
      matches: an empty field cannot include a non-empty term. */
  lemma LocalMatchesIsServerMatch(u: User, term: string)
    requires term != ""
    ensures LocalMatches(Public(u), term) <==> UserMatches(u, term)
  {
    if u.first_name == "" && Contains(Lower(u.first_name), Lower(term)) {
      ContainsShorter(Lower(u.first_name), Lower(term));
    }
    if u.last_name == "" && Contains(Lower(u.last_name), Lower(term)) {
      ContainsShorter(Lower(u.last_name), Lower(term));
    }
    if u.address == "" && Contains(Lower(u.address), Lower(term)) {
      ContainsShorter(Lower(u.address), Lower(term));
    }
  }

  /** Filtering the full list locally gives exactly what the server returns for the
      same term: the same users, in the same order, so the heading's count is the
      server's `total`. */
  lemma LocalSearchAgreesWithServer(users: seq<User>, term: string)
    ensures LocalFilter(GetAllUsers(users, "").data, term) == GetAllUsers(users, term).data
    ensures |LocalFilter(GetAllUsers(users, "").data, term)| == GetAllUsers(users, term).total
  {
    if term != "" {
      var q := Matcher(term);
      var p := (u: User) => UserMatches(u, term);
      forall u: User ensures p(u) == q(Public(u)) {
        LocalMatchesIsServerMatch(u, term);
      }
      NewestFirstIsPreorder();
      SortFilterCommute(Map(users, Public), NewestFirst, q);
      FilterMap(users, Public, q, p);
      FilterExtensional(users, p, u => UserMatches(u, term));
    }
  }

  /** What the fetch produced: the JSON body, or an exception (network or parse). */
  datatype Fetched = Body(success: bool, data: seq<PublicUser>, message: string) | Threw

  /** The page's state. */
  class Page {
    var allUsers: seq<PublicUser>
    var users: seq<PublicUser>
    var searchTerm: string
    var loading: bool
    var error: Option<string>

    predicate Consistent()
      reads this
    {
      users == LocalFilter(allUsers, searchTerm)
    }

    constructor ()
      ensures allUsers == [] && users == [] && searchTerm == "" && loading && error.None?
      ensures Consistent()
    {
      allUsers := [];
      users := [];
      searchTerm := "";
      loading := true;
      error := None;
    }

    /** The one fetch: a successful body fills both lists and the filter effect
      follows; a failed one records its message; an exception records a fixed one. */
    method Loaded(f: Fetched)
      modifies this
      ensures !loading && searchTerm == old(searchTerm)
      ensures f.Body? && f.success ==> allUsers == f.data && users == LocalFilter(f.data, searchTerm) && error == old(error)
      ensures f.Body? && !f.success ==> allUsers == old(allUsers) && users == old(users) && error == Some(f.message)
      ensures f.Threw? ==> allUsers == old(allUsers) && users == old(users) && error == Some("Failed to fetch users")
      ensures old(Consistent()) ==> Consistent()
    {
      match f {
        case Body(success, data, message) =>
          if success {
            allUsers := data;
            users := data;
            users := LocalFilter(allUsers, searchTerm);
          } else {
            error := Some(message);
          }
        case Threw =>
          error := Some("Failed to fetch users");
      }
      loading := false;
    }

    /** `handleSearch`; the filter effect follows. */
    method HandleSearch(term: string)
      modifies this
      ensures searchTerm == term && allUsers == old(allUsers) && users == LocalFilter(allUsers, term)
      ensures loading == old(loading) && error == old(error)
      ensures Consistent()
    {
      searchTerm := term;
      users := LocalFilter(allUsers, searchTerm);
    }
  }
}
