/** The group leader's attendance panel (frontend/src/pages/admin/group-leader-panel-tables.jsx):
    the group's rows, a search over the full name, a session selector, and one
    checkbox per row that records attendance for the selected session. Unlike the
    payment table, an update here changes both `allRows` and `filteredRows`. */
module LeaderPanelTables {
  import opened Wrappers
  import opened Text
  import opened Seqs

  /** A row of the panel: the fields it shows plus one flag per session key
      (`s1` ... `s5`); a key that is absent is `undefined` in the row. */
  datatype PanelRow = PanelRow(
    id: string,
    full_name: Option<string>,
    phone: string,
    reference: string,
    group: string,
    sessions: map<string, bool>)

  /** The sessions the selector offers; the empty value is "All Sessions". */
  const AllowedSessions: seq<string> := ["s1", "s2", "s3", "s4", "s5"]

  /** The selector's label for a session key: `Session ${session.slice(1)}`. */
  function SessionLabel(session: string): (text: string)
    ensures |text| >= 8 && text[..8] == "Session "
    ensures |session| >= 1 ==> text[8..] == session[1..]
  {
    "Session " + (if |session| >= 1 then session[1..] else "")
  }

  /** The offered sessions are labelled "Session 1" to "Session 5". */
  lemma AllowedSessionLabels()
    ensures forall i :: 0 <= i < |AllowedSessions| ==> SessionLabel(AllowedSessions[i]) == "Session " + [DigitChar(i + 1)]
  {
  }

  /** The name cell: `row.full_name || "N.A."`. */
  function DisplayName(r: PanelRow): (t: string)
    ensures t == "N.A." <==> r.full_name.None? || r.full_name == Some("") || r.full_name == Some("N.A.")
  {
    match r.full_name
    case None => "N.A."
    case Some(n) => if n == "" then "N.A." else n
  }

  /** `${row.full_name}`: a missing name renders as "null". */
  function NameText(r: PanelRow): string {
    match r.full_name
    case None => "null"
    case Some(n) => n
  }

  predicate RowMatches(r: PanelRow, search: string) {
    ContainsIgnoreCase(NameText(r), search)
  }

  function NameMatches(search: string): PanelRow -> bool {
    (r: PanelRow) => RowMatches(r, search)
  }

  /** What the search effect shows: every row for a blank term, else the rows whose
      full name contains the term ignoring case. */
  function Shown(all: seq<PanelRow>, search: string): seq<PanelRow> {
    if IsBlank(search) then all else Filter(all, NameMatches(search))
  }

  /** Blank terms show everything; other terms show exactly the matching rows. */
  lemma ShownMeaning(all: seq<PanelRow>, search: string)
    ensures IsBlank(search) ==> Shown(all, search) == all
    ensures !IsBlank(search) ==> forall i :: 0 <= i < |Shown(all, search)| ==>
      Shown(all, search)[i] in all && RowMatches(Shown(all, search)[i], search)
    ensures forall i :: 0 <= i < |all| && RowMatches(all[i], search) ==> all[i] in Shown(all, search)
  {
  }

  /** `checked={row[selectedSession] === true}`. */
  predicate Checked(r: PanelRow, session: string) {
    session in r.sessions && r.sessions[session]
  }

  /** `{ ...row, [session]: value }` on the rows with that id. */
  function SetSession(id: string, session: string, value: bool): PanelRow -> PanelRow {
    (r: PanelRow) => if r.id == id then r.(sessions := r.sessions[session := value]) else r
  }

  function WithSession(rows: seq<PanelRow>, id: string, session: string, value: bool): (r: seq<PanelRow>)
    ensures |r| == |rows|
    ensures forall i :: 0 <= i < |rows| && rows[i].id == id ==>
      r[i] == rows[i].(sessions := rows[i].sessions[session := value])
    ensures forall i :: 0 <= i < |rows| && rows[i].id != id ==> r[i] == rows[i]
  {
    Map(rows, SetSession(id, session, value))
  }

  /** A session update checks (or clears) that session's box on the rows with that
      id and leaves every other session's box, and every other row, as it was. */
  lemma WithSessionChecks(rows: seq<PanelRow>, id: string, session: string, value: bool, other: string)
    requires other != session
    ensures forall i :: 0 <= i < |rows| && rows[i].id == id ==>
      Checked(WithSession(rows, id, session, value)[i], session) == value
    ensures forall i :: 0 <= i < |rows| ==>
      Checked(WithSession(rows, id, session, value)[i], other) == Checked(rows[i], other)
  {
  }

  /** The names do not involve the sessions, so searching and updating commute. */
  lemma ShownWithSession(all: seq<PanelRow>, search: string, id: string, session: string, value: bool)
    ensures Shown(WithSession(all, id, session, value), search) == WithSession(Shown(all, search), id, session, value)
  {
    if !IsBlank(search) {
      var q := NameMatches(search);
      var f := SetSession(id, session, value);
      assert forall x :: q(x) == q(f(x)) by {
        forall x ensures q(x) == q(f(x)) {
          assert NameText(f(x)) == NameText(x);
        }
      }
      FilterMap(all, f, q, q);
    }
  }

  /** After an update, whatever the search, every shown row of that participant
      carries the new value for that session. */
  lemma UpdateSurvivesSearch(all: seq<PanelRow>, id: string, session: string, value: bool, search: string)
    ensures forall i :: 0 <= i < |Shown(WithSession(all, id, session, value), search)| ==>
      var r := Shown(WithSession(all, id, session, value), search)[i];
      r.id == id ==> Checked(r, session) == value
  {
    ShownWithSession(all, search, id, session, value);
  }

  /** The panel's state; `selectedRow` is the `{ id, value: false, session }`
      waiting for the confirmation. */
  class Panel {
    var allRows: seq<PanelRow>
    var filteredRows: seq<PanelRow>
    var searchName: string
    var selectedSession: string
    var selectedRow: Option<(string, bool, string)>
    var confirmOpen: bool

    predicate Consistent()
      reads this
    {
      filteredRows == Shown(allRows, searchName)
    }

    predicate Valid()
      reads this
    {
      confirmOpen ==> selectedRow.Some?
    }

    constructor ()
      ensures allRows == [] && filteredRows == [] && searchName == "" && selectedSession == "s1"
      ensures selectedRow.None? && !confirmOpen
      ensures Consistent() && Valid()
    {
      allRows := [];
      filteredRows := [];
      searchName := "";
      selectedSession := "s1";
      selectedRow := None;
      confirmOpen := false;
    }

    /** The fetch, which runs again whenever the session changes: on a 200 with
      `user` data both lists get it and the search effect follows. */
    method Loaded(data: Option<seq<PanelRow>>)
      modifies this
      ensures data.Some? ==> allRows == data.value && filteredRows == Shown(data.value, searchName)
      ensures data.None? ==> allRows == old(allRows) && filteredRows == old(filteredRows)
      ensures searchName == old(searchName) && selectedSession == old(selectedSession)
      ensures selectedRow == old(selectedRow) && confirmOpen == old(confirmOpen)
      ensures old(Consistent()) ==> Consistent()
    {
      if data.Some? {
        filteredRows := data.value;
        allRows := data.value;
        filteredRows := Shown(allRows, searchName);
      }
    }

    /** Choosing a session in the selector; the refetch it causes is `Loaded`. */
    method SelectSession(session: string)
      modifies this
      ensures selectedSession == session
      ensures allRows == old(allRows) && filteredRows == old(filteredRows) && searchName == old(searchName)
      ensures selectedRow == old(selectedRow) && confirmOpen == old(confirmOpen)
    {
      selectedSession := session;
    }

    method SetSearch(s: string)
      modifies this
      ensures searchName == s && allRows == old(allRows) && filteredRows == Shown(allRows, s)
      ensures selectedSession == old(selectedSession)
      ensures selectedRow == old(selectedRow) && confirmOpen == old(confirmOpen)
      ensures Consistent()
    {
      searchName := s;
      filteredRows := Shown(allRows, searchName);
    }

    /** `updateAttendance`; `ok` is whether the POST answered 200. Both lists get the
      new value, and the effect that then runs shows the same rows. */
    method UpdateAttendance(id: string, value: bool, session: string, ok: bool)
      modifies this
      ensures ok ==> allRows == WithSession(old(allRows), id, session, value)
      ensures ok ==> filteredRows == Shown(allRows, searchName)
      ensures ok && old(Consistent()) ==> filteredRows == WithSession(old(filteredRows), id, session, value)
      ensures !ok ==> allRows == old(allRows) && filteredRows == old(filteredRows)
      ensures searchName == old(searchName) && selectedSession == old(selectedSession)
      ensures selectedRow == old(selectedRow) && confirmOpen == old(confirmOpen)
      ensures old(Consistent()) ==> Consistent()
    {
      if ok {
        ShownWithSession(allRows, searchName, id, session, value);
        filteredRows := WithSession(filteredRows, id, session, value);
        allRows := WithSession(allRows, id, session, value);
        filteredRows := Shown(allRows, searchName);
      }
    }

    /** `handleCheckboxChange(row.id, selectedSession, row[selectedSession])`:
      `checked` is whether that value is `true`. A checked box asks for
      confirmation; any other value is set to true at once. */
    method HandleCheckboxChange(id: string, session: string, checked: bool, ok: bool)
      requires Valid()
      modifies this
      ensures Valid()
      ensures checked ==>
        && selectedRow == Some((id, false, session)) && confirmOpen
        && allRows == old(allRows) && filteredRows == old(filteredRows)
      ensures !checked ==>
        && selectedRow == old(selectedRow) && confirmOpen == old(confirmOpen)
        && allRows == (if ok then WithSession(old(allRows), id, session, true) else old(allRows))
      ensures searchName == old(searchName) && selectedSession == old(selectedSession)
      ensures old(Consistent()) ==> Consistent()
    {
      if checked {
        selectedRow := Some((id, false, session));
        confirmOpen := true;
      } else {
        UpdateAttendance(id, true, session, ok);
      }
    }

    /** "Yes, Uncheck": the dialog closes and the row is forgotten; the waiting
      change is applied when the request answers. */
    method ConfirmUncheck(ok: bool)
      requires Valid() && confirmOpen
      modifies this
      ensures Valid() && !confirmOpen && selectedRow.None?
      ensures var sel := old(selectedRow).value;
        allRows == (if ok then WithSession(old(allRows), sel.0, sel.2, sel.1) else old(allRows))
      ensures searchName == old(searchName) && selectedSession == old(selectedSession)
      ensures old(Consistent()) ==> Consistent()
    {
      var (id, value, session) := selectedRow.value;
      confirmOpen := false;
      selectedRow := None;
      UpdateAttendance(id, value, session, ok);
    }

    method CancelConfirm()
      modifies this
      ensures !confirmOpen && selectedRow == old(selectedRow)
      ensures allRows == old(allRows) && filteredRows == old(filteredRows)
      ensures searchName == old(searchName) && selectedSession == old(selectedSession)
      ensures Valid()
    {
      confirmOpen := false;
    }
  }
}
