/** The group leader's payment table (frontend/src/pages/admin/group-leader-tables.jsx):
    the group's rows as fetched (`allRows`), the rows shown (`filteredRows`, which an
    effect recomputes from `allRows` whenever the search term or `allRows` changes),
    ticking a participant as paid, the confirmation before un-ticking, the delete
    handler, and the two summary figures. */
module LeaderTables {
  import opened Wrappers
  import opened Text
  import opened Seqs
  import opened LeaderController
  import UserModel

  /** `${first_name} ${middle_name} ${last_name}`: a missing middle name renders as "null". */
  function NameText(r: GroupRow): (t: string)
    ensures |t| >= |r.first_name| + |r.last_name| + 2
    ensures t[..|r.first_name|] == r.first_name && t[|t| - |r.last_name|..] == r.last_name
  {
    r.first_name + " " + (match r.middle_name case None => "null" case Some(m) => m) + " " + r.last_name
  }

  /** The search test: the lower-cased name text contains the lower-cased term,
      which is not trimmed here. */
  function NameMatches(search: string): GroupRow -> bool {
    (r: GroupRow) => Contains(Lower(NameText(r)), Lower(search))
  }

  /** What the search effect shows: every row when the term is blank (`trim() === ""`,
      which `TrimEmptyIffBlank` shows is the same test), else the rows whose name
      matches, in their order. */
  function Shown(all: seq<GroupRow>, search: string): seq<GroupRow> {
    if IsBlank(search) then all else Filter(all, NameMatches(search))
  }

  /** The search shows every row for a blank term; otherwise exactly the matching
      rows, in their order. */
  lemma ShownMeaning(all: seq<GroupRow>, search: string)
    ensures IsBlank(search) ==> Shown(all, search) == all
    ensures IsSubsequence(Shown(all, search), all)
    ensures !IsBlank(search) ==> forall i :: 0 <= i < |Shown(all, search)| ==> NameMatches(search)(Shown(all, search)[i])
    ensures forall i :: 0 <= i < |all| && NameMatches(search)(all[i]) ==> all[i] in Shown(all, search)
  {
    if IsBlank(search) {
      SubsequenceRefl(all);
    } else {
      FilterIsSubsequence(all, NameMatches(search));
    }
  }

  /** `{ ...row, payment_status }` on the row with that id. */
  function SetStatus(id: string, status: bool): GroupRow -> GroupRow {
    (r: GroupRow) => if r.id == id then r.(payment_status := status) else r
  }

  /** `rows.map(...)` giving the rows with that id the new status. */
  function WithStatus(rows: seq<GroupRow>, id: string, status: bool): (r: seq<GroupRow>)
    ensures |r| == |rows|
    ensures forall i :: 0 <= i < |rows| && rows[i].id == id ==> r[i] == rows[i].(payment_status := status)
    ensures forall i :: 0 <= i < |rows| && rows[i].id != id ==> r[i] == rows[i]
  {
    Map(rows, SetStatus(id, status))
  }

  function NotId(id: string): GroupRow -> bool {
    (r: GroupRow) => r.id != id
  }

  /** `rows.filter((r) => r.id !== id)`. */
  function Without(rows: seq<GroupRow>, id: string): (r: seq<GroupRow>)
    ensures IsSubsequence(r, rows)
    ensures forall i :: 0 <= i < |r| ==> r[i].id != id
    ensures forall i :: 0 <= i < |rows| && rows[i].id != id ==> rows[i] in r
  {
    FilterIsSubsequence(rows, NotId(id));
    Filter(rows, NotId(id))
  }

  function IsPaid(r: GroupRow): bool {
    r.payment_status
  }

  /** `totalPaid`: the number of shown rows whose status is true. */
  function TotalPaid(rows: seq<GroupRow>): (n: nat)
    ensures n <= |rows|
    ensures n == 0 <==> forall i :: 0 <= i < |rows| ==> !rows[i].payment_status
    ensures n == |rows| <==> forall i :: 0 <= i < |rows| ==> rows[i].payment_status
  {
    Count(rows, IsPaid)
  }

  /** `groupName`: the first shown row's group, "N/A" when nothing is shown. */
  function GroupName(rows: seq<GroupRow>): (g: string)
    ensures rows == [] ==> g == "N/A"
    ensures rows != [] ==> g == rows[0].group
  {
    if |rows| > 0 then rows[0].group else "N/A"
  }

  /** The names do not involve the status, so the search shows the same rows before
      and after a status change, with the change applied. */
  lemma ShownWithStatus(all: seq<GroupRow>, search: string, id: string, status: bool)
    ensures Shown(WithStatus(all, id, status), search) == WithStatus(Shown(all, search), id, status)
  {
    if !IsBlank(search) {
      var q := NameMatches(search);
      var f := SetStatus(id, status);
      assert forall x :: q(x) == q(f(x)) by {
        forall x ensures q(x) == q(f(x)) {
          assert NameText(f(x)) == NameText(x);
        }
      }
      FilterMap(all, f, q, q);
    }
  }

  /** Searching and deleting commute. */
  lemma ShownWithout(all: seq<GroupRow>, search: string, id: string)
    ensures Shown(Without(all, id), search) == Without(Shown(all, search), id)
  {
    if !IsBlank(search) {
      FilterCommute(all, NotId(id), NameMatches(search));
    }
  }

  /** With unique ids, ticking an unpaid row raises the paid count by one and
      un-ticking a paid row lowers it by one. */
  lemma TotalPaidAfterChange(rows: seq<GroupRow>, k: nat, status: bool)
    requires k < |rows| && forall i, j :: 0 <= i < j < |rows| ==> rows[i].id != rows[j].id
    ensures var after := TotalPaid(WithStatus(rows, rows[k].id, status));
      && (!rows[k].payment_status && status ==> after == TotalPaid(rows) + 1)
      && (rows[k].payment_status && !status ==> after + 1 == TotalPaid(rows))
      && (rows[k].payment_status == status ==> after == TotalPaid(rows))
  {
    var t := WithStatus(rows, rows[k].id, status);
    assert t == rows[k := rows[k].(payment_status := status)];
    CountUpdate(rows, k, rows[k].(payment_status := status), IsPaid);
  }

  /** As written, the status update reaches `filteredRows` only. The next time the
      effect runs (when the search term is edited) it rebuilds the shown rows from
      `allRows`, where the row still has its old status: a participant just ticked
      as paid is shown unpaid again although the store says paid. */
  lemma StaleStatusAsWritten(all: seq<GroupRow>, search: string, k: nat, search2: string)
    requires k < |all| && !all[k].payment_status
    requires forall i, j :: 0 <= i < j < |all| ==> all[i].id != all[j].id
    requires NameMatches(search)(all[k]) && NameMatches(search2)(all[k])
    ensures var shownAfterTick := WithStatus(Shown(all, search), all[k].id, true);
      && (exists i :: 0 <= i < |shownAfterTick| && shownAfterTick[i] == all[k].(payment_status := true))
      && all[k] in Shown(all, search2)
      && all[k].(payment_status := true) !in Shown(all, search2)
  {
    ShownMeaning(all, search);
    ShownMeaning(all, search2);
    var s := Shown(all, search);
    var i :| 0 <= i < |s| && s[i] == all[k];
    var t := WithStatus(s, all[k].id, true);
    assert t[i] == all[k].(payment_status := true);
    var s2 := Shown(all, search2);
    SubsequenceMembers(s2, all);
    forall j | 0 <= j < |all| ensures all[j] != all[k].(payment_status := true) {
      if j != k {
        assert all[j].id != all[k].id;
      }
    }
  }

  /** Corrected: with the update applied to `allRows` as well (as the attendance
      panel does), whatever term is searched afterwards shows that participant with
      the new status. */
  lemma StatusSurvivesSearch(all: seq<GroupRow>, id: string, status: bool, search2: string)
    ensures forall i :: 0 <= i < |Shown(WithStatus(all, id, status), search2)| ==>
      var r := Shown(WithStatus(all, id, status), search2)[i];
      r.id == id ==> r.payment_status == status
  {
    ShownWithStatus(all, search2, id, status);
  }

  /** The page's state. `selectedRow` is the `{ id, payment_status }` waiting for the
      confirmation; `deleteRow` is never set, since the page's delete button and its
      click handler are commented out. */
  class Table {
    var allRows: seq<GroupRow>
    var filteredRows: seq<GroupRow>
    var searchName: string
    var selectedRow: Option<(string, bool)>
    var confirmOpen: bool
    var deleteRow: Option<GroupRow>
    var deleteOpen: bool

    /** The rows shown are what the search effect computes. */
    predicate Consistent()
      reads this
    {
      filteredRows == Shown(allRows, searchName)
    }

    /** The confirmation dialog is only open with a row waiting for it. */
    predicate Valid()
      reads this
    {
      confirmOpen ==> selectedRow.Some?
    }

    constructor ()
      ensures allRows == [] && filteredRows == [] && searchName == ""
      ensures selectedRow.None? && !confirmOpen && deleteRow.None? && !deleteOpen
      ensures Consistent() && Valid()
    {
      allRows := [];
      filteredRows := [];
      searchName := "";
      selectedRow := None;
      confirmOpen := false;
      deleteRow := None;
      deleteOpen := false;
    }

    /** The fetch: on a 200 with data, both lists get the data and the effect then
      recomputes the shown rows; otherwise nothing changes. */
    method Loaded(data: Option<seq<GroupRow>>)
      modifies this
      ensures data.Some? ==> allRows == data.value && filteredRows == Shown(data.value, searchName)
      ensures data.None? ==> allRows == old(allRows) && filteredRows == old(filteredRows)
      ensures searchName == old(searchName) && selectedRow == old(selectedRow) && confirmOpen == old(confirmOpen)
      ensures deleteRow == old(deleteRow) && deleteOpen == old(deleteOpen)
      ensures old(Consistent()) ==> Consistent()
    {
      if data.Some? {
        filteredRows := data.value;
        allRows := data.value;
        filteredRows := Shown(allRows, searchName);
      }
    }

    /** Editing the search field; the effect follows. */
    method SetSearch(s: string)
      modifies this
      ensures searchName == s && allRows == old(allRows) && filteredRows == Shown(allRows, s)
      ensures selectedRow == old(selectedRow) && confirmOpen == old(confirmOpen)
      ensures deleteRow == old(deleteRow) && deleteOpen == old(deleteOpen)
      ensures Consistent()
    {
      searchName := s;
      filteredRows := Shown(allRows, searchName);
    }

    /** `updatePaymentStatus` as written; `ok` is whether the PATCH answered 200.
      Only the shown rows change; `allRows` keeps the old status. */
    method UpdatePaymentStatus(id: string, status: bool, ok: bool)
      modifies this
      ensures filteredRows == (if ok then WithStatus(old(filteredRows), id, status) else old(filteredRows))
      ensures allRows == old(allRows) && searchName == old(searchName)
      ensures selectedRow == old(selectedRow) && confirmOpen == old(confirmOpen)
      ensures deleteRow == old(deleteRow) && deleteOpen == old(deleteOpen)
    {
      if ok {
        filteredRows := WithStatus(filteredRows, id, status);
      }
    }

    /** The update with `allRows` changed too, so that the effect, which runs again
      because `allRows` changed, shows the same rows the shown list was updated to. */
    method UpdatePaymentStatusBoth(id: string, status: bool, ok: bool)
      modifies this
      ensures ok ==> allRows == WithStatus(old(allRows), id, status)
      ensures ok ==> filteredRows == Shown(allRows, searchName)
      ensures ok && old(Consistent()) ==> filteredRows == WithStatus(old(filteredRows), id, status)
      ensures !ok ==> allRows == old(allRows) && filteredRows == old(filteredRows)
      ensures searchName == old(searchName)
      ensures selectedRow == old(selectedRow) && confirmOpen == old(confirmOpen)
      ensures deleteRow == old(deleteRow) && deleteOpen == old(deleteOpen)
      ensures old(Consistent()) ==> Consistent()
    {
      if ok {
        ShownWithStatus(allRows, searchName, id, status);
        filteredRows := WithStatus(filteredRows, id, status);
        allRows := WithStatus(allRows, id, status);
        filteredRows := Shown(allRows, searchName);
      }
    }

    /** `handleCheckboxChange` for a row's id and its shown status, as written: a
      ticked row asks for confirmation first, an unticked one is marked paid at
      once by `updatePaymentStatus`, which changes the shown rows only. */
    method HandleCheckboxChange(id: string, currentStatus: bool, ok: bool)
      requires Valid()
      modifies this
      ensures Valid()
      ensures allRows == old(allRows)
      ensures currentStatus ==>
        && selectedRow == Some((id, false)) && confirmOpen && filteredRows == old(filteredRows)
      ensures !currentStatus ==>
        && selectedRow == old(selectedRow) && confirmOpen == old(confirmOpen)
        && filteredRows == (if ok then WithStatus(old(filteredRows), id, true) else old(filteredRows))
      ensures searchName == old(searchName) && deleteRow == old(deleteRow) && deleteOpen == old(deleteOpen)
    {
      if currentStatus {
        selectedRow := Some((id, false));
        confirmOpen := true;
      } else {
        UpdatePaymentStatus(id, true, ok);
      }
    }

    /** "Yes, Uncheck", as written: close the dialog and forget the row, then apply
      the waiting change to the shown rows when the request answers (the update is
      asynchronous, so the two state changes that follow its call in the source
      take effect first). */
    method ConfirmUncheck(ok: bool)
      requires Valid() && confirmOpen
      modifies this
      ensures Valid() && !confirmOpen && selectedRow.None?
      ensures allRows == old(allRows)
      ensures filteredRows ==
        (if ok then WithStatus(old(filteredRows), old(selectedRow).value.0, old(selectedRow).value.1) else old(filteredRows))
      ensures searchName == old(searchName) && deleteRow == old(deleteRow) && deleteOpen == old(deleteOpen)
    {
      var (id, status) := selectedRow.value;
      confirmOpen := false;
      selectedRow := None;
      UpdatePaymentStatus(id, status, ok);
    }

    /** `handleCheckboxChange` with the corrected update, `UpdatePaymentStatusBoth`:
      the new status reaches `allRows`, so the rows shown stay what the search
      effect computes. */
    method HandleCheckboxChangeCorrected(id: string, currentStatus: bool, ok: bool)
      requires Valid()
      modifies this
      ensures Valid()
      ensures currentStatus ==>
        && selectedRow == Some((id, false)) && confirmOpen
        && allRows == old(allRows) && filteredRows == old(filteredRows)
      ensures !currentStatus ==>
        && selectedRow == old(selectedRow) && confirmOpen == old(confirmOpen)
        && allRows == (if ok then WithStatus(old(allRows), id, true) else old(allRows))
      ensures searchName == old(searchName) && deleteRow == old(deleteRow) && deleteOpen == old(deleteOpen)
      ensures old(Consistent()) ==> Consistent()
    {
      if currentStatus {
        selectedRow := Some((id, false));
        confirmOpen := true;
      } else {
        UpdatePaymentStatusBoth(id, true, ok);
      }
    }

    /** "Yes, Uncheck" with the corrected update. */
    method ConfirmUncheckCorrected(ok: bool)
      requires Valid() && confirmOpen
      modifies this
      ensures Valid() && !confirmOpen && selectedRow.None?
      ensures allRows == (if ok then WithStatus(old(allRows), old(selectedRow).value.0, old(selectedRow).value.1) else old(allRows))
      ensures searchName == old(searchName) && deleteRow == old(deleteRow) && deleteOpen == old(deleteOpen)
      ensures old(Consistent()) ==> Consistent()
    {
      var (id, status) := selectedRow.value;
      confirmOpen := false;
      selectedRow := None;
      UpdatePaymentStatusBoth(id, status, ok);
    }

    /** "Cancel" (or closing the dialog): only the dialog closes. */
    method CancelConfirm()
      modifies this
      ensures !confirmOpen && selectedRow == old(selectedRow)
      ensures allRows == old(allRows) && filteredRows == old(filteredRows) && searchName == old(searchName)
      ensures deleteRow == old(deleteRow) && deleteOpen == old(deleteOpen)
      ensures Valid()
    {
      confirmOpen := false;
    }

    /** `handleDeleteUser`; `ok` is whether the DELETE answered 200. Without a
      `deleteRow` reading its id throws inside the `try`, so no request is made.
      After a delete the effect runs again because `allRows` changed. */
    method HandleDeleteUser(ok: bool)
      modifies this
      ensures deleteRow.None? && !deleteOpen
      ensures old(deleteRow).None? || !ok ==> allRows == old(allRows) && filteredRows == old(filteredRows)
      ensures old(deleteRow).Some? && ok ==>
        && allRows == Without(old(allRows), old(deleteRow).value.id)
        && filteredRows == Shown(allRows, searchName)
      ensures old(deleteRow).Some? && ok && old(Consistent()) ==>
        filteredRows == Without(old(filteredRows), old(deleteRow).value.id)
      ensures searchName == old(searchName) && selectedRow == old(selectedRow) && confirmOpen == old(confirmOpen)
      ensures old(Consistent()) ==> Consistent()
    {
      if deleteRow.Some? && ok {
        var id := deleteRow.value.id;
        ShownWithout(allRows, searchName, id);
        filteredRows := Without(filteredRows, id);
        allRows := Without(allRows, id);
        filteredRows := Shown(allRows, searchName);
      }
      deleteOpen := false;
      deleteRow := None;
    }
  }

  /** After loading a leader's group data with an empty search, the table shows every
      stored user of the leader's group, every shown row is of that group, and the
      heading names that group. */
  lemma LoadedShowsTheGroup(leaders: seq<Leader>, users: seq<UserModel.User>, k: nat)
    requires LeaderEmailsUnique(leaders) && k < |leaders| && leaders[k].email != ""
    ensures var r := GroupData(leaders, users, leaders[k].email);
      && r.Ok?
      && Shown(r.data, "") == r.data
      && (forall i :: 0 <= i < |users| && users[i].group == leaders[k].group ==> GroupRowOf(users[i]) in Shown(r.data, ""))
      && (r.data != [] ==> GroupName(Shown(r.data, "")) == leaders[k].group)
  {
    GroupDataIsTheGroup(leaders, users, k);
  }
}
