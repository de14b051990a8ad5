/** The group log-in page (frontend/src/pages/admin/group-leader-login.jsx): a group
    chosen from a fixed list opens that group's page. */
module LeaderLogin {
  import opened Wrappers

  /** The groups the selector offers, "All" first. */
  const GroupNames: seq<string> := [
    "All", "Param", "Pavitra", "Pulkit", "Paramanand", "Samp", "Atmiya", "Suhradbhav",
    "Bhulku", "Saradta", "Dasatva", "Swikar", "Ekta", "Sahaj", "Seva Nadiad",
    "Smruti Nadiad", "Suhradbhav Nadiad", "Swadharma Nadiad", "Bhakti Zone",
    "Parabhakti Zone", "Anuvrutti Zone", "Mahemdavad"]

  const GroupPagePrefix: string := "/hpys2025-group-leader-369/"

  /** The list holds 22 distinct names, none empty, and "All" is the first. */
  lemma GroupNamesShape()
    ensures |GroupNames| == 22 && GroupNames[0] == "All" && "All" in GroupNames
    ensures forall i, j :: 0 <= i < j < |GroupNames| ==> GroupNames[i] != GroupNames[j]
    ensures forall i :: 0 <= i < |GroupNames| ==> GroupNames[i] != ""
  {
  }

  /** What a submit leaves: the error line, a toast, and where it navigates. */
  datatype LoginResult = LoginResult(error: string, toast: Option<string>, navigateTo: Option<string>)

  /** `handleSubmit` for the selected group ("" when none is chosen). */
  function HandleSubmit(selectedGroup: string): (r: LoginResult)
    ensures selectedGroup == "" <==> r.error == "Please select a group"
    ensures selectedGroup == "" ==> r.navigateTo.None? && r.toast.None?
    ensures selectedGroup != "" ==> r.error == ""
    ensures r.navigateTo.Some? <==> selectedGroup in GroupNames
    ensures r.navigateTo.Some? ==> r.navigateTo.value == GroupPagePrefix + selectedGroup && r.toast.None?
    ensures r.toast.Some? <==> selectedGroup != "" && selectedGroup !in GroupNames
    ensures r.toast.Some? ==> r.toast.value == "Invalid group selected"
  {
    GroupNamesShape();
    if selectedGroup == "" then LoginResult("Please select a group", None, None)
    else if selectedGroup in GroupNames then LoginResult("", None, Some(GroupPagePrefix + selectedGroup))
    else LoginResult("", Some("Invalid group selected"), None)
  }

  /** The page opened names the group: the group is what follows the prefix. */
  lemma NavigationNamesTheGroup(g: string)
    requires g in GroupNames
    ensures var path := HandleSubmit(g).navigateTo.value;
      |path| > |GroupPagePrefix| && path[|GroupPagePrefix|..] == g
  {
    GroupNamesShape();
  }
}
