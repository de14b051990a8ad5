/** The attendance start page (frontend/src/pages/attendance/AttendanceHome.jsx): a
    day and a session, both required, open the scanner with the two as query
    parameters, written in unencoded. */
module AttendanceHome {
  import opened Text

  /** The offered values. */
  const Days: seq<string> := ["Aug 1", "Aug 2", "Aug 3"]
  const Sessions: seq<string> := ["Session 1", "Session 2", "Session 3"]

  datatype HomeOutcome = Alert(message: string) | Navigate(path: string)

  const ScanPrefix: string := "/scan?"

  /** The query part of the scan path. */
  function ScanQuery(day: string, session: string): string {
    "day=" + day + "&session=" + session
  }

  /** `handleSubmit`. */
  function HandleSubmit(day: string, session: string): (r: HomeOutcome)
    ensures day == "" || session == "" <==> r == Alert("Select both fields")
    ensures r.Navigate? ==> r.path == ScanPrefix + ScanQuery(day, session)
  {
    if day == "" || session == "" then Alert("Select both fields")
    else Navigate(ScanPrefix + ScanQuery(day, session))
  }

  /** Values without '&' or '=' come back from the query: it splits on '&' into the two
      parameters, and each splits on '=' into its name and its value. */
  lemma {:induction false} QuerySplits(day: string, session: string)
    requires !HasChar(day, '&') && !HasChar(day, '=') && !HasChar(session, '&') && !HasChar(session, '=')
    ensures Split(ScanQuery(day, session), '&') == ["day=" + day, "session=" + session]
    ensures Split("day=" + day, '=') == ["day", day]
    ensures Split("session=" + session, '=') == ["session", session]
  {
    var first := "day=" + day;
    assert !HasChar(first, '&') by {
      forall i | 0 <= i < |first| ensures first[i] != '&' {
        if i >= 4 { assert first[i] == day[i - 4]; }
      }
    }
    var second := "session=" + session;
    assert !HasChar(second, '&') by {
      forall i | 0 <= i < |second| ensures second[i] != '&' {
        if i >= 8 { assert second[i] == session[i - 8]; }
      }
    }
    assert ScanQuery(day, session) == first + ['&'] + second;
    SplitAfterPiece(first, '&', second);
    SplitNoSeparator(second, '&');
    SplitAfterPiece("day", '=', day);
    SplitNoSeparator(day, '=');
    assert first == "day" + ['='] + day;
    SplitAfterPiece("session", '=', session);
    SplitNoSeparator(session, '=');
    assert second == "session" + ['='] + session;
  }

  /** Every day and session the page offers passes through the query unchanged. */
  lemma OfferedValuesRoundTrip(i: nat, j: nat)
    requires i < |Days| && j < |Sessions|
    ensures HandleSubmit(Days[i], Sessions[j]).Navigate?
    ensures Split(ScanQuery(Days[i], Sessions[j]), '&') == ["day=" + Days[i], "session=" + Sessions[j]]
    ensures Split("day=" + Days[i], '=') == ["day", Days[i]]
    ensures Split("session=" + Sessions[j], '=') == ["session", Sessions[j]]
  {
    var d, s := Days[i], Sessions[j];
    assert !HasChar(d, '&') && !HasChar(d, '=') && !HasChar(s, '&') && !HasChar(s, '=') by {
      assert |d| == 5 && |s| == 9;
    }
    QuerySplits(d, s);
  }
}
