/** The card finder (frontend/src/pages/ShowCard.jsx): a non-empty email opens the
    card page with the email percent-encoded into its query string. */
module ShowCard {
  import opened Wrappers
  import opened Text
  import Uri

  datatype CardOutcome = Alert(message: string) | Navigate(path: string)

  const CardPrefix: string := "/card?email="

  /** `handleSubmit`. */
  function HandleSubmit(email: string): (r: CardOutcome)
    ensures email == "" <==> r == Alert("Please enter a registered email")
    ensures r.Navigate? ==> |r.path| >= |CardPrefix| && r.path[..|CardPrefix|] == CardPrefix
    ensures r.Navigate? ==> r.path[|CardPrefix|..] == Uri.Encode(email)
  {
    if email == "" then Alert("Please enter a registered email")
    else Navigate(CardPrefix + Uri.Encode(email))
  }

  /** The query value of a card path: what follows the prefix. */
  function QueryValue(path: string): string
    requires |path| >= |CardPrefix|
  {
    path[|CardPrefix|..]
  }

  /** The encoded email cannot end the parameter early or start another one, and
      decoding it gives back exactly the email typed. */
  lemma CardQueryRoundTrip(email: string)
    requires email != ""
    ensures var v := QueryValue(HandleSubmit(email).path);
      && (forall i :: 0 <= i < |v| ==> v[i] != '&' && v[i] != '=' && v[i] != '?')
      && Uri.Decode(v) == Some(email)
  {
    Uri.EncodedHasNoDelimiters(email);
    Uri.DecodeEncode(email);
  }
}
