/** components/Hangouts/CreateHangoutForm.tsx: the checks made before a new
 *  hangout is handed to the dashboard, and the matching state of the send
 *  button. */
module CreateHangoutForm {
  import opened Text
  import opened Models

  const DescriptionMissing := "Please provide an activity description."
  const NoParticipants := "Please select at least one participant."

  datatype SubmitOutcome = ShowAlert(message: string) | Submit(activityDescription: string, details: string)

  /** `handleSubmit`: the description is checked first, then the participants;
   *  `onSubmit` receives the fields exactly as typed. */
  function HandleSubmit(activityDescription: string, details: string, participants: seq<User>): (r: SubmitOutcome)
    ensures r.Submit? <==> !IsBlank(activityDescription) && |participants| > 0
    ensures IsBlank(activityDescription) ==> r == ShowAlert(DescriptionMissing)
    ensures !IsBlank(activityDescription) && |participants| == 0 ==> r == ShowAlert(NoParticipants)
    ensures r.Submit? ==> r.activityDescription == activityDescription && r.details == details
  {
    TrimIsEmptyIffBlank(activityDescription);
    if Trim(activityDescription) == "" then ShowAlert(DescriptionMissing)
    else if |participants| == 0 then ShowAlert(NoParticipants)
    else Submit(activityDescription, details)
  }

  /** `disabled` of "Send Hangout Request". */
  predicate SubmitDisabled(activityDescription: string, participants: seq<User>) {
    |participants| == 0 || Trim(activityDescription) == ""
  }

  /** The button is disabled exactly when submitting would only raise an alert. */
  lemma SubmitDisabledIffAlert(activityDescription: string, details: string, participants: seq<User>)
    ensures SubmitDisabled(activityDescription, participants) <==> HandleSubmit(activityDescription, details, participants).ShowAlert?
  {
    TrimIsEmptyIffBlank(activityDescription);
  }
}
