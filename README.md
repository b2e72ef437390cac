# Hangout planning with first- and second-degree connections — a Dafny model

The application lets a user plan a hangout with friends. A user names up to a
fixed number of first-degree friends. Inviting a friend of a friend (a
second-degree contact) is gated: when a hangout is created, every invited
participant who is neither a first-degree friend of the host nor an already
approved contact gets a connection request. The request goes to the first
mutual friend in the host's friend-list order. The hangout waits in
`pending_approval` until none of its requests is pending, then becomes
`pending`. Participants accept or reject, and the hangout is `confirmed` once
everybody (host included) has accepted. The host may cancel at any time,
which also rejects the hangout's pending requests.

The model covers the Express controllers that run this engine and the pure
decision rules the React screens apply on top of it:

- `seqs.dfy` (`Seqs`): the sequence operations the code relies on (`filter`,
  removal of every occurrence, `$addToSet`, insertion-ordered deduplication)
  and the subsequence relation.
- `text.dfy` (`Text`): the JavaScript string built-ins used by the rules:
  `trim`, ASCII `toLowerCase`/`toUpperCase`, `includes`, `split(' ')`,
  `substring(0, n)`.
- `models.dfy` (`Models`): the user, hangout and connection-request records,
  the two status enums, and the class `Db` holding the three collections as
  maps from id to record. Its invariant `Valid()` (the predicate `Consistent`)
  says that ids match their keys, that no user appears twice in `acceptedBy`
  or `rejectedBy` or in both, and that the approval gate is accurate: a
  hangout is `pending_approval` only while one of its requests is pending.
- `hangout_controller.dfy` (`HangoutController`): `createHangout` with the
  classification of participants and the request synthesis, `cancelHangout`,
  accept/reject, `getHangouts` and `populateHangout`.
- `connection_request_controller.dfy` (`ConnectionRequestController`):
  `getMyConnectionRequests` and `handleConnectionApproval`.
- `user_controller.dfy` (`UserController`): `updateUserProfile`.
- `dashboard_screen.dfy`, `connection_graph.dfy`, `profile_screen.dfy`,
  `onboarding_flow.dfy`, `create_hangout_form.dfy`, `avatar.dfy`: the screen
  and component rules. The three-step signup form is the class
  `OnboardingFlow.SignupForm`, whose fields are the component's state.

Each handler is one sequential step over the stores. It is a method with
`modifies db` that keeps `db.Valid()` and states its new state through pure
functions (`RequestDrafts`, `InsertMany`, `RejectPending`, `ApplyResponse`,
`RecordApproval`, `ReleaseIfResolved`, `UpdatedUser`). The lemmas are proved
about those functions. The acting user's id, the ids MongoDB would generate,
the random one-time password and the answers of network calls are
parameters. `MAX_FIRST_DEGREE_FRIENDS` is defined outside the modelled files,
so it is the parameter `maxFriends`.

## Model

| member | source | states |
|---|---|---|
| Models.FindUser | components/Connections/ConnectionGraph.tsx:36 | `find` by id over the client's user list: it answers the first listed user with that id, and nothing exactly when no listed user has the id |
| HangoutController.ParticipantSummaries | backend/src/controllers/hangoutController.ts:15 | participants the store does not know are dropped; every known participant appears with its stored name and picture; the result is no longer than the id list |
| HangoutController.SummariesFollowKnownIds | backend/src/controllers/hangoutController.ts:15 | the rehydrated participants are one summary per known id, in participant order |
| HangoutController.Populate | backend/src/controllers/hangoutController.ts:6-17 | the stored hangout is kept; a host is attached, with its stored name and picture, exactly when the store knows the host id; every known participant is listed with its stored name and picture, and nobody else |
| HangoutController.GetHangouts | backend/src/controllers/hangoutController.ts:20-31 | exactly the non-cancelled hangouts the user hosts or is invited to, each one the populated view of its stored hangout, and no others |
| HangoutController.FirstMutualFriend | backend/src/controllers/hangoutController.ts:63-65 | none exactly when the two friend lists share no id; otherwise the first id in host-friend-list order that the candidate also lists |
| HangoutController.Classify | backend/src/controllers/hangoutController.ts:56-67 | the five cases in both directions: first-degree friend; else approved contact; else unknown user; else approval is needed exactly when the first mutual friend in host order exists and is a non-empty id, and then the approver is that friend, a friend of both; otherwise no request |
| HangoutController.RequestDrafts | backend/src/controllers/hangoutController.ts:53-77 | every emitted request has the host as requester, an invited participant as requested user, the new hangout's id, and the approver the classification picks |
| HangoutController.RequestDraftsComplete | backend/src/controllers/hangoutController.ts:54-74 | every participant that needs approval gets its request, addressed to the first mutual friend |
| HangoutController.OneDraftPerApproval | backend/src/controllers/hangoutController.ts:53-77 | exactly one request per participant that needs approval, in participant order |
| HangoutController.NoDraftsIffNoneNeedsApproval | backend/src/controllers/hangoutController.ts:79-82 | no request is emitted exactly when no participant needs approval, which decides between `pending` and `pending_approval` |
| HangoutController.AllKnownNeedNoRequests | backend/src/controllers/hangoutController.ts:56-58 | inviting only first-degree friends and approved contacts emits no request |
| HangoutController.SecondDegreeRequests | backend/src/controllers/hangoutController.ts:53-77 | the loop that fills `secondDegreeConnectionRequests` produces exactly the requests of `RequestDrafts`, in participant order |
| HangoutController.Stored | backend/src/controllers/hangoutController.ts:68-81 | an inserted request carries the id MongoDB gives it, the schema's default status `pending`, and the draft's requester, requested user, approver and hangout |
| HangoutController.InsertMany | backend/src/controllers/hangoutController.ts:81 | the stored requests are the old ones, unchanged, plus one new pending request per draft under its fresh id |
| HangoutController.CreateKeepsConsistent | backend/src/controllers/hangoutController.ts:33-87 | adding a new hangout whose status is `pending_approval` exactly when requests were emitted, together with those requests, keeps the stores consistent |
| HangoutController.CreateHangout | backend/src/controllers/hangoutController.ts:33-87 | an unknown host answers 404 and changes nothing; otherwise the new hangout has the given participants, `acceptedBy = [host]`, empty `rejectedBy`, status `pending_approval` iff a request was emitted (else `pending`), the requests are inserted, users are untouched and the stores stay consistent |
| HangoutController.SecondDegreeInviteAwaitsApproval | backend/src/controllers/hangoutController.ts:53-84 | inviting a stored, not yet approved friend of a friend with exactly one mutual friend emits one request to that friend, stored as pending with the host as requester, and the new hangout is `pending_approval` |
| HangoutController.RejectPending | backend/src/controllers/hangoutController.ts:101-104 | afterwards the hangout has no pending request; exactly its pending requests became `rejected`; every other request is untouched |
| HangoutController.CancelKeepsConsistent | backend/src/controllers/hangoutController.ts:89-107 | cancelling from any status, `confirmed` included, and rejecting the pending requests keeps the stores consistent |
| HangoutController.CancelHangout | backend/src/controllers/hangoutController.ts:89-107 | a missing hangout answers 404 and a caller other than the host 403, both changing nothing; otherwise the hangout is `cancelled` from any status and its pending requests are rejected |
| HangoutController.ApplyResponse | backend/src/controllers/hangoutController.ts:117-130 | after accept (reject) the user is in `acceptedBy` (`rejectedBy`) exactly once and absent from the other list; every other user's entries are kept; the hangout is confirmed when `acceptedBy` counts every participant plus the host and its status is otherwise unchanged, so a reject never undoes `confirmed`; well-formed response lists stay well formed |
| HangoutController.ResponseIsIdempotent | backend/src/controllers/hangoutController.ts:117-125 | repeating the same response changes nothing |
| HangoutController.CancelledHangoutCanBeConfirmed | backend/src/controllers/hangoutController.ts:127-130 | neither membership nor status is checked: a cancelled hangout is confirmed once everybody has accepted |
| HangoutController.ResponseKeepsConsistent | backend/src/controllers/hangoutController.ts:110-134 | a response keeps the stores consistent |
| HangoutController.HandleHangoutResponse | backend/src/controllers/hangoutController.ts:110-134 | a missing hangout answers 404 and changes nothing; otherwise only that hangout changes, as `ApplyResponse` says, and the populated hangout is returned |
| ConnectionRequestController.MyConnectionRequests | backend/src/controllers/connectionRequestController.ts:6-15 | exactly the pending requests whose approver is the caller, in store order; the dashboard's `myPendingApprovalRequests` (screens/DashboardScreen.tsx:77-79) is the same filter |
| ConnectionRequestController.PendingCount | backend/src/controllers/connectionRequestController.ts:45-48 | the count is zero exactly when no request of the hangout is pending |
| ConnectionRequestController.RecordApproval | backend/src/controllers/connectionRequestController.ts:37-42 | only the requester's record changes, and only its approved list: with `$addToSet` semantics the list is unchanged when the requested user is already in it, and otherwise gains exactly that user at the end; a missing requester changes nothing |
| ConnectionRequestController.ApprovalPersists | backend/src/controllers/connectionRequestController.ts:37-42 | once approved, later hangouts of the same host never ask for approval of that user again |
| ConnectionRequestController.ReleaseIfResolved | backend/src/controllers/connectionRequestController.ts:50-57 | the hangout's status changes exactly when it was `pending_approval` and none of its requests is pending, and then to `pending`; every other status, `cancelled` included, and every other hangout is left alone |
| ConnectionRequestController.ApprovalKeepsConsistent | backend/src/controllers/connectionRequestController.ts:17-60 | deciding a pending request, remembering an approval and releasing the hangout keeps the stores consistent |
| ConnectionRequestController.DecisionKeepsGate | backend/src/controllers/connectionRequestController.ts:34-57 | after the decision and the release, a hangout awaits approval only while one of its requests is pending, and every pending request belongs to a hangout awaiting approval or confirmed |
| ConnectionRequestController.HandleConnectionApproval | backend/src/controllers/connectionRequestController.ts:17-60 | 404 for a missing request, 403 for a caller who is not its approver, 400 for a request already handled, in that order and changing nothing; otherwise the request takes the decision, an approval is remembered for the requester only, and the hangout is released when no request of it is pending |
| UserController.KnownFriendIds | backend/src/controllers/userController.ts:38-39 | exactly the sent ids that name a stored user, each once, never more than were sent |
| UserController.UpdatedUser | backend/src/controllers/userController.ts:27-40 | id, phone number and approved contacts never change; a supplied non-empty name or picture is stored, and a missing or empty one keeps the stored value; bio is replaced whenever supplied, even by an empty string; supplied friend ids replace the list by the known ones, deduplicated, with no cap |
| UserController.EmptyFieldsKeepNameButClearBio | backend/src/controllers/userController.ts:31-33 | empty strings keep the name and picture but clear the bio |
| UserController.UpdateIsIdempotent | backend/src/controllers/userController.ts:30-40 | sending the same update twice stores the same record as sending it once |
| UserController.DistinctKnownIdsAreKept | backend/src/controllers/userController.ts:36-40 | every distinct known id sent is stored, however many there are: the server does not enforce the friend cap |
| UserController.UpdateUserProfile | backend/src/controllers/userController.ts:20-57 | 403 when the caller is not the profile's owner and 404 for an unknown user, both changing nothing; otherwise the merged record is saved under its id and returned |
| DashboardScreen.ToggleParticipant | screens/DashboardScreen.tsx:36-44 | a selected user is removed (every entry with that id), every other entry is kept with its count and in its order; an unselected user is appended |
| DashboardScreen.ToggleTwiceRestores | screens/DashboardScreen.tsx:36-44 | selecting an unselected user and toggling again gives back the selection |
| DashboardScreen.UserHangouts | screens/DashboardScreen.tsx:72-75 | exactly the non-cancelled hangouts the user hosts or is listed in, in the order received |
| DashboardScreen.DashboardAgreesWithServer | screens/DashboardScreen.tsx:72-75 | for a stored user, the dashboard filter over a populated hangout agrees with the query of `getHangouts` over the stored record |
| DashboardScreen.MemberIds | screens/DashboardScreen.tsx:204-212 | the member list holds each id once, the known host first, and exactly the host and the participants |
| DashboardScreen.CanRespond | screens/DashboardScreen.tsx:214-231 | false unless the user is a listed participant (a host alone does not count) and never for a cancelled hangout; any participant may answer a confirmed hangout; a first-degree friend of the host may answer in `pending` and `pending_approval`; anybody else, and everybody when the host is unknown, only in `pending` or `confirmed` |
| ConnectionGraph.ResolveIds | components/Connections/ConnectionGraph.tsx:44-46 | the ids resolve, in order, to exactly the known ones, and only to listed users |
| ConnectionGraph.Connections | components/Connections/ConnectionGraph.tsx:39-47 | empty for an unknown centre; otherwise the centre's known friends in friend-list order, all of them, leaving out the current user unless the centre is the current user |
| ConnectionGraph.HandleNodeClick | components/Connections/ConnectionGraph.tsx:49-53 | the centre moves only from the top-level view and only to a first-degree friend of the user, and always does then |
| ConnectionGraph.ResetView | components/Connections/ConnectionGraph.tsx:55-57 | the centre becomes the current user's id, the top-level view, from which a click on the user changes nothing |
| ConnectionGraph.ClicksStayWithinOneHop | components/Connections/ConnectionGraph.tsx:49-57 | after any series of clicks from the top-level view the centre is the user or one of their friends that was clicked: drilling down twice is impossible |
| ConnectionGraph.NodeTypeOf | components/Connections/ConnectionGraph.tsx:125-128 | a node is first-degree exactly when the user lists it as a friend |
| ConnectionGraph.SecondDegreeStatusOf | components/Connections/ConnectionGraph.tsx:61-63 | defined exactly for second-degree nodes (line 130), and `approved` exactly when the user has an approval for the node |
| Seqs.Without | screens/ProfileScreen.tsx:54-56 | removing a friend deletes every occurrence of that id and keeps every other entry with its count, in order |
| Seqs.AddToSet | backend/src/controllers/connectionRequestController.ts:40 | `$addToSet` leaves the list unchanged when the value is present, and otherwise keeps the old list as a prefix and adds only the value; no duplicate is created |
| Seqs.Dedup | screens/DashboardScreen.tsx:204-211 | keys of a `Map` in insertion order: the same members, each once, in the order of the input, and a list without duplicates unchanged |
| ProfileScreen.ToggleFriendInModal | screens/ProfileScreen.tsx:58-70 | a listed id is removed, every other entry keeping its count and its order; a new id is appended below the cap and refused with the alert at the cap; a list within the cap stays within it and a list without duplicates stays so |
| ProfileScreen.AddDisabledIffAddingIsRefused | screens/ProfileScreen.tsx:162 | the "+ Add" button is disabled exactly when adding any new id would be refused |
| ProfileScreen.ToggleTwiceRestores | screens/ProfileScreen.tsx:58-70 | below the cap, adding an id and toggling it again gives back the list |
| ProfileScreen.SaveChanges | screens/ProfileScreen.tsx:72-94 | a blank or whitespace-only name stops the save and only then; otherwise the fields and friend list go out as typed |
| ProfileScreen.SavedProfileIsStored | screens/ProfileScreen.tsx:83-86 | a save that goes through stores the typed name and bio, and exactly the listed friends that name a stored user |
| ProfileScreen.PotentialFriends | screens/ProfileScreen.tsx:96-100 | exactly the users other than the user and not yet friends whose name contains the query, ignoring case, in list order |
| ProfileScreen.EmptySearchOffersEveryone | screens/ProfileScreen.tsx:96-100 | with an empty search every other user who is not yet a friend is offered |
| OnboardingFlow.HandleLogin | screens/OnboardingFlow.tsx:17-31 | the login call is made exactly for a phone number of 10 ASCII digits, with the fields as typed; otherwise the phone error is shown; after the call the login error is shown exactly when the login failed |
| OnboardingFlow.ProfileError | screens/OnboardingFlow.tsx:112-123 | no error exactly when the phone is valid, the passwords match and have at least 6 characters; otherwise the error of the first failing check in the order phone, match, length |
| OnboardingFlow.ToggledSelection | screens/OnboardingFlow.tsx:141-153 | a selected id is dropped, a new id is added while fewer than the cap are selected, otherwise the alert is raised and nothing changes; the size never exceeds the cap |
| OnboardingFlow.ToggleSelectionTwice | screens/OnboardingFlow.tsx:141-153 | within the cap, a toggle that was not refused is undone by a second one |
| OnboardingFlow.FriendCandidates | screens/OnboardingFlow.tsx:234-237 | exactly the users without the phone number being registered whose name contains the query, ignoring case, in list order |
| OnboardingFlow.SignupForm.constructor | screens/OnboardingFlow.tsx:70-90 | the form starts on the profile step with empty fields, no error and no selection |
| OnboardingFlow.SignupForm.EditProfile | screens/OnboardingFlow.tsx:193-197 | typing on the profile step sets the typed fields and nothing else |
| OnboardingFlow.SignupForm.HandleProfileSubmit | screens/OnboardingFlow.tsx:108-129 | a failing check shows its error and keeps the step; a passing profile stores the drawn one-time password and moves to the OTP step |
| OnboardingFlow.SignupForm.EditOtp | screens/OnboardingFlow.tsx:218-222 | typing the one-time password sets it and keeps the form valid |
| OnboardingFlow.SignupForm.HandleOtpVerify | screens/OnboardingFlow.tsx:131-139 | the matching password moves to the friends step with no error; a mismatch shows the error and keeps the step |
| OnboardingFlow.SignupForm.ToggleFriendSelection | screens/OnboardingFlow.tsx:141-153 | the selection and alert are those of `ToggledSelection`, so the cap is kept |
| OnboardingFlow.SignupForm.HandleFinalSubmit | screens/OnboardingFlow.tsx:155-173 | the request carries the profile fields and the selection, which holds between 1 and the cap ids, a valid phone and a password of at least 6 characters; a failed signup shows the error and returns to the profile step |
| OnboardingFlow.SignupForm.BackFromOtp | screens/OnboardingFlow.tsx:229 | back to the profile step with the error cleared |
| OnboardingFlow.SignupForm.BackFromFriends | screens/OnboardingFlow.tsx:276 | back to the profile step |
| CreateHangoutForm.HandleSubmit | components/Hangouts/CreateHangoutForm.tsx:19-30 | the hangout is submitted exactly when the description is not blank and somebody is selected, with the untrimmed fields; a blank description raises its alert before the participant check does |
| CreateHangoutForm.SubmitDisabledIffAlert | components/Hangouts/CreateHangoutForm.tsx:67 | the send button is disabled exactly when submitting would only raise an alert |
| Avatar.FirstCharText | components/UI/Avatar.tsx:25 | `${word[0]}` is the first character, or the text "undefined" for an empty word |
| Avatar.GetInitials | components/UI/Avatar.tsx:21-28 | empty for a missing or empty name; a name without a space gives its first two characters (fewer if shorter) upper-cased; a name with a space gives the first characters of its first and last space-separated words, upper-cased |
| Avatar.TwoInitialsFromFirstAndLastWord | components/UI/Avatar.tsx:23-26 | with a non-empty first and last word the result is exactly the two upper-cased initials |
| Avatar.AtMostTwoInitials | components/UI/Avatar.tsx:23-27 | when every space-separated word is non-empty there are at most two initials |
| Avatar.LeadingSpaceShowsUndefined | components/UI/Avatar.tsx:25 | the name " Bob" gives "UNDEFINEDB" |
| Avatar.GetInitialsCorrected | components/UI/Avatar.tsx:21-28 | reading an empty word's first character as empty text, there are never more than two initials |
| Avatar.CorrectionAgreesOnWellFormedNames | components/UI/Avatar.tsx:21-28 | the correction changes nothing for names whose first and last word are non-empty |
| Text.TrimIsEmptyIffBlank | screens/ProfileScreen.tsx:76 | `trim()` is empty exactly when the string is all whitespace |
| Text.ToLower | screens/ProfileScreen.tsx:99 | `toLowerCase()` maps every character through the ASCII lower-case map and keeps the length |
| Text.EmptyQueryMatchesAll | screens/ProfileScreen.tsx:99 | every name contains the empty query |
| Text.JoinSplit | components/UI/Avatar.tsx:23 | joining the pieces of `split(' ')` with spaces gives back the name |
| Text.SplitPiecesHaveNoSpace | components/UI/Avatar.tsx:23 | no piece of `split(' ')` contains a space |
| Text.SplitIsSeveralIffSpace | components/UI/Avatar.tsx:23-24 | `split(' ')` gives more than one piece exactly when the name contains a space |
| Text.Prefix | components/UI/Avatar.tsx:27 | `substring(0, n)` is a prefix of length n, or the whole string when shorter |

## Left out

- HTTP and Express plumbing, routes and status codes for success (201, 204, 200 are all `Ok`); thrown exceptions and the 500 answers they cause.
- Authentication (JWT, bcrypt, passwords in the store): the acting user's id is an input.
- Concurrency between requests and the atomicity of `insertMany` and `updateMany`: each handler is one sequential step.
- HangoutController.CreateHangout: the first save of the hangout (status `pending`) and the second save after the requests are inserted are one step, so the intermediate state is not observable; the ids MongoDB generates are parameters, one request id per participant.
- HangoutController.GetHangouts: the `createdAt` sort is not modelled; the hangouts are taken in the order given.
- DashboardScreen.UserHangouts: the sort by timestamp before display is not modelled.
- HangoutController.Populate: the spread of the other stored fields, timestamps and the string conversion of ids are not modelled.
- ConnectionRequestController.HandleConnectionApproval: the decision is one of the three schema values; another string fails Mongoose validation, which is not modelled.
- UserController.KnownFriendIds: keeps the ids in the order they were sent, deduplicated, while MongoDB answers `$in` in its own natural order.
- Request bodies of the wrong shape (a missing `participants`, non-string fields) are not modelled; fields are typed.
- Text.ToLower: ASCII case mapping only; Unicode case mapping is not modelled.
- Avatar.GetInitials: a string is a sequence of characters, not of UTF-16 code units.
- OnboardingFlow.ProfileError: the password length counts characters, not UTF-16 code units, so a password of three characters outside the Basic Multilingual Plane (length 6 in JavaScript) is refused as too short; OnboardingFlow.SignupForm.HandleFinalSubmit's "at least 6" inherits this. The phone check is unaffected, since it admits only ASCII digits.
- OnboardingFlow.SignupForm.HandleFinalSubmit: the selection is a set; the order of `Array.from` over it is not modelled, and the loading flag is not modelled.
- OnboardingFlow.SignupForm.EditOtp: the input's `maxLength` of 6 is not modelled.
- The random one-time password, the clock-based placeholder picture, image loading with `FileReader` and the answers of `login`, `signup` and `updateUser` are parameters.
- The `alert` calls are modelled as a returned flag; the message timers and loading flags of the profile screen are not modelled.
- `getAllUsers`, the seed script, the application context's fetching and caching, and everything presentational (status pills, buttons, modals, orbit geometry and window size) are not modelled.
- The Avatar's picture branch and the friend-list display of the profile screen are presentation and are not modelled.
- The dashboard's `handleCreateHangoutSubmit`, which forwards the selection to `createHangout` and clears it, is not modelled.

## Findings

| source | as written | input that shows it | evidently intended | confidence | as-written member | corrected member |
|---|---|---|---|---|---|---|
| components/UI/Avatar.tsx:25 | `${names[0][0]}` reads the first character of the first word; an empty word has none, and the template literal writes "undefined" | the name " Bob" (leading space) splits into "" and "Bob", giving the initials "UNDEFINEDB" | at most two initials, an empty word contributing nothing | not executed | Avatar.LeadingSpaceShowsUndefined | Avatar.GetInitialsCorrected |
