/** screens/OnboardingFlow.tsx: the login form's phone check and the three-step
 *  signup form (profile, one-time password, close friends). The signup form is
 *  a class whose fields are the component's state; the random one-time
 *  password and the outcome of the network calls are parameters. */
module OnboardingFlow {
  import opened Seqs
  import opened Text
  import opened Models

  const PhoneError := "Phone number must be exactly 10 digits."
  const PasswordMismatchError := "Passwords do not match."
  const PasswordTooShortError := "Password must be at least 6 characters long."
  const LoginFailedError := "Invalid phone number or password."
  const OtpError := "Incorrect OTP. Please try again."
  const SignupFailedError := "Failed to create account. This phone number might already be taken."

  predicate IsAsciiDigit(c: char) {
    '0' <= c <= '9'
  }

  /** `/^\d{10}$/.test(phoneNumber)`: `\d` is an ASCII digit and `$` anchors at
   *  the very end of the input. */
  predicate IsValidPhone(phoneNumber: string) {
    |phoneNumber| == 10 && forall i :: 0 <= i < |phoneNumber| ==> IsAsciiDigit(phoneNumber[i])
  }

  // ---------------------------------------------------------------------------
  // LoginForm
  // ---------------------------------------------------------------------------

  /** What `handleLogin` does: refuse with an error, or call `login` with the
   *  fields and then show `error` (empty when the login succeeded). */
  datatype LoginStep = LoginRefused(error: string) | CallLogin(phoneNumber: string, password: string, error: string)

  /** `handleLogin`, with `loginSucceeded` the answer of `login`: a malformed
   *  phone number never reaches the server, and a refused login shows its
   *  error. */
  function HandleLogin(phoneNumber: string, password: string, loginSucceeded: bool): (r: LoginStep)
    ensures r.CallLogin? <==> IsValidPhone(phoneNumber)
    ensures r.LoginRefused? ==> r.error == PhoneError
    ensures r.CallLogin? ==> r.phoneNumber == phoneNumber && r.password == password
    ensures r.CallLogin? ==> (r.error == "" <==> loginSucceeded)
    ensures r.CallLogin? && !loginSucceeded ==> r.error == LoginFailedError
    ensures r.error != ""
            <==> !IsValidPhone(phoneNumber) || !loginSucceeded
  {
    if !IsValidPhone(phoneNumber) then LoginRefused(PhoneError)
    else CallLogin(phoneNumber, password, if loginSucceeded then "" else LoginFailedError)
  }

  // ---------------------------------------------------------------------------
  // SignupForm
  // ---------------------------------------------------------------------------

  /** The checks of `handleProfileSubmit`, in order: phone, matching passwords,
   *  password length. */
  function ProfileError(phoneNumber: string, password: string, confirmPassword: string): (e: Option<string>)
    ensures e.None? <==> IsValidPhone(phoneNumber) && password == confirmPassword && |password| >= 6
    ensures !IsValidPhone(phoneNumber) ==> e == Some(PhoneError)
    ensures IsValidPhone(phoneNumber) && password != confirmPassword ==> e == Some(PasswordMismatchError)
    ensures IsValidPhone(phoneNumber) && password == confirmPassword && |password| < 6 ==> e == Some(PasswordTooShortError)
  {
    if !IsValidPhone(phoneNumber) then Some(PhoneError)
    else if password != confirmPassword then Some(PasswordMismatchError)
    else if |password| < 6 then Some(PasswordTooShortError)
    else None
  }

  datatype Step = ProfileStep | OtpStep | FriendsStep

  /** The outcome of `toggleFriendSelection`'s updater. */
  datatype Selection = Selection(friendIds: set<Id>, capAlert: bool)

  /** `toggleFriendSelection` on a copy of the selection: a selected id is
   *  dropped, a new one is added while fewer than `maxFriends` are selected,
   *  and otherwise the cap alert is raised. */
  function ToggledSelection(prev: set<Id>, friendId: Id, maxFriends: nat): (r: Selection)
    ensures friendId in prev ==> r == Selection(prev - {friendId}, false)
    ensures friendId !in prev && |prev| < maxFriends ==> r == Selection(prev + {friendId}, false)
    ensures friendId !in prev && |prev| >= maxFriends ==> r == Selection(prev, true)
    ensures |prev| <= maxFriends ==> |r.friendIds| <= maxFriends
  {
    if friendId in prev then Selection(prev - {friendId}, false)
    else if |prev| < maxFriends then Selection(prev + {friendId}, false)
    else Selection(prev, true)
  }

  /** Within the cap, a toggle that was not refused is undone by a second one. */
  lemma ToggleSelectionTwice(prev: set<Id>, friendId: Id, maxFriends: nat)
    requires |prev| <= maxFriends
    requires friendId in prev || |prev| < maxFriends
    ensures ToggledSelection(ToggledSelection(prev, friendId, maxFriends).friendIds, friendId, maxFriends).friendIds == prev
  {
    if friendId in prev {
      assert |prev - {friendId}| == |prev| - 1;
      assert (prev - {friendId}) + {friendId} == prev;
    }
  }

  /** The request `handleFinalSubmit` passes to `signup`; the order of
   *  `Array.from(selectedFriendIds)` is not modelled. */
  datatype NewUser = NewUser(name: string, bio: string, profileImageUrl: string, phoneNumber: string, password: string,
                             firstDegreeFriendIds: set<Id>)

  /** `disabled` of "Complete Signup" while no request is in flight. */
  predicate CompleteSignupDisabled(selectedFriendIds: set<Id>) {
    |selectedFriendIds| == 0
  }

  /** The candidates of the friends step: every user but the one with the phone
   *  number being registered, whose name contains the query, ignoring case. */
  function FriendCandidates(allUsers: seq<User>, phoneNumber: string, friendSearchQuery: string): (r: seq<User>)
    ensures forall u :: u in r <==> (u in allUsers && u.phoneNumber != phoneNumber && MatchesQuery(u.name, friendSearchQuery))
    ensures IsSubsequence(r, allUsers)
  {
    var potentialFriends := Filter(allUsers, (u: User) => u.phoneNumber != phoneNumber);
    var filteredFriends := Filter(potentialFriends, (u: User) => MatchesQuery(u.name, friendSearchQuery));
    SubsequenceTransitive(filteredFriends, potentialFriends, allUsers);
    filteredFriends
  }

  class SignupForm {
    var step: Step
    var error: string
    var name: string
    var bio: string
    var profileImageUrl: string
    var phoneNumber: string
    var password: string
    var confirmPassword: string
    var generatedOtp: string
    var otpInput: string
    var selectedFriendIds: set<Id>
    const maxFriends: nat

    /** Past the profile step the profile passed its checks, the friends step is
     *  reached only with the right one-time password, and the selection
     *  respects the cap. */
    ghost predicate Valid()
      reads this
    {
      && (step != ProfileStep ==> ProfileError(phoneNumber, password, confirmPassword).None?)
      && (step == FriendsStep ==> otpInput == generatedOtp)
      && |selectedFriendIds| <= maxFriends
    }

    /** The initial state; `initialImageUrl` stands for the placeholder built
     *  from the clock. */
    constructor (maxFriends: nat, initialImageUrl: string)
      ensures Valid()
      ensures step == ProfileStep && error == "" && generatedOtp == "" && otpInput == "" && selectedFriendIds == {}
      ensures name == "" && bio == "" && phoneNumber == "" && password == "" && confirmPassword == ""
      ensures profileImageUrl == initialImageUrl && this.maxFriends == maxFriends
    {
      step := ProfileStep;
      error := "";
      name := "";
      bio := "";
      profileImageUrl := initialImageUrl;
      phoneNumber := "";
      password := "";
      confirmPassword := "";
      generatedOtp := "";
      otpInput := "";
      selectedFriendIds := {};
      this.maxFriends := maxFriends;
    }

    /** Typing into the profile inputs, which exist only on the profile step. */
    method EditProfile(name: string, bio: string, profileImageUrl: string, phoneNumber: string, password: string,
                       confirmPassword: string)
      requires Valid() && step == ProfileStep
      modifies this
      ensures Valid()
      ensures this.name == name && this.bio == bio && this.profileImageUrl == profileImageUrl
      ensures this.phoneNumber == phoneNumber && this.password == password && this.confirmPassword == confirmPassword
      ensures step == old(step) && error == old(error) && generatedOtp == old(generatedOtp) && otpInput == old(otpInput)
      ensures selectedFriendIds == old(selectedFriendIds)
    {
      this.name := name;
      this.bio := bio;
      this.profileImageUrl := profileImageUrl;
      this.phoneNumber := phoneNumber;
      this.password := password;
      this.confirmPassword := confirmPassword;
    }

    /** `handleProfileSubmit` with `otp` the freshly drawn one-time password. */
    method HandleProfileSubmit(otp: string)
      requires Valid()
      modifies this`error, this`generatedOtp, this`step
      ensures Valid()
      ensures ProfileError(phoneNumber, password, confirmPassword).Some? ==>
                && error == ProfileError(phoneNumber, password, confirmPassword).value
                && step == old(step) && generatedOtp == old(generatedOtp)
      ensures ProfileError(phoneNumber, password, confirmPassword).None? ==>
                error == "" && generatedOtp == otp && step == OtpStep
    {
      error := "";
      if !IsValidPhone(phoneNumber) {
        error := PhoneError;
        return;
      }
      if password != confirmPassword {
        error := PasswordMismatchError;
        return;
      }
      if |password| < 6 {
        error := PasswordTooShortError;
        return;
      }
      generatedOtp := otp;
      step := OtpStep;
    }

    /** Typing into the one-time-password input, which exists only on that step. */
    method EditOtp(otpInput: string)
      requires Valid() && step == OtpStep
      modifies this`otpInput
      ensures Valid() && this.otpInput == otpInput
    {
      this.otpInput := otpInput;
    }

    /** `handleOtpVerify`. */
    method HandleOtpVerify()
      requires Valid() && step == OtpStep
      modifies this`error, this`step
      ensures Valid()
      ensures otpInput == generatedOtp ==> error == "" && step == FriendsStep
      ensures otpInput != generatedOtp ==> error == OtpError && step == OtpStep
    {
      error := "";
      if otpInput == generatedOtp {
        step := FriendsStep;
      } else {
        error := OtpError;
      }
    }

    /** `toggleFriendSelection`; `capAlert` is the `alert` call. */
    method ToggleFriendSelection(friendId: Id) returns (capAlert: bool)
      requires Valid()
      modifies this`selectedFriendIds
      ensures Valid()
      ensures Selection(selectedFriendIds, capAlert) == ToggledSelection(old(selectedFriendIds), friendId, maxFriends)
    {
      var newSet := selectedFriendIds;
      capAlert := false;
      if friendId in newSet {
        newSet := newSet - {friendId};
      } else if |newSet| < maxFriends {
        newSet := newSet + {friendId};
      } else {
        capAlert := true;
      }
      selectedFriendIds := newSet;
    }

    /** `handleFinalSubmit`, reachable only through the enabled "Complete
     *  Signup" button, with `signupSucceeded` the answer of `signup`: a failure
     *  sends the form back to the profile step. */
    method HandleFinalSubmit(signupSucceeded: bool) returns (request: NewUser)
      requires Valid() && step == FriendsStep
      requires !CompleteSignupDisabled(selectedFriendIds)
      modifies this`error, this`step
      ensures Valid()
      ensures request == NewUser(name, bio, profileImageUrl, phoneNumber, password, selectedFriendIds)
      ensures IsValidPhone(request.phoneNumber) && |request.password| >= 6
      ensures 1 <= |request.firstDegreeFriendIds| <= maxFriends
      ensures signupSucceeded ==> error == "" && step == FriendsStep
      ensures !signupSucceeded ==> error == SignupFailedError && step == ProfileStep
    {
      error := "";
      request := NewUser(name, bio, profileImageUrl, phoneNumber, password, selectedFriendIds);
      if !signupSucceeded {
        error := SignupFailedError;
        step := ProfileStep;
      }
    }

    /** "Back to Profile" on the one-time-password step. */
    method BackFromOtp()
      requires Valid() && step == OtpStep
      modifies this`error, this`step
      ensures Valid() && step == ProfileStep && error == ""
    {
      error := "";
      step := ProfileStep;
    }

    /** "Back to Profile" on the friends step; the error is left as it is. */
    method BackFromFriends()
      requires Valid() && step == FriendsStep
      modifies this`step
      ensures Valid() && step == ProfileStep
    {
      step := ProfileStep;
    }
  }
}
