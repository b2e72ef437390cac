/** screens/ProfileScreen.tsx: editing the user's own friend list under the
 *  first-degree cap, the blank-name guard of the save button and the search
 *  for people to add. The cap `MAX_FIRST_DEGREE_FRIENDS` is the parameter
 *  `maxFriends`; removing a friend is `Seqs.Without`. */
module ProfileScreen {
  import opened Seqs
  import opened Text
  import opened Models
  import opened UserController

  /** The new friend list, and whether the cap alert was raised. */
  datatype ToggleOutcome = ToggleOutcome(friendIds: seq<Id>, capAlert: bool)

  /** The state updater of `handleToggleFriendInModal`. */
  function ToggleFriendInModal(prev: seq<Id>, friendId: Id, maxFriends: nat): (r: ToggleOutcome)
    ensures friendId in prev ==>
              && !r.capAlert && friendId !in r.friendIds
              && multiset(r.friendIds) == multiset(prev)[friendId := 0]
              && IsSubsequence(r.friendIds, prev)
    ensures friendId !in prev && |prev| >= maxFriends ==> r.capAlert && r.friendIds == prev
    ensures friendId !in prev && |prev| < maxFriends ==> !r.capAlert && r.friendIds == prev + [friendId]
    ensures |prev| <= maxFriends ==> |r.friendIds| <= maxFriends
    ensures NoDuplicates(prev) ==> NoDuplicates(r.friendIds)
  {
    if friendId in prev then
      ToggleOutcome(Without(prev, friendId), false)
    else if |prev| >= maxFriends then
      ToggleOutcome(prev, true)
    else
      ToggleOutcome(prev + [friendId], false)
  }

  /** `disabled` of the "+ Add" button. */
  predicate AddDisabled(friendIds: seq<Id>, maxFriends: nat) {
    |friendIds| >= maxFriends
  }

  /** The button is disabled exactly when adding anybody new would be refused. */
  lemma AddDisabledIffAddingIsRefused(friendIds: seq<Id>, maxFriends: nat)
    ensures AddDisabled(friendIds, maxFriends) <==>
              forall x :: x !in friendIds ==> ToggleFriendInModal(friendIds, x, maxFriends).friendIds == friendIds
  {
    if !AddDisabled(friendIds, maxFriends) {
      var x := Fresh(friendIds);
      assert ToggleFriendInModal(friendIds, x, maxFriends).friendIds == friendIds + [x];
    }
  }

  /** An id that does not occur in `ids`: one character longer than the longest. */
  function Fresh(ids: seq<Id>): (x: Id)
    ensures x !in ids
  {
    var x := seq(Longest(ids) + 1, _ => 'x');
    assert forall y :: y in ids ==> |y| <= Longest(ids);
    x
  }

  function Longest(ids: seq<Id>): (n: nat)
    ensures forall k :: 0 <= k < |ids| ==> |ids[k]| <= n
  {
    if ids == [] then 0
    else
      var m := Longest(ids[1..]);
      if |ids[0]| > m then |ids[0]| else m
  }

  /** Toggling an id twice from below the cap gives back the list. */
  lemma ToggleTwiceRestores(prev: seq<Id>, friendId: Id, maxFriends: nat)
    requires friendId !in prev && |prev| < maxFriends
    ensures ToggleFriendInModal(ToggleFriendInModal(prev, friendId, maxFriends).friendIds, friendId, maxFriends).friendIds == prev
  {
    WithoutAppended(prev, friendId);
  }

  /** What the save button leads to. */
  datatype SaveOutcome =
    | NameCannotBeEmpty
    | UpdateRequest(userId: Id, profileData: ProfileData, friendIds: seq<Id>)

  /** `handleSaveChanges` up to the call of `updateUser`: a name of whitespace
   *  alone stops the save; otherwise the fields go out as typed. */
  function SaveChanges(userId: Id, name: string, bio: string, profileImageUrl: string, friendIds: seq<Id>): (r: SaveOutcome)
    ensures r == NameCannotBeEmpty <==> IsBlank(name)
    ensures r.UpdateRequest? ==>
              r == UpdateRequest(userId, ProfileData(Some(name), Some(bio), Some(profileImageUrl)), friendIds)
  {
    TrimIsEmptyIffBlank(name);
    if Trim(name) == "" then NameCannotBeEmpty
    else UpdateRequest(userId, ProfileData(Some(name), Some(bio), Some(profileImageUrl)), friendIds)
  }

  /** A save that goes through stores the typed name and bio, and as friends
   *  exactly the listed ids that name a stored user. */
  lemma SavedProfileIsStored(u: User, users: map<Id, User>, name: string, bio: string, profileImageUrl: string,
                             friendIds: seq<Id>)
    requires SaveChanges(u.id, name, bio, profileImageUrl, friendIds).UpdateRequest?
    ensures var req := SaveChanges(u.id, name, bio, profileImageUrl, friendIds);
      var saved := UpdatedUser(u, Some(req.profileData), Some(req.friendIds), users);
      && saved.name == name
      && saved.bio == bio
      && forall x :: x in saved.firstDegreeFriendIds <==> x in friendIds && x in users
  {
    assert name != "" by {
      assert IsBlank("");
    }
  }

  /** `potentialFriends`: users other than the user and not already listed,
   *  whose name contains the query, ignoring case. */
  function PotentialFriends(allUsers: seq<User>, currentUserId: Id, friendIds: seq<Id>, searchQuery: string): (r: seq<User>)
    ensures forall u :: u in r <==> (u in allUsers && u.id != currentUserId && u.id !in friendIds
                                     && MatchesQuery(u.name, searchQuery))
    ensures IsSubsequence(r, allUsers)
  {
    Filter(allUsers, (u: User) => u.id != currentUserId && u.id !in friendIds && MatchesQuery(u.name, searchQuery))
  }

  /** With an empty search every other user who is not yet a friend is offered. */
  lemma EmptySearchOffersEveryone(allUsers: seq<User>, currentUserId: Id, friendIds: seq<Id>)
    ensures forall u :: u in PotentialFriends(allUsers, currentUserId, friendIds, "")
                        <==> u in allUsers && u.id != currentUserId && u.id !in friendIds
  {
    forall u | u in allUsers
      ensures MatchesQuery(u.name, "")
    {
      EmptyQueryMatchesAll(u.name);
    }
  }
}
