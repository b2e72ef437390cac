/** backend/src/controllers/userController.ts: `updateUserProfile`, the only
 *  write path for a user's profile and friend list. */
module UserController {
  import opened Seqs
  import opened Models

  /** The optional fields of `req.body.profileData`; `None` is a missing or
   *  null field. */
  datatype ProfileData = ProfileData(name: Option<string>, bio: Option<string>, profileImageUrl: Option<string>)

  /** `given || fallback` on a string field: an empty string is falsy. */
  function OrElse(given: Option<string>, fallback: string): string {
    if given.Some? && given.value != "" then given.value else fallback
  }

  /** `given ?? fallback`: only a missing field falls back. */
  function Coalesce(given: Option<string>, fallback: string): string {
    if given.Some? then given.value else fallback
  }

  /** `User.find({ _id: { $in: friendIds } })` mapped to ids: the requested ids
   *  that name a stored user, each once. */
  function KnownFriendIds(friendIds: seq<Id>, users: map<Id, User>): (r: seq<Id>)
    ensures forall x :: x in r <==> x in friendIds && x in users
    ensures NoDuplicates(r)
    ensures |r| <= |friendIds|
  {
    Dedup(Filter(friendIds, (x: Id) => x in users))
  }

  /** The user record `updateUserProfile` saves. */
  function UpdatedUser(u: User, profileData: Option<ProfileData>, friendIds: Option<seq<Id>>, users: map<Id, User>): (r: User)
    ensures r.id == u.id && r.phoneNumber == u.phoneNumber
    ensures r.approvedSecondDegreeConnections == u.approvedSecondDegreeConnections
    ensures r.name == u.name || (profileData.Some? && profileData.value.name == Some(r.name) && r.name != "")
    ensures r.profileImageUrl == u.profileImageUrl
            || (profileData.Some? && profileData.value.profileImageUrl == Some(r.profileImageUrl) && r.profileImageUrl != "")
    ensures profileData.Some? && profileData.value.name.Some? && profileData.value.name.value != ""
            ==> r.name == profileData.value.name.value
    ensures (profileData.None? || profileData.value.name.None? || profileData.value.name.value == "") ==> r.name == u.name
    ensures profileData.Some? && profileData.value.profileImageUrl.Some? && profileData.value.profileImageUrl.value != ""
            ==> r.profileImageUrl == profileData.value.profileImageUrl.value
    ensures (profileData.None? || profileData.value.profileImageUrl.None? || profileData.value.profileImageUrl.value == "")
            ==> r.profileImageUrl == u.profileImageUrl
    ensures profileData.Some? && profileData.value.bio.Some? ==> r.bio == profileData.value.bio.value
    ensures (profileData.None? || profileData.value.bio.None?) ==> r.bio == u.bio
    ensures friendIds.None? ==> r.firstDegreeFriendIds == u.firstDegreeFriendIds
    ensures friendIds.Some? ==>
              && NoDuplicates(r.firstDegreeFriendIds)
              && forall x :: x in r.firstDegreeFriendIds <==> x in friendIds.value && x in users
  {
    var u1 :=
      if profileData.Some? then
        var p := profileData.value;
        u.(name := OrElse(p.name, u.name), bio := Coalesce(p.bio, u.bio),
           profileImageUrl := OrElse(p.profileImageUrl, u.profileImageUrl))
      else u;
    if friendIds.Some? then u1.(firstDegreeFriendIds := KnownFriendIds(friendIds.value, users)) else u1
  }

  /** A blank or missing name never clears the stored one, while an empty bio does
   *  clear the stored bio. */
  lemma EmptyFieldsKeepNameButClearBio(u: User, users: map<Id, User>)
    ensures var r := UpdatedUser(u, Some(ProfileData(Some(""), Some(""), Some(""))), None, users);
      r.name == u.name && r.profileImageUrl == u.profileImageUrl && r.bio == ""
  {
  }

  /** Sending the same update twice stores the same record as sending it once. */
  lemma UpdateIsIdempotent(u: User, profileData: Option<ProfileData>, friendIds: Option<seq<Id>>, users: map<Id, User>)
    ensures var once := UpdatedUser(u, profileData, friendIds, users);
      UpdatedUser(once, profileData, friendIds, users) == once
  {
  }

  /** The server stores every distinct known id it is sent, in the order sent:
   *  nothing caps the number of first-degree friends. */
  lemma {:induction false} DistinctKnownIdsAreKept(friendIds: seq<Id>, users: map<Id, User>)
    requires NoDuplicates(friendIds)
    requires forall x :: x in friendIds ==> x in users
    ensures KnownFriendIds(friendIds, users) == friendIds
  {
    FilterKeepsAll(friendIds, (x: Id) => x in users);
  }

  /** `updateUserProfile`: only the profile's owner may update it (403), an
   *  unknown id answers 404, and the saved user is returned. */
  method UpdateUserProfile(db: Db, callerId: Id, targetId: Id, profileData: Option<ProfileData>, friendIds: Option<seq<Id>>)
    returns (r: Result<User>)
    requires db.Valid()
    modifies db`users
    ensures db.Valid()
    ensures callerId != targetId ==> r == Err(Forbidden)
    ensures callerId == targetId && targetId !in old(db.users) ==> r == Err(NotFound)
    ensures r.Err? ==> db.users == old(db.users)
    ensures callerId == targetId && targetId in old(db.users) ==>
              var saved := UpdatedUser(old(db.users)[targetId], profileData, friendIds, old(db.users));
              && r == Ok(saved)
              && db.users == old(db.users)[targetId := saved]
  {
    if callerId != targetId {
      return Err(Forbidden);
    }
    if targetId !in db.users {
      return Err(NotFound);
    }
    var user := db.users[targetId];
    if profileData.Some? {
      user := user.(name := OrElse(profileData.value.name, user.name));
      user := user.(bio := Coalesce(profileData.value.bio, user.bio));
      user := user.(profileImageUrl := OrElse(profileData.value.profileImageUrl, user.profileImageUrl));
    }
    if friendIds.Some? {
      var friends := KnownFriendIds(friendIds.value, db.users);
      user := user.(firstDegreeFriendIds := friends);
    }
    db.users := db.users[targetId := user];
    return Ok(user);
  }
}
