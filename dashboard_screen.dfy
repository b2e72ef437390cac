/** screens/DashboardScreen.tsx: the participant selection, the list of the
 *  user's hangouts, the member list of a hangout card and who may answer it.
 *  Hangouts arrive populated, as `HangoutController.HangoutView`; the
 *  approvals inbox is `ConnectionRequestController.MyConnectionRequests`. */
module DashboardScreen {
  import opened Seqs
  import opened Models
  import opened HangoutController

  // ---------------------------------------------------------------------------
  // handleToggleParticipant
  // ---------------------------------------------------------------------------

  /** `prev.some(p => p.id === id)`. */
  predicate HasId(users: seq<User>, id: Id) {
    exists p :: p in users && p.id == id
  }

  /** The state updater of `handleToggleParticipant`: a selected user is
   *  deselected (every entry with that id goes), another one is appended. */
  function ToggleParticipant(prev: seq<User>, user: User): (r: seq<User>)
    ensures HasId(prev, user.id) ==> !HasId(r, user.id)
    ensures HasId(prev, user.id) ==> forall p :: p in r <==> p in prev && p.id != user.id
    ensures HasId(prev, user.id) ==> IsSubsequence(r, prev)
    ensures HasId(prev, user.id) ==> forall p: User :: p.id != user.id ==> multiset(r)[p] == multiset(prev)[p]
    ensures !HasId(prev, user.id) ==> r == prev + [user]
  {
    if HasId(prev, user.id) then
      FilterKeepsCounts(prev, (p: User) => p.id != user.id);
      Filter(prev, (p: User) => p.id != user.id)
    else prev + [user]
  }

  /** Selecting a user and selecting them again gives back the selection. */
  lemma ToggleTwiceRestores(prev: seq<User>, user: User)
    requires !HasId(prev, user.id)
    ensures ToggleParticipant(ToggleParticipant(prev, user), user) == prev
  {
    var once := prev + [user];
    assert user in once;
    assert forall i :: 0 <= i < |prev| ==> prev[i].id != user.id by {
      forall i | 0 <= i < |prev|
        ensures prev[i].id != user.id
      {
        assert prev[i] in prev;
      }
    }
    FilterDropsLast(prev, user, (p: User) => p.id != user.id);
  }

  // ---------------------------------------------------------------------------
  // userHangouts
  // ---------------------------------------------------------------------------

  /** `h.participants.some(p => p.id === userId)` on a populated hangout. */
  predicate IsListedParticipant(v: HangoutView, userId: Id) {
    exists p :: p in v.participants && p.id == userId
  }

  predicate ShownTo(v: HangoutView, userId: Id) {
    v.hangout.status != Cancelled && (v.hangout.hostId == userId || IsListedParticipant(v, userId))
  }

  /** `userHangouts`: the non-cancelled hangouts the user hosts or is invited to. */
  function UserHangouts(hangouts: seq<HangoutView>, userId: Id): (r: seq<HangoutView>)
    ensures forall v :: v in r <==> (v in hangouts && v.hangout.status != Cancelled
                                   && (v.hangout.hostId == userId || IsListedParticipant(v, userId)))
    ensures IsSubsequence(r, hangouts)
  {
    Filter(hangouts, (v: HangoutView) => ShownTo(v, userId))
  }

  /** For a stored user, the dashboard's filter over a populated hangout agrees
   *  with the query of `getHangouts` over the stored record. */
  lemma DashboardAgreesWithServer(h: Hangout, users: map<Id, User>, userId: Id)
    requires userId in users
    ensures ShownTo(Populate(h, users), userId) <==> VisibleTo(h, userId)
  {
    var v := Populate(h, users);
    if userId in h.participants {
      var i :| 0 <= i < |h.participants| && h.participants[i] == userId;
      assert SummaryOf(users, userId) in v.participants;
    }
  }

  // ---------------------------------------------------------------------------
  // The member map of a hangout card
  // ---------------------------------------------------------------------------

  /** The keys of `memberMap` in insertion order: the host, when `allUsers`
   *  knows them, then every participant; a `Map.set` on a key already present
   *  keeps its position. */
  method MemberIds(host: Option<User>, participants: seq<UserSummary>) returns (ids: seq<Id>)
    ensures NoDuplicates(ids)
    ensures host.Some? ==> |ids| > 0 && ids[0] == host.value.id
    ensures forall x :: x in ids <==> (host.Some? && x == host.value.id) || exists p :: p in participants && p.id == x
    ensures ids == Dedup(HostKey(host) + SummaryIds(participants))
  {
    ids := [];
    if host.Some? {
      ids := [host.value.id];
      assert Dedup(HostKey(host) + SummaryIds(participants[..0])) == Dedup([] + [host.value.id]);
    }
    for i := 0 to |participants|
      invariant ids == Dedup(HostKey(host) + SummaryIds(participants[..i]))
    {
      var p := participants[i];
      CandidatesSnoc(host, participants, i);
      DedupSnoc(HostKey(host) + SummaryIds(participants[..i]), p.id);
      if p.id !in ids {
        ids := ids + [p.id];
      }
    }
    assert participants[..|participants|] == participants;
    if host.Some? {
      DedupKeepsHead(HostKey(host) + SummaryIds(participants));
    }
    CandidatesAreMembers(host, participants);
  }

  /** The host's id, when the host is known. */
  function HostKey(host: Option<User>): seq<Id> {
    if host.Some? then [host.value.id] else []
  }

  /** `participants.map(p => p.id)`. */
  function SummaryIds(participants: seq<UserSummary>): (r: seq<Id>)
    ensures |r| == |participants|
    ensures forall j :: 0 <= j < |participants| ==> r[j] == participants[j].id
  {
    seq(|participants|, j requires 0 <= j < |participants| => participants[j].id)
  }

  lemma CandidatesSnoc(host: Option<User>, participants: seq<UserSummary>, i: nat)
    requires i < |participants|
    ensures HostKey(host) + SummaryIds(participants[..i + 1])
            == (HostKey(host) + SummaryIds(participants[..i])) + [participants[i].id]
  {
    var a, b := HostKey(host), SummaryIds(participants[..i]);
    assert SummaryIds(participants[..i + 1]) == b + [participants[i].id];
    assert a + (b + [participants[i].id]) == (a + b) + [participants[i].id];
  }

  lemma CandidatesAreMembers(host: Option<User>, participants: seq<UserSummary>)
    ensures forall x :: x in HostKey(host) + SummaryIds(participants)
                        <==> (host.Some? && x == host.value.id) || exists p :: p in participants && p.id == x
  {
    var ids := SummaryIds(participants);
    forall x | x in ids
      ensures exists p :: p in participants && p.id == x
    {
      var j :| 0 <= j < |ids| && ids[j] == x;
      assert participants[j] in participants;
    }
    forall p | p in participants
      ensures p.id in ids
    {
      var j :| 0 <= j < |participants| && participants[j] == p;
      assert ids[j] == p.id;
    }
  }

  /** The first element survives deduplication in front. */
  lemma {:induction false} DedupKeepsHead(s: seq<Id>)
    requires |s| > 0
    ensures |Dedup(s)| > 0 && Dedup(s)[0] == s[0]
    decreases |s|
  {
    if |s| > 1 {
      var init := s[..|s| - 1];
      DedupKeepsHead(init);
      assert init[0] == s[0];
    }
  }

  // ---------------------------------------------------------------------------
  // canRespond
  // ---------------------------------------------------------------------------

  /** The host is a first-degree friend of the user: `host ? host.firstDegreeFriendIds.includes(userId) : false`. */
  predicate IsFirstDegreeWithHost(hangout: HangoutView, allUsers: seq<User>, userId: Id) {
    var host := FindUser(allUsers, hangout.hangout.hostId);
    host.Some? && userId in host.value.firstDegreeFriendIds
  }

  /** `canRespond` for the current user on one hangout card. */
  method CanRespond(hangout: HangoutView, allUsers: seq<User>, currentUserId: Id) returns (canRespond: bool)
    ensures !IsListedParticipant(hangout, currentUserId) ==> !canRespond
    ensures hangout.hangout.status == Cancelled ==> !canRespond
    ensures IsListedParticipant(hangout, currentUserId) && hangout.hangout.status == Confirmed ==> canRespond
    ensures IsListedParticipant(hangout, currentUserId) && IsFirstDegreeWithHost(hangout, allUsers, currentUserId)
            ==> (canRespond <==> hangout.hangout.status != Cancelled)
    ensures IsListedParticipant(hangout, currentUserId) && !IsFirstDegreeWithHost(hangout, allUsers, currentUserId)
            ==> (canRespond <==> hangout.hangout.status in {HangoutStatus.Pending, Confirmed})
    ensures FindUser(allUsers, hangout.hangout.hostId).None? ==>
              (canRespond <==> IsListedParticipant(hangout, currentUserId)
                               && hangout.hangout.status in {HangoutStatus.Pending, Confirmed})
  {
    var isParticipant := exists p :: p in hangout.participants && p.id == currentUserId;
    canRespond := false;
    if isParticipant {
      var host := FindUser(allUsers, hangout.hangout.hostId);
      var isFirstDegreeWithHost := if host.Some? then currentUserId in host.value.firstDegreeFriendIds else false;
      var status := hangout.hangout.status;
      if status == Confirmed {
        canRespond := true;
      } else if isFirstDegreeWithHost && (status == HangoutStatus.Pending || status == PendingApproval) {
        canRespond := true;
      } else if !isFirstDegreeWithHost && status == HangoutStatus.Pending {
        canRespond := true;
      }
    }
  }
}
