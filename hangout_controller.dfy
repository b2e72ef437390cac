/** backend/src/controllers/hangoutController.ts: hangout creation with the
 *  connection-approval classification of every invited participant, the
 *  cancel cascade, accept/reject with auto-confirmation, the `getHangouts`
 *  filter and the `populateHangout` projection. */
module HangoutController {
  import opened Seqs
  import opened Models

  // ---------------------------------------------------------------------------
  // populateHangout and getHangouts
  // ---------------------------------------------------------------------------

  /** A hangout rehydrated for display: `{ ...hangout, host, participants }`. */
  datatype HangoutView = HangoutView(hangout: Hangout, host: Option<UserSummary>, participants: seq<UserSummary>)

  /** The `id name profileImageUrl` projection of a stored user. */
  function SummaryOf(users: map<Id, User>, id: Id): UserSummary
    requires id in users
  {
    UserSummary(id, users[id].name, users[id].profileImageUrl)
  }

  /** `participants.map(p => userMap.get(p.userId)).filter(Boolean)`. */
  function ParticipantSummaries(ids: seq<Id>, users: map<Id, User>): (r: seq<UserSummary>)
    ensures |r| <= |ids|
    ensures forall s :: s in r ==> s.id in ids && s.id in users && s == SummaryOf(users, s.id)
    ensures forall i :: 0 <= i < |ids| && ids[i] in users ==> SummaryOf(users, ids[i]) in r
  {
    if ids == [] then []
    else
      var rest := ParticipantSummaries(ids[1..], users);
      assert forall i :: 0 < i < |ids| ==> ids[i] == ids[1..][i - 1];
      if ids[0] in users then [SummaryOf(users, ids[0])] + rest else rest
  }

  /** `map` then `filter(Boolean)` keeps participant order: one summary per
   *  known id, in the order of the ids. */
  lemma {:induction false} SummariesFollowKnownIds(ids: seq<Id>, users: map<Id, User>)
    ensures |ParticipantSummaries(ids, users)| == |KnownIds(ids, users)|
    ensures forall k :: 0 <= k < |KnownIds(ids, users)| ==>
              ParticipantSummaries(ids, users)[k] == SummaryOf(users, KnownIds(ids, users)[k])
  {
    if ids != [] {
      SummariesFollowKnownIds(ids[1..], users);
      var rest, restIds := ParticipantSummaries(ids[1..], users), KnownIds(ids[1..], users);
      if ids[0] in users {
        assert ParticipantSummaries(ids, users) == [SummaryOf(users, ids[0])] + rest;
        assert KnownIds(ids, users) == [ids[0]] + restIds;
        SummariesCons(users, ids[0], rest, restIds);
      } else {
        assert ParticipantSummaries(ids, users) == rest;
        assert KnownIds(ids, users) == restIds;
      }
    }
  }

  /** Putting a known id in front of ids that the summaries follow. */
  lemma SummariesCons(users: map<Id, User>, x: Id, rest: seq<UserSummary>, restIds: seq<Id>)
    requires x in users
    requires |rest| == |restIds| && forall k :: 0 <= k < |restIds| ==> restIds[k] in users && rest[k] == SummaryOf(users, restIds[k])
    ensures var r, known := [SummaryOf(users, x)] + rest, [x] + restIds;
      |r| == |known| && forall k :: 0 <= k < |known| ==> r[k] == SummaryOf(users, known[k])
  {
    var r, known := [SummaryOf(users, x)] + rest, [x] + restIds;
    forall k | 0 < k < |known|
      ensures r[k] == SummaryOf(users, known[k])
    {
      assert r[k] == rest[k - 1] && known[k] == restIds[k - 1];
    }
  }

  /** The participant ids the user store knows, in participant order. */
  function KnownIds(ids: seq<Id>, users: map<Id, User>): (r: seq<Id>)
    ensures forall x :: x in r <==> x in ids && x in users
    ensures IsSubsequence(r, ids)
  {
    Filter(ids, (x: Id) => x in users)
  }

  /** `populateHangout`: participants the user store does not know are dropped,
   *  and an unknown host is left undefined. */
  function Populate(h: Hangout, users: map<Id, User>): (v: HangoutView)
    ensures v.hangout == h
    ensures v.host.Some? <==> h.hostId in users
    ensures v.host.Some? ==> v.host.value == SummaryOf(users, h.hostId)
    ensures |v.participants| <= |h.participants|
    ensures forall s :: s in v.participants ==> s.id in h.participants && s.id in users
    ensures forall s :: s in v.participants ==> s == SummaryOf(users, s.id)
    ensures forall i :: 0 <= i < |h.participants| && h.participants[i] in users
                        ==> SummaryOf(users, h.participants[i]) in v.participants
    ensures v.participants == ParticipantSummaries(h.participants, users)
  {
    HangoutView(h,
      if h.hostId in users then Some(SummaryOf(users, h.hostId)) else None,
      ParticipantSummaries(h.participants, users))
  }

  /** The query of `getHangouts`: not cancelled, and hosted by or inviting the user. */
  predicate VisibleTo(h: Hangout, userId: Id) {
    h.status != Cancelled && (h.hostId == userId || userId in h.participants)
  }

  /** `getHangouts` over the hangout collection given in the store's sort order. */
  function GetHangouts(hangouts: seq<Hangout>, users: map<Id, User>, userId: Id): (r: seq<HangoutView>)
    ensures |r| <= |hangouts|
    ensures forall v :: v in r ==> v.hangout in hangouts && VisibleTo(v.hangout, userId)
    ensures forall h :: h in hangouts && VisibleTo(h, userId) ==> Populate(h, users) in r
    ensures forall v :: v in r ==> v == Populate(v.hangout, users)
  {
    if hangouts == [] then []
    else
      var rest := GetHangouts(hangouts[1..], users, userId);
      assert forall h :: h in hangouts ==> h == hangouts[0] || h in hangouts[1..];
      if VisibleTo(hangouts[0], userId) then [Populate(hangouts[0], users)] + rest else rest
  }

  // ---------------------------------------------------------------------------
  // createHangout: classification and request synthesis
  // ---------------------------------------------------------------------------

  /** How `createHangout` treats one invited participant. */
  datatype Classification =
    | FirstDegree                    // in the host's friend list
    | ApprovedSecondDegree           // approved for this host by an earlier request
    | UnknownUser                    // no such user: skipped
    | NoApprovalPath                 // no mutual friend: stays invited, no request
    | NeedsApproval(approverId: Id)  // a request goes to this mutual friend

  /** `hostFriends.find(id => candidateFriends.includes(id))`: the first mutual
   *  friend in the host's friend-list order. */
  function FirstMutualFriend(hostFriends: seq<Id>, candidateFriends: seq<Id>): (r: Option<Id>)
    ensures r.None? <==> forall x :: x in hostFriends ==> x !in candidateFriends
    ensures r.Some? ==> r.value in candidateFriends && exists i :: 0 <= i < |hostFriends| && hostFriends[i] == r.value && FirstMatchAt(hostFriends, candidateFriends, i)
  {
    if hostFriends == [] then None
    else if hostFriends[0] in candidateFriends then
      assert FirstMatchAt(hostFriends, candidateFriends, 0);
      Some(hostFriends[0])
    else
      var r := FirstMutualFriend(hostFriends[1..], candidateFriends);
      if r.Some? then
        FirstMatchShifts(hostFriends, candidateFriends, r.value);
        r
      else r
  }

  lemma FirstMatchShifts(hostFriends: seq<Id>, candidateFriends: seq<Id>, x: Id)
    requires hostFriends != [] && hostFriends[0] !in candidateFriends
    requires exists i :: 0 <= i < |hostFriends[1..]| && hostFriends[1..][i] == x && FirstMatchAt(hostFriends[1..], candidateFriends, i)
    ensures exists i :: 0 <= i < |hostFriends| && hostFriends[i] == x && FirstMatchAt(hostFriends, candidateFriends, i)
  {
    var i :| 0 <= i < |hostFriends[1..]| && hostFriends[1..][i] == x && FirstMatchAt(hostFriends[1..], candidateFriends, i);
    assert FirstMatchAt(hostFriends, candidateFriends, i + 1);
  }

  /** No element of `hostFriends` before index `i` is in `candidateFriends`. */
  ghost predicate FirstMatchAt(hostFriends: seq<Id>, candidateFriends: seq<Id>, i: nat) {
    i <= |hostFriends| && forall j :: 0 <= j < i ==> hostFriends[j] !in candidateFriends
  }

  /** The classification of hangoutController.ts, lines 56-67. A found id is
   *  tested for JavaScript truthiness, so an empty id counts as not found. */
  function Classify(host: User, users: map<Id, User>, participantId: Id): (c: Classification)
    ensures c == FirstDegree <==> participantId in host.firstDegreeFriendIds
    ensures c == ApprovedSecondDegree <==>
              participantId !in host.firstDegreeFriendIds && participantId in host.approvedSecondDegreeConnections
    ensures c == UnknownUser <==>
              && participantId !in host.firstDegreeFriendIds
              && participantId !in host.approvedSecondDegreeConnections
              && participantId !in users
    ensures c.NeedsApproval? <==>
              && participantId !in host.firstDegreeFriendIds
              && participantId !in host.approvedSecondDegreeConnections
              && participantId in users
              && FirstMutualFriend(host.firstDegreeFriendIds, users[participantId].firstDegreeFriendIds) !in {None, Some("")}
    ensures participantId in host.firstDegreeFriendIds || participantId in host.approvedSecondDegreeConnections
            ==> !c.NeedsApproval?
    ensures participantId !in users ==> !c.NeedsApproval?
    ensures c.NeedsApproval? ==>
              && participantId in users
              && c.approverId in host.firstDegreeFriendIds
              && c.approverId in users[participantId].firstDegreeFriendIds
              && FirstMutualFriend(host.firstDegreeFriendIds, users[participantId].firstDegreeFriendIds) == Some(c.approverId)
    ensures c == NoApprovalPath ==>
              && participantId in users
              && FirstMutualFriend(host.firstDegreeFriendIds, users[participantId].firstDegreeFriendIds) in {None, Some("")}
  {
    if participantId in host.firstDegreeFriendIds then FirstDegree
    else if participantId in host.approvedSecondDegreeConnections then ApprovedSecondDegree
    else if participantId !in users then UnknownUser
    else
      match FirstMutualFriend(host.firstDegreeFriendIds, users[participantId].firstDegreeFriendIds)
      case Some(approver) =>
        if approver != "" then NeedsApproval(approver) else NoApprovalPath
      case None => NoApprovalPath
  }

  /** A request as built in the loop of `createHangout`, before MongoDB gives it an id. */
  datatype RequestDraft = RequestDraft(requesterId: Id, requestedId: Id, approverId: Id, hangoutId: Id)

  /** The request, if any, emitted for one participant. */
  function DraftFor(host: User, users: map<Id, User>, participantId: Id, hangoutId: Id): seq<RequestDraft> {
    match Classify(host, users, participantId)
    case NeedsApproval(approver) => [RequestDraft(host.id, participantId, approver, hangoutId)]
    case _ => []
  }

  /** The requests `createHangout` emits for `participantIds`, in participant order. */
  function RequestDrafts(host: User, users: map<Id, User>, participantIds: seq<Id>, hangoutId: Id): (r: seq<RequestDraft>)
    ensures |r| <= |participantIds|
    ensures forall d :: d in r ==>
              && d.requesterId == host.id
              && d.hangoutId == hangoutId
              && d.requestedId in participantIds
              && Classify(host, users, d.requestedId) == NeedsApproval(d.approverId)
    decreases |participantIds|
  {
    if participantIds == [] then []
    else
      var last := participantIds[|participantIds| - 1];
      var init := participantIds[..|participantIds| - 1];
      assert forall p :: p in init ==> p in participantIds;
      RequestDrafts(host, users, init, hangoutId) + DraftFor(host, users, last, hangoutId)
  }

  /** Exactly one request per participant that needs approval, in participant
   *  order. */
  lemma {:induction false} OneDraftPerApproval(host: User, users: map<Id, User>, participantIds: seq<Id>, hangoutId: Id)
    ensures |RequestDrafts(host, users, participantIds, hangoutId)| == |NeedingApproval(host, users, participantIds)|
    ensures forall k :: 0 <= k < |NeedingApproval(host, users, participantIds)| ==>
              RequestDrafts(host, users, participantIds, hangoutId)[k].requestedId == NeedingApproval(host, users, participantIds)[k]
    decreases |participantIds|
  {
    if participantIds != [] {
      var last := participantIds[|participantIds| - 1];
      var init := participantIds[..|participantIds| - 1];
      OneDraftPerApproval(host, users, init, hangoutId);
      assert participantIds == init + [last];
      FilterSnoc(init, last, (p: Id) => Classify(host, users, p).NeedsApproval?);
    }
  }

  /** The participants that need approval, in participant order. */
  function NeedingApproval(host: User, users: map<Id, User>, participantIds: seq<Id>): (r: seq<Id>)
    ensures forall p :: p in r <==> p in participantIds && Classify(host, users, p).NeedsApproval?
    ensures IsSubsequence(r, participantIds)
  {
    Filter(participantIds, (p: Id) => Classify(host, users, p).NeedsApproval?)
  }

  /** Every participant that needs approval gets its request, addressed to the
   *  first mutual friend. */
  lemma {:induction false} RequestDraftsComplete(host: User, users: map<Id, User>, participantIds: seq<Id>, hangoutId: Id, i: nat)
    requires i < |participantIds|
    requires Classify(host, users, participantIds[i]).NeedsApproval?
    ensures RequestDraft(host.id, participantIds[i], Classify(host, users, participantIds[i]).approverId, hangoutId)
            in RequestDrafts(host, users, participantIds, hangoutId)
    decreases |participantIds|
  {
    var init := participantIds[..|participantIds| - 1];
    if i < |participantIds| - 1 {
      assert init[i] == participantIds[i];
      RequestDraftsComplete(host, users, init, hangoutId, i);
    }
  }

  /** No request is emitted exactly when no participant needs approval; this is what
   *  decides between `pending` and `pending_approval`. */
  lemma {:induction false} NoDraftsIffNoneNeedsApproval(host: User, users: map<Id, User>, participantIds: seq<Id>, hangoutId: Id)
    ensures RequestDrafts(host, users, participantIds, hangoutId) == []
            <==> forall p :: p in participantIds ==> !Classify(host, users, p).NeedsApproval?
    decreases |participantIds|
  {
    if participantIds != [] {
      var init := participantIds[..|participantIds| - 1];
      var last := participantIds[|participantIds| - 1];
      NoDraftsIffNoneNeedsApproval(host, users, init, hangoutId);
      assert participantIds == init + [last];
    }
  }

  /** Inviting only first-degree friends and approved contacts emits no request. */
  lemma AllKnownNeedNoRequests(host: User, users: map<Id, User>, participantIds: seq<Id>, hangoutId: Id)
    requires forall p :: p in participantIds ==>
               p in host.firstDegreeFriendIds || p in host.approvedSecondDegreeConnections
    ensures RequestDrafts(host, users, participantIds, hangoutId) == []
  {
    NoDraftsIffNoneNeedsApproval(host, users, participantIds, hangoutId);
  }

  /** The loop of `createHangout` (lines 53-77), which fills
   *  `secondDegreeConnectionRequests`. */
  method SecondDegreeRequests(host: User, users: map<Id, User>, participantIds: seq<Id>, hangoutId: Id)
    returns (requests: seq<RequestDraft>)
    ensures requests == RequestDrafts(host, users, participantIds, hangoutId)
  {
    requests := [];
    for i := 0 to |participantIds|
      invariant requests == RequestDrafts(host, users, participantIds[..i], hangoutId)
    {
      var participantId := participantIds[i];
      assert participantIds[..i + 1][..i] == participantIds[..i];
      assert RequestDrafts(host, users, participantIds[..i + 1], hangoutId)
          == RequestDrafts(host, users, participantIds[..i], hangoutId) + DraftFor(host, users, participantId, hangoutId);
      if participantId !in host.firstDegreeFriendIds {
        if participantId !in host.approvedSecondDegreeConnections {
          if participantId !in users {
            continue;
          }
          var secondDegreeUser := users[participantId];
          var mutualFriendId := FirstMutualFriend(host.firstDegreeFriendIds, secondDegreeUser.firstDegreeFriendIds);
          if mutualFriendId.Some? && mutualFriendId.value != "" {
            requests := requests + [RequestDraft(host.id, participantId, mutualFriendId.value, hangoutId)];
          }
        }
      }
    }
    assert participantIds[..|participantIds|] == participantIds;
  }

  /** A stored request: MongoDB's id plus the schema's default status `pending`. */
  function Stored(d: RequestDraft, id: Id): (r: ConnectionRequest)
    ensures r.id == id && r.status == RequestStatus.Pending
    ensures r.requesterId == d.requesterId && r.requestedId == d.requestedId
    ensures r.approverId == d.approverId && r.hangoutId == d.hangoutId
  {
    ConnectionRequest(id, d.requesterId, d.requestedId, d.approverId, RequestStatus.Pending, d.hangoutId)
  }

  /** `ConnectionRequest.insertMany(drafts)` with MongoDB choosing the fresh ids `ids`. */
  function InsertMany(requests: map<Id, ConnectionRequest>, drafts: seq<RequestDraft>, ids: seq<Id>): (r: map<Id, ConnectionRequest>)
    requires |ids| >= |drafts| && NoDuplicates(ids)
    requires forall k :: k in ids ==> k !in requests
    ensures forall k :: k in r <==> k in requests || k in ids[..|drafts|]
    ensures forall k :: k in requests ==> r[k] == requests[k]
    ensures forall j :: 0 <= j < |drafts| ==> r[ids[j]] == Stored(drafts[j], ids[j])
    decreases |drafts|
  {
    if drafts == [] then requests
    else
      DistinctTail(ids);
      var m := requests[ids[0] := Stored(drafts[0], ids[0])];
      var r := InsertMany(m, drafts[1..], ids[1..]);
      InsertFirst(requests, drafts, ids, m, r);
      r
  }

  /** One step of `InsertMany`: the first draft goes in, then the rest. */
  lemma InsertFirst(requests: map<Id, ConnectionRequest>, drafts: seq<RequestDraft>, ids: seq<Id>,
                    m: map<Id, ConnectionRequest>, r: map<Id, ConnectionRequest>)
    requires drafts != [] && |ids| >= |drafts| && ids[0] !in requests
    requires m == requests[ids[0] := Stored(drafts[0], ids[0])]
    requires forall k :: k in r <==> k in m || k in ids[1..][..|drafts| - 1]
    requires forall k :: k in m ==> r[k] == m[k]
    requires forall j :: 0 <= j < |drafts[1..]| ==> r[ids[1..][j]] == Stored(drafts[1..][j], ids[1..][j])
    ensures forall k :: k in r <==> k in requests || k in ids[..|drafts|]
    ensures forall k :: k in requests ==> r[k] == requests[k]
    ensures forall j :: 0 <= j < |drafts| ==> r[ids[j]] == Stored(drafts[j], ids[j])
  {
    assert ids[..|drafts|] == [ids[0]] + ids[1..][..|drafts| - 1];
    forall j | 0 <= j < |drafts|
      ensures r[ids[j]] == Stored(drafts[j], ids[j])
    {
      if j == 0 {
        assert ids[0] in m;
      } else {
        var k := j - 1;
        assert ids[1..][k] == ids[j] && drafts[1..][k] == drafts[j];
        assert r[ids[1..][k]] == Stored(drafts[1..][k], ids[1..][k]);
      }
    }
  }

  /** The tail of a list without duplicates has none and lacks the head. */
  lemma DistinctTail(ids: seq<Id>)
    requires ids != [] && NoDuplicates(ids)
    ensures NoDuplicates(ids[1..]) && ids[0] !in ids[1..]
  {
    forall i, j | 0 <= i < j < |ids[1..]|
      ensures ids[1..][i] != ids[1..][j]
    {
      assert ids[1..][i] == ids[i + 1] && ids[1..][j] == ids[j + 1];
    }
    forall j | 0 <= j < |ids[1..]|
      ensures ids[1..][j] != ids[0]
    {
      assert ids[1..][j] == ids[j + 1];
    }
  }

  /** The hangout `createHangout` stores once the requests are known. */
  ghost predicate IsNewHangout(h: Hangout, id: Id, hostId: Id, participantIds: seq<Id>, activityDescription: string,
                               details: Option<string>, requestsEmitted: bool)
  {
    && h.id == id
    && h.hostId == hostId
    && h.participants == participantIds
    && h.acceptedBy == [hostId]
    && h.rejectedBy == []
    && h.activityDescription == activityDescription
    && h.details == details
    && h.status == (if requestsEmitted then PendingApproval else HangoutStatus.Pending)
  }

  /** Creating a hangout keeps the stores consistent. */
  lemma CreateKeepsConsistent(users: map<Id, User>, hangouts: map<Id, Hangout>, requests: map<Id, ConnectionRequest>,
                              h: Hangout, drafts: seq<RequestDraft>, ids: seq<Id>)
    requires Consistent(users, hangouts, requests)
    requires h.id !in hangouts
    requires h.acceptedBy == [h.hostId] && h.rejectedBy == []
    requires h.status == (if |drafts| > 0 then PendingApproval else HangoutStatus.Pending)
    requires forall d :: d in drafts ==> d.hangoutId == h.id
    requires |ids| >= |drafts| && NoDuplicates(ids) && forall k :: k in ids ==> k !in requests
    ensures Consistent(users, hangouts[h.id := h], InsertMany(requests, drafts, ids))
  {
    var hs := hangouts[h.id := h];
    var rs := InsertMany(requests, drafts, ids);
    assert ResponsesWellFormed(h);
    assert forall k :: k in hs ==> hs[k].id == k && ResponsesWellFormed(hs[k]);
    InsertedRequestsBelong(hangouts, requests, h, drafts, ids);
    AwaitingHangoutsHavePending(hangouts, requests, h, drafts, ids);
  }

  /** After creation, every hangout awaiting approval still has a pending request. */
  lemma AwaitingHangoutsHavePending(hangouts: map<Id, Hangout>, requests: map<Id, ConnectionRequest>,
                                    h: Hangout, drafts: seq<RequestDraft>, ids: seq<Id>)
    requires AwaitingHavePending(hangouts, requests)
    requires h.status == (if |drafts| > 0 then PendingApproval else HangoutStatus.Pending)
    requires forall d :: d in drafts ==> d.hangoutId == h.id
    requires |ids| >= |drafts| && NoDuplicates(ids) && forall k :: k in ids ==> k !in requests
    ensures AwaitingHavePending(hangouts[h.id := h], InsertMany(requests, drafts, ids))
  {
    var hs := hangouts[h.id := h];
    var rs := InsertMany(requests, drafts, ids);
    forall k | k in hs && hs[k].status == PendingApproval
      ensures HasPendingRequest(rs, k)
    {
      if k == h.id {
        assert drafts[0] in drafts;
        assert rs[ids[0]] == Stored(drafts[0], ids[0]);
      } else {
        var q :| q in requests && requests[q].hangoutId == k && requests[q].status == RequestStatus.Pending;
        assert rs[q] == requests[q];
      }
    }
  }

  /** Every stored request, old or inserted, names its key and a stored hangout,
   *  and a pending one belongs to a hangout awaiting approval or confirmed. */
  lemma InsertedRequestsBelong(hangouts: map<Id, Hangout>, requests: map<Id, ConnectionRequest>,
                               h: Hangout, drafts: seq<RequestDraft>, ids: seq<Id>)
    requires RequestsKeyed(hangouts, requests) && PendingBelongToAwaiting(hangouts, requests)
    requires h.id !in hangouts
    requires h.status == (if |drafts| > 0 then PendingApproval else HangoutStatus.Pending)
    requires forall d :: d in drafts ==> d.hangoutId == h.id
    requires |ids| >= |drafts| && NoDuplicates(ids) && forall k :: k in ids ==> k !in requests
    ensures RequestsKeyed(hangouts[h.id := h], InsertMany(requests, drafts, ids))
    ensures PendingBelongToAwaiting(hangouts[h.id := h], InsertMany(requests, drafts, ids))
  {
    var hs := hangouts[h.id := h];
    var rs := InsertMany(requests, drafts, ids);
    forall k | k in rs
      ensures rs[k].id == k && rs[k].hangoutId in hs
      ensures rs[k].status == RequestStatus.Pending ==> hs[rs[k].hangoutId].status in {PendingApproval, Confirmed}
    {
      if k in requests {
        assert rs[k] == requests[k];
      } else {
        var d := InsertedIsDraft(requests, drafts, ids, k);
      }
    }
  }

  /** A request `InsertMany` adds is a stored draft. */
  lemma InsertedIsDraft(requests: map<Id, ConnectionRequest>, drafts: seq<RequestDraft>, ids: seq<Id>, k: Id)
    returns (d: RequestDraft)
    requires |ids| >= |drafts| && NoDuplicates(ids) && forall k :: k in ids ==> k !in requests
    requires k in InsertMany(requests, drafts, ids) && k !in requests
    ensures d in drafts && InsertMany(requests, drafts, ids)[k] == Stored(d, k)
  {
    var j :| 0 <= j < |drafts| && ids[..|drafts|][j] == k;
    assert ids[j] == k;
    d := drafts[j];
  }

  /** `createHangout`. The hangout is saved, the requests are inserted and the
   *  hangout is saved again; the three writes are one step here. The fresh ids
   *  MongoDB would generate are parameters. */
  method CreateHangout(db: Db, hostId: Id, participantIds: seq<Id>, activityDescription: string, details: Option<string>,
                       hangoutId: Id, requestIds: seq<Id>)
    returns (r: Result<HangoutView>)
    requires db.Valid()
    requires hangoutId !in db.hangouts
    requires |requestIds| == |participantIds| && NoDuplicates(requestIds)
    requires forall k :: k in requestIds ==> k !in db.requests
    modifies db
    ensures db.Valid()
    ensures db.users == old(db.users)
    ensures hostId !in db.users ==>
              r == Err(NotFound) && db.hangouts == old(db.hangouts) && db.requests == old(db.requests)
    ensures hostId in db.users ==>
              var drafts := RequestDrafts(db.users[hostId], db.users, participantIds, hangoutId);
              && hangoutId in db.hangouts
              && IsNewHangout(db.hangouts[hangoutId], hangoutId, hostId, participantIds, activityDescription, details, |drafts| > 0)
              && db.hangouts == old(db.hangouts)[hangoutId := db.hangouts[hangoutId]]
              && db.requests == InsertMany(old(db.requests), drafts, requestIds)
              && r == Ok(Populate(db.hangouts[hangoutId], db.users))
  {
    if hostId !in db.users {
      return Err(NotFound);
    }
    var users, hangouts, requests := db.users, db.hangouts, db.requests;
    var host := users[hostId];
    var newHangout := Hangout(hangoutId, hostId, participantIds, [], [], activityDescription, details, HangoutStatus.Pending);
    newHangout := newHangout.(acceptedBy := newHangout.acceptedBy + [hostId]);
    db.hangouts := hangouts[hangoutId := newHangout];

    var secondDegreeConnectionRequests := SecondDegreeRequests(host, users, participantIds, hangoutId);
    if |secondDegreeConnectionRequests| > 0 {
      newHangout := newHangout.(status := PendingApproval);
      db.requests := InsertMany(requests, secondDegreeConnectionRequests, requestIds);
    }
    db.hangouts := hangouts[hangoutId := newHangout];
    CreateKeepsConsistent(users, hangouts, requests, newHangout, secondDegreeConnectionRequests, requestIds);
    r := Ok(Populate(newHangout, users));
  }

  /** The gate's headline case: a stored friend of a friend, not yet approved,
   *  with exactly one mutual friend, gets one pending request addressed to
   *  that friend, and the new hangout awaits approval. */
  lemma SecondDegreeInviteAwaitsApproval(host: User, users: map<Id, User>, participantId: Id, mutualFriendId: Id,
                                         requests: map<Id, ConnectionRequest>, requestIds: seq<Id>, h: Hangout,
                                         activityDescription: string, details: Option<string>)
    requires participantId !in host.firstDegreeFriendIds && participantId !in host.approvedSecondDegreeConnections
    requires participantId in users
    requires mutualFriendId != ""
    requires mutualFriendId in host.firstDegreeFriendIds && mutualFriendId in users[participantId].firstDegreeFriendIds
    requires forall x :: x in host.firstDegreeFriendIds && x in users[participantId].firstDegreeFriendIds ==> x == mutualFriendId
    requires |requestIds| == 1 && requestIds[0] !in requests
    requires IsNewHangout(h, h.id, host.id, [participantId], activityDescription, details,
                          |RequestDrafts(host, users, [participantId], h.id)| > 0)
    ensures RequestDrafts(host, users, [participantId], h.id) == [RequestDraft(host.id, participantId, mutualFriendId, h.id)]
    ensures h.status == PendingApproval
    ensures var rs := InsertMany(requests, RequestDrafts(host, users, [participantId], h.id), requestIds);
      && rs.Keys == requests.Keys + {requestIds[0]}
      && rs[requestIds[0]] == ConnectionRequest(requestIds[0], host.id, participantId, mutualFriendId, RequestStatus.Pending, h.id)
  {
    LoneInviteDraft(host, users, participantId, mutualFriendId, h.id);
    var drafts := RequestDrafts(host, users, [participantId], h.id);
    assert requestIds[..|drafts|] == requestIds;
  }

  /** The one draft emitted for a lone invitee reachable through exactly one
   *  mutual friend. */
  lemma LoneInviteDraft(host: User, users: map<Id, User>, participantId: Id, mutualFriendId: Id, hangoutId: Id)
    requires participantId !in host.firstDegreeFriendIds && participantId !in host.approvedSecondDegreeConnections
    requires participantId in users
    requires mutualFriendId != ""
    requires mutualFriendId in host.firstDegreeFriendIds && mutualFriendId in users[participantId].firstDegreeFriendIds
    requires forall x :: x in host.firstDegreeFriendIds && x in users[participantId].firstDegreeFriendIds ==> x == mutualFriendId
    ensures RequestDrafts(host, users, [participantId], hangoutId) == [RequestDraft(host.id, participantId, mutualFriendId, hangoutId)]
  {
    var found := FirstMutualFriend(host.firstDegreeFriendIds, users[participantId].firstDegreeFriendIds);
    assert found == Some(mutualFriendId) by {
      assert found.Some?;
      var i :| 0 <= i < |host.firstDegreeFriendIds| && host.firstDegreeFriendIds[i] == found.value
               && FirstMatchAt(host.firstDegreeFriendIds, users[participantId].firstDegreeFriendIds, i);
    }
    assert Classify(host, users, participantId) == NeedsApproval(mutualFriendId);
    assert [participantId][..0] == [];
    assert RequestDrafts(host, users, [participantId], hangoutId)
        == RequestDrafts(host, users, [], hangoutId) + DraftFor(host, users, participantId, hangoutId);
  }

  // ---------------------------------------------------------------------------
  // cancelHangout
  // ---------------------------------------------------------------------------

  /** `ConnectionRequest.updateMany({ hangoutId, status: 'pending' }, { status: 'rejected' })`. */
  function RejectPending(requests: map<Id, ConnectionRequest>, hangoutId: Id): (r: map<Id, ConnectionRequest>)
    ensures r.Keys == requests.Keys
    ensures !HasPendingRequest(r, hangoutId)
    ensures forall k :: k in requests && requests[k].hangoutId == hangoutId && requests[k].status == RequestStatus.Pending
              ==> r[k] == requests[k].(status := Rejected)
    ensures forall k :: k in requests && !(requests[k].hangoutId == hangoutId && requests[k].status == RequestStatus.Pending)
              ==> r[k] == requests[k]
  {
    map k | k in requests ::
      if requests[k].hangoutId == hangoutId && requests[k].status == RequestStatus.Pending
      then requests[k].(status := Rejected) else requests[k]
  }

  /** Cancelling keeps the stores consistent, from whatever status the hangout had. */
  lemma CancelKeepsConsistent(users: map<Id, User>, hangouts: map<Id, Hangout>, requests: map<Id, ConnectionRequest>, hangoutId: Id)
    requires Consistent(users, hangouts, requests)
    requires hangoutId in hangouts
    ensures Consistent(users, hangouts[hangoutId := hangouts[hangoutId].(status := Cancelled)], RejectPending(requests, hangoutId))
  {
    var hs := hangouts[hangoutId := hangouts[hangoutId].(status := Cancelled)];
    var rs := RejectPending(requests, hangoutId);
    forall h | h in hs && hs[h].status == PendingApproval
      ensures HasPendingRequest(rs, h)
    {
      var q :| q in requests && requests[q].hangoutId == h && requests[q].status == RequestStatus.Pending;
      assert rs[q] == requests[q];
    }
  }

  /** `cancelHangout`: host-only, allowed from every status (`confirmed` included),
   *  and cascading to the hangout's pending requests. */
  method CancelHangout(db: Db, callerId: Id, hangoutId: Id) returns (r: Result<()>)
    requires db.Valid()
    modifies db
    ensures db.Valid()
    ensures db.users == old(db.users)
    ensures hangoutId !in old(db.hangouts) ==> r == Err(NotFound)
    ensures hangoutId in old(db.hangouts) && old(db.hangouts)[hangoutId].hostId != callerId ==> r == Err(Forbidden)
    ensures r.Err? ==> db.hangouts == old(db.hangouts) && db.requests == old(db.requests)
    ensures hangoutId in old(db.hangouts) && old(db.hangouts)[hangoutId].hostId == callerId ==>
              && r == Ok(())
              && db.hangouts == old(db.hangouts)[hangoutId := old(db.hangouts)[hangoutId].(status := Cancelled)]
              && db.requests == RejectPending(old(db.requests), hangoutId)
  {
    if hangoutId !in db.hangouts {
      return Err(NotFound);
    }
    var hangout := db.hangouts[hangoutId];
    if hangout.hostId != callerId {
      return Err(Forbidden);
    }
    hangout := hangout.(status := Cancelled);
    db.hangouts := db.hangouts[hangoutId := hangout];
    db.requests := RejectPending(db.requests, hangoutId);
    CancelKeepsConsistent(db.users, old(db.hangouts), old(db.requests), hangoutId);
    return Ok(());
  }

  // ---------------------------------------------------------------------------
  // acceptHangout / rejectHangout
  // ---------------------------------------------------------------------------

  datatype Action = Accept | Reject

  /** The new hangout record after `userId` responds: the user is first removed
   *  from both lists, then added to the chosen one, and the hangout is confirmed
   *  when `acceptedBy` counts every participant plus the host. Neither
   *  membership nor the current status is checked. */
  function ApplyResponse(h: Hangout, userId: Id, action: Action): (r: Hangout)
    ensures r == h.(acceptedBy := r.acceptedBy, rejectedBy := r.rejectedBy, status := r.status)
    ensures action == Accept ==> multiset(r.acceptedBy)[userId] == 1 && userId !in r.rejectedBy
    ensures action == Reject ==> multiset(r.rejectedBy)[userId] == 1 && userId !in r.acceptedBy
    ensures forall u :: u != userId ==> multiset(r.acceptedBy)[u] == multiset(h.acceptedBy)[u]
    ensures forall u :: u != userId ==> multiset(r.rejectedBy)[u] == multiset(h.rejectedBy)[u]
    ensures r.status == (if |r.acceptedBy| == |h.participants| + 1 then Confirmed else h.status)
    ensures h.status == Confirmed ==> r.status == Confirmed
    ensures ResponsesWellFormed(h) ==> ResponsesWellFormed(r)
  {
    var accepted := Without(h.acceptedBy, userId);
    var rejected := Without(h.rejectedBy, userId);
    var accepted', rejected' :=
      if action == Accept then accepted + [userId] else accepted,
      if action == Reject then rejected + [userId] else rejected;
    AppendAbsent(accepted, userId, action == Accept);
    AppendAbsent(rejected, userId, action == Reject);
    h.(acceptedBy := accepted', rejectedBy := rejected',
       status := if |accepted'| == |h.participants| + 1 then Confirmed else h.status)
  }

  /** Appending (or not) an element that is absent. */
  lemma AppendAbsent(s: seq<Id>, x: Id, append: bool)
    requires x !in s
    ensures var t := if append then s + [x] else s;
      && multiset(t)[x] == (if append then 1 else 0)
      && (forall u :: u != x ==> multiset(t)[u] == multiset(s)[u])
      && (forall u :: u != x ==> (u in t <==> u in s))
      && (NoDuplicates(s) ==> NoDuplicates(t))
  {
  }

  /** Responding twice with the same action changes nothing the second time. */
  lemma ResponseIsIdempotent(h: Hangout, userId: Id, action: Action)
    ensures ApplyResponse(ApplyResponse(h, userId, action), userId, action) == ApplyResponse(h, userId, action)
  {
    var once := ApplyResponse(h, userId, action);
    var accepted := Without(h.acceptedBy, userId);
    var rejected := Without(h.rejectedBy, userId);
    if action == Accept {
      WithoutAppended(accepted, userId);
      assert Without(once.rejectedBy, userId) == rejected;
    } else {
      WithoutAppended(rejected, userId);
      assert Without(once.acceptedBy, userId) == accepted;
    }
  }

  /** The confirmation rule ignores the status: a cancelled hangout is confirmed
   *  once everybody has accepted. */
  lemma CancelledHangoutCanBeConfirmed()
    ensures
      var h := Hangout("h", "host", ["guest"], ["host"], [], "walk", None, Cancelled);
      ApplyResponse(h, "guest", Accept).status == Confirmed
  {
    var h := Hangout("h", "host", ["guest"], ["host"], [], "walk", None, Cancelled);
    assert Without(h.acceptedBy, "guest") == ["host"];
  }

  /** A response keeps the stores consistent. */
  lemma ResponseKeepsConsistent(users: map<Id, User>, hangouts: map<Id, Hangout>, requests: map<Id, ConnectionRequest>,
                                hangoutId: Id, userId: Id, action: Action)
    requires Consistent(users, hangouts, requests)
    requires hangoutId in hangouts
    ensures Consistent(users, hangouts[hangoutId := ApplyResponse(hangouts[hangoutId], userId, action)], requests)
  {
    var h := hangouts[hangoutId];
    var r := ApplyResponse(h, userId, action);
    assert r.id == h.id;
    ReplaceKeepsConsistent(users, hangouts, requests, hangoutId, r);
  }

  /** Replacing a stored hangout by a well-formed record with the same id whose
   *  status is unchanged or `confirmed` keeps the stores consistent. */
  lemma ReplaceKeepsConsistent(users: map<Id, User>, hangouts: map<Id, Hangout>, requests: map<Id, ConnectionRequest>,
                               hangoutId: Id, h': Hangout)
    requires Consistent(users, hangouts, requests)
    requires hangoutId in hangouts && h'.id == hangoutId && ResponsesWellFormed(h')
    requires h'.status == hangouts[hangoutId].status || h'.status == Confirmed
    ensures Consistent(users, hangouts[hangoutId := h'], requests)
  {
    var hs := hangouts[hangoutId := h'];
    forall k | k in requests && requests[k].status == RequestStatus.Pending
      ensures hs[requests[k].hangoutId].status in {PendingApproval, Confirmed}
    {
    }
  }

  /** `handleHangoutResponse`, shared by `acceptHangout` and `rejectHangout`. */
  method HandleHangoutResponse(db: Db, userId: Id, hangoutId: Id, action: Action) returns (r: Result<HangoutView>)
    requires db.Valid()
    modifies db`hangouts
    ensures db.Valid()
    ensures hangoutId !in old(db.hangouts) ==> r == Err(NotFound) && db.hangouts == old(db.hangouts)
    ensures hangoutId in old(db.hangouts) ==>
              && db.hangouts == old(db.hangouts)[hangoutId := ApplyResponse(old(db.hangouts)[hangoutId], userId, action)]
              && r == Ok(Populate(db.hangouts[hangoutId], db.users))
  {
    if hangoutId !in db.hangouts {
      return Err(NotFound);
    }
    var hangout := db.hangouts[hangoutId];
    hangout := hangout.(acceptedBy := Without(hangout.acceptedBy, userId));
    hangout := hangout.(rejectedBy := Without(hangout.rejectedBy, userId));
    if action == Accept {
      hangout := hangout.(acceptedBy := hangout.acceptedBy + [userId]);
    } else {
      hangout := hangout.(rejectedBy := hangout.rejectedBy + [userId]);
    }
    if |hangout.acceptedBy| == |hangout.participants| + 1 {
      hangout := hangout.(status := Confirmed);
    }
    db.hangouts := db.hangouts[hangoutId := hangout];
    ResponseKeepsConsistent(db.users, old(db.hangouts), db.requests, hangoutId, userId, action);
    return Ok(Populate(hangout, db.users));
  }
}
