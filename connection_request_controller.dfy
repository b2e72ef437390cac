/** backend/src/controllers/connectionRequestController.ts: the approver's
 *  inbox and the approval handler, which records the decision, remembers an
 *  approved contact for the requester, and releases the hangout once none of
 *  its requests is pending. */
module ConnectionRequestController {
  import opened Seqs
  import opened Models
  import opened HangoutController

  /** `getMyConnectionRequests` over the request collection in store order: the
   *  pending requests addressed to the caller as approver. The dashboard's
   *  `myPendingApprovalRequests` applies the same filter on the client. */
  function MyConnectionRequests(requests: seq<ConnectionRequest>, userId: Id): (r: seq<ConnectionRequest>)
    ensures forall q :: q in r <==> q in requests && q.approverId == userId && q.status == RequestStatus.Pending
    ensures IsSubsequence(r, requests)
  {
    Filter(requests, (q: ConnectionRequest) => q.approverId == userId && q.status == RequestStatus.Pending)
  }

  /** `countDocuments({ hangoutId, status: 'pending' })`. */
  function PendingCount(requests: map<Id, ConnectionRequest>, hangoutId: Id): (n: nat)
    ensures n == 0 <==> !HasPendingRequest(requests, hangoutId)
  {
    var pending := set k | k in requests && requests[k].hangoutId == hangoutId && requests[k].status == RequestStatus.Pending;
    assert HasPendingRequest(requests, hangoutId) ==> pending != {} by {
      if HasPendingRequest(requests, hangoutId) {
        var k :| k in requests && requests[k].hangoutId == hangoutId && requests[k].status == RequestStatus.Pending;
        assert k in pending;
      }
    }
    |pending|
  }

  /** `User.findByIdAndUpdate(requesterId, { $addToSet: { approvedSecondDegreeConnections: requestedId } })`:
   *  a missing requester matches nothing and nothing changes. */
  function RecordApproval(users: map<Id, User>, requesterId: Id, requestedId: Id): (r: map<Id, User>)
    ensures r.Keys == users.Keys
    ensures forall k :: k in users && k != requesterId ==> r[k] == users[k]
    ensures requesterId in users ==>
              && requestedId in r[requesterId].approvedSecondDegreeConnections
              && (requestedId in users[requesterId].approvedSecondDegreeConnections
                  ==> r[requesterId].approvedSecondDegreeConnections == users[requesterId].approvedSecondDegreeConnections)
              && (requestedId !in users[requesterId].approvedSecondDegreeConnections
                  ==> r[requesterId].approvedSecondDegreeConnections
                      == users[requesterId].approvedSecondDegreeConnections + [requestedId])
              && (forall x :: (x in r[requesterId].approvedSecondDegreeConnections)
                               == (x in users[requesterId].approvedSecondDegreeConnections || x == requestedId))
              && r[requesterId] == users[requesterId].(approvedSecondDegreeConnections := r[requesterId].approvedSecondDegreeConnections)
              && users[requesterId].approvedSecondDegreeConnections <= r[requesterId].approvedSecondDegreeConnections
              && (NoDuplicates(users[requesterId].approvedSecondDegreeConnections)
                  ==> NoDuplicates(r[requesterId].approvedSecondDegreeConnections))
  {
    if requesterId in users then
      var u := users[requesterId];
      users[requesterId := u.(approvedSecondDegreeConnections := AddToSet(u.approvedSecondDegreeConnections, requestedId))]
    else users
  }

  /** Once a host's request for a user is approved, no later hangout of that host
   *  asks for approval of that user again. */
  lemma ApprovalPersists(users: map<Id, User>, requesterId: Id, requestedId: Id, participantIds: seq<Id>, hangoutId: Id)
    requires requesterId in users
    ensures var users' := RecordApproval(users, requesterId, requestedId);
      forall d :: d in RequestDrafts(users'[requesterId], users', participantIds, hangoutId) ==> d.requestedId != requestedId
  {
    var users' := RecordApproval(users, requesterId, requestedId);
    var host := users'[requesterId];
    forall d | d in RequestDrafts(host, users', participantIds, hangoutId)
      ensures d.requestedId != requestedId
    {
      assert Classify(host, users', d.requestedId).NeedsApproval?;
    }
  }

  /** The hangout store after the request's hangout is re-examined: it goes from
   *  `pending_approval` to `pending` when no request of it is pending, and is
   *  left alone in every other status, `cancelled` and `confirmed` included. */
  function ReleaseIfResolved(hangouts: map<Id, Hangout>, requests: map<Id, ConnectionRequest>, hangoutId: Id): (r: map<Id, Hangout>)
    ensures r.Keys == hangouts.Keys
    ensures forall k :: k in hangouts && k != hangoutId ==> r[k] == hangouts[k]
    ensures hangoutId in hangouts ==>
              && r[hangoutId] == hangouts[hangoutId].(status := r[hangoutId].status)
              && (r[hangoutId].status != hangouts[hangoutId].status
                  <==> hangouts[hangoutId].status == PendingApproval && !HasPendingRequest(requests, hangoutId))
              && (r[hangoutId].status != hangouts[hangoutId].status ==> r[hangoutId].status == HangoutStatus.Pending)
  {
    if PendingCount(requests, hangoutId) == 0 && hangoutId in hangouts && hangouts[hangoutId].status == PendingApproval then
      hangouts[hangoutId := hangouts[hangoutId].(status := HangoutStatus.Pending)]
    else hangouts
  }

  /** Deciding a pending request keeps the stores consistent. */
  lemma ApprovalKeepsConsistent(users: map<Id, User>, hangouts: map<Id, Hangout>, requests: map<Id, ConnectionRequest>,
                                requestId: Id, decision: RequestStatus)
    requires Consistent(users, hangouts, requests)
    requires requestId in requests && requests[requestId].status == RequestStatus.Pending
    ensures var q := requests[requestId];
      var rs := requests[requestId := q.(status := decision)];
      var us := if decision == Approved then RecordApproval(users, q.requesterId, q.requestedId) else users;
      Consistent(us, ReleaseIfResolved(hangouts, rs, q.hangoutId), rs)
  {
    var q := requests[requestId];
    var rs := requests[requestId := q.(status := decision)];
    var us := if decision == Approved then RecordApproval(users, q.requesterId, q.requestedId) else users;
    var hs := ReleaseIfResolved(hangouts, rs, q.hangoutId);
    forall k | k in us
      ensures us[k].id == k
    {
      assert us[k].id == users[k].id;
    }
    forall k | k in hs
      ensures hs[k].id == k && ResponsesWellFormed(hs[k])
    {
      assert hs[k] == hangouts[k].(status := hs[k].status);
    }
    DecisionKeepsGate(hangouts, requests, requestId, decision);
  }

  /** Deciding a pending request and releasing its hangout keeps the approval
   *  gate accurate. */
  lemma DecisionKeepsGate(hangouts: map<Id, Hangout>, requests: map<Id, ConnectionRequest>, requestId: Id,
                          decision: RequestStatus)
    requires ApprovalGateAccurate(hangouts, requests)
    requires requestId in requests && requests[requestId].status == RequestStatus.Pending
    ensures var q := requests[requestId];
      var rs := requests[requestId := q.(status := decision)];
      ApprovalGateAccurate(ReleaseIfResolved(hangouts, rs, q.hangoutId), rs)
  {
    var q := requests[requestId];
    var rs := requests[requestId := q.(status := decision)];
    var hs := ReleaseIfResolved(hangouts, rs, q.hangoutId);
    forall h | h in hs && hs[h].status == PendingApproval
      ensures HasPendingRequest(rs, h)
    {
      assert hangouts[h].status == PendingApproval;
      var k :| k in requests && requests[k].hangoutId == h && requests[k].status == RequestStatus.Pending;
      if k != requestId {
        assert rs[k] == requests[k];
      }
    }
    forall k | k in rs && rs[k].status == RequestStatus.Pending
      ensures rs[k].hangoutId in hs && hs[rs[k].hangoutId].status in {PendingApproval, Confirmed}
    {
      assert requests[k].status == RequestStatus.Pending;
      assert HasPendingRequest(rs, rs[k].hangoutId);
    }
  }

  /** `handleConnectionApproval`. The guards answer 404, 403 and 400 in that
   *  order; the decision is then saved, an approval is remembered for the
   *  requester, and the hangout is released when it was the last pending
   *  request. The decision is any of the three schema values. */
  method HandleConnectionApproval(db: Db, callerId: Id, requestId: Id, decision: RequestStatus) returns (r: Result<()>)
    requires db.Valid()
    modifies db
    ensures db.Valid()
    ensures requestId !in old(db.requests) ==> r == Err(NotFound)
    ensures requestId in old(db.requests) && old(db.requests)[requestId].approverId != callerId ==> r == Err(Forbidden)
    ensures (requestId in old(db.requests) && old(db.requests)[requestId].approverId == callerId
             && old(db.requests)[requestId].status != RequestStatus.Pending) ==> r == Err(BadRequest)
    ensures r.Err? ==> db.users == old(db.users) && db.hangouts == old(db.hangouts) && db.requests == old(db.requests)
    ensures (requestId in old(db.requests) && old(db.requests)[requestId].approverId == callerId
             && old(db.requests)[requestId].status == RequestStatus.Pending) ==>
              var q := old(db.requests)[requestId];
              && r == Ok(())
              && db.requests == old(db.requests)[requestId := q.(status := decision)]
              && db.users == (if decision == Approved then RecordApproval(old(db.users), q.requesterId, q.requestedId)
                              else old(db.users))
              && db.hangouts == ReleaseIfResolved(old(db.hangouts), db.requests, q.hangoutId)
  {
    if requestId !in db.requests {
      return Err(NotFound);
    }
    var request := db.requests[requestId];
    if request.approverId != callerId {
      return Err(Forbidden);
    }
    if request.status != RequestStatus.Pending {
      return Err(BadRequest);
    }
    var users, hangouts, requests := db.users, db.hangouts, db.requests;

    request := request.(status := decision);
    db.requests := requests[requestId := request];

    if decision == Approved {
      db.users := RecordApproval(users, request.requesterId, request.requestedId);
    }

    var remainingRequests := PendingCount(db.requests, request.hangoutId);
    if remainingRequests == 0 {
      if request.hangoutId in hangouts && hangouts[request.hangoutId].status == PendingApproval {
        var hangout := hangouts[request.hangoutId].(status := HangoutStatus.Pending);
        db.hangouts := hangouts[request.hangoutId := hangout];
      }
    }
    ApprovalKeepsConsistent(users, hangouts, requests, requestId, decision);
    r := Ok(());
  }
}
