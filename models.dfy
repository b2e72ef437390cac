/** The persisted records (backend/src/types.ts and the Mongoose models), the
 *  three stores as maps from id to record inside one class, and the
 *  consistency invariant every handler keeps. */
module Models {
  import opened Seqs

  /** A user, hangout or request identifier (a MongoDB ObjectId string). */
  type Id = string

  datatype Option<T> = None | Some(value: T)

  /** The error replies of the handlers: HTTP 404, 403 and 400. */
  datatype HttpError = NotFound | Forbidden | BadRequest

  datatype Result<T> = Ok(value: T) | Err(error: HttpError)

  /** The four hangout states of backend/src/models/Hangout.ts. */
  datatype HangoutStatus = PendingApproval | Pending | Confirmed | Cancelled

  /** The three request states of backend/src/models/ConnectionRequest.ts. */
  datatype RequestStatus = Pending | Approved | Rejected

  /** A user record; the password hash is not part of this model. */
  datatype User = User(
    id: Id,
    name: string,
    bio: string,
    profileImageUrl: string,
    phoneNumber: string,
    firstDegreeFriendIds: seq<Id>,
    approvedSecondDegreeConnections: seq<Id>)

  /** The `id name profileImageUrl` projection used to rehydrate hangouts. */
  datatype UserSummary = UserSummary(id: Id, name: string, profileImageUrl: string)

  /** A hangout record; `participants` holds the invited user ids, host excluded.
   *  Creation timestamps are not part of this model. */
  datatype Hangout = Hangout(
    id: Id,
    hostId: Id,
    participants: seq<Id>,
    acceptedBy: seq<Id>,
    rejectedBy: seq<Id>,
    activityDescription: string,
    details: Option<string>,
    status: HangoutStatus)

  datatype ConnectionRequest = ConnectionRequest(
    id: Id,
    requesterId: Id,
    requestedId: Id,
    approverId: Id,
    status: RequestStatus,
    hangoutId: Id)

  /** `users.find(u => u.id === id)` over a client-side user list: the first
   *  user with that id. */
  function FindUser(users: seq<User>, id: Id): (r: Option<User>)
    ensures r.Some? ==> r.value in users && r.value.id == id
    ensures r.Some? ==> exists i :: 0 <= i < |users| && users[i] == r.value && FirstWithId(users, id, i)
    ensures r.None? <==> forall u :: u in users ==> u.id != id
  {
    if users == [] then None
    else if users[0].id == id then
      assert FirstWithId(users, id, 0);
      Some(users[0])
    else
      var r := FindUser(users[1..], id);
      if r.Some? then
        FirstWithIdShifts(users, id, r.value);
        r
      else r
  }

  lemma FirstWithIdShifts(users: seq<User>, id: Id, u: User)
    requires users != [] && users[0].id != id
    requires exists i :: 0 <= i < |users[1..]| && users[1..][i] == u && FirstWithId(users[1..], id, i)
    ensures exists i :: 0 <= i < |users| && users[i] == u && FirstWithId(users, id, i)
  {
    var i :| 0 <= i < |users[1..]| && users[1..][i] == u && FirstWithId(users[1..], id, i);
    assert FirstWithId(users, id, i + 1);
  }

  /** No user before index `i` has the id `id`. */
  ghost predicate FirstWithId(users: seq<User>, id: Id, i: nat) {
    i <= |users| && forall j :: 0 <= j < i ==> users[j].id != id
  }

  /** Some request of hangout `hangoutId` is still pending. */
  ghost predicate HasPendingRequest(requests: map<Id, ConnectionRequest>, hangoutId: Id) {
    exists k :: k in requests && requests[k].hangoutId == hangoutId && requests[k].status == RequestStatus.Pending
  }

  /** A user appears at most once in `acceptedBy`, at most once in `rejectedBy`,
   *  and never in both. */
  ghost predicate ResponsesWellFormed(h: Hangout) {
    && NoDuplicates(h.acceptedBy)
    && NoDuplicates(h.rejectedBy)
    && (forall u :: u in h.acceptedBy ==> u !in h.rejectedBy)
  }

  /** A hangout awaits approval only while one of its requests is pending. */
  ghost predicate AwaitingHavePending(hangouts: map<Id, Hangout>, requests: map<Id, ConnectionRequest>) {
    forall h :: h in hangouts && hangouts[h].status == PendingApproval ==> HasPendingRequest(requests, h)
  }

  /** A pending request belongs to a stored hangout that is awaiting approval,
   *  or that was confirmed by acceptances before the request was resolved. */
  ghost predicate PendingBelongToAwaiting(hangouts: map<Id, Hangout>, requests: map<Id, ConnectionRequest>) {
    forall k :: k in requests && requests[k].status == RequestStatus.Pending ==>
      requests[k].hangoutId in hangouts &&
      hangouts[requests[k].hangoutId].status in {PendingApproval, Confirmed}
  }

  /** The approval gate is accurate, in both directions. */
  ghost predicate ApprovalGateAccurate(hangouts: map<Id, Hangout>, requests: map<Id, ConnectionRequest>)
  {
    AwaitingHavePending(hangouts, requests) && PendingBelongToAwaiting(hangouts, requests)
  }

  ghost predicate UsersKeyed(users: map<Id, User>) {
    forall k :: k in users ==> users[k].id == k
  }

  ghost predicate HangoutsKeyed(hangouts: map<Id, Hangout>) {
    forall k :: k in hangouts ==> hangouts[k].id == k && ResponsesWellFormed(hangouts[k])
  }

  ghost predicate RequestsKeyed(hangouts: map<Id, Hangout>, requests: map<Id, ConnectionRequest>) {
    forall k :: k in requests ==> requests[k].id == k && requests[k].hangoutId in hangouts
  }

  /** The invariant of the three stores: every record sits under its own id,
   *  response lists are well formed, every request names a stored hangout, and
   *  the approval gate is accurate. */
  ghost predicate Consistent(users: map<Id, User>, hangouts: map<Id, Hangout>, requests: map<Id, ConnectionRequest>)
  {
    && UsersKeyed(users)
    && HangoutsKeyed(hangouts)
    && RequestsKeyed(hangouts, requests)
    && ApprovalGateAccurate(hangouts, requests)
  }

  /** The three MongoDB collections. */
  class Db {
    var users: map<Id, User>
    var hangouts: map<Id, Hangout>
    var requests: map<Id, ConnectionRequest>

    ghost predicate Valid()
      reads this
    {
      Consistent(users, hangouts, requests)
    }

    constructor (users: map<Id, User>)
      requires forall k :: k in users ==> users[k].id == k
      ensures Valid()
      ensures this.users == users && hangouts == map[] && requests == map[]
    {
      this.users := users;
      hangouts := map[];
      requests := map[];
    }
  }
}
