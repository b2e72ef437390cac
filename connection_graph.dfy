/** components/Connections/ConnectionGraph.tsx: the friends shown around the
 *  centre node, the drill-down from the user to one of their friends and back,
 *  and how each shown person is labelled. Orbit geometry is not modelled. */
module ConnectionGraph {
  import opened Seqs
  import opened Models

  /** `users.map(u => u.id)`. */
  function IdsOf(users: seq<User>): (r: seq<Id>)
    ensures |r| == |users|
    ensures forall k :: 0 <= k < |users| ==> r[k] == users[k].id
  {
    seq(|users|, k requires 0 <= k < |users| => users[k].id)
  }

  /** The id names a user of `allUsers`. */
  predicate IsKnown(allUsers: seq<User>, id: Id) {
    FindUser(allUsers, id).Some?
  }

  /** `ids.map(id => allUsers.find(u => u.id === id)).filter(u => !!u)`. */
  function ResolveIds(ids: seq<Id>, allUsers: seq<User>): (r: seq<User>)
    ensures IdsOf(r) == Filter(ids, (id: Id) => IsKnown(allUsers, id))
    ensures forall u :: u in r ==> u in allUsers
  {
    if ids == [] then []
    else
      var rest := ResolveIds(ids[1..], allUsers);
      var found := FindUser(allUsers, ids[0]);
      assert Filter(ids, (id: Id) => IsKnown(allUsers, id))
          == (if found.Some? then [ids[0]] else []) + Filter(ids[1..], (id: Id) => IsKnown(allUsers, id));
      if found.Some? then
        IdsOfCons(found.value, rest);
        [found.value] + rest
      else rest
  }

  lemma IdsOfCons(u: User, rest: seq<User>)
    ensures IdsOf([u] + rest) == [u.id] + IdsOf(rest)
  {
    assert |IdsOf([u] + rest)| == |[u.id] + IdsOf(rest)|;
    forall k | 0 <= k < |rest| + 1
      ensures IdsOf([u] + rest)[k] == ([u.id] + IdsOf(rest))[k]
    {
      if k > 0 {
        assert ([u] + rest)[k] == rest[k - 1];
      }
    }
  }

  /** `connections`: the known friends of the centre node, in its friend-list
   *  order, leaving out the current user unless the centre is the current user. */
  function Connections(allUsers: seq<User>, currentUser: User, centerId: Id): (r: seq<User>)
    ensures FindUser(allUsers, centerId).None? ==> r == []
    ensures forall u :: u in r ==> u in allUsers
    ensures FindUser(allUsers, centerId).Some? ==>
              var center := FindUser(allUsers, centerId).value;
              && IsSubsequence(IdsOf(r), center.firstDegreeFriendIds)
              && (centerId != currentUser.id ==> currentUser.id !in IdsOf(r))
              && (forall id :: (id in center.firstDegreeFriendIds && IsKnown(allUsers, id)
                                && (centerId == currentUser.id || id != currentUser.id)) ==> id in IdsOf(r))
  {
    match FindUser(allUsers, centerId)
    case None => []
    case Some(center) =>
      var isTopLevelView := centerId == currentUser.id;
      var connectionIds :=
        if isTopLevelView then center.firstDegreeFriendIds
        else Filter(center.firstDegreeFriendIds, (id: Id) => id != currentUser.id);
      var r := ResolveIds(connectionIds, allUsers);
      if isTopLevelView then r
      else
        SubsequenceTransitive(IdsOf(r), connectionIds, center.firstDegreeFriendIds);
        r
  }

  /** The graph only ever centres on the current user or one of their friends. */
  predicate ValidCenter(currentUser: User, centerId: Id) {
    centerId == currentUser.id || centerId in currentUser.firstDegreeFriendIds
  }

  /** `handleNodeClick`: from the top-level view, clicking a first-degree friend
   *  centres the graph on them; every other click leaves the centre alone. */
  function HandleNodeClick(currentUser: User, centerId: Id, clickedId: Id): (c: Id)
    ensures c != centerId ==> centerId == currentUser.id && clickedId in currentUser.firstDegreeFriendIds && c == clickedId
    ensures centerId == currentUser.id && clickedId in currentUser.firstDegreeFriendIds ==> c == clickedId
    ensures ValidCenter(currentUser, centerId) ==> ValidCenter(currentUser, c)
  {
    if centerId == currentUser.id && clickedId in currentUser.firstDegreeFriendIds then clickedId else centerId
  }

  /** `resetView`: back to the top-level view. */
  function ResetView(currentUser: User): (c: Id)
    ensures c == currentUser.id
    ensures ValidCenter(currentUser, c)
    ensures HandleNodeClick(currentUser, c, currentUser.id) == c
  {
    currentUser.id
  }

  /** The centre is always one hop from the user: drilling down twice is impossible. */
  lemma {:induction false} ClicksStayWithinOneHop(currentUser: User, clicks: seq<Id>)
    ensures ValidCenter(currentUser, Replay(currentUser, currentUser.id, clicks))
    ensures Replay(currentUser, currentUser.id, clicks) != currentUser.id ==>
              Replay(currentUser, currentUser.id, clicks) in clicks
  {
    ReplayKeepsCenter(currentUser, currentUser.id, clicks);
  }

  /** The centre after a series of node clicks. */
  function Replay(currentUser: User, centerId: Id, clicks: seq<Id>): Id
    decreases |clicks|
  {
    if clicks == [] then centerId
    else Replay(currentUser, HandleNodeClick(currentUser, centerId, clicks[0]), clicks[1..])
  }

  lemma {:induction false} ReplayKeepsCenter(currentUser: User, centerId: Id, clicks: seq<Id>)
    requires ValidCenter(currentUser, centerId)
    ensures ValidCenter(currentUser, Replay(currentUser, centerId, clicks))
    ensures Replay(currentUser, centerId, clicks) == centerId || Replay(currentUser, centerId, clicks) in clicks
    decreases |clicks|
  {
    if clicks != [] {
      var next := HandleNodeClick(currentUser, centerId, clicks[0]);
      ReplayKeepsCenter(currentUser, next, clicks[1..]);
      assert forall x :: x in clicks[1..] ==> x in clicks;
    }
  }

  datatype NodeType = FirstDegreeNode | SecondDegreeNode

  /** `nodeType` of an orbiting node, relative to the current user. */
  function NodeTypeOf(currentUser: User, conn: User): (t: NodeType)
    ensures t == FirstDegreeNode <==> conn.id in currentUser.firstDegreeFriendIds
  {
    if conn.id in currentUser.firstDegreeFriendIds then FirstDegreeNode else SecondDegreeNode
  }

  datatype SecondDegreeStatus = Approved | NeedsRequest

  /** `secondDegreeStatus`: defined for second-degree nodes only. */
  function SecondDegreeStatusOf(currentUser: User, conn: User): (s: Option<SecondDegreeStatus>)
    ensures s.Some? <==> conn.id !in currentUser.firstDegreeFriendIds
    ensures s == Some(SecondDegreeStatus.Approved) <==>
              conn.id !in currentUser.firstDegreeFriendIds && conn.id in currentUser.approvedSecondDegreeConnections
  {
    if NodeTypeOf(currentUser, conn) == SecondDegreeNode then
      Some(if conn.id in currentUser.approvedSecondDegreeConnections then SecondDegreeStatus.Approved else NeedsRequest)
    else None
  }
}
