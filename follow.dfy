/** The follow/unfollow toggle of the user service over a store of users and
    directed follow edges: look up the follower, look up the followed user,
    refuse a self-follow, then create the edge when it is absent or delete it
    when it is present. */
module Follow {
  import opened Common

  type UserId = string

  /** A follow edge, keyed by the ordered pair it connects. */
  datatype Edge = Edge(followerId: UserId, followedId: UserId)

  /** The follower row the store returns on creation. */
  datatype FollowRecord = FollowRecord(id: string, followerId: UserId, followedId: UserId, createdAt: int)

  /** The service's argument: `id` is the user to follow, `userId` the
      follower. */
  datatype FollowBody = FollowBody(id: UserId, userId: UserId)

  datatype FollowResult = FollowResult(ok: bool, code: int, message: string, data: Option<FollowRecord>)

  const NotFound := FollowResult(false, 404, "User not found", None)
  const SameIds := FollowResult(false, 409, "Follower ID and Followed ID can't be the same", None)
  const Removed := FollowResult(true, 200, "Follow removed successfully", None)

  function InternalError(message: string): (r: FollowResult)
    ensures !r.ok && r.code == 500 && r.data.None?
  {
    FollowResult(false, 500, "Internal server error: " + message, None)
  }

  function Followed(record: FollowRecord): (r: FollowResult)
    ensures r.ok && r.code == 201 && r.data == Some(record)
  {
    FollowResult(true, 201, "User followed successfully", Some(record))
  }

  /** The edge set after one toggle of `e`. */
  function Toggle(edges: set<Edge>, e: Edge): (r: set<Edge>)
    ensures e in r <==> e !in edges
    ensures forall x :: x != e ==> (x in r <==> x in edges)
  {
    if e in edges then edges - {e} else edges + {e}
  }

  /** Toggling the same edge twice restores the edge set. */
  lemma ToggleTwice(edges: set<Edge>, e: Edge)
    ensures Toggle(Toggle(edges, e), e) == edges
  {
  }

  /** A toggle changes exactly one pair: the symmetric difference with the
      old edge set is `{e}`. */
  lemma ToggleChangesOnePair(edges: set<Edge>, e: Edge)
    ensures (Toggle(edges, e) - edges) + (edges - Toggle(edges, e)) == {e}
  {
  }

  /** Nobody follows themselves, and every edge joins two users of the store. */
  ghost predicate WellFormed(users: set<UserId>, edges: set<Edge>)
  {
    forall e :: e in edges ==> e.followerId != e.followedId && e.followerId in users && e.followedId in users
  }

  /** A toggle between two distinct users of the store keeps the edge set
      well formed. */
  lemma ToggleKeepsWellFormed(users: set<UserId>, edges: set<Edge>, e: Edge)
    requires WellFormed(users, edges)
    requires e.followerId != e.followedId && e.followerId in users && e.followedId in users
    ensures WellFormed(users, Toggle(edges, e))
  {
  }

  class UserService {
    var users: set<UserId>
    var follows: set<Edge>

    ghost predicate Valid()
      reads this
    {
      WellFormed(users, follows)
    }

    /** A store seeded with users and well-formed follow edges. */
    constructor (users: set<UserId>, follows: set<Edge>)
      requires WellFormed(users, follows)
      ensures Valid()
      ensures this.users == users && this.follows == follows
    {
      this.users := users;
      this.follows := follows;
    }

    /** follow: the outcomes in the order the service checks them. `fault`
        is the message of the error the store throws on its first access, if
        it throws; `recordId` and `createdAt` are the id and the timestamp
        the store gives a created row. */
    method Follow(body: FollowBody, fault: Option<string>, recordId: string, createdAt: int)
      returns (r: FollowResult)
      requires Valid()
      modifies this`follows
      ensures Valid()
      ensures fault.Some? ==> r == InternalError(fault.value) && follows == old(follows)
      ensures fault.None? && (body.userId !in users || body.id !in users) ==>
                r == NotFound && follows == old(follows)
      ensures fault.None? && body.userId in users && body.id in users && body.userId == body.id ==>
                r == SameIds && follows == old(follows)
      ensures fault.None? && body.userId in users && body.id in users && body.userId != body.id ==>
                var e := Edge(body.userId, body.id);
                follows == Toggle(old(follows), e) &&
                r == if e in old(follows) then Removed
                     else Followed(FollowRecord(recordId, body.userId, body.id, createdAt))
    {
      if fault.Some? {
        return InternalError(fault.value);
      }
      var followerFound := body.userId in users;
      if !followerFound {
        return NotFound;
      }
      var followedFound := body.id in users;
      if !followedFound {
        return NotFound;
      }
      if body.userId == body.id {
        return SameIds;
      }
      var e := Edge(body.userId, body.id);
      ToggleKeepsWellFormed(users, follows, e);
      if e in follows {
        follows := follows - {e};
        r := Removed;
      } else {
        follows := follows + {e};
        r := Followed(FollowRecord(recordId, body.userId, body.id, createdAt));
      }
    }
  }

  /** Two successive successful calls with the same body restore the edge
      set; the first answers 201 exactly when the edge was absent, and the
      second answers the other code. */
  method FollowTwice(service: UserService, body: FollowBody, recordId: string, createdAt: int)
    returns (first: FollowResult, second: FollowResult)
    requires service.Valid()
    modifies service
    ensures service.Valid() && service.users == old(service.users)
    ensures first.ok ==> second.ok && service.follows == old(service.follows)
    ensures first.ok ==> {first.code, second.code} == {200, 201}
    ensures first.ok ==> (first.code == 201 <==> Edge(body.userId, body.id) !in old(service.follows))
  {
    first := service.Follow(body, None, recordId, createdAt);
    second := service.Follow(body, None, recordId, createdAt);
    if first.ok {
      ToggleTwice(old(service.follows), Edge(body.userId, body.id));
    }
  }

  /** The scenario of the service's tests on a store with users U1 and U2:
      U1 follows U2 (201 with the row), the same call again unfollows (200,
      no data), a self-follow is refused (409), an unknown user is not found
      (404), and a failing store gives 500 with its message. */
  method FollowScenario()
    returns (first: FollowResult, second: FollowResult, self: FollowResult,
             missing: FollowResult, failed: FollowResult)
    ensures first == FollowResult(true, 201, "User followed successfully",
                                  Some(FollowRecord("F1", "U1", "U2", 0)))
    ensures second == FollowResult(true, 200, "Follow removed successfully", None)
    ensures self == FollowResult(false, 409, "Follower ID and Followed ID can't be the same", None)
    ensures missing == FollowResult(false, 404, "User not found", None)
    ensures failed == FollowResult(false, 500, "Internal server error: Exception", None)
  {
    var service := new UserService({"U1", "U2"}, {});
    first := service.Follow(FollowBody("U2", "U1"), None, "F1", 0);
    assert service.follows == {Edge("U1", "U2")};
    second := service.Follow(FollowBody("U2", "U1"), None, "F2", 1);
    self := service.Follow(FollowBody("U1", "U1"), None, "F3", 2);
    missing := service.Follow(FollowBody("U3", "U1"), None, "F4", 3);
    failed := service.Follow(FollowBody("U2", "U1"), Some("Exception"), "F5", 4);
  }
}
