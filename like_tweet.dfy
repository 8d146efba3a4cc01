/** POST /tweets/like/{id}: the Authorization header is checked, the path id
    must be a UUID, and the like service then toggles the caller's like of
    the tweet; its result is sent with its `code` as the status. */
module LikeTweet {
  import opened Common
  import opened Http

  /** The like row the store returns on creation. */
  datatype LikeRecord = LikeRecord(id: string, userId: string, tweetId: string, createdAt: string)

  /** A like edge, keyed by the pair it connects. */
  datatype Like = Like(userId: string, tweetId: string)

  const NotUuid := "Identifier must be a UUID"
  const Liked := "Tweet liked successfully"
  const Unliked := "Like removed successfully"

  predicate IsHexDigit(c: char)
  {
    ('0' <= c <= '9') || ('a' <= c <= 'f') || ('A' <= c <= 'F')
  }

  predicate IsDashIndex(i: int)
  {
    i == 8 || i == 13 || i == 18 || i == 23
  }

  /** The textual form of a UUID (section 3 of RFC 4122): 36 characters,
      hyphens at indices 8, 13, 18 and 23, hexadecimal digits in either case
      elsewhere. */
  predicate IsUuid(s: string)
  {
    |s| == 36 && forall i :: 0 <= i < 36 ==> if IsDashIndex(i) then s[i] == '-' else IsHexDigit(s[i])
  }

  predicate AllHex(t: string)
  {
    forall i :: 0 <= i < |t| ==> IsHexDigit(t[i])
  }

  /** The same form as the RFC's grammar writes it: groups of 8, 4, 4, 4 and
      12 hexadecimal digits joined by hyphens. */
  lemma UuidGroups(s: string)
    ensures IsUuid(s) <==>
            exists g1, g2, g3, g4, g5 ::
              |g1| == 8 && |g2| == 4 && |g3| == 4 && |g4| == 4 && |g5| == 12 &&
              AllHex(g1) && AllHex(g2) && AllHex(g3) && AllHex(g4) && AllHex(g5) &&
              s == g1 + "-" + g2 + "-" + g3 + "-" + g4 + "-" + g5
  {
    if IsUuid(s) {
      var g1, g2, g3, g4, g5 := s[..8], s[9..13], s[14..18], s[19..23], s[24..];
      assert s == g1 + "-" + g2 + "-" + g3 + "-" + g4 + "-" + g5;
      assert AllHex(g1) by { forall i | 0 <= i < 8 ensures IsHexDigit(g1[i]) { assert g1[i] == s[i]; } }
      assert AllHex(g2) by { forall i | 0 <= i < 4 ensures IsHexDigit(g2[i]) { assert g2[i] == s[9 + i]; } }
      assert AllHex(g3) by { forall i | 0 <= i < 4 ensures IsHexDigit(g3[i]) { assert g3[i] == s[14 + i]; } }
      assert AllHex(g4) by { forall i | 0 <= i < 4 ensures IsHexDigit(g4[i]) { assert g4[i] == s[19 + i]; } }
      assert AllHex(g5) by { forall i | 0 <= i < 12 ensures IsHexDigit(g5[i]) { assert g5[i] == s[24 + i]; } }
    }
    if exists g1, g2, g3, g4, g5 ::
         |g1| == 8 && |g2| == 4 && |g3| == 4 && |g4| == 4 && |g5| == 12 &&
         AllHex(g1) && AllHex(g2) && AllHex(g3) && AllHex(g4) && AllHex(g5) &&
         s == g1 + "-" + g2 + "-" + g3 + "-" + g4 + "-" + g5
    {
      var g1, g2, g3, g4, g5 :|
         |g1| == 8 && |g2| == 4 && |g3| == 4 && |g4| == 4 && |g5| == 12 &&
         AllHex(g1) && AllHex(g2) && AllHex(g3) && AllHex(g4) && AllHex(g5) &&
         s == g1 + "-" + g2 + "-" + g3 + "-" + g4 + "-" + g5;
      forall i | 0 <= i < 36 ensures if IsDashIndex(i) then s[i] == '-' else IsHexDigit(s[i]) {
        if i < 8 { assert s[i] == g1[i]; }
        else if 8 < i < 13 { assert s[i] == g2[i - 9]; }
        else if 13 < i < 18 { assert s[i] == g3[i - 14]; }
        else if 18 < i < 23 { assert s[i] == g4[i - 19]; }
        else if 23 < i { assert s[i] == g5[i - 24]; }
      }
    }
  }

  /** The path ids of the route's tests: "invalid-uuid" is refused and a
      canonical UUID is accepted. */
  lemma TestIdentifiers()
    ensures !IsUuid("invalid-uuid")
    ensures IsUuid("3f1c0a4e-8d5b-4e2b-a4d1-2f3f9b6c8a7e")
  {
    var s := "3f1c0a4e-8d5b-4e2b-a4d1-2f3f9b6c8a7e";
    forall i | 0 <= i < 36 ensures if IsDashIndex(i) then s[i] == '-' else IsHexDigit(s[i]) {
    }
  }

  /** The like toggle: creates the like when it is absent (201 with the
      created row) and deletes it when it is present (200 without data). */
  function LikeService(likes: set<Like>, userId: string, tweetId: string, recordId: string, createdAt: string)
    : (r: (Envelope<LikeRecord>, set<Like>))
    ensures var l := Like(userId, tweetId);
            (l !in likes ==> r.0 == Envelope(true, 201, Text(Liked), Some(LikeRecord(recordId, userId, tweetId, createdAt)))
                             && r.1 == likes + {l}) &&
            (l in likes ==> r.0 == Envelope(true, 200, Text(Unliked), None) && r.1 == likes - {l})
  {
    var l := Like(userId, tweetId);
    if l in likes then (Envelope(true, 200, Text(Unliked), None), likes - {l})
    else (Envelope(true, 201, Text(Liked), Some(LikeRecord(recordId, userId, tweetId, createdAt))), likes + {l})
  }

  /** Liking twice restores the like set; the first call answers 201
      exactly when the like was absent. */
  lemma LikeTwice(likes: set<Like>, userId: string, tweetId: string, recordId: string, createdAt: string)
    ensures var once := LikeService(likes, userId, tweetId, recordId, createdAt);
            var twice := LikeService(once.1, userId, tweetId, recordId, createdAt);
            twice.1 == likes && {once.0.code, twice.0.code} == {200, 201} &&
            (once.0.code == 201 <==> Like(userId, tweetId) !in likes)
  {
  }

  /** POST /tweets/like/{id}. `like` is the like service, called with the
      caller's id and the path id. */
  function LikeRoute(
    header: Option<string>, sessions: map<string, string>, pathId: string,
    like: (string, string) -> ServiceCall<LikeRecord>): (r: HttpResponse<LikeRecord>)
    ensures Authorize(header, sessions).Unauthorized? ==> r == Reject(Authorize(header, sessions).message)
    ensures Authorize(header, sessions).Authenticated? && !IsUuid(pathId) ==> r == BadRequest(Text(NotUuid))
    ensures Authorize(header, sessions).Authenticated? && IsUuid(pathId) ==>
              r == Answer(like(Authorize(header, sessions).userId, pathId))
  {
    match Authorize(header, sessions)
    case Unauthorized(m) => Reject(m)
    case Authenticated(user) =>
      if !IsUuid(pathId) then BadRequest(Text(NotUuid))
      else Answer(like(user, pathId))
  }

  /** With the toggle as the service, an authenticated request on a UUID
      answers 201 with the like of the path's tweet, or 200 with no data,
      and in both cases the body is the service's result without `code`. */
  lemma LikeRouteAnswers(
    header: Option<string>, sessions: map<string, string>, pathId: string,
    likes: set<Like>, recordId: string, createdAt: string, user: string)
    requires Authorize(header, sessions) == Authenticated(user) && IsUuid(pathId)
    ensures var r := LikeRoute(header, sessions, pathId,
                               (u, t) => Returned(LikeService(likes, u, t, recordId, createdAt).0));
            && Merge(r) == LikeService(likes, user, pathId, recordId, createdAt).0
            && (r.status == 201 <==> Like(user, pathId) !in likes)
            && (r.status == 201 ==> r.body.data.Some? && r.body.data.value.tweetId == pathId
                                    && r.body.data.value.userId == user)
            && (r.status != 201 ==> r.status == 200 && r.body == Body(true, Text(Unliked), None))
  {
  }

  /** An error thrown by the service is answered with 500 and its message
      after a fixed prefix. */
  lemma LikeRouteThrows(
    header: Option<string>, sessions: map<string, string>, pathId: string,
    like: (string, string) -> ServiceCall<LikeRecord>, user: string, message: string)
    requires Authorize(header, sessions) == Authenticated(user) && IsUuid(pathId)
    requires like(user, pathId) == Threw(message)
    ensures LikeRoute(header, sessions, pathId, like) ==
            HttpResponse(500, Body(false, Text("An unexpected error occurred: " + message), None))
  {
  }
}
