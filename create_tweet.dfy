/** POST /tweets: the Authorization header is checked, then the body
    `{type, parentId, content}` is validated, and a valid request is handed to
    the tweet service, whose result is sent with its `code` as the status.

    The route's tests each send a body with one violation only, so they pin
    the answer to every single violation but not which of two violations is
    reported first; the model runs the checks in three stages (presence,
    types, length) in the manner of the signup validator. */
module CreateTweet {
  import opened Common
  import opened Http

  datatype TweetType = TWEET | REPLY | RETWEET

  datatype CreateTweetRequest = CreateTweetRequest(tweetType: Value, parentId: Value, content: Value)

  /** What the route hands to the tweet service: the caller's id and the
      validated body. */
  datatype CreateTweetDto = CreateTweetDto(userId: string, tweetType: TweetType, parentId: Value, content: Value)

  datatype TweetRecord = TweetRecord(
    id: string, userId: string, tweetType: TweetType,
    parentId: Option<string>, content: Option<string>, createdAt: string)

  const MaxContentLength := 280

  function ParseType(v: Value): (t: Option<TweetType>)
    ensures t.Some? ==> Truthy(v)
  {
    match v
    case Str(s) =>
      if s == "TWEET" then Some(TWEET)
      else if s == "REPLY" then Some(REPLY)
      else if s == "RETWEET" then Some(RETWEET)
      else None
    case _ => None
  }

  /** The name a client sends for each tweet type. */
  function TypeName(t: TweetType): (name: string)
    ensures ParseType(Str(name)) == Some(t)
  {
    match t
    case TWEET => "TWEET"
    case REPLY => "REPLY"
    case RETWEET => "RETWEET"
  }

  /** Exactly the three names parse, each to its own type: a value names
      type `t` when it is the string `TypeName(t)` and in no other case. */
  lemma {:induction false} ParseTypeNames(v: Value, t: TweetType)
    ensures ParseType(v) == Some(t) <==> v == Str(TypeName(t))
  {
    if ParseType(v) == Some(t) {
      match t
      case TWEET => assert v == Str("TWEET");
      case REPLY => assert v == Str("REPLY");
      case RETWEET => assert v == Str("RETWEET");
    }
  }

  /** The ways a body can break the rules. */
  datatype Violation =
    | TypeMissing | ParentMissing | ParentForbidden | ContentMissing
    | TypeInvalid | ContentNotString
    | ContentTooLong

  const AllViolations: seq<Violation> :=
    [TypeMissing, ParentMissing, ParentForbidden, ContentMissing, TypeInvalid, ContentNotString, ContentTooLong]

  function MessageOf(v: Violation): string
  {
    match v
    case TypeMissing => "Tweet type is required"
    case ParentMissing => "Parent Tweet ID is required for REPLY or RETWEET"
    case ParentForbidden => "Parent Tweed ID is only valid for RETWEET or REPLY"
    case ContentMissing => "Content is required"
    case TypeInvalid => "Type must be TWEET, REPLY or RETWEET"
    case ContentNotString => "Content must be a string"
    case ContentTooLong => "Content exceeds the maximum allowed length of 280 characters"
  }

  /** The rule each violation breaks: a type is required and must be one of
      the three; a parent is required for REPLY and RETWEET and refused for
      TWEET; content is required except on a RETWEET, must be a string, and
      is at most 280 characters. */
  predicate Holds(v: Violation, req: CreateTweetRequest)
  {
    var t := ParseType(req.tweetType);
    match v
    case TypeMissing => !Truthy(req.tweetType)
    case TypeInvalid => Truthy(req.tweetType) && t.None?
    case ParentMissing => (t == Some(REPLY) || t == Some(RETWEET)) && !IsGiven(req.parentId)
    case ParentForbidden => t == Some(TWEET) && IsGiven(req.parentId)
    case ContentMissing => t != Some(RETWEET) && !Truthy(req.content)
    case ContentNotString => IsGiven(req.content) && !req.content.Str?
    case ContentTooLong => req.content.Str? && |req.content.s| > MaxContentLength
  }

  function Violations(req: CreateTweetRequest): set<Violation>
  {
    set v | v in AllViolations && Holds(v, req)
  }

  /** The shape each violation is reported in: a one-element list, except
      the length limit, which is a single string. */
  function Report(v: Violation): Message
  {
    if v == ContentTooLong then Text(MessageOf(v)) else List([MessageOf(v)])
  }

  function Checks(stage: seq<Violation>, req: CreateTweetRequest): (cs: seq<Check>)
    ensures |cs| == |stage|
    ensures forall i :: 0 <= i < |stage| ==> cs[i] == Check(Holds(stage[i], req), MessageOf(stage[i]))
  {
    if stage == [] then [] else [Check(Holds(stage[0], req), MessageOf(stage[0]))] + Checks(stage[1..], req)
  }

  const PresenceStage: seq<Violation> := [TypeMissing, ParentMissing, ParentForbidden, ContentMissing]
  const TypeStage: seq<Violation> := [TypeInvalid, ContentNotString]

  datatype Gate = Pass | Fail(message: Message)

  /** The validation of the body, stage by stage: a stage with failures
      answers with the list of their messages, and the length stage with a
      single string. */
  function Validate(req: CreateTweetRequest): (g: Gate)
    ensures g.Pass? ==> ParseType(req.tweetType).Some?
  {
    var presence := Collected(Checks(PresenceStage, req));
    var types := Collected(Checks(TypeStage, req));
    if presence != [] then Fail(List(presence))
    else if types != [] then Fail(List(types))
    else if Holds(ContentTooLong, req) then Fail(Text(MessageOf(ContentTooLong)))
    else
      assert !Holds(TypeMissing, req) && !Holds(TypeInvalid, req) by {
        CollectedEmpty(Checks(PresenceStage, req));
        CollectedEmpty(Checks(TypeStage, req));
      }
      Pass
  }

  /** A body passes exactly when it breaks no rule. */
  lemma ValidatePassesIff(req: CreateTweetRequest)
    ensures Validate(req).Pass? <==> Violations(req) == {}
  {
    var p, t := Checks(PresenceStage, req), Checks(TypeStage, req);
    CollectedEmpty(p);
    CollectedEmpty(t);
    if Validate(req).Pass? {
      forall v | v in AllViolations ensures !Holds(v, req) {
        if v in PresenceStage {
          var i :| 0 <= i < |PresenceStage| && PresenceStage[i] == v;
          assert !p[i].fails;
        } else if v in TypeStage {
          var i :| 0 <= i < |TypeStage| && TypeStage[i] == v;
          assert !t[i].fails;
        }
      }
    }
    if Violations(req) == {} {
      forall i | 0 <= i < |p| ensures !p[i].fails {
        assert PresenceStage[i] in AllViolations && PresenceStage[i] !in Violations(req);
      }
      forall i | 0 <= i < |t| ensures !t[i].fails {
        assert TypeStage[i] in AllViolations && TypeStage[i] !in Violations(req);
      }
      assert ContentTooLong in AllViolations && ContentTooLong !in Violations(req);
    }
  }

  /** The checks of a stage that does not hold the one violation all pass. */
  lemma StageClear(stage: seq<Violation>, req: CreateTweetRequest, v: Violation)
    requires Violations(req) == {v} && v !in stage
    requires forall x :: x in stage ==> x in AllViolations
    ensures Collected(Checks(stage, req)) == []
  {
    var cs := Checks(stage, req);
    forall i | 0 <= i < |stage| ensures !cs[i].fails {
      assert stage[i] !in Violations(req);
    }
    CollectedEmpty(cs);
  }

  /** The stage holding the one violation (at index k) reports it alone. */
  lemma StageOnly(stage: seq<Violation>, req: CreateTweetRequest, v: Violation, k: nat)
    requires Violations(req) == {v} && k < |stage| && stage[k] == v
    requires forall i :: 0 <= i < |stage| && i != k ==> stage[i] != v && stage[i] in AllViolations
    ensures Collected(Checks(stage, req)) == [MessageOf(v)]
  {
    var cs := Checks(stage, req);
    forall i | 0 <= i < |stage| && i != k ensures !cs[i].fails {
      assert stage[i] !in Violations(req);
    }
    assert v in Violations(req);
    CollectedSingle(cs, k);
  }

  /** A single violation of the presence stage is reported alone. */
  lemma PresenceViolationReported(req: CreateTweetRequest, v: Violation, k: nat)
    requires Violations(req) == {v} && k < |PresenceStage| && PresenceStage[k] == v
    ensures Validate(req) == Fail(List([MessageOf(v)]))
  {
    StageOnly(PresenceStage, req, v, k);
  }

  /** A single violation of the type stage is reported alone. */
  lemma TypeViolationReported(req: CreateTweetRequest, v: Violation, k: nat)
    requires Violations(req) == {v} && k < |TypeStage| && TypeStage[k] == v
    ensures Validate(req) == Fail(List([MessageOf(v)]))
  {
    StageClear(PresenceStage, req, v);
    StageOnly(TypeStage, req, v, k);
  }

  /** A body that breaks exactly one rule is answered with that rule's
      message, in that rule's shape. */
  lemma SingleViolationReported(req: CreateTweetRequest, v: Violation)
    requires Violations(req) == {v}
    ensures Validate(req) == Fail(Report(v))
  {
    assert v in Violations(req);
    match v
    case TypeMissing => PresenceViolationReported(req, v, 0);
    case ParentMissing => PresenceViolationReported(req, v, 1);
    case ParentForbidden => PresenceViolationReported(req, v, 2);
    case ContentMissing => PresenceViolationReported(req, v, 3);
    case TypeInvalid => TypeViolationReported(req, v, 0);
    case ContentNotString => TypeViolationReported(req, v, 1);
    case ContentTooLong =>
      StageClear(PresenceStage, req, v);
      StageClear(TypeStage, req, v);
  }

  /** A body whose only broken rule is `v` has `{v}` as its violations. */
  lemma OnlyViolation(req: CreateTweetRequest, v: Violation)
    requires Holds(v, req)
    requires forall x :: x in AllViolations && x != v ==> !Holds(x, req)
    ensures Violations(req) == {v}
  {
    assert v in AllViolations;
  }

  /** The reported messages are those of rules the body breaks. */
  lemma ValidateReportsViolations(req: CreateTweetRequest, m: string)
    ensures Validate(req) == Fail(Text(m)) ==> m == MessageOf(ContentTooLong) && ContentTooLong in Violations(req)
    ensures Validate(req).Fail? && Validate(req).message.List? && m in Validate(req).message.items ==>
              exists v :: v in Violations(req) && MessageOf(v) == m
  {
    var p, t := Checks(PresenceStage, req), Checks(TypeStage, req);
    CollectedMembers(p, m);
    CollectedMembers(t, m);
    if Validate(req).Fail? && Validate(req).message.List? && m in Validate(req).message.items {
      if Collected(p) != [] {
        var i :| 0 <= i < |p| && p[i].fails && p[i].message == m;
        assert PresenceStage[i] in Violations(req);
      } else {
        var i :| 0 <= i < |t| && t[i].fails && t[i].message == m;
        assert TypeStage[i] in Violations(req);
      }
    }
    assert ContentTooLong in AllViolations;
  }

  /** The length limit is inclusive: non-empty content of at most 280
      characters on a TWEET passes, and longer content is refused with a
      single string rather than a list. */
  lemma ContentLengthLimit(s: string)
    requires s != ""
    ensures |s| <= MaxContentLength ==> Validate(CreateTweetRequest(Str("TWEET"), Null, Str(s))) == Pass
    ensures |s| > MaxContentLength ==>
              Validate(CreateTweetRequest(Str("TWEET"), Null, Str(s))) ==
              Fail(Text("Content exceeds the maximum allowed length of 280 characters"))
  {
    var req := CreateTweetRequest(Str("TWEET"), Null, Str(s));
    if |s| <= MaxContentLength {
      assert Violations(req) == {};
      ValidatePassesIff(req);
    } else {
      assert Violations(req) == {ContentTooLong};
      SingleViolationReported(req, ContentTooLong);
    }
  }

  /** A TWEET that names any parent, UUID-shaped or not, is refused. */
  lemma TweetWithParentRefused(parent: Value, text: string)
    requires IsGiven(parent) && text != "" && |text| <= MaxContentLength
    ensures Validate(CreateTweetRequest(Str("TWEET"), parent, Str(text))) ==
            Fail(List(["Parent Tweed ID is only valid for RETWEET or REPLY"]))
  {
    var req := CreateTweetRequest(Str("TWEET"), parent, Str(text));
    assert Violations(req) == {ParentForbidden};
    SingleViolationReported(req, ParentForbidden);
  }

  /** The other bodies the route's tests send, each with one violation; each
      lemma below is about the one body its test sends. */
  lemma TypeNullRefused()
    ensures Validate(CreateTweetRequest(Null, Null, Str("Texto"))) == Fail(List(["Tweet type is required"]))
  {
    var req := CreateTweetRequest(Null, Null, Str("Texto"));
    assert Violations(req) == {TypeMissing};
    SingleViolationReported(req, TypeMissing);
  }

  lemma ReplyWithoutParentRefused()
    ensures Validate(CreateTweetRequest(Str("REPLY"), Null, Str("Texto"))) ==
            Fail(List(["Parent Tweet ID is required for REPLY or RETWEET"]))
  {
    var req := CreateTweetRequest(Str("REPLY"), Null, Str("Texto"));
    assert Violations(req) == {ParentMissing};
    SingleViolationReported(req, ParentMissing);
  }

  lemma EmptyContentRefused()
    ensures Validate(CreateTweetRequest(Str("TWEET"), Null, Str(""))) == Fail(List(["Content is required"]))
  {
    var req := CreateTweetRequest(Str("TWEET"), Null, Str(""));
    assert Violations(req) == {ContentMissing};
    SingleViolationReported(req, ContentMissing);
  }

  lemma UnknownTypeRefused()
    ensures Validate(CreateTweetRequest(Str("Tipo"), Null, Str("Texto"))) ==
            Fail(List(["Type must be TWEET, REPLY or RETWEET"]))
  {
    var req := CreateTweetRequest(Str("Tipo"), Null, Str("Texto"));
    assert ParseType(req.tweetType) == None;
    OnlyViolation(req, TypeInvalid);
    SingleViolationReported(req, TypeInvalid);
  }

  lemma NumericContentRefused()
    ensures Validate(CreateTweetRequest(Str("TWEET"), Null, Num(1234))) == Fail(List(["Content must be a string"]))
  {
    var req := CreateTweetRequest(Str("TWEET"), Null, Num(1234));
    assert Violations(req) == {ContentNotString};
    SingleViolationReported(req, ContentNotString);
  }

  // ---------------------------------------------------------------------
  // The route
  // ---------------------------------------------------------------------

  /** POST /tweets. `create` is the tweet service. */
  function CreateTweetRoute(
    header: Option<string>, sessions: map<string, string>, req: CreateTweetRequest,
    create: CreateTweetDto -> ServiceCall<TweetRecord>): (r: HttpResponse<TweetRecord>)
    ensures Authorize(header, sessions).Unauthorized? ==> r == Reject(Authorize(header, sessions).message)
    ensures Authorize(header, sessions).Authenticated? && Validate(req).Fail? ==>
              r == BadRequest(Validate(req).message)
  {
    match Authorize(header, sessions)
    case Unauthorized(m) => Reject(m)
    case Authenticated(user) =>
      match Validate(req)
      case Fail(m) => BadRequest(m)
      case Pass =>
        Answer(create(CreateTweetDto(user, ParseType(req.tweetType).value, req.parentId, req.content)))
  }

  /** An authenticated, valid request reaches the service with the caller's
      id and the body's fields; what the service returns is sent with its
      `code` as the status, and an error it throws becomes a 500. */
  lemma ValidRequestReachesService(
    header: Option<string>, sessions: map<string, string>, req: CreateTweetRequest,
    create: CreateTweetDto -> ServiceCall<TweetRecord>, user: string)
    requires Authorize(header, sessions) == Authenticated(user)
    requires Violations(req) == {}
    ensures ParseType(req.tweetType).Some?
    ensures var call := create(CreateTweetDto(user, ParseType(req.tweetType).value, req.parentId, req.content));
            (call.Returned? ==> Merge(CreateTweetRoute(header, sessions, req, create)) == call.result) &&
            (call.Threw? ==> CreateTweetRoute(header, sessions, req, create) ==
                             HttpResponse(500, Body(false, Text("An unexpected error occurred: " + call.message), None)))
  {
    ValidatePassesIff(req);
  }
}
