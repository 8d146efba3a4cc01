# GrowTwitter back end: request rules and the follow toggle

This project is a Dafny model of three pieces of logic in the GrowTwitter back end, an Express and Prisma service for tweets, follows and likes:

- **The signup validator** (`SignupMiddleware`). It is a chain of four middleware stages run on the body `{name, email, password, username}`: required fields, string types, lengths and e-mail shape, and uniqueness against the registered users.
  - `validateRequired` and `validateLength` build an error list by pushing messages. They are modelled as methods whose results equal an accumulator function (`Common.Collected`), and that function's properties are proved once.
  - The e-mail regular expression `/^[^\s@]+@[^\s@]+\.[^\s@]+$/` is modelled twice. A direct predicate checks for exactly one `@`, no whitespace, a non-empty local part and an interior `.` after the `@`. A second definition is the regex's own language: three runs of `[^\s@]+` around the `@` and the `.`. The two are proved equal.
  - The chain is modelled twice: as written, and with the fix described under Findings.
- **The follow/unfollow toggle** of the user service. A `UserService` class holds the set of user ids and the set of directed `(followerId, followedId)` edges. Its `Follow` method checks, in this order: store failure (500), follower exists, followed user exists (404), self-follow (409). It then creates the edge (201, with the row) or deletes it (200, no data).
- **The tweet routes** `POST /tweets` and `POST /tweets/like/:id`, modelled as pure functions of the request. They cover:
  - the three-way classification of the Authorization header (three 401 messages);
  - the rules on `type`, `parentId` and `content`;
  - the UUID check on the path id;
  - the split of a service result `{ok, code, message, data?}` into the status (`code`) and the body (everything else).

External collaborators become parameters:

- the token verifier is a map from accepted tokens to user ids;
- the tweet and like services are function parameters;
- a store failure is a `fault: Option<string>` argument;
- the id and timestamp of a created row are arguments.

## Model

| member | source | states |
|---|---|---|
| `Common.Collected` | src/middlewares/auth/signup.midleware.ts:11-24 | The error list built by `push` has at most one message per check. |
| `Common.CollectedMembers` | src/middlewares/auth/signup.midleware.ts:13-24 | A message is in the list exactly when some check carrying it fails. |
| `Common.CollectedEmpty` | src/middlewares/auth/signup.midleware.ts:26 | The list is empty exactly when no check fails. |
| `Common.CollectedLength` | src/middlewares/auth/signup.midleware.ts:13-24 | The list holds one message per failing check: its length is the number of failures. |
| `Common.CollectedAppend` | src/middlewares/auth/signup.midleware.ts:63-79 | Accumulating two runs of checks gives the first run's messages followed by the second's. |
| `Common.CollectedSingle` | src/middlewares/auth/signup.midleware.ts:13-24 | When exactly one check fails, the list is that check's message alone. |
| `Common.CollectedInOrder` | src/middlewares/auth/signup.midleware.ts:13-24 | With distinct messages, the list keeps the order of the checks. |
| `Common.CollectedPush` | src/middlewares/auth/signup.midleware.ts:13-24 | Adding one check at the end of a run pushes its message exactly when it fails. |
| `Common.CollectedFour` | src/middlewares/auth/signup.midleware.ts:61-79 | Accumulating four checks equals four successive conditional pushes onto the empty list. |
| `Common.BadRequest` | src/middlewares/auth/signup.midleware.ts:27-30 | The validators answer 400 with `ok: false`, the given message and no data. |
| `Signup.ValidateRequired` | src/middlewares/auth/signup.midleware.ts:5-34 | Calls `next()` in every case. It answers 400 with the whole list of missing-field messages when that list is not empty. |
| `Signup.RequiredMessages` | src/middlewares/auth/signup.midleware.ts:13-24 | Each required-field message appears exactly when its field is falsy. The messages follow the order name, email, password, username, one per falsy field. The list is empty exactly when all four fields are present. |
| `Signup.ValidateTypes` | src/middlewares/auth/signup.midleware.ts:36-53 | Continues exactly when all four fields are strings. Otherwise it answers 400 with the single string "All fields must be strings." |
| `Signup.IsSpace` | src/middlewares/auth/signup.midleware.ts:68 | The characters JavaScript's `\s` matches: space, tab to carriage return, U+00A0, U+1680, U+2000 to U+200A, U+2028, U+2029, U+202F, U+205F, U+3000 and U+FEFF. |
| `Signup.MatchesEmailRegex` | src/middlewares/auth/signup.midleware.ts:68 | The language of `/^[^\s@]+@[^\s@]+\.[^\s@]+$/`: a string is split at an `@` and a later `.` into three non-empty runs of characters that are neither whitespace nor `@`. |
| `Signup.IsEmail` | src/middlewares/auth/signup.midleware.ts:68-69 | The e-mail test as a direct check: no whitespace, exactly one `@` with something before it, and a `.` after the `@` that is neither its first nor the last character. `Signup.EmailTestIsRegex` equates it with the regex. |
| `Signup.EmailTestMatches` | src/middlewares/auth/signup.midleware.ts:67-69 | Every address the e-mail test accepts is in the language of the regular expression. |
| `Signup.RegexMatchIsEmail` | src/middlewares/auth/signup.midleware.ts:67-69 | Every word of the regular expression's language passes the e-mail test. |
| `Signup.EmailTestIsRegex` | src/middlewares/auth/signup.midleware.ts:67-69 | The e-mail test (one `@`, no whitespace, non-empty local part, a `.` inside the domain) accepts exactly the language of the regular expression. |
| `Signup.ValidateLength` | src/middlewares/auth/signup.midleware.ts:55-89 | Continues exactly when no length or e-mail check fails. Otherwise it answers 400 with the list of failures and stops. |
| `Signup.LengthMessages` | src/middlewares/auth/signup.midleware.ts:63-88 | Each length or e-mail message appears exactly when its check fails, in the order name, email, username, password. The stage passes exactly when every check holds. |
| `Signup.LengthBoundaries` | src/middlewares/auth/signup.midleware.ts:63-79 | A name or username of exactly 3 characters and a password of exactly 4 raise no message. One character fewer does. |
| `Signup.ValidateUnique` | src/middlewares/auth/signup.midleware.ts:91-118 | Continues exactly when neither the e-mail nor the username is registered. A taken e-mail is reported in preference to a taken username, with exactly one message. |
| `Signup.RunFromTypes` | src/middlewares/auth/signup.midleware.ts:36-118 | Stages 2 to 4 send at most one response, and reach the handler exactly when they send none. |
| `Signup.RunAsWritten` | src/middlewares/auth/signup.midleware.ts:26-118 | The chain as written: the required-field response, if any, followed by whatever stages 2 to 4 send, since validateRequired still calls `next()`. |
| `Signup.RunChain` | src/middlewares/auth/signup.midleware.ts:26-118 | The corrected chain: a required-field response ends the request; otherwise stages 2 to 4 run. |
| `Signup.RequiredFailureRespondsTwice` | src/middlewares/auth/signup.midleware.ts:26-33 | In the chain as written, a request with a falsy field gets the list of missing fields, and then the chain tries to send a second 400 from a later stage. |
| `Signup.RunChainRespondsOnce` | src/middlewares/auth/signup.midleware.ts:26-118 | The chain that stops after the required-field response sends at most one response. It reaches the handler exactly when all four stages pass. The client sees the same first response and the same verdict as in the chain as written. |
| `Signup.EmptyBodyRespondsTwice` | src/middlewares/auth/signup.midleware.ts:13-52 | An empty body gets all four missing-field messages, and then the chain tries to send a second 400 with "All fields must be strings." |
| `Follow.InternalError` | tests/service/users/follow-user.spec.ts:63-74 | A store failure answers `ok: false`, code 500, with no data. |
| `Follow.Followed` | tests/service/users/follow-user.spec.ts:95-100 | A created follow answers `ok: true`, code 201, with the created row as data. |
| `Follow.Toggle` | tests/service/users/follow-user.spec.ts:76-128 | After a toggle the edge is present exactly when it was absent, and every other edge is unchanged. |
| `Follow.ToggleTwice` | tests/service/users/follow-user.spec.ts:76-128 | Toggling the same edge twice restores the edge set. |
| `Follow.ToggleChangesOnePair` | tests/service/users/follow-user.spec.ts:76-128 | A toggle differs from the old edge set in exactly the one pair. |
| `Follow.ToggleKeepsWellFormed` | tests/service/users/follow-user.spec.ts:46-61 | Toggling an edge between two distinct users keeps the edge set free of self-follows and of edges to unknown users. |
| `Follow.UserService.constructor` | src/mocks/users.ts:114-136 | A store is built from users and well-formed follow edges, as the seeding script creates them, and holds exactly those. |
| `Follow.UserService.Follow` | tests/service/users/follow-user.spec.ts:16-128 | The outcomes in order: a failing store gives 500 "Internal server error: " plus its message. A missing follower or followed user gives 404 "User not found". Equal ids of existing users give 409. Otherwise the edge is toggled: 201 with the row when it was absent, 200 with no data when it was present. Every error leaves the edges unchanged. |
| `Follow.FollowTwice` | tests/service/users/follow-user.spec.ts:76-128 | Two successive successful calls with one body restore the edge set and answer 201 and 200. The first call gets 201 exactly when the edge was absent. |
| `Follow.FollowScenario` | tests/service/users/follow-user.spec.ts:16-128 | The tests' outcomes on a store with two users: 201 with the row, then 200, then 409 on a self-follow, 404 on an unknown user, and 500 "Internal server error: Exception". |
| `Http.Split` | tests/routes/tweets/like-tweet.test.ts:94-102 | The HTTP status is the result's `code`, and the body holds its other fields unchanged. |
| `Http.Merge` | tests/routes/tweets/like-tweet.test.ts:94 | Putting the status back as `code` gives an envelope with that code. |
| `Http.SplitMerge` | tests/routes/tweets/like-tweet.test.ts:94-122 | Splitting and merging are inverse: the body is the result without `code`, and nothing is lost. |
| `Http.Unexpected` | tests/routes/tweets/like-tweet.test.ts:60-77 | An error thrown by a service is answered with 500, `ok: false` and no data. |
| `Http.Answer` | tests/routes/tweets/like-tweet.test.ts:60-122 | A returned result is sent unchanged apart from the `code` split. A thrown error becomes the 500 with "An unexpected error occurred: " plus its message. |
| `Http.Authorize` | tests/routes/tweets/create-tweet.test.ts:14-34 | No header gives "Unauthorized: Token is required". A header without the Bearer scheme gives "Unauthorized: Invalid or missing token". |
| `Http.AuthorizeAccepts` | tests/routes/tweets/create-tweet.test.ts:36-46 | A caller is let through exactly when the header is `Bearer ` followed by a token the verifier accepts. The caller is then that token's user. |
| `Http.AuthorizeRejects` | tests/routes/tweets/create-tweet.test.ts:14-46 | A header is rejected exactly when it is missing, lacks the Bearer scheme, or carries a token the verifier refuses. Each case has its own one of the three messages. |
| `Http.Reject` | tests/routes/tweets/create-tweet.test.ts:17-21 | A rejected header is answered with 401 and body `{ok: false, message}`. |
| `Http.AuthorizeTestHeaders` | tests/routes/tweets/like-tweet.test.ts:12-44 | The three headers the tests send get the three messages. |
| `CreateTweet.ParseType` | tests/routes/tweets/create-tweet.test.ts:123-135 | Only a truthy value can name one of TWEET, REPLY and RETWEET. |
| `CreateTweet.TypeName` | tests/routes/tweets/create-tweet.test.ts:123-135 | Each tweet type's name parses back to that type. |
| `CreateTweet.ParseTypeNames` | tests/routes/tweets/create-tweet.test.ts:123-135 | A value names type `t` exactly when it is the string `TypeName(t)`, so only "TWEET", "REPLY" and "RETWEET" parse, each to its own type. |
| `CreateTweet.Holds` | tests/routes/tweets/create-tweet.test.ts:48-168 | The rules: a type is required and must be one of the three; a parent is required for REPLY and RETWEET and refused for TWEET; content is required except on a RETWEET, must be a string, and is at most 280 characters. |
| `CreateTweet.Violations` | tests/routes/tweets/create-tweet.test.ts:48-168 | The set of rules a body breaks. |
| `CreateTweet.MessageOf` | tests/routes/tweets/create-tweet.test.ts:48-168 | The message of each rule, as the tests assert it, including "Parent Tweed ID" in the parent rule. |
| `CreateTweet.Report` | tests/routes/tweets/create-tweet.test.ts:48-168 | A lone violation is reported as a one-element list, except the length limit, which is reported as a single string (151-168). |
| `CreateTweet.Validate` | tests/routes/tweets/create-tweet.test.ts:48-168 | A body that passes names one of the three tweet types. |
| `CreateTweet.ValidatePassesIff` | tests/routes/tweets/create-tweet.test.ts:193-229 | A body passes validation exactly when it breaks none of the type, parent and content rules. |
| `CreateTweet.SingleViolationReported` | tests/routes/tweets/create-tweet.test.ts:48-168 | A body that breaks exactly one rule is answered with that rule's message. It is a one-element list, except for the length limit, which is a single string. |
| `CreateTweet.ValidateReportsViolations` | tests/routes/tweets/create-tweet.test.ts:48-168 | Every reported message belongs to a rule the body breaks. |
| `CreateTweet.ContentLengthLimit` | tests/routes/tweets/create-tweet.test.ts:151-168 | On a TWEET with a null parentId, non-empty content of at most 280 characters passes. Longer content is refused with the single string "Content exceeds the maximum allowed length of 280 characters". |
| `CreateTweet.TweetWithParentRefused` | tests/routes/tweets/create-tweet.test.ts:77-107 | A TWEET with a present, non-null parentId (UUID-shaped or not) and non-empty content of at most 280 characters gets `["Parent Tweed ID is only valid for RETWEET or REPLY"]`. |
| `CreateTweet.TypeNullRefused` | tests/routes/tweets/create-tweet.test.ts:49-61 | The test's body `{type: null, parentId: null, content: "Texto"}` gets `["Tweet type is required"]`. |
| `CreateTweet.ReplyWithoutParentRefused` | tests/routes/tweets/create-tweet.test.ts:63-75 | The test's body `{type: "REPLY", parentId: null, content: "Texto"}` gets `["Parent Tweet ID is required for REPLY or RETWEET"]`. |
| `CreateTweet.EmptyContentRefused` | tests/routes/tweets/create-tweet.test.ts:109-121 | The test's body `{type: "TWEET", parentId: null, content: ""}` gets `["Content is required"]`. |
| `CreateTweet.UnknownTypeRefused` | tests/routes/tweets/create-tweet.test.ts:123-135 | The test's body `{type: "Tipo", parentId: null, content: "Texto"}` gets `["Type must be TWEET, REPLY or RETWEET"]`. |
| `CreateTweet.NumericContentRefused` | tests/routes/tweets/create-tweet.test.ts:137-149 | The test's body `{type: "TWEET", parentId: null, content: 1234}` gets `["Content must be a string"]`. |
| `CreateTweet.CreateTweetRoute` | tests/routes/tweets/create-tweet.test.ts:14-168 | A rejected header gives its 401, and an invalid body gives 400 with the validation message. |
| `CreateTweet.ValidRequestReachesService` | tests/routes/tweets/create-tweet.test.ts:170-229 | An authenticated, valid request reaches the service with the caller's id. The service's result is sent with status = `code`, and a thrown error becomes the 500. |
| `LikeTweet.IsUuid` | tests/routes/tweets/like-tweet.test.ts:46-58 | The path id's UUID test: 36 characters, hyphens at indices 8, 13, 18 and 23, and hexadecimal digits in either case elsewhere. |
| `LikeTweet.UuidGroups` | tests/routes/tweets/like-tweet.test.ts:46-58 | The UUID test accepts exactly five hexadecimal groups of 8, 4, 4, 4 and 12 digits joined by hyphens. |
| `LikeTweet.TestIdentifiers` | tests/routes/tweets/like-tweet.test.ts:46-62 | "invalid-uuid" is refused and a canonical UUID is accepted. |
| `LikeTweet.LikeService` | tests/routes/tweets/like-tweet.test.ts:79-123 | An absent like is created: 201 "Tweet liked successfully" with the row, whose `tweetId` is the given tweet. A present like is removed: 200 "Like removed successfully" with no data. |
| `LikeTweet.LikeTwice` | tests/routes/tweets/like-tweet.test.ts:79-123 | Liking twice restores the like set and answers 201 and 200. The first call gets 201 exactly when the like was absent. |
| `LikeTweet.LikeRoute` | tests/routes/tweets/like-tweet.test.ts:12-58 | A rejected header gives its 401. A non-UUID path id gives 400 with the single string "Identifier must be a UUID". Otherwise the route sends the service's answer. |
| `LikeTweet.LikeRouteAnswers` | tests/routes/tweets/like-tweet.test.ts:79-123 | With the toggle as the service, the route answers 201 exactly when the like was absent, with data whose `tweetId` is the path id. Otherwise it answers 200 with body `{ok: true, message}` and no data. In both cases the body is the result without `code`. |
| `LikeTweet.LikeRouteThrows` | tests/routes/tweets/like-tweet.test.ts:60-77 | A service that throws gives 500 `{ok: false, message: "An unexpected error occurred: " + msg}`. |

## Left out

- Follow.UserService.Follow: the store's failure is modelled only at its first access, the follower lookup, which is the failure the tests exercise. A failure that happens only at a later call (the second lookup, the edge lookup, the create or the delete) is not modelled separately.
- Follow.UserService.Follow: the user service's own source is not part of this model. Its contract is the tests' contract. The follower is the body's `userId` and the followed user is its `id`, as the lookup, self-follow and unfollow tests use them (tests/service/users/follow-user.spec.ts:16-29 and 103-128). The 201 test's fixture names the two roles the other way round: its body sends `id: "id-seguidor"` (line 78), and the stubbed `follower.create` returns a row whose `followerId` is that `id` (82-85). The model returns the row built from the body, so for that body its `followerId` is "id-seguido". The positional call at src/controllers/user.controller.ts:98 is not reconciled with that object form.
- LikeTweet.IsUuid: the path-id validator's own source is not part of this model, so the predicate is assumed. It is the broadest textual form, 8-4-4-4-12 hexadecimal digits, and does not check the version or variant nibbles. For example it accepts "00000000-0000-0000-0000-000000000001", which a version-checking validator refuses. Only two inputs come from the sources: "invalid-uuid" is refused (tests/routes/tweets/like-tweet.test.ts:50-57), and the ids from `randomUUID()` are accepted (62, 81).
- LikeTweet.LikeService: the like service's own source is not part of this model. The route tests stub it (tests/routes/tweets/like-tweet.test.ts:96 and 116) and fix only the two result shapes: 201 with the created row (82-92) and 200 without data (108-112). That an absent like is created and a present one deleted is assumed by analogy with the follow toggle. `LikeTweet.LikeTwice` and the toggle clauses of `LikeTweet.LikeRouteAnswers` rest on that assumption.
- The like service's not-found branches, for a missing user or tweet, are not modelled. Their messages appear in none of the sources.
- Express framing, routing, and the controllers' `try`/`catch` blocks are left out. The 500 text modelled is the one the route tests assert: "An unexpected error occurred: " plus the message. The controllers' own catch blocks use different prefixes, such as src/controllers/tweet.controller.ts:25. The model follows the tests, not the controllers.
- The authentication middleware src/middlewares/auth/auth.middleware.ts answers "Not authenticated!", which no test asserts. The model classifies the header as the route tests assert. It assumes the token follows the exact prefix `Bearer `. What a present but empty header gets is not pinned by any test; the model treats it as a missing scheme.
- Token verification (src/utils/jwt.ts) is an oracle: a map from accepted tokens to user ids. Signing, expiry and secrets are not modelled.
- The order in which two violations of one tweet body are reported, and whether they are accumulated, is pinned by no test. The model reports them stage by stage: presence (type, parent, content), then types, then length. It proves only what the tests fix: a single violation gives its message, and no violation means the body passes. Content is modelled as required except on a RETWEET.
- The router that mounts the four signup stages is not part of this model. The stage order (validateRequired, validateTypes, validateLength, validateUnique) is taken from the order in which they are declared in src/middlewares/auth/signup.midleware.ts:5-118. A response the chain tries to send after the first one is recorded in the trace. Express would refuse it because the headers are already sent; that refusal is not modelled.
- validateUnique: its two lookups run in parallel (`Promise.all`), and a failed lookup is not caught. Both are left out; the lookups are membership tests on sets of registered e-mails and usernames.
- The signup handler after the chain, password hashing, the seeding scripts (src/mocks/tweets.ts, src/mocks/users.ts) and the type declarations (src/dtos/user.dto.ts) are not modelled.
- JavaScript numbers are modelled as integers, so NaN (which is falsy) is not. String lengths count Unicode scalar values, not UTF-16 code units, so they differ from JavaScript only for characters outside the Basic Multilingual Plane.

## Findings

| source | as written | input that shows it | evidently intended | confidence | as-written member | corrected member |
|---|---|---|---|---|---|---|
| src/middlewares/auth/signup.midleware.ts:26-33 | `validateRequired` sends the 400 with the missing-field list and then still calls `next()`. A later stage then tries to answer the same request a second time. | Body `{}`: the 400 with all four messages, then a second 400 "All fields must be strings." from `validateTypes`. | Return after sending the 400, as the other three stages do, so that each request gets one response. | not executed | `Signup.RequiredFailureRespondsTwice` | `Signup.RunChainRespondsOnce` |
