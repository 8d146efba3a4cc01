/** The signup request validator: four middleware stages run in this order
    on the body `{name, email, password, username}` — required fields,
    string types, lengths and e-mail shape, uniqueness against the users
    already registered. */
module Signup {
  import opened Common

  datatype SignupBody = SignupBody(name: Value, email: Value, password: Value, username: Value)

  /** The e-mails and usernames of the users already in the store. */
  datatype Registered = Registered(emails: set<string>, usernames: set<string>)

  type Reply = HttpResponse<()>

  /** What one middleware did: the response it sent, if any, and whether it
      called `next()`. */
  datatype Step = Step(response: Option<Reply>, next: bool)

  const NameRequired := "Name is required!"
  const EmailRequired := "Email is required!"
  const PasswordRequired := "Password is required!"
  const UsernameRequired := "Username is required!"
  const TypesMessage := "All fields must be strings."
  const NameTooShort := "Name must be at least 3 characters long."
  const InvalidEmail := "Invalid email."
  const UsernameTooShort := "Username must be at least 3 characters long."
  const PasswordTooShort := "Password must be at least 4 characters long."
  const EmailInUse := "Email is already in use."
  const UsernameInUse := "Username is already in use."

  // ---------------------------------------------------------------------
  // Stage 1: required fields
  // ---------------------------------------------------------------------

  /** The four presence checks, in the order the validator makes them. */
  function RequiredChecks(b: SignupBody): seq<Check>
  {
    [ Check(!Truthy(b.name), NameRequired),
      Check(!Truthy(b.email), EmailRequired),
      Check(!Truthy(b.password), PasswordRequired),
      Check(!Truthy(b.username), UsernameRequired) ]
  }

  function RequiredErrors(b: SignupBody): seq<string>
  {
    Collected(RequiredChecks(b))
  }

  /** validateRequired: pushes one message per falsy field, answers 400 with
      the whole list when it is not empty, and calls `next()` in every case
      (there is no `return` after the response). */
  method ValidateRequired(b: SignupBody) returns (step: Step)
    ensures step.next
    ensures step.response ==
            if RequiredErrors(b) == [] then None else Some(BadRequest(List(RequiredErrors(b))))
  {
    var errors: seq<string> := [];
    if !Truthy(b.name) {
      errors := errors + [NameRequired];
    }
    if !Truthy(b.email) {
      errors := errors + [EmailRequired];
    }
    if !Truthy(b.password) {
      errors := errors + [PasswordRequired];
    }
    if !Truthy(b.username) {
      errors := errors + [UsernameRequired];
    }
    CollectedFour(Check(!Truthy(b.name), NameRequired), Check(!Truthy(b.email), EmailRequired),
                  Check(!Truthy(b.password), PasswordRequired), Check(!Truthy(b.username), UsernameRequired));
    var response: Option<Reply> := None;
    if |errors| > 0 {
      response := Some(BadRequest(List(errors)));
    }
    step := Step(response, true);
  }

  /** Exactly one message per falsy field, in the order name, email,
      password, username; the list is empty exactly when all four are present. */
  lemma RequiredMessages(b: SignupBody)
    ensures NameRequired in RequiredErrors(b) <==> !Truthy(b.name)
    ensures EmailRequired in RequiredErrors(b) <==> !Truthy(b.email)
    ensures PasswordRequired in RequiredErrors(b) <==> !Truthy(b.password)
    ensures UsernameRequired in RequiredErrors(b) <==> !Truthy(b.username)
    ensures RequiredErrors(b) == [] <==>
            Truthy(b.name) && Truthy(b.email) && Truthy(b.password) && Truthy(b.username)
    ensures |RequiredErrors(b)| == FailureCount(RequiredChecks(b))
    ensures forall i, j :: 0 <= i < j < |RequiredErrors(b)| ==>
              Position(RequiredChecks(b), RequiredErrors(b)[i]) < Position(RequiredChecks(b), RequiredErrors(b)[j])
  {
    var checks := RequiredChecks(b);
    CollectedHas(checks, 0);
    CollectedHas(checks, 1);
    CollectedHas(checks, 2);
    CollectedHas(checks, 3);
    CollectedEmpty(checks);
    CollectedLength(checks);
    CollectedInOrder(checks);
  }

  // ---------------------------------------------------------------------
  // Stage 2: types
  // ---------------------------------------------------------------------

  predicate AllStrings(b: SignupBody)
  {
    b.name.Str? && b.email.Str? && b.username.Str? && b.password.Str?
  }

  /** validateTypes: continues exactly when all four fields are strings,
      and otherwise answers 400 with one fixed string. */
  function ValidateTypes(b: SignupBody): (step: Step)
    ensures step.next <==> AllStrings(b)
    ensures step.next ==> step.response.None?
    ensures !step.next ==> step.response == Some(BadRequest(Text(TypesMessage)))
  {
    if !AllStrings(b) then
      Step(Some(BadRequest(Text(TypesMessage))), false)
    else
      Step(None, true)
  }

  // ---------------------------------------------------------------------
  // Stage 3: lengths and the e-mail shape
  // ---------------------------------------------------------------------

  /** `\s` of JavaScript regular expressions. */
  predicate IsSpace(c: char)
  {
    || c == ' ' || ('\t' <= c <= '\r')
    || c == '\U{00A0}' || c == '\U{1680}' || ('\U{2000}' <= c <= '\U{200A}')
    || c == '\U{2028}' || c == '\U{2029}' || c == '\U{202F}' || c == '\U{205F}'
    || c == '\U{3000}' || c == '\U{FEFF}'
  }

  /** A character of the class `[^\s@]`. */
  predicate EmailChar(c: char)
  {
    c != '@' && !IsSpace(c)
  }

  /** A match of `[^\s@]+`. */
  predicate Run(t: string)
  {
    |t| > 0 && forall k :: 0 <= k < |t| ==> EmailChar(t[k])
  }

  /** The language of `/^[^\s@]+@[^\s@]+\.[^\s@]+$/`: the string splits at an
      `@` (index i) and a literal `.` (index j) into three runs of `[^\s@]+`. */
  ghost predicate MatchesEmailRegex(s: string)
  {
    exists i, j :: 0 <= i < j < |s| && s[i] == '@' && s[j] == '.' &&
                   Run(s[..i]) && Run(s[i + 1..j]) && Run(s[j + 1..])
  }

  predicate NoSpace(s: string)
  {
    forall k :: 0 <= k < |s| ==> !IsSpace(s[k])
  }

  /** `s[at]` is the only `@` in `s`. */
  predicate OnlyAt(s: string, at: int)
  {
    0 <= at < |s| && s[at] == '@' && forall k :: 0 <= k < |s| && k != at ==> s[k] != '@'
  }

  /** A `.` that is neither the first nor the last character. */
  predicate HasInteriorDot(d: string)
  {
    exists k :: 0 < k < |d| - 1 && d[k] == '.'
  }

  /** The e-mail test: exactly one `@`, no whitespace, something before the
      `@`, and after it a `.` that is neither first nor last. */
  predicate IsEmail(s: string)
  {
    NoSpace(s) && exists at :: 0 < at < |s| && OnlyAt(s, at) && HasInteriorDot(s[at + 1..])
  }

  /** Every address the e-mail test accepts matches the regular expression. */
  lemma EmailTestMatches(s: string)
    requires IsEmail(s)
    ensures MatchesEmailRegex(s)
  {
    var at :| 0 < at < |s| && OnlyAt(s, at) && HasInteriorDot(s[at + 1..]);
    var d := s[at + 1..];
    var k :| 0 < k < |d| - 1 && d[k] == '.';
    var j := at + 1 + k;
    assert s[j] == d[k];
    assert Run(s[..at]) by {
      forall m | 0 <= m < at ensures EmailChar(s[..at][m]) { assert s[..at][m] == s[m]; }
    }
    var host, top := s[at + 1..j], s[j + 1..];
    assert Run(host) by {
      forall m | 0 <= m < |host| ensures EmailChar(host[m]) { assert host[m] == s[at + 1 + m]; }
    }
    assert Run(top) by {
      forall m | 0 <= m < |top| ensures EmailChar(top[m]) { assert top[m] == s[j + 1 + m]; }
    }
  }

  /** Every match of the regular expression passes the e-mail test. */
  lemma RegexMatchIsEmail(s: string)
    requires MatchesEmailRegex(s)
    ensures IsEmail(s)
  {
    var i, j :| 0 <= i < j < |s| && s[i] == '@' && s[j] == '.' &&
                Run(s[..i]) && Run(s[i + 1..j]) && Run(s[j + 1..]);
    forall k | 0 <= k < |s| ensures k != i ==> EmailChar(s[k]) && !IsSpace(s[k])
    {
      if k < i {
        assert s[..i][k] == s[k];
      } else if i < k < j {
        assert s[i + 1..j][k - i - 1] == s[k];
      } else if k > j {
        assert s[j + 1..][k - j - 1] == s[k];
      }
    }
    assert OnlyAt(s, i);
    var d := s[i + 1..];
    assert d[j - i - 1] == '.';
    assert HasInteriorDot(d);
  }

  /** The e-mail test accepts exactly the language of the regular expression. */
  lemma EmailTestIsRegex(s: string)
    ensures IsEmail(s) <==> MatchesEmailRegex(s)
  {
    if IsEmail(s) {
      EmailTestMatches(s);
    }
    if MatchesEmailRegex(s) {
      RegexMatchIsEmail(s);
    }
  }

  /** The four length checks, in the validator's order name, email,
      username, password. */
  function LengthChecks(name: string, email: string, username: string, password: string): seq<Check>
  {
    [ Check(|name| < 3, NameTooShort),
      Check(!IsEmail(email), InvalidEmail),
      Check(|username| < 3, UsernameTooShort),
      Check(|password| < 4, PasswordTooShort) ]
  }

  function LengthErrors(name: string, email: string, username: string, password: string): seq<string>
  {
    Collected(LengthChecks(name, email, username, password))
  }

  /** validateLength: pushes one message per failed length or shape check;
      answers 400 with the list and stops when it is not empty, and calls
      `next()` otherwise. It runs only after validateTypes has let every
      field through as a string. */
  method ValidateLength(name: string, email: string, username: string, password: string)
    returns (step: Step)
    ensures step.next <==> LengthErrors(name, email, username, password) == []
    ensures step.response ==
            if step.next then None else Some(BadRequest(List(LengthErrors(name, email, username, password))))
  {
    var errors: seq<string> := [];
    if |name| < 3 {
      errors := errors + [NameTooShort];
    }
    if !IsEmail(email) {
      errors := errors + [InvalidEmail];
    }
    if |username| < 3 {
      errors := errors + [UsernameTooShort];
    }
    if |password| < 4 {
      errors := errors + [PasswordTooShort];
    }
    CollectedFour(Check(|name| < 3, NameTooShort), Check(!IsEmail(email), InvalidEmail),
                  Check(|username| < 3, UsernameTooShort), Check(|password| < 4, PasswordTooShort));
    if |errors| > 0 {
      step := Step(Some(BadRequest(List(errors))), false);
      return;
    }
    step := Step(None, true);
  }

  /** One message per failed check, in the order name, email, username,
      password; the stage passes exactly when every check holds. */
  lemma LengthMessages(name: string, email: string, username: string, password: string)
    ensures NameTooShort in LengthErrors(name, email, username, password) <==> |name| < 3
    ensures InvalidEmail in LengthErrors(name, email, username, password) <==> !IsEmail(email)
    ensures UsernameTooShort in LengthErrors(name, email, username, password) <==> |username| < 3
    ensures PasswordTooShort in LengthErrors(name, email, username, password) <==> |password| < 4
    ensures LengthErrors(name, email, username, password) == [] <==>
            |name| >= 3 && IsEmail(email) && |username| >= 3 && |password| >= 4
    ensures forall i, j :: 0 <= i < j < |LengthErrors(name, email, username, password)| ==>
              Position(LengthChecks(name, email, username, password), LengthErrors(name, email, username, password)[i])
              < Position(LengthChecks(name, email, username, password), LengthErrors(name, email, username, password)[j])
  {
    var checks := LengthChecks(name, email, username, password);
    CollectedHas(checks, 0);
    CollectedHas(checks, 1);
    CollectedHas(checks, 2);
    CollectedHas(checks, 3);
    CollectedEmpty(checks);
    CollectedInOrder(checks);
  }

  /** The limits are inclusive: a name or username of exactly 3 characters
      and a password of exactly 4 raise no length message, one character
      fewer does. */
  lemma LengthBoundaries(name: string, email: string, username: string, password: string)
    ensures |name| == 3 ==> NameTooShort !in LengthErrors(name, email, username, password)
    ensures |name| == 2 ==> NameTooShort in LengthErrors(name, email, username, password)
    ensures |username| == 3 ==> UsernameTooShort !in LengthErrors(name, email, username, password)
    ensures |username| == 2 ==> UsernameTooShort in LengthErrors(name, email, username, password)
    ensures |password| == 4 ==> PasswordTooShort !in LengthErrors(name, email, username, password)
    ensures |password| == 3 ==> PasswordTooShort in LengthErrors(name, email, username, password)
  {
    LengthMessages(name, email, username, password);
  }

  // ---------------------------------------------------------------------
  // Stage 4: uniqueness
  // ---------------------------------------------------------------------

  /** validateUnique: the e-mail is looked up first; a taken e-mail is
      reported even when the username is taken too. */
  function ValidateUnique(email: string, username: string, store: Registered): (step: Step)
    ensures step.next <==> email !in store.emails && username !in store.usernames
    ensures step.next ==> step.response.None?
    ensures email in store.emails ==> step.response == Some(BadRequest(Text(EmailInUse)))
    ensures email !in store.emails && username in store.usernames ==>
              step.response == Some(BadRequest(Text(UsernameInUse)))
  {
    var existingEmail := email in store.emails;
    var existingUsername := username in store.usernames;
    if existingEmail then Step(Some(BadRequest(Text(EmailInUse))), false)
    else if existingUsername then Step(Some(BadRequest(Text(UsernameInUse))), false)
    else Step(None, true)
  }

  // ---------------------------------------------------------------------
  // The chain of the four stages
  // ---------------------------------------------------------------------

  /** Every response the chain tried to send, in order, and whether the
      signup handler after the last stage was reached. */
  datatype Trace = Trace(responses: seq<Reply>, reachedHandler: bool)

  function Sent(step: Step): seq<Reply>
  {
    if step.response.Some? then [step.response.value] else []
  }

  function RequiredSent(b: SignupBody): seq<Reply>
  {
    if RequiredErrors(b) == [] then [] else [BadRequest(List(RequiredErrors(b)))]
  }

  /** Stages 2 to 4, each run only when the one before called `next()`. */
  function RunFromTypes(b: SignupBody, store: Registered): (t: Trace)
    ensures |t.responses| <= 1
    ensures t.reachedHandler <==> t.responses == []
  {
    var types := ValidateTypes(b);
    if !types.next then Trace(Sent(types), false)
    else
      var errors := LengthErrors(b.name.s, b.email.s, b.username.s, b.password.s);
      if errors != [] then Trace([BadRequest(List(errors))], false)
      else
        var unique := ValidateUnique(b.email.s, b.username.s, store);
        Trace(Sent(unique), unique.next)
  }

  /** The chain as written: validateRequired calls `next()` even after it
      has answered, so stage 2 runs in every case. */
  function RunAsWritten(b: SignupBody, store: Registered): Trace
  {
    var rest := RunFromTypes(b, store);
    Trace(RequiredSent(b) + rest.responses, rest.reachedHandler)
  }

  /** The chain with validateRequired returning after it answers, as the
      other three stages do. */
  function RunChain(b: SignupBody, store: Registered): Trace
  {
    if RequiredErrors(b) != [] then Trace(RequiredSent(b), false)
    else RunFromTypes(b, store)
  }

  /** A falsy field always fails a later stage as well: it is not a string
      (stage 2) or it is the empty string, which fails its length or e-mail
      check (stage 3). So with the chain as written every request with a
      missing field gets a second response after the list of missing fields. */
  lemma RequiredFailureRespondsTwice(b: SignupBody, store: Registered)
    requires RequiredErrors(b) != []
    ensures |RunAsWritten(b, store).responses| == 2
    ensures RunAsWritten(b, store).responses[0] == BadRequest(List(RequiredErrors(b)))
    ensures !RunAsWritten(b, store).reachedHandler
  {
    RequiredMessages(b);
    if AllStrings(b) {
      LengthMessages(b.name.s, b.email.s, b.username.s, b.password.s);
      assert !IsEmail("");
    }
  }

  /** The corrected chain sends at most one response, reaches the handler
      exactly when all four stages pass, and shows the client the same first
      response and the same verdict as the chain as written. */
  lemma RunChainRespondsOnce(b: SignupBody, store: Registered)
    ensures |RunChain(b, store).responses| <= 1
    ensures RunChain(b, store).reachedHandler <==> RunChain(b, store).responses == []
    ensures RunChain(b, store).reachedHandler <==>
              RequiredErrors(b) == [] && AllStrings(b) &&
              LengthErrors(b.name.s, b.email.s, b.username.s, b.password.s) == [] &&
              b.email.s !in store.emails && b.username.s !in store.usernames
    ensures RunChain(b, store).reachedHandler == RunAsWritten(b, store).reachedHandler
    ensures RunAsWritten(b, store).responses != [] ==>
              RunChain(b, store).responses == RunAsWritten(b, store).responses[..1]
  {
    if RequiredErrors(b) != [] {
      RequiredFailureRespondsTwice(b, store);
    }
  }

  /** A body missing every field: the chain as written answers twice. */
  lemma EmptyBodyRespondsTwice(store: Registered)
    ensures RunAsWritten(SignupBody(Absent, Absent, Absent, Absent), store).responses ==
            [ BadRequest(List([NameRequired, EmailRequired, PasswordRequired, UsernameRequired])),
              BadRequest(Text(TypesMessage)) ]
  {
    var b := SignupBody(Absent, Absent, Absent, Absent);
    assert RequiredChecks(b) == [Check(true, NameRequired), Check(true, EmailRequired),
                                 Check(true, PasswordRequired), Check(true, UsernameRequired)];
    CollectedFour(Check(true, NameRequired), Check(true, EmailRequired),
                  Check(true, PasswordRequired), Check(true, UsernameRequired));
    assert RequiredErrors(b) == [NameRequired, EmailRequired, PasswordRequired, UsernameRequired];
    assert RunFromTypes(b, store).responses == [BadRequest(Text(TypesMessage))];
  }
}
