/** Values shared by the request validators and the routes: the loosely typed
    fields of a JSON request body, the `{ok, message, data?}` response body,
    and the "push a message for every failing check" accumulator that the
    request validators build their error lists with. */
module Common {

  datatype Option<+T> = None | Some(value: T)

  /** A field of a parsed JSON request body, as a JavaScript handler sees it. */
  datatype Value =
    | Absent            // the key is not in the body (`undefined`)
    | Null
    | Str(s: string)
    | Num(n: int)
    | Bool(b: bool)
    | Obj               // an object or an array

  /** JavaScript truthiness, as tested by `if (!field)`. */
  predicate Truthy(v: Value)
  {
    match v
    case Absent => false
    case Null => false
    case Str(s) => s != ""
    case Num(n) => n != 0
    case Bool(b) => b
    case Obj => true
  }

  /** The field was sent with a value other than `null`. */
  predicate IsGiven(v: Value)
  {
    !v.Absent? && !v.Null?
  }

  /** `message` of a response body: an array of strings or a single string. */
  datatype Message = List(items: seq<string>) | Text(text: string)

  datatype Body<D> = Body(ok: bool, message: Message, data: Option<D>)

  datatype HttpResponse<D> = HttpResponse(status: int, body: Body<D>)

  /** The 400 every validator answers with. */
  function BadRequest<D>(message: Message): (r: HttpResponse<D>)
    ensures r.status == 400 && !r.body.ok && r.body.data.None?
    ensures r.body.message == message
  {
    HttpResponse(400, Body(false, message, None))
  }

  /** One `if (condition) errors.push(message)` of a validator. */
  datatype Check = Check(fails: bool, message: string)

  /** The error list a validator builds by pushing, in order, the message of
      every failing check. */
  function Collected(checks: seq<Check>): (errors: seq<string>)
    ensures |errors| <= |checks|
  {
    if checks == [] then []
    else (if checks[0].fails then [checks[0].message] else []) + Collected(checks[1..])
  }

  /** Number of failing checks. */
  function FailureCount(checks: seq<Check>): nat
  {
    if checks == [] then 0
    else (if checks[0].fails then 1 else 0) + FailureCount(checks[1..])
  }

  /** A message is in the list exactly when some check carrying it fails. */
  lemma {:induction false} CollectedMembers(checks: seq<Check>, m: string)
    ensures m in Collected(checks) <==>
            exists i :: 0 <= i < |checks| && checks[i].fails && checks[i].message == m
  {
    if checks != [] {
      CollectedMembers(checks[1..], m);
      if m in Collected(checks[1..]) {
        var i :| 0 <= i < |checks[1..]| && checks[1..][i].fails && checks[1..][i].message == m;
        assert checks[i + 1].fails && checks[i + 1].message == m;
      }
      if exists i :: 0 <= i < |checks| && checks[i].fails && checks[i].message == m {
        var i :| 0 <= i < |checks| && checks[i].fails && checks[i].message == m;
        if i > 0 {
          assert checks[1..][i - 1] == checks[i];
        }
      }
    }
  }

  /** The list is empty exactly when no check fails. */
  lemma {:induction false} CollectedEmpty(checks: seq<Check>)
    ensures Collected(checks) == [] <==> forall i :: 0 <= i < |checks| ==> !checks[i].fails
  {
    if checks != [] {
      CollectedEmpty(checks[1..]);
      if Collected(checks) == [] {
        forall i | 0 <= i < |checks| ensures !checks[i].fails {
          if i > 0 { assert checks[1..][i - 1] == checks[i]; }
        }
      }
      if forall i :: 0 <= i < |checks| ==> !checks[i].fails {
        forall i | 0 <= i < |checks[1..]| ensures !checks[1..][i].fails {
          assert checks[1..][i] == checks[i + 1];
        }
      }
    }
  }

  /** One message per failing check: the list is as long as the number of
      failures. */
  lemma {:induction false} CollectedLength(checks: seq<Check>)
    ensures |Collected(checks)| == FailureCount(checks)
  {
    if checks != [] {
      CollectedLength(checks[1..]);
    }
  }

  /** Order is kept: the messages of earlier checks come before those of later
      checks. */
  lemma {:induction false} CollectedAppend(a: seq<Check>, b: seq<Check>)
    ensures Collected(a + b) == Collected(a) + Collected(b)
  {
    if a == [] {
      assert a + b == b;
    } else {
      var head := if a[0].fails then [a[0].message] else [];
      assert (a + b)[0] == a[0];
      assert (a + b)[1..] == a[1..] + b;
      CollectedAppend(a[1..], b);
      calc {
        Collected(a + b);
        head + Collected(a[1..] + b);
        head + (Collected(a[1..]) + Collected(b));
        (head + Collected(a[1..])) + Collected(b);
      }
    }
  }

  /** When exactly one check fails, the list is that check's message alone. */
  lemma {:induction false} CollectedSingle(checks: seq<Check>, k: nat)
    requires k < |checks| && checks[k].fails
    requires forall i :: 0 <= i < |checks| && i != k ==> !checks[i].fails
    ensures Collected(checks) == [checks[k].message]
  {
    if k == 0 {
      CollectedEmpty(checks[1..]);
    } else {
      CollectedSingle(checks[1..], k - 1);
    }
  }

  /** Index of the first check carrying message `m` (|checks| when none does);
      it depends only on the order of the checks, not on which of them fail. */
  function Position(checks: seq<Check>, m: string): (p: nat)
    ensures p <= |checks|
    ensures p < |checks| ==> checks[p].message == m
  {
    if checks == [] then 0
    else if checks[0].message == m then 0
    else 1 + Position(checks[1..], m)
  }

  predicate DistinctMessages(checks: seq<Check>)
  {
    forall i, j :: 0 <= i < j < |checks| ==> checks[i].message != checks[j].message
  }

  /** A message collected from the checks after the first is not the first
      check's message, so its position is one past its position among them. */
  lemma PositionAfterHead(checks: seq<Check>, x: string)
    requires checks != [] && DistinctMessages(checks)
    requires x in Collected(checks[1..])
    ensures x != checks[0].message
    ensures Position(checks, x) == 1 + Position(checks[1..], x)
  {
    CollectedMembers(checks[1..], x);
    var i :| 0 <= i < |checks[1..]| && checks[1..][i].fails && checks[1..][i].message == x;
    assert checks[1..][i] == checks[i + 1];
  }

  /** With distinct messages, the list follows the order of the checks. */
  lemma {:induction false} CollectedInOrder(checks: seq<Check>)
    requires DistinctMessages(checks)
    ensures forall i, j :: 0 <= i < j < |Collected(checks)| ==>
              Position(checks, Collected(checks)[i]) < Position(checks, Collected(checks)[j])
  {
    if checks != [] {
      var rest := checks[1..];
      assert DistinctMessages(rest) by {
        forall i, j | 0 <= i < j < |rest| ensures rest[i].message != rest[j].message {
          assert rest[i] == checks[i + 1] && rest[j] == checks[j + 1];
        }
      }
      CollectedInOrder(rest);
      var tail := Collected(rest);
      var head := if checks[0].fails then [checks[0].message] else [];
      var r := Collected(checks);
      assert r == head + tail;
      forall i, j | 0 <= i < j < |r| ensures Position(checks, r[i]) < Position(checks, r[j]) {
        var h := |head|;
        assert r[j] == tail[j - h];
        PositionAfterHead(checks, r[j]);
        if i >= h {
          assert r[i] == tail[i - h];
          PositionAfterHead(checks, r[i]);
        }
      }
    }
  }

  /** `if (check fails) errors.push(message)` applied to a list. */
  function Push(errors: seq<string>, c: Check): seq<string>
  {
    if c.fails then errors + [c.message] else errors
  }

  /** Adding one check at the end pushes its message when it fails. */
  lemma CollectedPush(checks: seq<Check>, c: Check)
    ensures Collected(checks + [c]) == Push(Collected(checks), c)
  {
    CollectedAppend(checks, [c]);
    assert [c][1..] == [];
  }

  /** Collecting four checks is pushing their messages one after another,
      starting from the empty list. */
  lemma CollectedFour(c0: Check, c1: Check, c2: Check, c3: Check)
    ensures Collected([c0, c1, c2, c3]) == Push(Push(Push(Push([], c0), c1), c2), c3)
  {
    CollectedPush([], c0);
    assert [] + [c0] == [c0];
    CollectedPush([c0], c1);
    assert [c0] + [c1] == [c0, c1];
    CollectedPush([c0, c1], c2);
    assert [c0, c1] + [c2] == [c0, c1, c2];
    CollectedPush([c0, c1, c2], c3);
    assert [c0, c1, c2] + [c3] == [c0, c1, c2, c3];
  }

  /** With distinct messages, a check's message is in the list exactly when
      that check fails. */
  lemma CollectedHas(checks: seq<Check>, k: nat)
    requires DistinctMessages(checks) && k < |checks|
    ensures checks[k].message in Collected(checks) <==> checks[k].fails
  {
    CollectedMembers(checks, checks[k].message);
  }
}
