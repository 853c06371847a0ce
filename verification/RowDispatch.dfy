/**
 * Sending one row of a CSV run, with retries (radar-api/src/csv_runner.rs).
 *
 * A reply of the target and the result of each read of the job status are
 * inputs, indexed by the attempt they belong to.
 */
module RowDispatch {
  import opened Decimals
  import opened Options

  const MAX_ATTEMPTS: nat := 3

  datatype Reply = Status(code: nat) | NetworkError(text: string)

  // How the checks in front of the retry loop end.
  datatype Guard = NotAnObject | UrlBlocked | BadMethod(name: string) | Passed(retry: bool)

  const ALLOWED_METHODS: seq<string> := ["GET", "POST", "PUT", "PATCH", "DELETE", "HEAD"]

  // The checks in their order; `upper` is the method `name` in upper case.
  function Checked(isObject: bool, urlBlocked: bool, name: string, upper: string, enableRetry: bool): Guard {
    if !isObject then NotAnObject
    else if urlBlocked then UrlBlocked
    else if upper !in ALLOWED_METHODS then BadMethod(name)
    else Passed(upper == "GET" || upper == "HEAD" || enableRetry)
  }

  // Safe methods are always retried, the others only on request, and nothing else is sent.
  lemma RetriedExactly(isObject: bool, urlBlocked: bool, name: string, upper: string, enableRetry: bool)
    ensures var g := Checked(isObject, urlBlocked, name, upper, enableRetry);
            && (g == Passed(true)
                <==> && isObject && !urlBlocked
                     && (upper in {"GET", "HEAD"} || (enableRetry && upper in {"POST", "PUT", "PATCH", "DELETE"})))
            && (g == Passed(false)
                <==> isObject && !urlBlocked && !enableRetry && upper in {"POST", "PUT", "PATCH", "DELETE"})
  {
    assert "GET"[0] == 'G' && "HEAD"[0] == 'H' && "POST"[1] == 'O' && "PUT"[1] == 'U' && "PATCH"[1] == 'A'
        && "DELETE"[0] == 'D';
  }

  datatype RowOutcome = RowOutcome(rowNumber: int, httpStatus: Option<nat>, error: Option<string>)

  // A failed row: no usable answer, or a client or server error.
  predicate FailedRow(o: RowOutcome) {
    o.error.Some? || o.httpStatus.None? || o.httpStatus.value >= 400
  }

  function MaxAttempts(g: Guard): nat {
    match g
    case Passed(retry) => if retry then MAX_ATTEMPTS else 1
    case _ => 0
  }

  // A reply that ends the loop: anything but a server error or a broken connection.
  predicate Final(r: Reply) {
    r.Status? && r.code < 500
  }

  function ErrorText(r: Reply): string {
    match r
    case Status(code) => "HTTP " + Decimal(code)
    case NetworkError(text) => text
  }

  // Attempt `k` is made when every earlier one failed and no cancellation was
  // seen in front of a retry.
  ghost predicate Made(g: Guard, replies: nat -> Reply, cancelSeen: nat -> bool, k: nat) {
    && k < MaxAttempts(g)
    && (forall j: nat :: j < k ==> !Final(replies(j)))
    && (forall j: nat :: 0 < j <= k ==> !cancelSeen(j))
  }

  // The status kept from the last server error among the first `n` replies.
  function LastServerError(replies: nat -> Reply, n: nat): Option<nat> {
    if n == 0 then None
    else if replies(n - 1).Status? && replies(n - 1).code >= 500 then Some(replies(n - 1).code)
    else LastServerError(replies, n - 1)
  }

  lemma {:induction false} LastServerErrorMeans(replies: nat -> Reply, n: nat)
    requires forall k: nat :: k < n ==> !Final(replies(k))
    ensures var last := LastServerError(replies, n);
            && (last == None <==> forall k: nat :: k < n ==> replies(k).NetworkError?)
            && (last.Some? ==> exists k: nat :: k < n && replies(k) == Status(last.value)
                                 && forall j: nat :: k < j < n ==> replies(j).NetworkError?)
  {
    if n > 0 {
      LastServerErrorMeans(replies, n - 1);
      if replies(n - 1).Status? {
        assert replies(n - 1) == Status(replies(n - 1).code);
      }
    }
  }

  function GuardError(g: Guard): string
    requires !g.Passed?
  {
    match g
    case NotAnObject => "row is not an object"
    case UrlBlocked => "URL blocked by SSRF policy"
    case BadMethod(name) => "unsupported HTTP method: " + name
  }

  // Without retry there is one send; with retry up to three, each further one after a
  // network error or a status of 500 and above and no cancellation.
  lemma SendsMean(retry: bool, replies: nat -> Reply, cancelSeen: nat -> bool, sends: nat)
    requires forall k: nat :: k < sends <==> Made(Passed(retry), replies, cancelSeen, k)
    ensures !retry ==> sends == 1
    ensures retry ==> 1 <= sends <= 3
    ensures retry ==>
              (sends >= 2 <==> (replies(0).NetworkError? || replies(0).code >= 500) && !cancelSeen(1))
    ensures retry ==>
              (sends == 3 <==> sends >= 2 && (replies(1).NetworkError? || replies(1).code >= 500) && !cancelSeen(2))
  {
    var g := Passed(retry);
    assert Made(g, replies, cancelSeen, 0);
    assert 1 < sends <==> Made(g, replies, cancelSeen, 1);
    assert 2 < sends <==> Made(g, replies, cancelSeen, 2);
    assert !Made(g, replies, cancelSeen, 3);
    assert !(3 < sends);
  }

  // The row counts as failed exactly when it was not sent at all or its last
  // attempt was not answered with a status below 400. In particular a
  // cancellation seen between two attempts leaves the failure before it on
  // record, never the text "cancelled".
  method DispatchRow(rowNumber: int, g: Guard, replies: nat -> Reply, cancelSeen: nat -> bool)
    returns (outcome: RowOutcome, sends: nat)
    ensures outcome.rowNumber == rowNumber
    ensures forall k: nat :: k < sends <==> Made(g, replies, cancelSeen, k)
    ensures sends <= MaxAttempts(g) && (g.Passed? <==> sends >= 1)
    ensures FailedRow(outcome)
       <==> sends == 0 || !(replies(sends - 1).Status? && replies(sends - 1).code < 400)
    ensures !g.Passed? ==> outcome == RowOutcome(rowNumber, None, Some(GuardError(g)))
    ensures g.Passed? && Final(replies(sends - 1)) ==>
              outcome == RowOutcome(rowNumber, Some(replies(sends - 1).code), None)
    ensures g.Passed? && !Final(replies(sends - 1))
      ==> outcome == RowOutcome(rowNumber, LastServerError(replies, sends), Some(ErrorText(replies(sends - 1))))
    ensures g.Passed? && !g.retry ==> sends == 1
    ensures g.Passed? && g.retry ==> 1 <= sends <= 3
    ensures g.Passed? && g.retry ==>
              (sends >= 2 <==> (replies(0).NetworkError? || replies(0).code >= 500) && !cancelSeen(1))
    ensures g.Passed? && g.retry ==>
              (sends == 3 <==> sends >= 2 && (replies(1).NetworkError? || replies(1).code >= 500) && !cancelSeen(2))
    ensures outcome.error == None && outcome.httpStatus.Some? && outcome.httpStatus.value < 400
       <==> exists k: nat :: k < sends && replies(k).Status? && replies(k).code < 400
              && forall j: nat :: j < k ==> replies(j).NetworkError? || replies(j).code >= 500
    // Without a usable answer, the row keeps the last server error for its status and the
    // last reply for its error.
    ensures g.Passed? && (replies(sends - 1).NetworkError? || replies(sends - 1).code >= 500) ==>
              && outcome.error == Some(match replies(sends - 1)
                                       case Status(code) => "HTTP " + Decimal(code)
                                       case NetworkError(text) => text)
              && (outcome.httpStatus == None <==> forall k: nat :: k < sends ==> replies(k).NetworkError?)
              && (outcome.httpStatus.Some? ==>
                    exists k: nat :: k < sends && replies(k) == Status(outcome.httpStatus.value)
                      && forall j: nat :: k < j < sends ==> replies(j).NetworkError?)
  {
    sends := 0;
    if !g.Passed? {
      outcome := RowOutcome(rowNumber, None, Some(GuardError(g)));
      return;
    }
    var maxAttempts := if g.retry then MAX_ATTEMPTS else 1;
    var lastStatus: Option<nat> := None;
    var lastError: Option<string> := None;
    var attempt := 0;
    while attempt < maxAttempts
      invariant attempt <= maxAttempts && sends == attempt
      invariant forall k: nat :: k < attempt ==> Made(g, replies, cancelSeen, k)
      invariant forall k: nat :: k < attempt ==> !Final(replies(k))
      invariant lastStatus == LastServerError(replies, attempt)
      invariant lastError == if attempt == 0 then None else Some(ErrorText(replies(attempt - 1)))
    {
      if attempt > 0 {
        if cancelSeen(attempt) {
          if lastError == None {
            lastError := Some("cancelled");
          }
          break;
        }
      }
      assert Made(g, replies, cancelSeen, attempt) by {
        if attempt > 0 { assert Made(g, replies, cancelSeen, attempt - 1); }
      }
      sends := sends + 1;
      match replies(attempt) {
        case Status(code) =>
          if code >= 500 {
            lastStatus := Some(code);
            lastError := Some("HTTP " + Decimal(code));
          } else {
            assert !Made(g, replies, cancelSeen, sends);
            SendsMean(g.retry, replies, cancelSeen, sends);
            return RowOutcome(rowNumber, Some(code), None), sends;
          }
        case NetworkError(text) =>
          lastError := Some(text);
      }
      attempt := attempt + 1;
    }
    outcome := RowOutcome(rowNumber, lastStatus, lastError);
    assert !Made(g, replies, cancelSeen, sends);
    SendsMean(g.retry, replies, cancelSeen, sends);
    LastServerErrorMeans(replies, sends);
  }
}
