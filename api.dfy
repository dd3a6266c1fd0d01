/**
 * The two `api_get` functions: one GET of the Vimeo API with its retry policy. The network
 * is a response source `respond`, where `respond(k)` is what the (k+1)-th request of the
 * call receives; sleeps are recorded as values instead of being performed.
 *
 * vimeo_folder_structure.py writes the retry loop by hand (FolderApiGet); in
 * vimeo_bulk_download.py it is a retry decorator allowing five attempts (BulkApiGet).
 */
module Api {
  import opened Wrappers

  /** The `Retry-After` header: absent, a value `int()` accepts, or one it rejects. */
  datatype RetryAfter = NoRetryAfter | RetryAfterValue(seconds: int) | RetryAfterMalformed

  /** What one request gets: a network-level exception, or a status, header and body (None: not JSON). */
  datatype Response<T> = NetworkError | Reply(status: int, retryAfter: RetryAfter, body: Option<T>)

  datatype ApiError =
    | Unauthorized          // 401 in the folder script
    | HttpError(status: int)
    | InvalidJson
    | NetworkFailure
    | RateLimited           // 429 in the bulk script, raised to trigger a retry
    | GaveUp                // the folder script's loop ran out of attempts
    | BadRetryAfter         // ValueError: `int()` rejected the header, or a negative sleep

  /** The outcome of one `api_get` call: its result, how many requests it made, what it slept. */
  datatype Call<T> = Call(result: Result<T, ApiError>, requests: nat, sleeps: seq<int>)

  const MaxAttempts := 5

  /** The seconds `int(headers.get("Retry-After", "5"))` yields, or None when it raises. */
  function RetryAfterSeconds(h: RetryAfter): Option<int> {
    match h
    case NoRetryAfter => Some(5)
    case RetryAfterValue(n) => Some(n)
    case RetryAfterMalformed => None
  }

  function Max(a: int, b: int): int {
    if a >= b then a else b
  }

  // ---------------------------------------------------------------------------
  // vimeo_folder_structure.py: a counted loop over attempts 1..maxAttempts

  /** The rest of the call from attempt `attempt` on, after sleeping `sleeps` so far. */
  function FolderFrom<T>(respond: nat -> Response<T>, maxAttempts: nat, attempt: nat, sleeps: seq<int>): Call<T>
    requires attempt >= 1
    decreases maxAttempts + 1 - attempt
  {
    if attempt > maxAttempts then Call(Failure(GaveUp), maxAttempts, sleeps)
    else
      match respond(attempt - 1)
      case NetworkError =>
        if attempt == maxAttempts then Call(Failure(NetworkFailure), attempt, sleeps)
        else FolderFrom(respond, maxAttempts, attempt + 1, sleeps + [attempt * 2])
      case Reply(status, retryAfter, body) =>
        if status == 429 then
          match RetryAfterSeconds(retryAfter)
          case None => Call(Failure(BadRetryAfter), attempt, sleeps)
          case Some(w) => FolderFrom(respond, maxAttempts, attempt + 1, sleeps + [Max(w, 1)])
        else if status == 401 then Call(Failure(Unauthorized), attempt, sleeps)
        else if status >= 400 then Call(Failure(HttpError(status)), attempt, sleeps)
        else if body.None? then Call(Failure(InvalidJson), attempt, sleeps)
        else Call(Success(body.value), attempt, sleeps)
  }

  function FolderApiGetSpec<T>(respond: nat -> Response<T>, maxAttempts: nat): Call<T> {
    FolderFrom(respond, maxAttempts, 1, [])
  }

  method FolderApiGet<T>(respond: nat -> Response<T>, maxAttempts: nat) returns (result: Result<T, ApiError>, requests: nat, sleeps: seq<int>)
    ensures Call(result, requests, sleeps) == FolderApiGetSpec(respond, maxAttempts)
  {
    sleeps := [];
    requests := 0;
    for attempt := 1 to maxAttempts + 1
      invariant requests == attempt - 1
      invariant FolderFrom(respond, maxAttempts, attempt, sleeps) == FolderApiGetSpec(respond, maxAttempts)
    {
      var response := respond(attempt - 1);
      requests := requests + 1;
      match response {
        case NetworkError =>
          if attempt == maxAttempts {
            result := Failure(NetworkFailure);
            return;
          }
          sleeps := sleeps + [attempt * 2];
        case Reply(status, retryAfter, body) =>
          if status == 429 {
            var wait := RetryAfterSeconds(retryAfter);
            if wait.None? {
              result := Failure(BadRetryAfter);
              return;
            }
            sleeps := sleeps + [Max(wait.value, 1)];
          } else if status == 401 {
            result := Failure(Unauthorized);
            return;
          } else if status >= 400 {
            result := Failure(HttpError(status));
            return;
          } else if body.None? {
            result := Failure(InvalidJson);
            return;
          } else {
            result := Success(body.value);
            return;
          }
      }
    }
    result := Failure(GaveUp);
  }

  /**
   * The attempt budget: between 1 and maxAttempts requests, a sleep of at least one second
   * after every request but the last, and after the last one too when the budget ran out.
   */
  lemma {:induction false} FolderBudget<T>(respond: nat -> Response<T>, maxAttempts: nat, attempt: nat, sleeps: seq<int>)
    requires 1 <= attempt && |sleeps| == attempt - 1
    requires attempt <= maxAttempts + 1
    ensures var c := FolderFrom(respond, maxAttempts, attempt, sleeps);
      && c.requests <= maxAttempts
      && (maxAttempts >= 1 ==> c.requests >= 1)
      && |c.sleeps| == (if c.result == Failure(GaveUp) then c.requests else c.requests - 1)
      && |sleeps| <= |c.sleeps| && c.sleeps[..|sleeps|] == sleeps
      && forall i :: |sleeps| <= i < |c.sleeps| ==> c.sleeps[i] >= 1
    decreases maxAttempts + 1 - attempt
  {
    if attempt <= maxAttempts {
      match respond(attempt - 1)
      case NetworkError =>
        if attempt < maxAttempts {
          FolderBudget(respond, maxAttempts, attempt + 1, sleeps + [attempt * 2]);
        }
      case Reply(status, retryAfter, body) =>
        if status == 429 && RetryAfterSeconds(retryAfter).Some? {
          FolderBudget(respond, maxAttempts, attempt + 1, sleeps + [Max(RetryAfterSeconds(retryAfter).value, 1)]);
        }
    }
  }

  /** The call returns only a JSON body received with a status below 400, on its last request. */
  lemma {:induction false} FolderSuccess<T>(respond: nat -> Response<T>, maxAttempts: nat, attempt: nat, sleeps: seq<int>)
    requires attempt >= 1
    ensures var c := FolderFrom(respond, maxAttempts, attempt, sleeps);
      c.result.Success? ==>
        c.requests >= 1 && respond(c.requests - 1).Reply? && respond(c.requests - 1).status < 400
        && respond(c.requests - 1).body == Some(c.result.value)
    decreases maxAttempts + 1 - attempt
  {
    if attempt <= maxAttempts {
      match respond(attempt - 1)
      case NetworkError =>
        if attempt < maxAttempts {
          FolderSuccess(respond, maxAttempts, attempt + 1, sleeps + [attempt * 2]);
        }
      case Reply(status, retryAfter, body) =>
        if status == 429 && RetryAfterSeconds(retryAfter).Some? {
          FolderSuccess(respond, maxAttempts, attempt + 1, sleeps + [Max(RetryAfterSeconds(retryAfter).value, 1)]);
        }
    }
  }

  /** A 401 is never retried: the call fails on that request. */
  lemma FolderUnauthorizedImmediately<T>(respond: nat -> Response<T>, maxAttempts: nat)
    requires maxAttempts >= 1 && respond(0).Reply? && respond(0).status == 401
    ensures FolderApiGetSpec(respond, maxAttempts) == Call(Failure(Unauthorized), 1, [])
  {
  }

  /** A reply the folder script retries: a network error, or a 429 with a readable Retry-After. */
  predicate FolderRetries<T>(r: Response<T>) {
    r.NetworkError? || (r.status == 429 && RetryAfterSeconds(r.retryAfter).Some?)
  }

  /** The sleep after a retried reply on attempt `attempt`: `attempt * 2`, or `max(Retry-After, 1)`. */
  function FolderWait<T>(r: Response<T>, attempt: nat): int
    requires FolderRetries(r)
  {
    if r.NetworkError? then attempt * 2 else Max(RetryAfterSeconds(r.retryAfter).value, 1)
  }

  /**
   * Every sleep of the call follows a retried reply and has the length that reply calls for,
   * whatever mix of network errors and 429s came before: sleep i follows request i.
   */
  lemma {:induction false} FolderSleepValues<T>(respond: nat -> Response<T>, maxAttempts: nat, attempt: nat, sleeps: seq<int>)
    requires 1 <= attempt <= maxAttempts + 1 && |sleeps| == attempt - 1
    ensures var c := FolderFrom(respond, maxAttempts, attempt, sleeps);
      && |sleeps| <= |c.sleeps| && c.sleeps[..|sleeps|] == sleeps
      && forall i :: |sleeps| <= i < |c.sleeps| ==>
           FolderRetries(respond(i)) && c.sleeps[i] == FolderWait(respond(i), i + 1)
    decreases maxAttempts + 1 - attempt
  {
    FolderBudget(respond, maxAttempts, attempt, sleeps);
    if attempt <= maxAttempts {
      var r := respond(attempt - 1);
      if FolderRetries(r) && (r.Reply? || attempt < maxAttempts) {
        var next := sleeps + [FolderWait(r, attempt)];
        FolderSleepValues(respond, maxAttempts, attempt + 1, next);
        FolderBudget(respond, maxAttempts, attempt + 1, next);
        var c := FolderFrom(respond, maxAttempts, attempt + 1, next);
        assert c.sleeps[|sleeps|] == next[|sleeps|];
      }
    }
  }

  /**
   * The first reply that is not retried decides the call, however many retries came before
   * it: a 401 is Unauthorized, any other status from 400 up an HTTP error, a body that is
   * not JSON InvalidJson, and otherwise the body is returned; that reply is the last request.
   */
  lemma {:induction false} FolderAnswerAfterRetries<T>(respond: nat -> Response<T>, maxAttempts: nat, attempt: nat,
                                                     sleeps: seq<int>, k: nat)
    requires 1 <= attempt <= k + 1 && k < maxAttempts
    requires forall j :: attempt - 1 <= j < k ==> FolderRetries(respond(j))
    requires respond(k).Reply? && respond(k).status != 429
    ensures var c := FolderFrom(respond, maxAttempts, attempt, sleeps);
      var r := respond(k);
      && c.requests == k + 1
      && |c.sleeps| == |sleeps| + k + 1 - attempt
      && (r.status == 401 ==> c.result == Failure(Unauthorized))
      && (r.status != 401 && r.status >= 400 ==> c.result == Failure(HttpError(r.status)))
      && (r.status < 400 && r.body.None? ==> c.result == Failure(InvalidJson))
      && (r.status < 400 && r.body.Some? ==> c.result == Success(r.body.value))
    decreases k + 1 - attempt
  {
    if attempt - 1 < k {
      match respond(attempt - 1)
      case NetworkError =>
        FolderAnswerAfterRetries(respond, maxAttempts, attempt + 1, sleeps + [attempt * 2], k);
      case Reply(_, retryAfter, _) =>
        var w := Max(RetryAfterSeconds(retryAfter).value, 1);
        FolderAnswerAfterRetries(respond, maxAttempts, attempt + 1, sleeps + [w], k);
    }
  }

  /** In particular a 401 after any number of retried replies ends the call on that request. */
  lemma FolderUnauthorizedAfterRetries<T>(respond: nat -> Response<T>, maxAttempts: nat, k: nat)
    requires k < maxAttempts
    requires forall j :: 0 <= j < k ==> FolderRetries(respond(j))
    requires respond(k).Reply? && respond(k).status == 401
    ensures FolderApiGetSpec(respond, maxAttempts).result == Failure(Unauthorized)
    ensures FolderApiGetSpec(respond, maxAttempts).requests == k + 1
  {
    FolderAnswerAfterRetries(respond, maxAttempts, 1, [], k);
  }

  /**
   * Rate limiting consumes the budget: when every reply is a 429 with a valid Retry-After,
   * the call makes exactly maxAttempts requests, sleeps max(Retry-After, 1) after each, and
   * gives up.
   */
  lemma {:induction false} FolderAllRateLimited<T>(respond: nat -> Response<T>, maxAttempts: nat, attempt: nat, sleeps: seq<int>)
    requires 1 <= attempt <= maxAttempts + 1
    requires forall k :: 0 <= k < maxAttempts ==>
      respond(k).Reply? && respond(k).status == 429 && RetryAfterSeconds(respond(k).retryAfter).Some?
    ensures FolderFrom(respond, maxAttempts, attempt, sleeps)
         == Call(Failure(GaveUp), maxAttempts, sleeps + RateLimitSleeps(respond, attempt - 1, maxAttempts))
    decreases maxAttempts + 1 - attempt
  {
    if attempt <= maxAttempts {
      var w := Max(RetryAfterSeconds(respond(attempt - 1).retryAfter).value, 1);
      FolderAllRateLimited(respond, maxAttempts, attempt + 1, sleeps + [w]);
      assert sleeps + [w] + RateLimitSleeps(respond, attempt, maxAttempts)
          == sleeps + ([w] + RateLimitSleeps(respond, attempt, maxAttempts));
    }
  }

  /** The sleeps for replies `lo` up to `hi` when each is a 429 with a valid Retry-After. */
  function RateLimitSleeps<T>(respond: nat -> Response<T>, lo: nat, hi: nat): seq<int>
    decreases if lo < hi then hi - lo else 0
  {
    if lo >= hi then []
    else
      var r := respond(lo);
      var w := if r.Reply? then RetryAfterSeconds(r.retryAfter).GetOr(5) else 5;
      [Max(w, 1)] + RateLimitSleeps(respond, lo + 1, hi)
  }

  /**
   * A network that never answers: maxAttempts requests, sleeps of 2, 4, ... seconds
   * between them, and NetworkFailure after the last.
   */
  lemma {:induction false} FolderAllNetworkErrors<T>(respond: nat -> Response<T>, maxAttempts: nat, attempt: nat, sleeps: seq<int>)
    requires 1 <= attempt <= maxAttempts
    requires forall k :: 0 <= k < maxAttempts ==> respond(k).NetworkError?
    ensures FolderFrom(respond, maxAttempts, attempt, sleeps)
         == Call(Failure(NetworkFailure), maxAttempts, sleeps + DoublingSleeps(attempt, maxAttempts))
    decreases maxAttempts - attempt
  {
    if attempt < maxAttempts {
      FolderAllNetworkErrors(respond, maxAttempts, attempt + 1, sleeps + [attempt * 2]);
      assert sleeps + [attempt * 2] + DoublingSleeps(attempt + 1, maxAttempts)
          == sleeps + ([attempt * 2] + DoublingSleeps(attempt + 1, maxAttempts));
    } else {
      assert sleeps + [] == sleeps;
    }
  }

  /** `attempt * 2` for each attempt from `lo` up to, not including, `hi`. */
  function DoublingSleeps(lo: nat, hi: nat): (r: seq<int>)
    ensures |r| == (if lo < hi then hi - lo else 0)
    ensures forall i :: 0 <= i < |r| ==> (r[i] == 2 * (lo + i))
    decreases if lo < hi then hi - lo else 0
  {
    if lo >= hi then [] else [lo * 2] + DoublingSleeps(lo + 1, hi)
  }

  // ---------------------------------------------------------------------------
  // vimeo_bulk_download.py: `raise_for_status` plus a retry decorator allowing five
  // attempts on any request exception or VimeoError, re-raising the last error

  /** What one attempt of the decorated function does. */
  datatype Attempt<T> = Returned(value: T) | Retryable(error: ApiError) | Fatal(error: ApiError)

  /** One attempt, and what it slept before raising (the 429 branch only). */
  function BulkAttempt<T>(r: Response<T>): (Attempt<T>, seq<int>) {
    match r
    case NetworkError => (Retryable(NetworkFailure), [])
    case Reply(status, retryAfter, body) =>
      if status == 429 then
        match RetryAfterSeconds(retryAfter)
        case None => (Fatal(BadRetryAfter), [])                  // int() raised ValueError
        case Some(w) =>
          if w < 0 then (Fatal(BadRetryAfter), [])               // time.sleep raised ValueError
          else (Retryable(RateLimited), [w])
      else if 400 <= status < 600 then (Retryable(HttpError(status)), [])
      else if body.None? then (Retryable(InvalidJson), [])       // a decode error is a request exception
      else (Returned(body.value), [])
  }

  function BulkFrom<T>(respond: nat -> Response<T>, attempt: nat, sleeps: seq<int>): Call<T>
    requires 1 <= attempt <= MaxAttempts
    decreases MaxAttempts - attempt
  {
    var (outcome, slept) := BulkAttempt(respond(attempt - 1));
    match outcome
    case Returned(v) => Call(Success(v), attempt, sleeps + slept)
    case Fatal(e) => Call(Failure(e), attempt, sleeps + slept)
    case Retryable(e) =>
      if attempt == MaxAttempts then Call(Failure(e), attempt, sleeps + slept)
      else BulkFrom(respond, attempt + 1, sleeps + slept)
  }

  /** The decorated call: one to five requests, and fewer only when one returned or failed for good. */
  function BulkApiGet<T>(respond: nat -> Response<T>): (c: Call<T>)
    ensures 1 <= c.requests <= MaxAttempts
    ensures c.requests < MaxAttempts ==> c.result.Success? || BulkAttempt(respond(c.requests - 1)).0.Fatal?
  {
    BulkBudget(respond, 1, []);
    BulkFrom(respond, 1, [])
  }

  /** At most five requests; success only from a JSON reply outside 400..599, on the last request. */
  lemma {:induction false} BulkBudget<T>(respond: nat -> Response<T>, attempt: nat, sleeps: seq<int>)
    requires 1 <= attempt <= MaxAttempts
    ensures var c := BulkFrom(respond, attempt, sleeps);
      && attempt <= c.requests <= MaxAttempts
      && (c.result.Success? ==>
            var r := respond(c.requests - 1);
            r.Reply? && !(400 <= r.status < 600) && r.status != 429 && r.body == Some(c.result.value))
      && (c.requests < MaxAttempts ==> c.result.Success? || BulkAttempt(respond(c.requests - 1)).0.Fatal?)
    decreases MaxAttempts - attempt
  {
    var (outcome, slept) := BulkAttempt(respond(attempt - 1));
    if outcome.Retryable? && attempt < MaxAttempts {
      BulkBudget(respond, attempt + 1, sleeps + slept);
    }
  }

  /**
   * Unlike the folder script, a 401 is retried like any HTTP error: a token that is always
   * rejected costs five requests before the error surfaces.
   */
  lemma {:induction false} BulkRetriesUnauthorized<T>(respond: nat -> Response<T>, attempt: nat, sleeps: seq<int>)
    requires 1 <= attempt <= MaxAttempts
    requires forall k :: 0 <= k < MaxAttempts ==> respond(k).Reply? && respond(k).status == 401
    ensures BulkFrom(respond, attempt, sleeps) == Call(Failure(HttpError(401)), MaxAttempts, sleeps)
    decreases MaxAttempts - attempt
  {
    if attempt < MaxAttempts {
      BulkRetriesUnauthorized(respond, attempt + 1, sleeps + []);
      assert sleeps + [] == sleeps;
    }
  }
}
