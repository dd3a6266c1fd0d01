/**
 * `download_file` (vimeo_bulk_download.py): a streamed download that resumes a partial
 * file. Each attempt asks for the bytes after the ones already on disk (a `Range` header
 * and append mode when the file is not empty), recovers from a rejected range by deleting
 * the file, and retries request errors with a capped linear backoff.
 *
 * The local file is its contents (a missing file and an empty one behave alike here); the
 * server is a response source `respond`, where `respond(k)` answers the (k+1)-th request;
 * sleeps are recorded as values.
 */
module Download {
  import opened Wrappers
  import opened Text

  newtype Byte = b: int | 0 <= b < 256

  /**
   * What one request gets: an exception before any response (timeout, connection error),
   * or a status, the `Content-Length` header, the body's chunks and whether the stream
   * broke off after them.
   */
  datatype DlResponse =
    | ConnectFailed
    | DlReply(status: int, contentLength: Option<string>, chunks: seq<seq<Byte>>, interrupted: bool)

  /** One request as sent: the resume position, the `Range` header and the file mode. */
  datatype DlRequest = DlRequest(resumeFrom: nat, range: Option<string>, append: bool)

  /** The request exceptions `download_file` catches. */
  datatype DlError = ConnectionFailed | HttpStatus(status: int) | StreamInterrupted

  /**
   * Returned (with the progress bar's total), re-raised the last error, RuntimeError, or
   * the ValueError of `int(content_length)`, which no `except` of the call catches.
   */
  datatype DlOutcome = Done(total: Option<int>) | Raised(error: DlError) | Exhausted | BadLength

  datatype Download = Download(outcome: DlOutcome, file: seq<Byte>, requests: seq<DlRequest>, sleeps: seq<int>)

  const DefaultMaxAttempts := 5
  const Backoff := 5
  const MaxWait := 60

  // ---------------------------------------------------------------------------
  // Decimal numerals: `str(resume_pos)` in the Range header, `int(content_length)`

  predicate IsDigit(c: char) {
    '0' <= c <= '9'
  }

  /** Not empty, and ASCII digits only: the numerals `int` reads. */
  predicate AllDigits(s: string) {
    s != [] && forall i :: 0 <= i < |s| ==> IsDigit(s[i])
  }

  /**
   * `str.isdigit` on one character of ASCII or Latin-1 (header values arrive decoded as
   * Latin-1): the ASCII digits and the superscripts two, three and one.
   */
  predicate IsDigitChar(c: char) {
    IsDigit(c) || c == '\U{B2}' || c == '\U{B3}' || c == '\U{B9}'
  }

  /** `s.isdigit()`: not empty, and every character passes `str.isdigit`. */
  predicate PassesIsDigit(s: string) {
    s != [] && forall i :: 0 <= i < |s| ==> IsDigitChar(s[i])
  }

  /** The header passes `isdigit` yet `int` cannot read it: it holds a superscript digit. */
  predicate IntRaises(contentLength: Option<string>) {
    contentLength.Some? && PassesIsDigit(contentLength.value) && !AllDigits(contentLength.value)
  }

  lemma SuperscriptLengthRaises()
    ensures IntRaises(Some("\U{B2}")) && IntRaises(Some("1\U{B9}"))
    ensures !IntRaises(Some("1024")) && !IntRaises(Some("-1"))
  {
    assert !IsDigit("\U{B2}"[0]);
    assert !IsDigit("1\U{B9}"[1]);
    assert !IsDigitChar("-1"[0]);
  }

  function Decimal(s: string): nat
    requires forall i :: 0 <= i < |s| ==> IsDigit(s[i])
  {
    if s == [] then 0
    else
      assert IsDigit(s[|s| - 1]);
      Decimal(s[..|s| - 1]) * 10 + (s[|s| - 1] as int - '0' as int)
  }

  function Digits(n: nat): (s: string)
    ensures AllDigits(s)
  {
    var d := ['0' + (n % 10) as char];
    if n < 10 then d else Digits(n / 10) + d
  }

  lemma {:induction false} DecimalOfDigits(n: nat)
    ensures Decimal(Digits(n)) == n
  {
    if n >= 10 {
      DecimalOfDigits(n / 10);
      var s := Digits(n);
      assert s[..|s| - 1] == Digits(n / 10);
    }
  }

  /** `resume_pos + int(content_length)` when the header is all digits, else None. */
  function ExpectedTotal(resume: nat, contentLength: Option<string>): (r: Option<int>)
    ensures r.Some? <==> contentLength.Some? && AllDigits(contentLength.value)
    ensures r.Some? ==> r.value >= resume
  {
    if contentLength.Some? && AllDigits(contentLength.value) then Some(resume + Decimal(contentLength.value))
    else None
  }

  lemma {:induction false} DecimalOfZeros(k: nat)
    ensures Decimal(Repeat('0', k)) == 0
  {
    if k > 0 {
      assert Repeat('0', k)[..k - 1] == Repeat('0', k - 1);
      DecimalOfZeros(k - 1);
    }
  }

  /** Leading zeros do not change the value a numeral reads as. */
  lemma {:induction false} DecimalIgnoresZeros(k: nat, s: string)
    requires forall i :: 0 <= i < |s| ==> IsDigit(s[i])
    ensures Decimal(Repeat('0', k) + s) == Decimal(s)
    decreases |s|
  {
    var z := Repeat('0', k) + s;
    if s == [] {
      assert z == Repeat('0', k);
      DecimalOfZeros(k);
    } else {
      assert z[..|z| - 1] == Repeat('0', k) + s[..|s| - 1];
      DecimalIgnoresZeros(k, s[..|s| - 1]);
    }
  }

  /** A numeral with a non-zero first digit reads as at least 1. */
  lemma {:induction false} DecimalPositive(s: string)
    requires AllDigits(s) && s[0] != '0'
    ensures Decimal(s) >= 1
    decreases |s|
  {
    if |s| > 1 {
      DecimalPositive(s[..|s| - 1]);
    }
  }

  /** A numeral without leading zeros is the one Digits writes for its value. */
  lemma {:induction false} DigitsOfDecimal(s: string)
    requires AllDigits(s) && (s[0] != '0' || |s| == 1)
    ensures Digits(Decimal(s)) == s
    decreases |s|
  {
    if |s| > 1 {
      var p := s[..|s| - 1];
      DecimalPositive(p);
      DigitsOfDecimal(p);
      assert s == p + [s[|s| - 1]];
    }
  }

  /** How many zeros lead the numeral, leaving at least its last digit. */
  function LeadingZeros(s: string): (k: nat)
    requires s != []
    ensures k < |s| && (s[k] != '0' || k == |s| - 1)
    ensures forall i :: 0 <= i < k ==> s[i] == '0'
    decreases |s|
  {
    if |s| > 1 && s[0] == '0' then
      var k := 1 + LeadingZeros(s[1..]);
      assert forall i :: 1 <= i < k ==> s[i] == s[1..][i - 1];
      k
    else 0
  }

  /** Every numeral `int` reads is the canonical one of its value after some leading zeros. */
  lemma NumeralForm(s: string)
    requires AllDigits(s)
    ensures exists k: nat :: s == Repeat('0', k) + Digits(Decimal(s))
  {
    var k := LeadingZeros(s);
    var t := s[k..];
    assert s == Repeat('0', k) + t;
    DecimalIgnoresZeros(k, t);
    DigitsOfDecimal(t);
    assert s == Repeat('0', k) + Digits(Decimal(s));
  }

  /**
   * The total is the bytes on disk plus the announced length, however many leading zeros
   * the header carries (NumeralForm: every all-digit header has this form).
   */
  lemma ExpectedTotalOfLength(resume: nat, k: nat, n: nat)
    ensures ExpectedTotal(resume, Some(Repeat('0', k) + Digits(n))) == Some(resume + n)
  {
    var s := Repeat('0', k) + Digits(n);
    assert AllDigits(s) by {
      forall i | 0 <= i < |s| ensures IsDigit(s[i]) {
        if i >= k {
          assert s[i] == Digits(n)[i - k];
        }
      }
    }
    DecimalIgnoresZeros(k, Digits(n));
    DecimalOfDigits(n);
  }

  /** The position a `bytes=<n>-` header asks for, read back. */
  function RangeStart(h: string): Option<nat> {
    if |h| >= 7 && h[..6] == "bytes=" && h[|h| - 1] == '-' && AllDigits(h[6..|h| - 1])
    then Some(Decimal(h[6..|h| - 1]))
    else None
  }

  // ---------------------------------------------------------------------------
  // One attempt

  /** The request for a file of `resume` bytes: a Range header and append mode exactly when it is not empty. */
  function RequestFor(resume: nat): (r: DlRequest)
    ensures r.resumeFrom == resume
    ensures r.append <==> resume > 0
    ensures r.range.Some? <==> resume > 0
    ensures r.range.Some? ==> RangeStart(r.range.value) == Some(resume)
  {
    if resume > 0 then
      var h := "bytes=" + Digits(resume) + "-";
      assert h[6..|h| - 1] == Digits(resume);
      DecimalOfDigits(resume);
      DlRequest(resume, Some(h), true)
    else DlRequest(0, None, false)
  }

  /** `raise_for_status` raises: a client or server error. */
  predicate RaisesForStatus(status: int) {
    400 <= status < 600
  }

  /** A 416 to a resumed request: the bytes on disk are not a prefix the server can continue. */
  predicate RangeRejected(r: DlResponse, file: seq<Byte>) {
    r.DlReply? && r.status == 416 && |file| > 0
  }

  /** The chunks of a stream, in order; empty chunks add nothing. */
  function Flatten(chunks: seq<seq<Byte>>): seq<Byte> {
    if chunks == [] then [] else Flatten(chunks[..|chunks| - 1]) + chunks[|chunks| - 1]
  }

  datatype Step =
    | Restart
    | Finished(file: seq<Byte>, total: Option<int>)
    | Failed(file: seq<Byte>, error: DlError)
    | Aborted(file: seq<Byte>)

  /**
   * What one attempt does to a file holding `file`: a 416 to a resumed request restarts,
   * a ValueError leaves the file alone, an HTTP error fails before writing, and otherwise
   * the bytes received go after the ones kept (all of them when resuming); the call
   * finishes unless the stream broke off.
   */
  function AttemptStep(r: DlResponse, file: seq<Byte>): (step: Step)
    ensures step.Restart? <==> RangeRejected(r, file)
    ensures step.Aborted? ==> step.file == file
    ensures step.Failed? && !step.error.StreamInterrupted? ==> step.file == file
    ensures step.Failed? && step.error.HttpStatus? ==> RaisesForStatus(step.error.status)
    ensures step.Finished? ==> r.DlReply? && !r.interrupted && !IntRaises(r.contentLength)
  {
    var resume := |file|;
    match r
    case ConnectFailed => Failed(file, ConnectionFailed)
    case DlReply(status, contentLength, chunks, interrupted) =>
      if status == 416 && resume > 0 then Restart
      else if status != 200 && status != 206 && RaisesForStatus(status) then Failed(file, HttpStatus(status))
      else if IntRaises(contentLength) then Aborted(file)                  // before `open(dest, mode)`
      else
        var written := (if resume > 0 then file else []) + Flatten(chunks);   // 'ab' or 'wb'
        if interrupted then Failed(written, StreamInterrupted)
        else Finished(written, ExpectedTotal(resume, contentLength))
  }

  /** `min(backoff * attempt, 60)`: the wait after the `attempt`-th failed request. */
  function RetryWait(attempt: nat): (w: int)
    ensures attempt >= 1 ==> Backoff <= w <= MaxWait
    ensures attempt * Backoff <= MaxWait ==> w == attempt * Backoff
    ensures attempt * Backoff > MaxWait ==> w == MaxWait
  {
    if Backoff * attempt <= MaxWait then Backoff * attempt else MaxWait
  }

  // ---------------------------------------------------------------------------
  // The attempt loop

  /** The rest of the call from attempt `attempt` (counted from 0) on. */
  function DownloadFrom(respond: nat -> DlResponse, maxAttempts: nat, attempt: nat, file: seq<Byte>,
                        requests: seq<DlRequest>, sleeps: seq<int>): Download
    decreases maxAttempts - attempt
  {
    if attempt >= maxAttempts then Download(Exhausted, file, requests, sleeps)
    else
      var sent := requests + [RequestFor(|file|)];
      match AttemptStep(respond(attempt), file)
      case Restart => DownloadFrom(respond, maxAttempts, attempt + 1, [], sent, sleeps + [Backoff])
      case Finished(written, total) => Download(Done(total), written, sent, sleeps)
      case Aborted(kept) => Download(BadLength, kept, sent, sleeps)
      case Failed(written, e) =>
        if attempt + 1 >= maxAttempts then Download(Raised(e), written, sent, sleeps)
        else DownloadFrom(respond, maxAttempts, attempt + 1, written, sent, sleeps + [RetryWait(attempt + 1)])
  }

  function DownloadSpec(respond: nat -> DlResponse, maxAttempts: nat, initial: seq<Byte>): Download {
    DownloadFrom(respond, maxAttempts, 0, initial, [], [])
  }

  method DownloadFile(respond: nat -> DlResponse, maxAttempts: nat, initial: seq<Byte>) returns (d: Download)
    ensures d == DownloadSpec(respond, maxAttempts, initial)
  {
    var attempt := 0;
    var file := initial;
    var requests: seq<DlRequest> := [];
    var sleeps: seq<int> := [];
    while attempt < maxAttempts
      invariant attempt <= maxAttempts
      invariant DownloadFrom(respond, maxAttempts, attempt, file, requests, sleeps) == DownloadSpec(respond, maxAttempts, initial)
      decreases maxAttempts - attempt
    {
      ghost var step := AttemptStep(respond(attempt), file);
      var resumePos := |file|;
      var append := resumePos > 0;
      var range: Option<string> := None;
      if resumePos > 0 {
        range := Some("bytes=" + Digits(resumePos) + "-");
      }
      requests := requests + [DlRequest(resumePos, range, append)];
      var failure: DlError;
      match respond(attempt) {
        case ConnectFailed =>
          failure := ConnectionFailed;
        case DlReply(status, contentLength, chunks, interrupted) =>
          if status == 416 && resumePos > 0 {
            assert step == Restart;
            file := [];                        // dest.unlink(missing_ok=True)
            attempt := attempt + 1;
            sleeps := sleeps + [Backoff];
            continue;
          }
          if status != 200 && status != 206 && RaisesForStatus(status) {
            failure := HttpStatus(status);
          } else if IntRaises(contentLength) {
            assert step == Aborted(file);
            return Download(BadLength, file, requests, sleeps);
          } else {
            var total := ExpectedTotal(resumePos, contentLength);
            if !append {
              file := [];
            }
            file := WriteChunks(file, chunks);
            if !interrupted {
              assert step == Finished(file, total);
              return Download(Done(total), file, requests, sleeps);
            }
            failure := StreamInterrupted;
          }
      }
      assert step == Failed(file, failure);
      attempt := attempt + 1;
      if attempt >= maxAttempts {
        return Download(Raised(failure), file, requests, sleeps);
      }
      sleeps := sleeps + [RetryWait(attempt)];
    }
    d := Download(Exhausted, file, requests, sleeps);
  }

  /** `for chunk in r.iter_content(...)`: every non-empty chunk is written after the ones before it. */
  method WriteChunks(file: seq<Byte>, chunks: seq<seq<Byte>>) returns (written: seq<Byte>)
    ensures written == file + Flatten(chunks)
  {
    written := file;
    for c := 0 to |chunks|
      invariant written == file + Flatten(chunks[..c])
    {
      assert chunks[..c + 1][..c] == chunks[..c];
      if chunks[c] == [] {
        assert written + chunks[c] == written;
        continue;
      }
      written := written + chunks[c];
    }
    assert chunks[..|chunks|] == chunks;
  }

  // ---------------------------------------------------------------------------
  // Properties

  /** The file one attempt leaves behind, whatever it does next. */
  function FileAfter(r: DlResponse, file: seq<Byte>): seq<Byte> {
    match AttemptStep(r, file)
    case Restart => []
    case Finished(f, _) => f
    case Failed(f, _) => f
    case Aborted(f) => f
  }

  /** The file at the start of attempt `i`, had attempts 0..i-1 all been retried. */
  ghost function FileBefore(respond: nat -> DlResponse, initial: seq<Byte>, i: nat): seq<Byte> {
    if i == 0 then initial else FileAfter(respond(i - 1), FileBefore(respond, initial, i - 1))
  }

  /** The wait recorded after attempt `i`: the fixed backoff after a rejected range, else the linear one. */
  ghost function SleepAfter(respond: nat -> DlResponse, initial: seq<Byte>, i: nat): int {
    if RangeRejected(respond(i), FileBefore(respond, initial, i)) then Backoff else RetryWait(i + 1)
  }

  /** One attempt of the call: either the call goes on from the next attempt, or it ends with this one. */
  lemma DownloadFromNext(respond: nat -> DlResponse, maxAttempts: nat, attempt: nat, file: seq<Byte>,
                         requests: seq<DlRequest>, sleeps: seq<int>)
    requires attempt < maxAttempts
    ensures var step := AttemptStep(respond(attempt), file);
      var sent := requests + [RequestFor(|file|)];
      var d := DownloadFrom(respond, maxAttempts, attempt, file, requests, sleeps);
      && (step.Restart? ==> d == DownloadFrom(respond, maxAttempts, attempt + 1, [], sent, sleeps + [Backoff]))
      && (step.Failed? && attempt + 1 < maxAttempts ==>
            d == DownloadFrom(respond, maxAttempts, attempt + 1, step.file, sent, sleeps + [RetryWait(attempt + 1)]))
      && (!step.Restart? && !(step.Failed? && attempt + 1 < maxAttempts) ==>
            d.requests == sent && d.sleeps == sleeps && d.file == FileAfter(respond(attempt), file))
  {
  }

  /**
   * The attempt budget: at most maxAttempts requests, and the error is re-raised or the
   * RuntimeError raised only once the budget is spent.
   */
  lemma {:induction false} DownloadBudget(respond: nat -> DlResponse, maxAttempts: nat, attempt: nat, file: seq<Byte>,
                                          requests: seq<DlRequest>, sleeps: seq<int>)
    requires attempt <= maxAttempts && |requests| == attempt
    ensures var d := DownloadFrom(respond, maxAttempts, attempt, file, requests, sleeps);
      && attempt <= |d.requests| <= maxAttempts
      && (d.outcome.Raised? || d.outcome.Exhausted? ==> |d.requests| == maxAttempts)
    decreases maxAttempts - attempt
  {
    if attempt < maxAttempts {
      var sent := requests + [RequestFor(|file|)];
      var step := AttemptStep(respond(attempt), file);
      DownloadFromNext(respond, maxAttempts, attempt, file, requests, sleeps);
      if step.Restart? {
        DownloadBudget(respond, maxAttempts, attempt + 1, [], sent, sleeps + [Backoff]);
      } else if step.Failed? && attempt + 1 < maxAttempts {
        DownloadBudget(respond, maxAttempts, attempt + 1, step.file, sent, sleeps + [RetryWait(attempt + 1)]);
      }
    }
  }

  /**
   * A wait follows every request but the last, and the last one too when the budget ran
   * out (the wait after a rejected range).
   */
  lemma {:induction false} DownloadSleepCount(respond: nat -> DlResponse, maxAttempts: nat, attempt: nat, file: seq<Byte>,
                                              requests: seq<DlRequest>, sleeps: seq<int>)
    requires attempt <= maxAttempts && |requests| == attempt && |sleeps| == attempt
    ensures var d := DownloadFrom(respond, maxAttempts, attempt, file, requests, sleeps);
      |d.sleeps| == (if d.outcome.Exhausted? then |d.requests| else |d.requests| - 1)
    decreases maxAttempts - attempt
  {
    if attempt < maxAttempts {
      var sent := requests + [RequestFor(|file|)];
      var step := AttemptStep(respond(attempt), file);
      DownloadFromNext(respond, maxAttempts, attempt, file, requests, sleeps);
      if step.Restart? {
        DownloadSleepCount(respond, maxAttempts, attempt + 1, [], sent, sleeps + [Backoff]);
      } else if step.Failed? && attempt + 1 < maxAttempts {
        DownloadSleepCount(respond, maxAttempts, attempt + 1, step.file, sent, sleeps + [RetryWait(attempt + 1)]);
      }
    }
  }

  /**
   * The requests and waits so far are kept, and every wait the rest of the call adds lies
   * between 5 and 60 seconds.
   */
  lemma {:induction false} DownloadWaits(respond: nat -> DlResponse, maxAttempts: nat, attempt: nat, file: seq<Byte>,
                                         requests: seq<DlRequest>, sleeps: seq<int>)
    requires attempt <= maxAttempts && |requests| == attempt && |sleeps| == attempt
    ensures var d := DownloadFrom(respond, maxAttempts, attempt, file, requests, sleeps);
      && attempt <= |d.requests| && d.requests[..attempt] == requests
      && (forall i :: 0 <= i < attempt && i < |d.sleeps| ==> d.sleeps[i] == sleeps[i])
      && forall i :: attempt <= i < |d.sleeps| ==> Backoff <= d.sleeps[i] <= MaxWait
    decreases maxAttempts - attempt
  {
    if attempt < maxAttempts {
      var sent := requests + [RequestFor(|file|)];
      var step := AttemptStep(respond(attempt), file);
      DownloadFromNext(respond, maxAttempts, attempt, file, requests, sleeps);
      if step.Restart? || (step.Failed? && attempt + 1 < maxAttempts) {
        var f := if step.Restart? then [] else step.file;
        var next := sleeps + [if step.Restart? then Backoff else RetryWait(attempt + 1)];
        DownloadWaits(respond, maxAttempts, attempt + 1, f, sent, next);
        var d := DownloadFrom(respond, maxAttempts, attempt + 1, f, sent, next);
        assert d.requests[..attempt] == d.requests[..attempt + 1][..attempt];
        forall i | 0 <= i < attempt && i < |d.sleeps| ensures d.sleeps[i] == sleeps[i] {
          assert d.sleeps[i] == next[i];
        }
      }
    }
  }

  /** Request `i` resumes from the file as attempts 0..i-1 left it. */
  ghost predicate RequestsMatch(respond: nat -> DlResponse, initial: seq<Byte>, requests: seq<DlRequest>) {
    forall i :: 0 <= i < |requests| ==> requests[i] == RequestFor(|FileBefore(respond, initial, i)|)
  }

  /** Wait `i` is the one attempt `i` calls for. */
  ghost predicate SleepsMatch(respond: nat -> DlResponse, initial: seq<Byte>, sleeps: seq<int>) {
    forall i :: 0 <= i < |sleeps| ==> sleeps[i] == SleepAfter(respond, initial, i)
  }

  lemma RequestsMatchExtend(respond: nat -> DlResponse, initial: seq<Byte>, requests: seq<DlRequest>)
    requires RequestsMatch(respond, initial, requests)
    ensures RequestsMatch(respond, initial, requests + [RequestFor(|FileBefore(respond, initial, |requests|)|)])
  {
    var sent := requests + [RequestFor(|FileBefore(respond, initial, |requests|)|)];
    forall i | 0 <= i < |sent| ensures sent[i] == RequestFor(|FileBefore(respond, initial, i)|) {
      if i < |requests| { assert sent[i] == requests[i]; }
    }
  }

  lemma SleepsMatchExtend(respond: nat -> DlResponse, initial: seq<Byte>, sleeps: seq<int>)
    requires SleepsMatch(respond, initial, sleeps)
    ensures SleepsMatch(respond, initial, sleeps + [SleepAfter(respond, initial, |sleeps|)])
  {
    var slept := sleeps + [SleepAfter(respond, initial, |sleeps|)];
    forall i | 0 <= i < |slept| ensures slept[i] == SleepAfter(respond, initial, i) {
      if i < |sleeps| { assert slept[i] == sleeps[i]; }
    }
  }

  /** Every request of the call resumes from the file as the attempts before it left it. */
  lemma {:induction false} RequestsHistory(respond: nat -> DlResponse, maxAttempts: nat, initial: seq<Byte>, attempt: nat,
                                           file: seq<Byte>, requests: seq<DlRequest>, sleeps: seq<int>)
    requires attempt <= maxAttempts && |requests| == attempt
    requires file == FileBefore(respond, initial, attempt)
    requires RequestsMatch(respond, initial, requests)
    ensures RequestsMatch(respond, initial, DownloadFrom(respond, maxAttempts, attempt, file, requests, sleeps).requests)
    decreases maxAttempts - attempt
  {
    if attempt < maxAttempts {
      var sent := requests + [RequestFor(|file|)];
      var step := AttemptStep(respond(attempt), file);
      var next := FileAfter(respond(attempt), file);
      assert FileBefore(respond, initial, attempt + 1) == next;
      RequestsMatchExtend(respond, initial, requests);
      DownloadFromNext(respond, maxAttempts, attempt, file, requests, sleeps);
      if step.Restart? {
        RequestsHistory(respond, maxAttempts, initial, attempt + 1, next, sent, sleeps + [Backoff]);
      } else if step.Failed? && attempt + 1 < maxAttempts {
        RequestsHistory(respond, maxAttempts, initial, attempt + 1, next, sent, sleeps + [RetryWait(attempt + 1)]);
      }
    }
  }

  /** Every wait of the call is the one its attempt calls for. */
  lemma {:induction false} SleepsHistory(respond: nat -> DlResponse, maxAttempts: nat, initial: seq<Byte>, attempt: nat,
                                         file: seq<Byte>, requests: seq<DlRequest>, sleeps: seq<int>)
    requires attempt <= maxAttempts && |sleeps| == attempt
    requires file == FileBefore(respond, initial, attempt)
    requires SleepsMatch(respond, initial, sleeps)
    ensures SleepsMatch(respond, initial, DownloadFrom(respond, maxAttempts, attempt, file, requests, sleeps).sleeps)
    decreases maxAttempts - attempt
  {
    if attempt < maxAttempts {
      var sent := requests + [RequestFor(|file|)];
      var step := AttemptStep(respond(attempt), file);
      var next := FileAfter(respond(attempt), file);
      assert FileBefore(respond, initial, attempt + 1) == next;
      DownloadFromNext(respond, maxAttempts, attempt, file, requests, sleeps);
      if step.Restart? || (step.Failed? && attempt + 1 < maxAttempts) {
        assert SleepAfter(respond, initial, attempt) == if step.Restart? then Backoff else RetryWait(attempt + 1);
        SleepsMatchExtend(respond, initial, sleeps);
        SleepsHistory(respond, maxAttempts, initial, attempt + 1, next, sent, sleeps + [SleepAfter(respond, initial, attempt)]);
      }
    }
  }

  /** The file at the end of the call is the one its last attempt left. */
  lemma {:induction false} FileHistory(respond: nat -> DlResponse, maxAttempts: nat, initial: seq<Byte>, attempt: nat,
                                       file: seq<Byte>, requests: seq<DlRequest>, sleeps: seq<int>)
    requires attempt <= maxAttempts && |requests| == attempt
    requires file == FileBefore(respond, initial, attempt)
    ensures var d := DownloadFrom(respond, maxAttempts, attempt, file, requests, sleeps);
      d.file == FileBefore(respond, initial, |d.requests|)
    decreases maxAttempts - attempt
  {
    if attempt < maxAttempts {
      var sent := requests + [RequestFor(|file|)];
      var step := AttemptStep(respond(attempt), file);
      var next := FileAfter(respond(attempt), file);
      assert FileBefore(respond, initial, attempt + 1) == next;
      DownloadFromNext(respond, maxAttempts, attempt, file, requests, sleeps);
      if step.Restart? {
        FileHistory(respond, maxAttempts, initial, attempt + 1, next, sent, sleeps + [Backoff]);
      } else if step.Failed? && attempt + 1 < maxAttempts {
        FileHistory(respond, maxAttempts, initial, attempt + 1, next, sent, sleeps + [RetryWait(attempt + 1)]);
      }
    }
  }

  /** The whole call as the history describes it. */
  lemma DownloadSpecHistory(respond: nat -> DlResponse, maxAttempts: nat, initial: seq<Byte>)
    ensures var d := DownloadSpec(respond, maxAttempts, initial);
      && |d.requests| <= maxAttempts
      && (forall i :: 0 <= i < |d.requests| ==> d.requests[i] == RequestFor(|FileBefore(respond, initial, i)|))
      && (forall i :: 0 <= i < |d.sleeps| ==> d.sleeps[i] == SleepAfter(respond, initial, i))
      && d.file == FileBefore(respond, initial, |d.requests|)
  {
    DownloadBudget(respond, maxAttempts, 0, initial, [], []);
    DownloadSleepCount(respond, maxAttempts, 0, initial, [], []);
    RequestsHistory(respond, maxAttempts, initial, 0, initial, [], []);
    SleepsHistory(respond, maxAttempts, initial, 0, initial, [], []);
    FileHistory(respond, maxAttempts, initial, 0, initial, [], []);
  }

  /** The bytes an attempt adds to the file, when it is not a rejected range. */
  function Received(r: DlResponse): seq<Byte> {
    if r.DlReply? && !(r.status != 200 && r.status != 206 && RaisesForStatus(r.status)) && !IntRaises(r.contentLength)
    then Flatten(r.chunks)
    else []
  }

  ghost function ReceivedBefore(respond: nat -> DlResponse, n: nat): seq<Byte> {
    if n == 0 then [] else ReceivedBefore(respond, n - 1) + Received(respond(n - 1))
  }

  /** No range was rejected in attempts 0..n-1. */
  ghost predicate NoneRejected(respond: nat -> DlResponse, initial: seq<Byte>, n: nat) {
    n == 0 || (NoneRejected(respond, initial, n - 1) && !RangeRejected(respond(n - 1), FileBefore(respond, initial, n - 1)))
  }

  /** An attempt keeps the bytes on disk and appends what it received, unless its range is rejected. */
  lemma FileAfterAppends(r: DlResponse, file: seq<Byte>)
    ensures FileAfter(r, file) == if RangeRejected(r, file) then [] else file + Received(r)
  {
    if |file| == 0 {
      assert file == [];
    }
  }

  /**
   * Resuming keeps every byte: until a range is rejected, the file is what was on disk at
   * the start followed by everything every attempt received, interrupted streams included,
   * in order.
   */
  lemma {:induction false} ResumeKeepsBytes(respond: nat -> DlResponse, initial: seq<Byte>, n: nat)
    requires NoneRejected(respond, initial, n)
    ensures FileBefore(respond, initial, n) == initial + ReceivedBefore(respond, n)
  {
    if n == 0 {
      assert initial + [] == initial;
    } else {
      ResumeKeepsBytes(respond, initial, n - 1);
      var file := FileBefore(respond, initial, n - 1);
      assert FileBefore(respond, initial, n) == FileAfter(respond(n - 1), file);
      FileAfterAppends(respond(n - 1), file);
      assert ReceivedBefore(respond, n) == ReceivedBefore(respond, n - 1) + Received(respond(n - 1));
      assert initial + ReceivedBefore(respond, n - 1) + Received(respond(n - 1))
          == initial + (ReceivedBefore(respond, n - 1) + Received(respond(n - 1)));
    }
  }

  /** A rejected range deletes the file: the next request starts over, without a Range header. */
  lemma RangeRejectedRestarts(respond: nat -> DlResponse, initial: seq<Byte>, i: nat)
    requires RangeRejected(respond(i), FileBefore(respond, initial, i))
    ensures FileBefore(respond, initial, i + 1) == []
    ensures RequestFor(|FileBefore(respond, initial, i + 1)|) == DlRequest(0, None, false)
    ensures SleepAfter(respond, initial, i) == Backoff
  {
  }

  /**
   * A header that passes `isdigit` but that `int` cannot read ends the call at once: no
   * retry, no wait, and the file is left as it was.
   */
  lemma IntRaisesEndsCall(respond: nat -> DlResponse, maxAttempts: nat, attempt: nat, file: seq<Byte>,
                          requests: seq<DlRequest>, sleeps: seq<int>)
    requires attempt < maxAttempts
    requires respond(attempt).DlReply? && respond(attempt).status in {200, 206}
    requires IntRaises(respond(attempt).contentLength)
    ensures DownloadFrom(respond, maxAttempts, attempt, file, requests, sleeps)
         == Download(BadLength, file, requests + [RequestFor(|file|)], sleeps)
  {
  }
}
