/** Classification of upstream outcomes, shared by the REST and the Worker adapter. */
module Delivery {
  import opened Options

  /** An RFC 3463 status code: class, subject, detail. */
  datatype Enhanced = Enhanced(class_: int, subject: int, detail: int)

  datatype Reason =
    | RateLimited | ServerError | CredentialRejected | NotEntitled | MessageRejected | ResourceNotFound
    | SenderRejected | RecipientRejected | ConnectionFailed | TimedOut

  datatype DeliveryError = DeliveryError(
    temporary: bool,
    smtpCode: int,
    enhanced: Enhanced,
    reason: Reason,
    httpStatus: int,
    providerCode: int,
    attempts: nat)

  datatype Receipt = Receipt(providerID: string, httpStatus: int, attempts: nat)

  /** What made a request fail before a response could be read, or a context end. */
  datatype Cause = DeadlineExceeded | OtherCause

  datatype Bucket = Bucket(temporary: bool, retryable: bool, smtp: int, enhanced: Enhanced, reason: Reason)

  /** The first digit of the reply, the class digit of the status and the flag all tell the same story. */
  predicate WellClassified(e: DeliveryError) {
    if e.temporary then e.smtpCode == 451 && e.enhanced.class_ == 4 else e.smtpCode == 550 && e.enhanced.class_ == 5
  }

  const HELD := Enhanced(4, 7, 0)

  /** codeBuckets: Cloudflare's documented numeric error codes. */
  function CodeBucket(code: int): Option<Bucket> {
    match code
    case 10004 => Some(Bucket(true, true, 451, Enhanced(4, 4, 5), RateLimited))
    case 10002 => Some(Bucket(true, true, 451, Enhanced(4, 3, 0), ServerError))
    case 10003 => Some(Bucket(true, true, 451, Enhanced(4, 3, 0), ServerError))
    case 10100 => Some(Bucket(true, true, 451, Enhanced(4, 3, 0), ServerError))
    case 10101 => Some(Bucket(true, false, 451, Enhanced(4, 7, 0), CredentialRejected))
    case 10103 => Some(Bucket(true, false, 451, Enhanced(4, 7, 0), CredentialRejected))
    case 10102 => Some(Bucket(true, false, 451, Enhanced(4, 7, 0), NotEntitled))
    case 10105 => Some(Bucket(true, false, 451, Enhanced(4, 7, 0), NotEntitled))
    case 10203 => Some(Bucket(true, false, 451, Enhanced(4, 7, 0), NotEntitled))
    case 10001 => Some(Bucket(false, false, 550, Enhanced(5, 6, 0), MessageRejected))
    case 10200 => Some(Bucket(false, false, 550, Enhanced(5, 6, 0), MessageRejected))
    case 10201 => Some(Bucket(false, false, 550, Enhanced(5, 6, 0), MessageRejected))
    case 10202 => Some(Bucket(false, false, 550, Enhanced(5, 6, 0), MessageRejected))
    case 10000 => Some(Bucket(false, false, 550, Enhanced(5, 1, 2), ResourceNotFound))
    case _ => None
  }

  function FromBucket(b: Bucket, status: int, providerCode: int, attempts: nat): DeliveryError {
    DeliveryError(b.temporary, b.smtp, b.enhanced, b.reason, status, providerCode, attempts)
  }

  /** The reply the operations guide documents for an upstream status, and the reason given with it. */
  const DOCUMENTED: map<int, (Enhanced, Reason)> :=
    map[429 := (Enhanced(4, 4, 5), RateLimited),
        500 := (Enhanced(4, 3, 0), ServerError), 503 := (Enhanced(4, 3, 0), ServerError),
        401 := (Enhanced(4, 7, 0), CredentialRejected), 403 := (Enhanced(4, 7, 0), NotEntitled),
        400 := (Enhanced(5, 6, 0), MessageRejected), 404 := (Enhanced(5, 1, 2), ResourceNotFound)]

  /** The rest: other server errors are like a 500, everything else like a 400. */
  function ReplyTo(status: int): (Enhanced, Reason) {
    if status in DOCUMENTED then DOCUMENTED[status]
    else if 500 <= status < 600 then DOCUMENTED[500]
    else DOCUMENTED[400]
  }

  /** The documented status whose meaning a documented provider code has. */
  const STATUS_LIKE: map<int, int> :=
    map[10004 := 429, 10002 := 500, 10003 := 500, 10100 := 500, 10101 := 401, 10103 := 401,
        10102 := 403, 10105 := 403, 10203 := 403,
        10001 := 400, 10200 := 400, 10201 := 400, 10202 := 400, 10000 := 404]

  /** The status a failed answer counts as: a listed code overrides the status that carried it. */
  function LikeStatus(status: int, code: int): int {
    if code in STATUS_LIKE then STATUS_LIKE[code] else status
  }

  /** What is documented for a failed answer. */
  function DocumentedReply(status: int, code: int): (Enhanced, Reason) {
    ReplyTo(LikeStatus(status, code))
  }

  /** The status-based fallback of classifyHTTP, case by case in source order. */
  function ClassifyHTTP(status: int, providerCode: int, attempts: nat): (e: DeliveryError)
    ensures WellClassified(e) && (e.enhanced, e.reason) == DocumentedReply(status, providerCode)
    ensures e.httpStatus == status && e.providerCode == providerCode && e.attempts == attempts
  {
    var fail := (temporary: bool, smtp: int, enhanced: Enhanced, reason: Reason) =>
      DeliveryError(temporary, smtp, enhanced, reason, status, providerCode, attempts);
    match CodeBucket(providerCode)
    case Some(b) => FromBucket(b, status, providerCode, attempts)
    case None =>
      if status == 429 then fail(true, 451, Enhanced(4, 4, 5), RateLimited)
      else if status == 500 || status == 502 || status == 503 || status == 504 then
        fail(true, 451, Enhanced(4, 3, 0), ServerError)
      else if status == 401 then fail(true, 451, Enhanced(4, 7, 0), CredentialRejected)
      else if status == 403 then fail(true, 451, Enhanced(4, 7, 0), NotEntitled)
      else if status == 400 then fail(false, 550, Enhanced(5, 6, 0), MessageRejected)
      else if status == 404 then fail(false, 550, Enhanced(5, 1, 2), ResourceNotFound)
      else if 400 <= status < 500 then fail(false, 550, Enhanced(5, 6, 0), MessageRejected)
      else if 500 <= status < 600 then fail(true, 451, Enhanced(4, 3, 0), ServerError)
      else fail(false, 550, Enhanced(5, 6, 0), MessageRejected)
  }

  /** A failure without a usable response is always temporary: 4.4.1, never the credential status. */
  function ClassifyTransport(cause: Cause, attempts: nat): (e: DeliveryError)
    ensures WellClassified(e) && e.temporary && e.enhanced == Enhanced(4, 4, 1) != HELD
    ensures e.attempts == attempts && e.httpStatus == 0 && e.providerCode == 0
    ensures e.reason == if cause.DeadlineExceeded? then TimedOut else ConnectionFailed
  {
    DeliveryError(true, 451, Enhanced(4, 4, 1),
                  if cause.DeadlineExceeded? then TimedOut else ConnectionFailed, 0, 0, attempts)
  }

  predicate IsRetryable(status: int, providerCode: int) {
    match CodeBucket(providerCode)
    case Some(b) => b.retryable
    case None => status == 429 || 500 <= status < 600
  }

  /** workerCodeBuckets: the Worker's documented string error codes. */
  function WorkerCodeBucket(code: string): Option<Bucket> {
    if code == "E_RATE_LIMIT_EXCEEDED" || code == "E_DAILY_LIMIT_EXCEEDED" then
      Some(Bucket(true, true, 451, Enhanced(4, 4, 5), RateLimited))
    else if code == "E_SENDER_NOT_VERIFIED" || code == "E_SENDER_DOMAIN_NOT_AVAILABLE" then
      Some(Bucket(false, false, 550, Enhanced(5, 7, 1), SenderRejected))
    else if code == "E_RECIPIENT_NOT_ALLOWED" then
      Some(Bucket(false, false, 550, Enhanced(5, 7, 1), RecipientRejected))
    else None
  }

  function ClassifyWorkerCode(status: int, code: string, attempts: nat): (e: DeliveryError)
    ensures WellClassified(e) && e.httpStatus == status && e.attempts == attempts
  {
    match WorkerCodeBucket(code)
    case Some(b) => FromBucket(b, status, 0, attempts)
    case None => ClassifyHTTP(status, 0, attempts)
  }

  predicate IsWorkerRetryable(status: int, code: string) {
    match WorkerCodeBucket(code)
    case Some(b) => b.retryable
    case None => IsRetryable(status, 0)
  }

  /** A decoded REST response: error codes in order, and the delivered list when there is a result. */
  datatype RestResponse = RestResponse(success: bool, errors: seq<int>, delivered: Option<seq<string>>)

  datatype WorkerResponse = WorkerResponse(success: bool, messageId: string, code: string)

  /** A response body, as JSON decoding into either response shape sees it: None when it fails. */
  datatype Body = Body(rest: Option<RestResponse>, worker: Option<WorkerResponse>)

  datatype Adapter = Rest | Worker

  datatype Parsed = Delivered(receipt: Receipt) | Refused(error: DeliveryError, retryable: bool)

  /**
   * What the retry loop and the SMTP layer rely on: the error is consistently classified, whatever is
   * retried is temporary, and a temporary error that is not retried is exactly a 4.7.0.
   */
  predicate SoundParse(p: Parsed, attempts: nat) {
    match p
    case Delivered(r) => r.attempts == attempts
    case Refused(e, retryable) =>
      && WellClassified(e)
      && e.attempts == attempts
      && (retryable ==> e.temporary)
      && (e.temporary && !retryable <==> e.enhanced == HELD)
  }

  /** The first of the delivered addresses, or blank if there is none. */
  predicate FirstOf(delivered: Option<seq<string>>, providerID: string) {
    match delivered
    case Some(ids) => if ids == [] then providerID == "" else [providerID] <= ids
    case None => providerID == ""
  }

  /** The first error code of a failed answer, 0 if there is none. */
  function FirstCode(resp: RestResponse): int {
    if |resp.errors| > 0 then resp.errors[0] else 0
  }

  function ParseRESTResponse(status: int, body: Option<RestResponse>, attempts: nat): (p: Parsed)
    ensures SoundParse(p, attempts)
    ensures p.Delivered? <==> body.Some? && body.value.success
    ensures p.Delivered? ==> p.receipt.httpStatus == status && p.receipt.attempts == attempts
    ensures p.Delivered? ==> FirstOf(body.value.delivered, p.receipt.providerID)
  {
    match body
    case None => Refused(ClassifyTransport(OtherCause, attempts), true)
    case Some(resp) =>
      if resp.success then
        var providerID :=
          if resp.delivered.Some? && |resp.delivered.value| > 0 then resp.delivered.value[0] else "";
        Delivered(Receipt(providerID, status, attempts))
      else
        var code := FirstCode(resp);
        Refused(ClassifyHTTP(status, code, attempts), IsRetryable(status, code))
  }

  function ParseWorkerResponse(status: int, body: Option<WorkerResponse>, attempts: nat): (p: Parsed)
    ensures SoundParse(p, attempts)
    ensures p.Delivered? <==> body.Some? && body.value.success
    ensures p.Delivered? ==> p.receipt == Receipt(body.value.messageId, status, attempts)
  {
    match body
    case None => Refused(ClassifyTransport(OtherCause, attempts), true)
    case Some(resp) =>
      if resp.success then Delivered(Receipt(resp.messageId, status, attempts))
      else Refused(ClassifyWorkerCode(status, resp.code, attempts), IsWorkerRetryable(status, resp.code))
  }

  function Parse(adapter: Adapter, status: int, body: Body, attempts: nat): (p: Parsed)
    ensures SoundParse(p, attempts)
  {
    match adapter
    case Rest => ParseRESTResponse(status, body.rest, attempts)
    case Worker => ParseWorkerResponse(status, body.worker, attempts)
  }

  /** What the operations guide promises: retry inside the relay, hold for the client to retry, or reject. */
  datatype Verdict = Retry | Hold | Reject

  function VerdictOf(p: Parsed): Verdict
    requires p.Refused?
  {
    if p.retryable then Retry else if p.error.temporary then Hold else Reject
  }

  /** The verdict on a status alone: rate limits and server errors, then the relay's own credential. */
  function StatusVerdict(status: int): Verdict {
    if status == 429 || 500 <= status < 600 then Retry
    else if status == 401 || status == 403 then Hold
    else Reject
  }

  /** A documented provider code decides, by the status it is like; otherwise the status does. */
  function RestVerdict(status: int, code: int): Verdict {
    StatusVerdict(LikeStatus(status, code))
  }

  /**
   * classifyHTTP and isRetryable, two separate decisions in the source, together implement RestVerdict; the
   * error carries the documented reply, the status and the first code.
   */
  lemma RestVerdictIsImplemented(status: int, resp: RestResponse, attempts: nat)
    requires !resp.success
    ensures var p, code := ParseRESTResponse(status, Some(resp), attempts),
                           if |resp.errors| > 0 then resp.errors[0] else 0;
            && p.Refused?
            && VerdictOf(p) == RestVerdict(status, code)
            && (p.error.enhanced, p.error.reason) == DocumentedReply(status, code)
            && p.error.httpStatus == status && p.error.providerCode == code
  {
    assert |resp.errors| == 0 ==> CodeBucket(0) == None;
  }

  /** The body an adapter cannot decode. */
  predicate Undecodable(adapter: Adapter, body: Body) {
    match adapter case Rest => body.rest.None? case Worker => body.worker.None?
  }

  /** An answer that cannot be decoded is a retried 4.4.1 whatever its status. */
  lemma UndecodableIsRetried(adapter: Adapter, status: int, body: Body, attempts: nat)
    requires Undecodable(adapter, body)
    ensures var p := Parse(adapter, status, body, attempts);
            && p.Refused? && p.retryable && VerdictOf(p) == Retry
            && p.error.smtpCode == 451 && p.error.enhanced == Enhanced(4, 4, 1)
            && p.error.reason == ConnectionFailed && p.error.httpStatus == 0
  {
  }

  /**
   * The two tables agree: an unlisted code gets the documented reply of the status, and a listed code
   * is treated, whatever status carried it, exactly as the documented status of the same meaning.
   */
  lemma TablesAgree(status: int, code: int, attempts: nat)
    ensures code !in STATUS_LIKE
            ==> var e := ClassifyHTTP(status, code, attempts); (e.enhanced, e.reason) == ReplyTo(status)
    ensures code in STATUS_LIKE
            ==> && STATUS_LIKE[code] in DOCUMENTED
                && IsRetryable(status, code) == IsRetryable(STATUS_LIKE[code], 0)
                && ClassifyHTTP(status, code, attempts)
                   == ClassifyHTTP(STATUS_LIKE[code], 0, attempts).(httpStatus := status, providerCode := code)
  {
  }
}
