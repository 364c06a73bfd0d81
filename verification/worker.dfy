/** The Cloudflare Worker in front of the binding, and how the relay understands its answers. */
module WorkerScript {
  import opened Options
  import opened Delivery
  import opened Payload

  /** A JavaScript string as its UTF-16 code units. */
  type Units = seq<bv16>

  /** "Bearer " */
  const BEARER: Units := [66, 101, 97, 114, 101, 114, 32]

  /** The presented header is the configured token; an unset secret is a case of its own. */
  predicate TokenMatches(header: Units, secret: Units) {
    || header == BEARER + secret
    || (secret == [] && !(BEARER <= header))
  }

  function Presented(header: Units): Units {
    if BEARER <= header then header[|BEARER|..] else []
  }

  /** Comparing the part after the prefix is comparing the header, except for the unset secret. */
  lemma PresentedMatches(header: Units, secret: Units)
    ensures Presented(header) == secret <==> TokenMatches(header, secret)
  {
    if BEARER <= header {
      assert header == BEARER + Presented(header);
    }
    assert (BEARER + secret)[|BEARER|..] == secret;
  }

  /** authorized: the length check and the XOR/OR loop. */
  method Authorized(authorization: Option<Units>, secret: Units) returns (ok: bool)
    ensures ok <==> TokenMatches(if authorization.Some? then authorization.value else [], secret)
    ensures secret != [] ==> (ok <==> authorization == Some(BEARER + secret))
  {
    var header := if authorization.Some? then authorization.value else [];
    var presented := if BEARER <= header then header[7..] else [];
    PresentedMatches(header, secret);
    if |presented| != |secret| {
      return false;
    }
    ok := SameUnits(presented, secret);
  }

  method SameUnits(presented: Units, secret: Units) returns (same: bool)
    requires |presented| == |secret|
    ensures same <==> presented == secret
  {
    var diff: bv16 := 0;
    for i := 0 to |secret|
      invariant diff == 0 <==> forall k :: 0 <= k < i ==> presented[k] == secret[k]
    {
      diff := Accumulate(diff, presented[i], secret[i]);
    }
    same := diff == 0;
  }

  /** diff |= a ^ b: zero as long as every pair so far was equal. */
  method Accumulate(diff: bv16, a: bv16, b: bv16) returns (r: bv16)
    ensures r == 0 <==> diff == 0 && a == b
  {
    r := diff | (a ^ b);
  }

  /** statusForCode */
  function StatusForCode(code: string): int {
    if code == "E_RATE_LIMIT_EXCEEDED" || code == "E_DAILY_LIMIT_EXCEEDED" then 429
    else if code == "E_SENDER_NOT_VERIFIED" || code == "E_SENDER_DOMAIN_NOT_AVAILABLE"
            || code == "E_RECIPIENT_NOT_ALLOWED" then 403
    else 502
  }

  /** request.json(): malformed, a value without the properties of an object, or an object. */
  datatype Decoding = Malformed | NotAnObject | Decoded(body: WireBody)

  /** contentLength is NaN, written None, when the header is not a number. */
  datatype Request = Request(
    isPost: bool, authorization: Option<Units>, contentLength: Option<int>, payload: Decoding)

  /** What env.EMAIL.send does: an empty code is an error without one. */
  datatype SendOutcome = Accepted(messageId: string) | Rejected(code: string)

  datatype Response = Response(status: int, body: WorkerResponse)

  const MAX_BODY_BYTES := 5 * 1024 * 1024

  function Refuse(status: int, code: string): Response {
    Response(status, WorkerResponse(false, "", code))
  }

  function TranslationOf(payload: Decoding): Translation
    requires !payload.Malformed?
  {
    match payload
    case NotAnObject => Thrown(FromRequired)
    case Decoded(body) => Translate(body)
  }

  predicate Authorised(request: Request, secret: Units) {
    TokenMatches(if request.authorization.Some? then request.authorization.value else [], secret)
  }

  /** fetch: the request handler, exit by exit. */
  function Fetch(request: Request, secret: Units, outcome: SendOutcome): Response {
    if !request.isPost then Refuse(405, "E_METHOD_NOT_ALLOWED")
    else if secret == [] then Refuse(500, "E_NOT_CONFIGURED")
    else if !Authorised(request, secret) then Refuse(401, "E_UNAUTHORIZED")
    else if request.contentLength.Some? && request.contentLength.value > MAX_BODY_BYTES then Refuse(413, "E_TOO_BIG")
    else if request.payload.Malformed? then Refuse(400, "E_BAD_JSON")
    else if TranslationOf(request.payload).Thrown? then Refuse(400, "E_INVALID_REQUEST")
    else match outcome
      case Accepted(messageId) => Response(200, WorkerResponse(true, messageId, ""))
      case Rejected(code) =>
        var named := if code == "" then "E_SEND_FAILED" else code;
        Refuse(StatusForCode(named), named)
  }

  /** What the relay makes of an answer of the Worker. */
  function Understood(r: Response, attempts: nat): Parsed {
    ParseWorkerResponse(r.status, Some(r.body), attempts)
  }

  const LIMIT_CODES := {"E_RATE_LIMIT_EXCEEDED", "E_DAILY_LIMIT_EXCEEDED"}
  const PERMANENT_CODES := {"E_SENDER_NOT_VERIFIED", "E_SENDER_DOMAIN_NOT_AVAILABLE", "E_RECIPIENT_NOT_ALLOWED"}

  /** The reply the relay gives for a code the binding throws. */
  function ReplyToCode(code: string): (Enhanced, Reason) {
    if code in PERMANENT_CODES then
      (Enhanced(5, 7, 1), if code == "E_RECIPIENT_NOT_ALLOWED" then RecipientRejected else SenderRejected)
    else if code in LIMIT_CODES then (Enhanced(4, 4, 5), RateLimited)
    else (Enhanced(4, 3, 0), ServerError)
  }

  /** The verdict on any failed answer in the Worker's JSON: a documented code decides, else the status. */
  function CodeVerdict(status: int, code: string): Verdict {
    if code in PERMANENT_CODES then Reject
    else if code in LIMIT_CODES then Retry
    else StatusVerdict(status)
  }

  /** The reply to any failed answer, and the reason given with it. */
  function CodeReply(status: int, code: string): (Enhanced, Reason) {
    if code in PERMANENT_CODES || code in LIMIT_CODES then ReplyToCode(code) else ReplyTo(status)
  }

  lemma RefusalVerdict(status: int, code: string, attempts: nat)
    ensures var p := Understood(Refuse(status, code), attempts);
            && p.Refused? && VerdictOf(p) == CodeVerdict(status, code)
            && (p.error.enhanced, p.error.reason) == CodeReply(status, code)
            && p.error.httpStatus == status && p.error.attempts == attempts
  {
    assert CodeBucket(0) == None;
  }

  /** Whatever code the binding throws, the relay gives up on the three rejections and retries the rest. */
  lemma CodesAgree(code: string, attempts: nat)
    ensures var p := Understood(Refuse(StatusForCode(code), code), attempts);
            && p.Refused?
            && VerdictOf(p) == (if code in PERMANENT_CODES then Reject else Retry)
            && p.error.temporary == (code !in PERMANENT_CODES)
            && (p.error.enhanced, p.error.reason) == ReplyToCode(code)
            && p.error.httpStatus == (if code in PERMANENT_CODES then 403 else if code in LIMIT_CODES then 429 else 502)
  {
    assert CodeBucket(0) == None;
  }

  /** The Worker gets as far as handing a message to the binding. */
  predicate Reaches(request: Request, secret: Units) {
    && request.isPost && secret != [] && Authorised(request, secret)
    && !(request.contentLength.Some? && request.contentLength.value > MAX_BODY_BYTES)
    && !request.payload.Malformed? && TranslationOf(request.payload).Translated?
  }

  lemma BindingStatus(code: string)
    ensures StatusForCode(code) == 429 || StatusForCode(code) == 403 || StatusForCode(code) == 502
  {
  }

  /** The status tells at which check the handler stopped, or what the binding did. */
  lemma ExitStatus(request: Request, secret: Units, outcome: SendOutcome)
    ensures var r := Fetch(request, secret, outcome);
            var admitted := request.isPost && secret != [] && Authorised(request, secret);
            var fits := request.contentLength.None? || request.contentLength.value <= 5_242_880;
            && (r.status == 405 <==> !request.isPost)
            && (r.status == 500 <==> request.isPost && secret == [])
            && (r.status == 401 <==> request.isPost && secret != [] && !Authorised(request, secret))
            && (r.status == 413 <==> admitted && !fits)
            && (r.status == 400 <==> admitted && fits && !Reaches(request, secret))
            && (r.status == 200 <==> Reaches(request, secret) && outcome.Accepted?)
            && (r.body.success <==> r.status == 200)
  {
    assert MAX_BODY_BYTES == 5_242_880;
    if Reaches(request, secret) && outcome.Rejected? {
      var r := Fetch(request, secret, outcome);
      BindingStatus(r.body.code);
      assert r.status == StatusForCode(r.body.code);
    }
  }

  /** The exits before the binding is called. */
  lemma EarlyExit(request: Request, secret: Units, outcome: SendOutcome)
    requires request.isPost && !Reaches(request, secret)
    ensures var r := Fetch(request, secret, outcome);
            && r == Refuse(r.status, r.body.code)
            && CodeVerdict(r.status, r.body.code)
               == if secret == [] then Retry else if !Authorised(request, secret) then Hold else Reject
  {
    var r := Fetch(request, secret, outcome);
    assert r.body.code !in PERMANENT_CODES && r.body.code !in LIMIT_CODES;
  }

  /** The exits after it was called and failed. */
  lemma FailedSend(request: Request, secret: Units, code: string)
    requires Reaches(request, secret)
    ensures var r := Fetch(request, secret, Rejected(code));
            && r == Refuse(r.status, r.body.code)
            && r.body.code == (if code == "" then "E_SEND_FAILED" else code)
            && CodeVerdict(r.status, r.body.code) == if code in PERMANENT_CODES then Reject else Retry
  {
    assert "E_SEND_FAILED" !in PERMANENT_CODES && "" !in PERMANENT_CODES;
  }

  /**
   * Both programs together, for every POST: accepted iff the binding accepted; held, not retried, iff the
   * secrets differ; retried iff the Worker is not configured or the binding failed otherwise than by one of
   * the three rejections; given up on in all other cases.
   */
  lemma VerdictAcrossLanguages(request: Request, secret: Units, outcome: SendOutcome, attempts: nat)
    requires request.isPost
    ensures var p := Understood(Fetch(request, secret, outcome), attempts);
            && (p.Delivered? <==> Reaches(request, secret) && outcome.Accepted?)
            && (p.Delivered? ==> p.receipt == Receipt(outcome.messageId, 200, attempts))
            && (p.Refused? ==>
                  && (VerdictOf(p) == Hold <==> secret != [] && !Authorised(request, secret))
                  && (VerdictOf(p) == Retry
                      <==> secret == []
                           || (Reaches(request, secret) && outcome.Rejected? && outcome.code !in PERMANENT_CODES)))
  {
    var r := Fetch(request, secret, outcome);
    if !Reaches(request, secret) {
      EarlyExit(request, secret, outcome);
      RefusalVerdict(r.status, r.body.code, attempts);
    } else if outcome.Rejected? {
      FailedSend(request, secret, outcome.code);
      RefusalVerdict(r.status, r.body.code, attempts);
    }
  }
}
