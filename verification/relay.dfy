/** The pipeline end to end: what a client's commands and the replies it gets say about deliveries. */
module Relay {
  import opened Options
  import opened Text
  import opened Message
  import opened Recipients
  import opened Domains
  import opened Payload
  import Delivery
  import Loop = SendLoop
  import Smtp = Session
  import Script = WorkerScript
  import FirstWins

  /** What an adapter's Send returns for a finished run. */
  function SentBy(run: Loop.Run): Smtp.SendResult {
    match run.outcome
    case Sent(receipt) => Smtp.Accepted(Some(receipt))
    case Failed(error) => Smtp.Classified(error)
  }

  /**
   * With either adapter behind it, under any environment, the reply to DATA and its log record agree; the
   * record counts the requests really made; success is reported iff the last request was accepted, and a
   * parsed message is refused for good iff the last request was answered with a permanent rejection.
   */
  lemma RepliesAgreeWithRuns(s: Smtp.State, input: Smtp.Input, c: Loop.Config)
    ensures var run := Loop.RunOf(c);
            var reply, record := Smtp.DataReply(input, SentBy(run)), Smtp.DataRecord(s, input, SentBy(run));
            && Smtp.Agrees(reply, record.result)
            && (input.Raw? && input.parsed.Some? ==>
                  && record.attempts == run.requests <= c.maxRetries + 1
                  && (reply.None? <==> run.requests >= 1 && Loop.AttemptOf(c, run.requests).parsed.Delivered?)
                  && (record.result == Smtp.Rejected
                      <==> run.requests >= 1
                           && Loop.AttemptOf(c, run.requests).parsed.Refused?
                           && Delivery.VerdictOf(Loop.AttemptOf(c, run.requests).parsed) == Delivery.Reject))
  {
    Loop.AttemptAccounting(c);
    Loop.PermanentOnlyIfRejected(c);
    Smtp.ReplyAndLogAgree(s, input, SentBy(Loop.RunOf(c)));
  }

  lemma SubmittedIsCanonical(o: Smtp.Opts, h: seq<Smtp.Event>, i: nat, m: Message)
    requires Smtp.HandsOver(o, h, i, m)
    ensures Canonical(m.lists)
  {
    var p := h[i].input.parsed.value;
    SplitIsCanonical(HeaderAddresses(p.to), HeaderAddresses(p.cc), Smtp.Replay(o, h[..i]).recipients);
  }

  /** The keys of the delivery lists are those of the recipients, each exactly once. */
  ghost predicate DeliversTo(l: Lists, rcpts: seq<string>) {
    && FirstWins.ToSet(AllKeys(l)) == EnvelopeKeys(rcpts)
    && FirstWins.Distinct(AllKeys(l))
    && RecipientCount(l) == |EnvelopeKeys(rcpts)| <= |rcpts|
  }

  lemma HandedRecipients(o: Smtp.Opts, h: seq<Smtp.Event>, i: nat, m: Message)
    requires Smtp.HandsOver(o, h, i, m)
    ensures DeliversTo(m.lists, Smtp.Replay(o, h[..i]).recipients)
  {
    var p := h[i].input.parsed.value;
    Partition(HeaderAddresses(p.to), HeaderAddresses(p.cc), Smtp.Replay(o, h[..i]).recipients);
  }

  /**
   * Recipients are conserved from the RCPT commands to the message: the keys of the three lists are those
   * of the RCPTs since the last accepted MAIL, RSET or QUIT, each exactly once. Nothing of an earlier
   * transaction gets in.
   */
  lemma RecipientsConserved(o: Smtp.Opts, h: seq<Smtp.Event>, i: nat, m: Message) returns (c: int)
    requires Smtp.HandsOver(o, h, i, m)
    ensures Smtp.LastCut(o, h[..i], c)
    ensures DeliversTo(m.lists, Smtp.RcptsIn(h[..i][c + 1..]))
  {
    c := Smtp.FieldsRefineHistory(o, h[..i]);
    HandedRecipients(o, h, i, m);
    assert Smtp.EnvelopeSince(o, h[..i], c);
  }

  lemma CanonicalNonBlank(l: Lists)
    requires Canonical(l)
    ensures NonBlankLists(l) == l
  {
    forall a | a in l.to || a in l.cc || a in l.bcc ensures a.address != "" {
      CanonicalAddress(l, a);
    }
    NonBlankIdentity(l.to);
    NonBlankIdentity(l.cc);
    NonBlankIdentity(l.bcc);
  }

  /**
   * From the envelope to the binding: translating a submitted message loses nothing, and fails exactly
   * when it has no sender, no non-blank recipient, no subject, or no body.
   */
  lemma SubmittedSurvives(m: Message)
    requires Canonical(m.lists)
    ensures var t := Translate(Encode(PayloadOf(m)));
            && (t.Translated? ==> ReadBinding(t.message) == ContentOf(m))
            && (t.Thrown? <==> || m.from.address == ""
                               || FirstWins.ToSet(AllKeys(m.lists)) == {}
                               || m.subject == ""
                               || (m.text == "" && m.html == ""))
  {
    MessageSurvives(m);
    CanonicalNonBlank(m.lists);
    FirstWins.DistinctSize(AllKeys(m.lists));
    assert |AllKeys(m.lists)| == RecipientCount(m.lists);
  }

  // ---- The relay and the Worker together ----

  /** Whether a request gets to the Worker, and what its binding then does if it is called. */
  datatype Trip = Strayed | Arrived(contentLength: Option<int>, outcome: Script.SendOutcome)

  /**
   * One request and what the relay gets back: nothing, an answer some other server gives instead, or the
   * Worker's answer. In the first two cases the request may have arrived. Another server's answer does not
   * decode as the JSON the relay expects, or it does, without success and with some error code; any JSON
   * object will do, and one without the property has the empty code.
   */
  datatype Hop =
    | Lost(trip: Trip, cause: Delivery.Cause)
    | Intercepted(trip: Trip, status: int, code: Option<string>, retryAfter: string, untilDate: Option<int>)
    | Reached(contentLength: Option<int>, outcome: Script.SendOutcome, retryAfter: string, untilDate: Option<int>)

  /** The request the relay sends for a message, under its configured secret. */
  function RequestFor(m: Message, relaySecret: Script.Units, contentLength: Option<int>): Script.Request {
    Script.Request(true, Some(Script.BEARER + relaySecret), contentLength, Script.Decoded(Encode(PayloadOf(m))))
  }

  function ExchangeOf(hop: Hop, m: Message, relaySecret: Script.Units, secret: Script.Units): Loop.Exchange {
    match hop
    case Lost(_, cause) => Loop.Broken(cause)
    case Intercepted(_, status, code, retryAfter, untilDate) =>
      var body := match code case Some(c) => Some(Script.Refuse(status, c).body) case None => None;
      Loop.Answered(status, Delivery.Body(None, body), retryAfter, untilDate)
    case Reached(contentLength, outcome, retryAfter, untilDate) =>
      var r := Script.Fetch(RequestFor(m, relaySecret, contentLength), secret, outcome);
      Loop.Answered(r.status, Delivery.Body(None, Some(r.body)), retryAfter, untilDate)
  }

  /** Every round of the configuration talks to the Worker about the message m. */
  ghost predicate TalksToWorker(
      c: Loop.Config, m: Message, hops: nat -> Hop, relaySecret: Script.Units, secret: Script.Units)
  {
    && c.adapter == Delivery.Worker
    && forall n :: c.env(n).exchange == ExchangeOf(hops(n), m, relaySecret, secret)
  }

  predicate TooBig(hop: Hop) {
    hop.Reached? && hop.contentLength.Some? && hop.contentLength.value > Script.MAX_BODY_BYTES
  }

  lemma SecretsCompared(m: Message, relaySecret: Script.Units, secret: Script.Units, contentLength: Option<int>)
    requires secret != []
    ensures Script.Authorised(RequestFor(m, relaySecret, contentLength), secret) <==> relaySecret == secret
  {
    assert (Script.BEARER + relaySecret)[7..] == relaySecret;
    assert (Script.BEARER + secret)[7..] == secret;
  }

  /** One round against the Worker is taken as delivered iff the binding accepted the translated message. */
  lemma RoundDelivers(
      c: Loop.Config, m: Message, hops: nat -> Hop, relaySecret: Script.Units, secret: Script.Units, n: nat)
    requires TalksToWorker(c, m, hops, relaySecret, secret)
    ensures Loop.AttemptOf(c, n).parsed.Delivered? <==>
              && hops(n).Reached? && hops(n).outcome.Accepted?
              && secret != [] && relaySecret == secret
              && !TooBig(hops(n))
              && Translate(Encode(PayloadOf(m))).Translated?
  {
    assert c.env(n).exchange == ExchangeOf(hops(n), m, relaySecret, secret);
    if hops(n).Reached? {
      var req := RequestFor(m, relaySecret, hops(n).contentLength);
      Script.VerdictAcrossLanguages(req, secret, hops(n).outcome, n);
      if secret != [] {
        SecretsCompared(m, relaySecret, secret, hops(n).contentLength);
      }
    }
  }

  /**
   * A run against the Worker succeeds if and only if the secrets agree and the binding accepted, in the
   * last round, a message that reads exactly as the one submitted.
   */
  lemma SuccessMeansAccepted(
      c: Loop.Config, m: Message, hops: nat -> Hop, relaySecret: Script.Units, secret: Script.Units)
    requires TalksToWorker(c, m, hops, relaySecret, secret) && Canonical(m.lists)
    ensures var run := Loop.RunOf(c);
            run.outcome.Sent? <==>
              && run.requests >= 1
              && hops(run.requests).Reached? && hops(run.requests).outcome.Accepted?
              && secret != [] && relaySecret == secret
              && !TooBig(hops(run.requests))
              && Translate(Encode(PayloadOf(m))).Translated?
              && ReadBinding(Translate(Encode(PayloadOf(m))).message) == ContentOf(m)
  {
    Loop.AttemptAccounting(c);
    SubmittedSurvives(m);
    RoundDelivers(c, m, hops, relaySecret, secret, Loop.RunOf(c).requests);
  }

  /** The Worker, reached with the right secret, refuses the message for good. */
  predicate WorkerRejects(hop: Hop, m: Message, relaySecret: Script.Units, secret: Script.Units) {
    && hop.Reached?
    && secret != [] && relaySecret == secret
    && (TooBig(hop) || Translate(Encode(PayloadOf(m))).Thrown?
        || (hop.outcome.Rejected? && hop.outcome.code in Script.PERMANENT_CODES))
  }

  /** Another server's answer decodes and reads as a permanent rejection, by its code or by its status. */
  predicate StrangerRejects(hop: Hop) {
    && hop.Intercepted? && hop.code.Some?
    && (|| hop.code.value in Script.PERMANENT_CODES
        || (hop.code.value !in Script.LIMIT_CODES && Delivery.StatusVerdict(hop.status) == Delivery.Reject))
  }

  /** One round is taken as a permanent rejection iff the Worker says so, or another server seems to. */
  lemma RoundRejects(
      c: Loop.Config, m: Message, hops: nat -> Hop, relaySecret: Script.Units, secret: Script.Units, n: nat)
    requires TalksToWorker(c, m, hops, relaySecret, secret)
    ensures var p := Loop.AttemptOf(c, n).parsed;
            p.Refused? && Delivery.VerdictOf(p) == Delivery.Reject
            <==> WorkerRejects(hops(n), m, relaySecret, secret) || StrangerRejects(hops(n))
  {
    assert c.env(n).exchange == ExchangeOf(hops(n), m, relaySecret, secret);
    if hops(n).Reached? {
      var req := RequestFor(m, relaySecret, hops(n).contentLength);
      Script.VerdictAcrossLanguages(req, secret, hops(n).outcome, n);
      if secret != [] {
        SecretsCompared(m, relaySecret, secret, hops(n).contentLength);
      }
    } else if hops(n).Intercepted? && hops(n).code.Some? {
      Script.RefusalVerdict(hops(n).status, hops(n).code.value, n);
    }
  }

  /**
   * The client is told to drop a message if and only if the last request found it too big, not
   * translatable, or refused by the binding for its sender or a recipient, or if another server answered
   * in its place with JSON that reads like that. A wrong or missing secret, a lost request, an unreadable
   * error page and any other failure of the binding keep it.
   */
  lemma DroppedOnlyIfRefused(
      c: Loop.Config, m: Message, hops: nat -> Hop, relaySecret: Script.Units, secret: Script.Units)
    requires TalksToWorker(c, m, hops, relaySecret, secret)
    ensures var run := Loop.RunOf(c);
            var last := hops(run.requests);
            run.outcome.Failed? && !run.outcome.error.temporary
            <==> run.requests >= 1 && (WorkerRejects(last, m, relaySecret, secret) || StrangerRejects(last))
  {
    Loop.PermanentOnlyIfRejected(c);
    RoundRejects(c, m, hops, relaySecret, secret, Loop.RunOf(c).requests);
  }

  /** A wrong address is enough: whatever the Worker would do, a JSON 404 without a code drops the message. */
  lemma WrongAddressDrops(
      c: Loop.Config, m: Message, hops: nat -> Hop, relaySecret: Script.Units, secret: Script.Units)
    requires TalksToWorker(c, m, hops, relaySecret, secret) && c.env(1).atTop.None?
    requires hops(1) == Intercepted(Strayed, 404, Some(""), "", None)
    ensures Loop.RunOf(c).requests == 1 && Loop.RunOf(c).outcome.Failed? && !Loop.RunOf(c).outcome.error.temporary
  {
    assert "" !in Script.LIMIT_CODES && StrangerRejects(hops(1));
    RoundRejects(c, m, hops, relaySecret, secret, 1);
    Loop.StopIsUnique(c, 1);
    DroppedOnlyIfRefused(c, m, hops, relaySecret, secret);
  }

  // ---- How often the binding accepts ----

  function TripOf(hop: Hop): Trip {
    match hop
    case Lost(trip, _) => trip
    case Intercepted(trip, _, _, _, _) => trip
    case Reached(contentLength, outcome, _, _) => Arrived(contentLength, outcome)
  }

  /** The binding accepts the message in this request, whether or not the relay gets to know. */
  predicate Taken(hop: Hop, m: Message, relaySecret: Script.Units, secret: Script.Units) {
    var trip := TripOf(hop);
    && trip.Arrived? && trip.outcome.Accepted?
    && Script.Reaches(RequestFor(m, relaySecret, trip.contentLength), secret)
  }

  /** ... and the relay does not. */
  predicate TakenUnheard(hop: Hop, m: Message, relaySecret: Script.Units, secret: Script.Units) {
    Taken(hop, m, relaySecret, secret) && !hop.Reached?
  }

  /** For how many of the numbers 1 to n the predicate holds. */
  function Count(p: nat -> bool, n: nat): nat {
    if n == 0 then 0 else Count(p, n - 1) + if p(n) then 1 else 0
  }

  lemma {:induction false} CountZero(p: nat -> bool, n: nat)
    ensures Count(p, n) == 0 <==> forall k :: 1 <= k <= n ==> !p(k)
  {
    if n > 0 {
      CountZero(p, n - 1);
    }
  }

  lemma {:induction false} CountSame(p: nat -> bool, q: nat -> bool, n: nat)
    requires forall k :: 1 <= k <= n ==> p(k) == q(k)
    ensures Count(p, n) == Count(q, n)
  {
    if n > 0 {
      CountSame(p, q, n - 1);
    }
  }

  /** How often the binding accepts the message in the first n requests. */
  function TimesTaken(hops: nat -> Hop, m: Message, relaySecret: Script.Units, secret: Script.Units, n: nat): nat {
    Count((k: nat) => Taken(hops(k), m, relaySecret, secret), n)
  }

  function TimesUnheard(hops: nat -> Hop, m: Message, relaySecret: Script.Units, secret: Script.Units, n: nat): nat {
    Count((k: nat) => TakenUnheard(hops(k), m, relaySecret, secret), n)
  }

  /** An acceptance is delivered to the relay, or unheard. */
  lemma TakenMeans(
      c: Loop.Config, m: Message, hops: nat -> Hop, relaySecret: Script.Units, secret: Script.Units, n: nat)
    requires TalksToWorker(c, m, hops, relaySecret, secret)
    ensures Loop.AttemptOf(c, n).parsed.Delivered?
            <==> Taken(hops(n), m, relaySecret, secret) && !TakenUnheard(hops(n), m, relaySecret, secret)
  {
    assert c.env(n).exchange == ExchangeOf(hops(n), m, relaySecret, secret);
    if hops(n).Reached? {
      Script.VerdictAcrossLanguages(
        RequestFor(m, relaySecret, hops(n).contentLength), secret, hops(n).outcome, n);
    }
  }

  /** If only the last of n requests can be read as an acceptance, all others are unheard. */
  lemma OneHeard(
      c: Loop.Config, m: Message, hops: nat -> Hop, relaySecret: Script.Units, secret: Script.Units, n: nat)
    requires TalksToWorker(c, m, hops, relaySecret, secret) && n > 0
    requires forall k :: 1 <= k < n ==> Loop.AttemptOf(c, k).parsed.Refused?
    ensures TimesTaken(hops, m, relaySecret, secret, n)
            == TimesUnheard(hops, m, relaySecret, secret, n)
               + if Loop.AttemptOf(c, n).parsed.Delivered? then 1 else 0
  {
    var taken := (k: nat) => Taken(hops(k), m, relaySecret, secret);
    var unheard := (k: nat) => TakenUnheard(hops(k), m, relaySecret, secret);
    forall k | 1 <= k < n ensures taken(k) == unheard(k) {
      TakenMeans(c, m, hops, relaySecret, secret, k);
    }
    CountSame(taken, unheard, n - 1);
    TakenMeans(c, m, hops, relaySecret, secret, n);
  }

  lemma UnheardNever(
      hops: nat -> Hop, m: Message, relaySecret: Script.Units, secret: Script.Units, n: nat)
    ensures TimesUnheard(hops, m, relaySecret, secret, n) == 0
            <==> forall k :: 1 <= k <= n ==> !TakenUnheard(hops(k), m, relaySecret, secret)
  {
    var unheard := (k: nat) => TakenUnheard(hops(k), m, relaySecret, secret);
    CountZero(unheard, n);
    assert forall k: nat :: unheard(k) == TakenUnheard(hops(k), m, relaySecret, secret);
  }

  /** All requests of a run but the last were refused; the last decides. */
  lemma LastDecides(c: Loop.Config, n: nat)
    requires n == Loop.RunOf(c).requests
    ensures forall k :: 1 <= k < n ==> Loop.AttemptOf(c, k).parsed.Refused?
    ensures Loop.RunOf(c).outcome.Sent? <==> n >= 1 && Loop.AttemptOf(c, n).parsed.Delivered?
  {
    Loop.AttemptAccounting(c);
    forall k | 1 <= k < n ensures Loop.AttemptOf(c, k).parsed.Refused? {
      assert Loop.RetryableFailure(c, k);
    }
  }

  /**
   * Conservation of acceptances: over a run the binding accepts the message once for every acceptance that
   * stays unheard, and once more if the run succeeds. So a run that succeeds delivers exactly once if and
   * only if no acceptance went unheard before, and a run that fails may well have delivered.
   */
  lemma AcceptancesCounted(
      c: Loop.Config, m: Message, hops: nat -> Hop, relaySecret: Script.Units, secret: Script.Units, n: nat)
    requires TalksToWorker(c, m, hops, relaySecret, secret) && n == Loop.RunOf(c).requests
    ensures var sent := Loop.RunOf(c).outcome.Sent?;
            var taken := TimesTaken(hops, m, relaySecret, secret, n);
            var unheard := TimesUnheard(hops, m, relaySecret, secret, n);
            && taken == unheard + (if sent then 1 else 0)
            && (taken <= 1 <==> unheard == 0 || (unheard == 1 && !sent))
            && (unheard == 0 <==> forall k :: 1 <= k <= n ==> !TakenUnheard(hops(k), m, relaySecret, secret))
  {
    LastDecides(c, n);
    UnheardNever(hops, m, relaySecret, secret, n);
    if n > 0 {
      OneHeard(c, m, hops, relaySecret, secret, n);
    }
  }

  lemma NeverTaken(hop: Hop, m: Message, relaySecret: Script.Units, secret: Script.Units)
    requires secret == [] || relaySecret != secret || Translate(Encode(PayloadOf(m))).Thrown?
    ensures !Taken(hop, m, relaySecret, secret)
  {
    if TripOf(hop).Arrived? && secret != [] {
      SecretsCompared(m, relaySecret, secret, TripOf(hop).contentLength);
    }
  }

  lemma FewTaken(c: Loop.Config, m: Message, hops: nat -> Hop, relaySecret: Script.Units, secret: Script.Units)
    requires || c.maxRetries == 0 || secret == [] || relaySecret != secret
             || Translate(Encode(PayloadOf(m))).Thrown?
    ensures TimesTaken(hops, m, relaySecret, secret, Loop.RunOf(c).requests) <= 1
  {
    var n, taken := Loop.RunOf(c).requests, (k: nat) => Taken(hops(k), m, relaySecret, secret);
    if c.maxRetries == 0 {
      Loop.AttemptAccounting(c);
    } else {
      forall k | 1 <= k <= n ensures !taken(k) {
        NeverTaken(hops(k), m, relaySecret, secret);
      }
      CountZero(taken, n);
    }
  }

  /** A first answer that gets lost, and a second one that is read. */
  function SecondHeard(n: nat): Hop {
    if n == 1 then Lost(Arrived(None, Script.Accepted("")), Delivery.DeadlineExceeded)
    else Reached(None, Script.Accepted(""), "", None)
  }

  function LostOnce(m: Message, secret: Script.Units, maxRetries: nat): Loop.Config {
    Loop.Config(
      (n: nat) => Loop.Round(None, ExchangeOf(SecondHeard(n), m, secret, secret), None, 0, None),
      Delivery.Worker, maxRetries)
  }

  lemma LostOnceGoesOn(m: Message, secret: Script.Units, maxRetries: nat)
    requires maxRetries >= 1
    ensures Loop.Continues(LostOnce(m, secret, maxRetries), 1)
  {
    var c := LostOnce(m, secret, maxRetries);
    assert c.env(1).exchange == Loop.Broken(Delivery.DeadlineExceeded);
    assert Loop.AttemptOf(c, 1).hint == 0;
  }

  lemma BothTaken(m: Message, secret: Script.Units)
    requires secret != [] && Translate(Encode(PayloadOf(m))).Translated?
    ensures TimesTaken(SecondHeard, m, secret, secret, 2) == 2
  {
    SecretsCompared(m, secret, secret, None);
    var taken := (k: nat) => Taken(SecondHeard(k), m, secret, secret);
    assert taken(1) && taken(2);
    assert Count(taken, 0) == 0 && Count(taken, 1) == 1;
  }

  /** The relay repeats the lost request, and succeeds with the second delivery. */
  lemma DeliveredTwice(m: Message, secret: Script.Units, maxRetries: nat)
    requires maxRetries >= 1 && secret != [] && Translate(Encode(PayloadOf(m))).Translated?
    ensures var c := LostOnce(m, secret, maxRetries);
            && TalksToWorker(c, m, SecondHeard, secret, secret)
            && Loop.RunOf(c).outcome.Sent? && Loop.RunOf(c).requests == 2
            && TimesTaken(SecondHeard, m, secret, secret, 2) == 2
  {
    var c := LostOnce(m, secret, maxRetries);
    BothTaken(m, secret);
    LostOnceGoesOn(m, secret, maxRetries);
    RoundDelivers(c, m, SecondHeard, secret, secret, 2);
    Loop.StopIsUnique(c, 2);
  }

  /** Under no environment does a run with this retry limit make the binding accept the message twice. */
  ghost predicate AtMostOnce(m: Message, relaySecret: Script.Units, secret: Script.Units, maxRetries: nat) {
    forall c: Loop.Config, hops: nat -> Hop ::
      TalksToWorker(c, m, hops, relaySecret, secret) && c.maxRetries == maxRetries
      ==> TimesTaken(hops, m, relaySecret, secret, Loop.RunOf(c).requests) <= 1
  }

  lemma TwiceIsPossible(m: Message, secret: Script.Units, maxRetries: nat)
    requires maxRetries >= 1 && secret != [] && Translate(Encode(PayloadOf(m))).Translated?
    ensures !AtMostOnce(m, secret, secret, maxRetries)
  {
    var c := LostOnce(m, secret, maxRetries);
    DeliveredTwice(m, secret, maxRetries);
    assert TimesTaken(SecondHeard, m, secret, secret, Loop.RunOf(c).requests) > 1;
  }

  /**
   * The Worker does not recognise a repeated request: at-most-once delivery holds, whatever happens on the
   * way, if and only if retries are off or the Worker would not hand the message to the binding anyway.
   */
  lemma AtMostOnceIff(m: Message, relaySecret: Script.Units, secret: Script.Units, maxRetries: nat)
    ensures AtMostOnce(m, relaySecret, secret, maxRetries)
            <==> || maxRetries == 0 || secret == [] || relaySecret != secret
                 || Translate(Encode(PayloadOf(m))).Thrown?
  {
    if maxRetries >= 1 && secret != [] && relaySecret == secret && Translate(Encode(PayloadOf(m))).Translated? {
      TwiceIsPossible(m, secret, maxRetries);
    } else {
      forall c: Loop.Config, hops: nat -> Hop
        | TalksToWorker(c, m, hops, relaySecret, secret) && c.maxRetries == maxRetries
        ensures TimesTaken(hops, m, relaySecret, secret, Loop.RunOf(c).requests) <= 1
      {
        FewTaken(c, m, hops, relaySecret, secret);
      }
    }
  }

  // ---- From SMTP commands to the binding ----

  lemma AcceptedReads(
      m: Message, c: Loop.Config, hops: nat -> Hop, relaySecret: Script.Units, secret: Script.Units)
    returns (message: BindingMessage)
    requires Canonical(m.lists) && TalksToWorker(c, m, hops, relaySecret, secret) && Loop.RunOf(c).outcome.Sent?
    ensures hops(Loop.RunOf(c).requests).Reached? && hops(Loop.RunOf(c).requests).outcome.Accepted?
    ensures Translate(Encode(PayloadOf(m))) == Translated(message)
    ensures ReadBinding(message) == ContentOf(m) && m.from.address != ""
  {
    SuccessMeansAccepted(c, m, hops, relaySecret, secret);
    SubmittedSurvives(m);
    message := Translate(Encode(PayloadOf(m))).message;
  }

  /** What the binding reads is the parsed submission, divided by its headers, under the envelope. */
  ghost predicate ReadsAs(content: Content, p: Smtp.Parsed, from: string, rcpts: seq<string>) {
    && SplitBy(content.lists, HeaderAddresses(p.to), HeaderAddresses(p.cc), rcpts)
    && SenderOf(content.from, p.from, from)
    && content.replyTo == p.replyTo && content.subject == p.subject
    && content.text == p.text && content.html == p.html && content.headers == p.headers
  }

  lemma FollowsReads(m: Message, p: Smtp.Parsed, from: string, rcpts: seq<string>)
    requires Smtp.Follows(m, p, from, rcpts)
    ensures ReadsAs(ContentOf(m), p, from, rcpts)
  {
  }

  /** The MAIL command a message with a sender was submitted under, and the RCPTs since. */
  lemma MailInForce(o: Smtp.Opts, h: seq<Smtp.Event>, i: nat, m: Message, cut: int)
    requires Smtp.HandsOver(o, h, i, m) && m.from.address != "" && Smtp.LastCut(o, h[..i], cut)
    ensures cut >= 0 && h[cut].Mail?
    ensures h[i].Data? && h[i].input.Raw? && h[i].input.parsed.Some?
    ensures Smtp.Follows(m, h[i].input.parsed.value, h[cut].from, Smtp.RcptsIn(h[..i][cut + 1..]))
  {
    Smtp.EnvelopeAt(o, h[..i], cut);
    Smtp.HandedFollows(o, h, i, m);
    assert m.from.address == TrimSpace(Smtp.Replay(o, h[..i]).from);
    assert TrimSpace("") == "";
  }

  /**
   * What a positive reply to DATA is worth, with the Worker behind the relay: the client had authenticated;
   * the sender the binding saw is that of the last MAIL, and on the allowlist if one is configured; the
   * addresses it was given are, once each, those of the RCPTs of this very transaction, and in To and Cc
   * exactly those the headers name, under the names given there; subject, bodies and headers are those
   * submitted.
   */
  lemma PositiveReplyIsDelivery(
      o: Smtp.Opts, h: seq<Smtp.Event>, i: nat, m: Message,
      c: Loop.Config, hops: nat -> Hop, relaySecret: Script.Units, secret: Script.Units)
    returns (cut: int, message: BindingMessage)
    requires Smtp.HandsOver(o, h, i, m) && TalksToWorker(c, m, hops, relaySecret, secret)
    requires h[i].sent == SentBy(Loop.RunOf(c)) && Smtp.DataReply(h[i].input, h[i].sent).None?
    ensures hops(Loop.RunOf(c).requests).Reached? && hops(Loop.RunOf(c).requests).outcome.Accepted?
    ensures Translate(Encode(PayloadOf(m))) == Translated(message)
    ensures Smtp.AuthenticatedBefore(o, h, i)
    ensures Smtp.LastCut(o, h[..i], cut) && cut >= 0 && h[cut].Mail?
            && ReadBinding(message).from.address == TrimSpace(h[cut].from)
    ensures Smtp.Admitted(o, ReadBinding(message).from.address)
    ensures ReadsAs(ReadBinding(message), h[i].input.parsed.value, h[cut].from, Smtp.RcptsIn(h[..i][cut + 1..]))
    ensures DeliversTo(ReadBinding(message).lists, Smtp.RcptsIn(h[..i][cut + 1..]))
  {
    SubmittedIsCanonical(o, h, i, m);
    message := AcceptedReads(m, c, hops, relaySecret, secret);
    cut := RecipientsConserved(o, h, i, m);
    MailInForce(o, h, i, m, cut);
    FollowsReads(m, h[i].input.parsed.value, h[cut].from, Smtp.RcptsIn(h[..i][cut + 1..]));
    Smtp.SentIsAuthorised(o, h, i, m);
  }
}
