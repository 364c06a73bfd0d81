/** The SMTP submission session: authentication, the envelope, and DATA. */
module Session {
  import opened Options
  import opened Message
  import opened Recipients
  import opened Domains
  import opened Delivery

  // ---- Inputs and outputs of the session ----

  datatype Opts = Opts(username: string, password: string, allowed: set<string>)

  datatype Reply = Reply(code: int, enhanced: Enhanced)

  const AUTH_REQUIRED := Reply(530, Enhanced(5, 7, 0))
  const AUTH_FAILED := Reply(535, Enhanced(5, 7, 8))
  const SENDER_REJECTED := Reply(550, Enhanced(5, 7, 1))
  const TOO_LARGE := Reply(552, Enhanced(5, 3, 4))

  /** What reading an RFC 5322 message yields, besides the envelope, and the fresh relay ID. */
  datatype Parsed = Parsed(
    id: string, rfcMessageID: string, from: Option<Address>, to: HeaderField, cc: HeaderField,
    replyTo: string, subject: string, text: string, html: string, headers: map<string, string>)

  /** What the DATA reader delivers: too much, an error, or bytes, which parse or do not. */
  datatype Input = TooLarge | Unreadable | Raw(parsed: Option<Parsed>)

  /** What Sender.Send returns. */
  datatype SendResult = Accepted(receipt: Option<Receipt>) | Classified(error: DeliveryError) | Unclassified

  datatype LogResult = Sent | Deferred | Rejected

  datatype Record = Record(
    messageID: string, rfcMessageID: string, from: string, to: seq<string>, subject: string,
    result: LogResult, httpStatus: int, providerCode: int, attempts: nat)

  datatype Event =
    | Authenticate(username: string, password: string)
    | Mail(from: string)
    | Rcpt(recipient: string)
    | Reset
    | Logout
    | Data(input: Input, sent: SendResult)

  // ---- The specification: state, steps, histories ----

  datatype State = State(authenticated: bool, from: string, recipients: seq<string>)

  const INITIAL := State(false, "", [])

  function Step(o: Opts, s: State, e: Event): State {
    match e
    case Authenticate(username, password) =>
      if username == o.username && password == o.password then s.(authenticated := true) else s
    case Mail(from) =>
      if s.authenticated && Allows(o.allowed, from) then s.(from := from, recipients := []) else s
    case Rcpt(recipient) => s.(recipients := s.recipients + [recipient])
    case Reset => s.(from := "", recipients := [])
    case Logout => s.(from := "", recipients := [])
    case Data(_, _) => s
  }

  /** The message built from a parsed submission and the envelope. */
  function MessageOf(p: Parsed, from: string, rcpts: seq<string>): Message {
    Message(p.id, p.rfcMessageID, ResolveFrom(p.from, from),
            Divide(HeaderAddresses(p.to), HeaderAddresses(p.cc), rcpts),
            p.replyTo, p.subject, p.text, p.html, p.headers)
  }

  /** The message a DATA command hands to the Sender, if it gets that far. */
  function Handed(s: State, e: Event): Option<Message> {
    if e.Data? && e.input.Raw? && e.input.parsed.Some? then
      Some(MessageOf(e.input.parsed.value, s.from, s.recipients))
    else None
  }

  function DataReply(input: Input, sent: SendResult): Option<Reply> {
    match input
    case TooLarge => Some(TOO_LARGE)
    case Unreadable => Some(Reply(451, Enhanced(4, 3, 0)))
    case Raw(None) => Some(Reply(550, Enhanced(5, 6, 0)))
    case Raw(Some(_)) =>
      match sent
      case Accepted(_) => None
      case Classified(e) => Some(Reply(e.smtpCode, e.enhanced))
      case Unclassified => Some(Reply(451, Enhanced(4, 0, 0)))
  }

  function BareRecord(result: LogResult): Record {
    Record("", "", "", [], "", result, 0, 0, 0)
  }

  function DataRecord(s: State, input: Input, sent: SendResult): Record
  {
    match input
    case TooLarge => BareRecord(Rejected)
    case Unreadable => BareRecord(Deferred)
    case Raw(None) => BareRecord(Rejected)
    case Raw(Some(p)) =>
      var m := MessageOf(p, s.from, s.recipients);
      var base := Record(m.id, m.rfcMessageID, m.from.address, AllRecipients(m.lists), m.subject, Deferred, 0, 0, 0);
      match sent
      case Accepted(None) => base.(result := Sent)
      case Accepted(Some(r)) => base.(result := Sent, httpStatus := r.httpStatus, attempts := r.attempts)
      case Classified(e) =>
        base.(result := if e.temporary then Deferred else Rejected,
              httpStatus := e.httpStatus, providerCode := e.providerCode, attempts := e.attempts)
      case Unclassified => base
  }

  /** The status, provider code and attempts a result reports, where it reports them. */
  function Reported(sent: SendResult): (int, int, nat) {
    match sent
    case Accepted(None) => (0, 0, 0)
    case Accepted(Some(r)) => (r.httpStatus, 0, r.attempts)
    case Classified(e) => (e.httpStatus, e.providerCode, e.attempts)
    case Unclassified => (0, 0, 0)
  }

  /** The record names the message if one was handed to the Sender, with its figures; nothing otherwise. */
  lemma RecordNamesMessage(s: State, input: Input, sent: SendResult)
    ensures var r := DataRecord(s, input, sent);
            match Handed(s, Data(input, sent))
            case None => r == Record("", "", "", [], "", r.result, 0, 0, 0) && r.result != Sent
            case Some(m) => r.messageID == m.id && r.rfcMessageID == m.rfcMessageID && r.subject == m.subject
                            && r.from == m.from.address && r.to == AllRecipients(m.lists)
                            && (r.httpStatus, r.providerCode, r.attempts) == Reported(sent)
                            && (r.result == Sent <==> sent.Accepted?)
  {
  }

  /** The session state together with what has gone out: messages handed over, records logged. */
  datatype World = World(state: State, outbox: seq<Message>, log: seq<Record>)

  function React(o: Opts, w: World, e: Event): World {
    World(Step(o, w.state, e),
          w.outbox + match Handed(w.state, e) case Some(m) => [m] case None => [],
          w.log + if e.Data? then [DataRecord(w.state, e.input, e.sent)] else [])
  }

  /** The effect of a history of calls on a new session. */
  function Run(o: Opts, h: seq<Event>): World {
    if h == [] then World(INITIAL, [], []) else React(o, Run(o, h[..|h| - 1]), h[|h| - 1])
  }

  function Replay(o: Opts, h: seq<Event>): State {
    Run(o, h).state
  }

  /** The world w is what the history h leads to. */
  ghost predicate LeadsTo(o: Opts, h: seq<Event>, w: World) {
    w == Run(o, h)
  }

  lemma OneMore(o: Opts, h: seq<Event>, w: World, e: Event)
    requires LeadsTo(o, h, w)
    ensures LeadsTo(o, h + [e], React(o, w, e))
  {
    assert (h + [e])[..|h + [e]| - 1] == h;
  }

  /** Any call but DATA only steps the state. */
  lemma OneMoreQuiet(o: Opts, h: seq<Event>, w: World, e: Event)
    requires LeadsTo(o, h, w) && !e.Data?
    ensures LeadsTo(o, h + [e], w.(state := Step(o, w.state, e)))
  {
    OneMore(o, h, w, e);
    assert React(o, w, e) == w.(state := Step(o, w.state, e));
  }

  /** DATA adds the record, and the message if one was handed over. */
  lemma OneMoreData(o: Opts, h: seq<Event>, w: World, input: Input, sent: SendResult,
                    handed: Option<Message>, record: Record)
    requires LeadsTo(o, h, w)
    requires handed == Handed(w.state, Data(input, sent)) && record == DataRecord(w.state, input, sent)
    ensures LeadsTo(o, h + [Data(input, sent)],
                    World(w.state, w.outbox + if handed.Some? then [handed.value] else [], w.log + [record]))
  {
    OneMore(o, h, w, Data(input, sent));
  }

  // ---- The session object ----

  class Session {
    const opts: Opts
    var authenticated: bool
    var from: string
    var recipients: seq<string>
    // What the session did to the outside: messages handed to the Sender, delivery records logged.
    var outbox: seq<Message>
    var log: seq<Record>
    // The calls made so far, and what they lead to.
    ghost var history: seq<Event>
    ghost var world: World

    ghost predicate Holds(s: State)
      reads this
    {
      authenticated == s.authenticated && from == s.from && recipients == s.recipients
    }

    /** The fields are a function of the calls made so far. */
    ghost predicate Valid()
      reads this
    {
      && LeadsTo(opts, history, world)
      && Holds(world.state) && outbox == world.outbox && log == world.log
    }

    constructor (opts: Opts)
      ensures Valid() && history == [] && this.opts == opts
    {
      this.opts := opts;
      authenticated, from, recipients := false, "", [];
      outbox, log := [], [];
      history := [];
      world := World(INITIAL, [], []);
    }

    /** authenticate: both comparisons are made, both must hold. */
    method Authenticate(username: string, password: string) returns (reply: Option<Reply>)
      requires Valid()
      modifies this
      ensures Valid() && history == old(history) + [Event.Authenticate(username, password)]
      ensures reply == if username == opts.username && password == opts.password then None
                       else Some(Reply(535, Enhanced(5, 7, 8)))
      ensures authenticated == (old(authenticated) || reply.None?)
      ensures from == old(from) && recipients == old(recipients)
    {
      ghost var e := Event.Authenticate(username, password);
      OneMoreQuiet(opts, history, world, e);
      history, world := history + [e], world.(state := Step(opts, world.state, e));
      var validUser := username == opts.username;
      var validPass := password == opts.password;
      if !validUser || !validPass {
        return Some(AUTH_FAILED);
      }
      authenticated := true;
      return None;
    }

    /** Reset clears the envelope and leaves the authentication alone. */
    method Reset()
      requires Valid()
      modifies this
      ensures Valid() && history == old(history) + [Event.Reset]
      ensures from == "" && recipients == [] && authenticated == old(authenticated)
    {
      ghost var e := Event.Reset;
      OneMoreQuiet(opts, history, world, e);
      history, world := history + [e], world.(state := Step(opts, world.state, e));
      from := "";
      recipients := [];
    }

    /** Logout does what Reset does; it is a call of its own in the history. */
    method Logout()
      requires Valid()
      modifies this
      ensures Valid() && history == old(history) + [Event.Logout]
      ensures from == "" && recipients == [] && authenticated == old(authenticated)
    {
      ghost var e := Event.Logout;
      OneMoreQuiet(opts, history, world, e);
      history, world := history + [e], world.(state := Step(opts, world.state, e));
      from := "";
      recipients := [];
    }

    /** Mail: refused without authentication or outside the allowlist, and then nothing changes. */
    method Mail(sender: string) returns (reply: Option<Reply>)
      requires Valid()
      modifies this
      ensures Valid() && history == old(history) + [Event.Mail(sender)]
      ensures reply == if !old(authenticated) then Some(Reply(530, Enhanced(5, 7, 0)))
                       else if !Allows(opts.allowed, sender) then Some(Reply(550, Enhanced(5, 7, 1)))
                       else None
      ensures reply.Some? ==> from == old(from) && recipients == old(recipients)
      ensures reply.None? ==> from == sender && recipients == []
      ensures old(authenticated) && opts.allowed == {} ==> reply.None?
      ensures authenticated == old(authenticated)
    {
      ghost var e := Event.Mail(sender);
      OneMoreQuiet(opts, history, world, e);
      history, world := history + [e], world.(state := Step(opts, world.state, e));
      if !authenticated {
        return Some(AUTH_REQUIRED);
      }
      var allowed := AllowsSender(opts.allowed, sender);
      if !allowed {
        return Some(SENDER_REJECTED);
      }
      from := sender;
      recipients := [];
      return None;
    }

    /** Rcpt appends, whatever has or has not come before. */
    method Rcpt(recipient: string)
      requires Valid()
      modifies this
      ensures Valid() && history == old(history) + [Event.Rcpt(recipient)]
      ensures recipients == old(recipients) + [recipient]
      ensures from == old(from) && authenticated == old(authenticated)
    {
      ghost var e := Event.Rcpt(recipient);
      OneMoreQuiet(opts, history, world, e);
      history, world := history + [e], world.(state := Step(opts, world.state, e));
      recipients := recipients + [recipient];
    }

    /** Parse, from the point where the headers have been read. */
    method Parse(p: Parsed) returns (m: Message)
      ensures m == MessageOf(p, from, recipients)
    {
      var lists := SplitRecipients(HeaderAddresses(p.to), HeaderAddresses(p.cc), recipients);
      m := Message(p.id, p.rfcMessageID, ResolveFrom(p.from, from), lists,
                   p.replyTo, p.subject, p.text, p.html, p.headers);
    }

    /** The part of Data after parsing: the message goes to the Sender, its answer is classified. */
    method Deliver(p: Parsed, sent: SendResult, ghost s: State)
      returns (m: Message, record: Record, reply: Option<Reply>)
      requires Holds(s)
      ensures m == MessageOf(p, s.from, s.recipients)
      ensures record == DataRecord(s, Raw(Some(p)), sent)
      ensures reply == DataReply(Raw(Some(p)), sent)
    {
      m := Parse(p);
      var everyone := CollectRecipients(m.lists);
      record := Record(m.id, m.rfcMessageID, m.from.address, everyone, m.subject, Rejected, 0, 0, 0);
      match sent {
        case Classified(e) =>
          record := record.(httpStatus := e.httpStatus, providerCode := e.providerCode, attempts := e.attempts);
          if e.temporary {
            record := record.(result := Deferred);
          } else {
            record := record.(result := Rejected);
          }
          reply := Some(Reply(e.smtpCode, e.enhanced));
        case Unclassified =>
          record := record.(result := Deferred);
          reply := Some(Reply(451, Enhanced(4, 0, 0)));
        case Accepted(receipt) =>
          record := record.(result := Sent);
          if receipt.Some? {
            record := record.(httpStatus := receipt.value.httpStatus, attempts := receipt.value.attempts);
          }
          reply := None;
      }
    }

    /** The exits of Data, one after another; handed holds the message if the Sender is reached. */
    method Conclude(input: Input, sent: SendResult, ghost s: State)
      returns (handed: Option<Message>, record: Record, reply: Option<Reply>)
      requires Holds(s)
      ensures handed == Handed(s, Event.Data(input, sent))
      ensures record == DataRecord(s, input, sent)
      ensures reply == DataReply(input, sent)
    {
      handed, record := None, BareRecord(Rejected);
      if input.TooLarge? {
        return handed, record, Some(TOO_LARGE);
      }
      if input.Unreadable? {
        return handed, record.(result := Deferred), Some(Reply(451, Enhanced(4, 3, 0)));
      }
      if input.parsed.None? {
        return handed, record, Some(Reply(550, Enhanced(5, 6, 0)));
      }
      var m: Message;
      m, record, reply := Deliver(input.parsed.value, sent, s);
      handed := Some(m);
    }

    /** Data: whichever exit is taken, the deferred call logs exactly one record. */
    method Data(input: Input, sent: SendResult) returns (reply: Option<Reply>)
      requires Valid()
      modifies this
      ensures Valid() && history == old(history) + [Event.Data(input, sent)]
      ensures reply == DataReply(input, sent)
      ensures input.TooLarge? ==> reply == Some(Reply(552, Enhanced(5, 3, 4)))
      ensures input.Unreadable? ==> reply == Some(Reply(451, Enhanced(4, 3, 0)))
      ensures input == Raw(None) ==> reply == Some(Reply(550, Enhanced(5, 6, 0)))
      ensures input.Raw? && input.parsed.Some? && sent == Unclassified
              ==> reply == Some(Reply(451, Enhanced(4, 0, 0)))
      ensures |log| == |old(log)| + 1
      ensures from == old(from) && recipients == old(recipients) && authenticated == old(authenticated)
    {
      var handed, record;
      handed, record, reply := Conclude(input, sent, world.state);
      OneMoreData(opts, history, world, input, sent, handed, record);
      history := history + [Event.Data(input, sent)];
      outbox := outbox + if handed.Some? then [handed.value] else [];
      log := log + [record];
      world := World(world.state, outbox, log);
    }
  }

  // ---- Every history ----

  /** Some earlier call presented the configured pair. */
  predicate AuthenticatedBefore(o: Opts, h: seq<Event>, i: nat)
    requires i <= |h|
  {
    exists j :: 0 <= j < i && h[j] == Authenticate(o.username, o.password)
  }

  /** A MAIL command that was accepted. */
  predicate MailAccepted(o: Opts, h: seq<Event>, i: nat)
    requires i < |h|
  {
    h[i].Mail? && AuthenticatedBefore(o, h, i) && Allows(o.allowed, h[i].from)
  }

  /** A call that starts the envelope afresh. */
  predicate Cuts(o: Opts, h: seq<Event>, i: nat)
    requires i < |h|
  {
    h[i].Reset? || h[i].Logout? || MailAccepted(o, h, i)
  }

  function RcptsIn(h: seq<Event>): seq<string> {
    if h == [] then []
    else RcptsIn(h[..|h| - 1]) + if h[|h| - 1].Rcpt? then [h[|h| - 1].recipient] else []
  }

  /** The last call before the end of h that cut the envelope, or -1. */
  predicate LastCut(o: Opts, h: seq<Event>, c: int) {
    && -1 <= c < |h|
    && (c >= 0 ==> Cuts(o, h, c))
    && forall i :: c < i < |h| ==> !Cuts(o, h, i)
  }

  lemma CutsOfPrefix(o: Opts, h: seq<Event>, n: nat)
    requires n <= |h|
    ensures forall i :: 0 <= i <= n ==> AuthenticatedBefore(o, h[..n], i) == AuthenticatedBefore(o, h, i)
    ensures forall i :: 0 <= i < n ==> Cuts(o, h[..n], i) == Cuts(o, h, i)
  {
    forall i | 0 <= i <= n ensures AuthenticatedBefore(o, h[..n], i) == AuthenticatedBefore(o, h, i) {
      if AuthenticatedBefore(o, h, i) {
        var j :| 0 <= j < i && h[j] == Authenticate(o.username, o.password);
        assert h[..n][j] == h[j];
      }
    }
  }

  lemma AuthenticatedSnoc(o: Opts, h: seq<Event>)
    requires h != []
    ensures var n := |h| - 1;
            AuthenticatedBefore(o, h, n + 1)
            <==> AuthenticatedBefore(o, h[..n], n) || h[n] == Authenticate(o.username, o.password)
  {
    CutsOfPrefix(o, h, |h| - 1);
    if h[|h| - 1] == Authenticate(o.username, o.password) {
      assert AuthenticatedBefore(o, h, |h|);
    }
  }

  lemma {:induction false} AuthenticatedMeans(o: Opts, h: seq<Event>)
    ensures Replay(o, h).authenticated <==> AuthenticatedBefore(o, h, |h|)
  {
    if h != [] {
      AuthenticatedMeans(o, h[..|h| - 1]);
      AuthenticatedSnoc(o, h);
    }
  }

  lemma LastCutSnoc(o: Opts, h: seq<Event>, c: int)
    requires h != []
    ensures LastCut(o, h, c) <==> if Cuts(o, h, |h| - 1) then c == |h| - 1 else LastCut(o, h[..|h| - 1], c)
  {
    CutsOfPrefix(o, h, |h| - 1);
  }

  lemma {:induction false} LastCutExists(o: Opts, h: seq<Event>) returns (c: int)
    ensures LastCut(o, h, c)
  {
    if h == [] {
      c := -1;
    } else {
      c := LastCutExists(o, h[..|h| - 1]);
      c := if Cuts(o, h, |h| - 1) then |h| - 1 else c;
      LastCutSnoc(o, h, c);
    }
  }

  lemma RcptsSnoc(h: seq<Event>, c: int)
    requires h != [] && -1 <= c < |h| - 1
    ensures RcptsIn(h[c + 1..])
            == RcptsIn(h[..|h| - 1][c + 1..]) + if h[|h| - 1].Rcpt? then [h[|h| - 1].recipient] else []
  {
    var tail := h[c + 1..];
    assert tail[..|tail| - 1] == h[..|h| - 1][c + 1..];
  }

  lemma EnvelopeSnoc(o: Opts, h: seq<Event>)
    requires h != []
    ensures var e, before, s := h[|h| - 1], Replay(o, h[..|h| - 1]), Replay(o, h);
            && (Cuts(o, h, |h| - 1) ==> s.from == (if e.Mail? then e.from else "") && s.recipients == [])
            && (!Cuts(o, h, |h| - 1) ==> s.from == before.from
                                         && s.recipients == before.recipients + if e.Rcpt? then [e.recipient] else [])
  {
    AuthenticatedMeans(o, h[..|h| - 1]);
    CutsOfPrefix(o, h, |h| - 1);
  }

  lemma {:induction false} EnvelopeAt(o: Opts, h: seq<Event>, c: int)
    requires LastCut(o, h, c)
    ensures Replay(o, h).from == if c >= 0 && h[c].Mail? then h[c].from else ""
    ensures Replay(o, h).recipients == RcptsIn(h[c + 1..])
  {
    if h != [] {
      EnvelopeSnoc(o, h);
      LastCutSnoc(o, h, c);
      if c == |h| - 1 {
        assert h[c + 1..] == [];
      } else {
        EnvelopeAt(o, h[..|h| - 1], c);
        RcptsSnoc(h, c);
      }
    }
  }

  /** The session is authenticated exactly if the configured pair was presented at some time. */
  ghost predicate ClientKnown(o: Opts, h: seq<Event>) {
    Replay(o, h).authenticated <==> AuthenticatedBefore(o, h, |h|)
  }

  /** The envelope after h, c being the last call that cut it. */
  ghost predicate EnvelopeSince(o: Opts, h: seq<Event>, c: int)
    requires -1 <= c < |h|
  {
    && Replay(o, h).from == (if c >= 0 && h[c].Mail? then h[c].from else "")
    && Replay(o, h).recipients == RcptsIn(h[c + 1..])
  }

  lemma ClientIsKnown(o: Opts, h: seq<Event>)
    ensures ClientKnown(o, h)
  {
    AuthenticatedMeans(o, h);
  }

  lemma EnvelopeIsSince(o: Opts, h: seq<Event>, c: int)
    requires LastCut(o, h, c)
    ensures EnvelopeSince(o, h, c)
  {
    EnvelopeAt(o, h, c);
  }

  /**
   * The fields refine the history: with c the last accepted MAIL, RSET or QUIT, the sender is that of the
   * MAIL at c (none otherwise), the recipients are the RCPTs after c, and authentication is never lost.
   */
  lemma FieldsRefineHistory(o: Opts, h: seq<Event>) returns (c: int)
    ensures LastCut(o, h, c) && ClientKnown(o, h) && EnvelopeSince(o, h, c)
  {
    c := LastCutExists(o, h);
    EnvelopeIsSince(o, h, c);
    ClientIsKnown(o, h);
  }

  /** Nobody gets a sender into the session without authenticating and passing the allowlist. */
  lemma {:induction false} SenderIsAuthorised(o: Opts, h: seq<Event>)
    ensures Replay(o, h).from != "" ==> Replay(o, h).authenticated && Allows(o.allowed, Replay(o, h).from)
  {
    if h != [] {
      SenderIsAuthorised(o, h[..|h| - 1]);
    }
  }

  /** The DATA command at position i hands the message to the Sender. */
  predicate HandsOver(o: Opts, h: seq<Event>, i: nat, m: Message) {
    i < |h| && Handed(Replay(o, h[..i]), h[i]) == Some(m)
  }

  /** The message is the parsed submission p, divided by its headers, under the envelope. */
  ghost predicate Follows(m: Message, p: Parsed, from: string, rcpts: seq<string>) {
    && SplitBy(m.lists, HeaderAddresses(p.to), HeaderAddresses(p.cc), rcpts)
    && SenderOf(m.from, p.from, from)
    && m.id == p.id && m.rfcMessageID == p.rfcMessageID && m.replyTo == p.replyTo
    && m.subject == p.subject && m.text == p.text && m.html == p.html && m.headers == p.headers
  }

  lemma MessageFollows(p: Parsed, from: string, rcpts: seq<string>)
    ensures Follows(MessageOf(p, from, rcpts), p, from, rcpts)
  {
    DivideSplits(HeaderAddresses(p.to), HeaderAddresses(p.cc), rcpts);
    SenderResolved(p.from, from);
  }

  /** What DATA hands over follows the headers of the submission and the envelope at that time. */
  lemma HandedFollows(o: Opts, h: seq<Event>, i: nat, m: Message)
    requires HandsOver(o, h, i, m)
    ensures h[i].Data? && h[i].input.Raw? && h[i].input.parsed.Some?
    ensures Follows(m, h[i].input.parsed.value, Replay(o, h[..i]).from, Replay(o, h[..i]).recipients)
  {
    MessageFollows(h[i].input.parsed.value, Replay(o, h[..i]).from, Replay(o, h[..i]).recipients);
  }

  lemma OutboxSnoc(o: Opts, h: seq<Event>, m: Message)
    requires h != [] && m in Run(o, h).outbox
    ensures m in Run(o, h[..|h| - 1]).outbox || HandsOver(o, h, |h| - 1, m)
  {
  }

  lemma HandsOverInPrefix(o: Opts, h: seq<Event>, n: nat, i: nat, m: Message)
    requires n <= |h| && HandsOver(o, h[..n], i, m)
    ensures HandsOver(o, h, i, m)
  {
    assert h[..n][..i] == h[..i];
  }

  /** Every message in the outbox was handed over by some DATA command of the history. */
  lemma {:induction false} OutboxOrigin(o: Opts, h: seq<Event>, m: Message)
    requires m in Run(o, h).outbox
    ensures exists i :: HandsOver(o, h, i, m)
  {
    OutboxSnoc(o, h, m);
    var n := |h| - 1;
    if !HandsOver(o, h, n, m) {
      OutboxOrigin(o, h[..n], m);
      var i :| HandsOver(o, h[..n], i, m);
      HandsOverInPrefix(o, h, n, i, m);
    }
  }

  /** However the allowlist was configured, if one was, the domain of the address is on it. */
  ghost predicate Admitted(o: Opts, address: string) {
    forall raw :: Normalize(raw) != [] && o.allowed == PolicyOf(Normalize(raw)) ==> DomainOf(address) in Normalize(raw)
  }

  /**
   * Authorisation of what is sent: every message ever handed to the Sender with a sender at all was
   * submitted by an authenticated client, and under an allowlist configured through normalizeDomains the
   * domain of its sender is on the list, although MAIL FROM looked at the sender before trimming.
   */
  lemma SentIsAuthorised(o: Opts, h: seq<Event>, i: nat, m: Message)
    requires HandsOver(o, h, i, m) && m.from.address != ""
    ensures AuthenticatedBefore(o, h, i)
    ensures o.allowed == {} || ListsTrimmed(o.allowed) ==> Allows(o.allowed, m.from.address)
    ensures Admitted(o, m.from.address)
  {
    var from := Replay(o, h[..i]).from;
    SenderIsAuthorised(o, h[..i]);
    AuthenticatedMeans(o, h[..i]);
    CutsOfPrefix(o, h, i);
    if o.allowed != {} {
      TrimSafe(o.allowed);
    }
    forall raw | Normalize(raw) != [] && o.allowed == PolicyOf(Normalize(raw))
      ensures DomainOf(m.from.address) in Normalize(raw)
    {
      ConfiguredListIsTrimSafe(raw, from);
      AllowsExactly(raw, m.from.address);
    }
  }

  /** Without a sender nothing of the kind holds: a new session hands over whatever DATA brings. */
  lemma UnsignedHandover(o: Opts, p: Parsed, sent: SendResult)
    ensures var h := [Event.Data(Raw(Some(p)), sent)];
            && Handed(Replay(o, h[..0]), h[0]).Some?
            && Handed(Replay(o, h[..0]), h[0]).value.from.address == ""
            && !AuthenticatedBefore(o, h, 0)
  {
    var h := [Event.Data(Raw(Some(p)), sent)];
    assert h[..0] == [];
  }

  /** Under such an allowlist, a message without a sender cannot be the result of an accepted MAIL. */
  lemma NoBlankSender(o: Opts, raw: string, h: seq<Event>, i: nat, m: Message)
    requires Normalize(raw) != [] && o.allowed == PolicyOf(Normalize(raw))
    requires HandsOver(o, h, i, m)
    ensures m.from.address == "" <==> Replay(o, h[..i]).from == ""
  {
    var from := Replay(o, h[..i]).from;
    if from != "" {
      SenderIsAuthorised(o, h[..i]);
      ConfiguredListIsTrimSafe(raw, from);
      AllowsExactly(raw, m.from.address);
      NormalizeIsNormal(raw);
      assert NormalDomain(DomainOf(m.from.address));
    }
  }

  // ---- Reply, log record and classification ----

  /** The record tells what the client was told, and the reply code matches its enhanced status. */
  predicate Agrees(reply: Option<Reply>, result: LogResult) {
    match reply
    case None => result == Sent
    case Some(r) =>
      && (result == Deferred <==> 400 <= r.code < 500)
      && (result == Rejected <==> 500 <= r.code < 600)
      && result != Sent
      && r.enhanced.class_ == r.code / 100
  }

  predicate ConsistentError(e: DeliveryError) {
    (if e.temporary then 400 <= e.smtpCode < 500 else 500 <= e.smtpCode < 600) && e.enhanced.class_ == e.smtpCode / 100
  }

  /** Reply and log agree on every DATA command, if and only if a classified error is consistent in itself. */
  lemma ReplyAndLogAgree(s: State, input: Input, sent: SendResult)
    ensures Agrees(DataReply(input, sent), DataRecord(s, input, sent).result)
            <==> (input.Raw? && input.parsed.Some? && sent.Classified? ==> ConsistentError(sent.error))
  {
  }

  function CountData(h: seq<Event>): nat {
    if h == [] then 0 else CountData(h[..|h| - 1]) + if h[|h| - 1].Data? then 1 else 0
  }

  /** Exactly one record per DATA command, and a message for each one that could be parsed. */
  lemma {:induction false} OneRecordPerData(o: Opts, h: seq<Event>)
    ensures |Run(o, h).log| == CountData(h) >= |Run(o, h).outbox|
  {
    if h != [] {
      OneRecordPerData(o, h[..|h| - 1]);
    }
  }
}
