/** The request body the relay posts, and its translation into the message of the send_email binding. */
module Payload {
  import opened Options
  import opened Message

  // ---- JSON values and JavaScript's view of them ----

  /** A decoded JSON value; Undefined is what reading an absent property yields. */
  datatype Json =
    | Undefined | Null | Bool(b: bool) | Num(n: real) | Str(s: string)
    | Arr(items: seq<Json>) | Obj(fields: map<string, Json>)

  predicate Truthy(v: Json) {
    match v
    case Undefined => false
    case Null => false
    case Bool(b) => b
    case Num(n) => n != 0.0
    case Str(s) => s != ""
    case Arr(_) => true
    case Obj(_) => true
  }

  /** The values that count as false. */
  lemma FalsyListed(v: Json)
    ensures !Truthy(v) <==> v == Undefined || v == Null || v == Bool(false) || v == Num(0.0) || v == Str("")
  {
  }

  /** Reading a property that only plain objects can carry. */
  function Get(v: Json, key: string): Json {
    if v.Obj? && key in v.fields then v.fields[key] else Undefined
  }

  /** Object.keys(v).length */
  function KeyCount(v: Json): nat {
    match v
    case Str(s) => |s|
    case Arr(items) => |items|
    case Obj(fields) => |fields|
    case _ => 0
  }

  // ---- The relay's side ----

  datatype AddressPayload = AddressPayload(address: string, name: string)

  datatype SendPayload = SendPayload(
    from: AddressPayload,
    to: seq<AddressPayload>,
    cc: seq<AddressPayload>,
    bcc: seq<AddressPayload>,
    replyTo: string,
    subject: string,
    text: string,
    html: string,
    headers: map<string, string>)

  function ToAddressPayload(a: Address): AddressPayload {
    AddressPayload(a.address, a.name)
  }

  function AddressPayloads(addrs: seq<Address>): (out: seq<AddressPayload>)
    ensures |out| == |addrs|
    ensures forall i :: 0 <= i < |out| ==> out[i] == ToAddressPayload(addrs[i])
  {
    seq(|addrs|, i requires 0 <= i < |addrs| => ToAddressPayload(addrs[i]))
  }

  /** toAddressPayloads: fills a slice of the right length. */
  method ToAddressPayloads(addrs: seq<Address>) returns (out: seq<AddressPayload>)
    ensures out == AddressPayloads(addrs)
  {
    var slice := new AddressPayload[|addrs|](_ => AddressPayload("", ""));
    for i := 0 to |addrs|
      invariant slice[..i] == AddressPayloads(addrs)[..i]
    {
      slice[i] := ToAddressPayload(addrs[i]);
    }
    out := slice[..];
  }

  function PayloadOf(m: Message): SendPayload {
    SendPayload(ToAddressPayload(m.from), AddressPayloads(m.lists.to), AddressPayloads(m.lists.cc),
                AddressPayloads(m.lists.bcc), m.replyTo, m.subject, m.text, m.html, m.headers)
  }

  /** buildPayload: Cc, Bcc and Headers are only set when there is something to set. */
  method BuildPayload(m: Message) returns (p: SendPayload)
    ensures p == PayloadOf(m)
  {
    var toList := ToAddressPayloads(m.lists.to);
    p := SendPayload(ToAddressPayload(m.from), toList, [], [], m.replyTo, m.subject, m.text, m.html, map[]);
    if |m.lists.cc| > 0 {
      var ccList := ToAddressPayloads(m.lists.cc);
      p := p.(cc := ccList);
    }
    if |m.lists.bcc| > 0 {
      var bccList := ToAddressPayloads(m.lists.bcc);
      p := p.(bcc := bccList);
    }
    if |m.headers| > 0 {
      p := p.(headers := m.headers);
    }
  }

  /** A JSON request body that is an object; a property that was left out is Undefined. */
  datatype WireBody = WireBody(
    from: Json, to: Json, cc: Json, bcc: Json, reply_to: Json, subject: Json, text: Json, html: Json,
    headers: Json)

  /** An omitempty string field. */
  function OptString(s: string): Json {
    if s == "" then Undefined else Str(s)
  }

  function EncodeAddress(a: AddressPayload): Json {
    if a.name == "" then Obj(map["address" := Str(a.address)])
    else Obj(map["address" := Str(a.address), "name" := Str(a.name)])
  }

  function EncodeAll(items: seq<AddressPayload>): (out: seq<Json>)
    ensures |out| == |items|
    ensures forall i :: 0 <= i < |out| ==> out[i] == EncodeAddress(items[i])
  {
    seq(|items|, i requires 0 <= i < |items| => EncodeAddress(items[i]))
  }

  function OptList(items: seq<AddressPayload>): Json {
    if items == [] then Undefined else Arr(EncodeAll(items))
  }

  function EncodeHeaders(h: map<string, string>): Json {
    Obj(map k | k in h :: Str(h[k]))
  }

  /** The JSON encoding of the payload under its struct tags. */
  function Encode(p: SendPayload): WireBody {
    WireBody(EncodeAddress(p.from), Arr(EncodeAll(p.to)), OptList(p.cc), OptList(p.bcc), OptString(p.replyTo),
         Str(p.subject), OptString(p.text), OptString(p.html),
         if |p.headers| == 0 then Undefined else EncodeHeaders(p.headers))
  }

  // ---- The Worker's side ----

  /** toBindingAddress; Null is its "no address". */
  function ToBindingAddress(value: Json): Json {
    if !Truthy(value) then Null
    else if value.Str? then value
    else if !Truthy(Get(value, "address")) then Null
    else if Truthy(Get(value, "name")) then
      Obj(map["email" := Get(value, "address"), "name" := Get(value, "name")])
    else Obj(map["email" := Get(value, "address")])
  }

  /** items.map(toBindingAddress).filter(Boolean) */
  function MapFilter(items: seq<Json>): seq<Json> {
    if items == [] then []
    else
      var a := ToBindingAddress(items[0]);
      (if Truthy(a) then [a] else []) + MapFilter(items[1..])
  }

  function ToBindingAddressList(value: Json): seq<Json> {
    if !Truthy(value) then []
    else MapFilter(if value.Arr? then value.items else [value])
  }

  datatype Fault = FromRequired | RecipientRequired | SubjectRequired | BodyRequired

  /** The message handed to the binding; a property that was not assigned is Undefined. */
  datatype BindingMessage = BindingMessage(
    from: Json, subject: Json, to: Json, cc: Json, bcc: Json, text: Json, html: Json, replyTo: Json,
    headers: Json)

  datatype Translation = Translated(message: BindingMessage) | Thrown(fault: Fault)

  /** Which check of toBindingMessage fails first, if any. */
  function FaultOf(p: WireBody): Option<Fault> {
    if !Truthy(ToBindingAddress(p.from)) then Some(FromRequired)
    else if ToBindingAddressList(p.to) == [] && ToBindingAddressList(p.cc) == [] && ToBindingAddressList(p.bcc) == []
    then Some(RecipientRequired)
    else if !Truthy(p.subject) then Some(SubjectRequired)
    else if !Truthy(p.text) && !Truthy(p.html) then Some(BodyRequired)
    else None
  }

  function ListIfAny(items: seq<Json>): Json {
    if items == [] then Undefined else Arr(items)
  }

  function IfTruthy(v: Json): Json {
    if Truthy(v) then v else Undefined
  }

  function Translate(p: WireBody): Translation {
    match FaultOf(p)
    case Some(fault) => Thrown(fault)
    case None =>
      Translated(BindingMessage(
                   ToBindingAddress(p.from), p.subject,
                   ListIfAny(ToBindingAddressList(p.to)), ListIfAny(ToBindingAddressList(p.cc)),
                   ListIfAny(ToBindingAddressList(p.bcc)),
                   IfTruthy(p.text), IfTruthy(p.html), IfTruthy(p.reply_to),
                   if KeyCount(p.headers) > 0 then p.headers else Undefined))
  }

  /** toBindingMessage: validates and fills the message field by field. */
  method ToBindingMessage(payload: WireBody) returns (t: Translation)
    ensures t == Translate(payload)
  {
    var from := ToBindingAddress(payload.from);
    if !Truthy(from) {
      return Thrown(FromRequired);
    }
    var toList := ToBindingAddressList(payload.to);
    var ccList := ToBindingAddressList(payload.cc);
    var bccList := ToBindingAddressList(payload.bcc);
    if |toList| == 0 && |ccList| == 0 && |bccList| == 0 {
      return Thrown(RecipientRequired);
    }
    if !Truthy(payload.subject) {
      return Thrown(SubjectRequired);
    }
    if !Truthy(payload.text) && !Truthy(payload.html) {
      return Thrown(BodyRequired);
    }

    var message := BindingMessage(from, payload.subject, Undefined, Undefined, Undefined, Undefined, Undefined,
                                  Undefined, Undefined);
    if |toList| > 0 { message := message.(to := Arr(toList)); }
    if |ccList| > 0 { message := message.(cc := Arr(ccList)); }
    if |bccList| > 0 { message := message.(bcc := Arr(bccList)); }
    if Truthy(payload.text) { message := message.(text := payload.text); }
    if Truthy(payload.html) { message := message.(html := payload.html); }
    if Truthy(payload.reply_to) { message := message.(replyTo := payload.reply_to); }
    if Truthy(payload.headers) && KeyCount(payload.headers) > 0 {
      message := message.(headers := payload.headers);
    }
    return Translated(message);
  }

  /** What counts as an address: a string, taken over as it is, or an object with an address. */
  lemma BindingAddressMeans(v: Json)
    ensures var b := ToBindingAddress(v);
            && (Truthy(b) <==> (v.Str? && v.s != "") || (v.Obj? && Truthy(Get(v, "address"))))
            && (Truthy(b) && v.Str? ==> b == v)
            && (Truthy(b) && v.Obj? ==>
                  && Get(b, "email") == Get(v, "address")
                  && ("name" in b.fields <==> Truthy(Get(v, "name")))
                  && ("name" in b.fields ==> b.fields["name"] == Get(v, "name")))
  {
    assert "email" != "name";
  }

  lemma MapFilterCons(v: Json, rest: seq<Json>)
    ensures MapFilter([v] + rest)
            == (if Truthy(ToBindingAddress(v)) then [ToBindingAddress(v)] else []) + MapFilter(rest)
  {
    assert ([v] + rest)[1..] == rest;
  }

  /** Lists keep their order and lose exactly what is no address. */
  lemma {:induction false} MapFilterConcat(a: seq<Json>, b: seq<Json>)
    ensures MapFilter(a + b) == MapFilter(a) + MapFilter(b)
  {
    if a == [] {
      assert a + b == b;
    } else {
      assert a == [a[0]] + a[1..] && a + b == [a[0]] + (a[1..] + b);
      MapFilterCons(a[0], a[1..]);
      MapFilterCons(a[0], a[1..] + b);
      MapFilterConcat(a[1..], b);
    }
  }

  /** Headers are handed on as they came, unless they have no keys at all. */
  lemma HeadersMean(p: WireBody)
    requires Translate(p).Translated?
    ensures var h, b := p.headers, Translate(p).message.headers;
            && (b == h || b == Undefined)
            && (b == Undefined
                <==> h.Undefined? || h.Null? || h.Bool? || h.Num? || h == Str("") || h == Arr([]) || h == Obj(map[]))
  {
    assert p.headers.Obj? && |p.headers.fields| == 0 ==> p.headers.fields == map[];
  }

  /** One value is a list of one: itself if it is an address. */
  lemma SingleAddress(v: Json)
    requires !v.Arr?
    ensures ToBindingAddressList(v) == ToBindingAddressList(Arr([v]))
    ensures ToBindingAddressList(v) == if Truthy(ToBindingAddress(v)) then [ToBindingAddress(v)] else []
  {
    MapFilterCons(v, []);
    assert [v] + [] == [v];
  }

  predicate ListOfTruthy(v: Json) {
    v.Undefined? || (v.Arr? && v.items != [] && forall i :: 0 <= i < |v.items| ==> Truthy(v.items[i]))
  }

  lemma {:induction false} MapFilterTruthy(items: seq<Json>)
    ensures forall i :: 0 <= i < |MapFilter(items)| ==> Truthy(MapFilter(items)[i])
  {
    if items != [] {
      MapFilterTruthy(items[1..]);
    }
  }

  /** Whatever JSON object arrives, a message that is handed on has everything the binding requires. */
  lemma TranslationIsComplete(p: WireBody)
    requires Translate(p).Translated?
    ensures var b := Translate(p).message;
            && Truthy(b.from) && Truthy(b.subject) && (Truthy(b.text) || Truthy(b.html))
            && ListOfTruthy(b.to) && ListOfTruthy(b.cc) && ListOfTruthy(b.bcc)
            && !(b.to.Undefined? && b.cc.Undefined? && b.bcc.Undefined?)
  {
    forall v: Json ensures ListOfTruthy(ListIfAny(ToBindingAddressList(v))) {
      if Truthy(v) {
        MapFilterTruthy(if v.Arr? then v.items else [v]);
      }
    }
  }

  // ---- What survives the two translations ----

  /** What a reader of the binding message is told. */
  datatype Content = Content(
    from: Address, lists: Lists, replyTo: string, subject: string, text: string, html: string,
    headers: map<string, string>)

  function ContentOf(m: Message): Content {
    Content(m.from, m.lists, m.replyTo, m.subject, m.text, m.html, m.headers)
  }

  function ReadString(v: Json): string {
    if v.Str? then v.s else ""
  }

  function ReadAddress(v: Json): Address {
    Address(ReadString(Get(v, "name")), ReadString(Get(v, "email")))
  }

  function ReadList(v: Json): (out: seq<Address>)
    ensures |out| == if v.Arr? then |v.items| else 0
    ensures forall i :: 0 <= i < |out| ==> out[i] == ReadAddress(v.items[i])
  {
    if v.Arr? then seq(|v.items|, i requires 0 <= i < |v.items| => ReadAddress(v.items[i])) else []
  }

  function ReadHeaders(v: Json): map<string, string> {
    if v.Obj? then map k | k in v.fields :: ReadString(v.fields[k]) else map[]
  }

  /** The binding's own field names, read independently of how the message was built. */
  function ReadBinding(b: BindingMessage): Content {
    Content(ReadAddress(b.from), Lists(ReadList(b.to), ReadList(b.cc), ReadList(b.bcc)),
            ReadString(b.replyTo), ReadString(b.subject), ReadString(b.text), ReadString(b.html),
            ReadHeaders(b.headers))
  }

  /** The addresses the Worker does not drop. */
  function NonBlank(addrs: seq<Address>): seq<Address> {
    if addrs == [] then []
    else (if addrs[0].address == "" then [] else [addrs[0]]) + NonBlank(addrs[1..])
  }

  function NonBlankLists(l: Lists): Lists {
    Lists(NonBlank(l.to), NonBlank(l.cc), NonBlank(l.bcc))
  }

  lemma AddressSurvives(a: Address)
    ensures var b := ToBindingAddress(EncodeAddress(ToAddressPayload(a)));
            && (Truthy(b) <==> a.address != "")
            && (Truthy(b) ==> ReadAddress(b) == a)
  {
    var v := EncodeAddress(ToAddressPayload(a));
    assert "address" != "name" && "email" != "name";
    assert Get(v, "address") == Str(a.address);
    assert Get(v, "name") == if a.name == "" then Undefined else Str(a.name);
  }

  lemma {:induction false} ListSurvives(addrs: seq<Address>)
    ensures ReadList(Arr(MapFilter(EncodeAll(AddressPayloads(addrs))))) == NonBlank(addrs)
  {
    if addrs != [] {
      var items := EncodeAll(AddressPayloads(addrs));
      AddressSurvives(addrs[0]);
      ListSurvives(addrs[1..]);
      assert items[1..] == EncodeAll(AddressPayloads(addrs[1..]));
      var b := ToBindingAddress(items[0]);
      assert items[0] == EncodeAddress(ToAddressPayload(addrs[0]));
      assert MapFilter(items) == (if Truthy(b) then [b] else []) + MapFilter(items[1..]);
    }
  }

  lemma HeadersSurvive(h: map<string, string>)
    ensures ReadHeaders(EncodeHeaders(h)) == h
    ensures KeyCount(EncodeHeaders(h)) == |h|
  {
    assert EncodeHeaders(h).fields.Keys == h.Keys;
  }

  /** A recipient list, empty or not, reads back as its non-blank addresses. */
  lemma WireListSurvives(addrs: seq<Address>, v: Json)
    requires v == Arr(EncodeAll(AddressPayloads(addrs))) || v == OptList(AddressPayloads(addrs))
    ensures var items := ToBindingAddressList(v);
            && ReadList(ListIfAny(items)) == NonBlank(addrs)
            && |items| == |NonBlank(addrs)|
  {
    ListSurvives(addrs);
  }

  lemma StringSurvives(s: string)
    ensures Truthy(OptString(s)) <==> s != ""
    ensures ReadString(IfTruthy(OptString(s))) == s
  {
  }

  lemma ListsSurvive(m: Message)
    ensures var p := Encode(PayloadOf(m));
            var t, c, b := ToBindingAddressList(p.to), ToBindingAddressList(p.cc), ToBindingAddressList(p.bcc);
            && Lists(ReadList(ListIfAny(t)), ReadList(ListIfAny(c)), ReadList(ListIfAny(b))) == NonBlankLists(m.lists)
            && |t| + |c| + |b| == RecipientCount(NonBlankLists(m.lists))
  {
    var p := Encode(PayloadOf(m));
    WireListSurvives(m.lists.to, p.to);
    WireListSurvives(m.lists.cc, p.cc);
    WireListSurvives(m.lists.bcc, p.bcc);
  }

  /** The first part a message is missing, in the order sender, recipients, subject, body. */
  function MissingPart(m: Message): Option<Fault> {
    if m.from.address == "" then Some(FromRequired)
    else if RecipientCount(NonBlankLists(m.lists)) == 0 then Some(RecipientRequired)
    else if m.subject == "" then Some(SubjectRequired)
    else if m.text == "" && m.html == "" then Some(BodyRequired)
    else None
  }

  lemma FaultsMatch(m: Message)
    ensures FaultOf(Encode(PayloadOf(m))) == MissingPart(m)
  {
    AddressSurvives(m.from);
    ListsSurvive(m);
    StringSurvives(m.text);
    StringSurvives(m.html);
  }

  lemma ContentSurvives(m: Message, p: WireBody)
    requires p == Encode(PayloadOf(m)) && FaultOf(p).None?
    ensures ReadBinding(Translate(p).message) == ContentOf(m).(lists := NonBlankLists(m.lists))
  {
    AddressSurvives(m.from);
    ListsSurvive(m);
    StringSurvives(m.text);
    StringSurvives(m.html);
    StringSurvives(m.replyTo);
    HeadersSurvive(m.headers);
    assert ReadString(Str(m.subject)) == m.subject;
    assert m.headers == map[] || |m.headers| > 0;
  }

  /**
   * The two translations compose to the identity on everything a message says: names, order and lists
   * included, blank addresses excepted. They fail exactly when the sender, the recipients, the subject
   * or both bodies are missing.
   */
  lemma MessageSurvives(m: Message)
    ensures var t := Translate(Encode(PayloadOf(m)));
            var lists := NonBlankLists(m.lists);
            && (t.Thrown? <==> || m.from.address == ""
                               || RecipientCount(lists) == 0
                               || m.subject == ""
                               || (m.text == "" && m.html == ""))
            && (t.Thrown? ==> MissingPart(m) == Some(t.fault))
            && (t.Translated? ==> ReadBinding(t.message) == ContentOf(m).(lists := lists))
  {
    var p := Encode(PayloadOf(m));
    FaultsMatch(m);
    if FaultOf(p).None? {
      ContentSurvives(m, p);
    }
  }

  /** Without blank addresses nothing at all is lost. */
  lemma {:induction false} NonBlankIdentity(addrs: seq<Address>)
    requires forall a :: a in addrs ==> a.address != ""
    ensures NonBlank(addrs) == addrs
  {
    if addrs != [] {
      NonBlankIdentity(addrs[1..]);
    }
  }
}
