/** The transport-agnostic representation of a submitted message. */
module Message {
  import opened Options
  import opened Text

  datatype Address = Address(name: string, address: string)

  datatype Lists = Lists(to: seq<Address>, cc: seq<Address>, bcc: seq<Address>)

  datatype Message = Message(
    id: string,
    rfcMessageID: string,
    from: Address,
    lists: Lists,
    replyTo: string,
    subject: string,
    text: string,
    html: string,
    headers: map<string, string>)

  /** What follows the last '@', if there is one. */
  function AfterLastAt(s: string): Option<string> {
    if s == "" then None
    else match AfterLastAt(s[1..])
      case Some(d) => Some(d)
      case None => if s[0] == '@' then Some(s[1..]) else None
  }

  lemma {:induction false} NoAt(s: string)
    requires '@' !in s
    ensures AfterLastAt(s) == None
  {
    if s != "" {
      NoAt(s[1..]);
    }
  }

  lemma {:induction false} LastAt(local: string, d: string)
    requires '@' !in d
    ensures AfterLastAt(local + "@" + d) == Some(d)
  {
    var s := local + "@" + d;
    if local == "" {
      NoAt(d);
      assert s[1..] == d;
    } else {
      assert s[1..] == local[1..] + "@" + d;
      LastAt(local[1..], d);
    }
  }

  /** Every string either has no '@' or splits at its last one. */
  lemma {:induction false} AtParts(s: string) returns (local: string)
    ensures match AfterLastAt(s)
            case None => '@' !in s
            case Some(d) => '@' !in d && s == local + "@" + d
  {
    local := "";
    if s != "" {
      var rest := AtParts(s[1..]);
      if AfterLastAt(s[1..]).Some? {
        local := [s[0]] + rest;
      }
      assert s == [s[0]] + s[1..];
    }
  }

  /** The domain of an address, lower case; empty when there is no '@'. */
  function DomainOf(address: string): string {
    match AfterLastAt(address) case Some(d) => ToLower(d) case None => ""
  }

  /** Address.Domain: the backward scan. */
  method Domain(address: string) returns (d: string)
    ensures d == DomainOf(address)
  {
    var i := |address| - 1;
    while i >= 0
      invariant -1 <= i < |address|
      invariant '@' !in address[i + 1..]
    {
      if address[i] == '@' {
        assert address == address[..i] + "@" + address[i + 1..];
        LastAt(address[..i], address[i + 1..]);
        d := LowerASCII(address[i + 1..]);
        return;
      }
      i := i - 1;
    }
    assert address[0..] == address;
    NoAt(address);
    d := "";
  }

  /** lowerASCII: edits a byte buffer in place. */
  method LowerASCII(s: string) returns (r: string)
    ensures r == ToLower(s)
  {
    var b := new char[|s|](i requires 0 <= i < |s| => s[i]);
    for i := 0 to b.Length
      invariant forall k :: 0 <= k < i ==> b[k] == LowerChar(s[k])
      invariant forall k :: i <= k < |s| ==> b[k] == s[k]
    {
      if 'A' <= b[i] <= 'Z' {
        b[i] := 'a' + (b[i] - 'A');
      }
    }
    r := b[..];
  }

  function Addresses(group: seq<Address>): (out: seq<string>)
    ensures |out| == |group|
    ensures forall i :: 0 <= i < |out| ==> out[i] == group[i].address
  {
    seq(|group|, i requires 0 <= i < |group| => group[i].address)
  }

  /** Every delivery address, in To, Cc and Bcc order. */
  function AllRecipients(l: Lists): seq<string> {
    Addresses(l.to) + Addresses(l.cc) + Addresses(l.bcc)
  }

  /** To first, then Cc, then Bcc. */
  lemma RecipientOrder(l: Lists, i: nat)
    ensures i < |l.to| ==> AllRecipients(l)[i] == l.to[i].address
    ensures i < |l.cc| ==> AllRecipients(l)[|l.to| + i] == l.cc[i].address
    ensures i < |l.bcc| ==> AllRecipients(l)[|l.to| + |l.cc| + i] == l.bcc[i].address
    ensures |AllRecipients(l)| == |l.to| + |l.cc| + |l.bcc|
  {
  }

  function RecipientCount(l: Lists): nat {
    |l.to| + |l.cc| + |l.bcc|
  }

  /** The addresses of the groups, one group after the other. */
  function Flatten(groups: seq<seq<Address>>): seq<string> {
    if groups == [] then []
    else Flatten(groups[..|groups| - 1]) + Addresses(groups[|groups| - 1])
  }

  /** The nested loops of Message.AllRecipients. */
  method CollectRecipients(l: Lists) returns (out: seq<string>)
    ensures out == AllRecipients(l) && |out| == RecipientCount(l)
  {
    out := [];
    var groups := [l.to, l.cc, l.bcc];
    for g := 0 to |groups|
      invariant out == Flatten(groups[..g])
    {
      var group := groups[g];
      ghost var before := out;
      for i := 0 to |group|
        invariant out == before + Addresses(group)[..i]
      {
        out := out + [group[i].address];
      }
      assert groups[..g + 1][..g] == groups[..g];
      assert Addresses(group)[..|group|] == Addresses(group);
    }
    assert groups[..3] == groups && groups[..2][..1] == [l.to] && [l.to][..0] == [];
    assert Flatten([l.to]) == Addresses(l.to);
    assert Flatten(groups[..2]) == Addresses(l.to) + Addresses(l.cc);
  }
}
