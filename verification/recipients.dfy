/** Derivation of the delivery lists and of the sender from the envelope and the message headers. */
module Recipients {
  import opened Options
  import opened Text
  import opened Message
  import opened FirstWins

  /** A To or Cc header: not there, not readable as an address list, or a list, which may be empty. */
  datatype HeaderField = Missing | Unreadable | Listed(addresses: seq<Address>)

  /** headerAddresses */
  function HeaderAddresses(field: HeaderField): seq<Address> {
    if field.Listed? then field.addresses else []
  }

  /** Header addresses are matched by their lower-case form, exactly as the header states them. */
  function HeaderKeys(items: seq<Address>): (keys: seq<string>)
    ensures |keys| == |items|
    ensures forall i :: 0 <= i < |keys| ==> keys[i] == ToLower(items[i].address)
  {
    seq(|items|, i requires 0 <= i < |items| => ToLower(items[i].address))
  }

  /** Envelope recipients as nameless addresses, trimmed. */
  function Bare(rcpts: seq<string>): (items: seq<Address>)
    ensures |items| == |rcpts|
    ensures forall i :: 0 <= i < |items| ==> items[i] == Address("", TrimSpace(rcpts[i]))
  {
    seq(|rcpts|, i requires 0 <= i < |rcpts| => Address("", TrimSpace(rcpts[i])))
  }

  /** The non-blank keys of the envelope. */
  function EnvelopeKeys(rcpts: seq<string>): set<string> {
    KeySet(Bare(rcpts)) - {""}
  }

  function KeySet(items: seq<Address>): set<string> {
    ToSet(HeaderKeys(items))
  }

  function PickAddresses(items: seq<Address>, allowed: set<string>): seq<Address> {
    Pick(items, HeaderKeys(items), allowed)
  }

  /**
   * The specification: To and Cc are the header addresses that were also recipients of the envelope,
   * Cc without those in To; Bcc is whatever no header names. Without To and Cc headers all go to To.
   */
  function Divide(headerTo: seq<Address>, headerCc: seq<Address>, rcpts: seq<string>): Lists {
    var e := EnvelopeKeys(rcpts);
    if headerTo == [] && headerCc == [] then
      Lists(PickAddresses(Bare(rcpts), e), [], [])
    else
      var t, c := KeySet(headerTo), KeySet(headerCc);
      Lists(PickAddresses(headerTo, e), PickAddresses(headerCc, e - t), PickAddresses(Bare(rcpts), e - t - c))
  }

  /** One step of any of the list-building loops: the keys seen so far, and the addresses picked. */
  lemma StepPick(items: seq<Address>, allowed: set<string>, i: nat)
    requires i < |items|
    ensures var key, seen := ToLower(items[i].address), KeySet(items[..i]);
            && KeySet(items[..i + 1]) == seen + {key}
            && PickAddresses(items[..i + 1], allowed)
               == PickAddresses(items[..i], allowed) + if key in allowed && key !in seen then [items[i]] else []
  {
    PickSnoc(items, HeaderKeys(items), allowed, i);
    assert HeaderKeys(items[..i + 1]) == HeaderKeys(items)[..i + 1];
    assert HeaderKeys(items[..i]) == HeaderKeys(items)[..i];
  }

  lemma StepEnvelope(rcpts: seq<string>, i: nat)
    requires i < |rcpts|
    ensures EnvelopeKeys(rcpts[..i + 1])
            == EnvelopeKeys(rcpts[..i]) + if Key(rcpts[i]) == "" then {} else {Key(rcpts[i])}
    ensures Key(rcpts[i]) != "" ==> Key(rcpts[i]) in EnvelopeKeys(rcpts)
  {
    var bare := Bare(rcpts);
    assert Bare(rcpts[..i + 1]) == bare[..i + 1] && Bare(rcpts[..i]) == bare[..i];
    StepPick(bare, {}, i);
    assert HeaderKeys(bare)[i] in KeySet(bare);
  }

  /** The loops over a header list: keep what the envelope has and nobody took yet. */
  method TakeFromHeader(items: seq<Address>, envelope: set<string>, before: set<string>)
    returns (out: seq<Address>, taken: set<string>)
    requires "" !in envelope
    ensures out == PickAddresses(items, envelope - before)
    ensures taken == before + envelope * KeySet(items)
  {
    out, taken := [], before;
    for i := 0 to |items|
      invariant taken == before + envelope * KeySet(items[..i])
      invariant out == PickAddresses(items[..i], envelope - before)
    {
      var a := items[i];
      var key := ToLower(a.address);
      StepPick(items, envelope - before, i);
      if key == "" { continue; }
      if key !in envelope { continue; }
      if key in taken { continue; }
      taken := taken + {key};
      out := out + [a];
    }
    assert items[..|items|] == items;
  }

  /** The loops over the envelope: keep every non-blank recipient that nobody took yet. */
  method TakeFromEnvelope(rcpts: seq<string>, before: set<string>) returns (out: seq<Address>)
    ensures out == PickAddresses(Bare(rcpts), EnvelopeKeys(rcpts) - before)
  {
    out := [];
    var taken := before;
    ghost var bare, allowed := Bare(rcpts), EnvelopeKeys(rcpts) - before;
    for i := 0 to |rcpts|
      invariant taken == before + EnvelopeKeys(rcpts) * KeySet(bare[..i])
      invariant out == PickAddresses(bare[..i], allowed)
    {
      var addr := TrimSpace(rcpts[i]);
      var key := ToLower(addr);
      StepPick(bare, allowed, i);
      StepEnvelope(rcpts, i);
      if key == "" { continue; }
      if key in taken { continue; }
      taken := taken + {key};
      out := out + [Address("", addr)];
    }
    assert bare[..|rcpts|] == bare;
  }

  /** splitRecipients; the source writes the two kinds of loop out twice each. */
  method SplitRecipients(headerTo: seq<Address>, headerCc: seq<Address>, rcpts: seq<string>) returns (l: Lists)
    ensures l == Divide(headerTo, headerCc, rcpts)
  {
    var envelope: set<string> := {};
    for i := 0 to |rcpts|
      invariant envelope == EnvelopeKeys(rcpts[..i])
    {
      var key := ToLower(TrimSpace(rcpts[i]));
      StepEnvelope(rcpts, i);
      if key != "" {
        envelope := envelope + {key};
      }
    }
    assert rcpts[..|rcpts|] == rcpts;

    if |headerTo| == 0 && |headerCc| == 0 {
      var all := TakeFromEnvelope(rcpts, {});
      assert EnvelopeKeys(rcpts) - {} == EnvelopeKeys(rcpts);
      return Lists(all, [], []);
    }
    ghost var t, c := KeySet(headerTo), KeySet(headerCc);
    var toList, taken := TakeFromHeader(headerTo, envelope, {});
    assert envelope - {} == envelope;
    var ccList, taken' := TakeFromHeader(headerCc, envelope, taken);
    assert envelope - taken == envelope - t;
    var bccList := TakeFromEnvelope(rcpts, taken');
    assert envelope - taken' == envelope - t - c;
    return Lists(toList, ccList, bccList);
  }

  // ---- The partition ----

  lemma {:induction false} PickedHeaderKeys(items: seq<Address>, allowed: set<string>)
    ensures HeaderKeys(PickAddresses(items, allowed)) == Pick(HeaderKeys(items), HeaderKeys(items), allowed)
  {
    if items != [] {
      var n, keys := |items| - 1, HeaderKeys(items);
      PickedHeaderKeys(items[..n], allowed);
      assert HeaderKeys(items[..n]) == keys[..n];
    }
  }

  lemma PickedKeys(items: seq<Address>, allowed: set<string>)
    ensures KeySet(PickAddresses(items, allowed)) == allowed * KeySet(items)
    ensures Distinct(HeaderKeys(PickAddresses(items, allowed)))
  {
    PickedHeaderKeys(items, allowed);
    PickKeys(HeaderKeys(items), allowed);
  }

  /** The envelope keys are the non-blank keys of the recipients. */
  lemma EnvelopeMember(rcpts: seq<string>, k: string)
    ensures k in EnvelopeKeys(rcpts) <==> k != "" && exists i :: 0 <= i < |rcpts| && Key(rcpts[i]) == k
  {
    var keys := HeaderKeys(Bare(rcpts));
    forall i | 0 <= i < |keys| ensures keys[i] == Key(rcpts[i]) && keys[i] in keys {}
    if k in keys {
      var i :| 0 <= i < |keys| && keys[i] == k;
      assert Key(rcpts[i]) == k;
    }
  }

  lemma EnvelopeSize(rcpts: seq<string>)
    ensures |EnvelopeKeys(rcpts)| <= |rcpts|
  {
    SetSize(HeaderKeys(Bare(rcpts)));
    Smaller(EnvelopeKeys(rcpts), KeySet(Bare(rcpts)));
  }

  lemma Smaller<T>(a: set<T>, b: set<T>)
    requires a <= b
    ensures |a| <= |b|
  {
    assert b == a + (b - a);
  }

  function AllKeys(l: Lists): seq<string> {
    HeaderKeys(l.to) + HeaderKeys(l.cc) + HeaderKeys(l.bcc)
  }

  /**
   * The three lists partition the envelope: with any header address, To gets E ∩ T, Cc gets (E ∩ C) \ T
   * and Bcc gets E \ (T ∪ C); with none, To gets E. No key occurs twice, none is lost or invented, and
   * the number of recipients is the number of distinct non-blank RCPTs.
   */
  lemma Partition(headerTo: seq<Address>, headerCc: seq<Address>, rcpts: seq<string>)
    ensures var l := Divide(headerTo, headerCc, rcpts);
            var e, t, c := EnvelopeKeys(rcpts), KeySet(headerTo), KeySet(headerCc);
            && (if headerTo == [] && headerCc == [] then
                  KeySet(l.to) == e && l.cc == [] && l.bcc == []
                else
                  KeySet(l.to) == e * t && KeySet(l.cc) == (e * c) - t && KeySet(l.bcc) == e - (t + c))
            && KeySet(l.to) + KeySet(l.cc) + KeySet(l.bcc) == e
            && Distinct(AllKeys(l)) && ToSet(AllKeys(l)) == e
            && RecipientCount(l) == |e| <= |rcpts|
  {
    PartitionKeys(headerTo, headerCc, rcpts);
    var l := Divide(headerTo, headerCc, rcpts);
    var e, t, c := EnvelopeKeys(rcpts), KeySet(headerTo), KeySet(headerCc);
    if headerTo == [] && headerCc == [] {
      PartitionOf(l, e, e, {});
    } else {
      PartitionOf(l, e, t, c);
    }
    EnvelopeSize(rcpts);
  }

  lemma PartitionOf(l: Lists, e: set<string>, t: set<string>, c: set<string>)
    requires KeySet(l.to) == e * t && KeySet(l.cc) == (e * c) - t && KeySet(l.bcc) == e - (t + c)
    requires Distinct(HeaderKeys(l.to)) && Distinct(HeaderKeys(l.cc)) && Distinct(HeaderKeys(l.bcc))
    ensures KeySet(l.to) + KeySet(l.cc) + KeySet(l.bcc) == e
    ensures Distinct(AllKeys(l)) && ToSet(AllKeys(l)) == e && RecipientCount(l) == |e|
  {
    ThreeWay(e, t, c);
    ConcatDistinct(HeaderKeys(l.to), HeaderKeys(l.cc), HeaderKeys(l.bcc));
  }

  lemma ThreeWay(e: set<string>, t: set<string>, c: set<string>)
    ensures e * t + ((e * c) - t) + (e - (t + c)) == e
    ensures e * t !! ((e * c) - t) && (e * t + ((e * c) - t)) !! (e - (t + c))
  {
  }

  lemma ConcatDistinct(a: seq<string>, b: seq<string>, c: seq<string>)
    requires Distinct(a) && Distinct(b) && Distinct(c)
    requires ToSet(a) !! ToSet(b) && (ToSet(a) + ToSet(b)) !! ToSet(c)
    ensures Distinct(a + b + c) && ToSet(a + b + c) == ToSet(a) + ToSet(b) + ToSet(c)
    ensures |a| + |b| + |c| == |ToSet(a) + ToSet(b) + ToSet(c)|
  {
    DisjointDistinct(a, b);
    DisjointDistinct(a + b, c);
    DistinctSize(a + b + c);
  }

  lemma PartitionKeys(headerTo: seq<Address>, headerCc: seq<Address>, rcpts: seq<string>)
    ensures var l := Divide(headerTo, headerCc, rcpts);
            var e, t, c := EnvelopeKeys(rcpts), KeySet(headerTo), KeySet(headerCc);
            && (if headerTo == [] && headerCc == [] then
                  KeySet(l.to) == e && KeySet(l.cc) == {} && KeySet(l.bcc) == {}
                else
                  KeySet(l.to) == e * t && KeySet(l.cc) == (e * c) - t && KeySet(l.bcc) == e - (t + c))
            && Distinct(HeaderKeys(l.to)) && Distinct(HeaderKeys(l.cc)) && Distinct(HeaderKeys(l.bcc))
  {
    var e, t, c := EnvelopeKeys(rcpts), KeySet(headerTo), KeySet(headerCc);
    if headerTo == [] && headerCc == [] {
      PickedKeys(Bare(rcpts), e);
    } else {
      PickedKeys(headerTo, e);
      PickedKeys(headerCc, e - t);
      PickedKeys(Bare(rcpts), e - t - c);
    }
  }

  lemma DisjointDistinct(a: seq<string>, b: seq<string>)
    requires Distinct(a) && Distinct(b) && ToSet(a) !! ToSet(b)
    ensures Distinct(a + b) && ToSet(a + b) == ToSet(a) + ToSet(b)
  {
    forall i, j | 0 <= i < j < |a + b| ensures (a + b)[i] != (a + b)[j] {
      if i < |a| <= j {
        assert a[i] in ToSet(a) && b[j - |a|] in ToSet(b);
      }
    }
  }

  /** A nameless entry whose address is a trimmed RCPT. */
  predicate FromEnvelope(a: Address, rcpts: seq<string>) {
    a.name == "" && exists i :: 0 <= i < |rcpts| && a.address == TrimSpace(rcpts[i])
  }

  lemma PickedFromEnvelope(rcpts: seq<string>, allowed: set<string>)
    ensures forall a :: a in PickAddresses(Bare(rcpts), allowed) ==> FromEnvelope(a, rcpts)
  {
    var bare := Bare(rcpts);
    PickFrom(bare, HeaderKeys(bare), allowed);
    forall a | a in PickAddresses(bare, allowed) ensures FromEnvelope(a, rcpts) {
      var i :| 0 <= i < |bare| && bare[i] == a;
      assert a.address == TrimSpace(rcpts[i]);
    }
  }

  /**
   * To and Cc entries are header entries, names included, and Bcc entries come from the envelope; without
   * header addresses the To entries do.
   */
  lemma EntriesAreOriginal(headerTo: seq<Address>, headerCc: seq<Address>, rcpts: seq<string>)
    ensures var l, headerless := Divide(headerTo, headerCc, rcpts), headerTo == [] && headerCc == [];
            && (forall a :: a in l.to ==> if headerless then FromEnvelope(a, rcpts) else a in headerTo)
            && (forall a :: a in l.cc ==> a in headerCc)
            && (forall a :: a in l.bcc ==> FromEnvelope(a, rcpts))
  {
    var e, t, c := EnvelopeKeys(rcpts), KeySet(headerTo), KeySet(headerCc);
    PickFrom(headerTo, HeaderKeys(headerTo), e);
    PickFrom(headerCc, HeaderKeys(headerCc), e - t);
    PickedFromEnvelope(rcpts, e);
    PickedFromEnvelope(rcpts, e - t - c);
  }

  /** The first entry of the list with its key. */
  predicate FirstNamed(a: Address, items: seq<Address>) {
    exists i :: 0 <= i < |items| && items[i] == a
                && forall k :: 0 <= k < i ==> ToLower(items[k].address) != ToLower(a.address)
  }

  lemma PickedAreFirst(items: seq<Address>, allowed: set<string>)
    ensures forall a :: a in PickAddresses(items, allowed) ==> FirstNamed(a, items)
  {
    var keys := HeaderKeys(items);
    var out, idx := PickAddresses(items, allowed), Firsts(keys, allowed);
    FirstsExact(keys, allowed);
    PickAtFirsts(items, keys, allowed);
    forall a | a in out ensures FirstNamed(a, items) {
      var j :| 0 <= j < |out| && out[j] == a;
      var i := idx[j];
      assert Kept(keys, allowed, i);
      forall k | 0 <= k < i ensures ToLower(items[k].address) != ToLower(a.address) {
        assert keys[k] in keys[..i];
      }
    }
  }

  /** The lists split the recipients as the headers say, and show the entries of the headers. */
  ghost predicate SplitBy(l: Lists, headerTo: seq<Address>, headerCc: seq<Address>, rcpts: seq<string>) {
    var e, t, c := EnvelopeKeys(rcpts), KeySet(headerTo), KeySet(headerCc);
    && (if headerTo == [] && headerCc == [] then
          KeySet(l.to) == e && l.cc == [] && l.bcc == []
        else
          KeySet(l.to) == e * t && KeySet(l.cc) == (e * c) - t && KeySet(l.bcc) == e - (t + c))
    && (forall a :: a in l.to ==>
          if headerTo == [] && headerCc == [] then FromEnvelope(a, rcpts) else FirstNamed(a, headerTo))
    && (forall a :: a in l.cc ==> FirstNamed(a, headerCc))
    && (forall a :: a in l.bcc ==> FromEnvelope(a, rcpts))
  }

  lemma DivideSplits(headerTo: seq<Address>, headerCc: seq<Address>, rcpts: seq<string>)
    ensures SplitBy(Divide(headerTo, headerCc, rcpts), headerTo, headerCc, rcpts)
  {
    var e, t := EnvelopeKeys(rcpts), KeySet(headerTo);
    Partition(headerTo, headerCc, rcpts);
    EntriesAreOriginal(headerTo, headerCc, rcpts);
    PickedAreFirst(headerTo, e);
    PickedAreFirst(headerCc, e - t);
  }

  // ---- Padded recipients: matching as documented, on the whole address ----

  /** No recipient, blank ones aside, has white space around it. */
  predicate NoPadding(rcpts: seq<string>) {
    forall i :: 0 <= i < |rcpts| && Key(rcpts[i]) != "" ==> Trimmed(rcpts[i])
  }

  /** A recipient that a header names, case aside, is not in Bcc. */
  ghost predicate NamedIsNotBlind(rcpts: seq<string>) {
    forall headerTo, headerCc, i ::
      0 <= i < |rcpts| && Key(rcpts[i]) != "" && ToLower(rcpts[i]) in KeySet(headerTo) + KeySet(headerCc)
      ==> Key(rcpts[i]) !in KeySet(Divide(headerTo, headerCc, rcpts).bcc)
  }

  /** A recipient is in To or Cc exactly if a header names it, case aside; otherwise it is in Bcc. */
  ghost predicate VisibleIfNamed(rcpts: seq<string>) {
    forall headerTo, headerCc, i ::
      0 <= i < |rcpts| && Key(rcpts[i]) != "" && (headerTo != [] || headerCc != [])
      ==> var l, named := Divide(headerTo, headerCc, rcpts), KeySet(headerTo) + KeySet(headerCc);
          && (Key(rcpts[i]) in KeySet(l.to) + KeySet(l.cc) <==> ToLower(rcpts[i]) in named)
          && (Key(rcpts[i]) in KeySet(l.bcc) <==> ToLower(rcpts[i]) !in named)
  }

  lemma KeyOfTrimmed(s: string)
    ensures Key(s) == ToLower(s) <==> Trimmed(s)
  {
    KeyFacts(s);
    assert Trimmed(ToLower(s)) <==> Trimmed(s);
    if Trimmed(s) {
      TrimmedCore(s);
    }
  }

  /** A padded recipient standing verbatim in the To header, and where it ends up. */
  lemma PaddedNameIsMissed(rcpts: seq<string>, i: nat)
    requires i < |rcpts| && Key(rcpts[i]) != "" && !Trimmed(rcpts[i])
    ensures var headerTo := [Address("", rcpts[i])];
            ToLower(rcpts[i]) in KeySet(headerTo) && Key(rcpts[i]) in KeySet(Divide(headerTo, [], rcpts).bcc)
  {
    var headerTo := [Address("", rcpts[i])];
    PartitionKeys(headerTo, [], rcpts);
    EnvelopeMember(rcpts, Key(rcpts[i]));
    KeyOfTrimmed(rcpts[i]);
    assert HeaderKeys(headerTo) == [ToLower(rcpts[i])];
  }

  lemma PickSingle(a: Address, allowed: set<string>)
    ensures HeaderKeys([a]) == [ToLower(a.address)] && KeySet([a]) == {ToLower(a.address)}
    ensures PickAddresses([a], allowed) == if ToLower(a.address) in allowed then [a] else []
  {
    StepPick([a], allowed, 0);
    assert [a][..1] == [a] && [a][..0] == [];
    assert HeaderKeys([]) == [];
  }

  lemma TrimmedSample()
    ensures TrimSpace(" a") == "a" && ToLower(" a") == " a" && ToLower("a") == "a"
  {
    assert " " + "a" + "" == " a";
    TrimUnique(" ", "a", "");
  }

  /** It really happens: To holds the very recipient, which is sent a blind copy instead. */
  lemma PaddedNameIsBlind()
    ensures Divide([Address("", " a")], [], [" a"]) == Lists([], [], [Address("", "a")])
  {
    TrimmedSample();
    var a, padded, e := Address("", "a"), Address("", " a"), EnvelopeKeys([" a"]);
    assert Bare([" a"]) == [a];
    PickSingle(a, {});
    PickSingle(padded, e);
    PickSingle(a, e - KeySet([padded]) - KeySet([]));
    assert HeaderKeys([]) == [];
    assert PickAddresses([], e - KeySet([padded])) == [];
  }

  /** Where an unpadded recipient goes. */
  lemma UnpaddedMatch(headerTo: seq<Address>, headerCc: seq<Address>, rcpts: seq<string>, i: nat)
    requires i < |rcpts| && Key(rcpts[i]) != "" && Trimmed(rcpts[i])
    ensures var l, named := Divide(headerTo, headerCc, rcpts), KeySet(headerTo) + KeySet(headerCc);
            if headerTo == [] && headerCc == [] then named == {} && KeySet(l.bcc) == {}
            else
              && (Key(rcpts[i]) in KeySet(l.to) + KeySet(l.cc) <==> ToLower(rcpts[i]) in named)
              && (Key(rcpts[i]) in KeySet(l.bcc) <==> ToLower(rcpts[i]) !in named)
  {
    PartitionKeys(headerTo, headerCc, rcpts);
    EnvelopeMember(rcpts, Key(rcpts[i]));
    KeyOfTrimmed(rcpts[i]);
  }

  /**
   * As documented, Bcc never has a recipient that a header names, whatever the headers, if and only if no
   * recipient is padded.
   */
  lemma BlindAsDocumented(rcpts: seq<string>)
    ensures NamedIsNotBlind(rcpts) <==> NoPadding(rcpts)
  {
    if NoPadding(rcpts) {
      forall headerTo, headerCc, i | 0 <= i < |rcpts| && Key(rcpts[i]) != ""
                                     && ToLower(rcpts[i]) in KeySet(headerTo) + KeySet(headerCc)
        ensures Key(rcpts[i]) !in KeySet(Divide(headerTo, headerCc, rcpts).bcc)
      {
        UnpaddedMatch(headerTo, headerCc, rcpts, i);
      }
    } else {
      var i :| 0 <= i < |rcpts| && Key(rcpts[i]) != "" && !Trimmed(rcpts[i]);
      PaddedNameIsMissed(rcpts, i);
    }
  }

  /**
   * The documented matching, case-insensitive on the whole address, is what the code does for all headers
   * under the same condition: To and Cc have exactly the recipients a header names, Bcc the others.
   */
  lemma MatchingAsDocumented(rcpts: seq<string>)
    ensures VisibleIfNamed(rcpts) <==> NoPadding(rcpts)
  {
    if NoPadding(rcpts) {
      forall headerTo, headerCc, i | 0 <= i < |rcpts| && Key(rcpts[i]) != "" && (headerTo != [] || headerCc != [])
        ensures var l, named := Divide(headerTo, headerCc, rcpts), KeySet(headerTo) + KeySet(headerCc);
                && (Key(rcpts[i]) in KeySet(l.to) + KeySet(l.cc) <==> ToLower(rcpts[i]) in named)
                && (Key(rcpts[i]) in KeySet(l.bcc) <==> ToLower(rcpts[i]) !in named)
      {
        UnpaddedMatch(headerTo, headerCc, rcpts, i);
      }
    } else {
      var i :| 0 <= i < |rcpts| && Key(rcpts[i]) != "" && !Trimmed(rcpts[i]);
      PaddedNameIsMissed(rcpts, i);
    }
  }

  // ---- Headers without addresses: the fallback as documented ----

  /** The documented split: all recipients go to To when the message has no To and no Cc header at all. */
  function DocumentedDivide(to: HeaderField, cc: HeaderField, rcpts: seq<string>): Lists {
    var e, headerTo, headerCc := EnvelopeKeys(rcpts), HeaderAddresses(to), HeaderAddresses(cc);
    if to.Missing? && cc.Missing? then
      Lists(PickAddresses(Bare(rcpts), e), [], [])
    else
      var t, c := KeySet(headerTo), KeySet(headerCc);
      Lists(PickAddresses(headerTo, e), PickAddresses(headerCc, e - t), PickAddresses(Bare(rcpts), e - t - c))
  }

  lemma NobodyPicked(rcpts: seq<string>)
    ensures PickAddresses(Bare(rcpts), EnvelopeKeys(rcpts)) == [] <==> EnvelopeKeys(rcpts) == {}
  {
    var e, out := EnvelopeKeys(rcpts), PickAddresses(Bare(rcpts), EnvelopeKeys(rcpts));
    PickedKeys(Bare(rcpts), e);
    assert e * KeySet(Bare(rcpts)) == e;
    if out != [] {
      assert HeaderKeys(out)[0] in KeySet(out);
    }
  }

  /**
   * The code falls back when no header yields an address, so it does as documented if and only if both
   * headers are missing, or one yields an address, or there is nobody to deliver to.
   */
  lemma FallbackAsDocumented(to: HeaderField, cc: HeaderField, rcpts: seq<string>)
    ensures Divide(HeaderAddresses(to), HeaderAddresses(cc), rcpts) == DocumentedDivide(to, cc, rcpts)
            <==> || (to.Missing? && cc.Missing?)
                 || HeaderAddresses(to) != [] || HeaderAddresses(cc) != []
                 || EnvelopeKeys(rcpts) == {}
  {
    if HeaderAddresses(to) == [] && HeaderAddresses(cc) == [] {
      NobodyPicked(rcpts);
      var none: seq<Address> := [];
      assert HeaderKeys(none) == [];
      var e := EnvelopeKeys(rcpts);
      assert e - KeySet(none) - KeySet(none) == e;
    }
  }

  /** So with an empty To list, as undisclosed-recipients gives, the blind recipients are shown to all. */
  lemma UndisclosedIsDisclosed()
    ensures Divide(HeaderAddresses(Listed([])), HeaderAddresses(Missing), [" a"]) == Lists([Address("", "a")], [], [])
    ensures DocumentedDivide(Listed([]), Missing, [" a"]) == Lists([], [], [Address("", "a")])
  {
    TrimmedSample();
    var a, e := Address("", "a"), EnvelopeKeys([" a"]);
    assert Bare([" a"]) == [a];
    PickSingle(a, {});
    PickSingle(a, e);
    var none: seq<Address> := [];
    assert HeaderKeys(none) == [];
    assert e - KeySet(none) - KeySet(none) == e;
  }

  /** Two envelopes that name the same recipients up to order, repetition, case and padding. */
  predicate SameRecipients(r1: seq<string>, r2: seq<string>) {
    && (forall i :: 0 <= i < |r1| ==> exists j :: 0 <= j < |r2| && Key(r2[j]) == Key(r1[i]))
    && (forall j :: 0 <= j < |r2| ==> exists i :: 0 <= i < |r1| && Key(r1[i]) == Key(r2[j]))
  }

  /** Such envelopes give the same To and Cc lists, and Bcc lists with the same keys. */
  lemma EnvelopeFormatIrrelevant(headerTo: seq<Address>, headerCc: seq<Address>, r1: seq<string>, r2: seq<string>)
    requires SameRecipients(r1, r2)
    ensures var l1, l2 := Divide(headerTo, headerCc, r1), Divide(headerTo, headerCc, r2);
            && KeySet(l1.to) == KeySet(l2.to) && KeySet(l1.bcc) == KeySet(l2.bcc)
            && (headerTo != [] || headerCc != [] ==> l1.to == l2.to) && l1.cc == l2.cc
            && RecipientCount(l1) == RecipientCount(l2)
  {
    SameKeys(r1, r2);
    PartitionKeys(headerTo, headerCc, r1);
    PartitionKeys(headerTo, headerCc, r2);
    RecipientTotal(headerTo, headerCc, r1);
    RecipientTotal(headerTo, headerCc, r2);
  }

  lemma RecipientTotal(headerTo: seq<Address>, headerCc: seq<Address>, rcpts: seq<string>)
    ensures RecipientCount(Divide(headerTo, headerCc, rcpts)) == |EnvelopeKeys(rcpts)|
  {
    Partition(headerTo, headerCc, rcpts);
  }

  lemma SameKeys(r1: seq<string>, r2: seq<string>)
    requires SameRecipients(r1, r2)
    ensures EnvelopeKeys(r1) == EnvelopeKeys(r2)
  {
    forall k ensures k in EnvelopeKeys(r1) <==> k in EnvelopeKeys(r2) {
      EnvelopeMember(r1, k);
      EnvelopeMember(r2, k);
    }
  }

  // ---- Splitting again ----

  /** What splitRecipients produces: distinct, non-blank, trimmed addresses, and nameless Bcc entries. */
  predicate Canonical(l: Lists) {
    && Distinct(AllKeys(l))
    && (forall k :: k in AllKeys(l) ==> k != "" && Trimmed(k))
    && (forall i :: 0 <= i < |l.bcc| ==> l.bcc[i].name == "")
  }

  lemma SplitIsCanonical(headerTo: seq<Address>, headerCc: seq<Address>, rcpts: seq<string>)
    ensures Canonical(Divide(headerTo, headerCc, rcpts))
  {
    var l := Divide(headerTo, headerCc, rcpts);
    Partition(headerTo, headerCc, rcpts);
    forall k | k in AllKeys(l) ensures k != "" && Trimmed(k) {
      assert k in ToSet(AllKeys(l));
      EnvelopeKeyTrimmed(rcpts, k);
    }
    BccIsNameless(headerTo, headerCc, rcpts);
  }

  lemma BccIsNameless(headerTo: seq<Address>, headerCc: seq<Address>, rcpts: seq<string>)
    ensures var bcc := Divide(headerTo, headerCc, rcpts).bcc; forall i :: 0 <= i < |bcc| ==> bcc[i].name == ""
  {
    var bcc := Divide(headerTo, headerCc, rcpts).bcc;
    EntriesAreOriginal(headerTo, headerCc, rcpts);
    forall i | 0 <= i < |bcc| ensures bcc[i].name == "" {
      assert bcc[i] in bcc;
    }
  }

  lemma EnvelopeKeyTrimmed(rcpts: seq<string>, k: string)
    requires k in EnvelopeKeys(rcpts)
    ensures k != "" && Trimmed(k)
  {
    EnvelopeMember(rcpts, k);
    var i :| 0 <= i < |rcpts| && Key(rcpts[i]) == k;
    KeyFacts(rcpts[i]);
  }

  lemma KeyOfMember(items: seq<Address>, a: Address)
    requires a in items
    ensures ToLower(a.address) in HeaderKeys(items)
  {
    var i :| 0 <= i < |items| && items[i] == a;
    assert HeaderKeys(items)[i] == ToLower(a.address);
  }

  lemma CanonicalAddress(l: Lists, a: Address)
    requires Canonical(l) && (a in l.to || a in l.cc || a in l.bcc)
    ensures TrimSpace(a.address) == a.address && a.address != ""
  {
    if a in l.to {
      KeyOfMember(l.to, a);
    } else if a in l.cc {
      KeyOfMember(l.cc, a);
    } else {
      KeyOfMember(l.bcc, a);
    }
    assert ToLower(a.address) in AllKeys(l);
    TrimmedCore(a.address);
  }

  lemma BccIsBare(l: Lists)
    requires Canonical(l)
    ensures Bare(Addresses(l.bcc)) == l.bcc
  {
    forall i | 0 <= i < |l.bcc| ensures Bare(Addresses(l.bcc))[i] == l.bcc[i] {
      CanonicalAddress(l, l.bcc[i]);
    }
  }

  /** The recipients of canonical lists, read as an envelope, have the lists' own keys. */
  lemma CanonicalEnvelope(l: Lists)
    requires Canonical(l)
    ensures HeaderKeys(Bare(AllRecipients(l))) == AllKeys(l)
    ensures EnvelopeKeys(AllRecipients(l)) == ToSet(AllKeys(l))
  {
    var all, rcpts := l.to + l.cc + l.bcc, AllRecipients(l);
    forall i | 0 <= i < |all|
      ensures rcpts[i] == all[i].address && TrimSpace(all[i].address) == all[i].address
    {
      CanonicalAddress(l, all[i]);
    }
    assert HeaderKeys(Bare(rcpts)) == AllKeys(l);
  }

  /**
   * Splitting is stable: feeding the lists and their recipients back gives the same lists, if and only
   * if To or Cc has an entry or Bcc has none (all-blind lists would come back as To).
   */
  lemma ResplitStable(l: Lists)
    requires Canonical(l)
    ensures Divide(l.to, l.cc, AllRecipients(l)) == l <==> l.to != [] || l.cc != [] || l.bcc == []
  {
    CanonicalEnvelope(l);
    if l.to == [] && l.cc == [] {
      BccIsBare(l);
      assert AllRecipients(l) == Addresses(l.bcc);
      assert AllKeys(l) == HeaderKeys(l.bcc);
      PickIdentity(l.bcc, HeaderKeys(l.bcc), EnvelopeKeys(AllRecipients(l)));
    } else {
      ResplitWithHeaders(l);
    }
  }

  lemma ResplitWithHeaders(l: Lists)
    requires Canonical(l) && (l.to != [] || l.cc != [])
    ensures Divide(l.to, l.cc, AllRecipients(l)) == l
  {
    var rcpts := AllRecipients(l);
    var e := EnvelopeKeys(rcpts);
    CanonicalEnvelope(l);
    var toKeys, ccKeys, bccKeys := HeaderKeys(l.to), HeaderKeys(l.cc), HeaderKeys(l.bcc);
    assert AllKeys(l) == toKeys + (ccKeys + bccKeys);
    DistinctParts(toKeys, ccKeys + bccKeys);
    DistinctParts(ccKeys, bccKeys);
    PickIdentity(l.to, toKeys, e);
    PickIdentity(l.cc, ccKeys, e - ToSet(toKeys));
    SkipNamed(l, e - ToSet(toKeys) - ToSet(ccKeys));
    PickIdentity(l.bcc, bccKeys, e - ToSet(toKeys) - ToSet(ccKeys));
  }

  /** With the To and Cc keys ruled out, picking from all recipients is picking from Bcc. */
  lemma SkipNamed(l: Lists, allowed: set<string>)
    requires Canonical(l) && KeySet(l.to) !! allowed && KeySet(l.cc) !! allowed
    ensures PickAddresses(Bare(AllRecipients(l)), allowed) == PickAddresses(l.bcc, allowed)
  {
    CanonicalEnvelope(l);
    var bare, named := Bare(AllRecipients(l)), HeaderKeys(l.to) + HeaderKeys(l.cc);
    var front := bare[..|named|];
    BccIsBare(l);
    assert bare == front + Bare(Addresses(l.bcc));
    assert ToSet(named) == KeySet(l.to) + KeySet(l.cc);
    PickSkip(front, named, l.bcc, HeaderKeys(l.bcc), allowed);
  }

  lemma DistinctParts(a: seq<string>, b: seq<string>)
    requires Distinct(a + b)
    ensures Distinct(a) && Distinct(b) && ToSet(a) !! ToSet(b) && ToSet(a + b) == ToSet(a) + ToSet(b)
  {
    var ab := a + b;
    forall i, j | 0 <= i < j < |a| ensures a[i] != a[j] {
      assert ab[i] == a[i] && ab[j] == a[j];
    }
    forall i, j | 0 <= i < j < |b| ensures b[i] != b[j] {
      assert ab[|a| + i] == b[i] && ab[|a| + j] == b[j];
    }
    forall i, j | 0 <= i < |a| && 0 <= j < |b| ensures a[i] != b[j] {
      assert ab[i] == a[i] && ab[|a| + j] == b[j];
    }
  }

  // ---- The sender ----

  /** The header's address is the envelope sender, which may be padded while the header's may not. */
  predicate NamesSender(header: Address, envelopeFrom: string) {
    Trimmed(header.address) && Key(header.address) == Key(envelopeFrom)
  }

  lemma EqualFoldTrimmed(header: string, envelopeFrom: string)
    ensures ToLower(header) == ToLower(TrimSpace(envelopeFrom))
            <==> Trimmed(header) && Key(header) == Key(envelopeFrom)
  {
    KeyOfTrimmed(header);
    KeyFacts(envelopeFrom);
    assert Trimmed(ToLower(header)) <==> Trimmed(header);
  }

  /** resolveFrom: the sender is that of the envelope; the header may contribute a display name. */
  function ResolveFrom(headerFrom: Option<Address>, envelopeFrom: string): (from: Address)
    ensures from.address == TrimSpace(envelopeFrom)
  {
    var from := Address("", TrimSpace(envelopeFrom));
    if headerFrom.Some? && ToLower(headerFrom.value.address) == ToLower(from.address) then
      from.(name := headerFrom.value.name)
    else from
  }

  /** The trimmed envelope sender, with the header's display name if the header names that sender. */
  predicate SenderOf(from: Address, headerFrom: Option<Address>, envelopeFrom: string) {
    && from.address == TrimSpace(envelopeFrom)
    && from.name == if headerFrom.Some? && NamesSender(headerFrom.value, envelopeFrom)
                    then headerFrom.value.name else ""
  }

  /**
   * The delivery address is always the trimmed envelope sender; the header contributes its display name
   * exactly if its first address is the same one.
   */
  lemma SenderResolved(headerFrom: Option<Address>, envelopeFrom: string)
    ensures SenderOf(ResolveFrom(headerFrom, envelopeFrom), headerFrom, envelopeFrom)
  {
    if headerFrom.Some? {
      EqualFoldTrimmed(headerFrom.value.address, envelopeFrom);
    }
  }
}
