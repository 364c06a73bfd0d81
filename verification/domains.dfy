/** The sender allowlist: its configuration string, the policy built from it, and trimming. */
module Domains {
  import opened Text
  import opened Message
  import opened FirstWins

  function KeysOf(parts: seq<string>): (keys: seq<string>)
    ensures |keys| == |parts|
    ensures forall i :: 0 <= i < |keys| ==> keys[i] == Key(parts[i])
  {
    seq(|parts|, i requires 0 <= i < |parts| => Key(parts[i]))
  }

  /** The distinct non-blank entries of a comma-separated list, trimmed, lower case, in order. */
  function Normalize(raw: string): seq<string> {
    var keys := KeysOf(Split(raw, ','));
    Pick(keys, keys, ToSet(keys) - {""})
  }

  lemma StepNormalize(keys: seq<string>, i: nat)
    requires i < |keys|
    ensures var allowed := ToSet(keys) - {""};
            && ToSet(keys[..i + 1]) == ToSet(keys[..i]) + {keys[i]}
            && Pick(keys[..i + 1], keys[..i + 1], allowed)
               == Pick(keys[..i], keys[..i], allowed)
                  + if keys[i] != "" && keys[i] !in ToSet(keys[..i]) then [keys[i]] else []
  {
    assert keys[..i + 1] == keys[..i] + [keys[i]];
    assert keys[i] in ToSet(keys);
    PickSnoc(keys, keys, ToSet(keys) - {""}, i);
  }

  /** normalizeDomains: the loop over the parts. */
  method NormalizeDomains(raw: string) returns (out: seq<string>)
    ensures out == Normalize(raw)
  {
    if raw == "" {
      NormalizeEmpty();
      return [];
    }
    var parts := Split(raw, ',');
    var seen: set<string> := {};
    out := [];
    ghost var keys := KeysOf(parts);
    for i := 0 to |parts|
      invariant seen == ToSet(keys[..i]) - {""}
      invariant out == Pick(keys[..i], keys[..i], ToSet(keys) - {""})
    {
      var d := ToLower(TrimSpace(parts[i]));
      assert d == keys[i];
      StepNormalize(keys, i);
      if d == "" || d in seen { continue; }
      seen := seen + {d};
      out := out + [d];
    }
    assert keys[..|parts|] == keys;
  }

  lemma NormalizeEmpty()
    ensures Normalize("") == []
  {
    var keys := KeysOf(Split("", ','));
    assert keys == [""];
    StepNormalize(keys, 0);
    assert keys[..1] == keys && keys[..0] == [];
  }

  /** An entry in normal form. */
  predicate NormalDomain(d: string) {
    d != "" && Trimmed(d) && ToLower(d) == d && ',' !in d
  }

  predicate NormalList(ds: seq<string>) {
    Distinct(ds) && forall i :: 0 <= i < |ds| ==> NormalDomain(ds[i])
  }

  lemma KeyOfPart(part: string)
    requires ',' !in part
    ensures Key(part) != "" ==> NormalDomain(Key(part))
  {
    KeyFacts(part);
    var pre, post := TrimParts(part);
    var core := TrimSpace(part);
    forall i | 0 <= i < |core| ensures Key(part)[i] != ',' {
      assert part[|pre| + i] == core[i];
    }
  }

  /** The result is in normal form and holds exactly the non-blank entries of the input. */
  lemma NormalizeIsNormal(raw: string)
    ensures NormalList(Normalize(raw))
    ensures ToSet(Normalize(raw)) == ToSet(KeysOf(Split(raw, ','))) - {""}
  {
    var parts := Split(raw, ',');
    var keys, out := KeysOf(parts), Normalize(raw);
    PickKeys(keys, ToSet(keys) - {""});
    forall i | 0 <= i < |out| ensures NormalDomain(out[i]) {
      assert out[i] in ToSet(out);
      var j :| 0 <= j < |keys| && keys[j] == out[i];
      KeyOfPart(parts[j]);
    }
  }

  /** Lists in normal form are fixed points, so normalising twice changes nothing. */
  lemma NormalFormIsFixed(ds: seq<string>)
    requires NormalList(ds)
    ensures Normalize(Join(ds, ',')) == ds
  {
    if ds == [] {
      NormalizeEmpty();
    } else {
      SplitJoin(ds, ',');
      SplitAllFree(ds, ',');
      forall i | 0 <= i < |ds| ensures Key(ds[i]) == ds[i] {
        TrimmedCore(ds[i]);
      }
      assert KeysOf(ds) == ds;
      PickIdentity(ds, ds, ToSet(ds) - {""});
    }
  }

  lemma NormalizeTwice(raw: string)
    ensures Normalize(Join(Normalize(raw), ',')) == Normalize(raw)
  {
    NormalizeIsNormal(raw);
    NormalFormIsFixed(Normalize(raw));
  }

  /** The allowed map of a SenderPolicy. */
  function PolicyOf(domains: seq<string>): set<string> {
    set d | d in domains :: ToLower(d)
  }

  method NewSenderPolicy(domains: seq<string>) returns (allowed: set<string>)
    ensures allowed == PolicyOf(domains)
  {
    allowed := {};
    if |domains| == 0 {
      return;
    }
    for i := 0 to |domains|
      invariant allowed == PolicyOf(domains[..i])
    {
      var d := LowerASCII(domains[i]);
      assert domains[..i + 1] == domains[..i] + [domains[i]];
      allowed := allowed + {d};
    }
    assert domains[..|domains|] == domains;
  }

  /** SenderPolicy.Allows: an empty allowlist allows everybody. */
  predicate Allows(allowed: set<string>, from: string) {
    if |allowed| == 0 then true
    else DomainOf(from) != "" && DomainOf(from) in allowed
  }

  method AllowsSender(allowed: set<string>, from: string) returns (ok: bool)
    ensures ok <==> Allows(allowed, from)
  {
    if |allowed| == 0 {
      return true;
    }
    var domain := Domain(from);
    if domain == "" {
      return false;
    }
    return domain in allowed;
  }

  /** Without an allowlist everybody is admitted, and only then. */
  lemma AllowsEverybody(allowed: set<string>)
    ensures (forall from :: Allows(allowed, from)) <==> allowed == {}
  {
    if allowed != {} {
      assert DomainOf("") == "" && !Allows(allowed, "");
    }
  }

  /** The policy built from any list of domains admits those, case aside, and nothing else. */
  lemma AllowsListed(domains: seq<string>, from: string)
    requires domains != []
    ensures Allows(PolicyOf(domains), from)
            <==> DomainOf(from) != "" && exists i :: 0 <= i < |domains| && ToLower(domains[i]) == DomainOf(from)
  {
    assert domains[0] in domains && ToLower(domains[0]) in PolicyOf(domains);
    if i :| 0 <= i < |domains| && ToLower(domains[i]) == DomainOf(from) {
      assert domains[i] in domains;
    }
  }

  /** A configured list is no list at all exactly if all its entries are blank. */
  lemma NoListIff(raw: string)
    ensures PolicyOf(Normalize(raw)) == {} <==> forall i :: 0 <= i < |Split(raw, ',')| ==> AllSpace(Split(raw, ',')[i])
  {
    var parts, ds := Split(raw, ','), Normalize(raw);
    PolicyOfNormal(raw);
    NormalizeIsNormal(raw);
    forall i | 0 <= i < |parts| ensures Key(parts[i]) == "" <==> AllSpace(parts[i]) {
      KeyFacts(parts[i]);
    }
    var keys := KeysOf(parts);
    if i :| 0 <= i < |parts| && !AllSpace(parts[i]) {
      assert keys[i] in ToSet(keys) - {""};
    } else {
      forall k | k in ToSet(keys) ensures k == "" {
        var i :| 0 <= i < |keys| && keys[i] == k;
      }
    }
  }

  /** Configured through normalizeDomains, a non-empty allowlist admits exactly the listed domains. */
  lemma AllowsExactly(raw: string, from: string)
    requires Normalize(raw) != []
    ensures Allows(PolicyOf(Normalize(raw)), from) <==> DomainOf(from) in Normalize(raw)
  {
    PolicyOfNormal(raw);
    NormalizeIsNormal(raw);
    var ds := Normalize(raw);
    assert ds[0] in ToSet(ds);
    assert forall d :: d in ds ==> NormalDomain(d);
  }

  lemma PolicyOfNormal(raw: string)
    ensures PolicyOf(Normalize(raw)) == ToSet(Normalize(raw))
  {
    NormalizeIsNormal(raw);
    var ds := Normalize(raw);
    forall d | d in ds ensures ToLower(d) == d {
      assert NormalDomain(d);
    }
    forall d | d in ToSet(ds) ensures d in PolicyOf(ds) {
      assert ToLower(d) == d;
    }
  }

  // ---- MAIL FROM is checked before trimming, the sender is resolved after ----

  lemma {:induction false} TrimLeftStops(s: string, t: string)
    requires t != "" && !IsSpace(t[0])
    ensures TrimLeft(s + t) == TrimLeft(s) + t
  {
    if s == "" {
      assert s + t == t;
    } else {
      assert (s + t)[1..] == s[1..] + t;
      TrimLeftStops(s[1..], t);
    }
  }

  lemma {:induction false} TrimRightStops(s: string, t: string)
    requires s != "" && !IsSpace(s[|s| - 1])
    ensures TrimRight(s + t) == s + TrimRight(t)
  {
    if t == "" {
      assert s + t == s;
    } else {
      assert (s + t)[..|s + t| - 1] == s + t[..|t| - 1];
      TrimRightStops(s, t[..|t| - 1]);
    }
  }

  lemma {:induction false} TrimRightLower(s: string)
    ensures TrimRight(ToLower(s)) == ToLower(TrimRight(s))
  {
    if s != "" {
      assert ToLower(s)[..|s| - 1] == ToLower(s[..|s| - 1]);
      TrimRightLower(s[..|s| - 1]);
    }
  }

  /** Trimming an address trims its domain on the right, and never moves its last '@'. */
  lemma DomainOfTrimmed(s: string)
    ensures DomainOf(TrimSpace(s)) == TrimRight(DomainOf(s))
  {
    var local := AtParts(s);
    if AfterLastAt(s).None? {
      var pre, post := TrimParts(s);
      NoAt(TrimSpace(s));
    } else {
      var d := AfterLastAt(s).value;
      var left := TrimLeft(local) + "@";
      assert s == local + ("@" + d);
      TrimLeftStops(local, "@" + d);
      assert TrimLeft(s) == left + d;
      TrimRightStops(left, d);
      var post := TrimRightParts(d);
      LastAt(TrimLeft(local), TrimRight(d));
      TrimRightLower(d);
    }
  }

  /** The domains an allowlist can admit at all. */
  predicate Matchable(d: string) {
    d != "" && '@' !in d && ToLower(d) == d
  }

  predicate ListsTrimmed(allowed: set<string>) {
    forall d :: d in allowed && Matchable(d) ==> TrimRight(d) != "" && TrimRight(d) in allowed
  }

  lemma MatchableDomain(from: string)
    requires DomainOf(from) != ""
    ensures Matchable(DomainOf(from))
  {
    var local := AtParts(from);
    var d := AfterLastAt(from).value;
    forall i | 0 <= i < |d| ensures DomainOf(from)[i] != '@' && LowerChar(DomainOf(from)[i]) == DomainOf(from)[i] {
      assert d[i] in d;
    }
    assert ToLower(DomainOf(from)) == DomainOf(from);
  }

  lemma TrimSafeNeeds(allowed: set<string>, d: string)
    requires forall from :: Allows(allowed, from) ==> Allows(allowed, TrimSpace(from))
    requires d in allowed && Matchable(d)
    ensures TrimRight(d) != "" && TrimRight(d) in allowed
  {
    var from := "a" + "@" + d;
    LastAt("a", d);
    DomainOfTrimmed(from);
    assert Allows(allowed, from);
  }

  /**
   * Checking the untrimmed sender protects the trimmed one if and only if every matchable entry of the
   * allowlist is still listed once its trailing white space is gone.
   */
  lemma TrimSafe(allowed: set<string>)
    requires allowed != {}
    ensures (forall from :: Allows(allowed, from) ==> Allows(allowed, TrimSpace(from))) <==> ListsTrimmed(allowed)
  {
    if forall from :: Allows(allowed, from) ==> Allows(allowed, TrimSpace(from)) {
      forall d | d in allowed && Matchable(d) ensures TrimRight(d) != "" && TrimRight(d) in allowed {
        TrimSafeNeeds(allowed, d);
      }
    }
    if ListsTrimmed(allowed) {
      forall from | Allows(allowed, from) ensures Allows(allowed, TrimSpace(from)) {
        DomainOfTrimmed(from);
        MatchableDomain(from);
      }
    }
  }

  /** Some list is not: one with a padded entry, compared with the padded sender and not with the sent one. */
  lemma PaddedEntryIsUnsafe()
    ensures Allows({"b "}, "a@b ") && !Allows({"b "}, TrimSpace("a@b "))
  {
    assert "a" + "@" + "b " == "a@b " && "" + "a@b" + " " == "a@b " && "a" + "@" + "b" == "a@b";
    LastAt("a", "b ");
    LastAt("a", "b");
    TrimUnique("", "a@b", " ");
    assert ToLower("b ") == "b " && ToLower("b") == "b";
    assert "b " in {"b "};
  }

  /** An allowlist configured through normalizeDomains is always trim-safe. */
  lemma ConfiguredListIsTrimSafe(raw: string, from: string)
    requires Normalize(raw) != []
    requires Allows(PolicyOf(Normalize(raw)), from)
    ensures DomainOf(TrimSpace(from)) == DomainOf(from)
    ensures Allows(PolicyOf(Normalize(raw)), TrimSpace(from))
  {
    AllowsExactly(raw, from);
    NormalizeIsNormal(raw);
    assert NormalDomain(DomainOf(from));
    DomainOfTrimmed(from);
    AllowsExactly(raw, TrimSpace(from));
  }
}
