/** Order-preserving de-duplication: of several items with the same key, the first one wins. */
module FirstWins {

  predicate Kept(keys: seq<string>, allowed: set<string>, i: nat) {
    i < |keys| && keys[i] in allowed && keys[i] !in keys[..i]
  }

  /** The items whose key is allowed and did not occur before. */
  function Pick<T>(items: seq<T>, keys: seq<string>, allowed: set<string>): seq<T>
    requires |items| == |keys|
  {
    if keys == [] then []
    else
      var n := |keys| - 1;
      Pick(items[..n], keys[..n], allowed) + if Kept(keys, allowed, n) then [items[n]] else []
  }

  predicate Distinct(keys: seq<string>) {
    forall i, j :: 0 <= i < j < |keys| ==> keys[i] != keys[j]
  }

  function ToSet(keys: seq<string>): set<string> {
    set k | k in keys
  }

  /** One more item: kept if its key is allowed and new. */
  lemma PickSnoc<T>(items: seq<T>, keys: seq<string>, allowed: set<string>, i: nat)
    requires i < |items| == |keys|
    ensures Pick(items[..i + 1], keys[..i + 1], allowed)
            == Pick(items[..i], keys[..i], allowed)
               + if keys[i] in allowed && keys[i] !in keys[..i] then [items[i]] else []
  {
    assert keys[..i + 1][..i] == keys[..i] && items[..i + 1][..i] == items[..i];
  }

  /** The positions kept, in order. */
  function Firsts(keys: seq<string>, allowed: set<string>): seq<nat> {
    if keys == [] then []
    else
      var n := |keys| - 1;
      Firsts(keys[..n], allowed) + if Kept(keys, allowed, n) then [n] else []
  }

  predicate AllKept(keys: seq<string>, allowed: set<string>, idx: seq<nat>) {
    && (forall j :: 0 <= j < |idx| ==> Kept(keys, allowed, idx[j]))
    && (forall i: nat :: i < |keys| && Kept(keys, allowed, i) ==> i in idx)
  }

  predicate Increasing(idx: seq<nat>) {
    forall j, k :: 0 <= j < k < |idx| ==> idx[j] < idx[k]
  }

  lemma KeptInPrefix(keys: seq<string>, allowed: set<string>, n: nat, i: nat)
    requires i < n <= |keys|
    ensures Kept(keys[..n], allowed, i) == Kept(keys, allowed, i)
  {
    assert keys[..n][..i] == keys[..i];
  }

  /** They are exactly the first occurrences of allowed keys. */
  lemma {:induction false} FirstsExact(keys: seq<string>, allowed: set<string>)
    ensures AllKept(keys, allowed, Firsts(keys, allowed)) && Increasing(Firsts(keys, allowed))
  {
    if keys != [] {
      var n := |keys| - 1;
      FirstsExact(keys[..n], allowed);
      FirstsStep(keys, allowed, Firsts(keys[..n], allowed));
    }
  }

  lemma FirstsStep(keys: seq<string>, allowed: set<string>, front: seq<nat>)
    requires keys != []
    requires AllKept(keys[..|keys| - 1], allowed, front) && Increasing(front)
    ensures var n := |keys| - 1;
            var idx := front + if Kept(keys, allowed, n) then [n] else [];
            AllKept(keys, allowed, idx) && Increasing(idx)
  {
    var n := |keys| - 1;
    var idx := front + if Kept(keys, allowed, n) then [n] else [];
    forall j | 0 <= j < |front| ensures Kept(keys, allowed, front[j]) && front[j] < n {
      assert Kept(keys[..n], allowed, front[j]);
      KeptInPrefix(keys, allowed, n, front[j]);
    }
    forall i: nat | i < |keys| && Kept(keys, allowed, i) ensures i in idx {
      if i < n {
        KeptInPrefix(keys, allowed, n, i);
        assert i in front;
      }
    }
  }

  /** Pick is the subsequence of the items at those positions. */
  lemma {:induction false} PickAtFirsts<T>(items: seq<T>, keys: seq<string>, allowed: set<string>)
    requires |items| == |keys|
    ensures var idx, out := Firsts(keys, allowed), Pick(items, keys, allowed);
            |out| == |idx| && forall j :: 0 <= j < |idx| ==> idx[j] < |items| && out[j] == items[idx[j]]
  {
    if keys != [] {
      PickAtFirsts(items[..|keys| - 1], keys[..|keys| - 1], allowed);
    }
  }

  /** The keys of the result are distinct and are exactly the allowed keys that occur. */
  lemma {:induction false} PickKeys(keys: seq<string>, allowed: set<string>)
    ensures Distinct(Pick(keys, keys, allowed))
    ensures ToSet(Pick(keys, keys, allowed)) == allowed * ToSet(keys)
  {
    if keys != [] {
      var n := |keys| - 1;
      var front := Pick(keys[..n], keys[..n], allowed);
      PickKeys(keys[..n], allowed);
      assert ToSet(keys) == ToSet(keys[..n]) + {keys[n]};
      assert keys[n] in front ==> keys[n] in ToSet(front);
      var out := if Kept(keys, allowed, n) then front + [keys[n]] else front;
      assert Pick(keys, keys, allowed) == out;
      assert ToSet(out) == ToSet(front) + if Kept(keys, allowed, n) then {keys[n]} else {};
      assert keys[n] in ToSet(keys[..n]) <==> keys[n] in keys[..n];
    }
  }

  /** Pick invents nothing. */
  lemma {:induction false} PickFrom<T>(items: seq<T>, keys: seq<string>, allowed: set<string>)
    requires |items| == |keys|
    ensures forall x :: x in Pick(items, keys, allowed) ==> x in items
  {
    if keys != [] {
      var n := |keys| - 1;
      PickFrom(items[..n], keys[..n], allowed);
    }
  }

  lemma {:induction false} DistinctSize(keys: seq<string>)
    requires Distinct(keys)
    ensures |ToSet(keys)| == |keys|
  {
    if keys != [] {
      var n := |keys| - 1;
      DistinctSize(keys[..n]);
      assert keys[n] !in keys[..n];
      assert ToSet(keys) == ToSet(keys[..n]) + {keys[n]};
    }
  }

  lemma {:induction false} SetSize(keys: seq<string>)
    ensures |ToSet(keys)| <= |keys|
  {
    if keys != [] {
      var n := |keys| - 1;
      SetSize(keys[..n]);
      assert ToSet(keys) == ToSet(keys[..n]) + {keys[n]};
    }
  }

  /** A list with distinct, allowed keys is left as it is. */
  lemma {:induction false} PickIdentity<T>(items: seq<T>, keys: seq<string>, allowed: set<string>)
    requires |items| == |keys| && Distinct(keys) && ToSet(keys) <= allowed
    ensures Pick(items, keys, allowed) == items
  {
    if keys == [] {
      assert items == [];
    } else {
      var n := |keys| - 1;
      assert items[..n + 1] == items && keys[..n + 1] == keys;
      assert ToSet(keys) == ToSet(keys[..n]) + {keys[n]};
      PickIdentity(items[..n], keys[..n], allowed);
      PickSnoc(items, keys, allowed, n);
      assert items[..n] + [items[n]] == items;
    }
  }

  /** Only the allowed keys that occur matter. */
  lemma {:induction false} PickAllowed<T>(items: seq<T>, keys: seq<string>, a: set<string>, b: set<string>)
    requires |items| == |keys| && a * ToSet(keys) == b * ToSet(keys)
    ensures Pick(items, keys, a) == Pick(items, keys, b)
  {
    if keys != [] {
      var n := |keys| - 1;
      forall k | k in keys[..n] ensures k in a <==> k in b {
        assert k in ToSet(keys);
        assert k in a * ToSet(keys) <==> k in b * ToSet(keys);
      }
      assert a * ToSet(keys[..n]) == b * ToSet(keys[..n]);
      PickAllowed(items[..n], keys[..n], a, b);
      PickSnoc(items, keys, a, n);
      PickSnoc(items, keys, b, n);
      assert keys[n] in ToSet(keys);
      assert keys[n] in a * ToSet(keys) <==> keys[n] in b * ToSet(keys);
      assert items[..n + 1] == items && keys[..n + 1] == keys;
    }
  }

  /** A leading part without allowed keys is skipped. */
  lemma {:induction false} PickSkip<T>(front: seq<T>, fkeys: seq<string>, back: seq<T>, bkeys: seq<string>,
                                       allowed: set<string>)
    requires |front| == |fkeys| && |back| == |bkeys| && ToSet(fkeys) !! allowed
    ensures Pick(front + back, fkeys + bkeys, allowed) == Pick(back, bkeys, allowed)
  {
    if back == [] {
      assert front + back == front && fkeys + bkeys == fkeys;
      PickAllowed(front, fkeys, allowed, {});
      PickAllowed(back, bkeys, allowed, {});
      PickFromNone(front, fkeys);
    } else {
      var n, m := |back| - 1, |front| + |back| - 1;
      var items, keys := front + back, fkeys + bkeys;
      assert items[..m] == front + back[..n] && keys[..m] == fkeys + bkeys[..n];
      assert items[..m + 1] == items && keys[..m + 1] == keys;
      assert back[..n + 1] == back && bkeys[..n + 1] == bkeys;
      PickSkip(front, fkeys, back[..n], bkeys[..n], allowed);
      PickSnoc(back, bkeys, allowed, n);
      PickSnoc(items, keys, allowed, m);
      SkippedKey(fkeys, bkeys[..n], allowed, bkeys[n]);
    }
  }

  lemma SkippedKey(fkeys: seq<string>, bkeys: seq<string>, allowed: set<string>, k: string)
    requires ToSet(fkeys) !! allowed
    ensures k in allowed ==> (k in fkeys + bkeys <==> k in bkeys)
  {
    assert k in fkeys ==> k in ToSet(fkeys);
  }

  lemma {:induction false} PickFromNone<T>(items: seq<T>, keys: seq<string>)
    requires |items| == |keys|
    ensures Pick(items, keys, {}) == []
  {
    if keys != [] {
      var n := |keys| - 1;
      PickFromNone(items[..n], keys[..n]);
      PickSnoc(items, keys, {}, n);
      assert items[..n + 1] == items && keys[..n + 1] == keys;
    }
  }
}
