/** The string operations the relay, the Worker and the release script share, on ASCII text. */
module Text {
  /** ASCII white space as Go's strings.TrimSpace sees it: tab through carriage return, and blank. */
  predicate IsSpace(c: char) {
    c == ' ' || '\t' <= c <= '\r'
  }

  predicate AllSpace(s: string) {
    forall i :: 0 <= i < |s| ==> IsSpace(s[i])
  }

  /** No white space at either end. */
  predicate Trimmed(s: string) {
    s != "" ==> !IsSpace(s[0]) && !IsSpace(s[|s| - 1])
  }

  function LowerChar(c: char): char {
    if 'A' <= c <= 'Z' then 'a' + (c - 'A') else c
  }

  function ToLower(s: string): (r: string)
    ensures |r| == |s|
    ensures forall i :: 0 <= i < |s| ==> r[i] == LowerChar(s[i])
  {
    seq(|s|, i requires 0 <= i < |s| => LowerChar(s[i]))
  }

  /** White space, character by character. */
  lemma SpacesListed(c: char)
    ensures IsSpace(c) <==> c in {' ', '\t', '\n', '\U{0b}', '\U{0c}', '\r'}
  {
  }

  /** The same letter, in either case. */
  predicate CaseTwins(c: char, d: char) {
    ('A' <= c <= 'Z' && d as int == c as int + 32) || ('A' <= d <= 'Z' && c as int == d as int + 32)
  }

  lemma LowerCharFolds(c: char, d: char)
    ensures LowerChar(c) == LowerChar(d) <==> c == d || CaseTwins(c, d)
    ensures !('A' <= LowerChar(c) <= 'Z')
  {
  }

  /** Strings have the same lower-case form exactly if they differ in the case of letters only. */
  lemma LowerMeans(s: string, t: string)
    ensures ToLower(s) == ToLower(t)
            <==> |s| == |t| && forall i :: 0 <= i < |s| ==> s[i] == t[i] || CaseTwins(s[i], t[i])
    ensures forall i :: 0 <= i < |s| ==> !('A' <= ToLower(s)[i] <= 'Z')
  {
    if ToLower(s) == ToLower(t) {
      assert |s| == |t|;
      forall i | 0 <= i < |s| ensures s[i] == t[i] || CaseTwins(s[i], t[i]) {
        assert ToLower(s)[i] == ToLower(t)[i];
        LowerCharFolds(s[i], t[i]);
      }
    }
    forall i | 0 <= i < |s| ensures !('A' <= ToLower(s)[i] <= 'Z') {
      LowerCharFolds(s[i], s[i]);
    }
  }

  function TrimLeft(s: string): string {
    if s != "" && IsSpace(s[0]) then TrimLeft(s[1..]) else s
  }

  function TrimRight(s: string): string {
    if s != "" && IsSpace(s[|s| - 1]) then TrimRight(s[..|s| - 1]) else s
  }

  function TrimSpace(s: string): string {
    TrimRight(TrimLeft(s))
  }

  /** The key under which recipients are matched and domains are compared. */
  function Key(s: string): string {
    ToLower(TrimSpace(s))
  }

  lemma {:induction false} TrimLeftParts(s: string) returns (pre: string)
    ensures s == pre + TrimLeft(s) && AllSpace(pre)
    ensures TrimLeft(s) != "" ==> !IsSpace(TrimLeft(s)[0])
  {
    if s != "" && IsSpace(s[0]) {
      var rest := TrimLeftParts(s[1..]);
      pre := [s[0]] + rest;
    } else {
      pre := "";
    }
  }

  lemma {:induction false} TrimRightParts(s: string) returns (post: string)
    ensures s == TrimRight(s) + post && AllSpace(post)
    ensures TrimRight(s) != "" ==> !IsSpace(TrimRight(s)[|TrimRight(s)| - 1])
  {
    if s != "" && IsSpace(s[|s| - 1]) {
      var rest := TrimRightParts(s[..|s| - 1]);
      post := rest + [s[|s| - 1]];
      assert s == TrimRight(s) + post;
    } else {
      post := "";
    }
  }

  /** TrimSpace removes white space at the two ends and nothing else. */
  lemma TrimParts(s: string) returns (pre: string, post: string)
    ensures s == pre + TrimSpace(s) + post
    ensures AllSpace(pre) && AllSpace(post) && Trimmed(TrimSpace(s))
  {
    pre := TrimLeftParts(s);
    post := TrimRightParts(TrimLeft(s));
    assert TrimSpace(s) != "" ==> TrimSpace(s)[0] == TrimLeft(s)[0];
  }

  lemma {:induction false} TrimLeftPadding(pre: string, s: string)
    requires AllSpace(pre)
    ensures TrimLeft(pre + s) == TrimLeft(s)
  {
    if pre == "" {
      assert pre + s == s;
    } else {
      assert (pre + s)[1..] == pre[1..] + s;
      TrimLeftPadding(pre[1..], s);
    }
  }

  lemma {:induction false} TrimRightPadding(s: string, post: string)
    requires AllSpace(post)
    ensures TrimRight(s + post) == TrimRight(s)
  {
    if post == "" {
      assert s + post == s;
    } else {
      assert (s + post)[..|s + post| - 1] == s + post[..|post| - 1];
      TrimRightPadding(s, post[..|post| - 1]);
    }
  }

  /** ... and the trimmed core is the only one a string has. */
  lemma TrimUnique(pre: string, core: string, post: string)
    requires AllSpace(pre) && AllSpace(post) && Trimmed(core)
    ensures TrimSpace(pre + core + post) == core
  {
    assert pre + core + post == pre + (core + post);
    TrimLeftPadding(pre, core + post);
    if core == "" {
      assert core + post == post + "";
      TrimLeftPadding(post, "");
    } else {
      TrimRightPadding(core, post);
    }
  }

  /** Key depends neither on case nor on padding, and is itself trimmed and lower case. */
  lemma KeyFacts(s: string)
    ensures Trimmed(TrimSpace(s)) && TrimSpace(TrimSpace(s)) == TrimSpace(s)
    ensures Trimmed(Key(s)) && Key(Key(s)) == Key(s) && ToLower(Key(s)) == Key(s)
    ensures Key(ToLower(s)) == Key(s)
    ensures Key(s) == "" <==> AllSpace(s)
  {
    var pre, post := TrimParts(s);
    var core := TrimSpace(s);
    TrimmedCore(core);
    TrimmedCore(ToLower(core));
    assert ToLower(ToLower(core)) == ToLower(core);
    assert ToLower(s) == ToLower(pre) + ToLower(core) + ToLower(post);
    TrimUnique(ToLower(pre), ToLower(core), ToLower(post));
    if core != "" {
      assert s[|pre|] == core[0];
    }
  }

  lemma TrimmedCore(core: string)
    requires Trimmed(core)
    ensures TrimSpace(core) == core
  {
    assert "" + core + "" == core;
    TrimUnique("", core, "");
  }

  lemma KeyPadding(pre: string, s: string, post: string)
    requires AllSpace(pre) && AllSpace(post)
    ensures Key(pre + s + post) == Key(s)
  {
    var a, b := TrimParts(s);
    assert pre + s + post == (pre + a) + TrimSpace(s) + (b + post);
    TrimUnique(pre + a, TrimSpace(s), b + post);
  }

  /** strings.Split and str.split on a one-character separator: never empty. */
  function Split(s: string, sep: char): (parts: seq<string>)
    ensures |parts| >= 1
    ensures forall i :: 0 <= i < |parts| ==> sep !in parts[i]
  {
    if s == "" then [""]
    else if s[0] == sep then [""] + Split(s[1..], sep)
    else
      var rest := Split(s[1..], sep);
      [[s[0]] + rest[0]] + rest[1..]
  }

  function Join(parts: seq<string>, sep: char): string {
    if |parts| == 0 then ""
    else if |parts| == 1 then parts[0]
    else parts[0] + [sep] + Join(parts[1..], sep)
  }

  lemma {:induction false} JoinSplit(s: string, sep: char)
    ensures Join(Split(s, sep), sep) == s
  {
    if s != "" {
      JoinSplit(s[1..], sep);
      var rest := Split(s[1..], sep);
      assert s == [s[0]] + s[1..];
      if s[0] == sep {
        assert Split(s, sep)[1..] == rest;
      } else {
        assert Split(s, sep)[1..] == rest[1..];
        if |rest| > 1 {
          assert Join(Split(s, sep), sep) == [s[0]] + rest[0] + [sep] + Join(rest[1..], sep);
        }
      }
    }
  }

  lemma Assoc<T>(a: seq<T>, b: seq<T>, c: seq<T>)
    ensures a + b + c == a + (b + c)
  {
  }

  lemma Slices<T>(a: seq<T>, b: seq<T>)
    ensures (a + b)[..|a|] == a && (a + b)[|a|..] == b && a <= a + b
  {
  }

  lemma Pair<T>(a: T, b: T, rest: seq<T>)
    ensures [a] + ([b] + rest) == [a, b] + rest
  {
  }

  lemma {:induction false} SplitConcat(a: string, b: string, sep: char)
    ensures Split(a + [sep] + b, sep) == Split(a, sep) + Split(b, sep)
  {
    var whole := a + [sep] + b;
    if a == "" {
      assert whole[0] == sep && whole[1..] == b;
    } else {
      assert whole[0] == a[0] && whole[1..] == a[1..] + [sep] + b;
      SplitConcat(a[1..], b, sep);
      SplitHead(whole, sep);
      SplitHead(a, sep);
      var first, second := Split(a[1..], sep), Split(b, sep);
      assert (first + second)[1..] == first[1..] + second;
      Assoc(if a[0] == sep then ["", first[0]] else [[a[0]] + first[0]], first[1..], second);
    }
  }

  /** The first character only affects the first part. */
  lemma SplitHead(s: string, sep: char)
    requires s != ""
    ensures var rest := Split(s[1..], sep);
            Split(s, sep) == (if s[0] == sep then ["", rest[0]] else [[s[0]] + rest[0]]) + rest[1..]
  {
  }

  /** The pieces of every part, in order. */
  function SplitAll(parts: seq<string>, sep: char): seq<string> {
    if |parts| == 0 then [] else Split(parts[0], sep) + SplitAll(parts[1..], sep)
  }

  /** Splitting a joined list splits its parts, so separators inside a part are not protected. */
  lemma {:induction false} SplitJoin(parts: seq<string>, sep: char)
    requires |parts| >= 1
    ensures Split(Join(parts, sep), sep) == SplitAll(parts, sep)
  {
    if |parts| == 1 {
      assert SplitAll(parts[1..], sep) == [];
    } else {
      SplitConcat(parts[0], Join(parts[1..], sep), sep);
      SplitJoin(parts[1..], sep);
    }
  }

  lemma {:induction false} SplitFree(s: string, sep: char)
    requires sep !in s
    ensures Split(s, sep) == [s]
  {
    if s != "" {
      SplitFree(s[1..], sep);
      assert s == [s[0]] + s[1..];
    }
  }

  /** The round trip on separator-free parts. */
  lemma {:induction false} SplitAllFree(parts: seq<string>, sep: char)
    requires forall i :: 0 <= i < |parts| ==> sep !in parts[i]
    ensures SplitAll(parts, sep) == parts
  {
    if |parts| > 0 {
      SplitFree(parts[0], sep);
      SplitAllFree(parts[1..], sep);
    }
  }
}
