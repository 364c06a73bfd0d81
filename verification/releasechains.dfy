/** Sequences of releases: what running the release script again and again does to a changelog. */
module ReleaseChains {
  import opened Options
  import opened Text
  import opened Changelog
  import opened ChangelogFile

  // ---- Chains of releases ----

  /** The headings below the first Unreleased section, top to bottom. */
  function HeadingsBelow(ss: seq<Section>): seq<string> {
    if ss == [] then []
    else if UNRELEASED <= ss[0].heading then Headings(ss[1..])
    else HeadingsBelow(ss[1..])
  }

  function Headings(ss: seq<Section>): (hs: seq<string>)
    ensures |hs| == |ss|
    ensures forall i :: 0 <= i < |hs| ==> hs[i] == ss[i].heading
  {
    seq(|ss|, i requires 0 <= i < |ss| => ss[i].heading)
  }

  function ReleaseHeadings(lines: seq<string>): seq<string> {
    HeadingsBelow(ParseDoc(lines).sections)
  }

  lemma {:induction false} ExpandKeepsHeadings(r: Release, ss: seq<Section>)
    ensures Headings(ExpandSections(r, ss)) == Headings(ss)
  {
    if ss != [] {
      ExpandKeepsHeadings(r, ss[1..]);
      assert Headings(ss) == [ss[0].heading] + Headings(ss[1..]);
      assert ExpandSections(r, ss) == [ExpandSection(r, ss[0])] + ExpandSections(r, ss[1..]);
    }
  }

  lemma BelowCons(s: Section, ss: seq<Section>)
    ensures HeadingsBelow([s] + ss) == if UNRELEASED <= s.heading then Headings(ss) else HeadingsBelow(ss)
    ensures Headings([s] + ss) == [s.heading] + Headings(ss)
  {
    assert ([s] + ss)[1..] == ss;
  }

  predicate HasUnreleased(ss: seq<Section>) {
    exists i :: 0 <= i < |ss| && UNRELEASED <= ss[i].heading
  }

  lemma PairOnTop(a: Section, b: Section, others: seq<Section>)
    requires UNRELEASED <= a.heading
    ensures HeadingsBelow([a, b] + others) == [b.heading] + Headings(others)
  {
    assert [a, b] + others == [a] + ([b] + others);
    BelowCons(a, [b] + others);
    BelowCons(b, others);
  }

  lemma RollHere(r: Release, s: Section, rest: seq<Section>)
    requires UNRELEASED <= s.heading
    ensures HeadingsBelow(RollSections(r, [s] + rest)) == [NewHeading(r)] + Headings(rest)
  {
    RollCons(r, s, rest);
    ExpandKeepsHeadings(r, rest);
    PairOnTop(Section(s.heading, [""]), Section(NewHeading(r), Expand(r, s.body)), ExpandSections(r, rest));
  }

  lemma {:induction false} RollPutsOnTop(r: Release, ss: seq<Section>)
    requires HasUnreleased(ss)
    ensures HeadingsBelow(RollSections(r, ss)) == [NewHeading(r)] + HeadingsBelow(ss)
  {
    var s, rest := ss[0], ss[1..];
    assert ss == [s] + rest;
    BelowCons(s, rest);
    if UNRELEASED <= s.heading {
      RollHere(r, s, rest);
    } else {
      var i :| 0 <= i < |ss| && UNRELEASED <= ss[i].heading;
      assert rest[i - 1] == ss[i];
      RollPutsOnTop(r, rest);
      RollCons(r, s, rest);
      BelowCons(ExpandSection(r, s), RollSections(r, rest));
    }
  }

  lemma {:induction false} HeadingIsSection(lines: seq<string>, u: nat)
    requires u < |lines| && IsHeading(lines[u])
    ensures exists i :: 0 <= i < |ParseDoc(lines).sections| && ParseDoc(lines).sections[i].heading == lines[u]
  {
    var d := ParseDoc(lines[1..]);
    if u == 0 {
      assert ParseDoc(lines).sections[0].heading == lines[0];
    } else {
      HeadingIsSection(lines[1..], u - 1);
      var i :| 0 <= i < |d.sections| && d.sections[i].heading == lines[u];
      var k := if IsHeading(lines[0]) then i + 1 else i;
      assert ParseDoc(lines).sections[k] == d.sections[i];
    }
  }

  /** A heading of one bracket-free version is not taken for that of another. */
  lemma VersionsApart(r: Release, version: string)
    requires ']' !in r.version && ']' !in version
    ensures VersionMark(version) <= NewHeading(r) ==> version == r.version
  {
    if VersionMark(version) <= NewHeading(r) {
      var s := NewHeading(r)[4..];
      assert version + "]" == VersionMark(version)[4..] <= s;
      assert r.version + "]" == VersionMark(r.version)[4..] <= s;
      FirstBracket(version, s);
      FirstBracket(r.version, s);
      assert version == s[..|version|] == s[..|r.version|] == r.version;
    }
  }

  lemma OthersStayAbsent(lines: seq<string>, u: nat, r: Release, version: string)
    requires u < |lines| && Absent(lines, version)
    requires ']' !in r.version && ']' !in version && version != r.version
    ensures Absent(Conserved(lines, u, r), version)
  {
    RolledMembers(r, lines, u);
    VersionsApart(r, version);
    var mark, rolled := VersionMark(version), Conserved(lines, u, r);
    assert mark[0] == '#' && LinkLines(r)[0][0] == '[' && LinkLines(r)[1][0] == '[';
    forall i | 0 <= i < |rolled| ensures !(mark <= rolled[i]) {
      assert rolled[i] in rolled;
    }
  }

  /** One clean release of a new version: it succeeds, and its heading goes on top. */
  lemma OneRelease(file: string, r: Release)
    requires Clean(r) && Shaped(Lines(file)) && Absent(Lines(file), r.version)
    ensures RunScript(file, r).Ok?
    ensures var lines, after := Lines(file), Lines(RunScript(file, r).value);
            && Shaped(after)
            && ReleaseHeadings(after) == [NewHeading(r)] + ReleaseHeadings(lines)
            && ReadHeading(ReleaseHeadings(after)[0]) == Some((r.version, r.date))
  {
    var lines := Lines(file);
    SucceedsIff(lines, r);
    CleanScript(file, r);
    var u := FirstFrom(lines, 0, UNRELEASED).value;
    InsertedForm(lines, u, r);
    var after := Conserved(lines, u, r);
    InsertedNewlineFree(r, lines, u);
    ShapeKept(lines, r, u);
    SplitAllFree(after, '\n');
    RewriteRollsSections(r, lines);
    UnreleasedIsHeading(lines[u]);
    HeadingIsSection(lines, u);
    RollPutsOnTop(r, ParseDoc(lines).sections);
    HeadingReads(r);
  }

  lemma OneReleaseOthers(file: string, r: Release, version: string)
    requires Clean(r) && RunScript(file, r).Ok?
    requires ']' !in version && version != r.version && Absent(Lines(file), version)
    ensures Absent(Lines(RunScript(file, r).value), version)
  {
    var lines := Lines(file);
    CleanScript(file, r);
    var u := FirstFrom(lines, 0, UNRELEASED).value;
    InsertedForm(lines, u, r);
    OthersStayAbsent(lines, u, r, version);
  }

  function RunAll(file: string, rs: seq<Release>): Result<string> {
    if rs == [] then Ok(file)
    else match RunAll(file, rs[..|rs| - 1])
      case Failed(p) => Failed(p)
      case Ok(t) => RunScript(t, rs[|rs| - 1])
  }

  function NewestFirst(rs: seq<Release>): seq<string> {
    if rs == [] then [] else [NewHeading(rs[|rs| - 1])] + NewestFirst(rs[..|rs| - 1])
  }

  predicate FreshReleases(file: string, rs: seq<Release>) {
    && (forall i :: 0 <= i < |rs| ==> Clean(rs[i]) && Absent(Lines(file), rs[i].version))
    && forall i, j :: 0 <= i < j < |rs| ==> rs[i].version != rs[j].version
  }

  /** Along the chain the shape is kept, and versions not released stay absent. */
  lemma {:induction false} ChainKeeps(file: string, rs: seq<Release>, version: string)
    requires Shaped(Lines(file)) && FreshReleases(file, rs)
    requires ']' !in version && Absent(Lines(file), version)
    requires forall i :: 0 <= i < |rs| ==> rs[i].version != version
    ensures RunAll(file, rs).Ok?
    ensures var after := Lines(RunAll(file, rs).value); Shaped(after) && Absent(after, version)
  {
    if rs != [] {
      var n := |rs| - 1;
      ChainKeeps(file, rs[..n], rs[n].version);
      ChainKeeps(file, rs[..n], version);
      var t := RunAll(file, rs[..n]).value;
      OneRelease(t, rs[n]);
      OneReleaseOthers(t, rs[n], version);
    }
  }

  /**
   * Any sequence of clean releases with distinct new versions goes through, and leaves their headings
   * newest first between Unreleased and the sections that were there before.
   */
  lemma {:induction false} ReleaseChain(file: string, rs: seq<Release>)
    requires Shaped(Lines(file)) && FreshReleases(file, rs)
    ensures RunAll(file, rs).Ok?
    ensures ReleaseHeadings(Lines(RunAll(file, rs).value))
            == NewestFirst(rs) + ReleaseHeadings(Lines(file))
  {
    var below := ReleaseHeadings(Lines(file));
    if rs == [] {
      Concat([], [], below);
    } else {
      var n := |rs| - 1;
      ReleaseChain(file, rs[..n]);
      ChainKeeps(file, rs[..n], rs[n].version);
      OneRelease(RunAll(file, rs[..n]).value, rs[n]);
      Concat([NewHeading(rs[n])], NewestFirst(rs[..n]), below);
    }
  }

  /** The headings of a chain read back as the versions and dates released, newest first. */
  lemma {:induction false} NewestFirstReads(rs: seq<Release>)
    requires forall i :: 0 <= i < |rs| ==> ']' !in rs[i].version
    ensures |NewestFirst(rs)| == |rs|
    ensures forall i :: 0 <= i < |rs| ==>
              ReadHeading(NewestFirst(rs)[i]) == Some((rs[|rs| - 1 - i].version, rs[|rs| - 1 - i].date))
  {
    if rs != [] {
      HeadingReads(rs[|rs| - 1]);
      NewestFirstReads(rs[..|rs| - 1]);
    }
  }

  /** So a reader of the final changelog finds every release of the chain, newest first, under its date. */
  lemma ChainReads(file: string, rs: seq<Release>, i: nat)
    requires Shaped(Lines(file)) && FreshReleases(file, rs) && i < |rs|
    ensures RunAll(file, rs).Ok?
    ensures var headings := ReleaseHeadings(Lines(RunAll(file, rs).value));
            && |headings| == |rs| + |ReleaseHeadings(Lines(file))|
            && ReadHeading(headings[i]) == Some((rs[|rs| - 1 - i].version, rs[|rs| - 1 - i].date))
  {
    ReleaseChain(file, rs);
    NewestFirstReads(rs);
  }

  lemma Concat<T>(a: seq<T>, b: seq<T>, c: seq<T>)
    ensures a + (b + c) == a + b + c && [] + c == c
  {
  }

  // ---- The link references of a chain ----

  /** The links of the versions, newest first. */
  function VersionLines(rs: seq<Release>): seq<string> {
    if rs == [] then []
    else [LinkLines(rs[|rs| - 1])[1]] + VersionLines(rs[..|rs| - 1])
  }

  predicate BlockAt(lines: seq<string>, k: nat, block: seq<string>) {
    k + |block| <= |lines| && lines[k..k + |block|] == block
  }

  /** No line is a link line or a heading. */
  predicate PlainLines(lines: seq<string>) {
    forall i :: 0 <= i < |lines| ==> !IsLink(lines[i]) && !IsHeading(lines[i])
  }

  lemma {:induction false} ExpandNothing(r: Release, lines: seq<string>)
    requires PlainLines(lines)
    ensures Expand(r, lines) == lines
  {
    if lines != [] {
      assert forall i :: 0 <= i < |lines[1..]| ==> lines[1..][i] == lines[i + 1];
      ExpandNothing(r, lines[1..]);
    }
  }

  /** A link line followed by plain lines becomes the two new lines followed by the same lines. */
  lemma ExpandBlock(r: Release, lines: seq<string>, k: nat, link: string, rest: seq<string>) returns (k': nat)
    requires BlockAt(lines, k, [link] + rest) && IsLink(link) && PlainLines(rest)
    ensures BlockAt(Expand(r, lines), k', LinkLines(r) + rest)
  {
    var a, block, b := lines[..k], [link] + rest, lines[k + 1 + |rest|..];
    assert lines == a + block + b;
    ExpandConcat(r, a + block, b);
    ExpandConcat(r, a, block);
    ExpandConcat(r, [link], rest);
    ExpandOne(r, link);
    ExpandNothing(r, rest);
    k' := |Expand(r, a)|;
    assert Expand(r, lines) == Expand(r, a) + (LinkLines(r) + rest) + Expand(r, b);
  }

  lemma OutsideBlock(lines: seq<string>, k: nat, block: seq<string>)
    requires BlockAt(lines, k, block) && forall i :: 0 <= i < |block| ==> !IsHeading(block[i])
    ensures forall u :: k <= u < k + |block| ==> !IsHeading(lines[u])
  {
    forall u | k <= u < k + |block| ensures !IsHeading(lines[u]) {
      assert lines[u] == block[u - k];
    }
  }

  lemma LinkIsNoHeading(line: string)
    ensures IsLink(line) ==> !IsHeading(line)
  {
    assert LINK[0] != HEADING[0];
  }

  /** Inserting the new section does not tear such a block apart. */
  lemma BlockRebuilt(r: Release, lines: seq<string>, u: nat, k: nat, link: string, rest: seq<string>) returns (k': nat)
    requires BlockAt(lines, k, [link] + rest) && IsLink(link) && PlainLines(rest)
    requires u < |lines| && IsHeading(lines[u])
    ensures BlockAt(lines[..u + 1] + ["", NewHeading(r)] + lines[u + 1..], k', [link] + rest)
  {
    var block, rebuilt := [link] + rest, lines[..u + 1] + ["", NewHeading(r)] + lines[u + 1..];
    LinkIsNoHeading(link);
    OutsideBlock(lines, k, block);
    if u < k {
      k' := k + 2;
      assert rebuilt[k'..k' + |block|] == lines[k..k + |block|];
    } else {
      k' := k;
      assert rebuilt[k'..k' + |block|] == lines[k..k + |block|];
    }
  }

  lemma BlockRolled(r: Release, lines: seq<string>, u: nat, k: nat, link: string, rest: seq<string>) returns (k': nat)
    requires BlockAt(lines, k, [link] + rest) && IsLink(link) && PlainLines(rest)
    requires u < |lines| && IsHeading(lines[u])
    ensures BlockAt(Conserved(lines, u, r), k', LinkLines(r) + rest)
  {
    var k1 := BlockRebuilt(r, lines, u, k, link, rest);
    ExpandRebuilt(lines, u, r);
    k' := ExpandBlock(r, lines[..u + 1] + ["", NewHeading(r)] + lines[u + 1..], k1, link, rest);
  }

  /** Only the Unreleased tag makes a reference the Unreleased link. */
  lemma LinkTag(tag: string, line: string)
    requires ']' !in tag && "[" + (tag + "]") <= line
    ensures IsLink(line) ==> tag == "Unreleased"
  {
    var s := line[1..];
    assert tag + "]" == ("[" + (tag + "]"))[1..] <= s;
    FirstBracket(tag, s);
    if LINK <= line {
      assert "Unreleased]" == LINK[1..12] == line[1..12] == s[..11];
      assert "Unreleased" + "]" == "Unreleased]";
      FirstBracket("Unreleased", s);
      assert tag == s[..|tag|] == "Unreleased";
    }
  }

  lemma LinkLinesKinds(r: Release)
    requires ']' !in r.version && r.version != "Unreleased"
    ensures IsLink(LinkLines(r)[0]) && !IsLink(LinkLines(r)[1]) && !IsHeading(LinkLines(r)[1])
  {
    assert LinkLines(r)[0][..14] == LINK + " ";
    LinkByPrefix(LinkLines(r)[0]);
    var line := LinkLines(r)[1];
    assert line[..|r.version| + 2] == "[" + (r.version + "]");
    LinkTag(r.version, line);
    assert line[0] == '[' != HEADING[0];
  }

  lemma {:induction false} VersionLinesKinds(rs: seq<Release>)
    requires ProperVersions(rs)
    ensures PlainLines(VersionLines(rs))
  {
    if rs != [] {
      var n := |rs| - 1;
      LinkLinesKinds(rs[n]);
      VersionLinesKinds(rs[..n]);
    }
  }

  lemma FreshIsNotUnreleased(file: string, rs: seq<Release>)
    requires Shaped(Lines(file)) && FreshReleases(file, rs)
    ensures ProperVersions(rs)
  {
    var lines := Lines(file);
    var u, j :| 0 <= u < j < |lines| && UNRELEASED <= lines[u] && HEADING <= lines[j];
    assert VersionMark("Unreleased") == UNRELEASED;
    assert !Absent(lines, "Unreleased");
  }

  /** One clean release rewrites the link block and keeps it in one piece. */
  lemma OneReleaseLinks(file: string, r: Release, k: nat, link: string, rest: seq<string>) returns (k': nat)
    requires Clean(r) && RunScript(file, r).Ok?
    requires BlockAt(Lines(file), k, [link] + rest) && IsLink(link) && PlainLines(rest)
    ensures BlockAt(Lines(RunScript(file, r).value), k', LinkLines(r) + rest)
  {
    var lines := Lines(file);
    CleanScript(file, r);
    var u := FirstFrom(lines, 0, UNRELEASED).value;
    InsertedForm(lines, u, r);
    UnreleasedIsHeading(lines[u]);
    k' := BlockRolled(r, lines, u, k, link, rest);
  }

  /** The last release of a chain, seen on its own. */
  lemma LastOfChain(file: string, rs: seq<Release>)
    requires Shaped(Lines(file)) && FreshReleases(file, rs) && rs != []
    ensures var front, r := rs[..|rs| - 1], rs[|rs| - 1];
            && FreshReleases(file, front) && Clean(r)
            && RunAll(file, front).Ok? && RunScript(RunAll(file, front).value, r).Ok?
            && RunAll(file, rs) == RunScript(RunAll(file, front).value, r)
  {
    var front, r := rs[..|rs| - 1], rs[|rs| - 1];
    ChainKeeps(file, front, r.version);
    OneRelease(RunAll(file, front).value, r);
  }

  /** The links a chain leaves: Unreleased for the newest release, then all of them, newest first. */
  function ChainBlock(rs: seq<Release>): seq<string>
    requires rs != []
  {
    [LinkLines(rs[|rs| - 1])[0]] + VersionLines(rs)
  }

  lemma ChainBlockFrom(rs: seq<Release>)
    requires rs != []
    ensures ChainBlock(rs) == LinkLines(rs[|rs| - 1]) + VersionLines(rs[..|rs| - 1])
  {
    var two := LinkLines(rs[|rs| - 1]);
    Pair(two[0], two[1], VersionLines(rs[..|rs| - 1]));
  }

  lemma LinkStep(before: string, rs: seq<Release>, k: nat, link: string) returns (k': nat)
    requires rs != [] && Clean(rs[|rs| - 1]) && RunScript(before, rs[|rs| - 1]).Ok?
    requires IsLink(link) && PlainLines(VersionLines(rs[..|rs| - 1]))
    requires BlockAt(Lines(before), k, [link] + VersionLines(rs[..|rs| - 1]))
    ensures BlockAt(Lines(RunScript(before, rs[|rs| - 1]).value), k', ChainBlock(rs))
  {
    k' := OneReleaseLinks(before, rs[|rs| - 1], k, link, VersionLines(rs[..|rs| - 1]));
    ChainBlockFrom(rs);
  }

  lemma OneLine(lines: seq<string>, k: nat)
    requires k < |lines|
    ensures BlockAt(lines, k, [lines[k]] + VersionLines([])) && PlainLines(VersionLines([]))
  {
    assert lines[k..k + 1] == [lines[k]];
  }

  /** Position k holds what a further release turns into the block: a link line, or the block so far. */
  predicate Linked(lines: seq<string>, front: seq<Release>, k: nat) {
    if front == [] then k < |lines| && IsLink(lines[k]) else BlockAt(lines, k, ChainBlock(front))
  }

  predicate ProperVersions(rs: seq<Release>) {
    forall i :: 0 <= i < |rs| ==> ']' !in rs[i].version && rs[i].version != "Unreleased"
  }

  lemma LinkNext(before: string, rs: seq<Release>, k: nat) returns (k': nat)
    requires rs != [] && Clean(rs[|rs| - 1]) && RunScript(before, rs[|rs| - 1]).Ok?
    requires ProperVersions(rs[..|rs| - 1]) && Linked(Lines(before), rs[..|rs| - 1], k)
    ensures Linked(Lines(RunScript(before, rs[|rs| - 1]).value), rs, k')
  {
    var front := rs[..|rs| - 1];
    if front == [] {
      OneLine(Lines(before), k);
      k' := LinkStep(before, rs, k, Lines(before)[k]);
    } else {
      VersionLinesKinds(front);
      LinkLinesKinds(front[|front| - 1]);
      k' := LinkStep(before, rs, k, LinkLines(front[|front| - 1])[0]);
    }
  }

  lemma {:induction false} LinkedChain(file: string, rs: seq<Release>, k: nat) returns (k': nat)
    requires Shaped(Lines(file)) && FreshReleases(file, rs)
    requires Linked(Lines(file), [], k)
    ensures RunAll(file, rs).Ok? && Linked(Lines(RunAll(file, rs).value), rs, k')
  {
    k' := k;
    if rs != [] {
      LastOfChain(file, rs);
      FreshIsNotUnreleased(file, rs[..|rs| - 1]);
      k' := LinkedChain(file, rs[..|rs| - 1], k);
      k' := LinkNext(RunAll(file, rs[..|rs| - 1]).value, rs, k');
    }
  }

  /** After a chain of releases, a link line of the original file has become one block. */
  lemma LinkChain(file: string, rs: seq<Release>, k: nat) returns (k': nat)
    requires Shaped(Lines(file)) && FreshReleases(file, rs) && rs != []
    requires k < |Lines(file)| && IsLink(Lines(file)[k])
    ensures RunAll(file, rs).Ok? && BlockAt(Lines(RunAll(file, rs).value), k', ChainBlock(rs))
  {
    k' := LinkedChain(file, rs, k);
  }

  /** The same block as link values. */
  function ChainLinks(rs: seq<Release>): seq<Link> {
    if rs == [] then [] else [VersionLink(rs[|rs| - 1])] + ChainLinks(rs[..|rs| - 1])
  }

  /** Each comparison starts at the tag the next one ends at. */
  predicate Contiguous(links: seq<Link>) {
    forall i :: 0 <= i < |links| - 1 ==> links[i].base == links[i + 1].head
  }

  /** Released in order, each with the one before as previous, the comparisons cover the history gap-free. */
  lemma {:induction false} LinksContiguous(rs: seq<Release>)
    requires rs != [] && forall i :: 0 < i < |rs| ==> rs[i].previous == rs[i - 1].version
    ensures Contiguous([UnreleasedLink(rs[|rs| - 1])] + ChainLinks(rs))
  {
    var n := |rs| - 1;
    if n > 0 {
      LinksContiguous(rs[..n]);
      var tail := [UnreleasedLink(rs[n - 1])] + ChainLinks(rs[..n]);
      assert forall i :: 0 < i < |tail| - 1 ==> tail[i].base == tail[i + 1].head;
      assert ChainLinks(rs[..n])[0] == VersionLink(rs[n - 1]);
      var links := [UnreleasedLink(rs[n])] + ChainLinks(rs);
      forall i | 0 <= i < |links| - 1 ensures links[i].base == links[i + 1].head {
        assert i >= 2 ==> links[i] == tail[i - 1] && links[i + 1] == tail[i];
      }
    }
  }

  lemma {:induction false} ChainLinesAreLinks(rs: seq<Release>, repo: string)
    requires forall i :: 0 <= i < |rs| ==> rs[i].repo == repo
    ensures |VersionLines(rs)| == |ChainLinks(rs)| == |rs|
    ensures forall i :: 0 <= i < |rs| ==> VersionLines(rs)[i] == RenderLink(repo, ChainLinks(rs)[i])
  {
    if rs != [] {
      ChainLinesAreLinks(rs[..|rs| - 1], repo);
    }
  }

  /**
   * The block as links: released in order, each with the one before as previous, the comparisons cover the
   * history gap-free from the newest release down.
   */
  lemma ChainBlockContiguous(rs: seq<Release>, repo: string)
    requires rs != []
    requires forall i :: 0 <= i < |rs| ==> rs[i].repo == repo
    requires forall i :: 0 < i < |rs| ==> rs[i].previous == rs[i - 1].version
    ensures var links := [UnreleasedLink(rs[|rs| - 1])] + ChainLinks(rs);
            && Contiguous(links)
            && |ChainBlock(rs)| == |links| == |rs| + 1
            && forall i :: 0 <= i < |links| ==> ChainBlock(rs)[i] == RenderLink(repo, links[i])
  {
    LinksContiguous(rs);
    ChainLinesAreLinks(rs, repo);
    var links, newest := [UnreleasedLink(rs[|rs| - 1])] + ChainLinks(rs), rs[|rs| - 1];
    assert LinkLines(newest)[0] == RenderLink(repo, UnreleasedLink(newest));
    forall i | 0 < i < |links| ensures ChainBlock(rs)[i] == RenderLink(repo, links[i]) {
      assert ChainBlock(rs)[i] == VersionLines(rs)[i - 1] && links[i] == ChainLinks(rs)[i - 1];
    }
  }
}
