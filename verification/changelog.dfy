/** scripts/release_changelog.py: rolling the Unreleased section of a changelog into a version section. */
module Changelog {
  import opened Options
  import opened Text

  datatype Release = Release(version: string, previous: string, date: string, repo: string)

  datatype Problem = NoUnreleased | Duplicate | NoNextHeading | NoLink

  datatype Result<T> = Ok(value: T) | Failed(problem: Problem)

  const UNRELEASED := "## [Unreleased]"
  const HEADING := "## ["
  const LINK := "[Unreleased]:"

  /** Python's \s on ASCII text, which includes the four separator control characters. */
  predicate IsPySpace(c: char) {
    c == ' ' || '\t' <= c <= '\r' || '\U{1c}' <= c <= '\U{1f}'
  }

  /** The regular expression ^\[Unreleased\]:\s */
  predicate IsLink(line: string) {
    LINK <= line && |line| > |LINK| && IsPySpace(line[|LINK|])
  }

  predicate IsHeading(line: string) {
    HEADING <= line
  }

  function VersionMark(version: string): string {
    HEADING + version + "]"
  }

  function NewHeading(r: Release): string {
    VersionMark(r.version) + " - " + r.date
  }

  /** A link reference of the changelog: the comparison of two tags, filed under a version. */
  datatype Link = Link(tag: string, base: string, head: string)

  function RenderLink(repo: string, l: Link): string {
    "[" + l.tag + "]: " + repo + "/compare/" + l.base + "..." + l.head
  }

  function UnreleasedLink(r: Release): Link {
    Link("Unreleased", "v" + r.version, "HEAD")
  }

  function VersionLink(r: Release): Link {
    Link(r.version, "v" + r.previous, "v" + r.version)
  }

  function LinkLines(r: Release): seq<string> {
    [RenderLink(r.repo, UnreleasedLink(r)), RenderLink(r.repo, VersionLink(r))]
  }

  function ExpandLine(r: Release, line: string): seq<string> {
    if IsLink(line) then LinkLines(r) else [line]
  }

  /** Every link line replaced by the two new ones. */
  function Expand(r: Release, lines: seq<string>): seq<string> {
    if lines == [] then [] else ExpandLine(r, lines[0]) + Expand(r, lines[1..])
  }

  /** The first line from a position on that starts with the prefix. */
  function FirstFrom(lines: seq<string>, from: nat, prefix: string): (i: Option<nat>)
    requires from <= |lines|
    ensures i.Some? ==> from <= i.value < |lines| && prefix <= lines[i.value]
    ensures i.Some? ==> forall j :: from <= j < i.value ==> !(prefix <= lines[j])
    ensures i.None? ==> forall j :: from <= j < |lines| ==> !(prefix <= lines[j])
    decreases |lines| - from
  {
    if from == |lines| then None
    else if prefix <= lines[from] then Some(from)
    else FirstFrom(lines, from + 1, prefix)
  }

  predicate Absent(lines: seq<string>, version: string) {
    forall i :: 0 <= i < |lines| ==> !(VersionMark(version) <= lines[i])
  }

  predicate HasLink(lines: seq<string>) {
    exists i :: 0 <= i < |lines| && IsLink(lines[i])
  }

  /** What rewrite refuses, in the order it checks. */
  function ProblemOf(lines: seq<string>, r: Release): Option<Problem> {
    match FirstFrom(lines, 0, UNRELEASED)
    case None => Some(NoUnreleased)
    case Some(u) =>
      if !Absent(lines, r.version) then Some(Duplicate)
      else if FirstFrom(lines, u + 1, HEADING).None? then Some(NoNextHeading)
      else if !HasLink(lines) then Some(NoLink)
      else None
  }

  /** The rolled lines: a blank line and the new heading after Unreleased, links expanded, nothing else. */
  function Inserted(lines: seq<string>, r: Release): seq<string> {
    if lines == [] then []
    else if UNRELEASED <= lines[0] then [lines[0], "", NewHeading(r)] + Expand(r, lines[1..])
    else ExpandLine(r, lines[0]) + Inserted(lines[1..], r)
  }

  function RewriteLines(lines: seq<string>, r: Release): Result<seq<string>> {
    match ProblemOf(lines, r)
    case Some(p) => Failed(p)
    case None => Ok(Inserted(lines, r))
  }

  function Rewrite(text: string, r: Release): Result<string> {
    match RewriteLines(Split(text, '\n'), r)
    case Failed(p) => Failed(p)
    case Ok(lines) => Ok(Join(lines, '\n'))
  }

  predicate Starts(lines: seq<string>, i: int, prefix: string)
    requires 0 <= i < |lines|
  {
    prefix <= lines[i]
  }

  predicate SomeStarts(lines: seq<string>, prefix: string) {
    exists i :: 0 <= i < |lines| && Starts(lines, i, prefix)
  }

  /** A heading below the first Unreleased one. */
  predicate NextHeading(lines: seq<string>) {
    exists u, i :: 0 <= u < i < |lines| && Starts(lines, u, UNRELEASED) && Starts(lines, i, HEADING)
  }

  /** Which refusal it is: the first that applies, of four plain facts about the lines. */
  lemma RefusalOrder(lines: seq<string>, r: Release)
    ensures ProblemOf(lines, r)
            == if !SomeStarts(lines, UNRELEASED) then Some(NoUnreleased)
               else if SomeStarts(lines, VersionMark(r.version)) then Some(Duplicate)
               else if !NextHeading(lines) then Some(NoNextHeading)
               else if !HasLink(lines) then Some(NoLink)
               else None
  {
    var first := FirstFrom(lines, 0, UNRELEASED);
    assert first.Some? ==> Starts(lines, first.value, UNRELEASED);
    if !Absent(lines, r.version) {
      var i :| 0 <= i < |lines| && VersionMark(r.version) <= lines[i];
      assert Starts(lines, i, VersionMark(r.version));
    }
    if first.Some? {
      var next := FirstFrom(lines, first.value + 1, HEADING);
      assert next.Some? ==> Starts(lines, next.value, HEADING);
    }
  }

  /** White space in the pattern of a link line, character by character. */
  lemma PySpacesListed(c: char)
    ensures IsPySpace(c)
            <==> c in {' ', '\t', '\n', '\U{0b}', '\U{0c}', '\r', '\U{1c}', '\U{1d}', '\U{1e}', '\U{1f}'}
  {
  }

  /** A link line is the reference label followed by such a character. */
  lemma LinkMeans(rest: string, line: string)
    ensures !IsLink("[Unreleased]:")
    ensures rest != "" ==> (IsLink("[Unreleased]:" + rest) <==> IsPySpace(rest[0]))
    ensures IsLink(line) ==> |line| > 13 && line == "[Unreleased]:" + line[13..]
  {
    assert LINK == "[Unreleased]:" && |LINK| == 13;
    if rest != "" {
      assert ("[Unreleased]:" + rest)[13] == rest[0];
      assert LINK <= "[Unreleased]:" + rest;
    }
  }

  // ---- The program ----

  method FindPrefix(lines: seq<string>, from: nat, prefix: string) returns (found: Option<nat>)
    requires from <= |lines|
    ensures found == FirstFrom(lines, from, prefix)
  {
    var i := from;
    while i < |lines|
      invariant from <= i <= |lines|
      invariant FirstFrom(lines, from, prefix) == FirstFrom(lines, i, prefix)
    {
      if prefix <= lines[i] {
        return Some(i);
      }
      i := i + 1;
    }
    found := None;
  }

  lemma LinkTexts(r: Release)
    ensures "[Unreleased]: " + r.repo + "/compare/v" + r.version + "...HEAD" == LinkLines(r)[0]
    ensures "[" + r.version + "]: " + r.repo + "/compare/v" + r.previous + "...v" + r.version == LinkLines(r)[1]
  {
    assert "[" + "Unreleased" + "]: " == "[Unreleased]: ";
    assert "/compare/v" == "/compare/" + "v" && "...HEAD" == "..." + "HEAD" && "...v" == "..." + "v";
  }

  /** The loop over the rebuilt lines, with its flag. */
  method UpdateLinks(rebuilt: seq<string>, r: Release) returns (updated: seq<string>, inserted: bool)
    ensures updated == Expand(r, rebuilt)
    ensures inserted <==> HasLink(rebuilt)
  {
    updated := [];
    inserted := false;
    for i := 0 to |rebuilt|
      invariant updated == Expand(r, rebuilt[..i])
      invariant inserted <==> HasLink(rebuilt[..i])
    {
      var line := rebuilt[i];
      assert rebuilt[..i + 1] == rebuilt[..i] + [line];
      ExpandConcat(r, rebuilt[..i], [line]);
      HasLinkConcat(rebuilt[..i], [line]);
      assert Expand(r, [line]) == ExpandLine(r, line);
      if IsLink(line) {
        LinkTexts(r);
        updated := updated + ["[Unreleased]: " + r.repo + "/compare/v" + r.version + "...HEAD"];
        updated := updated + ["[" + r.version + "]: " + r.repo + "/compare/v" + r.previous + "...v" + r.version];
        inserted := true;
        assert [line][0] == line;
        continue;
      }
      updated := updated + [line];
    }
    assert rebuilt[..|rebuilt|] == rebuilt;
  }

  /** Unreleased stays in place, emptied; its old body goes below the new heading. */
  method Rebuild(lines: seq<string>, u: nat, next: nat, r: Release) returns (rebuilt: seq<string>)
    requires u < next < |lines|
    ensures rebuilt == lines[..u + 1] + ["", NewHeading(r)] + lines[u + 1..]
  {
    var oldBody := lines[u + 1..next];
    rebuilt := lines[..u + 1] + [""] + [NewHeading(r)] + oldBody + lines[next..];
    assert oldBody + lines[next..] == lines[u + 1..];
  }

  /** rewrite, from the text to the text. */
  method RewriteText(text: string, r: Release) returns (result: Result<string>)
    ensures result == Rewrite(text, r)
    ensures result.Ok? && SingleLined(r) && ']' !in r.version
            ==> exists i :: NewSectionAt(Split(result.value, '\n'), i, r)
  {
    var lines := Split(text, '\n');
    var unreleased := FindPrefix(lines, 0, UNRELEASED);
    if unreleased.None? {
      return Failed(NoUnreleased);
    }
    var u := unreleased.value;
    var duplicate := FindPrefix(lines, 0, VersionMark(r.version));
    if duplicate.Some? {
      return Failed(Duplicate);
    }
    var next := FindPrefix(lines, u + 1, HEADING);
    if next.None? {
      return Failed(NoNextHeading);
    }
    var rebuilt := Rebuild(lines, u, next.value, r);
    var updated, inserted := UpdateLinks(rebuilt, r);
    RebuiltLines(lines, u, rebuilt, r);
    if !inserted {
      return Failed(NoLink);
    }
    if SingleLined(r) && ']' !in r.version {
      NewSectionReads(text, r);
    }
    return Ok(Join(updated, '\n'));
  }

  lemma {:induction false} ExpandConcat(r: Release, a: seq<string>, b: seq<string>)
    ensures Expand(r, a + b) == Expand(r, a) + Expand(r, b)
  {
    if a == [] {
      assert a + b == b;
    } else {
      assert (a + b)[1..] == a[1..] + b;
      ExpandConcat(r, a[1..], b);
    }
  }

  lemma HasLinkConcat(a: seq<string>, b: seq<string>)
    ensures HasLink(a + b) <==> HasLink(a) || HasLink(b)
  {
    if HasLink(a) {
      var i :| 0 <= i < |a| && IsLink(a[i]);
      assert (a + b)[i] == a[i];
    }
    if HasLink(b) {
      var i :| 0 <= i < |b| && IsLink(b[i]);
      assert (a + b)[|a| + i] == b[i];
    }
  }

  lemma HeadingIsNoLink(line: string)
    requires IsHeading(line)
    ensures !IsLink(line)
  {
    assert line[0] == HEADING[0] != LINK[0];
  }

  lemma UnreleasedIsHeading(line: string)
    requires UNRELEASED <= line
    ensures IsHeading(line) && !IsLink(line)
  {
    assert line[..4] == UNRELEASED[..4] == HEADING;
    HeadingIsNoLink(line);
  }

  lemma NewHeadingIsHeading(r: Release)
    ensures IsHeading(NewHeading(r)) && VersionMark(r.version) <= NewHeading(r) && !IsLink(NewHeading(r))
  {
    assert NewHeading(r)[..4] == HEADING;
    HeadingIsNoLink(NewHeading(r));
  }

  lemma ExpandOne(r: Release, line: string)
    ensures Expand(r, [line]) == ExpandLine(r, line)
  {
    assert [line][1..] == [];
  }

  /** Links expanded on both sides of the insertion, and nothing else touched. */
  function Conserved(lines: seq<string>, u: nat, r: Release): seq<string>
    requires u < |lines|
  {
    Expand(r, lines[..u + 1]) + ["", NewHeading(r)] + Expand(r, lines[u + 1..])
  }

  lemma ExpandRebuilt(lines: seq<string>, u: nat, r: Release)
    requires u < |lines|
    ensures Expand(r, lines[..u + 1] + ["", NewHeading(r)] + lines[u + 1..]) == Conserved(lines, u, r)
  {
    NewHeadingIsHeading(r);
    ExpandOne(r, "");
    ExpandOne(r, NewHeading(r));
    assert ["", NewHeading(r)] == [""] + [NewHeading(r)];
    ExpandConcat(r, [""], [NewHeading(r)]);
    ExpandConcat(r, lines[..u + 1], ["", NewHeading(r)]);
    ExpandConcat(r, lines[..u + 1] + ["", NewHeading(r)], lines[u + 1..]);
  }

  lemma LinksRebuilt(lines: seq<string>, u: nat, r: Release)
    requires u < |lines|
    ensures HasLink(lines[..u + 1] + ["", NewHeading(r)] + lines[u + 1..]) <==> HasLink(lines)
  {
    NewHeadingIsHeading(r);
    var mid := ["", NewHeading(r)];
    assert !HasLink(mid) by {
      assert mid[0] == "" && mid[1] == NewHeading(r);
    }
    HasLinkConcat(lines[..u + 1] + mid, lines[u + 1..]);
    HasLinkConcat(lines[..u + 1], mid);
    HasLinkConcat(lines[..u + 1], lines[u + 1..]);
    assert lines == lines[..u + 1] + lines[u + 1..];
  }

  /** The lines the program rebuilds, once their links are updated, are the specified ones. */
  lemma RebuiltLines(lines: seq<string>, u: nat, rebuilt: seq<string>, r: Release)
    requires FirstFrom(lines, 0, UNRELEASED) == Some(u)
    requires rebuilt == lines[..u + 1] + ["", NewHeading(r)] + lines[u + 1..]
    ensures Expand(r, rebuilt) == Inserted(lines, r)
    ensures HasLink(rebuilt) <==> HasLink(lines)
  {
    ExpandRebuilt(lines, u, r);
    InsertedForm(lines, u, r);
    LinksRebuilt(lines, u, r);
  }

  /**
   * Conservation: the result is the original lines, in order, with exactly a blank line and the new
   * heading inserted after the Unreleased heading and each link line replaced by two.
   */
  lemma {:induction false} InsertedForm(lines: seq<string>, u: nat, r: Release)
    requires u < |lines| && UNRELEASED <= lines[u] && forall j :: 0 <= j < u ==> !(UNRELEASED <= lines[j])
    ensures Inserted(lines, r) == Conserved(lines, u, r)
  {
    if u == 0 {
      UnreleasedIsHeading(lines[0]);
      assert lines[..1] == [lines[0]];
      ExpandOne(r, lines[0]);
    } else {
      var rest := lines[1..];
      InsertedForm(rest, u - 1, r);
      assert lines[..u + 1][1..] == rest[..u] && rest[u..] == lines[u + 1..];
      assert Expand(r, lines[..u + 1]) == ExpandLine(r, lines[0]) + Expand(r, rest[..u]);
    }
  }

  // ---- Reading headings and links back ----

  function BracketAt(s: string): nat {
    if s == "" || s[0] == ']' then 0 else 1 + BracketAt(s[1..])
  }

  lemma {:induction false} FirstBracket(x: string, s: string)
    requires ']' !in x && x + "]" <= s
    ensures BracketAt(s) == |x|
  {
    if x != "" {
      assert (x + "]")[0] == x[0] && (x + "]")[1..] == x[1..] + "]";
      FirstBracket(x[1..], s[1..]);
    }
  }

  lemma BracketFound(x: string, tail: string)
    requires ']' !in x && "]" <= tail
    ensures BracketAt(x + tail) == |x|
  {
    assert (x + tail)[..|x| + 1] == x + "]";
    FirstBracket(x, x + tail);
  }

  /** A reader of a release heading: the version up to the bracket, the date after the dash. */
  function ReadHeading(line: string): Option<(string, string)> {
    if !(HEADING <= line) then None
    else
      var rest := line[|HEADING|..];
      var k := BracketAt(rest);
      if k <= |rest| && "] - " <= rest[k..] then Some((rest[..k], rest[k + 4..])) else None
  }

  lemma HeadingReads(r: Release)
    requires ']' !in r.version
    ensures ReadHeading(NewHeading(r)) == Some((r.version, r.date))
  {
    var tail := "] - " + r.date;
    assert tail == "]" + " - " + r.date;
    assert NewHeading(r) == HEADING + (r.version + tail);
    Slices(HEADING, r.version + tail);
    Slices(r.version, tail);
    Slices("] - ", r.date);
    BracketFound(r.version, tail);
  }

  /** The first occurrence of three dots, or the end. */
  function DotsAt(s: string): (k: nat)
    ensures k <= |s|
  {
    if s == "" || "..." <= s then 0 else 1 + DotsAt(s[1..])
  }

  /** The tag has no three dots in it and does not end with a dot, so the dots behind it stand out. */
  predicate PlainTag(tag: string) {
    forall i :: 0 <= i < |tag| ==> !("..." <= (tag + "...")[i..])
  }

  lemma {:induction false} DotsFound(tag: string, rest: string)
    requires forall i :: 0 <= i < |tag| ==> !("..." <= (tag + "..." + rest)[i..])
    ensures DotsAt(tag + "..." + rest) == |tag|
  {
    var s := tag + "..." + rest;
    if tag == "" {
      assert s[..3] == "...";
    } else {
      assert s[0..] == s;
      assert s[1..] == tag[1..] + "..." + rest;
      forall i | 0 <= i < |tag[1..]| ensures !("..." <= (tag[1..] + "..." + rest)[i..]) {
        assert s[i + 1..] == s[1..][i..];
      }
      DotsFound(tag[1..], rest);
    }
  }

  lemma PlainTagStands(tag: string, rest: string)
    requires PlainTag(tag)
    ensures DotsAt(tag + "..." + rest) == |tag|
  {
    var s, t := tag + "...", tag + "..." + rest;
    forall i | 0 <= i < |tag| ensures !("..." <= t[i..]) {
      assert s[i..][..3] == t[i..][..3];
    }
    DotsFound(tag, rest);
  }

  /** A reader of a comparison: what stands before and after the first three dots. */
  function ReadTags(tags: string): Option<(string, string)> {
    var d := DotsAt(tags);
    if d + 3 <= |tags| then Some((tags[..d], tags[d + 3..])) else None
  }

  /** A reader of a link reference of a known repository. */
  function ReadLink(repo: string, line: string): Option<Link> {
    if !("[" <= line) then None
    else
      var rest, mark := line[1..], "]: " + repo + "/compare/";
      var k := BracketAt(rest);
      if !(k <= |rest| && mark <= rest[k..]) then None
      else match ReadTags(rest[k + |mark|..])
        case Some((base, head)) => Some(Link(rest[..k], base, head))
        case None => None
  }

  lemma TagsRead(base: string, head: string)
    requires PlainTag(base)
    ensures ReadTags(base + "..." + head) == Some((base, head))
  {
    PlainTagStands(base, head);
    Slices(base + "...", head);
    assert (base + "..." + head)[..|base|] == base;
  }

  lemma LinkReads(repo: string, l: Link)
    requires ']' !in l.tag && PlainTag(l.base)
    ensures ReadLink(repo, RenderLink(repo, l)) == Some(l)
  {
    var mark, tags := "]: " + repo + "/compare/", l.base + "..." + l.head;
    RenderedAs(repo, l, mark, tags);
    Slices("[", l.tag + (mark + tags));
    Slices(l.tag, mark + tags);
    Slices(mark, tags);
    Slices(l.tag + mark, tags);
    Assoc(l.tag, mark, tags);
    assert mark[..1] == "]";
    BracketFound(l.tag, mark + tags);
    TagsRead(l.base, l.head);
  }

  /** What a reader gets from the two lines that replace the link line. */
  lemma LinkLinesRead(r: Release)
    requires ']' !in r.version && PlainTag("v" + r.version) && PlainTag("v" + r.previous)
    ensures ReadLink(r.repo, LinkLines(r)[0]) == Some(Link("Unreleased", "v" + r.version, "HEAD"))
    ensures ReadLink(r.repo, LinkLines(r)[1]) == Some(Link(r.version, "v" + r.previous, "v" + r.version))
  {
    LinkReads(r.repo, UnreleasedLink(r));
    LinkReads(r.repo, VersionLink(r));
  }

  lemma RenderedAs(repo: string, l: Link, mark: string, tags: string)
    requires mark == "]: " + repo + "/compare/" && tags == l.base + "..." + l.head
    ensures RenderLink(repo, l) == "[" + (l.tag + (mark + tags))
  {
    assert RenderLink(repo, l) == "[" + l.tag + mark + tags;
  }

  // ---- The changelog as sections ----

  datatype Section = Section(heading: string, body: seq<string>)

  datatype Doc = Doc(preamble: seq<string>, sections: seq<Section>)

  function ParseDoc(lines: seq<string>): Doc {
    if lines == [] then Doc([], [])
    else
      var d := ParseDoc(lines[1..]);
      if IsHeading(lines[0]) then Doc([], [Section(lines[0], d.preamble)] + d.sections)
      else Doc([lines[0]] + d.preamble, d.sections)
  }

  function RenderSections(ss: seq<Section>): seq<string> {
    if ss == [] then [] else [ss[0].heading] + ss[0].body + RenderSections(ss[1..])
  }

  lemma RenderCons(s: Section, ss: seq<Section>)
    ensures RenderSections([s] + ss) == [s.heading] + s.body + RenderSections(ss)
  {
    assert ([s] + ss)[1..] == ss;
  }

  /** Parsing into sections loses nothing. */
  lemma {:induction false} RenderParse(lines: seq<string>)
    ensures ParseDoc(lines).preamble + RenderSections(ParseDoc(lines).sections) == lines
  {
    if lines != [] {
      var line, d := lines[0], ParseDoc(lines[1..]);
      RenderParse(lines[1..]);
      assert lines == [line] + lines[1..];
      Assoc([line], d.preamble, RenderSections(d.sections));
      if IsHeading(line) {
        RenderCons(Section(line, d.preamble), d.sections);
        assert [] + RenderSections([Section(line, d.preamble)] + d.sections)
               == RenderSections([Section(line, d.preamble)] + d.sections);
      }
    }
  }

  function ExpandSection(r: Release, s: Section): Section {
    Section(s.heading, Expand(r, s.body))
  }

  function ExpandSections(r: Release, ss: seq<Section>): seq<Section> {
    if ss == [] then [] else [ExpandSection(r, ss[0])] + ExpandSections(r, ss[1..])
  }

  /** Rolling a release, said of sections: Unreleased is emptied into a new section right after it. */
  function RollSections(r: Release, ss: seq<Section>): seq<Section> {
    if ss == [] then []
    else if UNRELEASED <= ss[0].heading then
      [Section(ss[0].heading, [""]), Section(NewHeading(r), Expand(r, ss[0].body))] + ExpandSections(r, ss[1..])
    else [ExpandSection(r, ss[0])] + RollSections(r, ss[1..])
  }

  function Roll(r: Release, d: Doc): Doc {
    Doc(Expand(r, d.preamble), RollSections(r, d.sections))
  }

  lemma RollCons(r: Release, s: Section, ss: seq<Section>)
    ensures ExpandSections(r, [s] + ss) == [ExpandSection(r, s)] + ExpandSections(r, ss)
    ensures RollSections(r, [s] + ss)
            == if UNRELEASED <= s.heading then
                 [Section(s.heading, [""]), Section(NewHeading(r), Expand(r, s.body))] + ExpandSections(r, ss)
               else [ExpandSection(r, s)] + RollSections(r, ss)
  {
    assert ([s] + ss)[1..] == ss;
  }

  lemma ParsePlain(line: string, rest: seq<string>)
    requires !IsHeading(line)
    ensures ParseDoc([line] + rest) == Doc([line] + ParseDoc(rest).preamble, ParseDoc(rest).sections)
  {
    assert ([line] + rest)[1..] == rest;
  }

  lemma ParseHeading(line: string, rest: seq<string>)
    requires IsHeading(line)
    ensures ParseDoc([line] + rest) == Doc([], [Section(line, ParseDoc(rest).preamble)] + ParseDoc(rest).sections)
  {
    assert ([line] + rest)[1..] == rest;
  }

  /** A line that is no heading stays out of the section structure, expanded or not. */
  lemma ParseExpandedLine(r: Release, line: string, rest: seq<string>)
    requires !IsHeading(line)
    ensures ParseDoc(ExpandLine(r, line) + rest)
            == Doc(ExpandLine(r, line) + ParseDoc(rest).preamble, ParseDoc(rest).sections)
  {
    if IsLink(line) {
      var two := LinkLines(r);
      assert two[0][0] == '[' && two[1][0] == '[';
      ParsePlain(two[1], rest);
      ParsePlain(two[0], [two[1]] + rest);
      assert two + rest == [two[0]] + ([two[1]] + rest);
      assert two + ParseDoc(rest).preamble == [two[0]] + ([two[1]] + ParseDoc(rest).preamble);
    } else {
      ParsePlain(line, rest);
    }
  }

  lemma {:induction false} ParseExpand(r: Release, lines: seq<string>)
    ensures ParseDoc(Expand(r, lines))
            == Doc(Expand(r, ParseDoc(lines).preamble), ExpandSections(r, ParseDoc(lines).sections))
  {
    if lines != [] {
      var line, rest, d := lines[0], lines[1..], ParseDoc(lines[1..]);
      ParseExpand(r, rest);
      if IsHeading(line) {
        HeadingIsNoLink(line);
        ParseHeading(line, Expand(r, rest));
        RollCons(r, Section(line, d.preamble), d.sections);
      } else {
        ParseExpandedLine(r, line, Expand(r, rest));
        assert ParseDoc(lines).preamble[1..] == d.preamble;
      }
    }
  }

  /** The line-by-line program computes the section-by-section one. */
  lemma {:induction false} RewriteRollsSections(r: Release, lines: seq<string>)
    ensures ParseDoc(Inserted(lines, r)) == Roll(r, ParseDoc(lines))
  {
    if lines != [] {
      var line, rest, d := lines[0], lines[1..], ParseDoc(lines[1..]);
      if UNRELEASED <= line {
        UnreleasedIsHeading(line);
        RollAtUnreleased(r, line, rest);
        RollCons(r, Section(line, d.preamble), d.sections);
      } else {
        RewriteRollsSections(r, rest);
        if IsHeading(line) {
          HeadingIsNoLink(line);
          ParseHeading(line, Inserted(rest, r));
          RollCons(r, Section(line, d.preamble), d.sections);
        } else {
          ParseExpandedLine(r, line, Inserted(rest, r));
          assert ParseDoc(lines).preamble[1..] == d.preamble;
        }
      }
    }
  }

  lemma ParseInsertion(line: string, heading: string, rest: seq<string>)
    requires IsHeading(line) && IsHeading(heading)
    ensures var d := ParseDoc(rest);
            ParseDoc([line, "", heading] + rest)
            == Doc([], [Section(line, [""]), Section(heading, d.preamble)] + d.sections)
  {
    var d, tail := ParseDoc(rest), [heading] + rest;
    ParseHeading(heading, rest);
    ParsePlain("", tail);
    ParseHeading(line, [""] + tail);
    assert [""] + ParseDoc(tail).preamble == [""];
    Pair(Section(line, [""]), Section(heading, d.preamble), d.sections);
    Pair(line, "", tail);
    assert [line, "", heading] + rest == [line, ""] + tail;
  }

  lemma RollAtUnreleased(r: Release, line: string, rest: seq<string>)
    requires UNRELEASED <= line
    ensures var d := ParseDoc(rest);
            ParseDoc([line, "", NewHeading(r)] + Expand(r, rest))
            == Doc([], [Section(line, [""]), Section(NewHeading(r), Expand(r, d.preamble))]
                       + ExpandSections(r, d.sections))
  {
    UnreleasedIsHeading(line);
    NewHeadingIsHeading(r);
    ParseExpand(r, rest);
    ParseInsertion(line, NewHeading(r), Expand(r, rest));
  }

  // ---- From lines back to text ----

  lemma {:induction false} SplitAllConcat(a: seq<string>, b: seq<string>)
    ensures SplitAll(a + b, '\n') == SplitAll(a, '\n') + SplitAll(b, '\n')
  {
    if a == [] {
      assert a + b == b;
    } else {
      assert (a + b)[1..] == a[1..] + b;
      SplitAllConcat(a[1..], b);
    }
  }

  /** A newline-free beginning of a line is the beginning of its first piece. */
  lemma {:induction false} FirstPiece(prefix: string, rest: string)
    requires '\n' !in prefix
    ensures prefix <= Split(prefix + rest, '\n')[0]
  {
    if prefix != "" {
      assert (prefix + rest)[1..] == prefix[1..] + rest;
      FirstPiece(prefix[1..], rest);
      SplitHead(prefix + rest, '\n');
      assert prefix == [prefix[0]] + prefix[1..];
    }
  }

  /** No field of the release has a newline. */
  predicate SingleLined(r: Release) {
    '\n' !in r.version && '\n' !in r.previous && '\n' !in r.date && '\n' !in r.repo
  }

  predicate NewlineFree(lines: seq<string>) {
    forall i :: 0 <= i < |lines| ==> '\n' !in lines[i]
  }

  lemma SingleLines(r: Release)
    requires SingleLined(r)
    ensures '\n' !in NewHeading(r) && NewlineFree(LinkLines(r))
  {
  }

  lemma {:induction false} ExpandNewlineFree(r: Release, lines: seq<string>)
    requires SingleLined(r) && NewlineFree(lines)
    ensures NewlineFree(Expand(r, lines))
  {
    if lines != [] {
      SingleLines(r);
      assert NewlineFree(lines[1..]);
      ExpandNewlineFree(r, lines[1..]);
    }
  }

  lemma InsertedNewlineFree(r: Release, lines: seq<string>, u: nat)
    requires SingleLined(r) && NewlineFree(lines) && u < |lines|
    ensures NewlineFree(Conserved(lines, u, r))
  {
    SingleLines(r);
    assert NewlineFree(lines[..u + 1]) && NewlineFree(lines[u + 1..]);
    ExpandNewlineFree(r, lines[..u + 1]);
    ExpandNewlineFree(r, lines[u + 1..]);
  }

  lemma UnreleasedFirst(lines: seq<string>, u: nat, r: Release)
    requires FirstFrom(lines, 0, UNRELEASED) == Some(u)
    ensures var front := Expand(r, lines[..u + 1]);
            && |front| > 0 && front[|front| - 1] == lines[u]
            && forall j :: 0 <= j < |front| - 1 ==> !(UNRELEASED <= front[j])
  {
    assert lines[..u + 1] == lines[..u] + [lines[u]];
    ExpandConcat(r, lines[..u], [lines[u]]);
    UnreleasedIsHeading(lines[u]);
    ExpandOne(r, lines[u]);
    ExpandMembers(r, lines[..u]);
    var front := Expand(r, lines[..u]);
    assert LinkLines(r)[0][0] == '[' && LinkLines(r)[1][0] == '[' && UNRELEASED[0] == '#';
    forall j | 0 <= j < |front| ensures !(UNRELEASED <= front[j]) {
      assert front[j] in front;
    }
  }

  /** Where the new section is, and how its heading reads. */
  predicate NewSectionAt(lines: seq<string>, i: nat, r: Release) {
    && i + 2 < |lines|
    && UNRELEASED <= lines[i] && (forall j :: 0 <= j < i ==> !(UNRELEASED <= lines[j]))
    && lines[i + 1] == ""
    && ReadHeading(lines[i + 2]) == Some((r.version, r.date))
  }

  /**
   * In the rewritten text the first Unreleased heading is followed by a blank line and a heading from which
   * a reader gets the version and the date of the release.
   */
  lemma NewSectionReads(text: string, r: Release)
    requires Rewrite(text, r).Ok? && SingleLined(r) && ']' !in r.version
    ensures exists i :: NewSectionAt(Split(Rewrite(text, r).value, '\n'), i, r)
  {
    var lines := Split(text, '\n');
    var u := FirstFrom(lines, 0, UNRELEASED).value;
    CleanRewrite(text, r);
    InsertedForm(lines, u, r);
    UnreleasedFirst(lines, u, r);
    HeadingReads(r);
    var front, after := Expand(r, lines[..u + 1]), Conserved(lines, u, r);
    assert after == front + ["", NewHeading(r)] + Expand(r, lines[u + 1..]);
    assert NewSectionAt(after, |front| - 1, r);
  }

  /** Without newlines in its arguments the text program is the line program. */
  lemma CleanRewrite(text: string, r: Release)
    requires SingleLined(r)
    ensures match RewriteLines(Split(text, '\n'), r)
            case Ok(lines) => Rewrite(text, r).Ok? && Split(Rewrite(text, r).value, '\n') == lines
            case Failed(p) => Rewrite(text, r) == Failed(p)
  {
    var lines := Split(text, '\n');
    if ProblemOf(lines, r).None? {
      var u := FirstFrom(lines, 0, UNRELEASED).value;
      InsertedForm(lines, u, r);
      InsertedNewlineFree(r, lines, u);
      SplitJoin(Inserted(lines, r), '\n');
      SplitAllFree(Inserted(lines, r), '\n');
    }
  }

  // ---- Running the script again ----

  /** Enough for rewrite to find its way: Unreleased, a later heading, a link line. */
  predicate Shaped(lines: seq<string>) {
    && HasLink(lines)
    && exists i, j :: 0 <= i < j < |lines| && UNRELEASED <= lines[i] && HEADING <= lines[j]
  }

  /** Shape decides whether the script succeeds on a version that is not there yet. */
  lemma SucceedsIff(lines: seq<string>, r: Release)
    ensures RewriteLines(lines, r).Ok? <==> Shaped(lines) && Absent(lines, r.version)
  {
    var first := FirstFrom(lines, 0, UNRELEASED);
    if first.Some? {
      var next := FirstFrom(lines, first.value + 1, HEADING);
      if next.Some? {
        assert UNRELEASED <= lines[first.value] && HEADING <= lines[next.value];
      }
      assert Shaped(lines) ==> next.Some?;
    }
  }

  lemma ShapedParts(a: seq<string>, b: seq<string>)
    requires exists x :: x in a && UNRELEASED <= x
    requires exists y :: y in b && HEADING <= y
    requires HasLink(a + b)
    ensures Shaped(a + b)
  {
    var x :| x in a && UNRELEASED <= x;
    var y :| y in b && HEADING <= y;
    var i :| 0 <= i < |a| && a[i] == x;
    var j :| 0 <= j < |b| && b[j] == y;
    assert (a + b)[i] == x && (a + b)[|a| + j] == y;
  }

  lemma {:induction false} ExpandMembers(r: Release, lines: seq<string>)
    ensures forall l :: l in Expand(r, lines) ==> l in lines || l in LinkLines(r)
    ensures forall l :: l in lines && !IsLink(l) ==> l in Expand(r, lines)
    ensures HasLink(lines) ==> LinkLines(r)[0] in Expand(r, lines)
  {
    if lines != [] {
      ExpandMembers(r, lines[1..]);
      assert lines == [lines[0]] + lines[1..];
      HasLinkConcat([lines[0]], lines[1..]);
    }
  }

  /** What the lines of a rolled changelog are. */
  lemma RolledMembers(r: Release, lines: seq<string>, u: nat)
    requires u < |lines|
    ensures forall l :: l in Conserved(lines, u, r) ==> l in lines || l in LinkLines(r) || l == "" || l == NewHeading(r)
    ensures HasLink(lines) ==> LinkLines(r)[0] in Conserved(lines, u, r)
  {
    ExpandMembers(r, lines[..u + 1]);
    ExpandMembers(r, lines[u + 1..]);
    assert lines == lines[..u + 1] + lines[u + 1..];
    HasLinkConcat(lines[..u + 1], lines[u + 1..]);
  }

  lemma {:induction false} FirstPieceIn(lines: seq<string>, line: string)
    requires line in lines
    ensures Split(line, '\n')[0] in SplitAll(lines, '\n')
  {
    if line != lines[0] {
      FirstPieceIn(lines[1..], line);
    }
  }

  /** A line of a list starts with a newline-free prefix; so does some line of the text made of the list. */
  lemma PrefixSurvives(lines: seq<string>, line: string, prefix: string) returns (piece: string)
    requires line in lines && prefix <= line && '\n' !in prefix
    ensures piece in SplitAll(lines, '\n') && prefix <= piece
  {
    piece := Split(line, '\n')[0];
    FirstPieceIn(lines, line);
    FirstPiece(prefix, line[|prefix|..]);
    assert prefix + line[|prefix|..] == line;
  }

  lemma UnreleasedKept(lines: seq<string>, r: Release, u: nat) returns (x: string)
    requires u < |lines| && UNRELEASED <= lines[u]
    ensures x in SplitAll(Expand(r, lines[..u + 1]), '\n') && UNRELEASED <= x
  {
    ExpandMembers(r, lines[..u + 1]);
    UnreleasedIsHeading(lines[u]);
    assert lines[..u + 1][u] == lines[u];
    x := PrefixSurvives(Expand(r, lines[..u + 1]), lines[u], UNRELEASED);
  }

  lemma LinkKept(lines: seq<string>, r: Release)
    requires LinkLines(r)[0] in lines
    ensures HasLink(SplitAll(lines, '\n'))
    ensures exists k :: 0 <= k < |SplitAll(lines, '\n')| && LINK + " " <= SplitAll(lines, '\n')[k]
  {
    var mark := LINK + " ";
    assert mark <= LinkLines(r)[0] by {
      assert LinkLines(r)[0][..14] == mark;
    }
    var z := PrefixSurvives(lines, LinkLines(r)[0], mark);
    LinkByPrefix(z);
    var after := SplitAll(lines, '\n');
    var i :| 0 <= i < |after| && after[i] == z;
  }

  /** A successful run leaves the shape intact, whatever line breaks its arguments contain. */
  lemma ShapeKept(lines: seq<string>, r: Release, u: nat)
    requires HasLink(lines) && u < |lines| && UNRELEASED <= lines[u]
    ensures var after := SplitAll(Conserved(lines, u, r), '\n');
            Shaped(after) && exists k :: 0 <= k < |after| && LINK + " " <= after[k]
  {
    var front := Expand(r, lines[..u + 1]);
    var back := ["", NewHeading(r)] + Expand(r, lines[u + 1..]);
    assert Conserved(lines, u, r) == front + back;
    SplitAllConcat(front, back);
    RolledMembers(r, lines, u);
    LinkKept(Conserved(lines, u, r), r);
    var x := UnreleasedKept(lines, r, u);
    NewHeadingIsHeading(r);
    assert back[1] == NewHeading(r);
    var y := PrefixSurvives(back, NewHeading(r), HEADING);
    ShapedParts(SplitAll(front, '\n'), SplitAll(back, '\n'));
  }

  lemma LinkByPrefix(line: string)
    requires LINK + " " <= line
    ensures IsLink(line)
  {
    assert line[..13] == (LINK + " ")[..13] == LINK;
    assert line[13] == (LINK + " ")[13] == ' ';
  }

  /** What a successful run leaves: the shape, a link line with a blank, and a version that can be found. */
  lemma RewriteLeaves(text: string, r: Release)
    requires Rewrite(text, r).Ok?
    ensures var after := Split(Rewrite(text, r).value, '\n');
            && Shaped(after)
            && (exists k :: 0 <= k < |after| && LINK + " " <= after[k])
            && ('\n' !in r.version ==> !Absent(after, r.version))
  {
    var lines := Split(text, '\n');
    var u := FirstFrom(lines, 0, UNRELEASED).value;
    var rolled := Conserved(lines, u, r);
    InsertedForm(lines, u, r);
    SplitJoin(rolled, '\n');
    ShapeKept(lines, r, u);
    if '\n' !in r.version {
      assert rolled[|Expand(r, lines[..u + 1])| + 1] == NewHeading(r);
      VersionFound(rolled, r);
    }
  }

  /**
   * As a function on text, a second run for the same version fails as a duplicate, if and only if the
   * version has no newline (one with a newline is never found again, and the run succeeds).
   */
  lemma SecondRun(text: string, r: Release, again: Release)
    requires Rewrite(text, r).Ok? && again.version == r.version
    ensures Rewrite(Rewrite(text, r).value, again) == Failed(Duplicate) <==> '\n' !in r.version
    ensures '\n' in r.version ==> Rewrite(Rewrite(text, r).value, again).Ok?
  {
    var after := Split(Rewrite(text, r).value, '\n');
    RewriteLeaves(text, r);
    SucceedsIff(after, again);
    if '\n' in r.version {
      VersionLost(Rewrite(text, r).value, r.version);
    }
  }

  lemma VersionFound(rolled: seq<string>, r: Release)
    requires NewHeading(r) in rolled && '\n' !in r.version
    ensures !Absent(SplitAll(rolled, '\n'), r.version)
  {
    NewHeadingIsHeading(r);
    assert '\n' !in VersionMark(r.version);
    var piece := PrefixSurvives(rolled, NewHeading(r), VersionMark(r.version));
    var after := SplitAll(rolled, '\n');
    var i :| 0 <= i < |after| && after[i] == piece;
  }

  lemma VersionLost(text: string, version: string)
    requires '\n' in version
    ensures Absent(Split(text, '\n'), version)
  {
    var lines := Split(text, '\n');
    forall i | 0 <= i < |lines| ensures !(VersionMark(version) <= lines[i]) {
      var k :| 0 <= k < |version| && version[k] == '\n';
      assert VersionMark(version)[4 + k] == '\n';
    }
  }
}
