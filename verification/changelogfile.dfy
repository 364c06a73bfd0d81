/** The release script as a program on a file: what is written by one run is read back by the next. */
module ChangelogFile {
  import opened Text
  import opened Changelog

  /** Python's text mode: on reading, every "\r\n" and every other "\r" becomes "\n". */
  function Reread(s: string): (r: string)
    ensures '\r' !in r
    decreases |s|
  {
    if s == "" then ""
    else if s[0] != '\r' then [s[0]] + Reread(s[1..])
    else "\n" + Reread(if |s| > 1 && s[1] == '\n' then s[2..] else s[1..])
  }

  /** The lines the script finds in a file. */
  function Lines(file: string): seq<string> {
    Split(Reread(file), '\n')
  }

  /** main: the file is read, rewritten and written back, or left alone with an error. */
  function RunScript(file: string, r: Release): Result<string> {
    Rewrite(Reread(file), r)
  }

  predicate BreakFree(s: string) {
    '\n' !in s && '\r' !in s
  }

  lemma {:induction false} RereadPlain(s: string)
    requires '\r' !in s
    ensures Reread(s) == s
  {
    if s != "" {
      RereadPlain(s[1..]);
      assert s == [s[0]] + s[1..];
    }
  }

  /** The text before a line end, to which a return right before it belongs. */
  function Chop(s: string): string {
    if s != "" && s[|s| - 1] == '\r' then s[..|s| - 1] else s
  }

  lemma ChopTail(a: string)
    requires |a| > 1
    ensures Chop(a) == [a[0]] + Chop(a[1..])
  {
  }

  /** One character is reread on its own, unless it is the return of a two-character line end. */
  lemma RereadCons(c: char, s: string)
    requires c != '\r' || s == "" || s[0] != '\n'
    ensures Reread([c] + s) == [if c == '\r' then '\n' else c] + Reread(s)
  {
    assert ([c] + s)[1..] == s;
  }

  lemma RereadEnd(s: string)
    ensures Reread("\r\n" + s) == "\n" + Reread(s)
  {
    assert ("\r\n" + s)[2..] == s;
  }

  /** The induction steps of the lemma below: a leading character, and a leading line end of two. */
  lemma LineStep(c: char, tail: string, b: string)
    requires tail != "" && Reread(tail + ("\n" + b)) == Reread(Chop(tail)) + ("\n" + Reread(b))
    requires c != '\r' || tail[0] != '\n'
    ensures Reread([c] + tail + ("\n" + b)) == Reread([c] + Chop(tail)) + ("\n" + Reread(b))
  {
    Assoc([c], tail, "\n" + b);
    RereadCons(c, tail + ("\n" + b));
    RereadCons(c, Chop(tail));
    Assoc([if c == '\r' then '\n' else c], Reread(Chop(tail)), "\n" + Reread(b));
  }

  lemma EndStep(rest: string, b: string)
    requires Reread(rest + ("\n" + b)) == Reread(Chop(rest)) + ("\n" + Reread(b))
    ensures Reread("\r\n" + rest + ("\n" + b)) == Reread("\r\n" + Chop(rest)) + ("\n" + Reread(b))
  {
    Assoc("\r\n", rest, "\n" + b);
    RereadEnd(rest + ("\n" + b));
    RereadEnd(Chop(rest));
    Assoc("\n", Reread(Chop(rest)), "\n" + Reread(b));
  }

  lemma ShortLine(c: char, b: string)
    ensures Reread([c] + ("\n" + b)) == Reread(Chop([c])) + ("\n" + Reread(b))
  {
    RereadCons('\n', b);
    if c == '\r' {
      RereadEnd(b);
      Assoc("\r", "\n", b);
    } else {
      RereadCons(c, "\n" + b);
      RereadCons(c, "");
      assert [c] == [c] + "";
    }
  }

  /** Line ends written as "\n" stay the line ends, up to returns in front of them. */
  lemma {:induction false} RereadLine(a: string, b: string)
    ensures Reread(a + ("\n" + b)) == Reread(Chop(a)) + ("\n" + Reread(b))
    decreases |a|
  {
    if a == "" {
      RereadCons('\n', b);
      assert a + ("\n" + b) == "\n" + b;
    } else if |a| == 1 {
      ShortLine(a[0], b);
      assert a == [a[0]];
    } else if a[0] == '\r' && a[1] == '\n' {
      RereadLine(a[2..], b);
      EndStep(a[2..], b);
      assert a == "\r\n" + a[2..] && Chop(a) == "\r\n" + Chop(a[2..]);
    } else {
      RereadLine(a[1..], b);
      LineStep(a[0], a[1..], b);
      ChopTail(a);
      assert a == [a[0]] + a[1..];
    }
  }

  /** What rereading makes of the lines of a text. */
  function Translated(lines: seq<string>): (ls: seq<string>)
    ensures |ls| == |lines|
    ensures forall i :: 0 <= i < |ls| ==> ls[i] == Reread(if i < |lines| - 1 then Chop(lines[i]) else lines[i])
  {
    seq(|lines|, i requires 0 <= i < |lines| => Reread(if i < |lines| - 1 then Chop(lines[i]) else lines[i]))
  }

  lemma {:induction false} RereadJoin(lines: seq<string>)
    requires |lines| >= 1
    ensures Reread(Join(lines, '\n')) == Join(Translated(lines), '\n')
  {
    if |lines| > 1 {
      RereadJoin(lines[1..]);
      RereadLine(lines[0], Join(lines[1..], '\n'));
      assert Translated(lines)[1..] == Translated(lines[1..]);
      Assoc(lines[0], "\n", Join(lines[1..], '\n'));
      Assoc(Translated(lines)[0], "\n", Join(Translated(lines[1..]), '\n'));
    }
  }

  lemma LinesReread(text: string)
    ensures Lines(text) == SplitAll(Translated(Split(text, '\n')), '\n')
  {
    var lines := Split(text, '\n');
    JoinSplit(text, '\n');
    RereadJoin(lines);
    SplitJoin(Translated(lines), '\n');
  }

  lemma {:induction false} RereadPrefix(prefix: string, s: string)
    requires '\r' !in prefix && prefix <= s
    ensures prefix <= Reread(s)
  {
    if prefix != "" {
      RereadPrefix(prefix[1..], s[1..]);
    }
  }

  /** A line keeps a beginning without line breaks. */
  lemma TranslatedPrefix(lines: seq<string>, i: nat, prefix: string)
    requires i < |lines| && prefix <= lines[i] && BreakFree(prefix)
    ensures prefix <= Translated(lines)[i]
  {
    var s := if i < |lines| - 1 then Chop(lines[i]) else lines[i];
    if s != lines[i] && prefix != "" {
      assert prefix[|prefix| - 1] == lines[i][|prefix| - 1];
    }
    RereadPrefix(prefix, s);
  }

  lemma PrefixReread(text: string, i: nat, prefix: string) returns (piece: string)
    requires i < |Split(text, '\n')| && prefix <= Split(text, '\n')[i] && BreakFree(prefix)
    ensures piece in Lines(text) && prefix <= piece
  {
    var lines := Split(text, '\n');
    TranslatedPrefix(lines, i, prefix);
    LinesReread(text);
    piece := PrefixSurvives(Translated(lines), Translated(lines)[i], prefix);
  }

  lemma MarksAreBreakFree()
    ensures BreakFree(UNRELEASED) && BreakFree(HEADING)
  {
  }

  lemma ShapedBetween(front: seq<string>, back: seq<string>, x: string, y: string)
    requires x in front && UNRELEASED <= x && y in back && HEADING <= y
    requires HasLink(SplitAll(front + back, '\n'))
    ensures Shaped(SplitAll(front + back, '\n'))
  {
    SplitAllConcat(front, back);
    MarksAreBreakFree();
    var x' := PrefixSurvives(front, x, UNRELEASED);
    var y' := PrefixSurvives(back, y, HEADING);
    ShapedParts(SplitAll(front, '\n'), SplitAll(back, '\n'));
  }

  lemma Cut(lines: seq<string>, i: nat, j: nat)
    requires i < j < |lines|
    ensures lines[i] in lines[..j] && lines[j] in lines[j..] && lines == lines[..j] + lines[j..]
  {
    assert lines[..j][i] == lines[i] && lines[j..][0] == lines[j];
  }

  /** Splitting the lines further keeps the order of the headings. */
  lemma OrderKept(lines: seq<string>, i: nat, j: nat)
    requires i < j < |lines| && UNRELEASED <= lines[i] && HEADING <= lines[j]
    requires HasLink(SplitAll(lines, '\n'))
    ensures Shaped(SplitAll(lines, '\n'))
  {
    Cut(lines, i, j);
    ShapedBetween(lines[..j], lines[j..], lines[i], lines[j]);
  }

  /** A link line with a blank is one however the file is read. */
  predicate HasBlankLink(lines: seq<string>) {
    exists k :: 0 <= k < |lines| && LINK + " " <= lines[k]
  }

  lemma ShapeReread(text: string)
    requires Shaped(Split(text, '\n')) && HasBlankLink(Split(text, '\n'))
    ensures Shaped(Lines(text))
  {
    var lines := Split(text, '\n');
    var k :| 0 <= k < |lines| && LINK + " " <= lines[k];
    var z := PrefixReread(text, k, LINK + " ");
    LinkByPrefix(z);
    var at :| 0 <= at < |Lines(text)| && Lines(text)[at] == z;
    LinesReread(text);
    var i, j :| 0 <= i < j < |lines| && UNRELEASED <= lines[i] && HEADING <= lines[j];
    MarksAreBreakFree();
    TranslatedPrefix(lines, i, UNRELEASED);
    TranslatedPrefix(lines, j, HEADING);
    OrderKept(Translated(lines), i, j);
  }

  lemma FoundReread(text: string, version: string)
    requires !Absent(Split(text, '\n'), version) && BreakFree(version)
    ensures !Absent(Lines(text), version)
  {
    var lines := Split(text, '\n');
    var i :| 0 <= i < |lines| && VersionMark(version) <= lines[i];
    assert BreakFree(VersionMark(version));
    var piece := PrefixReread(text, i, VersionMark(version));
    var at :| 0 <= at < |Lines(text)| && Lines(text)[at] == piece;
  }

  lemma {:induction false} SplitAvoids(s: string, sep: char, c: char)
    requires c !in s
    ensures forall i :: 0 <= i < |Split(s, sep)| ==> c !in Split(s, sep)[i]
  {
    if s != "" {
      SplitAvoids(s[1..], sep, c);
      SplitHead(s, sep);
      var rest := Split(s[1..], sep);
      assert forall i :: 0 <= i < |rest[1..]| ==> rest[1..][i] == rest[i + 1];
    }
  }

  /** A version with a line break is on no line of any file. */
  lemma BrokenVersionLost(file: string, version: string)
    requires !BreakFree(version)
    ensures Absent(Lines(file), version)
  {
    var lines := Lines(file);
    SplitAvoids(Reread(file), '\n', '\r');
    var k :| 0 <= k < |version| && (version[k] == '\n' || version[k] == '\r');
    forall i | 0 <= i < |lines| ensures !(VersionMark(version) <= lines[i]) {
      assert VersionMark(version)[4 + k] == version[k];
    }
  }

  /**
   * The refusal to run twice, from file to file: a second run for the same version fails as a duplicate if
   * and only if the version has no line break, be it a newline or a return; otherwise it succeeds.
   */
  lemma SecondScriptRun(file: string, r: Release, again: Release)
    requires RunScript(file, r).Ok? && again.version == r.version
    ensures var second := RunScript(RunScript(file, r).value, again);
            && (second == Result.Failed(Duplicate) <==> BreakFree(r.version))
            && (!BreakFree(r.version) ==> second.Ok?)
  {
    var text := RunScript(file, r).value;
    RewriteLeaves(Reread(file), r);
    ShapeReread(text);
    SucceedsIff(Lines(text), again);
    if BreakFree(r.version) {
      FoundReread(text, r.version);
    } else {
      BrokenVersionLost(text, r.version);
    }
  }

  /** With a line break in the version, any file that can be rewritten at all is, again and again. */
  lemma BrokenVersionRunsAgain(file: string, r: Release, again: Release)
    requires Shaped(Lines(file)) && !BreakFree(r.version) && again.version == r.version
    ensures RunScript(file, r).Ok? && RunScript(RunScript(file, r).value, again).Ok?
  {
    BrokenVersionLost(file, r.version);
    SucceedsIff(Lines(file), r);
    SecondScriptRun(file, r, again);
  }

  /** The smallest changelog that can be rewritten. */
  function SmallChangelog(): seq<string> {
    [UNRELEASED, HEADING, LINK + " "]
  }

  lemma SmallIsShaped()
    ensures Shaped(SmallChangelog())
    ensures forall i :: 0 <= i < 3 ==> BreakFree(SmallChangelog()[i])
  {
    var lines := SmallChangelog();
    LinkByPrefix(lines[2]);
    assert UNRELEASED <= lines[0] && HEADING <= lines[1];
  }

  lemma {:induction false} JoinAvoids(parts: seq<string>, sep: char, c: char)
    requires c != sep && forall i :: 0 <= i < |parts| ==> c !in parts[i]
    ensures c !in Join(parts, sep)
  {
    if |parts| > 1 {
      JoinAvoids(parts[1..], sep, c);
    }
  }

  lemma SmallFile(file: string)
    requires file == Join(SmallChangelog(), '\n')
    ensures Lines(file) == SmallChangelog()
  {
    SmallIsShaped();
    JoinAvoids(SmallChangelog(), '\n', '\r');
    RereadPlain(file);
    SplitJoin(SmallChangelog(), '\n');
    SplitAllFree(SmallChangelog(), '\n');
  }

  /** A file and two versions, one with a newline and one with a return, with which two runs succeed. */
  lemma RunsTwice(r: Release, file: string)
    requires r.version == "2\n3" || r.version == "2\r3"
    requires file == Join(SmallChangelog(), '\n')
    ensures RunScript(file, r).Ok? && RunScript(RunScript(file, r).value, r).Ok?
  {
    SmallFile(file);
    SmallIsShaped();
    assert r.version[1] == '\n' || r.version[1] == '\r';
    BrokenVersionRunsAgain(file, r, r);
  }

  /** The fields the release workflow passes: no line breaks, no closing bracket in the version. */
  predicate Clean(r: Release) {
    BreakFree(r.version) && BreakFree(r.previous) && BreakFree(r.date) && BreakFree(r.repo) && ']' !in r.version
  }

  lemma NewLinesAvoidReturn(r: Release)
    requires Clean(r)
    ensures '\r' !in NewHeading(r) && forall l :: l in LinkLines(r) ==> '\r' !in l
  {
    var two := LinkLines(r);
    assert '\r' !in two[0] && '\r' !in two[1];
  }

  lemma RolledAvoidsReturn(file: string, r: Release, u: nat)
    requires Clean(r) && u < |Lines(file)|
    ensures '\r' !in Join(Conserved(Lines(file), u, r), '\n')
  {
    var rolled := Conserved(Lines(file), u, r);
    SplitAvoids(Reread(file), '\n', '\r');
    RolledMembers(r, Lines(file), u);
    NewLinesAvoidReturn(r);
    forall i | 0 <= i < |rolled| ensures '\r' !in rolled[i] {
      assert rolled[i] in rolled;
    }
    JoinAvoids(rolled, '\n', '\r');
  }

  /** On clean releases the program on files is the program on lines. */
  lemma CleanScript(file: string, r: Release)
    requires Clean(r)
    ensures match RewriteLines(Lines(file), r)
            case Ok(lines) => RunScript(file, r).Ok? && Lines(RunScript(file, r).value) == lines
            case Failed(p) => RunScript(file, r) == Result.Failed(p)
  {
    CleanRewrite(Reread(file), r);
    if RunScript(file, r).Ok? {
      var u := FirstFrom(Lines(file), 0, UNRELEASED).value;
      InsertedForm(Lines(file), u, r);
      RolledAvoidsReturn(file, r, u);
      RereadPlain(RunScript(file, r).value);
    }
  }
}
