/** The documentation checker: the text of a comment without its directives, and the packages that
    have no package comment. */
module Documentation {
  import opened Wrappers

  // ---- Lines -------------------------------------------------------------------------------

  /** The lines of a text, without their line ends. */
  function Split(text: string): (lines: seq<string>)
    ensures lines != []
  {
    if text == [] then [""] else
    var init := Split(text[..|text| - 1]);
    var c := text[|text| - 1];
    if c == '\n' then init + [""] else init[..|init| - 1] + [init[|init| - 1] + [c]]
  }

  function Join(lines: seq<string>): string
    decreases |lines|, 0
  {
    if lines == [] then "" else Ended(lines[..|lines| - 1]) + lines[|lines| - 1]
  }

  /** The lines with a line end behind each of them. */
  function Ended(lines: seq<string>): string
    decreases |lines|, 1
  {
    if lines == [] then "" else Join(lines) + "\n"
  }

  lemma JoinSnoc(lines: seq<string>, line: string)
    ensures Join(lines + [line]) == Ended(lines) + line
  {
    assert (lines + [line])[..|lines|] == lines;
  }

  /** Splitting a text into lines loses nothing. */
  lemma {:induction false} JoinSplit(text: string)
    ensures Join(Split(text)) == text
  {
    if text == [] {
    } else {
      var n := |text| - 1;
      var lines, c := Split(text[..n]), text[n];
      JoinSplit(text[..n]);
      assert text == text[..n] + [c];
      if c == '\n' {
        LineStarted(lines);
      } else {
        var init, last := lines[..|lines| - 1], lines[|lines| - 1];
        assert lines == init + [last];
        LastExtended(init, last, [c]);
      }
    }
  }

  lemma LineStarted(lines: seq<string>)
    requires lines != []
    ensures Join(lines + [""]) == Join(lines) + "\n"
  {
    JoinSnoc(lines, "");
    assert Ended(lines) + "" == Ended(lines);
  }

  lemma LastExtended(init: seq<string>, last: string, more: string)
    ensures Join(init + [last + more]) == Join(init + [last]) + more
  {
    JoinSnoc(init, last);
    JoinSnoc(init, last + more);
    Associative(Ended(init), last, more);
  }

  lemma Associative(a: string, b: string, c: string)
    ensures a + (b + c) == (a + b) + c
  {
  }

  predicate OneLine(line: string) {
    '\n' !in line
  }

  lemma {:induction false} SplitLines(text: string)
    ensures forall line <- Split(text) :: OneLine(line)
  {
    if text == [] {
    } else {
      var n := |text| - 1;
      var lines := Split(text[..n]);
      SplitLines(text[..n]);
      assert OneLine(lines[|lines| - 1]);
      forall line <- Split(text) ensures OneLine(line) {
        assert text[n] != '\n' ==> line in lines[..|lines| - 1] || line == lines[|lines| - 1] + [text[n]];
      }
    }
  }

  /** Splitting is the inverse of joining: the lines of a text are the only lines without line ends in
      them that join to it. */
  lemma SplitIsInverse(text: string, lines: seq<string>)
    requires lines != []
    ensures Split(text) == lines <==> Join(lines) == text && forall line <- lines :: OneLine(line)
  {
    JoinSplit(text);
    SplitLines(text);
    if forall line <- lines :: OneLine(line) { SplitJoin(lines); }
  }

  lemma SplitSnoc(text: string, c: char)
    ensures var lines := Split(text);
      Split(text + [c]) ==
      if c == '\n' then lines + [""] else lines[..|lines| - 1] + [lines[|lines| - 1] + [c]]
  {
    assert (text + [c])[..|text|] == text;
  }

  lemma {:induction false} SplitJoin(lines: seq<string>)
    requires lines != [] && forall line <- lines :: OneLine(line)
    ensures Split(Join(lines)) == lines
    decreases |lines|, |lines[|lines| - 1]|
  {
    var init, last := lines[..|lines| - 1], lines[|lines| - 1];
    assert lines == init + [last] && last in lines;
    if last == "" {
      if init == [] {
      } else {
        SplitJoin(init);
        LineStarted(init);
        SplitSnoc(Join(init), '\n');
      }
    } else {
      var shorter, c := last[..|last| - 1], last[|last| - 1];
      assert last == shorter + [c] && c in last;
      SplitJoin(init + [shorter]);
      LastExtended(init, shorter, [c]);
      SplitSnoc(Join(init + [shorter]), c);
    }
  }

  // ---- Comment text ------------------------------------------------------------------------

  /** A generator directive: a line whose trimmed text starts with a plus sign. */
  predicate Directive(trim: string -> string, line: string) {
    "+" <= trim(line)
  }

  /** The lines that are no directives, in order. */
  function Prose(trim: string -> string, lines: seq<string>): seq<string> {
    if lines == [] then [] else
    var last := lines[|lines| - 1];
    Prose(trim, lines[..|lines| - 1]) + if Directive(trim, last) then [] else [last]
  }

  /** The trimmed text of line `k` does not start with a plus sign. */
  predicate Plain(trim: string -> string, lines: seq<string>, k: nat) {
    k < |lines| && (trim(lines[k]) == "" || trim(lines[k])[0] != '+')
  }

  /** The indices of the plain lines, ascending. */
  ghost predicate Picks(trim: string -> string, lines: seq<string>, indices: seq<nat>) {
    && (forall a, b :: 0 <= a < b < |indices| ==> indices[a] < indices[b])
    && forall k: nat :: k in indices <==> Plain(trim, lines, k)
  }

  lemma PicksSnoc(trim: string -> string, lines: seq<string>, indices: seq<nat>, line: string)
    requires Picks(trim, lines, indices)
    ensures Picks(trim, lines + [line], if Directive(trim, line) then indices else indices + [|lines|])
  {
    forall k: nat ensures Plain(trim, lines + [line], k) <==>
      Plain(trim, lines, k) || (k == |lines| && !Directive(trim, line)) {}
    forall i | 0 <= i < |indices| ensures indices[i] < |lines| {
      assert indices[i] in indices && Plain(trim, lines, indices[i]);
    }
  }

  /** `kept` is the lines at these indices. */
  predicate At(lines: seq<string>, indices: seq<nat>, kept: seq<string>) {
    |kept| == |indices| && forall i :: 0 <= i < |indices| ==> indices[i] < |lines| && kept[i] == lines[indices[i]]
  }

  lemma AtSnoc(lines: seq<string>, indices: seq<nat>, kept: seq<string>, line: string)
    requires At(lines, indices, kept)
    ensures At(lines + [line], indices, kept) && At(lines + [line], indices + [|lines|], kept + [line])
  {
  }

  /** What is kept is the lines that are no directives, each once and in their order. */
  lemma {:induction false} ProseIs(trim: string -> string, lines: seq<string>) returns (indices: seq<nat>)
    ensures Picks(trim, lines, indices) && At(lines, indices, Prose(trim, lines))
  {
    if lines == [] {
      indices := [];
    } else {
      var n := |lines| - 1;
      var before := ProseIs(trim, lines[..n]);
      assert lines == lines[..n] + [lines[n]];
      PicksSnoc(trim, lines[..n], before, lines[n]);
      AtSnoc(lines[..n], before, Prose(trim, lines[..n]), lines[n]);
      indices := if Directive(trim, lines[n]) then before else before + [n];
    }
  }

  /** Filters the lines within their own array: writes never pass the line being read. */
  method FilterLines(trim: string -> string, lines: array<string>) returns (kept: nat)
    modifies lines
    ensures kept <= lines.Length && lines[..kept] == Prose(trim, old(lines[..]))
    ensures lines[kept..] == old(lines[..])[kept..]
  {
    ghost var all := lines[..];
    kept := 0;
    for i := 0 to lines.Length
      invariant kept <= i
      invariant lines[..kept] == Prose(trim, all[..i])
      invariant forall j :: kept <= j < lines.Length ==> lines[j] == all[j]
    {
      var line := lines[i];
      assert all[..i + 1][..i] == all[..i];
      if Directive(trim, line) {
        continue;
      }
      lines[kept] := line;
      kept := kept + 1;
    }
    assert all[..|all|] == all;
  }

  method DocumentationText(trim: string -> string, text: string) returns (r: string)
    ensures r == trim(Join(Prose(trim, Split(text))))
  {
    var split := Split(text);
    var lines := new string[|split|](i requires 0 <= i < |split| => split[i]);
    assert lines[..] == split;
    var kept := FilterLines(trim, lines);
    r := trim(Join(lines[..kept]));
  }

  /** A text without directives is left as it is, save for trimming. */
  lemma PlainText(trim: string -> string, text: string)
    requires forall line <- Split(text) :: !Directive(trim, line)
    ensures Join(Prose(trim, Split(text))) == text
  {
    ProseOfPlain(trim, Split(text));
    JoinSplit(text);
  }

  lemma {:induction false} ProseOfPlain(trim: string -> string, lines: seq<string>)
    requires forall line <- lines :: !Directive(trim, line)
    ensures Prose(trim, lines) == lines
  {
    if lines == [] {
    } else {
      ProseOfPlain(trim, lines[..|lines| - 1]);
    }
  }

  // ---- Package documentation ---------------------------------------------------------------

  /** What the checker learns from one visited file. */
  datatype Visit = Visit(directory: string, package: string, documented: bool, generated: bool)

  datatype Info = Info(name: string, documented: bool)

  predicate Counts(v: Visit, directory: string) {
    !v.generated && v.directory == directory
  }

  /** The directory has written files, and none of them has a package comment. */
  predicate Undocumented(visits: seq<Visit>, directory: string) {
    Seen(visits, |visits|, directory) && !Documented(visits, |visits|, directory)
  }

  predicate Seen(visits: seq<Visit>, count: nat, directory: string)
    requires count <= |visits|
  {
    exists i :: 0 <= i < count && Counts(visits[i], directory)
  }

  predicate Documented(visits: seq<Visit>, count: nat, directory: string)
    requires count <= |visits|
  {
    exists i :: 0 <= i < count && Counts(visits[i], directory) && visits[i].documented
  }

  /** Byte-wise order of strings. */
  predicate Leq(a: string, b: string) {
    a == "" || (b != "" && (a[0] < b[0] || (a[0] == b[0] && Leq(a[1..], b[1..]))))
  }

  predicate FirstDifference(a: string, b: string, k: nat) {
    k < |a| && k < |b| && a[..k] == b[..k] && a[k] != b[k]
  }

  /** `a` comes before `b` at the first place where they differ. */
  predicate Before(a: string, b: string) {
    exists k: nat :: k < |a| && FirstDifference(a, b, k) && a[k] < b[k]
  }

  lemma DifferenceMoves(a: string, b: string, c: char, k: nat)
    ensures FirstDifference([c] + a, [c] + b, k + 1) <==> FirstDifference(a, b, k)
  {
    if k < |a| && k < |b| {
      assert ([c] + a)[..k + 1] == [c] + a[..k] && ([c] + b)[..k + 1] == [c] + b[..k];
      assert a[..k] == ([c] + a[..k])[1..] && b[..k] == ([c] + b[..k])[1..];
    }
  }

  lemma BeforeMoves(a: string, b: string, c: char)
    ensures Before([c] + a, [c] + b) <==> Before(a, b)
  {
    if k: nat :| k < |a| && FirstDifference(a, b, k) && a[k] < b[k] {
      DifferenceMoves(a, b, c, k);
      assert ([c] + a)[k + 1] == a[k] && ([c] + b)[k + 1] == b[k];
    }
    if k: nat :| k < |[c] + a| && FirstDifference([c] + a, [c] + b, k) && ([c] + a)[k] < ([c] + b)[k] {
      assert k > 0;
      DifferenceMoves(a, b, c, k - 1);
      assert ([c] + a)[k] == a[k - 1] && ([c] + b)[k] == b[k - 1];
    }
  }

  lemma PrefixMoves(a: string, b: string, c: char)
    ensures [c] + a <= [c] + b <==> a <= b
  {
    assert ([c] + b)[1..] == b && ([c] + a)[1..] == a;
    if [c] + a <= [c] + b {
      forall i | 0 <= i < |a| ensures a[i] == b[i] { assert ([c] + a)[i + 1] == ([c] + b)[i + 1]; }
    }
  }

  /** The first place where two strings differ decides; a string comes before its extensions. */
  lemma {:induction false} LeqIs(a: string, b: string)
    ensures Leq(a, b) <==> a <= b || Before(a, b)
  {
    if a == "" || b == "" {
    } else if a[0] != b[0] {
      assert FirstDifference(a, b, 0);
    } else {
      LeqIs(a[1..], b[1..]);
      BeforeMoves(a[1..], b[1..], a[0]);
      PrefixMoves(a[1..], b[1..], a[0]);
      assert a == [a[0]] + a[1..] && b == [a[0]] + b[1..];
    }
  }

  lemma {:induction false} LeqTotal(a: string, b: string)
    ensures Leq(a, b) || Leq(b, a)
    ensures Leq(a, b) && Leq(b, a) ==> a == b
  {
    if a == "" || b == "" || a[0] != b[0] {
    } else {
      LeqTotal(a[1..], b[1..]);
      assert a == [a[0]] + a[1..] && b == [b[0]] + b[1..];
    }
  }

  lemma {:induction false} LeqTransitive(a: string, b: string, c: string)
    requires Leq(a, b) && Leq(b, c)
    ensures Leq(a, c)
  {
    if a == "" || !(a[0] == b[0] == c[0]) {
    } else {
      LeqTransitive(a[1..], b[1..], c[1..]);
    }
  }

  /** Strictly ascending: sorted, and no element twice. */
  predicate Ascending(s: seq<string>) {
    forall i, j :: 0 <= i < j < |s| ==> Leq(s[i], s[j]) && s[i] != s[j]
  }

  lemma FirstIsMember(s: seq<string>)
    ensures s != [] ==> s[0] in s
  {
  }

  /** A set of strings has one ascending listing. */
  lemma {:induction false} AscendingIsUnique(a: seq<string>, b: seq<string>)
    requires Ascending(a) && Ascending(b)
    requires forall x :: x in a <==> x in b
    ensures a == b
  {
    FirstIsMember(b);
    if a == [] {
    } else {
      assert a[0] in b && b != [];
      assert b[0] in a;
      LeqTotal(a[0], b[0]);
      var i :| 0 <= i < |b| && b[i] == a[0];
      var j :| 0 <= j < |a| && a[j] == b[0];
      assert a[0] == b[0];
      forall x ensures x in a[1..] <==> x in b[1..] {
        assert x in a <==> x in b;
        assert a == [a[0]] + a[1..] && b == [b[0]] + b[1..];
      }
      AscendingIsUnique(a[1..], b[1..]);
    }
  }

  /** Inserts a new element into an ascending sequence. */
  function Insert(s: seq<string>, x: string): seq<string> {
    if s == [] then [x]
    else if Leq(x, s[0]) then [x] + s
    else [s[0]] + Insert(s[1..], x)
  }

  lemma {:induction false} InsertAscends(s: seq<string>, x: string)
    requires Ascending(s) && x !in s
    ensures Ascending(Insert(s, x))
    ensures forall y :: y in Insert(s, x) <==> y == x || y in s
  {
    if s == [] {
    } else {
      LeqTotal(x, s[0]);
      assert s == [s[0]] + s[1..];
      if Leq(x, s[0]) {
        forall y <- s ensures Leq(x, y) && x != y {
          if y != s[0] { LeqTransitive(x, s[0], y); }
        }
        AscendingCons(x, s);
      } else {
        InsertAscends(s[1..], x);
        AscendingCons(s[0], Insert(s[1..], x));
      }
    }
  }

  lemma AscendingCons(x: string, s: seq<string>)
    requires Ascending(s) && forall y <- s :: Leq(x, y) && x != y
    ensures Ascending([x] + s)
  {
    var all := [x] + s;
    forall i, j | 0 <= i < j < |all| ensures Leq(all[i], all[j]) && all[i] != all[j] {
      assert all[j] == s[j - 1] && s[j - 1] in s;
      if i > 0 { assert all[i] == s[i - 1]; }
    }
  }

  /** The sequence lists the set in ascending order. */
  predicate Lists(s: seq<string>, keys: set<string>) {
    Ascending(s) && (forall x <- s :: x in keys) && forall x <- keys :: x in s
  }

  ghost function Listing(keys: set<string>): (s: seq<string>)
    ensures Lists(s, keys)
  {
    if keys == {} then [] else
    var x :| x in keys;
    InsertAscends(Listing(keys - {x}), x);
    Insert(Listing(keys - {x}), x)
  }

  /** Sorts the keys of a map, whatever order they come in. */
  method SortedKeys(keys: set<string>) returns (s: seq<string>)
    ensures Lists(s, keys)
  {
    s := [];
    var rest := keys;
    while rest != {}
      invariant Ascending(s) && rest <= keys && forall x :: x in s <==> x in keys - rest
      decreases rest
    {
      var x :| x in rest;
      InsertAscends(s, x);
      s := Insert(s, x);
      rest := rest - {x};
    }
  }

  /** One reported line: a directory, and the package name it is reported under. */
  datatype Violation = Violation(directory: string, name: string)

  function Directories(report: seq<Violation>): seq<string> {
    seq(|report|, i requires 0 <= i < |report| => report[i].directory)
  }

  /** The package of the first written file visited in the directory. */
  function FirstName(visits: seq<Visit>, directory: string): Option<string> {
    if visits == [] then None else
    var earlier, last := FirstName(visits[..|visits| - 1], directory), visits[|visits| - 1];
    if earlier.Some? then earlier else if Counts(last, directory) then Some(last.package) else None
  }

  lemma {:induction false} FirstNameIsVisited(visits: seq<Visit>, d: string)
    ensures match FirstName(visits, d)
      case Some(name) => exists v <- visits :: Counts(v, d) && v.package == name
      case None => !Seen(visits, |visits|, d)
  {
    if visits == [] {
    } else {
      var n := |visits| - 1;
      FirstNameIsVisited(visits[..n], d);
      assert visits == visits[..n] + [visits[n]];
      if Counts(visits[n], d) { assert visits[n] in visits; }
    }
  }

  /** The undocumented directories, each once and in order, under their first names. */
  ghost predicate IsReport(visits: seq<Visit>, report: seq<Violation>) {
    && Ascending(Directories(report))
    && (forall d :: d in Directories(report) <==> Undocumented(visits, d))
    && forall v <- report :: FirstName(visits, v.directory) == Some(v.name)
  }

  /** What one more visit changes about a directory. */
  lemma NextVisit(visits: seq<Visit>, i: nat, d: string)
    requires i < |visits|
    ensures Seen(visits, i + 1, d) <==> Seen(visits, i, d) || Counts(visits[i], d)
    ensures Documented(visits, i + 1, d) <==> Documented(visits, i, d) || (Counts(visits[i], d) && visits[i].documented)
    ensures FirstName(visits[..i + 1], d) ==
      if FirstName(visits[..i], d) == None && Counts(visits[i], d) then Some(visits[i].package)
      else FirstName(visits[..i], d)
  {
    assert visits[..i + 1][..i] == visits[..i];
  }

  /** What one more file changes: a generated file nothing, a documented one takes its directory out of
      the report, and another puts it in, under its package, if it is the directory's first. */
  lemma OneMoreFile(visits: seq<Visit>, v: Visit, d: string)
    ensures FirstName([], d) == None && !Undocumented([], d)
    ensures var longer := visits + [v];
      && (v.generated || v.directory != d ==>
            FirstName(longer, d) == FirstName(visits, d) && (Undocumented(longer, d) <==> Undocumented(visits, d)))
      && (!v.generated && v.directory == d ==>
            && FirstName(longer, d) == (if FirstName(visits, d) == None then Some(v.package) else FirstName(visits, d))
            && (Undocumented(longer, d) <==>
                  !v.documented && (FirstName(visits, d) == None || Undocumented(visits, d))))
  {
    var longer := visits + [v];
    assert longer[..|visits|] == visits && longer[..|longer|] == longer;
    NextVisit(longer, |visits|, d);
    FirstNameIsVisited(visits, d);
    SamePrefix(visits, longer, d);
  }

  lemma SamePrefix(visits: seq<Visit>, longer: seq<Visit>, d: string)
    requires visits <= longer
    ensures Seen(longer, |visits|, d) <==> Seen(visits, |visits|, d)
    ensures Documented(longer, |visits|, d) <==> Documented(visits, |visits|, d)
    ensures FirstName(visits, d).Some? ==> Seen(visits, |visits|, d)
  {
    FirstNameIsVisited(visits, d);
    if v :| v in visits && Counts(v, d) {
      var i :| 0 <= i < |visits| && visits[i] == v;
    }
  }

  /** The table describes the first `count` visits. */
  ghost predicate Describes(packages: map<string, Info>, visits: seq<Visit>, count: nat)
    requires count <= |visits|
  {
    && (forall d :: d in packages <==> Seen(visits, count, d))
    && (forall d <- packages :: packages[d].documented <==> Documented(visits, count, d))
    && forall d <- packages :: FirstName(visits[..count], d) == Some(packages[d].name)
  }

  /** Collects the visited files by directory. */
  method CollectPackages(visits: seq<Visit>) returns (packages: map<string, Info>)
    ensures Describes(packages, visits, |visits|)
  {
    packages := map[];
    for i := 0 to |visits|
      invariant Describes(packages, visits, i)
    {
      var v := visits[i];
      forall d { NextVisit(visits, i, d); }
      if v.generated {
        continue;
      }
      if v.directory !in packages {
        FirstNameIsVisited(visits[..i], v.directory);
        packages := packages[v.directory := Info(v.package, false)];
      }
      var info := packages[v.directory];
      packages := packages[v.directory := info.(documented := info.documented || v.documented)];
    }
  }

  /** One more directory behind all that are reported. */
  lemma ReportSnoc(report: seq<Violation>, v: Violation)
    requires Ascending(Directories(report))
    requires forall d <- Directories(report) :: Leq(d, v.directory) && d != v.directory
    ensures Directories(report + [v]) == Directories(report) + [v.directory]
    ensures Ascending(Directories(report + [v]))
  {
    var before := Directories(report);
    assert Directories(report + [v]) == before + [v.directory];
    forall i | 0 <= i < |before| ensures Leq(before[i], v.directory) && before[i] != v.directory {
      assert before[i] in before;
    }
  }

  /** Reports the directories without documentation. */
  method UndocumentedPackages(visits: seq<Visit>) returns (report: seq<Violation>)
    ensures IsReport(visits, report)
  {
    var packages := CollectPackages(visits);
    assert visits[..|visits|] == visits;
    var directories := SortedKeys(packages.Keys);
    report := [];
    for i := 0 to |directories|
      invariant Ascending(Directories(report))
      invariant forall d :: d in Directories(report) <==> d in directories[..i] && !packages[d].documented
      invariant forall v <- report :: v.directory in packages && packages[v.directory].name == v.name
    {
      var d := directories[i];
      var info := packages[d];
      assert directories[..i + 1] == directories[..i] + [d];
      if !info.documented {
        forall e <- directories[..i] ensures Leq(e, d) && e != d {
          var j :| 0 <= j < i && directories[..i][j] == e;
        }
        ReportSnoc(report, Violation(d, info.name));
        report := report + [Violation(d, info.name)];
      }
    }
  }

  // ---- What the order of visits decides ----------------------------------------------------

  lemma SameVisits(a: seq<Visit>, b: seq<Visit>, d: string)
    requires forall v :: v in a ==> v in b
    ensures Seen(a, |a|, d) ==> Seen(b, |b|, d)
    ensures Documented(a, |a|, d) ==> Documented(b, |b|, d)
  {
    if i :| 0 <= i < |a| && Counts(a[i], d) { assert a[i] in b; }
    if i :| 0 <= i < |a| && Counts(a[i], d) && a[i].documented { assert a[i] in b; }
  }

  /** The order in which files are visited, and whether some are visited twice, does not decide
      which directories are reported. */
  lemma DirectoriesAreOrderIndependent(a: seq<Visit>, b: seq<Visit>, ra: seq<Violation>, rb: seq<Violation>)
    requires forall v :: v in a <==> v in b
    requires IsReport(a, ra) && IsReport(b, rb)
    ensures Directories(ra) == Directories(rb)
  {
    forall d ensures Undocumented(a, d) <==> Undocumented(b, d) {
      SameVisits(a, b, d);
      SameVisits(b, a, d);
    }
    AscendingIsUnique(Directories(ra), Directories(rb));
  }

  /** The directory's written files all belong to one package. */
  predicate OneName(visits: seq<Visit>, directory: string) {
    forall v, w :: v in visits && w in visits && Counts(v, directory) && Counts(w, directory) ==> v.package == w.package
  }

  /** A file visited first names its directory. */
  lemma {:induction false} FirstVisitNames(v: Visit, visits: seq<Visit>, d: string)
    requires Counts(v, d)
    ensures FirstName([v] + visits, d) == Some(v.package)
  {
    var all := [v] + visits;
    if visits == [] {
      assert all[..0] == [];
    } else {
      FirstVisitNames(v, visits[..|visits| - 1], d);
      assert all[..|all| - 1] == [v] + visits[..|visits| - 1];
    }
  }

  /** Every sequence of visits has a report. */
  lemma ReportExists(visits: seq<Visit>) returns (report: seq<Violation>)
    ensures IsReport(visits, report)
  {
    var found := set v <- visits | Undocumented(visits, v.directory) :: v.directory;
    var directories := Listing(found);
    forall d ensures d in found <==> Undocumented(visits, d) {
      if Undocumented(visits, d) {
        var i :| 0 <= i < |visits| && Counts(visits[i], d);
        assert visits[i] in visits;
      }
    }
    forall d <- found ensures FirstName(visits, d).Some? {
      FirstNameIsVisited(visits, d);
    }
    report := seq(|directories|, i requires 0 <= i < |directories| =>
      assert directories[i] in found; Violation(directories[i], FirstName(visits, directories[i]).value));
    assert Directories(report) == directories;
    forall v <- report ensures FirstName(visits, v.directory) == Some(v.name) {
      var i :| 0 <= i < |directories| && report[i] == v;
      assert directories[i] in found;
    }
  }

  /** Visits in another order lead to the same report. */
  ghost predicate SameReport(a: seq<Visit>, b: seq<Visit>) {
    multiset(a) == multiset(b) ==> forall ra, rb :: IsReport(a, ra) && IsReport(b, rb) ==> ra == rb
  }

  lemma OneNameSuffices(a: seq<Visit>, b: seq<Visit>)
    requires forall d :: Undocumented(a, d) ==> OneName(a, d)
    ensures SameReport(a, b)
  {
    if multiset(a) == multiset(b) {
      forall v ensures v in a <==> v in b {
        assert v in multiset(a) <==> v in multiset(b);
      }
      forall ra, rb | IsReport(a, ra) && IsReport(b, rb) ensures ra == rb {
        DirectoriesAreOrderIndependent(a, b, ra, rb);
        forall i | 0 <= i < |ra| ensures i < |rb| && ra[i] == rb[i] {
          var d := Directories(ra)[i];
          assert d in Directories(ra) && Directories(rb)[i] == d;
          assert ra[i] in ra && rb[i] in rb;
          FirstNameIsVisited(a, d);
          FirstNameIsVisited(b, d);
        }
        assert |Directories(ra)| == |ra| && |Directories(rb)| == |rb|;
      }
    }
  }

  function MovedToFront(a: seq<Visit>, k: nat): (b: seq<Visit>)
    requires k < |a|
    ensures multiset(b) == multiset(a)
  {
    assert a == a[..k] + [a[k]] + a[k + 1..];
    [a[k]] + (a[..k] + a[k + 1..])
  }

  /** Visiting another file of the directory first changes the name it is reported under. */
  lemma TwoNamesTell(a: seq<Visit>, d: string, k: nat)
    requires k < |a| && Counts(a[k], d) && Undocumented(a, d) && FirstName(a, d) != Some(a[k].package)
    ensures exists b :: !SameReport(a, b)
  {
    var b := MovedToFront(a, k);
    FirstVisitNames(a[k], a[..k] + a[k + 1..], d);
    var ra := ReportExists(a);
    var rb := ReportExists(b);
    assert d in Directories(ra);
    var i :| 0 <= i < |ra| && ra[i].directory == d;
    assert ra[i] in ra && ra[i] !in rb;
    assert !SameReport(a, b);
  }

  /** When the order of visits decides nothing: the whole report, names included, is the same for
      every order of the files if and only if the written files of each undocumented directory
      belong to one package. */
  lemma ReportIsOrderIndependent(a: seq<Visit>)
    ensures (forall b :: SameReport(a, b)) <==> (forall d :: Undocumented(a, d) ==> OneName(a, d))
  {
    if forall d :: Undocumented(a, d) ==> OneName(a, d) {
      forall b ensures SameReport(a, b) { OneNameSuffices(a, b); }
    } else {
      var d :| Undocumented(a, d) && !OneName(a, d);
      var v, w :| v in a && w in a && Counts(v, d) && Counts(w, d) && v.package != w.package;
      var other := if FirstName(a, d) == Some(v.package) then w else v;
      var k :| 0 <= k < |a| && a[k] == other;
      TwoNamesTell(a, d, k);
    }
  }
}
