/**
  The names dependencies go by: every spelling of a path and what normalization makes of it, one-`%` patterns and the
  targets they match, and what exactly is declared and reported.
 */
module PathsAndPatterns {
  import opened Wrappers
  import opened Texts
  import opened Makefiles
  import opened DependencyRepair
  import opened MakefileText
  import opened DependencyFixpoint

  // ---------------------------------------------------------------- spellings of a path

  /** What stands between two slashes: a name, a single dot, or nothing. */
  datatype Segment = Name(s: string) | Dot | Nothing {
    predicate Valid() { Name? ==> s != "" && s != "." && '/' !in s }

    function Print(): string { if Name? then s else if Dot? then "." else "" }
  }

  /** A path that starts with a number of slashes and goes on with segments. */
  datatype Spelling = Spelling(slashes: nat, segments: seq<Segment>) {
    predicate Valid() {
      && (forall k :: 0 <= k < |segments| ==> segments[k].Valid())
      && (|segments| > 0 ==> !segments[0].Nothing?)
    }

    function Print(): string { Slashes(slashes) + PrintSegments(segments) }

    /** The file it names: relative, or under the root, or under the root with two slashes. */
    function Meaning(): string {
      var body := Joined(Names(segments), "/");
      if slashes == 0 then (if body == "" then "." else body)
      else if slashes == 2 then "//" + body
      else "/" + body
    }
  }

  function Slashes(n: nat): string { if n == 0 then "" else "/" + Slashes(n - 1) }

  function PrintSegments(segments: seq<Segment>): string {
    if |segments| == 0 then ""
    else if |segments| == 1 then segments[0].Print()
    else segments[0].Print() + "/" + PrintSegments(segments[1..])
  }

  function Names(segments: seq<Segment>): seq<string> {
    if |segments| == 0 then []
    else (if segments[0].Name? then [segments[0].s] else []) + Names(segments[1..])
  }

  lemma SegmentReads(segment: Segment, rest: string, text: string)
    requires segment.Valid() && text == segment.Print() + "/" + rest
    ensures PathParts(text) == Names([segment]) + PathParts(rest)
  {
    var shown := segment.Print();
    assert forall k :: 0 <= k < |shown| ==> text[k] == shown[k];
    assert '/' !in shown;
    IndexIs(text, '/', 0, |shown|);
    assert text[..|shown|] == shown && text[|shown| + 1..] == rest;
  }

  lemma LastSegmentReads(segment: Segment)
    requires segment.Valid()
    ensures PathParts(segment.Print()) == Names([segment])
  {
    var shown := segment.Print();
    assert '/' !in shown;
    IndexIs(shown, '/', 0, |shown|);
    assert shown[..|shown|] == shown;
  }

  lemma {:induction false} SegmentsRead(segments: seq<Segment>)
    requires forall k :: 0 <= k < |segments| ==> segments[k].Valid()
    ensures PathParts(PrintSegments(segments)) == Names(segments)
    decreases |segments|
  {
    hide PathParts;
    if |segments| == 0 {
      NoParts();
    } else {
      assert segments == [segments[0]] + segments[1..];
      if |segments| == 1 {
        LastSegmentReads(segments[0]);
      } else {
        SegmentsRead(segments[1..]);
        SegmentReads(segments[0], PrintSegments(segments[1..]), PrintSegments(segments));
      }
    }
  }

  lemma NoParts()
    ensures PathParts("") == []
  {
    assert ""[..0] == "";
  }

  lemma {:induction false} SlashesAddNoPart(n: nat, s: string)
    ensures PathParts(Slashes(n) + s) == PathParts(s)
    decreases n
  {
    hide PathParts;
    if n == 0 {
      assert "" + s == s;
    } else {
      SlashesAddNoPart(n - 1, s);
      assert Slashes(n) + s == "/" + (Slashes(n - 1) + s);
      SlashAddsNoPart(Slashes(n - 1) + s, Slashes(n) + s);
    }
  }

  lemma SlashesStart(n: nat, s: string)
    requires n > 0
    ensures Slashes(n) + s == "/" + (Slashes(n - 1) + s) && Slashes(0) + s == s
  {
    assert Slashes(n) == "/" + Slashes(n - 1);
  }

  lemma RootReads(n: nat, s: string)
    requires s != "" ==> s[0] != '/'
    ensures PathRoot(Slashes(n) + s) == if n == 0 then "" else if n == 2 then "//" else "/"
  {
    hide Slashes, PathRoot;
    if n <= 1 {
      SlashesStart(1, s);
      FewSlashes(s);
    } else {
      SlashesStart(n, s);
      SlashesStart(n - 1, s);
      if n == 2 {
        TwoSlashes(s);
      } else {
        SlashesStart(n - 2, s);
        ManySlashes(Slashes(n - 3) + s);
      }
    }
  }

  lemma FewSlashes(s: string)
    requires s != "" ==> s[0] != '/'
    ensures PathRoot(s) == "" && PathRoot("/" + s) == "/"
  {
    assert s != "" ==> ("/" + s)[1] == s[0];
  }

  lemma TwoSlashes(s: string)
    requires s != "" ==> s[0] != '/'
    ensures PathRoot("/" + ("/" + s)) == "//"
  {
    assert s != "" ==> ("/" + ("/" + s))[2] == s[0];
  }

  lemma ManySlashes(s: string)
    ensures PathRoot("/" + ("/" + ("/" + s))) == "/"
  {
  }

  lemma SegmentsStart(segments: seq<Segment>)
    requires |segments| > 0 && segments[0].Valid() && !segments[0].Nothing?
    ensures PrintSegments(segments) != "" && PrintSegments(segments)[0] != '/'
  {
    var shown := segments[0].Print();
    assert shown[0] in shown;
    assert PrintSegments(segments)[0] == shown[0];
  }

  lemma {:induction false} NamesAreGood(segments: seq<Segment>)
    requires forall k :: 0 <= k < |segments| ==> segments[k].Valid()
    ensures GoodParts(Names(segments))
  {
    if |segments| > 0 { NamesAreGood(segments[1..]); }
  }

  /** Empty pieces, single dots and slashes beyond the root say nothing about which file a path names. */
  lemma PosixPathMeans(p: Spelling)
    requires p.Valid()
    ensures PosixPath(p.Print()) == p.Meaning()
  {
    hide PathParts, PathRoot, PrintSegments, Slashes, Names, Joined;
    var body := Joined(Names(p.segments), "/");
    SegmentsRead(p.segments);
    SlashesAddNoPart(p.slashes, PrintSegments(p.segments));
    SegmentsShow(p);
    RootReads(p.slashes, PrintSegments(p.segments));
    assert "" + body == body;
  }

  lemma SegmentsShow(p: Spelling)
    requires p.Valid()
    ensures PrintSegments(p.segments) != "" ==> PrintSegments(p.segments)[0] != '/'
  {
    if |p.segments| > 0 { SegmentsStart(p.segments); }
  }

  /** A relative path that starts with a dot and two slashes. */
  predicate DotThenRoot(p: Spelling) {
    p.slashes == 0 && |p.segments| > 2 && p.segments[0].Dot? && p.segments[1].Nothing?
  }

  lemma DotStarts(p: Spelling)
    requires p.Valid()
    ensures var s := p.Print();
            (|s| >= 2 && s[0] == '.' && s[1] == '/') <==> p.slashes == 0 && |p.segments| > 1 && p.segments[0].Dot?
    ensures p.slashes == 0 && |p.segments| > 1 && p.segments[0].Dot? ==> p.Print()[2..] == PrintSegments(p.segments[1..])
  {
    hide PrintSegments, Slashes;
    if p.slashes > 0 {
      SlashesStart(p.slashes, PrintSegments(p.segments));
    } else {
      SlashesStart(1, PrintSegments(p.segments));
      if |p.segments| > 1 {
        FirstPrints(p.segments);
        NameIsNotDot(p.segments[0], "/" + PrintSegments(p.segments[1..]));
      } else if |p.segments| == 1 {
        LastPrints(p.segments[0]);
        NameIsNotDot(p.segments[0], "");
        assert p.segments[0].Print() + "" == p.segments[0].Print();
        assert p.segments == [p.segments[0]];
      } else {
        NoSegments();
      }
    }
  }

  lemma NoSegments()
    ensures PrintSegments([]) == ""
  {
  }

  lemma NameIsNotDot(segment: Segment, rest: string)
    requires segment.Valid() && !segment.Nothing? && (rest != "" ==> rest[0] == '/')
    ensures var s := segment.Print() + rest;
            (|s| >= 2 && s[0] == '.' && s[1] == '/') <==> segment.Dot? && rest != ""
    ensures segment.Dot? && rest != "" ==> (segment.Print() + rest)[2..] == rest[1..]
  {
    var shown := segment.Print();
    var s := shown + rest;
    if segment.Name? {
      assert shown[0] in shown;
      if |shown| == 1 {
        assert shown == [shown[0]];
      } else {
        assert shown[1] in shown && s[1] == shown[1];
      }
    }
  }

  lemma AfterTheDot(segments: seq<Segment>)
    requires |segments| > 1 && segments[0].Nothing?
    ensures PrintSegments(segments) == "/" + PrintSegments(segments[1..])
  {
    assert segments[0].Print() == "";
  }

  lemma RelativeIsNotRooted(p: Spelling)
    requires p.Valid() && p.slashes == 0
    ensures |p.Meaning()| > 0 && p.Meaning()[0] != '/'
  {
    NamesAreGood(p.segments);
    if |Names(p.segments)| > 0 { JoinedStartsGood(Names(p.segments)); }
  }

  lemma RootedStays(s: string)
    requires |s| > 0 && s[0] == '/'
    ensures |PosixPath(s)| > 0 && PosixPath(s)[0] == '/'
  {
    hide PathParts, Joined;
  }

  lemma DotSaysNothing(p: Spelling)
    requires p.Valid() && p.slashes == 0 && |p.segments| > 0 && p.segments[0].Dot?
    ensures p.Meaning() == p.(segments := p.segments[1..]).Meaning()
  {
    assert [] + Names(p.segments[1..]) == Names(p.segments[1..]);
  }

  /**
    Normalization gives every spelling of a path the one name of its file, if and only if it does not start with a dot
    and two slashes: such a one it takes for an absolute path.
   */
  lemma NormalizedMeans(p: Spelling)
    requires p.Valid() && (p.Print() == "" || Clean(p.Print()))
    ensures NormalizePath(p.Print()) == p.Meaning() <==> !DotThenRoot(p)
  {
    hide PathParts, PathRoot, PrintSegments, Names, Joined, Slashes;
    var s := p.Print();
    if s != "" { CleanStays(s); } else { StripBlankless(s); }
    DotStarts(p);
    if p.slashes == 0 && |p.segments| > 1 && p.segments[0].Dot? {
      var rest := p.segments[1..];
      DotSaysNothing(p);
      if rest[0].Nothing? {
        RelativeIsNotRooted(p);
        if |rest| > 1 {
          AfterTheDot(rest);
          RootedStays(s[2..]);
        } else {
          DotAlone(p);
          LastPrints(Nothing);
        }
      } else {
        var q := Spelling(0, rest);
        PosixPathMeans(q);
        SlashesNone(rest);
      }
    } else {
      PosixPathMeans(p);
    }
  }

  lemma SlashesNone(segments: seq<Segment>)
    ensures Slashes(0) + PrintSegments(segments) == PrintSegments(segments)
  {
  }

  lemma LastPrints(segment: Segment)
    ensures PrintSegments([segment]) == segment.Print()
  {
  }

  lemma FirstPrints(segments: seq<Segment>)
    requires |segments| > 1
    ensures PrintSegments(segments) == segments[0].Print() + ("/" + PrintSegments(segments[1..]))
  {
  }

  /** `./` alone names the directory itself. */
  lemma DotAlone(p: Spelling)
    requires p.slashes == 0 && p.segments == [Dot, Nothing]
    ensures PosixPath("") == "." == p.Meaning()
  {
    assert p.segments[1..] == [Nothing];
    assert Names([Nothing]) == [] + Names([]);
    assert Names(p.segments) == [] + Names([Nothing]);
    NoParts();
  }

  lemma DotIsCut(value: string, rest: string)
    requires value == "./" + rest && Clean(value)
    ensures NormalizePath(value) == PosixPath(rest)
  {
    CleanStays(value);
    hide PosixPath, Strip, Clean, IsSpace;
    assert value[0] == '.' && value[1] == '/' && value[2..] == rest;
  }

  lemma DotThenRootPrints(name: string)
    ensures Spelling(0, [Dot, Nothing, Name(name)]).Print() == "./" + ("/" + name)
    ensures Spelling(1, [Name(name)]).Print() == "/" + name
  {
    hide PrintSegments, Slashes;
    var segments := [Dot, Nothing, Name(name)];
    assert segments[1..] == [Nothing, Name(name)] && segments[1..][1..] == [Name(name)];
    FirstPrints(segments);
    AfterTheDot(segments[1..]);
    LastPrints(Name(name));
    SlashesStart(1, PrintSegments(segments));
    SlashesStart(1, name);
  }

  /** For example `.//a`, which names a file `a` here and is taken for one under the root. */
  lemma ADotCanBecomeTheRoot()
    ensures var p := Spelling(0, [Dot, Nothing, Name("a")]);
            p.Valid() && p.Print() == ".//a" && NormalizePath(".//a") == "/a"
  {
    hide NormalizePath, PosixPath, Names, Joined, PrintSegments, Slashes;
    DotThenRootPrints("a");
    assert ".//a" == "./" + ("/" + "a") && "/a" == "/" + "a" && '/' !in "a";
    DotIsCut(".//a", "/a");
    PosixPathMeans(Spelling(1, [Name("a")]));
    OneName("a");
  }

  lemma OneName(name: string)
    ensures Joined(Names([Name(name)]), "/") == name
  {
    assert Names([Name(name)]) == [name] + Names([]);
  }

  // ---------------------------------------------------------------- patterns

  lemma {:induction false} PercentsOf(s: string)
    ensures Percents(s) == 0 <==> '%' !in s
  {
    if |s| > 0 {
      PercentsOf(s[1..]);
      assert s == [s[0]] + s[1..];
    }
  }

  lemma {:induction false} PercentsAdd(a: string, b: string)
    ensures Percents(a + b) == Percents(a) + Percents(b)
  {
    if |a| == 0 {
      assert a + b == b;
    } else {
      assert (a + b)[1..] == a[1..] + b;
      PercentsAdd(a[1..], b);
    }
  }

  lemma PatternParts(prefix: string, suffix: string, pattern: string)
    requires '%' !in prefix && '%' !in suffix && pattern == prefix + ("%" + suffix)
    ensures Percents(pattern) == 1 && IndexFrom(pattern, '%', 0) == |prefix| < |pattern|
    ensures pattern[..|prefix|] == prefix && pattern[|prefix| + 1..] == suffix
  {
    PercentsOf(prefix);
    PercentsOf(suffix);
    PercentsAdd("%", suffix);
    PercentsAdd(prefix, "%" + suffix);
    assert Percents("%") == 1;
    hide Percents;
    assert forall k :: 0 <= k < |prefix| ==> pattern[k] == prefix[k];
    IndexIs(pattern, '%', 0, |prefix|);
  }

  /** A pattern with one `%` matches exactly the targets that have something in its place, maybe nothing. */
  lemma StemExactly(prefix: string, suffix: string, target: string, stem: string)
    requires '%' !in prefix && '%' !in suffix
    ensures MatchStem(prefix + ("%" + suffix), target) == Some(stem) <==>
            target == prefix + (stem + suffix) && '\n' !in stem
  {
    PatternParts(prefix, suffix, prefix + ("%" + suffix));
    hide Percents, IndexFrom;
    if |prefix| + |suffix| <= |target| && prefix <= target && EndsWith(target, suffix) {
      var middle := target[|prefix|..|target| - |suffix|];
      assert target == prefix + (middle + suffix);
    }
    if target == prefix + (stem + suffix) { StemFits(prefix, stem, suffix, target); }
  }

  lemma StemFits(prefix: string, stem: string, suffix: string, target: string)
    requires target == prefix + (stem + suffix)
    ensures |prefix| + |suffix| <= |target| && prefix <= target && EndsWith(target, suffix)
    ensures target[|prefix|..|target| - |suffix|] == stem
  {
    assert target[..|prefix|] == prefix && target[|target| - |suffix|..] == suffix;
  }

  /** A pattern with none or more than one matches nothing. */
  lemma NoStem(pattern: string, target: string, a: string, b: string, c: string)
    requires '%' !in pattern || pattern == a + ("%" + (b + ("%" + c)))
    ensures MatchStem(pattern, target) == None
  {
    if '%' !in pattern {
      PercentsOf(pattern);
    } else {
      PercentsAdd(a, "%" + (b + ("%" + c)));
      PercentsAdd("%", b + ("%" + c));
      PercentsAdd(b, "%" + c);
      PercentsAdd("%", c);
      assert Percents("%") == 1;
    }
  }

  /** Every `%` of a prerequisite is filled in, wherever it stands. */
  lemma {:induction false} FilledExactly(before: string, rest: string, stem: string)
    requires '%' !in before
    ensures FillStem(before, stem) == before
    ensures FillStem(before + ("%" + rest), stem) == before + (stem + FillStem(rest, stem))
    decreases |before|
  {
    if |before| == 0 {
      assert before + ("%" + rest) == "%" + rest && ("%" + rest)[1..] == rest;
      assert "" + (stem + FillStem(rest, stem)) == stem + FillStem(rest, stem);
    } else {
      assert (before + ("%" + rest))[1..] == before[1..] + ("%" + rest);
      FilledExactly(before[1..], rest, stem);
      assert before == [before[0]] + before[1..];
    }
  }

  lemma {:induction false} FilledAll(patterns: seq<string>, stem: string)
    ensures |FillAll(patterns, stem)| == |patterns|
    ensures forall k :: 0 <= k < |patterns| ==> FillAll(patterns, stem)[k] == FillStem(patterns[k], stem)
  {
    if |patterns| > 0 { FilledAll(patterns[1..], stem); }
  }

  /** The first rule that matches is the one that counts, with its prerequisites filled in and the rest as it is. */
  lemma {:induction false} FirstMatchCounts(rules: seq<MakeRule>, target: string, k: nat)
    requires k <= |rules| && forall j :: 0 <= j < k ==> MatchStem(rules[j].target, target) == None
    requires k < |rules| ==> MatchStem(rules[k].target, target) != None
    ensures k == |rules| ==> ResolvePattern(target, rules) == None
    ensures k < |rules| ==>
              var stem, found := MatchStem(rules[k].target, target).value, ResolvePattern(target, rules);
              && found.Some? && found.value.target == target
              && found.value.recipes == rules[k].recipes && found.value.line == rules[k].line
              && |found.value.normal| == |rules[k].normal| && |found.value.orderOnly| == |rules[k].orderOnly|
              && (forall i :: 0 <= i < |rules[k].normal| ==> found.value.normal[i] == FillStem(rules[k].normal[i], stem))
              && forall i :: 0 <= i < |rules[k].orderOnly| ==> found.value.orderOnly[i] == FillStem(rules[k].orderOnly[i], stem)
    decreases k
  {
    hide MatchStem, FillStem, FillAll;
    if k > 0 {
      FirstMatchCounts(rules[1..], target, k - 1);
    } else if |rules| > 0 {
      FilledAll(rules[0].normal, MatchStem(rules[0].target, target).value);
      FilledAll(rules[0].orderOnly, MatchStem(rules[0].target, target).value);
    }
  }

  // ---------------------------------------------------------------- what is declared and what is reported

  /** The rule is a line for the target that names the dependency, whatever the spelling of either. */
  ghost predicate IsFor(rule: MakeRule, target: string) { NormalizePath(rule.target) == target }

  ghost predicate NamesIt(rule: MakeRule, name: string) {
    exists i :: 0 <= i < |rule.normal| && NormalizePath(rule.normal[i]) == name
  }

  lemma NamesOfRule(rule: MakeRule, name: string)
    ensures name in SetOf(Normalized(rule.normal)) <==> NamesIt(rule, name)
  {
    var names := Normalized(rule.normal);
    if name in names {
      var i :| 0 <= i < |names| && names[i] == name;
      assert NormalizePath(rule.normal[i]) == name;
    }
    if NamesIt(rule, name) {
      var i :| 0 <= i < |rule.normal| && NormalizePath(rule.normal[i]) == name;
      assert names[i] == name;
    }
  }

  lemma {:induction false} ExplicitExactly(rules: seq<MakeRule>, target: string, name: string)
    ensures var declared := DeclaredExplicitly(Declarations(rules), target);
            && (declared.Some? <==> exists rule <- rules :: IsFor(rule, target))
            && (declared.Some? ==> (name in declared.value <==> exists rule <- rules :: IsFor(rule, target) && NamesIt(rule, name)))
    decreases |rules|
  {
    hide NormalizePath, NamesIt;
    if |rules| > 0 {
      var init, last := rules[..|rules| - 1], rules[|rules| - 1];
      ExplicitExactly(init, target, name);
      assert Declarations(rules)[..|rules| - 1] == Declarations(init);
      assert Declarations(rules)[|rules| - 1] == DeclarationOf(last);
      assert rules == init + [last] && last in rules;
      NamesOfRule(last, name);
    }
  }

  /** All explicit lines of a target together declare what any of them names; only a target without one gets a pattern. */
  lemma DeclaredExactly(rules: seq<MakeRule>, target: string, name: string)
    ensures var declared, pattern := Declared(rules, target), ResolvePattern(target, rules);
            if exists rule <- rules :: IsFor(rule, target) then
              declared.Some? && (name in declared.value <==> exists rule <- rules :: IsFor(rule, target) && NamesIt(rule, name))
            else
              && (declared.Some? <==> pattern.Some?)
              && (declared.Some? ==> (name in declared.value <==> NamesIt(pattern.value, name)))
  {
    hide ResolvePattern, NamesIt, IsFor;
    ExplicitExactly(rules, target, name);
    if ResolvePattern(target, rules).Some? { NamesOfRule(ResolvePattern(target, rules).value, name); }
  }

  /** Record `a` has the dependency, its target is declared, and the dependency is not. */
  ghost predicate Lacks(rules: seq<MakeRule>, a: ActualDependency, m: MissingDependency) {
    && m.target == NormalizePath(a.target) && m.sourceFile == a.sourceFile
    && (exists k :: 0 <= k < |a.dependencies| && NormalizePath(a.dependencies[k]) == m.dependency)
    && Declared(rules, m.target).Some? && m.dependency !in Declared(rules, m.target).value
  }

  lemma MissingForExactly(rules: seq<MakeRule>, a: ActualDependency, m: MissingDependency)
    ensures m in MissingFor(rules, a) <==> Lacks(rules, a, m)
  {
    hide NormalizePath, MissingOf, Declared;
    var names, target := Normalized(a.dependencies), NormalizePath(a.target);
    if Declared(rules, target).Some? {
      MissingExactly(Declared(rules, target).value, target, names, a.sourceFile, m);
      if m.dependency in names {
        var k :| 0 <= k < |names| && names[k] == m.dependency;
        assert NormalizePath(a.dependencies[k]) == m.dependency;
      }
      if k :| 0 <= k < |a.dependencies| && NormalizePath(a.dependencies[k]) == m.dependency {
        assert names[k] == m.dependency;
      }
    }
  }

  /** Detection reports exactly what some record needs, in normalized names, and the rules for its target do not declare. */
  lemma ReportedExactly(rules: seq<MakeRule>, actuals: seq<ActualDependency>, m: MissingDependency)
    ensures m in Detect(rules, actuals) <==> exists a <- actuals :: Lacks(rules, a, m)
  {
    hide Lacks, MissingFor;
    var reports := Reports(rules, actuals);
    ConcatenatedHas(reports, m);
    forall k | 0 <= k < |reports| ensures m in reports[k] <==> Lacks(rules, actuals[k], m) {
      MissingForExactly(rules, actuals[k], m);
    }
  }
}
