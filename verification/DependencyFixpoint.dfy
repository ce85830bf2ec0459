/**
  Detecting again on a repaired Makefile: normalized paths, what the compensation rules declare, and for which
  targets one round of repair is enough.
 */
module DependencyFixpoint {
  import opened Wrappers
  import opened Texts
  import opened Makefiles
  import opened DependencyRepair
  import opened MakefileText
  import opened RepairedMakefile
  import opened RepairDisturbance

  // ---------------------------------------------------------------- normalized paths

  predicate GoodPart(part: string) { part != "" && part != "." && '/' !in part }

  predicate GoodParts(parts: seq<string>) {
    forall k :: 0 <= k < |parts| ==> GoodPart(parts[k])
  }

  lemma {:induction false} PathPartsAreGood(s: string)
    ensures GoodParts(PathParts(s))
    decreases |s|
  {
    var n := IndexFrom(s, '/', 0);
    IndexSkips(s, '/', 0);
    if n < |s| { PathPartsAreGood(s[n + 1..]); }
  }

  lemma OnePart(part: string)
    requires GoodPart(part)
    ensures PathParts(part) == [part]
  {
    IndexIs(part, '/', 0, |part|);
    assert part[..|part|] == part;
  }

  lemma FirstPart(first: string, tail: string, joined: string)
    requires GoodPart(first) && joined == first + "/" + tail
    ensures PathParts(joined) == [first] + PathParts(tail)
  {
    assert forall k :: 0 <= k < |first| ==> joined[k] == first[k];
    IndexIs(joined, '/', 0, |first|);
    assert joined[..|first|] == first && joined[|first| + 1..] == tail;
  }

  /** Splitting what was joined gives the parts back. */
  lemma {:induction false} PartsReadBack(parts: seq<string>, joined: string)
    requires GoodParts(parts) && joined == Joined(parts, "/")
    ensures PathParts(joined) == parts
    decreases |parts|
  {
    if |parts| == 1 {
      OnePart(parts[0]);
      assert parts == [parts[0]];
    } else if |parts| > 1 {
      PartsReadBack(parts[1..], Joined(parts[1..], "/"));
      FirstPart(parts[0], Joined(parts[1..], "/"), joined);
      assert parts == [parts[0]] + parts[1..];
    }
  }

  lemma SlashAddsNoPart(s: string, slashed: string)
    requires slashed == "/" + s
    ensures PathParts(slashed) == PathParts(s)
  {
    IndexIs(slashed, '/', 0, 0);
    assert slashed[..0] == "" && slashed[1..] == s;
  }

  lemma JoinedStartsGood(parts: seq<string>)
    requires GoodParts(parts) && |parts| > 0
    ensures var s := Joined(parts, "/"); |s| > 0 && s[0] != '/' && !(|s| >= 2 && s[0] == '.' && s[1] == '/')
  {
    var first := parts[0];
    assert first[0] in first;
    if |first| == 1 {
      assert first == [first[0]];
    } else {
      assert first[1] in first;
    }
  }

  /** A path put together from a root and good parts falls apart into them. */
  lemma RootedReadsBack(root: string, parts: seq<string>, body: string, path: string)
    requires GoodParts(parts) && body == Joined(parts, "/") && path == root + body
    requires root == "" || root == "/" || root == "//"
    ensures PathParts(path) == parts && PathRoot(path) == root
  {
    hide PathParts, GoodParts;
    PartsReadBack(parts, body);
    if |parts| > 0 { JoinedStartsGood(parts); }
    if |root| == 0 {
      assert path == body;
    } else if |root| == 1 {
      SlashAddsNoPart(body, path);
      assert |path| >= 2 ==> path[1] == body[0];
    } else {
      var once := "/" + body;
      SlashAddsNoPart(body, once);
      assert path == "/" + once;
      SlashAddsNoPart(once, path);
      assert |path| > 2 ==> path[2] == body[0];
    }
  }

  lemma PosixPathReadsBack(s: string, path: string)
    requires path == PosixPath(s)
    ensures PosixPath(path) == path
    ensures |path| > 0 && WithoutDot(path) == path
  {
    var root, parts := PathRoot(s), PathParts(s);
    var body := Joined(parts, "/");
    PathPartsAreGood(s);
    if |parts| > 0 { JoinedStartsGood(parts); }
    if root + body == "" {
      assert path == ".";
      IndexIs(path, '/', 0, 1);
      assert path[..1] == ".";
    } else {
      RootedReadsBack(root, parts, body, path);
    }
  }

  /** No blanks: then stripping takes nothing away. */
  predicate Blankless(s: string) { forall k :: 0 <= k < |s| ==> !IsSpace(s[k]) }

  lemma StripBlankless(s: string)
    requires Blankless(s)
    ensures Strip(s) == s
  {
    if |s| > 0 {
      CleanStays(s);
    } else {
      assert s == "";
    }
  }

  /** A normalized path is a fixed point of normalization. */
  lemma NormalizedIsFixed(value: string, path: string)
    requires path == NormalizePath(value) && Blankless(path)
    ensures NormalizePath(path) == path
  {
    PosixPathReadsBack(WithoutDot(Strip(value)), path);
    StripBlankless(path);
  }

  predicate PlainChars(s: string) { forall k :: 0 <= k < |s| ==> PlainChar(s[k]) }

  lemma {:induction false} PlainPathParts(s: string)
    requires PlainChars(s)
    ensures forall k :: 0 <= k < |PathParts(s)| ==> PlainChars(PathParts(s)[k])
    decreases |s|
  {
    var n := IndexFrom(s, '/', 0);
    if n < |s| { PlainPathParts(s[n + 1..]); }
  }

  lemma {:induction false} PlainJoined(parts: seq<string>)
    requires forall k :: 0 <= k < |parts| ==> PlainChars(parts[k])
    ensures PlainChars(Joined(parts, "/"))
  {
    if |parts| > 1 { PlainJoined(parts[1..]); }
  }

  lemma PlainPath(s: string, path: string)
    requires PlainChars(s) && path == PosixPath(s)
    ensures PlainChars(path)
  {
    var body := Joined(PathParts(s), "/");
    PlainPathParts(s);
    PlainJoined(PathParts(s));
    assert path == "." || path == PathRoot(s) + body;
  }

  /** Normalizing keeps a plain name plain. */
  lemma NormalizedIsPlain(value: string, path: string)
    requires PlainName(value) && path == NormalizePath(value)
    ensures PlainName(path) && NormalizePath(path) == path
  {
    StripBlankless(value);
    PlainPath(WithoutDot(value), path);
    PosixPathReadsBack(WithoutDot(value), path);
    NormalizedIsFixed(value, path);
  }

  // ---------------------------------------------------------------- what the compensation rules declare

  function Targets(extra: seq<Declaration>): set<string> { set d | d in extra :: d.target }

  function DeclaredOr(declarations: seq<Declaration>, target: string): set<string> {
    var declared := DeclaredExplicitly(declarations, target);
    if declared.Some? then declared.value else {}
  }

  /** Every appended line declares what is grouped for its target, and every grouped target has a line. */
  ghost predicate Compensating(extra: seq<Declaration>, grouped: Grouped) {
    && Targets(extra) == grouped.Keys
    && forall i :: 0 <= i < |extra| ==> extra[i].names == grouped[extra[i].target]
  }

  /** Appending declarations adds their names to what was declared for their targets, and nothing else. */
  lemma {:induction false} DeclaredAfter(
    declarations: seq<Declaration>, extra: seq<Declaration>, grouped: Grouped, target: string)
    requires forall i :: 0 <= i < |extra| ==> extra[i].target in grouped && extra[i].names == grouped[extra[i].target]
    ensures DeclaredExplicitly(declarations + extra, target) ==
            if target in Targets(extra) then Some(DeclaredOr(declarations, target) + grouped[target])
            else DeclaredExplicitly(declarations, target)
    decreases |extra|
  {
    var all := declarations + extra;
    if |extra| == 0 {
      assert all == declarations;
    } else {
      var init, last := extra[..|extra| - 1], extra[|extra| - 1];
      assert all[..|all| - 1] == declarations + init && all[|all| - 1] == last;
      assert extra == init + [last];
      DeclaredAfter(declarations, init, grouped, target);
      if last.target == target {
        var was, now := DeclaredOr(declarations, target), grouped[target];
        assert was + now + now == was + now;
      }
    }
  }

  lemma {:induction false} NoPercents(s: string)
    requires '%' !in s
    ensures Percents(s) == 0
  {
    if |s| > 0 { NoPercents(s[1..]); }
  }

  lemma {:induction false} PatternsStay(rules: seq<MakeRule>, extra: seq<MakeRule>, target: string)
    requires forall i :: 0 <= i < |extra| ==> '%' !in extra[i].target
    ensures ResolvePattern(target, rules + extra) == ResolvePattern(target, rules)
    decreases |rules| + |extra|
  {
    var all := rules + extra;
    if |rules| > 0 {
      assert all[1..] == rules[1..] + extra;
      PatternsStay(rules[1..], extra, target);
    } else if |extra| > 0 {
      assert all == extra && all[1..] == rules + extra[1..];
      NoPercents(extra[0].target);
      PatternsStay(rules, extra[1..], target);
    }
  }

  /** The compensated targets get their missing dependencies; a target known only by pattern loses the pattern. */
  lemma DeclaredByRepaired(rules: seq<MakeRule>, extra: seq<MakeRule>, grouped: Grouped, target: string)
    requires Compensating(Declarations(extra), grouped)
    requires forall i :: 0 <= i < |extra| ==> '%' !in extra[i].target
    ensures Declared(rules + extra, target) ==
            if target in grouped then Some(DeclaredOr(Declarations(rules), target) + grouped[target])
            else Declared(rules, target)
  {
    var added := Declarations(extra);
    assert Declarations(rules + extra) == Declarations(rules) + added;
    forall i | 0 <= i < |added| ensures added[i].target in grouped {
      assert added[i] in added;
      assert added[i].target in Targets(added);
    }
    DeclaredAfter(Declarations(rules), added, grouped, target);
    PatternsStay(rules, extra, target);
  }

  // ---------------------------------------------------------------- what is missing

  lemma {:induction false} MissingExactly(declared: set<string>, target: string, names: seq<string>, source: string, m: MissingDependency)
    ensures m in MissingOf(declared, target, names, source) <==>
            m.target == target && m.sourceFile == source && m.dependency in names && m.dependency !in declared
  {
    if |names| > 0 {
      var init, last := names[..|names| - 1], names[|names| - 1];
      MissingExactly(declared, target, init, source, m);
      assert names == init + [last];
    }
  }

  lemma {:induction false} NothingMissing(declared: set<string>, target: string, names: seq<string>, source: string)
    ensures MissingOf(declared, target, names, source) == [] <==> forall k :: 0 <= k < |names| ==> names[k] in declared
  {
    if |names| > 0 {
      NothingMissing(declared, target, names[..|names| - 1], source);
    }
  }

  lemma {:induction false} ConcatenatedHas(reports: seq<seq<MissingDependency>>, m: MissingDependency)
    ensures m in Concatenated(reports) <==> exists k :: 0 <= k < |reports| && m in reports[k]
    ensures Concatenated(reports) == [] <==> forall k :: 0 <= k < |reports| ==> reports[k] == []
  {
    if |reports| > 0 {
      var init := reports[..|reports| - 1];
      ConcatenatedHas(init, m);
      assert Concatenated(init) + reports[|reports| - 1] == [] <==> Concatenated(init) == [] && reports[|reports| - 1] == [];
    }
  }

  lemma {:induction false} GroupCollects(missing: seq<MissingDependency>, t: string, d: string)
    ensures (t in Group(missing) && d in Group(missing)[t]) <==> exists m <- missing :: m.target == t && m.dependency == d
    ensures t in Group(missing) <==> exists m <- missing :: m.target == t
    decreases |missing|
  {
    if |missing| > 0 {
      var init, last := missing[..|missing| - 1], missing[|missing| - 1];
      GroupCollects(init, t, d);
      assert missing == init + [last];
    }
  }

  // ---------------------------------------------------------------- one round of repair

  /** A record whose names the parser reads back. */
  predicate PlainActual(a: ActualDependency) {
    PlainName(a.target) && NormalizePath(a.target) != ".PHONY" && PlainNames(a.dependencies)
  }

  /** Everything reported names a normalized target and dependency of some record, not declared for that target. */
  lemma ReportedFor(rules: seq<MakeRule>, actuals: seq<ActualDependency>, m: MissingDependency) returns (i: nat)
    requires m in Detect(rules, actuals)
    ensures i < |actuals| && m.target == NormalizePath(actuals[i].target)
    ensures m.dependency in Normalized(actuals[i].dependencies)
    ensures Declared(rules, m.target).Some? && m.dependency !in Declared(rules, m.target).value
  {
    var reports := Reports(rules, actuals);
    ConcatenatedHas(reports, m);
    i :| 0 <= i < |reports| && m in reports[i];
    var a := actuals[i];
    var target := NormalizePath(a.target);
    var declared := Declared(rules, target);
    assert m in MissingFor(rules, a);
    assert declared.Some?;
    MissingExactly(declared.value, target, Normalized(a.dependencies), a.sourceFile, m);
  }

  /** Whatever a record names and its target does not declare is grouped. */
  lemma GroupedFor(rules: seq<MakeRule>, actuals: seq<ActualDependency>, i: nat, target: string, name: string)
    requires i < |actuals| && target == NormalizePath(actuals[i].target) && name in Normalized(actuals[i].dependencies)
    requires Declared(rules, target).Some? && name !in Declared(rules, target).value
    ensures var grouped := Group(Detect(rules, actuals)); target in grouped && name in grouped[target]
  {
    var a := actuals[i];
    var m := MissingDependency(target, name, a.sourceFile);
    MissingExactly(Declared(rules, target).value, target, Normalized(a.dependencies), a.sourceFile, m);
    var reports := Reports(rules, actuals);
    assert m in reports[i];
    ConcatenatedHas(reports, m);
    GroupCollects(Detect(rules, actuals), target, name);
  }

  /** What is grouped was reported. */
  lemma GroupedWasReported(missing: seq<MissingDependency>, target: string, name: string) returns (m: MissingDependency)
    requires target in Group(missing) && name in Group(missing)[target]
    ensures m in missing && m.target == target && m.dependency == name
  {
    GroupCollects(missing, target, name);
    m :| m in missing && m.target == target && m.dependency == name;
  }

  lemma GroupedIsNotEmpty(missing: seq<MissingDependency>, target: string)
    requires target in Group(missing)
    ensures exists name :: name in Group(missing)[target]
  {
    GroupCollects(missing, target, "");
    var m :| m in missing && m.target == target;
    GroupCollects(missing, target, m.dependency);
  }

  /** Every name that is grouped is plain and already normalized. */
  lemma GroupedIsPlain(rules: seq<MakeRule>, actuals: seq<ActualDependency>, target: string, name: string)
    requires forall i :: 0 <= i < |actuals| ==> PlainActual(actuals[i])
    requires var grouped := Group(Detect(rules, actuals)); target in grouped && name in grouped[target]
    ensures PlainName(target) && target != ".PHONY" && NormalizePath(target) == target
    ensures PlainName(name) && NormalizePath(name) == name
  {
    var m := GroupedWasReported(Detect(rules, actuals), target, name);
    var i := ReportedFor(rules, actuals, m);
    var a := actuals[i];
    assert PlainActual(a);
    NormalizedIsPlain(a.target, target);
    var k :| 0 <= k < |a.dependencies| && Normalized(a.dependencies)[k] == name;
    NormalizedIsPlain(a.dependencies[k], name);
  }

  /** The compensation rules of a report are plain, so the parser reads them back. */
  lemma CompensationsArePlain(rules: seq<MakeRule>, actuals: seq<ActualDependency>, compensations: seq<Compensation>)
    requires forall i :: 0 <= i < |actuals| ==> PlainActual(actuals[i])
    requires Compensates(compensations, Group(Detect(rules, actuals)))
    ensures PlainRules(compensations)
  {
    hide PlainName, PlainActual, NormalizePath, Group, Detect, Ascending;
    var grouped := Group(Detect(rules, actuals));
    forall i | 0 <= i < |compensations| ensures PlainRule(compensations[i]) {
      var c := compensations[i];
      GroupedIsNotEmpty(Detect(rules, actuals), c.target);
      var some :| some in grouped[c.target];
      assert some in c.dependencies;
      GroupedIsPlain(rules, actuals, c.target, some);
      forall k | 0 <= k < |c.dependencies| ensures PlainName(c.dependencies[k]) {
        assert c.dependencies[k] in grouped[c.target];
        GroupedIsPlain(rules, actuals, c.target, c.dependencies[k]);
      }
    }
  }

  lemma GroupedNamesFixed(rules: seq<MakeRule>, actuals: seq<ActualDependency>, target: string, names: seq<string>)
    requires forall i :: 0 <= i < |actuals| ==> PlainActual(actuals[i])
    requires var grouped := Group(Detect(rules, actuals)); target in grouped && IsListing(names, grouped[target])
    ensures NormalizePath(target) == target && Normalized(names) == names
  {
    hide Detect, Group, NormalizePath, PlainName;
    var grouped := Group(Detect(rules, actuals));
    GroupedIsNotEmpty(Detect(rules, actuals), target);
    var some :| some in grouped[target];
    GroupedIsPlain(rules, actuals, target, some);
    forall k | 0 <= k < |names| ensures NormalizePath(names[k]) == names[k] {
      assert names[k] in grouped[target];
      GroupedIsPlain(rules, actuals, target, names[k]);
    }
  }

  lemma DeclarationOfCompensation(
    rules: seq<MakeRule>, actuals: seq<ActualDependency>, c: Compensation, number: nat, grouped: Grouped)
    requires forall i :: 0 <= i < |actuals| ==> PlainActual(actuals[i])
    requires grouped == Group(Detect(rules, actuals)) && c.target in grouped && IsListing(c.dependencies, grouped[c.target])
    ensures DeclarationOf(CompensationRule(c, number)) == Declaration(c.target, grouped[c.target])
  {
    GroupedNamesFixed(rules, actuals, c.target, c.dependencies);
  }

  lemma CompensatingByIndex(declarations: seq<Declaration>, compensations: seq<Compensation>, grouped: Grouped)
    requires |declarations| == |compensations|
    requires forall i :: 0 <= i < |compensations| ==> compensations[i].target in grouped
    requires forall i :: 0 <= i < |compensations| ==>
               declarations[i] == Declaration(compensations[i].target, grouped[compensations[i].target])
    requires forall t <- grouped :: exists i :: 0 <= i < |compensations| && compensations[i].target == t
    ensures Compensating(declarations, grouped)
  {
    forall t ensures t in Targets(declarations) <==> t in grouped {
      if t in grouped {
        var i :| 0 <= i < |compensations| && compensations[i].target == t;
        assert declarations[i] in declarations;
      }
    }
  }

  /** Read back and normalized, they declare exactly what was missing. */
  lemma CompensationsDeclare(
    rules: seq<MakeRule>, actuals: seq<ActualDependency>, compensations: seq<Compensation>, number: nat)
    requires forall i :: 0 <= i < |actuals| ==> PlainActual(actuals[i])
    requires Compensates(compensations, Group(Detect(rules, actuals)))
    ensures Compensating(Declarations(RulesRead(compensations, 0, number)), Group(Detect(rules, actuals)))
  {
    var grouped := Group(Detect(rules, actuals));
    var declarations := Declarations(RulesRead(compensations, 0, number));
    forall i | 0 <= i < |compensations|
      ensures declarations[i] == Declaration(compensations[i].target, grouped[compensations[i].target])
    {
      DeclarationOfCompensation(rules, actuals, compensations[0 + i], number + i, grouped);
    }
    CompensatingByIndex(declarations, compensations, grouped);
  }

  /**
    When one round of repair is enough for a record: its target has an explicit rule, or had nothing missing, or none
    of its dependencies was declared by a pattern rule alone.
   */
  ghost predicate OneRoundIsEnough(rules: seq<MakeRule>, actuals: seq<ActualDependency>, a: ActualDependency) {
    var target, names := NormalizePath(a.target), Normalized(a.dependencies);
    || DeclaredExplicitly(Declarations(rules), target).Some?
    || target !in Group(Detect(rules, actuals))
    || (DeclaredByPattern(rules, target).Some? ==>
          forall k :: 0 <= k < |names| ==> names[k] !in DeclaredByPattern(rules, target).value)
  }

  lemma MissingAfterRepair(
    rules: seq<MakeRule>, extra: seq<MakeRule>, actuals: seq<ActualDependency>, i: nat, target: string, names: seq<string>)
    requires i < |actuals| && target == NormalizePath(actuals[i].target) && names == Normalized(actuals[i].dependencies)
    requires Compensating(Declarations(extra), Group(Detect(rules, actuals)))
    requires forall k :: 0 <= k < |extra| ==> '%' !in extra[k].target
    ensures var grouped := Group(Detect(rules, actuals));
            MissingFor(rules + extra, actuals[i]) == [] <==>
            || target !in grouped
            || forall k :: 0 <= k < |names| ==> names[k] in DeclaredOr(Declarations(rules), target) + grouped[target]
  {
    var grouped, a := Group(Detect(rules, actuals)), actuals[i];
    DeclaredByRepaired(rules, extra, grouped, target);
    if target in grouped {
      NothingMissing(DeclaredOr(Declarations(rules), target) + grouped[target], target, names, a.sourceFile);
    } else if Declared(rules, target).Some? {
      var declared := Declared(rules, target).value;
      forall k | 0 <= k < |names| ensures names[k] in declared {
        if names[k] !in declared { GroupedFor(rules, actuals, i, target, names[k]); }
      }
      NothingMissing(declared, target, names, a.sourceFile);
    }
  }

  /** After one round of repair a record has nothing missing if and only if one round is enough for it. */
  lemma RepairedExactly(rules: seq<MakeRule>, extra: seq<MakeRule>, actuals: seq<ActualDependency>, i: nat)
    requires i < |actuals| && Compensating(Declarations(extra), Group(Detect(rules, actuals)))
    requires forall k :: 0 <= k < |extra| ==> '%' !in extra[k].target
    ensures MissingFor(rules + extra, actuals[i]) == [] <==> OneRoundIsEnough(rules, actuals, actuals[i])
  {
    var a, target, names := actuals[i], NormalizePath(actuals[i].target), Normalized(actuals[i].dependencies);
    var missing := Detect(rules, actuals);
    var grouped, declared := Group(missing), Declared(rules, target);
    MissingAfterRepair(rules, extra, actuals, i, target, names);
    if target in grouped {
      GroupedIsNotEmpty(missing, target);
      var some :| some in grouped[target];
      var m := GroupedWasReported(missing, target, some);
      var j := ReportedFor(rules, actuals, m);
      forall k | 0 <= k < |names| ensures names[k] in grouped[target] <==> names[k] !in declared.value {
        if names[k] !in declared.value {
          GroupedFor(rules, actuals, i, target, names[k]);
        } else if names[k] in grouped[target] {
          var n := GroupedWasReported(missing, target, names[k]);
          var o := ReportedFor(rules, actuals, n);
        }
      }
    }
  }

  lemma PlainCompensationsHaveNoPercent(compensations: seq<Compensation>, number: nat, k: nat)
    requires PlainRules(compensations) && k < |compensations|
    ensures '%' !in RulesRead(compensations, 0, number)[k].target
  {
    assert PlainRule(compensations[0 + k]);
  }

  /** Reading the repaired Makefile back, the compensation rules declare what was missing. */
  lemma RepairedRules(content: string, actuals: seq<ActualDependency>, compensations: seq<Compensation>)
    returns (extra: seq<MakeRule>)
    requires Undisturbed(content) && forall i :: 0 <= i < |actuals| ==> PlainActual(actuals[i])
    requires Compensates(compensations, Group(Detect(Parse(content).rules, actuals)))
    ensures Parse(Repaired(content, compensations)).rules == Parse(content).rules + extra
    ensures Compensating(Declarations(extra), Group(Detect(Parse(content).rules, actuals)))
    ensures forall k :: 0 <= k < |extra| ==> '%' !in extra[k].target
  {
    var rules, number := Parse(content).rules, |Lines(content)| + 3;
    extra := RulesRead(compensations, 0, number);
    CompensationsArePlain(rules, actuals, compensations);
    RepairedParse(content, compensations);
    CompensationsDeclare(rules, actuals, compensations, number);
    forall k | 0 <= k < |extra| ensures '%' !in extra[k].target {
      PlainCompensationsHaveNoPercent(compensations, number, k);
    }
  }

  /**
    The whole round: parse, detect, repair, parse and detect again. A record has nothing missing any more exactly when
    one round is enough for it; in particular for every explicitly declared target.
   */
  lemma DetectAgain(content: string, actuals: seq<ActualDependency>, compensations: seq<Compensation>, i: nat)
    requires Undisturbed(content) && i < |actuals| && forall i :: 0 <= i < |actuals| ==> PlainActual(actuals[i])
    requires Compensates(compensations, Group(Detect(Parse(content).rules, actuals)))
    ensures MissingFor(Parse(Repaired(content, compensations)).rules, actuals[i]) == [] <==>
            OneRoundIsEnough(Parse(content).rules, actuals, actuals[i])
  {
    var extra := RepairedRules(content, actuals, compensations);
    RepairedExactly(Parse(content).rules, extra, actuals, i);
  }

  /** A report is empty exactly when no record has anything missing. */
  lemma EmptyReport(rules: seq<MakeRule>, actuals: seq<ActualDependency>)
    ensures Detect(rules, actuals) == [] <==> forall i :: 0 <= i < |actuals| ==> MissingFor(rules, actuals[i]) == []
  {
    ConcatenatedHas(Reports(rules, actuals), MissingDependency("", "", ""));
  }

  /** So the second detection reports nothing at all if and only if one round is enough for every record. */
  lemma NothingReportedAgain(content: string, actuals: seq<ActualDependency>, compensations: seq<Compensation>)
    requires Undisturbed(content) && forall i :: 0 <= i < |actuals| ==> PlainActual(actuals[i])
    requires Compensates(compensations, Group(Detect(Parse(content).rules, actuals)))
    ensures Detect(Parse(Repaired(content, compensations)).rules, actuals) == [] <==>
            forall i :: 0 <= i < |actuals| ==> OneRoundIsEnough(Parse(content).rules, actuals, actuals[i])
  {
    hide OneRoundIsEnough, Undisturbed, PlainActual, Compensates, MissingFor, Detect, Repaired, Parse;
    EmptyReport(Parse(Repaired(content, compensations)).rules, actuals);
    forall i | 0 <= i < |actuals|
      ensures MissingFor(Parse(Repaired(content, compensations)).rules, actuals[i]) == [] <==>
              OneRoundIsEnough(Parse(content).rules, actuals, actuals[i])
    {
      DetectAgain(content, actuals, compensations, i);
    }
  }

  // ---------------------------------------------------------------- and when it is not enough

  lemma OneLetterPath(name: string)
    requires |name| == 1 && name[0] != '/' && name[0] != '.' && !IsSpace(name[0])
    ensures NormalizePath(name) == name
  {
    StripBlankless(name);
    IndexIs(name, '/', 0, 1);
    assert name[..1] == name;
    assert PathParts(name) == [name];
  }

  lemma OneLetterIsOneLine(name: string)
    requires OneLetter(name)
    ensures '\n' !in name
  {
  }

  predicate OneLetter(name: string) { |name| == 1 && PlainChar(name[0]) && name[0] != '/' && name[0] != '.' }

  lemma EverythingPattern(rule: MakeRule, target: string, dependency: string)
    requires rule.target == "%" && rule.normal == [dependency] && OneLetter(dependency) && '\n' !in target
    ensures DeclaredByPattern([rule], target) == Some({dependency})
  {
    OneLetterPath(dependency);
    var pattern := rule.target;
    assert pattern[1..] == "" && Percents(pattern[1..]) == 0;
    IndexIs(pattern, '%', 0, 0);
    assert target[0..|target|] == target;
    assert MatchStem(pattern, target) == Some(target);
    assert dependency[1..] == "" && FillStem(dependency[1..], target) == "";
    assert FillStem(dependency, target) == dependency;
    assert rule.normal[1..] == [];
    assert FillAll(rule.normal, target) == [dependency];
    assert Normalized([dependency]) == [dependency];
    assert SetOf([dependency]) == {dependency};
  }

  lemma NothingExplicit(rule: MakeRule, target: string)
    requires rule.target == "%" && rule.target != target
    ensures DeclaredExplicitly(Declarations([rule]), target) == None
  {
    OneLetterPath(rule.target);
    var declarations := Declarations([rule]);
    assert declarations[..0] == [] && declarations[0].target != target;
  }

  lemma PatternHidden(rules: seq<MakeRule>, actuals: seq<ActualDependency>, a: ActualDependency, t: string, names: seq<string>)
    requires t == NormalizePath(a.target) && names == Normalized(a.dependencies) && |names| > 0
    requires DeclaredExplicitly(Declarations(rules), t).None? && t in Group(Detect(rules, actuals))
    requires DeclaredByPattern(rules, t).Some? && names[0] in DeclaredByPattern(rules, t).value
    ensures !OneRoundIsEnough(rules, actuals, a)
  {
  }

  /** A record of which one dependency is declared by pattern and another is missing. */
  lemma HalfDeclaredByPattern(rules: seq<MakeRule>, a: ActualDependency, t: string, b: string, c: string)
    requires t == NormalizePath(a.target) && Normalized(a.dependencies) == [b, c] && b != c
    requires DeclaredExplicitly(Declarations(rules), t).None? && DeclaredByPattern(rules, t) == Some({b})
    ensures !OneRoundIsEnough(rules, [a], a)
  {
    var actuals := [a];
    assert Declared(rules, t) == Some({b}) && c in [b, c];
    GroupedFor(rules, actuals, 0, t, c);
    PatternHidden(rules, actuals, a, t, [b, c]);
  }

  lemma TwoFixedNames(b: string, c: string)
    requires NormalizePath(b) == b && NormalizePath(c) == c
    ensures Normalized([b, c]) == [b, c]
  {
  }

  /**
    A target known only by a pattern rule can need a second round, because the added line hides the pattern: for
    any three one-letter names, one declared by the rule `%: b` and one missing.
   */
  lemma PatternsCanNeedASecondRound(rule: MakeRule, a: ActualDependency, b: string, c: string)
    requires rule.target == "%" && rule.normal == [b] && a.dependencies == [b, c] && b != c
    requires OneLetter(a.target) && OneLetter(b) && OneLetter(c)
    ensures !OneRoundIsEnough([rule], [a], a)
  {
    OneLetterPath(a.target);
    OneLetterPath(b);
    OneLetterPath(c);
    TwoFixedNames(b, c);
    OneLetterIsOneLine(a.target);
    hide NormalizePath, Declared, DeclaredByPattern, ResolvePattern, Detect, Group, MissingFor, OneRoundIsEnough, Declarations, DeclaredExplicitly, Normalized;
    EverythingPattern(rule, a.target, b);
    NothingExplicit(rule, a.target);
    HalfDeclaredByPattern([rule], a, a.target, b, c);
  }
}
