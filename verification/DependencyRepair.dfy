/**
  Missing dependencies: path normalization, pattern rules, the detector, and the compensation rules appended to a
  Makefile.
 */
module DependencyRepair {
  import opened Wrappers
  import opened Texts
  import opened Makefiles

  // ---------------------------------------------------------------- paths

  /** The pieces between slashes, without empty ones and single dots. */
  function PathParts(s: string): seq<string> {
    var n := IndexFrom(s, '/', 0);
    var part := s[..n];
    (if part == "" || part == "." then [] else [part]) + (if n == |s| then [] else PathParts(s[n + 1..]))
  }

  /** A POSIX path starts at the root, at the two-slash root, or nowhere. */
  function PathRoot(s: string): string {
    if |s| == 0 || s[0] != '/' then ""
    else if |s| >= 2 && s[1] == '/' && (|s| == 2 || s[2] != '/') then "//"
    else "/"
  }

  function PosixPath(s: string): string {
    var path := PathRoot(s) + Joined(PathParts(s), "/");
    if path == "" then "." else path
  }

  /** One leading `./` taken off. */
  function WithoutDot(s: string): string {
    if |s| >= 2 && s[0] == '.' && s[1] == '/' then s[2..] else s
  }

  function NormalizePath(value: string): string { PosixPath(WithoutDot(Strip(value))) }

  // ---------------------------------------------------------------- pattern rules

  function Percents(s: string): nat {
    if |s| == 0 then 0 else Percents(s[1..]) + if s[0] == '%' then 1 else 0
  }

  /** What the `%` of a one-`%` pattern stands for in the target; it never stands for a line break. */
  function MatchStem(pattern: string, target: string): Option<string> {
    if Percents(pattern) != 1 then None
    else
      var n := IndexFrom(pattern, '%', 0);
      if n == |pattern| then None
      else
        var prefix, suffix := pattern[..n], pattern[n + 1..];
        if |prefix| + |suffix| <= |target| && prefix <= target && EndsWith(target, suffix)
           && '\n' !in target[|prefix|..|target| - |suffix|]
        then Some(target[|prefix|..|target| - |suffix|]) else None
  }

  function FillStem(pattern: string, stem: string): string {
    if |pattern| == 0 then ""
    else (if pattern[0] == '%' then stem else [pattern[0]]) + FillStem(pattern[1..], stem)
  }

  function FillAll(patterns: seq<string>, stem: string): seq<string> {
    if |patterns| == 0 then [] else [FillStem(patterns[0], stem)] + FillAll(patterns[1..], stem)
  }

  /** The first pattern rule that matches, filled in. */
  function ResolvePattern(target: string, rules: seq<MakeRule>): Option<MakeRule> {
    if |rules| == 0 then None
    else
      match MatchStem(rules[0].target, target)
      case None => ResolvePattern(target, rules[1..])
      case Some(stem) =>
        Some(MakeRule(target, FillAll(rules[0].normal, stem), FillAll(rules[0].orderOnly, stem),
                      rules[0].recipes, rules[0].line))
  }

  // ---------------------------------------------------------------- detection

  datatype ActualDependency = ActualDependency(target: string, dependencies: seq<string>, sourceFile: string)

  datatype MissingDependency = MissingDependency(target: string, dependency: string, sourceFile: string)

  function Normalized(items: seq<string>): (r: seq<string>)
    ensures |r| == |items| && forall k :: 0 <= k < |items| ==> r[k] == NormalizePath(items[k])
  {
    seq(|items|, k requires 0 <= k < |items| => NormalizePath(items[k]))
  }

  function SetOf(items: seq<string>): set<string> { set item | item in items }

  /** What one rule declares, in normalized names. */
  datatype Declaration = Declaration(target: string, names: set<string>)

  function DeclarationOf(rule: MakeRule): Declaration {
    Declaration(NormalizePath(rule.target), SetOf(Normalized(rule.normal)))
  }

  function Declarations(rules: seq<MakeRule>): (r: seq<Declaration>)
    ensures |r| == |rules| && forall k :: 0 <= k < |rules| ==> r[k] == DeclarationOf(rules[k])
  {
    seq(|rules|, k requires 0 <= k < |rules| => DeclarationOf(rules[k]))
  }

  /** What is declared for a target by all its explicit lines together; None when there is none. */
  function DeclaredExplicitly(declarations: seq<Declaration>, target: string): Option<set<string>> {
    if |declarations| == 0 then None
    else
      var before := DeclaredExplicitly(declarations[..|declarations| - 1], target);
      var last := declarations[|declarations| - 1];
      if last.target != target then before
      else Some((if before.Some? then before.value else {}) + last.names)
  }

  /** A target without an explicit line gets what its first matching pattern rule declares. */
  function Declared(rules: seq<MakeRule>, target: string): Option<set<string>> {
    var explicit := DeclaredExplicitly(Declarations(rules), target);
    if explicit.Some? then explicit else DeclaredByPattern(rules, target)
  }

  function DeclaredByPattern(rules: seq<MakeRule>, target: string): Option<set<string>> {
    match ResolvePattern(target, rules)
    case None => None
    case Some(rule) => Some(SetOf(Normalized(rule.normal)))
  }

  function MissingOf(declared: set<string>, target: string, names: seq<string>, source: string): seq<MissingDependency> {
    if |names| == 0 then []
    else
      var before, name := MissingOf(declared, target, names[..|names| - 1], source), names[|names| - 1];
      if name in declared then before else before + [MissingDependency(target, name, source)]
  }

  function MissingFor(rules: seq<MakeRule>, actual: ActualDependency): seq<MissingDependency> {
    var target := NormalizePath(actual.target);
    match Declared(rules, target)
    case None => []
    case Some(declared) => MissingOf(declared, target, Normalized(actual.dependencies), actual.sourceFile)
  }

  function Reports(rules: seq<MakeRule>, actuals: seq<ActualDependency>): (r: seq<seq<MissingDependency>>)
    ensures |r| == |actuals| && forall k :: 0 <= k < |actuals| ==> r[k] == MissingFor(rules, actuals[k])
  {
    seq(|actuals|, k requires 0 <= k < |actuals| => MissingFor(rules, actuals[k]))
  }

  function Concatenated(reports: seq<seq<MissingDependency>>): seq<MissingDependency> {
    if |reports| == 0 then [] else Concatenated(reports[..|reports| - 1]) + reports[|reports| - 1]
  }

  /** Everything that is missing, record by record. */
  function Detect(rules: seq<MakeRule>, actuals: seq<ActualDependency>): seq<MissingDependency> {
    Concatenated(Reports(rules, actuals))
  }

  method BuildDeclaredMap(declarations: seq<Declaration>) returns (declared: map<string, set<string>>)
    ensures forall t :: t in declared <==> DeclaredExplicitly(declarations, t).Some?
    ensures forall t <- declared :: declared[t] == DeclaredExplicitly(declarations, t).value
  {
    declared := map[];
    for n := 0 to |declarations|
      invariant forall t :: t in declared <==> DeclaredExplicitly(declarations[..n], t).Some?
      invariant forall t <- declared :: declared[t] == DeclaredExplicitly(declarations[..n], t).value
    {
      assert declarations[..n + 1][..n] == declarations[..n];
      var Declaration(target, names) := declarations[n];
      if target !in declared {
        declared := declared[target := {}];
      }
      declared := declared[target := declared[target] + names];
    }
    assert declarations[..|declarations|] == declarations;
  }

  method CompareDependencies(declared: set<string>, target: string, actual: ActualDependency)
    returns (missing: seq<MissingDependency>)
    ensures missing == MissingOf(declared, target, Normalized(actual.dependencies), actual.sourceFile)
  {
    missing := [];
    ghost var names := Normalized(actual.dependencies);
    for k := 0 to |actual.dependencies|
      invariant missing == MissingOf(declared, target, names[..k], actual.sourceFile)
    {
      assert names[..k + 1][..k] == names[..k];
      var dependency := NormalizePath(actual.dependencies[k]);
      if dependency !in declared {
        missing := missing + [MissingDependency(target, dependency, actual.sourceFile)];
      }
    }
    assert names[..|names|] == names;
  }

  /** The map holds what is declared for some targets, among them all explicit ones. */
  ghost predicate Remembers(declaredMap: map<string, set<string>>, rules: seq<MakeRule>) {
    && (forall t <- declaredMap :: Declared(rules, t) == Some(declaredMap[t]))
    && forall t :: DeclaredExplicitly(Declarations(rules), t).Some? ==> t in declaredMap
  }

  method DetectFor(rules: seq<MakeRule>, known: map<string, set<string>>, actual: ActualDependency)
    returns (declaredMap: map<string, set<string>>, missing: seq<MissingDependency>)
    requires Remembers(known, rules)
    ensures Remembers(declaredMap, rules) && missing == MissingFor(rules, actual)
  {
    declaredMap := known;
    var target := NormalizePath(actual.target);
    if target !in declaredMap {
      var resolved := ResolvePattern(target, rules);
      if resolved.None? {
        return declaredMap, [];
      }
      declaredMap := declaredMap[target := SetOf(Normalized(resolved.value.normal))];
    }
    missing := CompareDependencies(declaredMap[target], target, actual);
  }

  /** The detector: the map it fills with resolved patterns on the way changes nothing it reports. */
  method DetectMissing(rules: seq<MakeRule>, actuals: seq<ActualDependency>) returns (missing: seq<MissingDependency>)
    ensures missing == Detect(rules, actuals)
  {
    var declaredMap := BuildDeclaredMap(Declarations(rules));
    missing := [];
    ghost var reports := Reports(rules, actuals);
    for n := 0 to |actuals|
      invariant missing == Concatenated(reports[..n]) && Remembers(declaredMap, rules)
    {
      assert reports[..n + 1][..n] == reports[..n];
      var found;
      declaredMap, found := DetectFor(rules, declaredMap, actuals[n]);
      missing := missing + found;
    }
    assert reports[..|actuals|] == reports;
  }

  // ---------------------------------------------------------------- repair

  const REPAIR_COMMENT: string := "# Auto-generated dependency compensation"

  type Grouped = map<string, set<string>>

  /** What is missing, by target. */
  function Group(missing: seq<MissingDependency>): Grouped {
    if |missing| == 0 then map[]
    else
      var before, item := Group(missing[..|missing| - 1]), missing[|missing| - 1];
      before[item.target := (if item.target in before then before[item.target] else {}) + {item.dependency}]
  }

  method GroupDependencies(missing: seq<MissingDependency>) returns (grouped: Grouped)
    ensures grouped == Group(missing)
  {
    grouped := map[];
    for n := 0 to |missing|
      invariant grouped == Group(missing[..n])
    {
      assert missing[..n + 1][..n] == missing[..n];
      var item := missing[n];
      if item.target !in grouped {
        grouped := grouped[item.target := {}];
      }
      grouped := grouped[item.target := grouped[item.target] + {item.dependency}];
    }
    assert missing[..|missing|] == missing;
  }

  /** Strings in order of their characters, as Python compares them. */
  predicate Before(a: string, b: string) {
    if |b| == 0 then false
    else if |a| == 0 then true
    else if a[0] != b[0] then a[0] < b[0]
    else Before(a[1..], b[1..])
  }

  ghost predicate Ascending(items: seq<string>) {
    forall i, j :: 0 <= i < j < |items| ==> Before(items[i], items[j])
  }

  /** The items of the set, each once, in ascending order. */
  ghost predicate IsListing(items: seq<string>, s: set<string>) {
    Ascending(items) && forall x :: x in items <==> x in s
  }

  lemma {:induction false} BeforeTrans(a: string, b: string, c: string)
    requires Before(a, b) && Before(b, c)
    ensures Before(a, c)
    decreases |a|
  {
    if |a| > 0 && a[0] == b[0] == c[0] {
      BeforeTrans(a[1..], b[1..], c[1..]);
    }
  }

  lemma {:induction false} BeforeTotal(a: string, b: string)
    ensures a == b || Before(a, b) || Before(b, a)
    ensures !(Before(a, b) && Before(b, a)) && !Before(a, a)
    decreases |a|
  {
    if |a| > 0 && |b| > 0 {
      BeforeTotal(a[1..], b[1..]);
      BeforeTotal(a[1..], a[1..]);
      assert a == [a[0]] + a[1..] && b == [b[0]] + b[1..];
    } else if |a| > 0 {
      BeforeTotal(a[1..], a[1..]);
    }
  }

  method Sorted(s: set<string>) returns (items: seq<string>)
    ensures IsListing(items, s)
  {
    items := [];
    var left := s;
    while left != {}
      invariant left <= s && IsListing(items, s - left)
      decreases |left|
    {
      var x :| x in left;
      items := InsertSorted(items, x);
      left := left - {x};
    }
  }

  method InsertSorted(items: seq<string>, x: string) returns (r: seq<string>)
    requires Ascending(items) && x !in items
    ensures Ascending(r) && forall y :: y in r <==> y in items || y == x
  {
    var n := 0;
    while n < |items| && Before(items[n], x)
      invariant 0 <= n <= |items| && forall i :: 0 <= i < n ==> Before(items[i], x)
    {
      n := n + 1;
    }
    forall i | n <= i < |items| ensures Before(x, items[i]) {
      BeforeTotal(items[n], x);
      if i > n { BeforeTrans(x, items[n], items[i]); }
    }
    r := items[..n] + [x] + items[n..];
  }

  /** One appended rule: a target and its missing dependencies. */
  datatype Compensation = Compensation(target: string, dependencies: seq<string>)

  function RuleLine(c: Compensation): string { c.target + ": " + Joined(c.dependencies, " ") }

  function RuleLines(rules: seq<Compensation>): string {
    if |rules| == 0 then "" else RuleLines(rules[..|rules| - 1]) + RuleLine(rules[|rules| - 1]) + "\n"
  }

  function Terminated(content: string): string {
    if |content| > 0 && content[|content| - 1] != '\n' then content + "\n" else content
  }

  function AppendedText(comment: string, rules: seq<Compensation>): string { "\n" + (comment + "\n" + RuleLines(rules)) }

  /** The Makefile with a blank line, a comment and the compensation rules at its end. */
  function Repaired(content: string, rules: seq<Compensation>): string {
    if |rules| == 0 then content else Terminated(content) + AppendedText(REPAIR_COMMENT, rules)
  }

  /** The compensation rules for what is missing: one per target, sorted, each with its sorted dependencies. */
  ghost predicate Compensates(rules: seq<Compensation>, grouped: Grouped) {
    && Ascending(seq(|rules|, i requires 0 <= i < |rules| => rules[i].target))
    && (forall t :: t in grouped <==> exists i :: 0 <= i < |rules| && rules[i].target == t)
    && forall i :: 0 <= i < |rules| ==>
         rules[i].target in grouped && IsListing(rules[i].dependencies, grouped[rules[i].target])
  }

  method AppendRules(head: string, targets: seq<string>, grouped: Grouped) returns (r: string, rules: seq<Compensation>)
    requires forall t <- targets :: t in grouped
    ensures |rules| == |targets| && r == head + RuleLines(rules)
    ensures forall i :: 0 <= i < |rules| ==>
              rules[i].target == targets[i] && IsListing(rules[i].dependencies, grouped[targets[i]])
  {
    r, rules := head, [];
    for n := 0 to |targets|
      invariant |rules| == n && r == head + RuleLines(rules)
      invariant forall i :: 0 <= i < n ==>
                  rules[i].target == targets[i] && IsListing(rules[i].dependencies, grouped[targets[i]])
    {
      var dependencies := Sorted(grouped[targets[n]]);
      var before, c := rules, Compensation(targets[n], dependencies);
      rules := before + [c];
      assert rules[..n] == before;
      r := r + (targets[n] + ": " + Joined(dependencies, " ") + "\n");
      assert r == head + (RuleLines(before) + RuleLine(c) + "\n");
    }
  }

  method AppendSection(content: string, comment: string, targets: seq<string>, grouped: Grouped)
    returns (r: string, rules: seq<Compensation>)
    requires forall t <- targets :: t in grouped
    ensures |rules| == |targets| && r == Terminated(content) + AppendedText(comment, rules)
    ensures forall i :: 0 <= i < |rules| ==>
              rules[i].target == targets[i] && IsListing(rules[i].dependencies, grouped[targets[i]])
  {
    r := content;
    if |r| > 0 && r[|r| - 1] != '\n' {
      r := r + "\n";
    }
    r := r + "\n" + (comment + "\n");
    r, rules := AppendRules(r, targets, grouped);
  }

  method AppendCompensationRules(content: string, grouped: Grouped) returns (r: string)
    ensures exists rules :: Compensates(rules, grouped) && r == Repaired(content, rules)
    ensures content <= r && (r == content <==> grouped == map[])
  {
    if |grouped| == 0 {
      assert grouped.Keys == {};
      assert Compensates([], grouped);
      return content;
    }
    ghost var some :| some in grouped.Keys;
    var targets := Sorted(grouped.Keys);
    assert some in targets;
    var rules;
    r, rules := AppendSection(content, REPAIR_COMMENT, targets, grouped);
    TargetsCompensate(rules, targets, grouped);
    assert r == Repaired(content, rules);
    RepairOnlyAdds(content, rules);
  }

  /** Nothing of the Makefile is lost, and only where there is nothing to repair nothing is added. */
  lemma RepairOnlyAdds(content: string, rules: seq<Compensation>)
    ensures content <= Repaired(content, rules)
    ensures Repaired(content, rules) == content <==> rules == []
  {
    assert Repaired(content, []) == content;
    if |rules| > 0 { assert |Repaired(content, rules)| > |content|; }
  }

  lemma TargetsCompensate(rules: seq<Compensation>, targets: seq<string>, grouped: Grouped)
    requires IsListing(targets, grouped.Keys) && |rules| == |targets|
    requires forall i :: 0 <= i < |rules| ==>
               rules[i].target == targets[i] && targets[i] in grouped && IsListing(rules[i].dependencies, grouped[targets[i]])
    ensures Compensates(rules, grouped)
  {
    forall t ensures t in grouped <==> exists i :: 0 <= i < |rules| && rules[i].target == t {
      assert t in targets <==> t in grouped.Keys;
    }
  }

  lemma {:induction false} ListingIsUnique(a: seq<string>, b: seq<string>)
    requires Ascending(a) && Ascending(b) && forall x :: x in a <==> x in b
    ensures a == b
    decreases |a|
  {
    assert |a| > 0 ==> a[0] in b;
    assert |b| > 0 ==> b[0] in a;
    if |a| > 0 && |b| > 0 {
      BeforeTotal(a[0], b[0]);
      forall x ensures x in a[1..] <==> x in b[1..] {
        NotAgain(a, x);
        NotAgain(b, x);
      }
      ListingIsUnique(a[1..], b[1..]);
      assert a == [a[0]] + a[1..] && b == [b[0]] + b[1..];
    }
  }

  lemma NotAgain(items: seq<string>, x: string)
    requires Ascending(items) && |items| > 0
    ensures x in items[1..] <==> x in items && x != items[0]
  {
    BeforeTotal(items[0], items[0]);
  }

  /** What is missing fixes the compensation rules, and so the repaired text. */
  lemma CompensationsAreUnique(a: seq<Compensation>, b: seq<Compensation>, grouped: Grouped)
    requires Compensates(a, grouped) && Compensates(b, grouped)
    ensures a == b
  {
    var s := seq(|a|, i requires 0 <= i < |a| => a[i].target);
    var t := seq(|b|, i requires 0 <= i < |b| => b[i].target);
    forall x ensures x in s <==> x in t {
      if x in s {
        var i :| 0 <= i < |a| && s[i] == x;
        assert a[i].target in grouped;
        var j :| 0 <= j < |b| && b[j].target == x;
        assert t[j] == x;
      }
      if x in t {
        var j :| 0 <= j < |b| && t[j] == x;
        assert b[j].target in grouped;
        var i :| 0 <= i < |a| && a[i].target == x;
        assert s[i] == x;
      }
    }
    ListingIsUnique(s, t);
    assert |a| == |s| && |b| == |t|;
    forall i | 0 <= i < |a| ensures a[i] == b[i] {
      assert s[i] == t[i];
      ListingIsUnique(a[i].dependencies, b[i].dependencies);
    }
  }
}
