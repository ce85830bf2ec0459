/**
  When the old part of a repaired Makefile reads as it did: exactly when the logical line that still wants a continuation
  at its end, if there is one, is a comment, an assignment that has no effect, or a line that adds no rule or recipe.
 */
module RepairDisturbance {
  import opened Wrappers
  import opened Texts
  import opened Makefiles
  import opened DependencyRepair
  import opened MakefileText
  import opened MakefileExpansion
  import opened RepairedMakefile
  import opened RepairedParsing
  import opened DanglingTails
  import opened RuleSizes

  /** The line adds no rule, whatever prerequisites it names. */
  predicate AddsNothing(p: Parsing, s: string) {
    var targets := Words(Expand(Strip(s[..IndexFrom(s, ':', 0)]), p.variables));
    targets == [] || targets == [".PHONY"]
  }

  /** What the end of the line is does not matter. */
  predicate HarmlessLine(p: Parsing, s: string) {
    s == "" || s[0] == '#' ||
    match AssignmentOf(s)
    case Some(a) => a.operator == '?' && a.name in p.variables
    case None => '#' in s || ':' !in s || AddsNothing(p, s)
  }

  predicate Harmless(p: Parsing, recipe: bool, text: string) {
    if recipe then p.current == 0 else HarmlessLine(p, Strip(text))
  }

  /** No line dangles, or none whose end matters. */
  predicate Undisturbed(content: string) {
    var lines := Lines(content);
    var (d, p) := DanglingAt(lines, 0, Parsing(map[], [], 0));
    d == |lines| || Harmless(p, IsRecipe(lines[d]), DanglingText(lines, d))
  }

  /** The same variables, and after the closing expansion the same rules. */
  predicate SameReading(p: Parsing, q: Parsing) {
    p.variables == q.variables && ExpandRules(p.rules, p.variables) == ExpandRules(q.rules, q.variables)
  }

  // ---------------------------------------------------------------- rule lines

  lemma SizesTell(p: Parsing, q: Parsing, r: Parsing)
    requires q.variables == p.variables == r.variables && |q.rules| > |p.rules| && |r.rules| > |p.rules|
    requires Size(ExpandRules(q.rules, p.variables)[|p.rules|]) != Size(ExpandRules(r.rules, p.variables)[|p.rules|])
    ensures !SameReading(q, r)
  {
  }

  /** Prerequisites with a tail make other rules than those without it. */
  lemma TokensTell(p: Parsing, targets: seq<string>, text: string, tail: string, number: nat)
    requires targets != [] && Tail(tail)
    ensures !SameReading(p.WithRules(targets, Words(text + tail), number), p.WithRules(targets, Words(text), number))
  {
    hide ExpandRules, Held, Size, SameReading;
    var longer, shorter := Words(text + tail), Words(text);
    WordsGrow(text, tail, 0, p.variables);
    FirstRuleSize(p, targets, longer, number);
    FirstRuleSize(p, targets, shorter, number);
    SizesTell(p, p.WithRules(targets, longer, number), p.WithRules(targets, shorter, number));
  }

  lemma RuleOfParts(p: Parsing, s: string, number: nat, c: nat, targets: seq<string>, text: string)
    requires c < |s| && IndexFrom(s, ':', 0) == c && targets != [".PHONY"]
    requires Words(Expand(Strip(s[..c]), p.variables)) == targets && Expand(Strip(s[c + 1..]), p.variables) == text
    ensures p.AddRules(s, number) == p.WithRules(targets, Words(text), number)
  {
  }

  /** A line that adds rules adds others with the tail than without it. */
  lemma RuleLineDiffers(p: Parsing, s: string, r: string, w: string, number: nat)
    requires s == r + w && Tail(w) && Clean(r) && ':' in s && !AddsNothing(p, s)
    ensures !SameReading(p.AddRules(s, number), p.AddRules(r, number))
  {
    hide Strip, StripEnd, Expand, SameReading, Words, Parsing.AddRules, Parsing.WithRules;
    var c := IndexFrom(s, ':', 0);
    ColonInFront(s, r, w);
    var u := r[c + 1..];
    assert s[c + 1..] == u + w;
    StripEndOfTrimmed(u);
    var v := StripBeforeTail(u, w);
    TailIsInert(v);
    ExpandAppend(Strip(u), v, p.variables);
    var text := Expand(Strip(u), p.variables);
    var targets := Words(Expand(Strip(s[..c]), p.variables));
    RuleOfParts(p, s, number, c, targets, text + v);
    RuleOfParts(p, r, number, c, targets, text);
    TokensTell(p, targets, text, v, number);
  }

  lemma ColonInFront(s: string, r: string, w: string)
    requires s == r + w && Tail(w) && ':' in s
    ensures var c := IndexFrom(s, ':', 0); c < |r| && IndexFrom(r, ':', 0) == c && s[..c] == r[..c]
  {
    var c := IndexFrom(s, ':', 0);
    IndexSkips(s, ':', 0);
    var some :| 0 <= some < |s| && s[some] == ':';
    assert some >= c;
    forall j | |r| <= j < |s| ensures s[j] != ':' { assert s[j] == w[j - |r|]; }
    assert forall k :: 0 <= k <= c ==> s[k] == r[k];
    IndexIs(r, ':', 0, c);
  }

  // ---------------------------------------------------------------- whole lines

  lemma CommentCut(r: string, x: string)
    requires '#' in r
    ensures var n := IndexFrom(r, '#', 0); n < |r| && IndexFrom(r + x, '#', 0) == n && (r + x)[..n] == r[..n]
  {
    var n := IndexFrom(r, '#', 0);
    IndexSkips(r, '#', 0);
    var some :| 0 <= some < |r| && r[some] == '#';
    assert some >= n;
    assert forall k :: 0 <= k <= n ==> (r + x)[k] == r[k];
    IndexIs(r + x, '#', 0, n);
  }

  /** What is read as a rule once a comment at the end is cut off. */
  function Uncommented(s: string): string { StripEnd(s[..IndexFrom(s, '#', 0)]) }

  lemma UncommentedFront(r: string, w: string, comment: string)
    requires Clean(r) && Tail(w) && |comment| > 0 && comment[0] == '#'
    ensures Uncommented(r + w) == if '#' in r then Uncommented(r) else r + w
    ensures Uncommented(r + " " + comment) == Uncommented(r)
    ensures '#' !in r ==> Uncommented(r) == r
    ensures '#' in r + w <==> '#' in r
  {
    hide StripEnd;
    var s, t := r + w, r + " " + comment;
    TailHasNone(w);
    if '#' in r {
      CommentCut(r, w);
      CommentCut(r, " " + comment);
      assert t == r + (" " + comment);
    } else {
      IndexOfAbsent(r, '#');
      IndexOfAbsent(s, '#');
      assert r[..|r|] == r && s[..|s|] == s;
      StripEndOfTrimmed(r);
      StripEndOfTrimmed(s);
      assert t[|r| + 1] == comment[0];
      IndexIs(t, '#', 0, |r| + 1);
      assert t[..|r| + 1] == r + " ";
      StripEndAgain(r);
    }
  }

  lemma TailHasNone(w: string)
    requires Tail(w)
    ensures '#' !in w && ':' !in w
  {
  }

  lemma RuleLineReads(p: Parsing, s: string, number: nat)
    requires s != "" && s[0] != '#' && AssignmentOf(s).None?
    ensures p.LogicalLine(s, number) == p.(current := 0).AddRules(Uncommented(s), number)
  {
  }

  lemma NoColonAddsNothing(p: Parsing, s: string, number: nat)
    requires ':' !in s || AddsNothing(p, s)
    ensures SameReading(p.AddRules(s, number), p)
  {
    if ':' !in s {
      IndexOfAbsent(s, ':');
    } else {
      assert p.rules + [] == p.rules;
    }
  }

  lemma SameReadingTrans(a: Parsing, b: Parsing, c: Parsing)
    requires SameReading(a, b) && SameReading(b, c)
    ensures SameReading(a, c)
  {
  }

  lemma NoAssignmentEither(s: string, n: string, r: string)
    requires r <= s && r <= n && NoOperatorFrom(n, |r|) && AssignmentOf(s).None?
    ensures AssignmentOf(n).None?
  {
    if AssignmentOf(n).Some? {
      assert n[..|r|] == r == s[..|r|];
      var k := AssignmentWithin(n, s, |r|);
    }
  }

  lemma RuleLinesCompared(p: Parsing, s: string, n: string, r: string, w: string, comment: string, number: nat)
    requires s == r + w && Tail(w) && Clean(r) && r[0] != '#' && AssignmentOf(s).None? && AssignmentOf(n).None?
    requires (n == r || n == r + " " + comment) && |comment| > 0 && comment[0] == '#'
    ensures SameReading(p.LogicalLine(s, number), p.LogicalLine(n, number)) <==> HarmlessLine(p, s)
  {
    hide StripEnd, AssignmentOf, ExpandRules, Expand;
    var idle := p.(current := 0);
    RuleLineReads(p, s, number);
    RuleLineReads(p, n, number);
    UncommentedFront(r, w, comment);
    if '#' !in s {
      if ':' !in s || AddsNothing(p, s) {
        assert ':' in s ==> AddsNothing(idle, s);
        NoColonAddsNothing(idle, s, number);
        FrontAddsNothing(idle, s, r, w);
        NoColonAddsNothing(idle, r, number);
        SameReadingTrans(idle.AddRules(s, number), idle, idle.AddRules(r, number));
      } else {
        RuleLineDiffers(idle, s, r, w, number);
      }
    }
  }

  lemma FrontAddsNothing(p: Parsing, s: string, r: string, w: string)
    requires s == r + w && Tail(w) && (':' !in s || AddsNothing(p, s))
    ensures ':' !in r || AddsNothing(p, r)
  {
    if ':' in s { ColonInFront(s, r, w); }
  }

  lemma AssignmentsCompared(p: Parsing, s: string, n: string, r: string, w: string, comment: string, number: nat)
    requires s == r + w && Tail(w) && Clean(r) && r[0] != '#' && AssignmentOf(s).Some?
    requires (n == r || n == r + " " + comment) && IsComment(comment) && EndsInert(comment)
    ensures SameReading(p.LogicalLine(s, number), p.LogicalLine(n, number)) <==> HarmlessLine(p, s)
  {
    hide StripEnd, Strip, AssignmentOf, ExpandRules, Expand, NoOperatorFrom, OtherValue;
    var idle := p.(current := 0);
    NoOperatorInTail(r, w);
    assert s[..|r|] == r == n[..|r|];
    var k := AssignmentWithin(s, n, |r|);
    ValuesDiffer(r, k, w, comment);
    var a := AssignmentOf(s).value;
    if !(a.operator == '?' && a.name in p.variables) {
      AssignDiffers(idle, a, Strip(n[k..]));
    }
  }

  lemma NothingInFront(p: Parsing, w: string, n: string, comment: string, number: nat)
    requires Tail(w) && (n == "" || n == comment) && IsComment(comment)
    ensures HarmlessLine(p, w) && SameReading(p.LogicalLine(w, number), p.LogicalLine(n, number))
  {
    hide StripEnd, Strip, ExpandRules, Expand;
    TailHasNone(w);
    assert !StartsName(w[0]);
    RuleLineReads(p, w, number);
    IndexOfAbsent(w, '#');
    assert w[..|w|] == w;
    StripEndOfTrimmed(w);
    NoColonAddsNothing(p.(current := 0), w, number);
  }

  /** A line with a tail means the same as without it, or with the comment instead, exactly when it is harmless. */
  lemma LinesCompared(p: Parsing, s: string, n: string, r: string, w: string, comment: string, number: nat)
    requires s == r + w && Tail(w) && Trimmed(r) && (n == r || n == Commented(r, comment))
    requires IsComment(comment) && EndsInert(comment)
    ensures SameReading(p.LogicalLine(s, number), p.LogicalLine(n, number)) <==> HarmlessLine(p, s)
  {
    hide AssignmentOf, SameReading, NoOperatorFrom;
    if r == "" {
      assert s == w;
      NothingInFront(p, w, n, comment, number);
    } else if r[0] == '#' {
      CommentsCompared(p, s, n, number);
    } else if AssignmentOf(s).Some? {
      AssignmentsCompared(p, s, n, r, w, comment, number);
    } else {
      NoAssignmentInFront(s, n, r, comment);
      RuleLinesCompared(p, s, n, r, w, comment, number);
    }
  }

  lemma NoAssignmentInFront(s: string, n: string, r: string, comment: string)
    requires r <= s && (n == r || n == r + " " + comment) && |comment| > 0 && comment[0] == '#' && AssignmentOf(s).None?
    ensures AssignmentOf(n).None?
  {
    hide AssignmentOf;
    if n != r { NoOperatorInComment(r, comment); }
    NoAssignmentEither(s, n, r);
  }

  lemma CommentsCompared(p: Parsing, s: string, n: string, number: nat)
    requires s != "" && n != "" && s[0] == '#' && n[0] == '#'
    ensures HarmlessLine(p, s) && SameReading(p.LogicalLine(s, number), p.LogicalLine(n, number))
  {
  }

  // ---------------------------------------------------------------- recipes

  lemma {:induction false} ExpandAllAt(texts: seq<string>, variables: Variables)
    ensures |ExpandAll(texts, variables)| == |texts|
    ensures forall k :: 0 <= k < |texts| ==> ExpandAll(texts, variables)[k] == Expand(texts[k], variables)
  {
    if |texts| > 0 { ExpandAllAt(texts[1..], variables); }
  }

  lemma LastRecipe(p: Parsing, recipe: string)
    requires 0 < p.current && |p.rules| > 0
    ensures var q := p.AddRecipe(recipe); var n := |p.rules| - 1; var recipes := ExpandRules(q.rules, p.variables)[n].recipes;
            |recipes| > 0 && recipes[|recipes| - 1] == Expand(recipe, p.variables)
  {
    var q, n := p.AddRecipe(recipe), |p.rules| - 1;
    ExpandRulesAt(q.rules, p.variables, n);
    ExpandAllAt(q.rules[n].recipes, p.variables);
  }

  /** A recipe that ends in a backslash is another than one that ends in a blank, if there is a rule to receive it. */
  lemma RecipesCompared(p: Parsing, text: string, other: string)
    requires EndsInBackslash(text) && |other| > 0 && other[|other| - 1] == ' ' && p.current <= |p.rules|
    ensures SameReading(p.AddRecipe(text), p.AddRecipe(other)) <==> p.current == 0
  {
    hide Expand, ExpandRules;
    if p.current == 0 {
      assert p.AddRecipe(text).rules == p.rules == p.AddRecipe(other).rules;
    } else {
      ExpandKeepsLast(text, p.variables);
      ExpandKeepsLast(other, p.variables);
      LastRecipe(p, text);
      LastRecipe(p, other);
    }
  }

  lemma StepKeepsCurrent(lines: seq<string>, i: nat, p: Parsing)
    requires i < |lines| && p.current <= |p.rules|
    ensures var q := LineStep(lines, i, p).0; q.current <= |q.rules|
  {
  }

  lemma {:induction false} DanglingKeepsCurrent(lines: seq<string>, i: nat, p: Parsing)
    requires i <= |lines| && p.current <= |p.rules|
    ensures var q := DanglingAt(lines, i, p).1; q.current <= |q.rules|
    decreases |lines| - i
  {
    hide WantsMore, LineStep;
    if i < |lines| && !WantsMore(lines, i) {
      StepKeepsCurrent(lines, i, p);
      var (next, j) := LineStep(lines, i, p);
      DanglingKeepsCurrent(lines, j, next);
    }
  }

  // ---------------------------------------------------------------- the whole file

  /** The dangling line means the same with the section after it exactly when it is harmless. */
  lemma DanglingCompared(p: Parsing, recipe: bool, text: string, number: nat, comment: string)
    requires EndsInBackslash(if recipe then text else StripEnd(text)) && p.current <= |p.rules|
    requires IsComment(comment) && EndsInert(comment)
    ensures SameReading(Alone(p, recipe, text, number), Resumed(p, recipe, text, number, comment)) <==> Harmless(p, recipe, text)
  {
    hide SameReading, HarmlessLine, StripEnd, Strip, Continued;
    if recipe {
      RecipesCompared(p, text, Unescaped(text) + " ");
    } else {
      var r, w := FrontAndTail(text, comment);
      LinesCompared(p, Strip(text), Strip(Continued(text, comment)), r, w, comment, number);
    }
  }

  lemma OldPartCompared(content: string, comment: string)
    requires IsComment(comment) && EndsInert(comment)
    ensures SameReading(ParseFrom(Lines(content), 0, Parsing(map[], [], 0)), OldPart(Lines(content), comment)) <==>
            Undisturbed(content)
  {
    hide SameReading, Harmless, LineStep, DanglingAt, DanglingText, Alone, Resumed, WantsMore;
    var lines, p0 := Lines(content), Parsing(map[], [], 0);
    var start := DanglingAt(lines, 0, p0);
    var d, p := start.0, start.1;
    ParsesToDangling(lines, [], 0, p0);
    DanglingKeepsCurrent(lines, 0, p0);
    if d == |lines| {
      SameReadingSelf(p);
    } else {
      StepAlone(lines, d, p);
      DanglingCompared(p, IsRecipe(lines[d]), DanglingText(lines, d), d + 1, comment);
      ParseStep(lines, d, p, LineStep(lines, d, p).0, |lines|);
    }
  }

  lemma SameReadingSelf(p: Parsing)
    ensures SameReading(p, p)
  {
  }

  lemma RepairCommentEndsInert()
    ensures EndsInert(REPAIR_COMMENT)
  {
    assert REPAIR_COMMENT[|REPAIR_COMMENT| - 1] == 'n';
  }

  /** The repaired Makefile reads as the old one, followed by one recipe-free rule per compensated target. */
  ghost predicate ReadsOn(content: string, rules: seq<Compensation>) {
    && Parse(Repaired(content, rules)).variables == Parse(content).variables
    && Parse(Repaired(content, rules)).rules == Parse(content).rules + RulesRead(rules, 0, |Lines(content)| + 3)
  }

  lemma SuffixSame<T>(a: seq<T>, b: seq<T>, c: seq<T>)
    ensures a + c == b + c <==> a == b
  {
    if a + c == b + c {
      assert |a| == |b|;
      assert a == (a + c)[..|a|] && b == (b + c)[..|b|];
    }
  }

  lemma ReadsOnCompared(content: string, rules: seq<Compensation>, read: Parsing, kept: Parsing)
    requires |rules| > 0 && PlainRules(rules)
    requires read == ParseFrom(Lines(content), 0, Parsing(map[], [], 0)) && kept == OldPart(Lines(content), REPAIR_COMMENT)
    ensures ReadsOn(content, rules) <==> SameReading(read, kept)
  {
    hide OldPart, ParseFrom, ExpandRules, RulesRead;
    CompensationsAreAlwaysRead(content, rules);
    SuffixSame(ExpandRules(read.rules, read.variables), ExpandRules(kept.rules, kept.variables),
               RulesRead(rules, 0, |Lines(content)| + 3));
  }

  /**
    Parsing a repaired Makefile gives the original rules followed by one recipe-free rule per compensated target, and the
    variables unchanged, if and only if no logical line is left dangling or it is harmless.
   */
  lemma ReadsOnExactlyWhenUndisturbed(content: string, rules: seq<Compensation>)
    requires |rules| > 0 && PlainRules(rules)
    ensures ReadsOn(content, rules) <==> Undisturbed(content)
  {
    hide SameReading, ReadsOn, Undisturbed, ParseFrom, OldPart;
    RepairCommentIsComment();
    RepairCommentEndsInert();
    OldPartCompared(content, REPAIR_COMMENT);
    ReadsOnCompared(content, rules, ParseFrom(Lines(content), 0, Parsing(map[], [], 0)), OldPart(Lines(content), REPAIR_COMMENT));
  }

  /** In particular whenever no line dangles. */
  lemma {:induction false} SettledLeavesNothing(lines: seq<string>, i: nat, p: Parsing)
    requires i <= |lines|
    ensures SettledFrom(lines, i) <==> DanglingAt(lines, i, p).0 == |lines|
    decreases |lines| - i
  {
    hide WantsMore, LineStep;
    if i < |lines| && !WantsMore(lines, i) {
      StepUnmoved(lines, [], i, p);
      var (next, j) := LineStep(lines, i, p);
      SettledLeavesNothing(lines, j, next);
    }
  }

  lemma SettledIsUndisturbed(content: string)
    requires Settled(content)
    ensures Undisturbed(content)
  {
    hide Harmless, DanglingAt;
    SettledLeavesNothing(Lines(content), 0, Parsing(map[], [], 0));
  }

  lemma RepairedParse(content: string, rules: seq<Compensation>)
    requires Undisturbed(content) && PlainRules(rules)
    ensures ReadsOn(content, rules)
  {
    hide Undisturbed;
    if |rules| > 0 {
      ReadsOnExactlyWhenUndisturbed(content, rules);
    } else {
      assert RulesRead(rules, 0, |Lines(content)| + 3) == [];
    }
  }

  // ---------------------------------------------------------------- a file whose old part reads differently

  lemma DanglingRuleText(first: string, joined: string, lines: seq<string>)
    requires lines == [first, ""] && joined == "a: b \\ " && first == joined + "\\"
    ensures WantsMore(lines, 0) && DanglingText(lines, 0) == joined && Strip(joined) == "a: b \\"
  {
    var text := "a: b \\";
    StripEndOfTrimmed(first);
    assert DropLast(first) == joined && joined[..|joined| - 1] == text;
    StripEndOfTrimmed(text);
    assert StripEnd(joined) == text;
    StripOfBlank("");
    assert text + " " + "" == joined;
    assert LogicalText(lines, 0, first) == LogicalText(lines, 1, joined) == (joined, 1);
    CleanStays(text);
    StripCommutes(joined);
  }

  lemma DanglingRuleMatters(p: Parsing, text: string)
    requires text == "a: b \\"
    ensures !HarmlessLine(p, text)
  {
    assert text[0] == 'a' && text[1] == ':' && text[2] == ' ';
    assert IdentifierEnd(text, 0) == 1 && SkipSpace(text, 1) == 1;
    assert AssignmentOf(text).None?;
    IndexIs(text, ':', 0, 1);
    assert text[..1] == "a" && ':' in text && '#' !in text;
    assert Joined(["a"], " ") == "a";
    NamesRead(["a"], p.variables);
  }

  /**
    A rule left with two dangling backslashes and a blank last line: its prerequisite that is a lone backslash is gone
    after any repair.
   */
  lemma ADanglingRuleIsCutShort(rules: seq<Compensation>)
    requires |rules| > 0 && PlainRules(rules)
    ensures !ReadsOn("a: b \\ \\\n\n", rules)
  {
    hide ReadsOn, HarmlessLine;
    var first, content := "a: b \\ \\", "a: b \\ \\\n\n";
    var lines := [first, ""];
    assert content == first + "\n" + "\n" && "\n" == "" + "\n" + "";
    LinesOfLine("", "", "\n");
    LinesOfLine(first, "\n", content);
    assert Lines(content) == lines by { assert Lines("") == []; assert [first] + ([""] + []) == lines; }
    var joined := "a: b \\ ";
    assert first == joined + "\\";
    DanglingRuleText(first, joined, lines);
    DanglingRuleMatters(Parsing(map[], [], 0), "a: b \\");
    assert !IsRecipe(first);
    ReadsOnExactlyWhenUndisturbed(content, rules);
  }
}
