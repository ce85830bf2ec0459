/**
  The appended section of a repaired Makefile: it reads back as exactly the compensation rules, and it starts on a line of
  its own exactly when the old file leaves no logical line wanting a continuation.
 */
module RepairedMakefile {
  import opened Wrappers
  import opened Texts
  import opened Makefiles
  import opened DependencyRepair
  import opened MakefileText

  /** A file name without blanks or characters that mean something to the parser. */
  predicate PlainChar(c: char) { TokenChar(c) && c != '|' && c != '%' }

  predicate PlainName(s: string) {
    |s| > 0 && forall k :: 0 <= k < |s| ==> PlainChar(s[k])
  }

  predicate PlainNames(names: seq<string>) {
    forall k :: 0 <= k < |names| ==> PlainName(names[k])
  }

  predicate PlainRule(c: Compensation) {
    PlainName(c.target) && c.target != ".PHONY" && |c.dependencies| > 0 && PlainNames(c.dependencies)
  }

  predicate PlainRules(rules: seq<Compensation>) {
    forall k :: 0 <= k < |rules| ==> PlainRule(rules[k])
  }

  // ---------------------------------------------------------------- physical lines

  lemma {:induction false} LinesOfTerminated(content: string)
    ensures Lines(Terminated(content)) == Lines(content)
    decreases |content|
  {
    if |content| > 0 && content[|content| - 1] != '\n' {
      var n := IndexFrom(content, '\n', 0);
      IndexSkips(content, '\n', 0);
      var s := content + "\n";
      assert forall j :: 0 <= j < |content| ==> s[j] == content[j];
      IndexIs(s, '\n', 0, n);
      assert s[..n] == content[..n];
      if n < |content| {
        assert n + 1 < |content|;
        var rest := content[n + 1..];
        assert s[n + 1..] == rest + "\n";
        LinesOfTerminated(rest);
      } else {
        assert s[n + 1..] == "";
      }
    }
  }

  function RuleTexts(rules: seq<Compensation>): (r: seq<string>)
    ensures |r| == |rules| && forall k :: 0 <= k < |r| ==> r[k] == RuleLine(rules[k])
  {
    if |rules| == 0 then [] else RuleTexts(rules[..|rules| - 1]) + [RuleLine(rules[|rules| - 1])]
  }

  lemma RuleLineHasNoBreak(c: Compensation)
    requires PlainRule(c)
    ensures '\n' !in RuleLine(c) && '=' !in RuleLine(c) && '#' !in RuleLine(c)
  {
    JoinedHasNoBreak(c.dependencies);
  }

  lemma {:induction false} LinesOfRules(rules: seq<Compensation>)
    requires PlainRules(rules)
    ensures Lines(RuleLines(rules)) == RuleTexts(rules)
    ensures RuleLines(rules) == "" || RuleLines(rules)[|RuleLines(rules)| - 1] == '\n'
  {
    if |rules| > 0 {
      var init, last := rules[..|rules| - 1], rules[|rules| - 1];
      var line := RuleLine(last) + "\n";
      LinesOfRules(init);
      RuleLineHasNoBreak(last);
      LinesOfLine(RuleLine(last), "", line);
      assert RuleLines(rules) == RuleLines(init) + line;
      LinesSplit(RuleLines(init), line);
    }
  }

  /** A one-line comment. */
  predicate IsComment(s: string) { '\n' !in s && Clean(s) && s[0] == '#' && !EndsInBackslash(s) }

  lemma RepairCommentIsComment()
    ensures IsComment(REPAIR_COMMENT)
  {
    assert REPAIR_COMMENT[|REPAIR_COMMENT| - 1] == 'n';
  }

  lemma LinesOfBlank(body: string)
    ensures Lines("\n" + body) == [""] + Lines(body)
  {
    LinesOfLine("", body, "\n" + body);
  }

  lemma LinesOfSection(comment: string, texts: string, body: string)
    requires IsComment(comment) && body == comment + "\n" + texts
    ensures Lines("\n" + body) == ["", comment] + Lines(texts)
  {
    LinesOfLine(comment, texts, body);
    LinesOfBlank(body);
    ConcatAssociates([""], [comment], Lines(texts));
  }

  lemma LinesOfAppended(comment: string, rules: seq<Compensation>)
    requires IsComment(comment) && PlainRules(rules)
    ensures Lines(AppendedText(comment, rules)) == ["", comment] + RuleTexts(rules)
  {
    LinesOfRules(rules);
    LinesOfSection(comment, RuleLines(rules), comment + "\n" + RuleLines(rules));
  }

  /** The lines of a repaired Makefile: the old ones, a blank one, the comment, and one per rule. */
  lemma LinesOfRepaired(content: string, comment: string, rules: seq<Compensation>)
    requires IsComment(comment) && PlainRules(rules)
    ensures Lines(Terminated(content) + AppendedText(comment, rules)) ==
            Lines(content) + (["", comment] + RuleTexts(rules))
  {
    LinesOfTerminated(content);
    LinesSplit(Terminated(content), AppendedText(comment, rules));
    LinesOfAppended(comment, rules);
  }

  // ---------------------------------------------------------------- the old lines parse as before

  /** The logical line that starts at line `i` is still looking for a continuation when the lines run out. */
  predicate WantsMore(lines: seq<string>, i: nat)
    requires i < |lines|
  {
    if IsRecipe(lines[i]) then
      var (text, j) := RecipeText(lines, i, Strip(lines[i][1..]));
      j + 1 == |lines| && EndsInBackslash(text)
    else
      var (text, j) := LogicalText(lines, i, lines[i]);
      j + 1 == |lines| && EndsInBackslash(StripEnd(text))
  }

  function NextLine(lines: seq<string>, i: nat): (r: nat)
    requires i < |lines|
    ensures i < r <= |lines|
  {
    LineStep(lines, i, Parsing(map[], [], 0)).1
  }

  /** No logical line is left looking for a continuation at the end of the file. */
  predicate SettledFrom(lines: seq<string>, i: nat)
    decreases |lines| - i
  {
    i >= |lines| || (!WantsMore(lines, i) && SettledFrom(lines, NextLine(lines, i)))
  }

  predicate Settled(content: string) { SettledFrom(Lines(content), 0) }

  lemma {:induction false} RecipeUnmoved(lines: seq<string>, more: seq<string>, i: nat, text: string)
    requires i < |lines|
    requires var r := RecipeText(lines, i, text); !(r.1 + 1 == |lines| && EndsInBackslash(r.0))
    ensures RecipeText(lines + more, i, text) == RecipeText(lines, i, text)
    decreases |lines| - i
  {
    if EndsInBackslash(text) && i + 1 < |lines| {
      RecipeUnmoved(lines, more, i + 1, StripEnd(DropLast(text)) + " " + StripStart(lines[i + 1]));
    }
  }

  lemma {:induction false} LogicalUnmoved(lines: seq<string>, more: seq<string>, i: nat, text: string)
    requires i < |lines|
    requires var r := LogicalText(lines, i, text); !(r.1 + 1 == |lines| && EndsInBackslash(StripEnd(r.0)))
    ensures LogicalText(lines + more, i, text) == LogicalText(lines, i, text)
    decreases |lines| - i
  {
    if EndsInBackslash(StripEnd(text)) && i + 1 < |lines| {
      LogicalUnmoved(lines, more, i + 1, StripEnd(DropLast(StripEnd(text))) + " " + Strip(lines[i + 1]));
    }
  }

  lemma StepUnmoved(lines: seq<string>, more: seq<string>, i: nat, p: Parsing)
    requires i < |lines| && !WantsMore(lines, i)
    ensures LineStep(lines + more, i, p) == LineStep(lines, i, p) && LineStep(lines, i, p).1 == NextLine(lines, i)
  {
    assert (lines + more)[i] == lines[i];
    if IsRecipe(lines[i]) {
      RecipeUnmoved(lines, more, i, Strip(lines[i][1..]));
    } else {
      LogicalUnmoved(lines, more, i, lines[i]);
    }
  }

  /** A logical line starts at line `i`, counting from one that starts at `from`. */
  predicate StartsAt(lines: seq<string>, from: nat, i: nat)
    decreases |lines| - from
  {
    from == i || (from < i && from < |lines| && StartsAt(lines, NextLine(lines, from), i))
  }

  lemma {:induction false} RecipeGoesOn(lines: seq<string>, more: seq<string>, i: nat, text: string)
    requires i < |lines| && |more| > 0
    requires var r := RecipeText(lines, i, text); r.1 + 1 == |lines| && EndsInBackslash(r.0)
    ensures RecipeText(lines + more, i, text).1 >= |lines|
    decreases |lines| - i
  {
    if i + 1 < |lines| {
      assert (lines + more)[i + 1] == lines[i + 1];
      RecipeGoesOn(lines, more, i + 1, StripEnd(DropLast(text)) + " " + StripStart(lines[i + 1]));
    }
  }

  lemma {:induction false} LogicalGoesOn(lines: seq<string>, more: seq<string>, i: nat, text: string)
    requires i < |lines| && |more| > 0
    requires var r := LogicalText(lines, i, text); r.1 + 1 == |lines| && EndsInBackslash(StripEnd(r.0))
    ensures LogicalText(lines + more, i, text).1 >= |lines|
    decreases |lines| - i
  {
    if i + 1 < |lines| {
      assert (lines + more)[i + 1] == lines[i + 1];
      LogicalGoesOn(lines, more, i + 1, StripEnd(DropLast(StripEnd(text))) + " " + Strip(lines[i + 1]));
    }
  }

  /** Appended text starts on a line of its own if and only if the file is settled. */
  lemma {:induction false} FreshStartExactlyWhenSettled(lines: seq<string>, more: seq<string>, i: nat)
    requires i <= |lines| && |more| > 0
    ensures StartsAt(lines + more, i, |lines|) <==> SettledFrom(lines, i)
    decreases |lines| - i
  {
    if i < |lines| {
      assert (lines + more)[i] == lines[i];
      if WantsMore(lines, i) {
        if IsRecipe(lines[i]) {
          RecipeGoesOn(lines, more, i, Strip(lines[i][1..]));
        } else {
          LogicalGoesOn(lines, more, i, lines[i]);
        }
      } else {
        StepUnmoved(lines, more, i, Parsing(map[], [], 0));
        FreshStartExactlyWhenSettled(lines, more, NextLine(lines, i));
      }
    }
  }

  /** Not blank, and not ending in a backslash. */
  predicate EndsPlainly(line: string) { |StripEnd(line)| > 0 && !EndsInBackslash(StripEnd(line)) }

  lemma {:induction false} StripEndCases(s: string)
    ensures StripEnd(s) <= s
    ensures |StripEnd(s)| > 0 ==> !IsSpace(StripEnd(s)[|StripEnd(s)| - 1])
    ensures forall k :: |StripEnd(s)| <= k < |s| ==> IsSpace(s[k])
  {
    if |s| > 0 && IsSpace(s[|s| - 1]) { StripEndCases(s[..|s| - 1]); }
  }

  lemma {:induction false} SkipSpaceSkips(s: string, p: nat)
    requires p <= |s|
    ensures forall k :: p <= k < SkipSpace(s, p) ==> IsSpace(s[k])
    decreases |s| - p
  {
    if p < |s| && IsSpace(s[p]) { SkipSpaceSkips(s, p + 1); }
  }

  /** The end of a text decides how its right-stripped form ends. */
  lemma {:induction false} StripEndOfSum(a: string, b: string)
    requires |StripEnd(b)| > 0
    ensures StripEnd(a + b) == a + StripEnd(b)
    decreases |b|
  {
    if IsSpace(b[|b| - 1]) {
      assert (a + b)[..|a + b| - 1] == a + b[..|b| - 1];
      StripEndOfSum(a, b[..|b| - 1]);
    }
  }

  /** A text that is not blank keeps its end when the blanks at its start go. */
  lemma StripStartShape(line: string)
    requires |StripEnd(line)| > 0
    ensures |StripEnd(StripStart(line))| > 0
    ensures StripEnd(line) == line[..SkipSpace(line, 0)] + StripEnd(StripStart(line))
  {
    SkipSpaceSkips(line, 0);
    StripEndCases(line);
    StripEndCases(StripStart(line));
    var n := SkipSpace(line, 0);
    assert n < |StripEnd(line)| by {
      assert !IsSpace(line[|StripEnd(line)| - 1]);
    }
    assert line == line[..n] + StripStart(line);
    assert !IsSpace(StripStart(line)[0]);
    StripEndOfSum(line[..n], StripStart(line));
  }

  lemma PlainEndHasNoBackslash(line: string)
    requires EndsPlainly(line)
    ensures |line| > 0 && !EndsInBackslash(line)
  {
    StripEndCases(line);
  }

  lemma StripStartEndsPlainly(line: string)
    requires EndsPlainly(line)
    ensures EndsPlainly(StripStart(line)) && !EndsInBackslash(StripStart(line)) && StripStart(line) != ""
  {
    StripStartShape(line);
    PlainEndHasNoBackslash(StripStart(line));
  }

  lemma StripEndsPlainly(line: string)
    requires EndsPlainly(line)
    ensures EndsPlainly(Strip(line))
  {
    StripStartEndsPlainly(line);
    StripEndCases(StripStart(line));
    var s := Strip(line);
    assert StripEnd(s) == s;
  }

  lemma RecipeEndsPlainly(line: string)
    requires EndsPlainly(line) && IsRecipe(line)
    ensures EndsPlainly(line[1..])
  {
    StripEndCases(line);
    StripEndCases(line[1..]);
    assert line == line[..1] + line[1..];
    assert line[|StripEnd(line)| - 1] != '\t';
    if |StripEnd(line[1..])| > 0 { StripEndOfSum(line[..1], line[1..]); }
  }

  lemma {:induction false} RecipeSettles(lines: seq<string>, i: nat, text: string)
    requires i < |lines| && EndsPlainly(lines[|lines| - 1])
    requires i == |lines| - 1 ==> !EndsInBackslash(text)
    ensures var r := RecipeText(lines, i, text); !(r.1 + 1 == |lines| && EndsInBackslash(r.0))
    decreases |lines| - i
  {
    if EndsInBackslash(text) && i + 1 < |lines| {
      if i + 1 == |lines| - 1 { StripStartEndsPlainly(lines[i + 1]); }
      RecipeSettles(lines, i + 1, StripEnd(DropLast(text)) + " " + StripStart(lines[i + 1]));
    }
  }

  lemma {:induction false} LogicalSettles(lines: seq<string>, i: nat, text: string)
    requires i < |lines| && EndsPlainly(lines[|lines| - 1])
    requires i == |lines| - 1 ==> !EndsInBackslash(StripEnd(text))
    ensures var r := LogicalText(lines, i, text); !(r.1 + 1 == |lines| && EndsInBackslash(StripEnd(r.0)))
    decreases |lines| - i
  {
    if EndsInBackslash(StripEnd(text)) && i + 1 < |lines| {
      var head, tail := StripEnd(DropLast(StripEnd(text))) + " ", Strip(lines[i + 1]);
      if i + 1 == |lines| - 1 {
        StripEndsPlainly(lines[i + 1]);
        StripEndOfSum(head, tail);
      }
      LogicalSettles(lines, i + 1, head + tail);
    }
  }

  /** A file whose last line is neither blank nor ends in a backslash is settled. */
  lemma {:induction false} SettledByLastLine(lines: seq<string>, i: nat)
    requires |lines| > 0 ==> EndsPlainly(lines[|lines| - 1])
    ensures SettledFrom(lines, i)
    decreases |lines| - i
  {
    if i < |lines| {
      if IsRecipe(lines[i]) {
        if i == |lines| - 1 {
          RecipeEndsPlainly(lines[i]);
          StripEndsPlainly(lines[i][1..]);
          StripEndCases(StripStart(lines[i][1..]));
        }
        RecipeSettles(lines, i, Strip(lines[i][1..]));
      } else {
        LogicalSettles(lines, i, lines[i]);
      }
      SettledByLastLine(lines, NextLine(lines, i));
    }
  }

  // ---------------------------------------------------------------- the new lines

  lemma {:induction false} NoBar(names: seq<string>, p: nat)
    requires PlainNames(names) && p <= |names|
    ensures BarIndex(names, p) == |names|
    decreases |names| - p
  {
    if p < |names| {
      assert PlainChar(names[p][0]);
      NoBar(names, p + 1);
    }
  }

  function CompensationRule(c: Compensation, number: nat): MakeRule {
    MakeRule(c.target, c.dependencies, [], [], number)
  }

  lemma TargetReads(target: string, variables: Variables)
    requires PlainName(target)
    ensures Words(Expand(Strip(target), variables)) == [target]
  {
    assert Joined([target], " ") == target;
    NamesRead([target], variables);
  }

  lemma OneTarget(target: string, names: seq<string>, number: nat)
    ensures RulesFor([target], names, [], number) == [MakeRule(target, names, [], [], number)]
  {
    assert [target][1..] == [];
  }

  lemma RuleLineHalves(c: Compensation, s: string, rest: string)
    requires PlainRule(c) && s == RuleLine(c) && rest == " " + Joined(c.dependencies, " ")
    ensures |c.target| < |s| && IndexFrom(s, ':', 0) == |c.target|
    ensures s[..|c.target|] == c.target && s[|c.target| + 1..] == rest
  {
    assert s == c.target + (":" + rest);
    assert forall k :: 0 <= k < |c.target| ==> s[k] == c.target[k];
    IndexIs(s, ':', 0, |c.target|);
  }

  lemma RuleLineAdds(c: Compensation, number: nat, p: Parsing)
    requires PlainRule(c)
    ensures p.AddRules(RuleLine(c), number) ==
            p.(rules := p.rules + [CompensationRule(c, number)], current := 1)
  {
    RuleLineHalves(c, RuleLine(c), " " + Joined(c.dependencies, " "));
    TargetReads(c.target, p.variables);
    PrerequisitesRead(c.dependencies, p.variables);
    NoBar(c.dependencies, 0);
    assert [c.target][0] != ".PHONY";
    RuleOfHalves(p, RuleLine(c), number, |c.target|, [c.target], c.dependencies);
    NoOrderOnly(p, [c.target], c.dependencies, number);
    OneTarget(c.target, c.dependencies, number);
  }

  lemma RuleLineIsClean(c: Compensation)
    requires PlainRule(c)
    ensures Clean(RuleLine(c)) && !EndsInBackslash(RuleLine(c)) && RuleLine(c)[0] != '#' && RuleLine(c)[0] != '\t'
  {
    JoinedIsClean(c.dependencies);
    JoinedEndsPlain(c.dependencies);
  }

  lemma BlankStep(lines: seq<string>, i: nat, p: Parsing)
    requires i < |lines| && |lines[i]| == 0
    ensures LineStep(lines, i, p) == (p.(current := 0), i + 1)
  {
    SingleLineStep(lines, i, p);
    IdleLine(Strip(lines[i]), i + 1, p);
  }

  lemma CommentStep(lines: seq<string>, i: nat, p: Parsing)
    requires i < |lines| && IsComment(lines[i])
    ensures LineStep(lines, i, p) == (p.(current := 0), i + 1)
  {
    CleanStays(lines[i]);
    SingleLineStep(lines, i, p);
    IdleLine(lines[i], i + 1, p);
  }

  lemma RuleLineStep(lines: seq<string>, i: nat, c: Compensation, p: Parsing)
    requires PlainRule(c) && i < |lines| && lines[i] == RuleLine(c)
    ensures LineStep(lines, i, p) ==
            (p.(rules := p.rules + [CompensationRule(c, i + 1)], current := 1), i + 1)
  {
    var text := lines[i];
    RuleLineIsClean(c);
    CleanStays(text);
    SingleLineStep(lines, i, p);
    RuleLineHasNoBreak(c);
    NoAssignment(text);
    NoTrailingComment(text);
    LogicalRule(text, i + 1, p);
    RuleLineAdds(c, i + 1, p.(current := 0));
  }

  lemma QuietSteps(lines: seq<string>, i: nat, p: Parsing)
    requires i + 2 <= |lines| && |lines[i]| == 0 && IsComment(lines[i + 1])
    ensures ParseFrom(lines, i, p) == ParseFrom(lines, i + 2, p.(current := 0))
  {
    BlankStep(lines, i, p);
    CommentStep(lines, i + 1, p.(current := 0));
  }

  /** The compensation rules from the `k`th on, as read from consecutive lines. */
  function RulesRead(rules: seq<Compensation>, k: nat, number: nat): (r: seq<MakeRule>)
    requires k <= |rules|
    ensures |r| == |rules| - k
    ensures forall n :: 0 <= n < |r| ==> r[n] == CompensationRule(rules[k + n], number + n)
    decreases |rules| - k
  {
    if k == |rules| then [] else [CompensationRule(rules[k], number)] + RulesRead(rules, k + 1, number + 1)
  }

  lemma RulesReadStep(rules: seq<Compensation>, k: nat, number: nat, before: seq<MakeRule>, after: seq<MakeRule>)
    requires k < |rules| && after == before + [CompensationRule(rules[k], number)]
    ensures before + RulesRead(rules, k, number) == after + RulesRead(rules, k + 1, number + 1)
  {
  }

  lemma {:induction false} RuleLinesRead(
    lines: seq<string>, i: nat, rules: seq<Compensation>, texts: seq<string>, k: nat, p: Parsing)
    requires PlainRules(rules) && k <= |rules| && texts == RuleTexts(rules) && i + |rules| - k == |lines|
    requires lines[i..] == texts[k..]
    ensures ParseFrom(lines, i, p).rules == p.rules + RulesRead(rules, k, i + 1)
    ensures ParseFrom(lines, i, p).variables == p.variables
    decreases |rules| - k
  {
    if k < |rules| {
      assert lines[i] == lines[i..][0] == texts[k];
      var rule := CompensationRule(rules[k], i + 1);
      var next := p.(rules := p.rules + [rule], current := 1);
      RuleLineStep(lines, i, rules[k], p);
      ParseStep(lines, i, p, next, i + 1);
      assert lines[i + 1..] == lines[i..][1..] == texts[k + 1..];
      RuleLinesRead(lines, i + 1, rules, texts, k + 1, next);
      RulesReadStep(rules, k, i + 1, p.rules, next.rules);
    }
  }

  /** The whole appended section: two quiet lines, then the rules. */
  lemma SectionReads(all: seq<string>, n: nat, comment: string, rules: seq<Compensation>, texts: seq<string>, p: Parsing)
    requires IsComment(comment) && PlainRules(rules) && texts == RuleTexts(rules)
    requires n <= |all| && all[n..] == ["", comment] + texts
    ensures ParseFrom(all, n, p).rules == p.rules + RulesRead(rules, 0, n + 3)
    ensures ParseFrom(all, n, p).variables == p.variables
  {
    var section := all[n..];
    assert all[n] == section[0] && all[n + 1] == section[1];
    QuietSteps(all, n, p);
    assert all[n + 2..] == section[2..] == texts == texts[0..];
    RuleLinesRead(all, n + 2, rules, texts, 0, p.(current := 0));
  }

  // ---------------------------------------------------------------- the final expansion

  lemma PlainRuleStays(c: Compensation, number: nat, variables: Variables)
    requires PlainRule(c)
    ensures ExpandRule(CompensationRule(c, number), variables) == CompensationRule(c, number)
  {
    ExpandsToItself(c.target, variables);
    PlainPrerequisitesStay(c.dependencies, variables);
  }

  lemma {:induction false} PlainRulesStay(rules: seq<Compensation>, k: nat, number: nat, variables: Variables)
    requires PlainRules(rules) && k <= |rules|
    ensures ExpandRules(RulesRead(rules, k, number), variables) == RulesRead(rules, k, number)
    decreases |rules| - k
  {
    if k < |rules| {
      var first, rest := CompensationRule(rules[k], number), RulesRead(rules, k + 1, number + 1);
      var read := RulesRead(rules, k, number);
      assert read == [first] + rest && read[0] == first && read[1..] == rest;
      PlainRuleStays(rules[k], number, variables);
      PlainRulesStay(rules, k + 1, number + 1, variables);
    }
  }

  lemma ExpandedRepair(p: Parsing, q: Parsing, rules: seq<Compensation>, number: nat)
    requires PlainRules(rules) && q.variables == p.variables && q.rules == p.rules + RulesRead(rules, 0, number)
    ensures ExpandRules(q.rules, q.variables) == ExpandRules(p.rules, p.variables) + RulesRead(rules, 0, number)
  {
    ExpandRulesSplit(p.rules, RulesRead(rules, 0, number), p.variables);
    PlainRulesStay(rules, 0, number, p.variables);
  }
}
