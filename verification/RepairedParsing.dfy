/**
  Parsing a repaired Makefile, whatever it was before. The compensation rules are always read; a logical line that still
  wants a continuation at the end of the old file swallows the blank line and perhaps the comment, and exactly then, if
  that changes what it means, the old part reads differently.
 */
module RepairedParsing {
  import opened Wrappers
  import opened Texts
  import opened Makefiles
  import opened DependencyRepair
  import opened MakefileText
  import opened MakefileExpansion
  import opened RepairedMakefile

  // ---------------------------------------------------------------- the dangling line

  /** Where the logical line left wanting a continuation starts, or the end of the file, and what is parsed before it. */
  function DanglingAt(lines: seq<string>, i: nat, p: Parsing): (r: (nat, Parsing))
    requires i <= |lines|
    ensures r.0 <= |lines| && (r.0 < |lines| ==> WantsMore(lines, r.0))
    decreases |lines| - i
  {
    if i == |lines| || WantsMore(lines, i) then (i, p)
    else
      var (next, j) := LineStep(lines, i, p);
      DanglingAt(lines, j, next)
  }

  /** The text it has gathered so far; it ends in a backslash. */
  function DanglingText(lines: seq<string>, d: nat): string
    requires d < |lines|
  {
    if IsRecipe(lines[d]) then RecipeText(lines, d, Strip(lines[d][1..])).0 else LogicalText(lines, d, lines[d]).0
  }

  /** What the line means if the file ends here. */
  function Alone(p: Parsing, recipe: bool, text: string, number: nat): Parsing {
    if recipe then p.AddRecipe(text) else p.LogicalLine(Strip(text), number)
  }

  /** A text with its last backslash and the blanks around it gone. */
  function Unescaped(text: string): string {
    if text == "" then "" else StripEnd(DropLast(text))
  }

  /** The logical text once a blank line, and perhaps the comment after it, has been read as its continuation. */
  function Continued(text: string, comment: string): string {
    var once := Unescaped(StripEnd(text));
    if EndsInBackslash(once) then Unescaped(once) + " " + comment else once + " "
  }

  /** What the line means when a blank line and the comment follow it. */
  function Resumed(p: Parsing, recipe: bool, text: string, number: nat, comment: string): Parsing {
    if recipe then p.AddRecipe(Unescaped(text) + " ") else p.LogicalLine(Strip(Continued(text, comment)), number)
  }

  lemma {:induction false} ParsesToDangling(lines: seq<string>, more: seq<string>, i: nat, p: Parsing)
    requires i <= |lines|
    ensures var (d, q) := DanglingAt(lines, i, p);
            ParseFrom(lines + more, i, p) == ParseFrom(lines + more, d, q) && ParseFrom(lines, i, p) == ParseFrom(lines, d, q)
    decreases |lines| - i
  {
    hide LineStep, WantsMore;
    if i < |lines| && !WantsMore(lines, i) {
      StepUnmoved(lines, more, i, p);
      var (next, j) := LineStep(lines, i, p);
      ParseStep(lines, i, p, next, j);
      ParseStep(lines + more, i, p, next, j);
      hide ParseFrom;
      ParsesToDangling(lines, more, j, next);
    }
  }

  lemma {:induction false} RecipeReaches(lines: seq<string>, more: seq<string>, i: nat, text: string)
    requires i < |lines|
    requires var r := RecipeText(lines, i, text); r.1 + 1 == |lines|
    ensures RecipeText(lines + more, i, text) == RecipeText(lines + more, |lines| - 1, RecipeText(lines, i, text).0)
    decreases |lines| - i
  {
    if i + 1 < |lines| {
      assert (lines + more)[i + 1] == lines[i + 1];
      RecipeReaches(lines, more, i + 1, StripEnd(DropLast(text)) + " " + StripStart(lines[i + 1]));
    }
  }

  lemma {:induction false} LogicalReaches(lines: seq<string>, more: seq<string>, i: nat, text: string)
    requires i < |lines|
    requires var r := LogicalText(lines, i, text); r.1 + 1 == |lines|
    ensures LogicalText(lines + more, i, text) == LogicalText(lines + more, |lines| - 1, LogicalText(lines, i, text).0)
    decreases |lines| - i
  {
    if i + 1 < |lines| {
      assert (lines + more)[i + 1] == lines[i + 1];
      LogicalReaches(lines, more, i + 1, StripEnd(DropLast(StripEnd(text))) + " " + Strip(lines[i + 1]));
    }
  }

  lemma StepAlone(lines: seq<string>, d: nat, p: Parsing)
    requires d < |lines| && WantsMore(lines, d)
    ensures LineStep(lines, d, p) == (Alone(p, IsRecipe(lines[d]), DanglingText(lines, d), d + 1), |lines|)
    ensures EndsInBackslash(if IsRecipe(lines[d]) then DanglingText(lines, d) else StripEnd(DanglingText(lines, d)))
  {
  }

  lemma StripEndAgain(s: string)
    ensures StripEnd(StripEnd(s)) == StripEnd(s) && StripEnd(StripEnd(s) + " ") == StripEnd(s)
  {
    StripEndCases(s);
    var t := StripEnd(s) + " ";
    assert t[..|t| - 1] == StripEnd(s);
  }

  lemma RecipeResumes(all: seq<string>, n: nat, text: string)
    requires n + 1 < |all| && all[n + 1] == "" && EndsInBackslash(text)
    ensures RecipeText(all, n, text) == (Unescaped(text) + " ", n + 1)
  {
    hide StripEnd;
    var next := Unescaped(text) + " ";
    assert StripStart("") == "" && next + "" == next;
    assert !EndsInBackslash(next);
  }

  lemma LogicalResumes(all: seq<string>, n: nat, text: string, comment: string)
    requires n + 2 < |all| && all[n + 1] == "" && all[n + 2] == comment && IsComment(comment)
    requires EndsInBackslash(StripEnd(text))
    ensures var r := LogicalText(all, n, text); r.0 == Continued(text, comment) && (r.1 == n + 1 || r.1 == n + 2)
  {
    var once := Unescaped(StripEnd(text));
    var first := once + " ";
    StripEndAgain(DropLast(StripEnd(text)));
    assert Strip("") == "" && first + "" == first;
    assert LogicalText(all, n, text) == LogicalText(all, n + 1, first);
    if EndsInBackslash(once) {
      CleanStays(comment);
      var second := Unescaped(once) + " " + comment;
      assert second[|second| - 1] == comment[|comment| - 1];
      StripEndStays(second);
      assert StripEnd(first) == once && !EndsInBackslash(StripEnd(second));
      assert LogicalText(all, n + 1, first) == LogicalText(all, n + 2, second) == (second, n + 2);
    }
  }

  /** In the repaired file the line goes on over the blank line, and the comment is swallowed with it or idle. */
  lemma StepResumes(lines: seq<string>, all: seq<string>, comment: string, more: seq<string>, d: nat, p: Parsing) returns (j: nat)
    requires d < |lines| && WantsMore(lines, d) && IsComment(comment) && all == lines + (["", comment] + more)
    ensures LineStep(all, d, p) == (Resumed(p, IsRecipe(lines[d]), DanglingText(lines, d), d + 1, comment), j)
    ensures j == |lines| + 1 || j == |lines| + 2
  {
    hide Strip, StripEnd, StripStart, WantsMore;
    StepAlone(lines, d, p);
    var tail, last := ["", comment] + more, |lines| - 1;
    assert all[d] == lines[d] && all[last + 1] == tail[0] && all[last + 2] == tail[1];
    var text := DanglingText(lines, d);
    if IsRecipe(lines[d]) {
      RecipeReaches(lines, tail, d, Strip(lines[d][1..]));
      RecipeResumes(all, last, text);
      j := |lines| + 1;
    } else {
      LogicalReaches(lines, tail, d, lines[d]);
      LogicalResumes(all, last, text, comment);
      j := LogicalText(all, last, text).1 + 1;
    }
  }

  // ---------------------------------------------------------------- the compensation rules are always read

  lemma RestReads(
    all: seq<string>, n: nat, j: nat, comment: string, rules: seq<Compensation>, texts: seq<string>, p: Parsing)
    requires IsComment(comment) && PlainRules(rules) && texts == RuleTexts(rules)
    requires n <= |all| && all[n..] == ["", comment] + texts && n <= j <= n + 2
    ensures ParseFrom(all, j, p).rules == p.rules + RulesRead(rules, 0, n + 3)
    ensures ParseFrom(all, j, p).variables == p.variables
  {
    hide ParseFrom, LineStep;
    var section, quiet := all[n..], p.(current := 0);
    assert all[n] == section[0] && all[n + 1] == section[1];
    if j == n {
      SectionReads(all, n, comment, rules, texts, p);
    } else {
      assert all[n + 2..] == section[2..] == texts == texts[0..];
      RuleLinesRead(all, n + 2, rules, texts, 0, p);
      RuleLinesRead(all, n + 2, rules, texts, 0, quiet);
      if j == n + 1 {
        CommentStep(all, j, p);
        ParseStep(all, j, p, quiet, j + 1);
      }
    }
  }

  lemma DanglingReads(
    lines: seq<string>, all: seq<string>, comment: string, rules: seq<Compensation>, texts: seq<string>, d: nat, p: Parsing)
    requires IsComment(comment) && PlainRules(rules) && texts == RuleTexts(rules) && all == lines + (["", comment] + texts)
    requires d < |lines| && WantsMore(lines, d)
    ensures var q := Resumed(p, IsRecipe(lines[d]), DanglingText(lines, d), d + 1, comment);
            && ParseFrom(all, d, p).rules == q.rules + RulesRead(rules, 0, |lines| + 3)
            && ParseFrom(all, d, p).variables == q.variables
  {
    hide ParseFrom, LineStep, WantsMore, DanglingText, Resumed, RuleTexts, RulesRead;
    var j := StepResumes(lines, all, comment, texts, d, p);
    var q := LineStep(all, d, p).0;
    ParseStep(all, d, p, q, j);
    assert all[|lines|..] == ["", comment] + texts;
    RestReads(all, |lines|, j, comment, rules, texts, q);
  }

  lemma NothingDangles(
    lines: seq<string>, all: seq<string>, comment: string, rules: seq<Compensation>, texts: seq<string>, p: Parsing)
    requires IsComment(comment) && PlainRules(rules) && texts == RuleTexts(rules) && all == lines + (["", comment] + texts)
    ensures ParseFrom(all, |lines|, p).rules == p.rules + RulesRead(rules, 0, |lines| + 3)
    ensures ParseFrom(all, |lines|, p).variables == p.variables
  {
    hide ParseFrom, RuleTexts, RulesRead;
    assert all[|lines|..] == ["", comment] + texts;
    RestReads(all, |lines|, |lines|, comment, rules, texts, p);
  }

  /** The meaning of the dangling line, if there is one, in the repaired file. */
  function Revised(lines: seq<string>, comment: string, d: nat, p: Parsing): Parsing
    requires d <= |lines|
  {
    if d == |lines| then p else Resumed(p, IsRecipe(lines[d]), DanglingText(lines, d), d + 1, comment)
  }

  /** What the old lines mean once the section stands after them. */
  function OldPart(lines: seq<string>, comment: string): Parsing {
    var (d, p) := DanglingAt(lines, 0, Parsing(map[], [], 0));
    Revised(lines, comment, d, p)
  }

  lemma RevisedReads(
    lines: seq<string>, all: seq<string>, comment: string, rules: seq<Compensation>, texts: seq<string>, d: nat, p: Parsing,
    read: Parsing)
    requires IsComment(comment) && PlainRules(rules) && texts == RuleTexts(rules) && all == lines + (["", comment] + texts)
    requires d <= |lines| && (d < |lines| ==> WantsMore(lines, d)) && read == ParseFrom(all, d, p)
    ensures read.rules == Revised(lines, comment, d, p).rules + RulesRead(rules, 0, |lines| + 3)
    ensures read.variables == Revised(lines, comment, d, p).variables
  {
    hide ParseFrom, WantsMore, DanglingText, Resumed, RuleTexts, RulesRead;
    if d == |lines| {
      NothingDangles(lines, all, comment, rules, texts, p);
    } else {
      DanglingReads(lines, all, comment, rules, texts, d, p);
    }
  }

  lemma SectionAlwaysReads(
    lines: seq<string>, all: seq<string>, comment: string, rules: seq<Compensation>, texts: seq<string>, read: Parsing)
    requires IsComment(comment) && PlainRules(rules) && texts == RuleTexts(rules) && all == lines + (["", comment] + texts)
    requires read == ParseFrom(all, 0, Parsing(map[], [], 0))
    ensures read.rules == OldPart(lines, comment).rules + RulesRead(rules, 0, |lines| + 3)
    ensures read.variables == OldPart(lines, comment).variables
  {
    hide DanglingAt, ParseFrom, Revised, RuleTexts, RulesRead;
    var start := DanglingAt(lines, 0, Parsing(map[], [], 0));
    ParsesToDangling(lines, ["", comment] + texts, 0, Parsing(map[], [], 0));
    RevisedReads(lines, all, comment, rules, texts, start.0, start.1, read);
  }

  /** Whatever the Makefile was, every compensation rule of the repaired one is read, after the old part. */
  lemma CompensationsAreAlwaysRead(content: string, rules: seq<Compensation>)
    requires |rules| > 0 && PlainRules(rules)
    ensures var q := OldPart(Lines(content), REPAIR_COMMENT);
            && Parse(Repaired(content, rules)).variables == q.variables
            && Parse(Repaired(content, rules)).rules ==
               ExpandRules(q.rules, q.variables) + RulesRead(rules, 0, |Lines(content)| + 3)
  {
    hide OldPart, ParseFrom;
    var lines, all, comment := Lines(content), Lines(Repaired(content, rules)), REPAIR_COMMENT;
    RepairCommentIsComment();
    LinesOfRepaired(content, comment, rules);
    var read := ParseFrom(all, 0, Parsing(map[], [], 0));
    SectionAlwaysReads(lines, all, comment, rules, RuleTexts(rules), read);
    ExpandedRepair(OldPart(lines, comment), read, rules, |lines| + 3);
  }
}
