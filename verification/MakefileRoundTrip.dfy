/**
  Printed Makefiles and their meaning: rules with order-only prerequisites and recipes, and the four kinds of assignment,
  every line broken into any number of continuation lines, read back exactly.
 */
module MakefileRoundTrip {
  import opened Wrappers
  import opened Texts
  import opened Makefiles
  import opened MakefileText
  import opened BrokenLines

  /** `layout` is the first line in the pieces it is printed in, and so is each recipe. */
  datatype Entry =
    | RuleEntry(layout: seq<string>, targets: seq<string>, normal: seq<string>, orderOnly: seq<string>,
                recipes: seq<seq<string>>)
    | AssignEntry(layout: seq<string>, name: string, operator: char, value: string)
  {
    predicate Valid() {
      Chunks(layout) && |layout| > 0 && Joined(layout, " ") == Head() &&
      if RuleEntry? then
        && Tokens(targets) && |targets| > 0 && targets != [".PHONY"]
        && Tokens(normal) && "|" !in normal && Tokens(orderOnly)
        && forall k :: 0 <= k < |recipes| ==> PlainChunks(recipes[k])
      else
        IsIdentifier(name) && (operator == '=' || operator == ':' || operator == '?' || operator == '+') && PlainText(value)
    }

    function Prerequisites(): seq<string>
      requires RuleEntry?
    {
      normal + (if orderOnly == [] then [] else ["|"] + orderOnly)
    }

    function Head(): string {
      if RuleEntry? then
        Joined(targets, " ") + (":" + (if Prerequisites() == [] then "" else " " + Joined(Prerequisites(), " ")))
      else name + (" " + (OperatorText(operator) + (" " + value)))
    }

    function Print(): seq<string> { Spread(layout) + (if RuleEntry? then RecipeLines(recipes) else []) }

    /** The recipes, each in one line. */
    function Recipes(): (r: seq<string>)
      requires RuleEntry?
      ensures |r| == |recipes| && forall k :: 0 <= k < |r| ==> r[k] == Joined(recipes[k], " ")
    {
      seq(|recipes|, k requires 0 <= k < |recipes| => Joined(recipes[k], " "))
    }
  }

  /** Text that stripping leaves alone, on one line, without references or a backslash at its end. */
  predicate PlainText(s: string) { Clean(s) && '\n' !in s && '$' !in s && !EndsInBackslash(s) }

  predicate Letter(c: char) {
    c in "abcdefghijklmnopqrstuvwxyz" || c in "ABCDEFGHIJKLMNOPQRSTUVWXYZ" || c == '_'
  }

  predicate IsIdentifier(s: string) {
    |s| > 0 && Letter(s[0]) && forall k :: 0 <= k < |s| ==> Letter(s[k]) || s[k] in "0123456789"
  }

  predicate PlainChunks(chunks: seq<string>) {
    |chunks| > 0 && Chunks(chunks) && forall k :: 0 <= k < |chunks| ==> '$' !in chunks[k]
  }

  function RecipeLines(recipes: seq<seq<string>>): seq<string> {
    if |recipes| == 0 then [] else Indented(recipes[0]) + RecipeLines(recipes[1..])
  }

  function PrintAll(entries: seq<Entry>): seq<string> {
    if |entries| == 0 then [] else entries[0].Print() + PrintAll(entries[1..])
  }

  /** The lines, each with its newline. */
  function TextOf(lines: seq<string>): string {
    if |lines| == 0 then "" else lines[0] + "\n" + TextOf(lines[1..])
  }

  // ---------------------------------------------------------------- what the entries mean

  function RulesOf(e: Entry, recipes: seq<string>, number: nat): (r: seq<MakeRule>)
    requires e.RuleEntry?
    ensures |r| == |e.targets|
    ensures forall k :: 0 <= k < |r| ==> r[k] == MakeRule(e.targets[k], e.normal, e.orderOnly, recipes, number)
  {
    seq(|e.targets|, k requires 0 <= k < |e.targets| => MakeRule(e.targets[k], e.normal, e.orderOnly, recipes, number))
  }

  function Assigned(variables: Variables, e: Entry): Variables
    requires e.AssignEntry?
  {
    if e.name !in variables || e.operator == '=' || e.operator == ':' then variables[e.name := e.value]
    else if e.operator == '?' then variables
    else variables[e.name := variables[e.name] + " " + e.value]
  }

  /** What one entry, printed from line `number` on, adds. */
  function After(e: Entry, number: nat, before: MakefileModel): MakefileModel {
    if e.RuleEntry? then before.(rules := before.rules + RulesOf(e, e.Recipes(), number))
    else before.(variables := Assigned(before.variables, e))
  }

  function Means(entries: seq<Entry>, number: nat, before: MakefileModel): MakefileModel {
    if |entries| == 0 then before
    else Means(entries[1..], number + |entries[0].Print()|, After(entries[0], number, before))
  }

  // ---------------------------------------------------------------- a rule and its recipes

  lemma {:induction false} BarAfter(tokens: seq<string>, p: nat, bar: nat)
    requires p <= bar <= |tokens| && (bar < |tokens| ==> tokens[bar] == "|")
    requires forall k :: p <= k < bar ==> tokens[k] != "|"
    ensures BarIndex(tokens, p) == bar
    decreases bar - p
  {
    if p < bar { BarAfter(tokens, p + 1, bar); }
  }

  lemma {:induction false} RulesForAll(targets: seq<string>, normal: seq<string>, orderOnly: seq<string>, number: nat)
    ensures forall k :: 0 <= k < |targets| ==>
              RulesFor(targets, normal, orderOnly, number)[k] == MakeRule(targets[k], normal, orderOnly, [], number)
  {
    if |targets| > 0 { RulesForAll(targets[1..], normal, orderOnly, number); }
  }

  /** Normal prerequisites stand before the bar, order-only ones after it. */
  lemma PrerequisitesSplit(e: Entry, p: Parsing, number: nat)
    requires e.Valid() && e.RuleEntry?
    ensures Tokens(e.Prerequisites())
    ensures p.WithRules(e.targets, e.Prerequisites(), number) ==
            p.(rules := p.rules + RulesOf(e, [], number), current := |e.targets|)
  {
    var tokens, bar := e.Prerequisites(), |e.normal|;
    BarAfter(tokens, 0, bar);
    assert tokens[..bar] == e.normal;
    assert bar < |tokens| ==> tokens[bar + 1..] == e.orderOnly;
    RulesForAll(e.targets, e.normal, e.orderOnly, number);
    assert RulesFor(e.targets, e.normal, e.orderOnly, number) == RulesOf(e, [], number);
  }

  lemma AfterColon(left: string, rest: string, s: string)
    requires ':' !in left && s == left + (":" + rest)
    ensures |left| < |s| && IndexFrom(s, ':', 0) == |left| && s[..|left|] == left && s[|left| + 1..] == rest
  {
    assert forall k :: 0 <= k < |left| ==> s[k] == left[k];
    IndexIs(s, ':', 0, |left|);
  }

  function AfterColonText(tokens: seq<string>): string {
    if tokens == [] then "" else " " + Joined(tokens, " ")
  }

  lemma TokensRead(tokens: seq<string>, variables: Variables)
    requires Tokens(tokens)
    ensures Words(Expand(Strip(AfterColonText(tokens)), variables)) == tokens
  {
    if tokens != [] {
      PrerequisitesRead(tokens, variables);
    } else {
      ExpandsToItself("", variables);
    }
  }

  lemma HeadAdds(e: Entry, p: Parsing, number: nat)
    requires e.Valid() && e.RuleEntry?
    ensures p.AddRules(e.Head(), number) == p.(rules := p.rules + RulesOf(e, [], number), current := |e.targets|)
  {
    var left, tokens := Joined(e.targets, " "), e.Prerequisites();
    PrerequisitesSplit(e, p, number);
    JoinedHasNoBreak(e.targets);
    AfterColon(left, AfterColonText(tokens), e.Head());
    NamesRead(e.targets, p.variables);
    TokensRead(tokens, p.variables);
    RuleOfHalves(p, e.Head(), number, |left|, e.targets, tokens);
  }

  lemma NotInSum(c: char, a: string, b: string, sum: string)
    requires sum == a + b && c !in a && c !in b
    ensures c !in sum
  {
  }

  lemma AfterColonShape(tokens: seq<string>, right: string)
    requires Tokens(tokens) && right == ":" + AfterColonText(tokens)
    ensures '#' !in right && '=' !in right && '\n' !in right
    ensures |right| > 0 && right[|right| - 1] != '\\' && !IsSpace(right[|right| - 1])
  {
    hide Joined;
    if tokens != [] {
      var joined := Joined(tokens, " ");
      JoinedIsClean(tokens);
      JoinedEndsPlain(tokens);
      JoinedHasNoBreak(tokens);
      assert right[|right| - 1] == joined[|joined| - 1];
    }
  }

  lemma RuleHeadShape(left: string, tokens: seq<string>, right: string, s: string)
    requires Clean(left) && '#' !in left && '=' !in left && '\n' !in left && Tokens(tokens)
    requires right == ":" + AfterColonText(tokens) && s == left + right
    ensures Clean(s) && !EndsInBackslash(s) && s[0] == left[0] && '#' !in s && '=' !in s && '\n' !in s
  {
    AfterColonShape(tokens, right);
    hide AfterColonText;
    assert s[0] == left[0] && s[|s| - 1] == right[|right| - 1];
    NotInSum('#', left, right, s);
    NotInSum('=', left, right, s);
    NotInSum('\n', left, right, s);
  }

  lemma RuleHeadIsPlain(e: Entry, text: string)
    requires e.Valid() && e.RuleEntry? && text == e.Head()
    ensures Clean(text) && !EndsInBackslash(text) && '#' !in text && '=' !in text && '\n' !in text
    ensures text[0] != '#' && !IsRecipe(text)
  {
    var left := Joined(e.targets, " ");
    BarAfter(e.Prerequisites(), 0, |e.normal|);
    JoinedIsClean(e.targets);
    JoinedHasNoBreak(e.targets);
    RuleHeadShape(left, e.Prerequisites(), ":" + AfterColonText(e.Prerequisites()), text);
  }

  /** The head of a printed rule adds its rules, without recipes. */
  lemma RuleHeadMeans(e: Entry, p: Parsing, text: string, number: nat)
    requires e.Valid() && e.RuleEntry? && text == e.Head()
    ensures p.LogicalLine(Strip(text), number) == p.(rules := p.rules + RulesOf(e, [], number), current := |e.targets|)
  {
    hide Strip, AssignmentOf, Parsing.AddRules, Parsing.LogicalLine, Joined, Entry.Head;
    RuleHeadIsPlain(e, text);
    CleanStays(text);
    NoAssignment(text);
    NoTrailingComment(text);
    LogicalRule(text, number, p);
    HeadAdds(e, p.(current := 0), number);
  }

  lemma RuleHeadStep(lines: seq<string>, i: nat, e: Entry, p: Parsing)
    requires e.Valid() && e.RuleEntry? && LinesAt(lines, i, Spread(e.layout))
    ensures LineStep(lines, i, p) ==
            (p.(rules := p.rules + RulesOf(e, [], i + 1), current := |e.targets|), i + |e.layout|)
  {
    hide LineStep, Strip, Spread, LinesAt, Parsing.LogicalLine, Joined, Entry.Head;
    BrokenLineReads(lines, i, e.layout, p);
    RuleHeadMeans(e, p, e.Head(), i + 1);
  }

  /** The rules of the entry once its first `done` recipes are read. */
  function Grown(e: Entry, p: Parsing, number: nat, done: nat): Parsing
    requires e.RuleEntry? && done <= |e.recipes|
  {
    p.(rules := p.rules + RulesOf(e, e.Recipes()[..done], number), current := |e.targets|)
  }

  lemma GrowsBy(e: Entry, p: Parsing, number: nat, k: nat)
    requires e.RuleEntry? && k < |e.recipes|
    ensures Grown(e, p, number, k).AddRecipe(Joined(e.recipes[k], " ")) == Grown(e, p, number, k + 1)
  {
    hide Joined;
    var recipes := e.Recipes();
    assert recipes[..k + 1] == recipes[..k] + [recipes[k]];
  }

  lemma RecipeReads(lines: seq<string>, i: nat, recipe: seq<string>, p: Parsing, next: Parsing)
    requires PlainChunks(recipe) && LinesAt(lines, i, Indented(recipe)) && p.AddRecipe(Joined(recipe, " ")) == next
    ensures ParseFrom(lines, i, p) == ParseFrom(lines, i + |recipe|, next)
  {
    hide Joined, LineStep, ParseFrom, Indented;
    BrokenRecipeReads(lines, i, recipe, p);
    LineAtHead(lines, i, Indented(recipe));
    ParseStep(lines, i, p, next, i + |recipe|);
  }

  lemma {:induction false} RecipesRead(lines: seq<string>, i: nat, e: Entry, p: Parsing, number: nat, k: nat)
    requires e.Valid() && e.RuleEntry? && k <= |e.recipes| && LinesAt(lines, i, RecipeLines(e.recipes[k..]))
    ensures ParseFrom(lines, i, Grown(e, p, number, k)) ==
            ParseFrom(lines, i + |RecipeLines(e.recipes[k..])|, Grown(e, p, number, |e.recipes|))
    decreases |e.recipes| - k
  {
    hide ParseFrom, Grown, LinesAt, Indented, PlainChunks, Entry.Head, Entry.Prerequisites, Joined;
    if k < |e.recipes| {
      var rest := e.recipes[k..];
      assert rest[0] == e.recipes[k] && rest[1..] == e.recipes[k + 1..];
      LinesAtParts(lines, i, Indented(rest[0]), RecipeLines(rest[1..]));
      GrowsBy(e, p, number, k);
      RecipeReads(lines, i, e.recipes[k], Grown(e, p, number, k), Grown(e, p, number, k + 1));
      RecipesRead(lines, i + |e.recipes[k]|, e, p, number, k + 1);
    }
  }

  lemma RuleHeadReads(lines: seq<string>, i: nat, e: Entry, p: Parsing)
    requires e.Valid() && e.RuleEntry? && LinesAt(lines, i, Spread(e.layout))
    ensures ParseFrom(lines, i, p) == ParseFrom(lines, i + |e.layout|, Grown(e, p, i + 1, 0))
  {
    hide ParseFrom, LineStep, Spread;
    RuleHeadStep(lines, i, e, p);
    assert e.Recipes()[..0] == [];
    LineAtHead(lines, i, Spread(e.layout));
    ParseStep(lines, i, p, Grown(e, p, i + 1, 0), i + |e.layout|);
  }

  lemma WholeIsGrown(e: Entry, p: Parsing, number: nat)
    requires e.RuleEntry?
    ensures Grown(e, p, number, |e.recipes|) == p.(rules := p.rules + RulesOf(e, e.Recipes(), number), current := |e.targets|)
  {
    assert e.Recipes()[..|e.recipes|] == e.Recipes();
  }

  /** A rule with its recipes reads back whole. */
  lemma RuleEntryReads(lines: seq<string>, i: nat, e: Entry, p: Parsing)
    requires e.Valid() && e.RuleEntry? && LinesAt(lines, i, e.Print())
    ensures ParseFrom(lines, i, p) ==
            ParseFrom(lines, i + |e.Print()|, p.(rules := p.rules + RulesOf(e, e.Recipes(), i + 1), current := |e.targets|))
  {
    hide ParseFrom, Spread, RecipeLines, LinesAt, Entry.Head, Grown;
    LinesAtParts(lines, i, Spread(e.layout), RecipeLines(e.recipes));
    RuleHeadReads(lines, i, e, p);
    assert e.recipes[0..] == e.recipes;
    RecipesRead(lines, i + |e.layout|, e, p, i + 1, 0);
    WholeIsGrown(e, p, i + 1);
  }

  // ---------------------------------------------------------------- an assignment

  function OperatorText(operator: char): string { if operator == '=' then "=" else [operator, '='] }

  lemma SmallLetters(c: char)
    ensures 'a' <= c <= 'z' <==> c in "abcdefghijklmnopqrstuvwxyz"
  {
  }

  lemma CapitalLetters(c: char)
    ensures 'A' <= c <= 'Z' <==> c in "ABCDEFGHIJKLMNOPQRSTUVWXYZ"
  {
  }

  lemma Digits(c: char)
    ensures '0' <= c <= '9' <==> c in "0123456789"
  {
  }

  lemma NameLetters(c: char)
    ensures StartsName(c) <==> Letter(c)
    ensures '0' <= c <= '9' <==> c in "0123456789"
  {
    SmallLetters(c);
    CapitalLetters(c);
    Digits(c);
  }

  lemma {:induction false} IdentifierEndsAt(text: string, p: nat, name: string)
    requires p <= |name| <= |text| && text[..|name|] == name
    requires forall k :: 0 <= k < |name| ==> Letter(name[k]) || name[k] in "0123456789"
    requires |name| < |text| ==> !StartsName(text[|name|]) && !('0' <= text[|name|] <= '9')
    ensures IdentifierEnd(text, p) == |name|
    decreases |name| - p
  {
    hide Letter;
    if p < |name| {
      NameLetters(name[p]);
      assert text[p] == text[..|name|][p];
      IdentifierEndsAt(text, p + 1, name);
    }
  }

  lemma OperatorReads(text: string, q: nat, operator: char, rest: string)
    requires operator == '=' || operator == ':' || operator == '?' || operator == '+'
    requires q <= |text| && text[q..] == OperatorText(operator) + rest && |rest| > 0 && rest[0] != '='
    ensures OperatorAt(text, q) == Some(|OperatorText(operator)|) && text[q] == operator
    ensures text[q + |OperatorText(operator)|..] == rest
  {
    var tail := text[q..];
    assert tail[0] == text[q] && tail[1] == text[q + 1];
  }

  lemma HeadParts(name: string, op: string, rest: string, text: string)
    requires text == name + (" " + (op + rest)) && |name| > 0 && |op| > 0 && !IsSpace(op[0])
    ensures |name| + 1 <= |text| && text[..|name|] == name && text[|name|] == ' ' && text[0] == name[0]
    ensures text[|name| + 1..] == op + rest && SkipSpace(text, |name|) == |name| + 1
  {
    var tail := text[|name| + 1..];
    assert tail == op + rest;
    assert tail[0] == text[|name| + 1];
  }

  lemma AssignmentParts(text: string, end: nat, q: nat, n: nat, value: string)
    requires |text| > 0 && StartsName(text[0]) && end == IdentifierEnd(text, 0) && q == SkipSpace(text, end)
    requires OperatorAt(text, q) == Some(n) && Strip(text[q + n..]) == value
    ensures AssignmentOf(text) == Some(Assignment(text[..end], text[q], value))
  {
  }

  lemma AssignmentReads(e: Entry)
    requires e.Valid() && e.AssignEntry?
    ensures AssignmentOf(e.Head()) == Some(Assignment(e.name, e.operator, e.value))
  {
    hide OperatorAt, Strip, SkipSpace, IdentifierEnd, AssignmentOf, Letter;
    var text, n, rest := e.Head(), |e.name|, " " + e.value;
    var op := OperatorText(e.operator);
    HeadParts(e.name, op, rest, text);
    NameLetters(e.name[0]);
    IdentifierEndsAt(text, 0, e.name);
    OperatorReads(text, n + 1, e.operator, rest);
    StripAfterBlank(rest, e.value);
    AssignmentParts(text, n, n + 1, |op|, e.value);
  }

  lemma AssignHeadShape(e: Entry, text: string)
    requires e.Valid() && e.AssignEntry? && text == e.Head()
    ensures Clean(text) && !EndsInBackslash(text) && text[0] != '#' && text[0] != '\t'
  {
    hide Letter;
    NameLetters(e.name[0]);
    assert text[0] == e.name[0];
    assert text[|text| - 1] == e.value[|e.value| - 1];
  }

  lemma AssignLine(p: Parsing, text: string, number: nat, a: Assignment)
    requires |text| > 0 && text[0] != '#' && AssignmentOf(text) == Some(a)
    ensures p.LogicalLine(text, number) == p.(current := 0).Assign(a)
  {
  }

  ghost predicate PlainValues(variables: Variables) {
    forall name <- variables :: PlainText(variables[name])
  }

  lemma NotInJoined(c: char, a: string, b: string, longer: string)
    requires longer == a + " " + b && c !in a && c !in b && c != ' '
    ensures c !in longer
  {
    NotInSum(c, a, " ", a + " ");
    NotInSum(c, a + " ", b, longer);
  }

  lemma PlainTextJoins(a: string, b: string, longer: string)
    requires PlainText(a) && PlainText(b) && longer == a + " " + b
    ensures PlainText(longer) && Strip(longer) == longer
  {
    hide Strip, StripEnd;
    NotInJoined('\n', a, b, longer);
    NotInJoined('$', a, b, longer);
    assert longer[0] == a[0] && longer[|longer| - 1] == b[|b| - 1];
    CleanStays(longer);
  }

  /** The four operators on plain values. */
  lemma AssignMeans(p: Parsing, e: Entry)
    requires e.Valid() && e.AssignEntry? && PlainValues(p.variables)
    ensures p.Assign(Assignment(e.name, e.operator, e.value)) == p.(variables := Assigned(p.variables, e))
    ensures PlainValues(Assigned(p.variables, e))
  {
    if e.operator == ':' {
      ExpandsToItself(e.value, p.variables);
    } else if e.operator == '+' && e.name in p.variables {
      PlainTextJoins(p.variables[e.name], e.value, p.variables[e.name] + " " + e.value);
    }
  }

  /** The first line of an assignment, read as one logical line. */
  lemma AssignLineMeans(e: Entry, p: Parsing, number: nat)
    requires e.Valid() && e.AssignEntry? && PlainValues(p.variables)
    ensures p.LogicalLine(Strip(e.Head()), number) == p.(variables := Assigned(p.variables, e), current := 0)
  {
    hide AssignmentOf, Parsing.Assign, Parsing.LogicalLine, Strip, Joined;
    var text := e.Head();
    AssignHeadShape(e, text);
    CleanStays(text);
    AssignmentReads(e);
    AssignLine(p, text, number, Assignment(e.name, e.operator, e.value));
    AssignMeans(p.(current := 0), e);
  }

  lemma AssignEntryReads(lines: seq<string>, i: nat, e: Entry, p: Parsing)
    requires e.Valid() && e.AssignEntry? && LinesAt(lines, i, Spread(e.layout)) && PlainValues(p.variables)
    ensures ParseFrom(lines, i, p) ==
            ParseFrom(lines, i + |e.layout|, p.(variables := Assigned(p.variables, e), current := 0))
  {
    hide ParseFrom, LineStep, Parsing.LogicalLine, Strip, Joined, Spread, Entry.Head, PlainValues, Assigned;
    BrokenLineReads(lines, i, e.layout, p);
    AssignLineMeans(e, p, i + 1);
    LineAtHead(lines, i, Spread(e.layout));
    ParseStep(lines, i, p, p.(variables := Assigned(p.variables, e), current := 0), i + |e.layout|);
  }

  // ---------------------------------------------------------------- whole files

  ghost predicate ValidEntries(entries: seq<Entry>) {
    forall k :: 0 <= k < |entries| ==> entries[k].Valid()
  }

  /** The parsing state after one entry. */
  function Read(e: Entry, number: nat, p: Parsing): Parsing {
    if e.RuleEntry? then p.(rules := p.rules + RulesOf(e, e.Recipes(), number), current := |e.targets|)
    else p.(variables := Assigned(p.variables, e), current := 0)
  }

  lemma EntryReads(lines: seq<string>, i: nat, e: Entry, p: Parsing)
    requires e.Valid() && LinesAt(lines, i, e.Print()) && PlainValues(p.variables)
    ensures ParseFrom(lines, i, p) == ParseFrom(lines, i + |e.Print()|, Read(e, i + 1, p))
  {
    hide ParseFrom, Entry.Head, LinesAt, Spread, Letter, IsIdentifier;
    if e.RuleEntry? {
      RuleEntryReads(lines, i, e, p);
    } else {
      assert Spread(e.layout) + [] == Spread(e.layout);
      AssignEntryReads(lines, i, e, p);
    }
  }

  lemma ReadMeans(e: Entry, number: nat, p: Parsing, q: Parsing)
    requires e.Valid() && PlainValues(p.variables) && q == Read(e, number, p)
    ensures MakefileModel(q.rules, q.variables) == After(e, number, MakefileModel(p.rules, p.variables))
    ensures PlainValues(q.variables)
  {
    if e.AssignEntry? { AssignMeans(p, e); }
  }

  lemma ParseEnds(lines: seq<string>, i: nat, p: Parsing)
    requires i >= |lines|
    ensures ParseFrom(lines, i, p) == p
  {
  }

  /** All entries read back in order, from wherever they stand to the end of the file. */
  lemma {:induction false} EntriesRead(lines: seq<string>, i: nat, entries: seq<Entry>, p: Parsing) returns (q: Parsing)
    requires ValidEntries(entries) && LinesAt(lines, i, PrintAll(entries)) && i + |PrintAll(entries)| == |lines|
    requires PlainValues(p.variables)
    ensures ParseFrom(lines, i, p) == q
    ensures MakefileModel(q.rules, q.variables) == Means(entries, i + 1, MakefileModel(p.rules, p.variables))
    decreases |entries|
  {
    hide ParseFrom, Read, After, Entry.Valid, Entry.Print, PlainValues, LinesAt;
    if |entries| == 0 {
      ParseEnds(lines, i, p);
      q := p;
    } else {
      var e := entries[0];
      var next := Read(e, i + 1, p);
      LinesAtParts(lines, i, e.Print(), PrintAll(entries[1..]));
      EntryReads(lines, i, e, p);
      ReadMeans(e, i + 1, p, next);
      q := EntriesRead(lines, i + |e.Print()|, entries[1..], next);
    }
  }

  // ---------------------------------------------------------------- the final expansion, and the text

  /** Nothing in the rule refers to a variable. */
  ghost predicate PlainRule(rule: MakeRule) {
    && Token(rule.target) && Tokens(rule.normal) && Tokens(rule.orderOnly)
    && forall k :: 0 <= k < |rule.recipes| ==> PlainText(rule.recipes[k])
  }

  lemma {:induction false} PlainTextsStay(texts: seq<string>, variables: Variables)
    requires forall k :: 0 <= k < |texts| ==> PlainText(texts[k])
    ensures ExpandAll(texts, variables) == texts
  {
    if |texts| > 0 {
      ExpandsToItself(texts[0], variables);
      PlainTextsStay(texts[1..], variables);
    }
  }

  lemma PlainRuleStays(rule: MakeRule, variables: Variables)
    requires PlainRule(rule)
    ensures ExpandRule(rule, variables) == rule
  {
    ExpandsToItself(rule.target, variables);
    PlainPrerequisitesStay(rule.normal, variables);
    PlainPrerequisitesStay(rule.orderOnly, variables);
    PlainTextsStay(rule.recipes, variables);
  }

  lemma {:induction false} PlainRulesStay(rules: seq<MakeRule>, variables: Variables)
    requires PlainRules(rules)
    ensures ExpandRules(rules, variables) == rules
  {
    if |rules| > 0 {
      PlainRuleStays(rules[0], variables);
      PlainRulesStay(rules[1..], variables);
    }
  }

  ghost predicate PlainRules(rules: seq<MakeRule>) {
    forall k :: 0 <= k < |rules| ==> PlainRule(rules[k])
  }

  lemma {:induction false} PlainChunksJoin(chunks: seq<string>)
    requires PlainChunks(chunks)
    ensures PlainText(Joined(chunks, " "))
    decreases |chunks|
  {
    if |chunks| > 1 {
      var rest := Joined(chunks[1..], " ");
      PlainChunksJoin(chunks[1..]);
      assert PlainText(chunks[0]);
      PlainTextJoins(chunks[0], rest, chunks[0] + " " + rest);
    }
  }

  lemma RecipesArePlain(e: Entry)
    requires e.Valid() && e.RuleEntry?
    ensures forall k :: 0 <= k < |e.recipes| ==> PlainText(e.Recipes()[k])
  {
    hide PlainText, Joined, PlainChunks, Entry.Head;
    forall k | 0 <= k < |e.recipes| ensures PlainText(e.Recipes()[k]) { PlainChunksJoin(e.recipes[k]); }
  }

  lemma EntryMeansPlainRules(e: Entry, number: nat, before: MakefileModel)
    requires e.Valid() && PlainRules(before.rules)
    ensures PlainRules(After(e, number, before).rules)
  {
    hide PlainText, Entry.Head;
    if e.RuleEntry? { RecipesArePlain(e); }
  }

  lemma {:induction false} MeansPlainRules(entries: seq<Entry>, number: nat, before: MakefileModel)
    requires ValidEntries(entries) && PlainRules(before.rules)
    ensures PlainRules(Means(entries, number, before).rules)
    decreases |entries|
  {
    hide PlainRules, After, Entry.Valid, Entry.Print;
    if |entries| > 0 {
      EntryMeansPlainRules(entries[0], number, before);
      MeansPlainRules(entries[1..], number + |entries[0].Print()|, After(entries[0], number, before));
    }
  }

  lemma {:induction false} LinesOfText(lines: seq<string>)
    requires forall k :: 0 <= k < |lines| ==> '\n' !in lines[k]
    ensures Lines(TextOf(lines)) == lines
  {
    if |lines| > 0 {
      LinesOfText(lines[1..]);
      LinesOfLine(lines[0], TextOf(lines[1..]), TextOf(lines));
    }
  }

  lemma {:induction false} RecipesHaveNoBreak(recipes: seq<seq<string>>)
    requires forall k :: 0 <= k < |recipes| ==> PlainChunks(recipes[k])
    ensures forall k :: 0 <= k < |RecipeLines(recipes)| ==> '\n' !in RecipeLines(recipes)[k]
  {
    if |recipes| > 0 {
      IndentedHasNoBreak(recipes[0]);
      RecipesHaveNoBreak(recipes[1..]);
    }
  }

  lemma PrintHasNoBreak(e: Entry)
    requires e.Valid()
    ensures forall k :: 0 <= k < |e.Print()| ==> '\n' !in e.Print()[k]
  {
    hide Spread, RecipeLines, Entry.Head;
    BrokenHasNoBreak(e.layout);
    if e.RuleEntry? { RecipesHaveNoBreak(e.recipes); }
  }

  lemma {:induction false} PrintAllHasNoBreak(entries: seq<Entry>)
    requires ValidEntries(entries)
    ensures forall k :: 0 <= k < |PrintAll(entries)| ==> '\n' !in PrintAll(entries)[k]
  {
    if |entries| > 0 {
      PrintHasNoBreak(entries[0]);
      PrintAllHasNoBreak(entries[1..]);
    }
  }

  /** Parsing a printed Makefile gives exactly what its entries mean, line numbers included, however its lines are broken. */
  lemma MakefileReadsBack(entries: seq<Entry>)
    requires ValidEntries(entries)
    ensures Parse(TextOf(PrintAll(entries))) == Means(entries, 1, MakefileModel([], map[]))
  {
    hide ParseFrom, Lines, TextOf, Means, PrintAll, ExpandRules;
    var lines, p0 := PrintAll(entries), Parsing(map[], [], 0);
    PrintAllHasNoBreak(entries);
    LinesOfText(lines);
    assert lines[0..0 + |lines|] == lines;
    var p := EntriesRead(lines, 0, entries, p0);
    MeansPlainRules(entries, 1, MakefileModel([], map[]));
    PlainRulesStay(p.rules, p.variables);
  }
}
