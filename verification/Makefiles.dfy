/**
  The Makefile parser: recipes, continuation lines, variables with their references, and rules.
 */
module Makefiles {
  import opened Wrappers
  import opened Texts

  datatype MakeRule = MakeRule(
    target: string, normal: seq<string>, orderOnly: seq<string>, recipes: seq<string>, line: nat)

  type Variables = map<string, string>

  datatype MakefileModel = MakefileModel(rules: seq<MakeRule>, variables: Variables)

  // ---------------------------------------------------------------- pieces of text

  /** The first position from `p` on that holds `c`, or the end. */
  function IndexFrom(s: string, c: char, p: nat): (r: nat)
    requires p <= |s|
    ensures p <= r <= |s|
    ensures r < |s| ==> s[r] == c
    decreases |s| - p
  {
    if p < |s| && s[p] != c then IndexFrom(s, c, p + 1) else p
  }

  function WordEnd(s: string, p: nat): (r: nat)
    requires p <= |s|
    ensures p <= r <= |s|
    decreases |s| - p
  {
    if p < |s| && !IsSpace(s[p]) then WordEnd(s, p + 1) else p
  }

  /** The words from `p` on, split at white space. */
  function WordsFrom(s: string, p: nat): seq<string>
    requires p <= |s|
    decreases |s| - p
  {
    var q := SkipSpace(s, p);
    if q == |s| then [] else [s[q..WordEnd(s, q)]] + WordsFrom(s, WordEnd(s, q))
  }

  function Words(s: string): seq<string> { WordsFrom(s, 0) }

  /** The physical lines; a final newline starts no further line. */
  function Lines(text: string): seq<string> {
    if |text| == 0 then []
    else
      var n := IndexFrom(text, '\n', 0);
      [text[..n]] + (if n == |text| then [] else Lines(text[n + 1..]))
  }

  predicate EndsInBackslash(s: string) { |s| > 0 && s[|s| - 1] == '\\' }

  function DropLast(s: string): string
    requires |s| > 0
  {
    s[..|s| - 1]
  }

  predicate EndsWith(s: string, suffix: string) {
    |suffix| <= |s| && s[|s| - |suffix|..] == suffix
  }

  // ---------------------------------------------------------------- variable references

  /** Where a run without either bracket ends. */
  function NameEnd(s: string, p: nat, open: char, close: char): (r: nat)
    requires p <= |s|
    ensures p <= r <= |s|
    decreases |s| - p
  {
    if p < |s| && s[p] != open && s[p] != close then NameEnd(s, p + 1, open, close) else p
  }

  /** The reference that starts at `p`: its name and the position after it. */
  function ReferenceAt(s: string, p: nat): (r: Option<(string, nat)>)
    requires p <= |s|
    ensures r.Some? ==> p < r.value.1 <= |s|
  {
    if p + 1 < |s| && s[p] == '$' && (s[p + 1] == '(' || s[p + 1] == '{') then
      var close := if s[p + 1] == '(' then ')' else '}';
      var e := NameEnd(s, p + 2, s[p + 1], close);
      if p + 2 < e < |s| && s[e] == close then Some((s[p + 2..e], e + 1)) else None
    else None
  }

  function Substituted(words: seq<string>, source: string, target: string): seq<string> {
    if |words| == 0 then []
    else
      var word := words[0];
      [if EndsWith(word, source) then word[..|word| - |source|] + target else word]
      + Substituted(words[1..], source, target)
  }

  function ResolveReference(reference: string, variables: Variables): Option<string> {
    var colon := IndexFrom(reference, ':', 0);
    var name := reference[..colon];
    if name !in variables then None
    else if colon == |reference| then Some(variables[name])
    else
      var substitution := reference[colon + 1..];
      var equals := IndexFrom(substitution, '=', 0);
      if equals == |substitution| || equals == 0 then None
      else Some(Joined(Substituted(Words(variables[name]), substitution[..equals], substitution[equals + 1..]), " "))
  }

  /** One pass over the text: every known reference replaced, and whether there was one. */
  function ExpandOnce(s: string, p: nat, variables: Variables): (string, bool)
    requires p <= |s|
    decreases |s| - p
  {
    if p == |s| then ("", false)
    else
      match ReferenceAt(s, p)
      case None => var rest := ExpandOnce(s, p + 1, variables); ([s[p]] + rest.0, rest.1)
      case Some((name, e)) =>
        var rest := ExpandOnce(s, e, variables);
        match ResolveReference(name, variables)
        case Some(replacement) => (replacement + rest.0, true)
        case None => (s[p..e] + rest.0, rest.1)
  }

  function ExpandTimes(s: string, variables: Variables, left: nat): string
    decreases left, s
  {
    if left == 0 then s
    else
      var (next, changed) := ExpandOnce(s, 0, variables);
      if changed then ExpandTimes(next, variables, left - 1) else next
  }

  const EXPAND_LIMIT: nat := 10

  function Expand(s: string, variables: Variables): string { ExpandTimes(s, variables, EXPAND_LIMIT) }

  method ExpandText(value: string, variables: Variables) returns (result: string)
    ensures result == Expand(value, variables)
  {
    result := value;
    for n := 0 to EXPAND_LIMIT
      invariant ExpandTimes(result, variables, EXPAND_LIMIT - n) == Expand(value, variables)
    {
      var (next, changed) := ExpandOnce(result, 0, variables);
      result := next;
      if !changed {
        return;
      }
    }
  }

  function ExpandPrerequisites(prerequisites: seq<string>, variables: Variables): seq<string> {
    if |prerequisites| == 0 then []
    else Words(Expand(prerequisites[0], variables)) + ExpandPrerequisites(prerequisites[1..], variables)
  }

  // ---------------------------------------------------------------- logical lines

  /** A recipe with its continuation lines, and the last line it takes. */
  function RecipeText(lines: seq<string>, i: nat, text: string): (r: (string, nat))
    requires i < |lines|
    ensures i <= r.1 < |lines|
    decreases |lines| - i
  {
    if EndsInBackslash(text) && i + 1 < |lines|
    then RecipeText(lines, i + 1, StripEnd(DropLast(text)) + " " + StripStart(lines[i + 1]))
    else (text, i)
  }

  function LogicalText(lines: seq<string>, i: nat, text: string): (r: (string, nat))
    requires i < |lines|
    ensures i <= r.1 < |lines|
    decreases |lines| - i
  {
    if EndsInBackslash(StripEnd(text)) && i + 1 < |lines|
    then LogicalText(lines, i + 1, StripEnd(DropLast(StripEnd(text))) + " " + Strip(lines[i + 1]))
    else (text, i)
  }

  predicate StartsName(c: char) { 'a' <= c <= 'z' || 'A' <= c <= 'Z' || c == '_' }

  function IdentifierEnd(s: string, p: nat): (r: nat)
    requires p <= |s|
    ensures p <= r <= |s|
    decreases |s| - p
  {
    if p < |s| && (StartsName(s[p]) || '0' <= s[p] <= '9') then IdentifierEnd(s, p + 1) else p
  }

  /** The assignment operators, by their first character. */
  function OperatorAt(s: string, p: nat): (r: Option<nat>)
    requires p <= |s|
    ensures r.Some? ==> p + r.value <= |s| && r.value > 0 && s[p + r.value - 1] == '='
  {
    if p + 1 < |s| && (s[p] == ':' || s[p] == '?' || s[p] == '+') && s[p + 1] == '=' then Some(2)
    else if p < |s| && s[p] == '=' then Some(1)
    else None
  }

  datatype Assignment = Assignment(name: string, operator: char, value: string)

  function AssignmentOf(s: string): Option<Assignment> {
    if |s| == 0 || !StartsName(s[0]) then None
    else
      var e := IdentifierEnd(s, 0);
      var q := SkipSpace(s, e);
      match OperatorAt(s, q)
      case None => None
      case Some(n) => Some(Assignment(s[..e], s[q], Strip(s[q + n..])))
  }

  // ---------------------------------------------------------------- parsing

  /** What is known so far; the last `current` rules receive the recipes that follow. */
  datatype Parsing = Parsing(variables: Variables, rules: seq<MakeRule>, current: nat) {
    function AddRecipe(recipe: string): Parsing {
      this.(rules := seq(|rules|, i requires 0 <= i < |rules| =>
              if i >= |rules| - current then rules[i].(recipes := rules[i].recipes + [recipe]) else rules[i]))
    }

    function Assign(a: Assignment): Parsing {
      if a.operator == '?' && a.name in variables then this
      else
        this.(variables := variables[a.name :=
                if a.operator == '+' && a.name in variables then Strip(variables[a.name] + " " + a.value)
                else if a.operator == ':' then Expand(a.value, variables)
                else a.value])
    }

    /** One rule for every target, all with the same prerequisites; those after a bar are order-only. */
    function WithRules(targets: seq<string>, tokens: seq<string>, number: nat): Parsing {
      var bar := BarIndex(tokens, 0);
      this.(rules := rules + RulesFor(targets, tokens[..bar], if bar == |tokens| then [] else tokens[bar + 1..], number),
            current := |targets|)
    }

    function AddRules(text: string, number: nat): Parsing {
      var colon := IndexFrom(text, ':', 0);
      if colon == |text| then this
      else
        var targets := Words(Expand(Strip(text[..colon]), variables));
        if targets == [".PHONY"] then this
        else WithRules(targets, Words(Expand(Strip(text[colon + 1..]), variables)), number)
    }

    function LogicalLine(text: string, number: nat): Parsing {
      var idle := this.(current := 0);
      if text == "" || text[0] == '#' then idle
      else match AssignmentOf(text)
        case Some(a) => idle.Assign(a)
        case None => idle.AddRules(StripEnd(text[..IndexFrom(text, '#', 0)]), number)
    }
  }

  function BarIndex(tokens: seq<string>, p: nat): (r: nat)
    requires p <= |tokens|
    ensures p <= r <= |tokens|
    decreases |tokens| - p
  {
    if p < |tokens| && tokens[p] != "|" then BarIndex(tokens, p + 1) else p
  }

  function RulesFor(targets: seq<string>, normal: seq<string>, orderOnly: seq<string>, number: nat): (r: seq<MakeRule>)
    ensures |r| == |targets|
  {
    if |targets| == 0 then []
    else [MakeRule(targets[0], normal, orderOnly, [], number)] + RulesFor(targets[1..], normal, orderOnly, number)
  }

  predicate IsRecipe(line: string) { |line| > 0 && line[0] == '\t' }

  /** Read the logical line that starts at line `i`; also the line after it. */
  function LineStep(lines: seq<string>, i: nat, p: Parsing): (r: (Parsing, nat))
    requires i < |lines|
    ensures i < r.1 <= |lines|
  {
    if IsRecipe(lines[i]) then
      var (text, j) := RecipeText(lines, i, Strip(lines[i][1..]));
      (if text != "" then p.AddRecipe(text) else p, j + 1)
    else
      var (text, j) := LogicalText(lines, i, lines[i]);
      (p.LogicalLine(Strip(text), i + 1), j + 1)
  }

  function ParseFrom(lines: seq<string>, i: nat, p: Parsing): Parsing
    decreases |lines| - i
  {
    if i >= |lines| then p
    else
      var (next, j) := LineStep(lines, i, p);
      ParseFrom(lines, j, next)
  }

  function ExpandRule(rule: MakeRule, variables: Variables): MakeRule {
    MakeRule(Expand(rule.target, variables), ExpandPrerequisites(rule.normal, variables),
             ExpandPrerequisites(rule.orderOnly, variables), ExpandAll(rule.recipes, variables), rule.line)
  }

  function ExpandAll(texts: seq<string>, variables: Variables): seq<string> {
    if |texts| == 0 then [] else [Expand(texts[0], variables)] + ExpandAll(texts[1..], variables)
  }

  function ExpandRules(rules: seq<MakeRule>, variables: Variables): (r: seq<MakeRule>)
    ensures |r| == |rules|
  {
    if |rules| == 0 then [] else [ExpandRule(rules[0], variables)] + ExpandRules(rules[1..], variables)
  }

  function Parse(text: string): MakefileModel {
    var p := ParseFrom(Lines(text), 0, Parsing(map[], [], 0));
    MakefileModel(ExpandRules(p.rules, p.variables), p.variables)
  }

  // ---------------------------------------------------------------- the loops

  method ParseMakefile(text: string) returns (model: MakefileModel)
    ensures model == Parse(text)
  {
    var physicalLines := Lines(text);
    var p := Parsing(map[], [], 0);
    var lineIndex := 0;
    while lineIndex < |physicalLines|
      invariant 0 <= lineIndex <= |physicalLines|
      invariant ParseFrom(physicalLines, lineIndex, p) == ParseFrom(physicalLines, 0, Parsing(map[], [], 0))
    {
      p, lineIndex := ParseLine(physicalLines, lineIndex, p);
    }
    var rules := [];
    for n := 0 to |p.rules|
      invariant rules + ExpandRules(p.rules[n..], p.variables) == ExpandRules(p.rules, p.variables)
    {
      var rule := p.rules[n];
      assert p.rules[n..][1..] == p.rules[n + 1..];
      rules := rules + [ExpandRule(rule, p.variables)];
    }
    return MakefileModel(rules, p.variables);
  }

  method ParseLine(lines: seq<string>, start: nat, before: Parsing) returns (p: Parsing, lineIndex: nat)
    requires start < |lines|
    ensures (p, lineIndex) == LineStep(lines, start, before)
  {
    p, lineIndex := before, start;
    var rawLine := lines[lineIndex];
    if IsRecipe(rawLine) {
      var recipe := Strip(rawLine[1..]);
      while EndsInBackslash(recipe) && lineIndex + 1 < |lines|
        invariant start <= lineIndex < |lines|
        invariant RecipeText(lines, lineIndex, recipe) == RecipeText(lines, start, Strip(rawLine[1..]))
        decreases |lines| - lineIndex
      {
        recipe := StripEnd(DropLast(recipe));
        lineIndex := lineIndex + 1;
        recipe := recipe + " " + StripStart(lines[lineIndex]);
      }
      if recipe != "" {
        p := p.AddRecipe(recipe);
      }
      return p, lineIndex + 1;
    }
    var logicalLine := rawLine;
    while EndsInBackslash(StripEnd(logicalLine)) && lineIndex + 1 < |lines|
      invariant start <= lineIndex < |lines|
      invariant LogicalText(lines, lineIndex, logicalLine) == LogicalText(lines, start, rawLine)
      decreases |lines| - lineIndex
    {
      logicalLine := StripEnd(DropLast(StripEnd(logicalLine)));
      lineIndex := lineIndex + 1;
      logicalLine := logicalLine + " " + Strip(lines[lineIndex]);
    }
    return p.LogicalLine(Strip(logicalLine), start + 1), lineIndex + 1;
  }
}
