/**
  Printed references and what one pass of expansion makes of them; where the parser expands; and the lines it cuts short
  or skips.
 */
module MakefileReferences {
  import opened Wrappers
  import opened Texts
  import opened Makefiles
  import opened MakefileText
  import opened MakefileExpansion
  import opened BrokenLines
  import opened MakefileRoundTrip

  /**
    A piece of text with references: a character, a dollar sign that starts no reference, one with empty brackets, which
    is none either, a reference to a variable, one that exchanges a suffix in every word, or one whose substitution lacks its suffix or its equals sign.
   */
  datatype Chunk =
    | Plain(c: char)
    | Dollar
    | Empty(round: bool)
    | Reference(name: string, round: bool)
    | Substitution(name: string, source: string, target: string, round: bool)
    | Odd(name: string, rest: string, round: bool)
  {
    function Body(): string {
      match this
      case Plain(c) => [c]
      case Dollar => "$"
      case Empty(round) => if round then "$()" else "${}"
      case Reference(name, _) => name
      case Substitution(name, source, target, _) => name + (":" + (source + ("=" + target)))
      case Odd(name, rest, _) => name + (":" + rest)
    }

    predicate IsReference() { Reference? || Substitution? || Odd? }

    function Print(): string {
      if !IsReference() then Body() else if round then "$(" + Body() + ")" else "${" + Body() + "}"
    }

    predicate Valid() {
      && (Plain? ==> c != '$')
      && (IsReference() ==> ':' !in name && Body() != "")
      && (IsReference() ==> if round then '(' !in Body() && ')' !in Body() else '{' !in Body() && '}' !in Body())
      && (Substitution? ==> source != "" && '=' !in source)
      && (Odd? ==> '=' !in rest || rest[0] == '=')
    }

    predicate Resolves(variables: Variables) { (Reference? || Substitution?) && name in variables }

    function Meaning(variables: Variables): string {
      if !Resolves(variables) then Print()
      else if Reference? then variables[name]
      else Joined(Exchanged(Words(variables[name]), source, target), " ")
    }
  }

  /** Every word with its suffix exchanged, if it has it. */
  function Exchanged(words: seq<string>, source: string, target: string): (r: seq<string>)
    ensures |r| == |words|
    ensures forall k, base :: 0 <= k < |words| && words[k] == base + source ==> r[k] == base + target
    ensures forall k :: 0 <= k < |words| && !(|source| <= |words[k]| && words[k][|words[k]| - |source|..] == source) ==> r[k] == words[k]
  {
    seq(|words|, k requires 0 <= k < |words| => ExchangedWord(words[k], source, target))
  }

  function PrintChunks(chunks: seq<Chunk>): string {
    if |chunks| == 0 then "" else chunks[0].Print() + PrintChunks(chunks[1..])
  }

  function ChunkMeanings(chunks: seq<Chunk>, variables: Variables): string {
    if |chunks| == 0 then "" else chunks[0].Meaning(variables) + ChunkMeanings(chunks[1..], variables)
  }

  /** A dollar sign before a bracket would start a reference. */
  predicate ValidChunks(chunks: seq<Chunk>) {
    && (forall k :: 0 <= k < |chunks| ==> chunks[k].Valid())
    && forall k :: 0 <= k < |chunks| - 1 && chunks[k].Dollar? ==> chunks[k + 1] != Plain('(') && chunks[k + 1] != Plain('{')
  }

  function ExchangedWord(word: string, source: string, target: string): string {
    if |source| <= |word| && word[|word| - |source|..] == source then word[..|word| - |source|] + target else word
  }

  lemma {:induction false} SubstitutedAt(words: seq<string>, source: string, target: string, k: nat)
    requires k < |words|
    ensures |Substituted(words, source, target)| == |words|
    ensures Substituted(words, source, target)[k] == ExchangedWord(words[k], source, target)
    decreases |words|
  {
    if k > 0 {
      SubstitutedAt(words[1..], source, target, k - 1);
    } else if |words| > 1 {
      SubstitutedAt(words[1..], source, target, 0);
    }
  }

  lemma SubstitutedIsExchanged(words: seq<string>, source: string, target: string)
    ensures Substituted(words, source, target) == Exchanged(words, source, target)
  {
    hide Substituted, ExchangedWord;
    if |words| == 0 {
      NothingSubstituted(source, target);
    } else {
      SubstitutedAt(words, source, target, 0);
      forall k | 0 <= k < |words| ensures Substituted(words, source, target)[k] == ExchangedWord(words[k], source, target) {
        SubstitutedAt(words, source, target, k);
      }
    }
  }

  lemma NothingSubstituted(source: string, target: string)
    ensures Substituted([], source, target) == []
  {
  }

  lemma {:induction false} NameEndsAt(s: string, p: nat, e: nat, open: char, close: char)
    requires p <= e < |s| && s[e] == close && forall k :: p <= k < e ==> s[k] != open && s[k] != close
    ensures NameEnd(s, p, open, close) == e
    decreases e - p
  {
    if p < e { NameEndsAt(s, p + 1, e, open, close); }
  }

  lemma ReferenceIsFound(c: Chunk, rest: string)
    requires c.Valid() && c.IsReference()
    ensures ReferenceAt(c.Print() + rest, 0) == Some((c.Body(), |c.Print()|))
  {
    var t, body := c.Print() + rest, c.Body();
    assert t[0] == '$' && t[1] == (if c.round then '(' else '{') && t[|body| + 2] == (if c.round then ')' else '}');
    assert forall k :: 0 <= k < |body| ==> t[2 + k] == body[k];
    NameEndsAt(t, 2, |body| + 2, t[1], t[|body| + 2]);
    assert t[2..|body| + 2] == body;
  }

  lemma NameIsCut(name: string, rest: string, reference: string)
    requires reference == name + (":" + rest) && ':' !in name
    ensures IndexFrom(reference, ':', 0) == |name| < |reference|
    ensures reference[..|name|] == name && reference[|name| + 1..] == rest
  {
    assert forall k :: 0 <= k < |name| ==> reference[k] == name[k];
    IndexIs(reference, ':', 0, |name|);
  }

  lemma SuffixesAreCut(source: string, target: string, substitution: string)
    requires substitution == source + ("=" + target) && '=' !in source
    ensures IndexFrom(substitution, '=', 0) == |source| < |substitution|
    ensures substitution[..|source|] == source && substitution[|source| + 1..] == target
  {
    assert forall k :: 0 <= k < |source| ==> substitution[k] == source[k];
    IndexIs(substitution, '=', 0, |source|);
  }

  lemma SubstitutionMeans(c: Chunk, variables: Variables)
    requires c.Valid() && c.Substitution?
    ensures ResolveReference(c.Body(), variables) == if c.Resolves(variables) then Some(c.Meaning(variables)) else None
  {
    hide Joined, Words, Substituted, Exchanged, Chunk.Print;
    NameIsCut(c.name, c.source + ("=" + c.target), c.Body());
    SuffixesAreCut(c.source, c.target, c.source + ("=" + c.target));
    if c.name in variables { SubstitutedIsExchanged(Words(variables[c.name]), c.source, c.target); }
  }

  lemma OddMeans(c: Chunk, variables: Variables)
    requires c.Valid() && c.Odd?
    ensures ResolveReference(c.Body(), variables) == None
  {
    hide Joined, Words, Substituted, Chunk.Print;
    NameIsCut(c.name, c.rest, c.Body());
    if '=' in c.rest {
      IndexIs(c.rest, '=', 0, 0);
    } else {
      IndexOfAbsent(c.rest, '=');
    }
  }

  /** A reference is resolved to what it means, or left alone. */
  lemma ReferenceMeans(c: Chunk, variables: Variables)
    requires c.Valid() && c.IsReference()
    ensures ResolveReference(c.Body(), variables) == if c.Resolves(variables) then Some(c.Meaning(variables)) else None
  {
    hide Joined, Words, Substituted, Exchanged, Chunk.Print;
    match c
    case Reference(name, _) =>
      IndexOfAbsent(name, ':');
      assert name[..|name|] == name;
    case Substitution(_, _, _, _) => SubstitutionMeans(c, variables);
    case Odd(_, _, _) => OddMeans(c, variables);
  }

  lemma NoReferenceThere(c: Chunk, rest: string)
    requires c.Valid() && !c.IsReference() && (c.Dollar? ==> rest == "" || (rest[0] != '(' && rest[0] != '{'))
    ensures ReferenceAt(c.Print() + rest, 0) == None
    ensures c.Empty? ==> ReferenceAt(c.Print() + rest, 1) == None && ReferenceAt(c.Print() + rest, 2) == None
  {
    var t := c.Print() + rest;
    if c.Empty? {
      assert t[0] == '$' && t[1] == (if c.round then '(' else '{') && t[2] == (if c.round then ')' else '}');
      NameEndsAt(t, 2, 2, t[1], t[2]);
    } else {
      assert |t| > 1 ==> t[1] == rest[0];
    }
  }

  lemma EmptyReads(s: string, variables: Variables)
    requires |s| >= 3
    requires ReferenceAt(s, 0) == None && ReferenceAt(s, 1) == None && ReferenceAt(s, 2) == None
    ensures ExpandOnce(s, 0, variables) == (s[..3] + ExpandOnce(s, 3, variables).0, ExpandOnce(s, 3, variables).1)
  {
    hide ReferenceAt, ResolveReference;
    var first, second, third := ExpandOnce(s, 1, variables), ExpandOnce(s, 2, variables), ExpandOnce(s, 3, variables);
    assert second == ([s[2]] + third.0, third.1);
    assert first == ([s[1]] + second.0, second.1);
    assert [s[0]] + ([s[1]] + ([s[2]] + third.0)) == s[..3] + third.0;
  }

  /** One pass over a chunk: its meaning, and on with the rest. */
  lemma ChunkReads(c: Chunk, rest: string, variables: Variables)
    requires c.Valid() && (c.Dollar? ==> rest == "" || (rest[0] != '(' && rest[0] != '{'))
    ensures var s, next := c.Print() + rest, ExpandOnce(rest, 0, variables);
            ExpandOnce(s, 0, variables) == (c.Meaning(variables) + next.0, c.Resolves(variables) || next.1)
  {
    hide ReferenceAt, ResolveReference;
    var s, printed := c.Print() + rest, c.Print();
    OnceShift(printed, rest, 0, variables);
    if c.IsReference() {
      ReferenceIsFound(c, rest);
      ReferenceMeans(c, variables);
      assert s[0..|printed|] == printed;
    } else {
      NoReferenceThere(c, rest);
      if c.Empty? {
        assert s[..3] == printed;
        EmptyReads(s, variables);
      }
    }
  }

  lemma ChunksStartWith(chunks: seq<Chunk>)
    requires ValidChunks(chunks) && |chunks| > 0 && chunks[0] != Plain('(') && chunks[0] != Plain('{')
    ensures PrintChunks(chunks) != "" && PrintChunks(chunks)[0] != '(' && PrintChunks(chunks)[0] != '{'
  {
  }

  /**
    One pass over any printed text replaces exactly the references to known variables by what they mean, both kinds of
    bracket alike, and tells whether there was one.
   */
  lemma {:induction false} OnePassReads(chunks: seq<Chunk>, variables: Variables)
    requires ValidChunks(chunks)
    ensures ExpandOnce(PrintChunks(chunks), 0, variables).0 == ChunkMeanings(chunks, variables)
    ensures ExpandOnce(PrintChunks(chunks), 0, variables).1 <==> exists k :: 0 <= k < |chunks| && chunks[k].Resolves(variables)
    decreases |chunks|
  {
    hide ExpandOnce, Chunk.Meaning, Chunk.Print, Chunk.Resolves, Chunk.Valid;
    if |chunks| > 0 {
      var rest := chunks[1..];
      assert forall k :: 0 <= k < |rest| ==> rest[k] == chunks[k + 1];
      OnePassReads(rest, variables);
      if chunks[0].Dollar? && |rest| > 0 { ChunksStartWith(rest); }
      ChunkReads(chunks[0], PrintChunks(rest), variables);
      assert chunks == [chunks[0]] + rest;
    } else {
      NothingToRead(variables);
    }
  }

  lemma NothingToRead(variables: Variables)
    ensures ExpandOnce("", 0, variables) == ("", false)
  {
  }

  // ---------------------------------------------------------------- where the parser expands

  predicate Blank(s: string) { forall k :: 0 <= k < |s| ==> IsSpace(s[k]) }

  lemma {:induction false} BlanksSkipped(s: string, p: nat, q: nat)
    requires p <= q <= |s| && (forall k :: p <= k < q ==> IsSpace(s[k])) && (q < |s| ==> !IsSpace(s[q]))
    ensures SkipSpace(s, p) == q
    decreases q - p
  {
    if p < q { BlanksSkipped(s, p + 1, q); }
  }

  lemma StripsTo(blanks: string, value: string)
    requires Blank(blanks) && (value == "" || Clean(value))
    ensures Strip(blanks + value) == value
  {
    var s := blanks + value;
    BlanksSkipped(s, 0, |blanks|);
    assert s[|blanks|..] == value;
    if value != "" { StripEndStays(value); }
  }

  /** A name, an operator and a value are read whatever blanks stand between them, none included. */
  lemma AssignmentIsSpelled(name: string, before: string, operator: char, after: string, value: string, text: string)
    requires IsIdentifier(name) && operator in "=:?+" && Blank(before) && Blank(after) && (value == "" || Clean(value))
    requires text == name + (before + ((if operator == '=' then "=" else [operator, '=']) + (after + value)))
    ensures AssignmentOf(text) == Some(Assignment(name, operator, value))
  {
    hide Letter, Strip;
    var op, end := if operator == '=' then "=" else [operator, '='], |name| + |before|;
    OperatorStands(name, before, op, after + value, text);
    NameLetters(name[0]);
    NameIsOver(text, |name|, before, operator);
    IdentifierEndsAt(text, 0, name);
    BlanksSkipped(text, |name|, end);
    StripsTo(after, value);
    hide IdentifierEnd, SkipSpace, IsIdentifier, Blank, Clean;
    assert OperatorAt(text, end) == Some(|op|);
  }

  lemma OperatorStands(name: string, before: string, op: string, rest: string, text: string)
    requires text == name + (before + (op + rest)) && 1 <= |op| <= 2
    ensures var end := |name| + |before|;
            && end + |op| <= |text| && text[end] == op[0] && (|op| == 2 ==> text[end + 1] == op[1])
            && text[end + |op|..] == rest && text[..|name|] == name
            && forall k :: 0 <= k < |before| ==> text[|name| + k] == before[k]
  {
  }

  lemma NameIsOver(text: string, n: nat, before: string, operator: char)
    requires operator in "=:?+" && Blank(before) && n < |text|
    requires text[n] == if before == "" then operator else before[0]
    ensures !StartsName(text[n]) && !('0' <= text[n] <= '9')
  {
  }

  /** The four operators on any value: only `:=` expands it, with the variables known there. */
  lemma AssignedValue(p: Parsing, name: string, value: string)
    ensures p.Assign(Assignment(name, '=', value)) == p.(variables := p.variables[name := value])
    ensures p.Assign(Assignment(name, ':', value)) == p.(variables := p.variables[name := Expand(value, p.variables)])
    ensures p.Assign(Assignment(name, '?', value)) ==
            if name in p.variables then p else p.(variables := p.variables[name := value])
    ensures p.Assign(Assignment(name, '+', value)) ==
            p.(variables := p.variables[name := if name in p.variables then Strip(p.variables[name] + " " + value) else value])
  {
  }

  lemma {:induction false} RulesAreExpanded(rules: seq<MakeRule>, variables: Variables, k: nat)
    requires k < |rules|
    ensures var r, e := rules[k], ExpandRules(rules, variables)[k];
            e.target == Expand(r.target, variables) && e.line == r.line
            && e.normal == ExpandPrerequisites(r.normal, variables)
            && e.orderOnly == ExpandPrerequisites(r.orderOnly, variables)
            && e.recipes == ExpandAll(r.recipes, variables)
  {
    if k > 0 { RulesAreExpanded(rules[1..], variables, k - 1); }
  }

  lemma {:induction false} RecipesAreExpanded(recipes: seq<string>, variables: Variables)
    ensures |ExpandAll(recipes, variables)| == |recipes|
    ensures forall j :: 0 <= j < |recipes| ==> ExpandAll(recipes, variables)[j] == Expand(recipes[j], variables)
  {
    if |recipes| > 0 { RecipesAreExpanded(recipes[1..], variables); }
  }

  /** Prerequisites are expanded and split again, in order. */
  lemma {:induction false} PrerequisitesAreExpanded(a: seq<string>, item: string, b: seq<string>, variables: Variables)
    ensures ExpandPrerequisites(a + [item] + b, variables) ==
            ExpandPrerequisites(a, variables) + Words(Expand(item, variables)) + ExpandPrerequisites(b, variables)
    ensures ExpandPrerequisites([], variables) == []
    decreases |a|
  {
    hide Expand, Words;
    if |a| == 0 {
      assert (a + [item] + b)[1..] == b && (a + [item] + b)[0] == item;
      assert [] + Words(Expand(item, variables)) == Words(Expand(item, variables));
    } else {
      assert (a + [item] + b)[1..] == a[1..] + [item] + b && (a + [item] + b)[0] == a[0];
      PrerequisitesAreExpanded(a[1..], item, b, variables);
    }
  }

  /** When all lines are read, every part of every rule is expanded with the variables known at the end. */
  lemma ParsedIsExpanded(text: string, k: nat)
    requires k < |Parse(text).rules|
    ensures var p := ParseFrom(Lines(text), 0, Parsing(map[], [], 0));
            var r, e := p.rules[k], Parse(text).rules[k];
            && Parse(text).variables == p.variables && |Parse(text).rules| == |p.rules|
            && e.target == Expand(r.target, p.variables) && e.line == r.line
            && e.normal == ExpandPrerequisites(r.normal, p.variables)
            && e.orderOnly == ExpandPrerequisites(r.orderOnly, p.variables)
            && |e.recipes| == |r.recipes|
            && forall j :: 0 <= j < |r.recipes| ==> e.recipes[j] == Expand(r.recipes[j], p.variables)
  {
    hide ParseFrom, Expand, ExpandPrerequisites, ExpandRules, ExpandAll, Lines;
    var p := ParseFrom(Lines(text), 0, Parsing(map[], [], 0));
    RulesAreExpanded(p.rules, p.variables, k);
    RecipesAreExpanded(p.rules[k].recipes, p.variables);
  }

  /** A rule line: both sides of the colon are expanded before they are split, and a `.PHONY` line is no rule. */
  lemma RuleLineExpands(p: Parsing, left: string, right: string, number: nat)
    requires ':' !in left
    ensures var targets, tokens := Words(Expand(Strip(left), p.variables)), Words(Expand(Strip(right), p.variables));
            p.AddRules(left + (":" + right), number) ==
            if targets == [".PHONY"] then p else p.WithRules(targets, tokens, number)
  {
    NameIsCut(left, right, left + (":" + right));
  }

  /** A comment behind a rule is cut off, a line that is one is skipped, and either way no rule takes recipes any more. */
  lemma CommentsAreCut(p: Parsing, rule: string, comment: string, number: nat)
    requires '#' !in rule && AssignmentOf(rule + ("#" + comment)).None?
    ensures p.LogicalLine(rule + ("#" + comment), number) ==
            if rule == "" then p.(current := 0) else p.(current := 0).AddRules(StripEnd(rule), number)
  {
    hide AssignmentOf, Parsing.AddRules, StripEnd;
    var text := rule + ("#" + comment);
    assert forall k :: 0 <= k < |rule| ==> text[k] == rule[k];
    IndexIs(text, '#', 0, |rule|);
    assert text[..|rule|] == rule;
    if rule != "" { assert rule[0] in rule; }
  }
}
