/**
  Text and logical lines of a Makefile, as the parser reads them: physical lines, words, references, and single lines.
 */
module MakefileText {
  import opened Wrappers
  import opened Texts
  import opened Makefiles

  /** A word that means nothing special to the parser before it is split off. */
  predicate TokenChar(c: char) {
    !IsSpace(c) && c != ':' && c != '#' && c != '$' && c != '=' && c != '\\'
  }

  predicate Token(s: string) {
    |s| > 0 && forall k :: 0 <= k < |s| ==> TokenChar(s[k])
  }

  predicate Tokens(words: seq<string>) {
    forall k :: 0 <= k < |words| ==> Token(words[k])
  }

  // ---------------------------------------------------------------- physical lines

  lemma {:induction false} IndexIs(s: string, c: char, p: nat, k: nat)
    requires p <= k <= |s| && (k < |s| ==> s[k] == c)
    requires forall j :: p <= j < k ==> s[j] != c
    ensures IndexFrom(s, c, p) == k
    decreases k - p
  {
    if p < k { IndexIs(s, c, p + 1, k); }
  }

  lemma {:induction false} IndexSkips(s: string, c: char, p: nat)
    requires p <= |s|
    ensures forall j :: p <= j < IndexFrom(s, c, p) ==> s[j] != c
    decreases |s| - p
  {
    if p < |s| && s[p] != c { IndexSkips(s, c, p + 1); }
  }

  lemma LinesOfLine(line: string, rest: string, s: string)
    requires '\n' !in line && s == line + "\n" + rest
    ensures Lines(s) == [line] + Lines(rest)
  {
    assert forall j :: 0 <= j < |line| ==> s[j] == line[j];
    IndexIs(s, '\n', 0, |line|);
    assert s[..|line|] == line && s[|line| + 1..] == rest;
  }

  lemma FirstLineOfSum(a: string, b: string, sum: string, n: nat)
    requires sum == a + b && n < |a| && n == IndexFrom(a, '\n', 0)
    ensures IndexFrom(sum, '\n', 0) == n && sum[..n] == a[..n] && sum[n + 1..] == a[n + 1..] + b
  {
    IndexSkips(a, '\n', 0);
    assert forall j :: 0 <= j <= n ==> sum[j] == a[j];
    IndexIs(sum, '\n', 0, n);
  }

  predicate Broken(s: string) { s == "" || s[|s| - 1] == '\n' }

  lemma FirstLine(a: string) returns (n: nat)
    requires Broken(a) && a != ""
    ensures n == IndexFrom(a, '\n', 0) < |a| && Broken(a[n + 1..])
  {
    n := IndexFrom(a, '\n', 0);
    IndexSkips(a, '\n', 0);
  }

  lemma SplitFirstLine(a: string, b: string) returns (line: string, rest: string)
    requires Broken(a) && a != ""
    ensures |rest| < |a| && Broken(rest)
    ensures Lines(a) == [line] + Lines(rest) && Lines(a + b) == [line] + Lines(rest + b)
  {
    var n := FirstLine(a);
    line, rest := a[..n], a[n + 1..];
    FirstLineOfSum(a, b, a + b, n);
  }

  lemma {:induction false} LinesSplit(a: string, b: string)
    requires Broken(a)
    ensures Lines(a + b) == Lines(a) + Lines(b)
    decreases |a|
  {
    if a == "" {
      assert a + b == b;
    } else {
      var line, rest := SplitFirstLine(a, b);
      LinesSplit(rest, b);
      ConcatAssociates([line], Lines(rest), Lines(b));
    }
  }

  // ---------------------------------------------------------------- references and words

  lemma {:induction false} NoReferences(s: string, p: nat, variables: Variables)
    requires p <= |s| && '$' !in s
    ensures ExpandOnce(s, p, variables) == (s[p..], false)
    decreases |s| - p
  {
    if p < |s| {
      NoReferences(s, p + 1, variables);
      assert s[p] != '$';
      assert s[p..] == [s[p]] + s[p + 1..];
    } else {
      assert s[p..] == "";
    }
  }

  lemma ExpandsToItself(s: string, variables: Variables)
    requires '$' !in s
    ensures Expand(s, variables) == s
  {
    NoReferences(s, 0, variables);
    assert s[0..] == s;
  }

  lemma {:induction false} WordEndIs(s: string, p: nat, word: string)
    requires At(s, p, word) && forall k :: 0 <= k < |word| ==> !IsSpace(word[k])
    requires p + |word| == |s| || IsSpace(s[p + |word|])
    ensures WordEnd(s, p) == p + |word|
    decreases |word|
  {
    if |word| > 0 {
      assert word == [word[0]] + word[1..];
      AtParts(s, p, [word[0]], word[1..]);
      AtHead(s, p, word);
      WordEndIs(s, p + 1, word[1..]);
    }
  }

  lemma WordReads(s: string, p: nat, name: string)
    requires Token(name) && At(s, p, name) && (p + |name| == |s| || IsSpace(s[p + |name|]))
    ensures WordsFrom(s, p) == [name] + WordsFrom(s, p + |name|)
  {
    AtHead(s, p, name);
    WordEndIs(s, p, name);
  }

  lemma WordsSkipBlank(s: string, p: nat)
    requires p < |s| && IsSpace(s[p])
    ensures WordsFrom(s, p) == WordsFrom(s, p + 1)
  {
    assert SkipSpace(s, p) == SkipSpace(s, p + 1);
  }

  lemma AtWord(s: string, p: nat, first: string, tail: string)
    requires At(s, p, first + (" " + tail))
    ensures At(s, p, first) && p + |first| < |s| && s[p + |first|] == ' ' && At(s, p + |first| + 1, tail)
  {
    AtParts(s, p, first, " " + tail);
    AtParts(s, p + |first|, " ", tail);
    AtHead(s, p + |first|, " ");
  }

  lemma FirstWordReads(s: string, p: nat, first: string, tail: string)
    requires Token(first) && At(s, p, first + (" " + tail))
    ensures p + |first| + 1 <= |s| && At(s, p + |first| + 1, tail)
    ensures WordsFrom(s, p) == [first] + WordsFrom(s, p + |first| + 1)
  {
    AtWord(s, p, first, tail);
    WordReads(s, p, first);
    WordsSkipBlank(s, p + |first|);
  }

  lemma {:induction false} WordsOfJoined(s: string, p: nat, names: seq<string>, joined: string)
    requires Tokens(names) && |names| > 0 && joined == Joined(names, " ") && At(s, p, joined) && p + |joined| == |s|
    ensures WordsFrom(s, p) == names
    decreases |names|
  {
    var first, rest := names[0], names[1..];
    assert names == [first] + rest;
    if |names| == 1 {
      WordReads(s, p, first);
    } else {
      var tail := Joined(rest, " ");
      assert joined == first + (" " + tail);
      FirstWordReads(s, p, first, tail);
      WordsOfJoined(s, p + |first| + 1, rest, tail);
    }
  }

  lemma {:induction false} JoinedIsClean(names: seq<string>)
    requires Tokens(names) && |names| > 0
    ensures Clean(Joined(names, " "))
  {
    if |names| > 1 {
      JoinedIsClean(names[1..]);
    }
  }

  lemma {:induction false} JoinedEndsPlain(names: seq<string>)
    requires Tokens(names) && |names| > 0
    ensures Joined(names, " ") != "" && !EndsInBackslash(Joined(names, " "))
  {
    if |names| > 1 {
      JoinedEndsPlain(names[1..]);
    }
  }

  lemma {:induction false} JoinedHasNoBreak(names: seq<string>)
    requires Tokens(names)
    ensures forall c :: (c == '\n' || c == '=' || c == '#' || c == '$' || c == ':') ==> c !in Joined(names, " ")
  {
    if |names| > 1 {
      assert Tokens(names[1..]);
      JoinedHasNoBreak(names[1..]);
    }
  }

  lemma WordsReadBack(names: seq<string>)
    requires Tokens(names) && |names| > 0
    ensures Words(Joined(names, " ")) == names
  {
    var s := Joined(names, " ");
    assert s[0..0 + |s|] == s;
    WordsOfJoined(s, 0, names, s);
  }

  lemma NamesRead(names: seq<string>, variables: Variables)
    requires Tokens(names) && |names| > 0
    ensures Words(Expand(Strip(Joined(names, " ")), variables)) == names
  {
    var s := Joined(names, " ");
    JoinedIsClean(names);
    CleanStays(s);
    JoinedHasNoBreak(names);
    ExpandsToItself(s, variables);
    WordsReadBack(names);
  }

  lemma PrerequisitesRead(names: seq<string>, variables: Variables)
    requires Tokens(names) && |names| > 0
    ensures Words(Expand(Strip(" " + Joined(names, " ")), variables)) == names
  {
    var s := Joined(names, " ");
    JoinedIsClean(names);
    CleanStays(s);
    StripAfterBlank(" " + s, s);
    NamesRead(names, variables);
  }

  lemma {:induction false} PlainPrerequisitesStay(names: seq<string>, variables: Variables)
    requires Tokens(names)
    ensures ExpandPrerequisites(names, variables) == names
  {
    if |names| > 0 {
      var first := [names[0]];
      assert Joined(first, " ") == names[0];
      NamesRead(first, variables);
      CleanStays(names[0]);
      PlainPrerequisitesStay(names[1..], variables);
      assert names == first + names[1..];
    }
  }

  // ---------------------------------------------------------------- single lines

  lemma NoOrderOnly(p: Parsing, targets: seq<string>, names: seq<string>, number: nat)
    requires BarIndex(names, 0) == |names|
    ensures p.WithRules(targets, names, number) ==
            p.(rules := p.rules + RulesFor(targets, names, [], number), current := |targets|)
  {
    assert names[..|names|] == names;
  }

  /** A rule line, once its two halves are read. */
  lemma RuleOfHalves(p: Parsing, text: string, number: nat, colon: nat, targets: seq<string>, names: seq<string>)
    requires colon < |text| && IndexFrom(text, ':', 0) == colon && targets != [".PHONY"]
    requires Words(Expand(Strip(text[..colon]), p.variables)) == targets
    requires Words(Expand(Strip(text[colon + 1..]), p.variables)) == names
    ensures p.AddRules(text, number) == p.WithRules(targets, names, number)
  {
  }

  lemma NoAssignment(s: string)
    requires '=' !in s
    ensures AssignmentOf(s) == None
  {
  }

  lemma SingleLineStep(lines: seq<string>, i: nat, p: Parsing)
    requires i < |lines| && !IsRecipe(lines[i]) && !EndsInBackslash(StripEnd(lines[i]))
    ensures LineStep(lines, i, p) == (p.LogicalLine(Strip(lines[i]), i + 1), i + 1)
  {
  }

  lemma IdleLine(text: string, number: nat, p: Parsing)
    requires |text| == 0 || text[0] == '#'
    ensures p.LogicalLine(text, number) == p.(current := 0)
  {
  }

  lemma IndexOfAbsent(text: string, c: char)
    requires c !in text
    ensures IndexFrom(text, c, 0) == |text|
  {
    IndexIs(text, c, 0, |text|);
  }

  lemma LogicalRule(text: string, number: nat, p: Parsing)
    requires |text| > 0 && text[0] != '#' && AssignmentOf(text).None? && StripEnd(text[..IndexFrom(text, '#', 0)]) == text
    ensures p.LogicalLine(text, number) == p.(current := 0).AddRules(text, number)
  {
  }

  lemma NoTrailingComment(text: string)
    requires Clean(text) && '#' !in text
    ensures StripEnd(text[..IndexFrom(text, '#', 0)]) == text
  {
    IndexOfAbsent(text, '#');
    StripEndStays(text);
    assert text[..|text|] == text;
  }

  lemma ParseStep(lines: seq<string>, i: nat, p: Parsing, next: Parsing, j: nat)
    requires i < |lines| && LineStep(lines, i, p) == (next, j)
    ensures ParseFrom(lines, i, p) == ParseFrom(lines, j, next)
  {
  }

  lemma {:induction false} ExpandRulesSplit(a: seq<MakeRule>, b: seq<MakeRule>, variables: Variables)
    ensures ExpandRules(a + b, variables) == ExpandRules(a, variables) + ExpandRules(b, variables)
  {
    if |a| == 0 {
      assert a + b == b;
    } else {
      assert (a + b)[1..] == a[1..] + b;
      ExpandRulesSplit(a[1..], b, variables);
    }
  }
}
