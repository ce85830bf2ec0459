/**
  How much the prerequisites of a rule hold: splitting and expanding lose only blanks, and a tail always adds something.
 */
module RuleSizes {
  import opened Wrappers
  import opened Texts
  import opened Makefiles
  import opened MakefileText
  import opened MakefileExpansion
  import opened RepairedMakefile
  import opened DanglingTails

  // ---------------------------------------------------------------- counting what names hold

  /** How many characters are not blank. */
  function Ink(s: string): nat { if s == "" then 0 else (if IsSpace(s[0]) then 0 else 1) + Ink(s[1..]) }

  lemma {:induction false} InkOfSum(a: string, b: string)
    ensures Ink(a + b) == Ink(a) + Ink(b)
    decreases |a|
  {
    if a == "" {
      assert a + b == b;
    } else {
      assert (a + b)[1..] == a[1..] + b;
      InkOfSum(a[1..], b);
    }
  }

  lemma {:induction false} InkOfWord(s: string)
    requires forall k :: 0 <= k < |s| ==> !IsSpace(s[k])
    ensures Ink(s) == |s|
  {
    if s != "" { InkOfWord(s[1..]); }
  }

  function Total(words: seq<string>): nat { if |words| == 0 then 0 else |words[0]| + Total(words[1..]) }

  lemma {:induction false} TotalOfSum(a: seq<string>, b: seq<string>)
    ensures Total(a + b) == Total(a) + Total(b)
  {
    if |a| == 0 {
      assert a + b == b;
    } else {
      assert (a + b)[1..] == a[1..] + b;
      TotalOfSum(a[1..], b);
    }
  }

  lemma {:induction false} WordHasNoBlank(s: string, p: nat)
    requires p <= |s|
    ensures forall k :: p <= k < WordEnd(s, p) ==> !IsSpace(s[k])
    ensures WordEnd(s, p) < |s| ==> IsSpace(s[WordEnd(s, p)])
    decreases |s| - p
  {
    if p < |s| && !IsSpace(s[p]) { WordHasNoBlank(s, p + 1); }
  }

  lemma {:induction false} InkOfBlanks(s: string, p: nat)
    requires p <= |s|
    ensures Ink(s[p..]) == Ink(s[SkipSpace(s, p)..])
    decreases |s| - p
  {
    if p < |s| && IsSpace(s[p]) {
      assert s[p..][1..] == s[p + 1..];
      InkOfBlanks(s, p + 1);
    }
  }

  /** Splitting a text into words loses only blanks. */
  lemma {:induction false} WordsKeepInk(s: string, p: nat)
    requires p <= |s|
    ensures Total(WordsFrom(s, p)) == Ink(s[p..])
    decreases |s| - p
  {
    var q := SkipSpace(s, p);
    InkOfBlanks(s, p);
    if q < |s| {
      var e := WordEnd(s, q);
      WordHasNoBlank(s, q);
      WordsKeepInk(s, e);
      assert s[q..] == s[q..e] + s[e..];
      InkOfSum(s[q..e], s[e..]);
      InkOfWord(s[q..e]);
      assert WordsFrom(s, p) == [s[q..e]] + WordsFrom(s, e);
      TotalOfSum([s[q..e]], WordsFrom(s, e));
    } else {
      assert s[q..] == "";
    }
  }

  /** What the names hold once they are expanded. */
  function Held(names: seq<string>, variables: Variables): nat {
    if |names| == 0 then 0 else Ink(Expand(names[0], variables)) + Held(names[1..], variables)
  }

  lemma {:induction false} HeldOfSum(a: seq<string>, b: seq<string>, variables: Variables)
    ensures Held(a + b, variables) == Held(a, variables) + Held(b, variables)
  {
    if |a| == 0 {
      assert a + b == b;
    } else {
      assert (a + b)[1..] == a[1..] + b;
      HeldOfSum(a[1..], b, variables);
    }
  }

  lemma {:induction false} ExpandedHold(names: seq<string>, variables: Variables)
    ensures Total(ExpandPrerequisites(names, variables)) == Held(names, variables)
  {
    if |names| > 0 {
      var text := Expand(names[0], variables);
      WordsKeepInk(text, 0);
      assert text[0..] == text;
      ExpandedHold(names[1..], variables);
      TotalOfSum(Words(text), ExpandPrerequisites(names[1..], variables));
    }
  }

  predicate TailFrom(s: string, p: nat)
    requires p <= |s|
  {
    p == |s| || Tail(s[p..])
  }

  lemma TailGoesOn(s: string, p: nat, e: nat)
    requires p <= e <= |s| && TailFrom(s, p)
    ensures TailFrom(s, e)
  {
    if e < |s| {
      var w, v := s[p..], s[e..];
      assert v == w[e - p..];
    }
  }

  lemma TailHasAWord(s: string, p: nat)
    requires p < |s| && TailFrom(s, p)
    ensures SkipSpace(s, p) < |s|
  {
    SkipSpaceSkips(s, p);
    assert s[p..][|s| - 1 - p] == s[|s| - 1];
  }

  lemma TailWord(s: string, p: nat, q: nat, e: nat, variables: Variables)
    requires p <= q < e <= |s| && TailFrom(s, p) && forall k :: q <= k < e ==> !IsSpace(s[k])
    ensures Expand(s[q..e], variables) == s[q..e] && Ink(s[q..e]) == e - q && '\\' in s[q..e]
  {
    var word := s[q..e];
    forall k | 0 <= k < |word| ensures word[k] == '\\' {
      assert s[p..][q + k - p] == word[k] && !IsSpace(s[q + k]);
    }
    ExpandsToItself(word, variables);
    InkOfWord(word);
    assert word[0] == '\\';
  }

  /** The words of a tail are backslashes: no bar, and there is one if the tail is not empty. */
  lemma {:induction false} TailWords(s: string, p: nat, variables: Variables)
    requires p <= |s| && TailFrom(s, p)
    ensures "|" !in WordsFrom(s, p)
    ensures p < |s| ==> Held(WordsFrom(s, p), variables) > 0
    decreases |s| - p
  {
    if p < |s| {
      TailHasAWord(s, p);
      var q := SkipSpace(s, p);
      var e := WordEnd(s, q);
      WordHasNoBlank(s, q);
      TailWord(s, p, q, e, variables);
      TailGoesOn(s, p, e);
      TailWords(s, e, variables);
      assert WordsFrom(s, p) == [s[q..e]] + WordsFrom(s, e);
    }
  }

  lemma {:induction false} WordEndOfSum(s: string, w: string, p: nat)
    requires p <= |s|
    ensures WordEnd(s, p) < |s| ==> WordEnd(s + w, p) == WordEnd(s, p)
    ensures WordEnd(s, p) == |s| ==> WordEnd(s + w, p) >= |s|
    decreases |s| - p
  {
    if p < |s| {
      assert (s + w)[p] == s[p];
      if !IsSpace(s[p]) { WordEndOfSum(s, w, p + 1); }
    }
  }

  lemma SkipSpaceOfSum(s: string, w: string, p: nat)
    requires p <= |s| && SkipSpace(s, p) < |s|
    ensures SkipSpace(s + w, p) == SkipSpace(s, p)
  {
    assert (s + w)[..|s|] == s == s[..|s|];
    SkipSpaceSame(s, s + w, |s|, p);
  }

  lemma {:induction false} SkipSpaceInTail(s: string, w: string, p: nat)
    requires p <= |s| && SkipSpace(s, p) == |s|
    ensures SkipSpace(s + w, p) == SkipSpace(s + w, |s|)
    decreases |s| - p
  {
    if p < |s| {
      assert (s + w)[p] == s[p];
      SkipSpaceInTail(s, w, p + 1);
    }
  }

  lemma TailOfSum(s: string, w: string, e: nat)
    requires Tail(w) && |s| <= e <= |s + w|
    ensures TailFrom(s + w, e)
  {
    assert (s + w)[|s|..] == w;
    TailGoesOn(s + w, |s|, e);
  }

  lemma AddedHolds(word: string, added: string, variables: Variables)
    requires Inert(added) && Ink(added) == |added|
    ensures Ink(Expand(word + added, variables)) == Ink(Expand(word, variables)) + |added|
  {
    hide Ink;
    ExpandAppend(word, added, variables);
    InkOfSum(Expand(word, variables), added);
  }

  lemma AddedIsInk(w: string, n: nat)
    requires Tail(w) && n <= |w| && forall k :: 0 <= k < n ==> !IsSpace(w[k])
    ensures Inert(w[..n]) && Ink(w[..n]) == n
  {
    TailIsInert(w);
    InkOfWord(w[..n]);
  }

  /** The last word of a text, with what a tail adds to it. */
  lemma LastWordGrows(s: string, w: string, q: nat, variables: Variables)
    requires q < |s| && Tail(w) && WordEnd(s, q) == |s|
    ensures var t := s + w; var e := WordEnd(t, q);
            && e >= |s| && Ink(Expand(s[q..], variables)) + (e - |s|) == Ink(Expand(t[q..e], variables))
            && (e > |s| ==> t[q..e] != "|")
  {
    hide Ink, Expand;
    var t := s + w;
    WordEndOfSum(s, w, q);
    var e := WordEnd(t, q);
    var n := e - |s|;
    WordHasNoBlank(t, q);
    assert forall k :: 0 <= k < n ==> w[k] == t[|s| + k];
    AddedIsInk(w, n);
    assert t[q..e] == s[q..] + w[..n];
    AddedHolds(s[q..], w[..n], variables);
    assert n > 0 ==> |t[q..e]| > 1;
  }

  /** A tail makes the words of a text hold more, and adds no bar. */
  lemma {:induction false} WordsGrow(s: string, w: string, p: nat, variables: Variables)
    requires p <= |s| && Tail(w)
    ensures Held(WordsFrom(s + w, p), variables) > Held(WordsFrom(s, p), variables)
    ensures "|" in WordsFrom(s + w, p) ==> "|" in WordsFrom(s, p)
    decreases |s| - p
  {
    var t, q := s + w, SkipSpace(s, p);
    if q == |s| {
      SkipSpaceInTail(s, w, p);
      TailOfSum(s, w, |s|);
      TailWords(t, |s|, variables);
      assert WordsFrom(t, p) == WordsFrom(t, |s|);
    } else {
      SkipSpaceOfSum(s, w, p);
      WordEndOfSum(s, w, q);
      var e, f := WordEnd(s, q), WordEnd(t, q);
      assert WordsFrom(s, p) == [s[q..e]] + WordsFrom(s, e) && WordsFrom(t, p) == [t[q..f]] + WordsFrom(t, f);
      if e < |s| {
        assert t[q..f] == s[q..e];
        WordsGrow(s, w, e, variables);
      } else {
        LastWordGrows(s, w, q, variables);
        TailOfSum(s, w, f);
        TailWords(t, f, variables);
        assert s[q..e] == s[q..];
        assert f == |s| ==> t[q..f] == s[q..];
      }
    }
  }

  // ---------------------------------------------------------------- the rules a line adds

  lemma {:induction false} BarIndexFinds(tokens: seq<string>, p: nat)
    requires p <= |tokens|
    ensures BarIndex(tokens, p) < |tokens| <==> "|" in tokens[p..]
    ensures BarIndex(tokens, p) < |tokens| ==> tokens[BarIndex(tokens, p)] == "|"
    decreases |tokens| - p
  {
    if p < |tokens| {
      assert tokens[p..] == [tokens[p]] + tokens[p + 1..];
      BarIndexFinds(tokens, p + 1);
    }
  }

  /** What the prerequisites of both kinds hold together: all tokens but the bar. */
  lemma BarHoldsOne(tokens: seq<string>, variables: Variables)
    ensures var bar := BarIndex(tokens, 0);
            Held(tokens[..bar], variables) + Held(if bar == |tokens| then [] else tokens[bar + 1..], variables)
            == Held(tokens, variables) - (if "|" in tokens then 1 else 0)
  {
    BarIndexFinds(tokens, 0);
    assert tokens[0..] == tokens;
    var bar := BarIndex(tokens, 0);
    if bar < |tokens| {
      assert tokens == tokens[..bar] + (["|"] + tokens[bar + 1..]);
      HeldOfSum(tokens[..bar], ["|"] + tokens[bar + 1..], variables);
      HeldOfSum(["|"], tokens[bar + 1..], variables);
      ExpandsToItself("|", variables);
      assert Ink("|") == 1;
    } else {
      assert tokens[..bar] == tokens;
    }
  }

  /** How many characters the prerequisites of a rule have. */
  function Size(rule: MakeRule): nat { Total(rule.normal) + Total(rule.orderOnly) }

  lemma {:induction false} ExpandRulesAt(rules: seq<MakeRule>, variables: Variables, k: nat)
    requires k < |rules|
    ensures ExpandRules(rules, variables)[k] == ExpandRule(rules[k], variables)
    decreases k
  {
    if k > 0 { ExpandRulesAt(rules[1..], variables, k - 1); }
  }

  lemma FirstRuleSize(p: Parsing, targets: seq<string>, tokens: seq<string>, number: nat)
    requires targets != []
    ensures |p.WithRules(targets, tokens, number).rules| > |p.rules|
    ensures var q := p.WithRules(targets, tokens, number);
            Size(ExpandRules(q.rules, p.variables)[|p.rules|]) == Held(tokens, p.variables) - (if "|" in tokens then 1 else 0)
  {
    var q, bar := p.WithRules(targets, tokens, number), BarIndex(tokens, 0);
    var normal, orderOnly := tokens[..bar], if bar == |tokens| then [] else tokens[bar + 1..];
    assert q.rules[|p.rules|] == MakeRule(targets[0], normal, orderOnly, [], number);
    ExpandRulesAt(q.rules, p.variables, |p.rules|);
    ExpandedHold(normal, p.variables);
    ExpandedHold(orderOnly, p.variables);
    BarHoldsOne(tokens, p.variables);
  }
}
