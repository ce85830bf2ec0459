/**
  What a continuation takes away from the end of a line: blanks and backslashes, and what they are worth to a value.
 */
module DanglingTails {
  import opened Wrappers
  import opened Texts
  import opened Makefiles
  import opened DependencyRepair
  import opened MakefileText
  import opened MakefileExpansion
  import opened RepairedMakefile
  import opened RepairedParsing

  // ---------------------------------------------------------------- the end that a continuation takes away

  /** Backslashes and blanks, a backslash last. */
  predicate Tail(w: string) {
    |w| > 0 && w[|w| - 1] == '\\' && forall k :: 0 <= k < |w| ==> IsSpace(w[k]) || w[k] == '\\'
  }

  predicate Trimmed(s: string) { s == "" || Clean(s) }

  function Commented(s: string, comment: string): string { if s == "" then comment else s + " " + comment }

  lemma DropTail(e: string) returns (w: string)
    requires EndsInBackslash(e)
    ensures e == Unescaped(e) + w && Tail(w) && StripEnd(Unescaped(e)) == Unescaped(e)
  {
    StripEndCases(DropLast(e));
    StripEndAgain(DropLast(e));
    w := e[|Unescaped(e)|..];
    forall k | 0 <= k < |w| ensures IsSpace(w[k]) || w[k] == '\\' {
      if k < |w| - 1 { assert w[k] == DropLast(e)[|Unescaped(e)| + k]; }
    }
  }

  lemma SkipSpaceIs(s: string, n: nat)
    requires n <= |s| && (n < |s| ==> !IsSpace(s[n])) && forall k :: 0 <= k < n ==> IsSpace(s[k])
    ensures SkipSpace(s, 0) == n
  {
    SkipSpaceSkips(s, 0);
  }

  lemma StripCommutes(s: string)
    requires |StripEnd(s)| > 0
    ensures Strip(s) == StripStart(StripEnd(s))
  {
    var n := SkipSpace(s, 0);
    SkipSpaceSkips(s, 0);
    StripStartShape(s);
    StripEndCases(StripStart(s));
    var e := StripEnd(s);
    assert e[n..] == Strip(s) && e[n] == Strip(s)[0] == s[n];
    assert forall k :: 0 <= k < n ==> e[k] == s[k];
    SkipSpaceIs(e, n);
  }

  /** A text that does not end in a blank is stripped at its start only, whatever follows it. */
  lemma StripStartOfSum(u: string, x: string)
    requires |u| > 0 && !IsSpace(u[|u| - 1])
    ensures StripStart(u + x) == StripStart(u) + x && Clean(StripStart(u)) && Strip(u) == StripStart(u)
  {
    var t, n := u + x, SkipSpace(u, 0);
    SkipSpaceSkips(u, 0);
    assert n < |u|;
    assert forall k :: 0 <= k <= n ==> t[k] == u[k];
    SkipSpaceIs(t, n);
    assert t[n..] == u[n..] + x;
    StripEndStays(u[n..]);
  }

  /** Text without blanks at its end, before a tail. */
  lemma StripBeforeTail(u: string, w: string) returns (v: string)
    requires StripEnd(u) == u && Tail(w)
    ensures Strip(u + w) == Strip(u) + v && Tail(v) && Trimmed(Strip(u)) && Strip(u) == StripStart(u)
  {
    StripEndCases(u);
    var t := u + w;
    StripEndStays(t);
    StripCommutes(t);
    if u == "" {
      assert t == w && StripStart("") == "";
      SkipSpaceSkips(w, 0);
      v := StripStart(w);
    } else {
      StripStartOfSum(u, w);
      v := w;
    }
  }

  lemma StripBlankEnd(u: string)
    requires StripEnd(u) == u
    ensures Strip(u + " ") == Strip(u)
  {
    StripEndCases(u);
    StripEndAgain(u);
    if u == "" {
      assert u + " " == " " && StripStart(" ") == "";
    } else {
      StripCommutes(u + " ");
      StripCommutes(u);
    }
  }

  lemma StripNonblankSum(u: string, rest: string, t: string)
    requires |u| > 0 && !IsSpace(u[|u| - 1]) && |rest| > 0 && !IsSpace(rest[|rest| - 1]) && t == u + rest
    ensures Strip(t) == Strip(u) + rest && Clean(Strip(u))
  {
    hide Strip;
    StripStartOfSum(u, rest);
    StripStartOfSum(t, "");
    assert t + "" == t;
  }

  lemma StripBeforeComment(u: string, comment: string)
    requires StripEnd(u) == u && Clean(comment)
    ensures Strip(u + " " + comment) == Commented(Strip(u), comment) && Trimmed(Strip(u))
  {
    hide Strip, StripEnd;
    StripEndCases(u);
    var rest := " " + comment;
    assert u + " " + comment == u + rest;
    if u == "" {
      assert u + rest == rest;
      StripOfBlank("");
      StripAfterBlank(rest, comment);
    } else {
      StripNonblankSum(u, rest, u + rest);
      assert Strip(u) + rest == Strip(u) + " " + comment;
    }
  }

  lemma StripOfBlank(s: string)
    requires s == ""
    ensures Strip(s) == ""
  {
  }

  /** The dangling text is a front and a tail; its continuation is the front, perhaps with the comment. */
  lemma FrontAndTail(text: string, comment: string) returns (r: string, w: string)
    requires EndsInBackslash(StripEnd(text)) && IsComment(comment)
    ensures Strip(text) == r + w && Tail(w) && Trimmed(r)
    ensures Strip(Continued(text, comment)) == r || Strip(Continued(text, comment)) == Commented(r, comment)
  {
    var e := StripEnd(text);
    var once := Unescaped(e);
    StripEndAgain(text);
    StripCommutes(text);
    StripCommutes(e);
    var first := DropTail(e);
    if EndsInBackslash(once) {
      var u := Unescaped(once);
      var second := DropTail(once);
      assert e == u + (second + first);
      w := StripBeforeTail(u, second + first);
      r := Strip(u);
      StripBeforeComment(u, comment);
    } else {
      w := StripBeforeTail(once, first);
      r := Strip(once);
      StripBlankEnd(once);
    }
  }

  // ---------------------------------------------------------------- assignments

  predicate NamePart(c: char) { StartsName(c) || '0' <= c <= '9' }

  /** From here on no operator can be read that is not preceded by something else. */
  predicate NoOperatorFrom(s: string, m: nat)
    requires m <= |s|
  {
    m == |s| ||
    (!NamePart(s[m]) && s[m] != '=' &&
     var z := SkipSpace(s, m); z == |s| || (s[z] != '=' && s[z] != ':' && s[z] != '?' && s[z] != '+'))
  }

  lemma {:induction false} IdentifierSame(x: string, y: string, m: nat, p: nat)
    requires p <= m <= |x| && m <= |y| && x[..m] == y[..m] && IdentifierEnd(x, p) < m
    ensures IdentifierEnd(y, p) == IdentifierEnd(x, p)
    decreases m - p
  {
    assert p < m ==> x[p] == x[..m][p] == y[p];
    if p < |x| && NamePart(x[p]) { IdentifierSame(x, y, m, p + 1); }
  }

  lemma {:induction false} SkipSpaceSame(x: string, y: string, m: nat, p: nat)
    requires p <= m <= |x| && m <= |y| && x[..m] == y[..m] && SkipSpace(x, p) < m
    ensures SkipSpace(y, p) == SkipSpace(x, p)
    decreases m - p
  {
    assert p < m ==> x[p] == x[..m][p] == y[p];
    if p < |x| && IsSpace(x[p]) { SkipSpaceSame(x, y, m, p + 1); }
  }

  lemma {:induction false} IdentifierStops(x: string, p: nat, m: nat)
    requires p <= m < |x| && !NamePart(x[m])
    ensures IdentifierEnd(x, p) <= m
    decreases m - p
  {
    if p < m && NamePart(x[p]) { IdentifierStops(x, p + 1, m); }
  }

  lemma {:induction false} SkipSpacePasses(x: string, p: nat, m: nat)
    requires p <= m <= |x| && SkipSpace(x, p) >= m
    ensures SkipSpace(x, p) == SkipSpace(x, m)
    decreases m - p
  {
    if p < m { SkipSpacePasses(x, p + 1, m); }
  }

  /** An assignment is read before a place from which no operator can be read. */
  lemma OperatorBefore(x: string, m: nat)
    requires m <= |x| && NoOperatorFrom(x, m) && AssignmentOf(x).Some?
    ensures var q := SkipSpace(x, IdentifierEnd(x, 0)); q < m && q + OperatorAt(x, q).value <= m
  {
    var e := IdentifierEnd(x, 0);
    if m < |x| {
      IdentifierStops(x, 0, m);
      if SkipSpace(x, e) >= m { SkipSpacePasses(x, e, m); }
    }
  }

  /** So two texts that agree up to there have the same assignment, but for the value. */
  lemma AssignmentWithin(x: string, y: string, m: nat) returns (k: nat)
    requires m <= |x| && m <= |y| && x[..m] == y[..m] && NoOperatorFrom(x, m) && AssignmentOf(x).Some?
    ensures k <= m && AssignmentOf(x).value.value == Strip(x[k..])
    ensures AssignmentOf(y) == Some(AssignmentOf(x).value.(value := Strip(y[k..])))
  {
    hide NoOperatorFrom, Strip;
    OperatorBefore(x, m);
    var e := IdentifierEnd(x, 0);
    var q := SkipSpace(x, e);
    k := q + OperatorAt(x, q).value;
    assert forall j :: 0 <= j < m ==> x[j] == x[..m][j] == y[j];
    IdentifierSame(x, y, m, 0);
    SkipSpaceSame(x, y, m, e);
    assert x[..e] == x[..m][..e] == y[..m][..e] == y[..e];
  }

  lemma NoOperatorInTail(r: string, w: string)
    requires Tail(w)
    ensures NoOperatorFrom(r + w, |r|)
  {
    var s := r + w;
    assert s[|r|] == w[0];
    var z := SkipSpace(s, |r|);
    assert z < |s| ==> s[z] == w[z - |r|];
  }

  lemma NoOperatorInComment(r: string, comment: string)
    requires |comment| > 0 && comment[0] == '#'
    ensures NoOperatorFrom(r + " " + comment, |r|)
  {
    var s := r + " " + comment;
    assert s[|r|] == ' ' && s[|r| + 1] == comment[0];
    assert SkipSpace(s, |r|) == |r| + 1;
  }

  lemma StripKeepsLast(s: string)
    requires |s| > 0 && !IsSpace(s[|s| - 1])
    ensures |Strip(s)| > 0 && Strip(s)[|Strip(s)| - 1] == s[|s| - 1]
  {
    StripEndStays(s);
    StripCommutes(s);
    SkipSpaceSkips(s, 0);
  }

  lemma StripGrows(s: string, w: string)
    requires Tail(w)
    ensures |Strip(s + w)| > |Strip(s)|
  {
    var t, u := s + w, StripEnd(s);
    StripEndCases(s);
    StripEndAgain(s);
    assert Tail(s[|u|..] + w) && t == u + (s[|u|..] + w);
    var v := StripBeforeTail(u, s[|u|..] + w);
    if |u| > 0 {
      StripCommutes(s);
    } else {
      SkipSpaceIs(s, |s|);
      assert Strip(s) == "";
    }
  }

  lemma ExpandKeepsLast(s: string, variables: Variables)
    requires |s| > 0 && Inert(s[|s| - 1..])
    ensures |Expand(s, variables)| > 0 && Expand(s, variables)[|Expand(s, variables)| - 1] == s[|s| - 1]
  {
    assert s == DropLast(s) + s[|s| - 1..];
    ExpandAppend(DropLast(s), s[|s| - 1..], variables);
  }

  predicate EndsInert(s: string) { |s| > 0 && Inert(s[|s| - 1..]) && !IsSpace(s[|s| - 1]) && !EndsInBackslash(s) }

  /** The value with its tail, against the value without it or with the comment instead. */
  predicate OtherValue(value: string, other: string) {
    || (|other| < |value| && other == value[..|other|] && Tail(value[|other|..]))
    || (EndsInBackslash(value) && EndsInert(other))
  }

  lemma TailIsInert(w: string)
    requires Tail(w)
    ensures Inert(w)
  {
    forall k | 0 <= k < |w| ensures w[k] != '$' && w[k] != '(' && w[k] != ')' && w[k] != '{' && w[k] != '}' {
      assert IsSpace(w[k]) || w[k] == '\\';
    }
  }

  lemma OtherValueExpands(value: string, other: string, variables: Variables)
    requires OtherValue(value, other)
    ensures Expand(value, variables) != Expand(other, variables)
  {
    if EndsInBackslash(value) && EndsInert(other) {
      ExpandKeepsLast(value, variables);
      ExpandKeepsLast(other, variables);
    } else {
      var w := value[|other|..];
      TailIsInert(w);
      ExpandAppend(other, w, variables);
      assert value == other + w;
    }
  }

  lemma OtherValueJoins(before: string, value: string, other: string)
    requires OtherValue(value, other)
    ensures Strip(before + value) != Strip(before + other)
  {
    if EndsInBackslash(value) && EndsInert(other) {
      StripKeepsLast(before + value);
      StripKeepsLast(before + other);
    } else {
      var w := value[|other|..];
      assert before + value == (before + other) + w;
      StripGrows(before + other, w);
    }
  }

  /** Unless it has no effect, an assignment with another value leaves another value. */
  lemma AssignDiffers(p: Parsing, a: Assignment, other: string)
    requires OtherValue(a.value, other) && !(a.operator == '?' && a.name in p.variables)
    ensures p.Assign(a).variables != p.Assign(a.(value := other)).variables
  {
    var x, y := p.Assign(a).variables, p.Assign(a.(value := other)).variables;
    assert a.value != other;
    if a.operator == '+' && a.name in p.variables {
      OtherValueJoins(p.variables[a.name] + " ", a.value, other);
    } else if a.operator == ':' {
      OtherValueExpands(a.value, other, p.variables);
    }
    assert x[a.name] != y[a.name];
  }

  lemma StripEndOfTrimmed(u: string)
    requires u == "" || !IsSpace(u[|u| - 1])
    ensures StripEnd(u) == u
  {
  }

  lemma ValueLosesTail(u: string, w: string)
    requires StripEnd(u) == u && Tail(w)
    ensures OtherValue(Strip(u + w), Strip(u)) && EndsInBackslash(Strip(u + w))
  {
    hide Strip, StripEnd;
    var v := StripBeforeTail(u, w);
    var value := Strip(u + w);
    assert value[|Strip(u)|..] == v && value[..|Strip(u)|] == Strip(u);
  }

  lemma CommentedEndsInert(s: string, comment: string)
    requires EndsInert(comment)
    ensures EndsInert(Commented(s, comment))
  {
    var other := Commented(s, comment);
    assert other[|other| - 1..] == comment[|comment| - 1..];
  }

  lemma ValuesDiffer(r: string, k: nat, w: string, comment: string)
    requires Clean(r) && k <= |r| && Tail(w) && IsComment(comment) && EndsInert(comment)
    ensures OtherValue(Strip((r + w)[k..]), Strip(r[k..]))
    ensures OtherValue(Strip((r + w)[k..]), Strip((r + " " + comment)[k..]))
  {
    hide Strip, StripEnd;
    var u := r[k..];
    assert (r + w)[k..] == u + w && (r + " " + comment)[k..] == u + " " + comment;
    StripEndOfTrimmed(u);
    ValueLosesTail(u, w);
    StripBeforeComment(u, comment);
    CommentedEndsInert(Strip(u), comment);
  }
}
