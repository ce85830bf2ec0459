/**
  What the ten passes of variable expansion leave: text that can start or end no reference stands still, a pass that
  finds nothing to resolve changes nothing, and a variable that refers to itself is unfolded ten times.
 */
module MakefileExpansion {
  import opened Wrappers
  import opened Texts
  import opened Makefiles
  import opened MakefileText

  /** Text that takes part in no reference, wherever it stands. */
  predicate Inert(w: string) {
    forall k :: 0 <= k < |w| ==> w[k] != '$' && w[k] != '(' && w[k] != ')' && w[k] != '{' && w[k] != '}'
  }

  // ---------------------------------------------------------------- text without references stands still

  lemma {:induction false} NameEndAppend(s: string, w: string, p: nat, open: char, close: char)
    requires p <= |s| && Inert(w) && (open == '(' || open == '{') && (close == ')' || close == '}')
    ensures NameEnd(s + w, p, open, close) ==
            (if NameEnd(s, p, open, close) < |s| then NameEnd(s, p, open, close) else |s + w|)
    decreases |s| - p
  {
    if p < |s| {
      assert (s + w)[p] == s[p];
      NameEndAppend(s, w, p + 1, open, close);
    } else {
      NameEndInert(s + w, p, open, close);
    }
  }

  lemma {:induction false} NameEndInert(s: string, p: nat, open: char, close: char)
    requires p <= |s| && Inert(s[p..]) && (open == '(' || open == '{') && (close == ')' || close == '}')
    ensures NameEnd(s, p, open, close) == |s|
    decreases |s| - p
  {
    if p < |s| {
      assert s[p..][0] == s[p] && s[p + 1..] == s[p..][1..];
      NameEndInert(s, p + 1, open, close);
    }
  }

  lemma ReferenceAppend(s: string, w: string, p: nat)
    requires p < |s| && Inert(w)
    ensures ReferenceAt(s + w, p) == ReferenceAt(s, p)
  {
    var t := s + w;
    if p + 1 < |s| {
      if s[p] == '$' && (s[p + 1] == '(' || s[p + 1] == '{') {
        var close := if s[p + 1] == '(' then ')' else '}';
        NameEndAppend(s, w, p + 2, s[p + 1], close);
        var e := NameEnd(s, p + 2, s[p + 1], close);
        assert e < |s| ==> t[p + 2..e] == s[p + 2..e];
      }
    } else {
      assert p + 1 < |t| ==> t[p + 1] == w[0];
    }
  }

  lemma {:induction false} OnceInert(s: string, p: nat, variables: Variables)
    requires p <= |s| && Inert(s[p..])
    ensures ExpandOnce(s, p, variables) == (s[p..], false)
    decreases |s| - p
  {
    if p < |s| {
      assert s[p..][0] == s[p] && s[p + 1..] == s[p..][1..];
      OnceInert(s, p + 1, variables);
      assert s[p..] == [s[p]] + s[p + 1..];
    }
  }

  lemma {:induction false} OnceAppend(s: string, w: string, p: nat, variables: Variables)
    requires p <= |s| && Inert(w)
    ensures ExpandOnce(s + w, p, variables) ==
            (ExpandOnce(s, p, variables).0 + w, ExpandOnce(s, p, variables).1)
    decreases |s| - p
  {
    var t := s + w;
    if p == |s| {
      assert t[p..] == w && "" + w == w;
      OnceInert(t, p, variables);
    } else {
      ReferenceAppend(s, w, p);
      match ReferenceAt(s, p)
      case None =>
        OnceAppend(s, w, p + 1, variables);
        assert t[p] == s[p];
        ConcatAssociates([s[p]], ExpandOnce(s, p + 1, variables).0, w);
      case Some((name, e)) =>
        OnceAppend(s, w, e, variables);
        assert t[p..e] == s[p..e];
        var rest := ExpandOnce(s, e, variables).0;
        match ResolveReference(name, variables)
        case Some(replacement) => ConcatAssociates(replacement, rest, w);
        case None => ConcatAssociates(s[p..e], rest, w);
    }
  }

  lemma {:induction false} TimesAppend(s: string, w: string, variables: Variables, left: nat)
    requires Inert(w)
    ensures ExpandTimes(s + w, variables, left) == ExpandTimes(s, variables, left) + w
    decreases left
  {
    if left > 0 {
      OnceAppend(s, w, 0, variables);
      TimesAppend(ExpandOnce(s, 0, variables).0, w, variables, left - 1);
    }
  }

  /** Expansion leaves inert text at the end of a text where it is. */
  lemma ExpandAppend(s: string, w: string, variables: Variables)
    requires Inert(w)
    ensures Expand(s + w, variables) == Expand(s, variables) + w
  {
    TimesAppend(s, w, variables, EXPAND_LIMIT);
  }

  lemma {:induction false} OncePrepend(w: string, s: string, p: nat, variables: Variables)
    requires p <= |w| && '$' !in w
    ensures ExpandOnce(w + s, p, variables) ==
            (w[p..] + ExpandOnce(s, 0, variables).0, ExpandOnce(s, 0, variables).1)
    decreases |w| - p
  {
    var t := w + s;
    if p < |w| {
      assert t[p] == w[p] != '$' && ReferenceAt(t, p).None?;
      OncePrepend(w, s, p + 1, variables);
      assert w[p..] == [w[p]] + w[p + 1..];
      ConcatAssociates([w[p]], w[p + 1..], ExpandOnce(s, 0, variables).0);
    } else {
      OnceShift(w, s, 0, variables);
      assert w[p..] == "" && "" + ExpandOnce(s, 0, variables).0 == ExpandOnce(s, 0, variables).0;
    }
  }

  lemma {:induction false} NameEndShift(w: string, s: string, p: nat, open: char, close: char)
    requires p <= |s|
    ensures NameEnd(w + s, |w| + p, open, close) == |w| + NameEnd(s, p, open, close)
    decreases |s| - p
  {
    if p < |s| {
      assert (w + s)[|w| + p] == s[p];
      NameEndShift(w, s, p + 1, open, close);
    }
  }

  lemma ReferenceShift(w: string, s: string, p: nat)
    requires p < |s|
    ensures ReferenceAt(w + s, |w| + p) ==
            if ReferenceAt(s, p).None? then None else Some((ReferenceAt(s, p).value.0, |w| + ReferenceAt(s, p).value.1))
  {
    var t := w + s;
    assert t[|w| + p] == s[p];
    if p + 1 < |s| {
      assert t[|w| + p + 1] == s[p + 1];
      if s[p] == '$' && (s[p + 1] == '(' || s[p + 1] == '{') {
        var close := if s[p + 1] == '(' then ')' else '}';
        NameEndShift(w, s, p + 2, s[p + 1], close);
        var e := NameEnd(s, p + 2, s[p + 1], close);
        assert e < |s| ==> t[|w| + e] == s[e];
        assert t[|w| + (p + 2)..|w| + e] == s[p + 2..e];
      }
    }
  }

  lemma {:induction false} OnceShift(w: string, s: string, p: nat, variables: Variables)
    requires p <= |s|
    ensures ExpandOnce(w + s, |w| + p, variables) == ExpandOnce(s, p, variables)
    decreases |s| - p
  {
    hide NameEnd, ResolveReference;
    if p < |s| {
      ReferenceShift(w, s, p);
      match ReferenceAt(s, p)
      case None =>
        assert (w + s)[|w| + p] == s[p];
        OnceShift(w, s, p + 1, variables);
      case Some((name, e)) =>
        assert (w + s)[|w| + p..|w| + e] == s[p..e];
        OnceShift(w, s, e, variables);
    }
  }

  // ---------------------------------------------------------------- when nothing resolvable is left

  /** No reference in the text can be resolved. */
  predicate Quiet(s: string, variables: Variables) { !ExpandOnce(s, 0, variables).1 }

  /** A number of passes over the text. */
  function Passes(s: string, variables: Variables, n: nat): string
    decreases n
  {
    if n == 0 then s else Passes(ExpandOnce(s, 0, variables).0, variables, n - 1)
  }

  lemma {:induction false} QuietStays(s: string, p: nat, variables: Variables)
    requires p <= |s| && !ExpandOnce(s, p, variables).1
    ensures ExpandOnce(s, p, variables).0 == s[p..]
    decreases |s| - p
  {
    if p < |s| {
      match ReferenceAt(s, p)
      case None =>
        QuietStays(s, p + 1, variables);
        assert s[p..] == [s[p]] + s[p + 1..];
      case Some((_, e)) =>
        QuietStays(s, e, variables);
        assert s[p..] == s[p..e] + s[e..];
    }
  }

  lemma {:induction false} PassesOfQuiet(s: string, variables: Variables, n: nat)
    requires Quiet(s, variables)
    ensures Passes(s, variables, n) == s
  {
    if n > 0 {
      QuietStays(s, 0, variables);
      assert s[0..] == s;
      PassesOfQuiet(s, variables, n - 1);
    }
  }

  lemma {:induction false} TimesIsPasses(s: string, variables: Variables, n: nat)
    ensures ExpandTimes(s, variables, n) == Passes(s, variables, n)
    decreases n
  {
    if n > 0 {
      var (next, changed) := ExpandOnce(s, 0, variables);
      if changed {
        TimesIsPasses(next, variables, n - 1);
      } else {
        QuietStays(s, 0, variables);
        assert s[0..] == s;
        PassesOfQuiet(s, variables, n);
        PassesOfQuiet(s, variables, n - 1);
      }
    }
  }

  lemma {:induction false} PassesAdd(s: string, variables: Variables, m: nat, n: nat)
    ensures Passes(Passes(s, variables, m), variables, n) == Passes(s, variables, m + n)
    decreases m
  {
    if m > 0 { PassesAdd(ExpandOnce(s, 0, variables).0, variables, m - 1, n); }
  }

  /**
    Expansion is ten passes. It leaves no resolvable reference if and only if at most ten nested passes already leave
    none, and then it is what those passes give.
   */
  lemma ExpandedExactly(s: string, variables: Variables)
    ensures Expand(s, variables) == Passes(s, variables, EXPAND_LIMIT)
    ensures Quiet(Expand(s, variables), variables) <==> exists n: nat :: n <= EXPAND_LIMIT && Quiet(Passes(s, variables, n), variables)
    ensures forall n: nat :: n <= EXPAND_LIMIT && Quiet(Passes(s, variables, n), variables) ==>
              Expand(s, variables) == Passes(s, variables, n)
  {
    TimesIsPasses(s, variables, EXPAND_LIMIT);
    forall n: nat | n <= EXPAND_LIMIT && Quiet(Passes(s, variables, n), variables)
      ensures Expand(s, variables) == Passes(s, variables, n)
    {
      PassesAdd(s, variables, n, EXPAND_LIMIT - n);
      PassesOfQuiet(Passes(s, variables, n), variables, EXPAND_LIMIT - n);
    }
  }

  // ---------------------------------------------------------------- a variable that refers to itself

  function Repeated(s: string, n: nat): string { if n == 0 then "" else s + Repeated(s, n - 1) }

  /** A reference to a variable by its bare name. */
  function ReferenceTo(name: string): string { "$(" + name + ")" }

  predicate BareName(name: string) { |name| > 0 && Inert(name) && ':' !in name }

  lemma ReferenceReads(name: string, w: string)
    requires BareName(name)
    ensures ReferenceAt(ReferenceTo(name) + w, 0) == Some((name, |name| + 3))
  {
    var t := ReferenceTo(name) + w;
    assert t[0] == '$' && t[1] == '(' && t[|name| + 2] == ')';
    assert forall k :: 0 <= k < |name| ==> t[2 + k] == name[k];
    NameEndIs(t, 2, |name| + 2);
    assert t[2..|name| + 2] == name;
  }

  lemma {:induction false} NameEndIs(s: string, p: nat, e: nat)
    requires p <= e < |s| && s[e] == ')' && forall k :: p <= k < e ==> s[k] != '(' && s[k] != ')'
    ensures NameEnd(s, p, '(', ')') == e
    decreases e - p
  {
    if p < e { NameEndIs(s, p + 1, e); }
  }

  lemma OnceUnfolds(name: string, variables: Variables)
    requires BareName(name) && name in variables
    ensures ExpandOnce(ReferenceTo(name), 0, variables) == (variables[name], true)
  {
    var s := ReferenceTo(name);
    ReferenceReads(name, "");
    assert s + "" == s;
    IndexOfAbsent(name, ':');
    assert name[..|name|] == name;
    assert ExpandOnce(s, |s|, variables) == ("", false);
    assert variables[name] + "" == variables[name];
  }

  lemma RepeatedAtEnd(s: string, n: nat)
    ensures Repeated(s, n + 1) == Repeated(s, n) + s
    decreases n
  {
    if n == 0 {
      assert s + "" == "" + s;
    } else {
      RepeatedAtEnd(s, n - 1);
      ConcatAssociates(s, Repeated(s, n - 1), s);
    }
  }

  lemma RepeatedAgain(s: string, n: nat)
    ensures Repeated(s, n + 1) == s + Repeated(s, n)
  {
  }

  lemma {:induction false} RepeatedIsPlain(s: string, n: nat)
    ensures Inert(s) ==> Inert(Repeated(s, n))
    ensures '$' !in s ==> '$' !in Repeated(s, n)
  {
    if n > 0 { RepeatedIsPlain(s, n - 1); }
  }

  /** One pass over an unfolded reference to a self-referring variable unfolds it once more. */
  lemma UnfoldsOnce(name: string, before: string, after: string, variables: Variables, n: nat)
    requires BareName(name) && name in variables && variables[name] == before + (ReferenceTo(name) + after)
    requires '$' !in before && Inert(after)
    ensures ExpandOnce(Repeated(before, n) + (ReferenceTo(name) + Repeated(after, n)), 0, variables) ==
            (Repeated(before, n + 1) + (ReferenceTo(name) + Repeated(after, n + 1)), true)
  {
    var front, back, middle := Repeated(before, n), Repeated(after, n), ReferenceTo(name);
    RepeatedIsPlain(before, n);
    RepeatedIsPlain(after, n);
    hide ExpandOnce, Repeated;
    OncePrepend(front, middle + back, 0, variables);
    assert front[0..] == front;
    OnceAppend(middle, back, 0, variables);
    OnceUnfolds(name, variables);
    RepeatedAtEnd(before, n);
    RepeatedAgain(after, n);
    assert front + ((before + (middle + after)) + back) == (front + before) + (middle + (after + back));
  }

  lemma {:induction false} UnfoldsTimes(name: string, before: string, after: string, variables: Variables, n: nat, left: nat)
    requires BareName(name) && name in variables && variables[name] == before + (ReferenceTo(name) + after)
    requires '$' !in before && Inert(after)
    ensures ExpandTimes(Repeated(before, n) + (ReferenceTo(name) + Repeated(after, n)), variables, left) ==
            Repeated(before, n + left) + (ReferenceTo(name) + Repeated(after, n + left))
    decreases left
  {
    if left > 0 {
      UnfoldsOnce(name, before, after, variables, n);
      UnfoldsTimes(name, before, after, variables, n + 1, left - 1);
    }
  }

  /** A variable that refers to itself is unfolded ten times, and the reference stays. */
  lemma SelfReferenceUnfoldsTenTimes(name: string, before: string, after: string, variables: Variables)
    requires BareName(name) && name in variables && variables[name] == before + (ReferenceTo(name) + after)
    requires '$' !in before && Inert(after)
    ensures Expand(ReferenceTo(name), variables) == Repeated(before, 10) + (ReferenceTo(name) + Repeated(after, 10))
    ensures !Quiet(Expand(ReferenceTo(name), variables), variables)
  {
    var s := ReferenceTo(name);
    assert Repeated(before, 0) + (s + Repeated(after, 0)) == s;
    UnfoldsTimes(name, before, after, variables, 0, EXPAND_LIMIT);
    UnfoldsOnce(name, before, after, variables, 10);
  }
}
