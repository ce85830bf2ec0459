/**
  Text as the rest of the project reads it: white space, stripping, and a string standing at a position.
 */
module Texts {
  /** The ASCII characters that count as white space. */
  predicate IsSpace(c: char) {
    c == ' ' || 9 <= c as int <= 13 || 28 <= c as int <= 31
  }

  lemma BlankChars(c: char)
    ensures IsSpace(c) <==>
            c in [' ', '\t', '\n', '\r', 11 as char, 12 as char, 28 as char, 29 as char, 30 as char, 31 as char]
  {
  }

  function SkipSpace(text: string, p: nat): (r: nat)
    requires p <= |text|
    ensures p <= r <= |text|
    ensures r < |text| ==> !IsSpace(text[r])
    decreases |text| - p
  {
    if p < |text| && IsSpace(text[p]) then SkipSpace(text, p + 1) else p
  }

  function StripEnd(s: string): string {
    if |s| > 0 && IsSpace(s[|s| - 1]) then StripEnd(s[..|s| - 1]) else s
  }

  function StripStart(s: string): string { s[SkipSpace(s, 0)..] }

  function Strip(s: string): string { StripEnd(StripStart(s)) }

  /** Nothing at either end for stripping to take. */
  predicate Clean(s: string) {
    |s| > 0 && !IsSpace(s[0]) && !IsSpace(s[|s| - 1])
  }

  lemma StripEndStays(s: string)
    requires |s| > 0 && !IsSpace(s[|s| - 1])
    ensures StripEnd(s) == s
  {
  }

  lemma CleanStays(s: string)
    requires Clean(s)
    ensures Strip(s) == s && StripStart(s) == s && StripEnd(s) == s
  {
    assert s[0..] == s;
  }

  lemma StripAfterBlank(s: string, value: string)
    requires s == " " + value && Clean(value)
    ensures Strip(s) == value
  {
    BlankSkipped(s, value);
    StripEndStays(value);
  }

  lemma BlankSkipped(s: string, value: string)
    requires s == " " + value && |value| > 0 && !IsSpace(value[0])
    ensures StripStart(s) == value
  {
    assert s[1] == value[0] && SkipSpace(s, 0) == 1;
    assert s[1..] == value;
  }

  function Joined(words: seq<string>, separator: string): string {
    if |words| == 0 then ""
    else if |words| == 1 then words[0]
    else words[0] + separator + Joined(words[1..], separator)
  }

  // ---------------------------------------------------------------- a string at a position

  ghost predicate At(text: string, p: nat, s: string) {
    p + |s| <= |text| && text[p..p + |s|] == s
  }

  lemma AtParts(text: string, p: nat, a: string, b: string)
    requires At(text, p, a + b)
    ensures At(text, p, a) && At(text, p + |a|, b)
  {
    var s := text[p..p + |a + b|];
    assert s[..|a|] == a && s[|a|..] == b;
  }

  lemma AtHead(text: string, p: nat, s: string)
    requires At(text, p, s) && |s| > 0
    ensures p < |text| && text[p] == s[0]
  {
    assert text[p..p + |s|][0] == text[p];
  }

  lemma ConcatAssociates<T>(a: seq<T>, b: seq<T>, c: seq<T>)
    ensures (a + b) + c == a + (b + c)
  {
  }
}
