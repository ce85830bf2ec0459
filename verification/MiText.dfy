/**
  Text of the GDB/MI protocol, character by character: blanks, names, decimal tokens, C-string escapes, and
  the quoting of command arguments.
 */
module MiText {
  import opened Wrappers
  import opened Texts

  // ---------------------------------------------------------------- characters

  predicate IsDigit(c: char) { '0' <= c <= '9' }

  predicate IsOctal(c: char) { '0' <= c <= '7' }

  predicate IsHex(c: char) { IsDigit(c) || 'a' <= c <= 'f' || 'A' <= c <= 'F' }

  predicate IsNameChar(c: char) {
    IsDigit(c) || 'a' <= c <= 'z' || 'A' <= c <= 'Z' || c == '_' || c == '-' || c == '.'
  }

  function DigitValue(c: char): nat
    requires IsHex(c)
  {
    if IsDigit(c) then c as int - '0' as int
    else if 'a' <= c <= 'f' then c as int - 'a' as int + 10
    else c as int - 'A' as int + 10
  }

  function NumberOf(digits: string, base: nat): nat
    requires forall k :: 0 <= k < |digits| ==> IsHex(digits[k])
  {
    if |digits| == 0 then 0
    else NumberOf(digits[..|digits| - 1], base) * base + DigitValue(digits[|digits| - 1])
  }

  /** The characters a number can stand for. */
  predicate IsScalar(n: int) { 0 <= n < 0xD800 || 0xE000 <= n < 0x11_0000 }

  /** The one-letter escapes. */
  function SimpleEscape(c: char): Option<char> {
    match c
    case 'n' => Some('\n')
    case 'r' => Some('\r')
    case 't' => Some('\t')
    case '\\' => Some('\\')
    case '"' => Some('"')
    case 'a' => Some('\U{0007}')
    case 'b' => Some('\U{0008}')
    case 'f' => Some('\U{000C}')
    case 'v' => Some('\U{000B}')
    case _ => None
  }

  /** The characters of each kind, one by one. */
  lemma CharacterKinds(c: char)
    ensures IsDigit(c) <==> c in "0123456789"
    ensures IsOctal(c) <==> c in "01234567"
    ensures IsHex(c) <==> c in "0123456789" || c in "abcdef" || c in "ABCDEF"
    ensures IsNameChar(c) <==>
            c in "0123456789" || c in "abcdefghijklmnopqrstuvwxyz" || c in "ABCDEFGHIJKLMNOPQRSTUVWXYZ" || c in "_-."
  {
  }

  lemma DigitsAreRead(k: nat)
    ensures k < 10 ==> DigitValue("0123456789"[k]) == k
    ensures 10 <= k < 16 ==> DigitValue("abcdef"[k - 10]) == k && DigitValue("ABCDEF"[k - 10]) == k
  {
  }

  /** The one-letter escapes, one by one. */
  lemma EscapeLetters(c: char)
    ensures SimpleEscape('n') == Some('\n') && SimpleEscape('r') == Some('\r') && SimpleEscape('t') == Some('\t')
    ensures SimpleEscape('\\') == Some('\\') && SimpleEscape('"') == Some('"')
    ensures SimpleEscape('a') == Some(7 as char) && SimpleEscape('b') == Some(8 as char)
    ensures SimpleEscape('f') == Some(12 as char) && SimpleEscape('v') == Some(11 as char)
    ensures c !in "nrt\\\"abfv" ==> SimpleEscape(c) == None
  {
  }

  // ---------------------------------------------------------------- decimal tokens

  function Decimal(n: nat): string {
    var last := [(('0' as int) + n % 10) as char];
    if n < 10 then last else Decimal(n / 10) + last
  }

  lemma {:induction false} DecimalReadsBack(n: nat)
    ensures |Decimal(n)| > 0
    ensures forall k :: 0 <= k < |Decimal(n)| ==> IsDigit(Decimal(n)[k])
    ensures NumberOf(Decimal(n), 10) == n
  {
    if n >= 10 {
      DecimalReadsBack(n / 10);
      var d := Decimal(n);
      assert d[..|d| - 1] == Decimal(n / 10);
    } else {
      assert Decimal(n)[..0] == "";
      assert NumberOf("", 10) == 0;
    }
  }

  // ---------------------------------------------------------------- quoting

  /** Replace every occurrence of one character. */
  function Replace(s: string, c: char, to: string): string {
    if |s| == 0 then "" else (if s[0] == c then to else [s[0]]) + Replace(s[1..], c, to)
  }

  /** The five replacements, in the order they are made. */
  function Escaped(s: string): string {
    var a := Replace(s, '\\', "\\\\");
    var b := Replace(a, '"', "\\\"");
    var c := Replace(b, '\n', "\\n");
    var d := Replace(c, '\r', "\\r");
    Replace(d, '\t', "\\t")
  }

  function Quote(s: string): string { "\"" + Escaped(s) + "\"" }

  /** One character, escaped on its own. */
  function EscapeChar(c: char): string {
    match c
    case '\\' => "\\\\"
    case '"' => "\\\""
    case '\n' => "\\n"
    case '\r' => "\\r"
    case '\t' => "\\t"
    case _ => [c]
  }

  function EscapeEach(s: string): string {
    if |s| == 0 then "" else EscapeChar(s[0]) + EscapeEach(s[1..])
  }

  lemma {:induction false} ReplaceSplits(a: string, b: string, c: char, to: string)
    ensures Replace(a + b, c, to) == Replace(a, c, to) + Replace(b, c, to)
  {
    if |a| == 0 {
      assert a + b == b;
    } else {
      assert (a + b)[1..] == a[1..] + b;
      ReplaceSplits(a[1..], b, c, to);
    }
  }

  lemma EscapedSplits(a: string, b: string)
    ensures Escaped(a + b) == Escaped(a) + Escaped(b)
  {
    ReplaceSplits(a, b, '\\', "\\\\");
    var a1, b1 := Replace(a, '\\', "\\\\"), Replace(b, '\\', "\\\\");
    ReplaceSplits(a1, b1, '"', "\\\"");
    var a2, b2 := Replace(a1, '"', "\\\""), Replace(b1, '"', "\\\"");
    ReplaceSplits(a2, b2, '\n', "\\n");
    var a3, b3 := Replace(a2, '\n', "\\n"), Replace(b2, '\n', "\\n");
    ReplaceSplits(a3, b3, '\r', "\\r");
    var a4, b4 := Replace(a3, '\r', "\\r"), Replace(b3, '\r', "\\r");
    ReplaceSplits(a4, b4, '\t', "\\t");
  }

  lemma ReplaceOne(x: char, c: char, to: string)
    ensures Replace([x], c, to) == if x == c then to else [x]
  {
    assert Replace([x][1..], c, to) == "";
  }

  lemma ReplaceTwo(x: char, y: char, c: char, to: string)
    requires x != c && y != c
    ensures Replace([x, y], c, to) == [x, y]
  {
    assert [x, y][1..] == [y];
    ReplaceOne(y, c, to);
  }

  /** No later replacement touches what an earlier one wrote. */
  lemma EscapedChar(x: char)
    ensures Escaped([x]) == EscapeChar(x)
  {
    ReplaceOne(x, '\\', "\\\\");
    if x == '\\' {
      ReplaceTwo('\\', '\\', '"', "\\\"");
      ReplaceTwo('\\', '\\', '\n', "\\n");
      ReplaceTwo('\\', '\\', '\r', "\\r");
      ReplaceTwo('\\', '\\', '\t', "\\t");
    } else {
      ReplaceOne(x, '"', "\\\"");
      if x == '"' {
        ReplaceTwo('\\', '"', '\n', "\\n");
        ReplaceTwo('\\', '"', '\r', "\\r");
        ReplaceTwo('\\', '"', '\t', "\\t");
      } else {
        ReplaceOne(x, '\n', "\\n");
        if x == '\n' {
          ReplaceTwo('\\', 'n', '\r', "\\r");
          ReplaceTwo('\\', 'n', '\t', "\\t");
        } else {
          ReplaceOne(x, '\r', "\\r");
          if x == '\r' {
            ReplaceTwo('\\', 'r', '\t', "\\t");
          } else {
            ReplaceOne(x, '\t', "\\t");
          }
        }
      }
    }
  }

  /** The five replacements in a row equal one escape per character. */
  lemma {:induction false} EscapedIsPerCharacter(s: string)
    ensures Escaped(s) == EscapeEach(s)
  {
    if |s| == 0 {
    } else {
      assert s == [s[0]] + s[1..];
      EscapedSplits([s[0]], s[1..]);
      EscapedChar(s[0]);
      EscapedIsPerCharacter(s[1..]);
    }
  }

  /** A quoted argument never breaks the command line. */
  lemma {:induction false} QuoteIsOneLine(s: string)
    ensures '\n' !in Quote(s) && '\r' !in Quote(s)
  {
    EscapedIsPerCharacter(s);
    EscapeEachIsOneLine(s);
  }

  lemma {:induction false} EscapeEachIsOneLine(s: string)
    ensures '\n' !in EscapeEach(s) && '\r' !in EscapeEach(s)
  {
    if |s| > 0 {
      EscapeEachIsOneLine(s[1..]);
    }
  }

  // ---------------------------------------------------------------- commands

  datatype MiCommand = MiCommand(token: nat, text: string)

  class MiCommandBuilder {
    var nextToken: nat

    constructor (firstToken: nat)
      requires firstToken >= 1
      ensures nextToken == firstToken
    {
      nextToken := firstToken;
    }

    /** Every command gets a token no earlier command had, and starts with it. */
    method Build(operation: string, arguments: seq<string>) returns (command: MiCommand)
      modifies this
      ensures command.token == old(nextToken) < nextToken == old(nextToken) + 1
      ensures command.text == Decimal(command.token) + operation + (if arguments == [] then "" else " " + Joined(arguments, " "))
    {
      var token := nextToken;
      nextToken := nextToken + 1;
      var text := Decimal(token) + operation;
      if |arguments| > 0 {
        text := text + (" " + Joined(arguments, " "));
      }
      return MiCommand(token, text);
    }
  }
}
