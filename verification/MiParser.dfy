/**
  The recursive-descent parser of GDB/MI values: what it reads at a position of the text, and the object
  that reads it by moving its own position, backtracking where a list item may be a result or a value.
 */
module MiParser {
  import opened Wrappers
  import opened Texts
  import opened MiText

  datatype Value = Str(s: string) | Dict(fields: map<string, Value>) | List(items: seq<Value>)

  /**
    A value and the position after it. A malformed text is a MiError; a numeric escape outside the character range
    is a CharError, which backtracking does not catch.
   */
  datatype Parse<+T> = Parsed(value: T, pos: nat) | MiError | CharError

  // ---------------------------------------------------------------- what is read where

  /** The position after the expected character, blanks skipped. */
  function ExpectAt(text: string, p: nat, c: char): (r: Option<nat>)
    requires p <= |text|
    ensures r.Some? ==> p < r.value <= |text| && text[r.value - 1] == c
  {
    var q := SkipSpace(text, p);
    if q < |text| && text[q] == c then Some(q + 1) else None
  }

  function NameEnd(text: string, p: nat): (r: nat)
    requires p <= |text|
    ensures p <= r <= |text|
    decreases |text| - p
  {
    if p < |text| && IsNameChar(text[p]) then NameEnd(text, p + 1) else p
  }

  function NameAt(text: string, p: nat): (r: Parse<string>)
    requires p <= |text|
    ensures r.Parsed? ==> p < r.pos <= |text| && |r.value| > 0
  {
    var q := SkipSpace(text, p);
    var e := NameEnd(text, q);
    if q == e then MiError else Parsed(text[q..e], e)
  }

  predicate EndsBare(c: char) { c == ',' || c == ']' || c == '}' }

  function BareEnd(text: string, p: nat): (r: nat)
    requires p <= |text|
    ensures p <= r <= |text|
    decreases |text| - p
  {
    if p < |text| && !EndsBare(text[p]) then BareEnd(text, p + 1) else p
  }

  function BareAt(text: string, p: nat): (r: Parse<Value>)
    requires p <= |text|
    ensures r.Parsed? ==> p < r.pos <= |text|
  {
    var e := BareEnd(text, p);
    var value := Strip(text[p..e]);
    if value == "" then MiError
    else
      assert e != p by { assert |text[p..p]| == 0; }
      Parsed(Str(value), e)
  }

  function HexEnd(text: string, p: nat): (r: nat)
    requires p <= |text|
    ensures p <= r <= |text|
    ensures forall k :: p <= k < r ==> IsHex(text[k])
    decreases |text| - p
  {
    if p < |text| && IsHex(text[p]) then HexEnd(text, p + 1) else p
  }

  /** Up to `limit` octal digits. */
  function OctalEnd(text: string, p: nat, limit: nat): (r: nat)
    requires p <= |text|
    ensures p <= r <= |text| && r <= p + limit
    ensures forall k :: p <= k < r ==> IsOctal(text[k])
    decreases limit
  {
    if limit > 0 && p < |text| && IsOctal(text[p]) then OctalEnd(text, p + 1, limit - 1) else p
  }

  /** The character an escape stands for; `p` is the position after the backslash. */
  function EscapeAt(text: string, p: nat): (r: Parse<char>)
    requires p < |text|
    ensures r.Parsed? ==> p < r.pos <= |text|
  {
    var c := text[p];
    if SimpleEscape(c).Some? then Parsed(SimpleEscape(c).value, p + 1)
    else if c == 'x' then
      var e := HexEnd(text, p + 1);
      if e == p + 1 then Parsed('x', e)
      else if IsScalar(NumberOf(text[p + 1..e], 16)) then Parsed(NumberOf(text[p + 1..e], 16) as char, e)
      else CharError
    else if IsOctal(c) then
      var e := OctalEnd(text, p + 1, 2);
      if IsScalar(NumberOf(text[p..e], 8)) then Parsed(NumberOf(text[p..e], 8) as char, e) else CharError
    else Parsed(c, p + 1)
  }

  /** The rest of a C string, after `read`. */
  function StringFrom(text: string, p: nat, read: string): (r: Parse<Value>)
    requires p <= |text|
    ensures r.Parsed? ==> p < r.pos <= |text| && r.value.Str?
    decreases |text| - p
  {
    if p >= |text| then MiError
    else if text[p] == '"' then Parsed(Str(read), p + 1)
    else if text[p] != '\\' then StringFrom(text, p + 1, read + [text[p]])
    else if p + 1 >= |text| then MiError
    else match EscapeAt(text, p + 1)
      case Parsed(c, q) => StringFrom(text, q, read + [c])
      case MiError => MiError
      case CharError => CharError
  }

  predicate AtEnd(text: string, p: nat, end: Option<char>) {
    p >= |text| || (end.Some? && text[p] == end.value)
  }

  function ValueAt(text: string, p: nat): (r: Parse<Value>)
    requires p <= |text|
    ensures r.Parsed? ==> p < r.pos <= |text|
    decreases |text| - p, 0
  {
    var q := SkipSpace(text, p);
    if q >= |text| then MiError
    else if text[q] == '"' then StringFrom(text, q + 1, "")
    else if text[q] == '{' then
      var o := SkipSpace(text, q + 1);
      if o < |text| && text[o] == '}' then Parsed(Dict(map[]), o + 1)
      else
        match ResultsFrom(text, o, Some('}'), map[])
        case Parsed(fields, e) =>
          (match ExpectAt(text, e, '}')
           case Some(z) => Parsed(Dict(fields), z)
           case None => MiError)
        case MiError => MiError
        case CharError => CharError
    else if text[q] == '[' then
      var o := SkipSpace(text, q + 1);
      if o < |text| && text[o] == ']' then Parsed(List([]), o + 1) else ItemsFrom(text, o, [])
    else BareAt(text, q)
  }

  function FieldAt(text: string, p: nat): (r: Parse<(string, Value)>)
    requires p <= |text|
    ensures r.Parsed? ==> p < r.pos <= |text|
    decreases |text| - p, 1
  {
    match NameAt(text, p)
    case Parsed(name, e) =>
      (match ExpectAt(text, e, '=')
       case Some(q) =>
         (match ValueAt(text, q)
          case Parsed(value, z) => Parsed((name, value), z)
          case MiError => MiError
          case CharError => CharError)
       case None => MiError)
    case MiError => MiError
    case CharError => CharError
  }

  /** The results from here on, added to those `read`; a repeated name keeps its last value. */
  function ResultsFrom(text: string, p: nat, end: Option<char>, read: map<string, Value>): (r: Parse<map<string, Value>>)
    requires p <= |text|
    ensures r.Parsed? ==> p <= r.pos <= |text|
    decreases |text| - p, 2
  {
    if AtEnd(text, p, end) then Parsed(read, p)
    else
      match FieldAt(text, p)
      case Parsed((name, value), e) =>
        var q, more := SkipSpace(text, e), read[name := value];
        if AtEnd(text, q, end) then Parsed(more, q)
        else
          (match ExpectAt(text, q, ',')
           case Some(z) => ResultsFrom(text, SkipSpace(text, z), end, more)
           case None => MiError)
      case MiError => MiError
      case CharError => CharError
  }

  /** A list item: a result if one can be read here, else a value from the same position. */
  function ItemAt(text: string, p: nat): (r: Parse<Value>)
    requires p <= |text|
    ensures r.Parsed? ==> p < r.pos <= |text|
    decreases |text| - p, 2
  {
    match FieldAt(text, p)
    case Parsed((name, value), e) => Parsed(Dict(map[name := value]), e)
    case MiError => ValueAt(text, p)
    case CharError => CharError
  }

  function ItemsFrom(text: string, p: nat, read: seq<Value>): (r: Parse<Value>)
    requires p <= |text|
    ensures r.Parsed? ==> p < r.pos <= |text|
    decreases |text| - p, 3
  {
    var s := SkipSpace(text, p);
    match ItemAt(text, s)
    case Parsed(item, e) =>
      var q, more := SkipSpace(text, e), read + [item];
      if q >= |text| then MiError
      else if text[q] == ']' then Parsed(List(more), q + 1)
      else
        (match ExpectAt(text, q, ',')
         case Some(z) => ItemsFrom(text, z, more)
         case None => MiError)
    case MiError => MiError
    case CharError => CharError
  }

  // ---------------------------------------------------------------- the parser object

  /** How a method of the parser ends; its position says where. */
  datatype Step<+T> = Got(value: T) | RaiseMi | RaiseChar

  /** The method read at `pos` what the text holds there. */
  predicate Agrees<T(==)>(step: Step<T>, pos: nat, parse: Parse<T>) {
    match step
    case Got(value) => parse == Parsed(value, pos)
    case RaiseMi => parse.MiError?
    case RaiseChar => parse.CharError?
  }

  class MiValueParser {
    const text: string
    var position: nat

    predicate Valid()
      reads this
    {
      position <= |text|
    }

    constructor (text: string)
      ensures Valid() && this.text == text && position == 0
    {
      this.text, position := text, 0;
    }

    method SkipWhitespace()
      requires Valid()
      modifies this
      ensures Valid() && position == SkipSpace(text, old(position))
    {
      while position < |text| && IsSpace(text[position])
        invariant Valid() && SkipSpace(text, position) == SkipSpace(text, old(position))
      {
        position := position + 1;
      }
    }

    method Expect(c: char) returns (found: bool)
      requires Valid()
      modifies this
      ensures Valid() && old(position) <= position
      ensures found == ExpectAt(text, old(position), c).Some?
      ensures found ==> position == ExpectAt(text, old(position), c).value
    {
      SkipWhitespace();
      if position >= |text| || text[position] != c {
        return false;
      }
      position := position + 1;
      return true;
    }

    method ParseName() returns (r: Step<string>)
      requires Valid()
      modifies this
      ensures Valid() && old(position) <= position
      ensures Agrees(r, position, NameAt(text, old(position)))
    {
      SkipWhitespace();
      var start := position;
      while position < |text| && IsNameChar(text[position])
        invariant start <= position <= |text| && NameEnd(text, position) == NameEnd(text, start)
      {
        position := position + 1;
      }
      if start == position {
        return RaiseMi;
      }
      return Got(text[start..position]);
    }

    method ParseBareValue() returns (r: Step<Value>)
      requires Valid()
      modifies this
      ensures Valid() && old(position) <= position
      ensures Agrees(r, position, BareAt(text, old(position)))
    {
      var start := position;
      while position < |text| && !EndsBare(text[position])
        invariant start <= position <= |text| && BareEnd(text, position) == BareEnd(text, start)
      {
        position := position + 1;
      }
      var value := Strip(text[start..position]);
      if value == "" {
        return RaiseMi;
      }
      return Got(Str(value));
    }

    method ParseEscape() returns (r: Step<char>)
      requires Valid() && position < |text|
      modifies this
      ensures Valid() && old(position) < position
      ensures Agrees(r, position, EscapeAt(text, old(position)))
    {
      var escaped := text[position];
      position := position + 1;
      if SimpleEscape(escaped).Some? {
        return Got(SimpleEscape(escaped).value);
      }
      if escaped == 'x' {
        r := ParseHexEscape();
        return;
      }
      if IsOctal(escaped) {
        r := ParseOctalEscape();
        return;
      }
      return Got(escaped);
    }

    method ParseHexEscape() returns (r: Step<char>)
      requires Valid() && position > 0 && text[position - 1] == 'x'
      modifies this
      ensures Valid() && old(position) <= position
      ensures Agrees(r, position, EscapeAt(text, old(position) - 1))
    {
      var start := position;
      while position < |text| && IsHex(text[position])
        invariant start <= position <= |text| && HexEnd(text, position) == HexEnd(text, start)
      {
        position := position + 1;
      }
      if start == position {
        return Got('x');
      }
      var value := NumberOf(text[start..HexEnd(text, start)], 16);
      if !IsScalar(value) {
        return RaiseChar;
      }
      return Got(value as char);
    }

    method ParseOctalEscape() returns (r: Step<char>)
      requires Valid() && position > 0 && IsOctal(text[position - 1])
      modifies this
      ensures Valid() && old(position) <= position
      ensures Agrees(r, position, EscapeAt(text, old(position) - 1))
    {
      var start, left := position, 2;
      while left > 0 && position < |text| && IsOctal(text[position])
        invariant start <= position <= |text| && 0 <= left <= 2
        invariant OctalEnd(text, position, left) == OctalEnd(text, start, 2)
        decreases left
      {
        position, left := position + 1, left - 1;
      }
      var value := NumberOf(text[start - 1..OctalEnd(text, start, 2)], 8);
      if !IsScalar(value) {
        return RaiseChar;
      }
      return Got(value as char);
    }

    method ParseCString() returns (r: Step<Value>)
      requires Valid() && position < |text| && text[position] == '"'
      modifies this
      ensures Valid() && old(position) <= position
      ensures Agrees(r, position, StringFrom(text, old(position) + 1, ""))
    {
      position := position + 1;
      var start, read := position, "";
      while position < |text|
        invariant start <= position <= |text|
        invariant StringFrom(text, position, read) == StringFrom(text, start, "")
        decreases |text| - position
      {
        var c := text[position];
        position := position + 1;
        if c == '"' {
          return Got(Str(read));
        }
        if c != '\\' {
          read := read + [c];
          continue;
        }
        if position >= |text| {
          return RaiseMi;
        }
        var escape := ParseEscape();
        match escape {
          case Got(e) => read := read + [e];
          case RaiseMi => return RaiseMi;
          case RaiseChar => return RaiseChar;
        }
      }
      return RaiseMi;
    }

    method ParseValue() returns (r: Step<Value>)
      requires Valid()
      modifies this
      ensures Valid() && old(position) <= position
      ensures Agrees(r, position, ValueAt(text, old(position)))
      decreases |text| - position, 1
    {
      SkipWhitespace();
      if position >= |text| {
        return RaiseMi;
      }
      var c := text[position];
      if c == '"' {
        r := ParseCString();
      } else if c == '{' {
        r := ParseTuple();
      } else if c == '[' {
        r := ParseList();
      } else {
        r := ParseBareValue();
      }
    }

    method ParseTuple() returns (r: Step<Value>)
      requires Valid() && position < |text| && text[position] == '{'
      modifies this
      ensures Valid() && old(position) <= position
      ensures Agrees(r, position, ValueAt(text, old(position)))
      decreases |text| - position, 0
    {
      position := position + 1;
      SkipWhitespace();
      if position < |text| && text[position] == '}' {
        position := position + 1;
        return Got(Dict(map[]));
      }
      var results := ParseResults(Some('}'));
      match results {
        case Got(fields) =>
          var closed := Expect('}');
          return if closed then Got(Dict(fields)) else RaiseMi;
        case RaiseMi => return RaiseMi;
        case RaiseChar => return RaiseChar;
      }
    }

    method ParseResults(end: Option<char>) returns (r: Step<map<string, Value>>)
      requires Valid()
      modifies this
      ensures Valid() && old(position) <= position
      ensures Agrees(r, position, ResultsFrom(text, SkipSpace(text, old(position)), end, map[]))
      decreases |text| - position, 3
    {
      SkipWhitespace();
      var start, results := position, map[];
      while position < |text|
        invariant start <= position <= |text|
        invariant ResultsFrom(text, position, end, results) == ResultsFrom(text, start, end, map[])
        decreases |text| - position
      {
        if AtEnd(text, position, end) {
          break;
        }
        var field := ParseField();
        match field {
          case Got(f) => results := results[f.0 := f.1];
          case RaiseMi => return RaiseMi;
          case RaiseChar => return RaiseChar;
        }
        SkipWhitespace();
        if AtEnd(text, position, end) {
          return Got(results);
        }
        var comma := Expect(',');
        if !comma {
          return RaiseMi;
        }
        SkipWhitespace();
      }
      return Got(results);
    }

    /** A name, an equals sign, a value. */
    method ParseField() returns (r: Step<(string, Value)>)
      requires Valid()
      modifies this
      ensures Valid() && old(position) <= position
      ensures Agrees(r, position, FieldAt(text, old(position)))
      decreases |text| - position, 2
    {
      var name := ParseName();
      match name {
        case Got(n) =>
          var equals := Expect('=');
          if !equals {
            return RaiseMi;
          }
          var value := ParseValue();
          match value {
            case Got(v) => return Got((n, v));
            case RaiseMi => return RaiseMi;
            case RaiseChar => return RaiseChar;
          }
        case RaiseMi => return RaiseMi;
        case RaiseChar => return RaiseChar;
      }
    }

    /** None, with the position put back exactly, when no result can be read here. */
    method TryParseResult() returns (r: Step<Option<(string, Value)>>)
      requires Valid()
      modifies this
      ensures Valid() && old(position) <= position
      ensures r == (match FieldAt(text, old(position))
                    case Parsed(field, _) => Got(Some(field))
                    case MiError => Got(None)
                    case CharError => RaiseChar)
      ensures r == Got(None) ==> position == old(position)
      ensures r.Got? && r.value.Some? ==> position == FieldAt(text, old(position)).pos
      decreases |text| - position, 3
    {
      var savedPosition := position;
      var field := ParseField();
      match field {
        case Got(f) => return Got(Some(f));
        case RaiseMi =>
          position := savedPosition;
          return Got(None);
        case RaiseChar => return RaiseChar;
      }
    }

    method ParseItem() returns (r: Step<Value>)
      requires Valid()
      modifies this
      ensures Valid() && old(position) <= position && (r.Got? ==> old(position) < position)
      ensures Agrees(r, position, ItemAt(text, old(position)))
      decreases |text| - position, 4
    {
      var savedPosition := position;
      var result := TryParseResult();
      match result {
        case Got(None) =>
          position := savedPosition;
          r := ParseValue();
        case Got(Some(f)) => return Got(Dict(map[f.0 := f.1]));
        case RaiseMi => return RaiseMi;
        case RaiseChar => return RaiseChar;
      }
    }

    method ParseList() returns (r: Step<Value>)
      requires Valid() && position < |text| && text[position] == '['
      modifies this
      ensures Valid() && old(position) <= position
      ensures Agrees(r, position, ValueAt(text, old(position)))
      decreases |text| - position, 0
    {
      position := position + 1;
      SkipWhitespace();
      if position < |text| && text[position] == ']' {
        position := position + 1;
        return Got(List([]));
      }
      var start, items := position, [];
      while true
        invariant start <= position <= |text|
        invariant ItemsFrom(text, position, items) == ItemsFrom(text, start, [])
        decreases |text| - position
      {
        SkipWhitespace();
        var item := ParseItem();
        match item {
          case Got(v) => items := items + [v];
          case RaiseMi => return RaiseMi;
          case RaiseChar => return RaiseChar;
        }
        SkipWhitespace();
        if position >= |text| {
          return RaiseMi;
        }
        if text[position] == ']' {
          position := position + 1;
          break;
        }
        var comma := Expect(',');
        if !comma {
          return RaiseMi;
        }
      }
      return Got(List(items));
    }
  }
}
