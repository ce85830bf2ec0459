/**
  Printed GDB/MI values and their meaning: the parser reads back exactly what was printed, and a quoted
  command argument is read back as the argument.
 */
module MiRoundTrip {
  import opened Wrappers
  import opened Texts
  import opened MiText
  import opened MiParser

  // ---------------------------------------------------------------- printed trees

  /**
    One character of a C string: itself, a one-letter escape, three octal digits, hexadecimal digits of any number (none
    at all mean the letter x), or a needless backslash.
   */
  datatype Piece = Raw(c: char) | Simple(letter: char) | Octal(a: char, b: char, c: char) | Hex(digits: string) | Kept(c: char) {
    predicate Valid() {
      match this
      case Raw(c) => c != '"' && c != '\\'
      case Simple(letter) => SimpleEscape(letter).Some?
      case Octal(a, b, c) => IsOctal(a) && IsOctal(b) && IsOctal(c)
      case Hex(digits) => (forall k :: 0 <= k < |digits| ==> IsHex(digits[k])) && IsScalar(NumberOf(digits, 16))
      case Kept(c) => SimpleEscape(c).None? && c != 'x' && !IsOctal(c)
    }

    function Print(): (s: string)
      ensures |s| > 0
    {
      match this
      case Raw(c) => [c]
      case Simple(letter) => ['\\', letter]
      case Octal(a, b, c) => ['\\', a, b, c]
      case Hex(digits) => ['\\', 'x'] + digits
      case Kept(c) => ['\\', c]
    }

    function Meaning(): char
      requires Valid()
    {
      match this
      case Raw(c) => c
      case Simple(letter) => SimpleEscape(letter).value
      case Octal(a, b, c) => ((DigitValue(a) * 8 + DigitValue(b)) * 8 + DigitValue(c)) as char
      case Hex(digits) => if digits == "" then 'x' else NumberOf(digits, 16) as char
      case Kept(c) => c
    }
  }

  /** Hexadecimal digits go on as long as there are any, so no such digit follows them. */
  predicate ValidPieces(pieces: seq<Piece>) {
    && (forall k :: 0 <= k < |pieces| ==> pieces[k].Valid())
    && forall k :: 0 <= k < |pieces| - 1 && pieces[k].Hex? ==> !IsHex(pieces[k + 1].Print()[0])
  }

  datatype Tree = CString(pieces: seq<Piece>) | Tuple(fields: Fields) | ListOf(items: Items) {
    predicate Valid() {
      match this
      case CString(pieces) => ValidPieces(pieces)
      case Tuple(fields) => fields.Valid()
      case ListOf(items) => items.Valid()
    }

    function Print(): (s: string)
      ensures |s| > 0 && (s[0] == '"' || s[0] == '{' || s[0] == '[')
    {
      match this
      case CString(pieces) => "\"" + PrintPieces(pieces) + "\""
      case Tuple(fields) => "{" + fields.Print() + "}"
      case ListOf(items) => "[" + items.Print() + "]"
    }

    function Meaning(): Value
      requires Valid()
    {
      match this
      case CString(pieces) => Str(PieceMeanings(pieces))
      case Tuple(fields) => Dict(fields.Meaning(map[]))
      case ListOf(items) => List(items.Meaning([]))
    }
  }

  /** The results of a tuple or record; a repeated name keeps its last value. */
  datatype Fields = NoFields | MoreFields(name: string, value: Tree, rest: Fields) {
    predicate Valid() {
      MoreFields? ==> IsName(name) && value.Valid() && rest.Valid()
    }

    function Head(): string
      requires MoreFields?
      decreases this, 0
    {
      name + "=" + value.Print()
    }

    function Print(): string
      decreases this, 1
    {
      if NoFields? then "" else Head() + (if rest.NoFields? then "" else "," + rest.Print())
    }

    function Meaning(read: map<string, Value>): map<string, Value>
      requires Valid()
    {
      match this
      case NoFields => read
      case MoreFields(name, value, rest) => rest.Meaning(read[name := value.Meaning()])
    }
  }

  /** The items of a list: values, or results, which each mean a one-entry dictionary. */
  datatype Items = NoItems | Plain(value: Tree, rest: Items) | Named(name: string, value: Tree, rest: Items) {
    predicate Valid() {
      !NoItems? ==> (Named? ==> IsName(name)) && value.Valid() && rest.Valid()
    }

    function Head(): string
      requires !NoItems?
      decreases this, 0
    {
      if Plain? then value.Print() else name + "=" + value.Print()
    }

    function HeadMeaning(): Value
      requires !NoItems? && Valid()
      decreases this, 0
    {
      if Plain? then value.Meaning() else Dict(map[name := value.Meaning()])
    }

    function Print(): string
      decreases this, 1
    {
      if NoItems? then "" else Head() + (if rest.NoItems? then "" else "," + rest.Print())
    }

    function Meaning(read: seq<Value>): seq<Value>
      requires Valid()
      decreases this, 1
    {
      if NoItems? then read else rest.Meaning(read + [HeadMeaning()])
    }
  }

  predicate IsName(name: string) {
    |name| > 0 && forall k :: 0 <= k < |name| ==> IsNameChar(name[k])
  }

  function PrintPieces(pieces: seq<Piece>): string {
    if |pieces| == 0 then "" else pieces[0].Print() + PrintPieces(pieces[1..])
  }

  function PieceMeanings(pieces: seq<Piece>): string
    requires forall k :: 0 <= k < |pieces| ==> pieces[k].Valid()
  {
    if |pieces| == 0 then "" else [pieces[0].Meaning()] + PieceMeanings(pieces[1..])
  }

  // ---------------------------------------------------------------- names

  lemma {:induction false} NameEndsAtName(text: string, p: nat, name: string)
    requires At(text, p, name) && forall k :: 0 <= k < |name| ==> IsNameChar(name[k])
    requires p + |name| < |text| && !IsNameChar(text[p + |name|])
    ensures NameEnd(text, p) == p + |name|
    decreases |name|
  {
    if |name| > 0 {
      assert name == [name[0]] + name[1..];
      AtParts(text, p, [name[0]], name[1..]);
      AtHead(text, p, name);
      NameEndsAtName(text, p + 1, name[1..]);
    }
  }

  // ---------------------------------------------------------------- C strings

  lemma OctalPieceReads(text: string, p: nat, a: char, b: char, c: char)
    requires At(text, p, [a, b, c]) && IsOctal(a) && IsOctal(b) && IsOctal(c)
    ensures p < |text| && EscapeAt(text, p) == Parsed(Octal(a, b, c).Meaning(), p + 3)
  {
    var digits := text[p..p + 3];
    assert digits == [a, b, c];
    assert text[p] == digits[0] && text[p + 1] == digits[1] && text[p + 2] == digits[2];
    assert OctalEnd(text, p + 1, 2) == p + 3 by {
      assert OctalEnd(text, p + 3, 0) == p + 3;
      assert OctalEnd(text, p + 2, 1) == p + 3;
    }
    assert digits[..2] == [a, b] && digits[..2][..1] == [a] && [a][..0] == "";
    assert NumberOf([a], 8) == DigitValue(a);
    assert NumberOf([a, b], 8) == DigitValue(a) * 8 + DigitValue(b);
  }

  lemma {:induction false} HexEndsAt(text: string, p: nat, digits: string)
    requires At(text, p, digits) && forall k :: 0 <= k < |digits| ==> IsHex(digits[k])
    requires p + |digits| < |text| && !IsHex(text[p + |digits|])
    ensures HexEnd(text, p) == p + |digits|
    decreases |digits|
  {
    if |digits| > 0 {
      assert digits == [digits[0]] + digits[1..];
      AtParts(text, p, [digits[0]], digits[1..]);
      AtHead(text, p, digits);
      HexEndsAt(text, p + 1, digits[1..]);
    }
  }

  lemma HexPieceReads(text: string, p: nat, digits: string)
    requires Hex(digits).Valid() && At(text, p, ['x'] + digits)
    requires p + 1 + |digits| < |text| && !IsHex(text[p + 1 + |digits|])
    ensures p < |text| && EscapeAt(text, p) == Parsed(Hex(digits).Meaning(), p + 1 + |digits|)
  {
    AtParts(text, p, ['x'], digits);
    AtHead(text, p, ['x']);
    HexEndsAt(text, p + 1, digits);
    assert text[p + 1..p + 1 + |digits|] == digits;
  }

  lemma PieceReads(text: string, p: nat, piece: Piece, read: string)
    requires piece.Valid() && At(text, p, piece.Print())
    requires piece.Hex? ==> p + |piece.Print()| < |text| && !IsHex(text[p + |piece.Print()|])
    ensures StringFrom(text, p, read) == StringFrom(text, p + |piece.Print()|, read + [piece.Meaning()])
  {
    AtHead(text, p, piece.Print());
    if !piece.Raw? {
      assert piece.Print() == ['\\'] + piece.Print()[1..];
      AtParts(text, p, ['\\'], piece.Print()[1..]);
      AtHead(text, p + 1, piece.Print()[1..]);
      if piece.Octal? {
        OctalPieceReads(text, p + 1, piece.a, piece.b, piece.c);
      } else if piece.Hex? {
        assert piece.Print()[1..] == ['x'] + piece.digits;
        HexPieceReads(text, p + 1, piece.digits);
      }
    }
  }

  lemma NextPieceIsApart(pieces: seq<Piece>, tail: string)
    requires ValidPieces(pieces) && |pieces| > 0 && tail == PrintPieces(pieces[1..])
    ensures ValidPieces(pieces[1..]) && (pieces[0].Hex? ==> !IsHex((tail + "\"")[0]))
  {
    if |pieces| > 1 {
      assert pieces[1..][0] == pieces[0 + 1];
      assert tail == pieces[1].Print() + PrintPieces(pieces[1..][1..]);
    }
  }

  lemma StringEnds(text: string, p: nat, read: string)
    requires p < |text| && text[p] == '"'
    ensures StringFrom(text, p, read) == Parsed(Str(read), p + 1)
  {
  }

  lemma {:induction false} StringReads(text: string, p: nat, pieces: seq<Piece>, printed: string, read: string)
    requires ValidPieces(pieces)
    requires printed == PrintPieces(pieces) && At(text, p, printed + "\"")
    ensures StringFrom(text, p, read) == Parsed(Str(read + PieceMeanings(pieces)), p + |printed| + 1)
    decreases |pieces|
  {
    hide StringFrom, Piece.Print, Piece.Meaning, Piece.Valid, IsHex;
    AtHead(text, p, printed + "\"");
    if |pieces| == 0 {
      StringEnds(text, p, read);
      assert read + PieceMeanings(pieces) == read;
    } else {
      var head, tail, c := pieces[0].Print(), PrintPieces(pieces[1..]), pieces[0].Meaning();
      assert printed + "\"" == head + (tail + "\"");
      AtParts(text, p, head, tail + "\"");
      AtHead(text, p + |head|, tail + "\"");
      NextPieceIsApart(pieces, tail);
      PieceReads(text, p, pieces[0], read);
      StringReads(text, p + |head|, pieces[1..], tail, read + [c]);
      assert read + PieceMeanings(pieces) == read + [c] + PieceMeanings(pieces[1..]);
    }
  }

  // ---------------------------------------------------------------- values

  lemma CStringRoundTrip(text: string, p: nat, pieces: seq<Piece>, printed: string)
    requires ValidPieces(pieces)
    requires printed == PrintPieces(pieces) && At(text, p, "\"" + printed + "\"")
    ensures ValueAt(text, p) == Parsed(Str(PieceMeanings(pieces)), p + |printed| + 2)
  {
    assert "\"" + printed + "\"" == "\"" + (printed + "\"");
    AtParts(text, p, "\"", printed + "\"");
    AtHead(text, p, "\"");
    StringReads(text, p + 1, pieces, printed, "");
    assert "" + PieceMeanings(pieces) == PieceMeanings(pieces);
  }

  /**
    Parsing a printed tree gives exactly its meaning and ends exactly at its end, whatever stands
    before and after it in the text.
   */
  lemma {:induction false} ValueRoundTrip(text: string, p: nat, t: Tree)
    requires t.Valid() && At(text, p, t.Print())
    ensures ValueAt(text, p) == Parsed(t.Meaning(), p + |t.Print()|)
    decreases t, 1
  {
    match t
    case CString(pieces) => CStringRoundTrip(text, p, pieces, PrintPieces(pieces));
    case Tuple(fields) => TupleRoundTrip(text, p, fields, fields.Print());
    case ListOf(items) => ListRoundTrip(text, p, items, items.Print());
  }

  /** One step of the parser, at a comma or at the end, once a result, an item or all results have been read. */
  lemma TupleReads(text: string, p: nat, fields: map<string, Value>, e: nat)
    requires p + 1 <= e < |text| && text[p] == '{' && text[e] == '}' && SkipSpace(text, p + 1) == p + 1
    requires text[p + 1] == '}' ==> e == p + 1 && fields == map[]
    requires text[p + 1] != '}' ==> ResultsFrom(text, p + 1, Some('}'), map[]) == Parsed(fields, e)
    ensures ValueAt(text, p) == Parsed(Dict(fields), e + 1)
  {
  }

  lemma LastFieldReads(text: string, p: nat, end: Option<char>, read: map<string, Value>, name: string, value: Value, e: nat)
    requires p <= |text| && !AtEnd(text, p, end) && FieldAt(text, p) == Parsed((name, value), e)
    requires e <= |text| && SkipSpace(text, e) == e && AtEnd(text, e, end)
    ensures ResultsFrom(text, p, end, read) == Parsed(read[name := value], e)
  {
  }

  lemma FieldThenMoreReads(text: string, p: nat, end: Option<char>, read: map<string, Value>, name: string, value: Value, e: nat)
    requires p <= |text| && !AtEnd(text, p, end) && FieldAt(text, p) == Parsed((name, value), e)
    requires e + 1 <= |text| && text[e] == ',' && end != Some(',') && SkipSpace(text, e + 1) == e + 1
    ensures ResultsFrom(text, p, end, read) == ResultsFrom(text, e + 1, end, read[name := value])
  {
    assert SkipSpace(text, e) == e;
  }

  lemma LastItemReads(text: string, p: nat, read: seq<Value>, item: Value, e: nat)
    requires p <= |text| && SkipSpace(text, p) == p && ItemAt(text, p) == Parsed(item, e)
    requires e < |text| && text[e] == ']'
    ensures ItemsFrom(text, p, read) == Parsed(List(read + [item]), e + 1)
  {
    assert SkipSpace(text, e) == e;
  }

  lemma ItemThenMoreReads(text: string, p: nat, read: seq<Value>, item: Value, e: nat)
    requires p <= |text| && SkipSpace(text, p) == p && ItemAt(text, p) == Parsed(item, e)
    requires e < |text| && text[e] == ','
    ensures ItemsFrom(text, p, read) == ItemsFrom(text, e + 1, read + [item])
  {
    assert SkipSpace(text, e) == e;
  }

  lemma ListReads(text: string, p: nat, items: seq<Value>, e: nat)
    requires p + 1 <= e < |text| && text[p] == '[' && SkipSpace(text, p + 1) == p + 1
    requires text[p + 1] == ']' ==> e == p + 1 && items == []
    requires text[p + 1] != ']' ==> ItemsFrom(text, p + 1, []) == Parsed(List(items), e + 1)
    ensures ValueAt(text, p) == Parsed(List(items), e + 1)
  {
  }

  lemma AtBraces(text: string, p: nat, open: char, inner: string, close: char)
    requires At(text, p, [open] + inner + [close])
    ensures p + 1 + |inner| < |text| && text[p] == open && text[p + 1 + |inner|] == close
    ensures At(text, p + 1, inner)
    ensures inner != "" ==> text[p + 1] == inner[0]
  {
    AtParts(text, p, [open] + inner, [close]);
    AtParts(text, p, [open], inner);
    AtHead(text, p, [open]);
    AtHead(text, p + 1 + |inner|, [close]);
    if inner != "" { AtHead(text, p + 1, inner); }
  }

  lemma AtComma(text: string, p: nat, head: string, rest: string)
    requires At(text, p, head + ("," + rest))
    ensures At(text, p, head) && p + |head| < |text| && text[p + |head|] == ','
    ensures At(text, p + |head| + 1, rest)
  {
    AtParts(text, p, head, "," + rest);
    AtParts(text, p + |head|, ",", rest);
    AtHead(text, p + |head|, ",");
  }

  lemma TupleRoundTrip(text: string, p: nat, fields: Fields, inner: string)
    requires fields.Valid() && inner == fields.Print() && At(text, p, "{" + inner + "}")
    ensures ValueAt(text, p) == Parsed(Dict(fields.Meaning(map[])), p + |inner| + 2)
    decreases fields, 4
  {
    AtBraces(text, p, '{', inner, '}');
    var e, meaning := p + 1 + |inner|, fields.Meaning(map[]);
    if fields.MoreFields? {
      FieldsRoundTrip(text, p + 1, fields, inner, e, Some('}'), map[], meaning);
      assert SkipSpace(text, p + 1) == p + 1;
      TupleReads(text, p, meaning, e);
    } else {
      assert inner == "" && meaning == map[];
      TupleReads(text, p, map[], p + 1);
    }
  }

  lemma FieldReads(text: string, p: nat, name: string, value: Value, e: nat, z: nat)
    requires p <= |text| && NameAt(text, p) == Parsed(name, e)
    requires e + 1 <= |text| && text[e] == '=' && ValueAt(text, e + 1) == Parsed(value, z)
    ensures FieldAt(text, p) == Parsed((name, value), z)
  {
    assert SkipSpace(text, e) == e;
  }

  lemma NameReads(text: string, p: nat, name: string, shown: string)
    requires IsName(name) && At(text, p, name + "=" + shown)
    ensures p + |name| + 1 <= |text| && text[p + |name|] == '=' && IsNameChar(text[p])
    ensures NameAt(text, p) == Parsed(name, p + |name|)
    ensures At(text, p + |name| + 1, shown)
  {
    AtParts(text, p, name + "=", shown);
    AtParts(text, p, name, "=");
    AtHead(text, p, name);
    AtHead(text, p + |name|, "=");
    NameEndsAtName(text, p, name);
  }

  lemma AtValue(text: string, p: nat, name: string, shown: string)
    requires At(text, p, name + "=" + shown)
    ensures At(text, p + |name| + 1, shown)
  {
    AtParts(text, p, name + "=", shown);
  }

  /** A field is read once its value is. */
  lemma FieldOfValue(text: string, p: nat, name: string, shown: string, q: nat, value: Value, z: nat)
    requires IsName(name) && At(text, p, name + "=" + shown) && q == p + |name| + 1 <= |text|
    requires ValueAt(text, q) == Parsed(value, z)
    ensures p < |text| && IsNameChar(text[p])
    ensures FieldAt(text, p) == Parsed((name, value), z)
  {
    NameReads(text, p, name, shown);
    FieldReads(text, p, name, value, p + |name|, z);
  }

  lemma FieldRoundTrip(text: string, p: nat, name: string, value: Tree, shown: string)
    requires IsName(name) && value.Valid() && shown == value.Print() && At(text, p, name + "=" + shown)
    ensures p < |text| && IsNameChar(text[p])
    ensures FieldAt(text, p) == Parsed((name, value.Meaning()), p + |name| + 1 + |shown|)
    decreases value, 2
  {
    var q := p + |name| + 1;
    AtValue(text, p, name, shown);
    ValueRoundTrip(text, q, value);
    FieldOfValue(text, p, name, shown, q, value.Meaning(), q + |shown|);
  }

  lemma FieldHeadRoundTrip(text: string, p: nat, fields: Fields)
    requires fields.MoreFields? && fields.Valid() && At(text, p, fields.Head())
    ensures p < |text| && IsNameChar(text[p])
    ensures FieldAt(text, p) == Parsed((fields.name, fields.value.Meaning()), p + |fields.Head()|)
    decreases fields, 0
  {
    hide FieldAt, Tree.Meaning;
    FieldRoundTrip(text, p, fields.name, fields.value, fields.value.Print());
  }

  /** Where results end: at the end of the text, or at the brace that closes the tuple. */
  predicate EndsAt(text: string, z: nat, end: Option<char>) {
    if end.None? then z == |text| else end.value == '}' && z < |text| && text[z] == '}'
  }

  lemma LastFieldRoundTrip(text: string, p: nat, fields: Fields, z: nat, end: Option<char>, read: map<string, Value>)
    requires fields.MoreFields? && fields.Valid() && fields.rest.NoFields? && At(text, p, fields.Head())
    requires z == p + |fields.Head()| && EndsAt(text, z, end)
    ensures p < |text| && IsNameChar(text[p])
    ensures ResultsFrom(text, p, end, read) == Parsed(read[fields.name := fields.value.Meaning()], z)
    decreases fields, 1
  {
    FieldHeadRoundTrip(text, p, fields);
    LastFieldReads(text, p, end, read, fields.name, fields.value.Meaning(), z);
  }

  lemma FirstFieldRoundTrip(
    text: string, p: nat, fields: Fields, tail: string, end: Option<char>, read: map<string, Value>)
    requires fields.MoreFields? && fields.Valid() && At(text, p, fields.Head() + ("," + tail))
    requires tail != "" && IsNameChar(tail[0]) && (end.Some? ==> end.value == '}')
    ensures var e := p + |fields.Head()| + 1; e <= |text| && At(text, e, tail)
    ensures p < |text| && IsNameChar(text[p])
    ensures ResultsFrom(text, p, end, read) ==
            ResultsFrom(text, p + |fields.Head()| + 1, end, read[fields.name := fields.value.Meaning()])
    decreases fields, 1
  {
    hide ResultsFrom, ValueAt, Tree.Print, Tree.Meaning;
    var e := p + |fields.Head()|;
    AtComma(text, p, fields.Head(), tail);
    FieldHeadRoundTrip(text, p, fields);
    AtHead(text, e + 1, tail);
    FieldThenMoreReads(text, p, end, read, fields.name, fields.value.Meaning(), e);
  }

  lemma PrintStartsWithName(fields: Fields)
    requires fields.Valid() && fields.MoreFields?
    ensures fields.Print() != "" && IsNameChar(fields.Print()[0])
  {
    assert fields.Head()[0] == fields.name[0];
  }

  lemma MeaningOfRest(fields: Fields, read: map<string, Value>)
    requires fields.MoreFields? && fields.Valid()
    ensures fields.Meaning(read) == fields.rest.Meaning(read[fields.name := fields.value.Meaning()])
    ensures fields.rest.NoFields? ==> fields.Meaning(read) == read[fields.name := fields.value.Meaning()]
    ensures fields.Print() == if fields.rest.NoFields? then fields.Head() else fields.Head() + ("," + fields.rest.Print())
  {
  }

  lemma LastFieldsRoundTrip(
    text: string, p: nat, fields: Fields, z: nat, end: Option<char>, read: map<string, Value>, meaning: map<string, Value>)
    requires fields.MoreFields? && fields.Valid() && fields.rest.NoFields? && At(text, p, fields.Print())
    requires z == p + |fields.Print()| && EndsAt(text, z, end) && meaning == fields.Meaning(read)
    ensures p < |text| && IsNameChar(text[p])
    ensures ResultsFrom(text, p, end, read) == Parsed(meaning, z)
    decreases fields, 2
  {
    MeaningOfRest(fields, read);
    LastFieldRoundTrip(text, p, fields, z, end, read);
  }

  /** The parts of a longer list of results: where the first one ends and the others begin. */
  lemma FieldsParts(text: string, p: nat, fields: Fields, printed: string, q: nat, tail: string)
    requires fields.MoreFields? && fields.Valid() && fields.rest.MoreFields? && printed == fields.Print()
    requires At(text, p, printed) && q == p + |fields.Head()| + 1 && tail == fields.rest.Print()
    ensures At(text, p, fields.Head() + ("," + tail)) && p + |printed| == q + |tail|
    ensures tail != "" && IsNameChar(tail[0])
  {
    PrintStartsWithName(fields.rest);
    assert printed == fields.Head() + ("," + tail);
  }

  lemma FieldsRoundTrip(
    text: string, p: nat, fields: Fields, printed: string, z: nat, end: Option<char>, read: map<string, Value>,
    meaning: map<string, Value>)
    requires fields.MoreFields? && fields.Valid() && printed == fields.Print() && At(text, p, printed)
    requires z == p + |printed| && EndsAt(text, z, end) && meaning == fields.Meaning(read)
    ensures p < |text| && IsNameChar(text[p])
    ensures ResultsFrom(text, p, end, read) == Parsed(meaning, z)
    decreases fields, 3
  {
    hide ResultsFrom, Fields.Print, Fields.Meaning;
    if fields.rest.NoFields? {
      LastFieldsRoundTrip(text, p, fields, z, end, read, meaning);
    } else {
      var q, tail := p + |fields.Head()| + 1, fields.rest.Print();
      MeaningOfRest(fields, read);
      FieldsParts(text, p, fields, printed, q, tail);
      FirstFieldRoundTrip(text, p, fields, tail, end, read);
      FieldsRoundTrip(text, q, fields.rest, tail, z, end, read[fields.name := fields.value.Meaning()], meaning);
    }
  }

  lemma ListRoundTrip(text: string, p: nat, items: Items, inner: string)
    requires items.Valid() && inner == items.Print() && At(text, p, "[" + inner + "]")
    ensures ValueAt(text, p) == Parsed(List(items.Meaning([])), p + |inner| + 2)
    decreases items, 3
  {
    AtBraces(text, p, '[', inner, ']');
    var e, meaning := p + 1 + |inner|, items.Meaning([]);
    if items.NoItems? {
      assert inner == "" && meaning == [];
      ListReads(text, p, [], p + 1);
    } else {
      ItemsRoundTrip(text, p + 1, items, inner, []);
      ListReads(text, p, meaning, e);
    }
  }

  /** No result can be read where a value is printed, so the parser comes back and reads the value. */
  lemma PlainItemRoundTrip(text: string, p: nat, value: Tree)
    requires value.Valid() && At(text, p, value.Print())
    ensures p < |text| && SkipSpace(text, p) == p
    ensures ItemAt(text, p) == Parsed(value.Meaning(), p + |value.Print()|)
    decreases value, 2
  {
    AtHead(text, p, value.Print());
    assert NameEnd(text, p) == p;
    ValueRoundTrip(text, p, value);
  }

  lemma ItemRoundTrip(text: string, p: nat, items: Items)
    requires !items.NoItems? && items.Valid() && At(text, p, items.Head())
    ensures p < |text| && SkipSpace(text, p) == p && text[p] != ']'
    ensures ItemAt(text, p) == Parsed(items.HeadMeaning(), p + |items.Head()|)
    decreases items, 1
  {
    if items.Plain? {
      PlainItemRoundTrip(text, p, items.value);
    } else {
      FieldRoundTrip(text, p, items.name, items.value, items.value.Print());
    }
  }

  lemma ItemsRoundTrip(text: string, p: nat, items: Items, printed: string, read: seq<Value>)
    requires !items.NoItems? && items.Valid() && printed == items.Print() && At(text, p, printed)
    requires p + |printed| < |text| && text[p + |printed|] == ']'
    ensures p < |text| && SkipSpace(text, p) == p && text[p] != ']'
    ensures ItemsFrom(text, p, read) == Parsed(List(items.Meaning(read)), p + |printed| + 1)
    decreases items, 2
  {
    hide ItemsFrom, ItemAt, SkipSpace, Tree.Valid, Tree.Print, Tree.Meaning;
    var head, rest, item := items.Head(), items.rest, items.HeadMeaning();
    var e := p + |head|;
    if rest.NoItems? {
      assert printed == head;
      ItemRoundTrip(text, p, items);
      LastItemReads(text, p, read, item, e);
    } else {
      var tail := rest.Print();
      assert printed == head + ("," + tail);
      AtComma(text, p, head, tail);
      ItemRoundTrip(text, p, items);
      ItemsRoundTrip(text, e + 1, rest, tail, read + [item]);
      ItemThenMoreReads(text, p, read, item, e);
    }
  }

  // ---------------------------------------------------------------- quoted arguments

  function PieceOf(c: char): Piece {
    match c
    case '\\' => Simple('\\')
    case '"' => Simple('"')
    case '\n' => Simple('n')
    case '\r' => Simple('r')
    case '\t' => Simple('t')
    case c => Raw(c)
  }

  function PiecesOf(s: string): (pieces: seq<Piece>) {
    if |s| == 0 then [] else [PieceOf(s[0])] + PiecesOf(s[1..])
  }

  lemma PieceOfChar(c: char)
    ensures PieceOf(c).Valid() && !PieceOf(c).Hex? && PieceOf(c).Meaning() == c && PieceOf(c).Print() == EscapeChar(c)
  {
  }

  lemma {:induction false} PiecesOfString(s: string)
    ensures ValidPieces(PiecesOf(s)) && forall k :: 0 <= k < |PiecesOf(s)| ==> !PiecesOf(s)[k].Hex?
    ensures PrintPieces(PiecesOf(s)) == EscapeEach(s)
    ensures PieceMeanings(PiecesOf(s)) == s
  {
    if |s| > 0 {
      hide PieceOf, Piece.Valid, Piece.Print, Piece.Meaning;
      PieceOfChar(s[0]);
      PiecesOfString(s[1..]);
      assert PiecesOf(s)[1..] == PiecesOf(s[1..]);
    }
  }

  /** The parser reads a quoted argument back as the argument, for every string and wherever it stands. */
  lemma QuoteRoundTrip(text: string, p: nat, s: string)
    requires At(text, p, Quote(s))
    ensures ValueAt(text, p) == Parsed(Str(s), p + |Quote(s)|)
  {
    EscapedIsPerCharacter(s);
    PiecesOfString(s);
    ValueRoundTrip(text, p, CString(PiecesOf(s)));
  }
}
