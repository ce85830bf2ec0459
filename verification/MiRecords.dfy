/**
  One line of GDB/MI output: an optional token, a marker, and a stream text or a record class with results.
 */
module MiRecords {
  import opened Wrappers
  import opened Texts
  import opened MiText
  import opened MiParser
  import opened MiRoundTrip

  datatype RecordKind =
    | Unknown | Prompt | Result | ExecAsync | StatusAsync | NotifyAsync | ConsoleStream | TargetStream | LogStream

  datatype Payload = NoPayload | StreamText(s: string) | Results(fields: map<string, Value>)

  datatype MiRecord = MiRecord(
    kind: RecordKind, raw: string, token: Option<nat>, messageClass: Option<string>, payload: Payload)

  function StreamKind(marker: char): Option<RecordKind> {
    match marker
    case '~' => Some(ConsoleStream)
    case '@' => Some(TargetStream)
    case '&' => Some(LogStream)
    case _ => None
  }

  function ClassKind(marker: char): Option<RecordKind> {
    match marker
    case '^' => Some(Result)
    case '*' => Some(ExecAsync)
    case '+' => Some(StatusAsync)
    case '=' => Some(NotifyAsync)
    case _ => None
  }

  // ---------------------------------------------------------------- what a line says

  function TrimLineEnd(line: string): string {
    if |line| > 0 && (line[|line| - 1] == '\r' || line[|line| - 1] == '\n') then TrimLineEnd(line[..|line| - 1]) else line
  }

  function DigitsEnd(text: string, p: nat): (r: nat)
    requires p <= |text|
    ensures p <= r <= |text|
    ensures forall k :: p <= k < r ==> IsDigit(text[k])
    decreases |text| - p
  {
    if p < |text| && IsDigit(text[p]) then DigitsEnd(text, p + 1) else p
  }

  function CommaAt(body: string, p: nat): (r: nat)
    requires p <= |body|
    ensures p <= r <= |body|
    decreases |body| - p
  {
    if p < |body| && body[p] != ',' then CommaAt(body, p + 1) else p
  }

  function StreamPayload(body: string): Step<string> {
    var q := SkipSpace(body, 0);
    if q >= |body| || body[q] != '"' then RaiseMi
    else match ValueAt(body, 0)
      case Parsed(value, e) => if SkipSpace(body, e) < |body| || !value.Str? then RaiseMi else Got(value.s)
      case MiError => RaiseMi
      case CharError => RaiseChar
  }

  function ResultsPayload(remainder: string): Step<map<string, Value>> {
    match ResultsFrom(remainder, SkipSpace(remainder, 0), None, map[])
    case Parsed(fields, e) => if SkipSpace(remainder, e) < |remainder| then RaiseMi else Got(fields)
    case MiError => RaiseMi
    case CharError => RaiseChar
  }

  /** The record after its token: the marker and what follows it. */
  function MarkedRecord(raw: string, token: Option<nat>, marker: char, body: string): Step<MiRecord> {
    if StreamKind(marker).Some? then
      match StreamPayload(body)
      case Got(s) => Got(MiRecord(StreamKind(marker).value, raw, token, None, StreamText(s)))
      case RaiseMi => RaiseMi
      case RaiseChar => RaiseChar
    else if ClassKind(marker).Some? then
      var c := CommaAt(body, 0);
      if c == 0 then RaiseMi
      else if c == |body| then Got(MiRecord(ClassKind(marker).value, raw, token, Some(body), Results(map[])))
      else
        match ResultsPayload(body[c + 1..])
        case Got(fields) => Got(MiRecord(ClassKind(marker).value, raw, token, Some(body[..c]), Results(fields)))
        case RaiseMi => RaiseMi
        case RaiseChar => RaiseChar
    else Got(MiRecord(Unknown, raw, token, None, NoPayload))
  }

  function RecordOf(line: string): Step<MiRecord> {
    var raw := TrimLineEnd(line);
    var text := Strip(raw);
    if text == "" then Got(MiRecord(Unknown, raw, None, None, NoPayload))
    else if text == "(gdb)" then Got(MiRecord(Prompt, raw, None, None, NoPayload))
    else
      var p := DigitsEnd(text, 0);
      var token := if p > 0 then Some(NumberOf(text[..p], 10)) else None;
      if p == |text| then Got(MiRecord(Unknown, raw, token, None, NoPayload))
      else MarkedRecord(raw, token, text[p], text[p + 1..])
  }

  // ---------------------------------------------------------------- reading it

  method EnsureFinished(parser: MiValueParser) returns (finished: bool)
    requires parser.Valid()
    modifies parser
    ensures parser.Valid() && finished == (SkipSpace(parser.text, old(parser.position)) == |parser.text|)
  {
    parser.SkipWhitespace();
    return parser.position >= |parser.text|;
  }

  method ParseStreamRecord(raw: string, token: Option<nat>, marker: char, body: string) returns (r: Step<MiRecord>)
    requires StreamKind(marker).Some?
    ensures r == MarkedRecord(raw, token, marker, body)
  {
    var q := SkipSpace(body, 0);
    if q >= |body| || body[q] != '"' {
      return RaiseMi;
    }
    var parser := new MiValueParser(body);
    var value := parser.ParseValue();
    match value {
      case Got(v) =>
        var finished := EnsureFinished(parser);
        if !finished || !v.Str? {
          return RaiseMi;
        }
        return Got(MiRecord(StreamKind(marker).value, raw, token, None, StreamText(v.s)));
      case RaiseMi => return RaiseMi;
      case RaiseChar => return RaiseChar;
    }
  }

  method ParseResultOrAsyncRecord(raw: string, token: Option<nat>, marker: char, body: string) returns (r: Step<MiRecord>)
    requires StreamKind(marker).None? && ClassKind(marker).Some?
    ensures r == MarkedRecord(raw, token, marker, body)
  {
    var c := CommaAt(body, 0);
    if c == 0 {
      return RaiseMi;
    }
    if c == |body| {
      return Got(MiRecord(ClassKind(marker).value, raw, token, Some(body), Results(map[])));
    }
    var parser := new MiValueParser(body[c + 1..]);
    var results := parser.ParseResults(None);
    match results {
      case Got(fields) =>
        var finished := EnsureFinished(parser);
        if !finished {
          return RaiseMi;
        }
        return Got(MiRecord(ClassKind(marker).value, raw, token, Some(body[..c]), Results(fields)));
      case RaiseMi => return RaiseMi;
      case RaiseChar => return RaiseChar;
    }
  }

  method ParseMiLine(line: string) returns (r: Step<MiRecord>)
    ensures r == RecordOf(line)
  {
    var raw := TrimLineEnd(line);
    var text := Strip(raw);
    if text == "" {
      return Got(MiRecord(Unknown, raw, None, None, NoPayload));
    }
    if text == "(gdb)" {
      return Got(MiRecord(Prompt, raw, None, None, NoPayload));
    }
    var position := 0;
    while position < |text| && IsDigit(text[position])
      invariant 0 <= position <= |text| && DigitsEnd(text, position) == DigitsEnd(text, 0)
    {
      position := position + 1;
    }
    var token := if position > 0 then Some(NumberOf(text[..DigitsEnd(text, 0)], 10)) else None;
    if position >= |text| {
      return Got(MiRecord(Unknown, raw, token, None, NoPayload));
    }
    var marker, body := text[position], text[position + 1..];
    if StreamKind(marker).Some? {
      r := ParseStreamRecord(raw, token, marker, body);
    } else if ClassKind(marker).Some? {
      r := ParseResultOrAsyncRecord(raw, token, marker, body);
    } else {
      r := Got(MiRecord(Unknown, raw, token, None, NoPayload));
    }
  }

  // ---------------------------------------------------------------- round trips

  lemma {:induction false} DigitsEndAt(text: string, p: nat, digits: string)
    requires At(text, p, digits) && forall k :: 0 <= k < |digits| ==> IsDigit(digits[k])
    requires p + |digits| < |text| && !IsDigit(text[p + |digits|])
    ensures DigitsEnd(text, p) == p + |digits|
    decreases |digits|
  {
    if |digits| > 0 {
      assert digits == [digits[0]] + digits[1..];
      AtParts(text, p, [digits[0]], digits[1..]);
      AtHead(text, p, digits);
      DigitsEndAt(text, p + 1, digits[1..]);
    }
  }

  function PrintToken(token: Option<nat>): string {
    if token.Some? then Decimal(token.value) else ""
  }

  lemma CleanLineStays(line: string)
    requires Clean(line)
    ensures Strip(TrimLineEnd(line)) == line && TrimLineEnd(line) == line
  {
    CleanStays(line);
  }

  lemma LineParts(digits: string, marker: char, body: string, line: string)
    requires line == digits + [marker] + body && !IsDigit(marker)
    requires forall k :: 0 <= k < |digits| ==> IsDigit(digits[k])
    ensures |digits| < |line| && line[|digits|] == marker
    ensures line[..|digits|] == digits && line[|digits| + 1..] == body
    ensures DigitsEnd(line, 0) == |digits|
  {
    assert line[0..0 + |digits|] == digits;
    DigitsEndAt(line, 0, digits);
  }

  lemma RecordAfterToken(line: string, n: nat)
    requires Clean(line) && line != "(gdb)" && n < |line| && DigitsEnd(line, 0) == n
    ensures RecordOf(line) ==
            MarkedRecord(line, if n > 0 then Some(NumberOf(line[..n], 10)) else None, line[n], line[n + 1..])
  {
    CleanLineStays(line);
  }

  /** Whatever stands behind it, a printed token is read back as the token, up to the marker. */
  lemma TokenRoundTrip(token: Option<nat>, marker: char, body: string, line: string)
    requires !IsDigit(marker) && marker != '(' && !IsSpace(marker) && Clean([marker] + body)
    requires line == PrintToken(token) + [marker] + body
    ensures RecordOf(line) == MarkedRecord(line, token, marker, body)
  {
    var digits := PrintToken(token);
    if token.Some? { DecimalReadsBack(token.value); }
    LineParts(digits, marker, body, line);
    RecordAfterToken(line, |digits|);
  }

  lemma {:induction false} CommaEndsClass(body: string, p: nat, name: string)
    requires At(body, p, name) && IsName(name)
    requires p + |name| == |body| || (p + |name| < |body| && body[p + |name|] == ',')
    ensures CommaAt(body, p) == p + |name|
    decreases |name|
  {
    AtHead(body, p, name);
    if |name| > 1 {
      assert name == [name[0]] + name[1..];
      AtParts(body, p, [name[0]], name[1..]);
      CommaEndsClass(body, p + 1, name[1..]);
    } else {
      assert CommaAt(body, p + 1) == p + 1;
    }
  }

  /** Results printed to the end of the text are read back, all of them. */
  lemma ResultsRoundTrip(fields: Fields)
    requires fields.Valid() && fields.MoreFields?
    ensures ResultsPayload(fields.Print()) == Got(fields.Meaning(map[]))
  {
    var text := fields.Print();
    assert text[0..0 + |text|] == text;
    FieldsRoundTrip(text, 0, fields, text, |text|, None, map[], fields.Meaning(map[]));
    assert SkipSpace(text, 0) == 0;
  }

  lemma {:induction false} FieldsEndClean(fields: Fields)
    requires fields.Valid() && fields.MoreFields?
    ensures var s := fields.Print(); |s| > 0 && !IsSpace(s[|s| - 1])
  {
    var shown := fields.value.Print();
    if fields.rest.MoreFields? {
      FieldsEndClean(fields.rest);
    }
  }

  function PrintResults(fields: Fields): string {
    if fields.NoFields? then "" else "," + fields.Print()
  }

  lemma ClassEndsAt(name: string, rest: string, body: string)
    requires IsName(name) && body == name + rest && (rest == "" || rest[0] == ',')
    ensures |name| <= |body| && body[..|name|] == name && CommaAt(body, 0) == |name|
    ensures rest == "" ==> !IsSpace(body[|body| - 1])
  {
    assert body[0..0 + |name|] == name;
    CommaEndsClass(body, 0, name);
  }

  lemma ResultsFollow(name: string, shown: string, body: string)
    requires body == name + ("," + shown) && |shown| > 0 && !IsSpace(shown[|shown| - 1])
    ensures |name| + 1 <= |body| && body[|name| + 1..] == shown && !IsSpace(body[|body| - 1])
  {
  }

  lemma PrintedClass(name: string, fields: Fields, body: string)
    requires IsName(name) && fields.Valid() && body == name + PrintResults(fields)
    ensures |name| <= |body| && body[..|name|] == name && CommaAt(body, 0) == |name|
    ensures !IsSpace(body[|body| - 1])
    ensures fields.MoreFields? ==> |name| + 1 <= |body| && body[|name| + 1..] == fields.Print()
  {
    ClassEndsAt(name, PrintResults(fields), body);
    if fields.MoreFields? {
      FieldsEndClean(fields);
      ResultsFollow(name, fields.Print(), body);
    }
  }

  lemma ClassMarkerFacts(marker: char)
    requires ClassKind(marker).Some?
    ensures StreamKind(marker).None? && !IsDigit(marker) && marker != '(' && !IsSpace(marker)
  {
  }

  lemma ClassRoundTrip(raw: string, token: Option<nat>, marker: char, name: string, fields: Fields, body: string)
    requires StreamKind(marker).None? && ClassKind(marker).Some? && IsName(name) && fields.Valid()
    requires body == name + PrintResults(fields)
    ensures MarkedRecord(raw, token, marker, body) ==
            Got(MiRecord(ClassKind(marker).value, raw, token, Some(name), Results(fields.Meaning(map[]))))
  {
    PrintedClass(name, fields, body);
    if fields.MoreFields? {
      ResultsRoundTrip(fields);
    } else {
      assert body == name;
    }
  }

  /** A line as GDB prints it: a result or asynchronous record with class and results, a stream record, or the prompt. */
  datatype Line =
    | ResultLine(token: Option<nat>, name: string, fields: Fields)
    | ExecLine(token: Option<nat>, name: string, fields: Fields)
    | StatusLine(token: Option<nat>, name: string, fields: Fields)
    | NotifyLine(token: Option<nat>, name: string, fields: Fields)
    | ConsoleLine(token: Option<nat>, pieces: seq<Piece>)
    | TargetLine(token: Option<nat>, pieces: seq<Piece>)
    | LogLine(token: Option<nat>, pieces: seq<Piece>)
    | PromptLine
  {
    predicate OfRecord() { ResultLine? || ExecLine? || StatusLine? || NotifyLine? }

    predicate OfStream() { ConsoleLine? || TargetLine? || LogLine? }

    ghost predicate Valid() {
      && (OfRecord() ==> IsName(name) && fields.Valid())
      && (OfStream() ==> CString(pieces).Valid())
    }

    function Print(): string {
      match this
      case ResultLine(token, name, fields) => PrintToken(token) + "^" + (name + PrintResults(fields))
      case ExecLine(token, name, fields) => PrintToken(token) + "*" + (name + PrintResults(fields))
      case StatusLine(token, name, fields) => PrintToken(token) + "+" + (name + PrintResults(fields))
      case NotifyLine(token, name, fields) => PrintToken(token) + "=" + (name + PrintResults(fields))
      case ConsoleLine(token, pieces) => PrintToken(token) + "~" + CString(pieces).Print()
      case TargetLine(token, pieces) => PrintToken(token) + "@" + CString(pieces).Print()
      case LogLine(token, pieces) => PrintToken(token) + "&" + CString(pieces).Print()
      case PromptLine => "(gdb)"
    }

    /** The record the line stands for. */
    ghost function Meaning(): MiRecord
      requires Valid()
    {
      match this
      case ResultLine(token, name, fields) => MiRecord(Result, Print(), token, Some(name), Results(fields.Meaning(map[])))
      case ExecLine(token, name, fields) => MiRecord(ExecAsync, Print(), token, Some(name), Results(fields.Meaning(map[])))
      case StatusLine(token, name, fields) => MiRecord(StatusAsync, Print(), token, Some(name), Results(fields.Meaning(map[])))
      case NotifyLine(token, name, fields) => MiRecord(NotifyAsync, Print(), token, Some(name), Results(fields.Meaning(map[])))
      case ConsoleLine(token, pieces) => MiRecord(ConsoleStream, Print(), token, None, StreamText(PieceMeanings(pieces)))
      case TargetLine(token, pieces) => MiRecord(TargetStream, Print(), token, None, StreamText(PieceMeanings(pieces)))
      case LogLine(token, pieces) => MiRecord(LogStream, Print(), token, None, StreamText(PieceMeanings(pieces)))
      case PromptLine => MiRecord(Prompt, Print(), None, None, NoPayload)
    }
  }

  lemma MarkedRoundTrip(token: Option<nat>, marker: char, name: string, fields: Fields, body: string, line: string)
    requires ClassKind(marker).Some? && IsName(name) && fields.Valid()
    requires body == name + PrintResults(fields) && line == PrintToken(token) + [marker] + body
    ensures RecordOf(line) ==
            Got(MiRecord(ClassKind(marker).value, line, token, Some(name), Results(fields.Meaning(map[]))))
  {
    PrintedClass(name, fields, body);
    ClassMarkerFacts(marker);
    TokenRoundTrip(token, marker, body, line);
    ClassRoundTrip(line, token, marker, name, fields, body);
  }

  lemma MarkedStreamRoundTrip(token: Option<nat>, marker: char, pieces: seq<Piece>, line: string)
    requires StreamKind(marker).Some? && CString(pieces).Valid()
    requires line == PrintToken(token) + [marker] + CString(pieces).Print()
    ensures RecordOf(line) ==
            Got(MiRecord(StreamKind(marker).value, line, token, None, StreamText(PieceMeanings(pieces))))
  {
    var body := CString(pieces).Print();
    TokenRoundTrip(token, marker, body, line);
    assert body[0..0 + |body|] == body;
    ValueRoundTrip(body, 0, CString(pieces));
  }

  /** A printed result or async record is read back exactly: its kind, its token, its class, and the meaning of its results. */
  lemma RecordRoundTrip(line: Line)
    requires line.Valid() && line.OfRecord()
    ensures RecordOf(line.Print()) == Got(line.Meaning())
  {
    hide RecordOf;
    var body := line.name + PrintResults(line.fields);
    match line
    case ResultLine(token, name, fields) => MarkedRoundTrip(token, '^', name, fields, body, line.Print());
    case ExecLine(token, name, fields) => MarkedRoundTrip(token, '*', name, fields, body, line.Print());
    case StatusLine(token, name, fields) => MarkedRoundTrip(token, '+', name, fields, body, line.Print());
    case NotifyLine(token, name, fields) => MarkedRoundTrip(token, '=', name, fields, body, line.Print());
  }

  /** A printed stream record is read back exactly, and so is the prompt. */
  lemma StreamRoundTrip(line: Line)
    requires line.Valid() && !line.OfRecord()
    ensures RecordOf(line.Print()) == Got(line.Meaning())
  {
    match line
    case ConsoleLine(token, pieces) => MarkedStreamRoundTrip(token, '~', pieces, line.Print());
    case TargetLine(token, pieces) => MarkedStreamRoundTrip(token, '@', pieces, line.Print());
    case LogLine(token, pieces) => MarkedStreamRoundTrip(token, '&', pieces, line.Print());
    case PromptLine =>
      assert Clean("(gdb)");
      CleanLineStays("(gdb)");
  }

  /** A line with any other marker, or with none, is a record of no known kind that says nothing but its token. */
  lemma OtherLinesAreUnknown(token: Option<nat>, marker: char, body: string, line: string)
    requires marker !in "^*+=~@&(" && !IsDigit(marker) && Clean([marker] + body)
    requires line == PrintToken(token) + [marker] + body
    ensures RecordOf(line) == Got(MiRecord(Unknown, line, token, None, NoPayload))
  {
    assert ([marker] + body)[0] == marker;
    TokenRoundTrip(token, marker, body, line);
  }

  lemma {:induction false} AllDigits(text: string, p: nat)
    requires p <= |text| && forall k :: p <= k < |text| ==> IsDigit(text[k])
    ensures DigitsEnd(text, p) == |text|
    decreases |text| - p
  {
    if p < |text| { AllDigits(text, p + 1); }
  }

  lemma NumbersAreUnknown(n: nat)
    ensures RecordOf(Decimal(n)) == Got(MiRecord(Unknown, Decimal(n), Some(n), None, NoPayload))
    ensures RecordOf("") == Got(MiRecord(Unknown, "", None, None, NoPayload))
  {
    var line := Decimal(n);
    DecimalReadsBack(n);
    AllDigits(line, 0);
    CleanLineStays(line);
    assert IsDigit(line[0]) && line[..|line|] == line;
  }

  /** Nothing but blanks may stand behind the string of a stream record. */
  lemma TextBehindAStringIsRefused(token: Option<nat>, marker: char, pieces: seq<Piece>, extra: string, line: string)
    requires marker in "~@&" && CString(pieces).Valid() && extra != "" && !IsSpace(extra[|extra| - 1])
    requires line == PrintToken(token) + [marker] + (CString(pieces).Print() + extra)
    ensures RecordOf(line) == RaiseMi
  {
    hide RecordOf;
    var shown := CString(pieces).Print();
    var body := shown + extra;
    assert ([marker] + body)[|body|] == extra[|extra| - 1];
    TokenRoundTrip(token, marker, body, line);
    assert body[0..0 + |shown|] == shown;
    ValueRoundTrip(body, 0, CString(pieces));
    BlanksEnd(body, |shown|);
  }

  lemma {:induction false} BlanksEnd(text: string, p: nat)
    requires p < |text| && !IsSpace(text[|text| - 1])
    ensures SkipSpace(text, p) < |text|
    decreases |text| - p
  {
    if p + 1 < |text| { BlanksEnd(text, p + 1); }
  }

  /** Carriage returns and newlines at the end of a line say nothing. */
  lemma {:induction false} LineEndsAreCut(line: string, ends: string)
    requires forall k :: 0 <= k < |ends| ==> ends[k] == '\r' || ends[k] == '\n'
    ensures RecordOf(line + ends) == RecordOf(line)
    decreases |ends|
  {
    if |ends| > 0 {
      var rest := ends[..|ends| - 1];
      assert (line + ends)[..|line + ends| - 1] == line + rest;
      LineEndsAreCut(line, rest);
    } else {
      assert line + ends == line;
    }
  }

  /** The reply to a command carries the command's own token and no other. */
  lemma ReplyCarriesToken(command: MiCommand, name: string, fields: Fields)
    requires IsName(name) && fields.Valid()
    ensures var reply := RecordOf(Decimal(command.token) + "^" + (name + PrintResults(fields)));
            reply.Got? && reply.value.kind == Result && reply.value.token == Some(command.token)
  {
    RecordRoundTrip(ResultLine(Some(command.token), name, fields));
  }
}
