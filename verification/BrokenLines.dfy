/**
  A logical line printed over several physical ones: every piece but the last ends in a blank and a backslash, every piece
  but the first is indented, and the parser joins them again with single blanks.
 */
module BrokenLines {
  import opened Wrappers
  import opened Texts
  import opened Makefiles
  import opened MakefileText

  /** A piece of a line: nothing at its ends to strip, and no backslash at its end. */
  predicate Chunk(s: string) { Clean(s) && '\n' !in s && !EndsInBackslash(s) }

  predicate Chunks(chunks: seq<string>) { forall k :: 0 <= k < |chunks| ==> Chunk(chunks[k]) }

  function Ending(more: bool): string { if more then " \\" else "" }

  function Indented(chunks: seq<string>): (r: seq<string>)
    ensures |r| == |chunks|
  {
    if |chunks| == 0 then [] else ["\t" + (chunks[0] + Ending(|chunks| > 1))] + Indented(chunks[1..])
  }

  function Spread(chunks: seq<string>): (r: seq<string>)
    ensures |r| == |chunks|
  {
    if |chunks| == 0 then [] else [chunks[0] + Ending(|chunks| > 1)] + Indented(chunks[1..])
  }

  ghost predicate LinesAt(lines: seq<string>, i: nat, part: seq<string>) {
    i + |part| <= |lines| && lines[i..i + |part|] == part
  }

  lemma LinesAtParts(lines: seq<string>, i: nat, a: seq<string>, b: seq<string>)
    requires LinesAt(lines, i, a + b)
    ensures LinesAt(lines, i, a) && LinesAt(lines, i + |a|, b)
  {
    var s := lines[i..i + |a + b|];
    assert s[..|a|] == a && s[|a|..] == b;
  }

  lemma LineAtHead(lines: seq<string>, i: nat, part: seq<string>)
    requires LinesAt(lines, i, part) && |part| > 0
    ensures i < |lines| && lines[i] == part[0] && LinesAt(lines, i + 1, part[1..])
  {
    assert part == [part[0]] + part[1..];
    LinesAtParts(lines, i, [part[0]], part[1..]);
    assert lines[i..i + 1][0] == lines[i];
  }

  // ---------------------------------------------------------------- one continuation

  lemma StripIndent(s: string, value: string)
    requires s == "\t" + value && Clean(value)
    ensures Strip(s) == value && StripStart(s) == value
  {
    assert s[1] == value[0] && SkipSpace(s, 0) == 1;
    assert s[1..] == value;
    StripEndStays(value);
  }

  lemma PieceIsClean(chunk: string, more: bool, piece: string)
    requires Chunk(chunk) && piece == chunk + Ending(more)
    ensures Clean(piece) && EndsInBackslash(piece) == more
  {
  }

  predicate OpenEnd(s: string) { |s| > 0 && !IsSpace(s[|s| - 1]) && !EndsInBackslash(s) }

  lemma EndingFalls(text: string, t: string)
    requires OpenEnd(text) && t == text + " \\"
    ensures StripEnd(t) == t && EndsInBackslash(t) && StripEnd(DropLast(t)) == text
  {
    StripEndStays(t);
    assert DropLast(t) == text + " " && (text + " ")[..|text|] == text;
    StripEndStays(text);
  }

  lemma LogicalOnce(lines: seq<string>, i: nat, text: string, chunk: string, more: bool)
    requires OpenEnd(text) && Chunk(chunk) && i + 1 < |lines| && lines[i + 1] == "\t" + (chunk + Ending(more))
    ensures LogicalText(lines, i, text + " \\") == LogicalText(lines, i + 1, text + " " + chunk + Ending(more))
  {
    hide Strip, StripEnd;
    var t, piece := text + " \\", chunk + Ending(more);
    EndingFalls(text, t);
    PieceIsClean(chunk, more, piece);
    StripIndent(lines[i + 1], piece);
    assert text + " " + piece == text + " " + chunk + Ending(more);
  }

  lemma RecipeOnce(lines: seq<string>, i: nat, text: string, chunk: string, more: bool)
    requires OpenEnd(text) && Chunk(chunk) && i + 1 < |lines| && lines[i + 1] == "\t" + (chunk + Ending(more))
    ensures RecipeText(lines, i, text + " \\") == RecipeText(lines, i + 1, text + " " + chunk + Ending(more))
  {
    hide Strip, StripEnd, StripStart;
    var t, piece := text + " \\", chunk + Ending(more);
    EndingFalls(text, t);
    PieceIsClean(chunk, more, piece);
    StripIndent(lines[i + 1], piece);
    assert text + " " + piece == text + " " + chunk + Ending(more);
  }

  // ---------------------------------------------------------------- all of them

  /** A text with the remaining pieces after it. */
  function JoinedOn(text: string, rest: seq<string>): string
    decreases |rest|
  {
    if |rest| == 0 then text else JoinedOn(text + " " + rest[0], rest[1..])
  }

  lemma JoinedHead(first: string, rest: seq<string>)
    ensures Joined([first] + rest, " ") == if |rest| == 0 then first else first + " " + Joined(rest, " ")
  {
    var all := [first] + rest;
    assert all[1..] == rest;
  }

  lemma {:induction false} JoinedOnIs(text: string, rest: seq<string>)
    ensures JoinedOn(text, rest) == Joined([text] + rest, " ")
    decreases |rest|
  {
    hide Joined;
    JoinedHead(text, rest);
    if |rest| > 0 {
      var chunk, later := rest[0], rest[1..];
      assert rest == [chunk] + later;
      JoinedOnIs(text + " " + chunk, later);
      JoinedHead(text + " " + chunk, later);
      JoinedHead(chunk, later);
      if |later| > 0 { FourAssociate(text, chunk, Joined(later, " ")); }
    }
  }

  lemma FourAssociate(a: string, b: string, c: string)
    ensures a + " " + b + " " + c == a + " " + (b + " " + c)
  {
  }

  lemma OpenEndGoesOn(text: string, chunk: string)
    requires Chunk(chunk)
    ensures OpenEnd(text + " " + chunk)
  {
  }

  lemma LogicalAlone(lines: seq<string>, i: nat, text: string)
    requires OpenEnd(text) && i < |lines|
    ensures LogicalText(lines, i, text) == (text, i)
  {
    StripEndStays(text);
  }

  lemma {:induction false} LogicalJoins(lines: seq<string>, i: nat, text: string, rest: seq<string>)
    requires OpenEnd(text) && Chunks(rest) && i < |lines| && LinesAt(lines, i + 1, Indented(rest))
    ensures LogicalText(lines, i, text + Ending(|rest| > 0)) == (JoinedOn(text, rest), i + |rest|)
    decreases |rest|
  {
    hide LogicalText, OpenEnd, Chunk;
    if |rest| == 0 {
      LogicalAlone(lines, i, text);
      assert text + "" == text;
    } else {
      LineAtHead(lines, i + 1, Indented(rest));
      LogicalOnce(lines, i, text, rest[0], |rest| > 1);
      OpenEndGoesOn(text, rest[0]);
      LogicalJoins(lines, i + 1, text + " " + rest[0], rest[1..]);
    }
  }

  lemma {:induction false} RecipeJoins(lines: seq<string>, i: nat, text: string, rest: seq<string>)
    requires OpenEnd(text) && Chunks(rest) && i < |lines| && LinesAt(lines, i + 1, Indented(rest))
    ensures RecipeText(lines, i, text + Ending(|rest| > 0)) == (JoinedOn(text, rest), i + |rest|)
    decreases |rest|
  {
    if |rest| == 0 {
      assert text + "" == text;
    } else {
      hide RecipeText;
      LineAtHead(lines, i + 1, Indented(rest));
      RecipeOnce(lines, i, text, rest[0], |rest| > 1);
      OpenEndGoesOn(text, rest[0]);
      RecipeJoins(lines, i + 1, text + " " + rest[0], rest[1..]);
    }
  }

  lemma BrokenSplits(chunks: seq<string>, first: string, rest: seq<string>)
    requires |chunks| > 0 && first == chunks[0] && rest == chunks[1..]
    ensures Spread(chunks) == [first + Ending(|rest| > 0)] + Indented(rest)
    ensures Indented(chunks) == ["\t" + (first + Ending(|rest| > 0))] + Indented(rest)
    ensures chunks == [first] + rest
    ensures Chunks(chunks) ==> Chunk(first) && Chunks(rest)
  {
  }

  lemma ChunkIsOpen(chunk: string)
    requires Chunk(chunk)
    ensures OpenEnd(chunk) && chunk[0] != '\t'
  {
  }

  /** The first of the lines and those after it. */
  lemma FirstLineAt(lines: seq<string>, i: nat, line: string, rest: seq<string>)
    requires LinesAt(lines, i, [line] + rest)
    ensures i < |lines| && lines[i] == line && LinesAt(lines, i + 1, rest)
  {
    LinesAtParts(lines, i, [line], rest);
    LineAtHead(lines, i, [line]);
  }

  lemma LogicalLineStep(lines: seq<string>, i: nat, text: string, j: nat, p: Parsing)
    requires i < |lines| && !IsRecipe(lines[i]) && LogicalText(lines, i, lines[i]) == (text, j)
    ensures LineStep(lines, i, p) == (p.LogicalLine(Strip(text), i + 1), j + 1)
  {
  }

  /** A logical line printed in pieces is read as the pieces joined by single blanks, under the number of its first line. */
  lemma BrokenLineReads(lines: seq<string>, i: nat, chunks: seq<string>, p: Parsing)
    requires Chunks(chunks) && |chunks| > 0 && LinesAt(lines, i, Spread(chunks))
    ensures LineStep(lines, i, p) == (p.LogicalLine(Strip(Joined(chunks, " ")), i + 1), i + |chunks|)
  {
    hide LogicalText, LineStep, Strip, Joined, Indented, Spread, LinesAt, JoinedOn, Chunks, Chunk, OpenEnd;
    var first, rest := chunks[0], chunks[1..];
    BrokenSplits(chunks, first, rest);
    ChunkIsOpen(first);
    var line := first + Ending(|rest| > 0);
    FirstLineAt(lines, i, line, Indented(rest));
    NotARecipe(line, first, |rest| > 0);
    LogicalJoins(lines, i, first, rest);
    JoinedOnIs(first, rest);
    LogicalLineStep(lines, i, Joined(chunks, " "), i + |rest|, p);
  }

  lemma NotARecipe(line: string, first: string, more: bool)
    requires Chunk(first) && line == first + Ending(more)
    ensures !IsRecipe(line)
  {
    assert line[0] == first[0];
  }

  lemma JoinedIsNotEmpty(chunks: seq<string>)
    requires Chunks(chunks) && |chunks| > 0
    ensures Joined(chunks, " ") != ""
  {
    assert Chunk(chunks[0]);
  }

  lemma RecipeLineStep(lines: seq<string>, i: nat, piece: string, text: string, j: nat, p: Parsing)
    requires i < |lines| && IsRecipe(lines[i]) && Strip(lines[i][1..]) == piece && RecipeText(lines, i, piece) == (text, j)
    requires text != ""
    ensures LineStep(lines, i, p) == (p.AddRecipe(text), j + 1)
  {
    hide Strip, RecipeText;
  }

  lemma RecipeLineStarts(line: string, piece: string)
    requires line == "\t" + piece && Clean(piece)
    ensures IsRecipe(line) && Strip(line[1..]) == piece
  {
    assert line[1..] == piece;
    CleanStays(piece);
  }

  /** And so is a recipe. */
  lemma BrokenRecipeReads(lines: seq<string>, i: nat, chunks: seq<string>, p: Parsing)
    requires Chunks(chunks) && |chunks| > 0 && LinesAt(lines, i, Indented(chunks))
    ensures LineStep(lines, i, p) == (p.AddRecipe(Joined(chunks, " ")), i + |chunks|)
  {
    hide RecipeText, LineStep, Strip, Joined, Indented, Spread, LinesAt, JoinedOn, Chunks, Chunk, OpenEnd;
    var first, rest := chunks[0], chunks[1..];
    BrokenSplits(chunks, first, rest);
    ChunkIsOpen(first);
    var piece := first + Ending(|rest| > 0);
    FirstLineAt(lines, i, "\t" + piece, Indented(rest));
    PieceIsClean(first, |rest| > 0, piece);
    RecipeLineStarts("\t" + piece, piece);
    RecipeJoins(lines, i, first, rest);
    JoinedOnIs(first, rest);
    JoinedIsNotEmpty(chunks);
    RecipeLineStep(lines, i, piece, Joined(chunks, " "), i + |rest|, p);
  }

  lemma {:induction false} IndentedHasNoBreak(chunks: seq<string>)
    requires Chunks(chunks)
    ensures forall k :: 0 <= k < |Indented(chunks)| ==> '\n' !in Indented(chunks)[k]
  {
    if |chunks| > 0 {
      assert '\n' !in "\t" + (chunks[0] + Ending(|chunks| > 1));
      IndentedHasNoBreak(chunks[1..]);
    }
  }

  lemma BrokenHasNoBreak(chunks: seq<string>)
    requires Chunks(chunks)
    ensures forall k :: 0 <= k < |Spread(chunks)| ==> '\n' !in Spread(chunks)[k]
  {
    if |chunks| > 0 {
      assert '\n' !in chunks[0] + Ending(|chunks| > 1);
      IndentedHasNoBreak(chunks[1..]);
    }
  }
}
