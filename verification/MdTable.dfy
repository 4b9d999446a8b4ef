/**
 Markdown table cells: the encoder, the escape-aware row parser and the section reader.
 Reading back a written table gives the written values with white space collapsed.
 */
module MdTable {
  import opened Text

  // ----- encoding -----------------------------------------------------------------------

  function Escape(s: string): string {
    if s == "" then "" else (if s[0] == '|' then "\\|" else [s[0]]) + Escape(s[1..])
  }

  datatype Value = Absent | Shown(text: string)

  /** cell, on the printed form of a value. */
  function Cell(value: Value): string {
    if value.Absent? then ""
    else
      var text := Strip(value.text);
      if text == "" then "" else Escape(Join(Words(text), " "))
  }

  /** The words of a value with one space between them. */
  function Collapse(value: Value): string {
    if value.Absent? then "" else Join(Words(value.text), " ")
  }

  function CellAll(vs: seq<Value>): seq<string> { if vs == [] then [] else [Cell(vs[0])] + CellAll(vs[1..]) }

  function CollapseAll(vs: seq<Value>): seq<string> {
    if vs == [] then [] else [Collapse(vs[0])] + CollapseAll(vs[1..])
  }

  /** A written row. */
  function Row(cells: seq<string>): string { "| " + Join(cells, " | ") + " |" }

  /** Collapsing keeps the words, and leaves single inner spaces as the only white space. */
  lemma CollapseKeepsWords(value: Value)
    ensures Trimmed(Collapse(value)) && NoBreaks(Collapse(value))
    ensures value.Shown? ==> Words(Collapse(value)) == Words(value.text)
    ensures Cell(value) == Escape(Collapse(value))
  {
    if value.Shown? {
      WordsAreWords(value.text);
      WordsOfJoin(Words(value.text));
      WordsStrip(value.text);
    }
  }

  // ----- the row parser -----------------------------------------------------------------

  /** The cells of the rest of a row, with `cur` already read. */
  function ParseCells(s: string, cur: string): seq<string>
    decreases |s|
  {
    if s == "" then [Strip(cur)]
    else if s[0] == '\\' && |s| > 1 && s[1] == '|' then ParseCells(s[2..], cur + "|")
    else if s[0] == '|' then [Strip(cur)] + ParseCells(s[1..], "")
    else ParseCells(s[1..], cur + [s[0]])
  }

  /** A pipe is escaped with a backslash; nothing else is changed. */
  lemma {:induction false} EscapeParts(a: string, b: string)
    ensures Escape(a + ['|'] + b) == Escape(a) + ("\\|" + Escape(b))
  {
    var s, tail := a + ['|'] + b, "\\|" + Escape(b);
    if a == "" {
      assert s[0] == '|' && s[1..] == b;
      assert Escape(a) + tail == tail;
    } else {
      assert s[0] == a[0] && s[1..] == a[1..] + ['|'] + b;
      EscapeParts(a[1..], b);
      var first := if a[0] == '|' then "\\|" else [a[0]];
      assert first + (Escape(a[1..]) + tail) == first + Escape(a[1..]) + tail;
    }
  }

  lemma {:induction false} EscapeKeeps(a: string)
    requires NoPipes(a)
    ensures Escape(a) == a
  {
    if a != "" {
      EscapeKeeps(a[1..]);
    }
  }

  predicate NoPipes(s: string) { forall i :: 0 <= i < |s| ==> s[i] != '|' }

  /** Every pipe that is not behind a backslash ends a cell, which is stripped. */
  lemma {:induction false} PipeEndsCell(a: string, b: string, cur: string)
    requires NoPipes(a) && (a == "" || a[|a| - 1] != '\\')
    ensures ParseCells(a + ['|'] + b, cur) == [Strip(cur + a)] + ParseCells(b, "")
    ensures ParseCells(a, cur) == [Strip(cur + a)]
    decreases |a|
  {
    var s := a + ['|'] + b;
    if a == "" {
      assert s[0] == '|' && s[1..] == b && cur + a == cur;
    } else {
      assert s[0] == a[0] && s[1..] == a[1..] + ['|'] + b;
      assert cur + [a[0]] + a[1..] == cur + a;
      PipeEndsCell(a[1..], b, cur + [a[0]]);
    }
  }

  function Unwrap(line: string): string {
    var s := Strip(line);
    var s := if s != "" && s[0] == '|' then s[1..] else s;
    if s != "" && s[|s| - 1] == '|' then s[..|s| - 1] else s
  }

  function RowCells(line: string): seq<string> { ParseCells(Unwrap(line), "") }

  /** split_row. */
  method SplitRow(line: string) returns (cells: seq<string>)
    ensures cells == RowCells(line)
  {
    var s := Unwrap(line);
    cells := [];
    var cur := "";
    var i := 0;
    while i < |s|
      invariant 0 <= i <= |s| && cells + ParseCells(s[i..], cur) == ParseCells(s, "")
    {
      ghost var rest := s[i..];
      if s[i] == '\\' && i + 1 < |s| && s[i + 1] == '|' {
        assert rest[2..] == s[i + 2..];
        cur := cur + "|";
        i := i + 2;
      } else if s[i] == '|' {
        assert rest[1..] == s[i + 1..];
        cells := cells + [Strip(cur)];
        cur := "";
        i := i + 1;
      } else {
        assert rest[1..] == s[i + 1..];
        cur := cur + [s[i]];
        i := i + 1;
      }
    }
    cells := cells + [Strip(cur)];
  }

  lemma EscapedNeverStartsWithPipe(c: string, tail: string)
    ensures (Escape(c) + " " + tail)[0] != '|'
  {
  }

  /** An escaped text followed by a space is read back as the text, whatever it holds. */
  lemma {:induction false} ReadEscaped(c: string, tail: string, cur: string)
    ensures ParseCells(Escape(c) + " " + tail, cur) == ParseCells(" " + tail, cur + c)
    decreases |c|
  {
    var s := Escape(c) + " " + tail;
    if c == "" {
      assert s == " " + tail && cur + c == cur;
    } else {
      var rest := Escape(c[1..]) + " " + tail;
      EscapedNeverStartsWithPipe(c[1..], tail);
      ReadEscaped(c[1..], tail, cur + [c[0]]);
      assert cur + [c[0]] + c[1..] == cur + c;
      if c[0] == '|' {
        assert s == "\\|" + rest;
        assert s[2..] == rest;
      } else {
        assert s == [c[0]] + rest;
        assert s[1..] == rest && s[1] == rest[0];
      }
    }
  }

  /** A written row without its wrapper pipes. */
  function Inner(cells: seq<string>): string { " " + Join(cells, " | ") + " " }

  lemma ReadSpace(rest: string, cur: string)
    ensures ParseCells(" " + rest, cur) == ParseCells(rest, cur + " ")
  {
    assert (" " + rest)[1..] == rest;
  }

  /** One padded cell: what follows is read with an empty buffer. */
  lemma ReadPadded(v: Value, tail: string)
    ensures ParseCells(" " + (Escape(Collapse(v)) + " " + tail), "") == ParseCells(tail, " " + Collapse(v) + " ")
    ensures Strip(" " + Collapse(v) + " ") == Collapse(v)
  {
    var c := Collapse(v);
    CollapseKeepsWords(v);
    StripPadded(c);
    ReadSpace(Escape(c) + " " + tail, "");
    ReadEscaped(c, tail, "" + " ");
    ReadSpace(tail, "" + " " + c);
    assert "" + " " + c + " " == " " + c + " ";
  }

  lemma InnerShape(c: string, cells: seq<string>)
    ensures Inner([c] + cells) == " " + (c + " " + if cells == [] then "" else "|" + Inner(cells))
  {
    if cells != [] {
      assert ([c] + cells)[1..] == cells;
      assert Join([c] + cells, " | ") == c + " | " + Join(cells, " | ");
      assert " | " == " " + ("|" + " ");
    }
  }

  lemma {:induction false} ReadInner(vs: seq<Value>)
    requires vs != []
    ensures ParseCells(Inner(CellAll(vs)), "") == CollapseAll(vs)
    decreases |vs|
  {
    var cells := CellAll(vs[1..]);
    var tail := if cells == [] then "" else "|" + Inner(cells);
    InnerShape(Cell(vs[0]), cells);
    CollapseKeepsWords(vs[0]);
    ReadPadded(vs[0], tail);
    if |vs| > 1 {
      assert tail[1..] == Inner(cells);
      ReadInner(vs[1..]);
    }
  }

  lemma UnwrapRow(cells: seq<string>)
    ensures Unwrap(Row(cells)) == Inner(cells) && IsRow(Row(cells))
  {
    var row := Row(cells);
    assert row == "|" + Inner(cells) + "|";
    assert Strip(row) == row;
    assert row[1..][..|row| - 2] == Inner(cells);
  }

  /** Reading a written row gives the collapsed values back, for any mix of pipes and backslashes. */
  lemma RowRoundTrip(vs: seq<Value>)
    requires vs != []
    ensures RowCells(Row(CellAll(vs))) == CollapseAll(vs)
  {
    UnwrapRow(CellAll(vs));
    ReadInner(vs);
  }

  /** A row of no cells reads as one empty cell. */
  lemma NoCells()
    ensures RowCells(Row([])) == [""]
  {
    UnwrapRow([]);
    assert Inner([]) == " " + (" " + "");
    ReadSpace(" " + "", "");
    ReadSpace("", "" + " ");
    assert "" + " " + " " == " " + "" + " ";
    StripPadded("");
  }

  // ----- the section reader -------------------------------------------------------------

  predicate IsRow(line: string) {
    var s := Strip(line);
    s != "" && s[0] == '|' && s[|s| - 1] == '|'
  }

  predicate RuleChar(c: char) { c == '-' || c == ':' || c == ' ' }

  predicate RuleText(s: string) { forall i :: 0 <= i < |s| ==> RuleChar(s[i]) }

  /** A separator row: every cell is made of dashes, colons and spaces. */
  predicate RuleLike(cells: seq<string>) { forall i :: 0 <= i < |cells| ==> RuleText(cells[i]) }

  /** A row is left out exactly when every character of every cell is a dash, a colon or a blank. */
  lemma RuleRowsAre(cells: seq<string>)
    ensures RuleLike(cells) <==>
      forall i, k :: 0 <= i < |cells| && 0 <= k < |cells[i]| ==>
        cells[i][k] == '-' || cells[i][k] == ':' || cells[i][k] == ' '
  {
    if RuleLike(cells) {
      forall i, k | 0 <= i < |cells| && 0 <= k < |cells[i]|
        ensures cells[i][k] == '-' || cells[i][k] == ':' || cells[i][k] == ' '
      {
        assert RuleText(cells[i]);
      }
    }
  }

  /** What one line of a section contributes. */
  function LineRows(line: string): seq<seq<string>> {
    if IsRow(line) && !RuleLike(RowCells(Strip(line))) then [RowCells(Strip(line))] else []
  }

  function RowsIn(text: string): seq<seq<string>> { Gather(LineRows, SplitLines(text)) }

  const HEADING := "\n## "

  function Section(text: string, header: string): string {
    var needle := "## " + header;
    var start := Find(text, needle);
    FindIsFirst(text, needle);
    if start < 0 then ""
    else
      var from := start + |needle|;
      var next := Find(text[from..], HEADING);
      FindIsFirst(text[from..], HEADING);
      if next < 0 then text[start..] else text[start..from + next]
  }

  function SectionRows(text: string, header: string): seq<seq<string>> {
    var rows := RowsIn(Section(text, header));
    if rows == [] then [] else rows[1..]
  }

  method ReadLine(line: string) returns (rows: seq<seq<string>>)
    ensures rows == LineRows(line)
  {
    rows := [];
    if IsRow(line) {
      var cells := SplitRow(Strip(line));
      if !RuleLike(cells) {
        rows := [cells];
      }
    }
  }

  method CollectRows(text: string) returns (rows: seq<seq<string>>)
    ensures rows == RowsIn(text)
  {
    var lines := SplitLines(text);
    rows := [];
    var i := 0;
    while i < |lines|
      invariant 0 <= i <= |lines| && rows == Gather(LineRows, lines[..i])
    {
      var read := ReadLine(lines[i]);
      GatherSnoc(LineRows, lines, i);
      rows := rows + read;
      i := i + 1;
    }
    assert lines[..i] == lines;
  }

  /** parse_section. */
  method ParseSection(text: string, header: string) returns (data: seq<seq<string>>)
    ensures data == SectionRows(text, header)
  {
    var section := Section(text, header);
    var rows := CollectRows(section);
    data := if rows != [] then rows[1..] else [];
  }

  // ----- reading back a written section -------------------------------------------------

  /** A line of a written section: text, a row of values, or a separator row. */
  datatype Line = Prose(text: string) | Cells(values: seq<Value>) | Rule(rule: string)

  function LineText(l: Line): string {
    match l
    case Prose(text) => text
    case Cells(values) => Row(CellAll(values))
    case Rule(rule) => "|" + rule + "|"
  }

  /** Text that is neither a row nor spans lines; separators made of dashes, colons, spaces and pipes. */
  predicate LineOk(l: Line) {
    match l
    case Prose(text) => NoBreaks(text) && !IsRow(text)
    case Cells(_) => true
    case Rule(rule) => forall i :: 0 <= i < |rule| ==> RuleChar(rule[i]) || rule[i] == '|'
  }

  predicate AllOk(lines: seq<Line>) { forall i :: 0 <= i < |lines| ==> LineOk(lines[i]) }

  function Texts(lines: seq<Line>): seq<string> {
    if lines == [] then [] else [LineText(lines[0])] + Texts(lines[1..])
  }

  function LineValues(l: Line): seq<seq<string>> {
    if l.Cells? && !RuleLike(CollapseAll(l.values)) then [CollapseAll(l.values)] else []
  }

  /** The collapsed values of the written rows, without those that look like separators. */
  function Values(lines: seq<Line>): seq<seq<string>> {
    if lines == [] then [] else LineValues(lines[0]) + Values(lines[1..])
  }

  lemma {:induction false} EscapeNoBreaks(s: string)
    requires NoBreaks(s)
    ensures NoBreaks(Escape(s))
  {
    if s != "" {
      EscapeNoBreaks(s[1..]);
    }
  }

  lemma {:induction false} RowNoBreaks(vs: seq<Value>)
    ensures NoBreaks(Join(CellAll(vs), " | "))
  {
    if vs != [] {
      CollapseKeepsWords(vs[0]);
      EscapeNoBreaks(Collapse(vs[0]));
      RowNoBreaks(vs[1..]);
      assert CellAll(vs)[1..] == CellAll(vs[1..]);
    }
  }

  lemma {:induction false} StripLeftRule(s: string)
    requires RuleText(s)
    ensures RuleText(StripLeft(s))
  {
    if s != "" && IsSpace(s[0]) {
      StripLeftRule(s[1..]);
    }
  }

  lemma {:induction false} RuleParses(s: string, cur: string)
    requires RuleText(cur) && forall i :: 0 <= i < |s| ==> RuleChar(s[i]) || s[i] == '|'
    ensures RuleLike(ParseCells(s, cur))
    decreases |s|
  {
    StripLeftRule(cur);
    if s != "" {
      RuleParses(s[1..], if s[0] == '|' then "" else cur + [s[0]]);
    }
  }

  lemma RowOfLine(l: Line)
    requires LineOk(l)
    ensures NoBreaks(LineText(l)) && LineRows(LineText(l)) == LineValues(l)
  {
    match l {
      case Prose(_) =>
      case Cells(vs) => CellsLine(vs);
      case Rule(rule) => RuleLine(rule);
    }
  }

  lemma CellsLine(vs: seq<Value>)
    ensures NoBreaks(Row(CellAll(vs))) && LineRows(Row(CellAll(vs))) == LineValues(Cells(vs))
  {
    var row := Row(CellAll(vs));
    RowNoBreaks(vs);
    UnwrapRow(CellAll(vs));
    assert row[0] == '|' && row[|row| - 1] == '|';
    assert Strip(row) == row;
    if vs == [] {
      NoCells();
    } else {
      RowRoundTrip(vs);
    }
  }

  lemma RuleLine(rule: string)
    requires LineOk(Rule(rule))
    ensures var line := "|" + rule + "|"; NoBreaks(line) && LineRows(line) == []
  {
    var line := "|" + rule + "|";
    assert Strip(line) == line;
    assert Unwrap(line) == rule by {
      assert line[1..] == rule + "|";
      assert (rule + "|")[..|rule|] == rule;
    }
    RuleParses(rule, "");
  }

  lemma {:induction false} RowsOfTexts(lines: seq<Line>)
    requires AllOk(lines)
    ensures AllNoBreaks(Texts(lines)) && Gather(LineRows, Texts(lines)) == Values(lines)
  {
    if lines != [] {
      RowOfLine(lines[0]);
      RowsOfTexts(lines[1..]);
      assert Texts(lines)[1..] == Texts(lines[1..]);
    }
  }

  /** A line that would end the section. */
  predicate IsHeading(text: string) { "## " <= text }

  /** The heading search skips a line without a newline in it. */
  lemma {:induction false} FindSkips(line: string, rest: string)
    requires NoNewline(line)
    ensures Find(line + rest, HEADING) == if Find(rest, HEADING) < 0 then -1 else |line| + Find(rest, HEADING)
  {
    FindIsFirst(rest, HEADING);
    if line == "" {
      assert line + rest == rest;
    } else {
      assert (line + rest)[0] != '\n';
      assert (line + rest)[1..] == line[1..] + rest;
      FindSkips(line[1..], rest);
    }
  }

  lemma FindAtNewline(rest: string)
    ensures Find("\n" + rest, HEADING) ==
      if "## " <= rest then 0 else if Find(rest, HEADING) < 0 then -1 else 1 + Find(rest, HEADING)
  {
    var s := "\n" + rest;
    assert s[1..] == rest;
    assert HEADING == "\n" + "## ";
    assert HEADING <= s <==> "## " <= rest by {
      if "## " <= rest {
        assert s[..4] == HEADING;
      }
      if HEADING <= s {
        assert rest[..3] == s[..4][1..] == HEADING[1..];
      }
    }
  }

  lemma HeadingNeedsItsLine(line: string, more: string)
    requires "## " <= line + ("\n" + more)
    ensures "## " <= line
  {
    var rest := line + ("\n" + more);
    assert rest[..3] == "## ";
    assert rest[|line|] == '\n';
    assert line[..3] == rest[..3];
  }

  lemma FindPastLine(line: string, rest: string)
    requires NoNewline(line)
    ensures Find(line + ("\n" + rest), HEADING) ==
      if "## " <= rest then |line| else if Find(rest, HEADING) < 0 then -1 else |line| + 1 + Find(rest, HEADING)
  {
    FindSkips(line, "\n" + rest);
    FindAtNewline(rest);
    FindIsFirst(rest, HEADING);
  }

  /** The next heading is found where the written lines end. */
  lemma {:induction false} FindNextHeading(tail: string, texts: seq<string>, post: string)
    requires NoBreaks(tail) && AllNoBreaks(texts) && (post == "" || IsHeading(post))
    requires forall i :: 0 <= i < |texts| ==> !IsHeading(texts[i])
    ensures Find(tail + ("\n" + (Lines(texts) + post)), HEADING) == if post == "" then -1 else |tail| + |Lines(texts)|
    decreases |texts|
  {
    FindPastLine(tail, Lines(texts) + post);
    if texts == [] {
      assert Lines(texts) + post == post;
    } else {
      var more := Lines(texts[1..]) + post;
      assert Lines(texts) + post == texts[0] + ("\n" + more);
      if "## " <= texts[0] + ("\n" + more) {
        HeadingNeedsItsLine(texts[0], more);
      }
      FindNextHeading(texts[0], texts[1..], post);
    }
  }

  lemma Pieces(pre: string, needle: string, body: string, post: string, text: string)
    requires body != "" && text == pre + (needle + body) + post
    ensures |text| >= |pre| + |needle| + |body| && text[|pre| + |needle|..] == body + post
    ensures text[|pre|..|pre| + |needle| + |body| - 1] == (needle + body)[..|needle| + |body| - 1]
    ensures post == "" ==> text[|pre|..] == needle + body
  {
    assert text == (pre + needle) + (body + post);
  }

  lemma CutSection(pre: string, header: string, body: string, post: string, text: string)
    requires body != "" && text == pre + ("## " + header + body) + post
    requires Find(text, "## " + header) == |pre|
    requires Find(body + post, HEADING) == if post == "" then -1 else |body| - 1
    ensures var w := "## " + header + body; Section(text, header) == if post == "" then w else w[..|w| - 1]
  {
    Pieces(pre, "## " + header, body, post, text);
  }

  lemma FindAfterTitle(tail: string, texts: seq<string>, post: string)
    requires NoBreaks(tail) && AllNoBreaks(texts) && (post == "" || IsHeading(post))
    requires forall i :: 0 <= i < |texts| ==> !IsHeading(texts[i])
    ensures var body := tail + ("\n" + Lines(texts));
      Find(body + post, HEADING) == if post == "" then -1 else |body| - 1
  {
    var body := tail + ("\n" + Lines(texts));
    FindNextHeading(tail, texts, post);
    assert body + post == tail + ("\n" + (Lines(texts) + post));
  }

  /** What the section reader cuts out of a text with one such section. */
  lemma SectionOfWritten(pre: string, header: string, tail: string, texts: seq<string>, post: string)
    requires NoBreaks(tail) && AllNoBreaks(texts) && (post == "" || IsHeading(post))
    requires forall i :: 0 <= i < |texts| ==> !IsHeading(texts[i])
    requires Find(pre + SectionText(header, tail, texts) + post, "## " + header) == |pre|
    ensures var w := SectionText(header, tail, texts);
      w != "" && Section(pre + w + post, header) == if post == "" then w else w[..|w| - 1]
  {
    var body := tail + ("\n" + Lines(texts));
    SectionShape(header, tail, texts);
    FindAfterTitle(tail, texts, post);
    CutSection(pre, header, body, post, pre + SectionText(header, tail, texts) + post);
  }

  /** A section as it is written: the heading line, then the other lines. */
  function SectionText(header: string, tail: string, texts: seq<string>): string {
    Lines(["## " + header + tail] + texts)
  }

  lemma SectionShape(header: string, tail: string, texts: seq<string>)
    ensures SectionText(header, tail, texts) == "## " + header + (tail + ("\n" + Lines(texts)))
  {
    assert (["## " + header + tail] + texts)[1..] == texts;
  }

  lemma EmptyIsProse()
    ensures LineRows("") == []
  {
  }

  lemma RowsBelowTitle(title: string, texts: seq<string>)
    requires NoBreaks(title) && AllNoBreaks(texts) && LineRows(title) == [] && LineRows("") == []
    ensures var w := Lines([title] + texts);
      w != "" && RowsIn(w) == RowsIn(w[..|w| - 1]) == Gather(LineRows, texts)
  {
    GatherBelowTitle(LineRows, title, texts);
  }

  lemma RowsOfSection(header: string, tail: string, texts: seq<string>)
    requires NoBreaks(header) && NoBreaks(tail) && AllNoBreaks(texts)
    ensures var w := SectionText(header, tail, texts);
      w != "" && RowsIn(w) == RowsIn(w[..|w| - 1]) == Gather(LineRows, texts)
  {
    HeadingIsProse(header, tail);
    EmptyIsProse();
    RowsBelowTitle("## " + header + tail, texts);
  }

  /** The rows of a written section are read back collapsed, in order, without the first one and
      without those made of dashes, colons and spaces only. */
  lemma SectionRoundTrip(pre: string, header: string, tail: string, lines: seq<Line>, post: string)
    requires NoBreaks(header) && NoBreaks(tail) && AllOk(lines) && (post == "" || IsHeading(post))
    requires forall i :: 0 <= i < |Texts(lines)| ==> !IsHeading(Texts(lines)[i])
    requires Find(pre + SectionText(header, tail, Texts(lines)) + post, "## " + header) == |pre|
    ensures SectionRows(pre + SectionText(header, tail, Texts(lines)) + post, header) ==
      if Values(lines) == [] then [] else Values(lines)[1..]
  {
    var texts := Texts(lines);
    RowsOfTexts(lines);
    RowsOfSection(header, tail, texts);
    SectionOfWritten(pre, header, tail, texts, post);
  }

  lemma HeadingIsProse(header: string, tail: string)
    requires NoBreaks(header) && NoBreaks(tail)
    ensures NoBreaks("## " + header + tail) && LineRows("## " + header + tail) == []
  {
    var line := "## " + header + tail;
    assert line[0] == '#';
    assert StripLeft(line) == line;
  }

  /** A table none of whose rows looks like a separator is recovered whole. */
  lemma {:induction false} NothingDropped(lines: seq<Line>)
    requires forall i :: 0 <= i < |lines| && lines[i].Cells? ==> !RuleLike(CollapseAll(lines[i].values))
    ensures Values(lines) == AllValues(lines)
  {
    if lines != [] {
      NothingDropped(lines[1..]);
    }
  }

  function AllValues(lines: seq<Line>): seq<seq<string>> {
    if lines == [] then []
    else (if lines[0].Cells? then [CollapseAll(lines[0].values)] else []) + AllValues(lines[1..])
  }
}
