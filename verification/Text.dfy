/**
 String operations of the scripts: searching, joining, stripping and splitting, on
 sequences of characters.
 */
module Text {

  /** White space as str.strip and str.split see it. */
  predicate IsSpace(c: char) {
    || '\U{9}' <= c <= '\U{D}' || '\U{1C}' <= c <= '\U{20}' || c == '\U{85}' || c == '\U{A0}' || c == '\U{1680}'
    || '\U{2000}' <= c <= '\U{200A}' || c == '\U{2028}' || c == '\U{2029}' || c == '\U{202F}' || c == '\U{205F}'
    || c == '\U{3000}'
  }

  /** Line boundaries as str.splitlines sees them. */
  predicate IsBreak(c: char) {
    '\U{A}' <= c <= '\U{D}' || '\U{1C}' <= c <= '\U{1E}' || c == '\U{85}' || c == '\U{2028}' || c == '\U{2029}'
  }

  predicate NoBreaks(s: string) { forall i :: 0 <= i < |s| ==> !IsBreak(s[i]) }

  predicate NoNewline(s: string) { forall i :: 0 <= i < |s| ==> s[i] != '\n' }

  /** The position of the first occurrence, or -1. */
  function Find(s: string, pat: string): int {
    if pat <= s then 0
    else if s == "" then -1
    else
      var r := Find(s[1..], pat);
      if r < 0 then -1 else r + 1
  }

  /** Find is the least position at which the pattern occurs. */
  lemma {:induction false} FindIsFirst(s: string, pat: string)
    ensures var k := Find(s, pat);
      && -1 <= k <= |s|
      && (k >= 0 ==> pat <= s[k..])
      && (forall j :: 0 <= j <= |s| && (k < 0 || j < k) ==> !(pat <= s[j..]))
    decreases |s|
  {
    if !(pat <= s) && s != "" {
      FindIsFirst(s[1..], pat);
      var k := Find(s, pat);
      assert k > 0 ==> s[k..] == s[1..][k - 1..];
      forall j | 0 <= j <= |s| && (k < 0 || j < k) ensures !(pat <= s[j..]) {
        if j > 0 {
          assert s[j..] == s[1..][j - 1..];
        } else {
          assert s[0..] == s;
        }
      }
    } else {
      assert s[0..] == s;
    }
  }

  function Join(parts: seq<string>, sep: string): string {
    if parts == [] then ""
    else if |parts| == 1 then parts[0]
    else parts[0] + sep + Join(parts[1..], sep)
  }

  // ----- stripping ----------------------------------------------------------------------

  function StripLeft(s: string): (r: string)
    ensures |r| <= |s| && (r != "" ==> !IsSpace(r[0]))
  {
    if s != "" && IsSpace(s[0]) then StripLeft(s[1..]) else s
  }

  function StripRight(s: string): (r: string)
    ensures r <= s && (r != "" ==> !IsSpace(r[|r| - 1]))
  {
    if s != "" && IsSpace(s[|s| - 1]) then StripRight(s[..|s| - 1]) else s
  }

  function Strip(s: string): string { StripRight(StripLeft(s)) }

  predicate Trimmed(s: string) { s == "" || (!IsSpace(s[0]) && !IsSpace(s[|s| - 1])) }

  lemma StripPadded(s: string)
    requires Trimmed(s)
    ensures Strip(" " + s + " ") == s
  {
    assert (" " + s + " ")[1..] == s + " ";
    assert StripLeft(" " + s + " ") == StripLeft(s + " ");
    if s == "" {
      assert (s + " ")[1..] == "";
      assert StripLeft(s + " ") == StripLeft("");
    } else {
      assert (s + " ")[..|s|] == s;
      assert StripRight(s + " ") == StripRight(s);
    }
  }

  // ----- words --------------------------------------------------------------------------

  predicate NoSpaces(s: string) { forall i :: 0 <= i < |s| ==> !IsSpace(s[i]) }

  /** The length of the leading run without white space. */
  function WordLength(s: string): (k: nat)
    ensures k <= |s| && NoSpaces(s[..k]) && (k < |s| ==> IsSpace(s[k]))
  {
    if s == "" || IsSpace(s[0]) then 0
    else
      var k := 1 + WordLength(s[1..]);
      assert forall i :: 0 < i < k ==> s[i] == s[1..][i - 1];
      k
  }

  /** str.split without a separator. */
  function Words(s: string): seq<string>
    decreases |s|
  {
    var t := StripLeft(s);
    if t == "" then [] else var k := WordLength(t); if k == 0 then [] else [t[..k]] + Words(t[k..])
  }

  predicate IsWord(w: string) { w != "" && NoSpaces(w) }

  lemma {:induction false} WordsAreWords(s: string)
    ensures forall i :: 0 <= i < |Words(s)| ==> IsWord(Words(s)[i])
    decreases |s|
  {
    var t := StripLeft(s);
    if t != "" {
      WordsAreWords(t[WordLength(t)..]);
    }
  }

  lemma {:induction false} WordLengthIs(w: string, rest: string)
    requires NoSpaces(w) && (rest == "" || IsSpace(rest[0]))
    ensures WordLength(w + rest) == |w|
  {
    if w == "" {
      assert w + rest == rest;
    } else {
      assert (w + rest)[1..] == w[1..] + rest;
      WordLengthIs(w[1..], rest);
    }
  }

  lemma {:induction false} TrailingSpace(s: string, c: char)
    requires IsSpace(c)
    ensures Words(s + [c]) == Words(s)
    decreases |s|
  {
    if s == "" {
      assert (s + [c])[1..] == "";
    } else if IsSpace(s[0]) {
      assert (s + [c])[1..] == s[1..] + [c];
      TrailingSpace(s[1..], c);
    } else {
      var k := WordLength(s);
      assert s == s[..k] + s[k..];
      assert s + [c] == s[..k] + (s[k..] + [c]);
      WordLengthIs(s[..k], s[k..] + [c]);
      assert (s + [c])[k..] == s[k..] + [c];
      TrailingSpace(s[k..], c);
    }
  }

  lemma {:induction false} WordsStripRight(s: string)
    ensures Words(StripRight(s)) == Words(s)
    decreases |s|
  {
    if s != "" && IsSpace(s[|s| - 1]) {
      var m := |s| - 1;
      WordsStripRight(s[..m]);
      TrailingSpace(s[..m], s[m]);
      assert s == s[..m] + [s[m]];
    }
  }

  lemma WordsStrip(s: string)
    ensures Words(Strip(s)) == Words(s)
  {
    var t := StripLeft(s);
    assert StripLeft(t) == t;
    WordsStripRight(t);
  }

  /** Joining words with one space and splitting again is the identity. */
  lemma {:induction false} WordsOfJoin(ws: seq<string>)
    requires forall i :: 0 <= i < |ws| ==> IsWord(ws[i])
    ensures Words(Join(ws, " ")) == ws
    ensures Trimmed(Join(ws, " ")) && (ws != [] ==> Join(ws, " ") != "")
    ensures forall i :: 0 <= i < |Join(ws, " ")| && IsSpace(Join(ws, " ")[i]) ==> Join(ws, " ")[i] == ' '
  {
    if |ws| == 1 {
      WordLengthIs(ws[0], "");
      assert ws[0] + "" == ws[0] && ws[0][|ws[0]|..] == "" && ws[0][..|ws[0]|] == ws[0];
    } else if |ws| > 1 {
      WordsOfJoin(ws[1..]);
      var w, rest := ws[0], Join(ws[1..], " ");
      var all := Join(ws, " ");
      assert all == w + (" " + rest);
      WordLengthIs(w, " " + rest);
      assert all[..|w|] == w && all[|w|..] == " " + rest;
      assert (" " + rest)[1..] == rest;
      assert StripLeft(" " + rest) == StripLeft(rest);
    }
  }

  // ----- lines --------------------------------------------------------------------------

  /** The length of the leading run without a line boundary. */
  function LineLength(s: string): (k: nat)
    ensures k <= |s| && (k < |s| ==> IsBreak(s[k]))
  {
    if s == "" || IsBreak(s[0]) then 0 else 1 + LineLength(s[1..])
  }

  /** str.splitlines: a carriage return and line feed end one line, and the last line needs no end. */
  function SplitLines(s: string): seq<string>
    decreases |s|
  {
    if s == "" then []
    else
      var k := LineLength(s);
      if k == |s| then [s]
      else if s[k] == '\r' && k + 1 < |s| && s[k + 1] == '\n' then [s[..k]] + SplitLines(s[k + 2..])
      else [s[..k]] + SplitLines(s[k + 1..])
  }

  lemma {:induction false} LineLengthIs(line: string, rest: string)
    requires NoBreaks(line) && (rest == "" || IsBreak(rest[0]))
    ensures LineLength(line + rest) == |line|
  {
    if line == "" {
      assert line + rest == rest;
    } else {
      assert (line + rest)[1..] == line[1..] + rest;
      LineLengthIs(line[1..], rest);
    }
  }

  lemma SplitFirstLine(line: string, rest: string)
    requires NoBreaks(line)
    ensures SplitLines(line + "\n" + rest) == [line] + SplitLines(rest)
    ensures line != "" ==> SplitLines(line) == [line]
  {
    var s := line + "\n" + rest;
    assert s == line + ("\n" + rest);
    LineLengthIs(line, "\n" + rest);
    assert s[..|line|] == line && s[|line| + 1..] == rest;
    LineLengthIs(line, "");
    assert line + "" == line;
  }

  // ----- collecting over lines ----------------------------------------------------------

  function Gather<A, B>(f: A -> seq<B>, s: seq<A>): seq<B> {
    if s == [] then [] else f(s[0]) + Gather(f, s[1..])
  }

  lemma {:induction false} GatherConcat<A, B>(f: A -> seq<B>, a: seq<A>, b: seq<A>)
    ensures Gather(f, a + b) == Gather(f, a) + Gather(f, b)
    decreases |a|
  {
    if a == [] {
      assert a + b == b;
    } else {
      assert (a + b)[1..] == a[1..] + b;
      GatherConcat(f, a[1..], b);
    }
  }

  lemma GatherOne<A, B>(f: A -> seq<B>, x: A)
    ensures Gather(f, [x]) == f(x)
  {
    assert [x][1..] == [];
  }

  lemma GatherSnoc<A, B>(f: A -> seq<B>, s: seq<A>, i: nat)
    requires i < |s|
    ensures Gather(f, s[..i + 1]) == Gather(f, s[..i]) + f(s[i])
  {
    assert s[..i + 1] == s[..i] + [s[i]];
    GatherConcat(f, s[..i], [s[i]]);
    GatherOne(f, s[i]);
  }

  lemma GatherFirstLine<B>(f: string -> seq<B>, line: string, rest: string)
    requires NoBreaks(line)
    ensures Gather(f, SplitLines(line + "\n" + rest)) == f(line) + Gather(f, SplitLines(rest))
  {
    SplitFirstLine(line, rest);
    GatherConcat(f, [line], SplitLines(rest));
    GatherOne(f, line);
  }

  /** Lines written one after the other, each with its line end. */
  function Lines(texts: seq<string>): string {
    if texts == [] then "" else texts[0] + "\n" + Lines(texts[1..])
  }

  predicate AllNoBreaks(texts: seq<string>) { forall i :: 0 <= i < |texts| ==> NoBreaks(texts[i]) }

  lemma {:induction false} GatherLines<B>(f: string -> seq<B>, texts: seq<string>)
    requires AllNoBreaks(texts)
    ensures Gather(f, SplitLines(Lines(texts))) == Gather(f, texts)
  {
    if texts != [] {
      GatherFirstLine(f, texts[0], Lines(texts[1..]));
      GatherLines(f, texts[1..]);
    }
  }

  lemma {:induction false} LinesAreJoined(texts: seq<string>)
    requires texts != []
    ensures Lines(texts) == Join(texts, "\n") + "\n"
  {
    if |texts| > 1 {
      LinesAreJoined(texts[1..]);
    } else {
      assert Lines(texts[1..]) == "";
    }
  }

  /** The last line needs no line end. */
  lemma {:induction false} GatherJoined<B>(f: string -> seq<B>, texts: seq<string>)
    requires AllNoBreaks(texts) && f("") == []
    ensures Gather(f, SplitLines(Join(texts, "\n"))) == Gather(f, texts)
  {
    if |texts| == 1 {
      if texts[0] != "" {
        SplitFirstLine(texts[0], "");
      }
    } else if |texts| > 1 {
      GatherFirstLine(f, texts[0], Join(texts[1..], "\n"));
      GatherJoined(f, texts[1..]);
    }
  }

  lemma GatherBelowTitle<B>(f: string -> seq<B>, title: string, texts: seq<string>)
    requires NoBreaks(title) && AllNoBreaks(texts) && f(title) == [] && f("") == []
    ensures var w := Lines([title] + texts);
      && w != ""
      && Gather(f, SplitLines(w)) == Gather(f, texts)
      && Gather(f, SplitLines(w[..|w| - 1])) == Gather(f, texts)
  {
    var all := [title] + texts;
    GatherConcat(f, [title], texts);
    GatherOne(f, title);
    GatherLines(f, all);
    GatherJoined(f, all);
    LinesAreJoined(all);
    assert Lines(all)[..|Lines(all)| - 1] == Join(all, "\n");
  }

  // ----- characters and separators ------------------------------------------------------

  /** White space includes the blank, the tab and every line end; it never includes what cells, markers and ids are
      written with. */
  lemma WhiteSpaceIs(c: char)
    ensures c == ' ' || c == '\t' || c == '\n' || c == '\r' ==> IsSpace(c)
    ensures IsBreak(c) ==> IsSpace(c)
    ensures '!' <= c <= '~' ==> !IsSpace(c)
    ensures IsBreak('\n') && IsBreak('\r')
  {
  }

  /** A white-space character separates words, whichever it is and whatever stands around it. */
  lemma {:induction false} WordsConcat(a: string, c: char, b: string)
    requires IsSpace(c)
    ensures Words(a + [c] + b) == Words(a) + Words(b)
    decreases |a|
  {
    var s := a + [c] + b;
    if a == "" {
      assert s[1..] == b;
      assert StripLeft(s) == StripLeft(b);
      assert StripLeft(StripLeft(b)) == StripLeft(b);
    } else if IsSpace(a[0]) {
      assert s[1..] == a[1..] + [c] + b;
      WordsConcat(a[1..], c, b);
    } else {
      var k := WordLength(a);
      assert a == a[..k] + a[k..];
      assert s == a[..k] + (a[k..] + [c] + b);
      WordLengthIs(a[..k], a[k..] + [c] + b);
      assert s[k..] == a[k..] + [c] + b;
      WordsConcat(a[k..], c, b);
    }
  }

  /** Every line boundary ends a line; a carriage return with a line feed is one. */
  lemma LineEnds(line: string, c: char, rest: string)
    requires NoBreaks(line) && IsBreak(c)
    ensures SplitLines(line + "\r\n" + rest) == [line] + SplitLines(rest)
    ensures !(c == '\r' && rest != "" && rest[0] == '\n') ==> SplitLines(line + [c] + rest) == [line] + SplitLines(rest)
  {
    var s, t := line + "\r\n" + rest, line + [c] + rest;
    assert s == line + ("\r\n" + rest) && t == line + ([c] + rest);
    LineLengthIs(line, "\r\n" + rest);
    LineLengthIs(line, [c] + rest);
    assert s[|line|] == '\r' && s[|line| + 1] == '\n' && s[|line| + 2..] == rest && s[..|line|] == line;
    assert t[|line|] == c && t[|line| + 1..] == rest && t[..|line|] == line;
    if rest != "" {
      assert t[|line| + 1] == rest[0];
    }
  }
}
