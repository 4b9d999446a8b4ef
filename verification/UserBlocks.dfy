/**
 Documents with generated and human-written blocks. Rendering replaces everything but the
 USER bodies, which it reads from the previous text.
 */
module UserBlocks {
  import opened Text

  const OPEN := "<!-- USER:"
  const START := ":start -->\n"

  function EndMarker(id: string): string { "\n<!-- USER:" + id + ":end -->" }

  /** user_block. */
  function Block(id: string, body: string): string { OPEN + id + START + body + EndMarker(id) }

  /** A block as it stands in a document. */
  lemma BlockText(id: string, body: string)
    ensures Block(id, body) == "<!-- USER:" + id + ":start -->\n" + body + "\n<!-- USER:" + id + ":end -->"
  {
    assert Block(id, body) == OPEN + id + START + body + EndMarker(id);
    var a := "<!-- USER:" + id + ":start -->\n" + body;
    assert a + ("\n<!-- USER:" + id + ":end -->") == a + "\n<!-- USER:" + id + ":end -->";
  }

  /** The characters of a block id: some set without the colon and the line feed. */
  type IdChars = char -> bool

  predicate IdCharsOk(word: IdChars) { !word(':') && !word('\n') }

  predicate AllWord(word: IdChars, s: string) { forall i :: 0 <= i < |s| ==> word(s[i]) }

  predicate IsId(word: IdChars, s: string) { s != "" && AllWord(word, s) }

  // ----- reading the blocks of a text ---------------------------------------------------

  /** The longest run of id characters. */
  function RunLength(word: IdChars, s: string): (k: nat)
    ensures k <= |s| && AllWord(word, s[..k])
  {
    if s == "" || !word(s[0]) then 0
    else
      var k := 1 + RunLength(word, s[1..]);
      assert forall i :: 0 < i < k ==> s[i] == s[1..][i - 1];
      k
  }

  datatype Hit = NoHit | Hit(id: string, body: string)

  /** Behind a start marker: the body runs to the first end marker of the same id. */
  function AfterStart(id: string, b: string): Hit {
    var e := Find(b, EndMarker(id));
    FindIsFirst(b, EndMarker(id));
    if e < 0 then NoHit else Hit(id, b[..e])
  }

  function AfterOpen(word: IdChars, r: string): Hit {
    var k := RunLength(word, r);
    if k == 0 || !(START <= r[k..]) then NoHit else AfterStart(r[..k], r[k + |START|..])
  }

  /** The block that starts right here. */
  function HitAt(word: IdChars, t: string): Hit {
    if OPEN <= t then AfterOpen(word, t[|OPEN|..]) else NoHit
  }

  /** What a hit stands for is there, character by character. */
  lemma HitIsBlock(word: IdChars, t: string)
    requires HitAt(word, t).Hit?
    ensures IsId(word, HitAt(word, t).id) && Closed(HitAt(word, t).id, HitAt(word, t).body)
    ensures Block(HitAt(word, t).id, HitAt(word, t).body) <= t
  {
    var h, r := HitAt(word, t), t[|OPEN|..];
    var more := AfterOpenIsBlock(word, r);
    assert t == OPEN + r;
    Associate(OPEN, h.id, START, h.body + EndMarker(h.id), more);
    assert Block(h.id, h.body) == OPEN + h.id + START + (h.body + EndMarker(h.id));
    assert t == Block(h.id, h.body) + more;
  }

  lemma AfterOpenIsBlock(word: IdChars, r: string) returns (more: string)
    requires AfterOpen(word, r).Hit?
    ensures var h := AfterOpen(word, r);
      IsId(word, h.id) && Closed(h.id, h.body) && r == h.id + (START + (h.body + EndMarker(h.id) + more))
  {
    var k := RunLength(word, r);
    var b := r[k + |START|..];
    more := AfterStartCloses(r[..k], b);
    assert r[k..] == START + b;
    assert r == r[..k] + r[k..];
  }

  lemma AfterStartCloses(id: string, b: string) returns (more: string)
    requires AfterStart(id, b).Hit?
    ensures var h := AfterStart(id, b); h.id == id && Closed(id, h.body) && b == h.body + EndMarker(id) + more
  {
    var pat := EndMarker(id);
    FindIsFirst(b, pat);
    var e := Find(b, pat);
    var s := b[..e] + pat;
    more := b[e + |pat|..];
    assert b == s + more;
    assert s[e..] == pat;
    FindPrefix(s, pat, more, e);
  }

  lemma Associate(a: string, b: string, c: string, d: string, e: string)
    ensures a + (b + (c + (d + e))) == a + b + c + d + e
  {
  }

  /** The blocks of the rest of a text on top of those found so far; a later block wins. */
  function Extract(word: IdChars, t: string, found: map<string, string>): map<string, string>
    decreases |t|
  {
    if t == "" then found
    else
      var h := HitAt(word, t);
      if h.NoHit? then Extract(word, t[1..], found)
      else
        HitIsBlock(word, t);
        Extract(word, t[|Block(h.id, h.body)|..], found[h.id := h.body])
  }

  /** extract_blocks for USER blocks: the matches of a text from left to right, without overlap. */
  method ExtractBlocks(word: IdChars, text: string) returns (out: map<string, string>)
    ensures out == Extract(word, text, map[])
  {
    out := map[];
    var rest := text;
    while rest != ""
      invariant Extract(word, rest, out) == Extract(word, text, map[])
      decreases |rest|
    {
      var h := HitAt(word, rest);
      if h.NoHit? {
        rest := rest[1..];
      } else {
        HitIsBlock(word, rest);
        rest := rest[|Block(h.id, h.body)|..];
        out := out[h.id := h.body];
      }
    }
  }

  // ----- which bodies a block can carry -------------------------------------------------

  /** The body does not run into an end marker of its own block before the one that closes it. */
  ghost predicate Closed(id: string, body: string) {
    Find(body + EndMarker(id), EndMarker(id)) == |body|
  }

  lemma PrefixStays(s: string, pat: string, more: string, j: nat)
    requires j + |pat| <= |s|
    ensures pat <= s[j..] <==> pat <= (s + more)[j..]
  {
    assert (s + more)[j..] == s[j..] + more;
    assert (s[j..] + more)[..|pat|] == s[j..][..|pat|];
  }

  lemma FindPrefix(s: string, pat: string, more: string, k: nat)
    requires k + |pat| == |s| && pat <= s[k..]
    ensures Find(s + more, pat) == Find(s, pat) && 0 <= Find(s, pat) <= k
  {
    FindIsFirst(s, pat);
    FindIsFirst(s + more, pat);
    PrefixStays(s, pat, more, k);
    PrefixStays(s, pat, more, Find(s, pat));
    PrefixStays(s, pat, more, Find(s + more, pat));
  }

  lemma {:induction false} RunLengthIs(word: IdChars, id: string, rest: string)
    requires AllWord(word, id) && (rest == "" || !word(rest[0]))
    ensures RunLength(word, id + rest) == |id|
  {
    if id == "" {
      assert id + rest == rest;
    } else {
      assert (id + rest)[1..] == id[1..] + rest;
      RunLengthIs(word, id[1..], rest);
    }
  }

  lemma StartIsRead(word: IdChars, id: string, b: string)
    requires IdCharsOk(word) && IsId(word, id)
    ensures AfterOpen(word, id + (START + b)) == AfterStart(id, b)
  {
    var r := id + (START + b);
    RunLengthIs(word, id, START + b);
    assert r[..|id|] == id && r[|id|..] == START + b && r[|id| + |START|..] == b;
  }

  lemma OpenIsRead(word: IdChars, r: string)
    ensures HitAt(word, OPEN + r) == AfterOpen(word, r)
  {
    assert (OPEN + r)[|OPEN|..] == r;
  }

  lemma EndIsRead(id: string, body: string, rest: string)
    ensures var h := AfterStart(id, body + EndMarker(id) + rest); h.Hit? && h.id == id && |h.body| <= |body|
    ensures Closed(id, body) <==> AfterStart(id, body + EndMarker(id) + rest) == Hit(id, body)
  {
    var s := body + EndMarker(id);
    assert s[|body|..] == EndMarker(id);
    FindPrefix(s, EndMarker(id), rest, |body|);
    assert (s + rest)[..|body|] == body;
  }

  /** A written block is read back exactly when its body is closed. */
  lemma BlockReadsBack(word: IdChars, id: string, body: string, rest: string)
    requires IdCharsOk(word) && IsId(word, id)
    ensures var h := HitAt(word, Block(id, body) + rest); h.Hit? && h.id == id && |h.body| <= |body|
    ensures Closed(id, body) <==> HitAt(word, Block(id, body) + rest) == Hit(id, body)
  {
    Associate(OPEN, id, START, body + EndMarker(id), rest);
    assert Block(id, body) == OPEN + id + START + (body + EndMarker(id));
    OpenIsRead(word, id + (START + (body + EndMarker(id) + rest)));
    StartIsRead(word, id, body + EndMarker(id) + rest);
    EndIsRead(id, body, rest);
  }

  // ----- which blocks are read ----------------------------------------------------------

  /** A block starts the text, and no shorter body of that id would do. */
  ghost predicate IsMatch(word: IdChars, t: string, id: string, body: string) {
    IsId(word, id) && Block(id, body) <= t && forall shorter :: |shorter| < |body| ==> !(Block(id, shorter) <= t)
  }

  ghost predicate MatchesAt(word: IdChars, t: string, k: nat)
    requires k <= |t|
  {
    exists id, body :: IsMatch(word, t[k..], id, body)
  }

  lemma BlockStarts(word: IdChars, t: string, id: string, body: string)
    requires IdCharsOk(word) && IsId(word, id) && Block(id, body) <= t
    ensures var h := HitAt(word, t); h.Hit? && h.id == id && |h.body| <= |body|
  {
    var rest := t[|Block(id, body)|..];
    assert t == Block(id, body) + rest;
    BlockReadsBack(word, id, body, rest);
  }

  lemma SameLengthSameBody(t: string, id: string, a: string, b: string)
    requires |a| == |b| && Block(id, a) <= t && Block(id, b) <= t
    ensures a == b
  {
    var n := |OPEN + id + START|;
    assert Block(id, a)[n..n + |a|] == a && Block(id, b)[n..n + |b|] == b;
  }

  /** A hit is a match. */
  lemma HitIsMatch(word: IdChars, t: string, id: string, body: string)
    requires IdCharsOk(word)
    ensures HitAt(word, t) == Hit(id, body) <==> IsMatch(word, t, id, body)
  {
    var h := HitAt(word, t);
    if h == Hit(id, body) {
      HitIsBlock(word, t);
      forall shorter | |shorter| < |body| ensures !(Block(id, shorter) <= t) {
        if Block(id, shorter) <= t {
          BlockStarts(word, t, id, shorter);
        }
      }
    }
    if IsMatch(word, t, id, body) {
      BlockStarts(word, t, id, body);
      HitIsBlock(word, t);
      SameLengthSameBody(t, id, h.body, body);
    }
  }

  ghost predicate NoneBefore(word: IdChars, t: string, k: nat)
    requires k <= |t|
  {
    forall j :: 0 <= j < k ==> !MatchesAt(word, t, j)
  }

  lemma StepOver(word: IdChars, t: string, k: nat, found: map<string, string>)
    requires IdCharsOk(word) && 0 < k <= |t| && NoneBefore(word, t, k)
    ensures Extract(word, t, found) == Extract(word, t[1..], found) && NoneBefore(word, t[1..], k - 1)
  {
    var h := HitAt(word, t);
    assert t[0..] == t && !MatchesAt(word, t, 0);
    if h.Hit? {
      HitIsMatch(word, t, h.id, h.body);
    }
    forall j | 0 <= j < k - 1 ensures !MatchesAt(word, t[1..], j) {
      assert t[1..][j..] == t[j + 1..];
      assert !MatchesAt(word, t, j + 1);
    }
  }

  lemma MatchIsTaken(word: IdChars, t: string, id: string, body: string, found: map<string, string>)
    requires IdCharsOk(word) && IsMatch(word, t, id, body)
    ensures Extract(word, t, found) == Extract(word, t[|Block(id, body)|..], found[id := body])
  {
    HitIsMatch(word, t, id, body);
    assert |Block(id, body)| > 0;
  }

  /** The leftmost match of a text is taken, and reading goes on behind it. */
  lemma {:induction false} NextIsTaken(word: IdChars, t: string, k: nat, id: string, body: string,
                                       found: map<string, string>)
    requires IdCharsOk(word) && k <= |t| && NoneBefore(word, t, k) && IsMatch(word, t[k..], id, body)
    ensures k + |Block(id, body)| <= |t|
    ensures Extract(word, t, found) == Extract(word, t[k..][|Block(id, body)|..], found[id := body])
    decreases k
  {
    if k == 0 {
      assert t[0..] == t;
      MatchIsTaken(word, t, id, body, found);
    } else {
      StepOver(word, t, k, found);
      assert t[1..][k - 1..] == t[k..];
      NextIsTaken(word, t[1..], k - 1, id, body, found);
    }
  }

  /** A text without a match adds nothing. */
  lemma {:induction false} NoneLeft(word: IdChars, t: string, found: map<string, string>)
    requires IdCharsOk(word) && NoneBefore(word, t, |t|)
    ensures Extract(word, t, found) == found
    decreases |t|
  {
    if t != "" {
      StepOver(word, t, |t|, found);
      NoneLeft(word, t[1..], found);
    }
  }

  /** Whatever a text holds, the bodies read from it are closed. */
  lemma {:induction false} ExtractCloses(word: IdChars, t: string, found: map<string, string>)
    requires AllClosed(found)
    ensures AllClosed(Extract(word, t, found))
    decreases |t|
  {
    if t != "" {
      var h := HitAt(word, t);
      if h.NoHit? {
        ExtractCloses(word, t[1..], found);
      } else {
        HitIsBlock(word, t);
        ExtractCloses(word, t[|Block(h.id, h.body)|..], found[h.id := h.body]);
      }
    }
  }

  ghost predicate AllClosed(m: map<string, string>) { forall id :: id in m ==> Closed(id, m[id]) }

  // ----- rendering ----------------------------------------------------------------------

  /** A part of a document: fixed text (headings, generated blocks) or a human-written block. */
  datatype Piece = Fixed(text: string) | User(id: string)

  function Placeholder(id: string): string { "TODO: " + id + " — 사람이 보강 (fresh placeholder)." }

  predicate Blank(s: string) { Strip(s) == "" }

  function BodyFor(users: map<string, string>, id: string): string {
    if id in users && !Blank(users[id]) then users[id] else Placeholder(id)
  }

  function PieceText(p: Piece, users: map<string, string>): string {
    match p
    case Fixed(text) => text
    case User(id) => Block(id, BodyFor(users, id))
  }

  function PieceTexts(ps: seq<Piece>, users: map<string, string>): seq<string> {
    if ps == [] then [] else [PieceText(ps[0], users)] + PieceTexts(ps[1..], users)
  }

  /** The parts on lines of their own, with one line end after the last that is not blank. */
  function Assembled(parts: seq<string>): string { StripRight(Join(parts, "\n")) + "\n" }

  /** The document for given human-written bodies. */
  function Document(ps: seq<Piece>, users: map<string, string>): string {
    Assembled(PieceTexts(ps, users))
  }

  /** Rendering over a previous text. */
  function Render(word: IdChars, ps: seq<Piece>, current: string): string {
    Document(ps, Extract(word, current, map[]))
  }

  /** No USER marker opens in the text. */
  predicate NoMarker(s: string) { Find(s, OPEN) < 0 }

  predicate PieceOk(word: IdChars, p: Piece) {
    match p
    case Fixed(text) => NoMarker(text)
    case User(id) => IsId(word, id)
  }

  predicate TemplateOk(word: IdChars, ps: seq<Piece>) {
    forall i :: 0 <= i < |ps| ==> PieceOk(word, ps[i])
  }

  /** The bodies a document carries. */
  function Bodies(ps: seq<Piece>, users: map<string, string>, found: map<string, string>): map<string, string> {
    if ps == [] then found else Bodies(ps[1..], users, AddBody(ps[0], users, found))
  }

  function AddBody(p: Piece, users: map<string, string>, found: map<string, string>): map<string, string> {
    if p.User? then found[p.id := BodyFor(users, p.id)] else found
  }

  lemma NoMarkerTail(f: string, rest: string)
    requires NoMarker(f) && f != ""
    ensures NoMarker(f[1..]) && !(OPEN <= f + "\n" + rest)
  {
    var t := f + "\n" + rest;
    assert t[|f|] == '\n';
    if |f| >= |OPEN| {
      assert t[..|OPEN|] == f[..|OPEN|];
    }
  }

  /** Fixed text is skipped. */
  lemma {:induction false} FixedIsSkipped(word: IdChars, f: string, rest: string, found: map<string, string>)
    requires NoMarker(f)
    ensures Extract(word, f + "\n" + rest, found) == Extract(word, rest, found)
    decreases |f|
  {
    var t := f + "\n" + rest;
    if f == "" {
      assert t[0] == '\n' && t[1..] == rest;
      assert !(OPEN <= t);
    } else {
      NoMarkerTail(f, rest);
      assert t[1..] == f[1..] + "\n" + rest;
      FixedIsSkipped(word, f[1..], rest, found);
    }
  }

  /** A hit moves the reader behind the block. */
  lemma HitIsTaken(word: IdChars, id: string, body: string, rest: string, found: map<string, string>)
    requires HitAt(word, Block(id, body) + rest) == Hit(id, body)
    ensures Extract(word, Block(id, body) + rest, found) == Extract(word, rest, found[id := body])
  {
    var block := Block(id, body);
    assert |block| > 0;
    assert (block + rest)[|block|..] == rest;
  }

  lemma NewlineIsSkipped(word: IdChars, rest: string, found: map<string, string>)
    ensures Extract(word, "\n" + rest, found) == Extract(word, rest, found)
  {
    FixedIsSkipped(word, "", rest, found);
    assert "" + "\n" + rest == "\n" + rest;
  }

  lemma Regroup(a: string, b: string, c: string)
    ensures a + b + c == a + (b + c)
  {
  }

  lemma BlockIsTaken(word: IdChars, id: string, body: string, rest: string, found: map<string, string>)
    requires IdCharsOk(word) && IsId(word, id) && Closed(id, body)
    ensures Extract(word, Block(id, body) + "\n" + rest, found) == Extract(word, rest, found[id := body])
  {
    Regroup(Block(id, body), "\n", rest);
    BlockReadsBack(word, id, body, "\n" + rest);
    HitIsTaken(word, id, body, "\n" + rest, found);
    NewlineIsSkipped(word, rest, found[id := body]);
  }

  /** A body of one line is closed. */
  lemma OneLineCloses(id: string, body: string)
    requires NoNewline(body)
    ensures Closed(id, body)
  {
    var pat := EndMarker(id);
    var s := body + pat;
    FindIsFirst(s, pat);
    assert s[|body|..] == pat;
    var k := Find(s, pat);
    assert s[k] == s[k..][0] == pat[0] == '\n';
  }

  lemma PlaceholderCloses(word: IdChars, id: string)
    requires IdCharsOk(word) && AllWord(word, id)
    ensures Closed(id, Placeholder(id)) && !Blank(Placeholder(id))
  {
    var body := Placeholder(id);
    var tail := " — 사람이 보강 (fresh placeholder).";
    assert NoNewline(tail) && NoNewline(id) && NoNewline("TODO: ");
    assert body == "TODO: " + (id + tail);
    OneLineCloses(id, body);
    NotBlank(body);
  }

  lemma NotBlank(s: string)
    requires s != "" && !IsSpace(s[0])
    ensures !Blank(s)
  {
    StripRightKeeps(s);
  }

  lemma {:induction false} StripRightKeeps(s: string)
    requires s != "" && !IsSpace(s[0])
    ensures StripRight(s) != ""
    decreases |s|
  {
    if IsSpace(s[|s| - 1]) {
      StripRightKeeps(s[..|s| - 1]);
    }
  }

  lemma BodyForCloses(word: IdChars, users: map<string, string>, id: string)
    requires IdCharsOk(word) && AllWord(word, id) && AllClosed(users)
    ensures Closed(id, BodyFor(users, id)) && !Blank(BodyFor(users, id))
  {
    PlaceholderCloses(word, id);
  }

  /** One piece, as the first of several or as the last one of the document. */
  lemma PieceIsRead(word: IdChars, p: Piece, users: map<string, string>, rest: string, found: map<string, string>)
    requires IdCharsOk(word) && PieceOk(word, p) && AllClosed(users)
    ensures Extract(word, PieceText(p, users) + "\n" + rest, found) == Extract(word, rest, AddBody(p, users, found))
    ensures Extract(word, StripRight(PieceText(p, users)) + "\n" + "", found) == AddBody(p, users, found)
  {
    match p {
      case Fixed(text) =>
        FixedIsSkipped(word, text, rest, found);
        PrefixHasNoMarker(text, StripRight(text));
        FixedIsSkipped(word, StripRight(text), "", found);
      case User(id) =>
        BodyForCloses(word, users, id);
        BlockIsTaken(word, id, BodyFor(users, id), rest, found);
        BlockIsTaken(word, id, BodyFor(users, id), "", found);
        BlockKeepsItsEnd(id, BodyFor(users, id));
    }
  }

  lemma MarkerInPrefix(s: string, p: string)
    requires p <= s && !NoMarker(p)
    ensures !NoMarker(s)
  {
    FindIsFirst(s, OPEN);
    FindIsFirst(p, OPEN);
    assert s == p + s[|p|..];
    PrefixStays(p, OPEN, s[|p|..], Find(p, OPEN));
  }

  lemma PrefixHasNoMarker(s: string, p: string)
    requires NoMarker(s) && p <= s
    ensures NoMarker(p)
  {
    if !NoMarker(p) {
      MarkerInPrefix(s, p);
    }
  }

  lemma BlockKeepsItsEnd(id: string, body: string)
    ensures StripRight(Block(id, body)) == Block(id, body)
  {
    var block := Block(id, body);
    assert block[|block| - 1] == '>';
  }

  lemma {:induction false} StripRightConcat(a: string, b: string)
    ensures StripRight(a + b) == if StripRight(b) == "" then StripRight(a) else a + StripRight(b)
    decreases |b|
  {
    if b == "" {
      assert a + b == a;
    } else if IsSpace(b[|b| - 1]) {
      assert (a + b)[..|a + b| - 1] == a + b[..|b| - 1];
      StripRightConcat(a, b[..|b| - 1]);
    }
  }

  lemma JoinStrip(text: string, texts: seq<string>)
    ensures StripRight(Join([text] + texts, "\n")) ==
      if StripRight(Join(texts, "\n")) == "" then StripRight(text) else text + "\n" + StripRight(Join(texts, "\n"))
  {
    assert ([text] + texts)[1..] == texts;
    if texts != [] {
      StripRightConcat(text + "\n", Join(texts, "\n"));
      StripRightConcat(text, "\n");
      assert "\n"[..0] == "";
    }
  }

  /** The first part, then the document of the others; trailing white space is cut. */
  lemma AssembledShape(text: string, texts: seq<string>)
    ensures Assembled([text] + texts) == text + "\n" + Assembled(texts)
      || (Assembled([text] + texts) == StripRight(text) + "\n" + "" && Assembled(texts) == "" + "\n" + "")
  {
    JoinStrip(text, texts);
    var more := StripRight(Join(texts, "\n"));
    if more != "" {
      assert text + "\n" + more + "\n" == text + "\n" + (more + "\n");
    }
  }

  /** Reading a document gives the bodies it was written with. */
  lemma {:induction false} DocumentReadsBack(word: IdChars, ps: seq<Piece>, users: map<string, string>,
                                             found: map<string, string>)
    requires IdCharsOk(word) && TemplateOk(word, ps) && AllClosed(users)
    ensures Extract(word, Document(ps, users), found) == Bodies(ps, users, found)
    decreases |ps|
  {
    if ps == [] {
      FixedIsSkipped(word, "", "", found);
    } else {
      var found' := AddBody(ps[0], users, found);
      PieceIsRead(word, ps[0], users, Document(ps[1..], users), found);
      DocumentReadsBack(word, ps[1..], users, found');
      FixedIsSkipped(word, "", "", found');
      AssembledShape(PieceText(ps[0], users), PieceTexts(ps[1..], users));
    }
  }

  // ----- what rendering keeps -----------------------------------------------------------

  ghost predicate HasBlock(ps: seq<Piece>, id: string) { exists i :: 0 <= i < |ps| && ps[i] == User(id) }

  lemma {:induction false} BodiesAre(ps: seq<Piece>, users: map<string, string>, found: map<string, string>, id: string)
    ensures HasBlock(ps, id) ==> id in Bodies(ps, users, found) && Bodies(ps, users, found)[id] == BodyFor(users, id)
    ensures !HasBlock(ps, id) ==> (id in Bodies(ps, users, found) <==> id in found)
    ensures !HasBlock(ps, id) && id in found ==> Bodies(ps, users, found)[id] == found[id]
    ensures id in found && found[id] == BodyFor(users, id) ==> id in Bodies(ps, users, found)
    ensures id in found && found[id] == BodyFor(users, id) ==> Bodies(ps, users, found)[id] == BodyFor(users, id)
    decreases |ps|
  {
    if ps != [] {
      BodiesAre(ps[1..], users, AddBody(ps[0], users, found), id);
      assert HasBlock(ps, id) <==> ps[0] == User(id) || HasBlock(ps[1..], id) by {
        if HasBlock(ps, id) && ps[0] != User(id) {
          var i :| 0 <= i < |ps| && ps[i] == User(id);
          assert ps[1..][i - 1] == User(id);
        }
        if HasBlock(ps[1..], id) {
          var i :| 0 <= i < |ps[1..]| && ps[1..][i] == User(id);
          assert ps[i + 1] == User(id);
        }
      }
    }
  }

  /** Reading a rendered text: every block of the template, and nothing else. A body that was there and
      is not blank is the same, character by character; any other is the placeholder. */
  lemma RenderKeepsBodies(word: IdChars, ps: seq<Piece>, current: string, id: string)
    requires IdCharsOk(word) && TemplateOk(word, ps)
    ensures var before, after := Extract(word, current, map[]), Extract(word, Render(word, ps, current), map[]);
      && (id in after <==> HasBlock(ps, id))
      && (id in after && id in before && Strip(before[id]) != "" ==> after[id] == before[id])
      && (id in after && (id !in before || Strip(before[id]) == "") ==>
            after[id] == "TODO: " + id + " — 사람이 보강 (fresh placeholder).")
  {
    var users := Extract(word, current, map[]);
    ExtractCloses(word, current, map[]);
    DocumentReadsBack(word, ps, users, map[]);
    BodiesAre(ps, users, map[], id);
  }

  lemma {:induction false} SameBodiesSameTexts(ps: seq<Piece>, a: map<string, string>, b: map<string, string>)
    requires forall i :: 0 <= i < |ps| && ps[i].User? ==> BodyFor(a, ps[i].id) == BodyFor(b, ps[i].id)
    ensures PieceTexts(ps, a) == PieceTexts(ps, b)
  {
    if ps != [] {
      SameBodiesSameTexts(ps[1..], a, b);
    }
  }

  /** Whatever is written between the markers stays, as long as it is closed and not blank: rendering
      over such a document gives the document back. */
  lemma RenderFixesDocument(word: IdChars, ps: seq<Piece>, users: map<string, string>)
    requires IdCharsOk(word) && TemplateOk(word, ps) && AllClosed(users)
    ensures Render(word, ps, Document(ps, users)) == Document(ps, users)
  {
    var users' := Extract(word, Document(ps, users), map[]);
    DocumentReadsBack(word, ps, users, map[]);
    forall i | 0 <= i < |ps| && ps[i].User? ensures BodyFor(users', ps[i].id) == BodyFor(users, ps[i].id) {
      BodiesAre(ps, users, map[], ps[i].id);
      assert PieceOk(word, ps[i]);
      BodyForCloses(word, users, ps[i].id);
    }
    SameBodiesSameTexts(ps, users', users);
  }

  /** Rendering twice is rendering once, over every text. */
  lemma RenderIdempotent(word: IdChars, ps: seq<Piece>, current: string)
    requires IdCharsOk(word) && TemplateOk(word, ps)
    ensures Render(word, ps, Render(word, ps, current)) == Render(word, ps, current)
  {
    ExtractCloses(word, current, map[]);
    RenderFixesDocument(word, ps, Extract(word, current, map[]));
  }
}
