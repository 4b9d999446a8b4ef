/**
 The two generators that write documents with human-written blocks: the traceability page
 of the readiness pack, and the topic pages of the contract.
 */
module BlockTemplates {
  import opened Text
  import opened UserBlocks

  function AutoBlock(aid: string, body: string): string {
    "<!-- AUTO:" + aid + ":start -->" + "\n" + (body + "\n" + ("<!-- AUTO:" + aid + ":end -->"))
  }

  // ----- fixed text without a USER marker -----------------------------------------------

  predicate NoAngle(s: string) { forall i :: 0 <= i < |s| ==> s[i] != '<' }

  /** A marker in two lines is in one of them. */
  lemma MarkerInLines(a: string, b: string)
    requires !NoMarker(a + "\n" + b)
    ensures !NoMarker(a) || !NoMarker(b)
  {
    var s := a + "\n" + b;
    FindIsFirst(s, OPEN);
    var k := Find(s, OPEN);
    if k <= |a| {
      MarkerNeedsItsLine(a, b, k);
      MarkerAt(a, k);
    } else {
      MarkerInSecond(a + "\n", b, k);
      MarkerAt(b, k - |a| - 1);
    }
  }

  lemma MarkerAt(s: string, k: nat)
    requires k <= |s| && OPEN <= s[k..]
    ensures !NoMarker(s)
  {
    FindIsFirst(s, OPEN);
  }

  lemma NoMarkerLines(a: string, b: string)
    requires NoMarker(a) && NoMarker(b)
    ensures NoMarker(a + "\n" + b)
  {
    if !NoMarker(a + "\n" + b) {
      MarkerInLines(a, b);
    }
  }

  lemma MarkerNeedsItsLine(a: string, b: string, k: nat)
    requires k <= |a| && OPEN <= (a + "\n" + b)[k..]
    ensures OPEN <= a[k..]
  {
    var t := (a + "\n" + b)[k..];
    assert t == a[k..] + "\n" + b;
    assert t[|a| - k] == '\n';
    assert t[..|OPEN|] == OPEN;
    assert a[k..][..|OPEN|] == t[..|OPEN|];
  }

  lemma MarkerInSecond(a: string, b: string, k: nat)
    requires |a| <= k <= |a + b| && OPEN <= (a + b)[k..]
    ensures OPEN <= b[k - |a|..]
  {
    assert (a + b)[k..] == b[k - |a|..];
  }

  /** A marker has an angle bracket, and a U five places on. */
  lemma MarkerShows(s: string) returns (k: nat)
    requires !NoMarker(s)
    ensures k + 5 < |s| && s[k] == '<' && s[k + 5] == 'U' && OPEN <= s[k..]
  {
    FindIsFirst(s, OPEN);
    k := Find(s, OPEN);
    assert s[k..][..|OPEN|] == OPEN;
    assert s[k] == s[k..][0] && s[k + 5] == s[k..][5];
  }

  /** Text with an angle bracket at most at its start, and then no U at the sixth place. */
  lemma NoMarkerWithoutAngle(s: string)
    requires forall i :: 0 < i < |s| ==> s[i] != '<'
    requires |s| > 5 && s[0] == '<' ==> s[5] != 'U'
    ensures NoMarker(s)
  {
    if !NoMarker(s) {
      var k := MarkerShows(s);
    }
  }

  lemma AutoBlockNoMarker(aid: string, body: string)
    requires NoAngle(aid) && NoMarker(body)
    ensures NoMarker(AutoBlock(aid, body))
  {
    var head, tail := "<!-- AUTO:" + aid + ":start -->", "<!-- AUTO:" + aid + ":end -->";
    NoMarkerWithoutAngle(head);
    NoMarkerWithoutAngle(tail);
    NoMarkerLines(body, tail);
    NoMarkerLines(head, body + "\n" + tail);
  }

  lemma MarkerInTitle(title: string)
    requires !NoMarker("# " + title)
    ensures !NoMarker(title)
  {
    var k := MarkerShows("# " + title);
    MarkerInSecond("# ", title, k);
    MarkerAt(title, k - 2);
  }

  lemma TitleNoMarker(title: string)
    requires NoMarker(title)
    ensures NoMarker("# " + title)
  {
    if !NoMarker("# " + title) {
      MarkerInTitle(title);
    }
  }

  // ----- the traceability page ----------------------------------------------------------

  /** The generated parts of the page. */
  datatype Traceability = Traceability(frontmatter: string, title: string, inventory: string, deferred: string,
                                       references: string)

  function Section(heading: string, uid: string): seq<Piece> { [Fixed(heading), Fixed(""), User(uid), Fixed("")] }

  function Generated(aid: string, body: string): seq<Piece> { [Fixed(AutoBlock(aid, body)), Fixed("")] }

  /** The parts render_traceability lists, in order. */
  function TraceabilityPieces(g: Traceability): seq<Piece> { PiecesToTests(g) + PiecesFromIndex(g) }

  function PiecesToTests(g: Traceability): seq<Piece> {
    [Fixed(g.frontmatter), Fixed("")]
    + Section("# " + g.title, "intro-note")
    + Section("## Contract → Module", "contract-module-table")
    + Section("## Module → Test", "module-test-table")
  }

  function PiecesFromIndex(g: Traceability): seq<Piece> {
    Generated("test-inventory-index", g.inventory)
    + Section("## Open Gaps", "open-gaps")
    + Generated("deferred-decisions-trace", g.deferred)
    + Generated("references", g.references)
  }

  /** The page has four human blocks. */
  lemma TraceabilityBlocks(g: Traceability, id: string)
    ensures HasBlock(TraceabilityPieces(g), id) <==>
      id == "intro-note" || id == "contract-module-table" || id == "module-test-table" || id == "open-gaps"
  {
    var a, b := PiecesToTests(g), PiecesFromIndex(g);
    assert User(id) in a <==> id == "intro-note" || id == "contract-module-table" || id == "module-test-table";
    assert User(id) in b <==> id == "open-gaps";
    assert HasBlock(a + b, id) <==> User(id) in a + b;
  }

  predicate WordLike(word: IdChars) {
    IdCharsOk(word) && word('-') && forall c :: 'a' <= c <= 'z' ==> word(c)
  }

  /** Lower-case letters and hyphens. */
  predicate Plain(s: string) { s != "" && forall i :: 0 <= i < |s| ==> s[i] == '-' || 'a' <= s[i] <= 'z' }

  lemma SectionOk(word: IdChars, heading: string, uid: string)
    requires WordLike(word) && NoMarker(heading) && Plain(uid)
    ensures TemplateOk(word, Section(heading, uid))
  {
    NoMarkerWithoutAngle("");
  }

  lemma GeneratedOk(word: IdChars, aid: string, body: string)
    requires NoAngle(aid) && NoMarker(body)
    ensures TemplateOk(word, Generated(aid, body))
  {
    AutoBlockNoMarker(aid, body);
    NoMarkerWithoutAngle("");
  }

  lemma TitleOk(word: IdChars, title: string)
    requires WordLike(word) && NoMarker(title)
    ensures TemplateOk(word, Section("# " + title, "intro-note"))
  {
    TitleNoMarker(title);
    SectionOk(word, "# " + title, "intro-note");
  }

  lemma PlainSectionOk(word: IdChars, heading: string, uid: string)
    requires WordLike(word) && NoAngle(heading) && Plain(uid)
    ensures TemplateOk(word, Section(heading, uid))
  {
    NoMarkerWithoutAngle(heading);
    SectionOk(word, heading, uid);
  }

  lemma FixedOk(word: IdChars, text: string)
    requires NoMarker(text)
    ensures TemplateOk(word, [Fixed(text), Fixed("")])
  {
    NoMarkerWithoutAngle("");
  }

  lemma ToTestsOk(word: IdChars, g: Traceability)
    requires WordLike(word) && NoMarker(g.frontmatter) && NoMarker(g.title)
    ensures TemplateOk(word, PiecesToTests(g))
  {
    FixedOk(word, g.frontmatter);
    TitleOk(word, g.title);
    PlainSectionOk(word, "## Contract → Module", "contract-module-table");
    PlainSectionOk(word, "## Module → Test", "module-test-table");
    FourOk(word, [Fixed(g.frontmatter), Fixed("")], Section("# " + g.title, "intro-note"),
           Section("## Contract → Module", "contract-module-table"),
           Section("## Module → Test", "module-test-table"));
  }

  lemma FromIndexOk(word: IdChars, g: Traceability)
    requires WordLike(word) && NoMarker(g.inventory) && NoMarker(g.deferred) && NoMarker(g.references)
    ensures TemplateOk(word, PiecesFromIndex(g))
  {
    GeneratedOk(word, "test-inventory-index", g.inventory);
    PlainSectionOk(word, "## Open Gaps", "open-gaps");
    GeneratedOk(word, "deferred-decisions-trace", g.deferred);
    GeneratedOk(word, "references", g.references);
    FourOk(word, Generated("test-inventory-index", g.inventory), Section("## Open Gaps", "open-gaps"),
           Generated("deferred-decisions-trace", g.deferred), Generated("references", g.references));
  }

  lemma TraceabilityOk(word: IdChars, g: Traceability)
    requires WordLike(word)
    requires NoMarker(g.frontmatter) && NoMarker(g.title) && NoMarker(g.inventory) && NoMarker(g.deferred)
    requires NoMarker(g.references)
    ensures TemplateOk(word, TraceabilityPieces(g))
  {
    ToTestsOk(word, g);
    FromIndexOk(word, g);
    ConcatOk(word, PiecesToTests(g), PiecesFromIndex(g));
  }

  lemma ConcatOk(word: IdChars, a: seq<Piece>, b: seq<Piece>)
    requires TemplateOk(word, a) && TemplateOk(word, b)
    ensures TemplateOk(word, a + b)
  {
  }

  lemma FourOk(word: IdChars, a: seq<Piece>, b: seq<Piece>, c: seq<Piece>, d: seq<Piece>)
    requires TemplateOk(word, a) && TemplateOk(word, b) && TemplateOk(word, c) && TemplateOk(word, d)
    ensures TemplateOk(word, a + b + c + d)
  {
    ConcatOk(word, a, b);
    ConcatOk(word, a + b, c);
    ConcatOk(word, a + b + c, d);
  }

  // ----- the topic pages ----------------------------------------------------------------

  function AutoBody(auto: map<string, string>, aid: string): string {
    if aid in auto then auto[aid] else "TODO(AUTO " + aid + ")"
  }

  function AutoPieces(gen: seq<string>, auto: map<string, string>, n: nat): seq<Piece>
    requires n <= |gen|
  {
    if n == 0 then []
    else AutoPieces(gen, auto, n - 1) + [Fixed(AutoBlock(gen[n - 1], AutoBody(auto, gen[n - 1]))), Fixed("")]
  }

  function UserPieces(usr: seq<string>, n: nat): seq<Piece>
    requires n <= |usr|
  {
    if n == 0 then [] else UserPieces(usr, n - 1) + [User(usr[n - 1]), Fixed("")]
  }

  function TopicPieces(frontmatter: string, topicId: string, gen: seq<string>, auto: map<string, string>,
                       usr: seq<string>): seq<Piece> {
    [Fixed(frontmatter), Fixed(""), Fixed("# " + topicId + "\n")]
    + AutoPieces(gen, auto, |gen|) + UserPieces(usr, |usr|)
  }

  /** A generated block as it stands on a page. */
  lemma AutoBlockText(aid: string, body: string)
    ensures AutoBlock(aid, body) == "<!-- AUTO:" + aid + ":start -->\n" + body + "\n<!-- AUTO:" + aid + ":end -->"
  {
    var open, end := "<!-- AUTO:" + aid, "<!-- AUTO:" + aid + ":end -->";
    assert open + ":start -->" + "\n" == open + ":start -->\n";
    assert "\n" + end == "\n<!-- AUTO:" + aid + ":end -->";
  }

  lemma {:induction false} AutoPiecesAre(gen: seq<string>, auto: map<string, string>, n: nat, i: nat)
    requires i < n <= |gen|
    ensures Fixed(AutoBlock(gen[i], AutoBody(auto, gen[i]))) in AutoPieces(gen, auto, n)
  {
    if i < n - 1 {
      AutoPiecesAre(gen, auto, n - 1, i);
    }
  }

  lemma {:induction false} AutoPiecesFixed(gen: seq<string>, auto: map<string, string>, n: nat, id: string)
    requires n <= |gen|
    ensures User(id) !in AutoPieces(gen, auto, n)
  {
    if n > 0 {
      AutoPiecesFixed(gen, auto, n - 1, id);
      FixedPair(AutoPieces(gen, auto, n - 1), AutoBlock(gen[n - 1], AutoBody(auto, gen[n - 1])), id);
    }
  }

  lemma FixedPair(ps: seq<Piece>, text: string, id: string)
    requires User(id) !in ps
    ensures User(id) !in ps + [Fixed(text), Fixed("")]
  {
  }

  lemma {:induction false} UserPiecesAre(usr: seq<string>, n: nat, id: string)
    requires n <= |usr|
    ensures User(id) in UserPieces(usr, n) <==> id in usr[..n]
  {
    if n > 0 {
      UserPiecesAre(usr, n - 1, id);
      assert usr[..n] == usr[..n - 1] + [usr[n - 1]];
    }
  }

  /** The page of a topic has exactly the human blocks of its schema. */
  lemma TopicBlocks(frontmatter: string, topicId: string, gen: seq<string>, auto: map<string, string>, usr: seq<string>,
                    id: string)
    ensures HasBlock(TopicPieces(frontmatter, topicId, gen, auto, usr), id) <==> id in usr
  {
    AutoPiecesFixed(gen, auto, |gen|, id);
    UserPiecesAre(usr, |usr|, id);
    assert usr[..|usr|] == usr;
    var ps := TopicPieces(frontmatter, topicId, gen, auto, usr);
    assert HasBlock(ps, id) <==> User(id) in ps;
  }

  /** It has every generated block, with the body that was produced or a note that none was. */
  lemma TopicGenerated(frontmatter: string, topicId: string, gen: seq<string>, auto: map<string, string>,
                       usr: seq<string>, i: nat)
    requires i < |gen|
    ensures gen[i] in auto ==>
      Fixed(AutoBlock(gen[i], auto[gen[i]])) in TopicPieces(frontmatter, topicId, gen, auto, usr)
    ensures gen[i] !in auto ==>
      Fixed(AutoBlock(gen[i], "TODO(AUTO " + gen[i] + ")")) in TopicPieces(frontmatter, topicId, gen, auto, usr)
  {
    AutoPiecesAre(gen, auto, |gen|, i);
  }

  lemma {:induction false} TextsConcat(a: seq<Piece>, b: seq<Piece>, users: map<string, string>)
    ensures PieceTexts(a + b, users) == PieceTexts(a, users) + PieceTexts(b, users)
    decreases |a|
  {
    if a == [] {
      assert a + b == b;
    } else {
      assert (a + b)[1..] == a[1..] + b;
      TextsConcat(a[1..], b, users);
    }
  }

  lemma TextsPair(p: Piece, q: Piece, users: map<string, string>)
    ensures PieceTexts([p, q], users) == [PieceText(p, users), PieceText(q, users)]
  {
    assert [p, q][1..] == [q] && [q][1..] == [];
    assert PieceTexts([q], users) == [PieceText(q, users)] + PieceTexts([], users);
  }

  method AppendAutos(gen: seq<string>, auto: map<string, string>, ghost users: map<string, string>)
    returns (parts: seq<string>)
    ensures parts == PieceTexts(AutoPieces(gen, auto, |gen|), users)
  {
    parts := [];
    for i := 0 to |gen|
      invariant parts == PieceTexts(AutoPieces(gen, auto, i), users)
    {
      var block := AutoBlock(gen[i], AutoBody(auto, gen[i]));
      TextsConcat(AutoPieces(gen, auto, i), [Fixed(block), Fixed("")], users);
      TextsPair(Fixed(block), Fixed(""), users);
      parts := parts + [block, ""];
    }
  }

  method AppendUsers(usr: seq<string>, preserved: map<string, string>) returns (parts: seq<string>)
    ensures parts == PieceTexts(UserPieces(usr, |usr|), preserved)
  {
    parts := [];
    for i := 0 to |usr|
      invariant parts == PieceTexts(UserPieces(usr, i), preserved)
    {
      TextsConcat(UserPieces(usr, i), [User(usr[i]), Fixed("")], preserved);
      TextsPair(User(usr[i]), Fixed(""), preserved);
      parts := parts + [Block(usr[i], BodyFor(preserved, usr[i])), ""];
    }
  }

  /** assemble. */
  method Assemble(frontmatter: string, topicId: string, gen: seq<string>, auto: map<string, string>, usr: seq<string>,
                  preserved: map<string, string>)
    returns (text: string)
    ensures text == Document(TopicPieces(frontmatter, topicId, gen, auto, usr), preserved)
  {
    var autos := AppendAutos(gen, auto, preserved);
    var users := AppendUsers(usr, preserved);
    var title := "# " + topicId + "\n";
    var parts := [frontmatter, ""] + [title] + autos + users;
    text := Assembled(parts);
    ghost var head := [Fixed(frontmatter), Fixed(""), Fixed(title)];
    assert head[1..] == [Fixed(""), Fixed(title)];
    TextsPair(Fixed(""), Fixed(title), preserved);
    assert PieceTexts(head, preserved) == [frontmatter, ""] + [title];
    TextsConcat(head, AutoPieces(gen, auto, |gen|), preserved);
    TextsConcat(head + AutoPieces(gen, auto, |gen|), UserPieces(usr, |usr|), preserved);
  }

  predicate AutosOk(gen: seq<string>, auto: map<string, string>) {
    forall i :: 0 <= i < |gen| ==> NoAngle(gen[i]) && NoMarker(AutoBody(auto, gen[i]))
  }

  lemma {:induction false} AutoPiecesOk(word: IdChars, gen: seq<string>, auto: map<string, string>, n: nat)
    requires n <= |gen| && AutosOk(gen, auto)
    ensures TemplateOk(word, AutoPieces(gen, auto, n))
  {
    if n > 0 {
      AutoPiecesOk(word, gen, auto, n - 1);
      AutoBlockNoMarker(gen[n - 1], AutoBody(auto, gen[n - 1]));
      NoMarkerWithoutAngle("");
    }
  }

  lemma {:induction false} UserPiecesOk(word: IdChars, usr: seq<string>, n: nat)
    requires n <= |usr| && forall i :: 0 <= i < |usr| ==> IsId(word, usr[i])
    ensures TemplateOk(word, UserPieces(usr, n))
  {
    if n > 0 {
      UserPiecesOk(word, usr, n - 1);
      NoMarkerWithoutAngle("");
    }
  }

  lemma TopicOk(word: IdChars, frontmatter: string, topicId: string, gen: seq<string>, auto: map<string, string>,
                usr: seq<string>)
    requires NoMarker(frontmatter) && NoMarker(topicId) && AutosOk(gen, auto)
    requires forall i :: 0 <= i < |usr| ==> IsId(word, usr[i])
    ensures TemplateOk(word, TopicPieces(frontmatter, topicId, gen, auto, usr))
  {
    AutoPiecesOk(word, gen, auto, |gen|);
    UserPiecesOk(word, usr, |usr|);
    TitleNoMarker(topicId);
    NoMarkerWithoutAngle("");
    NoMarkerLines("# " + topicId, "");
    assert "# " + topicId + "\n" + "" == "# " + topicId + "\n";
  }

  /** The page is the same when it is rendered again, and its blocks keep what people wrote. */
  ghost predicate Stable(word: IdChars, ps: seq<Piece>, current: string) {
    var page := Render(word, ps, current);
    var before, after := Extract(word, current, map[]), Extract(word, page, map[]);
    && Render(word, ps, page) == page
    && (forall id :: id in before && HasBlock(ps, id) && !Blank(before[id]) ==> id in after && after[id] == before[id])
  }

  lemma TemplateIsStable(word: IdChars, ps: seq<Piece>, current: string)
    requires IdCharsOk(word) && TemplateOk(word, ps)
    ensures Stable(word, ps, current)
  {
    RenderIdempotent(word, ps, current);
    forall id {
      RenderKeepsBodies(word, ps, current, id);
    }
  }

  /** Both generators write stable pages. */
  lemma PagesAreStable(word: IdChars, g: Traceability, topicId: string, gen: seq<string>, auto: map<string, string>,
                       usr: seq<string>, current: string)
    requires WordLike(word)
    requires NoMarker(g.frontmatter) && NoMarker(g.title) && NoMarker(g.inventory) && NoMarker(g.deferred)
    requires NoMarker(g.references)
    requires NoMarker(topicId) && AutosOk(gen, auto) && forall i :: 0 <= i < |usr| ==> IsId(word, usr[i])
    ensures Stable(word, TraceabilityPieces(g), current)
    ensures Stable(word, TopicPieces(g.frontmatter, topicId, gen, auto, usr), current)
  {
    TraceabilityOk(word, g);
    TopicOk(word, g.frontmatter, topicId, gen, auto, usr);
    TemplateIsStable(word, TraceabilityPieces(g), current);
    TemplateIsStable(word, TopicPieces(g.frontmatter, topicId, gen, auto, usr), current);
  }

  /** A template with a block, and behind it fixed text that holds a copy of the block. */
  function CopyTemplate(id: string, generated: string): seq<Piece> { [User(id), Fixed(Block(id, generated))] }

  lemma CopyDocument(id: string, written: string, generated: string)
    requires !Blank(written)
    ensures Document(CopyTemplate(id, generated), map[id := written]) ==
      Block(id, written) + "\n" + (Block(id, generated) + "\n" + "")
  {
    var users := map[id := written];
    var a, b := Block(id, written), Block(id, generated);
    TextsPair(User(id), Fixed(b), users);
    assert [a, b][1..] == [b];
    assert Join([a, b], "\n") == a + "\n" + b;
    BlockKeepsItsEnd(id, generated);
    StripRightConcat(a + "\n", b);
    assert b != "";
    assert a + "\n" + b + "\n" == a + "\n" + (b + "\n" + "");
  }

  /** Why fixed text must not open a USER marker: over a text in which people wrote the block, a generated
      copy of it replaces what they wrote. */
  lemma GeneratedCopyWins(word: IdChars, id: string, written: string, generated: string)
    requires IdCharsOk(word) && IsId(word, id) && Closed(id, written) && Closed(id, generated)
    requires !Blank(written) && written != generated
    ensures !Stable(word, CopyTemplate(id, generated), Block(id, written) + "\n" + "")
  {
    var ps, current := CopyTemplate(id, generated), Block(id, written) + "\n" + "";
    BlockIsTaken(word, id, written, "", map[]);
    CopyDocument(id, written, generated);
    BlockIsTaken(word, id, written, Block(id, generated) + "\n" + "", map[]);
    BlockIsTaken(word, id, generated, "", map[id := written]);
    var before, after := Extract(word, current, map[]), Extract(word, Render(word, ps, current), map[]);
    assert before == map[id := written] && after[id] == generated;
    assert ps[0] == User(id);
  }
}
