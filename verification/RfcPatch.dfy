/**
 RFC 6902 as it is written: paths of reference tokens (RFC 6901) into a whole document, and the six
 operations of section 4. The engine patches one array and reads paths its own way; this
 module says, for every operation and every document, when the two agree.
 */
module RfcPatch {
  import opened Wrappers
  import opened Dependencies
  import opened Slices
  import opened SlicePatch

  // ----- paths: RFC 6901 ----------------------------------------------------------------

  /** The parts between slashes. */
  function Segments(s: string): (r: seq<string>)
    ensures |r| >= 1
  {
    if s == "" then [""]
    else
      var rest := Segments(s[1..]);
      if s[0] == '/' then [""] + rest else [[s[0]] + rest[0]] + rest[1..]
  }

  /** Section 4: ~1 stands for a slash and ~0 for a tilde; any other tilde is an error. */
  function Unescape(s: string): Option<string> {
    if s == "" then Some("")
    else if s[0] == '~' then
      if |s| == 1 || (s[1] != '0' && s[1] != '1') then None
      else
        var rest := Unescape(s[2..]);
        if rest.None? then None else Some([if s[1] == '0' then '~' else '/'] + rest.value)
    else
      var rest := Unescape(s[1..]);
      if rest.None? then None else Some([s[0]] + rest.value)
  }

  function UnescapeAll(segments: seq<string>): Option<seq<string>> {
    if segments == [] then Some([])
    else
      var first, rest := Unescape(segments[0]), UnescapeAll(segments[1..]);
      if first.None? || rest.None? then None else Some([first.value] + rest.value)
  }

  /** The reference tokens of a path; the empty path is the whole document. */
  function Tokens(path: string): Option<seq<string>> {
    if path == "" then Some([])
    else if path[0] != '/' then None
    else UnescapeAll(Segments(path[1..]))
  }

  /** An array index: zero, or digits without a leading zero. */
  predicate IsIndex(token: string) {
    token == "0" || (token != "" && AllDigits(token) && token[0] != '0')
  }

  /** The existing element a token names. */
  function ElementIndex(token: string, len: nat): (r: Option<nat>)
    ensures r.Some? ==> r.value < len
  {
    if IsIndex(token) && Decimal(token, |token|) < len then Some(Decimal(token, |token|)) else None
  }

  /** Where an added element goes: before an existing one, or to the end. */
  function InsertIndex(token: string, len: nat): (r: Option<nat>)
    ensures r.Some? ==> r.value <= len
  {
    if token == "-" then Some(len)
    else if IsIndex(token) && Decimal(token, |token|) <= len then Some(Decimal(token, |token|))
    else None
  }

  function Child(doc: Json, token: string): Option<Json> {
    match doc
    case Obj(fields) => Lookup(fields, token)
    case Arr(items) =>
      var i := ElementIndex(token, |items|);
      if i.Some? then Some(items[i.value]) else None
    case _ => None
  }

  /** The value that reference tokens lead to. */
  function At(doc: Json, tokens: seq<string>): Option<Json>
    decreases |tokens|
  {
    if tokens == [] then Some(doc)
    else
      var child := Child(doc, tokens[0]);
      if child.None? then None else At(child.value, tokens[1..])
  }

  // ----- equality: section 4.6 ----------------------------------------------------------

  function KeysOf(fields: seq<Field>): (keys: seq<string>)
    ensures |keys| == |fields| && forall i :: 0 <= i < |fields| ==> keys[i] == fields[i].key
  {
    seq(|fields|, i requires 0 <= i < |fields| => fields[i].key)
  }

  /** No object of the value has a name twice. */
  predicate NoRepeats(j: Json) {
    match j
    case Arr(items) => forall i :: 0 <= i < |items| ==> NoRepeats(items[i])
    case Obj(fields) => Distinct(KeysOf(fields)) && forall i :: 0 <= i < |fields| ==> NoRepeats(fields[i].value)
    case _ => true
  }

  /** Arrays in order; objects with the same number of members, each equal to a member of the other. */
  predicate Equal(a: Json, b: Json)
    decreases a
  {
    match (a, b)
    case (Null, Null) => true
    case (Bool(x), Bool(y)) => x == y
    case (Num(x), Num(y)) => x == y
    case (Str(x), Str(y)) => x == y
    case (Arr(x), Arr(y)) => |x| == |y| && forall i :: 0 <= i < |x| ==> Equal(x[i], y[i])
    case (Obj(x), Obj(y)) => |x| == |y| && forall i :: 0 <= i < |x| ==> EqualMember(x[i], y)
    case _ => false
  }

  predicate EqualMember(f: Field, y: seq<Field>)
    decreases f
  {
    exists k :: 0 <= k < |y| && f.key == y[k].key && Equal(f.value, y[k].value)
  }

  /** Places i and k carry the same name and related values. */
  ghost predicate Pairs(a: seq<string>, b: seq<string>, related: (nat, nat) -> bool, i: nat, k: nat) {
    i < |a| && k < |b| && a[i] == b[k] && related(i, k)
  }

  ghost predicate LeftPaired(a: seq<string>, b: seq<string>, related: (nat, nat) -> bool, i: nat) {
    exists k :: Pairs(a, b, related, i, k)
  }

  ghost predicate RightPaired(a: seq<string>, b: seq<string>, related: (nat, nat) -> bool, k: nat) {
    exists i :: Pairs(a, b, related, i, k)
  }

  /** When no name repeats and every place on the left is paired, then every place on the right is exactly when
      there are as many. */
  lemma PairedBothWays(a: seq<string>, b: seq<string>, related: (nat, nat) -> bool)
    requires Distinct(a) && Distinct(b)
    requires forall i :: 0 <= i < |a| ==> LeftPaired(a, b, related, i)
    ensures |a| == |b| <==> forall k :: 0 <= k < |b| ==> RightPaired(a, b, related, k)
  {
    DistinctSize(a);
    DistinctSize(b);
    forall key | key in Elems(a) ensures key in Elems(b) {
      var i :| 0 <= i < |a| && a[i] == key;
      assert LeftPaired(a, b, related, i);
      var k: nat :| Pairs(a, b, related, i, k);
    }
    SubsetSize(Elems(a), Elems(b));
    if |a| == |b| {
      forall k | 0 <= k < |b| ensures RightPaired(a, b, related, k) {
        assert b[k] in Elems(b);
        var i :| 0 <= i < |a| && a[i] == b[k];
        assert LeftPaired(a, b, related, i);
        var m: nat :| Pairs(a, b, related, i, m);
        assert m < k || k < m || m == k;
      }
    } else if forall k :: 0 <= k < |b| ==> RightPaired(a, b, related, k) {
      forall key | key in Elems(b) ensures key in Elems(a) {
        var k :| 0 <= k < |b| && b[k] == key;
        assert RightPaired(a, b, related, k);
        var i: nat :| Pairs(a, b, related, i, k);
      }
      SubsetSize(Elems(b), Elems(a));
    }
  }

  lemma FirstIsOnly(fields: seq<Field>, i: nat, key: string)
    requires Distinct(KeysOf(fields)) && i < |fields|
    ensures FirstAt(fields, i, key) <==> fields[i].key == key
  {
    assert forall k :: 0 <= k < i ==> KeysOf(fields)[k] != KeysOf(fields)[i];
  }

  /** The values at two places compare equal. */
  ghost function Comparing(x: seq<Field>, y: seq<Field>): (nat, nat) -> bool {
    (i: nat, k: nat) => i < |x| && k < |y| && Compare(x[i].value, y[k].value)
  }

  lemma FoundInIsPaired(x: seq<Field>, i: nat, y: seq<Field>)
    requires Distinct(KeysOf(y)) && i < |x|
    ensures FoundIn(x[i], y) <==> LeftPaired(KeysOf(x), KeysOf(y), Comparing(x, y), i)
  {
    if FoundIn(x[i], y) {
      var k :| 0 <= k < |y| && FirstAt(y, k, x[i].key) && Compare(x[i].value, y[k].value);
      assert Pairs(KeysOf(x), KeysOf(y), Comparing(x, y), i, k);
    }
    if LeftPaired(KeysOf(x), KeysOf(y), Comparing(x, y), i) {
      var k: nat :| Pairs(KeysOf(x), KeysOf(y), Comparing(x, y), i, k);
      FirstIsOnly(y, k, x[i].key);
    }
  }

  lemma FoundForIsPaired(x: seq<Field>, y: seq<Field>, k: nat)
    requires Distinct(KeysOf(x)) && k < |y|
    ensures FoundFor(x, y[k]) <==> RightPaired(KeysOf(x), KeysOf(y), Comparing(x, y), k)
  {
    if FoundFor(x, y[k]) {
      var i :| 0 <= i < |x| && FirstAt(x, i, y[k].key) && Compare(x[i].value, y[k].value);
      assert Pairs(KeysOf(x), KeysOf(y), Comparing(x, y), i, k);
    }
    if RightPaired(KeysOf(x), KeysOf(y), Comparing(x, y), k) {
      var i: nat :| Pairs(KeysOf(x), KeysOf(y), Comparing(x, y), i, k);
      FirstIsOnly(x, i, y[k].key);
    }
  }

  /** The engine's comparison is the RFC's on values in which no name repeats. */
  lemma {:induction false} CompareIsEqual(a: Json, b: Json)
    requires NoRepeats(a) && NoRepeats(b)
    ensures Compare(a, b) <==> Equal(a, b)
    decreases a
  {
    match (a, b) {
      case (Arr(x), Arr(y)) =>
        if |x| == |y| {
          forall i | 0 <= i < |x| ensures Compare(x[i], y[i]) <==> Equal(x[i], y[i]) {
            CompareIsEqual(x[i], y[i]);
          }
        }
      case (Obj(x), Obj(y)) =>
        forall i, k | 0 <= i < |x| && 0 <= k < |y|
          ensures SameVerdict(x, i, y, k)
        {
          CompareIsEqual(x[i].value, y[k].value);
        }
        EqualObjects(x, y);
      case _ =>
    }
  }

  lemma EqualIsPaired(x: seq<Field>, i: nat, y: seq<Field>)
    requires i < |x|
    requires forall k :: 0 <= k < |y| ==> SameVerdict(x, i, y, k)
    ensures EqualMember(x[i], y) <==> LeftPaired(KeysOf(x), KeysOf(y), Comparing(x, y), i)
  {
    if EqualMember(x[i], y) {
      var k :| 0 <= k < |y| && x[i].key == y[k].key && Equal(x[i].value, y[k].value);
      assert SameVerdict(x, i, y, k);
      assert Pairs(KeysOf(x), KeysOf(y), Comparing(x, y), i, k);
    }
    if LeftPaired(KeysOf(x), KeysOf(y), Comparing(x, y), i) {
      var k: nat :| Pairs(KeysOf(x), KeysOf(y), Comparing(x, y), i, k);
      assert SameVerdict(x, i, y, k);
      assert x[i].key == y[k].key && Equal(x[i].value, y[k].value);
    }
  }

  ghost predicate SameVerdict(x: seq<Field>, i: nat, y: seq<Field>, k: nat)
    requires i < |x| && k < |y|
  {
    Compare(x[i].value, y[k].value) <==> Equal(x[i].value, y[k].value)
  }

  lemma EqualObjects(x: seq<Field>, y: seq<Field>)
    requires Distinct(KeysOf(x)) && Distinct(KeysOf(y))
    requires forall i, k :: 0 <= i < |x| && 0 <= k < |y| ==> SameVerdict(x, i, y, k)
    ensures Compare(Obj(x), Obj(y)) <==> Equal(Obj(x), Obj(y))
  {
    var a, b, r := KeysOf(x), KeysOf(y), Comparing(x, y);
    forall i | 0 <= i < |x| ensures FoundIn(x[i], y) <==> LeftPaired(a, b, r, i) {
      FoundInIsPaired(x, i, y);
    }
    forall i | 0 <= i < |x| ensures EqualMember(x[i], y) <==> LeftPaired(a, b, r, i) {
      assert forall k :: 0 <= k < |y| ==> SameVerdict(x, i, y, k);
      EqualIsPaired(x, i, y);
    }
    forall k | 0 <= k < |y| ensures FoundFor(x, y[k]) <==> RightPaired(a, b, r, k) {
      FoundForIsPaired(x, y, k);
    }
    if forall i :: 0 <= i < |x| ==> LeftPaired(a, b, r, i) {
      PairedBothWays(a, b, r);
    }
  }

  /** Equality as section 4.6 has it; where a name repeats the RFC leaves it open, and the engine's is taken. */
  predicate RfcEqual(a: Json, b: Json) {
    if NoRepeats(a) && NoRepeats(b) then Equal(a, b) else Compare(a, b)
  }

  lemma RfcEqualIsCompare(a: Json, b: Json)
    ensures RfcEqual(a, b) <==> Compare(a, b)
  {
    if NoRepeats(a) && NoRepeats(b) {
      CompareIsEqual(a, b);
    }
  }

  // ----- operations: section 4 ----------------------------------------------------------

  /** What an operation does at the location its path names. */
  datatype Edit = Insert(value: Json) | Delete | Put(value: Json)

  function SetField(fields: seq<Field>, key: string, value: Json): seq<Field> {
    if fields == [] then [Field(key, value)]
    else if fields[0].key == key then [Field(key, value)] + fields[1..]
    else [fields[0]] + SetField(fields[1..], key, value)
  }

  function DropField(fields: seq<Field>, key: string): seq<Field> {
    if fields == [] then [] else if fields[0].key == key then fields[1..] else [fields[0]] + DropField(fields[1..], key)
  }

  function EditArray(items: seq<Json>, token: string, e: Edit): Option<seq<Json>> {
    match e
    case Insert(v) =>
      var i := InsertIndex(token, |items|);
      if i.Some? then Some(InsertAt(items, i.value, v)) else None
    case Delete =>
      var i := ElementIndex(token, |items|);
      if i.Some? then Some(RemoveAt(items, i.value)) else None
    case Put(v) =>
      var i := ElementIndex(token, |items|);
      if i.Some? then Some(items[i.value := v]) else None
  }

  function EditObject(fields: seq<Field>, key: string, e: Edit): Option<seq<Field>> {
    match e
    case Insert(v) => Some(SetField(fields, key, v))
    case Delete => if Lookup(fields, key).Some? then Some(DropField(fields, key)) else None
    case Put(v) => if Lookup(fields, key).Some? then Some(SetField(fields, key, v)) else None
  }

  /** The edit of a direct child. */
  function EditChild(doc: Json, token: string, e: Edit): Option<Json> {
    match doc
    case Arr(items) =>
      var r := EditArray(items, token, e);
      if r.Some? then Some(Arr(r.value)) else None
    case Obj(fields) =>
      var r := EditObject(fields, token, e);
      if r.Some? then Some(Obj(r.value)) else None
    case _ => None
  }

  /** The edit at a location; the whole document can be set but not deleted. */
  function EditAt(doc: Json, tokens: seq<string>, e: Edit): Option<Json>
    decreases |tokens|
  {
    if tokens == [] then
      match e
      case Delete => None
      case Insert(v) => Some(v)
      case Put(v) => Some(v)
    else if |tokens| == 1 then EditChild(doc, tokens[0], e)
    else
      var child := Child(doc, tokens[0]);
      if child.None? then None
      else
        var edited := EditAt(child.value, tokens[1..], e);
        if edited.None? then None else EditChild(doc, tokens[0], Put(edited.value))
  }

  /** An operation on a document; None when it is an error. */
  function Rfc6902(doc: Json, op: Op): Option<Json> {
    var tokens := Tokens(op.path);
    if tokens.None? then None
    else
      match op
      case Add(_, value) => EditAt(doc, tokens.value, Insert(value))
      case Remove(_) => EditAt(doc, tokens.value, Delete)
      case Replace(_, value) => EditAt(doc, tokens.value, Put(value))
      case Test(_, value) =>
        var found := At(doc, tokens.value);
        if found.Some? && RfcEqual(found.value, value) then Some(doc) else None
      case Move(from, _) =>
        var source := Tokens(from);
        if source.None? || source.value < tokens.value || At(doc, source.value).None? then None
        else
          var without := EditAt(doc, source.value, Delete);
          if without.None? then None else EditAt(without.value, tokens.value, Insert(At(doc, source.value).value))
      case Copy(from, _) =>
        var source := Tokens(from);
        if source.None? || At(doc, source.value).None? then None
        else EditAt(doc, tokens.value, Insert(At(doc, source.value).value))
  }

  // ----- when an edit applies -----------------------------------------------------------

  /** The tokens name a location where something can be added. */
  predicate Open(doc: Json, tokens: seq<string>) {
    tokens == []
    || (var m := |tokens| - 1;
        var parent := At(doc, tokens[..m]);
        && parent.Some?
        && (parent.value.Obj? || (parent.value.Arr? && InsertIndex(tokens[m], |parent.value.items|).Some?)))
  }

  predicate Applies(doc: Json, tokens: seq<string>, e: Edit) {
    match e
    case Insert(_) => Open(doc, tokens)
    case Delete => tokens != [] && At(doc, tokens).Some?
    case Put(_) => At(doc, tokens).Some?
  }

  lemma AtOne(doc: Json, token: string)
    ensures At(doc, [token]) == Child(doc, token)
  {
    assert [token][1..] == [];
    if Child(doc, token).Some? {
      assert At(Child(doc, token).value, []) == Child(doc, token);
    }
  }

  lemma EditChildApplies(doc: Json, token: string, e: Edit)
    ensures EditChild(doc, token, e).Some? <==> Applies(doc, [token], e)
  {
    AtOne(doc, token);
    assert [token][..0] == [] && At(doc, []) == Some(doc);
  }

  /** An edit succeeds exactly when its tokens name a suitable location. */
  lemma {:induction false} EditApplies(doc: Json, tokens: seq<string>, e: Edit)
    ensures EditAt(doc, tokens, e).Some? <==> Applies(doc, tokens, e)
    decreases |tokens|
  {
    if |tokens| == 1 {
      assert tokens == [tokens[0]];
      EditChildApplies(doc, tokens[0], e);
    } else if |tokens| > 1 {
      var child, m := Child(doc, tokens[0]), |tokens| - 1;
      assert tokens[..m][0] == tokens[0] && tokens[..m][1..] == tokens[1..][..m - 1];
      if child.Some? {
        EditApplies(child.value, tokens[1..], e);
        var edited := EditAt(child.value, tokens[1..], e);
        if edited.Some? {
          EditChildApplies(doc, tokens[0], Put(edited.value));
          AtOne(doc, tokens[0]);
        }
      }
    }
  }

  // ----- where the engine deviates ------------------------------------------------------

  predicate Applicable(doc: Json, path: string, e: Edit) {
    Tokens(path).Some? && Applies(doc, Tokens(path).value, e)
  }

  /** What the RFC finds at a path, and what the engine finds there in a list. */
  function RfcFinds(doc: Json, path: string): Option<Json> {
    if Tokens(path).Some? then At(doc, Tokens(path).value) else None
  }

  function EngineFinds(list: seq<Json>, path: string): Option<Json> {
    Int32Range(|list|);
    var i := ArrayIndex(path, Int32(|list|), false);
    if i.Some? then Some(list[i.value]) else None
  }

  predicate EngineAdds(list: seq<Json>, path: string) { ArrayIndex(path, Int32(|list|), true).Some? }

  /** The path names the size the engine reads, which is not the size: the value goes to the end, where it is not
      the same as at the named place. */
  predicate AppendsInstead(list: seq<Json>, path: string, value: Json) {
    var len := Int32(|list|);
    && path != "/-" && ArrayIndex(path, len, true) == Some(len)
    && exists i :: len <= i < |list| && 0 <= i && list[i] != value
  }

  /** The engine and the RFC part ways on this operation: the engine finds a place at the path where the RFC
      finds none or the other way round, the copy of a value fails, or the value is appended in the wrong place. */
  predicate Deviates(list: seq<Json>, op: Op, copyFails: bool) {
    var doc := Arr(list);
    match op
    case Add(path, value) =>
      || (EngineAdds(list, path) && !copyFails) != Applicable(doc, path, Insert(value))
      || (EngineAdds(list, path) && !copyFails && AppendsInstead(list, path, value))
    case Remove(path) => EngineFinds(list, path).Some? != Applicable(doc, path, Delete)
    case Replace(path, value) => (EngineFinds(list, path).Some? && !copyFails) != Applicable(doc, path, Put(value))
    case Test(path, value) =>
      var engine, rfc := EngineFinds(list, path), RfcFinds(doc, path);
      engine.Some? != rfc.Some? && Compare((if engine.Some? then engine else rfc).value, value)
    case Move(from, path) => MoveApplies(doc, from, path)
    case Copy(from, path) => RfcFinds(doc, from).Some? && Tokens(path).Some? && Open(doc, Tokens(path).value)
  }

  /** A move the RFC carries out: its source exists, does not contain the target, and the target is open once the
      source is gone. */
  predicate MoveApplies(doc: Json, from: string, path: string) {
    && Tokens(from).Some? && Tokens(path).Some?
    && Applies(doc, Tokens(from).value, Delete)
    && !(Tokens(from).value < Tokens(path).value)
    && var without := EditAt(doc, Tokens(from).value, Delete);
       without.Some? && Open(without.value, Tokens(path).value)
  }

  // ----- paths the engine reads ---------------------------------------------------------

  predicate PlainToken(s: string) { forall i :: 0 <= i < |s| ==> s[i] != '/' && s[i] != '~' }

  lemma {:induction false} PlainSegments(s: string)
    requires PlainToken(s)
    ensures Segments(s) == [s] && Unescape(s) == Some(s)
  {
    if s != "" {
      PlainSegments(s[1..]);
      assert s == [s[0]] + s[1..];
    }
  }

  /** A path of one plain token is that token. */
  lemma PlainTokens(path: string)
    requires path != "" && path[0] == '/' && PlainToken(path[1..])
    ensures Tokens(path) == Some([path[1..]])
  {
    PlainSegments(path[1..]);
    assert [path[1..]][1..] == [] && UnescapeAll([]) == Some([]);
    assert [path[1..]] + [] == [path[1..]];
  }

  /** Every path in which the engine sees an index is such a path. */
  lemma EnginePaths(path: string, len: int, append: bool)
    requires ArrayIndex(path, len, append).Some?
    ensures path != "" && path[0] == '/' && Tokens(path) == Some([path[1..]])
    ensures path != "/-" ==> path[1..] != "" && AllDigits(path[1..])
    ensures path != "/-" ==> ArrayIndex(path, len, append) == Some(Decimal(path[1..], |path[1..]|))
  {
    var tail := path[1..];
    if tail == "-" {
      assert path == "/" + tail;
    }
    assert PlainToken(tail);
    PlainTokens(path);
  }

  // ----- one operation ------------------------------------------------------------------

  /** A list as a document. */
  function Doc(r: Option<seq<Json>>): Option<Json> { if r.Some? then Some(Arr(r.value)) else None }

  lemma EditOne(list: seq<Json>, token: string, e: Edit)
    ensures EditAt(Arr(list), [token], e) == Doc(EditArray(list, token, e))
  {
  }

  /** The element the engine finds is the RFC's exactly when its digits are an index. */
  lemma FindsSame(list: seq<Json>, path: string)
    requires EngineFinds(list, path).Some?
    ensures var token := path[1..];
      && path != "" && Tokens(path) == Some([token])
      && 0 <= ArrayIndex(path, Int32(|list|), false).value < |list|
      && ElementIndex(token, |list|) ==
           (if IsIndex(token) then Some(ArrayIndex(path, Int32(|list|), false).value) else None)
      && RfcFinds(Arr(list), path) == if IsIndex(token) then EngineFinds(list, path) else None
  {
    Int32Range(|list|);
    EnginePaths(path, Int32(|list|), false);
    AtOne(Arr(list), path[1..]);
  }

  lemma RemoveFollows(list: seq<Json>, path: string)
    ensures Doc(ApplyOp(list, Remove(path), false)) == Rfc6902(Arr(list), Remove(path)) <==>
      !Deviates(list, Remove(path), false)
  {
    Int32Range(|list|);
    if Tokens(path).Some? {
      EditApplies(Arr(list), Tokens(path).value, Delete);
    }
    if EngineFinds(list, path).Some? {
      FindsSame(list, path);
      EditOne(list, path[1..], Delete);
    }
  }

  lemma ReplaceFollows(list: seq<Json>, path: string, value: Json, copyFails: bool)
    ensures var op := Replace(path, value);
      Doc(ApplyOp(list, op, copyFails)) == Rfc6902(Arr(list), op) <==> !Deviates(list, op, copyFails)
  {
    Int32Range(|list|);
    if Tokens(path).Some? {
      EditApplies(Arr(list), Tokens(path).value, Put(value));
    }
    if EngineFinds(list, path).Some? {
      FindsSame(list, path);
      EditOne(list, path[1..], Put(value));
    }
  }

  lemma TestFollows(list: seq<Json>, path: string, value: Json)
    ensures var op := Test(path, value);
      Doc(ApplyOp(list, op, false)) == Rfc6902(Arr(list), op) <==> !Deviates(list, op, false)
  {
    Int32Range(|list|);
    var rfc := RfcFinds(Arr(list), path);
    if rfc.Some? {
      RfcEqualIsCompare(rfc.value, value);
    }
    if EngineFinds(list, path).Some? {
      FindsSame(list, path);
    }
  }

  /** Appending is inserting at i exactly when the value is all there is from i on. */
  lemma {:induction false} SameFrom(list: seq<Json>, i: nat, k: nat, v: Json)
    requires i <= k < |list| && list + [v] == InsertAt(list, i, v)
    ensures list[k] == v
  {
    assert (list + [v])[k] == InsertAt(list, i, v)[k];
    if k > i {
      SameFrom(list, i, k - 1, v);
    }
  }

  lemma AppendIsInsert(list: seq<Json>, i: nat, v: Json)
    requires i <= |list|
    ensures list + [v] == InsertAt(list, i, v) <==> forall k :: i <= k < |list| ==> list[k] == v
  {
    if list + [v] == InsertAt(list, i, v) {
      forall k | i <= k < |list| ensures list[k] == v {
        SameFrom(list, i, k, v);
      }
    }
    if forall k :: i <= k < |list| ==> list[k] == v {
      assert forall k :: 0 <= k <= |list| ==> (list + [v])[k] == InsertAt(list, i, v)[k];
    }
  }

  /** Where the engine adds, and where the RFC adds. */
  lemma AddsSame(list: seq<Json>, path: string, value: Json)
    requires EngineAdds(list, path)
    ensures var token, len, i := path[1..], Int32(|list|), ArrayIndex(path, Int32(|list|), true).value;
      && path != "" && Tokens(path) == Some([token])
      && (path == "/-" ==> InsertIndex(token, |list|) == Some(|list|) && i == len)
      && (path != "/-" ==> i >= 0 && token != "-")
      && (path != "/-" ==> InsertIndex(token, |list|) == if IsIndex(token) then Some(i) else None)
  {
    Int32Range(|list|);
    EnginePaths(path, Int32(|list|), true);
    if path != "/-" {
      assert path[1..][0] != '-';
    }
  }

  lemma AddFollows(list: seq<Json>, path: string, value: Json, copyFails: bool)
    ensures var op := Add(path, value);
      Doc(ApplyOp(list, op, copyFails)) == Rfc6902(Arr(list), op) <==> !Deviates(list, op, copyFails)
  {
    Int32Range(|list|);
    if Tokens(path).Some? {
      EditApplies(Arr(list), Tokens(path).value, Insert(value));
    }
    if EngineAdds(list, path) && !copyFails {
      AddsSame(list, path, value);
      EditOne(list, path[1..], Insert(value));
      var i := ArrayIndex(path, Int32(|list|), true).value;
      if path == "/-" {
        AppendIsInsert(list, |list|, value);
      } else if IsIndex(path[1..]) && i == Int32(|list|) {
        AppendIsInsert(list, i, value);
      }
    }
  }

  lemma MoveFollows(list: seq<Json>, from: string, path: string)
    ensures var op := Move(from, path);
      Doc(ApplyOp(list, op, false)) == Rfc6902(Arr(list), op) <==> !Deviates(list, op, false)
  {
    var doc := Arr(list);
    if Tokens(from).Some? && Tokens(path).Some? {
      EditApplies(doc, Tokens(from).value, Delete);
      var without := EditAt(doc, Tokens(from).value, Delete);
      if without.Some? && At(doc, Tokens(from).value).Some? {
        EditApplies(without.value, Tokens(path).value, Insert(At(doc, Tokens(from).value).value));
      }
    }
  }

  lemma CopyFollows(list: seq<Json>, from: string, path: string)
    ensures var op := Copy(from, path);
      Doc(ApplyOp(list, op, false)) == Rfc6902(Arr(list), op) <==> !Deviates(list, op, false)
  {
    var found := RfcFinds(Arr(list), from);
    if found.Some? && Tokens(path).Some? {
      EditApplies(Arr(list), Tokens(path).value, Insert(found.value));
    }
  }

  /** The engine does what the RFC says of an operation if and only if the operation does not deviate. */
  lemma OperationFollowsRfc(list: seq<Json>, op: Op, copyFails: bool)
    ensures Doc(ApplyOp(list, op, copyFails)) == Rfc6902(Arr(list), op) <==> !Deviates(list, op, copyFails)
  {
    match op {
      case Add(path, value) => AddFollows(list, path, value, copyFails);
      case Remove(path) => RemoveFollows(list, path);
      case Replace(path, value) => ReplaceFollows(list, path, value, copyFails);
      case Test(path, value) => TestFollows(list, path, value);
      case Move(from, path) => MoveFollows(list, from, path);
      case Copy(from, path) => CopyFollows(list, from, path);
    }
  }

  // ----- the families of deviations -----------------------------------------------------

  /** Digits with a leading zero, other than zero itself. */
  predicate Padded(token: string) { |token| > 1 && AllDigits(token) && token[0] == '0' }

  /** The path is a slash and one token without escapes. */
  predicate OneToken(path: string) { path != "" && path[0] == '/' && PlainToken(path[1..]) }

  lemma OneTokenPlaces(list: seq<Json>, path: string)
    requires OneToken(path) && |list| <= 0x7fff_ffff
    ensures var token := path[1..];
      var padded := Padded(token) && Decimal(token, |token|) < |list|;
      && EngineFinds(list, path) == (if padded then Some(list[Decimal(token, |token|)]) else RfcFinds(Arr(list), path))
      && (padded ==> RfcFinds(Arr(list), path).None?)
  {
    Int32Range(|list|);
    PlainTokens(path);
    AtOne(Arr(list), path[1..]);
  }

  /** On a list whose size is a C int, among the paths of one token only zero-padded indices deviate, and every one
      in range does: the engine takes what the RFC rejects. */
  lemma PaddedIndicesDeviate(list: seq<Json>, path: string, value: Json)
    requires OneToken(path) && |list| <= 0x7fff_ffff
    ensures var token := path[1..];
      var padded, v := Padded(token), Decimal(token, |token|);
      && (Deviates(list, Add(path, value), false) <==> padded && v <= |list|)
      && (Deviates(list, Remove(path), false) <==> padded && v < |list|)
      && (Deviates(list, Replace(path, value), false) <==> padded && v < |list|)
      && (Deviates(list, Test(path, value), false) <==> padded && v < |list| && Compare(list[v], value))
  {
    Int32Range(|list|);
    PlainTokens(path);
    OneTokenPlaces(list, path);
    OneTokenAdds(list, path, value);
  }

  lemma OneTokenAdds(list: seq<Json>, path: string, value: Json)
    requires OneToken(path) && |list| <= 0x7fff_ffff
    ensures Deviates(list, Add(path, value), false) <==> Padded(path[1..]) && Decimal(path[1..], |path[1..]|) <= |list|
  {
    Int32Range(|list|);
    PlainTokens(path);
    var tokens := [path[1..]];
    assert tokens[..0] == [] && At(Arr(list), []) == Some(Arr(list));
    if path == "/-" {
      assert path[1..] == "-";
    }
  }

  /** A padded index that the engine takes and the RFC rejects. */
  lemma PaddedRemove(a: Json)
    ensures ApplyOp([a], Remove("/00"), false) == Some([]) && Rfc6902(Arr([a]), Remove("/00")) == None
    ensures Deviates([a], Remove("/00"), false)
  {
    var path := "/00";
    var token := path[1..];
    assert token == "00" && Decimal(token, 0) == 0 && Decimal(token, 1) == 0 && Decimal(token, 2) == 0;
    PaddedIndicesDeviate([a], path, a);
    OperationFollowsRfc([a], Remove(path), false);
    Int32Range(1);
    assert RemoveAt([a], 0) == [];
    PlainTokens(path);
    EditOne([a], token, Delete);
  }

  /** A path into an element, which the RFC follows and the engine rejects. */
  lemma NestedReplace(old_: Json, new_: Json)
    ensures var list := [Obj([Field("sd", old_)])];
      var op := Replace("/0/sd", new_);
      && ApplyOp(list, op, false) == None
      && Rfc6902(Arr(list), op) == Some(Arr([Obj([Field("sd", new_)])]))
      && Deviates(list, op, false)
  {
    var list, path := [Obj([Field("sd", old_)])], "/0/sd";
    NestedTokens();
    NestedEdit(old_, new_);
    OperationFollowsRfc(list, Replace(path, new_), false);
    assert path[1..][1] == '/';
    assert !AllDigits(path[1..]);
  }

  lemma NestedTokens()
    ensures Tokens("/0/sd") == Some(["0", "sd"])
  {
    PlainSegments("sd");
    PlainSegments("0");
    assert "/sd"[1..] == "sd" && "0/sd"[1..] == "/sd" && "/0/sd"[1..] == "0/sd";
    assert Segments("/sd") == ["", "sd"];
    assert Segments("0/sd") == [['0'] + ""] + ["", "sd"][1..];
    assert ['0'] + "" == "0" && ["", "sd"][1..] == ["sd"] && ["0"] + ["sd"] == ["0", "sd"];
    assert ["0", "sd"][1..] == ["sd"] && ["sd"][1..] == [] && ["sd"] + [] == ["sd"];
    assert UnescapeAll([]) == Some([]);
    assert UnescapeAll(["sd"]) == Some(["sd"]);
    assert UnescapeAll(["0", "sd"]) == Some(["0", "sd"]);
  }

  lemma NestedEdit(old_: Json, new_: Json)
    ensures EditAt(Arr([Obj([Field("sd", old_)])]), ["0", "sd"], Put(new_)) == Some(Arr([Obj([Field("sd", new_)])]))
  {
    var inner := Obj([Field("sd", old_)]);
    var tokens := ["0", "sd"];
    assert tokens[1..] == ["sd"];
    assert Decimal("0", 1) == 0;
    assert Child(Arr([inner]), "0") == Some(inner);
    assert Lookup(inner.fields, "sd") == Some(old_);
    assert [Field("sd", new_)] + inner.fields[1..] == [Field("sd", new_)];
    assert EditAt(inner, ["sd"], Put(new_)) == Some(Obj([Field("sd", new_)]));
    assert [inner][0 := Obj([Field("sd", new_)])] == [Obj([Field("sd", new_)])];
  }

  /** The first list whose size is not a C int: the engine finds nothing in it. */
  lemma TooLong(list: seq<Json>)
    requires |list| == 0x8000_0000
    ensures ApplyOp(list, Remove("/0"), false) == None
    ensures Rfc6902(Arr(list), Remove("/0")) == Some(Arr(RemoveAt(list, 0)))
    ensures Deviates(list, Remove("/0"), false)
  {
    var path := "/0";
    assert path[1..] == "0" && Decimal("0", 1) == 0;
    PlainTokens(path);
    EditOne(list, "0", Delete);
    OperationFollowsRfc(list, Remove(path), false);
  }

  // ----- whole documents ----------------------------------------------------------------

  function RfcItem(doc: Json, it: Item): Option<Json> {
    if PatchOpValid(it.op) then Rfc6902(doc, ParseOp(it.op)) else None
  }

  /** The document after the first n operations, as the RFC has it. */
  function RfcAfter(list: seq<Json>, items: seq<Item>, n: nat): Option<Json>
    requires n <= |items|
  {
    Fold(RfcItem, Arr(list), items, n)
  }

  predicate ItemDeviates(doc: Json, it: Item) {
    PatchOpValid(it.op) && doc.Arr? && Deviates(doc.items, ParseOp(it.op), it.copyFails)
  }

  /** None of the first n steps, as far as they are reached, is marked for the state it meets. */
  predicate NoneMarked<T, O>(g: (T, O) -> Option<T>, marked: (T, O) -> bool, t: T, ops: seq<O>, n: nat)
    requires n <= |ops|
  {
    n > 0 ==>
      && NoneMarked(g, marked, t, ops, n - 1)
      && (Fold(g, t, ops, n - 1).Some? ==> !marked(Fold(g, t, ops, n - 1).value, ops[n - 1]))
  }

  /** None of the first n operations, as far as they are reached, deviates on the document it meets. */
  predicate Follows(list: seq<Json>, items: seq<Item>, n: nat)
    requires n <= |items|
  {
    NoneMarked(RfcItem, ItemDeviates, Arr(list), items, n)
  }

  lemma ItemFollows(list: seq<Json>, it: Item)
    ensures Doc(ApplyItem(list, it)) == RfcItem(Arr(list), it) <==> !ItemDeviates(Arr(list), it)
  {
    if PatchOpValid(it.op) {
      OperationFollowsRfc(list, ParseOp(it.op), it.copyFails);
    }
  }

  function Lift<S, T>(d: S -> T, r: Option<S>): Option<T> { if r.Some? then Some(d(r.value)) else None }

  /** The two step functions agree on a step exactly when it is not marked. */
  ghost predicate MarksDifferences<S(!new), T, O(!new)>(
    d: S -> T, f: (S, O) -> Option<S>, g: (T, O) -> Option<T>, marked: (T, O) -> bool)
  {
    forall s, o :: (Lift(d, f(s, o)) == g(d(s), o)) <==> !marked(d(s), o)
  }

  ghost predicate AgreeAt<S, T, O>(d: S -> T, f: (S, O) -> Option<S>, g: (T, O) -> Option<T>, s: S, ops: seq<O>, k: nat)
    requires k <= |ops|
  {
    Lift(d, Fold(f, s, ops, k)) == Fold(g, d(s), ops, k)
  }

  /** Two folds agree on every prefix exactly when no step that is reached is marked. */
  lemma {:induction false} FoldsAgree<S(!new), T, O(!new)>(
    d: S -> T, f: (S, O) -> Option<S>, g: (T, O) -> Option<T>, marked: (T, O) -> bool, s: S, ops: seq<O>, n: nat)
    requires n <= |ops| && MarksDifferences(d, f, g, marked)
    ensures (forall k :: 0 <= k <= n ==> AgreeAt(d, f, g, s, ops, k)) <==> NoneMarked(g, marked, d(s), ops, n)
  {
    if n == 0 {
      assert AgreeAt(d, f, g, s, ops, 0);
    } else {
      FoldsAgree(d, f, g, marked, s, ops, n - 1);
      if NoneMarked(g, marked, d(s), ops, n - 1) {
        assert AgreeAt(d, f, g, s, ops, n - 1);
        StepAgrees(d, f, g, marked, s, ops, n);
      }
    }
  }

  lemma StepAgrees<S(!new), T, O(!new)>(
    d: S -> T, f: (S, O) -> Option<S>, g: (T, O) -> Option<T>, marked: (T, O) -> bool, s: S, ops: seq<O>, n: nat)
    requires 0 < n <= |ops| && MarksDifferences(d, f, g, marked) && AgreeAt(d, f, g, s, ops, n - 1)
    ensures var t := Fold(g, d(s), ops, n - 1);
      AgreeAt(d, f, g, s, ops, n) <==> (t.Some? ==> !marked(t.value, ops[n - 1]))
  {
    var before := Fold(f, s, ops, n - 1);
    if before.Some? {
      assert (Lift(d, f(before.value, ops[n - 1])) == g(d(before.value), ops[n - 1])) <==>
        !marked(d(before.value), ops[n - 1]);
    }
  }

  /** After k operations the engine and the RFC have the same document, or have both rejected the patch. */
  ghost predicate SameAfter(list: seq<Json>, items: seq<Item>, k: nat)
    requires k <= |items|
  {
    Doc(ApplyOps(list, items, k)) == RfcAfter(list, items, k)
  }

  /** The engine and the RFC have the same document after each of the first n operations, up to and including a
      rejection, if and only if no operation that is reached deviates. */
  lemma DocumentFollowsRfc(list: seq<Json>, items: seq<Item>, n: nat)
    requires n <= |items|
    ensures (forall k :: 0 <= k <= n ==> SameAfter(list, items, k)) <==> Follows(list, items, n)
  {
    StepsAreMarked();
    var d := (l: seq<Json>) => Arr(l);
    FoldsAgree(d, ApplyItem, RfcItem, ItemDeviates, list, items, n);
    forall k | 0 <= k <= n ensures AgreeAt(d, ApplyItem, RfcItem, list, items, k) <==> SameAfter(list, items, k) {
      LiftIsDoc(ApplyOps(list, items, k));
    }
  }

  lemma LiftIsDoc(r: Option<seq<Json>>)
    ensures Lift((l: seq<Json>) => Arr(l), r) == Doc(r)
  {
  }

  lemma StepsAreMarked()
    ensures MarksDifferences((l: seq<Json>) => Arr(l), ApplyItem, RfcItem, ItemDeviates)
  {
    var d := (l: seq<Json>) => Arr(l);
    forall l, it ensures (Lift(d, ApplyItem(l, it)) == RfcItem(d(l), it)) <==> !ItemDeviates(d(l), it) {
      ItemFollows(l, it);
      LiftIsDoc(ApplyItem(l, it));
    }
  }

  /** On a list whose size is a C int, one of the two rejects an operation that deviates. */
  lemma DeviationRejects(list: seq<Json>, it: Item)
    requires |list| <= 0x7fff_ffff && ItemDeviates(Arr(list), it)
    ensures ApplyItem(list, it).None? || RfcItem(Arr(list), it).None?
  {
    Int32Range(|list|);
    var op := ParseOp(it.op);
    if Tokens(op.path).Some? && (op.Add? || op.Remove? || op.Replace?) {
      var e := if op.Add? then Insert(op.value) else if op.Remove? then Delete else Put(op.value);
      EditApplies(Arr(list), Tokens(op.path).value, e);
    }
  }

  lemma ItemGrows(list: seq<Json>, it: Item)
    ensures ApplyItem(list, it).Some? ==> |ApplyItem(list, it).value| <= |list| + 1
  {
  }

  /** A step adds at most one to the size. */
  ghost predicate GrowsByOne<S(!new), O(!new)>(f: (S, O) -> Option<S>, size: S -> nat) {
    forall s, o :: f(s, o).Some? ==> size(f(s, o).value) <= size(s) + 1
  }

  /** On states up to a size, one of the two rejects a marked step. */
  ghost predicate MarkedRejects<S(!new), T, O(!new)>(
    d: S -> T, f: (S, O) -> Option<S>, g: (T, O) -> Option<T>, marked: (T, O) -> bool, size: S -> nat, limit: nat)
  {
    forall s, o :: size(s) <= limit && marked(d(s), o) ==> f(s, o).None? || g(d(s), o).None?
  }

  /** A run that has met a marked step is rejected by one of the two from there on. */
  lemma {:induction false} MarkStays<S(!new), T, O(!new)>(
    d: S -> T, f: (S, O) -> Option<S>, g: (T, O) -> Option<T>, marked: (T, O) -> bool, size: S -> nat, limit: nat,
    s: S, ops: seq<O>, n: nat)
    requires n <= |ops| && size(s) + n <= limit
    requires MarksDifferences(d, f, g, marked) && GrowsByOne(f, size) && MarkedRejects(d, f, g, marked, size, limit)
    ensures NoneMarked(g, marked, d(s), ops, n) || Fold(f, s, ops, n).None? || Fold(g, d(s), ops, n).None?
    ensures Fold(f, s, ops, n).Some? ==> size(Fold(f, s, ops, n).value) <= size(s) + n
  {
    if n > 0 {
      MarkStays(d, f, g, marked, size, limit, s, ops, n - 1);
      FoldsAgree(d, f, g, marked, s, ops, n - 1);
      var before := Fold(f, s, ops, n - 1);
      if before.Some? {
        assert f(before.value, ops[n - 1]).Some? ==> size(f(before.value, ops[n - 1]).value) <= size(before.value) + 1;
        if NoneMarked(g, marked, d(s), ops, n - 1) {
          assert AgreeAt(d, f, g, s, ops, n - 1);
          assert marked(d(before.value), ops[n - 1]) ==>
            f(before.value, ops[n - 1]).None? || g(d(before.value), ops[n - 1]).None?;
        }
      }
    }
  }

  ghost function Size(): seq<Json> -> nat { (l: seq<Json>) => |l| }

  lemma ItemsGrowByOne()
    ensures GrowsByOne(ApplyItem, Size())
  {
    forall l, it ensures ApplyItem(l, it).Some? ==> Size()(ApplyItem(l, it).value) <= Size()(l) + 1 {
      ItemGrows(l, it);
    }
  }

  lemma DeviationsReject()
    ensures MarkedRejects((l: seq<Json>) => Arr(l), ApplyItem, RfcItem, ItemDeviates, Size(), 0x7fff_ffff)
  {
    var d := (l: seq<Json>) => Arr(l);
    forall l, it | Size()(l) <= 0x7fff_ffff && ItemDeviates(d(l), it)
      ensures ApplyItem(l, it).None? || RfcItem(d(l), it).None?
    {
      DeviationRejects(l, it);
    }
  }

  /** The outcome of a patch whose lists stay within the C int is the RFC's if and only if no operation that is
      reached deviates, or both reject the patch in the end. */
  lemma OutcomeFollowsRfc(list: seq<Json>, items: seq<Item>)
    requires |list| + |items| <= 0x7fff_ffff
    ensures SameAfter(list, items, |items|) <==>
      Follows(list, items, |items|) || (ApplyOps(list, items, |items|).None? && RfcAfter(list, items, |items|).None?)
  {
    StepsAreMarked();
    ItemsGrowByOne();
    DeviationsReject();
    MarkStays((l: seq<Json>) => Arr(l), ApplyItem, RfcItem, ItemDeviates, Size(), 0x7fff_ffff, list, items, |items|);
    DocumentFollowsRfc(list, items, |items|);
  }
}
