/**
 Inlining of schema references over a finite set of files that may refer to each other in
 cycles.
 */
module SchemaExpand {
  import opened Wrappers

  // ----- names and classification -------------------------------------------------------

  /** The part behind the last occurrence of c; everything when there is none. */
  function AfterLast(s: string, c: char): string
    decreases |s|
  {
    if s == "" || s[|s| - 1] == c then "" else AfterLast(s[..|s| - 1], c) + [s[|s| - 1]]
  }

  function Before(s: string, c: char): string {
    if s == "" || s[0] == c then "" else [s[0]] + Before(s[1..], c)
  }

  /** The part behind the first occurrence of c. */
  function After(s: string, c: char): string {
    if s == "" then "" else if s[0] == c then s[1..] else After(s[1..], c)
  }

  /** The schema name in a reference. */
  function NameOf(ref: string): string {
    if "#/" <= ref then AfterLast(ref[1..], '/')
    else if '#' !in ref then ref
    else AfterLast(After(ref, '#'), '/')
  }

  datatype Class = ProblemDetailsResponse | ExternalCommonData | ImplementationBlocker

  datatype Entry = Entry(ref: string, class_: Class)

  predicate Digit(c: char, lo: char, hi: char) { lo <= c <= hi }

  /** A response slot: "default" or a three-digit status code, with or without a final line feed. */
  predicate StatusCode(name: string) {
    || name == "default" || name == "default\n"
    || ((|name| == 3 || (|name| == 4 && name[3] == '\n'))
        && Digit(name[0], '1', '5') && Digit(name[1], '0', '9') && Digit(name[2], '0', '9'))
  }

  /** _classify_unresolved_ref, without the texts. */
  function Classify(ref: string): Entry {
    var name := AfterLast(ref, '/');
    var file := if '#' in ref then Before(ref, '#') else "";
    Entry(ref,
          if StatusCode(name) || name == "ProblemDetails" then ProblemDetailsResponse
          else if "TS29571_CommonData" <= file then ExternalCommonData
          else ImplementationBlocker)
  }

  // ----- schemas, files and nodes -------------------------------------------------------

  datatype Property = Property(name: string, schema: Schema)

  datatype PropertyMap = Absent | Listed(list: seq<Property>)

  datatype Additional = NotGiven | Forbidden | AnyType | Typed(schema: Schema)

  /** A schema mapping, or nothing where one was expected. */
  datatype Schema =
    | Missing
    | Schema(ref: Option<string>, kind: string, attributes: seq<string>, items: Option<Schema>,
             properties: PropertyMap, required: seq<string>, allOf: seq<Schema>, additional: Additional)

  const EMPTY := Schema(None, "", [], None, Absent, [], [], NotGiven)

  /** Where a reference leads: the schema and the file it is expanded in. */
  datatype Target = Target(file: string, schema: Schema)

  /** The references that resolve, by the file they stand in. */
  type World = map<(string, string), Target>

  type Key = (string, string)

  function KeyOf(ref: string, target: Target): Key { (target.file, NameOf(ref)) }

  function Keys(w: World): set<Key> { set at | at in w :: KeyOf(at.1, w[at]) }

  datatype Member = Member(name: string, required: bool, node: Node)

  /** The reference a schema was inlined from, with the key that is being expanded below it. */
  datatype Inline = Inline(ref: string, key: Key)

  /** A node of the output. Cycle markers and inlined objects carry their reference and key here; the
      emitted text shows the name of the one and the reference of the other. */
  datatype Node =
    | Unknown
    | Topic(id: string)
    | Unresolved(ref: string)
    | Cycle(ref: string, key: Key)
    | Array(items: Node)
    | Leaf(kind: string, attributes: seq<string>)
    | AnyNode
    | Object(members: seq<Member>, additional: Option<Node>, inlined: Option<Inline>)

  /** A node, and the entries appended to the list of unresolved references. */
  datatype Out = Out(node: Node, unresolved: seq<Entry>)
  datatype Members = Members(list: seq<Member>, unresolved: seq<Entry>)

  type Index = map<string, string>

  predicate Linked(index: Index, name: string) { name in index && index[name] != "" }

  predicate Resolves(w: World, file: string, ref: string) { (file, ref) in w && w[(file, ref)].schema.Schema? }

  /** A reference that is followed: it resolves, and no topic stands for it. */
  predicate Leads(w: World, index: Index, file: string, ref: string) {
    !Linked(index, NameOf(ref)) && Resolves(w, file, ref)
  }

  // ----- expansion ----------------------------------------------------------------------

  function Unvisited(w: World, visited: set<Key>): nat { |Keys(w) - visited| }

  lemma VisitShrinks(w: World, visited: set<Key>, file: string, ref: string)
    requires (file, ref) in w && KeyOf(ref, w[(file, ref)]) !in visited
    ensures Unvisited(w, visited + {KeyOf(ref, w[(file, ref)])}) < Unvisited(w, visited)
  {
    var key := KeyOf(ref, w[(file, ref)]);
    assert key in Keys(w);
    assert Keys(w) - (visited + {key}) == (Keys(w) - visited) - {key};
  }

  predicate IsObject(s: Schema)
    requires s.Schema?
  {
    s.kind == "object" || s.properties.Listed? || !s.additional.NotGiven?
  }

  function LeafOf(s: Schema): Node
    requires s.Schema?
  {
    Leaf(if s.kind == "" && s.attributes == [] then "object" else s.kind, s.attributes)
  }

  function PropertiesOf(s: Schema): seq<Property>
    requires s.Schema?
  {
    if s.properties.Absent? then [] else s.properties.list
  }

  /** Arms of an allOf that are expanded: those with properties or required names. */
  predicate ArmCounts(arm: Schema) {
    arm.Schema? && (PropertiesOf(arm) != [] || arm.required != [])
  }

  /** _resolve_to_node. */
  function Resolve(w: World, index: Index, s: Schema, file: string, visited: set<Key>): Out
    decreases Unvisited(w, visited), s, 2
  {
    if s.Missing? then Out(Unknown, [])
    else if s.ref.Some? then
      var ref := s.ref.value;
      if Linked(index, NameOf(ref)) then Out(Topic(index[NameOf(ref)]), [])
      else if !Resolves(w, file, ref) then Out(Unresolved(ref), [Classify(ref)])
      else
        var target := w[(file, ref)];
        var key := KeyOf(ref, target);
        if key in visited then Out(Cycle(ref, key), [])
        else
          VisitShrinks(w, visited, file, ref);
          SchemaNode(w, index, target.schema, target.file, visited + {key}, Some(Inline(ref, key)))
    else if s.kind == "array" then
      if s.items.None? || s.items.value.Missing? then Out(Array(LeafOf(EMPTY)), [])
      else
        var items := Resolve(w, index, s.items.value, file, visited);
        Out(Array(items.node), items.unresolved)
    else if IsObject(s) then SchemaNode(w, index, s, file, visited, None)
    else Out(LeafOf(s), [])
  }

  /** _schema_node. */
  function SchemaNode(w: World, index: Index, s: Schema, file: string, visited: set<Key>, inlined: Option<Inline>): Out
    requires s.Schema?
    decreases Unvisited(w, visited), s, 1
  {
    var own := OwnMembers(w, index, s, file, visited, |PropertiesOf(s)|);
    var arms := ArmMembers(w, index, s, file, visited, |s.allOf|);
    var extra := if s.additional.Typed? then Resolve(w, index, s.additional.schema, file, visited)
                 else Out(AnyNode, []);
    Out(Object(own.list + arms.list,
               if s.additional.Typed? || s.additional.AnyType? then Some(extra.node) else None, inlined),
        own.unresolved + arms.unresolved + extra.unresolved)
  }

  function OwnMembers(w: World, index: Index, s: Schema, file: string, visited: set<Key>, n: nat): Members
    requires s.Schema? && n <= |PropertiesOf(s)|
    decreases Unvisited(w, visited), s, 0, n
  {
    if n == 0 then Members([], [])
    else
      var before, p := OwnMembers(w, index, s, file, visited, n - 1), PropertiesOf(s)[n - 1];
      var r := Resolve(w, index, p.schema, file, visited);
      Members(before.list + [Member(p.name, p.name in s.required, r.node)], before.unresolved + r.unresolved)
  }

  function ArmMembers(w: World, index: Index, s: Schema, file: string, visited: set<Key>, n: nat): Members
    requires s.Schema? && n <= |s.allOf|
    decreases Unvisited(w, visited), s, 0, n
  {
    if n == 0 then Members([], [])
    else
      var before := ArmMembers(w, index, s, file, visited, n - 1);
      if !ArmCounts(s.allOf[n - 1]) then before
      else
        var r := SchemaNode(w, index, s.allOf[n - 1], file, visited, None);
        Members(before.list + r.node.members, before.unresolved + r.unresolved)
  }

  // ----- what an expansion looks like ---------------------------------------------------

  /** The references of the unresolved markers, in the order of the output. */
  function Markers(n: Node): seq<string>
    decreases n, 0
  {
    match n
    case Unresolved(ref) => [ref]
    case Array(items) => Markers(items)
    case Object(members, additional, _) =>
      MemberMarkers(members) + if additional.Some? then Markers(additional.value) else []
    case _ => []
  }

  function MemberMarkers(ms: seq<Member>): seq<string>
    decreases ms, 1
  {
    if ms == [] then [] else MemberMarkers(ms[..|ms| - 1]) + Markers(ms[|ms| - 1].node)
  }

  function Classified(refs: seq<string>): seq<Entry> { seq(|refs|, i requires 0 <= i < |refs| => Classify(refs[i])) }

  /** Where a node stands: the file its references are read in, and the keys that are being expanded. */
  datatype Scope = Scope(w: World, index: Index, file: string, open: set<Key>)

  /** The scope below a node. */
  function Inside(c: Scope, inlined: Option<Inline>): Scope {
    if inlined.Some? then c.(file := inlined.value.key.0, open := c.open + {inlined.value.key}) else c
  }

  /** The reference is followed from here and leads to that key. */
  predicate LeadsTo(c: Scope, ref: string, key: Key) {
    Leads(c.w, c.index, c.file, ref) && key == KeyOf(ref, c.w[(c.file, ref)])
  }

  /** What became of every reference, decided by the files and by what encloses the node: topic links come
      from the index; a marker of an unresolved reference stands where it does not resolve; a cycle marker
      stands exactly for a key that an enclosing node is expanding, and an inlined schema for one that
      none is expanding. */
  predicate WellExpanded(c: Scope, n: Node)
    decreases n, 0
  {
    match n
    case Topic(id) => id in c.index.Values && id != ""
    case Cycle(ref, key) => LeadsTo(c, ref, key) && key in c.open
    case Unresolved(ref) => !Linked(c.index, NameOf(ref)) && !Resolves(c.w, c.file, ref)
    case Array(items) => WellExpanded(c, items)
    case Object(members, additional, inlined) =>
      && (inlined.Some? ==> LeadsTo(c, inlined.value.ref, inlined.value.key) && inlined.value.key !in c.open)
      && MembersWell(Inside(c, inlined), members)
      && (additional.Some? ==> WellExpanded(Inside(c, inlined), additional.value))
    case _ => true
  }

  predicate MembersWell(c: Scope, ms: seq<Member>)
    decreases ms, 1
  {
    ms == [] || (MembersWell(c, ms[..|ms| - 1]) && WellExpanded(c, ms[|ms| - 1].node))
  }

  /** How many inlined schemas are nested in each other. */
  function Depth(n: Node): nat
    decreases n, 0
  {
    match n
    case Array(items) => Depth(items)
    case Object(members, additional, inlined) =>
      var inner := MembersDepth(members);
      var extra := if additional.Some? then Depth(additional.value) else 0;
      (if inlined.Some? then 1 else 0) + if inner < extra then extra else inner
    case _ => 0
  }

  function MembersDepth(ms: seq<Member>): nat
    decreases ms, 1
  {
    if ms == [] then 0
    else
      var before, last := MembersDepth(ms[..|ms| - 1]), Depth(ms[|ms| - 1].node);
      if before < last then last else before
  }

  // ----- when the list of unresolved references is exact --------------------------------

  /** `a` is `b` with some entries left out. */
  predicate Subsequence(a: seq<Entry>, b: seq<Entry>)
    decreases |b|
  {
    if b == [] then a == []
    else
      var m := |b| - 1;
      (a != [] && a[|a| - 1] == b[m] && Subsequence(a[..|a| - 1], b[..m])) || Subsequence(a, b[..m])
  }

  /** Every reference that is reached has a topic, is being expanded, or resolves. */
  predicate Clean(w: World, index: Index, s: Schema, file: string, visited: set<Key>)
    decreases Unvisited(w, visited), s, 2
  {
    if s.Missing? then true
    else if s.ref.Some? then
      var ref := s.ref.value;
      if Linked(index, NameOf(ref)) then true
      else if !Resolves(w, file, ref) then false
      else
        var target := w[(file, ref)];
        if KeyOf(ref, target) in visited then true
        else
          VisitShrinks(w, visited, file, ref);
          CleanNode(w, index, target.schema, target.file, visited + {KeyOf(ref, target)})
    else if s.kind == "array" then
      s.items.Some? ==> Clean(w, index, s.items.value, file, visited)
    else IsObject(s) ==> CleanNode(w, index, s, file, visited)
  }

  predicate CleanNode(w: World, index: Index, s: Schema, file: string, visited: set<Key>)
    requires s.Schema?
    decreases Unvisited(w, visited), s, 1
  {
    && CleanOwn(w, index, s, file, visited, |PropertiesOf(s)|)
    && CleanArms(w, index, s, file, visited, |s.allOf|)
    && (s.additional.Typed? ==> Clean(w, index, s.additional.schema, file, visited))
  }

  predicate CleanOwn(w: World, index: Index, s: Schema, file: string, visited: set<Key>, n: nat)
    requires s.Schema? && n <= |PropertiesOf(s)|
    decreases Unvisited(w, visited), s, 0, n
  {
    n > 0 ==>
      && CleanOwn(w, index, s, file, visited, n - 1)
      && Clean(w, index, PropertiesOf(s)[n - 1].schema, file, visited)
  }

  predicate CleanArms(w: World, index: Index, s: Schema, file: string, visited: set<Key>, n: nat)
    requires s.Schema? && n <= |s.allOf|
    decreases Unvisited(w, visited), s, 0, n
  {
    n > 0 ==>
      && CleanArms(w, index, s, file, visited, n - 1)
      && (ArmCounts(s.allOf[n - 1]) ==> CleanNode(w, index, s.allOf[n - 1], file, visited))
  }

  /** An expansion reports nothing exactly when every reference it reaches is in order. */
  lemma {:induction false} CleanReportsNothing(w: World, index: Index, s: Schema, file: string, visited: set<Key>)
    ensures Resolve(w, index, s, file, visited).unresolved == [] <==> Clean(w, index, s, file, visited)
    decreases Unvisited(w, visited), s, 2
  {
    if s.Schema? && s.ref.Some? {
      var ref := s.ref.value;
      if Leads(w, index, file, ref) && KeyOf(ref, w[(file, ref)]) !in visited {
        var target := w[(file, ref)];
        VisitShrinks(w, visited, file, ref);
        CleanNodeReportsNothing(w, index, target.schema, target.file, visited + {KeyOf(ref, target)},
                                Some(Inline(ref, KeyOf(ref, target))));
      }
    } else if s.Schema? && s.kind == "array" {
      if s.items.Some? && s.items.value.Schema? {
        CleanReportsNothing(w, index, s.items.value, file, visited);
      }
    } else if s.Schema? && IsObject(s) {
      CleanNodeReportsNothing(w, index, s, file, visited, None);
    }
  }

  lemma {:induction false} CleanNodeReportsNothing(w: World, index: Index, s: Schema, file: string, visited: set<Key>,
                                                   inlined: Option<Inline>)
    requires s.Schema?
    ensures SchemaNode(w, index, s, file, visited, inlined).unresolved == [] <==> CleanNode(w, index, s, file, visited)
    decreases Unvisited(w, visited), s, 1
  {
    CleanOwnReportsNothing(w, index, s, file, visited, |PropertiesOf(s)|);
    CleanArmsReportNothing(w, index, s, file, visited, |s.allOf|);
    if s.additional.Typed? {
      CleanReportsNothing(w, index, s.additional.schema, file, visited);
    }
  }

  lemma {:induction false} CleanOwnReportsNothing(w: World, index: Index, s: Schema, file: string, visited: set<Key>,
                                                  n: nat)
    requires s.Schema? && n <= |PropertiesOf(s)|
    ensures OwnMembers(w, index, s, file, visited, n).unresolved == [] <==> CleanOwn(w, index, s, file, visited, n)
    decreases Unvisited(w, visited), s, 0, n
  {
    if n > 0 {
      CleanOwnReportsNothing(w, index, s, file, visited, n - 1);
      CleanReportsNothing(w, index, PropertiesOf(s)[n - 1].schema, file, visited);
    }
  }

  lemma {:induction false} CleanArmsReportNothing(w: World, index: Index, s: Schema, file: string, visited: set<Key>,
                                                  n: nat)
    requires s.Schema? && n <= |s.allOf|
    ensures ArmMembers(w, index, s, file, visited, n).unresolved == [] <==> CleanArms(w, index, s, file, visited, n)
    decreases Unvisited(w, visited), s, 0, n
  {
    if n > 0 {
      CleanArmsReportNothing(w, index, s, file, visited, n - 1);
      if ArmCounts(s.allOf[n - 1]) {
        CleanNodeReportsNothing(w, index, s.allOf[n - 1], file, visited, None);
      }
    }
  }

  /** No reference fails to resolve below the additionalProperties of an allOf arm that is expanded: the
      node for these is built, and reports what it cannot resolve, but is not kept. */
  predicate Quiet(w: World, index: Index, s: Schema, file: string, visited: set<Key>)
    decreases Unvisited(w, visited), s, 2
  {
    if s.Missing? then true
    else if s.ref.Some? then
      var ref := s.ref.value;
      if !Leads(w, index, file, ref) then true
      else
        var target := w[(file, ref)];
        if KeyOf(ref, target) in visited then true
        else
          VisitShrinks(w, visited, file, ref);
          QuietNode(w, index, target.schema, target.file, visited + {KeyOf(ref, target)})
    else if s.kind == "array" then
      s.items.Some? ==> Quiet(w, index, s.items.value, file, visited)
    else IsObject(s) ==> QuietNode(w, index, s, file, visited)
  }

  predicate QuietNode(w: World, index: Index, s: Schema, file: string, visited: set<Key>)
    requires s.Schema?
    decreases Unvisited(w, visited), s, 1
  {
    && QuietMembers(w, index, s, file, visited)
    && (s.additional.Typed? ==> Quiet(w, index, s.additional.schema, file, visited))
  }

  predicate QuietMembers(w: World, index: Index, s: Schema, file: string, visited: set<Key>)
    requires s.Schema?
    decreases Unvisited(w, visited), s, 0, |PropertiesOf(s)| + |s.allOf| + 1
  {
    QuietOwn(w, index, s, file, visited, |PropertiesOf(s)|) && QuietArms(w, index, s, file, visited, |s.allOf|)
  }

  predicate QuietOwn(w: World, index: Index, s: Schema, file: string, visited: set<Key>, n: nat)
    requires s.Schema? && n <= |PropertiesOf(s)|
    decreases Unvisited(w, visited), s, 0, n
  {
    n > 0 ==>
      && QuietOwn(w, index, s, file, visited, n - 1)
      && Quiet(w, index, PropertiesOf(s)[n - 1].schema, file, visited)
  }

  predicate QuietArms(w: World, index: Index, s: Schema, file: string, visited: set<Key>, n: nat)
    requires s.Schema? && n <= |s.allOf|
    decreases Unvisited(w, visited), s, 0, n
  {
    n > 0 ==>
      && QuietArms(w, index, s, file, visited, n - 1)
      && (ArmCounts(s.allOf[n - 1]) ==>
            && QuietMembers(w, index, s.allOf[n - 1], file, visited)
            && (s.allOf[n - 1].additional.Typed? ==>
                  Clean(w, index, s.allOf[n - 1].additional.schema, file, visited)))
  }

  lemma {:induction false} SubsequenceLength(a: seq<Entry>, b: seq<Entry>)
    requires Subsequence(a, b)
    ensures |a| <= |b| && (|a| == |b| ==> a == b)
    decreases |b|
  {
    if b != [] {
      var m := |b| - 1;
      if a != [] && a[|a| - 1] == b[m] && Subsequence(a[..|a| - 1], b[..m]) {
        SubsequenceLength(a[..|a| - 1], b[..m]);
        assert a == a[..|a| - 1] + [a[|a| - 1]] && b == b[..m] + [b[m]];
      } else {
        SubsequenceLength(a, b[..m]);
      }
    }
  }

  lemma {:induction false} SubsequenceAll(a: seq<Entry>)
    ensures Subsequence(a, a)
    decreases |a|
  {
    if a != [] {
      SubsequenceAll(a[..|a| - 1]);
    }
  }

  lemma {:induction false} SubsequenceConcat(a: seq<Entry>, b: seq<Entry>, c: seq<Entry>, d: seq<Entry>)
    requires Subsequence(a, b) && Subsequence(c, d)
    ensures Subsequence(a + c, b + d)
    decreases |d|
  {
    if d == [] {
      assert a + c == a && b + d == b;
    } else {
      var m := |d| - 1;
      assert (b + d)[..|b + d| - 1] == b + d[..m];
      if c != [] && c[|c| - 1] == d[m] && Subsequence(c[..|c| - 1], d[..m]) {
        SubsequenceConcat(a, b, c[..|c| - 1], d[..m]);
        assert (a + c)[..|a + c| - 1] == a + c[..|c| - 1];
      } else {
        SubsequenceConcat(a, b, c, d[..m]);
      }
    }
  }

  lemma SubsequenceMore(a: seq<Entry>, b: seq<Entry>, d: seq<Entry>)
    requires Subsequence(a, b)
    ensures Subsequence(a, b + d)
  {
    SubsequenceNone(d);
    SubsequenceConcat(a, b, [], d);
    assert a + [] == a;
  }

  lemma {:induction false} SubsequenceNone(d: seq<Entry>)
    ensures Subsequence([], d)
    decreases |d|
  {
    if d != [] {
      SubsequenceNone(d[..|d| - 1]);
    }
  }

  /** Every marker has its entry, in order; there are no further entries exactly when `quiet`. */
  ghost predicate Reported(markers: seq<string>, unresolved: seq<Entry>, quiet: bool) {
    Subsequence(Classified(markers), unresolved) && (|unresolved| == |markers| <==> quiet)
  }

  lemma ReportedConcat(a: seq<string>, ua: seq<Entry>, qa: bool, b: seq<string>, ub: seq<Entry>, qb: bool)
    requires Reported(a, ua, qa) && Reported(b, ub, qb)
    ensures Reported(a + b, ua + ub, qa && qb)
  {
    SubsequenceConcat(Classified(a), ua, Classified(b), ub);
    assert Classified(a + b) == Classified(a) + Classified(b);
    SubsequenceLength(Classified(a), ua);
    SubsequenceLength(Classified(b), ub);
  }

  lemma ReportedMore(a: seq<string>, ua: seq<Entry>, qa: bool, d: seq<Entry>)
    requires Reported(a, ua, qa)
    ensures Reported(a, ua + d, qa && d == [])
  {
    SubsequenceMore(Classified(a), ua, d);
    SubsequenceLength(Classified(a), ua);
  }

  // ----- every expansion looks like that ------------------------------------------------

  lemma {:induction false} MarkersConcat(a: seq<Member>, b: seq<Member>)
    ensures MemberMarkers(a + b) == MemberMarkers(a) + MemberMarkers(b)
    decreases |b|
  {
    if b == [] {
      assert a + b == a;
    } else {
      assert (a + b)[..|a + b| - 1] == a + b[..|b| - 1];
      MarkersConcat(a, b[..|b| - 1]);
    }
  }

  lemma {:induction false} DepthConcat(a: seq<Member>, b: seq<Member>)
    ensures MembersDepth(a + b) == if MembersDepth(a) < MembersDepth(b) then MembersDepth(b) else MembersDepth(a)
    decreases |b|
  {
    if b == [] {
      assert a + b == a;
    } else {
      assert (a + b)[..|a + b| - 1] == a + b[..|b| - 1];
      DepthConcat(a, b[..|b| - 1]);
    }
  }

  lemma {:induction false} WellConcat(c: Scope, a: seq<Member>, b: seq<Member>)
    requires MembersWell(c, a) && MembersWell(c, b)
    ensures MembersWell(c, a + b)
    decreases |b|
  {
    if b == [] {
      assert a + b == a;
    } else {
      assert (a + b)[..|a + b| - 1] == a + b[..|b| - 1];
      WellConcat(c, a, b[..|b| - 1]);
    }
  }

  lemma OneMember(c: Scope, m: Member)
    ensures MemberMarkers([m]) == Markers(m.node) && MembersDepth([m]) == Depth(m.node)
    ensures MembersWell(c, [m]) <==> WellExpanded(c, m.node)
  {
    assert [m][..0] == [];
  }

  ghost predicate Sound(c: Scope, o: Out, depth: nat, quiet: bool) {
    Reported(Markers(o.node), o.unresolved, quiet) && WellExpanded(c, o.node) && Depth(o.node) <= depth
  }

  ghost predicate MembersSound(c: Scope, o: Members, depth: nat, quiet: bool) {
    Reported(MemberMarkers(o.list), o.unresolved, quiet) && MembersWell(c, o.list) && MembersDepth(o.list) <= depth
  }

  lemma JoinSound(c: Scope, a: Members, b: Members, depth: nat, qa: bool, qb: bool)
    requires MembersSound(c, a, depth, qa) && MembersSound(c, b, depth, qb)
    ensures MembersSound(c, Members(a.list + b.list, a.unresolved + b.unresolved), depth, qa && qb)
  {
    MarkersConcat(a.list, b.list);
    DepthConcat(a.list, b.list);
    WellConcat(c, a.list, b.list);
    ReportedConcat(MemberMarkers(a.list), a.unresolved, qa, MemberMarkers(b.list), b.unresolved, qb);
  }

  predicate MayInline(c: Scope, from: Option<Inline>) {
    from.Some? ==> LeadsTo(c, from.value.ref, from.value.key) && from.value.key !in c.open
  }

  lemma ObjectSound(c: Scope, ms: Members, extra: Option<Out>, from: Option<Inline>, depth: nat, qm: bool, qe: bool)
    requires MembersSound(Inside(c, from), ms, depth, qm)
    requires if extra.Some? then Sound(Inside(c, from), extra.value, depth, qe) else qe
    requires MayInline(c, from)
    ensures Sound(c,
                  Out(Object(ms.list, if extra.Some? then Some(extra.value.node) else None, from),
                      ms.unresolved + if extra.Some? then extra.value.unresolved else []),
                  depth + if from.Some? then 1 else 0, qm && qe)
  {
    if extra.Some? {
      ReportedConcat(MemberMarkers(ms.list), ms.unresolved, qm, Markers(extra.value.node), extra.value.unresolved, qe);
    } else {
      assert MemberMarkers(ms.list) + [] == MemberMarkers(ms.list) && ms.unresolved + [] == ms.unresolved;
    }
  }

  /** Every expansion reports its markers, is well expanded and is no deeper than there are schemas left
      to visit. */
  lemma {:induction false} ResolveSound(w: World, index: Index, s: Schema, file: string, visited: set<Key>)
    ensures Sound(Scope(w, index, file, visited), Resolve(w, index, s, file, visited), Unvisited(w, visited),
                  Quiet(w, index, s, file, visited))
    decreases Unvisited(w, visited), s, 2
  {
    if s.Schema? && s.ref.Some? {
      ReferenceSound(w, index, s, file, visited);
    } else if s.Schema? {
      PlainSound(w, index, s, file, visited);
    }
  }

  lemma {:induction false} PlainSound(w: World, index: Index, s: Schema, file: string, visited: set<Key>)
    requires s.Schema? && s.ref.None?
    ensures Sound(Scope(w, index, file, visited), Resolve(w, index, s, file, visited), Unvisited(w, visited),
                  Quiet(w, index, s, file, visited))
    decreases Unvisited(w, visited), s, 1
  {
    if s.kind == "array" {
      ArraySound(w, index, s, file, visited);
    } else if IsObject(s) {
      SchemaNodeSound(w, index, s, file, visited, None, Scope(w, index, file, visited));
    } else {
      SilentSound(Scope(w, index, file, visited), LeafOf(s));
    }
  }

  lemma {:induction false} ArraySound(w: World, index: Index, s: Schema, file: string, visited: set<Key>)
    requires s.Schema? && s.ref.None? && s.kind == "array"
    ensures Sound(Scope(w, index, file, visited), Resolve(w, index, s, file, visited), Unvisited(w, visited),
                  Quiet(w, index, s, file, visited))
    decreases Unvisited(w, visited), s, 0
  {
    ArrayParts(w, index, s, file, visited);
    if s.items.Some? && s.items.value.Schema? {
      ResolveSound(w, index, s.items.value, file, visited);
      ArrayOfSound(Scope(w, index, file, visited), Resolve(w, index, s.items.value, file, visited),
                   Unvisited(w, visited), Quiet(w, index, s.items.value, file, visited));
    } else {
      SilentSound(Scope(w, index, file, visited), Array(LeafOf(EMPTY)));
    }
  }

  lemma ArrayParts(w: World, index: Index, s: Schema, file: string, visited: set<Key>)
    requires s.Schema? && s.ref.None? && s.kind == "array"
    ensures if s.items.Some? && s.items.value.Schema? then
        var items := Resolve(w, index, s.items.value, file, visited);
        && Resolve(w, index, s, file, visited) == Out(Array(items.node), items.unresolved)
        && Quiet(w, index, s, file, visited) == Quiet(w, index, s.items.value, file, visited)
      else
        && Resolve(w, index, s, file, visited) == Out(Array(LeafOf(EMPTY)), [])
        && Quiet(w, index, s, file, visited)
  {
  }

  lemma ArrayOfSound(c: Scope, o: Out, depth: nat, quiet: bool)
    requires Sound(c, o, depth, quiet)
    ensures Sound(c, Out(Array(o.node), o.unresolved), depth, quiet)
  {
  }

  lemma MarkerSound(c: Scope, ref: string)
    requires !Linked(c.index, NameOf(ref)) && !Resolves(c.w, c.file, ref)
    ensures Sound(c, Out(Unresolved(ref), [Classify(ref)]), 0, true)
  {
    SubsequenceAll([Classify(ref)]);
    assert Classified([ref]) == [Classify(ref)];
  }

  lemma {:induction false} ReferenceSound(w: World, index: Index, s: Schema, file: string, visited: set<Key>)
    requires s.Schema? && s.ref.Some?
    ensures Sound(Scope(w, index, file, visited), Resolve(w, index, s, file, visited), Unvisited(w, visited),
                  Quiet(w, index, s, file, visited))
    decreases Unvisited(w, visited), s, 1
  {
    var c, ref := Scope(w, index, file, visited), s.ref.value;
    if !Linked(index, NameOf(ref)) {
      if !Resolves(w, file, ref) {
        MarkerSound(c, ref);
      } else {
        var target := w[(file, ref)];
        var key := KeyOf(ref, target);
        if key in visited {
          SilentSound(c, Cycle(ref, key));
        } else {
          VisitShrinks(w, visited, file, ref);
          SchemaNodeSound(w, index, target.schema, target.file, visited + {key}, Some(Inline(ref, key)), c);
        }
      }
    } else {
      SilentSound(c, Topic(index[NameOf(ref)]));
    }
  }

  lemma {:induction false} SchemaNodeSound(w: World, index: Index, s: Schema, file: string, visited: set<Key>,
                                           from: Option<Inline>, c: Scope)
    requires s.Schema? && Scope(w, index, file, visited) == Inside(c, from) && MayInline(c, from)
    ensures Sound(c, SchemaNode(w, index, s, file, visited, from),
                  Unvisited(w, visited) + if from.Some? then 1 else 0, QuietNode(w, index, s, file, visited))
    decreases Unvisited(w, visited), s, 0, |PropertiesOf(s)| + |s.allOf| + 2
  {
    var depth := Unvisited(w, visited);
    AllMembersSound(w, index, s, file, visited);
    ExtraSound(w, index, s, file, visited);
    var extra := ExtraOf(w, index, s, file, visited);
    var quiet := s.additional.Typed? ==> Quiet(w, index, s.additional.schema, file, visited);
    SchemaNodeParts(w, index, s, file, visited, from);
    ObjectSound(c, AllMembers(w, index, s, file, visited), extra, from, depth, QuietMembers(w, index, s, file, visited),
                quiet);
  }

  lemma {:induction false} ExtraSound(w: World, index: Index, s: Schema, file: string, visited: set<Key>)
    requires s.Schema?
    ensures var extra := ExtraOf(w, index, s, file, visited);
      var quiet := s.additional.Typed? ==> Quiet(w, index, s.additional.schema, file, visited);
      if extra.Some? then Sound(Scope(w, index, file, visited), extra.value, Unvisited(w, visited), quiet) else quiet
    decreases Unvisited(w, visited), s, 0, 0
  {
    if s.additional.Typed? {
      ResolveSound(w, index, s.additional.schema, file, visited);
    } else {
      SilentSound(Scope(w, index, file, visited), AnyNode);
    }
  }

  lemma SilentSound(c: Scope, n: Node)
    requires Markers(n) == [] && WellExpanded(c, n) && Depth(n) == 0
    ensures Sound(c, Out(n, []), 0, true)
  {
    assert Classified([]) == [];
  }

  function ExtraOf(w: World, index: Index, s: Schema, file: string, visited: set<Key>): Option<Out>
    requires s.Schema?
  {
    if s.additional.Typed? then Some(Resolve(w, index, s.additional.schema, file, visited))
    else if s.additional.AnyType? then Some(Out(AnyNode, []))
    else None
  }

  function AllMembers(w: World, index: Index, s: Schema, file: string, visited: set<Key>): Members
    requires s.Schema?
  {
    var own := OwnMembers(w, index, s, file, visited, |PropertiesOf(s)|);
    var arms := ArmMembers(w, index, s, file, visited, |s.allOf|);
    Members(own.list + arms.list, own.unresolved + arms.unresolved)
  }

  lemma SchemaNodeParts(w: World, index: Index, s: Schema, file: string, visited: set<Key>, from: Option<Inline>)
    requires s.Schema?
    ensures var ms, extra := AllMembers(w, index, s, file, visited), ExtraOf(w, index, s, file, visited);
      SchemaNode(w, index, s, file, visited, from) ==
        Out(Object(ms.list, if extra.Some? then Some(extra.value.node) else None, from),
            ms.unresolved + if extra.Some? then extra.value.unresolved else [])
  {
  }

  lemma {:induction false} AllMembersSound(w: World, index: Index, s: Schema, file: string, visited: set<Key>)
    requires s.Schema?
    ensures MembersSound(Scope(w, index, file, visited), AllMembers(w, index, s, file, visited), Unvisited(w, visited),
                         QuietMembers(w, index, s, file, visited))
    decreases Unvisited(w, visited), s, 0, |PropertiesOf(s)| + |s.allOf| + 1
  {
    OwnSound(w, index, s, file, visited, |PropertiesOf(s)|);
    ArmsSound(w, index, s, file, visited, |s.allOf|);
    JoinSound(Scope(w, index, file, visited), OwnMembers(w, index, s, file, visited, |PropertiesOf(s)|),
              ArmMembers(w, index, s, file, visited, |s.allOf|),
              Unvisited(w, visited),
              QuietOwn(w, index, s, file, visited, |PropertiesOf(s)|),
              QuietArms(w, index, s, file, visited, |s.allOf|));
  }

  lemma {:induction false} OwnSound(w: World, index: Index, s: Schema, file: string, visited: set<Key>, n: nat)
    requires s.Schema? && n <= |PropertiesOf(s)|
    ensures MembersSound(Scope(w, index, file, visited), OwnMembers(w, index, s, file, visited, n),
                         Unvisited(w, visited), QuietOwn(w, index, s, file, visited, n))
    decreases Unvisited(w, visited), s, 0, n
  {
    if n > 0 {
      var p := PropertiesOf(s)[n - 1];
      OwnSound(w, index, s, file, visited, n - 1);
      ResolveSound(w, index, p.schema, file, visited);
      var r := Resolve(w, index, p.schema, file, visited);
      var m := Member(p.name, p.name in s.required, r.node);
      OneMember(Scope(w, index, file, visited), m);
      JoinSound(Scope(w, index, file, visited), OwnMembers(w, index, s, file, visited, n - 1),
                Members([m], r.unresolved), Unvisited(w, visited),
                QuietOwn(w, index, s, file, visited, n - 1), Quiet(w, index, p.schema, file, visited));
    }
  }

  /** An arm gives its members; what its additionalProperties reported has no marker in the output. */
  lemma {:induction false} ArmSound(w: World, index: Index, arm: Schema, file: string, visited: set<Key>)
    requires arm.Schema?
    ensures var r := SchemaNode(w, index, arm, file, visited, None);
      var quiet := QuietMembers(w, index, arm, file, visited)
        && (arm.additional.Typed? ==> Clean(w, index, arm.additional.schema, file, visited));
      MembersSound(Scope(w, index, file, visited), Members(r.node.members, r.unresolved), Unvisited(w, visited), quiet)
    decreases Unvisited(w, visited), arm, 0, |PropertiesOf(arm)| + |arm.allOf| + 2
  {
    AllMembersSound(w, index, arm, file, visited);
    var ms := AllMembers(w, index, arm, file, visited);
    if arm.additional.Typed? {
      CleanReportsNothing(w, index, arm.additional.schema, file, visited);
    }
    var dropped := if arm.additional.Typed? then Resolve(w, index, arm.additional.schema, file, visited).unresolved
                   else [];
    ReportedMore(MemberMarkers(ms.list), ms.unresolved, QuietMembers(w, index, arm, file, visited), dropped);
  }

  lemma {:induction false} ArmsSound(w: World, index: Index, s: Schema, file: string, visited: set<Key>, n: nat)
    requires s.Schema? && n <= |s.allOf|
    ensures MembersSound(Scope(w, index, file, visited), ArmMembers(w, index, s, file, visited, n),
                         Unvisited(w, visited), QuietArms(w, index, s, file, visited, n))
    decreases Unvisited(w, visited), s, 0, n
  {
    if n > 0 {
      ArmsSound(w, index, s, file, visited, n - 1);
      var arm := s.allOf[n - 1];
      if ArmCounts(arm) {
        ArmSound(w, index, arm, file, visited);
        var r := SchemaNode(w, index, arm, file, visited, None);
        var quiet := QuietMembers(w, index, arm, file, visited)
          && (arm.additional.Typed? ==> Clean(w, index, arm.additional.schema, file, visited));
        JoinSound(Scope(w, index, file, visited), ArmMembers(w, index, s, file, visited, n - 1),
                  Members(r.node.members, r.unresolved), Unvisited(w, visited),
                  QuietArms(w, index, s, file, visited, n - 1), quiet);
      }
    }
  }

  /** The list of unresolved references is exactly that of the markers, in order, if and only if no
      reference fails below the additionalProperties of an expanded arm. */
  lemma ReportIsExact(w: World, index: Index, s: Schema, file: string, visited: set<Key>)
    ensures var o := Resolve(w, index, s, file, visited);
      && Subsequence(Classified(Markers(o.node)), o.unresolved)
      && (o.unresolved == Classified(Markers(o.node)) <==> Quiet(w, index, s, file, visited))
  {
    ResolveSound(w, index, s, file, visited);
    var o := Resolve(w, index, s, file, visited);
    SubsequenceLength(Classified(Markers(o.node)), o.unresolved);
  }

  /** An arm that reports a reference the output does not show. */
  function SilentArm(ref: string): Schema {
    EMPTY.(kind := "object", allOf := [EMPTY.(required := ["id"], additional := Typed(EMPTY.(ref := Some(ref))))])
  }

  lemma ReportWithoutMarker(w: World, index: Index, ref: string, file: string)
    requires (file, ref) !in w && !Linked(index, NameOf(ref))
    ensures var o := Resolve(w, index, SilentArm(ref), file, {});
      o.unresolved == [Classify(ref)] && Markers(o.node) == []
  {
    var s := SilentArm(ref);
    var arm := s.allOf[0];
    SilentNode(w, index, arm, file, ref);
    assert ArmMembers(w, index, s, file, {}, 0) == Members([], []);
    assert ArmMembers(w, index, s, file, {}, 1) == Members([] + [], [] + [Classify(ref)]);
    assert OwnMembers(w, index, s, file, {}, 0) == Members([], []);
    var o := SchemaNode(w, index, s, file, {}, None);
    assert o == Out(Object([] + ([] + []), None, None), [] + ([] + [Classify(ref)]) + []);
  }

  lemma SilentNode(w: World, index: Index, arm: Schema, file: string, ref: string)
    requires (file, ref) !in w && !Linked(index, NameOf(ref))
    requires arm.Schema? && PropertiesOf(arm) == [] && arm.allOf == []
    requires arm.additional == Typed(EMPTY.(ref := Some(ref)))
    ensures SchemaNode(w, index, arm, file, {}, None) == Out(Object([], Some(Unresolved(ref)), None), [Classify(ref)])
  {
    assert OwnMembers(w, index, arm, file, {}, 0) == Members([], []);
    assert ArmMembers(w, index, arm, file, {}, 0) == Members([], []);
    assert Resolve(w, index, arm.additional.schema, file, {}) == Out(Unresolved(ref), [Classify(ref)]);
    var o := SchemaNode(w, index, arm, file, {}, None);
    assert o == Out(Object([] + [], Some(Unresolved(ref)), None), [] + [] + [Classify(ref)]);
    var nothing: seq<Member> := [];
    assert nothing + nothing == nothing;
  }
}
