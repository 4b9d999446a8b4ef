/**
 The expansion as the script runs it, and the document it emits for one root schema.
 */
module SchemaEmit {
  import opened Wrappers
  import opened SchemaExpand

  /** The expansion with its list of unresolved references, which every call appends to. */
  class Expander {
    const world: World
    const index: Index
    var unresolved: seq<Entry>

    constructor (world: World, index: Index)
      ensures this.world == world && this.index == index && unresolved == []
    {
      this.world, this.index, unresolved := world, index, [];
    }

    /** _resolve_to_node. */
    method ResolveToNode(s: Schema, file: string, visited: set<Key>) returns (node: Node)
      modifies this
      ensures var o := Resolve(world, index, s, file, visited);
        node == o.node && unresolved == old(unresolved) + o.unresolved
      decreases Unvisited(world, visited), s, 2
    {
      if s.Missing? {
        return Unknown;
      }
      if s.ref.Some? {
        node := FollowReference(s.ref.value, s, file, visited);
        return;
      }
      if s.kind == "array" {
        if s.items.None? || s.items.value.Missing? {
          return Array(LeafOf(EMPTY));
        }
        var items := ResolveToNode(s.items.value, file, visited);
        return Array(items);
      }
      if IsObject(s) {
        node := ToNode(s, file, visited, None);
        return;
      }
      node := LeafOf(s);
    }

    method FollowReference(ref: string, ghost s: Schema, file: string, visited: set<Key>) returns (node: Node)
      requires s.Schema? && s.ref == Some(ref)
      modifies this
      ensures var o := Resolve(world, index, s, file, visited);
        node == o.node && unresolved == old(unresolved) + o.unresolved
      decreases Unvisited(world, visited), s, 1
    {
      var name := NameOf(ref);
      if Linked(index, name) {
        return Topic(index[name]);
      }
      if !Resolves(world, file, ref) {
        unresolved := unresolved + [Classify(ref)];
        return Unresolved(ref);
      }
      var target := world[(file, ref)];
      var key := KeyOf(ref, target);
      if key in visited {
        return Cycle(ref, key);
      }
      VisitShrinks(world, visited, file, ref);
      node := ToNode(target.schema, target.file, visited + {key}, Some(Inline(ref, key)));
    }

    /** _schema_node. */
    method ToNode(s: Schema, file: string, visited: set<Key>, inlined: Option<Inline>) returns (node: Node)
      requires s.Schema?
      modifies this
      ensures var o := SchemaNode(world, index, s, file, visited, inlined);
        node == o.node && unresolved == old(unresolved) + o.unresolved
      decreases Unvisited(world, visited), s, 1
    {
      var members := ListMembers(s, file, visited);
      var additional := ListAdditional(s, file, visited);
      node := Object(members, additional, inlined);
      SchemaNodeParts(world, index, s, file, visited, inlined);
    }

    method ListMembers(s: Schema, file: string, visited: set<Key>) returns (list: seq<Member>)
      requires s.Schema?
      modifies this
      ensures var o := AllMembers(world, index, s, file, visited);
        list == o.list && unresolved == old(unresolved) + o.unresolved
      decreases Unvisited(world, visited), s, 0, 1
    {
      var own := ListProperties(s, file, visited);
      var arms := ListArms(s, file, visited);
      list := own + arms;
    }

    method ListAdditional(s: Schema, file: string, visited: set<Key>) returns (additional: Option<Node>)
      requires s.Schema?
      modifies this
      ensures var o := ExtraOf(world, index, s, file, visited);
        && additional == (if o.Some? then Some(o.value.node) else None)
        && unresolved == old(unresolved) + if o.Some? then o.value.unresolved else []
      decreases Unvisited(world, visited), s, 0, 0
    {
      additional := None;
      if s.additional.AnyType? {
        additional := Some(AnyNode);
      } else if s.additional.Typed? {
        var extra := ResolveToNode(s.additional.schema, file, visited);
        additional := Some(extra);
      }
    }

    method ListProperties(s: Schema, file: string, visited: set<Key>) returns (list: seq<Member>)
      requires s.Schema?
      modifies this
      ensures var o := OwnMembers(world, index, s, file, visited, |PropertiesOf(s)|);
        list == o.list && unresolved == old(unresolved) + o.unresolved
      decreases Unvisited(world, visited), s, 0, 0
    {
      list := [];
      var i := 0;
      var properties := PropertiesOf(s);
      while i < |properties|
        invariant 0 <= i <= |properties|
        invariant var o := OwnMembers(world, index, s, file, visited, i);
          list == o.list && unresolved == old(unresolved) + o.unresolved
      {
        var node := ResolveToNode(properties[i].schema, file, visited);
        list := list + [Member(properties[i].name, properties[i].name in s.required, node)];
        i := i + 1;
      }
    }

    method ListArms(s: Schema, file: string, visited: set<Key>) returns (list: seq<Member>)
      requires s.Schema?
      modifies this
      ensures var o := ArmMembers(world, index, s, file, visited, |s.allOf|);
        list == o.list && unresolved == old(unresolved) + o.unresolved
      decreases Unvisited(world, visited), s, 0, 0
    {
      list := [];
      var i := 0;
      while i < |s.allOf|
        invariant 0 <= i <= |s.allOf|
        invariant var o := ArmMembers(world, index, s, file, visited, i);
          list == o.list && unresolved == old(unresolved) + o.unresolved
      {
        if ArmCounts(s.allOf[i]) {
          var sub := ToNode(s.allOf[i], file, visited, None);
          list := list + sub.members;
        }
        i := i + 1;
      }
    }
  }

  // ----- the emitted document -----------------------------------------------------------

  /** The schema a topic stands for: what follows the first slash of its id. */
  function TopicName(tid: string): string { After(tid, '/') }

  predicate Indexed(tid: string, root: string) { '/' in tid && TopicName(tid) != root }

  /** The topic index over the first n handoff topics; a later topic of the same name wins. */
  function IndexTo(topics: seq<string>, root: string, n: nat): Index
    requires n <= |topics|
  {
    if n == 0 then map[]
    else
      var index := IndexTo(topics, root, n - 1);
      if Indexed(topics[n - 1], root) then index[TopicName(topics[n - 1]) := topics[n - 1]] else index
  }

  method BuildIndex(topics: seq<string>, root: string) returns (index: Index)
    ensures index == IndexTo(topics, root, |topics|)
  {
    index := map[];
    for i := 0 to |topics|
      invariant index == IndexTo(topics, root, i)
    {
      if '/' in topics[i] {
        var name := TopicName(topics[i]);
        if name != root {
          index := index[name := topics[i]];
        }
      }
    }
  }

  /** A name is in the index exactly when a listed topic other than the root has it. */
  lemma {:induction false} IndexIsTopics(topics: seq<string>, root: string, n: nat, name: string)
    requires n <= |topics|
    ensures var index := IndexTo(topics, root, n);
      && (name in index <==> exists i :: 0 <= i < n && Indexed(topics[i], root) && TopicName(topics[i]) == name)
      && (name in index ==> index[name] in topics && Indexed(index[name], root) && TopicName(index[name]) == name)
  {
    if n > 0 {
      IndexIsTopics(topics, root, n - 1, name);
    }
  }

  /** A root with members (object or array); other roots hold no reference. */
  predicate RootIsObject(s: Schema) {
    s.Schema? && (IsObject(s) || exists i :: 0 <= i < |s.allOf| && ArmCounts(s.allOf[i]))
  }

  /** _root_node, without the merging of scalar anyOf and oneOf arms. */
  function Root(w: World, index: Index, s: Schema, file: string, visited: set<Key>): Out
    requires s.Schema?
  {
    if RootIsObject(s) then SchemaNode(w, index, s, file, visited, None)
    else if s.kind == "array" then Resolve(w, index, s, file, visited)
    else Out(if s.kind == "" && s.attributes == [] then Unknown else Leaf(s.kind, s.attributes), [])
  }

  predicate RootQuiet(w: World, index: Index, s: Schema, file: string, visited: set<Key>)
    requires s.Schema?
  {
    if RootIsObject(s) then QuietNode(w, index, s, file, visited)
    else s.kind == "array" ==> Quiet(w, index, s, file, visited)
  }

  /** The topics a node links to: the dependencies of the document. */
  function Links(n: Node): set<string>
    decreases n, 0
  {
    match n
    case Topic(id) => {id}
    case Array(items) => Links(items)
    case Object(members, additional, _) =>
      MemberLinks(members) + if additional.Some? then Links(additional.value) else {}
    case _ => {}
  }

  function MemberLinks(ms: seq<Member>): set<string>
    decreases ms, 1
  {
    if ms == [] then {} else MemberLinks(ms[..|ms| - 1]) + Links(ms[|ms| - 1].node)
  }

  lemma {:induction false} LinksAreIndexed(c: Scope, n: Node)
    requires WellExpanded(c, n)
    ensures Links(n) <= c.index.Values
    decreases n, 0
  {
    match n {
      case Array(items) => LinksAreIndexed(c, items);
      case Object(members, additional, from) =>
        MemberLinksAreIndexed(Inside(c, from), members);
        if additional.Some? {
          LinksAreIndexed(Inside(c, from), additional.value);
        }
      case _ =>
    }
  }

  lemma {:induction false} MemberLinksAreIndexed(c: Scope, ms: seq<Member>)
    requires MembersWell(c, ms)
    ensures MemberLinks(ms) <= c.index.Values
    decreases ms, 1
  {
    if ms != [] {
      MemberLinksAreIndexed(c, ms[..|ms| - 1]);
      LinksAreIndexed(c, ms[|ms| - 1].node);
    }
  }

  /** What emit_json builds for a root schema. */
  function Emit(w: World, topics: seq<string>, s: Schema, file: string, root: string): Out
    requires s.Schema?
  {
    Root(w, IndexTo(topics, root, |topics|), s, file, {(file, root)})
  }

  lemma RootSound(w: World, topics: seq<string>, s: Schema, file: string, root: string)
    requires s.Schema?
    ensures var index := IndexTo(topics, root, |topics|);
      Sound(Scope(w, index, file, {(file, root)}), Emit(w, topics, s, file, root), Unvisited(w, {(file, root)}),
            RootQuiet(w, index, s, file, {(file, root)}))
  {
    var index, visited := IndexTo(topics, root, |topics|), {(file, root)};
    if RootIsObject(s) {
      SchemaNodeSound(w, index, s, file, visited, None, Scope(w, index, file, visited));
    } else if s.kind == "array" {
      ResolveSound(w, index, s, file, visited);
    }
  }

  /** The emitted document, for any files however they refer to each other: it links only to listed
      topics other than the root's; a cycle marker stands exactly for the root or a schema, file and name, that
      encloses it, and nothing is inlined inside itself; no more schemas are nested in each other than there
      are; every unresolved marker has its classified entry, and the entries are exactly those unless an allOf
      arm hides some. */
  lemma EmittedDocument(w: World, topics: seq<string>, s: Schema, file: string, root: string)
    requires s.Schema?
    ensures var index, o := IndexTo(topics, root, |topics|), Emit(w, topics, s, file, root);
      && (forall tid :: tid in Links(o.node) ==> tid in topics && TopicName(tid) != root)
      && WellExpanded(Scope(w, index, file, {(file, root)}), o.node)
      && Depth(o.node) <= |Keys(w) - {(file, root)}|
      && Subsequence(Classified(Markers(o.node)), o.unresolved)
      && (o.unresolved == Classified(Markers(o.node)) <==> RootQuiet(w, index, s, file, {(file, root)}))
  {
    var index, o := IndexTo(topics, root, |topics|), Emit(w, topics, s, file, root);
    RootSound(w, topics, s, file, root);
    LinksAreIndexed(Scope(w, index, file, {(file, root)}), o.node);
    forall tid | tid in Links(o.node) ensures tid in topics && TopicName(tid) != root {
      var name :| name in index && index[name] == tid;
      IndexIsTopics(topics, root, |topics|, name);
    }
    SubsequenceLength(Classified(Markers(o.node)), o.unresolved);
  }

  /** What the script writes for a root name: nothing for a name without a schema, the bare entry for the name
      of a response slot, else the expanded document. */
  datatype Emitted = NoSuchRoot | ResponseSlot(entry: Entry) | Document(body: Node, unresolved: seq<Entry>)

  /** emit_json: the index, the expansion of the root, and what it left unresolved. */
  method EmitJson(w: World, topics: seq<string>, schemas: map<string, Schema>, file: string, root: string)
    returns (r: Emitted)
    ensures r.ResponseSlot? <==> StatusCode(root)
    ensures r.ResponseSlot? ==> r.entry == Entry(root, ProblemDetailsResponse)
    ensures r.NoSuchRoot? <==> !StatusCode(root) && (root !in schemas || schemas[root].Missing?)
    ensures r.Document? ==> root in schemas && schemas[root].Schema?
    ensures r.Document? ==> Out(r.body, r.unresolved) == Emit(w, topics, schemas[root], file, root)
  {
    if StatusCode(root) {
      SlotsAreNames(root);
      return ResponseSlot(Classify(root));
    }
    if root !in schemas || schemas[root].Missing? {
      return NoSuchRoot;
    }
    var s := schemas[root];
    var index := BuildIndex(topics, root);
    var expander := new Expander(w, index);
    var visited := {(file, root)};
    var body;
    if RootIsObject(s) {
      body := expander.ToNode(s, file, visited, None);
    } else if s.kind == "array" {
      body := expander.ResolveToNode(s, file, visited);
    } else {
      body := if s.kind == "" && s.attributes == [] then Unknown else Leaf(s.kind, s.attributes);
    }
    r := Document(body, expander.unresolved);
  }

  lemma {:induction false} AfterLastNone(s: string, c: char)
    requires forall i :: 0 <= i < |s| ==> s[i] != c
    ensures AfterLast(s, c) == s
    decreases |s|
  {
    if s != "" {
      AfterLastNone(s[..|s| - 1], c);
    }
  }

  /** A status code has no slash in it, so it is its own schema name. */
  lemma SlotsAreNames(name: string)
    requires StatusCode(name)
    ensures Classify(name) == Entry(name, ProblemDetailsResponse)
  {
    AfterLastNone(name, '/');
  }
}
