/**
 How references, topics and schemas are read by the expander: names in references, the
 classes of unresolved ones, topic ids, and which schema becomes which kind of node.
 */
module SchemaNames {
  import opened Wrappers
  import opened SchemaExpand
  import opened SchemaEmit

  predicate Without(s: string, c: char) { forall i :: 0 <= i < |s| ==> s[i] != c }

  // ----- parts of a text ----------------------------------------------------------------

  lemma {:induction false} AfterLastPart(a: string, c: char, b: string)
    requires Without(b, c)
    ensures AfterLast(a + [c] + b, c) == b
    decreases |b|
  {
    var s := a + [c] + b;
    if b == "" {
      assert s[|s| - 1] == c;
    } else {
      var m := |b| - 1;
      assert s[..|s| - 1] == a + [c] + b[..m] && s[|s| - 1] == b[m];
      AfterLastPart(a, c, b[..m]);
      assert b[..m] + [b[m]] == b;
    }
  }

  lemma {:induction false} FirstPart(a: string, c: char, b: string)
    requires Without(a, c)
    ensures After(a + [c] + b, c) == b && Before(a + [c] + b, c) == a
  {
    var s := a + [c] + b;
    if a == "" {
      assert s[0] == c && s[1..] == b;
    } else {
      assert s[1..] == a[1..] + [c] + b;
      FirstPart(a[1..], c, b);
    }
  }

  // ----- references ---------------------------------------------------------------------

  /** A reference into a file, and one into the same file. */
  function RefTo(file: string, name: string): string { file + "#/components/schemas/" + name }

  lemma RefParts(file: string, name: string)
    requires Without(file, '#')
    ensures RefTo(file, name) == file + ['#'] + ("/components/schemas/" + name)
    ensures RefTo(file, name) == (file + "#/components/schemas") + ['/'] + name
    ensures "/components/schemas/" + name == "/components/schemas" + ['/'] + name
    ensures After(RefTo(file, name), '#') == "/components/schemas/" + name && Before(RefTo(file, name), '#') == file
  {
    assert "#/components/schemas/" == ['#'] + "/components/schemas/";
    assert "#/components/schemas/" == "#/components/schemas" + ['/'];
    assert "/components/schemas/" == "/components/schemas" + ['/'];
    FirstPart(file, '#', "/components/schemas/" + name);
  }

  /** The name of a reference is what follows its last slash, in the same file or another; text without a fragment is
      its own name. */
  lemma NameOfRef(file: string, name: string)
    requires Without(file, '#') && Without(name, '/')
    ensures NameOf(RefTo(file, name)) == name
    ensures NameOf(file) == file
  {
    var ref := RefTo(file, name);
    RefParts(file, name);
    AfterLastPart("/components/schemas", '/', name);
    assert ref[|file|] == '#';
    if "#/" <= ref {
      assert ref[0] == '#';
      assert file == "";
      assert ref[1..] == "/components/schemas/" + name;
    }
  }

  /** A file name of the common data of TS 29.571. */
  predicate CommonData(file: string) { "TS29571_CommonData" <= file }

  /** The class of an unresolved reference: response slots and ProblemDetails, then the common data, then blockers. */
  lemma ClassOfRef(file: string, name: string)
    requires Without(file, '#') && Without(name, '/')
    ensures Classify(RefTo(file, name)) == Entry(RefTo(file, name),
      if StatusCode(name) || name == "ProblemDetails" then ProblemDetailsResponse
      else if CommonData(file) then ExternalCommonData
      else ImplementationBlocker)
  {
    var ref := RefTo(file, name);
    RefParts(file, name);
    AfterLastPart(file + "#/components/schemas", '/', name);
    assert ref[|file|] == '#';
  }

  /** Response slots are "default" and the three-digit codes from 100 to 599. */
  lemma StatusCodesAre(a: char, b: char, c: char)
    ensures StatusCode("default") && !StatusCode("") && !StatusCode("ProblemDetails")
    ensures StatusCode([a, b, c]) <==> '1' <= a <= '5' && '0' <= b <= '9' && '0' <= c <= '9'
  {
    assert |"default"| == 7 && |"ProblemDetails"| == 14;
  }

  // ----- topics -------------------------------------------------------------------------

  /** A topic "category/Schema" stands for the schema. */
  lemma TopicOf(category: string, name: string)
    requires Without(category, '/')
    ensures TopicName(category + ['/'] + name) == name
  {
    FirstPart(category, '/', name);
  }

  /** Of several topics with one name the last one listed is linked. */
  lemma {:induction false} LastTopicWins(topics: seq<string>, root: string, n: nat, i: nat)
    requires i < n <= |topics| && '/' in topics[i] && TopicName(topics[i]) != root
    requires forall j :: i < j < n ==> '/' !in topics[j] || TopicName(topics[j]) != TopicName(topics[i])
    ensures var name := TopicName(topics[i]);
      name in IndexTo(topics, root, n) && IndexTo(topics, root, n)[name] == topics[i]
  {
    if n > i + 1 {
      LastTopicWins(topics, root, n - 1, i);
    }
  }

  // ----- kinds of nodes -----------------------------------------------------------------

  /** A schema without a reference becomes an array when its type says so; an object when its type says so or it has
      properties or additionalProperties; and a leaf with its type and attributes otherwise, of type object when it
      has neither. */
  lemma KindOfNode(w: World, index: Index, s: Schema, file: string, visited: set<Key>)
    requires s.Schema? && s.ref.None?
    ensures var n := Resolve(w, index, s, file, visited).node;
      var isObject := s.kind == "object" || s.properties.Listed? || s.additional != NotGiven;
      && (n.Array? <==> s.kind == "array")
      && (n.Object? <==> s.kind != "array" && isObject)
      && (s.kind != "array" && !isObject ==>
            n == Leaf(if s.kind == "" && s.attributes == [] then "object" else s.kind, s.attributes))
  {
  }

  /** A member stands for a property: its name, and whether the schema requires it. */
  predicate Stands(m: Member, p: Property, required: seq<string>) {
    m.name == p.name && (m.required <==> exists i :: 0 <= i < |required| && required[i] == p.name)
  }

  predicate AllStand(list: seq<Member>, properties: seq<Property>, required: seq<string>) {
    |list| == |properties| && forall i :: 0 <= i < |list| ==> Stands(list[i], properties[i], required)
  }

  /** Of an object the expander keeps the own properties in order, marked as required when they are listed so, then
      those of the allOf arms, and additionalProperties when they are allowed. */
  lemma ObjectKeeps(w: World, index: Index, s: Schema, file: string, visited: set<Key>)
    requires s.Schema?
    ensures var n := SchemaNode(w, index, s, file, visited, None).node;
      var count := if s.properties.Listed? then |s.properties.list| else 0;
      && |n.members| >= count
      && (forall i :: 0 <= i < count ==> Stands(n.members[i], s.properties.list[i], s.required))
      && (s.allOf == [] ==> |n.members| == count)
      && (n.additional.Some? <==> s.additional == AnyType || s.additional.Typed?)
      && (s.additional == AnyType ==> n.additional == Some(AnyNode))
  {
    OwnMembersAre(w, index, s, file, visited, |PropertiesOf(s)|);
    assert PropertiesOf(s)[..|PropertiesOf(s)|] == PropertiesOf(s);
  }

  lemma {:induction false} OwnMembersAre(w: World, index: Index, s: Schema, file: string, visited: set<Key>, n: nat)
    requires s.Schema? && n <= |PropertiesOf(s)|
    ensures AllStand(OwnMembers(w, index, s, file, visited, n).list, PropertiesOf(s)[..n], s.required)
  {
    if n > 0 {
      OwnMembersAre(w, index, s, file, visited, n - 1);
      OneMore(w, index, s, file, visited, n);
      assert PropertiesOf(s)[..n] == PropertiesOf(s)[..n - 1] + [PropertiesOf(s)[n - 1]];
    }
  }

  lemma OneMore(w: World, index: Index, s: Schema, file: string, visited: set<Key>, n: nat)
    requires s.Schema? && 0 < n <= |PropertiesOf(s)|
    ensures var before, after := OwnMembers(w, index, s, file, visited, n - 1).list,
                                 OwnMembers(w, index, s, file, visited, n).list;
      after != [] && after == before + [after[|after| - 1]] &&
      Stands(after[|after| - 1], PropertiesOf(s)[n - 1], s.required)
  {
    var before, p := OwnMembers(w, index, s, file, visited, n - 1).list, PropertiesOf(s)[n - 1];
    var m := Member(p.name, p.name in s.required, Resolve(w, index, p.schema, file, visited).node);
    assert OwnMembers(w, index, s, file, visited, n).list == before + [m];
  }

  /** Which arms count. */
  lemma ArmsThatCount(arm: Schema)
    ensures ArmCounts(arm) <==>
      arm.Schema? && (arm.required != [] || (arm.properties.Listed? && arm.properties.list != []))
  {
  }

  /** A root is expanded as an object when it, or an arm of its allOf, has members; as an array when its type says so;
      and is a leaf otherwise. */
  lemma KindOfRoot(w: World, topics: seq<string>, s: Schema, file: string, root: string)
    requires s.Schema? && s.ref.None?
    ensures var n := Emit(w, topics, s, file, root).node;
      var members := s.kind == "object" || s.properties.Listed? || s.additional != NotGiven
        || exists i :: 0 <= i < |s.allOf| && ArmCounts(s.allOf[i]);
      && (n.Object? <==> members)
      && (n.Array? <==> !members && s.kind == "array")
      && (!members && s.kind != "array" ==>
            n == if s.kind == "" && s.attributes == [] then Unknown else Leaf(s.kind, s.attributes))
  {
  }
}
