/**
 What a schema expands to, said without the expander: a relation between schemas and nodes
 that is defined over the node alone. It knows no measure, no visited set that grows along
 the way and no order of work; a node stands for a schema when its parts stand for the
 schema's parts. The expander computes the one node that does.
 */
module SchemaMeaning {
  import opened Wrappers
  import opened SchemaExpand

  /** A place for a member: an own property, or one of an allOf arm that counts, however deep. */
  datatype Slot = Slot(name: string, required: bool, schema: Schema)

  function OwnSlots(s: Schema, n: nat): seq<Slot>
    requires s.Schema? && n <= |PropertiesOf(s)|
  {
    if n == 0 then []
    else
      var p := PropertiesOf(s)[n - 1];
      OwnSlots(s, n - 1) + [Slot(p.name, p.name in s.required, p.schema)]
  }

  function ArmSlots(s: Schema, n: nat): seq<Slot>
    requires s.Schema? && n <= |s.allOf|
    decreases s, 0, n
  {
    if n == 0 then []
    else ArmSlots(s, n - 1) + if ArmCounts(s.allOf[n - 1]) then Slots(s.allOf[n - 1]) else []
  }

  function Slots(s: Schema): seq<Slot>
    requires s.Schema?
    decreases s, 1
  {
    OwnSlots(s, |PropertiesOf(s)|) + ArmSlots(s, |s.allOf|)
  }

  /** The node stands for the schema in that scope. */
  ghost predicate StandsFor(c: Scope, s: Schema, n: Node)
    decreases n, 1
  {
    if s.Missing? then n.Unknown?
    else if s.ref.Some? then
      var ref := s.ref.value;
      if Linked(c.index, NameOf(ref)) then n == Topic(c.index[NameOf(ref)])
      else if !Resolves(c.w, c.file, ref) then n == Unresolved(ref)
      else
        var target := c.w[(c.file, ref)];
        var inline := Inline(ref, KeyOf(ref, target));
        if inline.key in c.open then n == Cycle(ref, inline.key)
        else n.Object? && n.inlined == Some(inline) && ObjectFor(Inside(c, n.inlined), target.schema, n)
    else if s.kind == "array" then
      && n.Array?
      && if s.items.Some? && s.items.value.Schema? then StandsFor(c, s.items.value, n.items)
         else n.items == LeafOf(EMPTY)
    else if IsObject(s) then n.Object? && n.inlined.None? && ObjectFor(c, s, n)
    else n == LeafOf(s)
  }

  /** The members of the node fill the slots of the schema, one by one. */
  ghost predicate ObjectFor(c: Scope, s: Schema, n: Node)
    requires s.Schema? && n.Object?
    decreases n, 0
  {
    && |n.members| == |Slots(s)|
    && (forall i :: 0 <= i < |n.members| ==>
          && n.members[i].name == Slots(s)[i].name && n.members[i].required == Slots(s)[i].required
          && StandsFor(c, Slots(s)[i].schema, n.members[i].node))
    && match s.additional
       case Typed(extra) => n.additional.Some? && StandsFor(c, extra, n.additional.value)
       case AnyType => n.additional == Some(AnyNode)
       case _ => n.additional.None?
  }

  ghost predicate Fills(c: Scope, slot: Slot, m: Member) {
    m.name == slot.name && m.required == slot.required && StandsFor(c, slot.schema, m.node)
  }

  ghost predicate AllFill(c: Scope, slots: seq<Slot>, ms: seq<Member>) {
    |ms| == |slots| && forall i :: 0 <= i < |ms| ==> Fills(c, slots[i], ms[i])
  }

  lemma AllFillConcat(c: Scope, a: seq<Slot>, b: seq<Slot>, ms: seq<Member>)
    ensures AllFill(c, a + b, ms) <==> |ms| == |a| + |b| && AllFill(c, a, ms[..|a|]) && AllFill(c, b, ms[|a|..])
  {
    if |ms| == |a| + |b| {
      if AllFill(c, a, ms[..|a|]) && AllFill(c, b, ms[|a|..]) {
        forall i | 0 <= i < |ms| ensures Fills(c, (a + b)[i], ms[i]) {
          assert i < |a| ==> Fills(c, a[i], ms[..|a|][i]);
          assert i >= |a| ==> Fills(c, b[i - |a|], ms[|a|..][i - |a|]);
        }
      }
      if AllFill(c, a + b, ms) {
        forall i | 0 <= i < |a| ensures Fills(c, a[i], ms[..|a|][i]) {
          assert Fills(c, (a + b)[i], ms[i]);
        }
        forall i | 0 <= i < |b| ensures Fills(c, b[i], ms[|a|..][i]) {
          assert Fills(c, (a + b)[|a| + i], ms[|a| + i]);
        }
      }
    }
  }

  lemma AllFillOne(c: Scope, slot: Slot, ms: seq<Member>)
    ensures AllFill(c, [slot], ms) <==> |ms| == 1 && Fills(c, slot, ms[0])
  {
  }

  // ----- the expander computes it -------------------------------------------------------

  /** Lists that agree on a split agree. */
  lemma SplitEqual(ms: seq<Member>, a: seq<Member>, b: seq<Member>)
    ensures ms == a + b <==> |ms| == |a| + |b| && ms[..|a|] == a && ms[|a|..] == b
  {
    if |ms| == |a| + |b| && ms[..|a|] == a && ms[|a|..] == b {
      assert ms == ms[..|a|] + ms[|a|..];
    }
  }

  /** A node stands for a schema exactly when it is the one the expander builds. */
  lemma {:induction false} ExpandsToMeaning(w: World, index: Index, s: Schema, file: string, visited: set<Key>, n: Node)
    ensures StandsFor(Scope(w, index, file, visited), s, n) <==> n == Resolve(w, index, s, file, visited).node
    decreases Unvisited(w, visited), s, 2
  {
    if s.Schema? && s.ref.Some? {
      ReferenceMeaning(w, index, s, file, visited, n);
    } else if s.Schema? && s.kind == "array" {
      ArrayParts(w, index, s, file, visited);
      if s.items.Some? && s.items.value.Schema? && n.Array? {
        ExpandsToMeaning(w, index, s.items.value, file, visited, n.items);
      }
    } else if s.Schema? && IsObject(s) {
      if n.Object? {
        ObjectMeaning(w, index, s, file, visited, None, n);
      }
    }
  }

  lemma {:induction false} ReferenceMeaning(w: World, index: Index, s: Schema, file: string, visited: set<Key>, n: Node)
    requires s.Schema? && s.ref.Some?
    ensures StandsFor(Scope(w, index, file, visited), s, n) <==> n == Resolve(w, index, s, file, visited).node
    decreases Unvisited(w, visited), s, 1
  {
    var ref := s.ref.value;
    if Leads(w, index, file, ref) && KeyOf(ref, w[(file, ref)]) !in visited && n.Object? {
      var target := w[(file, ref)];
      var inline := Inline(ref, KeyOf(ref, target));
      VisitShrinks(w, visited, file, ref);
      ObjectMeaning(w, index, target.schema, target.file, visited + {inline.key}, Some(inline), n);
    }
  }

  lemma {:induction false} ObjectMeaning(w: World, index: Index, s: Schema, file: string, visited: set<Key>,
                                         inlined: Option<Inline>, n: Node)
    requires s.Schema? && n.Object?
    ensures n.inlined == inlined && ObjectFor(Scope(w, index, file, visited), s, n) <==>
      n == SchemaNode(w, index, s, file, visited, inlined).node
    decreases Unvisited(w, visited), s, 0, |PropertiesOf(s)| + |s.allOf| + 2
  {
    var c := Scope(w, index, file, visited);
    MembersMeaning(w, index, s, file, visited, n.members);
    ExtraMeaning(w, index, s, file, visited, n.additional);
    SchemaNodeParts(w, index, s, file, visited, inlined);
    ObjectForParts(c, s, n);
  }

  ghost predicate ExtraFor(c: Scope, s: Schema, additional: Option<Node>)
    requires s.Schema?
  {
    match s.additional
    case Typed(extra) => additional.Some? && StandsFor(c, extra, additional.value)
    case AnyType => additional == Some(AnyNode)
    case _ => additional.None?
  }

  lemma ObjectForParts(c: Scope, s: Schema, n: Node)
    requires s.Schema? && n.Object?
    ensures ObjectFor(c, s, n) <==> AllFill(c, Slots(s), n.members) && ExtraFor(c, s, n.additional)
  {
  }

  lemma {:induction false} ExtraMeaning(w: World, index: Index, s: Schema, file: string, visited: set<Key>,
                                        additional: Option<Node>)
    requires s.Schema?
    ensures var extra := ExtraOf(w, index, s, file, visited);
      ExtraFor(Scope(w, index, file, visited), s, additional) <==>
        additional == if extra.Some? then Some(extra.value.node) else None
    decreases Unvisited(w, visited), s, 0, 0
  {
    if s.additional.Typed? && additional.Some? {
      ExpandsToMeaning(w, index, s.additional.schema, file, visited, additional.value);
    }
  }

  lemma {:induction false} MembersMeaning(w: World, index: Index, s: Schema, file: string, visited: set<Key>,
                                          ms: seq<Member>)
    requires s.Schema?
    ensures AllFill(Scope(w, index, file, visited), Slots(s), ms) <==> ms == AllMembers(w, index, s, file, visited).list
    decreases Unvisited(w, visited), s, 0, |PropertiesOf(s)| + |s.allOf| + 1
  {
    var c := Scope(w, index, file, visited);
    var a, b := OwnSlots(s, |PropertiesOf(s)|), ArmSlots(s, |s.allOf|);
    var own := OwnMembers(w, index, s, file, visited, |PropertiesOf(s)|).list;
    var arms := ArmMembers(w, index, s, file, visited, |s.allOf|).list;
    AllFillConcat(c, a, b, ms);
    SplitEqual(ms, own, arms);
    OwnMeaning(w, index, s, file, visited, |PropertiesOf(s)|, own);
    ArmsMeaning(w, index, s, file, visited, |s.allOf|, arms);
    if |ms| == |a| + |b| {
      OwnMeaning(w, index, s, file, visited, |PropertiesOf(s)|, ms[..|a|]);
      ArmsMeaning(w, index, s, file, visited, |s.allOf|, ms[|a|..]);
    }
  }

  lemma {:induction false} OwnMeaning(w: World, index: Index, s: Schema, file: string, visited: set<Key>, n: nat,
                                      ms: seq<Member>)
    requires s.Schema? && n <= |PropertiesOf(s)|
    ensures AllFill(Scope(w, index, file, visited), OwnSlots(s, n), ms) <==>
      ms == OwnMembers(w, index, s, file, visited, n).list
    decreases Unvisited(w, visited), s, 0, n
  {
    if n > 0 {
      var c, p := Scope(w, index, file, visited), PropertiesOf(s)[n - 1];
      var slot := Slot(p.name, p.name in s.required, p.schema);
      var node := Resolve(w, index, p.schema, file, visited).node;
      var before := OwnMembers(w, index, s, file, visited, n - 1).list;
      AllFillConcat(c, OwnSlots(s, n - 1), [slot], ms);
      SplitEqual(ms, before, [Member(p.name, p.name in s.required, node)]);
      OwnMeaning(w, index, s, file, visited, n - 1, before);
      if |ms| == |before| + 1 {
        OwnMeaning(w, index, s, file, visited, n - 1, ms[..|before|]);
        AllFillOne(c, slot, ms[|before|..]);
        ExpandsToMeaning(w, index, p.schema, file, visited, ms[|before|].node);
      }
    }
  }

  lemma {:induction false} ArmsMeaning(w: World, index: Index, s: Schema, file: string, visited: set<Key>, n: nat,
                                       ms: seq<Member>)
    requires s.Schema? && n <= |s.allOf|
    ensures AllFill(Scope(w, index, file, visited), ArmSlots(s, n), ms) <==>
      ms == ArmMembers(w, index, s, file, visited, n).list
    decreases Unvisited(w, visited), s, 0, n
  {
    if n > 0 {
      var c, arm := Scope(w, index, file, visited), s.allOf[n - 1];
      var before := ArmMembers(w, index, s, file, visited, n - 1).list;
      ArmsMeaning(w, index, s, file, visited, n - 1, ms);
      if ArmCounts(arm) {
        var more := AllMembers(w, index, arm, file, visited).list;
        SchemaNodeParts(w, index, arm, file, visited, None);
        AllFillConcat(c, ArmSlots(s, n - 1), Slots(arm), ms);
        SplitEqual(ms, before, more);
        ArmsMeaning(w, index, s, file, visited, n - 1, before);
        MembersMeaning(w, index, arm, file, visited, more);
        if |ms| == |before| + |more| {
          ArmsMeaning(w, index, s, file, visited, n - 1, ms[..|before|]);
          MembersMeaning(w, index, arm, file, visited, ms[|before|..]);
        }
      } else {
        assert ArmSlots(s, n) == ArmSlots(s, n - 1) + [];
      }
    }
  }
}
