/**
 The in-memory availability repository: a growable array of records in which a delete
 moves the last record into the hole. Its ghost `table` is the finite map it stands for.
 */
module AvailabilityRepo {
  import opened Wrappers
  import opened Slices

  datatype Record = Record(id: string, plmn: Json, tai: Json, snssais: Json, amfSetId: Option<string>,
                           reallocation: bool)

  type Table = map<string, Record>

  /** The columns a patch writes; the others keep their value. */
  datatype Columns = Columns(plmn: Option<Json>, tai: Option<Json>, snssais: Option<Json>, amfSetId: Option<string>,
                             reallocation: Option<bool>)

  /** The copies of the given columns that fail, if they are made. */
  datatype CopyFailures = CopyFailures(plmn: bool, tai: bool, snssais: bool, amfSetId: bool)

  predicate SomeCopyFails(c: Columns, f: CopyFailures) {
    || (c.plmn.Some? && f.plmn) || (c.tai.Some? && f.tai)
    || (c.snssais.Some? && f.snssais) || (c.amfSetId.Some? && f.amfSetId)
  }

  function Or<T>(o: Option<T>, default: T): T { if o.Some? then o.value else default }

  function Overwrite(r: Record, c: Columns): Record {
    Record(r.id, Or(c.plmn, r.plmn), Or(c.tai, r.tai), Or(c.snssais, r.snssais),
           if c.amfSetId.Some? then c.amfSetId else r.amfSetId, Or(c.reallocation, r.reallocation))
  }

  /** A patch writes the columns that are given and leaves the others, and the id, alone. */
  lemma OverwriteWrites(r: Record, c: Columns)
    ensures var w := Overwrite(r, c);
      && w.id == r.id
      && (c.plmn == Some(w.plmn) || (c.plmn.None? && w.plmn == r.plmn))
      && (c.tai == Some(w.tai) || (c.tai.None? && w.tai == r.tai))
      && (c.snssais == Some(w.snssais) || (c.snssais.None? && w.snssais == r.snssais))
      && ((c.amfSetId.Some? && w.amfSetId == c.amfSetId) || (c.amfSetId.None? && w.amfSetId == r.amfSetId))
      && (c.reallocation == Some(w.reallocation) || (c.reallocation.None? && w.reallocation == r.reallocation))
  {
  }

  /** Records with distinct ids, one for every row of the table. */
  ghost predicate Represents(q: seq<Record>, table: Table) {
    && (forall i, j :: 0 <= i < j < |q| ==> q[i].id != q[j].id)
    && (forall i :: 0 <= i < |q| ==> q[i].id in table && table[q[i].id] == q[i])
    && (forall id :: id in table ==> exists i :: 0 <= i < |q| && q[i].id == id)
  }

  lemma AppendRecord(q: seq<Record>, table: Table, r: Record)
    requires Represents(q, table) && r.id !in table
    ensures Represents(q + [r], table[r.id := r])
  {
    var q', table' := q + [r], table[r.id := r];
    forall id | id in table' ensures exists i :: 0 <= i < |q'| && q'[i].id == id {
      if id == r.id {
        assert q'[|q|].id == id;
      } else {
        var i :| 0 <= i < |q| && q[i].id == id;
        assert q'[i].id == id;
      }
    }
  }

  lemma UpdateRecord(q: seq<Record>, table: Table, k: nat, r: Record)
    requires Represents(q, table) && k < |q| && r.id == q[k].id
    ensures Represents(q[k := r], table[r.id := r])
  {
    var q' := q[k := r];
    assert forall i :: 0 <= i < |q| ==> q'[i].id == q[i].id;
    assert forall id :: id in table ==> exists i :: 0 <= i < |q'| && q'[i].id == id;
  }

  /** The same records in the same places, except that the one of the id has the columns written. */
  ghost predicate Rewritten(before: seq<Record>, after: seq<Record>, id: string, c: Columns) {
    && |after| == |before|
    && forall i :: 0 <= i < |after| ==> after[i] == if before[i].id == id then Overwrite(before[i], c) else before[i]
  }

  lemma RewriteOne(q: seq<Record>, table: Table, k: nat, c: Columns)
    requires Represents(q, table) && k < |q|
    ensures var q' := q[k := Overwrite(q[k], c)];
      && Represents(q', table[q[k].id := Overwrite(q[k], c)])
      && Rewritten(q, q', q[k].id, c)
      && table[q[k].id] == q[k]
  {
    UpdateRecord(q, table, k, Overwrite(q[k], c));
    forall i | 0 <= i < |q| && i != k ensures q[i].id != q[k].id {
      assert i < k || k < i;
    }
  }

  /** Where index i of the compacted records was: the hole k is filled by the last one. */
  function Moved(k: nat, last: nat, i: nat): nat { if i == k then last else i }

  lemma SwapRemove(q: seq<Record>, q': seq<Record>, table: Table, k: nat)
    requires Represents(q, table) && k < |q| && |q'| == |q| - 1
    requires forall i :: 0 <= i < |q'| ==> q'[i] == q[Moved(k, |q'|, i)]
    ensures Represents(q', table - {q[k].id})
  {
    var last, table' := |q'|, table - {q[k].id};
    forall i, j | 0 <= i < j < |q'| ensures q'[i].id != q'[j].id {
      var a, b := Moved(k, last, i), Moved(k, last, j);
      assert a < b || b < a;
    }
    forall i | 0 <= i < |q'| ensures q'[i].id in table' && table'[q'[i].id] == q'[i] {
      var o := Moved(k, last, i);
      assert o < k || k < o;
      assert q[o].id != q[k].id;
    }
    forall id | id in table' ensures exists i :: 0 <= i < |q'| && q'[i].id == id {
      var o :| 0 <= o < |q| && q[o].id == id;
      var i := if o == last then k else o;
      assert Moved(k, last, i) == o;
      assert q'[i].id == id;
    }
  }

  predicate Matches(r: Record, plmn: Json, tai: Json) { r.plmn == plmn && r.tai == tai }

  predicate RowMatches(t: Table, id: string, plmn: Json, tai: Json) {
    id in t && t[id].plmn == plmn && t[id].tai == tai
  }

  ghost predicate AnyMatch(t: Table, plmn: Json, tai: Json) { exists id :: RowMatches(t, id, plmn, tai) }

  lemma FindSeesMatches(t: Table, plmn: Json, tai: Json, out: seq<Record>)
    requires IsFind(t, plmn, tai, out)
    ensures out != [] <==> AnyMatch(t, plmn, tai)
  {
    if out != [] {
      assert RowMatches(t, out[0].id, plmn, tai);
    }
    if id :| RowMatches(t, id, plmn, tai) {
      assert t[id] in out;
    }
  }

  /** A find result: the matching rows of the table, each once. */
  ghost predicate IsFind(table: Table, plmn: Json, tai: Json, out: seq<Record>) {
    && (forall i :: 0 <= i < |out| ==> RowMatches(table, out[i].id, plmn, tai) && table[out[i].id] == out[i])
    && (forall id :: RowMatches(table, id, plmn, tai) ==> table[id] in out)
    && (forall i, j :: 0 <= i < j < |out| ==> out[i].id != out[j].id)
  }

  /** The matching records among the first n, in array order. */
  function Matching(q: seq<Record>, n: nat, plmn: Json, tai: Json): seq<Record>
    requires n <= |q|
  {
    if n == 0 then []
    else Matching(q, n - 1, plmn, tai) + (if Matches(q[n - 1], plmn, tai) then [q[n - 1]] else [])
  }

  lemma {:induction false} MatchingMembers(q: seq<Record>, n: nat, plmn: Json, tai: Json)
    requires n <= |q| && forall i, j :: 0 <= i < j < |q| ==> q[i].id != q[j].id
    ensures var m := Matching(q, n, plmn, tai);
      && (forall i :: 0 <= i < |m| ==> Matches(m[i], plmn, tai) && exists k :: 0 <= k < n && q[k] == m[i])
      && (forall k :: 0 <= k < n && Matches(q[k], plmn, tai) ==> q[k] in m)
      && (forall i, j :: 0 <= i < j < |m| ==> m[i].id != m[j].id)
  {
    if n > 0 {
      MatchingMembers(q, n - 1, plmn, tai);
    }
  }

  lemma MatchingIsFind(q: seq<Record>, table: Table, plmn: Json, tai: Json)
    requires Represents(q, table)
    ensures IsFind(table, plmn, tai, Matching(q, |q|, plmn, tai))
  {
    MatchingMembers(q, |q|, plmn, tai);
    var m := Matching(q, |q|, plmn, tai);
    forall i | 0 <= i < |m| ensures RowMatches(table, m[i].id, plmn, tai) && table[m[i].id] == m[i] {
      var k :| 0 <= k < |q| && q[k] == m[i];
      FoundIsRow(q, table, plmn, tai, k);
    }
    forall id | RowMatches(table, id, plmn, tai) ensures table[id] in m {
      var k :| 0 <= k < |q| && q[k].id == id;
      FoundIsRow(q, table, plmn, tai, k);
    }
  }

  lemma FoundIsRow(q: seq<Record>, table: Table, plmn: Json, tai: Json, k: nat)
    requires Represents(q, table) && k < |q|
    ensures q[k].id in table && table[q[k].id] == q[k]
    ensures RowMatches(table, q[k].id, plmn, tai) <==> Matches(q[k], plmn, tai)
  {
  }

  datatype Rc = Committed | NoRow | Failed

  class MemRepo {
    var items: array<Record>
    var count: nat
    ghost var table: Table

    ghost predicate Valid()
      reads this, items
    {
      count <= items.Length && Represents(items[..count], table)
    }

    constructor ()
      ensures Valid() && table == map[] && fresh(items)
    {
      items := new Record[0];
      count := 0;
      table := map[];
    }

    /** mem_reserve_one, when the array is full. */
    method Grow()
      requires Valid()
      modifies this`items
      ensures Valid() && items.Length > count && fresh(items)
      ensures items[..count] == old(items[..count])
    {
      var was := items;
      var cap := if was.Length == 0 then 4 else was.Length * 2;
      var grown := new Record[cap](i => Record("", Null, Null, Null, None, false));
      var i := 0;
      while i < count
        invariant i <= count && items == was && was[..count] == old(items[..count])
        invariant grown[..i] == was[..i]
      {
        grown[i] := was[i];
        i := i + 1;
      }
      items := grown;
    }

    /** mem_index_of. */
    method IndexOf(id: string) returns (idx: int)
      requires Valid()
      ensures idx < 0 <==> id !in table
      ensures idx >= 0 ==> idx < count && items[idx].id == id
    {
      var q := items[..count];
      idx := 0;
      while idx < count
        invariant 0 <= idx <= count
        invariant forall i :: 0 <= i < idx ==> q[i].id != id
      {
        if items[idx].id == id {
          assert q[idx].id == id;
          return;
        }
        idx := idx + 1;
      }
      idx := -1;
    }

    /** mem_find_for_plmn_tai: `oom` is a failed allocation for the result or for a copy in it, which
        there is none of when nothing matches. */
    method Find(plmn: Json, tai: Json, oom: bool) returns (ok: bool, out: seq<Record>)
      requires Valid()
      ensures !ok <==> oom && AnyMatch(table, plmn, tai)
      ensures ok ==> IsFind(table, plmn, tai, out)
    {
      ghost var q := items[..count];
      out := [];
      var i := 0;
      while i < count
        invariant i <= count
        invariant out == Matching(q, i, plmn, tai)
      {
        if Matches(items[i], plmn, tai) {
          out := out + [items[i]];
        }
        i := i + 1;
      }
      MatchingIsFind(q, table, plmn, tai);
      FindSeesMatches(table, plmn, tai, out);
      ok := out == [] || !oom;
    }

    /** mem_upsert: `oom` is a failed copy or a failed growth. */
    method Upsert(rec: Record, oom: bool) returns (rc: Rc)
      requires Valid()
      modifies this, items
      ensures Valid() && (items == old(items) || fresh(items))
      ensures rc == if oom then Failed else Committed
      ensures table == if oom then old(table) else old(table)[rec.id := rec]
    {
      if oom {
        return Failed;
      }
      var idx := IndexOf(rec.id);
      if idx >= 0 {
        assert items[..count][idx] == items[idx];
        SetRecord(idx, rec);
        return Committed;
      }
      if count == items.Length {
        Grow();
      }
      AppendRecord(items[..count], table, rec);
      items[count] := rec;
      table := table[rec.id := rec];
      count := count + 1;
      assert items[..count] == old(items[..count]) + [rec];
      rc := Committed;
    }

    method SetRecord(idx: nat, rec: Record)
      requires Valid() && idx < count && rec.id == items[idx].id
      modifies this`table, items
      ensures Valid() && table == old(table)[rec.id := rec]
    {
      UpdateRecord(items[..count], table, idx, rec);
      table := table[rec.id := rec];
      items[idx] := rec;
      assert items[..count] == old(items[..count])[idx := rec];
    }

    /** mem_patch: the columns are copied one after the other, any of the copies may fail, and then they
        are written one after the other. Whatever fails, no column is written; else all given ones are. */
    method Patch(id: string, c: Columns, fails: CopyFailures) returns (rc: Rc)
      requires Valid()
      modifies this`table, items
      ensures Valid()
      ensures rc == if id !in old(table) then NoRow else if SomeCopyFails(c, fails) then Failed else Committed
      ensures !rc.Committed? ==> items[..] == old(items[..]) && table == old(table)
      ensures rc.Committed? ==> table == old(table)[id := Overwrite(old(table)[id], c)]
      ensures rc.Committed? ==> Rewritten(old(items[..count]), items[..count], id, c)
    {
      var idx := IndexOf(id);
      if idx < 0 {
        return NoRow;
      }
      var ok, staged := Stage(c, fails);
      if !ok {
        return Failed;
      }
      WriteColumns(idx, staged);
      ghost var q := old(items[..count]);
      assert q[idx] == old(items[idx]);
      RewriteOne(q, table, idx, c);
      assert items[..count] == q[idx := Overwrite(q[idx], c)];
      table := table[id := Overwrite(q[idx], c)];
      rc := Committed;
    }

    /** The copies of mem_patch, in order. */
    static method Stage(c: Columns, fails: CopyFailures) returns (ok: bool, staged: Columns)
      ensures ok <==> !SomeCopyFails(c, fails)
      ensures ok ==> staged == c
    {
      staged := Columns(None, None, None, None, None);
      if c.plmn.Some? {
        if fails.plmn {
          return false, staged;
        }
        staged := staged.(plmn := c.plmn);
      }
      if c.tai.Some? {
        if fails.tai {
          return false, staged;
        }
        staged := staged.(tai := c.tai);
      }
      if c.snssais.Some? {
        if fails.snssais {
          return false, staged;
        }
        staged := staged.(snssais := c.snssais);
      }
      if c.amfSetId.Some? {
        if fails.amfSetId {
          return false, staged;
        }
        staged := staged.(amfSetId := c.amfSetId);
      }
      staged := staged.(reallocation := c.reallocation);
      ok := true;
    }

    /** The writes of mem_patch, column by column in place. */
    method WriteColumns(idx: nat, c: Columns)
      requires idx < count <= items.Length
      modifies items
      ensures items[..] == old(items[..])[idx := Overwrite(old(items[idx]), c)]
    {
      if c.plmn.Some? {
        items[idx] := items[idx].(plmn := c.plmn.value);
      }
      if c.tai.Some? {
        items[idx] := items[idx].(tai := c.tai.value);
      }
      if c.snssais.Some? {
        items[idx] := items[idx].(snssais := c.snssais.value);
      }
      if c.amfSetId.Some? {
        items[idx] := items[idx].(amfSetId := c.amfSetId);
      }
      if c.reallocation.Some? {
        items[idx] := items[idx].(reallocation := c.reallocation.value);
      }
    }

    /** mem_delete: the tail record moves into the hole. */
    method Delete(id: string) returns (rc: Rc)
      requires Valid()
      modifies this`table, this`count, items
      ensures Valid()
      ensures rc == if id in old(table) then Committed else NoRow
      ensures table == old(table) - {id}
    {
      var idx := IndexOf(id);
      if idx < 0 {
        return NoRow;
      }
      ghost var q := items[..count];
      items[idx] := items[count - 1];
      count := count - 1;
      table := table - {id};
      SwapRemove(q, items[..count], old(table), idx);
      rc := Committed;
    }
  }
}
