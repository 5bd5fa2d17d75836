/** The records of the descriptor suffix array: how they are packed, which positions they stand for,
    and, as functions, which records a template run emits.  Every record lists suffixes that share one
    24-bit key in increasing order; together the records list every position once. */
module V114Records {
  import opened Suffixes
  import opened Sorting
  import opened V114Keys

  // ----- One record -----

  const COUNT_UNIT: nat := 0x20000

  /** stage5Run: the radix-ordered key, and either a literal position or count << 17 | arena offset. */
  datatype Run = Run(key: nat, packed: nat)
  {
    predicate IsLiteral() { packed / COUNT_UNIT == 0 }
    function Begin(): nat { packed % COUNT_UNIT }
    function Count(): nat { if packed / COUNT_UNIT == 0 then 1 else packed / COUNT_UNIT }
  }

  /** The packing decodes exactly: a literal is its position, a group its count and its offset. */
  lemma PackingDecodes(key: nat, count: nat, begin: nat)
    requires begin < COUNT_UNIT
    ensures Run(key, begin).IsLiteral() && Run(key, begin).Begin() == begin && Run(key, begin).Count() == 1
    ensures var r := Run(key, count * COUNT_UNIT + begin);
            r.Begin() == begin && (count > 0 ==> !r.IsLiteral() && r.Count() == count)
  {
  }

  /** What the emit stage produces: the arena of spilled positions and the records. */
  datatype Emitted = Emitted(arena: seq<int>, runs: seq<Run>)

  ghost predicate InArena(arena: seq<int>, r: Run) {
    r.IsLiteral() || r.Begin() + r.Count() <= |arena|
  }

  /** The positions a record stands for. */
  ghost function Positions(arena: seq<int>, r: Run): (ps: seq<int>)
    requires InArena(arena, r)
    ensures |ps| == r.Count()
  {
    if r.IsLiteral() then [r.Begin()] else arena[r.Begin()..r.Begin() + r.Count()]
  }

  /** A record is sound: its positions lie in the text, share its key, and increase in suffix order. */
  ghost predicate RunOk(v: View, arena: seq<int>, r: Run)
    requires v.Valid()
  {
    && InArena(arena, r)
    && InText(v.Text(), Positions(arena, r))
    && Sorted(v.Text(), Positions(arena, r))
    && forall i :: 0 <= i < r.Count() ==> StoredKey(v, Positions(arena, r)[i]) == r.key
  }

  ghost predicate RunsOk(v: View, arena: seq<int>, runs: seq<Run>)
    requires v.Valid()
  {
    forall i :: 0 <= i < |runs| ==> RunOk(v, arena, runs[i])
  }

  /** The positions of all records, in record order. */
  ghost function Expand(v: View, arena: seq<int>, runs: seq<Run>): (ps: seq<int>)
    requires v.Valid() && RunsOk(v, arena, runs)
    ensures InText(v.Text(), ps) && |ps| >= |runs|
  {
    if runs == [] then []
    else
      var k := |runs| - 1;
      assert forall i :: 0 <= i < k ==> runs[..k][i] == runs[i];
      Expand(v, arena, runs[..k]) + Positions(arena, runs[k])
  }

  lemma ExpandSingle(v: View, arena: seq<int>, r: Run)
    requires v.Valid() && RunOk(v, arena, r)
    ensures RunsOk(v, arena, [r]) && Expand(v, arena, [r]) == Positions(arena, r)
  {
    hide RunOk;
    assert [r][..0] == [];
  }

  lemma {:induction false} ExpandConcat(v: View, arena: seq<int>, a: seq<Run>, b: seq<Run>)
    requires v.Valid() && RunsOk(v, arena, a) && RunsOk(v, arena, b)
    ensures RunsOk(v, arena, a + b)
    ensures Expand(v, arena, a + b) == Expand(v, arena, a) + Expand(v, arena, b)
    decreases |b|
  {
    hide RunOk, Positions;
    if b == [] {
      assert a + b == a;
    } else {
      var k := |b| - 1;
      ExpandConcat(v, arena, a, b[..k]);
      assert (a + b)[..|a + b| - 1] == a + b[..k] && (a + b)[|a + b| - 1] == b[k];
    }
  }

  lemma RunsOkSlices(v: View, arena: seq<int>, runs: seq<Run>, k: nat)
    requires v.Valid() && RunsOk(v, arena, runs) && k <= |runs|
    ensures RunsOk(v, arena, runs[..k]) && RunsOk(v, arena, runs[k..])
    ensures Expand(v, arena, runs) == Expand(v, arena, runs[..k]) + Expand(v, arena, runs[k..])
  {
    hide RunOk, Expand;
    assert runs == runs[..k] + runs[k..];
    ExpandConcat(v, arena, runs[..k], runs[k..]);
  }

  lemma RunsOkPermutation(v: View, arena: seq<int>, xs: seq<Run>, ys: seq<Run>)
    requires v.Valid() && RunsOk(v, arena, xs) && multiset(xs) == multiset(ys)
    ensures RunsOk(v, arena, ys)
  {
    hide RunOk;
    forall i | 0 <= i < |ys| ensures RunOk(v, arena, ys[i]) {
      assert ys[i] in multiset(xs);
      var k :| 0 <= k < |xs| && xs[k] == ys[i];
    }
  }

  lemma RemoveAt<T>(s: seq<T>, k: nat)
    requires k < |s|
    ensures multiset(s[..k] + s[k + 1..]) == multiset(s) - multiset{s[k]}
  {
    assert s == s[..k] + [s[k]] + s[k + 1..];
  }

  /** Rearranging the records rearranges the positions. */
  lemma {:induction false} ExpandPermutation(v: View, arena: seq<int>, xs: seq<Run>, ys: seq<Run>)
    requires v.Valid() && RunsOk(v, arena, xs) && RunsOk(v, arena, ys) && multiset(xs) == multiset(ys)
    ensures multiset(Expand(v, arena, xs)) == multiset(Expand(v, arena, ys))
    decreases |xs|
  {
    hide RunOk, Expand, RunsOk, Positions;
    assert |multiset(xs)| == |xs| && |multiset(ys)| == |ys|;
    if xs != [] {
      var k := FindRun(xs, ys);
      RemoveAt(ys, k);
      RemoveAt(xs, 0);
      assert xs[..0] + xs[1..] == xs[1..];
      ExpandWithout(v, arena, xs, 0);
      ExpandWithout(v, arena, ys, k);
      ExpandPermutation(v, arena, xs[1..], ys[..k] + ys[k + 1..]);
    }
  }

  lemma FindRun(xs: seq<Run>, ys: seq<Run>) returns (k: nat)
    requires xs != [] && multiset(xs) == multiset(ys)
    ensures k < |ys| && ys[k] == xs[0]
  {
    assert xs[0] in multiset(ys);
    k :| 0 <= k < |ys| && ys[k] == xs[0];
  }

  lemma ExpandWithout(v: View, arena: seq<int>, runs: seq<Run>, k: nat)
    requires v.Valid() && RunsOk(v, arena, runs) && k < |runs|
    ensures InArena(arena, runs[k]) && RunsOk(v, arena, runs[..k] + runs[k + 1..])
    ensures multiset(Expand(v, arena, runs))
         == multiset(Expand(v, arena, runs[..k] + runs[k + 1..])) + multiset(Positions(arena, runs[k]))
  {
    hide RunOk, Expand, Positions;
    assert RunOk(v, arena, runs[k]);
    assert InArena(arena, runs[k]) by { RunInArena(v, arena, runs[k]); }
    RunsOkSlices(v, arena, runs, k);
    RunsOkSlices(v, arena, runs[k..], 1);
    assert runs[k..][..1] == [runs[k]] && runs[k..][1..] == runs[k + 1..];
    ExpandSingle(v, arena, runs[k]);
    ExpandConcat(v, arena, runs[..k], runs[k + 1..]);
  }

  lemma RunInArena(v: View, arena: seq<int>, r: Run)
    requires v.Valid() && RunOk(v, arena, r)
    ensures InArena(arena, r)
  {
  }

  // ----- Emitting one column -----

  /** How many entries at the front of order share the first entry's key. */
  ghost function LeadingEqual(v: View, order: seq<int>): (c: nat)
    requires v.Valid() && InText(v.Text(), order) && order != []
    ensures 1 <= c <= |order|
    ensures forall i :: 0 <= i < c ==> LoadKey(v, order[i]) == LoadKey(v, order[0])
    ensures c < |order| ==> LoadKey(v, order[c]) != LoadKey(v, order[0])
  {
    if |order| == 1 || LoadKey(v, order[1]) != LoadKey(v, order[0]) then 1
    else
      var c := LeadingEqual(v, order[1..]);
      assert forall i :: 1 <= i < |order| ==> order[i] == order[1..][i - 1];
      1 + c
  }

  /** appendOrderGroup: a single position becomes a literal, a longer group spills into the arena. */
  function AppendGroup(e: Emitted, key: nat, group: seq<int>): Emitted
    requires group != [] && group[0] >= 0
  {
    if |group| == 1 then Emitted(e.arena, e.runs + [Run(RadixOrderKey(key), group[0])])
    else Emitted(e.arena + group, e.runs + [Run(RadixOrderKey(key), |group| * COUNT_UNIT + |e.arena|)])
  }

  /** The records of one sorted column: a record for each maximal stretch of equal keys. */
  ghost function EmitOrder(v: View, e: Emitted, order: seq<int>): Emitted
    requires v.Valid() && InText(v.Text(), order)
    decreases |order|
  {
    if order == [] then e
    else
      var c := LeadingEqual(v, order);
      EmitOrder(v, AppendGroup(e, LoadKey(v, order[0]), order[..c]), order[c..])
  }

  lemma {:induction false} EmitOrderGrows(v: View, e: Emitted, order: seq<int>)
    requires v.Valid() && InText(v.Text(), order)
    ensures |e.arena| <= |EmitOrder(v, e, order).arena| <= |e.arena| + |order|
    decreases |order|
  {
    if order != [] {
      var c := LeadingEqual(v, order);
      EmitOrderGrows(v, AppendGroup(e, LoadKey(v, order[0]), order[..c]), order[c..]);
    }
  }

  /** Sound records stay sound, and stand for the same positions, when the arena grows. */
  lemma RunOkInLongerArena(v: View, arena: seq<int>, more: seq<int>, r: Run)
    requires v.Valid() && RunOk(v, arena, r)
    ensures RunOk(v, arena + more, r) && Positions(arena + more, r) == Positions(arena, r)
  {
    hide Less, StoredKey;
    if !r.IsLiteral() {
      assert (arena + more)[r.Begin()..r.Begin() + r.Count()] == arena[r.Begin()..r.Begin() + r.Count()];
    }
  }

  lemma {:induction false} ExpandInLongerArena(v: View, arena: seq<int>, more: seq<int>, runs: seq<Run>)
    requires v.Valid() && RunsOk(v, arena, runs)
    ensures RunsOk(v, arena + more, runs)
    ensures Expand(v, arena + more, runs) == Expand(v, arena, runs)
    decreases |runs|
  {
    hide RunOk, Positions;
    forall i | 0 <= i < |runs| ensures RunOk(v, arena + more, runs[i]) {
      RunOkInLongerArena(v, arena, more, runs[i]);
    }
    if runs != [] {
      var k := |runs| - 1;
      assert RunsOk(v, arena, runs[..k]);
      ExpandInLongerArena(v, arena, more, runs[..k]);
      RunOkInLongerArena(v, arena, more, runs[k]);
    }
  }

  /** One appended group: its record is sound and stands for exactly the group. */
  lemma AppendGroupConserves(v: View, e: Emitted, group: seq<int>)
    requires v.Valid() && RunsOk(v, e.arena, e.runs)
    requires group != [] && InText(v.Text(), group) && Sorted(v.Text(), group)
    requires forall i :: 0 <= i < |group| ==> LoadKey(v, group[i]) == LoadKey(v, group[0])
    requires |e.arena| + |group| <= ARENA_INDEX_COUNT
    ensures var e' := AppendGroup(e, LoadKey(v, group[0]), group);
            && RunsOk(v, e'.arena, e'.runs)
            && Expand(v, e'.arena, e'.runs) == Expand(v, e.arena, e.runs) + group
  {
    hide Less, LoadKey, RadixOrderKey, RunOk;
    var e' := AppendGroup(e, LoadKey(v, group[0]), group);
    var r := e'.runs[|e.runs|];
    assert RunOk(v, e'.arena, r) && Positions(e'.arena, r) == group by {
      NewRecord(v, e.arena, group);
    }
    assert RunsOk(v, e'.arena, e.runs) && Expand(v, e'.arena, e.runs) == Expand(v, e.arena, e.runs) by {
      if |group| > 1 {
        ExpandInLongerArena(v, e.arena, group, e.runs);
      }
    }
    assert e'.runs[..|e.runs|] == e.runs;
  }

  lemma NewRecord(v: View, arena: seq<int>, group: seq<int>)
    requires v.Valid() && group != [] && InText(v.Text(), group) && Sorted(v.Text(), group)
    requires forall i :: 0 <= i < |group| ==> LoadKey(v, group[i]) == LoadKey(v, group[0])
    requires |arena| + |group| <= ARENA_INDEX_COUNT
    ensures |group| == 1 ==>
              var r := Run(RadixOrderKey(LoadKey(v, group[0])), group[0]);
              RunOk(v, arena, r) && Positions(arena, r) == group
    ensures |group| > 1 ==>
              var r := Run(RadixOrderKey(LoadKey(v, group[0])), |group| * COUNT_UNIT + |arena|);
              RunOk(v, arena + group, r) && Positions(arena + group, r) == group
  {
    hide Less, LoadKey, RadixOrderKey;
    var key := RadixOrderKey(LoadKey(v, group[0]));
    if |group| == 1 {
      PackingDecodes(key, 0, group[0]);
      assert Positions(arena, Run(key, group[0])) == group;
    } else {
      PackingDecodes(key, |group|, |arena|);
      assert Positions(arena + group, Run(key, |group| * COUNT_UNIT + |arena|)) == group;
    }
  }

  /** The records of one sorted column are sound and stand for exactly the column, in order. */
  lemma {:induction false} EmitOrderConserves(v: View, e: Emitted, order: seq<int>)
    requires v.Valid() && RunsOk(v, e.arena, e.runs)
    requires InText(v.Text(), order) && Sorted(v.Text(), order)
    requires |e.arena| + |order| <= ARENA_INDEX_COUNT
    ensures var e' := EmitOrder(v, e, order);
            && RunsOk(v, e'.arena, e'.runs)
            && Expand(v, e'.arena, e'.runs) == Expand(v, e.arena, e.runs) + order
    decreases |order|
  {
    hide Less, LoadKey, RunsOk, Expand, Sorted, LeadingEqual;
    if order == [] {
      assert Expand(v, e.arena, e.runs) + order == Expand(v, e.arena, e.runs);
    } else {
      var c := LeadingEqual(v, order);
      SortedSlices(v.Text(), order, c);
      AppendGroupConserves(v, e, order[..c]);
      var e1 := AppendGroup(e, LoadKey(v, order[0]), order[..c]);
      EmitOrderConserves(v, e1, order[c..]);
      assert Expand(v, e.arena, e.runs) + order[..c] + order[c..] == Expand(v, e.arena, e.runs) + order;
    }
  }

  // ----- Emitting a template run -----

  /** Column rel of the groups start .. start + count - 1. */
  ghost function Column(start: nat, count: nat, rel: nat): seq<int> {
    seq(count, i requires 0 <= i => (start + i) * 256 + rel)
  }

  ghost predicate GroupsInText(v: View, start: nat, count: nat) {
    (start + count) * 256 <= v.logicalLen
  }

  lemma ColumnInText(v: View, start: nat, count: nat, rel: nat)
    requires v.Valid() && GroupsInText(v, start, count) && rel < 256
    ensures InText(v.Text(), Column(start, count, rel))
  {
  }

  /** One column of a template run, sorted by full suffix. */
  ghost function ColumnOrder(v: View, start: nat, count: nat, rel: nat): (order: seq<int>)
    requires v.Valid() && GroupsInText(v, start, count) && rel < 256
    ensures InText(v.Text(), order) && |order| == count
  {
    ColumnInText(v, start, count, rel);
    SortPositions(v.Text(), Column(start, count, rel))
  }

  /** The records of columns rel, rel - 1, ..., 0 of a template run. */
  ghost function EmitColumns(v: View, e: Emitted, start: nat, count: nat, rel: nat): Emitted
    requires v.Valid() && GroupsInText(v, start, count) && rel < 256
    decreases rel
  {
    var e' := EmitOrder(v, e, ColumnOrder(v, start, count, rel));
    if rel == 0 then e' else EmitColumns(v, e', start, count, rel - 1)
  }

  /** emitLiteralRecords: one literal for each position from on. */
  ghost function EmitLiterals(v: View, e: Emitted, from: nat, count: nat): Emitted
    requires v.Valid() && from + count <= v.logicalLen
    decreases count
  {
    if count == 0 then e
    else
      var e' := EmitLiterals(v, e, from, count - 1);
      var pos := from + count - 1;
      Emitted(e'.arena, e'.runs + [Run(StoredKey(v, pos), pos)])
  }

  /** emitFullGroupRun: what one template run of count groups emits. */
  ghost function EmitRun(v: View, e: Emitted, start: nat, count: nat): Emitted
    requires v.Valid() && GroupsInText(v, start, count)
  {
    if count == 0 then e
    else if count == 1 then EmitLiterals(v, e, start * 256, 256)
    else EmitColumns(v, e, start, count, 255)
  }

  lemma {:induction false} EmitColumnsGrows(v: View, e: Emitted, start: nat, count: nat, rel: nat)
    requires v.Valid() && GroupsInText(v, start, count) && rel < 256
    ensures |e.arena| <= |EmitColumns(v, e, start, count, rel).arena| <= |e.arena| + count * (rel + 1)
    decreases rel
  {
    hide EmitOrder, ColumnOrder;
    var order := ColumnOrder(v, start, count, rel);
    EmitOrderGrows(v, e, order);
    if rel > 0 {
      EmitColumnsGrows(v, EmitOrder(v, e, order), start, count, rel - 1);
      assert count * (rel + 1) == count * rel + count;
    }
  }

  // ----- Conservation -----

  /** The records of e are sound and stand for each position of s once, and for no other. */
  ghost predicate Lists(v: View, e: Emitted, s: set<int>)
    requires v.Valid()
  {
    && RunsOk(v, e.arena, e.runs)
    && multiset(Expand(v, e.arena, e.runs)) == multiset(s)
  }

  /** The positions of columns rel .. 255 of a template run. */
  ghost function ColumnsFrom(start: nat, count: nat, rel: nat): set<int> {
    set p | start * 256 <= p < (start + count) * 256 && p % 256 >= rel
  }

  lemma ColumnMultiset(start: nat, count: nat, rel: nat)
    requires rel < 256
    ensures multiset(Column(start, count, rel)) == multiset(ColumnsFrom(start, count, rel) - ColumnsFrom(start, count, rel + 1))
  {
    var column := Column(start, count, rel);
    var s := ColumnsFrom(start, count, rel) - ColumnsFrom(start, count, rel + 1);
    forall p ensures multiset(column)[p] == multiset(s)[p] {
      DistinctMultiset(column, p);
      if p in s {
        assert column[p / 256 - start] == p;
      }
      if p in column {
        var i :| 0 <= i < count && column[i] == p;
        assert p == (start + i) * 256 + rel;
      }
    }
  }

  lemma UnionMultiset(a: set<int>, b: set<int>)
    requires a !! b
    ensures multiset(a + b) == multiset(a) + multiset(b)
  {
  }

  /** A column adds exactly its own positions. */
  lemma ListsColumn(v: View, e: Emitted, s: set<int>, start: nat, count: nat, rel: nat)
    requires v.Valid() && GroupsInText(v, start, count) && rel < 256
    requires Lists(v, e, s + ColumnsFrom(start, count, rel + 1)) && s !! ColumnsFrom(start, count, 0)
    requires |e.arena| + count <= ARENA_INDEX_COUNT
    ensures Lists(v, EmitOrder(v, e, ColumnOrder(v, start, count, rel)), s + ColumnsFrom(start, count, rel))
  {
    hide Less, RunsOk, Expand, EmitOrder, Column, SortPositions, Sorted;
    ColumnInText(v, start, count, rel);
    var order := ColumnOrder(v, start, count, rel);
    SortPositionsSorted(v.Text(), Column(start, count, rel));
    EmitOrderConserves(v, e, order);
    ColumnMultiset(start, count, rel);
    var before, after := s + ColumnsFrom(start, count, rel + 1), s + ColumnsFrom(start, count, rel);
    var new_ := ColumnsFrom(start, count, rel) - ColumnsFrom(start, count, rel + 1);
    assert after == before + new_;
    UnionMultiset(before, new_);
  }

  lemma {:induction false} ListsColumns(v: View, e: Emitted, s: set<int>, start: nat, count: nat, rel: nat)
    requires v.Valid() && GroupsInText(v, start, count) && rel < 256
    requires Lists(v, e, s + ColumnsFrom(start, count, rel + 1)) && s !! ColumnsFrom(start, count, 0)
    requires |e.arena| + count * (rel + 1) <= ARENA_INDEX_COUNT
    ensures Lists(v, EmitColumns(v, e, start, count, rel), s + ColumnsFrom(start, count, 0))
    decreases rel
  {
    hide Less, RunsOk, Expand, EmitOrder, ColumnOrder, Lists, ColumnsFrom;
    assert count * (rel + 1) == count * rel + count;
    ListsColumn(v, e, s, start, count, rel);
    if rel > 0 {
      var order := ColumnOrder(v, start, count, rel);
      EmitOrderGrows(v, e, order);
      ListsColumns(v, EmitOrder(v, e, order), s, start, count, rel - 1);
    }
  }

  predicate Between(from: int, p: int, to: int) {
    from <= p < to
  }

  ghost function Range(from: int, to: int): set<int> {
    set p | from <= p < to && Between(from, p, to)
  }

  /** Literal records list the range they run over. */
  lemma {:induction false} ListsLiterals(v: View, e: Emitted, from: nat, count: nat)
    requires v.Valid() && from + count <= v.logicalLen
    requires Lists(v, e, Range(0, from))
    ensures Lists(v, EmitLiterals(v, e, from, count), Range(0, from + count))
    ensures EmitLiterals(v, e, from, count).arena == e.arena
    decreases count
  {
    hide Less, RunsOk, Expand, LoadKey, RadixOrderKey;
    if count > 0 {
      ListsLiterals(v, e, from, count - 1);
      var e' := EmitLiterals(v, e, from, count - 1);
      var pos := from + count - 1;
      ListsLiteral(v, e', pos);
    }
  }

  lemma ListsLiteral(v: View, e: Emitted, pos: nat)
    requires v.Valid() && pos < v.logicalLen
    requires Lists(v, e, Range(0, pos))
    ensures Lists(v, Emitted(e.arena, e.runs + [Run(StoredKey(v, pos), pos)]), Range(0, pos + 1))
  {
    hide Less, RunOk, Positions, LoadKey, RadixOrderKey;
    var r := Run(StoredKey(v, pos), pos);
    assert RunOk(v, e.arena, r) && Positions(e.arena, r) == [pos] by {
      LiteralRecord(v, e.arena, pos);
    }
    assert (e.runs + [r])[..|e.runs|] == e.runs;
    assert Range(0, pos + 1) == Range(0, pos) + {pos};
    UnionMultiset(Range(0, pos), {pos});
  }

  lemma LiteralRecord(v: View, arena: seq<int>, pos: nat)
    requires v.Valid() && pos < v.logicalLen
    ensures RunOk(v, arena, Run(StoredKey(v, pos), pos))
    ensures Positions(arena, Run(StoredKey(v, pos), pos)) == [pos]
  {
    hide Less, StoredKey;
    PackingDecodes(StoredKey(v, pos), 0, pos);
  }

  /** A template run lists its groups, and its spilled positions never number more than its bytes. */
  lemma ListsRun(v: View, e: Emitted, start: nat, count: nat)
    requires v.Valid() && GroupsInText(v, start, count)
    requires Lists(v, e, Range(0, start * 256)) && |e.arena| <= start * 256
    ensures Lists(v, EmitRun(v, e, start, count), Range(0, (start + count) * 256))
    ensures |EmitRun(v, e, start, count).arena| <= (start + count) * 256
  {
    hide Less, RunsOk, Expand, EmitColumns, EmitLiterals, Lists;
    if count == 1 {
      ListsLiterals(v, e, start * 256, 256);
    } else if count > 1 {
      assert Range(0, start * 256) + ColumnsFrom(start, count, 256) == Range(0, start * 256);
      ListsColumns(v, e, Range(0, start * 256), start, count, 255);
      assert Range(0, start * 256) + ColumnsFrom(start, count, 0) == Range(0, (start + count) * 256);
      EmitColumnsGrows(v, e, start, count, 255);
    }
  }
}
