/** The descriptor suffix array end to end: group-boundary flags from the template markers, the emit
    stage over the template runs, and the merge stage. */
module V114 {
  import opened Suffixes
  import opened Sorting
  import opened CountingSort
  import opened V114Keys
  import opened V114Records
  import opened V114Emit
  import opened V114Merge
  import opened HashScratch

  const MAX_TEMPLATES: nat := 277

  /** A marker names the group behind its template as a boundary. */
  predicate MarksBoundary(marker: uint16, group: int) {
    marker % 0x80 != 0 && marker / 0x80 + marker % 0x80 == group
  }

  /** buildStage5Flags: flag the groups at which a template run begins.  Any marker contents will do. */
  method BuildStage5Flags(markers: array<uint16>, nTemplates: nat, logicalLen: nat, flags: array<byte>)
    returns (flagsLen: nat)
    requires markers.Length >= MAX_TEMPLATES
    modifies flags
    ensures flagsLen == if logicalLen == 0 || flags.Length < logicalLen / 256 + 1 then 0 else logicalLen / 256 + 1
    ensures flagsLen == 0 ==> flags[..] == old(flags[..])
    ensures forall group :: 0 <= group < flagsLen ==>
              (flags[group] != 0 <==>
               group == 0 || exists i :: 0 <= i < nTemplates && i < MAX_TEMPLATES && MarksBoundary(markers[i], group))
  {
    if logicalLen == 0 {
      return 0;
    }
    flagsLen := logicalLen / 256 + 1;
    if flags.Length < flagsLen {
      return 0;
    }
    var g := 0;
    while g < flagsLen
      invariant 0 <= g <= flagsLen
      invariant forall k :: 0 <= k < g ==> flags[k] == 0
    {
      flags[g] := 0;
      g := g + 1;
    }
    flags[0] := 1;
    var limit := nTemplates;
    if limit > MAX_TEMPLATES {
      limit := MAX_TEMPLATES;
    }
    var i := 0;
    while i < limit
      invariant 0 <= i <= limit
      invariant forall group :: 0 <= group < flagsLen ==>
                  (flags[group] != 0 <==> group == 0 || exists k :: 0 <= k < i && MarksBoundary(markers[k], group))
    {
      var startGroup, groupCount := markers[i] / 0x80, markers[i] % 0x80;
      var boundary := startGroup + groupCount;
      if groupCount != 0 && boundary > 0 && boundary < flagsLen {
        flags[boundary] := 1;
      }
      i := i + 1;
    }
  }

  /** The state between two template runs: everything before group runStart has been emitted. */
  ghost predicate EmittedUpTo(view: View, e: Emitted, runStart: nat)
    requires view.Valid()
  {
    Lists(view, e, Range(0, runStart * 256)) && |e.arena| <= runStart * 256
  }

  lemma NothingEmitted(view: View)
    requires view.Valid()
    ensures EmittedUpTo(view, Emitted([], []), 0)
  {
    EmptyExpansion(view, []);
    assert Range(0, 0) == {};
  }

  /** Emit the template runs between flagged groups, then the partial group at the end.  With whole
      groups inside the arena bound, no run is ever declined. */
  method EmitAll(view: View, flags: array<byte>, v: V114Scratch) returns (ok: bool)
    requires view.Valid() && view.logicalLen / 256 < flags.Length
    requires v.State() == Emitted([], [])
    modifies v
    ensures ok && Lists(view, v.State(), Range(0, view.logicalLen))
  {
    hide Lists, EmitRun, EmitLiterals;
    NothingEmitted(view);
    var fullGroups := view.logicalLen / 256;
    var runStart := 0;
    var group := 1;
    while group <= fullGroups
      invariant 1 <= group <= fullGroups + 1 && 0 <= runStart < group
      invariant group == fullGroups + 1 ==> runStart == fullGroups
      invariant EmittedUpTo(view, v.State(), runStart)
    {
      if flags[group] != 0 || group == fullGroups {
        ListsRun(view, v.State(), runStart, group - runStart);
        ok := EmitFullGroupRun(view, runStart, group, v);
        if !ok {
          return;
        }
        runStart := group;
      }
      group := group + 1;
    }
    ListsLiterals(view, v.State(), fullGroups * 256, view.logicalLen % 256);
    EmitLiteralRecords(view, fullGroups * 256, view.logicalLen % 256, v);
    ok := true;
  }

  /** Records that list 0 .. logicalLen - 1 are what the merge stage needs. */
  lemma ListedAll(view: View, e: Emitted)
    requires view.Valid() && Lists(view, e, Range(0, view.logicalLen))
    ensures RunsOk(view, e.arena, e.runs) && KeysFit(e.runs)
    ensures multiset(Expand(view, e.arena, e.runs)) == multiset(Iota(view.logicalLen))
    ensures |Expand(view, e.arena, e.runs)| == view.logicalLen
  {
    hide Less, StoredKey, Expand;
    forall i | 0 <= i < |e.runs| ensures e.runs[i].key < 0x1000000 {
      assert RunOk(view, e.arena, e.runs[i]);
      var p := Positions(e.arena, e.runs[i])[0];
      StoredKeyBytes(view, p);
    }
    var ps := Expand(view, e.arena, e.runs);
    forall p ensures multiset(ps)[p] == multiset(Iota(view.logicalLen))[p] {
      IotaMultiplicity(view.logicalLen, p);
    }
    assert |multiset(ps)| == |ps| && |multiset(Iota(view.logicalLen))| == view.logicalLen;
  }

  /** buildSAv114.  For every text, every number of templates and any marker contents: it declines
      only on a big-endian host, for an empty or oversized text, or without templates; otherwise
      sa[..logicalLen] is the suffix array of the text, which is left as it was. */
  method BuildSAv114(s: ScratchData, logicalLen: nat, littleEndian: bool) returns (ok: bool)
    requires s.Valid() && (logicalLen <= MAX_LENGTH || logicalLen > ARENA_INDEX_COUNT)
    modifies s, s.data, s.sa, s.flags, s.v114
    ensures ok <==> littleEndian && 0 < logicalLen <= ARENA_INDEX_COUNT && s.nTemplates != 0
    ensures s.nTemplates == old(s.nTemplates)
    ensures logicalLen <= MAX_LENGTH ==> s.data[..logicalLen] == old(s.data[..logicalLen])
    ensures ok ==> IsSuffixArray(s.data[..logicalLen], s.sa[..logicalLen])
  {
    hide Less, Lists, Expand, RunsOk, KeysFit, SortPositions;
    if !littleEndian || logicalLen == 0 || logicalLen > ARENA_INDEX_COUNT || s.nTemplates == 0 {
      return false;
    }
    s.data[logicalLen] := 0;
    s.data[logicalLen + 1] := 0;
    s.data[logicalLen + 2] := 0;
    s.data[logicalLen + 3] := 0;
    var flagsLen := BuildStage5Flags(s.markers, s.nTemplates, logicalLen, s.flags);
    if flagsLen == 0 {
      return false;
    }
    if s.v114 == null {
      s.v114 := new V114Scratch();
    }
    var v := s.v114;
    v.arena := [];
    v.runs := [];
    var view := View(s.data[..], logicalLen);
    ok := EmitAll(view, s.flags, v);
    if !ok {
      return;
    }
    ListedAll(view, v.State());
    ghost var ps := Expand(view, v.arena, v.runs);
    ok := WriteFusedRunsToSA(view, v, s.sa, logicalLen);
    SortPositionsSorted(view.Text(), ps);
    SortedIotaIsSuffixArray(view.Text(), s.sa[..logicalLen]);
    assert s.data[..logicalLen] == view.Text();
  }
}
