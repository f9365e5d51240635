/**
 Folding tablet rows into per-backend loads and table totals
 (backend/internal/service/storage_service.go:219-301). The rows are already mapped to fields.
 */
module TabletLoads {
  import opened Wrappers
  import opened Text
  import opened Totals
  import opened Sorting
  import opened Skew

  datatype Tablet = Tablet(
    backend: string,
    rows: Option<int>,
    bytes: Option<int>,
    rowsets: Option<int>,
    segments: Option<int>,
    state: string)

  datatype BackendLoad = BackendLoad(
    backend: string,
    tabletNum: int,
    rows: int,
    dataBytes: int,
    rowsetNum: int,
    segmentNum: int)

  datatype TabletSkew = TabletSkew(acrossBackends: Measure, acrossTablets: Measure, skewed: bool)

  datatype Summary = Summary(
    tabletTotal: int,
    rowsetTotal: int,
    segmentTotal: int,
    maxRowsetsPerTablet: int,
    maxSegmentsPerTablet: int,
    abnormalTablets: int,
    backends: seq<BackendLoad>,
    skew: TabletSkew)

  // ----- What each tablet contributes -----

  function One(t: Tablet): int { 1 }
  function RowsIn(t: Tablet): int { t.rows.GetOr(0) }
  function BytesIn(t: Tablet): int { t.bytes.GetOr(0) }
  function RowsetsIn(t: Tablet): int { t.rowsets.GetOr(0) }
  function SegmentsIn(t: Tablet): int { t.segments.GetOr(0) }
  function Abnormal(t: Tablet): int { if ToUpper(t.state) in {"RUNNING", "NORMAL", ""} then 0 else 1 }

  /** The same contribution, counted for one backend only. */
  function Only(backend: string, f: Tablet -> int): Tablet -> int {
    (t: Tablet) => if t.backend == backend then f(t) else 0
  }

  /** The backends that hold a tablet. */
  function Ids(tablets: seq<Tablet>): set<string> {
    if tablets == [] then {} else Ids(tablets[..|tablets| - 1]) + {tablets[|tablets| - 1].backend}
  }

  lemma {:induction false} IdsAreBackends(tablets: seq<Tablet>)
    ensures forall t :: t in tablets ==> t.backend in Ids(tablets)
    ensures forall id :: id in Ids(tablets) ==> exists t :: t in tablets && t.backend == id
  {
    if tablets != [] {
      var n := |tablets| - 1;
      IdsAreBackends(tablets[..n]);
      assert tablets == tablets[..n] + [tablets[n]];
    }
  }

  function LoadOf(tablets: seq<Tablet>, backend: string): BackendLoad {
    BackendLoad(
      backend,
      Sum(tablets, Only(backend, One)),
      Sum(tablets, Only(backend, RowsIn)),
      Sum(tablets, Only(backend, BytesIn)),
      Sum(tablets, Only(backend, RowsetsIn)),
      Sum(tablets, Only(backend, SegmentsIn)))
  }

  function IdOf(l: BackendLoad): string { l.backend }

  /** The loads are of these backends and no others. */
  ghost predicate Covers(loads: seq<BackendLoad>, ids: set<string>) {
    forall id :: id in ids <==> id in Map(loads, IdOf)
  }

  /** One load per backend that holds a tablet, in strict order of backend id. */
  ghost predicate AreBackends(tablets: seq<Tablet>, loads: seq<BackendLoad>) {
    && Ascending(Map(loads, IdOf), StringLess)
    && Covers(loads, Ids(tablets))
    && (forall l :: l in loads ==> l == LoadOf(tablets, l.backend))
  }

  function RowsOf(l: BackendLoad): int { l.rows }
  function BytesOf(l: BackendLoad): int { l.dataBytes }

  /** Skew between backends is undefined for fewer than two; either level can make a table skewed. */
  function SkewOf(loads: seq<BackendLoad>, tabletRows: seq<int>, tabletBytes: seq<int>): TabletSkew
    requires |tabletRows| == |tabletBytes|
  {
    var backends := if |loads| >= 2 then MeasureSkew(Map(loads, RowsOf), Map(loads, BytesOf)) else Measure(None, None, false);
    var tablets := MeasureSkew(tabletRows, tabletBytes);
    TabletSkew(backends, tablets, backends.skewed || tablets.skewed)
  }

  /** What the summary of a table's tablets is, whatever the order they were read in. */
  ghost predicate IsSummary(tablets: seq<Tablet>, s: Summary) {
    && s.tabletTotal == |tablets|
    && s.rowsetTotal == Sum(tablets, RowsetsIn)
    && s.segmentTotal == Sum(tablets, SegmentsIn)
    && s.maxRowsetsPerTablet == Max0(tablets, RowsetsIn)
    && s.maxSegmentsPerTablet == Max0(tablets, SegmentsIn)
    && s.abnormalTablets == Sum(tablets, Abnormal)
    && AreBackends(tablets, s.backends)
    && s.skew == SkewOf(s.backends, Map(tablets, RowsIn), Map(tablets, BytesIn))
  }

  // ----- The fold -----

  /** An accumulator on the heap, one per backend. */
  class Load {
    const backend: string
    var tabletNum: int
    var rows: int
    var dataBytes: int
    var rowsetNum: int
    var segmentNum: int

    ghost function Abs(): BackendLoad
      reads this
    {
      BackendLoad(backend, tabletNum, rows, dataBytes, rowsetNum, segmentNum)
    }

    constructor (backend: string)
      ensures Abs() == BackendLoad(backend, 0, 0, 0, 0, 0)
    {
      this.backend := backend;
      tabletNum, rows, dataBytes, rowsetNum, segmentNum := 0, 0, 0, 0, 0;
    }

    method Add(t: Tablet)
      modifies this
      ensures Abs() == Plus(old(Abs()), t)
    {
      tabletNum := tabletNum + 1;
      if t.rows.Some? { rows := rows + t.rows.value; }
      if t.bytes.Some? { dataBytes := dataBytes + t.bytes.value; }
      if t.rowsets.Some? { rowsetNum := rowsetNum + t.rowsets.value; }
      if t.segments.Some? { segmentNum := segmentNum + t.segments.value; }
    }
  }

  lemma CountsOneMore(before: seq<Tablet>, t: Tablet)
    ensures Sum(before + [t], RowsetsIn) == Sum(before, RowsetsIn) + RowsetsIn(t)
    ensures Sum(before + [t], SegmentsIn) == Sum(before, SegmentsIn) + SegmentsIn(t)
    ensures Sum(before + [t], Abnormal) == Sum(before, Abnormal) + Abnormal(t)
    ensures var m := Max0(before, RowsetsIn); Max0(before + [t], RowsetsIn) == if RowsetsIn(t) > m then RowsetsIn(t) else m
    ensures var m := Max0(before, SegmentsIn); Max0(before + [t], SegmentsIn) == if SegmentsIn(t) > m then SegmentsIn(t) else m
    ensures Max0(before, RowsetsIn) >= 0 && Max0(before, SegmentsIn) >= 0
  {
    SumOneMore(before, t, RowsetsIn);
    SumOneMore(before, t, SegmentsIn);
    SumOneMore(before, t, Abnormal);
    Max0OneMore(before, t, RowsetsIn);
    Max0OneMore(before, t, SegmentsIn);
    Max0IsMax(before, RowsetsIn);
    Max0IsMax(before, SegmentsIn);
  }

  class Detail {
    var tabletTotal: int
    var rowsetTotal: int
    var segmentTotal: int
    var maxRowsetsPerTablet: int
    var maxSegmentsPerTablet: int
    var abnormalTablets: int
    var backends: seq<BackendLoad>
    var skew: TabletSkew

    ghost function Abs(): Summary
      reads this
    {
      Summary(tabletTotal, rowsetTotal, segmentTotal, maxRowsetsPerTablet, maxSegmentsPerTablet, abnormalTablets,
              backends, skew)
    }

    /** The totals over the tablets read so far. */
    ghost predicate Counts(tablets: seq<Tablet>)
      reads this
    {
      && tabletTotal == |tablets|
      && rowsetTotal == Sum(tablets, RowsetsIn)
      && segmentTotal == Sum(tablets, SegmentsIn)
      && maxRowsetsPerTablet == Max0(tablets, RowsetsIn)
      && maxSegmentsPerTablet == Max0(tablets, SegmentsIn)
      && abnormalTablets == Sum(tablets, Abnormal)
    }

    constructor ()
      ensures Counts([])
    {
      tabletTotal, rowsetTotal, segmentTotal := 0, 0, 0;
      maxRowsetsPerTablet, maxSegmentsPerTablet, abnormalTablets := 0, 0, 0;
      backends := [];
      skew := TabletSkew(Measure(None, None, false), Measure(None, None, false), false);
    }

    method Count(ghost before: seq<Tablet>, t: Tablet)
      requires Counts(before)
      modifies this
      ensures Counts(before + [t])
    {
      tabletTotal := tabletTotal + 1;
      if t.rowsets.Some? {
        rowsetTotal := rowsetTotal + t.rowsets.value;
        maxRowsetsPerTablet := if t.rowsets.value > maxRowsetsPerTablet then t.rowsets.value else maxRowsetsPerTablet;
      }
      if t.segments.Some? {
        segmentTotal := segmentTotal + t.segments.value;
        maxSegmentsPerTablet := if t.segments.value > maxSegmentsPerTablet then t.segments.value else maxSegmentsPerTablet;
      }
      if ToUpper(t.state) !in {"RUNNING", "NORMAL", ""} {
        abnormalTablets := abnormalTablets + 1;
      }
      CountsOneMore(before, t);
    }
  }

  function Plus(l: BackendLoad, t: Tablet): BackendLoad {
    BackendLoad(l.backend, l.tabletNum + 1, l.rows + RowsIn(t), l.dataBytes + BytesIn(t),
                l.rowsetNum + RowsetsIn(t), l.segmentNum + SegmentsIn(t))
  }

  lemma LoadOfOneMore(tablets: seq<Tablet>, t: Tablet, backend: string)
    ensures var before := LoadOf(tablets, backend);
            LoadOf(tablets + [t], backend) == if t.backend == backend then Plus(before, t) else before
  {
    OnlyOneMore(tablets, t, backend, One);
    OnlyOneMore(tablets, t, backend, RowsIn);
    OnlyOneMore(tablets, t, backend, BytesIn);
    OnlyOneMore(tablets, t, backend, RowsetsIn);
    OnlyOneMore(tablets, t, backend, SegmentsIn);
  }

  lemma OnlyOneMore(tablets: seq<Tablet>, t: Tablet, backend: string, f: Tablet -> int)
    ensures Sum(tablets + [t], Only(backend, f)) ==
            Sum(tablets, Only(backend, f)) + if t.backend == backend then f(t) else 0
  {
    SumOneMore(tablets, t, Only(backend, f));
  }

  lemma LoadsOneMore(tablets: seq<Tablet>, t: Tablet)
    ensures forall id :: LoadOf(tablets + [t], id) ==
                         if id == t.backend then Plus(LoadOf(tablets, id), t) else LoadOf(tablets, id)
  {
    forall id
      ensures LoadOf(tablets + [t], id) == if id == t.backend then Plus(LoadOf(tablets, id), t) else LoadOf(tablets, id)
    {
      LoadOfOneMore(tablets, t, id);
    }
  }

  lemma IdsOneMore(tablets: seq<Tablet>, t: Tablet)
    ensures Ids(tablets + [t]) == Ids(tablets) + {t.backend}
  {
    assert (tablets + [t])[..|tablets|] == tablets;
  }

  /** A backend without tablets has an empty load. */
  lemma {:induction false} NoTablets(tablets: seq<Tablet>, backend: string)
    requires backend !in Ids(tablets)
    ensures LoadOf(tablets, backend) == BackendLoad(backend, 0, 0, 0, 0, 0)
  {
    if tablets != [] {
      var n := |tablets| - 1;
      NoTablets(tablets[..n], backend);
      LoadOfOneMore(tablets[..n], tablets[n], backend);
      assert tablets == tablets[..n] + [tablets[n]];
    }
  }

  ghost predicate Accumulated(loads: map<string, Load>, tablets: seq<Tablet>)
    reads loads.Values
  {
    && loads.Keys == Ids(tablets)
    && forall id :: id in loads ==> loads[id].backend == id && loads[id].Abs() == LoadOf(tablets, id)
  }

  /** The accumulator of a backend is looked up, or made on its first tablet. */
  method Lookup(loads: map<string, Load>, ghost tablets: seq<Tablet>, backend: string)
    returns (more: map<string, Load>, load: Load)
    requires Accumulated(loads, tablets)
    ensures more.Keys == Ids(tablets) + {backend} && more[backend] == load
    ensures forall id :: id in more ==> more[id].backend == id && more[id].Abs() == LoadOf(tablets, id)
    ensures forall id :: id in more ==> (id in loads && more[id] == loads[id]) || fresh(more[id])
  {
    if backend in loads {
      return loads, loads[backend];
    }
    load := new Load(backend);
    NoTablets(tablets, backend);
    return loads[backend := load], load;
  }

  /** One tablet is added to its accumulator, where it is; the others are left alone. */
  method Accumulate(loads: map<string, Load>, ghost tablets: seq<Tablet>, t: Tablet) returns (more: map<string, Load>)
    requires Accumulated(loads, tablets)
    modifies loads.Values
    ensures Accumulated(more, tablets + [t])
    ensures forall id :: id in more ==> (id in loads && more[id] == loads[id]) || fresh(more[id])
  {
    var load;
    more, load := Lookup(loads, tablets, t.backend);
    IdsOneMore(tablets, t);
    LoadsOneMore(tablets, t);
    load.Add(t);
  }

  predicate ByBackend(a: BackendLoad, b: BackendLoad) {
    StringLess(a.backend, b.backend)
  }

  ghost predicate DistinctIds(loads: seq<BackendLoad>) {
    Distinct(Map(loads, IdOf))
  }

  /** The loads in whatever order the map yields them. */
  method Enumerate(loads: map<string, Load>, ghost tablets: seq<Tablet>) returns (out: seq<BackendLoad>)
    requires Accumulated(loads, tablets)
    ensures forall l :: l in out ==> l == LoadOf(tablets, l.backend)
    ensures Covers(out, Ids(tablets)) && DistinctIds(out)
  {
    out := [];
    var pending := loads.Keys;
    while pending != {}
      invariant pending <= loads.Keys
      invariant forall l :: l in out ==> l == LoadOf(tablets, l.backend)
      invariant Covers(out, loads.Keys - pending) && DistinctIds(out)
      decreases pending
    {
      var id :| id in pending;
      var load := loads[id];
      var value := BackendLoad(load.backend, load.tabletNum, load.rows, load.dataBytes, load.rowsetNum, load.segmentNum);
      assert id !in Map(out, IdOf);
      MapOneMore(out, value, IdOf);
      DistinctOneMore(Map(out, IdOf), id);
      out := out + [value];
      pending := pending - {id};
    }
  }

  lemma ByBackendIsOrder()
    ensures StrictWeakOrder(ByBackend)
  {
    StringLessIsTotal();
  }

  lemma SortedLoads(tablets: seq<Tablet>, loads: seq<BackendLoad>)
    requires forall l :: l in loads ==> l == LoadOf(tablets, l.backend)
    requires Covers(loads, Ids(tablets)) && DistinctIds(loads)
    ensures AreBackends(tablets, StableSort(loads, ByBackend))
  {
    var sorted := StableSort(loads, ByBackend);
    ByBackendIsOrder();
    StableSortSorts(loads, ByBackend);
    SortedLoadsAscend(tablets, loads, sorted);
  }

  lemma SortedLoadsAscend(tablets: seq<Tablet>, loads: seq<BackendLoad>, sorted: seq<BackendLoad>)
    requires forall l :: l in loads ==> l == LoadOf(tablets, l.backend)
    requires Covers(loads, Ids(tablets)) && DistinctIds(loads)
    requires multiset(sorted) == multiset(loads) && Sorted(sorted, ByBackend)
    ensures AreBackends(tablets, sorted)
  {
    MapForgetsOrder(loads, sorted, IdOf);
    DistinctForgetsOrder(Map(loads, IdOf), Map(sorted, IdOf));
    assert forall id :: id in Map(loads, IdOf) <==> id in multiset(Map(sorted, IdOf));
    assert forall l :: l in sorted ==> l in multiset(loads);
    var ids := Map(sorted, IdOf);
    forall i, j | 0 <= i < j < |ids|
      ensures StringLess(ids[i], ids[j])
    {
      assert !ByBackend(sorted[j], sorted[i]);
      StringLessTrichotomy(sorted[i].backend, sorted[j].backend);
    }
  }

  method ComputeSkew(loads: seq<BackendLoad>, tabletRows: seq<int>, tabletBytes: seq<int>) returns (skew: TabletSkew)
    requires |tabletRows| == |tabletBytes|
    ensures skew == SkewOf(loads, tabletRows, tabletBytes)
  {
    var acrossTablets := MeasureSkew(tabletRows, tabletBytes);
    var acrossBackends := Measure(None, None, false);
    if |loads| >= 2 {
      var rows, bytes := [], [];
      for i := 0 to |loads|
        invariant rows == Map(loads[..i], RowsOf) && bytes == Map(loads[..i], BytesOf)
      {
        MapOneMore(loads[..i], loads[i], RowsOf);
        MapOneMore(loads[..i], loads[i], BytesOf);
        assert loads[..i + 1] == loads[..i] + [loads[i]];
        rows := rows + [loads[i].rows];
        bytes := bytes + [loads[i].dataBytes];
      }
      assert loads[..|loads|] == loads;
      acrossBackends := MeasureSkew(rows, bytes);
    }
    skew := TabletSkew(acrossBackends, acrossTablets, acrossBackends.skewed || acrossTablets.skewed);
  }

  /** One pass of the loop over the rows. */
  method AddRow(detail: Detail, loads: map<string, Load>, ghost tablets: seq<Tablet>, t: Tablet)
    returns (more: map<string, Load>)
    requires detail.Counts(tablets) && Accumulated(loads, tablets)
    modifies detail, loads.Values
    ensures detail.Counts(tablets + [t]) && Accumulated(more, tablets + [t])
    ensures forall id :: id in more ==> (id in loads && more[id] == loads[id]) || fresh(more[id])
  {
    detail.Count(tablets, t);
    more := Accumulate(loads, tablets, t);
  }

  /** The pass over the rows. */
  method FoldRows(detail: Detail, tablets: seq<Tablet>)
    returns (loads: map<string, Load>, tabletRows: seq<int>, tabletBytes: seq<int>)
    requires detail.Counts([])
    modifies detail
    ensures detail.Counts(tablets) && Accumulated(loads, tablets)
    ensures tabletRows == Map(tablets, RowsIn) && tabletBytes == Map(tablets, BytesIn)
  {
    loads, tabletRows, tabletBytes := map[], [], [];
    for i := 0 to |tablets|
      invariant detail.Counts(tablets[..i])
      invariant Accumulated(loads, tablets[..i])
      invariant forall id :: id in loads ==> fresh(loads[id])
      invariant tabletRows == Map(tablets[..i], RowsIn) && tabletBytes == Map(tablets[..i], BytesIn)
    {
      PrefixOneMore(tablets, i);
      loads := AddRow(detail, loads, tablets[..i], tablets[i]);
      tabletRows := tabletRows + [RowsIn(tablets[i])];
      tabletBytes := tabletBytes + [BytesIn(tablets[i])];
    }
    assert tablets[..|tablets|] == tablets;
  }

  lemma PrefixOneMore(tablets: seq<Tablet>, i: nat)
    requires i < |tablets|
    ensures tablets[..i + 1] == tablets[..i] + [tablets[i]]
    ensures Map(tablets[..i + 1], RowsIn) == Map(tablets[..i], RowsIn) + [RowsIn(tablets[i])]
    ensures Map(tablets[..i + 1], BytesIn) == Map(tablets[..i], BytesIn) + [BytesIn(tablets[i])]
  {
    assert tablets[..i + 1] == tablets[..i] + [tablets[i]];
    MapOneMore(tablets[..i], tablets[i], RowsIn);
    MapOneMore(tablets[..i], tablets[i], BytesIn);
  }

  /** The summary depends on neither the order of the rows nor that of the map. */
  method ApplyTabletLoads(detail: Detail, tablets: seq<Tablet>)
    requires detail.Counts([])
    modifies detail
    ensures IsSummary(tablets, detail.Abs())
  {
    var loads, tabletRows, tabletBytes := FoldRows(detail, tablets);
    var enumerated := Enumerate(loads, tablets);
    SortedLoads(tablets, enumerated);
    var backends := StableSort(enumerated, ByBackend);
    detail.backends := backends;
    detail.skew := ComputeSkew(backends, tabletRows, tabletBytes);
  }

  // ----- Conservation -----

  /** The sum over some backends of what each holds. */
  function SumHeld(loads: seq<BackendLoad>, tablets: seq<Tablet>, f: Tablet -> int): int {
    if loads == [] then 0
    else SumHeld(loads[..|loads| - 1], tablets, f) + Sum(tablets, Only(loads[|loads| - 1].backend, f))
  }

  lemma {:induction false} OneMoreHeld(loads: seq<BackendLoad>, tablets: seq<Tablet>, t: Tablet, f: Tablet -> int)
    requires DistinctIds(loads)
    ensures SumHeld(loads, tablets + [t], f) ==
            SumHeld(loads, tablets, f) + if t.backend in Map(loads, IdOf) then f(t) else 0
  {
    if loads != [] {
      var n := |loads| - 1;
      OneMoreHeld(loads[..n], tablets, t, f);
      MapOneMore(loads[..n], loads[n], IdOf);
      assert loads == loads[..n] + [loads[n]];
      SumOneMore(tablets, t, Only(loads[n].backend, f));
    }
  }

  lemma {:induction false} NothingHeld(loads: seq<BackendLoad>, f: Tablet -> int)
    ensures SumHeld(loads, [], f) == 0
  {
    if loads != [] {
      NothingHeld(loads[..|loads| - 1], f);
    }
  }

  /** Backends that between them hold every tablet hold all of anything. */
  lemma {:induction false} HeldIsAll(loads: seq<BackendLoad>, tablets: seq<Tablet>, f: Tablet -> int)
    requires DistinctIds(loads)
    requires forall id :: id in Ids(tablets) ==> id in Map(loads, IdOf)
    ensures SumHeld(loads, tablets, f) == Sum(tablets, f)
    decreases |tablets|
  {
    if tablets == [] {
      NothingHeld(loads, f);
    } else {
      var n := |tablets| - 1;
      HeldIsAll(loads, tablets[..n], f);
      OneMoreHeld(loads, tablets[..n], tablets[n], f);
      assert tablets == tablets[..n] + [tablets[n]];
    }
  }

  lemma {:induction false} HeldIsReported(loads: seq<BackendLoad>, tablets: seq<Tablet>, f: Tablet -> int, report: BackendLoad -> int)
    requires forall l :: l in loads ==> report(l) == Sum(tablets, Only(l.backend, f))
    ensures SumHeld(loads, tablets, f) == Sum(loads, report)
  {
    if loads != [] {
      HeldIsReported(loads[..|loads| - 1], tablets, f, report);
    }
  }

  lemma Conserved(tablets: seq<Tablet>, loads: seq<BackendLoad>, f: Tablet -> int, report: BackendLoad -> int)
    requires AreBackends(tablets, loads)
    requires forall l :: l in loads ==> report(l) == Sum(tablets, Only(l.backend, f))
    ensures Sum(loads, report) == Sum(tablets, f)
  {
    var ids := Map(loads, IdOf);
    forall i, j | 0 <= i < j < |ids|
      ensures ids[i] != ids[j]
    {
      assert StringLess(ids[i], ids[j]);
      StringLessTrichotomy(ids[i], ids[i]);
    }
    HeldIsAll(loads, tablets, f);
    HeldIsReported(loads, tablets, f, report);
  }

  lemma {:induction false} SumOfOnes(tablets: seq<Tablet>)
    ensures Sum(tablets, One) == |tablets|
  {
    if tablets != [] {
      SumOfOnes(tablets[..|tablets| - 1]);
    }
  }

  function TabletsOf(l: BackendLoad): int { l.tabletNum }
  function RowsetsOf(l: BackendLoad): int { l.rowsetNum }
  function SegmentsOf(l: BackendLoad): int { l.segmentNum }

  /** Nothing is lost or counted twice: the totals are the sums over the backends, and over the tablets. */
  lemma NothingLost(tablets: seq<Tablet>, s: Summary)
    requires IsSummary(tablets, s)
    ensures s.tabletTotal == |tablets| == Sum(s.backends, TabletsOf)
    ensures s.rowsetTotal == Sum(s.backends, RowsetsOf)
    ensures s.segmentTotal == Sum(s.backends, SegmentsOf)
    ensures Sum(s.backends, RowsOf) == Sum(tablets, RowsIn)
    ensures Sum(s.backends, BytesOf) == Sum(tablets, BytesIn)
  {
    Conserved(tablets, s.backends, One, TabletsOf);
    Conserved(tablets, s.backends, RowsetsIn, RowsetsOf);
    Conserved(tablets, s.backends, SegmentsIn, SegmentsOf);
    Conserved(tablets, s.backends, RowsIn, RowsOf);
    Conserved(tablets, s.backends, BytesIn, BytesOf);
    SumOfOnes(tablets);
  }

  /** A table of one tablet: its columns, missing ones counting as zero, are its totals and its backend's. */
  lemma OneTablet(t: Tablet, s: Summary)
    requires IsSummary([t], s)
    ensures s.tabletTotal == 1
    ensures s.rowsetTotal == t.rowsets.GetOr(0) && s.segmentTotal == t.segments.GetOr(0)
    ensures s.maxRowsetsPerTablet == (if t.rowsets.GetOr(0) > 0 then t.rowsets.GetOr(0) else 0)
    ensures s.maxSegmentsPerTablet == (if t.segments.GetOr(0) > 0 then t.segments.GetOr(0) else 0)
    ensures s.abnormalTablets == if ToUpper(t.state) in {"RUNNING", "NORMAL", ""} then 0 else 1
    ensures s.backends == [BackendLoad(t.backend, 1, t.rows.GetOr(0), t.bytes.GetOr(0), t.rowsets.GetOr(0), t.segments.GetOr(0))]
    ensures !s.skew.skewed
  {
    assert [t] == [] + [t] && [t][..0] == [];
    CountsOneMore([], t);
    LoadOfOneMore([], t, t.backend);
    IdsOneMore([], t);
    var only := [LoadOf([t], t.backend)];
    assert Map(only, IdOf) == [t.backend];
    BackendsAreUnique([t], only, s.backends);
  }

  /** A table is skewed when, of two or more backends or of two or more tablets, one stands out over the median in rows or in bytes, and only then. */
  lemma SkewedIffEitherLevelIs(tablets: seq<Tablet>, s: Summary)
    requires IsSummary(tablets, s)
    ensures s.skew.skewed <==>
            || (|s.backends| >= 2 && (OverMedian(Map(s.backends, RowsOf)) || OverMedian(Map(s.backends, BytesOf))))
            || (|tablets| >= 2 && (OverMedian(Map(tablets, RowsIn)) || OverMedian(Map(tablets, BytesIn))))
  {
    SkewedIffOneStandsOut(Map(s.backends, RowsOf), Map(s.backends, BytesOf));
    SkewedIffOneStandsOut(Map(tablets, RowsIn), Map(tablets, BytesIn));
  }

  // ----- Order of rows and of map iteration -----

  lemma LoadForgetsOrder(s: seq<Tablet>, t: seq<Tablet>, backend: string)
    requires multiset(s) == multiset(t)
    ensures LoadOf(s, backend) == LoadOf(t, backend)
  {
    SumForgetsOrder(s, t, Only(backend, One));
    SumForgetsOrder(s, t, Only(backend, RowsIn));
    SumForgetsOrder(s, t, Only(backend, BytesIn));
    SumForgetsOrder(s, t, Only(backend, RowsetsIn));
    SumForgetsOrder(s, t, Only(backend, SegmentsIn));
  }

  lemma BackendsAreUnique(tablets: seq<Tablet>, a: seq<BackendLoad>, b: seq<BackendLoad>)
    requires AreBackends(tablets, a) && AreBackends(tablets, b)
    ensures a == b
  {
    var ids, others := Map(a, IdOf), Map(b, IdOf);
    UniqueIds(ids, others);
    forall i | 0 <= i < |a|
      ensures a[i] == b[i]
    {
      assert a[i].backend == ids[i] == others[i] == b[i].backend;
      assert a[i] in a && b[i] in b;
    }
  }

  lemma UniqueIds(ids: seq<string>, others: seq<string>)
    requires Ascending(ids, StringLess) && Ascending(others, StringLess)
    requires forall id :: id in ids <==> id in others
    ensures ids == others
  {
    StringLessIsTotal();
    AscendingIsUnique(ids, others, StringLess);
  }

  lemma IdsForgetOrder(s: seq<Tablet>, t: seq<Tablet>)
    requires multiset(s) == multiset(t)
    ensures Ids(s) == Ids(t)
  {
    IdsAreBackends(s);
    IdsAreBackends(t);
    assert forall x :: x in s <==> x in multiset(t);
    assert forall x :: x in t <==> x in multiset(s);
  }

  lemma BackendsForgetOrder(s: seq<Tablet>, t: seq<Tablet>, loads: seq<BackendLoad>)
    requires multiset(s) == multiset(t) && AreBackends(s, loads)
    ensures AreBackends(t, loads)
  {
    IdsForgetOrder(s, t);
    forall l | l in loads
      ensures l == LoadOf(t, l.backend)
    {
      LoadForgetsOrder(s, t, l.backend);
    }
  }

  lemma SkewForgetsOrder(loads: seq<BackendLoad>, s: seq<Tablet>, t: seq<Tablet>)
    requires multiset(s) == multiset(t)
    ensures SkewOf(loads, Map(s, RowsIn), Map(s, BytesIn)) == SkewOf(loads, Map(t, RowsIn), Map(t, BytesIn))
  {
    SameSize(s, t);
    MapForgetsOrder(s, t, RowsIn);
    MapForgetsOrder(s, t, BytesIn);
    if |s| >= 2 {
      RatioForgetsOrder(Map(s, RowsIn), Map(t, RowsIn));
      RatioForgetsOrder(Map(s, BytesIn), Map(t, BytesIn));
    }
  }

  /** The whole summary, skew included, is the same for every order of the rows and of the map. */
  lemma SummaryForgetsOrder(s: seq<Tablet>, t: seq<Tablet>, a: Summary, b: Summary)
    requires multiset(s) == multiset(t) && IsSummary(s, a) && IsSummary(t, b)
    ensures a == b
  {
    SameSize(s, t);
    SumForgetsOrder(s, t, RowsetsIn);
    SumForgetsOrder(s, t, SegmentsIn);
    SumForgetsOrder(s, t, Abnormal);
    Max0ForgetsOrder(s, t, RowsetsIn);
    Max0ForgetsOrder(s, t, SegmentsIn);
    BackendsForgetOrder(s, t, a.backends);
    BackendsAreUnique(t, a.backends, b.backends);
    SkewForgetsOrder(a.backends, s, t);
  }
}
