/** The "sort, then compare neighbours" overlap checks of tools/agx_contract.py,
    tools/agx_frame_fixture.py, tools/agx_render_gate.py and
    tools/agx_m1n1_render_backend.py, and what they buy. */
module Intervals {
  import opened Results

  /** [start, end) in one GPU context; checks without contexts use a single one. */
  datatype Span = Span(context: int, start: int, end: int)

  predicate Nonempty(spans: seq<Span>) {
    forall i | 0 <= i < |spans| :: spans[i].start < spans[i].end
  }

  predicate Apart(a: Span, b: Span) {
    a.context != b.context || a.end <= b.start || b.end <= a.start
  }

  predicate PairwiseApart(spans: seq<Span>) {
    forall i, j | 0 <= i < j < |spans| :: Apart(spans[i], spans[j])
  }

  /** Tuple order on context and start; ties are left to the caller's sort. */
  predicate Before(a: Span, b: Span) {
    a.context < b.context || (a.context == b.context && a.start <= b.start)
  }

  predicate Sorted(spans: seq<Span>) {
    forall i, j | 0 <= i < j < |spans| :: Before(spans[i], spans[j])
  }

  /** The scan over `zip(ordered, ordered[1:])`. */
  predicate NeighboursApart(ordered: seq<Span>) {
    forall i | 0 < i < |ordered| ::
      !(ordered[i].context == ordered[i - 1].context && ordered[i].start < ordered[i - 1].end)
  }

  lemma ScanSuffices(ordered: seq<Span>)
    requires Sorted(ordered) && Nonempty(ordered) && NeighboursApart(ordered)
    ensures PairwiseApart(ordered)
  {
    hide Sorted, Nonempty, NeighboursApart;
    forall i, j | 0 <= i < j < |ordered|
      ensures Apart(ordered[i], ordered[j])
    {
      if ordered[i].context == ordered[j].context {
        EndsBefore(ordered, i, j);
      }
    }
  }

  lemma ScanNecessary(ordered: seq<Span>)
    requires Sorted(ordered) && Nonempty(ordered) && PairwiseApart(ordered)
    ensures NeighboursApart(ordered)
  {
    forall i | 0 < i < |ordered|
      ensures !(ordered[i].context == ordered[i - 1].context && ordered[i].start < ordered[i - 1].end)
    {
      assert Before(ordered[i - 1], ordered[i]) && Apart(ordered[i - 1], ordered[i]);
    }
  }

  lemma {:induction false} EndsBefore(ordered: seq<Span>, i: nat, j: nat)
    requires Sorted(ordered) && Nonempty(ordered) && NeighboursApart(ordered)
    requires i < j < |ordered| && ordered[i].context == ordered[j].context
    ensures ordered[i].end <= ordered[j].start
    decreases j - i
  {
    assert Before(ordered[i], ordered[j - 1]) || i == j - 1;
    assert Before(ordered[j - 1], ordered[j]);
    if i < j - 1 {
      EndsBefore(ordered, i, j - 1);
    }
  }

  /** Being pairwise apart does not depend on the order of the list. */
  predicate Scattered(spans: multiset<Span>) {
    && (forall x | x in spans :: spans[x] == 1)
    && (forall x, y | x in spans && y in spans && x != y :: Apart(x, y))
  }

  lemma {:induction false} ApartScatters(spans: seq<Span>)
    requires Nonempty(spans) && PairwiseApart(spans)
    ensures Scattered(multiset(spans))
  {
    if spans != [] {
      var init, last := spans[..|spans| - 1], spans[|spans| - 1];
      assert spans == init + [last];
      ApartScatters(init);
      forall x | x in multiset(init)
        ensures Apart(x, last) && Apart(last, x) && x != last
      {
        var i :| 0 <= i < |init| && init[i] == x;
        assert spans[i] == x;
      }
    }
  }

  lemma CountedTwice(spans: seq<Span>, i: nat, j: nat)
    requires i < j < |spans| && spans[i] == spans[j]
    ensures 2 <= multiset(spans)[spans[i]]
  {
    assert spans == spans[..j] + spans[j..];
    assert spans[i] in spans[..j] && spans[j] in spans[j..];
  }

  lemma ScatteredApart(spans: seq<Span>)
    requires Scattered(multiset(spans))
    ensures PairwiseApart(spans)
  {
    forall i, j | 0 <= i < j < |spans|
      ensures Apart(spans[i], spans[j])
    {
      assert spans[i] in multiset(spans) && spans[j] in multiset(spans);
      if spans[i] == spans[j] {
        CountedTwice(spans, i, j);
      }
    }
  }

  /** For any number of nonempty intervals and any sort: the neighbour scan accepts
      exactly the pairwise disjoint families, context by context. */
  lemma NeighbourScanExact(spans: seq<Span>, ordered: seq<Span>)
    requires Nonempty(spans)
    requires multiset(ordered) == multiset(spans) && Sorted(ordered)
    ensures NeighboursApart(ordered) <==> PairwiseApart(spans)
  {
    forall i | 0 <= i < |ordered|
      ensures ordered[i].start < ordered[i].end
    {
      assert ordered[i] in multiset(spans);
    }
    if NeighboursApart(ordered) {
      ScanSuffices(ordered);
      ApartScatters(ordered);
      ScatteredApart(spans);
    } else if PairwiseApart(spans) {
      ApartScatters(spans);
      ScatteredApart(ordered);
      ScanNecessary(ordered);
    }
  }

  // ---- A sort, for the modules that need one ----

  lemma InFront(x: Span, rest: seq<Span>)
    requires Sorted(rest) && forall y | y in multiset(rest) :: Before(x, y)
    ensures Sorted([x] + rest)
  {
    assert forall i | 0 <= i < |rest| :: rest[i] in multiset(rest);
  }

  function Insert(x: Span, ordered: seq<Span>): (r: seq<Span>)
    requires Sorted(ordered)
    ensures Sorted(r) && multiset(r) == multiset(ordered) + multiset{x}
  {
    if ordered == [] then [x]
    else
      assert ordered == [ordered[0]] + ordered[1..];
      if Before(x, ordered[0]) then
        assert forall i | 0 <= i < |ordered| :: Before(x, ordered[i]);
        InFront(x, ordered);
        [x] + ordered
      else
        var rest := Insert(x, ordered[1..]);
        assert forall i | 0 < i < |ordered| :: Before(ordered[0], ordered[i]);
        InFront(ordered[0], rest);
        [ordered[0]] + rest
  }

  function Sort(spans: seq<Span>): (r: seq<Span>)
    ensures Sorted(r) && multiset(r) == multiset(spans)
  {
    if spans == [] then [] else
      assert spans == [spans[0]] + spans[1..];
      Insert(spans[0], Sort(spans[1..]))
  }

  // ---- The frame fixture's objects ----

  const PAGE_SIZE := 0x4000
  const PIPELINE_START := 0x11_0000_0000
  const PIPELINE_END := 0x12_0000_0000
  const DATA_START := 0x15_0000_0000
  const DATA_END := 0x17_0000_0000

  datatype FrameObject = FrameObject(gpuVa: int, size: int)

  predicate Holds(o: FrameObject, address: int) {
    o.gpuVa <= address < o.gpuVa + o.size
  }

  /** `_private_range`, which raises when this is false. */
  predicate PrivateRange(o: FrameObject) {
    && o.gpuVa % PAGE_SIZE == 0
    && o.size % PAGE_SIZE == 0
    && o.gpuVa < o.gpuVa + o.size <= 0x1_0000_0000_0000_0000
    && (|| (PIPELINE_START <= o.gpuVa && o.gpuVa + o.size <= PIPELINE_END)
        || (DATA_START <= o.gpuVa && o.gpuVa + o.size <= DATA_END))
  }

  function Spans(objects: seq<FrameObject>): (r: seq<Span>)
    ensures |r| == |objects|
    ensures forall i | 0 <= i < |r| :: r[i] == Span(0, objects[i].gpuVa, objects[i].gpuVa + objects[i].size)
  {
    seq(|objects|, i requires 0 <= i < |objects| => Span(0, objects[i].gpuVa, objects[i].gpuVa + objects[i].size))
  }

  /** The address checks of `_object_records` on a list of objects. */
  predicate ObjectsAccepted(objects: seq<FrameObject>) {
    && objects != []
    && (forall i | 0 <= i < |objects| :: PrivateRange(objects[i]))
    && NeighboursApart(Sort(Spans(objects)))
  }

  /** `_contains` */
  predicate Contains(objects: seq<FrameObject>, address: int) {
    exists i | 0 <= i < |objects| :: Holds(objects[i], address)
  }

  /** One object, and no other, holds the address. */
  predicate HeldOnce(objects: seq<FrameObject>, address: int) {
    exists i | 0 <= i < |objects| ::
      Holds(objects[i], address) && forall j | 0 <= j < |objects| && j != i :: !Holds(objects[j], address)
  }

  /** In an accepted fixture no address lies in two objects, and an encoder pointer that
      `_contains` lets through lies in exactly one, inside the private GPU ranges. */
  lemma AcceptedObjectsPartition(objects: seq<FrameObject>, address: int)
    requires ObjectsAccepted(objects)
    ensures forall i, j | 0 <= i < j < |objects| :: !(Holds(objects[i], address) && Holds(objects[j], address))
    ensures Contains(objects, address) <==> HeldOnce(objects, address)
    ensures Contains(objects, address) ==>
      PIPELINE_START <= address < PIPELINE_END || DATA_START <= address < DATA_END
  {
    var spans := Spans(objects);
    forall i | 0 <= i < |spans|
      ensures spans[i].start < spans[i].end
    {
      assert PrivateRange(objects[i]);
    }
    NeighbourScanExact(spans, Sort(spans));
    forall i, j | 0 <= i < j < |objects|
      ensures !(Holds(objects[i], address) && Holds(objects[j], address))
    {
      assert Apart(spans[i], spans[j]);
    }
  }

  /** And the check refuses no fixture that is disjoint. */
  lemma DisjointObjectsAccepted(objects: seq<FrameObject>)
    requires objects != [] && forall i | 0 <= i < |objects| :: PrivateRange(objects[i])
    requires forall i, j, address | 0 <= i < j < |objects| :: !(Holds(objects[i], address) && Holds(objects[j], address))
    ensures ObjectsAccepted(objects)
  {
    var spans := Spans(objects);
    forall i | 0 <= i < |spans|
      ensures spans[i].start < spans[i].end
    {
      assert PrivateRange(objects[i]);
    }
    forall i, j | 0 <= i < j < |spans|
      ensures Apart(spans[i], spans[j])
    {
      var address := if objects[i].gpuVa <= objects[j].gpuVa then objects[j].gpuVa else objects[i].gpuVa;
      assert PrivateRange(objects[i]) && PrivateRange(objects[j]);
      assert !(Holds(objects[i], address) && Holds(objects[j], address));
    }
    NeighbourScanExact(spans, Sort(spans));
  }

  // ---- Guard pages ----

  /** What `_classify_mappings` hands on: whole pages of one context. */
  predicate WholePages(spans: seq<Span>) {
    forall i | 0 <= i < |spans| ::
      && spans[i].context == 0 && spans[i].start < spans[i].end
      && spans[i].start % PAGE_SIZE == 0 && spans[i].end % PAGE_SIZE == 0
  }

  predicate Mapped(spans: seq<Span>, address: int) {
    exists i | 0 <= i < |spans| :: spans[i].start <= address < spans[i].end
  }

  /** A page just outside the mapped ones. */
  predicate Guard(spans: seq<Span>, page: int) {
    && page % PAGE_SIZE == 0 && !Mapped(spans, page)
    && (Mapped(spans, page + PAGE_SIZE) || Mapped(spans, page - PAGE_SIZE))
  }

  /** What the loop asks about one interval. */
  predicate Guarded(spans: seq<Span>, s: Span, unmapped: int -> bool) {
    && (Mapped(spans, s.start - PAGE_SIZE) || unmapped(s.start - PAGE_SIZE))
    && (Mapped(spans, s.end) || unmapped(s.end))
  }

  lemma OutsideIsGuard(spans: seq<Span>, i: nat)
    requires WholePages(spans) && i < |spans|
    ensures !Mapped(spans, spans[i].start - PAGE_SIZE) ==> Guard(spans, spans[i].start - PAGE_SIZE)
    ensures !Mapped(spans, spans[i].end) ==> Guard(spans, spans[i].end)
  {
    var s := spans[i];
    assert s.start <= s.start - PAGE_SIZE + PAGE_SIZE < s.end;
    assert s.start <= s.end - PAGE_SIZE < s.end;
  }

  lemma AlignedNeighbour(page: int, start: int, end: int)
    requires page % PAGE_SIZE == 0 && start % PAGE_SIZE == 0 && end % PAGE_SIZE == 0
    requires !(start <= page < end)
    ensures start <= page + PAGE_SIZE < end ==> page == start - PAGE_SIZE
    ensures start <= page - PAGE_SIZE < end ==> page == end
  {
    if start <= page + PAGE_SIZE < end {
      assert page < start <= page + PAGE_SIZE;
    }
    if start <= page - PAGE_SIZE < end {
      assert page - PAGE_SIZE < end <= page;
    }
  }

  lemma GuardIsOutside(spans: seq<Span>, page: int) returns (i: nat)
    requires WholePages(spans) && Guard(spans, page)
    ensures i < |spans| && (page == spans[i].start - PAGE_SIZE || page == spans[i].end)
  {
    if Mapped(spans, page + PAGE_SIZE) {
      i :| 0 <= i < |spans| && spans[i].start <= page + PAGE_SIZE < spans[i].end;
    } else {
      i :| 0 <= i < |spans| && spans[i].start <= page - PAGE_SIZE < spans[i].end;
    }
    AlignedNeighbour(page, spans[i].start, spans[i].end);
  }

  ghost predicate GuardsTranslateToNothing(spans: seq<Span>, unmapped: int -> bool) {
    forall page | Guard(spans, page) :: unmapped(page)
  }

  predicate AllGuarded(spans: seq<Span>, over: seq<Span>, unmapped: int -> bool) {
    forall i | 0 <= i < |over| :: Guarded(spans, over[i], unmapped)
  }

  lemma GuardedSuffices(spans: seq<Span>, unmapped: int -> bool)
    requires WholePages(spans) && AllGuarded(spans, spans, unmapped)
    ensures GuardsTranslateToNothing(spans, unmapped)
  {
    hide WholePages;
    forall page | Guard(spans, page)
      ensures unmapped(page)
    {
      var i := GuardIsOutside(spans, page);
      assert Guarded(spans, spans[i], unmapped);
      hide Mapped;
    }
  }

  lemma GuardedNecessary(spans: seq<Span>, unmapped: int -> bool)
    requires WholePages(spans) && GuardsTranslateToNothing(spans, unmapped)
    ensures AllGuarded(spans, spans, unmapped)
  {
    hide Guard, Mapped, WholePages;
    forall i | 0 <= i < |spans|
      ensures Guarded(spans, spans[i], unmapped)
    {
      OutsideIsGuard(spans, i);
    }
  }

  /** The order in which the intervals are asked about does not matter. */
  lemma AnyOrder(spans: seq<Span>, over: seq<Span>, unmapped: int -> bool)
    requires multiset(over) == multiset(spans)
    ensures AllGuarded(spans, over, unmapped) <==> AllGuarded(spans, spans, unmapped)
  {
    hide Guarded;
    if AllGuarded(spans, spans, unmapped) {
      forall i | 0 <= i < |over| ensures Guarded(spans, over[i], unmapped) {
        var k := Find(spans, over, i);
      }
    }
    if AllGuarded(spans, over, unmapped) {
      forall i | 0 <= i < |spans| ensures Guarded(spans, spans[i], unmapped) {
        var k := Find(over, spans, i);
      }
    }
  }

  lemma Find(a: seq<Span>, b: seq<Span>, i: nat) returns (k: nat)
    requires multiset(a) == multiset(b) && i < |b|
    ensures k < |a| && a[k] == b[i]
  {
    assert b[i] in multiset(b);
    assert b[i] in multiset(a);
    k :| 0 <= k < |a| && a[k] == b[i];
  }

  /** `_guards_unmapped`: true exactly when no two mappings overlap and, if translations can
      be asked for, every page just outside the mapped ones translates to nothing. */
  method GuardsUnmapped(spans: seq<Span>, translate: Option<int -> bool>) returns (r: bool)
    requires WholePages(spans)
    ensures r <==> PairwiseApart(spans) && (translate.Some? ==> GuardsTranslateToNothing(spans, translate.value))
  {
    var ordered := Sort(spans);
    WholePagesNonempty(spans);
    NeighbourScanExact(spans, ordered);
    hide PairwiseApart, NeighboursApart, WholePages, Nonempty, AllGuarded, GuardsTranslateToNothing, Sorted;
    r := NeighbourScan(spans, ordered);
    if !r || translate.None? {
      return;
    }
    AnyOrder(spans, ordered, translate.value);
    r := GuardScan(spans, ordered, translate.value);
    if r {
      GuardedSuffices(spans, translate.value);
    } else if GuardsTranslateToNothing(spans, translate.value) {
      GuardedNecessary(spans, translate.value);
    }
  }

  lemma WholePagesNonempty(spans: seq<Span>)
    requires WholePages(spans)
    ensures Nonempty(spans)
  {
  }

  /** The first loop: neighbours of one context. */
  method NeighbourScan(spans: seq<Span>, ordered: seq<Span>) returns (r: bool)
    requires WholePages(spans) && multiset(ordered) == multiset(spans)
    ensures r == NeighboursApart(ordered)
  {
    var i := 1;
    while i < |ordered|
      invariant 1 <= i
      invariant forall k | 0 < k < i && k < |ordered| ::
        !(ordered[k].context == ordered[k - 1].context && ordered[k].start < ordered[k - 1].end)
    {
      if ordered[i].start < ordered[i - 1].end {
        ghost var here := Find(spans, ordered, i);
        ghost var before := Find(spans, ordered, i - 1);
        assert ordered[i].context == ordered[i - 1].context;
        return false;
      }
      i := i + 1;
    }
    return true;
  }

  /** The second loop, and the loop over the two guards of an interval inside it. */
  method GuardScan(spans: seq<Span>, ordered: seq<Span>, unmapped: int -> bool) returns (r: bool)
    ensures r == AllGuarded(spans, ordered, unmapped)
  {
    hide Mapped;
    var i := 0;
    while i < |ordered|
      invariant 0 <= i <= |ordered|
      invariant forall k | 0 <= k < i :: Guarded(spans, ordered[k], unmapped)
    {
      var guards := [ordered[i].start - PAGE_SIZE, ordered[i].end];
      for g := 0 to 2
        invariant forall h | 0 <= h < g :: Mapped(spans, guards[h]) || unmapped(guards[h])
      {
        if !Mapped(spans, guards[g]) && !unmapped(guards[g]) {
          assert !Guarded(spans, ordered[i], unmapped);
          return false;
        }
      }
      assert Mapped(spans, guards[0]) || unmapped(guards[0]);
      assert Mapped(spans, guards[1]) || unmapped(guards[1]);
      i := i + 1;
    }
    return true;
  }
}
