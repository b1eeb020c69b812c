/**
  Capturing a split native snapshot (`_write_recovery_manifest`, `_write_model_payload`): partition
  the pool, share the residual bytes, write the residual blob and the canonical model payload.
 */
module NativeCapture {
  import opened Bytes
  import opened Sorting
  import opened Tiling
  import opened Partition
  import opened Jobs
  import opened Pack
  import opened Snapshot
  import CaptureLayout
  import HydrationPipeline
  import ResidualSweep

  // ---------------------------------------------------------------------------------------------
  // The order of the model payload.

  /** The value of a streaming digest. */
  function Digest<S>(step: (S, Byte) -> S, init: S, finish: S -> int): seq<Byte> -> int {
    (bytes: seq<Byte>) => finish(Fold(step, init, bytes))
  }

  /** The chunked fingerprint of one extent. */
  method Fingerprint<S>(mem: Memory, s: Span, chunk: nat, step: (S, Byte) -> S, init: S) returns (state: S)
    requires chunk > 0 && s.size > 0 && Mapped(mem, s.ptr, s.size)
    ensures state == Fold(step, init, Peek(mem, s.ptr, s.size))
  {
    state := init;
    var copied: nat := 0;
    while copied < s.size
      invariant copied <= s.size
      invariant state == Fold(step, init, Peek(mem, s.ptr, copied))
    {
      var count: nat := if chunk < s.size - copied then chunk else s.size - copied;
      FoldConcat(step, init, Peek(mem, s.ptr, copied), Peek(mem, s.ptr + copied, count));
      assert Peek(mem, s.ptr, copied) + Peek(mem, s.ptr + copied, count) == Peek(mem, s.ptr, copied + count);
      state := Fold(step, state, Peek(mem, s.ptr + copied, count));
      copied := copied + count;
    }
  }

  function ExtentOf(e: Entry): ModelExtent { ModelExtent(e.span, e.id) }

  ghost predicate SpanMapped(mem: Memory, s: Span) { s.size > 0 && Mapped(mem, s.ptr, s.size) }

  ghost predicate KeyRight(mem: Memory, e: Entry, digest: seq<Byte> -> int) {
    SpanMapped(mem, e.span) && e.key == digest(Peek(mem, e.span.ptr, e.span.size))
  }

  ghost predicate Fingerprinted(mem: Memory, s: seq<Entry>, digest: seq<Byte> -> int) {
    forall i :: 0 <= i < |s| ==> KeyRight(mem, s[i], digest)
  }

  /** The fingerprint loop of `_write_model_payload` and its sort. */
  method OrderModel<S>(mem: Memory, model: seq<ModelExtent>, chunk: nat, step: (S, Byte) -> S, init: S, finish: S -> int)
    returns (ordered: seq<Entry>)
    requires chunk > 0 && forall i :: 0 <= i < |model| ==> SpanMapped(mem, model[i].span)
    ensures SortedBy(ByKey, ordered) && KeyOrdered(ordered) && Fingerprinted(mem, ordered, Digest(step, init, finish))
    ensures multiset(Map(ExtentOf, ordered)) == multiset(model)
  {
    hide Fold, Sort, Map;
    var keyed: seq<Entry> := [];
    ghost var digest := Digest(step, init, finish);
    for i := 0 to |model|
      invariant |keyed| == i && Fingerprinted(mem, keyed, digest)
      invariant forall k :: 0 <= k < i ==> ExtentOf(keyed[k]) == model[k]
    {
      var state := Fingerprint(mem, model[i].span, chunk, step, init);
      keyed := keyed + [Entry(model[i].span, model[i].id, 0, finish(state))];
    }
    ordered := Sort(ByKey, keyed);
    SortSorted(ByKey, keyed);
    KeysInOrder(ordered);
    MapBag(ExtentOf, ordered, keyed);
    forall i | 0 <= i < |keyed| ensures Map(ExtentOf, keyed)[i] == model[i] {
      MapAt(ExtentOf, keyed, i);
    }
    assert Map(ExtentOf, keyed) == model;
    FingerprintedSorted(mem, keyed, digest);
  }

  lemma {:induction false} FingerprintedSorted(mem: Memory, s: seq<Entry>, digest: seq<Byte> -> int)
    requires Fingerprinted(mem, s, digest)
    ensures Fingerprinted(mem, Sort(ByKey, s), digest)
  {
    hide KeyRight;
    var t := Sort(ByKey, s);
    forall i | 0 <= i < |t| ensures KeyRight(mem, t[i], digest) {
      assert t[i] in multiset(t);
      assert t[i] in s;
      var k :| 0 <= k < |s| && s[k] == t[i];
    }
  }

  // ---------------------------------------------------------------------------------------------
  // The capture.

  /** What is written: the recovery model extents, the payload, and the residual blob with its views. */
  datatype Capture<S> = Capture(recovery: seq<ModelExtent>, model: seq<Entry>, payload: Blob<S>,
                                stored: seq<Span>, blob: Blob<S>, refs: seq<seq<nat>>)

  predicate InPool(allocations: seq<Allocation>, x: int) {
    exists a :: a in allocations && a.pointer <= x < a.End()
  }

  predicate PoolMapped(mem: Memory, allocations: seq<Allocation>) {
    forall i :: 0 <= i < |allocations| && allocations[i].size >= 0 ==> Mapped(mem, allocations[i].pointer, allocations[i].size)
  }

  predicate ValidRef(stored: seq<Span>, ref: seq<nat>) {
    ResidualSweep.Ascending(ref) && (forall k :: 0 <= k < |ref| ==> ref[k] < |stored|)
  }

  /** Model and referenced residual pieces hold every pool byte once. */
  ghost predicate TiledView(allocations: seq<Allocation>, model: seq<Span>, stored: seq<Span>, ref: seq<nat>) {
    ValidRef(stored, ref) && ref != [] && Tiled(allocations, multiset(model) + multiset(ResidualSweep.Pick(stored, ref)))
  }

  ghost predicate Written<S>(mem: Memory, spans: seq<Span>, step: (S, Byte) -> S, init: S, blob: Blob<S>) {
    Positive(spans) && AllSpansMapped(mem, spans) && Packed(mem, spans, step, init, blob)
  }

  function Ranged(model: seq<Entry>): seq<SemanticRange> { Ranges(Map(ExtentOf, model)) }

  /** The entries have the offsets of their slots. */
  predicate Located<S>(model: seq<Entry>, blob: Blob<S>) {
    |blob.placed| == |model| && forall i :: 0 <= i < |model| ==> model[i].offset == blob.placed[i].offset
  }

  ghost predicate Faithful<S>(allocations: seq<Allocation>, mem: Memory, layout: seq<SemanticRange>, native: seq<SemanticRange>,
                              step: (S, Byte) -> S, init: S, finish: S -> int, c: Capture<S>) {
    && |c.refs| == 2 && c.recovery != [] && c.model != []
    && TiledView(allocations, Spans(c.recovery), c.stored, c.refs[0])
    && TiledView(allocations, Map(SpanOf, c.model), c.stored, c.refs[1])
    && multiset(Ranges(c.recovery)) == multiset(layout) && multiset(Ranged(c.model)) == multiset(native)
    && Written(mem, c.stored, step, init, c.blob) && c.blob.sha.None?
    && Written(mem, Map(SpanOf, c.model), step, init, c.payload) && c.payload.sha == Some(Fold(step, init, c.payload.file))
    && Located(c.model, c.payload)
    && SortedBy(ByKey, c.model) && Fingerprinted(mem, c.model, Digest(step, init, finish))
  }

  /** What the loader relies on, whatever the files hold. */
  ghost predicate Shaped<S>(c: Capture<S>) {
    && |c.refs| == 2 && |c.blob.placed| == |c.blob.checks| == |c.stored| && |c.payload.checks| == |c.model|
    && ValidRef(c.stored, c.refs[1])
  }

  lemma {:induction false} OwnedMapped(allocations: seq<Allocation>, mem: Memory, s: Span)
    requires PoolMapped(mem, allocations) && Owned(allocations, s)
    ensures SpanMapped(mem, s)
  {
    var a :| a in allocations && Inside(s, a);
    var i :| 0 <= i < |allocations| && allocations[i] == a;
    assert Mapped(mem, a.pointer, a.size);
  }

  lemma {:induction false} PartitionReady(allocations: seq<Allocation>, mem: Memory, model: seq<ModelExtent>, residual: seq<Span>)
    requires PoolMapped(mem, allocations) && Tiled(allocations, Bag(model, residual)) && Rising(residual)
    ensures ResidualSweep.Positive(residual) && ResidualSweep.Sweepable(residual)
    ensures forall i :: 0 <= i < |model| ==> SpanMapped(mem, model[i].span)
    ensures forall s :: s in residual ==> SpanMapped(mem, s)
  {
    forall i | 0 <= i < |model| ensures SpanMapped(mem, model[i].span) {
      assert Spans(model)[i] in multiset(Spans(model));
      OwnedMapped(allocations, mem, model[i].span);
    }
    forall s | s in residual ensures SpanMapped(mem, s) {
      assert s in multiset(residual);
      OwnedMapped(allocations, mem, s);
    }
  }

  lemma {:induction false} StoredMapped(mem: Memory, views: seq<ResidualSweep.View>, stored: seq<Span>, refs: seq<seq<nat>>)
    requires ResidualSweep.Shared(views, stored, refs)
    requires forall v, s :: 0 <= v < |views| && s in views[v] ==> SpanMapped(mem, s)
    ensures Positive(stored) && AllSpansMapped(mem, stored)
  {
    hide ResidualSweep.PairwiseApart;
    forall i | 0 <= i < |stored| ensures Mapped(mem, stored[i].ptr, stored[i].size) {
      assert ResidualSweep.Referenced(refs, i);
      var v :| 0 <= v < |refs| && i in refs[v];
      assert ResidualSweep.Refers(views[v], stored, refs[v]);
      assert ResidualSweep.Within(stored[i], views[v]);
      var s: Span :| s in views[v] && s.owner == stored[i].owner && s.ptr <= stored[i].ptr && stored[i].End() <= s.End();
      assert SpanMapped(mem, s);
    }
  }

  /** The sweep turns a partition into a model and a reference list that tile the pool. */
  lemma {:induction false} ViewTiled(allocations: seq<Allocation>, model: seq<Span>, views: seq<ResidualSweep.View>,
                                     stored: seq<Span>, refs: seq<seq<nat>>, v: nat)
    requires ResidualSweep.Shared(views, stored, refs) && v < |views| && views[v] != []
    requires Tiled(allocations, multiset(model) + multiset(views[v])) && ResidualSweep.Positive(views[v])
    ensures TiledView(allocations, model, stored, refs[v])
  {
    hide Tiled, ResidualSweep.PairwiseApart, ResidualSweep.NoneWasted;
    ResidualSweep.TiledByReferences(allocations, model, views, stored, refs, v);
    assert ResidualSweep.Refers(views[v], stored, refs[v]);
    var s := views[v][0];
    assert s in views[v] && s.Contains(s.ptr);
    assert ResidualSweep.HeldBy(views[v], s.owner, s.ptr);
    ResidualSweep.PickCovers(views, stored, refs, v, s.owner, s.ptr);
    assert Covered(multiset(ResidualSweep.Pick(stored, refs[v])), s.owner, s.ptr);
    var p :| p in multiset(ResidualSweep.Pick(stored, refs[v])) && p.owner == s.owner && p.Contains(s.ptr);
    assert p in ResidualSweep.Pick(stored, refs[v]);
  }

  function WithOffsets(model: seq<Entry>, placed: seq<Extent>): (r: seq<Entry>)
    requires |placed| == |model|
    ensures |r| == |model| && forall i :: 0 <= i < |r| ==> r[i] == model[i].(offset := placed[i].offset)
  {
    seq(|model|, i requires 0 <= i < |model| => model[i].(offset := placed[i].offset))
  }

  lemma {:induction false} OffsetsOnly(model: seq<Entry>, after: seq<Entry>)
    requires |after| == |model| && forall i :: 0 <= i < |after| ==> after[i] == model[i].(offset := after[i].offset)
    ensures Map(SpanOf, after) == Map(SpanOf, model) && Map(ExtentOf, after) == Map(ExtentOf, model)
  {
    forall i | 0 <= i < |model|
      ensures Map(SpanOf, after)[i] == Map(SpanOf, model)[i] && Map(ExtentOf, after)[i] == Map(ExtentOf, model)[i]
    {
      MapAt(SpanOf, after, i);
      MapAt(SpanOf, model, i);
      MapAt(ExtentOf, after, i);
      MapAt(ExtentOf, model, i);
    }
  }

  /** Reordering the model extents changes neither their spans nor their ranges, as bags. */
  lemma {:induction false} Reordered(model: seq<ModelExtent>, ordered: seq<Entry>)
    requires multiset(Map(ExtentOf, ordered)) == multiset(model)
    ensures multiset(Map(SpanOf, ordered)) == multiset(Spans(model)) && multiset(Ranged(ordered)) == multiset(Ranges(model))
    ensures |ordered| == |model|
  {
    hide Map;
    var extents := Map(ExtentOf, ordered);
    var span, range := (e: ModelExtent) => e.span, (e: ModelExtent) => e.Range();
    MapBag(span, extents, model);
    MapBag(range, extents, model);
    forall i | 0 <= i < |model| ensures Map(span, model)[i] == Spans(model)[i] && Map(range, model)[i] == Ranges(model)[i] {
      MapAt(span, model, i);
      MapAt(range, model, i);
    }
    assert Map(span, model) == Spans(model) && Map(range, model) == Ranges(model);
    forall i | 0 <= i < |ordered|
      ensures Map(span, extents)[i] == Map(SpanOf, ordered)[i] && Map(range, extents)[i] == Ranged(ordered)[i]
    {
      MapAt(span, extents, i);
      MapAt(range, extents, i);
      MapAt(ExtentOf, ordered, i);
      MapAt(SpanOf, ordered, i);
    }
    assert Map(span, extents) == Map(SpanOf, ordered) && Map(range, extents) == Ranged(ordered);
    assert |multiset(extents)| == |multiset(model)|;
  }

  lemma {:induction false} TotalsCover(allocations: seq<Allocation>, model: seq<ModelExtent>, residual: seq<Span>)
    requires WellFormed(allocations) && Tiled(allocations, Bag(model, residual))
    ensures TotalSize(Spans(model)) + TotalSize(residual) == AllocationBytes(allocations)
  {
    hide Tiled, WellFormed, Keyed, TotalSize, AllocationBytes;
    assert multiset(Spans(model) + residual) == Bag(model, residual);
    WellFormedKeyed(allocations);
    TiledTotal(allocations, Spans(model) + residual);
    TotalConcat(Spans(model), residual);
  }

  lemma {:induction false} SweptReady(allocations: seq<Allocation>, mem: Memory, first: seq<ModelExtent>, second: seq<ModelExtent>,
                                      views: seq<ResidualSweep.View>, stored: seq<Span>, refs: seq<seq<nat>>)
    requires |views| == 2 && views[0] != [] && views[1] != [] && ResidualSweep.Shared(views, stored, refs)
    requires Tiled(allocations, Bag(first, views[0])) && Tiled(allocations, Bag(second, views[1]))
    requires ResidualSweep.Positive(views[0]) && ResidualSweep.Positive(views[1])
    requires (forall s :: s in views[0] ==> SpanMapped(mem, s)) && (forall s :: s in views[1] ==> SpanMapped(mem, s))
    ensures |refs| == 2 && stored != [] && Positive(stored) && AllSpansMapped(mem, stored)
    ensures TiledView(allocations, Spans(first), stored, refs[0]) && TiledView(allocations, Spans(second), stored, refs[1])
  {
    hide Tiled, TiledView, SpanMapped, ResidualSweep.PairwiseApart, ResidualSweep.NoneWasted;
    ViewTiled(allocations, Spans(first), views, stored, refs, 0);
    ViewTiled(allocations, Spans(second), views, stored, refs, 1);
    StoredMapped(mem, views, stored, refs);
    ViewNonEmpty(allocations, Spans(first), stored, refs[0]);
  }

  lemma {:induction false} ViewNonEmpty(allocations: seq<Allocation>, model: seq<Span>, stored: seq<Span>, ref: seq<nat>)
    requires TiledView(allocations, model, stored, ref)
    ensures stored != []
  {
    hide Tiled;
    assert ref[0] < |stored|;
  }

  lemma {:induction false} FingerprintedReady(mem: Memory, s: seq<Entry>, digest: seq<Byte> -> int)
    requires Fingerprinted(mem, s, digest)
    ensures Positive(Map(SpanOf, s)) && AllSpansMapped(mem, Map(SpanOf, s))
  {
    forall i | 0 <= i < |s| ensures SpanMapped(mem, Map(SpanOf, s)[i]) {
      MapAt(SpanOf, s, i);
      assert KeyRight(mem, s[i], digest);
    }
  }

  lemma {:induction false} RetileView(allocations: seq<Allocation>, model: seq<Span>, model': seq<Span>, stored: seq<Span>, ref: seq<nat>)
    requires TiledView(allocations, model, stored, ref) && multiset(model) == multiset(model')
    ensures TiledView(allocations, model', stored, ref)
  {
  }

  lemma {:induction false} FinishModel<S>(mem: Memory, ordered: seq<Entry>, model: seq<Entry>, blob: Blob<S>, digest: seq<Byte> -> int)
    requires |blob.placed| == |ordered| && model == WithOffsets(ordered, blob.placed)
    requires SortedBy(ByKey, ordered) && Fingerprinted(mem, ordered, digest)
    ensures SortedBy(ByKey, model) && Fingerprinted(mem, model, digest) && Located(model, blob)
    ensures Map(SpanOf, model) == Map(SpanOf, ordered) && Ranged(model) == Ranged(ordered)
  {
    OffsetsOnly(ordered, model);
    forall i | 0 <= i < |model| ensures KeyRight(mem, model[i], digest) {
      assert KeyRight(mem, ordered[i], digest);
    }
    assert forall i, j :: 0 <= i < j < |model| ==> ByKey(ordered[i], ordered[j]);
  }

  // ---------------------------------------------------------------------------------------------
  // Requests that the transport accepts.

  const HIGH: nat := 0x8_0000_0000_0000

  /** The pool lies between the addresses 1 and 2^51. */
  predicate LowPool(allocations: seq<Allocation>) { forall a :: a in allocations ==> 0 < a.pointer && a.End() <= HIGH }

  lemma {:induction false} PackedSmall(spans: seq<Span>)
    requires Positive(spans)
    ensures PackedBytes(spans) <= 4096 * TotalSize(spans)
  {
    if spans != [] { PackedSmall(spans[..|spans| - 1]); }
  }

  /** Spans of a low pool that share no byte can be packed into one file. */
  lemma {:induction false} LowAddressable(allocations: seq<Allocation>, spans: seq<Span>)
    requires LowPool(allocations) && Positive(spans) && SpansApart(spans)
    requires forall i :: 0 <= i < |spans| ==> Owned(allocations, spans[i])
    ensures Addressable(spans)
  {
    hide SpansApart, TotalSize, PackedBytes;
    forall i | 0 <= i < |spans| ensures 0 < spans[i].ptr && spans[i].End() <= HIGH {
      assert Owned(allocations, spans[i]);
      var a :| a in allocations && Inside(spans[i], a);
    }
    ApartBound(spans, HIGH);
    PackedSmall(spans);
  }

  lemma {:induction false} StoredAddressable(allocations: seq<Allocation>, views: seq<ResidualSweep.View>, stored: seq<Span>, refs: seq<seq<nat>>)
    requires WellFormed(allocations) && LowPool(allocations) && ResidualSweep.Shared(views, stored, refs)
    requires forall v :: 0 <= v < |views| ==> AllOwned(allocations, views[v])
    ensures Positive(stored) && Addressable(stored)
  {
    hide LowPool, Addressable, WellFormed, ResidualSweep.Ascending;
    forall i | 0 <= i < |stored| ensures Owned(allocations, stored[i]) {
      assert ResidualSweep.Referenced(refs, i);
      var v :| 0 <= v < |refs| && i in refs[v];
      assert ResidualSweep.Refers(views[v], stored, refs[v]);
      assert ResidualSweep.Within(stored[i], views[v]);
      var s: Span :| s in views[v] && s.owner == stored[i].owner && s.ptr <= stored[i].ptr && stored[i].End() <= s.End();
      assert AllOwned(allocations, views[v]);
      PartOwned(allocations, s, stored[i]);
    }
    forall i, j | 0 <= i < j < |stored| ensures Apart(stored[i], stored[j]) {
      if stored[i].owner != stored[j].owner { OwnersApart(allocations, stored[i], stored[j]); }
    }
    LowAddressable(allocations, stored);
  }

  ghost predicate AllOwned(allocations: seq<Allocation>, view: seq<Span>) { forall s :: s in view ==> Owned(allocations, s) }

  lemma {:induction false} ResidualOwned(allocations: seq<Allocation>, model: seq<ModelExtent>, residual: seq<Span>)
    requires Tiled(allocations, Bag(model, residual))
    ensures AllOwned(allocations, residual)
  {
    hide Disjoint, Complete, Owned;
    forall s | s in residual ensures Owned(allocations, s) {
      assert s in multiset(residual) && s in Bag(model, residual);
    }
  }

  lemma {:induction false} PartOwned(allocations: seq<Allocation>, s: Span, part: Span)
    requires Owned(allocations, s) && part.owner == s.owner && part.size > 0 && s.ptr <= part.ptr && part.End() <= s.End()
    ensures Owned(allocations, part)
  {
    var a :| a in allocations && Inside(s, a);
    assert Inside(part, a);
  }

  lemma {:induction false} ModelAddressable(allocations: seq<Allocation>, model: seq<ModelExtent>, residual: seq<Span>, ordered: seq<Span>)
    requires WellFormed(allocations) && LowPool(allocations) && Positive(ordered)
    requires Tiled(allocations, Bag(model, residual)) && multiset(ordered) == multiset(Spans(model))
    ensures Addressable(ordered)
  {
    hide LowPool, Addressable, WellFormed, SpansApart, Disjoint, Complete, Owned;
    assert Bag(model, residual) == multiset(ordered) + multiset(residual);
    TiledApart(allocations, ordered, multiset(residual));
    forall i | 0 <= i < |ordered| ensures Owned(allocations, ordered[i]) {
      assert ordered[i] in multiset(ordered) + multiset(residual);
    }
    LowAddressable(allocations, ordered);
  }

  /** The layout can be cut out of the pool and leaves something over. */
  ghost predicate Partitionable(allocations: seq<Allocation>, layout: seq<SemanticRange>) {
    layout != [] && ValidLayout(allocations, multiset(layout)) && HasResidual(allocations, multiset(layout))
  }

  /**
    `_write_recovery_manifest` with an exported payload. Both layouts must be valid; the two
    partitions can always be swept together, and their byte totals always add up. In a low pool and
    with no read in flight a capture of two valid layouts fails only if a call of the transport fails.
   */
  method CaptureNative<S(==)>(allocations: seq<Allocation>, mem: Memory, layout: seq<SemanticRange>, native: seq<SemanticRange>,
                              chunk: nat, queueDepth: nat, readback: bool, step: (S, Byte) -> S, init: S, finish: S -> int,
                              ring: HydrationPipeline.Ring, broken: bool)
    returns (r: Result<Capture<S>>)
    requires WellFormed(allocations) && PoolMapped(mem, allocations)
    requires chunk > 0 && chunk % PAGE == 0 && queueDepth > 0
    ensures r.Ok? ==> Partitionable(allocations, layout) && Partitionable(allocations, native) && !broken
    ensures !readback || HydrationPipeline.Quiet(ring) ==>
      (LowPool(allocations) && Partitionable(allocations, layout) && Partitionable(allocations, native) && !broken ==> r.Ok?)
    ensures r.Ok? ==> Shaped(r.value)
    ensures r.Ok? && HydrationPipeline.Quiet(ring) ==> Faithful(allocations, mem, layout, native, step, init, finish, r.value)
  {
    hide HydrationPipeline.Quiet, Unspoilt, Tiled, WellFormed, PoolMapped, Rising, AllFree, Bag, Ranges, Map, Fold, ResidualSweep.Shared,
      ResidualSweep.Positive, ResidualSweep.Sweepable, Fingerprinted, SortedBy, Positive, AllSpansMapped, ValidLayout,
      HasResidual, TiledView, Located, Ranged, LowPool, Addressable, AllOwned, CaptureLayout.ValidCapture, Placed, PackFile, PackedBytes, Contents;
    var first := PartitionPool(allocations, layout);
    if first.Err? {
      return Err;
    }
    var second := PartitionPool(allocations, native);
    if second.Err? {
      return Err;
    }
    var recovery, residual, nativeModel, nativeResidual := first.value.0, first.value.1, second.value.0, second.value.1;
    TotalsCover(allocations, recovery, residual);
    PartitionReady(allocations, mem, recovery, residual);
    PartitionReady(allocations, mem, nativeModel, nativeResidual);
    var views := [residual, nativeResidual];
    var swept := ResidualSweep.ShareResidual(views);
    var stored, refs := swept.value.0, swept.value.1;
    SweptReady(allocations, mem, recovery, nativeModel, views, stored, refs);
    if LowPool(allocations) {
      ResidualOwned(allocations, recovery, residual);
      ResidualOwned(allocations, nativeModel, nativeResidual);
      StoredAddressable(allocations, views, stored, refs);
    }
    if HydrationPipeline.Quiet(ring) { QuietUnspoilt(mem, stored, chunk, queueDepth, ring); }
    var blob := WriteBlob(mem, stored, chunk, queueDepth, false, readback, step, init, ring, broken);
    if blob.Err? {
      return Err;
    }
    var ordered := OrderModel(mem, nativeModel, chunk, step, init, finish);
    Reordered(nativeModel, ordered);
    FingerprintedReady(mem, ordered, Digest(step, init, finish));
    if LowPool(allocations) { ModelAddressable(allocations, nativeModel, nativeResidual, Map(SpanOf, ordered)); }
    if HydrationPipeline.Quiet(ring) { QuietUnspoilt(mem, Map(SpanOf, ordered), chunk, queueDepth, ring); }
    var payload := WriteBlob(mem, Map(SpanOf, ordered), chunk, queueDepth, true, readback, step, init, ring, broken);
    if payload.Err? {
      return Err;
    }
    var model := WithOffsets(ordered, payload.value.placed);
    RetileView(allocations, Spans(nativeModel), Map(SpanOf, ordered), stored, refs[1]);
    FinishModel(mem, ordered, model, payload.value, Digest(step, init, finish));
    r := Ok(Capture(recovery, model, payload.value, stored, blob.value, refs));
  }
}
