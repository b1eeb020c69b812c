/**
  A split native snapshot from capture to wake: the manifest of a capture is accepted by the
  loader, and restoring it into memory of arbitrary content brings back every captured byte.
 */
module RoundTrip {
  import opened Bytes
  import opened Sorting
  import opened Tiling
  import opened Partition
  import opened Jobs
  import opened Pack
  import opened Snapshot
  import opened NativeCapture
  import DirectSplit
  import opened HydrationPipeline
  import ResidualSweep

  // ---------------------------------------------------------------------------------------------
  // The payload is canonical.

  /** The bytes that a range of the layout names. */
  ghost function RangeBytes(mem: Memory): SemanticRange -> seq<Byte> {
    (r: SemanticRange) => if r.size > 0 && Mapped(mem, r.pointer, r.size) then Peek(mem, r.pointer, r.size) else []
  }

  lemma {:induction false} ModelBytes(mem: Memory, model: seq<Entry>, digest: seq<Byte> -> int)
    requires Fingerprinted(mem, model, digest)
    ensures Positive(Map(SpanOf, model)) && AllSpansMapped(mem, Map(SpanOf, model))
    ensures Contents(mem, Map(SpanOf, model)) == Map(RangeBytes(mem), Ranged(model))
    ensures SortedBy(ByKey, model) ==> SortedBy(Order(digest), Contents(mem, Map(SpanOf, model)))
  {
    hide Map;
    FingerprintedReady(mem, model, digest);
    var c := Contents(mem, Map(SpanOf, model));
    forall i | 0 <= i < |model| ensures c[i] == Map(RangeBytes(mem), Ranged(model))[i] && digest(c[i]) == model[i].key && |c[i]| == model[i].span.size {
      assert KeyRight(mem, model[i], digest);
      MapAt(SpanOf, model, i);
      MapAt(ExtentOf, model, i);
      MapAt(RangeBytes(mem), Ranged(model), i);
    }
    if SortedBy(ByKey, model) {
      forall i, j | 0 <= i < j < |c| ensures Order(digest)(c[i], c[j]) {
        assert ByKey(model[i], model[j]);
      }
    }
  }

  /** The payload is the canonical pack of the bytes of the native layout, wherever they lie. */
  lemma {:induction false} PayloadCanonical<S>(allocations: seq<Allocation>, mem: Memory, layout: seq<SemanticRange>,
      native: seq<SemanticRange>, step: (S, Byte) -> S, init: S, finish: S -> int, c: Capture<S>)
    requires Faithful(allocations, mem, layout, native, step, init, finish, c)
    requires CollisionFree(Digest(step, init, finish), Map(RangeBytes(mem), native))
    ensures c.payload.file == CanonicalPack(Digest(step, init, finish), Map(RangeBytes(mem), native))
  {
    hide TiledView, Located, Ranged, Fold, Map, PackFile, Fingerprinted, SortedBy, PackedBytes, Contents, Placed;
    var digest, bytes := Digest(step, init, finish), Map(RangeBytes(mem), native);
    ModelBytes(mem, c.model, digest);
    MapBag(RangeBytes(mem), Ranged(c.model), native);
    var held, le := Contents(mem, Map(SpanOf, c.model)), Order(digest);
    SortSorted(le, bytes);
    InMultiset(held, bytes);
    SortedUnique(le, held, Sort(le, bytes));
  }

  /** Captures of the same byte strings, at any addresses and in any order, write the same payload. */
  lemma {:induction false} SamePayload<S>(
      allocations: seq<Allocation>, mem: Memory, layout: seq<SemanticRange>, native: seq<SemanticRange>, c: Capture<S>,
      allocations': seq<Allocation>, mem': Memory, layout': seq<SemanticRange>, native': seq<SemanticRange>, c': Capture<S>,
      step: (S, Byte) -> S, init: S, finish: S -> int)
    requires Faithful(allocations, mem, layout, native, step, init, finish, c)
    requires Faithful(allocations', mem', layout', native', step, init, finish, c')
    requires multiset(Map(RangeBytes(mem), native)) == multiset(Map(RangeBytes(mem'), native'))
    requires CollisionFree(Digest(step, init, finish), Map(RangeBytes(mem), native))
    ensures c.payload.file == c'.payload.file && c.payload.sha == c'.payload.sha
  {
    hide TiledView, Located, Written, Ranged, Map, CanonicalPack, Fold, Fingerprinted, SortedBy;
    var bytes, bytes' := Map(RangeBytes(mem), native), Map(RangeBytes(mem'), native');
    InMultiset(bytes, bytes');
    PayloadCanonical(allocations, mem, layout, native, step, init, finish, c);
    PayloadCanonical(allocations', mem', layout', native', step, init, finish, c');
    PackCanonical(Digest(step, init, finish), bytes, bytes');
  }

  // ---------------------------------------------------------------------------------------------
  // The loader accepts what was written.

  function ResidualEntries(stored: seq<Span>, placed: seq<Extent>, ref: seq<nat>): (r: seq<Entry>)
    requires |placed| == |stored| && forall k :: 0 <= k < |ref| ==> ref[k] < |stored|
    ensures |r| == |ref| && forall k :: 0 <= k < |ref| ==> r[k] == Entry(stored[ref[k]], "", placed[ref[k]].offset, 0)
  {
    seq(|ref|, k requires 0 <= k < |ref| => Entry(stored[ref[k]], "", placed[ref[k]].offset, 0))
  }

  lemma {:induction false} EntrySpans(stored: seq<Span>, placed: seq<Extent>, ref: seq<nat>)
    requires |placed| == |stored| && forall k :: 0 <= k < |ref| ==> ref[k] < |stored|
    ensures Map(SpanOf, ResidualEntries(stored, placed, ref)) == ResidualSweep.Pick(stored, ref)
  {
    forall k | 0 <= k < |ref| ensures Map(SpanOf, ResidualEntries(stored, placed, ref))[k] == stored[ref[k]] {
      MapAt(SpanOf, ResidualEntries(stored, placed, ref), k);
    }
  }

  /** Every view of the packed blob passes the residual validator. */
  lemma {:induction false} ViewValid(stored: seq<Span>, ref: seq<nat>)
    requires Positive(stored) && ValidRef(stored, ref) && ref != []
    ensures ResidualOk(multiset(Map(FileOf, ResidualEntries(stored, Placed(stored), ref))), PackedBytes(stored), true)
  {
    hide Placed, PackedBytes, Map;
    var files := Map(FileOf, ResidualEntries(stored, Placed(stored), ref));
    PackedAligned(stored);
    forall k | 0 <= k < |ref| ensures Placeable(files[k], 0, PackedBytes(stored), true) && files[k].offset == PackedBytes(stored[..ref[k]])
      && SlotEnd(files[k], true) == PackedBytes(stored[..ref[k] + 1])
    {
      MapAt(FileOf, ResidualEntries(stored, Placed(stored), ref), k);
      PlacedAt(stored, ref[k]);
      PackedAligned(stored[..ref[k]]);
      PackedMonotone(stored, ref[k] + 1, |stored|);
      assert stored[..|stored|] == stored;
    }
    forall k, l | 0 <= k < l < |files| ensures SlotEnd(files[k], true) <= files[l].offset && files[k] != files[l] {
      PackedMonotone(stored, ref[k] + 1, ref[l]);
      assert Placeable(files[k], 0, PackedBytes(stored), true);
    }
    assert Placeable(files[0], 0, PackedBytes(stored), true);
    FilesApart(files, PackedBytes(stored));
  }

  lemma {:induction false} FilesApart(files: seq<FileExtent>, fileBytes: int)
    requires forall k :: 0 <= k < |files| ==> Placeable(files[k], 0, fileBytes, true)
    requires forall k, l :: 0 <= k < l < |files| ==> SlotEnd(files[k], true) <= files[l].offset && files[k] != files[l]
    ensures ResidualFrom(multiset(files), 0, fileBytes, true)
  {
    hide SlotEnd, Placeable;
    Repetition(files);
    var bag := multiset(files);
    forall e | e in bag ensures Placeable(e, 0, fileBytes, true) {
      assert e in files;
    }
    forall e, f | e in bag && f in bag && e != f ensures SlotEnd(e, true) <= f.offset || SlotEnd(f, true) <= e.offset {
      assert e in files && f in files;
      var k :| 0 <= k < |files| && files[k] == e;
      var l :| 0 <= l < |files| && files[l] == f;
      assert k < l || l < k;
    }
  }

  /** The native manifest of a capture. */
  function ManifestOf<S>(allocations: seq<Allocation>, c: Capture<S>): Manifest
    requires |c.refs| == 2 && |c.blob.placed| == |c.stored| && ValidRef(c.stored, c.refs[1])
  {
    var residual := ResidualEntries(c.stored, c.blob.placed, c.refs[1]);
    Manifest(allocations, c.model, residual, true, true, true, |c.payload.file|, |c.blob.file|,
             TotalSize(Map(SpanOf, c.model)), TotalSize(Map(SpanOf, residual)), AllocationBytes(allocations))
  }

  lemma {:induction false} CaptureLoads<S>(allocations: seq<Allocation>, mem: Memory, layout: seq<SemanticRange>,
      native: seq<SemanticRange>, step: (S, Byte) -> S, init: S, finish: S -> int, c: Capture<S>)
    requires WellFormed(allocations) && Faithful(allocations, mem, layout, native, step, init, finish, c)
    ensures |c.refs| == 2 && |c.blob.placed| == |c.stored| && ValidRef(c.stored, c.refs[1])
    ensures Loadable(ManifestOf(allocations, c))
  {
    hide Fold, Fingerprinted, Ranged, Ranges, Map, Placed, PackFile, WellFormed, ResidualOk, AllSpansMapped, Contents, SortedBy;
    var m := ManifestOf(allocations, c);
    EntrySpans(c.stored, c.blob.placed, c.refs[1]);
    ViewValid(c.stored, c.refs[1]);
    ModelSlotted(c.model, c.payload);
    SomeAllocation(allocations, Map(SpanOf, c.model), c.stored, c.refs[1]);
    WellFormedKeyed(allocations);
  }

  lemma {:induction false} ModelSlotted<S>(model: seq<Entry>, blob: Blob<S>)
    requires Positive(Map(SpanOf, model)) && blob.placed == Placed(Map(SpanOf, model)) && Located(model, blob)
    ensures Slotted(model, PackedBytes(Map(SpanOf, model)))
  {
    hide PackedBytes, Placed, Map;
    forall i | 0 <= i < |model| ensures model[i].offset == PackedBytes(Map(SpanOf, model)[..i]) {
      PlacedAt(Map(SpanOf, model), i);
    }
  }

  lemma {:induction false} SomeAllocation(allocations: seq<Allocation>, model: seq<Span>, stored: seq<Span>, ref: seq<nat>)
    requires TiledView(allocations, model, stored, ref)
    ensures allocations != []
  {
    var pieces := ResidualSweep.Pick(stored, ref);
    assert pieces[0] in multiset(pieces);
    assert Owned(allocations, pieces[0]);
  }

  /** The recovery view is accepted by the same two checks, and its totals add up. */
  lemma {:induction false} RecoveryLoads<S>(allocations: seq<Allocation>, mem: Memory, layout: seq<SemanticRange>,
      native: seq<SemanticRange>, step: (S, Byte) -> S, init: S, finish: S -> int, c: Capture<S>)
    requires WellFormed(allocations) && Faithful(allocations, mem, layout, native, step, init, finish, c)
    ensures |c.refs| == 2 && ValidRef(c.stored, c.refs[0]) && |c.blob.placed| == |c.stored|
    ensures var view := ResidualEntries(c.stored, c.blob.placed, c.refs[0]);
      && Tiled(allocations, multiset(Spans(c.recovery)) + multiset(Map(SpanOf, view)))
      && ResidualOk(multiset(Map(FileOf, view)), |c.blob.file|, true)
      && TotalSize(Spans(c.recovery)) + TotalSize(Map(SpanOf, view)) == AllocationBytes(allocations)
  {
    hide Fold, Fingerprinted, Ranged, Ranges, Map, Placed, PackFile, WellFormed, ResidualOk, AllSpansMapped, Contents, Located,
      SortedBy, Tiled, TotalSize, AllocationBytes;
    EntrySpans(c.stored, c.blob.placed, c.refs[0]);
    ViewValid(c.stored, c.refs[0]);
    TotalsCover(allocations, c.recovery, ResidualSweep.Pick(c.stored, c.refs[0]));
  }

  // ---------------------------------------------------------------------------------------------
  // The restore.

  /** The transfer of one manifest extent. */
  function Move(e: Entry): Extent {
    Extent(if e.offset >= 0 then e.offset else 0, e.span.ptr, if e.span.size >= 0 then e.span.size else 0)
  }

  /** All that a restore relies on: transfers inside their files, to pairwise disjoint destinations. */
  lemma {:induction false} LoadableMoves(m: Manifest, payload: seq<Byte>, residual: seq<Byte>)
    requires WellFormed(m.entries) && Loadable(m) && |payload| == m.modelFile && |residual| == m.residualFile
    ensures Movable(m.model, payload) && Movable(m.residual, residual)
  {
    hide TotalSize, AllocationBytes, SortedBy, WellFormed, Map, PackedBytes, Tiled, ResidualOk, Slotted, SpansApart;
    assert multiset(Map(SpanOf, m.model)) + multiset(Map(SpanOf, m.residual)) == multiset(Map(SpanOf, m.residual)) + multiset(Map(SpanOf, m.model));
    TiledApart(m.entries, Map(SpanOf, m.model), multiset(Map(SpanOf, m.residual)));
    TiledApart(m.entries, Map(SpanOf, m.residual), multiset(Map(SpanOf, m.model)));
    ModelInFile(m.model, payload);
    ResidualInFile(m.residual, residual, m.shared);
  }

  /** Positive transfers inside the file, to destinations that do not overlap. */
  ghost predicate Movable(entries: seq<Entry>, file: seq<Byte>) {
    && (forall i :: 0 <= i < |entries| ==> entries[i].offset >= 0 && entries[i].span.size > 0)
    && SpansApart(Map(SpanOf, entries))
    && AllInFile(file, Map(Move, entries))
  }

  lemma {:induction false} ModelInFile(model: seq<Entry>, payload: seq<Byte>)
    requires Slotted(model, |payload|)
    ensures AllInFile(payload, Map(Move, model)) && forall i :: 0 <= i < |model| ==> model[i].offset >= 0 && model[i].span.size > 0
  {
    hide Map, PackedBytes;
    var spans := Map(SpanOf, model);
    forall i | 0 <= i < |model|
      ensures InFile(payload, Map(Move, model)[i].offset, Map(Move, model)[i].length) && model[i].offset >= 0 && model[i].span.size > 0
    {
      MapAt(SpanOf, model, i);
      MapAt(Move, model, i);
      PlacedAt(spans, i);
      PackedMonotone(spans, i + 1, |spans|);
      assert spans[..|spans|] == spans;
    }
  }

  lemma {:induction false} ResidualInFile(residual: seq<Entry>, file: seq<Byte>, shared: bool)
    requires ResidualOk(multiset(Map(FileOf, residual)), |file|, shared)
    ensures AllInFile(file, Map(Move, residual)) && forall i :: 0 <= i < |residual| ==> residual[i].offset >= 0 && residual[i].span.size > 0
  {
    hide Map;
    forall i | 0 <= i < |residual|
      ensures InFile(file, Map(Move, residual)[i].offset, Map(Move, residual)[i].length) && residual[i].offset >= 0 && residual[i].span.size > 0
    {
      MapAt(FileOf, residual, i);
      MapAt(Move, residual, i);
      assert Map(FileOf, residual)[i] in multiset(Map(FileOf, residual));
    }
  }

  /** Transfers whose destinations do not overlap. */
  lemma {:induction false} MovesDisjoint(entries: seq<Entry>, file: seq<Byte>)
    requires Movable(entries, file)
    ensures DirectSplit.DisjointDestinations(Map(Move, entries))
    ensures forall i :: 0 <= i < |entries| ==> Map(Move, entries)[i].length > 0
  {
    hide Map;
    var moves := Map(Move, entries);
    forall i | 0 <= i < |entries|
      ensures moves[i] == Extent(entries[i].offset, entries[i].span.ptr, entries[i].span.size) && Map(SpanOf, entries)[i] == entries[i].span
    {
      MapAt(Move, entries, i);
      MapAt(SpanOf, entries, i);
    }
    forall x, y, a | DirectSplit.Hits(moves, x, a) > 0 && DirectSplit.Hits(moves, y, a) > 0 ensures x == y {
      var i := HitBy(moves, x, a);
      var j := HitBy(moves, y, a);
      OneSpan(Map(SpanOf, entries), i, j, a);
    }
  }

  lemma {:induction false} OneSpan(spans: seq<Span>, i: nat, j: nat, a: int)
    requires SpansApart(spans) && i < |spans| && j < |spans| && spans[i].Contains(a) && spans[j].Contains(a)
    ensures i == j
  {
  }

  lemma {:induction false} HitBy(extents: seq<Extent>, x: int, a: int) returns (i: nat)
    requires DirectSplit.Hits(extents, x, a) > 0
    ensures i < |extents| && DirectSplit.Moves(extents[i], x, a)
  {
    i := |extents| - 1;
    if !DirectSplit.Moves(extents[i], x, a) {
      i := HitBy(extents[..i], x, a);
    }
  }

  /**
    `_restore_exact_extents` through the native transport: split for the direct backend if nothing
    is to be checked, otherwise in one call. `base` is the memory after the copies that an earlier
    call has left on the stream. If no read is in flight, or with a checksum that tells all
    contents apart, a success is the sequential copy over it; if no read is in flight, it
    succeeds exactly if no call fails and, in inline mode, the checksums are right.
   */
  method RestoreExact<S(==,!new)>(file: seq<Byte>, entries: seq<Entry>, live: Memory, preverified: bool, direct: bool, chunk: nat, queueDepth: nat,
                                  step: (S, Byte) -> S, init: S, expected: seq<S>, ring: Ring, late: Lates, broken: bool)
    returns (r: Result<Memory>, ring': Ring, ghost base: Memory)
    requires chunk > 0 && chunk % PAGE == 0 && queueDepth > 0 && entries != [] && |expected| == |entries| && Movable(entries, file)
    ensures Quiet(ring) ==> (r.Ok? <==> !broken && (preverified || ChecksPass(file, Map(Move, entries), step, init, expected)))
    ensures Outside(ring.copies, live, base) && (ring.copies == [] ==> base == live)
    ensures r.Ok? && Trusted(ring, preverified, file, entries, step, init, expected) ==> r.value == CopyExtents(base, file, Map(Move, entries))
    ensures r.Ok? ==> !broken && ring'.copies == [] && (Quiet(ring) ==> Idle(ring'))
  {
    hide Map, Fold, CopyExtents, DirectSplit.DisjointDestinations, Passed, CopyLanded, Outside, Leaves, JobsOf, ReadableTo, Tells, Harmless;
    MovesDisjoint(entries, file);
    var moves := Map(Move, entries);
    if preverified && direct {
      r, ring', base := DirectSplit.HydrateSplit(file, moves, chunk, queueDepth, live, ring, late, broken);
    } else {
      var wanted := seq(|expected|, i requires 0 <= i < |expected| => if preverified then None else Some(expected[i]));
      ghost var plan := PlanOf(file, moves, chunk, queueDepth, live, ring, late(0));
      ghost var last;
      r, ring', last := HydrateStaged(file, moves, chunk, queueDepth, live, step, init, wanted, ring, late(0), broken);
      base := last.base;
      AllReadable(plan, moves);
      if Quiet(ring) {
        QuietPlan(ring, plan);
        if r.Ok? { QuietAfter(ring, ring', chunk, plan.depth); }
        if !preverified { IdlePasses(plan, moves, step, init, expected, wanted); }
      }
      if preverified { NothingWanted(plan, step, init, wanted); }
      if r.Ok? && !preverified && Tells(step, init) && ChecksPass(file, moves, step, init, expected) {
        InlineRestores(plan, base, moves, step, init, wanted);
      }
    }
    if ring.copies == [] { NothingOutside(live, base); }
  }

  lemma {:induction false} NothingWanted<S>(plan: Plan, step: (S, Byte) -> S, init: S, wanted: seq<Option<S>>)
    requires ReadableTo(plan, |plan.jobs|) && forall i :: 0 <= i < |wanted| ==> wanted[i].None?
    ensures Passed(step, init, plan, wanted)
  {
  }

  /** The content of a successful restore can be relied on. */
  ghost predicate Trusted<S(!new)>(ring: Ring, preverified: bool, file: seq<Byte>, entries: seq<Entry>, step: (S, Byte) -> S, init: S, expected: seq<S>)
    requires |expected| == |entries| && AllInFile(file, Map(Move, entries))
  {
    Quiet(ring) || (!preverified && Tells(step, init) && ChecksPass(file, Map(Move, entries), step, init, expected))
  }

  /** From an idle ring the checksums see the bytes of the file. */
  lemma {:induction false} IdlePasses<S>(plan: Plan, moves: seq<Extent>, step: (S, Byte) -> S, init: S, expected: seq<S>, wanted: seq<Option<S>>)
    requires plan.chunk > 0 && plan.jobs == JobsOf(moves, plan.chunk) && moves != [] && AllInFile(plan.file, moves) && NoneOpen(plan.open)
    requires forall i :: 0 <= i < |moves| ==> moves[i].length > 0
    requires |expected| == |moves| == |wanted| && forall i :: 0 <= i < |wanted| ==> wanted[i] == Some(expected[i])
    ensures Passed(step, init, plan, wanted) <==> ChecksPass(plan.file, moves, step, init, expected)
  {
    hide Fold, JobsOf, CopyLanded, CopyExtents, FedLanded, ReadableTo, AllRight, Landed, Harmless;
    AllReadable(plan, moves);
    NoneOpenHarmless(plan);
    HarmlessRight(plan);
    RightExtents(plan, plan.start, moves);
  }

  ghost predicate ChecksPass<S>(file: seq<Byte>, extents: seq<Extent>, step: (S, Byte) -> S, init: S, expected: seq<S>)
    requires AllInFile(file, extents) && |expected| == |extents|
  {
    forall i :: 0 <= i < |extents| ==> Fold(step, init, Slice(file, extents[i].offset, extents[i].length)) == expected[i]
  }

  /** Device memory after both files have been restored. */
  ghost function RestoredMemory(m: Manifest, payload: seq<Byte>, residual: seq<Byte>, live: Memory): Memory
    requires Movable(m.model, payload) && Movable(m.residual, residual)
  {
    CopyExtents(CopyExtents(live, payload, Map(Move, m.model)), residual, Map(Move, m.residual))
  }

  /** `_restore_split_native`, after the pool has been remapped with arbitrary content. */
  method RestoreSplitNative<S(==,!new)>(m: Manifest, payload: seq<Byte>, residual: seq<Byte>, live: Memory, preverified: bool, direct: bool,
                                        chunk: nat, queueDepth: nat, step: (S, Byte) -> S, init: S, model: seq<S>, pieces: seq<S>,
                                        ring: Ring, late: Lates, broken: bool)
    returns (r: Result<Memory>, ring': Ring, ghost base: Memory)
    requires chunk > 0 && chunk % PAGE == 0 && queueDepth > 0
    requires WellFormed(m.entries) && Loadable(m) && |payload| == m.modelFile && |residual| == m.residualFile
    requires |model| == |m.model| && |pieces| == |m.residual|
    ensures Movable(m.model, payload) && Movable(m.residual, residual)
    ensures Outside(ring.copies, live, base)
    ensures Quiet(ring) ==>
      (r.Ok? <==> !broken && (preverified || BothPass(m, payload, residual, step, init, model, pieces)))
      && (r.Ok? ==> r.value == RestoredMemory(m, payload, residual, base) && Idle(ring'))
    ensures r.Ok? && !preverified && Tells(step, init) && BothPass(m, payload, residual, step, init, model, pieces) ==>
      r.value == RestoredMemory(m, payload, residual, base)
  {
    LoadableMoves(m, payload, residual);
    hide Loadable, Movable, Map, CopyExtents, ChecksPass, WellFormed, Tells, Outside, Quiet;
    var middle;
    middle, ring', base := RestoreExact(payload, m.model, live, preverified, direct, chunk, queueDepth, step, init, model, ring, late, broken);
    if middle.Err? {
      return Err, ring', base;
    }
    if Quiet(ring) { IdleQuiet(ring'); }
    ghost var next;
    r, ring', next := RestoreExact(residual, m.residual, middle.value, preverified, direct, chunk, queueDepth, step, init, pieces, ring', n => late(n + 2), broken);
  }

  lemma {:induction false} IdleQuiet(ring: Ring)
    ensures Idle(ring) ==> Quiet(ring)
  {
  }

  /** The checksums of both files are right. */
  ghost predicate BothPass<S>(m: Manifest, payload: seq<Byte>, residual: seq<Byte>, step: (S, Byte) -> S, init: S, model: seq<S>, pieces: seq<S>)
    requires Movable(m.model, payload) && Movable(m.residual, residual) && |model| == |m.model| && |pieces| == |m.residual|
  {
    ChecksPass(payload, Map(Move, m.model), step, init, model) && ChecksPass(residual, Map(Move, m.residual), step, init, pieces)
  }

  /** `live` with the pool as it is in `mem`. */
  function Overlay(live: Memory, mem: Memory, allocations: seq<Allocation>): Memory
    requires PoolMapped(mem, allocations)
  {
    map a | a in live :: if InPool(allocations, a) then mem[a] else live[a]
  }

  /** Every transfer carries the bytes that `mem` has at its destination. */
  ghost predicate Exact(mem: Memory, file: seq<Byte>, extents: seq<Extent>)
    requires AllInFile(file, extents)
  {
    forall i :: 0 <= i < |extents| ==>
      && Mapped(mem, extents[i].pointer, extents[i].length)
      && Slice(file, extents[i].offset, extents[i].length) == Peek(mem, extents[i].pointer, extents[i].length)
  }

  ghost predicate Lands(extents: seq<Extent>, a: int) {
    exists i :: 0 <= i < |extents| && extents[i].pointer <= a < extents[i].pointer + extents[i].length
  }

  lemma {:induction false} PokeExact(live: Memory, mem: Memory, e: Extent, bytes: seq<Byte>, a: int)
    requires a in live && Mapped(mem, e.pointer, e.length) && bytes == Peek(mem, e.pointer, e.length)
    ensures var inside := e.pointer <= a < e.pointer + e.length;
      && (inside ==> a in mem)
      && Poke(live, e.pointer, bytes)[a] == if inside then mem[a] else live[a]
  {
    assert e.pointer <= a < e.pointer + e.length ==> bytes[a - e.pointer] == mem[a];
  }

  lemma {:induction false} LandsLast(extents: seq<Extent>, a: int)
    requires extents != []
    ensures var last := extents[|extents| - 1];
      Lands(extents, a) <==> Lands(extents[..|extents| - 1], a) || last.pointer <= a < last.pointer + last.length
  {
    var front := extents[..|extents| - 1];
    if Lands(front, a) {
      var i :| 0 <= i < |front| && front[i].pointer <= a < front[i].pointer + front[i].length;
      assert extents[i] == front[i];
    }
  }

  lemma {:induction false} ExactCopy(live: Memory, mem: Memory, file: seq<Byte>, extents: seq<Extent>, a: int)
    requires AllInFile(file, extents) && Exact(mem, file, extents) && a in live
    ensures a in CopyExtents(live, file, extents)
    ensures Lands(extents, a) ==> a in mem && CopyExtents(live, file, extents)[a] == mem[a]
    ensures !Lands(extents, a) ==> CopyExtents(live, file, extents)[a] == live[a]
  {
    hide Lands, Slice, Poke, CopyExtents;
    DirectSplit.CopyKeys(live, file, extents);
    CopyUnfold(live, file, extents);
    if extents != [] {
      var n := |extents| - 1;
      var front, last := extents[..n], extents[n];
      DirectSplit.CopyKeys(live, file, front);
      ExactCopy(live, mem, file, front, a);
      PokeExact(CopyExtents(live, file, front), mem, last, Slice(file, last.offset, last.length), a);
      LandsLast(extents, a);
    } else {
      LandsNowhere(a);
    }
  }

  lemma {:induction false} LandsNowhere(a: int)
    ensures !Lands([], a)
  {
  }

  lemma {:induction false} CopyUnfold(live: Memory, file: seq<Byte>, extents: seq<Extent>)
    requires AllInFile(file, extents)
    ensures extents == [] ==> CopyExtents(live, file, extents) == live
    ensures extents != [] ==>
      var last := extents[|extents| - 1];
      CopyExtents(live, file, extents)
        == Poke(CopyExtents(live, file, extents[..|extents| - 1]), last.pointer, Slice(file, last.offset, last.length))
  {
  }

  lemma {:induction false} PackedExact<S>(mem: Memory, spans: seq<Span>, step: (S, Byte) -> S, init: S, blob: Blob<S>, entries: seq<Entry>)
    requires Written(mem, spans, step, init, blob)
    requires forall k :: 0 <= k < |entries| ==> Stands(spans, blob.placed, entries[k])
    ensures AllInFile(blob.file, Map(Move, entries)) && Exact(mem, blob.file, Map(Move, entries))
  {
    hide Map, Fold, PackFile, PackedBytes, Contents;
    var moves := Map(Move, entries);
    forall k | 0 <= k < |entries|
      ensures InFile(blob.file, moves[k].offset, moves[k].length) && Mapped(mem, moves[k].pointer, moves[k].length)
      ensures Slice(blob.file, moves[k].offset, moves[k].length) == Peek(mem, moves[k].pointer, moves[k].length)
    {
      MapAt(Move, entries, k);
      assert Stands(spans, blob.placed, entries[k]);
      var i :| 0 <= i < |spans| && entries[k].span == spans[i] && entries[k].offset == blob.placed[i].offset;
      PlacedAt(spans, i);
      PackedSlice(mem, spans, step, init, blob, i);
    }
  }

  /** The entry is one of the placed spans. */
  ghost predicate Stands(spans: seq<Span>, placed: seq<Extent>, e: Entry) {
    |placed| == |spans| && exists i :: 0 <= i < |spans| && e.span == spans[i] && e.offset == placed[i].offset
  }

  /** A pool address is a destination exactly if the tiling covers it. */
  lemma {:induction false} LandsInPool(allocations: seq<Allocation>, model: seq<Entry>, residual: seq<Entry>, a: int)
    requires Tiled(allocations, multiset(Map(SpanOf, model)) + multiset(Map(SpanOf, residual)))
    ensures InPool(allocations, a) <==> Lands(Map(Move, model), a) || Lands(Map(Move, residual), a)
  {
    hide Map, Disjoint;
    var bag := multiset(Map(SpanOf, model)) + multiset(Map(SpanOf, residual));
    TiledPositive(allocations, Map(SpanOf, model), Map(SpanOf, residual));
    if InPool(allocations, a) {
      var p :| p in allocations && p.pointer <= a < p.End();
      assert Covered(bag, p.pointer, a);
      var s: Span :| s in bag && s.owner == p.pointer && s.Contains(a);
      if s in Map(SpanOf, model) { SpanLands(model, s, a); } else { SpanLands(residual, s, a); }
    }
    if Lands(Map(Move, model), a) {
      var s := LandsOn(model, a);
      assert s in bag && Owned(allocations, s);
    }
    if Lands(Map(Move, residual), a) {
      var s := LandsOn(residual, a);
      assert s in bag && Owned(allocations, s);
    }
  }

  lemma {:induction false} SpanLands(entries: seq<Entry>, s: Span, a: int)
    requires s in Map(SpanOf, entries) && s.Contains(a)
    ensures Lands(Map(Move, entries), a)
  {
    hide Map;
    var i :| 0 <= i < |entries| && Map(SpanOf, entries)[i] == s;
    MapAt(SpanOf, entries, i);
    MapAt(Move, entries, i);
    assert Map(Move, entries)[i].pointer <= a < Map(Move, entries)[i].pointer + Map(Move, entries)[i].length;
  }

  lemma {:induction false} LandsOn(entries: seq<Entry>, a: int) returns (s: Span)
    requires Lands(Map(Move, entries), a)
    ensures s in Map(SpanOf, entries) && s in multiset(Map(SpanOf, entries)) && s.Contains(a)
  {
    hide Map;
    var i :| 0 <= i < |entries| && Map(Move, entries)[i].pointer <= a < Map(Move, entries)[i].pointer + Map(Move, entries)[i].length;
    MapAt(SpanOf, entries, i);
    MapAt(Move, entries, i);
    s := entries[i].span;
    assert s == Map(SpanOf, entries)[i];
  }

  /**
    Capture, load and restore: whatever the remapped pool holds, the restore leaves exactly the
    captured bytes in it and touches nothing else, and the recorded checksums are those of the
    bytes that it reads.
   */
  lemma {:induction false} WakeRestores<S>(allocations: seq<Allocation>, mem: Memory, layout: seq<SemanticRange>,
      native: seq<SemanticRange>, step: (S, Byte) -> S, init: S, finish: S -> int, c: Capture<S>, live: Memory)
    requires WellFormed(allocations) && PoolMapped(mem, allocations)
    requires Faithful(allocations, mem, layout, native, step, init, finish, c)
    ensures |c.refs| == 2 && |c.blob.placed| == |c.blob.checks| == |c.stored| && |c.payload.checks| == |c.model| && ValidRef(c.stored, c.refs[1])
    ensures var m := ManifestOf(allocations, c);
      && Loadable(m) && Movable(m.model, c.payload.file) && Movable(m.residual, c.blob.file)
      && RestoredMemory(m, c.payload.file, c.blob.file, live) == Overlay(live, mem, allocations)
      && BothPass(m, c.payload.file, c.blob.file, step, init, c.payload.checks, PieceChecks(c))
  {
    hide Fold, Fingerprinted, Ranged, Ranges, Map, WellFormed, Contents, SortedBy, Tiled, TotalSize, AllocationBytes,
      Placed, PackFile, PackedBytes, ResidualOk, Slotted, CopyExtents, Movable, PoolMapped, InPool, AllSpansMapped, Positive, Lands, Exact;
    CaptureLoads(allocations, mem, layout, native, step, init, finish, c);
    var m := ManifestOf(allocations, c);
    LoadableMoves(m, c.payload.file, c.blob.file);
    EntriesStand(c);
    PackedExact(mem, Map(SpanOf, c.model), step, init, c.payload, m.model);
    PackedExact(mem, c.stored, step, init, c.blob, m.residual);
    TwoCopies(allocations, m, mem, c.payload.file, c.blob.file, live);
    CheckLengths(allocations, mem, layout, native, step, init, finish, c);
    ModelChecksRight(mem, step, init, c.payload, c.model);
    ChecksRight(mem, c.stored, step, init, c.blob, m.residual, c.refs[1], PieceChecks(c));
  }

  /** The checksums of the residual pieces of the native view. */
  function PieceChecks<S>(c: Capture<S>): (checks: seq<S>)
    requires |c.refs| == 2 && |c.blob.checks| == |c.stored| && ValidRef(c.stored, c.refs[1])
    ensures |checks| == |c.refs[1]| && forall k :: 0 <= k < |checks| ==> checks[k] == c.blob.checks[c.refs[1][k]]
  {
    seq(|c.refs[1]|, k requires 0 <= k < |c.refs[1]| => c.blob.checks[c.refs[1][k]])
  }

  lemma {:induction false} ModelChecksRight<S>(mem: Memory, step: (S, Byte) -> S, init: S, blob: Blob<S>, model: seq<Entry>)
    requires Written(mem, Map(SpanOf, model), step, init, blob)
    requires AllInFile(blob.file, Map(Move, model)) && Exact(mem, blob.file, Map(Move, model))
    ensures |blob.checks| == |model| && ChecksPass(blob.file, Map(Move, model), step, init, blob.checks)
  {
    hide Map, Fold, PackFile, PackedBytes, Placed, Exact, Contents;
    forall k | 0 <= k < |model| ensures Map(SpanOf, model)[k] == model[k].span { MapAt(SpanOf, model, k); }
    ChecksRight(mem, Map(SpanOf, model), step, init, blob, model, seq(|model|, k => k), blob.checks);
  }

  lemma {:induction false} ChecksRight<S>(mem: Memory, spans: seq<Span>, step: (S, Byte) -> S, init: S, blob: Blob<S>,
                                          entries: seq<Entry>, places: seq<nat>, checks: seq<S>)
    requires Written(mem, spans, step, init, blob) && |entries| == |places| == |checks|
    requires forall k :: 0 <= k < |entries| ==> places[k] < |spans| && entries[k].span == spans[places[k]] && checks[k] == blob.checks[places[k]]
    requires AllInFile(blob.file, Map(Move, entries)) && Exact(mem, blob.file, Map(Move, entries))
    ensures ChecksPass(blob.file, Map(Move, entries), step, init, checks)
  {
    hide Map, Fold, PackFile, PackedBytes, Placed;
    var moves := Map(Move, entries);
    forall k | 0 <= k < |moves| ensures Fold(step, init, Slice(blob.file, moves[k].offset, moves[k].length)) == checks[k] {
      MapAt(Move, entries, k);
      assert Contents(mem, spans)[places[k]] == Peek(mem, spans[places[k]].ptr, spans[places[k]].size);
    }
  }

  lemma {:induction false} EntriesStand<S>(c: Capture<S>)
    requires |c.refs| == 2 && |c.blob.placed| == |c.stored| && ValidRef(c.stored, c.refs[1]) && Located(c.model, c.payload)
    ensures forall k :: 0 <= k < |c.model| ==> Stands(Map(SpanOf, c.model), c.payload.placed, c.model[k])
    ensures var residual := ResidualEntries(c.stored, c.blob.placed, c.refs[1]);
      forall k :: 0 <= k < |residual| ==> Stands(c.stored, c.blob.placed, residual[k])
  {
    hide Map;
    forall k | 0 <= k < |c.model| ensures Stands(Map(SpanOf, c.model), c.payload.placed, c.model[k]) {
      MapAt(SpanOf, c.model, k);
    }
    var residual := ResidualEntries(c.stored, c.blob.placed, c.refs[1]);
    forall k | 0 <= k < |residual| ensures Stands(c.stored, c.blob.placed, residual[k]) {
      var i := c.refs[1][k];
      assert residual[k].span == c.stored[i] && residual[k].offset == c.blob.placed[i].offset;
    }
  }

  lemma {:induction false} TwoCopies(allocations: seq<Allocation>, m: Manifest, mem: Memory, payload: seq<Byte>, residual: seq<Byte>, live: Memory)
    requires PoolMapped(mem, allocations) && Movable(m.model, payload) && Movable(m.residual, residual)
    requires Tiled(allocations, multiset(Map(SpanOf, m.model)) + multiset(Map(SpanOf, m.residual)))
    requires Exact(mem, payload, Map(Move, m.model)) && Exact(mem, residual, Map(Move, m.residual))
    ensures RestoredMemory(m, payload, residual, live) == Overlay(live, mem, allocations)
  {
    hide Map, Tiled, CopyExtents, Exact, Lands, InPool, PoolMapped, SpansApart, AllInFile;
    var middle := CopyExtents(live, payload, Map(Move, m.model));
    var last := CopyExtents(middle, residual, Map(Move, m.residual));
    DirectSplit.CopyKeys(live, payload, Map(Move, m.model));
    DirectSplit.CopyKeys(middle, residual, Map(Move, m.residual));
    forall a | a in live ensures last[a] == Overlay(live, mem, allocations)[a] {
      ExactCopy(live, mem, payload, Map(Move, m.model), a);
      ExactCopy(middle, mem, residual, Map(Move, m.residual), a);
      LandsInPool(allocations, m.model, m.residual, a);
    }
  }

  /** The copies that an earlier call has left go into the pool. */
  ghost predicate IntoPool(copies: seq<Copy>, allocations: seq<Allocation>) {
    forall c, x :: c in copies && Reaches(c, x) ==> InPool(allocations, x)
  }

  /** Copies into the pool do not matter: every byte of it is restored. */
  lemma {:induction false} OverlaySame(allocations: seq<Allocation>, mem: Memory, live: Memory, base: Memory, copies: seq<Copy>)
    requires PoolMapped(mem, allocations) && Outside(copies, live, base) && IntoPool(copies, allocations)
    ensures Overlay(base, mem, allocations) == Overlay(live, mem, allocations)
  {
    hide InPool, PoolMapped;
    forall a | a in live && !InPool(allocations, a) ensures base[a] == live[a] {
      assert forall c :: c in copies ==> !Reaches(c, a);
    }
  }

  /**
    The whole way: capture, write, load, restore. The loader never rejects what was written, and an
    inline restore never rejects its checksums: with no read in flight a capture that was made is
    restored unless a call fails. What is restored is the captured pool, with no read in flight or
    with a checksum that tells all contents apart, also if copies into the pool are still queued.
    `before` is the ring at the capture and `ring` the one at the restore.
   */
  method NativeRoundTrip<S(==,!new)>(allocations: seq<Allocation>, mem: Memory, layout: seq<SemanticRange>, native: seq<SemanticRange>,
                                     live: Memory, preverified: bool, direct: bool, chunk: nat, queueDepth: nat, step: (S, Byte) -> S, init: S, finish: S -> int,
                                     before: Ring, captureBreaks: bool, ring: Ring, late: Lates, restoreBreaks: bool)
    returns (captured: bool, r: Result<Memory>, ring': Ring)
    requires WellFormed(allocations) && PoolMapped(mem, allocations)
    requires chunk > 0 && chunk % PAGE == 0 && queueDepth > 0
    ensures captured ==> Partitionable(allocations, layout) && Partitionable(allocations, native) && !captureBreaks
    ensures !preverified || Quiet(before) ==>
      (LowPool(allocations) && Partitionable(allocations, layout) && Partitionable(allocations, native) && !captureBreaks ==> captured)
    ensures Quiet(before) && Quiet(ring) ==> (r.Ok? <==> captured && !restoreBreaks)
    ensures r.Ok? && Quiet(before) && IntoPool(ring.copies, allocations) && (Quiet(ring) || (!preverified && Tells(step, init))) ==>
      r.value == Overlay(live, mem, allocations)
    ensures r.Ok? && Quiet(ring) ==> Idle(ring')
  {
    hide WellFormed, PoolMapped, Loadable, Movable, Faithful, RestoredMemory, Overlay, ChecksPass, BothPass, Quiet, Tells, Partitionable, LowPool, Outside, IntoPool;
    var c := CaptureNative(allocations, mem, layout, native, chunk, queueDepth, preverified, step, init, finish, before, captureBreaks);
    if c.Err? {
      return false, Err, ring;
    }
    captured := true;
    var m := ManifestOf(allocations, c.value);
    var loaded := LoadSplitNative(m);
    if Quiet(before) { WakeRestores(allocations, mem, layout, native, step, init, finish, c.value, live); }
    if !loaded {
      return captured, Err, ring;
    }
    ghost var base;
    r, ring', base := RestoreSplitNative(m, c.value.payload.file, c.value.blob.file, live, preverified, direct, chunk, queueDepth, step, init,
                                         c.value.payload.checks, PieceChecks(c.value), ring, late, restoreBreaks);
    if Quiet(before) { WakeRestores(allocations, mem, layout, native, step, init, finish, c.value, base); }
    if IntoPool(ring.copies, allocations) { OverlaySame(allocations, mem, live, base, ring.copies); }
  }

  lemma {:induction false} CheckLengths<S>(allocations: seq<Allocation>, mem: Memory, layout: seq<SemanticRange>,
      native: seq<SemanticRange>, step: (S, Byte) -> S, init: S, finish: S -> int, c: Capture<S>)
    requires Faithful(allocations, mem, layout, native, step, init, finish, c)
    ensures |c.payload.checks| == |c.model| && |c.blob.checks| == |c.stored|
  {
  }
}
