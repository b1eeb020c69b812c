/**
  The manifest of a split native snapshot and the checks with which the loader accepts it
  (`_validate_residual_file_extents` and the split native part of `_load_manifest`).
 */
module Snapshot {
  import opened Bytes
  import opened Sorting
  import opened Tiling
  import Pack

  /** Where an extent lies in the residual file. */
  datatype FileExtent = FileExtent(offset: int, size: int)

  predicate ByOffset(a: FileExtent, b: FileExtent) { a.offset <= b.offset }

  /** The file position after an extent; in a shared blob, after its whole slot. */
  function SlotEnd(e: FileExtent, shared: bool): int {
    e.offset + if shared && e.size >= 0 then AlignUp(e.size) else e.size
  }

  predicate Placeable(e: FileExtent, start: int, fileBytes: int, shared: bool) {
    e.size > 0 && start <= e.offset && SlotEnd(e, shared) <= fileBytes && (shared ==> e.offset % PAGE == 0)
  }

  ghost predicate InExtent(bag: multiset<FileExtent>, x: int) {
    exists e :: e in bag && e.offset <= x < e.offset + e.size
  }

  /** Disjoint slots between `start` and the end of the file, and in a legacy blob no gap. */
  ghost predicate ResidualFrom(bag: multiset<FileExtent>, start: int, fileBytes: int, shared: bool) {
    && (forall e :: e in bag ==> bag[e] == 1 && Placeable(e, start, fileBytes, shared))
    && (forall e, f :: e in bag && f in bag && e != f ==> SlotEnd(e, shared) <= f.offset || SlotEnd(f, shared) <= e.offset)
    && (!shared ==> forall x :: start <= x < fileBytes ==> InExtent(bag, x))
  }

  ghost predicate ResidualOk(bag: multiset<FileExtent>, fileBytes: int, shared: bool) {
    fileBytes > 0 && (shared ==> fileBytes % PAGE == 0) && ResidualFrom(bag, 0, fileBytes, shared)
  }

  /** The cursor test of the validator. */
  predicate Scan(s: seq<FileExtent>, cursor: int, fileBytes: int, shared: bool) {
    if s == [] then shared || cursor == fileBytes
    else
      && Placeable(s[0], cursor, fileBytes, shared) && (!shared ==> s[0].offset == cursor)
      && Scan(s[1..], SlotEnd(s[0], shared), fileBytes, shared)
  }

  lemma {:induction false} HeadBag(s: seq<FileExtent>)
    requires s != []
    ensures multiset(s) == multiset{s[0]} + multiset(s[1..])
  {
    assert s == [s[0]] + s[1..];
  }

  lemma {:induction false} ScanSound(s: seq<FileExtent>, cursor: int, fileBytes: int, shared: bool)
    requires Scan(s, cursor, fileBytes, shared)
    ensures ResidualFrom(multiset(s), cursor, fileBytes, shared)
  {
    if s != [] {
      var end, rest := SlotEnd(s[0], shared), multiset(s[1..]);
      ScanSound(s[1..], end, fileBytes, shared);
      HeadBag(s);
      forall x | !shared && cursor <= x < fileBytes ensures InExtent(multiset(s), x) {
        if x < end {
          assert s[0] in multiset(s);
        } else {
          assert InExtent(rest, x);
        }
      }
    }
  }

  lemma {:induction false} ScanComplete(s: seq<FileExtent>, cursor: int, fileBytes: int, shared: bool)
    requires SortedBy(ByOffset, s) && ResidualFrom(multiset(s), cursor, fileBytes, shared) && cursor <= fileBytes
    ensures Scan(s, cursor, fileBytes, shared)
  {
    var bag := multiset(s);
    if s == [] {
      assert !shared && cursor < fileBytes ==> InExtent(bag, cursor);
    } else {
      var end, rest := SlotEnd(s[0], shared), multiset(s[1..]);
      HeadBag(s);
      assert s[0] in bag && s[0] !in rest;
      forall e | e in rest ensures rest[e] == 1 && Placeable(e, end, fileBytes, shared) && s[0].offset <= e.offset {
        assert e in bag && e in s[1..];
        var k :| 0 <= k < |s[1..]| && s[1..][k] == e;
        assert ByOffset(s[0], s[k + 1]);
      }
      forall x | !shared && end <= x < fileBytes ensures InExtent(rest, x) {
        assert InExtent(bag, x);
      }
      assert !shared ==> InExtent(bag, cursor);
      ScanComplete(s[1..], end, fileBytes, shared);
    }
  }

  method ValidateResidual(extents: seq<FileExtent>, fileBytes: int, shared: bool) returns (ok: bool)
    ensures ok <==> ResidualOk(multiset(extents), fileBytes, shared)
  {
    hide ResidualFrom;
    if fileBytes <= 0 || (shared && fileBytes % PAGE != 0) {
      return false;
    }
    var s := Sort(ByOffset, extents);
    ScanExact(s, extents, fileBytes, shared);
    var cursor := 0;
    for i := 0 to |s|
      invariant Scan(s, 0, fileBytes, shared) <==> Scan(s[i..], cursor, fileBytes, shared)
    {
      var e := s[i];
      assert s[i..][1..] == s[i + 1..];
      if e.size <= 0 || e.offset < cursor || (shared && e.offset % PAGE != 0) || (!shared && e.offset != cursor) {
        return false;
      }
      cursor := SlotEnd(e, shared);
      if cursor > fileBytes {
        return false;
      }
    }
    return shared || cursor == fileBytes;
  }

  lemma {:induction false} ScanExact(s: seq<FileExtent>, extents: seq<FileExtent>, fileBytes: int, shared: bool)
    requires s == Sort(ByOffset, extents) && fileBytes > 0
    ensures Scan(s, 0, fileBytes, shared) <==> ResidualFrom(multiset(extents), 0, fileBytes, shared)
  {
    SortSorted(ByOffset, extents);
    if Scan(s, 0, fileBytes, shared) { ScanSound(s, 0, fileBytes, shared); }
    if ResidualFrom(multiset(s), 0, fileBytes, shared) { ScanComplete(s, 0, fileBytes, shared); }
  }

  // ---------------------------------------------------------------------------------------------
  // The manifest.

  /** An extent of the manifest; only model extents use the semantic `id` and the SHA-256 `key`. */
  datatype Entry = Entry(span: Span, id: string, offset: int, key: int)

  predicate ByKey(a: Entry, b: Entry) { a.key < b.key || (a.key == b.key && a.span.size <= b.span.size) }

  /** By digest, and by size where digests agree. */
  predicate KeyOrdered(model: seq<Entry>) {
    forall i, j :: 0 <= i < j < |model| ==>
      model[i].key < model[j].key || (model[i].key == model[j].key && model[i].span.size <= model[j].span.size)
  }

  lemma {:induction false} KeysInOrder(model: seq<Entry>)
    requires SortedBy(ByKey, model)
    ensures KeyOrdered(model)
  {
    forall i, j | 0 <= i < j < |model|
      ensures model[i].key < model[j].key || (model[i].key == model[j].key && model[i].span.size <= model[j].span.size)
    {
      assert ByKey(model[i], model[j]);
    }
  }

  function SpanOf(e: Entry): Span { e.span }

  function FileOf(e: Entry): FileExtent { FileExtent(e.offset, e.span.size) }

  /** `portable` says that the weight source is split native and its model payload portable. */
  datatype Manifest = Manifest(entries: seq<Allocation>, model: seq<Entry>, residual: seq<Entry>, shared: bool,
                               portable: bool, portableResidual: bool,
                               modelFile: int, residualFile: int, modelBytes: int, residualBytes: int, allocationBytes: int)

  /** The model extents follow one another in padded slots and fill the payload. */
  ghost predicate Slotted(model: seq<Entry>, fileBytes: int) {
    && Pack.Positive(Map(SpanOf, model))
    && fileBytes == Pack.PackedBytes(Map(SpanOf, model))
    && forall i :: 0 <= i < |model| ==> model[i].offset == Pack.PackedBytes(Map(SpanOf, model)[..i])
  }

  ghost predicate Loadable(m: Manifest) {
    && m.entries != [] && m.model != [] && m.residual != [] && m.portable && m.portableResidual && Keyed(m.entries)
    && Tiled(m.entries, multiset(Map(SpanOf, m.model)) + multiset(Map(SpanOf, m.residual)))
    && ResidualOk(multiset(Map(FileOf, m.residual)), m.residualFile, m.shared)
    && Slotted(m.model, m.modelFile)
    && SortedBy(ByKey, m.model)
    && m.modelBytes == TotalSize(Map(SpanOf, m.model)) && m.residualBytes == TotalSize(Map(SpanOf, m.residual))
    && m.allocationBytes == AllocationBytes(m.entries)
  }

  /** Once the extents tile the allocations, the three byte totals cannot disagree with each other. */
  lemma {:induction false} TotalsAgree(m: Manifest)
    requires Keyed(m.entries)
    requires Tiled(m.entries, multiset(Map(SpanOf, m.model)) + multiset(Map(SpanOf, m.residual)))
    ensures TotalSize(Map(SpanOf, m.model)) + TotalSize(Map(SpanOf, m.residual)) == AllocationBytes(m.entries)
  {
    hide Tiled, Keyed, Map, TotalSize, AllocationBytes;
    var model, residual := Map(SpanOf, m.model), Map(SpanOf, m.residual);
    assert multiset(model + residual) == multiset(model) + multiset(residual);
    TiledTotal(m.entries, model + residual);
    TotalConcat(model, residual);
  }

  method CheckSlots(model: seq<Entry>, fileBytes: int) returns (ok: bool)
    requires Pack.Positive(Map(SpanOf, model))
    ensures ok <==> Slotted(model, fileBytes)
  {
    var expected := 0;
    ghost var spans := Map(SpanOf, model);
    for i := 0 to |model|
      invariant expected == Pack.PackedBytes(spans[..i])
      invariant forall k :: 0 <= k < i ==> model[k].offset == Pack.PackedBytes(spans[..k])
    {
      MapAt(SpanOf, model, i);
      assert spans[..i + 1][..i] == spans[..i];
      if model[i].offset != expected {
        return false;
      }
      expected := expected + AlignUp(model[i].span.size);
    }
    assert spans[..|spans|] == spans;
    return expected == fileBytes;
  }

  // ---------------------------------------------------------------------------------------------
  // The allocations, looked up by pointer.

  predicate AllPositive(entries: seq<Allocation>) { forall i :: 0 <= i < |entries| ==> entries[i].size > 0 }

  predicate DistinctPointers(entries: seq<Allocation>) {
    forall i, j :: 0 <= i < j < |entries| ==> entries[i].pointer != entries[j].pointer
  }

  function Dropping(entries: seq<Allocation>, pointer: int): seq<Allocation> {
    if entries == [] then []
    else
      var front, last := Dropping(entries[..|entries| - 1], pointer), entries[|entries| - 1];
      if last.pointer == pointer then front else front + [last]
  }

  /** The table keyed by pointer: a later entry replaces an earlier one. */
  function Latest(entries: seq<Allocation>): seq<Allocation> {
    if entries == [] then []
    else
      var last := entries[|entries| - 1];
      Dropping(Latest(entries[..|entries| - 1]), last.pointer) + [last]
  }

  lemma {:induction false} DroppingKeyed(entries: seq<Allocation>, pointer: int)
    requires AllPositive(entries) && DistinctPointers(entries)
    ensures AllPositive(Dropping(entries, pointer)) && DistinctPointers(Dropping(entries, pointer))
    ensures forall a :: a in Dropping(entries, pointer) ==> a in entries && a.pointer != pointer
  {
    if entries != [] {
      var n := |entries| - 1;
      DroppingKeyed(entries[..n], pointer);
      var front := Dropping(entries[..n], pointer);
      forall i | 0 <= i < |front| ensures front[i].pointer != entries[n].pointer {
        assert front[i] in front && front[i] in entries[..n];
      }
    }
  }

  lemma {:induction false} LatestKeyed(entries: seq<Allocation>)
    requires AllPositive(entries)
    ensures AllPositive(Latest(entries)) && DistinctPointers(Latest(entries))
  {
    if entries != [] {
      var n := |entries| - 1;
      LatestKeyed(entries[..n]);
      DroppingKeyed(Latest(entries[..n]), entries[n].pointer);
      var front := Dropping(Latest(entries[..n]), entries[n].pointer);
      forall i | 0 <= i < |front| ensures front[i].pointer != entries[n].pointer {
        assert front[i] in front;
      }
    }
  }

  predicate Has(entries: seq<Allocation>, pointer: int) { exists i :: 0 <= i < |entries| && entries[i].pointer == pointer }

  lemma {:induction false} HasNext(front: seq<Allocation>, last: Allocation, pointer: int)
    ensures Has(front + [last], pointer) <==> Has(front, pointer) || last.pointer == pointer
    ensures DistinctPointers(front + [last]) <==> DistinctPointers(front) && !Has(front, last.pointer)
  {
    var all := front + [last];
    assert all[|front|] == last && forall i :: 0 <= i < |front| ==> all[i] == front[i];
  }

  lemma {:induction false} BytesNext(front: seq<Allocation>, last: Allocation)
    ensures AllocationBytes(front + [last]) == AllocationBytes(front) + last.size
  {
    assert (front + [last])[..|front|] == front;
  }

  /** Dropping a pointer loses bytes exactly if it is there. */
  lemma {:induction false} DroppingBytes(entries: seq<Allocation>, pointer: int)
    requires AllPositive(entries)
    ensures AllocationBytes(Dropping(entries, pointer)) <= AllocationBytes(entries)
    ensures Has(entries, pointer) ==> AllocationBytes(Dropping(entries, pointer)) < AllocationBytes(entries)
    ensures !Has(entries, pointer) ==> Dropping(entries, pointer) == entries
  {
    hide Has, AllocationBytes;
    if entries == [] {
      NothingHas(pointer);
    } else {
      var n := |entries| - 1;
      var before, last := entries[..n], entries[n];
      DroppingBytes(before, pointer);
      assert before + [last] == entries;
      HasNext(before, last, pointer);
      BytesNext(before, last);
      BytesNext(Dropping(before, pointer), last);
    }
  }

  lemma {:induction false} NothingHas(pointer: int)
    ensures !Has([], pointer) && AllocationBytes([]) == 0 && DistinctPointers([])
  {
  }

  /** The table holds as many bytes as the entries exactly if no pointer occurs twice, and then it is the entries. */
  lemma {:induction false} LatestBytes(entries: seq<Allocation>)
    requires AllPositive(entries)
    ensures if DistinctPointers(entries) then Latest(entries) == entries else AllocationBytes(Latest(entries)) < AllocationBytes(entries)
  {
    hide Dropping, Has, AllocationBytes, DistinctPointers;
    if entries == [] {
      NothingHas(0);
    } else {
      var n := |entries| - 1;
      var before, last := entries[..n], entries[n];
      assert before + [last] == entries;
      LatestBytes(before);
      LatestKeyed(before);
      DroppingBytes(Latest(before), last.pointer);
      HasNext(before, last, last.pointer);
      BytesNext(before, last);
      BytesNext(Dropping(Latest(before), last.pointer), last);
    }
  }

  /**
    The split native part of `_load_manifest`. It tests the sizes itself, and needs no test for
    pointers that occur twice: the byte totals do not add up then.
   */
  method LoadSplitNative(m: Manifest) returns (ok: bool)
    ensures ok <==> Loadable(m)
    ensures ok ==> KeyOrdered(m.model)
  {
    hide KeyOrdered, Tiled, Map, TotalSize, AllocationBytes, ResidualOk, Slotted, Pack.Positive, SortedBy, Sort, Latest;
    var model, residual := Map(SpanOf, m.model), Map(SpanOf, m.residual);
    assert multiset(model + residual) == multiset(model) + multiset(residual);
    if m.entries == [] || m.model == [] || m.residual == [] || !m.portable || !m.portableResidual
       || m.allocationBytes != AllocationBytes(m.entries) || !AllPositive(m.entries) {
      return false;
    }
    LatestKeyed(m.entries);
    LatestBytes(m.entries);
    var table := Latest(m.entries);
    var tiled := CheckCoverage(table, model + residual);
    if !tiled {
      return false;
    }
    TiledPositive(table, model, residual);
    var valid := ValidateResidual(Map(FileOf, m.residual), m.residualFile, m.shared);
    var slotted := CheckSlots(m.model, m.modelFile);
    SortFixed(ByKey, m.model);
    if SortedBy(ByKey, m.model) { KeysInOrder(m.model); }
    TotalsAgree(m.(entries := table));
    return valid && slotted && m.model == Sort(ByKey, m.model)
      && TotalSize(model) == m.modelBytes && TotalSize(residual) == m.residualBytes
      && m.modelBytes + m.residualBytes == m.allocationBytes;
  }

  lemma {:induction false} TiledPositive(entries: seq<Allocation>, model: seq<Span>, residual: seq<Span>)
    requires Tiled(entries, multiset(model) + multiset(residual))
    ensures Pack.Positive(model) && Pack.Positive(residual)
  {
    forall i | 0 <= i < |model| ensures model[i].size > 0 {
      assert model[i] in multiset(model);
      assert Owned(entries, model[i]);
    }
    forall i | 0 <= i < |residual| ensures residual[i].size > 0 {
      assert residual[i] in multiset(residual);
      assert Owned(entries, residual[i]);
    }
  }
}
