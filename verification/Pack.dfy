/**
  Writing byte ranges into a file of padded slots (`_write_extent_blob`) and the canonical order of
  the shared model payload (`_write_model_payload`).
 */
module Pack {
  import opened Bytes
  import opened Sorting
  import opened Tiling
  import opened Jobs
  import opened CaptureLayout
  import opened CapturePipeline
  import opened Readback
  import HydrationPipeline

  predicate Positive(spans: seq<Span>) { forall i :: 0 <= i < |spans| ==> spans[i].size > 0 }

  /** `_packed_extent_bytes`. */
  function PackedBytes(spans: seq<Span>): nat
    requires Positive(spans)
  {
    if spans == [] then 0 else PackedBytes(spans[..|spans| - 1]) + AlignUp(spans[|spans| - 1].size)
  }

  /** The extents of a blob: each span at the end of the slots before it. */
  function Placed(spans: seq<Span>): (placed: seq<Extent>)
    requires Positive(spans)
    ensures |placed| == |spans|
  {
    if spans == [] then []
    else
      var front, last := spans[..|spans| - 1], spans[|spans| - 1];
      Placed(front) + [Extent(PackedBytes(front), last.ptr, last.size)]
  }

  lemma {:induction false} PlacedAt(spans: seq<Span>, i: nat)
    requires Positive(spans) && i < |spans|
    ensures Placed(spans)[i] == Extent(PackedBytes(spans[..i]), spans[i].ptr, spans[i].size)
    ensures PackedBytes(spans[..i]) + AlignUp(spans[i].size) == PackedBytes(spans[..i + 1])
  {
    assert spans[..i + 1][..i] == spans[..i];
    if i < |spans| - 1 {
      var front := spans[..|spans| - 1];
      PlacedAt(front, i);
      assert front[..i] == spans[..i] && front[..i + 1] == spans[..i + 1];
    }
  }

  lemma {:induction false} PackedMonotone(spans: seq<Span>, i: nat, j: nat)
    requires Positive(spans) && i <= j <= |spans|
    ensures PackedBytes(spans[..i]) <= PackedBytes(spans[..j])
  {
    if i < j {
      PackedMonotone(spans, i, j - 1);
      assert spans[..j][..j - 1] == spans[..j - 1];
    }
  }

  lemma {:induction false} PackedAligned(spans: seq<Span>)
    requires Positive(spans)
    ensures PackedBytes(spans) % PAGE == 0
  {
    if spans != [] { PackedAligned(spans[..|spans| - 1]); }
  }

  /** The first loop of `_write_extent_blob`. */
  method AssignOffsets(spans: seq<Span>) returns (placed: seq<Extent>, total: nat)
    requires Positive(spans)
    ensures placed == Placed(spans) && total == PackedBytes(spans)
  {
    placed, total := [], 0;
    for i := 0 to |spans|
      invariant placed == Placed(spans[..i]) && total == PackedBytes(spans[..i])
    {
      assert spans[..i + 1][..i] == spans[..i];
      placed := placed + [Extent(total, spans[i].ptr, spans[i].size)];
      total := total + AlignUp(spans[i].size);
    }
    assert spans[..|spans|] == spans;
  }

  /** The packed layout fills the file. */
  lemma {:induction false} PlacedFills(spans: seq<Span>)
    requires Positive(spans) && spans != []
    ensures FileBytes(Placed(spans), true) == PackedBytes(spans)
  {
    assert spans[..|spans|] == spans;
    PlacedAt(spans, |spans| - 1);
  }

  /** The sources and the packed file have addresses and offsets below 2^64. */
  predicate Addressable(spans: seq<Span>)
    requires Positive(spans)
  {
    && PackedBytes(spans) <= MAX64
    && forall i :: 0 <= i < |spans| ==> 0 < spans[i].ptr && spans[i].End() <= MAX64 && spans[i].size + 4095 <= MAX64
  }

  /** The packed layout is a valid padded request as long as everything stays below 2^64. */
  lemma {:induction false} PlacedValid(spans: seq<Span>)
    requires Positive(spans) && Addressable(spans)
    ensures ValidCapture(Placed(spans), true)
  {
    hide Placed, PackedBytes;
    var placed := Placed(spans);
    assert spans[..|spans|] == spans;
    forall i | 0 <= i < |placed| ensures FieldsValid(placed[i], true) {
      PlacedAt(spans, i);
      PackedAligned(spans[..i]);
      PackedMonotone(spans, i + 1, |spans|);
    }
    forall i, j | 0 <= i < j < |placed| ensures placed[i].offset + Slot4K(placed[i].length, true) <= placed[j].offset {
      PlacedAt(spans, i);
      PlacedAt(spans, j);
      PackedMonotone(spans, i + 1, j);
    }
  }

  predicate AllSpansMapped(mem: Memory, spans: seq<Span>)
    requires Positive(spans)
  {
    forall i :: 0 <= i < |spans| ==> Mapped(mem, spans[i].ptr, spans[i].size)
  }

  /** The byte strings in the spans. */
  function Contents(mem: Memory, spans: seq<Span>): (c: seq<seq<Byte>>)
    requires Positive(spans) && AllSpansMapped(mem, spans)
    ensures |c| == |spans| && forall i :: 0 <= i < |c| ==> c[i] == Peek(mem, spans[i].ptr, spans[i].size)
  {
    seq(|spans|, i requires 0 <= i < |spans| => Peek(mem, spans[i].ptr, spans[i].size))
  }

  /** The file that a list of byte strings makes: each in its own padded slot. */
  function PackFile(contents: seq<seq<Byte>>): seq<Byte> {
    if contents == [] then [] else PackFile(contents[..|contents| - 1]) + Padded(contents[|contents| - 1])
  }

  lemma {:induction false} PlacedMapped(mem: Memory, spans: seq<Span>)
    requires Positive(spans) && AllSpansMapped(mem, spans)
    ensures AllMapped(mem, Placed(spans))
  {
    forall i | 0 <= i < |Placed(spans)| ensures Mapped(mem, Placed(spans)[i].pointer, Placed(spans)[i].length) {
      PlacedAt(spans, i);
    }
  }

  /** The slot of span `i` in a file that holds the placed spans is its content, padded. */
  lemma {:induction false} SlotContent(mem: Memory, spans: seq<Span>, file: seq<Byte>, i: nat)
    requires Positive(spans) && ValidCapture(Placed(spans), true) && AllSpansMapped(mem, spans) && i < |spans|
    requires |file| == PackedBytes(spans) && AllMapped(mem, Placed(spans)) && Holding(file, mem, Placed(spans))
    ensures PackedBytes(spans[..i]) + AlignUp(spans[i].size) <= |file|
    ensures Slice(file, PackedBytes(spans[..i]), AlignUp(spans[i].size)) == Padded(Contents(mem, spans)[i])
  {
    hide PackedBytes, Placed;
    var placed, slot := Placed(spans), AlignUp(spans[i].size);
    PlacedAt(spans, i);
    PlacedFills(spans);
    SlotInFile(placed, true, i);
    var e := placed[i];
    assert Slice(file, e.offset, e.length) == Peek(mem, spans[i].ptr, spans[i].size);
    forall k | 0 <= k < slot ensures file[e.offset + k] == Padded(Contents(mem, spans)[i])[k] {
      if k < e.length {
        assert Slice(file, e.offset, e.length)[k] == file[e.offset + k];
      } else {
        SlotApart(placed, true, i, e.offset + k);
      }
    }
  }

  /** Holding every span in its slot, and zeros elsewhere, is being the packed file. */
  lemma {:induction false} PackUnique(mem: Memory, spans: seq<Span>, file: seq<Byte>, n: nat)
    requires Positive(spans) && ValidCapture(Placed(spans), true) && AllSpansMapped(mem, spans) && n <= |spans|
    requires |file| == PackedBytes(spans) && AllMapped(mem, Placed(spans)) && Holding(file, mem, Placed(spans))
    ensures PackedBytes(spans[..n]) <= |file| && file[..PackedBytes(spans[..n])] == PackFile(Contents(mem, spans)[..n])
  {
    hide Placed, ValidCapture, Padded, Holding, PackedBytes, Contents, PackFile;
    assert spans[..|spans|] == spans;
    PackedMonotone(spans, n, |spans|);
    if n > 0 {
      PackUnique(mem, spans, file, n - 1);
      SlotContent(mem, spans, file, n - 1);
      PlacedAt(spans, n - 1);
      PackGrows(Contents(mem, spans), file, n, PackedBytes(spans[..n - 1]), AlignUp(spans[n - 1].size));
    } else {
      PackedNone(spans, Contents(mem, spans));
    }
  }

  lemma {:induction false} PackGrows(contents: seq<seq<Byte>>, file: seq<Byte>, n: nat, start: nat, slot: nat)
    requires 0 < n <= |contents| && start + slot <= |file|
    requires file[..start] == PackFile(contents[..n - 1]) && Slice(file, start, slot) == Padded(contents[n - 1])
    ensures file[..start + slot] == PackFile(contents[..n])
  {
    assert file[..start + slot] == file[..start] + Slice(file, start, slot);
    assert contents[..n][..n - 1] == contents[..n - 1];
  }

  lemma {:induction false} PackedNone(spans: seq<Span>, contents: seq<seq<Byte>>)
    ensures PackedBytes(spans[..0]) == 0 && PackFile(contents[..0]) == []
  {
  }

  datatype Blob<S> = Blob(file: seq<Byte>, placed: seq<Extent>, checks: seq<S>, sha: Option<S>)

  /** What a written blob promises: the packed file, and the checksum of every span. */
  ghost predicate Packed<S>(mem: Memory, spans: seq<Span>, step: (S, Byte) -> S, init: S, blob: Blob<S>)
    requires Positive(spans) && AllSpansMapped(mem, spans)
  {
    && blob.placed == Placed(spans)
    && blob.file == PackFile(Contents(mem, spans)) && |blob.file| == PackedBytes(spans)
    && |blob.checks| == |spans|
    && (forall i :: 0 <= i < |spans| ==> blob.checks[i] == Fold(step, init, Contents(mem, spans)[i]))
    && (blob.sha.Some? ==> blob.sha.value == Fold(step, init, blob.file))
  }

  /** What a blob has whatever it holds. */
  ghost predicate Laid<S>(spans: seq<Span>, fileSha: bool, blob: Blob<S>)
    requires Positive(spans)
  {
    && blob.placed == Placed(spans) && |blob.placed| == |spans|
    && |blob.file| == PackedBytes(spans) && |blob.checks| == |spans| && blob.sha.Some? == fileSha
  }

  /** No read that was left in flight can spoil the blob. */
  ghost predicate Unspoilt(mem: Memory, spans: seq<Span>, chunk: nat, queueDepth: nat, ring: HydrationPipeline.Ring)
    requires Positive(spans) && chunk > 0
  {
    Clean(mem, Placed(spans), true, chunk, queueDepth, ring)
  }

  lemma {:induction false} QuietUnspoilt(mem: Memory, spans: seq<Span>, chunk: nat, queueDepth: nat, ring: HydrationPipeline.Ring)
    requires Positive(spans) && chunk > 0 && HydrationPipeline.Quiet(ring)
    ensures Unspoilt(mem, spans, chunk, queueDepth, ring)
  {
    hide Clean;
    QuietClean(mem, Placed(spans), true, chunk, queueDepth, ring);
  }

  /**
    `_write_extent_blob` through the native transport. The validator of the transport never rejects
    a packed layout that is addressable, so that such a write fails only if a call fails, or if
    readback finds that a read in flight has spoilt it.
   */
  method WriteBlob<S(==)>(mem: Memory, spans: seq<Span>, chunk: nat, queueDepth: nat, fileSha: bool, readback: bool,
                          step: (S, Byte) -> S, init: S, ring: HydrationPipeline.Ring, broken: bool)
    returns (r: Result<Blob<S>>)
    requires chunk > 0 && chunk % PAGE == 0 && queueDepth > 0
    requires Positive(spans) && AllSpansMapped(mem, spans)
    ensures r.Ok? ==> spans != [] && ValidCapture(Placed(spans), true) && !broken
    ensures spans != [] && ValidCapture(Placed(spans), true) && !broken && (!readback || Unspoilt(mem, spans, chunk, queueDepth, ring)) ==> r.Ok?
    ensures Addressable(spans) ==> ValidCapture(Placed(spans), true)
    ensures r.Ok? ==> Laid(spans, fileSha, r.value)
    ensures r.Ok? && readback ==> AllInFile(r.value.file, Placed(spans)) && Matches(r.value.file, Placed(spans), step, init, r.value.checks, r.value.sha)
    ensures r.Ok? && Unspoilt(mem, spans, chunk, queueDepth, ring) ==> Packed(mem, spans, step, init, r.value)
  {
    hide Clean, Placed, PackedBytes, Holding, Contents, PackFile, Fold, AllMapped, ValidCapture, Addressable;
    if Addressable(spans) { PlacedValid(spans); }
    if spans == [] {
      return Err;
    }
    var placed, total := AssignOffsets(spans);
    PlacedMapped(mem, spans);
    PlacedFills(spans);
    var c;
    if readback {
      c := CaptureVerified(mem, placed, true, chunk, queueDepth, fileSha, step, init, ring, broken);
    } else {
      c := CaptureStaged(mem, placed, true, chunk, queueDepth, fileSha, step, init, ring, broken);
    }
    if c.Err? {
      return Err;
    }
    assert |c.value.file| == total;  // "native capture extent byte count changed during write"
    if Unspoilt(mem, spans, chunk, queueDepth, ring) {
      PackUnique(mem, spans, c.value.file, |spans|);
      WholePack(mem, spans, c.value.file);
      forall i | 0 <= i < |spans| ensures c.value.checks[i] == Fold(step, init, Contents(mem, spans)[i]) {
        PlacedAt(spans, i);
      }
    }
    return Ok(Blob(c.value.file, placed, c.value.checks, c.value.sha));
  }

  lemma {:induction false} WholePack(mem: Memory, spans: seq<Span>, file: seq<Byte>)
    requires Positive(spans) && AllSpansMapped(mem, spans) && |file| == PackedBytes(spans)
    requires PackedBytes(spans[..|spans|]) <= |file| && file[..PackedBytes(spans[..|spans|])] == PackFile(Contents(mem, spans)[..|spans|])
    ensures file == PackFile(Contents(mem, spans))
  {
    assert spans[..|spans|] == spans && Contents(mem, spans)[..|spans|] == Contents(mem, spans);
    assert file[..|file|] == file;
  }

  lemma {:induction false} PackPrefix(contents: seq<seq<Byte>>, n: nat)
    requires n <= |contents|
    ensures PackFile(contents[..n]) <= PackFile(contents)
  {
    if n == |contents| {
      assert contents[..n] == contents;
    } else {
      var front := contents[..|contents| - 1];
      PackPrefix(front, n);
      assert front[..n] == contents[..n];
    }
  }

  /** Where a byte string is found again in the packed file. */
  lemma {:induction false} PackSlice(contents: seq<seq<Byte>>, i: nat)
    requires i < |contents|
    ensures |PackFile(contents[..i])| + AlignUp(|contents[i]|) == |PackFile(contents[..i + 1])| <= |PackFile(contents)|
    ensures Slice(PackFile(contents), |PackFile(contents[..i])|, |contents[i]|) == contents[i]
  {
    PackPrefix(contents, i + 1);
    assert contents[..i + 1][..i] == contents[..i];
    var before, here, file := PackFile(contents[..i]), Padded(contents[i]), PackFile(contents);
    assert before + here <= file;
    assert Slice(file, |before|, |contents[i]|) == here[..|contents[i]|];
  }

  lemma {:induction false} PackSizes(mem: Memory, spans: seq<Span>, n: nat)
    requires Positive(spans) && AllSpansMapped(mem, spans) && n <= |spans|
    ensures |PackFile(Contents(mem, spans)[..n])| == PackedBytes(spans[..n])
  {
    hide Contents, AllSpansMapped;
    if n > 0 {
      PackSizes(mem, spans, n - 1);
      PackSlice(Contents(mem, spans), n - 1);
      PlacedAt(spans, n - 1);
    }
  }

  /** Reading a placed extent back gives the bytes that its span had. */
  lemma {:induction false} PackedSlice<S>(mem: Memory, spans: seq<Span>, step: (S, Byte) -> S, init: S, blob: Blob<S>, i: nat)
    requires Positive(spans) && AllSpansMapped(mem, spans) && Packed(mem, spans, step, init, blob) && i < |spans|
    ensures blob.placed[i].offset + AlignUp(blob.placed[i].length) <= |blob.file|
    ensures Slice(blob.file, blob.placed[i].offset, blob.placed[i].length) == Peek(mem, spans[i].ptr, spans[i].size)
  {
    hide AllSpansMapped, PackFile, PackedBytes, Placed;
    PackSlice(Contents(mem, spans), i);
    PackSizes(mem, spans, i);
    PlacedAt(spans, i);
  }

  // ---------------------------------------------------------------------------------------------
  // The canonical order of the model payload.

  /** `sorted(key=(sha256, size))` on the byte strings themselves. */
  function Order(digest: seq<Byte> -> int): (le: (seq<Byte>, seq<Byte>) -> bool) {
    (x: seq<Byte>, y: seq<Byte>) => digest(x) < digest(y) || (digest(x) == digest(y) && |x| <= |y|)
  }

  function CanonicalPack(digest: seq<Byte> -> int, contents: seq<seq<Byte>>): seq<Byte> {
    PackFile(Sort(Order(digest), contents))
  }

  ghost predicate CollisionFree(digest: seq<Byte> -> int, contents: seq<seq<Byte>>) {
    forall x, y :: x in contents && y in contents && digest(x) == digest(y) && |x| == |y| ==> x == y
  }

  /** The pack depends only on the bag of byte strings, not on their addresses or order. */
  lemma {:induction false} PackCanonical(digest: seq<Byte> -> int, left: seq<seq<Byte>>, right: seq<seq<Byte>>)
    requires multiset(left) == multiset(right) && CollisionFree(digest, left)
    ensures CanonicalPack(digest, left) == CanonicalPack(digest, right)
  {
    var le := Order(digest);
    SortSorted(le, left);
    SortSorted(le, right);
    InMultiset(left, Sort(le, left));
    SortedUnique(le, Sort(le, left), Sort(le, right));
  }

  lemma {:induction false} CollisionSplits(digest: seq<Byte> -> int, x: seq<Byte>, y: seq<Byte>)
    requires digest(x) == digest(y) && |x| == |y| && x != y
    ensures multiset([x, y]) == multiset([y, x])
    ensures CanonicalPack(digest, [x, y]) != CanonicalPack(digest, [y, x])
  {
    hide CanonicalPack;
    PackPair(digest, x, y);
    PackPair(digest, y, x);
    assert (Padded(x) + Padded(y))[..|x|] == x && (Padded(y) + Padded(x))[..|x|] == y;
  }

  lemma {:induction false} PackPair(digest: seq<Byte> -> int, x: seq<Byte>, y: seq<Byte>)
    requires digest(x) == digest(y) && |x| == |y|
    ensures CanonicalPack(digest, [x, y]) == Padded(x) + Padded(y)
  {
    var le := Order(digest);
    assert [x, y][1..] == [y] && [y][1..] == [];
    assert Sort(le, []) == [];
    assert Sort(le, [y]) == Insert(le, y, []) == [y];
    assert Sort(le, [x, y]) == Insert(le, x, [y]) == [x, y];
    assert [x, y][..1] == [x] && [x][..0] == [];
    assert PackFile([]) == [];
    assert PackFile([x]) == Padded(x);
  }

  /** Captures of the same bytes agree on the payload exactly if the digest has no collision. */
  lemma {:induction false} CanonicalExact(digest: seq<Byte> -> int)
    ensures (forall left, right :: multiset(left) == multiset(right) ==> CanonicalPack(digest, left) == CanonicalPack(digest, right))
       <==> (forall x, y :: digest(x) == digest(y) && |x| == |y| ==> x == y)
  {
    if forall x, y :: digest(x) == digest(y) && |x| == |y| ==> x == y {
      forall left, right | multiset(left) == multiset(right)
        ensures CanonicalPack(digest, left) == CanonicalPack(digest, right)
      {
        PackCanonical(digest, left, right);
      }
    }
    if forall left, right :: multiset(left) == multiset(right) ==> CanonicalPack(digest, left) == CanonicalPack(digest, right) {
      forall x, y | digest(x) == digest(y) && |x| == |y| ensures x == y {
        if x != y {
          CollisionSplits(digest, x, y);
          assert false;
        }
      }
    }
  }
}
