/**
  `_split_direct_hydration_extents`: the page-aligned interior of each extent is read with
  O_DIRECT, the edges are read buffered.
 */
module DirectSplit {
  import opened Bytes
  import opened Jobs
  import opened HydrationPipeline

  /** `e` moves file byte `x` to address `a`. */
  predicate Moves(e: Extent, x: int, a: int) {
    e.offset <= x < e.offset + e.length && a == e.pointer + x - e.offset
  }

  /** How many extents move file byte `x` to address `a`. */
  function Hits(extents: seq<Extent>, x: int, a: int): nat {
    if extents == [] then 0
    else Hits(extents[..|extents| - 1], x, a) + if Moves(extents[|extents| - 1], x, a) then 1 else 0
  }

  lemma {:induction false} HitsConcat(left: seq<Extent>, right: seq<Extent>, x: int, a: int)
    ensures Hits(left + right, x, a) == Hits(left, x, a) + Hits(right, x, a)
  {
    if right == [] {
      assert left + right == left;
    } else {
      assert (left + right)[..|left + right| - 1] == left + right[..|right| - 1];
      HitsConcat(left, right[..|right| - 1], x, a);
    }
  }

  lemma {:induction false} HitsOne(e: Extent, x: int, a: int)
    ensures Hits([e], x, a) == if Moves(e, x, a) then 1 else 0
  {
    assert [e][..0] == [];
    assert Hits([], x, a) == 0;
  }

  function RoundDown(n: nat): (r: nat)
    ensures r % PAGE == 0 && r <= n < r + PAGE
  {
    n / 4096 * 4096
  }

  /** Two lists move exactly the same bytes to the same places, equally often. */
  ghost predicate SameMoves(left: seq<Extent>, right: seq<Extent>) {
    forall x, a :: Hits(left, x, a) == Hits(right, x, a)
  }

  predicate Aligned(extents: seq<Extent>) {
    forall i :: 0 <= i < |extents| ==> extents[i].offset % PAGE == 0 && extents[i].length % PAGE == 0 && extents[i].length > 0
  }

  predicate Inside(piece: Extent, e: Extent) {
    0 < piece.length && e.offset <= piece.offset && piece.offset + piece.length <= e.offset + e.length
  }

  /** Every piece is a non-empty part of some extent. */
  ghost predicate PiecesOf(pieces: seq<Extent>, extents: seq<Extent>) {
    forall p :: p in pieces ==> exists e :: e in extents && Inside(p, e)
  }

  /** The whole page at file offset `x` lies in the extent. */
  predicate HoldsPage(e: Extent, x: int) { x % PAGE == 0 && e.offset <= x && x + PAGE <= e.offset + e.length }

  /** No piece contains a page that could be read directly. */
  ghost predicate NoPages(pieces: seq<Extent>) { forall p, x :: p in pieces ==> !HoldsPage(p, x) }

  /** Between the first page boundary and the last one there is no room for a page. */
  lemma {:induction false} NoPageLeft(p: Extent, start: nat, end: nat)
    requires start % PAGE == 0 && end % PAGE == 0 && p.length > 0
    requires p.length < PAGE || (p.offset <= start < p.offset + PAGE && end <= p.offset + p.length < end + PAGE && start >= end)
    ensures forall x :: !HoldsPage(p, x)
  {
  }

  /** One extent: its edges and its interior. */
  method SplitOne(e: Extent) returns (direct: seq<Extent>, buffered: seq<Extent>)
    requires e.length > 0
    ensures Aligned(direct)
    ensures forall p :: p in direct + buffered ==> Inside(p, e)
    ensures SameMoves(direct + buffered, [e])
    ensures NoPages(buffered) && |direct| <= 1 && |buffered| <= 2
  {
    var end := e.offset + e.length;
    var alignedStart, alignedEnd := AlignUp(e.offset), RoundDown(end);
    direct, buffered := [], [];
    if alignedStart >= alignedEnd {
      buffered := [e];
    } else {
      if e.offset < alignedStart {
        buffered := buffered + [Extent(e.offset, e.pointer, alignedStart - e.offset)];
      }
      direct := [Extent(alignedStart, e.pointer + alignedStart - e.offset, alignedEnd - alignedStart)];
      if alignedEnd < end {
        buffered := buffered + [Extent(alignedEnd, e.pointer + alignedEnd - e.offset, end - alignedEnd)];
      }
    }
    SplitSame(e, alignedStart, alignedEnd, direct, buffered);
    forall p, x | p in buffered ensures !HoldsPage(p, x) { NoPageLeft(p, alignedStart, alignedEnd); }
  }

  lemma {:induction false} SplitSame(e: Extent, start: nat, end: nat, direct: seq<Extent>, buffered: seq<Extent>)
    requires e.offset <= start && end <= e.offset + e.length
    requires start >= end ==> direct == [] && buffered == [e]
    requires start < end ==>
      && direct == [Extent(start, e.pointer + start - e.offset, end - start)]
      && buffered == (if e.offset < start then [Extent(e.offset, e.pointer, start - e.offset)] else [])
           + (if end < e.offset + e.length then [Extent(end, e.pointer + end - e.offset, e.offset + e.length - end)] else [])
    ensures SameMoves(direct + buffered, [e])
  {
    forall x, a ensures Hits(direct + buffered, x, a) == Hits([e], x, a) {
      HitsConcat(direct, buffered, x, a);
      HitsOne(e, x, a);
      if start < end {
        var head, tail := Extent(e.offset, e.pointer, start - e.offset), Extent(end, e.pointer + end - e.offset, e.offset + e.length - end);
        HitsOne(direct[0], x, a);
        HitsOne(head, x, a);
        HitsOne(tail, x, a);
        HitsConcat(if e.offset < start then [head] else [], if end < e.offset + e.length then [tail] else [], x, a);
        assert Hits([], x, a) == 0;
      }
    }
  }

  /**
    Every file byte is still moved to its original destination, exactly as often as before, and
    the direct part is made of whole pages. No page that could be read directly is left to the
    buffered part, and an extent is cut into one interior and two edges at most.
   */
  method SplitDirect(extents: seq<Extent>) returns (direct: seq<Extent>, buffered: seq<Extent>)
    requires forall i :: 0 <= i < |extents| ==> extents[i].length > 0
    ensures Aligned(direct) && PiecesOf(direct, extents) && PiecesOf(buffered, extents)
    ensures SameMoves(direct + buffered, extents)
    ensures NoPages(buffered) && |direct| <= |extents| && |buffered| <= 2 * |extents|
  {
    hide SameMoves, HoldsPage;
    SplitNone(extents);
    direct, buffered := [], [];
    for i := 0 to |extents|
      invariant Aligned(direct) && PiecesOf(direct, extents) && PiecesOf(buffered, extents)
      invariant SameMoves(direct + buffered, extents[..i])
      invariant NoPages(buffered) && |direct| <= i && |buffered| <= 2 * i
    {
      var d, b := SplitOne(extents[i]);
      assert forall p :: p in d || p in b ==> p in d + b;
      SplitAppend(direct, buffered, extents, i, d, b);
      direct, buffered := direct + d, buffered + b;
    }
    assert extents[..|extents|] == extents;
  }

  lemma {:induction false} SplitNone(extents: seq<Extent>)
    ensures SameMoves([] + [], extents[..0])
  {
  }

  lemma {:induction false} SplitAppend(direct: seq<Extent>, buffered: seq<Extent>, extents: seq<Extent>, i: nat, d: seq<Extent>, b: seq<Extent>)
    requires i < |extents| && SameMoves(direct + buffered, extents[..i]) && SameMoves(d + b, [extents[i]])
    ensures SameMoves((direct + d) + (buffered + b), extents[..i + 1])
  {
    assert extents[..i + 1] == extents[..i] + [extents[i]];
    forall x, a ensures Hits((direct + d) + (buffered + b), x, a) == Hits(extents[..i + 1], x, a) {
      HitsConcat(direct + d, buffered + b, x, a);
      HitsConcat(direct, d, x, a);
      HitsConcat(buffered, b, x, a);
      HitsConcat(direct, buffered, x, a);
      HitsConcat(d, b, x, a);
      HitsConcat(extents[..i], [extents[i]], x, a);
      assert Hits(direct + buffered, x, a) == Hits(extents[..i], x, a) && Hits(d + b, x, a) == Hits([extents[i]], x, a);
    }
  }

  /** Every chunk of the direct part passes `validate_direct_jobs`. */
  lemma {:induction false} DirectJobsAligned(direct: seq<Extent>, chunk: nat)
    requires Aligned(direct) && chunk > 0 && chunk % PAGE == 0
    ensures forall i :: 0 <= i < |JobsOf(direct, chunk)| ==>
      JobsOf(direct, chunk)[i].offset % PAGE == 0 && JobsOf(direct, chunk)[i].length % PAGE == 0
  {
    assert direct[..|direct|] == direct;
    JobsPageCut(direct, |direct|, chunk);
    var jobs := JobsOf(direct, chunk);
    forall i | 0 <= i < |jobs| ensures jobs[i].offset % PAGE == 0 && jobs[i].length % PAGE == 0 {
      var e := direct[jobs[i].extent];
      assert PageCut(direct, jobs[i]) && e.offset % PAGE == 0 && e.length % PAGE == 0;
    }
  }

  // ---------------------------------------------------------------------------------------------
  // Reading the two parts one after the other is the same as reading the whole.

  /** No address receives two different file bytes. */
  ghost predicate DisjointDestinations(extents: seq<Extent>) {
    forall x, y, a :: Hits(extents, x, a) > 0 && Hits(extents, y, a) > 0 ==> x == y
  }

  lemma {:induction false} CopyKeys(device: Memory, file: seq<Byte>, extents: seq<Extent>)
    requires AllInFile(file, extents)
    ensures CopyExtents(device, file, extents).Keys == device.Keys
  {
    if extents != [] { CopyKeys(device, file, extents[..|extents| - 1]); }
  }

  lemma {:induction false} CopyMiss(device: Memory, file: seq<Byte>, extents: seq<Extent>, a: int)
    requires AllInFile(file, extents) && a in device && forall x :: Hits(extents, x, a) == 0
    ensures CopyExtents(device, file, extents).Keys == device.Keys && CopyExtents(device, file, extents)[a] == device[a]
  {
    CopyKeys(device, file, extents);
    if extents != [] {
      var front, last := extents[..|extents| - 1], extents[|extents| - 1];
      forall x ensures Hits(front, x, a) == 0 && !Moves(last, x, a) {
        assert Hits(extents, x, a) == 0;
      }
      assert !Moves(last, last.offset + a - last.pointer, a);
      CopyMiss(device, file, front, a);
    }
  }

  lemma {:induction false} CopyHit(device: Memory, file: seq<Byte>, extents: seq<Extent>, x: int, a: int)
    requires AllInFile(file, extents) && a in device && Hits(extents, x, a) > 0
    requires forall y :: Hits(extents, y, a) > 0 ==> y == x
    ensures 0 <= x < |file|
    ensures CopyExtents(device, file, extents).Keys == device.Keys && CopyExtents(device, file, extents)[a] == file[x]
  {
    CopyKeys(device, file, extents);
    var front, last := extents[..|extents| - 1], extents[|extents| - 1];
    assert InFile(file, last.offset, last.length);
    if Moves(last, x, a) {
      assert Slice(file, last.offset, last.length)[x - last.offset] == file[x];
    } else {
      forall y | Hits(front, y, a) > 0 ensures y == x {
        assert Hits(extents, y, a) > 0;
      }
      var y := last.offset + a - last.pointer;
      assert Moves(last, y, a) ==> Hits(extents, y, a) > 0;
      CopyHit(device, file, front, x, a);
    }
  }

  lemma {:induction false} CopyExtentsConcat(device: Memory, file: seq<Byte>, left: seq<Extent>, right: seq<Extent>)
    requires AllInFile(file, left) && AllInFile(file, right)
    ensures AllInFile(file, left + right)
    ensures CopyExtents(device, file, left + right) == CopyExtents(CopyExtents(device, file, left), file, right)
  {
    if right == [] {
      assert left + right == left;
    } else {
      assert (left + right)[..|left + right| - 1] == left + right[..|right| - 1];
      CopyExtentsConcat(device, file, left, right[..|right| - 1]);
    }
  }

  /** Lists that move the same bytes have the same effect, if no two bytes meet at one address. */
  lemma {:induction false} SameEffect(device: Memory, file: seq<Byte>, left: seq<Extent>, right: seq<Extent>)
    requires AllInFile(file, left) && AllInFile(file, right) && SameMoves(left, right) && DisjointDestinations(right)
    ensures CopyExtents(device, file, left) == CopyExtents(device, file, right)
  {
    CopyKeys(device, file, left);
    CopyKeys(device, file, right);
    forall a | a in device ensures CopyExtents(device, file, left)[a] == CopyExtents(device, file, right)[a] {
      if exists x :: Hits(right, x, a) > 0 {
        var x :| Hits(right, x, a) > 0;
        assert Hits(left, x, a) > 0;
        assert forall y :: Hits(left, y, a) == Hits(right, y, a);
        CopyHit(device, file, left, x, a);
        CopyHit(device, file, right, x, a);
      } else {
        assert forall y :: Hits(left, y, a) == Hits(right, y, a);
        CopyMiss(device, file, left, a);
        CopyMiss(device, file, right, a);
      }
    }
  }

  lemma {:induction false} PiecesInFile(file: seq<Byte>, pieces: seq<Extent>, extents: seq<Extent>)
    requires PiecesOf(pieces, extents) && AllInFile(file, extents)
    ensures AllInFile(file, pieces)
  {
    forall i | 0 <= i < |pieces| ensures InFile(file, pieces[i].offset, pieces[i].length) {
      assert pieces[i] in pieces;
      var e :| e in extents && Inside(pieces[i], e);
      var k :| 0 <= k < |extents| && extents[k] == e;
    }
  }

  /** Hydrating the direct part and then the buffered part is hydrating the original extents. */
  lemma {:induction false} SplitTransparent(device: Memory, file: seq<Byte>, extents: seq<Extent>, direct: seq<Extent>, buffered: seq<Extent>)
    requires AllInFile(file, extents) && PiecesOf(direct, extents) && PiecesOf(buffered, extents)
    requires SameMoves(direct + buffered, extents) && DisjointDestinations(extents)
    ensures AllInFile(file, direct) && AllInFile(file, buffered)
    ensures CopyExtents(CopyExtents(device, file, direct), file, buffered) == CopyExtents(device, file, extents)
  {
    PiecesInFile(file, direct, extents);
    PiecesInFile(file, buffered, extents);
    CopyExtentsConcat(device, file, direct, buffered);
    SameEffect(device, file, direct + buffered, extents);
  }

  /**
    The preverified restore of a list of extents: the aligned part with O_DIRECT, then the edges.
    From a ring without reads in flight they restore what one sequential copy of the extents
    restores, after the copies that were left on the stream.
   */
  method HydrateSplit(file: seq<Byte>, extents: seq<Extent>, chunk: nat, queueDepth: nat, device: Memory, ring: Ring, late: Lates, broken: bool)
    returns (r: Result<Memory>, ring': Ring, ghost base: Memory)
    requires chunk > 0 && chunk % PAGE == 0 && queueDepth > 0 && AllInFile(file, extents) && extents != []
    requires (forall i :: 0 <= i < |extents| ==> extents[i].length > 0) && DisjointDestinations(extents)
    ensures r.Ok? <==> !broken
    ensures r.Ok? ==> ring'.copies == []
    ensures Outside(ring.copies, device, base)
    ensures r.Ok? && Quiet(ring) ==> r.value == CopyExtents(base, file, extents) && Idle(ring')
  {
    hide SameMoves, PiecesOf, DisjointDestinations, AllInFile, CopyExtents, Outside;
    var direct, buffered := SplitDirect(extents);
    DirectJobsAligned(direct, chunk);
    SplitEmpty(extents, direct, buffered);
    PiecesInFile(file, direct, extents);
    PiecesInFile(file, buffered, extents);
    var middle;
    middle, ring', base := HydratePart(file, direct, extents, chunk, queueDepth, device, ring, late(0), broken);
    if middle.Err? {
      return Err, ring', base;
    }
    ghost var next;
    r, ring', next := HydratePart(file, buffered, extents, chunk, queueDepth, middle.value, ring', late(1), broken);
    if direct == [] { base := next; }
    SplitTransparent(base, file, extents, direct, buffered);
    CopyNothing(base, file);
    CopyNothing(middle.value, file);
  }

  lemma {:induction false} SomePiece(pieces: seq<Extent>, extents: seq<Extent>)
    requires PiecesOf(pieces, extents)
    ensures pieces != [] ==> extents != []
  {
    if pieces != [] {
      assert pieces[0] in pieces;
      var e :| e in extents && Inside(pieces[0], e);
    }
  }

  lemma {:induction false} SplitEmpty(extents: seq<Extent>, direct: seq<Extent>, buffered: seq<Extent>)
    requires forall i :: 0 <= i < |extents| ==> extents[i].length > 0
    requires PiecesOf(direct, extents) && PiecesOf(buffered, extents) && SameMoves(direct + buffered, extents)
    ensures direct == [] && buffered == [] <==> extents == []
  {
    SomePiece(direct, extents);
    SomePiece(buffered, extents);
    if extents != [] {
      var e := extents[|extents| - 1];
      assert Hits(extents, e.offset, e.pointer) > 0;
      assert Hits(direct + buffered, e.offset, e.pointer) > 0;
    }
  }

  /** One call of the hydrator, made only if there is something to read; nothing is checked. */
  method HydratePart(file: seq<Byte>, part: seq<Extent>, ghost extents: seq<Extent>, chunk: nat, queueDepth: nat, device: Memory, ring: Ring, late: Late, broken: bool)
    returns (r: Result<Memory>, ring': Ring, ghost base: Memory)
    requires chunk > 0 && queueDepth > 0 && AllInFile(file, part) && PiecesOf(part, extents)
    ensures r.Ok? <==> !broken || part == []
    ensures part == [] ==> r == Ok(device) && ring' == ring
    ensures Outside(ring.copies, device, base) && (ring.copies == [] ==> base == device)
    ensures r.Ok? && part != [] ==> ring'.copies == []
    ensures r.Ok? && part != [] && Quiet(ring) ==> r.value == CopyExtents(base, file, part) && Idle(ring')
  {
    hide Leaves, Outside, CopyLanded, CopyExtents, JobsOf, ReadableTo, Harmless;
    if part == [] {
      NoneOutside(ring.copies, device);
      return Ok(device), ring, device;
    }
    forall i | 0 <= i < |part| ensures part[i].length > 0 {
      assert part[i] in part;
    }
    ghost var plan := PlanOf(file, part, chunk, queueDepth, device, ring, late);
    AllReadable(plan, part);
    ghost var last;
    r, ring', last := HydrateStaged(file, part, chunk, queueDepth, device, (s: int, b: Byte) => s, 0, seq(|part|, _ => None), ring, late, broken);
    base := last.base;
    if ring.copies == [] { NothingOutside(device, base); }
    if r.Ok? && Quiet(ring) {
      QuietPlan(ring, plan);
      QuietAfter(ring, ring', chunk, plan.depth);
    }
  }

  lemma {:induction false} NoneOutside(copies: seq<Copy>, device: Memory)
    ensures Outside(copies, device, device)
  {
  }

  lemma {:induction false} CopyNothing(device: Memory, file: seq<Byte>)
    ensures CopyExtents(device, file, []) == device
  {
  }
}
