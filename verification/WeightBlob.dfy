/**
  The blob of the weight allocations (`_write_snapshot`, `_restore_pipeline`): the weights one after
  another in one file, and the staged transfer that reads them back, from whatever ring an earlier
  transfer has left.
 */
module WeightBlob {
  import opened Bytes
  import opened Jobs
  import opened HydrationPipeline
  import Tiling

  /** The bytes of every allocation, by pointer. */
  type Contents = map<int, seq<Byte>>

  /** The weight allocations in their order, and how they are read; `inline`: checksums are checked. */
  datatype Setup = Setup(weights: seq<int>, sizes: map<int, nat>, chunk: nat, depth: nat, inline: bool, step: (int, Byte) -> int, init: int)

  /** Weights of positive size at disjoint addresses. */
  predicate Laid(c: Setup) {
    && c.weights != [] && c.chunk > 0 && c.depth > 0
    && (forall i :: 0 <= i < |c.weights| ==> c.weights[i] in c.sizes && c.sizes[c.weights[i]] > 0)
    && (forall i, j :: 0 <= i < j < |c.weights| ==>
          c.weights[i] + c.sizes[c.weights[i]] <= c.weights[j] || c.weights[j] + c.sizes[c.weights[j]] <= c.weights[i])
  }

  /** The contents have the sizes of the weights. */
  predicate Fits(weights: seq<int>, sizes: map<int, nat>, o: Contents) {
    forall i :: 0 <= i < |weights| ==> weights[i] in sizes && weights[i] in o && |o[weights[i]]| == sizes[weights[i]]
  }

  predicate InSizes(weights: seq<int>, sizes: map<int, nat>) { forall i :: 0 <= i < |weights| ==> weights[i] in sizes }

  function Total(weights: seq<int>, sizes: map<int, nat>): nat
    requires InSizes(weights, sizes)
  {
    if weights == [] then 0 else Total(weights[..|weights| - 1], sizes) + sizes[weights[|weights| - 1]]
  }

  function ExtentsOf(weights: seq<int>, sizes: map<int, nat>): (extents: seq<Extent>)
    requires InSizes(weights, sizes)
    ensures |extents| == |weights|
  {
    if weights == [] then []
    else
      var front, last := weights[..|weights| - 1], weights[|weights| - 1];
      ExtentsOf(front, sizes) + [Extent(Total(front, sizes), last, sizes[last])]
  }

  function FileOf(weights: seq<int>, sizes: map<int, nat>, o: Contents): (file: seq<Byte>)
    requires Fits(weights, sizes, o)
  {
    if weights == [] then [] else FileOf(weights[..|weights| - 1], sizes, o) + o[weights[|weights| - 1]]
  }

  /** Pages for the weights. What they hold before the transfer does not matter: all of it is overwritten. */
  function Pages(weights: seq<int>, sizes: map<int, nat>): Memory
    requires InSizes(weights, sizes)
  {
    if weights == [] then map[]
    else
      var last := weights[|weights| - 1];
      var range := Tiling.Addresses(last, last + sizes[last]);
      Pages(weights[..|weights| - 1], sizes) + map a | a in range :: 0
  }

  lemma {:induction false} ExtentAt(weights: seq<int>, sizes: map<int, nat>, i: nat)
    requires InSizes(weights, sizes) && i < |weights|
    ensures InSizes(weights[..i], sizes)
    ensures ExtentsOf(weights, sizes)[i] == Extent(Total(weights[..i], sizes), weights[i], sizes[weights[i]])
  {
    var n := |weights| - 1;
    if i < n {
      ExtentAt(weights[..n], sizes, i);
      assert weights[..n][..i] == weights[..i];
    }
  }

  lemma {:induction false} FileBytesAt(weights: seq<int>, sizes: map<int, nat>, o: Contents, i: nat)
    requires Fits(weights, sizes, o) && i < |weights|
    ensures InSizes(weights[..i], sizes)
    ensures Total(weights[..i], sizes) + sizes[weights[i]] <= |FileOf(weights, sizes, o)| == Total(weights, sizes)
    ensures Slice(FileOf(weights, sizes, o), Total(weights[..i], sizes), sizes[weights[i]]) == o[weights[i]]
  {
    var n := |weights| - 1;
    var front := weights[..n];
    FileLength(front, sizes, o);
    FileLength(weights, sizes, o);
    if i < n {
      FileBytesAt(front, sizes, o, i);
      assert front[..i] == weights[..i];
      var at, size := Total(weights[..i], sizes), sizes[weights[i]];
      assert Slice(FileOf(weights, sizes, o), at, size) == Slice(FileOf(front, sizes, o), at, size);
    } else {
      assert weights[..i] == front;
    }
  }

  lemma {:induction false} FileLength(weights: seq<int>, sizes: map<int, nat>, o: Contents)
    requires Fits(weights, sizes, o)
    ensures InSizes(weights, sizes) && |FileOf(weights, sizes, o)| == Total(weights, sizes)
  {
    if weights != [] { FileLength(weights[..|weights| - 1], sizes, o); }
  }

  lemma {:induction false} PagesMapped(weights: seq<int>, sizes: map<int, nat>, i: nat)
    requires InSizes(weights, sizes) && i < |weights|
    ensures Mapped(Pages(weights, sizes), weights[i], sizes[weights[i]])
  {
    var n := |weights| - 1;
    if i < n {
      PagesMapped(weights[..n], sizes, i);
      assert weights[..n][i] == weights[i];
    }
  }

  /** The request of the transfer is a proper one. */
  lemma {:induction false} Layout(c: Setup, o: Contents)
    requires Laid(c) && Fits(c.weights, c.sizes, o)
    ensures InSizes(c.weights, c.sizes) && c.chunk > 0 && c.depth > 0
    ensures var file, extents, pages := FileOf(c.weights, c.sizes, o), ExtentsOf(c.weights, c.sizes), Pages(c.weights, c.sizes);
      && extents != [] && AllInFile(file, extents) && DisjointTargets(extents)
      && (forall i :: 0 <= i < |extents| ==> extents[i].length > 0 && Mapped(pages, extents[i].pointer, extents[i].length))
      && (forall i :: 0 <= i < |extents| ==>
            extents[i].pointer == c.weights[i] && extents[i].length == c.sizes[c.weights[i]]
            && Slice(file, extents[i].offset, extents[i].length) == o[c.weights[i]])
  {
    hide FileOf, ExtentsOf, Pages, Total, Mapped;
    var file, extents, pages := FileOf(c.weights, c.sizes, o), ExtentsOf(c.weights, c.sizes), Pages(c.weights, c.sizes);
    forall i | 0 <= i < |extents|
      ensures extents[i].pointer == c.weights[i] && extents[i].length == c.sizes[c.weights[i]] > 0
      ensures InFile(file, extents[i].offset, extents[i].length) && Slice(file, extents[i].offset, extents[i].length) == o[c.weights[i]]
      ensures Mapped(pages, extents[i].pointer, extents[i].length)
    {
      ExtentAt(c.weights, c.sizes, i);
      FileBytesAt(c.weights, c.sizes, o, i);
      PagesMapped(c.weights, c.sizes, i);
    }
  }

  // ---------------------------------------------------------------------------------------------
  // The transfer.

  function Reading(c: Setup, o: Contents, ring: Ring, late: Late): Plan
    requires Laid(c) && Fits(c.weights, c.sizes, o)
  {
    PlanOf(FileOf(c.weights, c.sizes, o), ExtentsOf(c.weights, c.sizes), c.chunk, c.depth, Pages(c.weights, c.sizes), ring, late)
  }

  /** The checksums of the manifest, or none. */
  function Wanted(c: Setup, o: Contents): (wanted: seq<Option<int>>)
    requires Fits(c.weights, c.sizes, o)
    ensures |wanted| == |c.weights|
  {
    seq(|c.weights|, i requires 0 <= i < |c.weights| => if c.inline then Some(Fold(c.step, c.init, o[c.weights[i]])) else None)
  }

  /** The reads in flight cannot spoil the transfer. */
  ghost predicate Clean(c: Setup, o: Contents, ring: Ring)
    requires Laid(c) && Fits(c.weights, c.sizes, o)
  {
    Harmless(Reading(c, o, ring, NoLate()))
  }

  /** A transfer that succeeds has read the blob: it cannot be spoilt, or that would be seen. */
  ghost predicate Safe(c: Setup, o: Contents, ring: Ring)
    requires Laid(c) && Fits(c.weights, c.sizes, o)
  {
    Clean(c, o, ring) || (c.inline && Tells(c.step, c.init))
  }

  /** The checksums accept what lands. */
  ghost predicate Verified(c: Setup, o: Contents, ring: Ring, late: Late)
    requires Laid(c) && Fits(c.weights, c.sizes, o)
  {
    Passed(c.step, c.init, Reading(c, o, ring, late), Wanted(c, o))
  }

  /** The reads in flight are reads of this blob. */
  ghost predicate Own(c: Setup, o: Contents, ring: Ring)
    requires Laid(c) && Fits(c.weights, c.sizes, o)
  {
    Remains(Reading(c, o, NoRing(), NoLate()), ring)
  }

  function JobCount(c: Setup): nat
    requires Laid(c)
  {
    |JobsOf(ExtentsOf(c.weights, c.sizes), c.chunk)|
  }

  /** The address belongs to one of the jobs that a read in flight can spoil: those that first fill the ring. */
  predicate Early(c: Setup, x: int)
    requires Laid(c)
  {
    var jobs := JobsOf(ExtentsOf(c.weights, c.sizes), c.chunk);
    exists k :: 0 <= k < |jobs| && k < c.depth && Within(jobs[k], x)
  }

  /** The bytes of the weight at `p` are the right ones outside those jobs. */
  ghost predicate BytesBeyond(c: Setup, p: int, bytes: seq<Byte>, right: seq<Byte>)
    requires Laid(c) && |bytes| == |right|
  {
    forall b :: 0 <= b < |bytes| && !Early(c, p + b) ==> bytes[b] == right[b]
  }

  /** Every weight has its bytes of `o` in memory. */
  ghost predicate Holds(c: Setup, mem: Memory, o: Contents)
    requires Fits(c.weights, c.sizes, o)
  {
    forall i :: 0 <= i < |c.weights| ==>
      Mapped(mem, c.weights[i], c.sizes[c.weights[i]]) && Peek(mem, c.weights[i], c.sizes[c.weights[i]]) == o[c.weights[i]]
  }

  /** Every weight is in memory, with its bytes of `o` except in the jobs that first fill the ring. */
  ghost predicate HoldsLate(c: Setup, mem: Memory, o: Contents)
    requires Laid(c) && Fits(c.weights, c.sizes, o)
  {
    forall i :: 0 <= i < |c.weights| ==>
      && Mapped(mem, c.weights[i], c.sizes[c.weights[i]])
      && forall b :: 0 <= b < c.sizes[c.weights[i]] && !Early(c, c.weights[i] + b) ==> mem[c.weights[i] + b] == o[c.weights[i]][b]
  }

  /** What a sequential copy leaves at a byte of an extent. */
  lemma {:induction false} CopiedAt(base: Memory, file: seq<Byte>, extents: seq<Extent>, i: nat, b: nat)
    requires AllInFile(file, extents) && DisjointTargets(extents) && i < |extents| && b < extents[i].length && extents[i].pointer + b in base
    ensures extents[i].pointer + b in CopyExtents(base, file, extents)
    ensures CopyExtents(base, file, extents)[extents[i].pointer + b] == file[extents[i].offset + b]
  {
    hide Poke, Slice;
    var n, x := |extents| - 1, extents[i].pointer + b;
    var front, last := extents[..n], extents[n];
    CopiedKeys(base, file, front);
    if i < n {
      assert front[i] == extents[i];
      CopiedAt(base, file, front, i, b);
      assert !(last.pointer <= x < last.pointer + last.length);
    }
    PokedAt(CopyExtents(base, file, front), last, file, x);
  }

  lemma {:induction false} PokedAt(mem: Memory, e: Extent, file: seq<Byte>, x: int)
    requires InFile(file, e.offset, e.length) && x in mem
    ensures var after := Poke(mem, e.pointer, Slice(file, e.offset, e.length));
      x in after && after[x] == if e.pointer <= x < e.pointer + e.length then file[e.offset + x - e.pointer] else mem[x]
  {
  }

  lemma {:induction false} CopiedKeys(base: Memory, file: seq<Byte>, extents: seq<Extent>)
    requires AllInFile(file, extents)
    ensures CopyExtents(base, file, extents).Keys == base.Keys
  {
    if extents != [] { CopiedKeys(base, file, extents[..|extents| - 1]); }
  }

  lemma {:induction false} CopyHolds(c: Setup, o: Contents, base: Memory)
    requires Laid(c) && Fits(c.weights, c.sizes, o)
    requires base.Keys == Pages(c.weights, c.sizes).Keys
    ensures AllInFile(FileOf(c.weights, c.sizes, o), ExtentsOf(c.weights, c.sizes))
    ensures Holds(c, CopyExtents(base, FileOf(c.weights, c.sizes, o), ExtentsOf(c.weights, c.sizes)), o)
  {
    hide FileOf, ExtentsOf, Pages, CopyExtents, DisjointTargets, Laid;
    Layout(c, o);
    var file, extents := FileOf(c.weights, c.sizes, o), ExtentsOf(c.weights, c.sizes);
    var mem := CopyExtents(base, file, extents);
    CopiedKeys(base, file, extents);
    forall i | 0 <= i < |c.weights|
      ensures Mapped(mem, c.weights[i], c.sizes[c.weights[i]]) && Peek(mem, c.weights[i], c.sizes[c.weights[i]]) == o[c.weights[i]]
    {
      var e := extents[i];
      assert Mapped(Pages(c.weights, c.sizes), e.pointer, e.length);
      forall b | 0 <= b < e.length ensures mem[e.pointer + b] == o[c.weights[i]][b] {
        CopiedAt(base, file, extents, i, b);
        assert Slice(file, e.offset, e.length)[b] == file[e.offset + b];
      }
    }
  }

  /** Memory after the transfer: right if it cannot be spoilt, and in any case outside the first jobs. */
  lemma {:induction false} TransferHolds(c: Setup, o: Contents, ring: Ring, late: Late, base: Memory)
    requires Laid(c) && Fits(c.weights, c.sizes, o) && base.Keys == Pages(c.weights, c.sizes).Keys
    ensures var plan := Reading(c, o, ring, late);
      && ReadableTo(plan, |plan.jobs|)
      && HoldsLate(c, CopyLanded(plan, base, |plan.jobs|), o)
      && (Clean(c, o, ring) ==> Holds(c, CopyLanded(plan, base, |plan.jobs|), o) && Verified(c, o, ring, late))
      && (Verified(c, o, ring, late) && Safe(c, o, ring) ==> Holds(c, CopyLanded(plan, base, |plan.jobs|), o))
  {
    hide FileOf, ExtentsOf, Pages, CopyExtents, DisjointTargets, Laid, JobsOf, CopyLanded, Landed, Harmless, Passed, Holds, HoldsLate, Tells, Fold;
    Layout(c, o);
    var plan, extents := Reading(c, o, ring, late), ExtentsOf(c.weights, c.sizes);
    AllReadable(plan, extents);
    CopyHolds(c, o, base);
    BoundedLate(c, o, ring, late, base);
    if Clean(c, o, ring) {
      LateHarmless(Reading(c, o, ring, NoLate()), late);
      CleanTransfer(c, o, ring, late, base);
    }
    if Verified(c, o, ring, late) && c.inline && Tells(c.step, c.init) {
      InlineRestores(plan, base, extents, c.step, c.init, Wanted(c, o));
    }
  }

  /** The checksums are right if none is checked, or if nothing can be spoilt. */
  lemma {:induction false} VerifiedIf(c: Setup, o: Contents, ring: Ring, late: Late)
    requires Laid(c) && Fits(c.weights, c.sizes, o)
    ensures !c.inline || Clean(c, o, ring) ==> Verified(c, o, ring, late)
  {
    hide Laid, HoldsLate, Holds, Safe, CopyLanded, ReadableTo, FedLanded, Fold;
    TransferHolds(c, o, ring, late, Pages(c.weights, c.sizes));
  }

  lemma {:induction false} CleanTransfer(c: Setup, o: Contents, ring: Ring, late: Late, base: Memory)
    requires Laid(c) && Fits(c.weights, c.sizes, o) && Harmless(Reading(c, o, ring, late))
    ensures var plan := Reading(c, o, ring, late);
      && ReadableTo(plan, |plan.jobs|) && AllInFile(plan.file, ExtentsOf(c.weights, c.sizes))
      && CopyLanded(plan, base, |plan.jobs|) == CopyExtents(base, plan.file, ExtentsOf(c.weights, c.sizes))
      && Verified(c, o, ring, late)
  {
    hide FileOf, ExtentsOf, Pages, CopyExtents, DisjointTargets, Laid, JobsOf, CopyLanded, Landed, Harmless, Fold, AllRight;
    Layout(c, o);
    var plan, extents := Reading(c, o, ring, late), ExtentsOf(c.weights, c.sizes);
    AllReadable(plan, extents);
    HarmlessRight(plan);
    RightExtents(plan, base, extents);
  }

  /** The damage is bounded. */
  lemma {:induction false} BoundedLate(c: Setup, o: Contents, ring: Ring, late: Late, base: Memory)
    requires Laid(c) && Fits(c.weights, c.sizes, o) && base.Keys == Pages(c.weights, c.sizes).Keys
    ensures var plan := Reading(c, o, ring, late);
      ReadableTo(plan, |plan.jobs|) && HoldsLate(c, CopyLanded(plan, base, |plan.jobs|), o)
  {
    hide FileOf, ExtentsOf, Pages, CopyExtents, DisjointTargets, Laid, JobsOf, CopyLanded, Landed, AllRight;
    Layout(c, o);
    var plan, extents := Reading(c, o, ring, late), ExtentsOf(c.weights, c.sizes);
    AllReadable(plan, extents);
    var n, clean := |plan.jobs|, plan.(open := []);
    var mem := CopyLanded(plan, base, n);
    LandedKeys(plan, base, n);
    AllReadable(clean, extents);
    NoneOpenHarmless(clean);
    HarmlessRight(clean);
    RightExtents(clean, base, extents);
    CopyHolds(c, o, base);
    forall i | 0 <= i < |c.weights| ensures Mapped(mem, c.weights[i], c.sizes[c.weights[i]]) {
      assert Mapped(Pages(c.weights, c.sizes), extents[i].pointer, extents[i].length);
    }
    forall i, b | 0 <= i < |c.weights| && 0 <= b < c.sizes[c.weights[i]] && !Early(c, c.weights[i] + b)
      ensures mem[c.weights[i] + b] == o[c.weights[i]][b]
    {
      var x := c.weights[i] + b;
      forall k | 0 <= k < n && Exposed(plan, k) ensures !Within(plan.jobs[k], x) {
        assert k < c.depth;
      }
      DamageBounded(plan, base, n, x);
      assert Peek(CopyExtents(base, plan.file, extents), c.weights[i], c.sizes[c.weights[i]])[b] == o[c.weights[i]][b];
    }
  }

  /** Without reads in flight nothing can be spoilt, and neither if all jobs fit into the ring at once. */
  lemma {:induction false} WhenClean(c: Setup, o: Contents, ring: Ring)
    requires Laid(c) && Fits(c.weights, c.sizes, o)
    ensures Quiet(ring) ==> Clean(c, o, ring)
    ensures Own(c, o, ring) && JobCount(c) <= c.depth ==> Clean(c, o, ring)
  {
    hide FileOf, ExtentsOf, Pages, JobsOf, Harmless, Remains;
    var plan := Reading(c, o, ring, NoLate());
    if Quiet(ring) { QuietPlan(ring, plan); }
    if Own(c, o, ring) && JobCount(c) <= c.depth {
      RemainsSame(Reading(c, o, NoRing(), NoLate()), plan, ring);
      FewJobsHarmless(plan, ring);
    }
  }

  lemma {:induction false} PagesOnly(weights: seq<int>, sizes: map<int, nat>, x: int) returns (i: nat)
    requires InSizes(weights, sizes) && x in Pages(weights, sizes)
    ensures i < |weights| && weights[i] <= x < weights[i] + sizes[weights[i]]
  {
    i := |weights| - 1;
    if !(weights[i] <= x < weights[i] + sizes[weights[i]]) { i := PagesOnly(weights[..i], sizes, x); }
  }

  /** Whatever the reads in flight do, the weights are read right, if and only if the ring is clean. */
  lemma {:induction false} TransferExact(c: Setup, o: Contents, ring: Ring)
    requires Laid(c) && Fits(c.weights, c.sizes, o)
    ensures Clean(c, o, ring) <==> forall late: Late :: ReadRight(c, o, ring, late)
  {
    hide FileOf, ExtentsOf, Pages, JobsOf, Harmless, CopyLanded, Laid, Holds, HoldsLate, DisjointTargets, ReadRight, RightEnd, Safe, Verified;
    Layout(c, o);
    var file, extents, pages := FileOf(c.weights, c.sizes, o), ExtentsOf(c.weights, c.sizes), Pages(c.weights, c.sizes);
    EntryExact(file, extents, c.chunk, c.depth, pages, ring);
    forall late: Late ensures ReadRight(c, o, ring, late) <==> RightEnd(file, extents, c.chunk, c.depth, pages, ring, late) {
      ReadRightEnd(c, o, ring, late);
    }
  }

  ghost predicate ReadRight(c: Setup, o: Contents, ring: Ring, late: Late)
    requires Laid(c) && Fits(c.weights, c.sizes, o)
  {
    var plan := Reading(c, o, ring, late);
    ReadableTo(plan, |plan.jobs|) && Holds(c, CopyLanded(plan, Pages(c.weights, c.sizes), |plan.jobs|), o)
  }

  lemma {:induction false} ReadRightEnd(c: Setup, o: Contents, ring: Ring, late: Late)
    requires Laid(c) && Fits(c.weights, c.sizes, o)
    ensures InSizes(c.weights, c.sizes) && c.chunk > 0
    ensures ReadRight(c, o, ring, late) <==>
      RightEnd(FileOf(c.weights, c.sizes, o), ExtentsOf(c.weights, c.sizes), c.chunk, c.depth, Pages(c.weights, c.sizes), ring, late)
  {
    hide FileOf, ExtentsOf, Pages, JobsOf, CopyLanded, CopyExtents, Laid, DisjointTargets, Holds;
    Layout(c, o);
    var plan, extents, pages := Reading(c, o, ring, late), ExtentsOf(c.weights, c.sizes), Pages(c.weights, c.sizes);
    AllReadable(plan, extents);
    CopyHolds(c, o, pages);
    var mem, right := CopyLanded(plan, pages, |plan.jobs|), CopyExtents(pages, plan.file, extents);
    LandedKeys(plan, pages, |plan.jobs|);
    CopiedKeys(pages, plan.file, extents);
    if Holds(c, mem, o) {
      forall x | x in pages ensures mem[x] == right[x] {
        var i := PagesOnly(c.weights, c.sizes, x);
        SameAt(c, o, mem, right, i, x);
      }
    }
  }

  lemma {:induction false} SameAt(c: Setup, o: Contents, a: Memory, b: Memory, i: nat, x: int)
    requires Fits(c.weights, c.sizes, o) && Holds(c, a, o) && Holds(c, b, o)
    requires i < |c.weights| && c.weights[i] <= x < c.weights[i] + c.sizes[c.weights[i]]
    ensures x in a && x in b && a[x] == b[x]
  {
    var p := c.weights[i];
    assert Peek(a, p, c.sizes[p])[x - p] == Peek(b, p, c.sizes[p])[x - p];
  }

  lemma {:induction false} RemainsSame(p: Plan, q: Plan, ring: Ring)
    requires p.file == q.file && p.jobs == q.jobs && p.depth == q.depth
    ensures Remains(p, ring) <==> Remains(q, ring)
  {
    forall k, f ensures OwnFlight(p, k, f) <==> OwnFlight(q, k, f) {
      if j :| p.depth > 0 && 0 <= j < |p.jobs| && Slot(j, p.depth) == k && f == FlightOf(p, j) { assert f == FlightOf(q, j); }
      if j :| q.depth > 0 && 0 <= j < |q.jobs| && Slot(j, q.depth) == k && f == FlightOf(q, j) { assert f == FlightOf(p, j); }
    }
  }

  lemma {:induction false} QuietOwn(c: Setup, o: Contents, ring: Ring)
    requires Laid(c) && Fits(c.weights, c.sizes, o) && Quiet(ring)
    ensures Own(c, o, ring)
  {
  }

  /** A transfer that ended leaves no read of its own in flight. */
  lemma {:induction false} HandedIdle(plan: Plan, ring: Ring, ring': Ring)
    requires Handed(ring, ring', plan.chunk, plan.depth) && Remains(plan, ring)
    ensures Idle(ring')
  {
    forall k | 0 <= k < |ring'.open| ensures ring'.open[k].None? {
      if k < plan.depth {
        assert ring'.open[k] == ring'.open[..plan.depth][k];
      } else {
        assert ring'.open[k] == ring'.open[plan.depth..][k - plan.depth] == ring.open[k];
        OwnBound(plan, ring, k);
      }
    }
  }

  lemma {:induction false} OwnBound(plan: Plan, ring: Ring, k: nat)
    requires Remains(plan, ring) && k < |ring.open|
    ensures ring.open[k].Some? ==> k < plan.depth
  {
    if ring.open[k].Some? {
      assert OwnFlight(plan, k, ring.open[k].value);
    }
  }

  /**
    Reads the blob. It succeeds exactly if no call fails and the checksums accept what landed; `mem`
    is what the transfer writes, all of it after a success and part of it after a failure.
   */
  method ReadBlob(c: Setup, o: Contents, ring: Ring, late: Late, broken: bool) returns (ok: bool, mem: Memory, ring': Ring)
    requires Laid(c) && Fits(c.weights, c.sizes, o)
    ensures ok <==> !broken && Verified(c, o, ring, late)
    ensures HoldsLate(c, mem, o)
    ensures Clean(c, o, ring) || (ok && Safe(c, o, ring)) ==> Holds(c, mem, o)
    ensures Own(c, o, ring) ==> Own(c, o, ring') && (!broken ==> Idle(ring'))
  {
    hide FileOf, ExtentsOf, Pages, JobsOf, Harmless, Remains, Passed, Leaves, Outside, CopyLanded, Restores, Tells, Fold, HoldsLate, Holds, DisjointTargets,
      Laid;
    Layout(c, o);
    var file, extents, pages := FileOf(c.weights, c.sizes, o), ExtentsOf(c.weights, c.sizes), Pages(c.weights, c.sizes);
    var plan := Reading(c, o, ring, late);
    ghost var last, own := *, Reading(c, o, NoRing(), NoLate());
    var r;
    r, ring', last := HydrateStaged(file, extents, c.chunk, c.depth, pages, c.step, c.init, Wanted(c, o), ring, late, broken);
    OutsideKeys(ring.copies, pages, last.base);
    TransferHolds(c, o, ring, late, last.base);
    TransferHolds(c, o, ring, late, pages);
    RemainsSame(own, plan, ring);
    RemainsSame(own, plan, ring');
    if Own(c, o, ring) {
      if !broken { HandedIdle(plan, ring, ring'); QuietOwn(c, o, ring'); }
      if r.Err? && ring' != ring { LeavesRemain(plan, ring, ring', last); }
    }
    if r.Ok? {
      return true, r.value, ring';
    }
    return false, CopyLanded(plan, pages, |plan.jobs|), ring';
  }

  lemma {:induction false} OutsideKeys(copies: seq<Copy>, before: Memory, after: Memory)
    requires Outside(copies, before, after)
    ensures after.Keys == before.Keys
  {
  }
}
