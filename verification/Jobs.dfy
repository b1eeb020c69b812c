/**
  Extents, the chunk jobs they are cut into, and the meaning of a transfer: copying the extents one
  after another. The staged pipelines are proved against these functions.
 */
module Jobs {
  import opened Bytes

  /** `length` bytes at `offset` of a file and at `pointer` of device memory. */
  datatype Extent = Extent(offset: nat, pointer: int, length: nat)

  /** One chunk of the extent with index `extent`. */
  datatype Job = Job(extent: nat, offset: nat, pointer: int, length: nat)

  predicate InFile(file: seq<Byte>, offset: nat, length: nat) { offset + length <= |file| }

  predicate AllInFile(file: seq<Byte>, extents: seq<Extent>) {
    forall i :: 0 <= i < |extents| ==> InFile(file, extents[i].offset, extents[i].length)
  }

  predicate JobsInFile(file: seq<Byte>, jobs: seq<Job>) {
    forall i :: 0 <= i < |jobs| ==> InFile(file, jobs[i].offset, jobs[i].length)
  }

  /** The chunks of `e` from its byte `copied` on. */
  function Chunks(index: nat, e: Extent, copied: nat, chunk: nat): seq<Job>
    requires chunk > 0
    decreases e.length - copied
  {
    if copied >= e.length then []
    else
      var count := if chunk < e.length - copied then chunk else e.length - copied;
      [Job(index, e.offset + copied, e.pointer + copied, count)] + Chunks(index, e, copied + count, chunk)
  }

  function JobsOf(extents: seq<Extent>, chunk: nat): seq<Job>
    requires chunk > 0
  {
    if extents == [] then []
    else
      var n := |extents| - 1;
      JobsOf(extents[..n], chunk) + Chunks(n, extents[n], 0, chunk)
  }

  method MakeJobs(extents: seq<Extent>, chunk: nat) returns (jobs: seq<Job>)
    requires chunk > 0
    ensures jobs == JobsOf(extents, chunk)
    ensures forall i :: 0 <= i < |jobs| ==> Cut(extents, chunk, jobs[i]) && Whole(extents, chunk, jobs[i])
  {
    jobs := [];
    for index := 0 to |extents|
      invariant jobs == JobsOf(extents[..index], chunk)
    {
      var e := extents[index];
      var copied: nat := 0;
      while copied < e.length
        invariant copied <= e.length
        invariant jobs + Chunks(index, e, copied, chunk) == JobsOf(extents[..index], chunk) + Chunks(index, e, 0, chunk)
      {
        var count := if chunk < e.length - copied then chunk else e.length - copied;
        var job := Job(index, e.offset + copied, e.pointer + copied, count);
        assert Chunks(index, e, copied, chunk) == [job] + Chunks(index, e, copied + count, chunk);
        assert jobs + ([job] + Chunks(index, e, copied + count, chunk)) == (jobs + [job]) + Chunks(index, e, copied + count, chunk);
        jobs := jobs + [job];
        copied := copied + count;
      }
      assert extents[..index + 1][..index] == extents[..index];
    }
    assert extents[..|extents|] == extents;
    JobsCut(extents, |extents|, chunk);
    JobsWhole(extents, |extents|, chunk);
  }

  /** Every job is a positive piece, at most one chunk long, of the extent it names. */
  predicate Cut(extents: seq<Extent>, chunk: nat, job: Job) {
    && job.extent < |extents|
    && 0 < job.length <= chunk
    && var e := extents[job.extent];
       && e.offset <= job.offset && job.offset + job.length <= e.offset + e.length
       && job.pointer - e.pointer == job.offset - e.offset
  }

  lemma {:induction false} ChunksCut(extents: seq<Extent>, index: nat, copied: nat, chunk: nat)
    requires chunk > 0 && index < |extents|
    ensures forall i :: 0 <= i < |Chunks(index, extents[index], copied, chunk)| ==>
      Cut(extents, chunk, Chunks(index, extents[index], copied, chunk)[i])
    decreases extents[index].length - copied
  {
    var e := extents[index];
    if copied < e.length {
      var count := if chunk < e.length - copied then chunk else e.length - copied;
      ChunksCut(extents, index, copied + count, chunk);
    }
  }

  lemma {:induction false} JobsCut(extents: seq<Extent>, n: nat, chunk: nat)
    requires chunk > 0 && n <= |extents|
    ensures forall i :: 0 <= i < |JobsOf(extents[..n], chunk)| ==> Cut(extents, chunk, JobsOf(extents[..n], chunk)[i])
  {
    if n > 0 {
      JobsCut(extents, n - 1, chunk);
      ChunksCut(extents, n - 1, 0, chunk);
      assert extents[..n][..n - 1] == extents[..n - 1];
    }
  }

  /** Every job is a whole chunk, or the last of its extent. */
  lemma {:induction false} JobsWhole(extents: seq<Extent>, n: nat, chunk: nat)
    requires chunk > 0 && n <= |extents|
    ensures forall i :: 0 <= i < |JobsOf(extents[..n], chunk)| ==> Whole(extents, chunk, JobsOf(extents[..n], chunk)[i])
  {
    if n > 0 {
      JobsWhole(extents, n - 1, chunk);
      ChunksWhole(extents, n - 1, 0, chunk);
      assert extents[..n][..n - 1] == extents[..n - 1];
    }
  }

  predicate Whole(extents: seq<Extent>, chunk: nat, job: Job) {
    && job.extent < |extents|
    && (job.length == chunk || (job.length < chunk && job.offset + job.length == extents[job.extent].offset + extents[job.extent].length))
  }

  lemma {:induction false} ChunksWhole(extents: seq<Extent>, index: nat, copied: nat, chunk: nat)
    requires chunk > 0 && index < |extents|
    ensures forall i :: 0 <= i < |Chunks(index, extents[index], copied, chunk)| ==>
      Whole(extents, chunk, Chunks(index, extents[index], copied, chunk)[i])
    decreases extents[index].length - copied
  {
    var e := extents[index];
    if copied < e.length {
      var count := if chunk < e.length - copied then chunk else e.length - copied;
      ChunksWhole(extents, index, copied + count, chunk);
    }
  }

  /** A job starts a whole number of pages into its extent, and is whole pages long unless it is the last. */
  predicate PageCut(extents: seq<Extent>, job: Job)
    requires job.extent < |extents|
  {
    var e := extents[job.extent];
    && (job.offset - e.offset) % PAGE == 0
    && (job.offset + job.length == e.offset + e.length || job.length % PAGE == 0)
  }

  lemma {:induction false} ChunksPageCut(extents: seq<Extent>, index: nat, copied: nat, chunk: nat)
    requires chunk > 0 && chunk % PAGE == 0 && copied % PAGE == 0 && index < |extents|
    ensures forall i :: 0 <= i < |Chunks(index, extents[index], copied, chunk)| ==>
      Chunks(index, extents[index], copied, chunk)[i].extent == index && PageCut(extents, Chunks(index, extents[index], copied, chunk)[i])
    decreases extents[index].length - copied
  {
    var e := extents[index];
    if copied < e.length && chunk < e.length - copied {
      ChunksPageCut(extents, index, copied + chunk, chunk);
    } else if copied < e.length {
      assert Chunks(index, e, e.length, chunk) == [];
    }
  }

  lemma {:induction false} JobsPageCut(extents: seq<Extent>, n: nat, chunk: nat)
    requires chunk > 0 && chunk % PAGE == 0 && n <= |extents|
    ensures forall i :: 0 <= i < |JobsOf(extents[..n], chunk)| ==>
      JobsOf(extents[..n], chunk)[i].extent < n && PageCut(extents, JobsOf(extents[..n], chunk)[i])
  {
    if n > 0 {
      JobsPageCut(extents, n - 1, chunk);
      ChunksPageCut(extents, n - 1, 0, chunk);
      assert extents[..n][..n - 1] == extents[..n - 1];
    }
  }

  /** `b` goes on where `a` stopped: later in the same extent, or at the start of the next one. */
  predicate Consecutive(extents: seq<Extent>, a: Job, b: Job)
    requires a.extent < |extents| && b.extent < |extents|
  {
    || (b.extent == a.extent && b.offset == a.offset + a.length)
    || (b.extent == a.extent + 1 && Finishes(extents, a) && b.offset == extents[b.extent].offset)
  }

  predicate Finishes(extents: seq<Extent>, a: Job)
    requires a.extent < |extents|
  {
    a.offset + a.length == extents[a.extent].offset + extents[a.extent].length
  }

  /** The jobs go through the first `n` extents from beginning to end. */
  predicate InSequence(extents: seq<Extent>, n: nat, jobs: seq<Job>)
    requires n <= |extents|
  {
    && (forall i :: 0 <= i < |jobs| ==> jobs[i].extent < n)
    && (n > 0 ==>
          && jobs != [] && jobs[0].extent == 0 && jobs[0].offset == extents[0].offset
          && jobs[|jobs| - 1].extent == n - 1 && Finishes(extents, jobs[|jobs| - 1]))
    && (forall i :: 0 <= i < |jobs| - 1 ==> Consecutive(extents, jobs[i], jobs[i + 1]))
  }

  lemma {:induction false} ChunksInSequence(extents: seq<Extent>, index: nat, copied: nat, chunk: nat)
    requires chunk > 0 && index < |extents| && copied < extents[index].length
    ensures var jobs := Chunks(index, extents[index], copied, chunk);
      && jobs != [] && (forall i :: 0 <= i < |jobs| ==> jobs[i].extent == index)
      && jobs[0].offset == extents[index].offset + copied && Finishes(extents, jobs[|jobs| - 1])
      && (forall i :: 0 <= i < |jobs| - 1 ==> Consecutive(extents, jobs[i], jobs[i + 1]))
    decreases extents[index].length - copied
  {
    var e := extents[index];
    var count := if chunk < e.length - copied then chunk else e.length - copied;
    if copied + count < e.length {
      ChunksInSequence(extents, index, copied + count, chunk);
    } else {
      assert Chunks(index, e, copied + count, chunk) == [];
    }
  }

  lemma {:induction false} JobsInSequence(extents: seq<Extent>, n: nat, chunk: nat)
    requires chunk > 0 && n <= |extents| && forall i :: 0 <= i < |extents| ==> extents[i].length > 0
    ensures InSequence(extents, n, JobsOf(extents[..n], chunk))
  {
    hide JobsOf, Chunks, InSequence;
    SequenceStart(extents, chunk);
    if n > 0 {
      JobsInSequence(extents, n - 1, chunk);
      ChunksInSequence(extents, n - 1, 0, chunk);
      JobsAppend(extents, n, chunk);
      SequenceAppend(extents, n, JobsOf(extents[..n - 1], chunk), Chunks(n - 1, extents[n - 1], 0, chunk));
    }
  }

  lemma {:induction false} JobsAppend(extents: seq<Extent>, n: nat, chunk: nat)
    requires chunk > 0 && 0 < n <= |extents|
    ensures JobsOf(extents[..n], chunk) == JobsOf(extents[..n - 1], chunk) + Chunks(n - 1, extents[n - 1], 0, chunk)
  {
    assert extents[..n][..n - 1] == extents[..n - 1];
  }

  lemma {:induction false} SequenceStart(extents: seq<Extent>, chunk: nat)
    requires chunk > 0
    ensures InSequence(extents, 0, JobsOf(extents[..0], chunk))
  {
  }

  lemma {:induction false} SequenceAppend(extents: seq<Extent>, n: nat, front: seq<Job>, last: seq<Job>)
    requires 0 < n <= |extents| && InSequence(extents, n - 1, front)
    requires last != [] && (forall i :: 0 <= i < |last| ==> last[i].extent == n - 1)
    requires last[0].offset == extents[n - 1].offset && Finishes(extents, last[|last| - 1])
    requires forall i :: 0 <= i < |last| - 1 ==> Consecutive(extents, last[i], last[i + 1])
    ensures InSequence(extents, n, front + last)
  {
    var jobs := front + last;
    assert forall i :: 0 <= i < |jobs| ==> jobs[i].extent < n;
    forall i | 0 <= i < |jobs| - 1 ensures Consecutive(extents, jobs[i], jobs[i + 1]) {
      if i < |front| - 1 {
        assert jobs[i] == front[i] && jobs[i + 1] == front[i + 1];
      } else if i >= |front| {
        assert jobs[i] == last[i - |front|] && jobs[i + 1] == last[i + 1 - |front|];
      }
    }
  }

  /** Every byte of an extent belongs to a job. */
  lemma {:induction false} ChunkAt(index: nat, e: Extent, copied: nat, chunk: nat, x: nat) returns (j: nat)
    requires chunk > 0 && e.offset + copied <= x < e.offset + e.length
    ensures var jobs := Chunks(index, e, copied, chunk); j < |jobs| && jobs[j].offset <= x < jobs[j].offset + jobs[j].length
    decreases e.length - copied
  {
    var count := if chunk < e.length - copied then chunk else e.length - copied;
    if x < e.offset + copied + count {
      j := 0;
    } else {
      j := ChunkAt(index, e, copied + count, chunk, x);
      j := j + 1;
    }
  }

  lemma {:induction false} JobAt(extents: seq<Extent>, chunk: nat, i: nat, x: nat) returns (j: nat)
    requires chunk > 0 && i < |extents| && extents[i].offset <= x < extents[i].offset + extents[i].length
    ensures var jobs := JobsOf(extents, chunk); j < |jobs| && jobs[j].offset <= x < jobs[j].offset + jobs[j].length
  {
    var n := |extents| - 1;
    if i < n {
      j := JobAt(extents[..n], chunk, i, x);
    } else {
      j := ChunkAt(n, extents[n], 0, chunk, x);
      j := |JobsOf(extents[..n], chunk)| + j;
    }
  }

  // ---------------------------------------------------------------------------------------------
  // Copying file bytes to device memory.

  function CopyJobs(device: Memory, file: seq<Byte>, jobs: seq<Job>): Memory
    requires JobsInFile(file, jobs)
  {
    if jobs == [] then device
    else
      var last := jobs[|jobs| - 1];
      Poke(CopyJobs(device, file, jobs[..|jobs| - 1]), last.pointer, Slice(file, last.offset, last.length))
  }

  /** The reference: one extent after another. */
  function CopyExtents(device: Memory, file: seq<Byte>, extents: seq<Extent>): Memory
    requires AllInFile(file, extents)
  {
    if extents == [] then device
    else
      var last := extents[|extents| - 1];
      Poke(CopyExtents(device, file, extents[..|extents| - 1]), last.pointer, Slice(file, last.offset, last.length))
  }

  lemma {:induction false} CopyConcat(device: Memory, file: seq<Byte>, left: seq<Job>, right: seq<Job>)
    requires JobsInFile(file, left) && JobsInFile(file, right)
    ensures JobsInFile(file, left + right)
    ensures CopyJobs(device, file, left + right) == CopyJobs(CopyJobs(device, file, left), file, right)
  {
    if right == [] {
      assert left + right == left;
    } else {
      var front := right[..|right| - 1];
      CopyConcat(device, file, left, front);
      assert (left + right)[..|left + right| - 1] == left + front;
    }
  }

  lemma {:induction false} CopyChunks(device: Memory, file: seq<Byte>, index: nat, e: Extent, copied: nat, chunk: nat)
    requires chunk > 0 && copied <= e.length && InFile(file, e.offset, e.length)
    ensures JobsInFile(file, Chunks(index, e, copied, chunk))
    ensures CopyJobs(device, file, Chunks(index, e, copied, chunk))
         == Poke(device, e.pointer + copied, Slice(file, e.offset + copied, e.length - copied))
    decreases e.length - copied
  {
    hide CopyJobs, Poke, Slice;
    CopyNone(device, file);
    if copied < e.length {
      var count := if chunk < e.length - copied then chunk else e.length - copied;
      var job := Job(index, e.offset + copied, e.pointer + copied, count);
      CopyChunks(Poke(device, job.pointer, Slice(file, job.offset, count)), file, index, e, copied + count, chunk);
      CopyOne(device, file, job, Chunks(index, e, copied + count, chunk));
      PokeTwice(device, job.pointer, Slice(file, job.offset, count),
                Slice(file, e.offset + copied + count, e.length - copied - count));
      SliceJoin(file, job.offset, count, e.length - copied - count);
    } else {
      PokeNone(device, file, e.pointer + copied, e.offset + copied);
    }
  }

  lemma {:induction false} PokeNone(device: Memory, file: seq<Byte>, pointer: int, offset: nat)
    requires offset <= |file|
    ensures Poke(device, pointer, Slice(file, offset, 0)) == device
  {
  }

  lemma {:induction false} SliceJoin(file: seq<Byte>, offset: nat, left: nat, right: nat)
    requires offset + left + right <= |file|
    ensures Slice(file, offset, left) + Slice(file, offset + left, right) == Slice(file, offset, left + right)
  {
  }

  lemma {:induction false} CopyOne(device: Memory, file: seq<Byte>, job: Job, rest: seq<Job>)
    requires InFile(file, job.offset, job.length) && JobsInFile(file, rest)
    ensures JobsInFile(file, [job] + rest)
    ensures CopyJobs(device, file, [job] + rest)
         == CopyJobs(Poke(device, job.pointer, Slice(file, job.offset, job.length)), file, rest)
  {
    CopyConcat(device, file, [job], rest);
    assert [job][..0] == [];
  }

  lemma {:induction false} CopyNone(device: Memory, file: seq<Byte>)
    ensures JobsInFile(file, []) && CopyJobs(device, file, []) == device
  {
  }

  /** Chunking does not change what a transfer does. */
  lemma {:induction false} ChunkedCopy(device: Memory, file: seq<Byte>, extents: seq<Extent>, chunk: nat)
    requires chunk > 0 && AllInFile(file, extents)
    ensures JobsInFile(file, JobsOf(extents, chunk))
    ensures CopyJobs(device, file, JobsOf(extents, chunk)) == CopyExtents(device, file, extents)
  {
    hide Poke, Slice, Chunks, JobsInFile, CopyJobs;
    CopyNone(device, file);
    if extents != [] {
      var n := |extents| - 1;
      ChunkedCopy(device, file, extents[..n], chunk);
      CopyChunks(CopyExtents(device, file, extents[..n]), file, n, extents[n], 0, chunk);
      CopyConcat(device, file, JobsOf(extents[..n], chunk), Chunks(n, extents[n], 0, chunk));
    }
  }

  // ---------------------------------------------------------------------------------------------
  // The bytes that reach the checksum of an extent.

  function Fed(file: seq<Byte>, jobs: seq<Job>, extent: nat): seq<Byte>
    requires JobsInFile(file, jobs)
  {
    if jobs == [] then []
    else
      var last := jobs[|jobs| - 1];
      Fed(file, jobs[..|jobs| - 1], extent) + if last.extent == extent then Slice(file, last.offset, last.length) else []
  }

  lemma {:induction false} FedLast(file: seq<Byte>, jobs: seq<Job>, last: Job, extent: nat)
    requires JobsInFile(file, jobs) && InFile(file, last.offset, last.length)
    ensures JobsInFile(file, jobs + [last])
    ensures Fed(file, jobs + [last], extent) == Fed(file, jobs, extent) + if last.extent == extent then Slice(file, last.offset, last.length) else []
  {
    assert (jobs + [last])[..|jobs + [last]| - 1] == jobs;
  }

  lemma {:induction false} FedNothing(file: seq<Byte>, extent: nat)
    ensures JobsInFile(file, []) && Fed(file, [], extent) == []
  {
  }

  lemma {:induction false} FrontInFile(file: seq<Byte>, jobs: seq<Job>)
    requires JobsInFile(file, jobs) && jobs != []
    ensures JobsInFile(file, jobs[..|jobs| - 1]) && InFile(file, jobs[|jobs| - 1].offset, jobs[|jobs| - 1].length)
  {
  }

  lemma {:induction false} FedConcat(file: seq<Byte>, left: seq<Job>, right: seq<Job>, extent: nat)
    requires JobsInFile(file, left) && JobsInFile(file, right)
    ensures JobsInFile(file, left + right)
    ensures Fed(file, left + right, extent) == Fed(file, left, extent) + Fed(file, right, extent)
  {
    hide Slice, Fed, JobsInFile;
    if right == [] {
      assert left + right == left;
      FedNothing(file, extent);
    } else {
      var front, last := right[..|right| - 1], right[|right| - 1];
      FrontInFile(file, right);
      FedConcat(file, left, front, extent);
      FedLast(file, left + front, last, extent);
      FedLast(file, front, last, extent);
      assert right == front + [last] && left + right == (left + front) + [last];
      var tail := if last.extent == extent then Slice(file, last.offset, last.length) else [];
      assert (Fed(file, left, extent) + Fed(file, front, extent)) + tail == Fed(file, left, extent) + (Fed(file, front, extent) + tail);
    }
  }

  lemma {:induction false} FedChunks(file: seq<Byte>, index: nat, e: Extent, copied: nat, chunk: nat, extent: nat)
    requires chunk > 0 && copied <= e.length && InFile(file, e.offset, e.length)
    ensures JobsInFile(file, Chunks(index, e, copied, chunk))
    ensures Fed(file, Chunks(index, e, copied, chunk), extent)
         == if extent == index then Slice(file, e.offset + copied, e.length - copied) else []
    decreases e.length - copied
  {
    hide Fed, Slice;
    FedNone(file, e.offset + copied, extent);
    if copied < e.length {
      var count := if chunk < e.length - copied then chunk else e.length - copied;
      FedChunks(file, index, e, copied + count, chunk, extent);
      FedOne(file, Job(index, e.offset + copied, e.pointer + copied, count), Chunks(index, e, copied + count, chunk), extent);
      SliceJoin(file, e.offset + copied, count, e.length - copied - count);
    }
  }

  lemma {:induction false} FedNone(file: seq<Byte>, offset: nat, extent: nat)
    requires offset <= |file|
    ensures JobsInFile(file, []) && Fed(file, [], extent) == [] && Slice(file, offset, 0) == []
  {
  }

  lemma {:induction false} FedOne(file: seq<Byte>, job: Job, rest: seq<Job>, extent: nat)
    requires InFile(file, job.offset, job.length) && JobsInFile(file, rest)
    ensures JobsInFile(file, [job] + rest)
    ensures Fed(file, [job] + rest, extent)
         == (if job.extent == extent then Slice(file, job.offset, job.length) else []) + Fed(file, rest, extent)
  {
    FedConcat(file, [job], rest, extent);
    assert [job][..0] == [];
  }

  /** Each checksum sees its own extent, whole and in order, whatever the chunk size. */
  lemma {:induction false} FedExtent(file: seq<Byte>, extents: seq<Extent>, chunk: nat, extent: nat)
    requires chunk > 0 && AllInFile(file, extents)
    ensures JobsInFile(file, JobsOf(extents, chunk))
    ensures Fed(file, JobsOf(extents, chunk), extent)
         == if extent < |extents| then Slice(file, extents[extent].offset, extents[extent].length) else []
  {
    if extents != [] {
      var n := |extents| - 1;
      FedExtent(file, extents[..n], chunk, extent);
      FedChunks(file, n, extents[n], 0, chunk, extent);
      FedConcat(file, JobsOf(extents[..n], chunk), Chunks(n, extents[n], 0, chunk), extent);
      assert extent < n ==> extents[..n][extent] == extents[extent];
    }
  }

  // ---------------------------------------------------------------------------------------------
  // Streaming checksums over the jobs.

  /** The states of the extent checksums after the first `completed` jobs. */
  ghost predicate Checked<S>(step: (S, Byte) -> S, init: S, file: seq<Byte>, jobs: seq<Job>, completed: nat, checks: seq<S>) {
    && completed <= |jobs| && JobsInFile(file, jobs[..completed])
    && forall e :: 0 <= e < |checks| ==> checks[e] == Fold(step, init, Fed(file, jobs[..completed], e))
  }

  lemma {:induction false} CheckedNext<S>(step: (S, Byte) -> S, init: S, file: seq<Byte>, jobs: seq<Job>, completed: nat, checks: seq<S>)
    requires Checked(step, init, file, jobs, completed, checks) && completed < |jobs|
    requires jobs[completed].extent < |checks| && InFile(file, jobs[completed].offset, jobs[completed].length)
    ensures var job := jobs[completed];
      Checked(step, init, file, jobs, completed + 1,
              checks[job.extent := Fold(step, checks[job.extent], Slice(file, job.offset, job.length))])
  {
    var job, before, after := jobs[completed], jobs[..completed], jobs[..completed + 1];
    assert after == before + [job] && after[..completed] == before;
    forall e | 0 <= e < |checks|
      ensures Fold(step, init, Fed(file, after, e))
           == if e == job.extent then Fold(step, checks[e], Slice(file, job.offset, job.length)) else checks[e]
    {
      if e == job.extent {
        FoldConcat(step, init, Fed(file, before, e), Slice(file, job.offset, job.length));
      } else {
        assert Fed(file, before, e) + [] == Fed(file, before, e);
      }
    }
  }

  /** After all jobs the checksum of an extent is the checksum of its bytes. */
  lemma {:induction false} CheckedExtent<S>(step: (S, Byte) -> S, init: S, file: seq<Byte>, extents: seq<Extent>, chunk: nat, checks: seq<S>, i: nat)
    requires chunk > 0 && AllInFile(file, extents) && i < |extents| == |checks|
    requires Checked(step, init, file, JobsOf(extents, chunk), |JobsOf(extents, chunk)|, checks)
    ensures checks[i] == Fold(step, init, Slice(file, extents[i].offset, extents[i].length))
  {
    var jobs := JobsOf(extents, chunk);
    assert jobs[..|jobs|] == jobs;
    FedExtent(file, extents, chunk, i);
  }

  lemma {:induction false} CheckedStart<S>(step: (S, Byte) -> S, init: S, file: seq<Byte>, jobs: seq<Job>, checks: seq<S>)
    requires forall e :: 0 <= e < |checks| ==> checks[e] == init
    ensures Checked(step, init, file, jobs, 0, checks)
  {
  }

  // ---------------------------------------------------------------------------------------------
  // The ring of stages.

  /** The stage that job `i` uses: the remainder of `i` by `depth`. */
  function Slot(i: nat, depth: nat): (k: nat)
    requires depth > 0
    ensures k < depth && (i < depth ==> k == i)
  {
    if i < depth then i else Slot(i - depth, depth)
  }

  /** Jobs less than one ring apart never share a stage. */
  lemma {:induction false} SlotsDistinct(i: nat, j: nat, depth: nat)
    requires i < j < i + depth
    ensures Slot(i, depth) != Slot(j, depth)
  {
    if i >= depth { SlotsDistinct(i - depth, j - depth, depth); }
  }
}
