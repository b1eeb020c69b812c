/**
  `verify_capture_file`: the written file is read again. With a file digest it is scanned once from
  end to end while a second cursor walks the extents; without one it is read job by job.
 */
module Readback {
  import opened Bytes
  import opened Jobs
  import opened CaptureLayout
  import opened CapturePipeline
  import HydrationPipeline

  /** The bytes of `e` that lie before the file position `offset`. */
  function Seen(file: seq<Byte>, e: Extent, offset: nat): seq<Byte>
    requires InFile(file, e.offset, e.length)
  {
    if offset <= e.offset then []
    else if offset < e.offset + e.length then file[e.offset..offset]
    else Slice(file, e.offset, e.length)
  }

  /** The checksums below `index` have seen the file up to `after`, the others up to `before`. */
  ghost predicate Scanned<S>(step: (S, Byte) -> S, init: S, file: seq<Byte>, extents: seq<Extent>, checks: seq<S>,
                             index: nat, before: nat, after: nat)
    requires AllInFile(file, extents)
  {
    && |checks| == |extents| && index <= |extents|
    && (forall i :: 0 <= i < index ==>
          extents[i].offset + extents[i].length <= after && checks[i] == Fold(step, init, Seen(file, extents[i], after)))
    && (forall i :: index <= i < |extents| ==> checks[i] == Fold(step, init, Seen(file, extents[i], before)))
  }

  lemma {:induction false} SeenMore<S>(step: (S, Byte) -> S, init: S, file: seq<Byte>, e: Extent, offset: nat, count: nat, check: S)
    requires InFile(file, e.offset, e.length) && offset + count <= |file|
    requires check == Fold(step, init, Seen(file, e, offset))
    ensures var start := if offset < e.offset then e.offset else offset;
      var end := if offset + count < e.offset + e.length then offset + count else e.offset + e.length;
      (if end > start then Fold(step, check, file[offset..offset + count][start - offset..end - offset]) else check)
        == Fold(step, init, Seen(file, e, offset + count))
  {
    var start := if offset < e.offset then e.offset else offset;
    var end := if offset + count < e.offset + e.length then offset + count else e.offset + e.length;
    hide Seen, Fold;
    if end > start {
      SubSlice(file, offset, count, start, end);
      FoldConcat(step, init, Seen(file, e, offset), file[start..end]);
    }
    SeenGrows(file, e, offset, count, start, end);
  }

  lemma {:induction false} SubSlice(file: seq<Byte>, offset: nat, count: nat, start: nat, end: nat)
    requires offset <= start <= end <= offset + count <= |file|
    ensures file[offset..offset + count][start - offset..end - offset] == file[start..end]
  {
    var inner := file[offset..offset + count][start - offset..end - offset];
    assert forall k :: 0 <= k < |inner| ==> inner[k] == file[start + k];
  }

  lemma {:induction false} SeenGrows(file: seq<Byte>, e: Extent, offset: nat, count: nat, start: nat, end: nat)
    requires InFile(file, e.offset, e.length) && offset + count <= |file|
    requires start == if offset < e.offset then e.offset else offset
    requires end == if offset + count < e.offset + e.length then offset + count else e.offset + e.length
    ensures end > start ==> Seen(file, e, offset + count) == Seen(file, e, offset) + file[start..end]
    ensures end <= start ==> Seen(file, e, offset + count) == Seen(file, e, offset)
  {
  }

  /** An extent that ends after the piece stops the inner cursor: later ones have seen nothing. */
  lemma {:induction false} SeenNothing(file: seq<Byte>, extents: seq<Extent>, padded: bool, index: nat, offset: nat, count: nat)
    requires ValidCapture(extents, padded) && AllInFile(file, extents) && index < |extents|
    requires offset + count < extents[index].offset + extents[index].length
    ensures forall i :: index < i < |extents| ==> Seen(file, extents[i], offset) == [] == Seen(file, extents[i], offset + count)
  {
    forall i | index < i < |extents|
      ensures Seen(file, extents[i], offset) == [] == Seen(file, extents[i], offset + count)
    {
      assert extents[index].offset + Slot4K(extents[index].length, padded) <= extents[i].offset;
    }
  }

  /** The inner loop: feeds the piece at `offset` to the extents it meets. */
  method FeedPiece<S>(file: seq<Byte>, extents: seq<Extent>, ghost padded: bool, offset: nat, count: nat, index0: nat, checks0: seq<S>,
                      step: (S, Byte) -> S, ghost init: S)
    returns (index: nat, checks: seq<S>)
    requires ValidCapture(extents, padded) && AllInFile(file, extents) && offset + count <= |file|
    requires Scanned(step, init, file, extents, checks0, index0, offset, offset)
    ensures Scanned(step, init, file, extents, checks, index, offset + count, offset + count)
  {
    hide ValidCapture, Fold, Seen;
    var buffer := file[offset..offset + count];
    index, checks := index0, checks0;
    forall i | 0 <= i < index
      ensures checks[i] == Fold(step, init, Seen(file, extents[i], offset + count))
    {
      SeenAll(file, extents[i], offset, offset + count);
    }
    while index < |extents|
      invariant Scanned(step, init, file, extents, checks, index, offset, offset + count)
    {
      var e := extents[index];
      var start := if offset < e.offset then e.offset else offset;
      var end := if offset + count < e.offset + e.length then offset + count else e.offset + e.length;
      SeenMore(step, init, file, e, offset, count, checks[index]);
      if end > start {
        checks := checks[index := Fold(step, checks[index], buffer[start - offset..end - offset])];
      }
      if e.offset + e.length > offset + count {
        SeenNothing(file, extents, padded, index, offset, count);
        return;
      }
      index := index + 1;
    }
  }

  lemma {:induction false} SeenAll(file: seq<Byte>, e: Extent, before: nat, after: nat)
    requires InFile(file, e.offset, e.length) && e.offset + e.length <= before <= after
    ensures Seen(file, e, before) == Seen(file, e, after)
  {
  }

  /**
    The two-cursor scan: every extent checksum is fed exactly its own bytes, once and in order, and
    the file digest the whole file, for every chunk size.
   */
  method ScanFile<S>(file: seq<Byte>, extents: seq<Extent>, ghost padded: bool, chunk: nat, step: (S, Byte) -> S, init: S)
    returns (checks: seq<S>, sha: S)
    requires chunk > 0 && ValidCapture(extents, padded) && AllInFile(file, extents)
    ensures |checks| == |extents|
    ensures forall i :: 0 <= i < |extents| ==> checks[i] == Fold(step, init, Slice(file, extents[i].offset, extents[i].length))
    ensures sha == Fold(step, init, file)
  {
    hide ValidCapture, Fold, Scanned;
    checks, sha := seq(|extents|, _ => init), init;
    var index: nat := 0;
    var offset: nat := 0;
    ScanStart(step, init, file, extents, checks);
    while offset < |file|
      invariant offset <= |file|
      invariant Scanned(step, init, file, extents, checks, index, offset, offset)
      invariant sha == Fold(step, init, file[..offset])
    {
      var count := if chunk < |file| - offset then chunk else |file| - offset;
      FoldConcat(step, init, file[..offset], file[offset..offset + count]);
      assert file[..offset] + file[offset..offset + count] == file[..offset + count];
      sha := Fold(step, sha, file[offset..offset + count]);
      index, checks := FeedPiece(file, extents, padded, offset, count, index, checks, step, init);
      offset := offset + count;
    }
    assert file[..|file|] == file;
    ScanEnd(step, init, file, extents, checks, index);
  }

  lemma {:induction false} ScanStart<S>(step: (S, Byte) -> S, init: S, file: seq<Byte>, extents: seq<Extent>, checks: seq<S>)
    requires AllInFile(file, extents) && |checks| == |extents| && forall i :: 0 <= i < |checks| ==> checks[i] == init
    ensures Scanned(step, init, file, extents, checks, 0, 0, 0) && Fold(step, init, file[..0]) == init
  {
  }

  lemma {:induction false} ScanEnd<S>(step: (S, Byte) -> S, init: S, file: seq<Byte>, extents: seq<Extent>, checks: seq<S>, index: nat)
    requires AllInFile(file, extents) && Scanned(step, init, file, extents, checks, index, |file|, |file|)
    ensures |checks| == |extents|
    ensures forall i :: 0 <= i < |extents| ==> checks[i] == Fold(step, init, Slice(file, extents[i].offset, extents[i].length))
  {
    forall i | 0 <= i < |extents| ensures Seen(file, extents[i], |file|) == Slice(file, extents[i].offset, extents[i].length) {
      assert InFile(file, extents[i].offset, extents[i].length);
    }
  }

  /** The job-by-job path computes the same extent checksums. */
  method ReadJobs<S>(file: seq<Byte>, extents: seq<Extent>, chunk: nat, step: (S, Byte) -> S, init: S) returns (checks: seq<S>)
    requires chunk > 0 && AllInFile(file, extents)
    ensures |checks| == |extents|
    ensures forall i :: 0 <= i < |extents| ==> checks[i] == Fold(step, init, Slice(file, extents[i].offset, extents[i].length))
  {
    hide Checked, Fold, JobsOf;
    var jobs := MakeJobs(extents, chunk);
    JobsCut(extents, |extents|, chunk);
    assert extents[..|extents|] == extents;
    checks := seq(|extents|, _ => init);
    CheckedStart(step, init, file, jobs, checks);
    for i := 0 to |jobs|
      invariant |checks| == |extents| && Checked(step, init, file, jobs, i, checks)
    {
      var job := jobs[i];
      assert InFile(file, job.offset, job.length) by { assert Cut(extents, chunk, job); }
      CheckedNext(step, init, file, jobs, i, checks);
      checks := checks[job.extent := Fold(step, checks[job.extent], Slice(file, job.offset, job.length))];
    }
    forall i | 0 <= i < |extents|
      ensures checks[i] == Fold(step, init, Slice(file, extents[i].offset, extents[i].length))
    {
      CheckedExtent(step, init, file, extents, chunk, checks, i);
    }
  }

  /** The file's own digests are the recorded ones. */
  ghost predicate Matches<S>(file: seq<Byte>, extents: seq<Extent>, step: (S, Byte) -> S, init: S, expected: seq<S>, sha: Option<S>)
    requires AllInFile(file, extents) && |expected| == |extents|
  {
    && (forall i :: 0 <= i < |extents| ==> Fold(step, init, Slice(file, extents[i].offset, extents[i].length)) == expected[i])
    && (sha.Some? ==> Fold(step, init, file) == sha.value)
  }

  /** Readback accepts a file exactly if its digests are the recorded ones, on either path. */
  method VerifyCapture<S(==)>(file: seq<Byte>, extents: seq<Extent>, padded: bool, chunk: nat,
                              step: (S, Byte) -> S, init: S, expected: seq<S>, sha: Option<S>)
    returns (ok: bool)
    requires chunk > 0 && ValidCapture(extents, padded) && AllInFile(file, extents) && |expected| == |extents|
    ensures ok <==> Matches(file, extents, step, init, expected, sha)
  {
    hide Fold, ValidCapture;
    var observed: seq<S>;
    var shaOk := true;
    if sha.Some? {
      var whole;
      observed, whole := ScanFile(file, extents, padded, chunk, step, init);
      shaOk := whole == sha.value;
    } else {
      observed := ReadJobs(file, extents, chunk, step, init);
    }
    for i := 0 to |extents|
      invariant forall k :: 0 <= k < i ==> Fold(step, init, Slice(file, extents[k].offset, extents[k].length)) == expected[k]
    {
      if observed[i] != expected[i] {
        return false;
      }
    }
    return shaOk;
  }

  /**
    A capture with readback. What it accepts has the digests that were recorded, also if a read in
    flight has spoilt it between the checksum and the write; what no read spoils always passes.
   */
  method CaptureVerified<S(==)>(device: Memory, extents: seq<Extent>, padded: bool, chunk: nat, queueDepth: nat, fileSha: bool,
                                step: (S, Byte) -> S, init: S, ring: HydrationPipeline.Ring, broken: bool)
    returns (r: Result<Capture<S>>)
    requires chunk > 0 && chunk % PAGE == 0 && queueDepth > 0 && AllMapped(device, extents)
    ensures r.Ok? ==> extents != [] && ValidCapture(extents, padded) && !broken
    ensures r.Ok? ==> Formed(extents, padded, fileSha, r.value) && AllInFile(r.value.file, extents)
    ensures r.Ok? ==> Matches(r.value.file, extents, step, init, r.value.checks, r.value.sha)
    ensures Clean(device, extents, padded, chunk, queueDepth, ring) && extents != [] && ValidCapture(extents, padded) && !broken ==> r.Ok?
    ensures r.Ok? && Clean(device, extents, padded, chunk, queueDepth, ring) ==> Captured(device, extents, padded, step, init, r.value)
  {
    hide Fold, ValidCapture, AllMapped, Clean, Holding, FileBytes, Matches;
    r := CaptureStaged(device, extents, padded, chunk, queueDepth, fileSha, step, init, ring, broken);
    if r.Err? {
      return r;
    }
    FormedInside(extents, padded, fileSha, r.value);
    var ok := VerifyCapture(r.value.file, extents, padded, chunk, step, init, r.value.checks, r.value.sha);
    if Clean(device, extents, padded, chunk, queueDepth, ring) { CapturedMatches(device, extents, padded, step, init, r.value); }
    if !ok {
      return Err;
    }
  }

  lemma {:induction false} FormedInside<S>(extents: seq<Extent>, padded: bool, fileSha: bool, c: Capture<S>)
    requires extents != [] && ValidCapture(extents, padded) && Formed(extents, padded, fileSha, c)
    ensures AllInFile(c.file, extents)
  {
  }

  lemma {:induction false} CapturedMatches<S>(device: Memory, extents: seq<Extent>, padded: bool, step: (S, Byte) -> S, init: S, c: Capture<S>)
    requires extents != [] && AllMapped(device, extents) && AllInFile(c.file, extents) && Captured(device, extents, padded, step, init, c)
    ensures Matches(c.file, extents, step, init, c.checks, c.sha)
  {
    hide Fold, FileBytes, AllMapped;
  }
}
