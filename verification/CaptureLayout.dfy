/**
  The request of a native capture and the file it must produce: every source at its offset, zeros
  everywhere else.
 */
module CaptureLayout {
  import opened Bytes
  import opened Jobs

  /** The largest 64-bit unsigned value. */
  const MAX64: nat := 0xFFFF_FFFF_FFFF_FFFF

  /** How many file bytes an extent (or a chunk) occupies. */
  function Slot4K(length: nat, padded: bool): (stored: nat)
    ensures length <= stored
  {
    if padded then AlignUp(length) else length
  }

  predicate FieldsValid(e: Extent, padded: bool) {
    && 0 < e.length && 0 < e.pointer
    && e.offset + e.length <= MAX64 && e.pointer + e.length <= MAX64
    && (padded ==> e.length + 4095 <= MAX64 && e.offset % PAGE == 0)
    && e.offset + Slot4K(e.length, padded) <= MAX64
  }

  /** Valid fields, and the slots follow one another without overlap. */
  predicate ValidCapture(extents: seq<Extent>, padded: bool) {
    && (forall i :: 0 <= i < |extents| ==> FieldsValid(extents[i], padded))
    && (forall i, j :: 0 <= i < j < |extents| ==>
          extents[i].offset + Slot4K(extents[i].length, padded) <= extents[j].offset)
  }

  /** The loop of `validate_capture_request` over the extents. */
  method ValidateCapture(extents: seq<Extent>, padded: bool) returns (ok: bool)
    ensures ok <==> extents != [] && ValidCapture(extents, padded)
  {
    if extents == [] {
      return false;
    }
    var previousEnd := 0;
    for i := 0 to |extents|
      invariant ValidCapture(extents[..i], padded)
      invariant previousEnd == if i == 0 then 0 else extents[i - 1].offset + Slot4K(extents[i - 1].length, padded)
    {
      var e := extents[i];
      assert i > 0 ==> extents[i - 1].offset + Slot4K(extents[i - 1].length, padded) == previousEnd;
      if e.pointer <= 0 || e.length == 0 || e.offset > MAX64 - e.length || e.pointer > MAX64 - e.length || e.offset < previousEnd {
        return false;
      }
      if padded && e.length > MAX64 - 4095 {
        return false;  // the padded length overflows
      }
      var stored := if padded then AlignUp(e.length) else e.length;
      if (padded && e.offset % 4096 != 0) || e.offset > MAX64 - stored {
        return false;
      }
      forall k | 0 <= k < i ensures extents[k].offset + Slot4K(extents[k].length, padded) <= e.offset {
        assert extents[..i][k] == extents[k] && (k < i - 1 ==> extents[..i][i - 1] == extents[i - 1]);
      }
      previousEnd := e.offset + stored;
    }
    assert extents[..|extents|] == extents;
    return true;
  }

  function FileBytes(extents: seq<Extent>, padded: bool): nat
    requires extents != []
  {
    var last := extents[|extents| - 1];
    last.offset + Slot4K(last.length, padded)
  }

  predicate AllMapped(device: Memory, extents: seq<Extent>) {
    forall i :: 0 <= i < |extents| ==> Mapped(device, extents[i].pointer, extents[i].length)
  }

  predicate Holds(e: Extent, x: int) { e.offset <= x < e.offset + e.length }

  function ByteAt(device: Memory, extents: seq<Extent>, x: int): Byte
    requires AllMapped(device, extents)
  {
    if extents == [] then 0
    else
      var last := extents[|extents| - 1];
      if Holds(last, x) then device[last.pointer + x - last.offset] else ByteAt(device, extents[..|extents| - 1], x)
  }

  /** The file of a capture. */
  function Target(device: Memory, extents: seq<Extent>, length: nat): (file: seq<Byte>)
    requires AllMapped(device, extents)
    ensures |file| == length
  {
    seq(length, x requires 0 <= x < length => ByteAt(device, extents, x))
  }

  lemma {:induction false} ByteIn(device: Memory, extents: seq<Extent>, i: nat, x: int)
    requires AllMapped(device, extents) && i < |extents| && Holds(extents[i], x)
    requires forall k :: i < k < |extents| ==> !Holds(extents[k], x)
    ensures ByteAt(device, extents, x) == device[extents[i].pointer + x - extents[i].offset]
  {
    if i < |extents| - 1 { ByteIn(device, extents[..|extents| - 1], i, x); }
  }

  lemma {:induction false} ByteOut(device: Memory, extents: seq<Extent>, x: int)
    requires AllMapped(device, extents) && forall k :: 0 <= k < |extents| ==> !Holds(extents[k], x)
    ensures ByteAt(device, extents, x) == 0
  {
    if extents != [] { ByteOut(device, extents[..|extents| - 1], x); }
  }

  /** The file holds each source at its offset, and zeros outside the sources. */
  ghost predicate Holding(file: seq<Byte>, device: Memory, extents: seq<Extent>)
    requires AllMapped(device, extents)
  {
    && AllInFile(file, extents)
    && (forall i :: 0 <= i < |extents| ==>
          Slice(file, extents[i].offset, extents[i].length) == Peek(device, extents[i].pointer, extents[i].length))
    && (forall x :: 0 <= x < |file| && (forall i :: 0 <= i < |extents| ==> !Holds(extents[i], x)) ==> file[x] == 0)
  }

  lemma {:induction false} TargetHolding(device: Memory, extents: seq<Extent>, padded: bool)
    requires extents != [] && ValidCapture(extents, padded) && AllMapped(device, extents)
    ensures Holding(Target(device, extents, FileBytes(extents, padded)), device, extents)
  {
    var file := Target(device, extents, FileBytes(extents, padded));
    forall i | 0 <= i < |extents|
      ensures InFile(file, extents[i].offset, extents[i].length)
      ensures Slice(file, extents[i].offset, extents[i].length) == Peek(device, extents[i].pointer, extents[i].length)
    {
      var e := extents[i];
      assert i < |extents| - 1 ==> e.offset + Slot4K(e.length, padded) <= extents[|extents| - 1].offset;
      assert Mapped(device, e.pointer, e.length);
      forall k | 0 <= k < e.length
        ensures Slice(file, e.offset, e.length)[k] == Peek(device, e.pointer, e.length)[k]
      {
        SlotApart(extents, padded, i, e.offset + k);
        ByteIn(device, extents, i, e.offset + k);
      }
    }
    forall x | 0 <= x < |file| && forall i :: 0 <= i < |extents| ==> !Holds(extents[i], x)
      ensures file[x] == 0
    {
      ByteOut(device, extents, x);
    }
  }

  // ---------------------------------------------------------------------------------------------
  // The chunk jobs against that file.

  /** What one job writes: its source and, in padded mode, zeros to the next page boundary. */
  function Written(device: Memory, job: Job, padded: bool): (bytes: seq<Byte>)
    requires Mapped(device, job.pointer, job.length)
    ensures |bytes| == Slot4K(job.length, padded)
  {
    Peek(device, job.pointer, job.length) + Zeros(Slot4K(job.length, padded) - job.length)
  }

  lemma {:induction false} JobMapped(device: Memory, extents: seq<Extent>, chunk: nat, job: Job)
    requires AllMapped(device, extents) && Cut(extents, chunk, job)
    ensures Mapped(device, job.pointer, job.length)
  {
    var e := extents[job.extent];
    assert Mapped(device, e.pointer, e.length);
  }

  /** The slot of a job stays inside the slot of its extent. */
  lemma {:induction false} SlotInside(extents: seq<Extent>, chunk: nat, job: Job, padded: bool)
    requires chunk % PAGE == 0 && Cut(extents, chunk, job) && PageCut(extents, job)
    requires padded ==> extents[job.extent].offset % PAGE == 0
    ensures var e := extents[job.extent];
      && job.offset + Slot4K(job.length, padded) <= e.offset + Slot4K(e.length, padded)
      && (job.offset + job.length < e.offset + e.length ==> Slot4K(job.length, padded) == job.length)
      && Slot4K(job.length, padded) <= chunk
  {
    var e := extents[job.extent];
    if padded {
      var done := job.offset - e.offset;
      assert AlignUp(job.length) <= chunk by { AlignedBelow(job.length, chunk); }
      assert job.offset + AlignUp(job.length) <= e.offset + AlignUp(e.length) by {
        AlignedBelow(job.length, AlignUp(e.length) - done);
      }
    }
  }

  lemma {:induction false} AlignedBelow(n: nat, m: nat)
    requires n <= m && m % PAGE == 0
    ensures AlignUp(n) <= m
  {
  }

  lemma {:induction false} JobTarget(device: Memory, extents: seq<Extent>, padded: bool, chunk: nat, job: Job)
    requires extents != [] && ValidCapture(extents, padded) && AllMapped(device, extents)
    requires chunk % PAGE == 0 && Cut(extents, chunk, job) && PageCut(extents, job)
    ensures Mapped(device, job.pointer, job.length)
    ensures var file := Target(device, extents, FileBytes(extents, padded));
      && InFile(file, job.offset, Slot4K(job.length, padded))
      && Slice(file, job.offset, Slot4K(job.length, padded)) == Written(device, job, padded)
  {
    hide ValidCapture, AllMapped, Target, FileBytes;
    var file, stored := Target(device, extents, FileBytes(extents, padded)), Slot4K(job.length, padded);
    JobMapped(device, extents, chunk, job);
    SlotPlace(extents, padded, chunk, job);
    forall k | 0 <= k < stored ensures file[job.offset + k] == Written(device, job, padded)[k] {
      JobByte(device, extents, padded, chunk, job, k);
    }
  }

  lemma {:induction false} SlotPlace(extents: seq<Extent>, padded: bool, chunk: nat, job: Job)
    requires ValidCapture(extents, padded) && chunk % PAGE == 0 && Cut(extents, chunk, job) && PageCut(extents, job)
    ensures job.offset + Slot4K(job.length, padded) <= FileBytes(extents, padded)
  {
    hide FileBytes;
    SlotInside(extents, chunk, job, padded);
    SlotInFile(extents, padded, job.extent);
  }

  lemma {:induction false} JobByte(device: Memory, extents: seq<Extent>, padded: bool, chunk: nat, job: Job, k: nat)
    requires extents != [] && ValidCapture(extents, padded) && AllMapped(device, extents)
    requires chunk % PAGE == 0 && Cut(extents, chunk, job) && PageCut(extents, job) && Mapped(device, job.pointer, job.length)
    requires k < Slot4K(job.length, padded) && job.offset + k < FileBytes(extents, padded)
    ensures Target(device, extents, FileBytes(extents, padded))[job.offset + k] == Written(device, job, padded)[k]
  {
    hide FileBytes, ByteAt;
    var x := job.offset + k;
    SlotInside(extents, chunk, job, padded);
    SlotApart(extents, padded, job.extent, x);
    if k < job.length {
      ByteIn(device, extents, job.extent, x);
    } else {
      ByteOut(device, extents, x);
    }
  }

  lemma {:induction false} SlotInFile(extents: seq<Extent>, padded: bool, i: nat)
    requires ValidCapture(extents, padded) && i < |extents|
    ensures extents[i].offset + Slot4K(extents[i].length, padded) <= FileBytes(extents, padded)
  {
  }

  lemma {:induction false} SlotApart(extents: seq<Extent>, padded: bool, i: nat, x: int)
    requires ValidCapture(extents, padded) && i < |extents|
    requires extents[i].offset <= x < extents[i].offset + Slot4K(extents[i].length, padded)
    ensures forall k :: 0 <= k < |extents| && k != i ==> !Holds(extents[k], x)
  {
    forall k | 0 <= k < |extents| && k != i ensures !Holds(extents[k], x) {
      assert k < i ==> extents[k].offset + Slot4K(extents[k].length, padded) <= extents[i].offset;
      assert i < k ==> extents[i].offset + Slot4K(extents[i].length, padded) <= extents[k].offset;
    }
  }

  /** Between one job and the next there is no source byte. */
  lemma {:induction false} GapFree(extents: seq<Extent>, padded: bool, chunk: nat, a: Job, b: Job, x: int)
    requires ValidCapture(extents, padded) && Cut(extents, chunk, a) && Cut(extents, chunk, b)
    requires Consecutive(extents, a, b) && a.offset + a.length <= x < b.offset
    ensures forall k :: 0 <= k < |extents| ==> !Holds(extents[k], x)
  {
    forall k | 0 <= k < |extents| ensures !Holds(extents[k], x) {
      assert k < a.extent ==> extents[k].offset + Slot4K(extents[k].length, padded) <= extents[a.extent].offset;
      assert b.extent < k ==> extents[b.extent].offset + Slot4K(extents[b.extent].length, padded) <= extents[k].offset;
    }
  }
}
