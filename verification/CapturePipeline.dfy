/**
  `capture_staged`: device-to-host copies into a ring of stages and asynchronous positional writes
  out of them. The copies run in stream order and the writes in any order, possibly piecemeal,
  while the host thread goes on; each takes the bytes that its source holds when it runs.

  The ring is the one of the hydration. A capture waits for no read that was left in flight there,
  so that such a read may write into its stage at any time.
 */
module CapturePipeline {
  import opened Bytes
  import opened Jobs
  import opened CaptureLayout
  import HydrationPipeline

  /** `job` is the last job handed to the stage; `writing` says that its write has not finished. */
  datatype Stage = Stage(buffer: seq<Byte>, job: nat, writing: bool)

  /** A queued device-to-host copy. */
  datatype Copy = Copy(stage: nat, pointer: int, length: nat)

  datatype Transport = Transport(stages: seq<Stage>, stream: seq<Copy>, file: seq<Byte>)

  /** `open` are the reads in flight in the stages. */
  datatype Plan = Plan(device: Memory, jobs: seq<Job>, chunk: nat, depth: nat, padded: bool, open: seq<Option<HydrationPipeline.Flight>>)

  /** `device` is the memory when the copies that are still queued in the stream have run. */
  function PlanOf(device: Memory, extents: seq<Extent>, padded: bool, chunk: nat, queueDepth: nat, ring: HydrationPipeline.Ring): Plan
    requires chunk > 0
  {
    var jobs := JobsOf(extents, chunk);
    var depth := if queueDepth < |jobs| then queueDepth else |jobs|;
    Plan(device, jobs, chunk, depth, padded, HydrationPipeline.Outstanding(ring, chunk, depth))
  }

  function Stored(plan: Plan, i: nat): nat
    requires i < |plan.jobs|
  {
    Slot4K(plan.jobs[i].length, plan.padded)
  }

  /** Each job fits its stage, and `target` is what the jobs must write. */
  ghost predicate Sound(plan: Plan, target: seq<Byte>) {
    && plan.depth > 0 && |plan.open| == plan.depth
    && forall i :: 0 <= i < |plan.jobs| ==> JobSound(plan, target, i)
  }

  ghost predicate JobSound(plan: Plan, target: seq<Byte>, i: nat)
    requires i < |plan.jobs|
  {
    var job := plan.jobs[i];
    && Stored(plan, i) <= plan.chunk
    && Mapped(plan.device, job.pointer, job.length)
    && InFile(target, job.offset, Stored(plan, i))
    && Slice(target, job.offset, Stored(plan, i)) == Written(plan.device, job, plan.padded)
  }

  /** The byte that the read in flight in stage `k` may put at `b`. */
  function StrayByte(plan: Plan, k: nat, b: nat): Option<Byte> {
    if k < |plan.open| && plan.open[k].Some? then HydrationPipeline.Stray(plan.open[k].value, [], HydrationPipeline.OldRead, b) else None
  }

  /** It is the byte that job `i` stores there. */
  predicate HarmlessByte(plan: Plan, target: seq<Byte>, i: nat, b: nat)
    requires plan.depth > 0 && i < |plan.jobs|
  {
    var stray, x := StrayByte(plan, Slot(i, plan.depth), b), plan.jobs[i].offset + b;
    stray.Some? && 0 <= x < |target| ==> stray.value == target[x]
  }

  /** The reads in flight can only store what the jobs store. */
  ghost predicate Harmless(plan: Plan, target: seq<Byte>) {
    plan.depth > 0 ==> forall i, b :: 0 <= i < |plan.jobs| && 0 <= b < Stored(plan, i) ==> HarmlessByte(plan, target, i, b)
  }

  predicate Sized(plan: Plan, t: Transport) {
    && plan.depth > 0 && |t.stages| == plan.depth
    && (forall k :: 0 <= k < |t.stages| ==> |t.stages[k].buffer| == plan.chunk)
  }

  /** Unless a read in flight spoils it, the stage of job `i` starts with the first `n` bytes that the file must hold for it. */
  ghost predicate Loaded(plan: Plan, target: seq<Byte>, t: Transport, i: nat, n: nat)
    requires Sized(plan, t) && i < |plan.jobs| && n <= plan.chunk && InFile(target, plan.jobs[i].offset, n)
  {
    Harmless(plan, target) ==> t.stages[Slot(i, plan.depth)].buffer[..n] == Slice(target, plan.jobs[i].offset, n)
  }

  /** Some job whose write has not finished covers the file position `x`. */
  ghost predicate Pending(plan: Plan, t: Transport, completed: nat, x: int)
    requires Sized(plan, t)
  {
    exists i :: 0 <= i < |plan.jobs| && Outstanding(plan, t, completed, i)
      && plan.jobs[i].offset <= x < plan.jobs[i].offset + Stored(plan, i)
  }

  predicate Outstanding(plan: Plan, t: Transport, completed: nat, i: nat)
    requires Sized(plan, t)
  {
    completed <= i || (t.stages[Slot(i, plan.depth)].job == i && t.stages[Slot(i, plan.depth)].writing)
  }

  /**
    `next` jobs have been queued for copying, `arrived` have reached their stage and `completed`
    have been handed to a write. With harmless reads in flight the file is right wherever no write
    is outstanding.
   */
  ghost predicate Inv(plan: Plan, target: seq<Byte>, t: Transport, completed: nat, arrived: nat, next: nat) {
    && Sound(plan, target) && Sized(plan, t)
    && completed <= arrived <= next <= |plan.jobs| && next <= completed + plan.depth
    && (forall i :: completed <= i < next ==>
          t.stages[Slot(i, plan.depth)].job == i && !t.stages[Slot(i, plan.depth)].writing)
    && (forall i :: completed <= i < arrived ==> JobSound(plan, target, i) && Loaded(plan, target, t, i, plan.jobs[i].length))
    && (forall k :: 0 <= k < |t.stages| && t.stages[k].writing ==>
          && t.stages[k].job < completed && Slot(t.stages[k].job, plan.depth) == k
          && JobSound(plan, target, t.stages[k].job) && Loaded(plan, target, t, t.stages[k].job, Stored(plan, t.stages[k].job)))
    && Queued(plan, t.stream, arrived, next)
    && FileRight(plan, target, t, completed)
  }

  ghost predicate FileRight(plan: Plan, target: seq<Byte>, t: Transport, completed: nat)
    requires Sized(plan, t)
  {
    && |t.file| == |target|
    && (Harmless(plan, target) ==> forall x :: 0 <= x < |target| ==> t.file[x] == target[x] || Pending(plan, t, completed, x))
  }

  predicate Queued(plan: Plan, stream: seq<Copy>, arrived: nat, next: nat)
    requires arrived <= next <= |plan.jobs| && plan.depth > 0
  {
    && |stream| == next - arrived
    && (forall k :: 0 <= k < |stream| ==>
          stream[k] == Copy(Slot(arrived + k, plan.depth), plan.jobs[arrived + k].pointer, plan.jobs[arrived + k].length))
  }

  // ---------------------------------------------------------------------------------------------
  // Steps of the environment.

  /** Runs the copy at the head of the stream. */
  function Pop(plan: Plan, t: Transport): Transport
    requires t.stream != [] && var c := t.stream[0];
      c.stage < |t.stages| && c.length <= |t.stages[c.stage].buffer| && Mapped(plan.device, c.pointer, c.length)
  {
    var copy := t.stream[0];
    var stage := t.stages[copy.stage];
    var bytes := Peek(plan.device, copy.pointer, copy.length) + stage.buffer[copy.length..];
    t.(stream := t.stream[1..], stages := t.stages[copy.stage := stage.(buffer := bytes)])
  }

  lemma {:induction false} CopyDone(plan: Plan, target: seq<Byte>, t: Transport, completed: nat, arrived: nat, next: nat)
    requires Inv(plan, target, t, completed, arrived, next) && t.stream != []
    ensures var c := t.stream[0];
      c.stage < |t.stages| && c.length <= |t.stages[c.stage].buffer| && Mapped(plan.device, c.pointer, c.length)
    ensures Inv(plan, target, Pop(plan, t), completed, arrived + 1, next)
  {
    hide FileRight, Harmless;
    var job, k := plan.jobs[arrived], Slot(arrived, plan.depth);
    assert t.stream[0] == Copy(k, job.pointer, job.length) && JobSound(plan, target, arrived);
    var t' := Pop(plan, t);
    WrittenPrefix(plan, target, arrived);
    forall i | completed <= i < next && i != arrived ensures Slot(i, plan.depth) != k {
      if i < arrived { SlotsDistinct(i, arrived, plan.depth); } else { SlotsDistinct(arrived, i, plan.depth); }
    }
    assert !t.stages[k].writing;
    FileKept(plan, target, t, t', completed);
  }

  lemma {:induction false} WrittenPrefix(plan: Plan, target: seq<Byte>, i: nat)
    requires i < |plan.jobs| && JobSound(plan, target, i)
    ensures var job := plan.jobs[i];
      Slice(target, job.offset, job.length) == Peek(plan.device, job.pointer, job.length)
  {
    var job := plan.jobs[i];
    assert Slice(target, job.offset, job.length) == Slice(target, job.offset, Stored(plan, i))[..job.length];
  }

  /** The file stays right when every outstanding write stays outstanding. */
  lemma {:induction false} FileStays(plan: Plan, target: seq<Byte>, t: Transport, t': Transport, completed: nat, completed': nat)
    requires Sized(plan, t) && Sized(plan, t') && FileRight(plan, target, t, completed) && t'.file == t.file
    requires forall i :: 0 <= i < |plan.jobs| && Outstanding(plan, t, completed, i) ==> Outstanding(plan, t', completed', i)
    ensures FileRight(plan, target, t', completed')
  {
    hide Outstanding, Harmless;
    forall x | 0 <= x < |target| && Pending(plan, t, completed, x) ensures Pending(plan, t', completed', x) {
      var i :| 0 <= i < |plan.jobs| && Outstanding(plan, t, completed, i)
        && plan.jobs[i].offset <= x < plan.jobs[i].offset + Stored(plan, i);
      assert Outstanding(plan, t', completed', i);
    }
  }

  lemma {:induction false} FileKept(plan: Plan, target: seq<Byte>, t: Transport, t': Transport, completed: nat)
    requires Sized(plan, t) && Sized(plan, t') && FileRight(plan, target, t, completed) && t'.file == t.file
    requires forall k :: 0 <= k < plan.depth && t.stages[k].writing ==> t'.stages[k].job == t.stages[k].job && t'.stages[k].writing
    ensures FileRight(plan, target, t', completed)
  {
    hide FileRight, Harmless;
    FileStays(plan, target, t, t', completed, completed);
  }

  /** A write puts the first `n` bytes of its stage into the file; it is finished if `n` is all. */
  function Write(plan: Plan, t: Transport, k: nat, n: nat): Transport
    requires Sized(plan, t) && k < |t.stages| && t.stages[k].job < |plan.jobs|
    requires n <= Stored(plan, t.stages[k].job) <= plan.chunk && InFile(t.file, plan.jobs[t.stages[k].job].offset, n)
  {
    t.(file := WriteAt(t.file, plan.jobs[t.stages[k].job].offset, t.stages[k].buffer[..n]),
       stages := t.stages[k := t.stages[k].(writing := n < Stored(plan, t.stages[k].job))])
  }

  lemma {:induction false} WriteSome(plan: Plan, target: seq<Byte>, t: Transport, completed: nat, arrived: nat, next: nat, k: nat, n: nat)
    requires Inv(plan, target, t, completed, arrived, next) && k < |t.stages| && t.stages[k].writing
    requires n <= Stored(plan, t.stages[k].job)
    ensures JobSound(plan, target, t.stages[k].job) && |t.file| == |target|
    ensures Inv(plan, target, Write(plan, t, k, n), completed, arrived, next)
  {
    hide FileRight, Harmless;
    var j := t.stages[k].job;
    FileLength(plan, target, t, completed);
    var t' := Write(plan, t, k, n);
    assert forall i :: completed <= i < next ==> Slot(i, plan.depth) != k;
    LoadedLess(plan, target, t, j, n);
    WriteRight(plan, target, t, completed, k, n);
  }

  lemma {:induction false} FileLength(plan: Plan, target: seq<Byte>, t: Transport, completed: nat)
    requires Sized(plan, t) && FileRight(plan, target, t, completed)
    ensures |t.file| == |target|
  {
  }

  lemma {:induction false} LoadedLess(plan: Plan, target: seq<Byte>, t: Transport, i: nat, n: nat)
    requires Sized(plan, t) && i < |plan.jobs| && n <= Stored(plan, i) && JobSound(plan, target, i)
    requires Loaded(plan, target, t, i, Stored(plan, i))
    ensures Loaded(plan, target, t, i, n)
  {
    hide Harmless;
    var buffer, offset := t.stages[Slot(i, plan.depth)].buffer, plan.jobs[i].offset;
    assert buffer[..n] == buffer[..Stored(plan, i)][..n];
    assert Slice(target, offset, n) == Slice(target, offset, Stored(plan, i))[..n];
  }

  lemma {:induction false} WriteRight(plan: Plan, target: seq<Byte>, t: Transport, completed: nat, k: nat, n: nat)
    requires Sized(plan, t) && FileRight(plan, target, t, completed) && k < |t.stages| && t.stages[k].job < |plan.jobs|
    requires JobSound(plan, target, t.stages[k].job) && n <= Stored(plan, t.stages[k].job)
    requires Slot(t.stages[k].job, plan.depth) == k && t.stages[k].writing && Loaded(plan, target, t, t.stages[k].job, n)
    ensures FileRight(plan, target, Write(plan, t, k, n), completed)
  {
    hide Harmless;
    var j := t.stages[k].job;
    var offset, t' := plan.jobs[j].offset, Write(plan, t, k, n);
    forall x | 0 <= x < |target| && Harmless(plan, target) ensures t'.file[x] == target[x] || Pending(plan, t', completed, x) {
      if offset <= x < offset + n {
        assert t.stages[k].buffer[..n][x - offset] == Slice(target, offset, n)[x - offset];
      } else if Pending(plan, t, completed, x) {
        var i :| 0 <= i < |plan.jobs| && Outstanding(plan, t, completed, i)
          && plan.jobs[i].offset <= x < plan.jobs[i].offset + Stored(plan, i);
        assert i == j ==> n < Stored(plan, j);
        assert Outstanding(plan, t', completed, i);
      }
    }
  }

  /** A read in flight puts a byte into its stage. */
  function Scribble(plan: Plan, t: Transport, k: nat, b: nat): Transport
    requires k < |t.stages| && b < |t.stages[k].buffer| && StrayByte(plan, k, b).Some?
  {
    t.(stages := t.stages[k := t.stages[k].(buffer := t.stages[k].buffer[b := StrayByte(plan, k, b).value])])
  }

  lemma {:induction false} StillLoaded(plan: Plan, target: seq<Byte>, t: Transport, i: nat, n: nat, k: nat, b: nat)
    requires Sized(plan, t) && i < |plan.jobs| && n <= Stored(plan, i) <= plan.chunk && InFile(target, plan.jobs[i].offset, Stored(plan, i))
    requires k < |t.stages| && b < |t.stages[k].buffer| && StrayByte(plan, k, b).Some?
    requires Loaded(plan, target, t, i, n)
    ensures Sized(plan, Scribble(plan, t, k, b)) && Loaded(plan, target, Scribble(plan, t, k, b), i, n)
  {
    var t' := Scribble(plan, t, k, b);
    if Harmless(plan, target) && Slot(i, plan.depth) == k && b < n {
      assert HarmlessByte(plan, target, i, b);
      var before, after := t.stages[k].buffer[..n], t'.stages[k].buffer[..n];
      assert before[b] == Slice(target, plan.jobs[i].offset, n)[b];
      assert after == before;
    } else if Slot(i, plan.depth) == k {
      assert b >= n ==> t'.stages[k].buffer[..n] == t.stages[k].buffer[..n];
    }
  }

  lemma {:induction false} ScribbleKeeps(plan: Plan, target: seq<Byte>, t: Transport, completed: nat, arrived: nat, next: nat, k: nat, b: nat)
    requires Inv(plan, target, t, completed, arrived, next)
    requires k < |t.stages| && b < |t.stages[k].buffer| && StrayByte(plan, k, b).Some?
    ensures Inv(plan, target, Scribble(plan, t, k, b), completed, arrived, next)
  {
    hide FileRight, Loaded, StrayByte, Slot, Slot4K;
    var t' := Scribble(plan, t, k, b);
    forall i | completed <= i < arrived ensures Loaded(plan, target, t', i, plan.jobs[i].length) {
      assert JobSound(plan, target, i);
      StoredFits(plan, i);
      StillLoaded(plan, target, t, i, plan.jobs[i].length, k, b);
    }
    forall l | 0 <= l < |t.stages| && t.stages[l].writing
      ensures Loaded(plan, target, t', t.stages[l].job, Stored(plan, t.stages[l].job))
    {
      StillLoaded(plan, target, t, t.stages[l].job, Stored(plan, t.stages[l].job), k, b);
    }
    FileKept(plan, target, t, t', completed);
  }

  lemma {:induction false} StoredFits(plan: Plan, i: nat)
    requires i < |plan.jobs|
    ensures plan.jobs[i].length <= Stored(plan, i)
  {
  }

  /**
    The condition is exact: a byte that a read in flight puts under a write ends up in the file,
    and it is the right one just if it is harmless.
   */
  lemma {:induction false} StrayExact(plan: Plan, target: seq<Byte>, t: Transport, completed: nat, arrived: nat, next: nat, k: nat, b: nat)
    requires Inv(plan, target, t, completed, arrived, next) && k < |t.stages| && t.stages[k].writing
    requires b < Stored(plan, t.stages[k].job) && StrayByte(plan, k, b).Some?
    ensures var i := t.stages[k].job;
      && JobSound(plan, target, i) && |t.file| == |target|
      && var file := Write(plan, Scribble(plan, t, k, b), k, Stored(plan, i)).file;
      file[plan.jobs[i].offset + b] == target[plan.jobs[i].offset + b] <==> HarmlessByte(plan, target, i, b)
  {
    hide StrayByte, Slot4K, Loaded;
    FileLength(plan, target, t, completed);
    var i, t' := t.stages[k].job, Scribble(plan, t, k, b);
    var offset, stored := plan.jobs[i].offset, Stored(plan, i);
    var bytes := t'.stages[k].buffer[..stored];
    assert WriteAt(t'.file, offset, bytes)[offset + b] == bytes[b];
  }

  // ---------------------------------------------------------------------------------------------
  // The host thread.

  /** Any number of queued copies run, any number of writes progress or finish, and reads in flight write. */
  method Environment(plan: Plan, ghost target: seq<Byte>, t: Transport, ghost completed: nat, ghost arrived: nat, ghost next: nat)
    returns (t': Transport, ghost arrived': nat)
    requires Inv(plan, target, t, completed, arrived, next)
    ensures Inv(plan, target, t', completed, arrived', next) && arrived <= arrived'
    ensures forall k :: 0 <= k < plan.depth ==> t'.stages[k].job == t.stages[k].job
    ensures forall k :: 0 <= k < plan.depth && !t.stages[k].writing ==> !t'.stages[k].writing
  {
    hide Loaded, Queued, FileRight, Pending, Harmless, StrayByte;
    t', arrived' := t, arrived;
    var steps: nat := *;
    while steps > 0
      invariant Inv(plan, target, t', completed, arrived', next) && arrived <= arrived'
      invariant forall k :: 0 <= k < plan.depth ==> t'.stages[k].job == t.stages[k].job
      invariant forall k :: 0 <= k < plan.depth && !t.stages[k].writing ==> !t'.stages[k].writing
    {
      if * {
        if t'.stream != [] {
          CopyDone(plan, target, t', completed, arrived', next);
          t', arrived' := Pop(plan, t'), arrived' + 1;
        }
      } else if * {
        var k: int, b: int := *, *;
        if 0 <= k < |t'.stages| && 0 <= b < |t'.stages[k].buffer| && StrayByte(plan, k, b).Some? {
          ScribbleKeeps(plan, target, t', completed, arrived', next, k, b);
          t' := Scribble(plan, t', k, b);
        }
      } else {
        var k: int, n: int := *, *;
        if 0 <= k < |t'.stages| && t'.stages[k].writing && 0 <= n <= Stored(plan, t'.stages[k].job) {
          WriteSome(plan, target, t', completed, arrived', next, k, n);
          t' := Write(plan, t', k, n);
        }
      }
      steps := steps - 1;
    }
  }

  /** `wait_write`: the write of stage `k`, if there is one, has finished. */
  method AwaitWrite(plan: Plan, ghost target: seq<Byte>, t: Transport, ghost completed: nat, ghost arrived: nat, ghost next: nat, k: nat)
    returns (t': Transport, ghost arrived': nat)
    requires Inv(plan, target, t, completed, arrived, next) && k < plan.depth
    ensures Inv(plan, target, t', completed, arrived', next) && arrived <= arrived'
    ensures !t'.stages[k].writing
    ensures forall l :: 0 <= l < plan.depth && !t.stages[l].writing ==> !t'.stages[l].writing
  {
    hide Loaded, Queued, FileRight, Pending, Harmless;
    t', arrived' := Environment(plan, target, t, completed, arrived, next);
    if t'.stages[k].writing {
      var n := Stored(plan, t'.stages[k].job);
      WriteSome(plan, target, t', completed, arrived', next, k, n);
      t' := Write(plan, t', k, n);
    }
  }

  /** `submit_copy`: queues the copy of job `next` into stage `k`. */
  method SubmitCopy(plan: Plan, ghost target: seq<Byte>, t: Transport, ghost completed: nat, ghost arrived: nat, next: nat, k: nat)
    returns (t': Transport)
    requires Inv(plan, target, t, completed, arrived, next)
    requires next < |plan.jobs| && next < completed + plan.depth && k == Slot(next, plan.depth) && !t.stages[k].writing
    ensures Inv(plan, target, t', completed, arrived, next + 1)
    ensures forall l :: 0 <= l < plan.depth ==> t'.stages[l].writing == t.stages[l].writing
  {
    hide FileRight, Harmless;
    var job := plan.jobs[next];
    t' := t.(stream := t.stream + [Copy(k, job.pointer, job.length)], stages := t.stages[k := t.stages[k].(job := next)]);
    forall i | completed <= i < next ensures Slot(i, plan.depth) != k {
      SlotsDistinct(i, next, plan.depth);
    }
    assert Queued(plan, t'.stream, arrived, next + 1);
    FileKept(plan, target, t, t', completed);
  }

  /** `cudaEventSynchronize`: the copy of the job at `completed` has run. */
  method AwaitCopy(plan: Plan, ghost target: seq<Byte>, t: Transport, completed: nat, ghost arrived: nat, next: nat)
    returns (t': Transport, ghost arrived': nat)
    requires Inv(plan, target, t, completed, arrived, next) && completed < next
    ensures Inv(plan, target, t', completed, arrived', next) && completed < arrived'
  {
    hide Loaded, FileRight, Pending, Harmless;
    t', arrived' := Environment(plan, target, t, completed, arrived, next);
    if |t'.stream| == next - completed {
      CopyDone(plan, target, t', completed, arrived', next);
      t', arrived' := Pop(plan, t'), arrived' + 1;
    }
  }

  /** `memset` of the padding and the start of the write. */
  method StartWrite(plan: Plan, ghost target: seq<Byte>, t: Transport, completed: nat, ghost arrived: nat, ghost next: nat, k: nat)
    returns (t': Transport)
    requires Inv(plan, target, t, completed, arrived, next) && completed < arrived && k == Slot(completed, plan.depth)
    ensures Inv(plan, target, t', completed + 1, arrived, next)
  {
    hide FileRight, Harmless;
    var job := plan.jobs[completed];
    var stage, stored := t.stages[k], Stored(plan, completed);
    assert JobSound(plan, target, completed) && Loaded(plan, target, t, completed, job.length);
    var bytes := stage.buffer[..job.length] + Zeros(stored - job.length) + stage.buffer[stored..];
    t' := t.(stages := t.stages[k := stage.(buffer := bytes, writing := true)]);
    WrittenPrefix(plan, target, completed);
    assert Harmless(plan, target) ==> t'.stages[k].buffer[..stored] == Written(plan.device, job, plan.padded);
    forall i | completed < i < next ensures Slot(i, plan.depth) != k {
      SlotsDistinct(completed, i, plan.depth);
    }
    WriteStarted(plan, target, t, t', completed);
  }

  lemma {:induction false} WriteStarted(plan: Plan, target: seq<Byte>, t: Transport, t': Transport, completed: nat)
    requires Sized(plan, t) && Sized(plan, t') && FileRight(plan, target, t, completed) && t'.file == t.file
    requires t'.stages[Slot(completed, plan.depth)].job == completed && t'.stages[Slot(completed, plan.depth)].writing
    requires forall k :: 0 <= k < plan.depth && t.stages[k].writing ==> t'.stages[k].job == t.stages[k].job && t'.stages[k].writing
    ensures FileRight(plan, target, t', completed + 1)
  {
    hide FileRight, Slot, Harmless;
    FileStays(plan, target, t, t', completed, completed + 1);
  }

  /** `update_zeros`: feeds `length` zeros in pieces of at most one page. */
  method FeedZeros<S>(step: (S, Byte) -> S, state: S, length: nat) returns (after: S)
    ensures after == Fold(step, state, Zeros(length))
  {
    after := state;
    var left := length;
    while left > 0
      invariant 0 <= left <= length
      invariant after == Fold(step, state, Zeros(length - left))
    {
      var count := if left < PAGE then left else PAGE;
      FoldConcat(step, state, Zeros(length - left), Zeros(count));
      assert Zeros(length - left) + Zeros(count) == Zeros(length - left + count);
      after := Fold(step, after, Zeros(count));
      left := left - count;
    }
  }

  // ---------------------------------------------------------------------------------------------
  // The whole capture.

  /** The digest of the file: if all bytes were right (`clean`), everything up to the end of the last handled job has been fed. */
  ghost predicate Hashed<S>(step: (S, Byte) -> S, init: S, target: seq<Byte>, jobs: seq<Job>, completed: nat, position: nat, sha: S, clean: bool) {
    && completed <= |jobs| && position <= |target|
    && position == (if completed == 0 then 0 else jobs[completed - 1].offset + jobs[completed - 1].length)
    && (clean ==> sha == Fold(step, init, target[..position]))
  }

  /** A valid request, its jobs and the file they must write. */
  ghost predicate Request(device: Memory, extents: seq<Extent>, padded: bool, chunk: nat, target: seq<Byte>, jobs: seq<Job>) {
    && chunk > 0 && chunk % PAGE == 0
    && extents != [] && ValidCapture(extents, padded) && AllMapped(device, extents)
    && jobs == JobsOf(extents, chunk) && target == Target(device, extents, FileBytes(extents, padded))
  }

  lemma {:induction false} RequestJobs(device: Memory, extents: seq<Extent>, padded: bool, chunk: nat, target: seq<Byte>, jobs: seq<Job>)
    requires Request(device, extents, padded, chunk, target, jobs)
    ensures jobs != [] && InSequence(extents, |extents|, jobs)
    ensures forall i :: 0 <= i < |jobs| ==> Cut(extents, chunk, jobs[i]) && PageCut(extents, jobs[i])
  {
    assert extents[..|extents|] == extents;
    JobsCut(extents, |extents|, chunk);
    JobsPageCut(extents, |extents|, chunk);
    JobsInSequence(extents, |extents|, chunk);
  }

  lemma {:induction false} RequestSound(plan: Plan, extents: seq<Extent>, target: seq<Byte>)
    requires plan.depth > 0 && |plan.open| == plan.depth && Request(plan.device, extents, plan.padded, plan.chunk, target, plan.jobs)
    ensures Sound(plan, target)
  {
    RequestJobs(plan.device, extents, plan.padded, plan.chunk, target, plan.jobs);
    forall i | 0 <= i < |plan.jobs| ensures JobSound(plan, target, i) {
      JobTarget(plan.device, extents, plan.padded, plan.chunk, plan.jobs[i]);
      SlotInside(extents, plan.chunk, plan.jobs[i], plan.padded);
    }
  }

  /** The zeroed file is right where no job will write. */
  lemma {:induction false} Start(plan: Plan, extents: seq<Extent>, target: seq<Byte>, t: Transport)
    requires plan.depth > 0 && |plan.open| == plan.depth && Request(plan.device, extents, plan.padded, plan.chunk, target, plan.jobs)
    requires |t.stages| == plan.depth && t.stream == [] && t.file == Zeros(|target|)
    requires forall k :: 0 <= k < plan.depth ==> |t.stages[k].buffer| == plan.chunk && !t.stages[k].writing
    ensures Inv(plan, target, t, 0, 0, 0)
  {
    hide JobsOf, Target, Harmless;
    RequestSound(plan, extents, target);
    forall x | 0 <= x < |target| ensures t.file[x] == target[x] || Pending(plan, t, 0, x) {
      if forall i :: 0 <= i < |extents| ==> !Holds(extents[i], x) {
        TargetHolding(plan.device, extents, plan.padded);
      } else {
        var i :| 0 <= i < |extents| && Holds(extents[i], x);
        var j := JobAt(extents, plan.chunk, i, x);
        assert Outstanding(plan, t, 0, j);
      }
    }
  }

  /** The bytes between the last handled job and the next one are zeros. */
  lemma {:induction false} GapZeros(device: Memory, extents: seq<Extent>, padded: bool, chunk: nat, target: seq<Byte>, jobs: seq<Job>, i: nat, position: nat)
    requires Request(device, extents, padded, chunk, target, jobs) && i < |jobs|
    requires position == if i == 0 then 0 else jobs[i - 1].offset + jobs[i - 1].length
    ensures position <= jobs[i].offset <= jobs[i].offset + jobs[i].length <= |target|
    ensures target[position..jobs[i].offset] == Zeros(jobs[i].offset - position)
  {
    hide JobsOf, Target;
    RequestJobs(device, extents, padded, chunk, target, jobs);
    JobTarget(device, extents, padded, chunk, jobs[i]);
    TargetHolding(device, extents, padded);
    if i > 0 { OrderedJobs(extents, padded, chunk, jobs[i - 1], jobs[i]); }
    forall x | position <= x < jobs[i].offset ensures target[x] == 0 {
      if i > 0 {
        GapFree(extents, padded, chunk, jobs[i - 1], jobs[i], x);
      } else {
        FirstFree(extents, padded, x);
      }
    }
  }

  lemma {:induction false} OrderedJobs(extents: seq<Extent>, padded: bool, chunk: nat, a: Job, b: Job)
    requires ValidCapture(extents, padded) && Cut(extents, chunk, a) && Cut(extents, chunk, b) && Consecutive(extents, a, b)
    ensures a.offset + a.length <= b.offset
  {
  }

  lemma {:induction false} FirstFree(extents: seq<Extent>, padded: bool, x: int)
    requires extents != [] && ValidCapture(extents, padded) && x < extents[0].offset
    ensures forall k :: 0 <= k < |extents| ==> !Holds(extents[k], x)
  {
  }

  /** After the last job only padding is left. */
  lemma {:induction false} TailZeros(device: Memory, extents: seq<Extent>, padded: bool, chunk: nat, target: seq<Byte>, jobs: seq<Job>)
    requires Request(device, extents, padded, chunk, target, jobs) && jobs != []
    ensures var last := jobs[|jobs| - 1];
      last.offset + last.length <= |target| && target[last.offset + last.length..] == Zeros(|target| - last.offset - last.length)
  {
    hide JobsOf, Target;
    RequestJobs(device, extents, padded, chunk, target, jobs);
    var last := jobs[|jobs| - 1];
    JobTarget(device, extents, padded, chunk, last);
    TargetHolding(device, extents, padded);
    forall x | last.offset + last.length <= x < |target| ensures target[x] == 0 {
      forall k | 0 <= k < |extents| ensures !Holds(extents[k], x) {
        assert k < last.extent ==> extents[k].offset + Slot4K(extents[k].length, padded) <= extents[last.extent].offset;
      }
    }
  }

  lemma {:induction false} HashNext<S>(step: (S, Byte) -> S, init: S, target: seq<Byte>, jobs: seq<Job>, completed: nat, position: nat, sha: S, bytes: seq<Byte>, clean: bool)
    requires Hashed(step, init, target, jobs, completed, position, sha, clean) && completed < |jobs|
    requires position <= jobs[completed].offset <= jobs[completed].offset + jobs[completed].length <= |target|
    requires target[position..jobs[completed].offset] == Zeros(jobs[completed].offset - position)
    requires clean ==> bytes == Slice(target, jobs[completed].offset, jobs[completed].length)
    ensures var job := jobs[completed];
      Hashed(step, init, target, jobs, completed + 1, job.offset + job.length,
             Fold(step, Fold(step, sha, Zeros(job.offset - position)), bytes), clean)
  {
    var job := jobs[completed];
    FoldConcat(step, init, target[..position], Zeros(job.offset - position));
    assert target[..position] + target[position..job.offset] == target[..job.offset];
    FoldConcat(step, init, target[..job.offset], Slice(target, job.offset, job.length));
    assert target[..job.offset] + Slice(target, job.offset, job.length) == target[..job.offset + job.length];
  }

  lemma {:induction false} HashEnd<S>(step: (S, Byte) -> S, init: S, target: seq<Byte>, jobs: seq<Job>, position: nat, sha: S)
    requires Hashed(step, init, target, jobs, |jobs|, position, sha, true)
    requires target[position..] == Zeros(|target| - position)
    ensures Fold(step, sha, Zeros(|target| - position)) == Fold(step, init, target)
  {
    FoldConcat(step, init, target[..position], Zeros(|target| - position));
    assert target[..position] + target[position..] == target;
  }

  lemma {:induction false} HashStart<S>(step: (S, Byte) -> S, init: S, target: seq<Byte>, jobs: seq<Job>, clean: bool)
    ensures Hashed(step, init, target, jobs, 0, 0, init, clean)
  {
  }

  lemma {:induction false} StageBytes(plan: Plan, target: seq<Byte>, t: Transport, completed: nat, arrived: nat, next: nat)
    requires Inv(plan, target, t, completed, arrived, next) && completed < arrived
    ensures |t.stages| == plan.depth && var stage, job := t.stages[Slot(completed, plan.depth)], plan.jobs[completed];
      && stage.job == completed && job.length <= |stage.buffer| && InFile(target, job.offset, job.length)
      && (Harmless(plan, target) ==> stage.buffer[..job.length] == Slice(target, job.offset, job.length))
  {
    hide Harmless;
    assert JobSound(plan, target, completed) && Loaded(plan, target, t, completed, plan.jobs[completed].length);
  }

  /** When all jobs are handed over and no stage is writing, the file is the target, unless a read in flight spoils it. */
  lemma {:induction false} AllWritten(plan: Plan, target: seq<Byte>, t: Transport, arrived: nat, next: nat)
    requires Inv(plan, target, t, |plan.jobs|, arrived, next)
    requires forall k :: 0 <= k < plan.depth ==> !t.stages[k].writing
    ensures |t.file| == |target| && (Harmless(plan, target) ==> t.file == target)
  {
    hide Harmless;
  }

  lemma {:induction false} StagesShape(plan: Plan, target: seq<Byte>, t: Transport, completed: nat, arrived: nat, next: nat)
    requires Inv(plan, target, t, completed, arrived, next)
    ensures plan.depth > 0 && |t.stages| == plan.depth && arrived <= next
    ensures forall i :: completed <= i < next ==> !t.stages[Slot(i, plan.depth)].writing
  {
  }

  lemma {:induction false} CheckedSource<S>(step: (S, Byte) -> S, init: S, device: Memory, extents: seq<Extent>, padded: bool, chunk: nat,
                         target: seq<Byte>, jobs: seq<Job>, checks: seq<S>)
    requires Request(device, extents, padded, chunk, target, jobs) && |checks| == |extents|
    requires Checked(step, init, target, jobs, |jobs|, checks)
    ensures forall i :: 0 <= i < |extents| ==> checks[i] == Fold(step, init, Peek(device, extents[i].pointer, extents[i].length))
  {
    hide Checked, Target, JobsOf;
    TargetHolding(device, extents, padded);
    forall i | 0 <= i < |extents|
      ensures checks[i] == Fold(step, init, Peek(device, extents[i].pointer, extents[i].length))
    {
      CheckedExtent(step, init, target, extents, chunk, checks, i);
    }
  }

  /** Feeds the gap before job `completed` and the job itself to the digest of the file. */
  method FeedHash<S>(ghost clean: bool, ghost device: Memory, ghost extents: seq<Extent>, ghost padded: bool, ghost chunk: nat, ghost target: seq<Byte>,
                     jobs: seq<Job>, completed: nat, position: nat, sha: S, bytes: seq<Byte>, step: (S, Byte) -> S, ghost init: S)
    returns (sha': S)
    requires Request(device, extents, padded, chunk, target, jobs) && completed < |jobs|
    requires Hashed(step, init, target, jobs, completed, position, sha, clean)
    requires InFile(target, jobs[completed].offset, jobs[completed].length)
    requires clean ==> bytes == Slice(target, jobs[completed].offset, jobs[completed].length)
    ensures Hashed(step, init, target, jobs, completed + 1, jobs[completed].offset + jobs[completed].length, sha', clean)
  {
    hide Request, Fold;
    var job := jobs[completed];
    GapZeros(device, extents, padded, chunk, target, jobs, completed, position);
    assert position <= job.offset;  // "capture jobs are not ordered by file offset"
    HashNext(step, init, target, jobs, completed, position, sha, bytes, clean);
    sha' := FeedZeros(step, sha, job.offset - position);
    sha' := Fold(step, sha', bytes);
  }

  /** The first ring of copies. */
  method Prime(plan: Plan, ghost target: seq<Byte>, t: Transport) returns (t': Transport, ghost arrived: nat)
    requires Inv(plan, target, t, 0, 0, 0) && plan.depth <= |plan.jobs| && |t.stages| == plan.depth
    requires forall k :: 0 <= k < plan.depth ==> !t.stages[k].writing
    ensures Inv(plan, target, t', 0, arrived, plan.depth)
  {
    hide Inv;
    t', arrived := t, 0;
    for index := 0 to plan.depth
      invariant |t'.stages| == plan.depth
      invariant Inv(plan, target, t', 0, arrived, index)
      invariant forall k :: 0 <= k < plan.depth ==> !t'.stages[k].writing
    {
      t', arrived := AwaitWrite(plan, target, t', 0, arrived, index, index);
      t' := SubmitCopy(plan, target, t', 0, arrived, index, index);
      StagesShape(plan, target, t', 0, arrived, index + 1);
    }
  }

  /** The final loop: no stage is writing any more. */
  method DrainWrites(plan: Plan, ghost target: seq<Byte>, t: Transport, ghost completed: nat, ghost arrived: nat, ghost next: nat)
    returns (t': Transport, ghost arrived': nat)
    requires Inv(plan, target, t, completed, arrived, next)
    ensures Inv(plan, target, t', completed, arrived', next) && |t'.stages| == plan.depth
    ensures forall k :: 0 <= k < plan.depth ==> !t'.stages[k].writing
  {
    hide Inv;
    t', arrived' := t, arrived;
    StagesShape(plan, target, t', completed, arrived', next);
    for index := 0 to plan.depth
      invariant Inv(plan, target, t', completed, arrived', next) && |t'.stages| == plan.depth
      invariant forall k :: 0 <= k < index ==> !t'.stages[k].writing
    {
      t', arrived' := AwaitWrite(plan, target, t', completed, arrived', next, index);
      StagesShape(plan, target, t', completed, arrived', next);
    }
  }

  datatype Capture<S> = Capture(file: seq<Byte>, checks: seq<S>, sha: Option<S>)

  /** What a successful capture promises. */
  ghost predicate Captured<S>(device: Memory, extents: seq<Extent>, padded: bool, step: (S, Byte) -> S, init: S, c: Capture<S>)
    requires AllMapped(device, extents) && extents != []
  {
    && |c.file| == FileBytes(extents, padded)
    && Holding(c.file, device, extents)
    && |c.checks| == |extents|
    && (forall i :: 0 <= i < |extents| ==> c.checks[i] == Fold(step, init, Peek(device, extents[i].pointer, extents[i].length)))
    && (c.sha.Some? ==> c.sha.value == Fold(step, init, c.file))
  }

  /** The zeros after the last source, and the digest of the whole file. */
  method FinishHash<S>(ghost clean: bool, ghost device: Memory, extents: seq<Extent>, padded: bool, ghost chunk: nat, ghost target: seq<Byte>, ghost jobs: seq<Job>,
                       position: nat, sha: S, step: (S, Byte) -> S, ghost init: S)
    returns (whole: S)
    requires extents != [] && Request(device, extents, padded, chunk, target, jobs) && jobs != [] && |target| == FileBytes(extents, padded)
    requires Hashed(step, init, target, jobs, |jobs|, position, sha, clean)
    ensures clean ==> whole == Fold(step, init, target)
  {
    hide Request, Hashed, Fold, FileBytes;
    HashedPosition(step, init, target, jobs, |jobs|, position, sha, clean);
    TailZeros(device, extents, padded, chunk, target, jobs);
    if clean { HashEnd(step, init, target, jobs, position, sha); }
    whole := FeedZeros(step, sha, FileBytes(extents, padded) - position);
  }

  /** No read that was left in flight can spoil the capture. */
  ghost predicate Clean(device: Memory, extents: seq<Extent>, padded: bool, chunk: nat, queueDepth: nat, ring: HydrationPipeline.Ring)
    requires chunk > 0
  {
    extents != [] && AllMapped(device, extents) ==>
      Harmless(PlanOf(device, extents, padded, chunk, queueDepth, ring), Target(device, extents, FileBytes(extents, padded)))
  }

  /** No read in flight is harmless. */
  lemma {:induction false} QuietClean(device: Memory, extents: seq<Extent>, padded: bool, chunk: nat, queueDepth: nat, ring: HydrationPipeline.Ring)
    requires chunk > 0 && HydrationPipeline.Quiet(ring)
    ensures Clean(device, extents, padded, chunk, queueDepth, ring)
  {
    hide JobsOf, Target, FileBytes;
  }

  /** What a capture has whatever it holds. */
  predicate Formed<S>(extents: seq<Extent>, padded: bool, fileSha: bool, c: Capture<S>)
    requires extents != []
  {
    |c.file| == FileBytes(extents, padded) && |c.checks| == |extents| && c.sha.Some? == fileSha
  }

  /**
    However the copies and writes interleave, a valid request succeeds unless a call fails
    (`broken`): the two internal errors of the schedule cannot occur. If no read in flight can spoil
    it, it leaves a file that holds each source at its offset and zeros elsewhere; each extent
    checksum is that of its source and the file digest is that of the file.
   */
  method CaptureStaged<S>(device: Memory, extents: seq<Extent>, padded: bool, chunk: nat, queueDepth: nat, fileSha: bool,
                          step: (S, Byte) -> S, init: S, ring: HydrationPipeline.Ring, broken: bool)
    returns (r: Result<Capture<S>>)
    requires chunk > 0 && chunk % PAGE == 0 && queueDepth > 0 && AllMapped(device, extents)
    ensures r.Ok? <==> extents != [] && ValidCapture(extents, padded) && !broken
    ensures r.Ok? ==> Formed(extents, padded, fileSha, r.value)
    ensures r.Ok? && Clean(device, extents, padded, chunk, queueDepth, ring) ==> Captured(device, extents, padded, step, init, r.value)
  {
    hide Inv, Checked, Hashed, Request, JobsOf, Fold, Holding, ValidCapture, AllMapped, Target, Slice, FileBytes, Slot, InSequence, Consecutive, PageCut,
      Finishes, Captured, AllInFile, Harmless, HydrationPipeline.Outstanding;
    var valid := ValidateCapture(extents, padded);
    if !valid {
      return Err;
    }
    var jobs := MakeJobs(extents, chunk);
    ghost var target := Target(device, extents, FileBytes(extents, padded));
    assert Request(device, extents, padded, chunk, target, jobs) by { MakeRequest(device, extents, padded, chunk); }
    RequestJobs(device, extents, padded, chunk, target, jobs);
    var depth := if queueDepth < |jobs| then queueDepth else |jobs|;
    var plan := Plan(device, jobs, chunk, depth, padded, HydrationPipeline.Outstanding(ring, chunk, depth));
    assert plan == PlanOf(device, extents, padded, chunk, queueDepth, ring);
    ghost var clean := Harmless(plan, target);
    var idle := Stage(seq(chunk, _ => 0), 0, false);
    var t := Transport(seq(depth, _ => idle), [], Zeros(FileBytes(extents, padded)));
    Start(plan, extents, target, t);
    var checks := seq(|extents|, _ => init);
    CheckedStart(step, init, target, jobs, checks);
    var sha := init;
    HashStart(step, init, target, jobs, clean);
    var next: nat := 0;
    ghost var arrived: nat := 0;
    t, arrived := Prime(plan, target, t);
    next := depth;

    var position: nat := 0;
    var completed: nat := 0;
    while completed < |jobs|
      invariant completed <= |jobs| && |checks| == |extents|
      invariant next == if completed < depth then depth else completed
      invariant Inv(plan, target, t, completed, arrived, next)
      invariant clean ==> Checked(step, init, target, jobs, completed, checks)
      invariant fileSha ==> Hashed(step, init, target, jobs, completed, position, sha, clean)
    {
      var k := Slot(completed, depth);
      if completed >= depth {
        t, arrived := AwaitWrite(plan, target, t, completed, arrived, next, k);
        assert next < |jobs|;  // "capture staging schedule is inconsistent"
        t := SubmitCopy(plan, target, t, completed, arrived, next, k);
        next := next + 1;
      }
      var now: bool := *;
      if broken && now {
        return Err;  // a CUDA call or a write failed
      }
      t, arrived := AwaitCopy(plan, target, t, completed, arrived, next);
      StageBytes(plan, target, t, completed, arrived, next);
      var job := jobs[t.stages[k].job];
      var bytes := t.stages[k].buffer[..job.length];
      if clean { CheckedNext(step, init, target, jobs, completed, checks); }
      checks := checks[job.extent := Fold(step, checks[job.extent], bytes)];
      if fileSha {
        t, arrived := Environment(plan, target, t, completed, arrived, next);
        StageBytes(plan, target, t, completed, arrived, next);
        sha := FeedHash(clean, device, extents, padded, chunk, target, jobs, completed, position, sha, t.stages[k].buffer[..job.length], step, init);
        position := job.offset + job.length;
      }
      t := StartWrite(plan, target, t, completed, arrived, next, k);
      completed := completed + 1;
    }
    t, arrived := DrainWrites(plan, target, t, completed, arrived, next);
    AllWritten(plan, target, t, arrived, next);
    TargetHolding(device, extents, padded);
    if clean { CheckedSource(step, init, device, extents, padded, chunk, target, jobs, checks); }
    if fileSha {
      sha := FinishHash(clean, device, extents, padded, chunk, target, jobs, position, sha, step, init);
    }
    if broken {
      return Err;  // a CUDA call, a write or fdatasync failed
    }
    var c := Capture(t.file, checks, if fileSha then Some(sha) else None);
    if clean { CapturedEnd(device, extents, padded, step, init, c); }
    return Ok(c);
  }

  lemma {:induction false} CapturedEnd<S>(device: Memory, extents: seq<Extent>, padded: bool, step: (S, Byte) -> S, init: S, c: Capture<S>)
    requires extents != [] && AllMapped(device, extents) && |c.file| == FileBytes(extents, padded) && Holding(c.file, device, extents)
    requires |c.checks| == |extents|
    requires forall i :: 0 <= i < |extents| ==> c.checks[i] == Fold(step, init, Peek(device, extents[i].pointer, extents[i].length))
    requires c.sha.Some? ==> c.sha.value == Fold(step, init, c.file)
    ensures Captured(device, extents, padded, step, init, c)
  {
  }

  lemma {:induction false} MakeRequest(device: Memory, extents: seq<Extent>, padded: bool, chunk: nat)
    requires chunk > 0 && chunk % PAGE == 0 && extents != [] && ValidCapture(extents, padded) && AllMapped(device, extents)
    ensures Request(device, extents, padded, chunk, Target(device, extents, FileBytes(extents, padded)), JobsOf(extents, chunk))
  {
  }

  lemma {:induction false} HashedPosition<S>(step: (S, Byte) -> S, init: S, target: seq<Byte>, jobs: seq<Job>, completed: nat, position: nat, sha: S, clean: bool)
    requires Hashed(step, init, target, jobs, completed, position, sha, clean)
    ensures completed <= |jobs| && position <= |target|
    ensures position == if completed == 0 then 0 else jobs[completed - 1].offset + jobs[completed - 1].length
  {
  }
}
