/**
  `hydrate_staged`: a ring of pinned stages, asynchronous file reads into them, and asynchronous
  copies from them into device memory. The file reads and the CUDA stream run on their own: between
  any two steps of the host thread `Environment` performs an arbitrary number of their steps, so
  the proof covers every completion order. A copy takes the bytes its stage holds when the copy
  runs, not when it is queued.

  The ring outlives the call. A call that raises may leave reads and copies in flight, and the
  next call that finds the ring compatible starts its own read of a stage before it waits for
  the read that was left there, so that the bytes of both may mix.
 */
module HydrationPipeline {
  import opened Bytes
  import opened Jobs

  datatype Stage = Stage(buffer: seq<Byte>, job: nat, reading: bool)

  /** A queued host-to-device copy. */
  datatype Copy = Copy(stage: nat, pointer: int, length: nat)

  /** A read that was left in flight: what it reads, and from which file. */
  datatype Flight = Flight(file: seq<Byte>, offset: nat, length: nat)

  /** What a call leaves for the next one: the reads in flight, stage by stage, and the copies still queued. */
  datatype Ring = Ring(chunk: nat, open: seq<Option<Flight>>, copies: seq<Copy>)

  /**
    Which write to a byte of a stage is the last one: the new read, the read in flight, or the read
    in flight after its descriptor number was given to the file that is being read now.
   */
  datatype Winner = NewRead | OldRead | Reopened

  type Late = (int, int) -> Winner

  /** The same for a number of calls. */
  type Lates = nat -> Late

  /** `earlier` are the copies left by the previous call; `base` is the memory below the copies of this one. */
  datatype Transport = Transport(stages: seq<Stage>, earlier: seq<Copy>, stream: seq<Copy>, device: Memory, base: Memory)

  datatype Plan = Plan(file: seq<Byte>, jobs: seq<Job>, chunk: nat, depth: nat, start: Memory, left: seq<Copy>, open: seq<Option<Flight>>, late: Late)

  predicate NoneOpen(open: seq<Option<Flight>>) { forall k :: 0 <= k < |open| ==> open[k].None? }

  /** Nothing is in flight. */
  predicate Idle(ring: Ring) { NoneOpen(ring.open) && ring.copies == [] }

  predicate Compatible(ring: Ring, chunk: nat, depth: nat) { ring.chunk == chunk && depth <= |ring.open| }

  /** The reads in flight in the stages of this call; the ring that replaces an incompatible one waits for them. */
  function Outstanding(ring: Ring, chunk: nat, depth: nat): (open: seq<Option<Flight>>)
    ensures |open| == depth && (Idle(ring) ==> NoneOpen(open))
  {
    if Compatible(ring, chunk, depth) then ring.open[..depth] else seq(depth, _ => None)
  }

  /** The flags of the stages that this call does not use. */
  function Spare(ring: Ring, chunk: nat, depth: nat): (open: seq<Option<Flight>>)
    ensures Idle(ring) ==> NoneOpen(open)
  {
    if Compatible(ring, chunk, depth) then ring.open[depth..] else []
  }

  function PlanOf(file: seq<Byte>, extents: seq<Extent>, chunk: nat, queueDepth: nat, start: Memory, ring: Ring, late: Late): Plan
    requires chunk > 0
  {
    var jobs := JobsOf(extents, chunk);
    var depth := if queueDepth < |jobs| then queueDepth else |jobs|;
    Plan(file, jobs, chunk, depth, start, ring.copies, Outstanding(ring, chunk, depth), late)
  }

  // ---------------------------------------------------------------------------------------------
  // The bytes that land in a stage.

  predicate Readable(plan: Plan, i: nat)
    requires i < |plan.jobs|
  {
    InFile(plan.file, plan.jobs[i].offset, plan.jobs[i].length)
  }

  predicate ReadableTo(plan: Plan, n: nat) { n <= |plan.jobs| && forall i :: 0 <= i < n ==> Readable(plan, i) }

  function JobSlice(plan: Plan, i: nat): (bytes: seq<Byte>)
    requires i < |plan.jobs| && Readable(plan, i)
    ensures |bytes| == plan.jobs[i].length
  {
    Slice(plan.file, plan.jobs[i].offset, plan.jobs[i].length)
  }

  /** The byte that a read in flight puts over byte `b` of its stage, if it is the last to write it. */
  function Stray(f: Flight, file: seq<Byte>, w: Winner, b: nat): Option<Byte> {
    match w
    case NewRead => None
    case OldRead => if b < f.length && f.offset + b < |f.file| then Some(f.file[f.offset + b]) else None
    case Reopened => if b < f.length && f.offset + b < |file| then Some(file[f.offset + b]) else None
  }

  /** A byte of a stage, given the right one. */
  function Settled(f: Flight, file: seq<Byte>, w: Winner, b: nat, right: Byte): Byte {
    var stray := Stray(f, file, w, b);
    if stray.Some? then stray.value else right
  }

  /** The bytes of the job, except where a read in flight writes later. */
  function Landed(plan: Plan, i: nat): (bytes: seq<Byte>)
    requires i < |plan.jobs| && Readable(plan, i)
    ensures |bytes| == plan.jobs[i].length
  {
    var right := JobSlice(plan, i);
    if i < |plan.open| && plan.open[i].Some? then
      seq<Byte>(|right|, b requires 0 <= b < |right| => Settled(plan.open[i].value, plan.file, plan.late(i, b), b, right[b]))
    else right
  }

  function CopyLanded(plan: Plan, base: Memory, n: nat): Memory
    requires ReadableTo(plan, n)
  {
    if n == 0 then base else Poke(CopyLanded(plan, base, n - 1), plan.jobs[n - 1].pointer, Landed(plan, n - 1))
  }

  /** What the checksum of an extent is fed. */
  function FedLanded(plan: Plan, n: nat, extent: nat): seq<Byte>
    requires ReadableTo(plan, n)
  {
    if n == 0 then [] else FedLanded(plan, n - 1, extent) + if plan.jobs[n - 1].extent == extent then Landed(plan, n - 1) else []
  }

  ghost predicate CheckedLanded<S>(step: (S, Byte) -> S, init: S, plan: Plan, completed: nat, checks: seq<S>) {
    ReadableTo(plan, completed) && forall e :: 0 <= e < |checks| ==> checks[e] == Fold(step, init, FedLanded(plan, completed, e))
  }

  lemma {:induction false} CheckedNextLanded<S>(step: (S, Byte) -> S, init: S, plan: Plan, completed: nat, checks: seq<S>)
    requires CheckedLanded(step, init, plan, completed, checks) && completed < |plan.jobs|
    requires plan.jobs[completed].extent < |checks| && Readable(plan, completed)
    ensures var e := plan.jobs[completed].extent;
      CheckedLanded(step, init, plan, completed + 1, checks[e := Fold(step, checks[e], Landed(plan, completed))])
  {
    hide Landed;
    var job := plan.jobs[completed];
    forall e | 0 <= e < |checks|
      ensures Fold(step, init, FedLanded(plan, completed + 1, e))
           == if e == job.extent then Fold(step, checks[e], Landed(plan, completed)) else checks[e]
    {
      var before := FedLanded(plan, completed, e);
      if e == job.extent { FoldConcat(step, init, before, Landed(plan, completed)); }
      assert before + [] == before;
    }
  }

  // ---------------------------------------------------------------------------------------------
  // The invariant.

  predicate Sized(plan: Plan, t: Transport) {
    && plan.depth > 0 && |t.stages| == plan.depth
    && (forall k :: 0 <= k < |t.stages| ==> |t.stages[k].buffer| == plan.chunk)
    && (forall i :: 0 <= i < |plan.jobs| ==> plan.jobs[i].length <= plan.chunk)
  }

  /** Stage `Slot(i)` holds what landed for job `i`. */
  predicate Filled(plan: Plan, t: Transport, i: nat)
    requires Sized(plan, t) && i < |plan.jobs|
  {
    var stage, job := t.stages[Slot(i, plan.depth)], plan.jobs[i];
    !stage.reading && Readable(plan, i) && stage.buffer[..job.length] == Landed(plan, i)
  }

  /**
    Of the jobs, `executed` have reached the device, `completed` have been queued by the host and
    `next` have been handed to a stage. The window from `executed` to `next` fits the ring: this is
    what waiting for the copy before refilling its stage keeps true.
   */
  ghost predicate Inv(plan: Plan, t: Transport, executed: nat, completed: nat, next: nat) {
    && Sized(plan, t)
    && executed <= completed <= next <= |plan.jobs|
    && next <= executed + plan.depth
    && (forall i :: executed <= i < next ==> t.stages[Slot(i, plan.depth)].job == i)
    && (forall i :: executed <= i < next ==> i < completed || !t.stages[Slot(i, plan.depth)].reading ==> Filled(plan, t, i))
    && (forall k :: 0 <= k < |t.stages| && t.stages[k].reading ==>
          completed <= t.stages[k].job < next && Slot(t.stages[k].job, plan.depth) == k)
    && Queued(plan, t.stream, executed, completed)
    && Under(plan, t, executed)
    && ReadableTo(plan, executed) && t.device == CopyLanded(plan, t.base, executed)
  }

  /** The stream holds exactly the copies of the jobs from `executed` to `completed`, in order. */
  predicate Queued(plan: Plan, stream: seq<Copy>, executed: nat, completed: nat)
    requires executed <= completed <= |plan.jobs| && plan.depth > 0
  {
    && |stream| == completed - executed
    && (forall k :: 0 <= k < |stream| ==>
          stream[k] == Copy(Slot(executed + k, plan.depth), plan.jobs[executed + k].pointer, plan.jobs[executed + k].length))
  }

  /** The copies left by the previous call run first, and change no byte outside their destinations. */
  ghost predicate Under(plan: Plan, t: Transport, executed: nat) {
    && (t.earlier != [] ==> executed == 0)
    && (forall c :: c in t.earlier ==> c in plan.left)
    && Outside(plan.left, plan.start, t.base)
  }

  predicate Reaches(c: Copy, x: int) { c.pointer <= x < c.pointer + c.length }

  /** The memories differ only where one of the copies writes. */
  ghost predicate Outside(copies: seq<Copy>, before: Memory, after: Memory) {
    && after.Keys == before.Keys
    && forall x :: x in before && (forall c :: c in copies ==> !Reaches(c, x)) ==> after[x] == before[x]
  }

  // ---------------------------------------------------------------------------------------------
  // Steps of the environment.

  function SetBuffer(t: Transport, k: nat, bytes: seq<Byte>, reading: bool): Transport
    requires k < |t.stages|
  {
    t.(stages := t.stages[k := t.stages[k].(buffer := bytes, reading := reading)])
  }

  lemma {:induction false} ReadProgress(plan: Plan, t: Transport, executed: nat, completed: nat, next: nat, k: nat, bytes: seq<Byte>)
    requires Inv(plan, t, executed, completed, next) && k < |t.stages| && t.stages[k].reading && |bytes| == plan.chunk
    ensures Inv(plan, SetBuffer(t, k, bytes, true), executed, completed, next)
  {
    hide Landed, CopyLanded, Readable, Under, ReadableTo;
    var t' := SetBuffer(t, k, bytes, true);
    forall i | executed <= i < next ensures i < completed || !t'.stages[Slot(i, plan.depth)].reading ==> Filled(plan, t', i) {
      assert Slot(i, plan.depth) == k ==> t.stages[k].job == i;
    }
    UnderSame(plan, t, t', executed);
  }

  lemma {:induction false} UnderSame(plan: Plan, t: Transport, t': Transport, executed: nat)
    requires Under(plan, t, executed) && t'.earlier == t.earlier && t'.base == t.base
    ensures Under(plan, t', executed)
  {
  }

  /** The buffer after the read of job `i`: what landed, and the old rest. */
  function AfterRead(plan: Plan, buffer: seq<Byte>, i: nat): (b: seq<Byte>)
    requires i < |plan.jobs| && plan.jobs[i].length <= plan.chunk == |buffer| && Readable(plan, i)
    ensures |b| == plan.chunk
  {
    Landed(plan, i) + buffer[plan.jobs[i].length..]
  }

  lemma {:induction false} ReadDone(plan: Plan, t: Transport, executed: nat, completed: nat, next: nat, k: nat)
    requires Inv(plan, t, executed, completed, next) && k < |t.stages| && t.stages[k].reading && Readable(plan, t.stages[k].job)
    ensures Inv(plan, SetBuffer(t, k, AfterRead(plan, t.stages[k].buffer, t.stages[k].job), false), executed, completed, next)
  {
    hide Landed, CopyLanded, Readable, Under, ReadableTo;
    var j := t.stages[k].job;
    var t' := SetBuffer(t, k, AfterRead(plan, t.stages[k].buffer, j), false);
    assert t'.stages[k].buffer[..plan.jobs[j].length] == Landed(plan, j);
    forall i | executed <= i < next ensures i < completed || !t'.stages[Slot(i, plan.depth)].reading ==> Filled(plan, t', i) {
      if Slot(i, plan.depth) == k {
        assert i == j;
      }
    }
    UnderSame(plan, t, t', executed);
  }

  /** Runs the copy at the head of the stream; nothing of the previous call is before it. */
  function Pop(t: Transport): Transport
    requires t.stream != [] && t.stream[0].stage < |t.stages|
    requires t.stream[0].length <= |t.stages[t.stream[0].stage].buffer|
  {
    var copy := t.stream[0];
    t.(stream := t.stream[1..], device := Poke(t.device, copy.pointer, t.stages[copy.stage].buffer[..copy.length]))
  }

  lemma {:induction false} CopyDone(plan: Plan, t: Transport, executed: nat, completed: nat, next: nat)
    requires Inv(plan, t, executed, completed, next) && t.earlier == [] && t.stream != []
    ensures t.stream[0].stage < |t.stages| && t.stream[0].length <= |t.stages[t.stream[0].stage].buffer|
    ensures Inv(plan, Pop(t), executed + 1, completed, next)
  {
    hide Poke, Landed, Readable, Outside;
    assert executed < completed && Filled(plan, t, executed);
    assert t.stream[0] == Copy(Slot(executed, plan.depth), plan.jobs[executed].pointer, plan.jobs[executed].length);
    var t' := Pop(t);
    assert forall i :: executed <= i < next ==> (Filled(plan, t', i) <==> Filled(plan, t, i));
  }

  /** Runs a copy left by the previous call, with whatever its stage holds by now. */
  function PopOld(t: Transport, bytes: seq<Byte>): Transport
    requires t.earlier != [] && |bytes| == t.earlier[0].length
  {
    var copy := t.earlier[0];
    t.(earlier := t.earlier[1..], device := Poke(t.device, copy.pointer, bytes), base := Poke(t.base, copy.pointer, bytes))
  }

  lemma {:induction false} OldDone(plan: Plan, t: Transport, executed: nat, completed: nat, next: nat, bytes: seq<Byte>)
    requires Inv(plan, t, executed, completed, next) && t.earlier != [] && |bytes| == t.earlier[0].length
    ensures Inv(plan, PopOld(t, bytes), executed, completed, next)
  {
    hide Landed, Readable, Outside;
    var t' := PopOld(t, bytes);
    assert t'.device == CopyLanded(plan, t'.base, 0);
    assert forall i :: executed <= i < next ==> (Filled(plan, t', i) <==> Filled(plan, t, i));
    OutsidePoke(plan.left, plan.start, t.base, t.earlier[0], bytes);
    assert forall c :: c in t'.earlier ==> c in t.earlier;
  }

  lemma {:induction false} OutsidePoke(copies: seq<Copy>, before: Memory, after: Memory, c: Copy, bytes: seq<Byte>)
    requires Outside(copies, before, after) && c in copies && |bytes| == c.length
    ensures Outside(copies, before, Poke(after, c.pointer, bytes))
  {
    forall x | x in before && (forall d :: d in copies ==> !Reaches(d, x)) ensures Poke(after, c.pointer, bytes)[x] == before[x] {
      assert !Reaches(c, x);
    }
  }

  // ---------------------------------------------------------------------------------------------
  // The host thread.

  /** Any number of reads progress or finish and any number of queued copies run. */
  method Environment(plan: Plan, t: Transport, ghost executed: nat, ghost completed: nat, ghost next: nat)
    returns (t': Transport, ghost executed': nat)
    requires Inv(plan, t, executed, completed, next)
    ensures Inv(plan, t', executed', completed, next) && executed <= executed'
    ensures forall k :: 0 <= k < plan.depth && !t.stages[k].reading ==> !t'.stages[k].reading && t'.stages[k] == t.stages[k]
    ensures forall k :: 0 <= k < plan.depth ==> t'.stages[k].job == t.stages[k].job
  {
    hide Filled, Queued, ReadableTo, CopyLanded, Landed, Under;
    t', executed' := t, executed;
    var steps: nat := *;
    while steps > 0
      invariant Inv(plan, t', executed', completed, next) && executed <= executed'
      invariant forall k :: 0 <= k < plan.depth && !t.stages[k].reading ==> !t'.stages[k].reading && t'.stages[k] == t.stages[k]
      invariant forall k :: 0 <= k < plan.depth ==> t'.stages[k].job == t.stages[k].job
    {
      if * {
        var k: int := *;
        if 0 <= k < |t'.stages| && t'.stages[k].reading {
          if * {
            var bytes: seq<Byte> := *;
            if |bytes| == plan.chunk {
              ReadProgress(plan, t', executed', completed, next, k, bytes);
              t' := SetBuffer(t', k, bytes, true);
            }
          } else if Readable(plan, t'.stages[k].job) {
            ReadDone(plan, t', executed', completed, next, k);
            t' := SetBuffer(t', k, AfterRead(plan, t'.stages[k].buffer, t'.stages[k].job), false);
          }
        }
      } else if t'.earlier != [] {
        var bytes: seq<Byte> := *;
        if |bytes| == t'.earlier[0].length {
          OldDone(plan, t', executed', completed, next, bytes);
          t' := PopOld(t', bytes);
        }
      } else if t'.stream != [] {
        CopyDone(plan, t', executed', completed, next);
        t', executed' := Pop(t'), executed' + 1;
      }
      steps := steps - 1;
    }
  }

  /** `stage.read.get()`: the read has finished, or it failed; it always fails if the file is too short, otherwise only if something is broken. */
  method AwaitRead(plan: Plan, t: Transport, ghost executed: nat, ghost completed: nat, ghost next: nat, k: nat, broken: bool)
    returns (ok: bool, t': Transport, ghost executed': nat)
    requires Inv(plan, t, executed, completed, next) && completed < next && k == Slot(completed, plan.depth)
    ensures Inv(plan, t', executed', completed, next)
    ensures ok ==> Filled(plan, t', completed)
    ensures !ok ==> broken || !Readable(plan, completed)
  {
    hide Landed, Readable, Under, CopyLanded, ReadableTo;
    t', executed' := Environment(plan, t, executed, completed, next);
    assert t'.stages[k].job == completed;
    if t'.stages[k].reading {
      var now: bool := *;
      if (broken && now) || !Readable(plan, t'.stages[k].job) {
        return false, t', executed';
      }
      ReadDone(plan, t', executed', completed, next, k);
      t' := SetBuffer(t', k, AfterRead(plan, t'.stages[k].buffer, t'.stages[k].job), false);
    }
    ok := true;
  }

  /** `cudaMemcpyAsync`: queues the copy of the job in stage `k`. */
  method Enqueue(plan: Plan, t: Transport, ghost executed: nat, ghost completed: nat, ghost next: nat, k: nat)
    returns (t': Transport)
    requires Inv(plan, t, executed, completed, next) && completed < next && k == Slot(completed, plan.depth)
    requires Filled(plan, t, completed)
    ensures Inv(plan, t', executed, completed + 1, next)
  {
    hide ReadableTo, CopyLanded, Landed, Readable, Under;
    assert t.stages[k].job == completed;
    var job := plan.jobs[t.stages[k].job];
    t' := t.(stream := t.stream + [Copy(k, job.pointer, job.length)]);
    assert forall i :: executed <= i < next ==> (Filled(plan, t', i) <==> Filled(plan, t, i));
    assert Queued(plan, t'.stream, executed, completed + 1);
    UnderSame(plan, t, t', executed);
  }

  /** `cudaEventSynchronize` right after the record, and `cudaStreamSynchronize`: the stream runs dry. */
  method Drain(plan: Plan, t: Transport, ghost executed: nat, ghost completed: nat, ghost next: nat)
    returns (t': Transport)
    requires Inv(plan, t, executed, completed, next)
    ensures Inv(plan, t', completed, completed, next) && t'.earlier == [] && t'.stream == []
    ensures |t'.stages| == |t.stages| && forall k :: 0 <= k < |t.stages| && !t.stages[k].reading ==> !t'.stages[k].reading
  {
    hide ReadableTo, CopyLanded, Landed, Filled, Under;
    ghost var done: nat;
    t', done := Environment(plan, t, executed, completed, next);
    while t'.earlier != []
      invariant Inv(plan, t', done, completed, next)
      invariant |t'.stages| == |t.stages| && forall k :: 0 <= k < |t.stages| && !t.stages[k].reading ==> !t'.stages[k].reading
      decreases |t'.earlier|
    {
      var bytes: seq<Byte> := *;
      if |bytes| != t'.earlier[0].length {
        bytes := Zeros(t'.earlier[0].length);
      }
      OldDone(plan, t', done, completed, next, bytes);
      t' := PopOld(t', bytes);
    }
    while t'.stream != []
      invariant Inv(plan, t', done, completed, next) && t'.earlier == []
      invariant |t'.stages| == |t.stages| && forall k :: 0 <= k < |t.stages| && !t.stages[k].reading ==> !t'.stages[k].reading
      decreases |t'.stream|
    {
      CopyDone(plan, t', done, completed, next);
      t', done := Pop(t'), done + 1;
    }
  }

  /** `submit`: stage `k` starts to read job `next`; a read left there by the previous call has ended when it returns. */
  method Submit(plan: Plan, t: Transport, ghost executed: nat, ghost completed: nat, next: nat, k: nat)
    returns (t': Transport)
    requires Inv(plan, t, executed, completed, next) && next < |plan.jobs| && next < executed + plan.depth
    requires k == Slot(next, plan.depth)
    ensures Inv(plan, t', executed, completed, next + 1)
    ensures t' == t.(stages := t.stages[k := t.stages[k].(job := next, reading := true)])
  {
    hide ReadableTo, CopyLanded, Landed, Readable, Under;
    t' := t.(stages := t.stages[k := t.stages[k].(job := next, reading := true)]);
    forall i | executed <= i < next ensures Slot(i, plan.depth) != k {
      SlotsDistinct(i, next, plan.depth);
    }
    assert forall i :: executed <= i < next ==> t'.stages[Slot(i, plan.depth)] == t.stages[Slot(i, plan.depth)];
    assert forall i :: executed <= i < next ==> (Filled(plan, t', i) <==> Filled(plan, t, i));
    assert forall k' :: 0 <= k' < plan.depth && k' != k ==> t'.stages[k'] == t.stages[k'];
    UnderSame(plan, t, t', executed);
  }

  /** The read of job `j`, as the next call finds it. */
  function FlightOf(plan: Plan, j: nat): Flight
    requires j < |plan.jobs|
  {
    Flight(plan.file, plan.jobs[j].offset, plan.jobs[j].length)
  }

  function InFlight(plan: Plan, stage: Stage): Option<Flight> {
    if stage.reading && stage.job < |plan.jobs| then Some(FlightOf(plan, stage.job)) else None
  }

  /** What is in flight when the call ends: the reads of its stages, and the copies of its stream. */
  function RingLeft(ring: Ring, plan: Plan, t: Transport): (left: Ring)
    ensures left.chunk == plan.chunk && |left.open| >= |t.stages|
  {
    Ring(plan.chunk, seq(|t.stages|, k requires 0 <= k < |t.stages| => InFlight(plan, t.stages[k])) + Spare(ring, plan.chunk, |t.stages|),
         t.earlier + t.stream)
  }

  /** The future of stage `k` has been asked for its result. */
  function Consumed(t: Transport, k: nat): Transport
    requires k < |t.stages|
  {
    t.(stages := t.stages[k := t.stages[k].(reading := false)])
  }

  /** The ring that a failing call hands on is exactly what it had in flight. */
  ghost predicate Leaves(plan: Plan, ring: Ring, ring': Ring, t: Transport) {
    exists executed, completed, next :: Inv(plan, t, executed, completed, next) &&
      (ring' == RingLeft(ring, plan, t)
       || (completed < next && ring' == RingLeft(ring, plan, Consumed(t, Slot(completed, plan.depth)))))
  }

  /** A call that succeeds hands on its stages idle, and those it did not use as they were. */
  predicate Handed(ring: Ring, ring': Ring, chunk: nat, depth: nat) {
    && ring'.chunk == chunk && depth <= |ring'.open| && NoneOpen(ring'.open[..depth])
    && ring'.open[depth..] == Spare(ring, chunk, depth) && ring'.copies == []
  }

  /** Every requested checksum is the checksum of what landed for its extent. */
  ghost predicate Passed<S>(step: (S, Byte) -> S, init: S, plan: Plan, expected: seq<Option<S>>) {
    ReadableTo(plan, |plan.jobs|) && forall i :: 0 <= i < |expected| && expected[i].Some? ==>
      Fold(step, init, FedLanded(plan, |plan.jobs|, i)) == expected[i].value
  }

  /** The first read of every stage. */
  method Prime(plan: Plan, t: Transport) returns (t': Transport)
    requires Inv(plan, t, 0, 0, 0) && plan.depth <= |plan.jobs|
    ensures Inv(plan, t', 0, 0, plan.depth)
  {
    hide Inv;
    t' := t;
    for index := 0 to plan.depth
      invariant Inv(plan, t', 0, 0, index)
    {
      t' := Submit(plan, t', 0, 0, index, index);
    }
  }

  /** One round of the loop: takes the read of job `completed`, queues its copy, and refills its stage when the copy is done. */
  method Round<S(==)>(plan: Plan, ring: Ring, t: Transport, ghost executed: nat, completed: nat, next: nat, checks: seq<S>, step: (S, Byte) -> S, ghost init: S,
                      broken: bool)
    returns (ok: bool, ring': Ring, t': Transport, checks': seq<S>, ghost executed': nat)
    requires Inv(plan, t, executed, completed, next) && plan.depth > 0 && completed < |plan.jobs|
    requires next == if completed + plan.depth < |plan.jobs| then completed + plan.depth else |plan.jobs|
    requires CheckedLanded(step, init, plan, completed, checks) && forall i :: 0 <= i < |plan.jobs| ==> plan.jobs[i].extent < |checks|
    ensures !ok ==> broken || !Readable(plan, completed)
    ensures !ok ==> Leaves(plan, ring, ring', t') && Outside(plan.left, plan.start, t'.base) && (plan.left == [] ==> t'.base == plan.start)
    ensures ok ==> |checks'| == |checks| && CheckedLanded(step, init, plan, completed + 1, checks')
    ensures ok ==> Inv(plan, t', executed', completed + 1, if next < |plan.jobs| then next + 1 else next)
  {
    hide Inv, CheckedLanded, Fold, Filled, Landed, Leaves, Outside, RingLeft;
    ring', checks' := ring, checks;
    var k := Slot(completed, plan.depth);
    ok, t', executed' := AwaitRead(plan, t, executed, completed, next, k, broken);
    LeavesAt(plan, ring, t', executed', completed, next);
    if !ok {
      return false, RingLeft(ring, plan, Consumed(t', k)), t', checks, executed';
    }
    StageBytes(plan, t', executed', completed, next);
    var job := plan.jobs[t'.stages[k].job];
    CheckedNextLanded(step, init, plan, completed, checks);
    checks' := checks[job.extent := Fold(step, checks[job.extent], t'.stages[k].buffer[..job.length])];
    var now: bool := *;
    if broken && now {
      return false, RingLeft(ring, plan, t'), t', checks, executed';  // cudaMemcpyAsync or cudaEventRecord failed
    }
    t' := Enqueue(plan, t', executed', completed, next, k);
    if next < |plan.jobs| {
      now := *;
      if broken && now {
        LeavesAt(plan, ring, t', executed', completed + 1, next);
        return false, RingLeft(ring, plan, t'), t', checks, executed';  // cudaEventSynchronize failed
      }
      t' := Drain(plan, t', executed', completed + 1, next);
      executed' := completed + 1;
      assert Slot(completed + plan.depth, plan.depth) == k;
      t' := Submit(plan, t', executed', completed + 1, next, k);
    }
  }

  /** `finish_checksums`. */
  method FinishChecks<S(==)>(step: (S, Byte) -> S, init: S, plan: Plan, checks: seq<S>, expected: seq<Option<S>>) returns (ok: bool)
    requires |checks| == |expected| && CheckedLanded(step, init, plan, |plan.jobs|, checks)
    ensures ok <==> Passed(step, init, plan, expected)
  {
    hide Fold, FedLanded;
    for i := 0 to |expected|
      invariant forall k :: 0 <= k < i && expected[k].Some? ==> checks[k] == expected[k].value
    {
      if expected[i].Some? && checks[i] != expected[i].value {
        return false;
      }
    }
    return true;
  }

  /**
    However the reads and copies interleave: a transfer succeeds exactly if no call fails (`broken`),
    the extents are inside the file and every requested checksum is that of the bytes that landed
    for its extent; then device memory is as if the landed bytes had been copied in order. If
    the reads in flight in the stages it uses are harmless, the landed bytes are those of the file.
    The copies left by the previous call come first; nothing is in flight afterwards.
   */
  method HydrateStaged<S(==)>(file: seq<Byte>, extents: seq<Extent>, chunk: nat, queueDepth: nat, device: Memory,
                              step: (S, Byte) -> S, init: S, expected: seq<Option<S>>, ring: Ring, late: Late, broken: bool)
    returns (r: Result<Memory>, ring': Ring, ghost last: Transport)
    requires chunk > 0 && queueDepth > 0 && extents != [] && |expected| == |extents|
    requires forall i :: 0 <= i < |extents| ==> extents[i].length > 0
    ensures var plan := PlanOf(file, extents, chunk, queueDepth, device, ring, late);
      && (r.Ok? <==> !broken && AllInFile(file, extents) && Passed(step, init, plan, expected))
      && (r.Ok? ==> ReadableTo(plan, |plan.jobs|) && r.value == CopyLanded(plan, last.base, |plan.jobs|))
      && (r.Ok? && Harmless(plan) ==> Restores(file, extents, last.base, step, init, expected, r.value))
      && (r.Ok? || (!broken && AllInFile(file, extents)) ==> Handed(ring, ring', chunk, plan.depth))
      && (r.Err? ==> ring' == ring || Leaves(plan, ring, ring', last))
    ensures Outside(ring.copies, device, last.base)
    ensures Idle(ring) ==> last.base == device && (r.Ok? ==> Idle(ring'))
  {
    hide Inv, CheckedLanded, Fold, Filled, JobsOf, Landed, Leaves, Passed, Restores, Outside, CopyLanded, ReadableTo, Harmless;
    var jobs := MakeJobs(extents, chunk);
    JobsShape(extents, chunk);
    var depth := if queueDepth < |jobs| then queueDepth else |jobs|;
    var plan := PlanOf(file, extents, chunk, queueDepth, device, ring, late);
    var t := Transport(seq(depth, _ => Stage(seq(chunk, _ => 0), 0, false)), ring.copies, [], device, device);
    Start(plan, t);
    if AllInFile(file, extents) { AllReadable(plan, extents); }
    var now: bool := *;
    if broken && now {
      return Err, ring, t;  // the file cannot be opened
    }
    var checks := seq(|extents|, _ => init);
    CheckedFirst(step, init, plan, checks);
    t := Prime(plan, t);
    var next: nat := depth;

    var completed: nat := 0;
    ghost var executed: nat := 0;
    while completed < |jobs|
      invariant completed <= |jobs| && |checks| == |extents|
      invariant next == if completed + depth < |jobs| then completed + depth else |jobs|
      invariant Inv(plan, t, executed, completed, next)
      invariant CheckedLanded(step, init, plan, completed, checks)
    {
      var ok;
      ok, ring', t, checks, executed := Round(plan, ring, t, executed, completed, next, checks, step, init, broken);
      if !ok {
        Unreadable(plan, completed);
        return Err, ring', t;
      }
      completed := completed + 1;
      if next < |jobs| {
        next := next + 1;
      }
    }
    if broken {
      LeavesAt(plan, ring, t, executed, completed, next);
      return Err, RingLeft(ring, plan, t), t;  // cudaStreamSynchronize failed
    }
    t := Drain(plan, t, executed, completed, next);
    LeavesAt(plan, ring, t, completed, completed, next);
    Finish(plan, ring, t, extents);
    var ok := FinishChecks(step, init, plan, checks, expected);
    if !ok {
      return Err, RingLeft(ring, plan, t), t;
    }
    if Harmless(plan) { CleanRestores(plan, t.base, extents, step, init, expected); }
    return Ok(t.device), RingLeft(ring, plan, t), t;
  }

  /** The sequential copy of the extents, whose requested checksums are right. */
  ghost predicate Restores<S>(file: seq<Byte>, extents: seq<Extent>, base: Memory, step: (S, Byte) -> S, init: S, expected: seq<Option<S>>, after: Memory)
    requires |expected| == |extents|
  {
    && AllInFile(file, extents) && after == CopyExtents(base, file, extents)
    && forall i :: 0 <= i < |extents| && expected[i].Some? ==>
         Fold(step, init, Slice(file, extents[i].offset, extents[i].length)) == expected[i].value
  }

  lemma {:induction false} LeavesAt(plan: Plan, ring: Ring, t: Transport, executed: nat, completed: nat, next: nat)
    requires Inv(plan, t, executed, completed, next)
    ensures |t.stages| == plan.depth > 0 && Outside(plan.left, plan.start, t.base) && (plan.left == [] ==> t.base == plan.start)
    ensures Leaves(plan, ring, RingLeft(ring, plan, t), t)
    ensures completed < next ==> Leaves(plan, ring, RingLeft(ring, plan, Consumed(t, Slot(completed, plan.depth))), t)
  {
    hide RingLeft;
    if plan.left == [] { NothingOutside(plan.start, t.base); }
  }

  /** The ring is idle, as far as reads go. */
  predicate Quiet(ring: Ring) { NoneOpen(ring.open) }

  lemma {:induction false} QuietPlan(ring: Ring, plan: Plan)
    requires Quiet(ring) && plan.open == Outstanding(ring, plan.chunk, plan.depth)
    ensures NoneOpen(plan.open) && Harmless(plan)
  {
    NoneOpenHarmless(plan);
  }

  lemma {:induction false} QuietAfter(ring: Ring, ring': Ring, chunk: nat, depth: nat)
    requires Quiet(ring) && Handed(ring, ring', chunk, depth)
    ensures Idle(ring')
  {
    assert forall k :: depth <= k < |ring'.open| ==> ring'.open[k] == ring'.open[depth..][k - depth];
    assert forall k :: 0 <= k < depth ==> ring'.open[k] == ring'.open[..depth][k];
  }

  lemma {:induction false} NothingOutside(before: Memory, after: Memory)
    requires Outside([], before, after)
    ensures after == before
  {
    var none: seq<Copy> := [];
    forall x | x in before ensures after[x] == before[x] {
      assert forall c :: c in none ==> !Reaches(c, x);
    }
  }

  lemma {:induction false} Unreadable(plan: Plan, i: nat)
    requires i < |plan.jobs|
    ensures ReadableTo(plan, |plan.jobs|) ==> Readable(plan, i)
  {
  }

  lemma {:induction false} CheckedFirst<S>(step: (S, Byte) -> S, init: S, plan: Plan, checks: seq<S>)
    requires forall e :: 0 <= e < |checks| ==> checks[e] == init
    ensures CheckedLanded(step, init, plan, 0, checks)
  {
  }

  lemma {:induction false} JobsShape(extents: seq<Extent>, chunk: nat)
    requires chunk > 0 && extents != [] && forall i :: 0 <= i < |extents| ==> extents[i].length > 0
    ensures JobsOf(extents, chunk) != []
    ensures forall i :: 0 <= i < |JobsOf(extents, chunk)| ==> Cut(extents, chunk, JobsOf(extents, chunk)[i])
  {
    JobsCut(extents, |extents|, chunk);
    assert extents[..|extents|] == extents;
  }

  lemma {:induction false} Start(plan: Plan, t: Transport)
    requires plan.depth > 0 && t.stream == [] && t.device == t.base == plan.start && t.earlier == plan.left && |t.stages| == plan.depth
    requires forall k :: 0 <= k < plan.depth ==> |t.stages[k].buffer| == plan.chunk && !t.stages[k].reading
    requires forall i :: 0 <= i < |plan.jobs| ==> plan.jobs[i].length <= plan.chunk
    ensures Inv(plan, t, 0, 0, 0) && Outside(plan.left, plan.start, plan.start)
  {
  }

  lemma {:induction false} StageBytes(plan: Plan, t: Transport, executed: nat, completed: nat, next: nat)
    requires Inv(plan, t, executed, completed, next) && completed < next && Filled(plan, t, completed)
    ensures |t.stages| == plan.depth && Readable(plan, completed)
    ensures var stage, job := t.stages[Slot(completed, plan.depth)], plan.jobs[completed];
      stage.job == completed && job.length <= |stage.buffer| && stage.buffer[..job.length] == Landed(plan, completed)
  {
  }

  /** When all jobs have been copied nothing is in flight, and every extent is inside the file. */
  lemma {:induction false} Finish(plan: Plan, ring: Ring, t: Transport, extents: seq<Extent>)
    requires plan.chunk > 0 && plan.jobs == JobsOf(extents, plan.chunk)
    requires forall i :: 0 <= i < |extents| ==> extents[i].length > 0
    requires Inv(plan, t, |plan.jobs|, |plan.jobs|, |plan.jobs|) && t.earlier == [] && t.stream == []
    ensures AllInFile(plan.file, extents) && ReadableTo(plan, |plan.jobs|) && t.device == CopyLanded(plan, t.base, |plan.jobs|)
    ensures Handed(ring, RingLeft(ring, plan, t), plan.chunk, plan.depth) && (Idle(ring) ==> Idle(RingLeft(ring, plan, t)))
  {
    forall i | 0 <= i < |plan.jobs| ensures InFile(plan.file, plan.jobs[i].offset, plan.jobs[i].length) {
      assert Readable(plan, i);
    }
    JobsInFileExtents(plan.file, extents, plan.chunk);
    assert forall k :: 0 <= k < |t.stages| ==> !t.stages[k].reading;
  }

  /** If every chunk is inside the file, so is every extent. */
  lemma {:induction false} JobsInFileExtents(file: seq<Byte>, extents: seq<Extent>, chunk: nat)
    requires chunk > 0 && JobsInFile(file, JobsOf(extents, chunk))
    requires forall i :: 0 <= i < |extents| ==> extents[i].length > 0
    ensures AllInFile(file, extents)
  {
    if extents != [] {
      var n := |extents| - 1;
      var front, last := JobsOf(extents[..n], chunk), Chunks(n, extents[n], 0, chunk);
      assert forall i :: 0 <= i < |front| ==> (front + last)[i] == front[i];
      assert forall i :: 0 <= i < |last| ==> (front + last)[|front| + i] == last[i];
      JobsInFileExtents(file, extents[..n], chunk);
      ChunksInFile(file, n, extents[n], 0, chunk);
    }
  }

  lemma {:induction false} ChunksInFile(file: seq<Byte>, index: nat, e: Extent, copied: nat, chunk: nat)
    requires chunk > 0 && copied < e.length && JobsInFile(file, Chunks(index, e, copied, chunk))
    ensures InFile(file, e.offset, e.length)
    decreases e.length - copied
  {
    var count := if chunk < e.length - copied then chunk else e.length - copied;
    var rest := Chunks(index, e, copied + count, chunk);
    var all := Chunks(index, e, copied, chunk);
    assert InFile(file, all[0].offset, all[0].length);
    if copied + count < e.length {
      assert forall i :: 0 <= i < |rest| ==> rest[i] == all[i + 1];
      ChunksInFile(file, index, e, copied + count, chunk);
    }
  }
  // ---------------------------------------------------------------------------------------------
  // When the landed bytes are the right ones.

  ghost predicate AllRight(plan: Plan, n: nat) {
    ReadableTo(plan, n) && forall i :: 0 <= i < n ==> Landed(plan, i) == JobSlice(plan, i)
  }

  /** Right bytes in every stage make the right memory, and the checksums see them. */
  lemma {:induction false} RightCopy(plan: Plan, base: Memory, n: nat)
    requires AllRight(plan, n)
    ensures JobsInFile(plan.file, plan.jobs[..n]) && CopyLanded(plan, base, n) == CopyJobs(base, plan.file, plan.jobs[..n])
    ensures forall e :: 0 <= e ==> FedLanded(plan, n, e) == Fed(plan.file, plan.jobs[..n], e)
  {
    hide Landed, Poke;
    if n > 0 {
      RightCopy(plan, base, n - 1);
      assert plan.jobs[..n][..n - 1] == plan.jobs[..n - 1] && plan.jobs[..n] == plan.jobs[..n - 1] + [plan.jobs[n - 1]];
      assert Readable(plan, n - 1) && Landed(plan, n - 1) == JobSlice(plan, n - 1);
      assert JobsInFile(plan.file, plan.jobs[..n]);
    }
  }

  lemma {:induction false} RightExtents(plan: Plan, base: Memory, extents: seq<Extent>)
    requires plan.chunk > 0 && plan.jobs == JobsOf(extents, plan.chunk) && AllInFile(plan.file, extents) && AllRight(plan, |plan.jobs|)
    ensures CopyLanded(plan, base, |plan.jobs|) == CopyExtents(base, plan.file, extents)
    ensures forall i :: 0 <= i < |extents| ==> FedLanded(plan, |plan.jobs|, i) == Slice(plan.file, extents[i].offset, extents[i].length)
  {
    hide JobsOf, Landed, AllRight, CopyLanded, CopyExtents, CopyJobs, FedLanded, Fed;
    RightCopy(plan, base, |plan.jobs|);
    assert plan.jobs[..|plan.jobs|] == plan.jobs;
    ChunkedCopy(base, plan.file, extents, plan.chunk);
    forall i | 0 <= i < |extents| ensures FedLanded(plan, |plan.jobs|, i) == Slice(plan.file, extents[i].offset, extents[i].length) {
      FedExtent(plan.file, extents, plan.chunk, i);
    }
  }

  /** Whatever the read in flight does, the bytes of job `k` in its stage are the right ones. */
  ghost predicate HarmlessAt(plan: Plan, k: nat)
    requires k < |plan.jobs| && Readable(plan, k) && k < |plan.open| && plan.open[k].Some?
  {
    forall w: Winner, b: nat :: b < plan.jobs[k].length ==>
      Settled(plan.open[k].value, plan.file, w, b, JobSlice(plan, k)[b]) == JobSlice(plan, k)[b]
  }

  /** No read in flight has another byte for a place that a job is read to: there is none, or it reads the same. */
  ghost predicate Harmless(plan: Plan) {
    forall k :: 0 <= k < |plan.jobs| && k < |plan.open| && plan.open[k].Some? && Readable(plan, k) ==> HarmlessAt(plan, k)
  }

  lemma {:induction false} NoneOpenHarmless(plan: Plan)
    requires NoneOpen(plan.open)
    ensures Harmless(plan)
  {
  }

  lemma {:induction false} HarmlessRight(plan: Plan)
    requires Harmless(plan) && ReadableTo(plan, |plan.jobs|)
    ensures AllRight(plan, |plan.jobs|)
  {
    hide Settled;
    forall i | 0 <= i < |plan.jobs| ensures Landed(plan, i) == JobSlice(plan, i) {
      assert Readable(plan, i);
      if i < |plan.open| && plan.open[i].Some? { assert HarmlessAt(plan, i); }
    }
  }

  lemma {:induction false} CleanRestores<S>(plan: Plan, base: Memory, extents: seq<Extent>, step: (S, Byte) -> S, init: S, expected: seq<Option<S>>)
    requires plan.chunk > 0 && plan.jobs == JobsOf(extents, plan.chunk) && AllInFile(plan.file, extents) && Harmless(plan)
    requires |expected| == |extents| && Passed(step, init, plan, expected)
    ensures Restores(plan.file, extents, base, step, init, expected, CopyLanded(plan, base, |plan.jobs|))
  {
    hide JobsOf, Landed, AllRight, CopyLanded, CopyExtents, FedLanded, Fold, Harmless;
    HarmlessRight(plan);
    RightExtents(plan, base, extents);
  }

  /** No two byte strings of one length have the same checksum. */
  ghost predicate Tells<S(!new)>(step: (S, Byte) -> S, init: S) {
    forall x: seq<Byte>, y: seq<Byte> :: |x| == |y| && Fold(step, init, x) == Fold(step, init, y) ==> x == y
  }

  lemma {:induction false} FedLengths(plan: Plan, n: nat, extent: nat)
    requires ReadableTo(plan, n)
    ensures JobsInFile(plan.file, plan.jobs[..n]) && |FedLanded(plan, n, extent)| == |Fed(plan.file, plan.jobs[..n], extent)|
  {
    hide Landed;
    if n > 0 {
      FedLengths(plan, n - 1, extent);
      assert plan.jobs[..n][..n - 1] == plan.jobs[..n - 1] && plan.jobs[..n] == plan.jobs[..n - 1] + [plan.jobs[n - 1]];
      assert Readable(plan, n - 1);
      assert JobsInFile(plan.file, plan.jobs[..n]);
    }
  }

  /** Checksums that were fed the right bytes were fed the right bytes job by job. */
  lemma {:induction false} FedRight(plan: Plan, n: nat, extents: nat)
    requires ReadableTo(plan, n) && JobsInFile(plan.file, plan.jobs[..n]) && forall i :: 0 <= i < n ==> plan.jobs[i].extent < extents
    requires forall e :: 0 <= e < extents ==> FedLanded(plan, n, e) == Fed(plan.file, plan.jobs[..n], e)
    ensures AllRight(plan, n)
  {
    hide Landed, FedLanded, Fed;
    if n > 0 {
      var m := n - 1;
      assert JobsInFile(plan.file, plan.jobs[..m]) by {
        assert forall i :: 0 <= i < m ==> plan.jobs[..m][i] == plan.jobs[..n][i];
      }
      forall e | 0 <= e < extents ensures FedLanded(plan, m, e) == Fed(plan.file, plan.jobs[..m], e) {
        FedRightAt(plan, n, e);
      }
      FedRightAt(plan, n, plan.jobs[m].extent);
      FedRight(plan, m, extents);
    }
  }

  lemma {:induction false} FedRightAt(plan: Plan, n: nat, e: nat)
    requires n > 0 && ReadableTo(plan, n) && JobsInFile(plan.file, plan.jobs[..n]) && JobsInFile(plan.file, plan.jobs[..n - 1])
    requires FedLanded(plan, n, e) == Fed(plan.file, plan.jobs[..n], e)
    ensures FedLanded(plan, n - 1, e) == Fed(plan.file, plan.jobs[..n - 1], e)
    ensures Readable(plan, n - 1) && (plan.jobs[n - 1].extent == e ==> Landed(plan, n - 1) == JobSlice(plan, n - 1))
  {
    hide Landed;
    assert plan.jobs[..n][..n - 1] == plan.jobs[..n - 1] && plan.jobs[..n][n - 1] == plan.jobs[n - 1] && Readable(plan, n - 1);
    FedLengths(plan, n - 1, e);
    var fed, right := FedLanded(plan, n - 1, e), Fed(plan.file, plan.jobs[..n - 1], e);
    if plan.jobs[n - 1].extent == e {
      SameParts(fed, Landed(plan, n - 1), right, JobSlice(plan, n - 1));
    } else {
      assert fed + [] == fed && right + [] == right;
    }
  }

  lemma {:induction false} SameParts(a: seq<Byte>, b: seq<Byte>, c: seq<Byte>, d: seq<Byte>)
    requires |a| == |c| && a + b == c + d
    ensures a == c && b == d
  {
    assert (a + b)[..|a|] == a && (c + d)[..|a|] == c && (a + b)[|a|..] == b && (c + d)[|a|..] == d;
  }

  /**
    The inline mode sees a mix: with a checksum that tells all contents apart, a transfer that
    passes its checksums has restored the bytes of the file, whatever was in flight before.
   */
  lemma {:induction false} InlineRestores<S(!new)>(plan: Plan, base: Memory, extents: seq<Extent>, step: (S, Byte) -> S, init: S, expected: seq<Option<S>>)
    requires plan.chunk > 0 && plan.jobs == JobsOf(extents, plan.chunk) && extents != [] && AllInFile(plan.file, extents)
    requires forall i :: 0 <= i < |extents| ==> extents[i].length > 0
    requires |expected| == |extents| && Passed(step, init, plan, expected) && Tells(step, init)
    requires forall i :: 0 <= i < |extents| ==> expected[i] == Some(Fold(step, init, Slice(plan.file, extents[i].offset, extents[i].length)))
    ensures CopyLanded(plan, base, |plan.jobs|) == CopyExtents(base, plan.file, extents)
  {
    hide JobsOf, Landed, AllRight, CopyLanded, CopyExtents, FedLanded, Fed, Fold;
    var n := |plan.jobs|;
    JobsShape(extents, plan.chunk);
    assert plan.jobs[..n] == plan.jobs;
    forall e | 0 <= e < |extents| ensures JobsInFile(plan.file, plan.jobs) && FedLanded(plan, n, e) == Fed(plan.file, plan.jobs, e) {
      FedLengths(plan, n, e);
      FedExtent(plan.file, extents, plan.chunk, e);
      assert expected[e].Some?;
    }
    assert 0 < |extents|;
    FedRight(plan, n, |extents|);
    RightExtents(plan, base, extents);
  }

  // ---------------------------------------------------------------------------------------------
  // What a read in flight can do.

  predicate DisjointTargets(extents: seq<Extent>) {
    forall i, j :: 0 <= i < j < |extents| ==>
      extents[i].pointer + extents[i].length <= extents[j].pointer || extents[j].pointer + extents[j].length <= extents[i].pointer
  }

  /** Jobs of disjoint extents have disjoint destinations. */
  lemma {:induction false} JobsApart(extents: seq<Extent>, chunk: nat, jobs: seq<Job>, i: nat, j: nat)
    requires i < j < |jobs| && DisjointTargets(extents)
    requires forall k :: 0 <= k < |jobs| ==> Cut(extents, chunk, jobs[k])
    requires InSequence(extents, |extents|, jobs)
    ensures jobs[i].extent <= jobs[j].extent && (jobs[i].extent == jobs[j].extent ==> jobs[i].offset + jobs[i].length <= jobs[j].offset)
    ensures jobs[i].pointer + jobs[i].length <= jobs[j].pointer || jobs[j].pointer + jobs[j].length <= jobs[i].pointer
  {
    assert Consecutive(extents, jobs[j - 1], jobs[j]);
    if i < j - 1 { JobsApart(extents, chunk, jobs, i, j - 1); }
    assert Cut(extents, chunk, jobs[i]) && Cut(extents, chunk, jobs[j]);
  }

  /** A byte that only job `i` writes has the value that landed for it. */
  lemma {:induction false} LandedAt(plan: Plan, base: Memory, i: nat, x: int, n: nat)
    requires i < n && ReadableTo(plan, n) && x in base
    requires plan.jobs[i].pointer <= x < plan.jobs[i].pointer + plan.jobs[i].length
    requires forall k :: i < k < n ==> !(plan.jobs[k].pointer <= x < plan.jobs[k].pointer + plan.jobs[k].length)
    ensures x in CopyLanded(plan, base, n) && CopyLanded(plan, base, n)[x] == Landed(plan, i)[x - plan.jobs[i].pointer]
  {
    hide Landed;
    LandedKeys(plan, base, n - 1);
    if i < n - 1 { LandedAt(plan, base, i, x, n - 1); }
  }

  lemma {:induction false} LandedKeys(plan: Plan, base: Memory, n: nat)
    requires ReadableTo(plan, n)
    ensures CopyLanded(plan, base, n).Keys == base.Keys
  {
    hide Landed;
    if n > 0 { LandedKeys(plan, base, n - 1); }
  }

  /**
    The exact entry condition of a transfer without checksums: whatever the reads in flight do,
    memory ends up with the bytes of the file, if and only if those reads are harmless.
   */
  lemma {:induction false} EntryExact(file: seq<Byte>, extents: seq<Extent>, chunk: nat, queueDepth: nat, base: Memory, ring: Ring)
    requires chunk > 0 && queueDepth > 0 && extents != [] && AllInFile(file, extents) && DisjointTargets(extents)
    requires forall i :: 0 <= i < |extents| ==> extents[i].length > 0 && Mapped(base, extents[i].pointer, extents[i].length)
    ensures (forall late: Late :: RightEnd(file, extents, chunk, queueDepth, base, ring, late))
       <==> Harmless(PlanOf(file, extents, chunk, queueDepth, base, ring, NoLate()))
  {
    hide JobsOf, CopyLanded, CopyExtents, Landed, RightEnd, DisjointTargets, Mapped, Settled, JobSlice;
    var plan := PlanOf(file, extents, chunk, queueDepth, base, ring, NoLate());
    if Harmless(plan) {
      forall late: Late ensures RightEnd(file, extents, chunk, queueDepth, base, ring, late) {
        LateHarmless(plan, late);
        HarmlessEnd(file, extents, chunk, queueDepth, base, ring, late);
      }
    } else {
      var k :| 0 <= k < |plan.jobs| && k < |plan.open| && plan.open[k].Some? && Readable(plan, k) && !HarmlessAt(plan, k);
      var w: Winner, b: nat :| b < plan.jobs[k].length &&
        Settled(plan.open[k].value, plan.file, w, b, JobSlice(plan, k)[b]) != JobSlice(plan, k)[b];
      var late := StaleByte(file, extents, chunk, queueDepth, base, ring, k, w, b);
      assert !RightEnd(file, extents, chunk, queueDepth, base, ring, late);
    }
  }

  function NoLate(): Late { (k, b) => NewRead }

  /** Whether the reads are harmless does not depend on what they do. */
  lemma {:induction false} LateHarmless(plan: Plan, late: Late)
    requires Harmless(plan)
    ensures Harmless(plan.(late := late))
  {
    hide Settled;
    var other := plan.(late := late);
    forall k | 0 <= k < |other.jobs| && k < |other.open| && other.open[k].Some? && Readable(other, k) ensures HarmlessAt(other, k) {
      assert Readable(plan, k) && HarmlessAt(plan, k) && JobSlice(other, k) == JobSlice(plan, k);
    }
  }

  /** The transfer ends with the sequential copy. */
  ghost predicate RightEnd(file: seq<Byte>, extents: seq<Extent>, chunk: nat, queueDepth: nat, base: Memory, ring: Ring, late: Late)
    requires chunk > 0
  {
    var plan := PlanOf(file, extents, chunk, queueDepth, base, ring, late);
    AllInFile(file, extents) && ReadableTo(plan, |plan.jobs|) && CopyLanded(plan, base, |plan.jobs|) == CopyExtents(base, file, extents)
  }

  lemma {:induction false} AllReadable(plan: Plan, extents: seq<Extent>)
    requires plan.chunk > 0 && plan.jobs == JobsOf(extents, plan.chunk) && extents != [] && AllInFile(plan.file, extents)
    requires forall i :: 0 <= i < |extents| ==> extents[i].length > 0
    ensures ReadableTo(plan, |plan.jobs|)
  {
    hide JobsOf;
    JobsShape(extents, plan.chunk);
    forall i | 0 <= i < |plan.jobs| ensures Readable(plan, i) {
      assert Cut(extents, plan.chunk, plan.jobs[i]);
    }
  }

  lemma {:induction false} HarmlessEnd(file: seq<Byte>, extents: seq<Extent>, chunk: nat, queueDepth: nat, base: Memory, ring: Ring, late: Late)
    requires chunk > 0 && queueDepth > 0 && extents != [] && AllInFile(file, extents)
    requires forall i :: 0 <= i < |extents| ==> extents[i].length > 0
    requires Harmless(PlanOf(file, extents, chunk, queueDepth, base, ring, late))
    ensures RightEnd(file, extents, chunk, queueDepth, base, ring, late)
  {
    hide JobsOf, CopyLanded, CopyExtents, Landed, Harmless, AllRight;
    var plan := PlanOf(file, extents, chunk, queueDepth, base, ring, late);
    AllReadable(plan, extents);
    HarmlessRight(plan);
    RightExtents(plan, base, extents);
  }

  /** A read in flight in stage `k` that has another byte for byte `b` of job `k` can spoil it. */
  lemma {:induction false} StaleByte(file: seq<Byte>, extents: seq<Extent>, chunk: nat, queueDepth: nat, base: Memory, ring: Ring,
                                     k: nat, w: Winner, b: nat)
    returns (late: Late)
    requires chunk > 0 && queueDepth > 0 && extents != [] && AllInFile(file, extents) && DisjointTargets(extents)
    requires forall i :: 0 <= i < |extents| ==> extents[i].length > 0 && Mapped(base, extents[i].pointer, extents[i].length)
    requires var plan := PlanOf(file, extents, chunk, queueDepth, base, ring, NoLate());
      && k < |plan.open| && plan.open[k].Some? && k < |plan.jobs| && Readable(plan, k) && b < plan.jobs[k].length
      && Settled(plan.open[k].value, file, w, b, JobSlice(plan, k)[b]) != JobSlice(plan, k)[b]
    ensures late == OnlyByte(k, b, w) && !RightEnd(file, extents, chunk, queueDepth, base, ring, late)
  {
    hide JobsOf, CopyLanded, CopyExtents, JobsInFile, InSequence, Settled;
    late := OnlyByte(k, b, w);
    var jobs := JobsOf(extents, chunk);
    var clean := PlanOf(file, extents, chunk, queueDepth, base, NoRing(), NoLate());
    var plan := PlanOf(file, extents, chunk, queueDepth, base, ring, late);
    AllReadable(clean, extents);
    AllReadable(plan, extents);
    JobsShape(extents, chunk);
    assert Readable(clean, k) && Readable(plan, k) && JobSlice(clean, k) == JobSlice(plan, k);
    var n, x := |jobs|, jobs[k].pointer + b;
    JobByte(extents, chunk, base, jobs, k, b);
    LandedAt(plan, base, k, x, n);
    LandedAt(clean, base, k, x, n);
    assert Landed(plan, k)[b] == Settled(plan.open[k].value, file, w, b, JobSlice(plan, k)[b]);
    assert Landed(clean, k)[b] == JobSlice(plan, k)[b];
    NoneOpenHarmless(clean);
    HarmlessRight(clean);
    RightExtents(clean, base, extents);
  }

  /** The read in flight wins at one byte of one stage. */
  function OnlyByte(k: nat, b: nat, w: Winner): Late { (s: int, c: int) => if s == k && c == b then w else NewRead }

  /** Before the first call there is no ring. */
  function NoRing(): Ring { Ring(0, [], []) }

  lemma {:induction false} JobByte(extents: seq<Extent>, chunk: nat, base: Memory, jobs: seq<Job>, k: nat, b: nat)
    requires chunk > 0 && jobs == JobsOf(extents, chunk) && k < |jobs| && b < jobs[k].length && DisjointTargets(extents)
    requires forall i :: 0 <= i < |extents| ==> extents[i].length > 0 && Mapped(base, extents[i].pointer, extents[i].length)
    requires forall i :: 0 <= i < |jobs| ==> Cut(extents, chunk, jobs[i])
    ensures jobs[k].pointer + b in base
    ensures forall i :: k < i < |jobs| ==> !(jobs[i].pointer <= jobs[k].pointer + b < jobs[i].pointer + jobs[i].length)
  {
    hide JobsOf, InSequence;
    JobsInSequence(extents, |extents|, chunk);
    assert extents[..|extents|] == extents;
    forall i | k < i < |jobs| ensures !(jobs[i].pointer <= jobs[k].pointer + b < jobs[i].pointer + jobs[i].length) {
      JobsApart(extents, chunk, jobs, k, i);
    }
    assert Cut(extents, chunk, jobs[k]);
    var e := extents[jobs[k].extent];
    assert Mapped(base, e.pointer, e.length);
  }
  // ---------------------------------------------------------------------------------------------
  // A transfer that is tried again.

  ghost predicate OwnFlight(plan: Plan, k: int, f: Flight) {
    plan.depth > 0 && exists j :: 0 <= j < |plan.jobs| && Slot(j, plan.depth) == k && f == FlightOf(plan, j)
  }

  /** Every read in flight is the read of a job of this plan, in the stage of that job. */
  ghost predicate Remains(plan: Plan, ring: Ring) {
    forall k :: 0 <= k < |ring.open| && ring.open[k].Some? ==> OwnFlight(plan, k, ring.open[k].value)
  }

  /** What a failing call leaves is what it was reading itself. */
  lemma {:induction false} LeavesRemain(plan: Plan, ring: Ring, ring': Ring, t: Transport)
    requires Leaves(plan, ring, ring', t) && Remains(plan, ring)
    ensures Remains(plan, ring')
  {
    hide CopyLanded, Landed, Filled, Queued, Under, ReadableTo, OwnFlight;
    var executed, completed, next :| Inv(plan, t, executed, completed, next) &&
      (ring' == RingLeft(ring, plan, t)
       || (completed < next && ring' == RingLeft(ring, plan, Consumed(t, Slot(completed, plan.depth)))));
    forall k | 0 <= k < |ring'.open| && ring'.open[k].Some? ensures OwnFlight(plan, k, ring'.open[k].value) {
      if k < plan.depth {
        assert t.stages[k].reading && ring'.open[k].value == FlightOf(plan, t.stages[k].job);
        OwnStage(plan, k, t.stages[k].job);
      } else {
        assert ring.open[k] == ring'.open[k];
      }
    }
  }

  lemma {:induction false} OwnStage(plan: Plan, k: nat, j: nat)
    requires plan.depth > 0 && j < |plan.jobs| && Slot(j, plan.depth) == k
    ensures OwnFlight(plan, k, FlightOf(plan, j))
  {
  }

  /** The two jobs have the same bytes as far as both go. */
  ghost predicate SameHead(plan: Plan, k: nat, j: nat)
    requires k < |plan.jobs| && j < |plan.jobs| && Readable(plan, k) && Readable(plan, j)
  {
    forall b :: 0 <= b < plan.jobs[k].length && b < plan.jobs[j].length ==> JobSlice(plan, j)[b] == JobSlice(plan, k)[b]
  }

  /** A left read of job `j` in the stage of job `k` is harmless exactly if the jobs agree; so it is if they are one job. */
  lemma {:induction false} RetryExact(plan: Plan, k: nat, j: nat)
    requires k < |plan.jobs| && j < |plan.jobs| && Readable(plan, k) && Readable(plan, j)
    requires k < |plan.open| && plan.open[k] == Some(FlightOf(plan, j))
    ensures HarmlessAt(plan, k) <==> SameHead(plan, k, j)
  {
    var f := FlightOf(plan, j);
    if HarmlessAt(plan, k) {
      forall b | 0 <= b < plan.jobs[k].length && b < plan.jobs[j].length ensures JobSlice(plan, j)[b] == JobSlice(plan, k)[b] {
        assert Settled(f, plan.file, OldRead, b, JobSlice(plan, k)[b]) == JobSlice(plan, j)[b];
      }
    }
    if SameHead(plan, k, j) {
      forall w: Winner, b: nat | b < plan.jobs[k].length
        ensures Settled(f, plan.file, w, b, JobSlice(plan, k)[b]) == JobSlice(plan, k)[b]
      {
        if b < plan.jobs[j].length { assert plan.file[f.offset + b] == JobSlice(plan, j)[b]; }
      }
    }
  }

  /** If all jobs fit into the ring, a transfer that is tried again reads every job into the stage it had: nothing can be spoilt. */
  lemma {:induction false} FewJobsHarmless(plan: Plan, ring: Ring)
    requires plan.open == Outstanding(ring, plan.chunk, plan.depth) && Remains(plan, ring) && |plan.jobs| <= plan.depth
    ensures Harmless(plan)
  {
    hide HarmlessAt;
    forall k | 0 <= k < |plan.jobs| && k < |plan.open| && plan.open[k].Some? && Readable(plan, k) ensures HarmlessAt(plan, k) {
      assert ring.open[k] == plan.open[k] && OwnFlight(plan, k, ring.open[k].value);
      var j :| 0 <= j < |plan.jobs| && Slot(j, plan.depth) == k && ring.open[k].value == FlightOf(plan, j);
      RetryExact(plan, k, k);
    }
  }

  /** The job may be spoilt: a read is in flight in the stage that it is the first to use. */
  predicate Exposed(plan: Plan, i: nat) { i < |plan.open| && plan.open[i].Some? }

  lemma {:induction false} Unexposed(plan: Plan, i: nat)
    requires i < |plan.jobs| && Readable(plan, i) && !Exposed(plan, i)
    ensures Landed(plan, i) == JobSlice(plan, i)
  {
  }

  predicate Within(job: Job, x: int) { job.pointer <= x < job.pointer + job.length }

  /** The damage is bounded: outside the destinations of exposed jobs memory is what it would be without the reads in flight. */
  lemma {:induction false} DamageBounded(plan: Plan, base: Memory, n: nat, x: int)
    requires ReadableTo(plan, n) && forall i :: 0 <= i < n && Exposed(plan, i) ==> !Within(plan.jobs[i], x)
    ensures ReadableTo(plan.(open := []), n)
    ensures x in CopyLanded(plan, base, n) <==> x in CopyLanded(plan.(open := []), base, n)
    ensures x in CopyLanded(plan, base, n) ==> CopyLanded(plan, base, n)[x] == CopyLanded(plan.(open := []), base, n)[x]
  {
    hide Landed;
    var clean := plan.(open := []);
    forall i | 0 <= i < n ensures Readable(clean, i) { assert Readable(plan, i); }
    if n > 0 {
      DamageBounded(plan, base, n - 1, x);
      assert Readable(plan, n - 1) && Readable(clean, n - 1);
      Unexposed(clean, n - 1);
      if !Exposed(plan, n - 1) {
        Unexposed(plan, n - 1);
        assert JobSlice(plan, n - 1) == JobSlice(clean, n - 1);
      }
    }
  }

  /**
    Three extents of one byte and two stages: the first byte has been copied and its stage reads
    the third one when the read of the second one fails. The same transfer, tried again, can end
    with the third byte in the place of the first.
   */
  lemma {:induction false} StaleRetry(file: seq<Byte>, extents: seq<Extent>, device: Memory) returns (t: Transport, late: Late)
    requires |file| == 3 && file[0] != file[2] && extents == [Extent(0, 10, 1), Extent(1, 20, 1), Extent(2, 30, 1)]
    requires 10 in device && 20 in device && 30 in device
    ensures |t.stages| == 2
    ensures var first := PlanOf(file, extents, 1, 2, device, NoRing(), NoLate());
      var ring := RingLeft(NoRing(), first, Consumed(t, 1));
      && Inv(first, t, 1, 1, 3) && Leaves(first, NoRing(), ring, t) && ring.open == [Some(Flight(file, 2, 1)), None]
      && !RightEnd(file, extents, 1, 2, device, ring, late)
  {
    hide RightEnd, Leaves, Inv, CopyLanded, Landed, JobsOf;
    ThreeJobs(extents);
    var first := PlanOf(file, extents, 1, 2, device, NoRing(), NoLate());
    t := Transport([Stage([0], 2, true), Stage([0], 1, true)], [], [], CopyLanded(first, device, 1), device);
    StaleState(file, extents, device, first, t);
    LeavesAt(first, NoRing(), t, 1, 1, 3);
    assert Slot(1, 2) == 1;
    var ring := RingLeft(NoRing(), first, Consumed(t, 1));
    assert ring.open == [Some(Flight(file, 2, 1)), None];
    var plan := PlanOf(file, extents, 1, 2, device, ring, NoLate());
    assert plan.open == ring.open && Readable(plan, 0) && JobSlice(plan, 0) == [file[0]];
    late := StaleByte(file, extents, 1, 2, device, ring, 0, OldRead, 0);
  }

  lemma {:induction false} StaleState(file: seq<Byte>, extents: seq<Extent>, device: Memory, first: Plan, t: Transport)
    requires |file| == 3 && first.file == file && first.chunk == 1 && first.depth == 2 && first.start == device && first.left == []
    requires first.jobs == [Job(0, 0, 10, 1), Job(1, 1, 20, 1), Job(2, 2, 30, 1)]
    requires ReadableTo(first, 1)
    requires t == Transport([Stage([0], 2, true), Stage([0], 1, true)], [], [], CopyLanded(first, device, 1), device)
    ensures Inv(first, t, 1, 1, 3)
  {
    hide CopyLanded, Landed;
    assert Slot(0, 2) == 0 && Slot(1, 2) == 1 && Slot(2, 2) == 0;
    assert Outside([], device, device) && Under(first, t, 1);
  }

  lemma {:induction false} ThreeJobs(extents: seq<Extent>)
    requires extents == [Extent(0, 10, 1), Extent(1, 20, 1), Extent(2, 30, 1)]
    ensures JobsOf(extents, 1) == [Job(0, 0, 10, 1), Job(1, 1, 20, 1), Job(2, 2, 30, 1)]
  {
    var two, one := extents[..2], extents[..1];
    assert two[..1] == one && one[..0] == [] && one == [Extent(0, 10, 1)];
    assert Chunks(0, extents[0], 1, 1) == [] && Chunks(1, extents[1], 1, 1) == [] && Chunks(2, extents[2], 1, 1) == [];
    assert JobsOf(one[..0], 1) == [] && JobsOf(one, 1) == [Job(0, 0, 10, 1)];
    assert JobsOf(two, 1) == [Job(0, 0, 10, 1), Job(1, 1, 20, 1)];
  }
}
