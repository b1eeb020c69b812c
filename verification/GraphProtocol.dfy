/**
  One engine and its workers move from eager dispatch to CUDA graphs: the deferred warmup hook and
  the graph capture hook run after every engine step, and call all workers at once
  (`coldsnap_vllm_async_graphs.py`, `coldsnap_vllm_deferred_warmup.py`).
 */
module GraphProtocol {
  import opened Bytes

  datatype WorkerPhase = WEager | WCapturing | WReady | WFailed | WFallback | WRetained

  datatype WarmPhase = Cold | Warming | Warm | WarmFailed

  /** `gated` workers dispatch eagerly; `stale` says that the last error named a stale graph pool. */
  datatype Worker = Worker(phase: WorkerPhase, gated: bool, stale: bool, warm: WarmPhase, deferred: bool)

  datatype Phase = Eager | Capturing | Ready | Fallback | Retained

  /** What a worker does with a capture call; a call that raises leaves the worker in some state. */
  datatype CaptureReply = Captures | Fails(stale: bool) | Raises(after: Worker)

  datatype Reply = Obeys(stale: bool) | Refuses(after: Worker)

  datatype WarmReply = Warms | WarmFails | WarmRaises(left: WarmPhase)

  /** The replies of every worker to the calls of one event; `fatal`: the warmup call raises something not caught. */
  datatype Rpcs = Rpcs(capture: int -> CaptureReply, retry: int -> Reply, fallback: int -> Reply, warm: int -> WarmReply,
                       cacheReset: bool, fatal: bool)

  /** Phases are unset until the hooks set them; `captures` counts the capture calls of this generation. */
  datatype Engine = Engine(workers: seq<Worker>, phase: Option<Phase>, warmup: Option<WarmPhase>,
                           eagerSteps: nat, warmSteps: nat, retries: nat, captures: nat)

  /** `retained`: graphs were captured before the snapshot; `armFile`: an arm file is configured. */
  datatype Settings = Settings(retained: bool, armFile: bool, warmup: bool, warmArmFile: bool)

  /** What the two hooks read in one step; each looks at its file and at the scheduler itself. */
  datatype Reading = Reading(executed: bool, warmFile: bool, warmIdle: bool, graphFile: bool, graphIdle: bool)

  datatype Outcome = Done(engine: Engine) | Raised(engine: Engine)

  const RETRY_LIMIT: nat := 1

  // ---------------------------------------------------------------------------------------------
  // Workers.

  /** `_capture_worker_graphs`. */
  function CaptureOne(w: Worker, reply: CaptureReply): Worker {
    match reply
    case Raises(after) => after
    case Captures => if w.phase != WEager then w else w.(phase := WReady, gated := false, stale := false)
    case Fails(stale) => if w.phase != WEager then w else w.(phase := WFailed, gated := true, stale := stale)
  }

  /** `_prepare_worker_graph_retry`. */
  function RetryOne(w: Worker, reply: Reply): Worker {
    match reply
    case Obeys(stale) => w.(phase := WEager, gated := true, stale := stale)
    case Refuses(after) => after
  }

  /** `_fallback_worker_to_eager`. */
  function FallbackOne(w: Worker, reply: Reply): Worker {
    match reply
    case Obeys(stale) => w.(phase := WFallback, gated := true, stale := stale)
    case Refuses(after) => after
  }

  /** `_run_deferred_warmup`. */
  function WarmOne(w: Worker, reply: WarmReply): Worker {
    if w.warm == Warm || w.warm == WarmFailed then w
    else if !w.deferred then w.(warm := Warm)
    else match reply
      case Warms => w.(warm := Warm)
      case WarmFails => w.(warm := WarmFailed)
      case WarmRaises(left) => w.(warm := left)
  }

  function Each(workers: seq<Worker>, f: (Worker, int) -> Worker): (r: seq<Worker>)
    ensures |r| == |workers| && forall i :: 0 <= i < |workers| ==> r[i] == f(workers[i], i)
  {
    seq(|workers|, i requires 0 <= i < |workers| => f(workers[i], i))
  }

  function CaptureAll(workers: seq<Worker>, rpc: Rpcs): seq<Worker> { Each(workers, (w, i) => CaptureOne(w, rpc.capture(i))) }

  function RetryAll(workers: seq<Worker>, rpc: Rpcs): seq<Worker> { Each(workers, (w, i) => RetryOne(w, rpc.retry(i))) }

  function FallbackAll(workers: seq<Worker>, rpc: Rpcs): seq<Worker> { Each(workers, (w, i) => FallbackOne(w, rpc.fallback(i))) }

  function WarmAll(workers: seq<Worker>, rpc: Rpcs): seq<Worker> { Each(workers, (w, i) => WarmOne(w, rpc.warm(i))) }

  predicate CaptureRaises(n: nat, rpc: Rpcs) { exists i :: 0 <= i < n && rpc.capture(i).Raises? }

  predicate RetryRaises(n: nat, rpc: Rpcs) { exists i :: 0 <= i < n && rpc.retry(i).Refuses? }

  predicate FallbackRaises(n: nat, rpc: Rpcs) { exists i :: 0 <= i < n && rpc.fallback(i).Refuses? }

  predicate WarmRaisesAny(n: nat, rpc: Rpcs) { exists i :: 0 <= i < n && rpc.warm(i).WarmRaises? }

  predicate AllReady(workers: seq<Worker>) { forall i :: 0 <= i < |workers| ==> workers[i].phase == WReady }

  /** `_retryable_graph_capture_failure`. */
  predicate Retryable(workers: seq<Worker>) {
    !AllReady(workers) && forall i :: 0 <= i < |workers| && workers[i].phase != WReady ==> workers[i].stale
  }

  // ---------------------------------------------------------------------------------------------
  // Hooks.

  function PhaseOf(e: Engine, s: Settings): Phase {
    if e.phase.Some? then e.phase.value else if s.retained then Retained else Eager
  }

  /** `_fallback_engine`: the phase changes only after every worker has obeyed. */
  function FallBack(e: Engine, rpc: Rpcs): Outcome {
    var after := e.(workers := FallbackAll(e.workers, rpc));
    if FallbackRaises(|e.workers|, rpc) then Raised(after) else Done(after.(phase := Some(Fallback)))
  }

  /** What happens after some worker did not become ready. */
  function AfterFailure(e: Engine, rpc: Rpcs): Outcome {
    if e.retries < RETRY_LIMIT && Retryable(e.workers) then
      var retried := e.(workers := RetryAll(e.workers, rpc));
      if RetryRaises(|e.workers|, rpc) then FallBack(retried, rpc)
      else Done(retried.(retries := e.retries + 1, phase := Some(Eager)))
    else FallBack(e, rpc)
  }

  /** The capture call and what follows it. */
  function Capture(e: Engine, rpc: Rpcs): Outcome {
    var called := e.(phase := Some(Capturing), captures := e.captures + 1, workers := CaptureAll(e.workers, rpc));
    if CaptureRaises(|e.workers|, rpc) then FallBack(called, rpc)
    else if AllReady(called.workers) then Done(called.(phase := Some(Ready)))
    else AfterFailure(called, rpc)
  }

  /** A retained engine whose arm file has appeared starts over from eager dispatch. */
  function Rearmed(e: Engine, s: Settings, r: Reading): Engine {
    if PhaseOf(e, s) == Retained && s.armFile && r.graphFile then e.(phase := Some(Eager)) else e
  }

  predicate GraphArmed(s: Settings, r: Reading) { s.armFile ==> r.graphFile }

  predicate WarmArmed(s: Settings, r: Reading) { s.warmArmFile ==> r.warmFile }

  /** What the capture hook takes the warmup phase to be. */
  function WarmupSeen(e: Engine): WarmPhase { if e.warmup.Some? then e.warmup.value else Warm }

  function Counted(e: Engine, r: Reading): Engine { if r.executed then e.(eagerSteps := e.eagerSteps + 1) else e }

  /** `_maybe_capture_after_step`. */
  function CaptureHook(e0: Engine, s: Settings, r: Reading, rpc: Rpcs): Outcome {
    var e := Rearmed(e0, s, r);
    if PhaseOf(e, s) != Eager || WarmupSeen(e) == Cold || WarmupSeen(e) == Warming then Done(e)
    else if WarmupSeen(e) == WarmFailed then FallBack(e, rpc)
    else
      var c := Counted(e, r);
      if !GraphArmed(s, r) || c.eagerSteps < 1 || !r.graphIdle then Done(c) else Capture(c, rpc)
  }

  /** `_maybe_warm_after_step`. */
  function WarmHook(e: Engine, s: Settings, r: Reading, rpc: Rpcs): Outcome {
    if e.warmup.Some? && e.warmup.value != Cold then Done(e)
    else
      var c := if r.executed then e.(warmSteps := e.warmSteps + 1) else e;
      if c.warmSteps < 1 || !WarmArmed(s, r) || !r.warmIdle then Done(c)
      else
        var called := c.(workers := WarmAll(c.workers, rpc));
        if rpc.fatal then Raised(called.(warmup := Some(Warming)))
        else Done(called.(warmup := Some(if WarmSucceeds(called.workers, rpc) then Warm else WarmFailed)))
  }

  predicate WarmSucceeds(workers: seq<Worker>, rpc: Rpcs) {
    !WarmRaisesAny(|workers|, rpc) && rpc.cacheReset && AllWarm(workers)
  }

  predicate AllWarm(workers: seq<Worker>) { forall i :: 0 <= i < |workers| ==> workers[i].warm == Warm }

  /** One engine step: the warmup hook is nested inside the capture hook. */
  function Step(e: Engine, s: Settings, r: Reading, rpc: Rpcs): Outcome {
    if !s.warmup then CaptureHook(e, s, r, rpc)
    else
      var warmed := WarmHook(e, s, r, rpc);
      if warmed.Raised? then warmed else CaptureHook(warmed.engine, s, r, rpc)
  }

  /** `_prepare_initialized_graph_restore` for a new generation. */
  function Restore(e: Engine, s: Settings, rpc: Rpcs): Outcome {
    if s.retained then Done(e.(eagerSteps := 0, retries := 0, captures := 0))
    else
      var gated := e.(workers := RetryAll(e.workers, rpc));
      if e.workers == [] || RetryRaises(|e.workers|, rpc) then Raised(gated)
      else Done(gated.(phase := Some(Eager), eagerSteps := 0, retries := 0, captures := 0))
  }

  /** The controller gates all workers of a retained engine before it arms the recapture. */
  function Gate(e: Engine, rpc: Rpcs): Outcome {
    var gated := e.(workers := RetryAll(e.workers, rpc));
    if RetryRaises(|e.workers|, rpc) then Raised(gated) else Done(gated)
  }

  // ---------------------------------------------------------------------------------------------
  // Agreement.

  /** All workers dispatch eagerly, or none does. */
  predicate Uniform(workers: seq<Worker>) {
    forall i, j :: 0 <= i < |workers| && 0 <= j < |workers| ==> workers[i].gated == workers[j].gated
  }

  /** A worker that is ready is not gated. */
  predicate Sensible(w: Worker) { w.phase == WReady ==> !w.gated }

  predicate AllSensible(workers: seq<Worker>) { forall i :: 0 <= i < |workers| ==> Sensible(workers[i]) }

  /** What holds between completed events. */
  predicate Inv(e: Engine, s: Settings) {
    && Uniform(e.workers) && AllSensible(e.workers) && PhaseOf(e, s) != Capturing
    && e.retries <= RETRY_LIMIT && e.captures <= e.retries + 1
    && (PhaseOf(e, s) == Eager || PhaseOf(e, s) == Retained ==> e.captures <= e.retries)
  }

  /** A retry call that completes leaves every worker eager and gated. */
  lemma {:induction false} RetryGates(workers: seq<Worker>, rpc: Rpcs)
    requires !RetryRaises(|workers|, rpc)
    ensures AllEager(RetryAll(workers, rpc)) && AllSensible(RetryAll(workers, rpc)) && Uniform(RetryAll(workers, rpc))
  {
    var after := RetryAll(workers, rpc);
    forall i | 0 <= i < |after| ensures after[i].phase == WEager && after[i].gated {
      assert rpc.retry(i).Obeys?;
    }
  }

  predicate AllEager(workers: seq<Worker>) {
    forall i :: 0 <= i < |workers| ==> workers[i].phase == WEager && workers[i].gated
  }

  lemma {:induction false} CaptureSensible(workers: seq<Worker>, rpc: Rpcs)
    requires AllSensible(workers) && !CaptureRaises(|workers|, rpc)
    ensures AllSensible(CaptureAll(workers, rpc))
  {
    var after := CaptureAll(workers, rpc);
    forall i | 0 <= i < |after| ensures Sensible(after[i]) {
      assert !rpc.capture(i).Raises? && Sensible(workers[i]);
    }
  }

  /** A fallback that completes gates every worker. */
  lemma {:induction false} FallBackInv(e: Engine, s: Settings, rpc: Rpcs)
    requires e.retries <= RETRY_LIMIT && e.captures <= e.retries + 1
    ensures FallBack(e, rpc).Done? ==> Inv(FallBack(e, rpc).engine, s) && PhaseOf(FallBack(e, rpc).engine, s) == Fallback
  {
    var after := FallbackAll(e.workers, rpc);
    if FallBack(e, rpc).Done? {
      forall i | 0 <= i < |after| ensures after[i].gated && after[i].phase == WFallback {
        assert rpc.fallback(i).Obeys?;
      }
    }
  }

  lemma {:induction false} AfterFailureInv(e: Engine, s: Settings, rpc: Rpcs)
    requires e.retries <= RETRY_LIMIT && e.captures <= e.retries + 1
    ensures AfterFailure(e, rpc).Done? ==> Inv(AfterFailure(e, rpc).engine, s) && PhaseOf(AfterFailure(e, rpc).engine, s) != Ready
  {
    hide FallBack, RetryAll, Retryable;
    var retried := e.(workers := RetryAll(e.workers, rpc));
    if !RetryRaises(|e.workers|, rpc) { RetryGates(e.workers, rpc); }
    FallBackInv(e, s, rpc);
    FallBackInv(retried, s, rpc);
  }

  lemma {:induction false} CaptureInv(e: Engine, s: Settings, rpc: Rpcs)
    requires Inv(e, s) && PhaseOf(e, s) == Eager
    ensures Capture(e, rpc).Done? ==> Inv(Capture(e, rpc).engine, s)
    ensures Capture(e, rpc).Done? && PhaseOf(Capture(e, rpc).engine, s) == Ready ==> ReadyEverywhere(Capture(e, rpc).engine)
  {
    hide FallBack, AfterFailure, CaptureAll;
    var called := e.(phase := Some(Capturing), captures := e.captures + 1, workers := CaptureAll(e.workers, rpc));
    if !CaptureRaises(|e.workers|, rpc) { CaptureSensible(e.workers, rpc); }
    FallBackInv(called, s, rpc);
    AfterFailureInv(called, s, rpc);
    if !CaptureRaises(|e.workers|, rpc) && AllReady(called.workers) {
      forall i | 0 <= i < |called.workers| ensures !called.workers[i].gated {
        assert Sensible(called.workers[i]);
      }
    }
  }

  /** The worker is ready after the capture call. */
  predicate TurnsReady(w: Worker, reply: CaptureReply) { w.phase == WReady || (w.phase == WEager && reply == Captures) }

  /** The worker is not ready because of a stale graph pool. */
  predicate TurnsStale(w: Worker, reply: CaptureReply) { if w.phase == WEager then reply == Fails(true) else w.phase != WReady && w.stale }

  predicate Answers(n: nat, rpc: Rpcs) { forall i :: 0 <= i < n ==> !rpc.capture(i).Raises? }

  /** Every worker answers and is ready. */
  predicate Succeeds(workers: seq<Worker>, rpc: Rpcs) {
    Answers(|workers|, rpc) && forall i :: 0 <= i < |workers| ==> TurnsReady(workers[i], rpc.capture(i))
  }

  /** Every worker answers, those that are not ready name a stale pool, a retry is left, and every worker accepts it. */
  predicate Retries(workers: seq<Worker>, retries: nat, rpc: Rpcs) {
    && !Succeeds(workers, rpc) && Answers(|workers|, rpc) && retries < 1
    && ReadyOrStale(workers, rpc)
    && (forall i :: 0 <= i < |workers| ==> !rpc.retry(i).Refuses?)
  }

  predicate ReadyOrStale(workers: seq<Worker>, rpc: Rpcs) {
    forall i :: 0 <= i < |workers| ==> TurnsReady(workers[i], rpc.capture(i)) || TurnsStale(workers[i], rpc.capture(i))
  }

  predicate Refused(n: nat, rpc: Rpcs) { exists i :: 0 <= i < n && rpc.fallback(i).Refuses? }

  lemma {:induction false} CaptureOutcome(workers: seq<Worker>, rpc: Rpcs)
    requires !CaptureRaises(|workers|, rpc)
    ensures AllReady(CaptureAll(workers, rpc)) <==> Succeeds(workers, rpc)
    ensures Retryable(CaptureAll(workers, rpc)) <==> !Succeeds(workers, rpc) && ReadyOrStale(workers, rpc)
  {
    var after := CaptureAll(workers, rpc);
    assert Answers(|workers|, rpc);
    forall i | 0 <= i < |workers|
      ensures after[i].phase == WReady <==> TurnsReady(workers[i], rpc.capture(i))
      ensures after[i].phase != WReady ==> (after[i].stale <==> TurnsStale(workers[i], rpc.capture(i)))
    {
      assert !rpc.capture(i).Raises? && after[i] == CaptureOne(workers[i], rpc.capture(i));
    }
  }

  /** The capture call ends ready, eager for a retry, fallen back or with an exception, each exactly when it should. */
  lemma {:induction false} CaptureExact(e: Engine, rpc: Rpcs)
    ensures var o, n := Capture(e, rpc), |e.workers|;
      && (o.Done? && o.engine.phase == Some(Ready) <==> Succeeds(e.workers, rpc))
      && (o.Done? && o.engine.phase == Some(Eager) <==> Retries(e.workers, e.retries, rpc))
      && (o.Done? && o.engine.phase == Some(Fallback) <==>
            !Succeeds(e.workers, rpc) && !Retries(e.workers, e.retries, rpc) && !Refused(n, rpc))
      && (o.Raised? <==> !Succeeds(e.workers, rpc) && !Retries(e.workers, e.retries, rpc) && Refused(n, rpc))
      && o.engine.retries == e.retries + if Retries(e.workers, e.retries, rpc) then 1 else 0
  {
    hide CaptureAll, RetryAll, FallbackAll, AllReady, Retryable, TurnsReady, TurnsStale, ReadyOrStale;
    RpcLengths(e.workers, rpc);
    RpcLengths(CaptureAll(e.workers, rpc), rpc);
    if CaptureRaises(|e.workers|, rpc) {
      assert !Answers(|e.workers|, rpc);
    } else {
      CaptureOutcome(e.workers, rpc);
    }
  }

  lemma {:induction false} CaptureHookInv(e: Engine, s: Settings, r: Reading, rpc: Rpcs)
    requires Inv(e, s)
    ensures var o := CaptureHook(e, s, r, rpc);
      o.Done? ==> Agreed(e, o.engine, s)
  {
    hide FallBack, Capture;
    var a := Rearmed(e, s, r);
    FallBackInv(a, s, rpc);
    if PhaseOf(a, s) == Eager { CaptureInv(Counted(a, r), s, rpc); }
  }

  /** The invariant holds afterwards, and an engine that has become ready has every worker ready. */
  predicate Agreed(before: Engine, after: Engine, s: Settings) {
    Inv(after, s) && (PhaseOf(after, s) == Ready && PhaseOf(before, s) != Ready ==> ReadyEverywhere(after))
  }

  predicate ReadyEverywhere(e: Engine) { forall i :: 0 <= i < |e.workers| ==> e.workers[i].phase == WReady && !e.workers[i].gated }

  /** The warmup hook does not touch dispatch. */
  lemma {:induction false} WarmHookKeeps(e: Engine, s: Settings, r: Reading, rpc: Rpcs)
    ensures var f := WarmHook(e, s, r, rpc).engine;
      && |f.workers| == |e.workers| && (forall i :: 0 <= i < |e.workers| ==> f.workers[i].gated == e.workers[i].gated && f.workers[i].phase == e.workers[i].phase)
      && f.phase == e.phase && f.retries == e.retries && f.captures == e.captures && f.eagerSteps == e.eagerSteps
  {
    var after := WarmAll(e.workers, rpc);
    forall i | 0 <= i < |after| ensures after[i].gated == e.workers[i].gated && after[i].phase == e.workers[i].phase {
      assert after[i] == WarmOne(e.workers[i], rpc.warm(i));
    }
  }

  lemma {:induction false} WarmHookInv(e: Engine, s: Settings, r: Reading, rpc: Rpcs)
    requires Inv(e, s)
    ensures Inv(WarmHook(e, s, r, rpc).engine, s) && PhaseOf(WarmHook(e, s, r, rpc).engine, s) == PhaseOf(e, s)
  {
    hide WarmHook;
    WarmHookKeeps(e, s, r, rpc);
    var f := WarmHook(e, s, r, rpc).engine;
    forall i | 0 <= i < |f.workers| ensures Sensible(f.workers[i]) { assert Sensible(e.workers[i]); }
  }

  /** A completed step keeps the workers in agreement, and the engine is ready only if every worker is. */
  lemma {:induction false} StepInv(e: Engine, s: Settings, r: Reading, rpc: Rpcs)
    requires Inv(e, s)
    ensures var o := Step(e, s, r, rpc);
      o.Done? ==> Agreed(e, o.engine, s)
  {
    hide WarmHook, CaptureHook;
    WarmHookInv(e, s, r, rpc);
    CaptureHookInv(e, s, r, rpc);
    CaptureHookInv(WarmHook(e, s, r, rpc).engine, s, r, rpc);
  }

  lemma {:induction false} RestoreInv(e: Engine, s: Settings, rpc: Rpcs)
    requires Inv(e, s)
    ensures Restore(e, s, rpc).Done? ==> Inv(Restore(e, s, rpc).engine, s)
    ensures Gate(e, rpc).Done? ==> Inv(Gate(e, rpc).engine, s) && AllEager(Gate(e, rpc).engine.workers) && Gate(e, rpc).engine.phase == e.phase
  {
    hide RetryAll;
    if !RetryRaises(|e.workers|, rpc) { RetryGates(e.workers, rpc); }
  }

  // ---------------------------------------------------------------------------------------------
  // Runs.

  datatype Event = Stepped(reading: Reading, rpc: Rpcs) | Restored(rpc: Rpcs) | Gated(rpc: Rpcs)

  function Apply(e: Engine, s: Settings, event: Event): Outcome {
    match event
    case Stepped(r, rpc) => Step(e, s, r, rpc)
    case Restored(rpc) => Restore(e, s, rpc)
    case Gated(rpc) => Gate(e, rpc)
  }

  /** A run; an event that raises ends it. */
  function Run(e: Engine, s: Settings, events: seq<Event>): Outcome {
    if events == [] then Done(e)
    else
      var before := Run(e, s, events[..|events| - 1]);
      if before.Raised? then before else Apply(before.engine, s, events[|events| - 1])
  }

  /** All workers alike, nothing counted yet. */
  predicate Fresh(e: Engine, s: Settings) {
    && e.phase == None && e.warmup == None && e.eagerSteps == e.warmSteps == e.retries == e.captures == 0
    && forall i :: 0 <= i < |e.workers| ==> (e.workers[i].phase == if s.retained then WRetained else WEager) && e.workers[i].gated == !s.retained
  }

  /** Workers that are alike make a start that agrees: all eager, all retained, or all compiled synchronously and ready. */
  lemma {:induction false} StartsAgree(workers: seq<Worker>, s: Settings)
    requires Uniform(workers) && AllSensible(workers)
    ensures Inv(Engine(workers, None, None, 0, 0, 0, 0), s)
  {
  }

  /**
    From every start that agrees, after every run of completed events, whatever single workers do
    and wherever a call that raises leaves them: all workers are gated or none is, and at most two
    captures have been called in the current generation.
   */
  lemma {:induction false} RunAgrees(e: Engine, s: Settings, events: seq<Event>)
    requires Inv(e, s)
    ensures Run(e, s, events).Done? ==> Inv(Run(e, s, events).engine, s) && Run(e, s, events).engine.captures <= 2
  {
    hide Step, Restore, Gate;
    if events != [] {
      var front, last := events[..|events| - 1], events[|events| - 1];
      RunAgrees(e, s, front);
      var before := Run(e, s, front);
      if before.Done? {
        match last
        case Stepped(r, rpc) => StepInv(before.engine, s, r, rpc);
        case Restored(rpc) => RestoreInv(before.engine, s, rpc);
        case Gated(rpc) => RestoreInv(before.engine, s, rpc);
      }
    }
  }

  /** A capture that fails at one worker, with a fallback that fails at the other: the step raises, and the workers differ. */
  lemma {:induction false} RaisedStepsDisagree() returns (e: Engine, s: Settings, r: Reading, rpc: Rpcs)
    ensures Fresh(e, s) && Step(e, s, r, rpc).Raised? && !Uniform(Step(e, s, r, rpc).engine.workers)
  {
    var w := Worker(WEager, true, false, Cold, false);
    var ungated := Worker(WReady, false, false, Cold, false);
    e := Engine([w, w], None, None, 0, 0, 0, 0);
    s, r := Settings(false, false, false, false), Reading(true, false, false, false, true);
    rpc := Rpcs((i: int) => if i == 0 then Captures else Fails(false), (i: int) => Obeys(false),
                (i: int) => if i == 0 then Refuses(ungated) else Obeys(false), (i: int) => Warms, true, false);
    assert rpc.fallback(0).Refuses?;
    var c := e.(eagerSteps := 1);
    var called := c.(phase := Some(Capturing), captures := 1, workers := CaptureAll(c.workers, rpc));
    assert called.workers[1] == CaptureOne(w, rpc.capture(1)) && rpc.capture(1) == Fails(false);
    assert called.workers[1].phase == WFailed && !called.workers[1].stale;
    assert Step(e, s, r, rpc) == Capture(c, rpc) == FallBack(called, rpc);
    var after := FallbackAll(called.workers, rpc);
    assert !after[0].gated && after[1].gated;
  }

  /** The same for a restore in which one worker refuses to be gated. */
  lemma {:induction false} RaisedRestoresDisagree() returns (e: Engine, s: Settings, rpc: Rpcs)
    ensures Inv(e, s) && Restore(e, s, rpc).Raised? && !Uniform(Restore(e, s, rpc).engine.workers)
  {
    var ready := Worker(WReady, false, false, Warm, false);
    e, s := Engine([ready, ready], Some(Ready), None, 1, 0, 0, 1), Settings(false, false, false, false);
    rpc := Rpcs((i: int) => Captures, (i: int) => if i == 0 then Refuses(ready) else Obeys(false), (i: int) => Obeys(false), (i: int) => Warms, true, false);
    assert rpc.retry(0).Refuses?;
    var after := RetryAll(e.workers, rpc);
    assert after[0] == RetryOne(ready, rpc.retry(0)) && after[1] == RetryOne(ready, rpc.retry(1));
    assert !after[0].gated && after[1].gated;
  }

  // ---------------------------------------------------------------------------------------------
  // Warmup comes first.

  /** The warmup hook calls the workers. */
  predicate WarmCalls(e: Engine, s: Settings, r: Reading) {
    (e.warmup == None || e.warmup == Some(Cold)) && (e.warmSteps >= 1 || r.executed) && (s.warmArmFile ==> r.warmFile) && r.warmIdle
  }

  /** The worker is warm after the call. */
  predicate TurnsWarm(w: Worker, reply: WarmReply) {
    !reply.WarmRaises? && w.warm != WarmFailed && (w.warm == Warm || !w.deferred || reply.Warms?)
  }

  predicate WarmsAll(workers: seq<Worker>, rpc: Rpcs) { forall i :: 0 <= i < |workers| ==> TurnsWarm(workers[i], rpc.warm(i)) }

  lemma {:induction false} WarmOutcome(workers: seq<Worker>, rpc: Rpcs)
    ensures WarmSucceeds(WarmAll(workers, rpc), rpc) <==> rpc.cacheReset && WarmsAll(workers, rpc)
  {
    var after := WarmAll(workers, rpc);
    forall i | 0 <= i < |workers| && !rpc.warm(i).WarmRaises? ensures after[i].warm == Warm <==> TurnsWarm(workers[i], rpc.warm(i)) {
      assert after[i] == WarmOne(workers[i], rpc.warm(i));
    }
    if WarmsAll(workers, rpc) {
      forall i | 0 <= i < |workers| ensures !rpc.warm(i).WarmRaises? { assert TurnsWarm(workers[i], rpc.warm(i)); }
    }
  }

  /** When the capture hook finds the engine armed and idle, so did the warmup hook. */
  predicate Covers(s: Settings, r: Reading) { GraphArmed(s, r) && r.graphIdle ==> WarmArmed(s, r) && r.warmIdle }

  /** The step calls the workers to capture. */
  predicate Issues(e: Engine, s: Settings, r: Reading, rpc: Rpcs) { Step(e, s, r, rpc).engine.captures > e.captures }

  /** The warmup phase that the capture hook of the step finds. */
  function WarmupThen(e: Engine, s: Settings, r: Reading, rpc: Rpcs): Option<WarmPhase> {
    if s.warmup then WarmHook(e, s, r, rpc).engine.warmup else e.warmup
  }

  /** As long as the warmup phase is unset, the capture hook has counted no step that the warmup hook has not. */
  predicate StepsCovered(e: Engine) {
    (e.warmup.None? ==> e.eagerSteps <= e.warmSteps) && e.warmup != Some(Cold)
  }

  /** The capture hook goes on only in the eager phase, or in the retained one once the arm file is there. */
  predicate HookEager(e: Engine, s: Settings, r: Reading) {
    || e.phase == Some(Eager) || (e.phase.None? && !s.retained)
    || ((e.phase == Some(Retained) || (e.phase.None? && s.retained)) && s.armFile && r.graphFile)
  }

  /** The capture hook calls the workers to capture. */
  predicate HookCaptures(e: Engine, s: Settings, r: Reading) {
    && HookEager(e, s, r) && (e.warmup == None || e.warmup == Some(Warm))
    && (s.armFile ==> r.graphFile) && r.graphIdle && (e.eagerSteps >= 1 || r.executed)
  }

  /** What a capture hook does that does not capture: it counts the step, or falls back after a failed warmup. */
  predicate HookWaits(e: Engine, f: Engine, raised: bool, s: Settings, r: Reading, rpc: Rpcs) {
    if HookEager(e, s, r) && e.warmup == Some(WarmFailed) then
      if Refused(|e.workers|, rpc) then raised else !raised && f.phase == Some(Fallback) && FellBack(f.workers)
    else
      && !raised && f.workers == e.workers && f == e.(phase := f.phase, eagerSteps := f.eagerSteps)
      && f.phase == (if HookEager(e, s, r) && (e.phase.Some? || s.retained) then Some(Eager) else e.phase)
      && f.eagerSteps == e.eagerSteps + if HookEager(e, s, r) && (e.warmup == None || e.warmup == Some(Warm)) && r.executed then 1 else 0
  }

  /** The capture hook, without reference to how it works. */
  lemma {:induction false} HookExact(e: Engine, s: Settings, r: Reading, rpc: Rpcs)
    ensures var o := CaptureHook(e, s, r, rpc);
      && o.engine.captures == e.captures + (if HookCaptures(e, s, r) then 1 else 0)
      && (!HookCaptures(e, s, r) ==> HookWaits(e, o.engine, o.Raised?, s, r, rpc))
      && (HookCaptures(e, s, r) ==>
            && (o.engine.phase == Some(Ready) <==> Succeeds(e.workers, rpc))
            && (o.engine.phase == Some(Eager) <==> Retries(e.workers, e.retries, rpc))
            && (o.Raised? <==> !Succeeds(e.workers, rpc) && !Retries(e.workers, e.retries, rpc) && Refused(|e.workers|, rpc)))
  {
    hide Capture, FallbackAll, Succeeds, Retries, FellBack;
    FallbackGates(e.workers, rpc);
    var c := Counted(Rearmed(e, s, r), r);
    CaptureExact(c, rpc);
    CaptureEnds(c, rpc);
  }

  lemma {:induction false} HookIssues(e: Engine, s: Settings, r: Reading, rpc: Rpcs)
    ensures CaptureHook(e, s, r, rpc).engine.captures > e.captures <==>
      && PhaseOf(Rearmed(e, s, r), s) == Eager && WarmupSeen(e) == Warm && GraphArmed(s, r) && r.graphIdle
      && Counted(e, r).eagerSteps >= 1
    ensures CaptureHook(e, s, r, rpc).engine.warmup == e.warmup && CaptureHook(e, s, r, rpc).engine.warmSteps == e.warmSteps
    ensures CaptureHook(e, s, r, rpc).engine.eagerSteps <= Counted(e, r).eagerSteps
    ensures CaptureHook(e, s, r, rpc).engine.captures >= e.captures
  {
    hide FallbackAll, CaptureAll, RetryAll, AllReady, Retryable, CaptureRaises, RetryRaises, FallbackRaises;
  }

  /**
    With deferred warmup enabled and readings that cover each other, a capture is called only
    after the warmup has ended well.
   */
  lemma {:induction false} WarmupFirst(e: Engine, s: Settings, r: Reading, rpc: Rpcs)
    requires s.warmup && StepsCovered(e) && Covers(s, r)
    ensures Issues(e, s, r, rpc) ==> WarmupThen(e, s, r, rpc) == Some(Warm) && Step(e, s, r, rpc).engine.warmup == Some(Warm)
    ensures Step(e, s, r, rpc).Done? ==> StepsCovered(Step(e, s, r, rpc).engine)
    ensures e.warmup == Some(WarmFailed) ==> !Issues(e, s, r, rpc)
  {
    hide CaptureHook, WarmAll;
    var warmed := WarmHook(e, s, r, rpc);
    if warmed.Done? { HookIssues(warmed.engine, s, r, rpc); }
  }

  /** Exactly a step whose readings differ that way calls a capture before the warmup has begun. */
  lemma {:induction false} EarlyCaptureExact(e: Engine, s: Settings, r: Reading, rpc: Rpcs)
    requires s.warmup && StepsCovered(e) && e.warmup.None? && PhaseOf(Rearmed(e, s, r), s) == Eager
    requires e.eagerSteps >= 1 || r.executed
    ensures Issues(e, s, r, rpc) && WarmupThen(e, s, r, rpc).None? <==> !Covers(s, r)
  {
    hide CaptureHook, WarmAll;
    var warmed := WarmHook(e, s, r, rpc);
    if warmed.Done? { HookIssues(warmed.engine, s, r, rpc); }
  }

  /** The first engine step can be such a step: the arm file appears between the two readings. */
  lemma {:induction false} EarlyCapture(workers: seq<Worker>, rpc: Rpcs) returns (e: Engine, s: Settings, r: Reading)
    requires forall i :: 0 <= i < |workers| ==> workers[i].phase == WEager && workers[i].gated
    ensures e.workers == workers && Fresh(e, s) && s.warmup
    ensures Issues(e, s, r, rpc) && WarmupThen(e, s, r, rpc).None?
  {
    e, s := Engine(workers, None, None, 0, 0, 0, 0), Settings(false, true, true, true);
    r := Reading(true, false, true, true, true);
    EarlyCaptureExact(e, s, r, rpc);
  }

  /** Event `i` of the run is a step that calls a capture. */
  predicate CapturesAt(e: Engine, s: Settings, events: seq<Event>, i: nat)
    requires i < |events|
  {
    var before := Run(e, s, events[..i]);
    before.Done? && events[i].Stepped? && Issues(before.engine, s, events[i].reading, events[i].rpc)
  }

  /**
    In every run with covering readings, a capture is called only in steps that find the warmup
    well ended: never before it has ended, and never after it has failed.
   */
  lemma {:induction false} RunWarmsFirst(e: Engine, s: Settings, events: seq<Event>)
    requires StepsCovered(e) && s.warmup && forall i :: 0 <= i < |events| && events[i].Stepped? ==> Covers(s, events[i].reading)
    ensures Run(e, s, events).Done? ==> StepsCovered(Run(e, s, events).engine)
    ensures forall i :: 0 <= i < |events| && CapturesAt(e, s, events, i) ==>
      WarmupThen(Run(e, s, events[..i]).engine, s, events[i].reading, events[i].rpc) == Some(Warm)
  {
    hide Step, WarmupThen, Issues;
    if events != [] {
      var n := |events| - 1;
      var front, last := events[..n], events[n];
      RunWarmsFirst(e, s, front);
      var before := Run(e, s, front);
      if before.Done? && last.Stepped? { WarmupFirst(before.engine, s, last.reading, last.rpc); }
      forall i | 0 <= i < |events| && CapturesAt(e, s, events, i)
        ensures WarmupThen(Run(e, s, events[..i]).engine, s, events[i].reading, events[i].rpc) == Some(Warm)
      {
        if i < n {
          assert front[..i] == events[..i] && front[i] == events[i];
          assert CapturesAt(e, s, front, i);
        }
      }
    }
  }

  // ---------------------------------------------------------------------------------------------
  // The engine itself.

  function Ended(raised: bool, e: Engine): Outcome { if raised then Raised(e) else Done(e) }

  /**
    What a capture call makes of a worker: an eager one that captures dispatches graphs, an eager one
    that fails is gated and keeps its error, any other is left alone.
   */
  predicate Tried(before: Worker, after: Worker, reply: CaptureReply) {
    && (reply.Raises? ==> after == reply.after)
    && (!reply.Raises? ==> after.warm == before.warm && after.deferred == before.deferred)
    && (!reply.Raises? && before.phase != WEager ==> after == before)
    && (reply.Captures? && before.phase == WEager ==> after.phase == WReady && !after.gated && !after.stale)
    && (reply.Fails? && before.phase == WEager ==> after.phase == WFailed && after.gated && after.stale == reply.stale)
  }

  /** What a retry or a fallback call makes of a worker. */
  predicate Sent(before: Worker, after: Worker, reply: Reply, phase: WorkerPhase) {
    && (reply.Refuses? ==> after == reply.after)
    && (reply.Obeys? ==> after.phase == phase && after.gated && after.stale == reply.stale && after.warm == before.warm && after.deferred == before.deferred)
  }

  /** What the warmup call makes of a worker: a warmup that has ended stays as it is, and one that was not deferred has nothing to do. */
  predicate Warmed(before: Worker, after: Worker, reply: WarmReply) {
    && after == before.(warm := after.warm)
    && (before.warm == Warm || before.warm == WarmFailed ==> after == before)
    && (before.warm == Cold || before.warm == Warming ==>
          after.warm == if !before.deferred || reply.Warms? then Warm else if reply.WarmFails? then WarmFailed else reply.left)
  }

  class EngineCore {
    var workers: seq<Worker>
    var phase: Option<Phase>
    var warmup: Option<WarmPhase>
    var eagerSteps: nat
    var warmSteps: nat
    var retries: nat
    var captures: nat

    function View(): Engine
      reads this
    {
      Engine(workers, phase, warmup, eagerSteps, warmSteps, retries, captures)
    }

    constructor (workers: seq<Worker>)
      ensures View() == Engine(workers, None, None, 0, 0, 0, 0)
    {
      this.workers := workers;
      phase, warmup, eagerSteps, warmSteps, retries, captures := None, None, 0, 0, 0, 0;
    }

    /**
      A collective call reaches every worker; it raises if any worker raises. Otherwise every eager
      worker is ready and dispatches graphs, or has failed and is gated; the others are as they were.
     */
    method CallCapture(rpc: Rpcs) returns (raised: bool)
      modifies this`workers
      ensures |workers| == old(|workers|) && (raised <==> exists i :: 0 <= i < |workers| && rpc.capture(i).Raises?)
      ensures forall i :: 0 <= i < |workers| ==> Tried(old(workers[i]), workers[i], rpc.capture(i))
      ensures workers == CaptureAll(old(workers), rpc) && raised == CaptureRaises(|workers|, rpc)
    {
      raised := false;
      for i := 0 to |workers|
        invariant |workers| == old(|workers|) && raised == CaptureRaises(i, rpc)
        invariant forall k :: 0 <= k < |workers| ==> workers[k] == if k < i then CaptureOne(old(workers)[k], rpc.capture(k)) else old(workers)[k]
      {
        var reply, w := rpc.capture(i), workers[i];
        if reply.Raises? {
          raised, w := true, reply.after;
        } else if w.phase == WEager {
          w := w.(phase := WCapturing, gated := false, stale := false);
          if reply.Captures? {
            w := w.(phase := WReady);
          } else {
            w := w.(phase := WFailed, gated := true, stale := reply.stale);
          }
        }
        workers := workers[i := w];
      }
    }

    /** A retry call that completes has made every worker eager and gated. */
    method CallRetry(rpc: Rpcs) returns (raised: bool)
      modifies this`workers
      ensures |workers| == old(|workers|) && (raised <==> exists i :: 0 <= i < |workers| && rpc.retry(i).Refuses?)
      ensures forall i :: 0 <= i < |workers| ==> Sent(old(workers[i]), workers[i], rpc.retry(i), WEager)
      ensures !raised ==> AllEager(workers)
      ensures workers == RetryAll(old(workers), rpc) && raised == RetryRaises(|workers|, rpc)
    {
      raised := false;
      for i := 0 to |workers|
        invariant |workers| == old(|workers|) && raised == RetryRaises(i, rpc)
        invariant forall k :: 0 <= k < |workers| ==> workers[k] == if k < i then RetryOne(old(workers)[k], rpc.retry(k)) else old(workers)[k]
      {
        var reply := rpc.retry(i);
        raised := raised || reply.Refuses?;
        workers := workers[i := if reply.Refuses? then reply.after else workers[i].(phase := WEager, gated := true, stale := reply.stale)];
      }
    }

    /** A fallback call that completes has gated every worker for good. */
    method CallFallback(rpc: Rpcs) returns (raised: bool)
      modifies this`workers
      ensures |workers| == old(|workers|) && (raised <==> exists i :: 0 <= i < |workers| && rpc.fallback(i).Refuses?)
      ensures forall i :: 0 <= i < |workers| ==> Sent(old(workers[i]), workers[i], rpc.fallback(i), WFallback)
      ensures !raised ==> FellBack(workers)
      ensures workers == FallbackAll(old(workers), rpc) && raised == FallbackRaises(|workers|, rpc)
    {
      raised := false;
      for i := 0 to |workers|
        invariant |workers| == old(|workers|) && raised == FallbackRaises(i, rpc)
        invariant forall k :: 0 <= k < |workers| ==> workers[k] == if k < i then FallbackOne(old(workers)[k], rpc.fallback(k)) else old(workers)[k]
      {
        var reply := rpc.fallback(i);
        raised := raised || reply.Refuses?;
        workers := workers[i := if reply.Refuses? then reply.after else workers[i].(phase := WFallback, gated := true, stale := reply.stale)];
      }
    }

    /** The warmup call touches no phase and no gate; if it completes, the warmup of every worker has ended. */
    method CallWarm(rpc: Rpcs) returns (raised: bool)
      modifies this`workers
      ensures |workers| == old(|workers|) && (raised <==> exists i :: 0 <= i < |workers| && rpc.warm(i).WarmRaises?)
      ensures forall i :: 0 <= i < |workers| ==> Warmed(old(workers[i]), workers[i], rpc.warm(i))
      ensures !raised ==> forall i :: 0 <= i < |workers| ==> workers[i].warm == Warm || workers[i].warm == WarmFailed
      ensures workers == WarmAll(old(workers), rpc) && raised == WarmRaisesAny(|workers|, rpc)
    {
      raised := false;
      for i := 0 to |workers|
        invariant |workers| == old(|workers|) && raised == WarmRaisesAny(i, rpc)
        invariant forall k :: 0 <= k < |workers| ==> workers[k] == if k < i then WarmOne(old(workers)[k], rpc.warm(k)) else old(workers)[k]
      {
        var reply, w := rpc.warm(i), workers[i];
        raised := raised || reply.WarmRaises?;
        if w.warm != Warm && w.warm != WarmFailed {
          if !w.deferred {
            w := w.(warm := Warm);
          } else {
            w := w.(warm := if reply.Warms? then Warm else if reply.WarmFails? then WarmFailed else reply.left);
          }
        }
        workers := workers[i := w];
      }
    }

    /** A fallback that completes has gated every worker; one that raises leaves the engine phase as it was. */
    method FallBackEngine(rpc: Rpcs) returns (raised: bool)
      modifies this`workers, this`phase
      ensures |workers| == old(|workers|) && (raised <==> exists i :: 0 <= i < |workers| && rpc.fallback(i).Refuses?)
      ensures raised ==> phase == old(phase)
      ensures !raised ==> phase == Some(Fallback) && FellBack(workers)
      ensures Ended(raised, View()) == FallBack(old(View()), rpc)
    {
      hide FallbackAll;
      raised := CallFallback(rpc);
      FallbackGates(old(workers), rpc);
      if !raised {
        phase := Some(Fallback);
      }
    }

    /** The phase that the capture hook works with; a retained engine is started over once its arm file is there. */
    method Rearm(s: Settings, r: Reading) returns (current: Phase)
      modifies this`phase
      ensures View() == Rearmed(old(View()), s, r) && current == PhaseOf(View(), s)
    {
      current := if phase.Some? then phase.value else if s.retained then Retained else Eager;
      if current == Retained && s.armFile && r.graphFile {
        current, phase := Eager, Some(Eager);
      }
    }

    /**
      The capture hook keeps the agreement of the workers, makes the engine ready only if every
      worker is, and calls a capture only for an armed, idle engine that has seen an eager step.
     */
    method MaybeCapture(s: Settings, r: Reading, rpc: Rpcs) returns (raised: bool)
      modifies this
      ensures old(Inv(View(), s)) && !raised ==> Agreed(old(View()), View(), s)
      ensures captures == old(captures) + (if old(HookCaptures(View(), s, r)) then 1 else 0)
      ensures old(!HookCaptures(View(), s, r)) ==> HookWaits(old(View()), View(), raised, s, r, rpc)
      ensures old(HookCaptures(View(), s, r)) ==>
        && (phase == Some(Ready) <==> old(Succeeds(workers, rpc))) && (phase == Some(Eager) <==> old(Retries(workers, retries, rpc)))
        && (raised <==> old(!Succeeds(workers, rpc) && !Retries(workers, retries, rpc) && Refused(|workers|, rpc)))
      ensures Ended(raised, View()) == CaptureHook(old(View()), s, r, rpc)
    {
      hide Capture, FallBack, Inv, AllEager, AllReady, FallbackRaises, FellBack, Agreed, Rearmed, PhaseOf, HookCaptures, HookWaits, Succeeds, Retries, Refused;
      HookExact(View(), s, r, rpc);
      if Inv(View(), s) { CaptureHookInv(View(), s, r, rpc); }
      var current := Rearm(s, r);
      if current != Eager {
        return false;
      }
      var warm := if warmup.Some? then warmup.value else Warm;
      if warm == Cold || warm == Warming {
        return false;
      }
      if warm == WarmFailed {
        raised := FallBackEngine(rpc);
        return raised;
      }
      if r.executed {
        eagerSteps := eagerSteps + 1;
      }
      if (s.armFile && !r.graphFile) || eagerSteps < 1 || !r.graphIdle {
        return false;
      }
      raised := CaptureNow(rpc);
    }

    /**
      The capture call. It ends with the engine ready and every worker ready, with one more retry
      and every worker eager again, or with every worker fallen back; or the fallback raises.
     */
    method CaptureNow(rpc: Rpcs) returns (raised: bool)
      modifies this
      ensures captures == old(captures) + 1
      ensures phase == Some(Ready) <==> old(Succeeds(workers, rpc))
      ensures phase == Some(Eager) <==> old(Retries(workers, retries, rpc))
      ensures raised <==> old(!Succeeds(workers, rpc) && !Retries(workers, retries, rpc) && Refused(|workers|, rpc))
      ensures !raised ==> phase == Some(Ready) || phase == Some(Eager) || phase == Some(Fallback)
      ensures retries == old(retries) + if phase == Some(Eager) then 1 else 0
      ensures eagerSteps == old(eagerSteps) && warmup == old(warmup) && warmSteps == old(warmSteps)
      ensures !raised && phase == Some(Ready) ==> AllReady(workers)
      ensures !raised && phase == Some(Eager) ==> AllEager(workers) && retries == old(retries) + 1 <= RETRY_LIMIT
      ensures !raised && phase == Some(Fallback) ==> FellBack(workers)
      ensures Ended(raised, View()) == Capture(old(View()), rpc)
    {
      hide CaptureAll, RetryAll, CaptureRaises, RetryRaises, FallBack, AllReady, AllEager, FellBack, Succeeds, Retries, Refused, Retryable, Tried, Sent;
      RpcLengths(workers, rpc);
      CaptureExact(View(), rpc);
      CaptureEnds(View(), rpc);
      phase, captures := Some(Capturing), captures + 1;
      raised := CallCapture(rpc);
      if raised {
        raised := FallBackEngine(rpc);
        return raised;
      }
      if !AllReady(workers) {
        if retries < RETRY_LIMIT && Retryable(workers) {
          RpcLengths(workers, rpc);
          ghost var here := workers;
          raised := CallRetry(rpc);
          if !raised {
            RetryGates(here, rpc);
            retries, phase := retries + 1, Some(Eager);
            return false;
          }
        }
        raised := FallBackEngine(rpc);
        return raised;
      }
      phase := Some(Ready);
      return false;
    }

    /** The warmup hook touches no gate; it reports a warm engine only if every worker is warm. */
    method MaybeWarm(s: Settings, r: Reading, rpc: Rpcs) returns (raised: bool)
      modifies this
      ensures old(Inv(View(), s)) ==> Inv(View(), s)
      ensures phase == old(phase) && captures == old(captures)
      ensures warmup == Some(Warm) && old(warmup) != Some(Warm) ==> AllWarm(workers)
      ensures raised <==> old(WarmCalls(View(), s, r)) && rpc.fatal
      ensures old(WarmCalls(View(), s, r)) && !rpc.fatal ==>
        warmup == Some(if rpc.cacheReset && old(WarmsAll(workers, rpc)) then Warm else WarmFailed)
      ensures old(!WarmCalls(View(), s, r)) ==> workers == old(workers) && warmup == old(warmup)
      ensures eagerSteps == old(eagerSteps) && retries == old(retries)
      ensures warmSteps == old(warmSteps) + if r.executed && old(warmup == None || warmup == Some(Cold)) then 1 else 0
      ensures Ended(raised, View()) == WarmHook(old(View()), s, r, rpc)
    {
      hide WarmAll, WarmRaisesAny, AllWarm, Inv, WarmsAll, Warmed;
      WarmOutcome(workers, rpc);
      if Inv(View(), s) { WarmHookInv(View(), s, r, rpc); }
      RpcLengths(workers, rpc);
      if warmup.Some? && warmup.value != Cold {
        return false;
      }
      if r.executed {
        warmSteps := warmSteps + 1;
      }
      if warmSteps < 1 || (s.warmArmFile && !r.warmFile) || !r.warmIdle {
        return false;
      }
      warmup := Some(Warming);
      var failed := CallWarm(rpc);
      if rpc.fatal {
        return true;
      }
      if failed || !rpc.cacheReset || !AllWarm(workers) {
        warmup := Some(WarmFailed);
        return false;
      }
      warmup := Some(Warm);
      return false;
    }

    /**
      `_process_engine_step` with both hooks installed in their order. A step that completes keeps
      the agreement; with covering readings it calls a capture only after the warmup ended well.
     */
    method ProcessStep(s: Settings, r: Reading, rpc: Rpcs) returns (raised: bool)
      modifies this
      ensures old(Inv(View(), s)) && !raised ==> Agreed(old(View()), View(), s)
      ensures s.warmup && old(StepsCovered(View())) && Covers(s, r) ==>
        (captures > old(captures) ==> warmup == Some(Warm)) && (!raised ==> StepsCovered(View()))
      ensures Ended(raised, View()) == Step(old(View()), s, r, rpc)
    {
      hide WarmHook, CaptureHook, Inv, ReadyEverywhere, Agreed, StepsCovered, Covers;
      if Inv(View(), s) { StepInv(View(), s, r, rpc); }
      if s.warmup && StepsCovered(View()) && Covers(s, r) { WarmupFirst(View(), s, r, rpc); }
      if s.warmup {
        raised := MaybeWarm(s, r, rpc);
        if raised {
          return true;
        }
      }
      raised := MaybeCapture(s, r, rpc);
    }

    /** `_prepare_initialized_graph_restore` for a new generation: afterwards every worker is gated, or its graphs are retained. */
    method PrepareRestore(s: Settings, rpc: Rpcs) returns (raised: bool)
      modifies this
      ensures old(Inv(View(), s)) && !raised ==> Inv(View(), s)
      ensures !raised ==> captures == 0 && retries == 0 && eagerSteps == 0
      ensures warmup == old(warmup) && warmSteps == old(warmSteps) && (s.retained ==> workers == old(workers) && phase == old(phase))
      ensures !raised && !s.retained ==> AllEager(workers) && phase == Some(Eager)
      ensures raised <==> !s.retained && (workers == [] || exists i :: 0 <= i < |workers| && rpc.retry(i).Refuses?)
      ensures Ended(raised, View()) == Restore(old(View()), s, rpc)
    {
      hide RetryAll, RetryRaises, Inv, AllEager;
      if Inv(View(), s) { RestoreInv(View(), s, rpc); }
      RpcLengths(workers, rpc);
      if !RetryRaises(|workers|, rpc) { RetryGates(workers, rpc); }
      if !s.retained {
        raised := CallRetry(rpc);
        if raised || workers == [] {
          return true;
        }
        phase := Some(Eager);
      }
      eagerSteps, retries, captures := 0, 0, 0;
      return false;
    }
  }

  /** A capture that raises is left in the capturing phase. */
  lemma {:induction false} CaptureEnds(e: Engine, rpc: Rpcs)
    ensures var o := Capture(e, rpc);
      && (o.Raised? ==> o.engine.phase == Some(Capturing))
      && o.engine == e.(workers := o.engine.workers, phase := o.engine.phase, retries := o.engine.retries, captures := e.captures + 1)
  {
    hide CaptureAll, RetryAll, FallbackAll, AllReady, Retryable;
  }

  /** Every worker has fallen back and is gated. */
  predicate FellBack(workers: seq<Worker>) {
    forall i :: 0 <= i < |workers| ==> workers[i].phase == WFallback && workers[i].gated
  }

  lemma {:induction false} FallbackGates(workers: seq<Worker>, rpc: Rpcs)
    ensures |FallbackAll(workers, rpc)| == |workers|
    ensures !FallbackRaises(|workers|, rpc) ==> FellBack(FallbackAll(workers, rpc))
  {
    if !FallbackRaises(|workers|, rpc) {
      forall i | 0 <= i < |workers| ensures FallbackAll(workers, rpc)[i].phase == WFallback && FallbackAll(workers, rpc)[i].gated {
        assert rpc.fallback(i).Obeys?;
      }
    }
  }

  lemma {:induction false} RpcLengths(workers: seq<Worker>, rpc: Rpcs)
    ensures |CaptureAll(workers, rpc)| == |RetryAll(workers, rpc)| == |WarmAll(workers, rpc)| == |workers|
  {
  }
}
