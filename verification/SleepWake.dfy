/**
  The sleep and wake of the disk backend in blob mode (`suspend`, `resume`): what survives when any
  call of a run fails.

  A call that fails ends the attempt, so an attempt is described by the one call that fails, if
  any. Contents of freshly mapped memory, and how far a failed transfer came, are arbitrary. The
  transfer is the one of `HydrationPipeline`, with the ring that the attempts before have left.
 */
module SleepWake {
  import opened Bytes
  import opened WeightBlob
  import opened HydrationPipeline

  datatype Phase = Running | Suspending | Suspended | Resuming | Failed

  /** The call of a sleep that fails. An unmap can fail before or after it took effect. */
  datatype SleepFault =
    | NoSleepFault | FirstSync | WriteSnapshot | GraphRelease(paused: bool)
    | Unmap(pointer: int, effective: bool) | LastSync | SleepState

  /**
    The call of a wake that fails. A remap can fail before or after it took effect, and a failed
    transfer can leave reads in flight in its staging ring.
   */
  datatype WakeFault =
    | NoWakeFault | Load | MapWeight(pointer: int, effective: bool) | Hydrate | EmptyCache
    | MapDiscard(pointer: int, effective: bool) | FillZero(pointer: int) | ZeroSync(pointer: int) | Verify(pointer: int)
    | GraphRestore | FinalSync | WakeState

  /** What a wake has remapped so far, and whether the graphs are paused. */
  datatype Marks = Marks(weights: set<int>, discards: set<int>, paused: bool)

  function FaultPointer(fault: WakeFault): int {
    if fault.MapWeight? || fault.MapDiscard? || fault.FillZero? || fault.ZeroSync? || fault.Verify? then fault.pointer else 0
  }

  /** The call fails in the visit of the discardable allocation `p`. */
  predicate DiscardFault(fault: WakeFault, p: int, unmapped: bool) {
    fault == Verify(p) || (unmapped && (MapFault(fault, p) || ZeroFault(fault, p)))
  }

  predicate MapFault(fault: WakeFault, p: int) { fault.MapDiscard? && fault.pointer == p }

  /** Zeroing fails after the remap, before the remap is recorded. */
  predicate ZeroFault(fault: WakeFault, p: int) { fault == FillZero(p) || fault == ZeroSync(p) }

  /** The range of `p` has been mapped, and the call fails before that is recorded. */
  predicate Halfway(fault: WakeFault, p: int) { ZeroFault(fault, p) || (MapFault(fault, p) && fault.effective) }

  /** The call fails while the allocations in `todo` are visited, of which `done` are already remapped. */
  predicate HitIn(fault: WakeFault, todo: set<int>, done: set<int>) {
    match fault
    case Verify(p) => p in todo
    case MapDiscard(p, _) => p in todo - done
    case FillZero(p) => p in todo - done
    case ZeroSync(p) => p in todo - done
    case _ => false
  }

  /** What a remap of one of the weights in `todo` strands that fails after its effect. */
  function WeightHalfway(fault: WakeFault, todo: set<int>, mapped: set<int>): set<int> {
    if fault.MapWeight? && fault.effective && fault.pointer in todo - mapped then {fault.pointer} else {}
  }

  lemma {:induction false} FaultHere(fault: WakeFault, p: int, todo: set<int>, start: set<int>, done: set<int>)
    requires p in todo && (FaultPointer(fault) == p ==> (p in done <==> p in start))
    ensures DiscardFault(fault, p, p !in done) <==> HitIn(fault, todo, start) && FaultPointer(fault) == p
    ensures Halfway(fault, p) ==> FaultPointer(fault) == p && (p !in done ==> DiscardFault(fault, p, true))
  {
  }

  lemma {:induction false} StrandHit(fault: WakeFault, todo: set<int>, done: set<int>, mapped: set<int>)
    requires done <= mapped
    ensures Halfway(fault, FaultPointer(fault)) && FaultPointer(fault) in todo - mapped ==> HitIn(fault, todo, done)
  {
  }

  lemma {:induction false} HitTodo(fault: WakeFault, todo: set<int>, done: set<int>)
    requires HitIn(fault, todo, done)
    ensures FaultPointer(fault) in todo
  {
  }

  predicate NoRepeat(s: seq<int>) { forall i, j :: 0 <= i < j < |s| ==> s[i] != s[j] }

  function Members(s: seq<int>): set<int> { set p | p in s }

  ghost predicate Measured(content: Contents, sizes: map<int, nat>) {
    content.Keys == sizes.Keys && forall p :: p in content ==> |content[p]| == sizes[p]
  }

  ghost predicate Zeroed(pointers: set<int>, content: Contents) {
    forall p :: p in pointers ==> p in content && content[p] == Zeros(|content[p]|)
  }

  /** `a` and `b` agree on `keep`. */
  ghost predicate Same(keep: set<int>, a: Contents, b: Contents) {
    forall p :: p in keep ==> p in a && p in b && a[p] == b[p]
  }

  /** No range was mapped twice, and those in `done` were mapped by a remap. */
  ghost predicate Counted(remaps: multiset<int>, mapped: set<int>, done: set<int>) {
    forall p :: remaps[p] <= 1 && (p in remaps ==> p in mapped) && (p in done ==> p in remaps)
  }

  /** A partly finished transfer: each byte is the old one or the new one. */
  predicate Mixed(before: seq<Byte>, target: seq<Byte>, after: seq<Byte>) {
    |before| == |target| == |after| && forall i :: 0 <= i < |after| ==> after[i] == before[i] || after[i] == target[i]
  }

  lemma {:induction false} InMembers(list: seq<int>, i: nat)
    requires i < |list|
    ensures list[i] in Members(list)
  {
  }

  lemma {:induction false} MembersEnds(list: seq<int>)
    ensures Members(list[..0]) == {} && Members(list[..|list|]) == Members(list)
  {
    assert list[..|list|] == list;
  }

  lemma {:induction false} MembersNext(list: seq<int>, i: nat)
    requires i < |list| && NoRepeat(list)
    ensures list[i] in Members(list) && list[i] !in Members(list[..i])
    ensures Members(list[..i + 1]) == Members(list[..i]) + {list[i]} && Members(list[..i]) <= Members(list)
  {
    assert list[..i + 1] == list[..i] + [list[i]];
    assert list[i] !in list[..i];
  }

  /** Changing one allocation keeps every statement about the others. */
  lemma {:induction false} Rewrite(content: Contents, sizes: map<int, nat>, p: int, bytes: seq<Byte>, zeroed: set<int>, keep: set<int>, before: Contents)
    requires Measured(content, sizes) && p in content && |bytes| == sizes[p]
    requires Zeroed(zeroed, content) && (p !in zeroed || bytes == Zeros(|bytes|))
    requires Same(keep, content, before) && (p !in keep || bytes == before[p])
    ensures Measured(content[p := bytes], sizes) && Zeroed(zeroed, content[p := bytes]) && Same(keep, content[p := bytes], before)
    ensures Same(content.Keys - {p}, content[p := bytes], content)
  {
  }

  lemma {:induction false} SameChain(keep: set<int>, keep': set<int>, a: Contents, b: Contents, c: Contents)
    requires Same(keep, a, b) && Same(keep', b, c)
    ensures Same(keep * keep', a, c)
  {
  }

  /** No attempt fails between a remap and its record. */
  predicate NeverHalfway(faults: seq<WakeFault>) {
    forall f :: f in faults ==> !f.FillZero? && !f.ZeroSync? && !(f.MapWeight? && f.effective) && !(f.MapDiscard? && f.effective)
  }

  /** Whether reads can be in flight after an attempt that failed: a transfer that completes waits for them. */
  predicate Flies(before: bool, fault: WakeFault) {
    match fault
    case Hydrate => true
    case Load => before
    case MapWeight(_, _) => before
    case _ => false
  }

  predicate Flying(before: bool, faults: seq<WakeFault>) {
    if faults == [] then before else Flies(Flying(before, faults[..|faults| - 1]), faults[|faults| - 1])
  }

  lemma {:induction false} FlyingNext(before: bool, faults: seq<WakeFault>, i: nat)
    requires i < |faults|
    ensures Flying(before, faults[..i + 1]) == Flies(Flying(before, faults[..i]), faults[i])
  {
    assert faults[..i + 1][..i] == faults[..i];
  }

  lemma {:induction false} FliesExact(before: bool, fault: WakeFault)
    ensures Flies(before, fault) <==> fault.Hydrate? || (before && (fault.Load? || fault.MapWeight?))
  {
  }

  lemma {:induction false} FlyingStart(before: bool, faults: seq<WakeFault>)
    ensures Flying(before, faults[..0]) == before
  {
  }

  lemma {:induction false} NeverFlying(faults: seq<WakeFault>)
    requires Hydrate !in faults
    ensures !Flying(false, faults)
  {
    if faults != [] {
      var front := faults[..|faults| - 1];
      assert forall f :: f in front ==> f in faults;
      assert faults[|faults| - 1] in faults;
      NeverFlying(front);
    }
  }

  class DiskBackend {
    /** The preserved and the discardable allocations, by pointer, and which of the latter sleep drops. */
    const weights: seq<int>
    const discards: seq<int>
    const payload: set<int>
    const sizes: map<int, nat>
    /** Whether discardable regions are configured, and whether the engine has CUDA graphs. */
    const regions: bool
    const graphs: bool
    /** How the blob is read: chunk size and queue depth, and the checksum that is checked if `inline`. */
    const chunk: nat
    const depth: nat
    const inline: bool
    const step: (int, Byte) -> int
    const init: int

    var content: Contents
    var mapped: set<int>
    var released: set<int>
    var restoreMapped: set<int>
    var discardMapped: set<int>
    var blob: Option<Contents>
    var reusable: bool
    var graphPaused: bool
    /** The staging ring, with what earlier transfers have left in flight. */
    var ring: Ring
    var state: Phase
    /** The successful remap calls since the last sleep. */
    ghost var remaps: multiset<int>

    function W(): set<int> { Members(weights) }

    function D(): set<int> { Members(discards) }

    function Config(): Setup { Setup(weights, sizes, chunk, depth, inline, step, init) }

    /** The bytes of the weights. */
    function WeightBytes(): Contents
      reads this`content
    {
      map p | p in W() && p in content :: content[p]
    }

    ghost predicate Valid()
      reads this`content, this`mapped, this`released, this`restoreMapped, this`discardMapped, this`remaps, this`graphPaused, this`ring
    {
      && (Awake() ==> Idle(ring)) && Laid(Config()) && (discards != [] ==> regions)
      && NoRepeat(weights) && NoRepeat(discards) && W() !! D() && payload <= D()
      && sizes.Keys == W() + D() && Measured(content, sizes)
      && mapped <= W() + D() && released <= W() + payload && W() + D() <= released + mapped
      && restoreMapped <= released * mapped * W() && discardMapped <= released * mapped * D()
      && Zeroed(discardMapped, content) && Counted(remaps, mapped, restoreMapped + discardMapped)
    }

    /** Nothing is released: the engine can run. */
    predicate Awake()
      reads this`released, this`restoreMapped, this`discardMapped, this`graphPaused
    {
      released == {} && restoreMapped == {} && discardMapped == {} && !graphPaused
    }

    /** Marked released but still mapped, and not by the wake: every further remap of it is refused. */
    function Stuck(): set<int>
      reads this`released, this`mapped, this`restoreMapped, this`discardMapped
    {
      released * mapped - restoreMapped - discardMapped
    }

    /**
      `o` is what the weights held when the sleep began, and what the blob holds as long as it is
      needed; the reads in flight are reads of that blob.
     */
    ghost predicate Saved(o: Contents)
      reads this`released, this`restoreMapped, this`discardMapped, this`graphPaused, this`blob, this`reusable, this`ring
    {
      && o.Keys == W() && Laid(Config()) && Fits(weights, sizes, o)
      && (!Awake() ==> blob == Some(o) && Own(Config(), o, ring)) && (reusable ==> blob == Some(o))
    }

    /** The weights that are not released still hold `o`. */
    ghost predicate Intact(o: Contents)
      reads this`content, this`released
    {
      Same(W() - released, content, o)
    }

    /** The reads in flight cannot spoil the next transfer. */
    ghost predicate CleanRing(o: Contents)
      reads this`ring
    {
      Laid(Config()) && Fits(weights, sizes, o) && Clean(Config(), o, ring)
    }

    /** The next transfer, if it succeeds, writes what the blob holds. */
    ghost predicate Trusted(o: Contents)
      reads this`ring
    {
      Laid(Config()) && Fits(weights, sizes, o) && Safe(Config(), o, ring)
    }

    /** The checksums of the next transfer will be right. */
    ghost predicate Checked(o: Contents, late: Late)
      reads this`ring
    {
      Laid(Config()) && Fits(weights, sizes, o) && Verified(Config(), o, ring, late)
    }

    /** The weights hold `o`, except perhaps in the jobs that first fill the ring. */
    ghost predicate RightBeyond(o: Contents)
      reads this`content
    {
      RightIn(content, o)
    }

    ghost predicate RightIn(a: Contents, o: Contents) {
      Laid(Config()) && forall p :: p in W() ==> p in a && p in o && |a[p]| == |o[p]| && BytesBeyond(Config(), p, a[p], o[p])
    }

    /** All jobs fit into the ring at once, or a checksum is checked that tells all contents apart. */
    ghost predicate Unspoilable() { Laid(Config()) && (JobCount(Config()) <= depth || (inline && Tells(step, init))) }

    /** Attempt `i` is one without a failing call, and nothing that is left can make its checksums fail. */
    predicate CleanAt(faults: seq<WakeFault>, flying: bool, i: int) {
      Laid(Config()) && 0 <= i < |faults| && faults[i] == NoWakeFault
      && (!inline || JobCount(Config()) <= depth || !Flying(flying, faults[..i]))
    }

    ghost predicate SomeClean(faults: seq<WakeFault>, flying: bool) { exists i :: CleanAt(faults, flying, i) }

    ghost predicate Recoverable(sleepFault: SleepFault, faults: seq<WakeFault>) {
      !(sleepFault.Unmap? && !sleepFault.effective) && NeverHalfway(faults) && SomeClean(faults, false)
    }

    /** A running engine: everything is mapped and no blob has been written. */
    constructor (weights: seq<int>, discards: seq<int>, payload: set<int>, content: Contents, regions: bool, graphs: bool,
                 chunk: nat, depth: nat, inline: bool, step: (int, Byte) -> int, init: int)
      requires discards != [] ==> regions
      requires NoRepeat(weights) && NoRepeat(discards) && Members(weights) !! Members(discards) && payload <= Members(discards)
      requires content.Keys == Members(weights) + Members(discards)
      requires Laid(Setup(weights, map p | p in content :: |content[p]|, chunk, depth, inline, step, init))
      ensures Valid() && Awake() && Saved(WeightBytes()) && Intact(WeightBytes()) && this.content == content && state == Running
      ensures this.weights == weights && this.discards == discards && this.payload == payload
      ensures Config() == Setup(weights, sizes, chunk, depth, inline, step, init) && sizes == map p | p in content :: |content[p]|
    {
      this.weights, this.discards, this.payload, this.content := weights, discards, payload, content;
      this.chunk, this.depth, this.inline, this.step, this.init := chunk, depth, inline, step, init;
      sizes := map p | p in content :: |content[p]|;
      mapped, released, restoreMapped, discardMapped := content.Keys, {}, {}, {};
      this.regions, this.graphs := regions, graphs;
      blob, reusable, graphPaused, ring, state, remaps := None, false, false, NoRing(), Running, multiset{};
    }

    lemma {:induction false} Bounds()
      requires Valid()
      ensures W() !! D() && NoRepeat(weights) && NoRepeat(discards) && Measured(content, sizes) && sizes.Keys == W() + D()
      ensures released <= W() + payload && payload <= D()
      ensures restoreMapped <= released * W() && discardMapped <= released * D()
      ensures restoreMapped <= mapped && discardMapped <= mapped && mapped <= W() + D()
      ensures Stuck() <= released && Stuck() <= mapped && Stuck() !! discardMapped && W() + D() <= released + mapped
      ensures Zeroed(discardMapped, content) && (Awake() ==> Idle(ring)) && Laid(Config())
    {
      hide Members, NoRepeat, Measured, Zeroed, Counted, Laid;
    }

    // -------------------------------------------------------------------------------------------
    // The memory provider.

    /** `release`: the mark is set even if the unmap call raises. */
    method Release(p: int, fault: SleepFault) returns (ok: bool)
      requires Valid() && p in W() + payload && p !in released && remaps == multiset{} && restoreMapped == discardMapped == {}
      modifies this`mapped, this`released, this`content
      ensures Valid() && released == old(released) + {p}
      ensures ok <==> !(fault.Unmap? && fault.pointer == p)
      ensures mapped == if ok || fault.effective then old(mapped) - {p} else old(mapped)
      ensures Same(W() + D() - {p}, content, old(content))
    {
      hide Members, NoRepeat, Measured, Zeroed, Same, Counted, Laid, Fits, Own;
      Reflexive(content, sizes, remaps, mapped);
      assert restoreMapped + discardMapped == {};
      ok := !(fault.Unmap? && fault.pointer == p);
      if ok || fault.effective {
        var lost := Undefined(sizes[p]);
        Rewrite(content, sizes, p, lost, {}, {}, content);
        Reflexive(content[p := lost], sizes, remaps, mapped - {p});
        mapped, content := mapped - {p}, content[p := lost];
      }
      released := released + {p};
    }

    /** `remap`: refused if the range is still mapped; the new pages hold anything. A call that raises may have mapped the range. */
    method Remap(p: int, fails: bool, effective: bool) returns (ok: bool)
      requires Valid() && p in released && p !in restoreMapped && p !in discardMapped
      modifies this`mapped, this`content, this`remaps
      ensures Valid()
      ensures ok <==> !fails && p !in old(mapped)
      ensures mapped == (if !fails || effective then old(mapped) + {p} else old(mapped))
      ensures ok ==> p in remaps
      ensures Same(W() + D() - {p}, content, old(content))
    {
      hide Members, NoRepeat, Measured, Zeroed, Same, Counted, Laid, Fits, Own;
      Reflexive(content, sizes, remaps, mapped);
      ok := !fails && p !in mapped;
      if p !in mapped && (!fails || effective) {
        var pages := Undefined(sizes[p]);
        Rewrite(content, sizes, p, pages, discardMapped, {}, content);
        CountRemap(remaps, mapped, restoreMapped + discardMapped, p);
        mapped, content := mapped + {p}, content[p := pages];
        if ok {
          remaps := remaps + multiset{p};
        }
      }
    }

    // -------------------------------------------------------------------------------------------
    // Sleep.

    /** The call is reached in a sleep in which nothing else fails. */
    predicate SleepHit(fault: SleepFault) {
      match fault
      case NoSleepFault => false
      case Unmap(p, _) => p in W() + payload
      case _ => true
    }

    /** The graphs are paused when the sleep ends: it has them, and it got past their release or the failing release paused them. */
    predicate PausedBy(fault: SleepFault) {
      graphs && !fault.FirstSync? && !fault.WriteSnapshot? && (fault.GraphRelease? ==> fault.paused)
    }

    /** Nothing is released before the graphs are, and no discardable range before all weights. */
    predicate DroppedInTurn(fault: SleepFault)
      reads this`released
    {
      && (fault.FirstSync? || fault.WriteSnapshot? || fault.GraphRelease? ==> released == {})
      && (released * D() != {} ==> W() <= released)
      && (!SleepHit(fault) || fault.LastSync? || fault.SleepState? ==> released == W() + payload)
    }

    /** The blob holds the weights, as it did or newly written; a write that fails leaves none. */
    ghost predicate Kept(fault: SleepFault, o: Contents, before: Option<Contents>, reuse: bool)
      reads this`blob, this`reusable
    {
      if fault.FirstSync? then blob == before && reusable == reuse
      else if fault.WriteSnapshot? then blob == None && !reusable
      else blob == Some(o) && (reusable ==> reuse)
    }

    method WriteSnapshotFile(fault: SleepFault) returns (ok: bool)
      requires Valid() && Awake() && Saved(WeightBytes()) && !fault.FirstSync?
      modifies this`blob, this`reusable
      ensures Saved(WeightBytes())
      ensures ok <==> !fault.WriteSnapshot?
      ensures Kept(fault, WeightBytes(), old(blob), old(reusable))
    {
      hide Members, NoRepeat, Measured, Zeroed, Same, Counted, Laid, Fits, Own;
      var intact: bool := *;
      if reusable && intact && !fault.WriteSnapshot? {
        return true;
      }
      blob, reusable := None, false;
      if fault.WriteSnapshot? {
        return false;
      }
      blob := Some(WeightBytes());
      return true;
    }

    /** The marks and mappings while exactly the allocations in `done` have been released. */
    ghost predicate Dropping(done: set<int>, before: Contents)
      reads this`content, this`mapped, this`released, this`restoreMapped, this`discardMapped, this`remaps
    {
      && released == done && restoreMapped == discardMapped == {} && remaps == multiset{} && mapped == W() + D() - done
      && Same(W() + D() - done, content, before)
    }

    /** Unmaps the listed allocations one by one. */
    method ReleaseAll(list: seq<int>, fault: SleepFault, ghost done: set<int>, ghost before: Contents) returns (ok: bool)
      requires Valid() && Dropping(done, before) && NoRepeat(list) && Members(list) !! done && Members(list) <= W() + payload
      modifies this`mapped, this`released, this`content
      ensures Valid()
      ensures ok <==> !(fault.Unmap? && fault.pointer in Members(list))
      ensures ok ==> Dropping(done + Members(list), before)
      ensures done <= released <= done + Members(list)
      ensures !ok ==> Stuck() == (if fault.effective then {} else {fault.pointer})
      ensures Same(W() + D() - released, content, before)
    {
      hide Members, NoRepeat, Measured, Zeroed, Same, Counted, Laid, Fits, Own;
      MembersEnds(list);
      assert done + {} == done;
      for i := 0 to |list|
        invariant Valid() && Dropping(done + Members(list[..i]), before)
        invariant !(fault.Unmap? && fault.pointer in Members(list[..i]))
      {
        MembersNext(list, i);
        ghost var here := content;
        ok := Release(list[i], fault);
        SameChain(W() + D() - {list[i]}, W() + D() - (done + Members(list[..i])), content, here, before);
        assert (W() + D() - {list[i]}) * (W() + D() - (done + Members(list[..i]))) == W() + D() - (done + Members(list[..i + 1]));
        assert released == done + Members(list[..i + 1]);
        if !ok {
          return false;
        }
      }
      return true;
    }

    /** Releases the weights, then the dropped part of the discardable regions. */
    method DropPools(fault: SleepFault, ghost before: Contents) returns (ok: bool)
      requires Valid() && Dropping({}, before)
      modifies this`mapped, this`released, this`content
      ensures Valid()
      ensures ok <==> !(fault.Unmap? && SleepHit(fault))
      ensures ok ==> released == W() + payload
      ensures released * D() != {} ==> W() <= released
      ensures Stuck() == if !ok && !fault.effective then {fault.pointer} else {}
      ensures Same(W() + D() - released, content, before)
    {
      hide Members, NoRepeat, Measured, Zeroed, Same, Counted, Laid, Fits, Own;
      ok := ReleaseAll(weights, fault, {}, before);
      assert released * D() == {};
      if ok {
        var list := Ordered(payload, discards);
        assert {} + Members(weights) == W();
        ok := ReleaseAll(list, fault, W(), before);
      }
    }

    method PauseGraphs(paused: bool)
      requires Valid() && Awake()
      modifies this`graphPaused
      ensures Valid() && graphPaused == paused
    {
      hide Members, NoRepeat, Measured, Zeroed, Counted, Laid;
      graphPaused := paused;
    }

    /** The calls of a sleep, in their order. */
    method Sleep(fault: SleepFault) returns (ok: bool)
      requires Valid() && Awake() && Saved(WeightBytes()) && remaps == multiset{}
      modifies this`blob, this`reusable, this`graphPaused, this`mapped, this`released, this`content
      ensures Valid() && Saved(old(WeightBytes())) && Intact(old(WeightBytes()))
      ensures ok <==> !SleepHit(fault)
      ensures DroppedInTurn(fault) && graphPaused == PausedBy(fault) && Kept(fault, old(WeightBytes()), old(blob), old(reusable))
      ensures Stuck() == if fault.Unmap? && !fault.effective && SleepHit(fault) then {fault.pointer} else {}
      ensures Same(W() + D() - released, content, old(content))
    {
      hide Members, NoRepeat, Measured, Zeroed, Same, Counted, Laid, Fits, Own, Valid;
      Bounds();
      Reflexive(content, sizes, remaps, mapped);
      assert W() + D() - {} == W() + D();
      KeepWeights(W(), D(), released, content, content, WeightBytes());
      QuietOwn(Config(), WeightBytes(), ring);
      if fault.FirstSync? {
        return false;
      }
      ok := WriteSnapshotFile(fault);
      if !ok {
        return false;
      }
      PauseGraphs(graphs && (fault.GraphRelease? ==> fault.paused));
      if fault.GraphRelease? {
        return false;
      }
      assert mapped == W() + D() - {};
      ok := DropPools(fault, content);
      KeepWeights(W(), D(), released, content, old(content), old(WeightBytes()));
      ok := ok && !fault.LastSync? && !fault.SleepState?;
    }

    method Suspend(fault: SleepFault) returns (ok: bool)
      requires Valid() && Awake() && Saved(WeightBytes())
      modifies this
      ensures Valid() && Saved(old(WeightBytes())) && Intact(old(WeightBytes())) && restoreMapped == discardMapped == {} && Idle(ring)
      ensures ok <==> !SleepHit(fault)
      ensures state == if ok then Suspended else Failed
      ensures DroppedInTurn(fault) && graphPaused == PausedBy(fault) && Kept(fault, old(WeightBytes()), old(blob), old(reusable))
      ensures Stuck() == if fault.Unmap? && !fault.effective && SleepHit(fault) then {fault.pointer} else {}
      ensures Same(W() + D() - released, content, old(content))
    {
      hide Members, NoRepeat, Measured, Zeroed, Same, Laid, Fits, Own, DroppedInTurn;
      state, remaps := Suspending, multiset{};
      ok := Sleep(fault);
      state := if ok then Suspended else Failed;
    }

    // -------------------------------------------------------------------------------------------
    // Wake.

    /** The call is reached in a wake in which nothing else fails. */
    predicate WakeHit(fault: WakeFault)
      reads this`released, this`restoreMapped, this`discardMapped, this`graphPaused
    {
      if Awake() then fault.WakeState?
      else match fault {
        case NoWakeFault => false
        case MapWeight(p, _) => p in released * W() - restoreMapped
        case MapDiscard(p, _) => p in released * D() - discardMapped
        case FillZero(p) => p in released * D() - discardMapped
        case ZeroSync(p) => p in released * D() - discardMapped
        case Verify(p) => p in released * D()
        case EmptyCache => regions
        case _ => true
      }
    }

    /** What a remap of a weight strands that fails after its effect. */
    function WeightStrands(fault: WakeFault): set<int>
      reads this`released, this`mapped
    {
      WeightHalfway(fault, released * W(), mapped)
    }

    /** One weight of `_remap_weight_allocations`; it is remapped if it is released and has not been yet. */
    method RemapWeight(p: int, fault: WakeFault) returns (ok: bool)
      requires Valid() && p in W()
      modifies this`mapped, this`content, this`remaps, this`restoreMapped
      ensures Valid()
      ensures ok <==> p !in old(Stuck()) && !(fault.MapWeight? && fault.pointer == p && p in old(released - restoreMapped))
      ensures restoreMapped == if ok && p in released then old(restoreMapped) + {p} else old(restoreMapped)
      ensures mapped == old(mapped) || mapped == old(mapped) + {p}
      ensures Stuck() == old(Stuck()) + if p in old(released - restoreMapped) then WeightHalfway(fault, {p}, old(mapped)) else {}
      ensures Same(W() + D() - {p}, content, old(content)) && (p !in released ==> content == old(content))
    {
      hide Members, NoRepeat, Measured, Zeroed, Same, Counted, Laid, Fits, Own;
      Reflexive(content, sizes, remaps, mapped);
      if p !in released || p in restoreMapped {
        // Published during an incomplete restore: never the case.
        assert !(p !in released && p in restoreMapped);
        return true;
      }
      ok := Remap(p, fault.MapWeight? && fault.pointer == p, fault.MapWeight? && fault.effective);
      if ok {
        CountDone(remaps, mapped, restoreMapped + discardMapped, p);
        assert restoreMapped + discardMapped + {p} == (restoreMapped + {p}) + discardMapped;
        restoreMapped := restoreMapped + {p};
      }
    }

    /** `_remap_weight_allocations`. */
    method RemapWeights(fault: WakeFault) returns (ok: bool)
      requires Valid()
      modifies this`mapped, this`content, this`remaps, this`restoreMapped
      ensures Valid() && old(restoreMapped) <= restoreMapped
      ensures ok <==> old(Stuck()) !! W() && !(fault.MapWeight? && fault.pointer in old(released * W() - restoreMapped))
      ensures ok ==> restoreMapped == released * W() && Stuck() == old(Stuck()) && old(WeightStrands(fault)) == {}
      ensures old(Stuck()) <= Stuck() <= old(Stuck()) + old(WeightStrands(fault))
      ensures old(Stuck()) !! W() ==> Stuck() == old(Stuck()) + old(WeightStrands(fault))
      ensures mapped * D() == old(mapped) * D()
      ensures Same(W() + D() - released * W(), content, old(content))
    {
      hide Members, NoRepeat, Measured, Zeroed, Same, Counted, Valid, Stuck;
      Bounds();
      MembersEnds(weights);
      Reflexive(content, sizes, remaps, mapped);
      ghost var keep, stuck, todo := W() + D() - released * W(), Stuck(), released * W() - restoreMapped;
      SameSub(W() + D(), keep, content, content);
      for i := 0 to |weights|
        invariant Valid() && Stuck() == stuck
        invariant restoreMapped == old(restoreMapped) + released * Members(weights[..i])
        invariant stuck !! Members(weights[..i]) && mapped * D() == old(mapped) * D()
        invariant fault.MapWeight? && fault.pointer !in Members(weights[..i]) ==> (fault.pointer in mapped <==> fault.pointer in old(mapped))
        invariant !(fault.MapWeight? && fault.pointer in todo * Members(weights[..i]))
        invariant Same(keep, content, old(content))
      {
        var p := weights[i];
        MembersNext(weights, i);
        ghost var here := content;
        ok := RemapWeight(p, fault);
        if p in released { Carry(W() + D() - {p}, keep, content, here, old(content)); }
        if !ok {
          return false;
        }
      }
      return true;
    }

    /** Every weight holds what is in memory at its address. */
    ghost predicate Mirrors(mem: Memory, n: nat)
      reads this`content
    {
      n <= |weights| && forall i :: 0 <= i < n ==>
        && weights[i] in content && weights[i] in sizes && Mapped(mem, weights[i], sizes[weights[i]])
        && content[weights[i]] == Peek(mem, weights[i], sizes[weights[i]])
    }

    /** Stores one weight of a transfer; a transfer that failed has written part of it. */
    method WriteWeight(i: nat, mem: Memory, whole: bool, ghost before: Contents)
      requires Valid() && i < |weights| && weights[i] in sizes && Mapped(mem, weights[i], sizes[weights[i]])
      requires (whole ==> Mirrors(mem, i)) && Same(D(), content, before)
      modifies this`content
      ensures Valid() && (whole ==> Mirrors(mem, i + 1)) && Same(D(), content, before)
      ensures forall o :: PutRight(mem, i, o) && old(Intact(o)) ==> Intact(o)
    {
      hide Members, Measured, Zeroed, Same, Counted, Mixed, Laid;
      var p := weights[i];
      InMembers(weights, i);
      SizedAt(content, sizes, p);
      var bytes := Peek(mem, p, sizes[p]);
      if !whole {
        bytes := Interrupted(content[p], bytes);
      }
      forall o | PutRight(mem, i, o) && Intact(o) ensures Same(W() - released, content[p := bytes], o) {
        if !whole && p !in released { NotMixed(content, o, W() - released, p, bytes); }
        Rewrite(content, sizes, p, bytes, discardMapped, W() - released, o);
      }
      Rewrite(content, sizes, p, bytes, discardMapped, D(), before);
      content := content[p := bytes];
    }

    /** Memory holds the right bytes of weight `i`. */
    ghost predicate PutRight(mem: Memory, i: nat, o: Contents)
      requires i < |weights| && weights[i] in sizes && Mapped(mem, weights[i], sizes[weights[i]])
    {
      weights[i] in o && Peek(mem, weights[i], sizes[weights[i]]) == o[weights[i]]
    }

    /** Stores what a transfer writes: all of it, or part of it. */
    method WriteWeights(mem: Memory, whole: bool, ghost o: Contents)
      requires Valid() && Fits(weights, sizes, o) && HoldsLate(Config(), mem, o)
      modifies this`content
      ensures Valid() && (whole ==> Mirrors(mem, |weights|)) && Same(D(), content, old(content))
      ensures Holds(Config(), mem, o) && old(Intact(o)) ==> Intact(o)
    {
      hide Members, NoRepeat, Measured, Zeroed, Same, Counted, Valid, Intact, Mirrors, Laid, Early, Fits;
      Bounds();
      Reflexive(content, sizes, remaps, mapped);
      SameSub(W() + D(), D(), content, content);
      NoMirror(mem);
      for i := 0 to |weights|
        invariant Valid() && (whole ==> Mirrors(mem, i)) && Same(D(), content, old(content))
        invariant Holds(Config(), mem, o) && old(Intact(o)) ==> Intact(o)
      {
        LaidAt(mem, o, i);
        WriteWeight(i, mem, whole, old(content));
      }
    }

    lemma {:induction false} NoMirror(mem: Memory)
      ensures Mirrors(mem, 0)
    {
    }

    lemma {:induction false} LaidAt(mem: Memory, o: Contents, i: nat)
      requires Laid(Config()) && Fits(weights, sizes, o) && HoldsLate(Config(), mem, o) && i < |weights|
      ensures weights[i] in sizes && Mapped(mem, weights[i], sizes[weights[i]])
      ensures Holds(Config(), mem, o) ==> PutRight(mem, i, o)
    {
      hide Early;
    }

    /** Weights that mirror memory are right where memory is. */
    lemma {:induction false} MirrorRight(mem: Memory, o: Contents)
      requires Laid(Config()) && Fits(weights, sizes, o) && HoldsLate(Config(), mem, o) && Mirrors(mem, |weights|)
      ensures RightBeyond(o)
      ensures Holds(Config(), mem, o) ==> Same(W(), content, o)
    {
      hide Early;
      forall p | p in W()
        ensures p in content && p in o && |content[p]| == |o[p]| && BytesBeyond(Config(), p, content[p], o[p])
        ensures Holds(Config(), mem, o) ==> content[p] == o[p]
      {
        var i :| 0 <= i < |weights| && weights[i] == p;
        assert content[p] == Peek(mem, p, sizes[p]);
      }
    }

    /**
      Reads the blob into the weights: it succeeds exactly if no call fails and the checksums are
      right. Then the weights are right, if the ring was clean or a checksum tells contents apart,
      and in any case outside the jobs that first fill the ring.
     */
    method HydrateWeights(fails: bool, late: Late, ghost o: Contents) returns (ok: bool)
      requires Valid() && Saved(o) && blob == Some(o) && !Awake() && W() <= mapped
      modifies this`content, this`ring
      ensures Valid() && Saved(o) && (ok <==> !fails && old(Checked(o, late)))
      ensures ok ==> RightBeyond(o) && (old(Trusted(o)) ==> Same(W(), content, o))
      ensures !fails ==> Idle(ring)
      ensures old(CleanRing(o) && Intact(o)) ==> Intact(o)
      ensures Same(D(), content, old(content))
    {
      hide Members, NoRepeat, Measured, Zeroed, Same, Counted, Valid, Intact, Mirrors, Laid, Fits, Clean, Safe, Verified, Own, Holds, HoldsLate, RightBeyond;
      Bounds();
      var mem, left;
      ok, mem, left := ReadBlob(Config(), blob.value, ring, late, fails);
      ghost var before := ring;
      KeepRing(left);
      WriteWeights(mem, ok, o);
      if ok { MirrorRight(mem, o); }
    }

    method KeepRing(left: Ring)
      requires Valid() && !Awake()
      modifies this`ring
      ensures Valid() && ring == left
    {
      hide Members, NoRepeat, Measured, Zeroed, Counted, Laid;
      ring := left;
    }

    /** Zeroes a range that has just been remapped, and records it. */
    method ZeroDiscard(p: int, fault: WakeFault) returns (ok: bool)
      requires Valid() && p in Stuck() * D() && p in remaps
      modifies this`content, this`discardMapped
      ensures Valid() && (ok <==> !ZeroFault(fault, p))
      ensures discardMapped == if ok then old(discardMapped) + {p} else old(discardMapped)
      ensures Same(W() + D() - {p}, content, old(content))
    {
      hide Members, NoRepeat, Measured, Zeroed, Same, Counted, Laid, Fits, Own;
      Reflexive(content, sizes, remaps, mapped);
      if fault == FillZero(p) {
        return false;
      }
      var zeros := Zeros(sizes[p]);
      SizedAt(content, sizes, p);
      Rewrite(content, sizes, p, zeros, discardMapped, W() + D() - {p}, content);
      content := content[p := zeros];
      if fault == ZeroSync(p) {
        return false;
      }
      ZeroedMore(content, discardMapped, p);
      CountDone(remaps, mapped, restoreMapped + discardMapped, p);
      assert restoreMapped + discardMapped + {p} == restoreMapped + (discardMapped + {p});
      discardMapped := discardMapped + {p};
      return true;
    }

    /** `_remap_discard_regions` for one allocation that is marked released. */
    method RemapDiscard(p: int, fault: WakeFault) returns (ok: bool)
      requires Valid() && p in released * D()
      modifies this`mapped, this`content, this`remaps, this`discardMapped
      ensures Valid()
      ensures ok <==> p !in old(Stuck()) && !DiscardFault(fault, p, p !in old(discardMapped))
      ensures mapped == old(mapped) || mapped == old(mapped) + {p}
      ensures discardMapped == old(discardMapped) || discardMapped == old(discardMapped) + {p}
      ensures ok ==> p in discardMapped
      ensures Stuck() == old(Stuck()) + (if p !in old(mapped) && Halfway(fault, p) then {p} else {})
      ensures Same(W() + D() - {p}, content, old(content))
    {
      hide Members, NoRepeat, Measured, Zeroed, Same, Counted, Laid, Fits, Own, Valid;
      Bounds();
      Reflexive(content, sizes, remaps, mapped);
      if p !in discardMapped {
        ok := Remap(p, MapFault(fault, p), fault.MapDiscard? && fault.effective);
        if !ok {
          return false;
        }
        ghost var here := content;
        ok := ZeroDiscard(p, fault);
        Carry(W() + D() - {p}, W() + D() - {p}, content, here, old(content));
        if !ok {
          return false;
        }
      }
      ok := VerifyZero(p, fault);
    }

    /** Reads a zeroed range back: only the call itself can fail. */
    method VerifyZero(p: int, fault: WakeFault) returns (ok: bool)
      requires Valid() && p in discardMapped
      ensures ok <==> fault != Verify(p)
    {
      hide Members, NoRepeat, Measured, Zeroed, Counted, Laid, Valid;
      Bounds();
      ZeroedAt(content, discardMapped, p);
      ok := fault != Verify(p) && forall i :: 0 <= i < |content[p]| ==> content[p][i] == 0;
    }

    /** One of the discard calls fails. */
    predicate DiscardsHit(fault: WakeFault)
      reads this`released, this`discardMapped
    {
      HitIn(fault, released * D(), discardMapped)
    }

    /** What a failure between the remap of a discardable range and its record strands. */
    function DiscardStrands(fault: WakeFault): set<int>
      reads this`released, this`mapped
    {
      var p := FaultPointer(fault);
      if Halfway(fault, p) && p in released * D() - mapped then {p} else {}
    }

    function Strands(fault: WakeFault): set<int>
      reads this`released, this`mapped
    {
      WeightStrands(fault) + DiscardStrands(fault)
    }

    /** `_remap_discard_regions`. */
    method RemapDiscards(fault: WakeFault) returns (ok: bool)
      requires Valid()
      modifies this`mapped, this`content, this`remaps, this`discardMapped
      ensures Valid() && old(discardMapped) <= discardMapped
      ensures ok <==> old(Stuck()) !! D() && !old(DiscardsHit(fault))
      ensures ok ==> discardMapped == released * D() && Stuck() == old(Stuck())
      ensures old(Stuck()) <= Stuck() <= old(Stuck()) + old(DiscardStrands(fault))
      ensures old(Stuck()) !! D() ==> Stuck() == old(Stuck()) + old(DiscardStrands(fault))
      ensures Same(W() + D() - released * D(), content, old(content))
    {
      hide Members, NoRepeat, Measured, Zeroed, Same, Counted, Valid, Stuck, HitIn, DiscardFault, Halfway, FaultPointer;
      Bounds();
      MembersEnds(discards);
      Reflexive(content, sizes, remaps, mapped);
      ghost var keep, todo, q, stuck := W() + D() - released * D(), released * D(), FaultPointer(fault), Stuck();
      SameSub(W() + D(), keep, content, content);
      ghost var hit, done := DiscardsHit(fault), discardMapped;
      if hit { HitTodo(fault, todo, done); }
      StrandHit(fault, todo, done, mapped);
      for i := 0 to |discards|
        invariant Valid() && Stuck() == stuck
        invariant old(discardMapped) <= discardMapped <= todo
        invariant todo * Members(discards[..i]) <= discardMapped
        invariant stuck !! Members(discards[..i])
        invariant !hit || q !in Members(discards[..i])
        invariant q !in Members(discards[..i]) ==> (q in mapped <==> q in old(mapped)) && (q in discardMapped <==> q in old(discardMapped))
        invariant Same(keep, content, old(content))
      {
        var p := discards[i];
        MembersNext(discards, i);
        if p in released {
          ghost var here := content;
          FaultHere(fault, p, todo, done, discardMapped);
          ok := RemapDiscard(p, fault);
          Carry(W() + D() - {p}, keep, content, here, old(content));
          if !ok {
            assert p in stuck || q == p;
            return false;
          }
          assert p !in stuck;
        }
      }
      return true;
    }

    /** `_commit_restore` and `_commit_discard_regions`; neither can find an allocation that was not remapped. */
    method Commit()
      requires Valid() && Idle(ring) && restoreMapped == released * W() && discardMapped == released * D()
      modifies this`released, this`restoreMapped, this`discardMapped
      ensures Valid() && released == restoreMapped == discardMapped == {}
    {
      hide Members, NoRepeat, Measured, Zeroed, Same, Counted, Laid, Fits, Own;
      MembersEnds(weights);
      MembersEnds(discards);
      for i := 0 to |weights|
        invariant released == old(released) - Members(weights[..i])
        invariant restoreMapped == old(restoreMapped) && discardMapped == old(discardMapped)
      {
        MembersNext(weights, i);
        assert weights[i] in released ==> weights[i] in restoreMapped;
        released := released - {weights[i]};
      }
      restoreMapped := {};
      for i := 0 to |discards|
        invariant released == old(released) - W() - Members(discards[..i])
        invariant restoreMapped == {} && discardMapped == old(discardMapped)
      {
        MembersNext(discards, i);
        assert discards[i] in released ==> discards[i] in discardMapped;
        released := released - {discards[i]};
      }
      NothingDone(content, remaps, mapped, old(restoreMapped + discardMapped));
      forall p | p in W() + D() ensures p in mapped {
        if p in old(released) { assert p in old(restoreMapped) || p in old(discardMapped); }
      }
      discardMapped := {};
      assert released == {} && restoreMapped + discardMapped == {};
    }

    /** Loads the manifest, remaps the weights and reads their bytes. */
    method RestoreWeights(fault: WakeFault, late: Late, ghost o: Contents) returns (ok: bool)
      requires Valid() && Saved(o) && !Awake()
      modifies this`mapped, this`content, this`remaps, this`restoreMapped, this`ring
      ensures Valid() && Saved(o) && !Awake() && old(restoreMapped) <= restoreMapped
      ensures ok <==> !fault.Load? && !fault.Hydrate? && old(Stuck()) !! W() && old(Checked(o, late))
                      && !(fault.MapWeight? && fault.pointer in old(released * W() - restoreMapped))
      ensures ok ==> restoreMapped == released * W() && Stuck() == old(Stuck()) && Idle(ring)
      ensures fault.Load? ==> restoreMapped == old(restoreMapped)
      ensures ok ==> RightBeyond(o) && (old(Trusted(o)) ==> Same(W(), content, o))
      ensures old(Stuck()) !! W() && !Flies(!Quiet(old(ring)), fault) ==> Quiet(ring)
      ensures old(Stuck()) <= Stuck() <= old(Stuck()) + old(WeightStrands(fault))
      ensures old(Stuck()) !! W() ==> Stuck() == old(Stuck()) + old(WeightStrands(fault))
      ensures old(CleanRing(o) && Intact(o)) ==> Intact(o)
      ensures Same(D() - released, content, old(content))
      ensures DiscardStrands(fault) == old(DiscardStrands(fault))
      ensures old(Stuck()) !! W() && !(fault.MapWeight? && fault.pointer in old(released * W() - restoreMapped)) ==> old(WeightStrands(fault)) == {}
    {
      hide Members, NoRepeat, Measured, Zeroed, Same, Counted, Valid, Saved, Intact, Awake, Stuck, WeightStrands, DiscardStrands, Checked, Trusted,
        CleanRing, RightBeyond, Flies;
      Bounds();
      Reflexive(content, sizes, remaps, mapped);
      LoadStrands(fault);
      FliesExact(!Quiet(ring), fault);
      SameSub(W() + D(), D() - released, content, content);
      if fault.Load? {
        return false;
      }
      ok := RemapAll(fault, o);
      if !ok {
        return false;
      }
      ghost var here := content;
      ok := HydrateWeights(fault.Hydrate?, late, o);
      Carry(D(), D() - released, content, here, old(content));
    }

    /** The remap of the weights in a wake: it touches nothing that is not released. */
    method RemapAll(fault: WakeFault, ghost o: Contents) returns (ok: bool)
      requires Valid() && Saved(o) && !Awake()
      modifies this`mapped, this`content, this`remaps, this`restoreMapped
      ensures Valid() && Saved(o) && !Awake() && blob == Some(o) && old(restoreMapped) <= restoreMapped
      ensures ok <==> old(Stuck()) !! W() && !(fault.MapWeight? && fault.pointer in old(released * W() - restoreMapped))
      ensures ok ==> restoreMapped == released * W() && Stuck() == old(Stuck()) && old(WeightStrands(fault)) == {} && W() <= mapped
      ensures old(Stuck()) <= Stuck() <= old(Stuck()) + old(WeightStrands(fault))
      ensures old(Stuck()) !! W() ==> Stuck() == old(Stuck()) + old(WeightStrands(fault))
      ensures old(Intact(o)) ==> Intact(o)
      ensures Same(D() - released, content, old(content)) && DiscardStrands(fault) == old(DiscardStrands(fault))
    {
      hide Members, NoRepeat, Measured, Zeroed, Same, Counted, Valid, WeightStrands, Halfway, FaultPointer, Stuck, Laid, Fits, Own;
      Bounds();
      ok := RemapWeights(fault);
      Bounds();
      ghost var q := FaultPointer(fault);
      assert q in D() ==> (q in mapped <==> q in mapped * D()) && (q in old(mapped) <==> q in old(mapped) * D());
      SameSub(W() + D() - released * W(), D() - released, content, old(content));
      if old(Intact(o)) { Carry(W() + D() - released * W(), W() - released, content, old(content), o); }
    }

    lemma {:induction false} LoadStrands(fault: WakeFault)
      ensures fault.Load? ==> WeightStrands(fault) == {}
    {
    }

    /** The part of a wake after the weights have been read: discardable regions, graphs, commit. */
    method FinishWake(fault: WakeFault, ghost o: Contents, ghost a: Contents, ghost start: Contents) returns (ok: bool)
      requires Valid() && Saved(o) && !Awake() && Idle(ring) && restoreMapped == released * W() && Same(W(), content, a)
      requires Same(D() - released, content, start) && !fault.Load?
      modifies this`mapped, this`content, this`remaps, this`restoreMapped, this`discardMapped, this`released, this`graphPaused, this`reusable
      ensures Valid() && Saved(o) && Same(W(), content, a)
      ensures ok <==> old(Stuck()) !! D() && !old(DiscardsHit(fault)) && !LateFault(fault)
      ensures ok || (fault.WakeState? && old(Stuck()) !! D()) ==>
        Awake() && Zeroed(old(released) * D(), content) && Same(D() - old(released), content, start)
      ensures !ok && !(fault.WakeState? && old(Stuck()) !! D()) ==>
        && released == old(released) && old(restoreMapped) == restoreMapped && old(discardMapped) <= discardMapped
        && Same(D() - released, content, start)
        && old(Stuck()) <= Stuck() <= old(Stuck()) + old(DiscardStrands(fault))
      ensures old(Stuck()) == {} ==> Stuck() == old(DiscardStrands(fault))
      ensures ok || (fault.WakeState? && old(Stuck()) !! D()) ==> reusable
      ensures !ok && !(fault.WakeState? && old(Stuck()) !! D()) ==>
        InTurn(fault, old(Stuck()) !! D(), released, old(Marked()), Marked())
    {
      hide Members, NoRepeat, Measured, Zeroed, Same, Counted, HitIn, Halfway, FaultPointer, DiscardStrands, DiscardsHit, Laid, Fits, Own, Valid, Stuck;
      Bounds();
      LateParts(fault);
      if fault.EmptyCache? && regions {
        return false;
      }
      ghost var here, r := content, released;
      ok := RemapDiscards(fault);
      AfterDiscards(W(), D(), r, content, here, start, a);
      if !ok || fault.GraphRestore? {
        return false;
      }
      UnpauseGraphs();
      if fault.FinalSync? {
        return false;
      }
      Bounds();
      Commit();
      Bounds();
      assert Stuck() == {};
      reusable := true;
      return !fault.WakeState?;
    }

    /** The graphs are restored; nothing is in flight any more. */
    method UnpauseGraphs()
      requires Valid() && Idle(ring)
      modifies this`graphPaused
      ensures Valid() && !graphPaused
    {
      hide Members, NoRepeat, Measured, Zeroed, Counted, Laid;
      graphPaused := false;
    }

    predicate LateFault(fault: WakeFault) {
      (fault.EmptyCache? && regions) || fault.GraphRestore? || fault.FinalSync? || fault.WakeState?
    }

    lemma {:induction false} LateParts(fault: WakeFault)
      ensures fault.EmptyCache? || fault.GraphRestore? || fault.FinalSync? || fault.WakeState? ==> DiscardStrands(fault) == {} && !DiscardsHit(fault)
    {
    }

    lemma {:induction false} IntactIf(o: Contents)
      ensures Same(W(), content, o) ==> Intact(o)
    {
    }

    /** Where the failing call of a wake lies. */
    lemma {:induction false} WakeParts(fault: WakeFault)
      ensures Awake() ==> (WakeHit(fault) <==> fault.WakeState?) && Strands(fault) == {}
      ensures !Awake() ==> (WakeHit(fault) <==> fault.Load? || fault.Hydrate? || DiscardsHit(fault) || LateFault(fault)
                                                || (fault.MapWeight? && fault.pointer in released * W() - restoreMapped))
      ensures fault.Load? || fault.Hydrate? ==> Strands(fault) == {}
      ensures fault.Load? || fault.Hydrate? || fault.MapWeight? ==> !DiscardsHit(fault) && !LateFault(fault)
      ensures if fault.MapWeight? then DiscardStrands(fault) == {} else WeightStrands(fault) == {}
    {
    }

    function Marked(): Marks
      reads this`restoreMapped, this`discardMapped, this`graphPaused
    {
      Marks(restoreMapped, discardMapped, graphPaused)
    }

    /**
      What a wake that fails has done: discardable ranges are remapped only after all weights, and
      the graphs are resumed, after everything is remapped, just if only the synchronization fails.
     */
    predicate InTurn(fault: WakeFault, commits: bool, r: set<int>, before: Marks, after: Marks) {
      && (fault.Load? ==> after == before)
      && (after.discards != before.discards ==> after.weights == r * W())
      && (after.paused == (before.paused && !(fault.FinalSync? && commits)))
      && (after.paused != before.paused ==> after.weights == r * W() && after.discards == r * D())
    }

    lemma {:induction false} FailedRestore(fault: WakeFault, commits: bool, r: set<int>, before: Marks, after: Marks)
      requires after == before.(weights := after.weights) && (fault.Load? ==> after == before) && !(fault.FinalSync? && commits)
      ensures InTurn(fault, commits, r, before, after)
    {
    }

    lemma {:induction false} FailedFinish(fault: WakeFault, commits: bool, commits': bool, r: set<int>, before: Marks, middle: Marks, after: Marks)
      requires middle == before.(weights := r * W()) && InTurn(fault, commits', r, middle, after) && !fault.Load?
      requires fault.FinalSync? ==> commits == commits'
      ensures InTurn(fault, commits, r, before, after)
    {
    }

    /** Nothing keeps the attempt from committing but the last call. */
    ghost predicate Commits(o: Contents, late: Late)
      reads this`released, this`mapped, this`restoreMapped, this`discardMapped, this`graphPaused, this`ring
    {
      Stuck() == {} && (Awake() || Checked(o, late))
    }

    /** The calls of a full wake, in their order. */
    method Wake(fault: WakeFault, late: Late, ghost o: Contents) returns (ok: bool)
      requires Valid() && Saved(o)
      modifies this`mapped, this`content, this`remaps, this`restoreMapped, this`discardMapped, this`released, this`graphPaused, this`reusable, this`ring
      ensures Valid() && Saved(o)
      ensures ok <==> old(Commits(o, late) && !WakeHit(fault))
      ensures ok || (fault.WakeState? && old(Commits(o, late))) ==>
        Awake() && Zeroed(old(released) * D(), content) && Same(D() - old(released), content, old(content))
      ensures Awake() && old(!Awake()) ==> RightBeyond(o) && (old(Trusted(o)) ==> Same(W(), content, o))
      ensures old(Awake()) ==> Awake() && content == old(content)
      ensures !ok && !(fault.WakeState? && old(Commits(o, late))) ==>
        && released == old(released) && old(restoreMapped) <= restoreMapped && old(discardMapped) <= discardMapped
        && Same(D() - released, content, old(content))
        && old(Stuck()) <= Stuck() <= old(Stuck()) + old(Strands(fault))
        && InTurn(fault, old(Commits(o, late)), released, old(Marked()), Marked())
      ensures (ok || (fault.WakeState? && old(Commits(o, late)))) && old(!Awake()) ==> reusable
      ensures old(Commits(o, late)) ==> Stuck() == old(Strands(fault))
      ensures old(CleanRing(o) && Intact(o)) ==> Intact(o)
      ensures !ok && old(Stuck()) == {} && !Flies(!Quiet(old(ring)), fault) ==> Quiet(ring)
    {
      hide Members, NoRepeat, Measured, Zeroed, Same, Counted, Valid, WakeHit, HitIn, LateFault, Halfway, FaultPointer, Saved, Intact,
        WeightStrands, DiscardStrands, DiscardsHit, Flies, Checked, Trusted, CleanRing, RightBeyond, Laid, InTurn, Stuck;
      FliesExact(!Quiet(ring), fault);
      Bounds();
      ghost var commits, before := Commits(o, late), Marked();
      Reflexive(content, sizes, remaps, mapped);
      WakeParts(fault);
      NoFaultHit(fault);
      CleanTrusted(o);
      ghost var r := released;
      SameSub(W() + D(), D() - r, content, content);
      if Awake() {
        EmptyZeroed(r * D(), content);
        return !fault.WakeState?;
      }
      ok := RestoreWeights(fault, late, o);
      if ok {
        Bounds();
        Reflexive(content, sizes, remaps, mapped);
        SameSub(W() + D(), W(), content, content);
        WakeParts(fault);
        ghost var a := content;
        RightHere(o);
        ghost var commits', middle := Stuck() !! D(), Marked();
        ok := FinishWake(fault, o, a, old(content));
        if released == r && InTurn(fault, commits', r, middle, Marked()) { FailedFinish(fault, commits, commits', r, before, middle, Marked()); }
        StaysRight(o, a);
        IntactIf(o);
      } else {
        FailedRestore(fault, commits, r, before, Marked());
      }
    }

    lemma {:induction false} CleanTrusted(o: Contents)
      ensures CleanRing(o) ==> Trusted(o)
    {
    }

    lemma {:induction false} RightHere(o: Contents)
      ensures RightBeyond(o) <==> RightIn(content, o)
    {
    }

    /** Weights that are as they were are as right as they were. */
    lemma {:induction false} StaysRight(o: Contents, a: Contents)
      requires Same(W(), content, a)
      ensures RightIn(a, o) ==> RightBeyond(o)
      ensures Same(W(), a, o) ==> Same(W(), content, o)
    {
      hide BytesBeyond, Laid;
    }

    /**
      `resume`. It succeeds exactly if nothing is stranded, no call that is reached fails and, in
      inline mode, the checksums are right. Then the weights are right, if the reads that earlier
      transfers have left cannot spoil anything or a checksum tells contents apart, and in any case
      outside the jobs that first fill the ring.
     */
    method Resume(fault: WakeFault, late: Late, ghost o: Contents) returns (ok: bool)
      requires Valid() && Saved(o)
      modifies this
      ensures Valid() && Saved(o)
      ensures ok <==> old(Commits(o, late) && !WakeHit(fault))
      ensures state == if ok then Running else Failed
      ensures ok || (fault.WakeState? && old(Commits(o, late))) ==>
        Awake() && Zeroed(old(released) * D(), content) && Same(D() - old(released), content, old(content))
      ensures Awake() && old(!Awake()) ==> RightBeyond(o) && (old(Trusted(o)) ==> Same(W(), content, o))
      ensures old(Awake()) ==> Awake() && content == old(content)
      ensures !ok && !(fault.WakeState? && old(Commits(o, late))) ==>
        && released == old(released) && old(restoreMapped) <= restoreMapped && old(discardMapped) <= discardMapped
        && Same(D() - released, content, old(content))
        && old(Stuck()) <= Stuck() <= old(Stuck()) + old(Strands(fault))
        && InTurn(fault, old(Commits(o, late)), released, old(Marked()), Marked())
      ensures (ok || (fault.WakeState? && old(Commits(o, late)))) && old(!Awake()) ==> reusable
      ensures old(Commits(o, late)) ==> Stuck() == old(Strands(fault))
      ensures old(CleanRing(o) && Intact(o)) ==> Intact(o)
      ensures !ok && old(Stuck()) == {} && !Flies(!Quiet(old(ring)), fault) ==> Quiet(ring)
    {
      hide Members, NoRepeat, Measured, Zeroed, Same, Counted, Valid, WakeHit, Strands, Intact, Stuck, Saved, Awake, Trusted, CleanRing, Checked, Commits,
        RightBeyond, Flies, Quiet, W, D;
      state := Resuming;
      ok := Wake(fault, late, o);
      state := if ok then Running else Failed;
    }

    /** Between two attempts: still asleep with nothing published, or awake with everything committed. */
    ghost predicate Between(dropped: set<int>, start: Contents)
      reads this`content, this`released, this`restoreMapped, this`discardMapped, this`graphPaused
    {
      || (released == dropped && Same(D() - dropped, content, start))
      || (Awake() && Zeroed(dropped * D(), content) && Same(D() - dropped, content, start))
    }

    /** The weights are right beyond the first jobs, and all of them if attempt `last` could not be spoilt. */
    ghost predicate WroteLast(faults: seq<WakeFault>, flying: bool, o: Contents, last: nat)
      reads this`content
    {
      && last < |faults| && RightBeyond(o)
      && (Unspoilable() || !Flying(flying, faults[..last]) ==> Same(W(), content, o))
    }

    /**
      Wake attempts until one succeeds. The weights are what the transfer of attempt `last` wrote:
      right beyond the jobs that first fill the ring, and right altogether unless the transfer before
      it failed, there are more jobs than stages, and no checksum tells contents apart. With no
      failure between a remap and its record, a clean attempt succeeds.
     */
    method Attempts(faults: seq<WakeFault>, late: Lates, ghost o: Contents) returns (woke: bool, ghost last: nat)
      requires Valid() && Saved(o)
      modifies this
      ensures Valid() && Saved(o)
      ensures woke ==> Awake() && state == Running
      ensures woke && old(!Awake()) ==> WroteLast(faults, !Quiet(old(ring)), o, last)
      ensures woke && old(Awake()) ==> content == old(content)
      ensures woke ==> Zeroed(old(released) * D(), content) && Same(D() - old(released), content, old(content))
      ensures old(Stuck()) != {} ==> !woke && old(Stuck()) <= Stuck()
      ensures old(Stuck()) == {} && NeverHalfway(faults) && SomeClean(faults, !Quiet(old(ring))) ==> woke
    {
      hide Members, NoRepeat, Measured, Zeroed, Same, Counted, Valid, Saved, WakeHit, Strands, NeverHalfway, Flying, Flies, Intact, Trusted, CleanRing, Checked,
        RightBeyond, Quiet, Unspoilable, CleanAt, SomeClean;
      Bounds();
      Reflexive(content, sizes, remaps, mapped);
      ghost var dropped, start, flying := released, content, !Quiet(ring);
      SameSub(W() + D(), D() - dropped, content, content);
      last := 0;
      FlyingStart(flying, faults);
      for i := 0 to |faults|
        invariant Valid() && Saved(o) && Between(dropped, start)
        invariant old(Stuck()) != {} ==> old(Stuck()) <= Stuck()
        invariant old(Stuck()) == {} && NeverHalfway(faults) ==> Stuck() == {} && forall k :: 0 <= k < i ==> !CleanAt(faults, flying, k)
        invariant old(Awake()) ==> Awake() && content == old(content)
        invariant Stuck() == {} && !Flying(flying, faults[..i]) ==> Quiet(ring)
        invariant Awake() && old(!Awake()) ==> WroteLast(faults, flying, o, last)
      {
        ghost var here, marks, stuck, asleep := content, released, Stuck(), !Awake();
        assert faults[i] in faults;
        FlyingNext(flying, faults, i);
        FliesExact(Flying(flying, faults[..i]), faults[i]);
        FliesExact(!Quiet(ring), faults[i]);
        if NeverHalfway(faults) { NothingStranded(faults[i], faults); }
        NoFaultHit(faults[i]);
        NowTrusted(o);
        if stuck == {} && CleanAt(faults, flying, i) { CleanChecked(faults, flying, i, late(i), o); }
        woke := Resume(faults[i], late(i), o);
        BetweenNext(dropped, start, marks, here, !asleep);
        if asleep {
          last := i;
        }
        if woke {
          return true, last;
        }
      }
      CleanInside(faults, flying);
      return false, last;
    }

    /** One attempt later: it has committed, or it has left the marks and the bytes of what is not released. */
    lemma {:induction false} BetweenNext(dropped: set<int>, start: Contents, marks: set<int>, here: Contents, awake: bool)
      requires (marks == dropped && Same(D() - dropped, here, start)) || (awake && marks == {} && Zeroed(dropped * D(), here) && Same(D() - dropped, here, start))
      requires || (Awake() && Zeroed(marks * D(), content) && Same(D() - marks, content, here))
               || (!awake && released == marks && Same(D() - marks, content, here))
      ensures Between(dropped, start)
    {
      hide Members;
    }

    /** Saved weights can be trusted if nothing is in flight, or nothing can be spoilt. */
    lemma {:induction false} NowTrusted(o: Contents)
      requires Valid() && Saved(o)
      ensures !Awake() && (Quiet(ring) || Unspoilable()) ==> Trusted(o)
    {
      hide Members, NoRepeat, Measured, Zeroed, Counted, Laid, Clean, Own, JobCount, Tells, Quiet, Fits;
      WhenClean(Config(), o, ring);
    }

    lemma {:induction false} CleanChecked(faults: seq<WakeFault>, flying: bool, i: nat, late: Late, o: Contents)
      requires Valid() && Saved(o) && CleanAt(faults, flying, i) && (!Flying(flying, faults[..i]) ==> Quiet(ring))
      ensures i < |faults| && faults[i] == NoWakeFault && (!Awake() ==> Checked(o, late))
    {
      hide Members, NoRepeat, Measured, Zeroed, Counted, Laid, Clean, Own, JobCount, Tells, Quiet, Fits, Flying, Verified;
      WhenClean(Config(), o, ring);
      VerifiedIf(Config(), o, ring, late);
    }

    lemma {:induction false} CleanInside(faults: seq<WakeFault>, flying: bool)
      ensures SomeClean(faults, flying) ==> exists i :: 0 <= i < |faults| && CleanAt(faults, flying, i)
    {
    }

    lemma {:induction false} NoFaultHit(fault: WakeFault)
      ensures fault == NoWakeFault ==> !WakeHit(fault)
      ensures Awake() ==> (WakeHit(fault) <==> fault.WakeState?) && Stuck() == {}
    {
    }

    lemma {:induction false} NothingStranded(fault: WakeFault, faults: seq<WakeFault>)
      requires NeverHalfway(faults) && fault in faults
      ensures Strands(fault) == {}
    {
    }

    /** A sleep and the wake attempts after it. */
    method Cycle(sleepFault: SleepFault, faults: seq<WakeFault>, late: Lates)
      returns (woke: bool, ghost dropped: set<int>, ghost last: nat)
      requires Valid() && Awake() && Saved(WeightBytes())
      modifies this
      ensures Valid() && dropped <= payload && (!SleepHit(sleepFault) ==> dropped == payload)
      ensures woke ==> Awake() && state == Running && RightBeyond(old(WeightBytes()))
      ensures woke && (Unspoilable() || Hydrate !in faults) ==> WeightBytes() == old(WeightBytes()) && Saved(WeightBytes())
      ensures woke ==> Zeroed(dropped, content) && Same(D() - dropped, content, old(content))
      ensures Recoverable(sleepFault, faults) ==> woke
    {
      hide Members, NoRepeat, Measured, Zeroed, Same, Counted, Valid, Flying, Stuck, Unspoilable, RightBeyond, SomeClean, Quiet, Laid, Fits, Own;
      ghost var o, start := WeightBytes(), content;
      Bounds();
      var slept := Suspend(sleepFault);
      Bounds();
      dropped := released * D();
      ghost var here := content;
      SameSub(W() + D() - released, D() - released, content, start);
      assert D() - dropped == D() - released;
      ghost var asleep := !Awake();
      assert !asleep ==> W() - released == W();
      IdleNow();
      woke, last := Attempts(faults, late, o);
      if woke {
        Carry(D() - dropped, D() - dropped, content, here, start);
        if asleep && Hydrate !in faults { NeverFlying(faults[..last]); }
        if !asleep { StaysRight(o, o); SameRight(o); }
        if Same(W(), content, o) { SameBytes(W(), content, o); }
      }
    }

    lemma {:induction false} IdleNow()
      ensures Idle(ring) ==> Quiet(ring)
    {
    }

    lemma {:induction false} SameRight(o: Contents)
      requires Laid(Config()) && Same(W(), content, o)
      ensures RightBeyond(o)
    {
    }
  }

  lemma {:induction false} SameBytes(w: set<int>, content: Contents, o: Contents)
    requires Same(w, content, o) && o.Keys == w
    ensures o == map p | p in w && p in content :: content[p]
  {
    assert forall p :: p in w ==> p in content && content[p] == o[p];
  }

  lemma {:induction false} NothingDone(content: Contents, remaps: multiset<int>, mapped: set<int>, done: set<int>)
    requires Counted(remaps, mapped, done)
    ensures Zeroed({}, content) && Counted(remaps, mapped, {})
  {
  }

  lemma {:induction false} SameSub(keep: set<int>, keep': set<int>, a: Contents, b: Contents)
    requires Same(keep, a, b) && keep' <= keep
    ensures Same(keep', a, b)
  {
  }

  lemma {:induction false} Carry(keep: set<int>, keep': set<int>, a: Contents, b: Contents, c: Contents)
    requires Same(keep, a, b) && Same(keep', b, c) && keep' <= keep
    ensures Same(keep', a, c)
  {
  }

  lemma {:induction false} EmptyZeroed(none: set<int>, content: Contents)
    ensures none == {} ==> Zeroed(none, content)
  {
  }

  /** Remapping the discardable regions touches only what was released. */
  lemma {:induction false} AfterDiscards(w: set<int>, d: set<int>, r: set<int>, content: Contents, here: Contents, before: Contents, a: Contents)
    requires Same(w + d - r * d, content, here) && Same(w, here, a) && Same(d - r, here, before) && w !! d
    ensures Same(d - r, content, before) && Same(w, content, a)
  {
  }

  lemma {:induction false} SizedAt(content: Contents, sizes: map<int, nat>, p: int)
    requires Measured(content, sizes) && p in sizes
    ensures p in content && |content[p]| == sizes[p]
  {
  }

  lemma {:induction false} NotMixed(content: Contents, o: Contents, keep: set<int>, p: int, bytes: seq<Byte>)
    requires Same(keep, content, o) && p in keep && p in content && p in o && Mixed(content[p], o[p], bytes)
    ensures bytes == o[p]
  {
  }

  lemma {:induction false} ZeroedMore(content: Contents, zeroed: set<int>, p: int)
    requires Zeroed(zeroed, content) && p in content && content[p] == Zeros(|content[p]|)
    ensures Zeroed(zeroed + {p}, content)
  {
  }

  lemma {:induction false} ZeroedAt(content: Contents, zeroed: set<int>, p: int)
    requires Zeroed(zeroed, content) && p in zeroed
    ensures p in content && forall i :: 0 <= i < |content[p]| ==> content[p][i] == 0
  {
    assert content[p] == Zeros(|content[p]|);
  }

  lemma {:induction false} CountDone(remaps: multiset<int>, mapped: set<int>, done: set<int>, p: int)
    requires Counted(remaps, mapped, done) && p in remaps
    ensures Counted(remaps, mapped, done + {p})
  {
  }

  /** The dropped allocations in address order. */
  method Ordered(chosen: set<int>, all: seq<int>) returns (list: seq<int>)
    requires NoRepeat(all) && chosen <= Members(all)
    ensures NoRepeat(list) && Members(list) == chosen
  {
    list := [];
    for i := 0 to |all|
      invariant NoRepeat(list) && Members(list) == chosen * Members(all[..i])
    {
      MembersNext(all, i);
      if all[i] in chosen {
        assert all[i] !in Members(list);
        assert Members(list + [all[i]]) == Members(list) + {all[i]};
        list := list + [all[i]];
      }
    }
    MembersEnds(all);
  }

  lemma {:induction false} KeepWeights(w: set<int>, d: set<int>, released: set<int>, content: Contents, before: Contents, o: Contents)
    requires Same(w + d - released, content, before) && w <= before.Keys && o == map p | p in w && p in before :: before[p]
    ensures Same(w - released, content, o)
  {
  }

  lemma {:induction false} Reflexive(content: Contents, sizes: map<int, nat>, remaps: multiset<int>, mapped: set<int>)
    requires Measured(content, sizes)
    ensures content.Keys == sizes.Keys && Zeroed({}, content) && Same(content.Keys, content, content) && Same({}, content, content)
    ensures remaps == multiset{} ==> Counted(remaps, mapped, {})
    ensures forall p :: p in content ==> Same(content.Keys - {p}, content, content)
  {
  }

  lemma {:induction false} CountRemap(remaps: multiset<int>, mapped: set<int>, done: set<int>, p: int)
    requires Counted(remaps, mapped, done) && p !in mapped
    ensures Counted(remaps + multiset{p}, mapped + {p}, done) && Counted(remaps + multiset{p}, mapped + {p}, done + {p})
    ensures Counted(remaps, mapped + {p}, done)
  {
  }

  /** Bytes nobody has written. */
  method Undefined(length: nat) returns (bytes: seq<Byte>)
    ensures |bytes| == length
  {
    bytes := *;
    if |bytes| != length {
      bytes := Zeros(length);
    }
  }

  /** A transfer that stops somewhere. */
  method Interrupted(before: seq<Byte>, target: seq<Byte>) returns (after: seq<Byte>)
    requires |before| == |target|
    ensures Mixed(before, target, after)
  {
    after := *;
    if !Mixed(before, target, after) {
      after := before;
    }
  }
}
