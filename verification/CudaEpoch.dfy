/**
  The native CUDA epoch (`coldsnap_cuda_epoch.cpp`): rebinding retained addresses to new physical
  memory as one transaction, and publishing the contexts that a rebind created.
 */
module CudaEpoch {

  /** One retained allocation; `box` is the address of the variable that holds its handle. */
  datatype Request = Request(device: int, address: nat, bytes: nat, box: nat)

  datatype Rebound = Rebound(input: Request, handle: int, handleValid: bool, mapped: bool)

  /** The driver calls of a rebind; the last three belong to the rollback. */
  datatype Call = Init | Select | Properties | Create | MapRange | SetAccess | UndoSelect | UndoUnmap | UndoRelease

  /** Which call fails for the allocation with a given index. */
  type Fails = (Call, int) -> bool

  /** Live handles, mapped ranges with their handles, the device of every handle, and the next handle to be given out. */
  datatype Driver = Driver(handles: set<int>, ranges: map<int, int>, device: map<int, int>, next: int)

  /** Same handles and ranges. */
  predicate SameHeld(d: Driver, e: Driver) { d.handles == e.handles && d.ranges == e.ranges }

  function Without(m: map<int, int>, p: int): map<int, int> { map q | q in m && q != p :: m[q] }

  /** What the driver holds with one more (possibly half made) allocation. */
  function Plus(d: Driver, r: Rebound): Driver {
    d.(handles := if r.handleValid then d.handles + {r.handle} else d.handles,
       ranges := if r.mapped then d.ranges[r.input.address := r.handle] else d.ranges)
  }

  function Sum(d: Driver, rebound: seq<Rebound>): Driver {
    if rebound == [] then d else Plus(Sum(d, rebound[..|rebound| - 1]), rebound[|rebound| - 1])
  }

  /** The allocation brought in something new. */
  predicate New(d: Driver, r: Rebound) {
    (r.handleValid ==> r.handle !in d.handles) && (r.mapped ==> r.input.address !in d.ranges)
  }

  ghost predicate AllNew(d: Driver, rebound: seq<Rebound>) {
    forall k :: 0 <= k < |rebound| ==> New(Sum(d, rebound[..k]), rebound[k])
  }

  predicate RollbackWorks(fail: Fails, n: nat) {
    forall k :: 0 <= k < n ==> !fail(UndoSelect, k) && !fail(UndoUnmap, k) && !fail(UndoRelease, k)
  }

  function Boxes(rebound: seq<Rebound>): set<int> { set r | r in rebound :: r.input.box }

  /** Handles are given out in increasing order. */
  ghost predicate Below(d: Driver) { forall h :: h in d.handles ==> h < d.next }

  /** Two memories agree except at `touched`. */
  ghost predicate Elsewhere(boxes: map<int, int>, before: map<int, int>, touched: set<int>) {
    forall b :: b !in touched ==> (b in boxes <==> b in before) && (b in boxes ==> boxes[b] == before[b])
  }

  ghost predicate AllZero(boxes: map<int, int>, touched: set<int>) {
    forall b :: b in touched ==> b in boxes && boxes[b] == 0
  }

  lemma {:induction false} SumLast(d: Driver, rebound: seq<Rebound>, r: Rebound)
    ensures Sum(d, rebound + [r]) == Plus(Sum(d, rebound), r)
    ensures AllNew(d, rebound) && New(Sum(d, rebound), r) ==> AllNew(d, rebound + [r])
  {
    var all := rebound + [r];
    assert all[..|all| - 1] == rebound;
    if AllNew(d, rebound) && New(Sum(d, rebound), r) {
      forall k | 0 <= k < |all| ensures New(Sum(d, all[..k]), all[k]) {
        assert all[..k] == if k < |rebound| then rebound[..k] else rebound;
      }
    }
  }

  /** Taking back what an allocation brought in. */
  lemma {:induction false} PlusMinus(d: Driver, r: Rebound)
    requires New(d, r)
    ensures r.mapped ==> Without(Plus(d, r).ranges, r.input.address) == d.ranges
    ensures r.handleValid ==> Plus(d, r).handles - {r.handle} == d.handles
  {
  }

  lemma {:induction false} StepBack(start: Driver, rebound: seq<Rebound>, k: nat)
    requires AllNew(start, rebound) && k < |rebound|
    ensures New(Sum(start, rebound[..k]), rebound[k]) && Sum(start, rebound[..k + 1]) == Plus(Sum(start, rebound[..k]), rebound[k])
  {
    assert rebound[..k + 1][..k] == rebound[..k];
  }

  lemma {:induction false} WorksAt(fail: Fails, n: nat, k: nat)
    requires RollbackWorks(fail, n) && k < n
    ensures !fail(UndoSelect, k) && !fail(UndoUnmap, k) && !fail(UndoRelease, k)
  {
  }

  lemma {:induction false} SumExtends(start: Driver, rebound: seq<Rebound>, d: Driver)
    requires AllNew(start, rebound) && SameHeld(d, Sum(start, rebound))
    ensures Extends(start, d)
  {
    SumKeeps(start, rebound, |rebound|);
    assert rebound[..|rebound|] == rebound;
  }

  lemma {:induction false} SumKeeps(start: Driver, rebound: seq<Rebound>, n: nat)
    requires AllNew(start, rebound) && n <= |rebound|
    ensures Extends(start, Sum(start, rebound[..n]))
  {
    if n > 0 {
      SumKeeps(start, rebound, n - 1);
      StepBack(start, rebound, n - 1);
    }
  }

  /** What a rebind has made was not there when it began. */
  lemma {:induction false} NotThere(start: Driver, rebound: seq<Rebound>, k: nat)
    requires AllNew(start, rebound) && k < |rebound|
    ensures New(start, rebound[k])
  {
    SumKeeps(start, rebound, k);
    StepBack(start, rebound, k);
  }

  lemma {:induction false} UndoneExtends(start: Driver, d: Driver, e: Driver, r: Rebound)
    requires Extends(start, d) && New(start, r)
    requires e == d || (r.mapped && e == d.(ranges := Without(d.ranges, r.input.address))) || (r.handleValid && e == d.(handles := d.handles - {r.handle}))
    ensures Extends(start, e)
  {
  }

  lemma {:induction false} NoBoxes(boxes: map<int, int>, d: Driver)
    ensures Sum(d, []) == d && AllZero(boxes, Boxes([])) && Elsewhere(boxes, boxes, Boxes([]))
  {
  }

  lemma {:induction false} ZeroBox(boxes: map<int, int>, before: map<int, int>, done: set<int>, box: int)
    ensures AllZero(boxes, done) ==> AllZero(boxes[box := 0], done + {box})
    ensures Elsewhere(boxes, before, done) ==> Elsewhere(boxes[box := 0], before, done + {box}) && Elsewhere(boxes, before, done + {box})
  {
  }

  lemma {:induction false} BoxesLast(rebound: seq<Rebound>, k: nat)
    requires k < |rebound|
    ensures Boxes(rebound[k..]) == Boxes(rebound[k + 1..]) + {rebound[k].input.box}
  {
    assert rebound[k..] == [rebound[k]] + rebound[k + 1..];
  }

  /** Every request has a mapped range with a live handle that was not there before. */
  ghost predicate Bound(input: seq<Request>, before: Driver, after: Driver) {
    && (forall k :: 0 <= k < |input| ==>
          && input[k].address in after.ranges && input[k].address !in before.ranges
          && after.ranges[input[k].address] in after.handles && after.ranges[input[k].address] !in before.handles)
    && (forall i, j :: 0 <= i < j < |input| ==> after.ranges[input[i].address] != after.ranges[input[j].address])
  }

  /** Every box holds the handle of its own allocation. */
  ghost predicate BoxesRight(input: seq<Request>, after: Driver, boxes: map<int, int>) {
    forall k :: 0 <= k < |input| ==>
      input[k].address in after.ranges && input[k].box in boxes && boxes[input[k].box] == after.ranges[input[k].address]
  }

  predicate DistinctBoxes(input: seq<Request>) {
    forall i, j :: 0 <= i < j < |input| ==> input[i].box != input[j].box
  }

  /** Every mapped range belongs to the device of its request. */
  ghost predicate Placed(input: seq<Request>, d: Driver) {
    forall k :: 0 <= k < |input| ==> OnDevice(d, input[k].address, input[k].device)
  }

  /** The range at `p` is backed by memory of the device. */
  predicate OnDevice(d: Driver, p: int, device: int) {
    p in d.ranges && d.ranges[p] in d.device && d.device[d.ranges[p]] == device
  }

  /** What a device reset leaves: nothing of the device. */
  function WithoutDevice(d: Driver, device: int): Driver {
    d.(handles := (set h | h in d.handles && !(h in d.device && d.device[h] == device)),
       ranges := (map p | p in d.ranges && !OnDevice(d, p, device) :: d.ranges[p]))
  }

  function Devices(input: seq<Request>): set<int> { set r | r in input :: r.device }

  /** Some request is for the device. */
  predicate Names(input: seq<Request>, device: int) { exists k :: 0 <= k < |input| && input[k].device == device }

  lemma {:induction false} DevicesExact(input: seq<Request>, device: int)
    ensures device in Devices(input) <==> Names(input, device)
  {
    if device in Devices(input) {
      var r :| r in input && r.device == device;
      var k :| 0 <= k < |input| && input[k] == r;
      assert input[k].device == device;
    }
  }

  /** The driver holds everything it held. */
  ghost predicate Extends(start: Driver, d: Driver) {
    (forall p :: p in start.ranges ==> p in d.ranges && d.ranges[p] == start.ranges[p]) && (forall h :: h in start.handles ==> h in d.handles)
  }

  predicate Address(input: seq<Request>, p: int) { exists k :: 0 <= k < |input| && input[k].address == p }

  predicate Handle(input: seq<Request>, d: Driver, h: int) {
    exists k :: 0 <= k < |input| && input[k].address in d.ranges && d.ranges[input[k].address] == h
  }

  /** Besides what it held, the driver holds only the ranges of the requests and their handles. */
  ghost predicate OnlyAdded(input: seq<Request>, before: Driver, after: Driver) {
    && Extends(before, after)
    && (forall p :: p in after.ranges ==> p in before.ranges || Address(input, p))
    && (forall h :: h in after.handles ==> h in before.handles || Handle(input, after, h))
  }

  /** Setting or synchronising the device, or the reset call, fails; or a step after the reset does. */
  datatype ResetFault = NoResetFault | BeforeReset | AfterReset

  /** Nothing of the device is left, and everything else is. */
  ghost predicate OnlyOthers(before: Driver, after: Driver, device: int) {
    && (forall p :: p in after.ranges <==> p in before.ranges && !OnDevice(before, p, device))
    && (forall p :: p in after.ranges ==> after.ranges[p] == before.ranges[p])
    && (forall h :: h in after.handles <==> h in before.handles && !(h in before.device && before.device[h] == device))
    && after.device == before.device && after.next == before.next
  }

  /** After a rebind and the reset of its device, the addresses are free again: the same requests can be rebound. */
  lemma {:induction false} ResetFrees(input: seq<Request>, bound: Driver, after: Driver, device: int, k: nat)
    requires Placed(input, bound) && k < |input| && (forall i :: 0 <= i < |input| ==> input[i].device == device)
    requires OnlyOthers(bound, after, device) && forall i, j :: 0 <= i < j < |input| ==> input[i].address != input[j].address
    ensures !Taken(input, k, after)
  {
    assert OnDevice(bound, input[k].address, input[k].device);
  }

  class EpochLibrary {
    var boxes: map<int, int>
    var driver: Driver
    /** The devices whose context has been published. */
    var published: set<int>
    /** The resets and rebinds so far. */
    ghost var history: seq<Event>

    ghost predicate Tracks()
      reads this`published, this`history
    {
      published == Published(history)
    }

    /** `rollback`: newest first; a context that cannot be selected skips its allocation. */
    method Rollback(rebound: seq<Rebound>, fail: Fails, ghost start: Driver)
      requires AllNew(start, rebound) && SameHeld(driver, Sum(start, rebound))
      modifies this`boxes, this`driver
      ensures driver.next == old(driver.next) && driver.device == old(driver.device) && driver.handles <= old(driver.handles)
      ensures RollbackWorks(fail, |rebound|) ==> SameHeld(driver, start) && AllZero(boxes, Boxes(rebound))
      ensures Elsewhere(boxes, old(boxes), Boxes(rebound)) && Extends(start, driver)
    {
      hide AllNew, Sum, Boxes, AllZero, Elsewhere, RollbackWorks, Extends;
      var k := |rebound|;
      SumExtends(start, rebound, driver);
      assert rebound[..|rebound|] == rebound && rebound[|rebound|..] == [] && rebound[0..] == rebound && rebound[..0] == [];
      NoBoxes(boxes, start);
      while k > 0
        invariant 0 <= k <= |rebound| && driver.next == old(driver.next) && driver.device == old(driver.device)
        invariant driver.handles <= old(driver.handles) && Extends(start, driver)
        invariant RollbackWorks(fail, |rebound|) ==> SameHeld(driver, Sum(start, rebound[..k])) && AllZero(boxes, Boxes(rebound[k..]))
        invariant Elsewhere(boxes, old(boxes), Boxes(rebound[k..]))
      {
        k := k - 1;
        var r := rebound[k];
        StepBack(start, rebound, k);
        PlusMinus(Sum(start, rebound[..k]), r);
        BoxesLast(rebound, k);
        ZeroBox(boxes, old(boxes), Boxes(rebound[k + 1..]), r.input.box);
        if RollbackWorks(fail, |rebound|) { WorksAt(fail, |rebound|, k); }
        NotThere(start, rebound, k);
        if !fail(UndoSelect, k) {
          if r.mapped && !fail(UndoUnmap, k) {
            UndoneExtends(start, driver, driver.(ranges := Without(driver.ranges, r.input.address)), r);
            driver := driver.(ranges := Without(driver.ranges, r.input.address));
          }
          if r.handleValid && !fail(UndoRelease, k) {
            UndoneExtends(start, driver, driver.(handles := driver.handles - {r.handle}), r);
            driver := driver.(handles := driver.handles - {r.handle});
          }
          boxes := boxes[r.input.box := 0];
        }
      }
    }

    /** Where the loop of a rebind stands: the requests in `rebound` are bound, and their boxes written. */
    ghost predicate Progress(input: seq<Request>, rebound: seq<Rebound>, start: Driver, before: map<int, int>)
      reads this`boxes, this`driver
    {
      && Committed(input, rebound, start) && AllNew(start, rebound)
      && SameHeld(driver, Sum(start, rebound)) && driver.next == start.next + |rebound| && Devoted(rebound, driver)
      && Elsewhere(boxes, before, Boxes(rebound))
      && (DistinctBoxes(input) ==> Written(rebound, boxes))
    }

    /** Ends a rebind that failed: everything it made is taken back. */
    method Abandon(input: seq<Request>, rebound: seq<Rebound>, last: seq<Rebound>, fail: Fails, ghost start: Driver, ghost before: map<int, int>)
      requires |last| <= 1 && Committed(input, rebound, start) && |rebound| + |last| <= |input|
      requires last != [] ==> last[0].input == input[|rebound|]
      requires AllNew(start, rebound + last) && SameHeld(driver, Sum(start, rebound + last))
      requires Elsewhere(boxes, before, Boxes(rebound))
      modifies this`boxes, this`driver
      ensures driver.next == old(driver.next) && driver.device == old(driver.device) && driver.handles <= old(driver.handles)
      ensures RollbackWorks(fail, |input|) ==> SameHeld(driver, start) && Cleared(input[..|rebound| + |last|], boxes, before)
      ensures Elsewhere(boxes, before, RequestBoxes(input)) && Extends(start, driver)
    {
      hide Extends, RequestBoxes, AllNew, Sum, Boxes, Elsewhere, AllZero, Cleared, Committed;
      ghost var middle := boxes;
      Rollback(rebound + last, fail, start);
      if RollbackWorks(fail, |input|) { AbandonBoxes(input, start, boxes, middle, before, rebound, last); }
      AbandonElsewhere(input, start, boxes, middle, before, rebound, last);
    }

    /** One request: create, map, allow access, write the box. */
    method BindOne(input: seq<Request>, i: nat, granularity: nat, fail: Fails, rebound: seq<Rebound>, ghost start: Driver, ghost before: map<int, int>)
      returns (ok: bool, rebound': seq<Rebound>)
      requires i < |input| && |rebound| == i && Progress(input, rebound, start, before) && Below(driver)
      modifies this`boxes, this`driver
      ensures Below(driver) && (ok ==> Progress(input, rebound', start, before) && |rebound'| == i + 1)
      ensures ok <==> Binds(input, i, granularity, fail, start)
      ensures !ok && RollbackWorks(fail, |input|) ==>
        SameHeld(driver, start) && Cleared(input[..Entered(input, i, granularity, fail)], boxes, before)
      ensures !ok ==> Elsewhere(boxes, before, RequestBoxes(input)) && Extends(start, driver)
    {
      hide Extends, RequestBoxes, AllNew, Sum, Boxes, Elsewhere, Committed, Written, Cleared, Taken, Devoted;
      var r := input[i];
      TakenExact(input, rebound, start);
      rebound' := rebound;
      assert rebound + [] == rebound;
      if r.device < 0 || r.address == 0 || r.bytes == 0 || r.box == 0 || fail(Select, i)
         || granularity == 0 || fail(Properties, i) || r.address % granularity != 0 || r.bytes % granularity != 0 {
        Abandon(input, rebound, [], fail, start, before);
        return false, rebound;
      }
      if fail(Create, i) {
        var none := Rebound(r, 0, false, false);
        SumLast(start, rebound, none);
        Abandon(input, rebound, [none], fail, start, before);
        return false, rebound;
      }
      var h := driver.next;
      ghost var d := driver;
      driver := driver.(handles := driver.handles + {h}, device := driver.device[h := r.device], next := h + 1);
      if r.address in driver.ranges || fail(MapRange, i) {
        var made := Rebound(r, h, true, false);
        SumLast(start, rebound, made);
        Abandon(input, rebound, [made], fail, start, before);
        return false, rebound;
      }
      driver := driver.(ranges := driver.ranges[r.address := h]);
      var full := Rebound(r, h, true, true);
      SumLast(start, rebound, full);
      if fail(SetAccess, i) {
        Abandon(input, rebound, [full], fail, start, before);
        return false, rebound;
      }
      BoxWritten(input, rebound, start, d, full, boxes, before);
      DevotedSame(rebound + [full], d.(device := d.device[h := r.device]), driver);
      boxes := boxes[r.box := h];
      return true, rebound + [full];
    }

    /**
      `coldsnap_cuda_epoch_rebind`. It succeeds exactly if every request binds. A failure publishes
      nothing and, if the rollback calls work, leaves no handle and no mapping behind: the boxes
      of the requests it had entered are zero, and every other box is as it was.
     */
    method Rebind(input: seq<Request>, granularity: nat, fail: Fails) returns (ok: bool, ghost bound: nat)
      requires Below(driver) && Tracks()
      modifies this
      ensures Tracks() && history == old(history) + [Rebinding(input, ok)]
      ensures Below(driver)
      ensures ok ==> input != [] && Bound(input, old(driver), driver) && OnlyAdded(input, old(driver), driver) && Placed(input, driver)
      ensures ok ==> forall d :: d in published <==> d in old(published) || Names(input, d)
      ensures Extends(old(driver), driver) && Elsewhere(boxes, old(boxes), RequestBoxes(input))
      ensures ok ==> (BoxesRight(input, driver, boxes) <==> DistinctBoxes(input))
      ensures !ok ==> published == old(published)
      ensures bound <= |input| && forall k :: 0 <= k < bound ==> Binds(input, k, granularity, fail, old(driver))
      ensures bound < |input| ==> fail(Init, 0) || !Binds(input, bound, granularity, fail, old(driver))
      ensures ok <==> input != [] && !fail(Init, 0) && bound == |input|
      ensures !ok && RollbackWorks(fail, |input|) ==> SameHeld(driver, old(driver))
      ensures !ok && RollbackWorks(fail, |input|) ==> Cleared(input[..Reached(input, bound, granularity, fail)], boxes, old(boxes))
    {
      hide AllNew, Sum, Boxes, Elsewhere, Committed, Written, Devoted, Placed, BoxesRight, Bound, Below, Devices, Cleared, Binds, Entered, Published,
        OnlyAdded, Extends, Names, RequestBoxes;
      ghost var start, before := driver, boxes;
      PublishedNext(history, Rebinding(input, false));
      PublishedNext(history, Rebinding(input, true));
      RebindStart(input, driver, boxes);
      if input == [] || fail(Init, 0) {
        history := history + [Rebinding(input, false)];
        return false, 0;
      }
      var rebound: seq<Rebound> := [];
      var contexts: set<int> := {};
      for i := 0 to |input|
        invariant |rebound| == i && Progress(input, rebound, start, before) && Below(driver) && published == old(published)
        invariant contexts == Devices(input[..i]) && history == old(history)
        invariant forall k :: 0 <= k < i ==> Binds(input, k, granularity, fail, start)
      {
        ok, rebound := BindOne(input, i, granularity, fail, rebound, start, before);
        if !ok {
          history := history + [Rebinding(input, false)];
          return false, i;
        }
        DevicesNext(input, i);
        contexts := contexts + {input[i].device};
      }
      assert input[..|input|] == input;
      RebindDone(input, rebound, start, driver, boxes);
      RebindAdds(input, rebound, start, driver);
      ProgressElsewhere(input, rebound, start, boxes, before);
      forall d ensures d in Devices(input) <==> Names(input, d) { DevicesExact(input, d); }
      published, history := published + contexts, history + [Rebinding(input, true)];
      return true, |input|;
    }

    /**
      `coldsnap_cuda_epoch_reset_device`. The context is withdrawn before any runtime call can fail;
      the reset destroys every handle and mapping of the device and no other, also if a call after
      it fails.
     */
    method ResetDevice(device: int, fault: ResetFault) returns (ok: bool)
      requires Tracks() && Below(driver)
      modifies this`published, this`history, this`driver
      ensures Tracks() && Below(driver) && history == old(history) + [Reset(device)]
      ensures published == old(published) - if device >= 0 then {device} else {}
      ensures ok <==> device >= 0 && fault.NoResetFault?
      ensures device < 0 || fault.BeforeReset? ==> driver == old(driver)
      ensures device >= 0 && !fault.BeforeReset? ==> OnlyOthers(old(driver), driver, device)
    {
      hide Published;
      PublishedNext(history, Reset(device));
      history := history + [Reset(device)];
      if device < 0 {
        return false;
      }
      published := published - {device};
      if fault.BeforeReset? {
        return false;
      }
      driver := WithoutDevice(driver, device);
      return fault.NoResetFault?;
    }

    /** `coldsnap_cuda_epoch_activate_device`: only for a device that a rebind named since its last reset. */
    method ActivateDevice(device: int, works: bool) returns (ok: bool)
      requires Tracks()
      ensures ok <==> device >= 0 && works && exists i :: Admits(history, device, i)
    {
      hide Published, Admits;
      if device >= 0 { ActivationExact(history, device); }
      if device < 0 || device !in published {
        return false;
      }
      return works;
    }
  }

  lemma {:induction false} PublishedNext(events: seq<Event>, e: Event)
    ensures Published(events + [e]) == match e
      case Reset(device) => if device < 0 then Published(events) else Published(events) - {device}
      case Rebinding(input, ok) => if ok then Published(events) + Devices(input) else Published(events)
  {
    assert (events + [e])[..|events + [e]| - 1] == events;
  }

  /** The requests so far, with the handles they were given. */
  ghost predicate Committed(input: seq<Request>, rebound: seq<Rebound>, start: Driver) {
    |rebound| <= |input| && forall k :: 0 <= k < |rebound| ==> rebound[k] == Rebound(input[k], start.next + k, true, true)
  }

  /** The handles are recorded for the devices of their requests. */
  ghost predicate Devoted(rebound: seq<Rebound>, d: Driver) {
    forall k :: 0 <= k < |rebound| ==> rebound[k].handle in d.device && d.device[rebound[k].handle] == rebound[k].input.device
  }

  ghost predicate Written(rebound: seq<Rebound>, boxes: map<int, int>) {
    forall k :: 0 <= k < |rebound| ==> rebound[k].input.box in boxes && boxes[rebound[k].input.box] == rebound[k].handle
  }

  /** The boxes of these requests are zero, and every other box has its old value. */
  ghost predicate Cleared(input: seq<Request>, boxes: map<int, int>, before: map<int, int>) {
    AllZero(boxes, RequestBoxes(input)) && Elsewhere(boxes, before, RequestBoxes(input))
  }

  function RequestBoxes(input: seq<Request>): set<int> { set r | r in input :: r.box }

  /** The request is well formed and its context usable: the tests made before a handle is asked for. */
  predicate Screened(r: Request, k: int, granularity: nat, fail: Fails) {
    && r.device >= 0 && r.address != 0 && r.bytes != 0 && r.box != 0 && !fail(Select, k)
    && granularity != 0 && !fail(Properties, k) && r.address % granularity == 0 && r.bytes % granularity == 0
  }

  /** The address is mapped already, by the driver at the start or by an earlier request. */
  predicate Taken(input: seq<Request>, k: int, start: Driver)
    requires 0 <= k < |input|
  {
    input[k].address in start.ranges || exists j :: 0 <= j < k && input[j].address == input[k].address
  }

  /** Request `k` binds once all before it have. */
  predicate Binds(input: seq<Request>, k: int, granularity: nat, fail: Fails, start: Driver)
    requires 0 <= k < |input|
  {
    Screened(input[k], k, granularity, fail) && !fail(Create, k) && !fail(MapRange, k) && !fail(SetAccess, k) && !Taken(input, k, start)
  }

  /** How many requests the rollback deals with when request `k` fails: those before it, and itself once screened. */
  function Entered(input: seq<Request>, k: nat, granularity: nat, fail: Fails): (n: nat)
    requires k < |input|
    ensures k <= n <= k + 1
  {
    if Screened(input[k], k, granularity, fail) then k + 1 else k
  }

  function Reached(input: seq<Request>, bound: nat, granularity: nat, fail: Fails): (n: nat)
    requires bound <= |input|
    ensures bound <= n <= |input|
  {
    if bound < |input| && !fail(Init, 0) then Entered(input, bound, granularity, fail) else bound
  }

  lemma {:induction false} AbandonBoxes(input: seq<Request>, start: Driver, boxes: map<int, int>, middle: map<int, int>, before: map<int, int>,
                                        rebound: seq<Rebound>, last: seq<Rebound>)
    requires Committed(input, rebound, start) && |last| <= 1 && |rebound| + |last| <= |input|
    requires last != [] ==> last[0].input == input[|rebound|]
    requires Elsewhere(boxes, middle, Boxes(rebound + last)) && Elsewhere(middle, before, Boxes(rebound))
    requires AllZero(boxes, Boxes(rebound + last))
    ensures Cleared(input[..|rebound| + |last|], boxes, before)
  {
    var all, named := rebound + last, input[..|rebound| + |last|];
    assert forall k :: 0 <= k < |all| ==> all[k].input == named[k];
    forall b | b in Boxes(rebound) ensures b in Boxes(all) {
      var r :| r in rebound && r.input.box == b;
      assert r in all;
    }
    assert Boxes(all) == RequestBoxes(named) by {
      forall b | b in RequestBoxes(named) ensures b in Boxes(all) {
        var k :| 0 <= k < |named| && named[k].box == b;
        assert all[k] in all;
      }
      forall b | b in Boxes(all) ensures b in RequestBoxes(named) {
        var k :| 0 <= k < |all| && all[k].input.box == b;
        assert named[k] in named;
      }
    }
  }

  lemma {:induction false} AbandonElsewhere(input: seq<Request>, start: Driver, boxes: map<int, int>, middle: map<int, int>, before: map<int, int>,
                                            rebound: seq<Rebound>, last: seq<Rebound>)
    requires Committed(input, rebound, start) && |last| <= 1 && |rebound| + |last| <= |input|
    requires last != [] ==> last[0].input == input[|rebound|]
    requires Elsewhere(boxes, middle, Boxes(rebound + last)) && Elsewhere(middle, before, Boxes(rebound))
    ensures Elsewhere(boxes, before, RequestBoxes(input))
  {
    var all := rebound + last;
    assert forall k :: 0 <= k < |all| ==> all[k].input == input[k];
    BoxesInside(input, all);
    assert forall k :: 0 <= k < |rebound| ==> rebound[k].input == input[k];
    BoxesInside(input, rebound);
  }

  lemma {:induction false} BoxesInside(input: seq<Request>, rebound: seq<Rebound>)
    requires |rebound| <= |input| && forall k :: 0 <= k < |rebound| ==> rebound[k].input == input[k]
    ensures Boxes(rebound) <= RequestBoxes(input)
  {
    forall b | b in Boxes(rebound) ensures b in RequestBoxes(input) {
      var k :| 0 <= k < |rebound| && rebound[k].input.box == b;
      assert input[k] in input;
    }
  }

  lemma {:induction false} ProgressElsewhere(input: seq<Request>, rebound: seq<Rebound>, start: Driver, boxes: map<int, int>, before: map<int, int>)
    requires Committed(input, rebound, start) && Elsewhere(boxes, before, Boxes(rebound))
    ensures Elsewhere(boxes, before, RequestBoxes(input))
  {
    BoxesInside(input, rebound);
  }

  /** The driver maps the address of the next request exactly if it is taken. */
  lemma {:induction false} TakenExact(input: seq<Request>, rebound: seq<Rebound>, start: Driver)
    requires Committed(input, rebound, start) && |rebound| < |input|
    ensures input[|rebound|].address in Sum(start, rebound).ranges <==> Taken(input, |rebound|, start)
  {
    SumRanges(rebound, start, input[|rebound|].address);
    if k :| 0 <= k < |rebound| && rebound[k].mapped && rebound[k].input.address == input[|rebound|].address {
      assert input[k].address == input[|rebound|].address;
    }
    if j :| 0 <= j < |rebound| && input[j].address == input[|rebound|].address {
      assert rebound[j].mapped && rebound[j].input.address == input[|rebound|].address;
    }
  }

  lemma {:induction false} SumRanges(rebound: seq<Rebound>, start: Driver, p: int)
    ensures p in Sum(start, rebound).ranges <==>
      p in start.ranges || exists k :: 0 <= k < |rebound| && rebound[k].mapped && rebound[k].input.address == p
  {
    if rebound != [] {
      var n := |rebound| - 1;
      SumRanges(rebound[..n], start, p);
      assert forall k :: 0 <= k < n ==> rebound[..n][k] == rebound[k];
    }
  }

  lemma {:induction false} BoxWritten(input: seq<Request>, rebound: seq<Rebound>, start: Driver, d: Driver, full: Rebound, boxes: map<int, int>, before: map<int, int>)
    requires Committed(input, rebound, start) && |rebound| < |input|
    requires full == Rebound(input[|rebound|], start.next + |rebound|, true, true) && Devoted(rebound, d)
    requires Elsewhere(boxes, before, Boxes(rebound)) && (DistinctBoxes(input) ==> Written(rebound, boxes))
    ensures var after := boxes[full.input.box := full.handle];
      && Committed(input, rebound + [full], start)
      && Devoted(rebound + [full], d.(device := d.device[full.handle := full.input.device]))
      && Elsewhere(after, before, Boxes(rebound + [full]))
      && (DistinctBoxes(input) ==> Written(rebound + [full], after))
  {
    var all := rebound + [full];
    assert Boxes(all) == Boxes(rebound) + {full.input.box} by {
      assert full in all && forall r :: r in rebound ==> r in all;
    }
    if DistinctBoxes(input) {
      forall k | 0 <= k < |rebound| ensures rebound[k].input.box != full.input.box {
        assert rebound[k].input == input[k];
      }
    }
  }

  lemma {:induction false} DevotedSame(rebound: seq<Rebound>, d: Driver, e: Driver)
    requires Devoted(rebound, d) && d.device == e.device
    ensures Devoted(rebound, e)
  {
  }

  lemma {:induction false} RebindStart(input: seq<Request>, d: Driver, boxes: map<int, int>)
    ensures Committed(input, [], d) && Devoted([], d) && AllNew(d, []) && Sum(d, []) == d
    ensures Elsewhere(boxes, boxes, RequestBoxes(input)) && Extends(d, d)
    ensures Elsewhere(boxes, boxes, Boxes([])) && Written([], boxes) && Devices(input[..0]) == {} && Cleared(input[..0], boxes, boxes)
  {
  }

  lemma {:induction false} DevicesNext(input: seq<Request>, i: nat)
    requires i < |input|
    ensures Devices(input[..i + 1]) == Devices(input[..i]) + {input[i].device}
  {
    assert input[..i + 1] == input[..i] + [input[i]];
    assert input[i] in input[..i + 1] && forall r :: r in input[..i] ==> r in input[..i + 1];
  }

  /** The allocation is mapped with its handle, and neither was there before. */
  predicate Holds(start: Driver, d: Driver, r: Rebound) {
    && r.input.address in d.ranges && d.ranges[r.input.address] == r.handle && r.input.address !in start.ranges
    && r.handle in d.handles && r.handle !in start.handles
  }

  lemma {:induction false} SumBound(rebound: seq<Rebound>, start: Driver, n: nat)
    requires AllNew(start, rebound) && n <= |rebound| && forall k :: 0 <= k < |rebound| ==> rebound[k].handleValid && rebound[k].mapped
    ensures Extends(start, Sum(start, rebound[..n]))
    ensures forall k :: 0 <= k < n ==> Holds(start, Sum(start, rebound[..n]), rebound[k])
  {
    if n > 0 {
      SumBound(rebound, start, n - 1);
      assert rebound[..n][..n - 1] == rebound[..n - 1];
      var d, r := Sum(start, rebound[..n - 1]), rebound[n - 1];
      assert New(d, r);
      forall k | 0 <= k < n ensures Holds(start, Plus(d, r), rebound[k]) {
        if k < n - 1 { assert Holds(start, d, rebound[k]); }
      }
    }
  }

  lemma {:induction false} RebindDone(input: seq<Request>, rebound: seq<Rebound>, start: Driver, after: Driver, boxes: map<int, int>)
    requires Committed(input, rebound, start) && AllNew(start, rebound) && |rebound| == |input| && SameHeld(after, Sum(start, rebound))
    requires (DistinctBoxes(input) ==> Written(rebound, boxes)) && Devoted(rebound, after)
    ensures Bound(input, start, after) && Placed(input, after) && (BoxesRight(input, after, boxes) <==> DistinctBoxes(input))
  {
    hide Sum, AllNew;
    SumBound(rebound, start, |rebound|);
    assert rebound[..|rebound|] == rebound;
    forall k | 0 <= k < |input| ensures input[k].address in after.ranges && after.ranges[input[k].address] == start.next + k
      && input[k].address !in start.ranges && start.next + k in after.handles && start.next + k !in start.handles
    {
      assert Holds(start, Sum(start, rebound), rebound[k]);
    }
    if DistinctBoxes(input) {
      forall k | 0 <= k < |input| ensures input[k].box in boxes && boxes[input[k].box] == after.ranges[input[k].address] {
        assert rebound[k].input == input[k];
      }
    }
    if BoxesRight(input, after, boxes) {
      forall i, j | 0 <= i < j < |input| ensures input[i].box != input[j].box {
        assert boxes[input[i].box] == start.next + i && boxes[input[j].box] == start.next + j;
      }
    }
  }

  lemma {:induction false} RebindAdds(input: seq<Request>, rebound: seq<Rebound>, start: Driver, after: Driver)
    requires Committed(input, rebound, start) && AllNew(start, rebound) && |rebound| == |input| && SameHeld(after, Sum(start, rebound))
    ensures OnlyAdded(input, start, after) && Extends(start, after)
  {
    hide Sum, AllNew;
    SumExtends(start, rebound, after);
    SumBound(rebound, start, |rebound|);
    assert rebound[..|rebound|] == rebound;
    forall p | p in after.ranges && p !in start.ranges ensures Address(input, p) {
      SumRanges(rebound, start, p);
      var k :| 0 <= k < |rebound| && rebound[k].mapped && rebound[k].input.address == p;
      assert input[k].address == p;
    }
    forall h | h in after.handles && h !in start.handles ensures Handle(input, after, h) {
      SumHandles(rebound, start, h);
      var k :| 0 <= k < |rebound| && rebound[k].handleValid && rebound[k].handle == h;
      assert Holds(start, Sum(start, rebound), rebound[k]);
      assert input[k].address in after.ranges && after.ranges[input[k].address] == h;
    }
  }

  lemma {:induction false} SumHandles(rebound: seq<Rebound>, start: Driver, h: int)
    ensures h in Sum(start, rebound).handles <==>
      h in start.handles || exists k :: 0 <= k < |rebound| && rebound[k].handleValid && rebound[k].handle == h
  {
    if rebound != [] {
      var n := |rebound| - 1;
      SumHandles(rebound[..n], start, h);
      assert forall k :: 0 <= k < n ==> rebound[..n][k] == rebound[k];
    }
  }

  // ---------------------------------------------------------------------------------------------
  // Publication and activation over runs.

  /** The exported calls, as far as they concern the published contexts. */
  datatype Event = Reset(device: int) | Rebinding(input: seq<Request>, ok: bool)

  /** The published devices after a run: a reset withdraws its device before anything can fail. */
  function Published(events: seq<Event>): set<int> {
    if events == [] then {}
    else
      var before, last := Published(events[..|events| - 1]), events[|events| - 1];
      match last
      case Reset(device) => if device < 0 then before else before - {device}
      case Rebinding(input, ok) => if ok then before + Devices(input) else before
  }

  /** Rebind `i` succeeded and named the device, which was not reset since. */
  ghost predicate Admits(events: seq<Event>, device: int, i: int) {
    && 0 <= i < |events| && events[i].Rebinding? && events[i].ok && Names(events[i].input, device)
    && forall j :: i < j < |events| ==> events[j] != Reset(device)
  }

  /** `coldsnap_cuda_epoch_activate_device` finds a context exactly if such a rebind exists. */
  lemma {:induction false} ActivationExact(events: seq<Event>, device: int)
    requires device >= 0
    ensures device in Published(events) <==> exists i :: Admits(events, device, i)
  {
    if events != [] {
      var n := |events| - 1;
      var front, last := events[..n], events[n];
      ActivationExact(front, device);
      if last.Rebinding? { DevicesExact(last.input, device); }
      if last.Rebinding? && last.ok && Names(last.input, device) {
        assert Admits(events, device, n);
      }
      if exists i :: Admits(front, device, i) && last != Reset(device) {
        var i :| Admits(front, device, i);
        assert forall j :: i < j < n ==> front[j] == events[j];
        assert Admits(events, device, i);
      }
      if i :| Admits(events, device, i) {
        if i < n {
          assert forall j :: i < j < n ==> front[j] == events[j];
          assert Admits(front, device, i);
        }
      }
    }
  }
}
