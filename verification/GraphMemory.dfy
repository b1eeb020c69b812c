/**
  The scoped CUDA graph allocator (`coldsnap_graph_memory.cpp`): allocations whose backing can be
  paused and resumed at a fixed address, over a driver every call of which may fail.
 */
module GraphMemory {

  /** The driver calls; the last three are made to undo a failed operation, and their results are ignored. */
  datatype Call = GetDevice | Synchronize | SetDevice | Properties | Create | Reserve | MapRange | SetAccess
                | Unmap | Release | FreeAddress | UndoUnmap | UndoRelease | UndoFree

  /** Which calls of an operation fail, by call and address. */
  type Fails = (Call, int) -> bool

  /** What the driver holds: live handles, mapped ranges with their handles, reserved addresses. */
  datatype Driver = Driver(handles: set<int>, ranges: map<int, int>, reserved: set<int>, next: int)

  datatype Allocation = Allocation(raw: nat, size: nat, device: int, tag: string, pool: int,
                                   handle: int, handleValid: bool, mapped: bool, accessible: bool)

  datatype Scope = Scope(tag: string, device: int, pool: int)

  datatype State = State(allocations: map<int, Allocation>, scopes: seq<Scope>, driver: Driver)

  datatype Residency = Active | Paused | Partial

  const MAX_SIZE: nat := 0xFFFF_FFFF_FFFF_FFFF

  function StateOf(a: Allocation): Residency {
    if a.mapped && a.handleValid && a.accessible then Active
    else if !a.mapped && !a.handleValid && !a.accessible then Paused
    else Partial
  }

  predicate Matches(a: Allocation, tag: string, device: int) {
    (tag == "" || a.tag == tag) && (device < 0 || a.device == device)
  }

  /** The tag, if one is named, and the device, if one is named, are those of the allocation. */
  predicate Selected(a: Allocation, tag: string, device: int) { !(tag != "" && a.tag != tag) && !(device >= 0 && a.device != device) }

  /** Mapped, readable and writable, with a handle. */
  predicate Resident(a: Allocation) { a.mapped && a.handleValid && a.accessible }

  /** Without handle and mapping. */
  predicate Absent(a: Allocation) { !a.mapped && !a.handleValid && !a.accessible }

  // ---------------------------------------------------------------------------------------------
  // Driver calls.

  function Unmapped(d: Driver, p: int): Driver { d.(ranges := map q | q in d.ranges && q != p :: d.ranges[q]) }

  function Released(d: Driver, h: int): Driver { d.(handles := d.handles - {h}) }

  function Freed(d: Driver, p: int): Driver { d.(reserved := d.reserved - {p}) }

  /** The driver maps a range only where nothing is mapped. */
  predicate CanMap(d: Driver, p: int, fail: Fails) { p !in d.ranges && !fail(MapRange, p) }

  /** The allocation size rounded up to the granularity, if the driver answers and nothing overflows. */
  function MappedSize(raw: nat, granularity: nat): int
    requires granularity > 0
  {
    (raw + granularity - 1) / granularity * granularity
  }

  /** `size` is the least multiple of the granularity that holds `raw` bytes. */
  predicate RoundedUp(raw: nat, size: int, granularity: nat) { granularity > 0 && size % granularity == 0 && raw <= size < raw + granularity }

  lemma {:induction false} RoundedExact(raw: nat, size: int, granularity: nat)
    requires granularity > 0
    ensures MappedSize(raw, granularity) == size <==> RoundedUp(raw, size, granularity)
  {
    var n := (raw + granularity - 1) / granularity;
    MultipleRemainder(n, granularity);
    assert raw + granularity - 1 == n * granularity + (raw + granularity - 1) % granularity;
    if RoundedUp(raw, size, granularity) {
      SameMultiple(n, size / granularity, granularity, raw);
    }
  }

  lemma {:induction false} Scaled(k: int, g: int)
    requires g > 0
    ensures k >= 1 ==> k * g >= g
    ensures k <= -1 ==> k * g <= -g
  {
  }

  lemma {:induction false} MultipleRemainder(n: int, g: int)
    requires g > 0
    ensures n * g % g == 0
  {
    var q := n * g / g;
    Scaled(n - q, g);
    assert (n - q) * g == n * g - q * g;
  }

  lemma {:induction false} SameMultiple(n: int, k: int, g: int, raw: int)
    requires g > 0 && raw <= n * g < raw + g && raw <= k * g < raw + g
    ensures n == k
  {
    Scaled(n - k, g);
    assert (n - k) * g == n * g - k * g;
  }

  predicate Sizable(raw: nat, granularity: nat) { granularity > 0 && raw <= MAX_SIZE - (granularity - 1) }

  // ---------------------------------------------------------------------------------------------
  // One allocation.

  datatype Step = Step(a: Allocation, d: Driver, ok: bool)

  /** `pause_allocation`. */
  function PauseOne(p: int, a: Allocation, d: Driver, fail: Fails): Step {
    if fail(SetDevice, p) then Step(a, d, false)
    else if a.mapped && fail(Unmap, p) then Step(a.(accessible := false), d, false)
    else
      var b := if a.mapped then a.(accessible := false, mapped := false) else a;
      var e := if a.mapped then Unmapped(d, p) else d;
      if b.handleValid && fail(Release, p) then Step(b, e, false)
      else
        var c := if b.handleValid then b.(handleValid := false, handle := 0) else b;
        Step(c, if b.handleValid then Released(e, b.handle) else e, StateOf(c) == Paused)
  }

  /** The undo calls after a failed access change. */
  function UndoMap(p: int, h: int, d: Driver, fail: Fails): Driver {
    var e := if fail(UndoUnmap, p) then d else Unmapped(d, p);
    if fail(UndoRelease, p) then e else Released(e, h)
  }

  /** `resume_allocation`. */
  function ResumeOne(p: int, a: Allocation, d: Driver, granularity: nat, fail: Fails): Step {
    if fail(SetDevice, p) then Step(a, d, false)
    else if StateOf(a) == Active then Step(a, d, true)
    else if a.mapped then Step(a, d, false)
    else if a.handleValid && fail(Release, p) then Step(a, d, false)
    else
      var b := if a.handleValid then a.(handleValid := false, handle := 0) else a;
      var e := if a.handleValid then Released(d, a.handle) else d;
      if fail(Properties, p) || !Sizable(a.raw, granularity) || MappedSize(a.raw, granularity) != a.size || fail(Create, p) then Step(b, e, false)
      else
        var h := e.next;
        var f := e.(handles := e.handles + {h}, next := h + 1);
        if !CanMap(f, p, fail) then Step(b, if fail(UndoRelease, p) then f else Released(f, h), false)
        else
          var g := f.(ranges := f.ranges[p := h]);
          if fail(SetAccess, p) then Step(b.(handle := 0, accessible := false), UndoMap(p, h, g, fail), false)
          else Step(b.(handle := h, handleValid := true, mapped := true, accessible := true), g, true)
  }

  // ---------------------------------------------------------------------------------------------
  // The operations.

  datatype Result = Result(s: State, ok: bool)

  function With(s: State, p: int, step: Step): State {
    s.(allocations := s.allocations[p := step.a], driver := step.d)
  }

  /** The loop of `coldsnap_graph_pause`, in the iteration order of the table. */
  function PauseEach(s: State, order: seq<int>, tag: string, device: int, fail: Fails): Result
    decreases |order|
  {
    if order == [] then Result(s, true)
    else
      var p := order[0];
      if p !in s.allocations || !Matches(s.allocations[p], tag, device) || StateOf(s.allocations[p]) == Paused then
        PauseEach(s, order[1..], tag, device, fail)
      else
        var step := PauseOne(p, s.allocations[p], s.driver, fail);
        if step.ok then PauseEach(With(s, p, step), order[1..], tag, device, fail) else Result(With(s, p, step), false)
  }

  function ResumeEach(s: State, order: seq<int>, tag: string, device: int, granularity: nat, fail: Fails): Result
    decreases |order|
  {
    if order == [] then Result(s, true)
    else
      var p := order[0];
      if p !in s.allocations || !Matches(s.allocations[p], tag, device) then
        ResumeEach(s, order[1..], tag, device, granularity, fail)
      else
        var step := ResumeOne(p, s.allocations[p], s.driver, granularity, fail);
        if step.ok then ResumeEach(With(s, p, step), order[1..], tag, device, granularity, fail) else Result(With(s, p, step), false)
  }

  /** `allocate_scoped`, with the address that the driver reserves. */
  function Allocate(s: State, raw: nat, current: int, p: int, granularity: nat, fail: Fails): Result
    requires s.scopes != []
  {
    var scope, d := s.scopes[|s.scopes| - 1], s.driver;
    if fail(GetDevice, p) || (scope.device >= 0 && scope.device != current)
       || fail(Properties, p) || !Sizable(raw, granularity) || fail(Create, p) then Result(s, false)
    else
      var h := d.next;
      var e := d.(handles := d.handles + {h}, next := h + 1);
      var undone := if fail(UndoRelease, p) then e else Released(e, h);
      if fail(Reserve, p) || p in d.reserved then Result(s.(driver := undone), false)
      else
        var f := e.(reserved := e.reserved + {p});
        if !CanMap(f, p, fail) then
          var g := if fail(UndoFree, p) then f else Freed(f, p);
          Result(s.(driver := if fail(UndoRelease, p) then g else Released(g, h)), false)
        else
          var g := f.(ranges := f.ranges[p := h]);
          if fail(SetAccess, p) || p in s.allocations then
            var u := UndoMap(p, h, g, fail);
            Result(s.(driver := if fail(UndoFree, p) then u else Freed(u, p)), false)
          else
            var a := Allocation(raw, MappedSize(raw, granularity), current, scope.tag, scope.pool, h, true, true, true);
            Result(s.(allocations := s.allocations[p := a], driver := g), true)
  }

  function Without(m: map<int, Allocation>, p: int): map<int, Allocation> { map q | q in m && q != p :: m[q] }

  /** `cudaFree` of a managed pointer. */
  function Free(s: State, p: int, fail: Fails): Result
    requires p in s.allocations
  {
    if fail(Synchronize, p) then Result(s, false)
    else
      var step := PauseOne(p, s.allocations[p], s.driver, fail);
      if !step.ok || fail(FreeAddress, p) then Result(With(s, p, step), false)
      else Result(s.(allocations := Without(s.allocations, p), driver := Freed(step.d, p)), true)
  }

  // ---------------------------------------------------------------------------------------------
  // Runs.

  datatype Event =
    | Push(scope: Scope, current: int, fail: Fails)
    | Pop(fail: Fails)
    | Malloc(raw: nat, current: int, address: int, granularity: nat, fail: Fails)
    | FreeAt(address: int, fail: Fails)
    | Pause(tag: string, device: int, order: seq<int>, fail: Fails)
    | Resume(tag: string, device: int, order: seq<int>, granularity: nat, fail: Fails)

  /** Some device that holds a matching allocation cannot be synchronised. */
  ghost predicate SyncFails(s: State, tag: string, device: int, fail: Fails) {
    exists p :: p in s.allocations && Selected(s.allocations[p], tag, device) && fail(Synchronize, s.allocations[p].device)
  }

  /** One exported call; pointers that are not managed go to the CUDA runtime and change nothing here. */
  ghost function Apply(s: State, e: Event): Result {
    match e
    case Push(scope, current, fail) =>
      if scope.tag == "" || (scope.device >= 0 && (fail(GetDevice, 0) || current != scope.device)) then Result(s, false)
      else Result(s.(scopes := s.scopes + [scope]), true)
    case Pop(_) => if s.scopes == [] then Result(s, false) else Result(s.(scopes := s.scopes[..|s.scopes| - 1]), true)
    case Malloc(raw, current, p, granularity, fail) =>
      if s.scopes == [] || raw == 0 then Result(s, true) else Allocate(s, raw, current, p, granularity, fail)
    case FreeAt(p, fail) => if p !in s.allocations then Result(s, true) else Free(s, p, fail)
    case Pause(tag, device, order, fail) =>
      if s.scopes != [] || SyncFails(s, tag, device, fail) then Result(s, false) else PauseEach(s, order, tag, device, fail)
    case Resume(tag, device, order, granularity, fail) =>
      if s.scopes != [] then Result(s, false)
      else
        var r := ResumeEach(s, order, tag, device, granularity, fail);
        Result(r.s, r.ok && !SyncFails(r.s, tag, device, fail))
  }

  ghost function Run(s: State, events: seq<Event>): State {
    if events == [] then s else Apply(Run(s, events[..|events| - 1]), events[|events| - 1]).s
  }

  function Start(): State { State(map[], [], Driver({}, map[], {}, 0)) }

  // ---------------------------------------------------------------------------------------------
  // Invariants.

  /** Accessible implies mapped, mapped implies a valid handle. */
  predicate Flags(a: Allocation) { (a.accessible ==> a.mapped) && (a.mapped ==> a.handleValid) }

  /** What the table records about `p` is so in the driver. */
  predicate Backed(p: int, a: Allocation, d: Driver) {
    && p in d.reserved
    && (a.handleValid ==> a.handle in d.handles)
    && (a.mapped ==> p in d.ranges && d.ranges[p] == a.handle)
  }

  ghost predicate AllBacked(s: State) {
    forall p :: p in s.allocations ==> Flags(s.allocations[p]) && Backed(p, s.allocations[p], s.driver)
  }

  ghost predicate OwnHandles(s: State) {
    forall p, q :: p in s.allocations && q in s.allocations && p != q && s.allocations[p].handleValid && s.allocations[q].handleValid ==>
      s.allocations[p].handle != s.allocations[q].handle
  }

  ghost predicate Sound(s: State) {
    AllBacked(s) && OwnHandles(s) && forall h :: h in s.driver.handles ==> h < s.driver.next
  }

  /** Nothing has leaked: the driver holds no range, handle or reservation that the table does not record. */
  ghost predicate Exact(s: State) {
    && (forall p :: p in s.driver.ranges ==> p in s.allocations && s.allocations[p].mapped)
    && (forall h :: h in s.driver.handles ==> Recorded(s, h))
    && s.driver.reserved == s.allocations.Keys
  }

  ghost predicate Recorded(s: State, h: int) {
    exists p :: p in s.allocations && s.allocations[p].handleValid && s.allocations[p].handle == h
  }

  /** The calls that undo a failed operation succeed. */
  ghost predicate Tidy(fail: Fails) { forall p :: !fail(UndoUnmap, p) && !fail(UndoRelease, p) && !fail(UndoFree, p) }

  /** Address, sizes, device, tag and pool. */
  predicate SameIdentity(a: Allocation, b: Allocation) {
    a.raw == b.raw && a.size == b.size && a.device == b.device && a.tag == b.tag && a.pool == b.pool
  }

  lemma {:induction false} PauseSound(s: State, p: int, fail: Fails)
    requires Sound(s) && p in s.allocations
    ensures Sound(With(s, p, PauseOne(p, s.allocations[p], s.driver, fail)))
    ensures SameIdentity(PauseOne(p, s.allocations[p], s.driver, fail).a, s.allocations[p])
  {
    var a, t := s.allocations[p], With(s, p, PauseOne(p, s.allocations[p], s.driver, fail));
    forall q | q in t.allocations ensures Flags(t.allocations[q]) && Backed(q, t.allocations[q], t.driver) {
      assert Flags(s.allocations[q]) && Backed(q, s.allocations[q], s.driver);
    }
  }

  lemma {:induction false} ResumeSound(s: State, p: int, granularity: nat, fail: Fails)
    requires Sound(s) && p in s.allocations
    ensures Sound(With(s, p, ResumeOne(p, s.allocations[p], s.driver, granularity, fail)))
    ensures SameIdentity(ResumeOne(p, s.allocations[p], s.driver, granularity, fail).a, s.allocations[p])
  {
    hide MappedSize, Sizable;
    var a, t := s.allocations[p], With(s, p, ResumeOne(p, s.allocations[p], s.driver, granularity, fail));
    forall q | q in t.allocations ensures Flags(t.allocations[q]) && Backed(q, t.allocations[q], t.driver) {
      assert Flags(s.allocations[q]) && Backed(q, s.allocations[q], s.driver);
    }
  }

  /** Only the allocation at `p`, its range and its handle have changed, and not what it is. */
  ghost predicate Beside(s: State, t: State, p: int) {
    && t.allocations.Keys == s.allocations.Keys && t.scopes == s.scopes && t.driver.reserved == s.driver.reserved
    && (forall q :: q in s.allocations && q != p ==> t.allocations[q] == s.allocations[q])
    && (p in s.allocations ==> SameIdentity(t.allocations[p], s.allocations[p]))
    && (forall q :: q != p ==> (q in t.driver.ranges <==> q in s.driver.ranges))
    && (forall q :: q != p && q in s.driver.ranges ==> t.driver.ranges[q] == s.driver.ranges[q])
    && (forall h :: h in s.driver.handles && !(p in s.allocations && s.allocations[p].handleValid && s.allocations[p].handle == h) ==> h in t.driver.handles)
  }

  predicate DropWorks(p: int, a: Allocation, fail: Fails) {
    !fail(SetDevice, p) && (a.mapped ==> !fail(Unmap, p)) && (a.handleValid ==> !fail(Release, p))
  }

  predicate Dropped(p: int, a: Allocation, d: Driver) {
    (a.mapped ==> p !in d.ranges) && (a.handleValid ==> a.handle !in d.handles)
  }

  predicate RestoreWorks(p: int, a: Allocation, d: Driver, granularity: nat, fail: Fails) {
    && !fail(SetDevice, p)
    && (Resident(a)
        || (&& !a.mapped && (a.handleValid ==> !fail(Release, p)) && !fail(Properties, p) && Refits(a, granularity)
            && !fail(Create, p) && CanMap(d, p, fail) && !fail(SetAccess, p)))
  }

  /** What a drop leaves: it stops at the first call that fails, and an allocation that it has begun to unmap is not accessible. */
  predicate DropLeaves(p: int, a: Allocation, b: Allocation, fail: Fails) {
    && SameIdentity(a, b)
    && (if fail(SetDevice, p) then b == a else
          && !b.accessible && b.mapped == (a.mapped && fail(Unmap, p))
          && b.handleValid == (a.handleValid && (b.mapped || fail(Release, p))) && (b.handleValid ==> b.handle == a.handle))
  }

  /** What a restore leaves that fails: the allocation as it was, without its old handle if that was released. */
  predicate RestoreLeaves(p: int, a: Allocation, b: Allocation, fail: Fails) {
    && SameIdentity(a, b) && b.mapped == a.mapped && b.accessible == a.accessible
    && b.handleValid == (a.handleValid && (fail(SetDevice, p) || a.mapped || fail(Release, p))) && (b.handleValid ==> b.handle == a.handle)
  }

  lemma {:induction false} PauseMeaning(s: State, p: int, fail: Fails)
    requires Sound(s) && p in s.allocations
    ensures var step := PauseOne(p, s.allocations[p], s.driver, fail);
      && Beside(s, With(s, p, step), p) && (step.ok <==> DropWorks(p, s.allocations[p], fail))
      && (step.ok ==> Absent(step.a) && Dropped(p, s.allocations[p], step.d)) && DropLeaves(p, s.allocations[p], step.a, fail)
  {
    assert Flags(s.allocations[p]);
  }

  lemma {:induction false} ResumeMeaning(s: State, p: int, granularity: nat, fail: Fails)
    requires Sound(s) && p in s.allocations
    ensures var step := ResumeOne(p, s.allocations[p], s.driver, granularity, fail);
      && Beside(s, With(s, p, step), p) && (step.ok <==> RestoreWorks(p, s.allocations[p], s.driver, granularity, fail))
      && (step.ok ==> Resident(step.a) && p in step.d.ranges && step.d.ranges[p] == step.a.handle)
      && (step.ok && !Resident(s.allocations[p]) ==> step.a.handle in step.d.handles - s.driver.handles)
      && (!step.ok ==> RestoreLeaves(p, s.allocations[p], step.a, fail))
  {
    hide MappedSize, Sizable, Refits;
    RefitsExact(s.allocations[p], granularity);
    assert Flags(s.allocations[p]) && Backed(p, s.allocations[p], s.driver);
  }

  lemma {:induction false} AllocateSound(s: State, raw: nat, current: int, p: int, granularity: nat, fail: Fails)
    requires Sound(s) && s.scopes != []
    ensures Sound(Allocate(s, raw, current, p, granularity, fail).s)
    ensures forall q :: q in s.allocations ==>
      q in Allocate(s, raw, current, p, granularity, fail).s.allocations && Allocate(s, raw, current, p, granularity, fail).s.allocations[q] == s.allocations[q]
  {
    hide MappedSize, Sizable;
    var t := Allocate(s, raw, current, p, granularity, fail).s;
    assert p in s.allocations ==> Backed(p, s.allocations[p], s.driver);
    forall q | q in t.allocations ensures Flags(t.allocations[q]) && Backed(q, t.allocations[q], t.driver) {
      if q in s.allocations { assert Flags(s.allocations[q]) && Backed(q, s.allocations[q], s.driver); }
    }
  }

  lemma {:induction false} FreeSound(s: State, p: int, fail: Fails)
    requires Sound(s) && p in s.allocations
    ensures Sound(Free(s, p, fail).s)
  {
    PauseSound(s, p, fail);
  }

  /** A scoped request that can be met: the device is the one of the scope, the address is free, and every call works. */
  predicate AllocateWorks(s: State, raw: nat, current: int, p: int, granularity: nat, fail: Fails)
    requires s.scopes != []
  {
    var scope := s.scopes[|s.scopes| - 1];
    && !fail(GetDevice, p) && (scope.device < 0 || scope.device == current) && !fail(Properties, p)
    && granularity > 0 && raw + granularity - 1 <= MAX_SIZE
    && !fail(Create, p) && !fail(Reserve, p) && p !in s.driver.reserved && CanMap(s.driver, p, fail) && !fail(SetAccess, p)
  }

  /** The new allocation is active, under the tag of the innermost scope, and backed by a new handle. */
  ghost predicate Made(s: State, t: State, raw: nat, current: int, p: int, granularity: nat)
    requires s.scopes != []
  {
    && p !in s.allocations && p in t.allocations && t.allocations[p].handle !in s.driver.handles
    && Resident(t.allocations[p]) && Backed(p, t.allocations[p], t.driver)
    && t.allocations[p].raw == raw && t.allocations[p].device == current && RoundedUp(raw, t.allocations[p].size, granularity)
    && t.allocations[p].tag == s.scopes[|s.scopes| - 1].tag && t.allocations[p].pool == s.scopes[|s.scopes| - 1].pool
  }

  lemma {:induction false} AllocateMeaning(s: State, raw: nat, current: int, p: int, granularity: nat, fail: Fails)
    requires Sound(s) && s.scopes != []
    ensures var r := Allocate(s, raw, current, p, granularity, fail);
      && (r.ok <==> AllocateWorks(s, raw, current, p, granularity, fail))
      && (r.ok ==> Made(s, r.s, raw, current, p, granularity) && r.s.allocations.Keys == s.allocations.Keys + {p})
      && (!r.ok ==> r.s.allocations == s.allocations && (Undoes(p, fail) ==> SameHeld(r.s.driver, s.driver)))
      && forall q :: q in s.allocations ==> q in r.s.allocations && r.s.allocations[q] == s.allocations[q]
  {
    hide MappedSize, RoundedUp;
    if granularity > 0 { RoundedExact(raw, MappedSize(raw, granularity), granularity); }
    assert p in s.allocations ==> Backed(p, s.allocations[p], s.driver);
    assert s.driver.next !in s.driver.handles;
  }

  /** The calls that undo a failed allocation succeed. */
  predicate Undoes(p: int, fail: Fails) { !fail(UndoUnmap, p) && !fail(UndoRelease, p) && !fail(UndoFree, p) }

  predicate SameHeld(d: Driver, e: Driver) { d.handles == e.handles && d.ranges == e.ranges && d.reserved == e.reserved }

  predicate FreeWorks(p: int, a: Allocation, fail: Fails) { !fail(Synchronize, p) && DropWorks(p, a, fail) && !fail(FreeAddress, p) }

  lemma {:induction false} FreeMeaning(s: State, p: int, fail: Fails)
    requires Sound(s) && p in s.allocations
    ensures var r := Free(s, p, fail);
      && (r.ok <==> FreeWorks(p, s.allocations[p], fail))
      && (r.ok ==> r.s.allocations == Without(s.allocations, p) && Dropped(p, s.allocations[p], r.s.driver) && p !in r.s.driver.reserved)
      && (!r.ok ==> r.s.allocations.Keys == s.allocations.Keys && forall q :: q in s.allocations && q != p ==> r.s.allocations[q] == s.allocations[q])
      && (!r.ok ==> if fail(Synchronize, p) then r.s == s else DropLeaves(p, s.allocations[p], r.s.allocations[p], fail))
  {
    hide PauseOne, DropWorks, Dropped, DropLeaves;
    PauseMeaning(s, p, fail);
    var step := PauseOne(p, s.allocations[p], s.driver, fail);
    DroppedFreed(p, s.allocations[p], step.d);
  }

  lemma {:induction false} DroppedFreed(p: int, a: Allocation, d: Driver)
    ensures Dropped(p, a, d) ==> Dropped(p, a, Freed(d, p))
  {
  }

  /** The driver would map the allocation with the size it was made with. */
  predicate Refits(a: Allocation, granularity: nat) {
    granularity > 0 && a.raw + granularity - 1 <= MAX_SIZE && RoundedUp(a.raw, a.size, granularity)
  }

  lemma {:induction false} RefitsExact(a: Allocation, granularity: nat)
    ensures Refits(a, granularity) <==> Sizable(a.raw, granularity) && MappedSize(a.raw, granularity) == a.size
  {
    hide MappedSize, RoundedUp;
    if granularity > 0 { RoundedExact(a.raw, a.size, granularity); }
  }

  /** A loop keeps the table sound, keeps every identity, and leaves other allocations alone. */
  ghost predicate Kept(s: State, t: State, tag: string, device: int) {
    && Sound(t) && t.allocations.Keys == s.allocations.Keys && t.scopes == s.scopes
    && forall p :: p in s.allocations ==>
         && SameIdentity(t.allocations[p], s.allocations[p])
         && (!Selected(s.allocations[p], tag, device) ==> t.allocations[p] == s.allocations[p])
  }

  lemma {:induction false} PauseKept(s: State, order: seq<int>, tag: string, device: int, fail: Fails)
    requires Sound(s)
    ensures Kept(s, PauseEach(s, order, tag, device, fail).s, tag, device)
    decreases |order|
  {
    hide Sound, PauseOne;
    if order != [] {
      var p := order[0];
      if p !in s.allocations || !Selected(s.allocations[p], tag, device) || Absent(s.allocations[p]) {
        PauseKept(s, order[1..], tag, device, fail);
      } else {
        var t := With(s, p, PauseOne(p, s.allocations[p], s.driver, fail));
        PauseSound(s, p, fail);
        PauseKept(t, order[1..], tag, device, fail);
      }
    }
  }

  lemma {:induction false} ResumeKept(s: State, order: seq<int>, tag: string, device: int, granularity: nat, fail: Fails)
    requires Sound(s)
    ensures Kept(s, ResumeEach(s, order, tag, device, granularity, fail).s, tag, device)
    decreases |order|
  {
    hide Sound, ResumeOne;
    if order != [] {
      var p := order[0];
      if p !in s.allocations || !Selected(s.allocations[p], tag, device) {
        ResumeKept(s, order[1..], tag, device, granularity, fail);
      } else {
        var t := With(s, p, ResumeOne(p, s.allocations[p], s.driver, granularity, fail));
        ResumeSound(s, p, granularity, fail);
        ResumeKept(t, order[1..], tag, device, granularity, fail);
      }
    }
  }

  /** Every listed match that is not paused can be dropped. */
  ghost predicate AllDrop(s: State, order: seq<int>, tag: string, device: int, fail: Fails) {
    forall p :: p in order && p in s.allocations && Selected(s.allocations[p], tag, device) && !Absent(s.allocations[p]) ==>
      DropWorks(p, s.allocations[p], fail)
  }

  /** Whatever fails: the pause loop succeeds exactly if every match can be dropped, and then they are paused. */
  lemma {:induction false} PauseEachMeaning(s: State, order: seq<int>, tag: string, device: int, fail: Fails)
    requires Sound(s)
    ensures var r := PauseEach(s, order, tag, device, fail);
      && (r.ok <==> AllDrop(s, order, tag, device, fail)) && Kept(s, r.s, tag, device)
      && (forall p :: p in s.allocations && Absent(s.allocations[p]) ==> Absent(r.s.allocations[p]))
      && (r.ok ==> forall p :: p in order && p in s.allocations && Selected(s.allocations[p], tag, device) ==> Absent(r.s.allocations[p]))
    decreases |order|
  {
    hide PauseOne, Sound, DropWorks, Dropped, DropLeaves;
    PauseKept(s, order, tag, device, fail);
    if order != [] {
      var p, rest := order[0], order[1..];
      assert order == [p] + rest;
      if p !in s.allocations || !Selected(s.allocations[p], tag, device) || Absent(s.allocations[p]) {
        PauseEachMeaning(s, rest, tag, device, fail);
      } else {
        var step := PauseOne(p, s.allocations[p], s.driver, fail);
        PauseMeaning(s, p, fail);
        PauseSound(s, p, fail);
        if step.ok {
          PauseEachMeaning(With(s, p, step), rest, tag, device, fail);
          AllDropNext(s, With(s, p, step), order, tag, device, fail);
        } else {
          AbsentKept(s, step, p);
        }
      }
    }
  }

  lemma {:induction false} AbsentKept(s: State, step: Step, p: int)
    requires p in s.allocations && !Absent(s.allocations[p])
    ensures forall q :: q in s.allocations && Absent(s.allocations[q]) ==> Absent(With(s, p, step).allocations[q])
  {
  }

  lemma {:induction false} AllDropNext(s: State, t: State, order: seq<int>, tag: string, device: int, fail: Fails)
    requires order != [] && order[0] in s.allocations && t.allocations.Keys == s.allocations.Keys && Absent(t.allocations[order[0]])
    requires DropWorks(order[0], s.allocations[order[0]], fail)
    requires forall q :: q in s.allocations && q != order[0] ==> t.allocations[q] == s.allocations[q]
    ensures AllDrop(s, order, tag, device, fail) <==> AllDrop(t, order[1..], tag, device, fail)
  {
    hide DropWorks;
    assert order == [order[0]] + order[1..];
  }

  /** Every listed match can be restored. */
  ghost predicate AllRestore(s: State, order: seq<int>, tag: string, device: int, granularity: nat, fail: Fails) {
    forall p :: p in order && p in s.allocations && Selected(s.allocations[p], tag, device) ==>
      RestoreWorks(p, s.allocations[p], s.driver, granularity, fail)
  }

  /** Whatever fails: the resume loop succeeds exactly if every match can be restored, and then they are active. */
  lemma {:induction false} ResumeEachMeaning(s: State, order: seq<int>, tag: string, device: int, granularity: nat, fail: Fails)
    requires Sound(s)
    ensures var r := ResumeEach(s, order, tag, device, granularity, fail);
      && (r.ok <==> AllRestore(s, order, tag, device, granularity, fail)) && Kept(s, r.s, tag, device)
      && (forall p :: p in s.allocations && Resident(s.allocations[p]) ==> Resident(r.s.allocations[p]))
      && (r.ok ==> forall p :: p in order && p in s.allocations && Selected(s.allocations[p], tag, device) ==> Resident(r.s.allocations[p]))
    decreases |order|
  {
    hide ResumeOne, Sound, RestoreWorks, RestoreLeaves;
    ResumeKept(s, order, tag, device, granularity, fail);
    if order != [] {
      var p, rest := order[0], order[1..];
      assert order == [p] + rest;
      if p !in s.allocations || !Selected(s.allocations[p], tag, device) {
        ResumeEachMeaning(s, rest, tag, device, granularity, fail);
      } else {
        var step := ResumeOne(p, s.allocations[p], s.driver, granularity, fail);
        ResumeMeaning(s, p, granularity, fail);
        ResumeSound(s, p, granularity, fail);
        if step.ok {
          ResumeEachMeaning(With(s, p, step), rest, tag, device, granularity, fail);
          AllRestoreNext(s, With(s, p, step), order, tag, device, granularity, fail);
        } else {
          ResidentKept(s, p, granularity, fail);
        }
      }
    }
  }

  lemma {:induction false} ResidentKept(s: State, p: int, granularity: nat, fail: Fails)
    requires p in s.allocations
    ensures var step := ResumeOne(p, s.allocations[p], s.driver, granularity, fail);
      forall q :: q in s.allocations && Resident(s.allocations[q]) ==> Resident(With(s, p, step).allocations[q])
  {
    hide MappedSize, Sizable;
  }

  lemma {:induction false} AllRestoreNext(s: State, t: State, order: seq<int>, tag: string, device: int, granularity: nat, fail: Fails)
    requires order != [] && order[0] in s.allocations && Beside(s, t, order[0]) && Resident(t.allocations[order[0]])
    requires RestoreWorks(order[0], s.allocations[order[0]], s.driver, granularity, fail)
    ensures AllRestore(s, order, tag, device, granularity, fail) <==> AllRestore(t, order[1..], tag, device, granularity, fail)
  {
    hide Refits;
    assert order == [order[0]] + order[1..];
    forall q | q in s.allocations && q != order[0]
      ensures RestoreWorks(q, t.allocations[q], t.driver, granularity, fail) <==> RestoreWorks(q, s.allocations[q], s.driver, granularity, fail)
    {
      assert q in t.driver.ranges <==> q in s.driver.ranges;
    }
    assert RestoreWorks(order[0], t.allocations[order[0]], t.driver, granularity, fail);
  }

  lemma {:induction false} SyncSame(s: State, t: State, tag: string, device: int, fail: Fails)
    requires Kept(s, t, tag, device)
    ensures SyncFails(t, tag, device, fail) <==> SyncFails(s, tag, device, fail)
  {
    hide Sound;
    forall p | p in s.allocations
      ensures Selected(t.allocations[p], tag, device) <==> Selected(s.allocations[p], tag, device)
      ensures t.allocations[p].device == s.allocations[p].device
    {
      assert SameIdentity(t.allocations[p], s.allocations[p]);
    }
  }

  /** Every call keeps the table sound and the identity of every allocation it does not free. */
  lemma {:induction false} ApplySound(s: State, e: Event)
    requires Sound(s)
    ensures Sound(Apply(s, e).s)
    ensures forall p :: p in s.allocations && p in Apply(s, e).s.allocations ==> SameIdentity(Apply(s, e).s.allocations[p], s.allocations[p])
  {
    hide PauseOne, ResumeOne, Allocate, PauseEach, ResumeEach, SyncFails;
    match e
    case Push(_, _, _) =>
    case Pop(_) =>
    case Malloc(raw, current, p, granularity, fail) =>
      if s.scopes != [] && raw != 0 { AllocateSound(s, raw, current, p, granularity, fail); }
    case FreeAt(p, fail) =>
      if p in s.allocations {
        FreeSound(s, p, fail);
        PauseSound(s, p, fail);
      }
    case Pause(tag, device, order, fail) => PauseKept(s, order, tag, device, fail);
    case Resume(tag, device, order, granularity, fail) => ResumeKept(s, order, tag, device, granularity, fail);
  }

  /** In every run, whatever fails, recorded flags and the driver agree as `Sound` says. */
  lemma {:induction false} RunSound(events: seq<Event>)
    ensures Sound(Run(Start(), events))
  {
    hide Apply;
    if events != [] {
      RunSound(events[..|events| - 1]);
      ApplySound(Run(Start(), events[..|events| - 1]), events[|events| - 1]);
    }
  }

  // ---------------------------------------------------------------------------------------------
  // Nothing leaks as long as the undo calls succeed.

  lemma {:induction false} PauseExact(s: State, p: int, fail: Fails)
    requires Sound(s) && Exact(s) && p in s.allocations
    ensures Exact(With(s, p, PauseOne(p, s.allocations[p], s.driver, fail)))
  {
    var a, t := s.allocations[p], With(s, p, PauseOne(p, s.allocations[p], s.driver, fail));
    assert Flags(a);
    forall h | h in t.driver.handles ensures Recorded(t, h) {
      assert Recorded(s, h);
      var q :| q in s.allocations && s.allocations[q].handleValid && s.allocations[q].handle == h;
      assert q in t.allocations && t.allocations[q].handleValid && t.allocations[q].handle == h;
    }
  }

  lemma {:induction false} ResumeExact(s: State, p: int, granularity: nat, fail: Fails)
    requires Sound(s) && Exact(s) && p in s.allocations && Tidy(fail)
    ensures Exact(With(s, p, ResumeOne(p, s.allocations[p], s.driver, granularity, fail)))
  {
    hide MappedSize, Sizable;
    var a, t := s.allocations[p], With(s, p, ResumeOne(p, s.allocations[p], s.driver, granularity, fail));
    assert Flags(a);
    assert !fail(UndoUnmap, p) && !fail(UndoRelease, p);
    forall h | h in t.driver.handles ensures Recorded(t, h) {
      if h in s.driver.handles {
        assert Recorded(s, h);
        var q :| q in s.allocations && s.allocations[q].handleValid && s.allocations[q].handle == h;
        assert q in t.allocations && t.allocations[q].handleValid && t.allocations[q].handle == h;
      } else {
        assert t.allocations[p].handleValid && t.allocations[p].handle == h;
      }
    }
  }

  lemma {:induction false} AllocateExact(s: State, raw: nat, current: int, p: int, granularity: nat, fail: Fails)
    requires Sound(s) && Exact(s) && s.scopes != [] && Tidy(fail)
    ensures Exact(Allocate(s, raw, current, p, granularity, fail).s)
  {
    hide MappedSize, Sizable;
    var t := Allocate(s, raw, current, p, granularity, fail).s;
    assert !fail(UndoUnmap, p) && !fail(UndoRelease, p) && !fail(UndoFree, p);
    forall h | h in t.driver.handles ensures Recorded(t, h) {
      if h in s.driver.handles {
        assert Recorded(s, h);
        var q :| q in s.allocations && s.allocations[q].handleValid && s.allocations[q].handle == h;
        assert q in t.allocations && t.allocations[q].handleValid && t.allocations[q].handle == h;
      } else {
        assert t.allocations[p].handleValid && t.allocations[p].handle == h;
      }
    }
  }

  lemma {:induction false} FreeExact(s: State, p: int, fail: Fails)
    requires Sound(s) && Exact(s) && p in s.allocations
    ensures Exact(Free(s, p, fail).s)
  {
    var u := With(s, p, PauseOne(p, s.allocations[p], s.driver, fail));
    PauseExact(s, p, fail);
    PauseSound(s, p, fail);
    var t := Free(s, p, fail).s;
    forall h | h in t.driver.handles ensures Recorded(t, h) {
      if !fail(Synchronize, p) {
        assert Recorded(u, h);
        var q :| q in u.allocations && u.allocations[q].handleValid && u.allocations[q].handle == h;
        assert q in t.allocations && t.allocations[q] == u.allocations[q];
      } else {
        assert Recorded(s, h);
      }
    }
  }

  lemma {:induction false} PauseEachExact(s: State, order: seq<int>, tag: string, device: int, fail: Fails)
    requires Sound(s) && Exact(s)
    ensures Exact(PauseEach(s, order, tag, device, fail).s)
    decreases |order|
  {
    hide Sound, Exact, PauseOne;
    if order != [] {
      var p := order[0];
      if p !in s.allocations || !Selected(s.allocations[p], tag, device) || Absent(s.allocations[p]) {
        PauseEachExact(s, order[1..], tag, device, fail);
      } else {
        PauseSound(s, p, fail);
        PauseExact(s, p, fail);
        PauseEachExact(With(s, p, PauseOne(p, s.allocations[p], s.driver, fail)), order[1..], tag, device, fail);
      }
    }
  }

  lemma {:induction false} ResumeEachExact(s: State, order: seq<int>, tag: string, device: int, granularity: nat, fail: Fails)
    requires Sound(s) && Exact(s) && Tidy(fail)
    ensures Exact(ResumeEach(s, order, tag, device, granularity, fail).s)
    decreases |order|
  {
    hide Sound, Exact, ResumeOne;
    if order != [] {
      var p := order[0];
      if p !in s.allocations || !Selected(s.allocations[p], tag, device) {
        ResumeEachExact(s, order[1..], tag, device, granularity, fail);
      } else {
        ResumeSound(s, p, granularity, fail);
        ResumeExact(s, p, granularity, fail);
        ResumeEachExact(With(s, p, ResumeOne(p, s.allocations[p], s.driver, granularity, fail)), order[1..], tag, device, granularity, fail);
      }
    }
  }

  lemma {:induction false} ApplyExact(s: State, e: Event)
    requires Sound(s) && Exact(s) && Tidy(e.fail)
    ensures Exact(Apply(s, e).s)
  {
    hide PauseOne, ResumeOne, Allocate, Free, PauseEach, ResumeEach, SyncFails, Sound;
    match e
    case Push(_, _, _) => assert forall h :: Recorded(s, h) ==> Recorded(Apply(s, e).s, h);
    case Pop(_) => assert forall h :: Recorded(s, h) ==> Recorded(Apply(s, e).s, h);
    case Malloc(raw, current, p, granularity, fail) =>
      if s.scopes != [] && raw != 0 { AllocateExact(s, raw, current, p, granularity, fail); }
    case FreeAt(p, fail) => if p in s.allocations { FreeExact(s, p, fail); }
    case Pause(tag, device, order, fail) => PauseEachExact(s, order, tag, device, fail);
    case Resume(tag, device, order, granularity, fail) => ResumeEachExact(s, order, tag, device, granularity, fail);
  }

  /** In every run whose undo calls succeed, the driver holds exactly what the table records. */
  lemma {:induction false} RunExact(events: seq<Event>)
    requires forall i :: 0 <= i < |events| ==> Tidy(events[i].fail)
    ensures Exact(Run(Start(), events))
  {
    hide Apply, Tidy;
    if events != [] {
      var front := events[..|events| - 1];
      RunSound(front);
      RunExact(front);
      ApplyExact(Run(Start(), front), events[|events| - 1]);
    }
  }

  // ---------------------------------------------------------------------------------------------
  // A pause and a resume in which nothing fails.

  function NoFail(): Fails { (c: Call, p: int) => false }

  /** The order visits every allocation of the table. */
  ghost predicate Visits(order: seq<int>, s: State) { forall p :: p in s.allocations ==> p in order }

  ghost predicate AllAbsent(s: State, tag: string, device: int) {
    forall p :: p in s.allocations && Selected(s.allocations[p], tag, device) ==> Absent(s.allocations[p])
  }

  ghost predicate AllResident(s: State, tag: string, device: int) {
    forall p :: p in s.allocations && Selected(s.allocations[p], tag, device) ==> Resident(s.allocations[p])
  }

  lemma {:induction false} PauseOneClean(p: int, a: Allocation, d: Driver)
    requires Flags(a)
    ensures PauseOne(p, a, d, NoFail()).ok && Absent(PauseOne(p, a, d, NoFail()).a)
    ensures forall q :: q in PauseOne(p, a, d, NoFail()).d.ranges <==> q in d.ranges && !(q == p && a.mapped)
  {
  }

  /** The listed matching allocations become paused; the rest is as before. */
  lemma {:induction false} PauseClean(s: State, order: seq<int>, tag: string, device: int)
    requires Sound(s)
    ensures var r := PauseEach(s, order, tag, device, NoFail());
      r.ok && Kept(s, r.s, tag, device)
      && (forall p :: p in s.allocations && Absent(s.allocations[p]) ==> Absent(r.s.allocations[p]))
      && (forall p :: p in order && p in s.allocations && Selected(s.allocations[p], tag, device) ==> Absent(r.s.allocations[p]))
    decreases |order|
  {
    hide PauseOne;
    PauseKept(s, order, tag, device, NoFail());
    if order != [] {
      var p := order[0];
      if p !in s.allocations || !Selected(s.allocations[p], tag, device) || Absent(s.allocations[p]) {
        PauseClean(s, order[1..], tag, device);
      } else {
        var step := PauseOne(p, s.allocations[p], s.driver, NoFail());
        PauseOneClean(p, s.allocations[p], s.driver);
        PauseSound(s, p, NoFail());
        PauseClean(With(s, p, step), order[1..], tag, device);
      }
    }
  }

  /** Matching allocations are paused, or active again. */
  ghost predicate Settled(s: State, tag: string, device: int) {
    forall p :: p in s.allocations && Selected(s.allocations[p], tag, device) ==> Resident(s.allocations[p]) || Absent(s.allocations[p])
  }

  /** A listed matching allocation is paused and cannot be backed again. */
  ghost predicate Blocks(s: State, order: seq<int>, tag: string, device: int, granularity: nat) {
    exists p :: p in order && Blocked(s, p, tag, device, granularity)
  }

  predicate Blocked(s: State, p: int, tag: string, device: int, granularity: nat) {
    && p in s.allocations && Selected(s.allocations[p], tag, device) && Absent(s.allocations[p])
    && (p in s.driver.ranges || !Refits(s.allocations[p], granularity))
  }

  lemma {:induction false} ResumeOneClean(s: State, p: int, tag: string, device: int, granularity: nat)
    requires Sound(s) && Settled(s, tag, device) && p in s.allocations && Selected(s.allocations[p], tag, device)
    ensures var step := ResumeOne(p, s.allocations[p], s.driver, granularity, NoFail());
      && (step.ok <==> !Blocked(s, p, tag, device, granularity))
      && (step.ok ==> Resident(step.a) && forall q :: q != p ==> (q in step.d.ranges <==> q in s.driver.ranges))
  {
    hide MappedSize, Sizable, Refits;
    RefitsExact(s.allocations[p], granularity);
    assert Flags(s.allocations[p]);
  }

  /** A resume in which nothing fails succeeds exactly if no allocation is blocked, and then all matches are active. */
  lemma {:induction false} ResumeClean(s: State, order: seq<int>, tag: string, device: int, granularity: nat)
    requires Sound(s) && Settled(s, tag, device)
    ensures var r := ResumeEach(s, order, tag, device, granularity, NoFail());
      && (r.ok <==> !Blocks(s, order, tag, device, granularity)) && Kept(s, r.s, tag, device)
      && (r.ok ==> forall p :: p in s.allocations && Resident(s.allocations[p]) ==> Resident(r.s.allocations[p]))
      && (r.ok ==> forall p :: p in order && p in s.allocations && Selected(s.allocations[p], tag, device) ==> Resident(r.s.allocations[p]))
    decreases |order|
  {
    hide ResumeOne, Refits, Sound;
    ResumeKept(s, order, tag, device, granularity, NoFail());
    if order != [] {
      var p, rest := order[0], order[1..];
      BlocksNext(s, order, tag, device, granularity);
      if p !in s.allocations || !Selected(s.allocations[p], tag, device) {
        ResumeClean(s, rest, tag, device, granularity);
      } else {
        var step := ResumeOne(p, s.allocations[p], s.driver, granularity, NoFail());
        var t := With(s, p, step);
        ResumeOneClean(s, p, tag, device, granularity);
        ResumeSound(s, p, granularity, NoFail());
        if step.ok {
          BlocksSame(s, t, p, rest, tag, device, granularity);
          ResumeClean(t, rest, tag, device, granularity);
        }
      }
    }
  }

  lemma {:induction false} BlocksNext(s: State, order: seq<int>, tag: string, device: int, granularity: nat)
    requires order != []
    ensures Blocks(s, order, tag, device, granularity) <==>
      Blocked(s, order[0], tag, device, granularity) || Blocks(s, order[1..], tag, device, granularity)
  {
    hide Blocked;
    if Blocks(s, order[1..], tag, device, granularity) {
      var p :| p in order[1..] && Blocked(s, p, tag, device, granularity);
      assert p in order;
    }
    assert order[0] in order;
  }

  lemma {:induction false} BlocksSame(s: State, t: State, p: int, rest: seq<int>, tag: string, device: int, granularity: nat)
    requires t.allocations.Keys == s.allocations.Keys && !Blocked(s, p, tag, device, granularity)
    requires p in t.allocations && Resident(t.allocations[p])
    requires forall q :: q in s.allocations && q != p ==> t.allocations[q] == s.allocations[q]
    requires forall q :: q != p ==> (q in t.driver.ranges <==> q in s.driver.ranges)
    ensures Blocks(t, rest, tag, device, granularity) <==> Blocks(s, rest, tag, device, granularity)
  {
    hide Refits;
    forall q ensures Blocked(t, q, tag, device, granularity) <==> Blocked(s, q, tag, device, granularity) {
    }
  }

  /** The allocation is recorded as unmapped while the driver still maps its range. */
  predicate Stranded(s: State, p: int) { p in s.allocations && !s.allocations[p].mapped && p in s.driver.ranges }

  /** Pausing neither strands an allocation nor frees one. */
  lemma {:induction false} PauseStranded(s: State, order: seq<int>, tag: string, device: int, p: int)
    requires Sound(s)
    ensures Stranded(PauseEach(s, order, tag, device, NoFail()).s, p) <==> Stranded(s, p)
    decreases |order|
  {
    hide PauseOne;
    if order != [] {
      var q, rest := order[0], order[1..];
      if q !in s.allocations || !Selected(s.allocations[q], tag, device) || Absent(s.allocations[q]) {
        PauseStranded(s, rest, tag, device, p);
      } else {
        PauseOneClean(q, s.allocations[q], s.driver);
        PauseSound(s, q, NoFail());
        PauseStranded(With(s, q, PauseOne(q, s.allocations[q], s.driver, NoFail())), rest, tag, device, p);
      }
    }
  }

  /** The matching allocations that a pause and a resume can bring back. */
  ghost predicate Restorable(s: State, tag: string, device: int, granularity: nat) {
    forall p :: p in s.allocations && Selected(s.allocations[p], tag, device) ==>
      !Stranded(s, p) && Refits(s.allocations[p], granularity)
  }

  lemma {:induction false} BlocksExact(s: State, t: State, order: seq<int>, tag: string, device: int, granularity: nat)
    requires Kept(s, t, tag, device) && AllAbsent(t, tag, device) && Visits(order, s)
    requires forall p :: Stranded(t, p) <==> Stranded(s, p)
    ensures Blocks(t, order, tag, device, granularity) <==> !Restorable(s, tag, device, granularity)
  {
    hide Sizable, MappedSize;
    if !Restorable(s, tag, device, granularity) {
      var p :| p in s.allocations && Selected(s.allocations[p], tag, device) && (Stranded(s, p) || !Refits(s.allocations[p], granularity));
      assert p in t.allocations && (Stranded(t, p) <==> Stranded(s, p));
      assert Blocked(t, p, tag, device, granularity);
    }
    if Blocks(t, order, tag, device, granularity) {
      var p :| p in order && Blocked(t, p, tag, device, granularity);
      assert p in s.allocations && Selected(s.allocations[p], tag, device) && (Stranded(t, p) <==> Stranded(s, p));
      assert !t.allocations[p].mapped;
    }
  }

  /**
    From every state of every run: a pause in which nothing fails succeeds outside a scope and
    makes all matching allocations paused. A resume in which nothing fails then succeeds exactly
    if no matching allocation was stranded and all still fit, and makes them active again, at the
    same addresses, with the same sizes.
   */
  lemma {:induction false} PauseResume(events: seq<Event>, tag: string, device: int, first: seq<int>, second: seq<int>, granularity: nat)
    requires Visits(first, Run(Start(), events)) && Visits(second, Run(Start(), events))
    ensures var s := Run(Start(), events);
      var paused := Apply(s, Pause(tag, device, first, NoFail()));
      var resumed := Apply(paused.s, Resume(tag, device, second, granularity, NoFail()));
      && (paused.ok <==> s.scopes == [])
      && (paused.ok ==> Kept(s, paused.s, tag, device) && AllAbsent(paused.s, tag, device))
      && (paused.ok ==> (resumed.ok <==> Restorable(s, tag, device, granularity)) && Kept(s, resumed.s, tag, device))
      && (paused.ok && resumed.ok ==> AllResident(resumed.s, tag, device))
  {
    hide Run, PauseOne, ResumeOne, Refits, PauseEach, ResumeEach, Sound, Restorable, Blocks, Stranded;
    var s := Run(Start(), events);
    RunSound(events);
    if s.scopes == [] {
      PauseClean(s, first, tag, device);
      var t := PauseEach(s, first, tag, device, NoFail()).s;
      PauseKept(s, first, tag, device, NoFail());
      assert AllAbsent(t, tag, device) && Visits(second, t) && Settled(t, tag, device);
      forall p ensures Stranded(t, p) <==> Stranded(s, p) { PauseStranded(s, first, tag, device, p); }
      BlocksExact(s, t, second, tag, device, granularity);
      ResumeClean(t, second, tag, device, granularity);
    }
  }

  /** A run whose undo calls succeed strands nothing. */
  lemma {:induction false} TidyRestorable(events: seq<Event>, tag: string, device: int, granularity: nat)
    requires forall i :: 0 <= i < |events| ==> Tidy(events[i].fail)
    ensures var s := Run(Start(), events);
      Restorable(s, tag, device, granularity) <==>
      forall p :: p in s.allocations && Selected(s.allocations[p], tag, device) ==> Refits(s.allocations[p], granularity)
  {
    hide Run, Refits, Tidy;
    RunExact(events);
  }

  /** One undo call that fails is enough: afterwards even a pause and a resume in which nothing fails do not help. */
  lemma {:induction false} LeakStrands(p: int, tag: string) returns (events: seq<Event>)
    requires tag != ""
    ensures var s := Run(Start(), events);
      var paused := Apply(s, Pause(tag, -1, [p], NoFail()));
      s.scopes == [] && s.allocations.Keys == {p} && Refits(s.allocations[p], 1) && paused.ok && !Apply(paused.s, Resume(tag, -1, [p], 1, NoFail())).ok
  {
    var scope, undo := Scope(tag, -1, 0), (c: Call, q: int) => c == SetAccess || c == UndoUnmap;
    var e0, e1, e2 := Push(scope, 0, NoFail()), Malloc(1, 0, p, 1, NoFail()), Pop(NoFail());
    var e3, e4 := Pause(tag, -1, [p], NoFail()), Resume(tag, -1, [p], 1, undo);
    events := [e0, e1, e2, e3, e4];
    RunFive(e0, e1, e2, e3, e4);
    LeakStart(p, scope);
    LeakMiddle(p, tag, undo);
    LeakEnd(p, tag);
  }

  /** An allocation of one byte, active or paused. */
  function OneByte(tag: string, active: bool): Allocation {
    Allocation(1, 1, 0, tag, 0, 0, active, active, active)
  }

  lemma {:induction false} OneByteSize()
    ensures MappedSize(1, 1) == 1
  {
  }

  lemma {:induction false} LeakStart(p: int, scope: Scope)
    requires scope.tag != "" && scope.device == -1 && scope.pool == 0
    ensures var s := Apply(Apply(Apply(Start(), Push(scope, 0, NoFail())).s, Malloc(1, 0, p, 1, NoFail())).s, Pop(NoFail())).s;
      s == State(map[p := OneByte(scope.tag, true)], [], Driver({0}, map[p := 0], {p}, 1))
  {
    hide PauseOne, ResumeOne, PauseEach, ResumeEach, Free, SyncFails, Unmapped, Released, Freed, MappedSize;
    OneByteSize();
    var s1 := Apply(Start(), Push(scope, 0, NoFail())).s;
    assert s1 == State(map[], [scope], Driver({}, map[], {}, 0));
    var s2 := Apply(s1, Malloc(1, 0, p, 1, NoFail())).s;
    assert s2 == State(map[p := OneByte(scope.tag, true)], [scope], Driver({0}, map[p := 0], {p}, 1));
  }

  lemma {:induction false} LeakMiddle(p: int, tag: string, undo: Fails)
    requires forall c, q :: undo(c, q) <==> c == SetAccess || c == UndoUnmap
    ensures var s := State(map[p := OneByte(tag, true)], [], Driver({0}, map[p := 0], {p}, 1));
      Apply(Apply(s, Pause(tag, -1, [p], NoFail())).s, Resume(tag, -1, [p], 1, undo)).s
        == State(map[p := OneByte(tag, false)], [], Driver({}, map[p := 1], {p}, 2))
  {
    hide PauseEach, ResumeEach, Allocate, Free;
    var s := State(map[p := OneByte(tag, true)], [], Driver({0}, map[p := 0], {p}, 1));
    var t := State(map[p := OneByte(tag, false)], [], Driver({}, map[], {p}, 1));
    OneVisit(s, p, tag, 1, NoFail());
    assert PauseOne(p, s.allocations[p], s.driver, NoFail()) == Step(OneByte(tag, false), t.driver, true);
    assert Apply(s, Pause(tag, -1, [p], NoFail())).s == t;
    OneVisit(t, p, tag, 1, undo);
    assert MappedSize(1, 1) == 1;
    assert ResumeOne(p, t.allocations[p], t.driver, 1, undo) == Step(OneByte(tag, false), Driver({}, map[p := 1], {p}, 2), false);
  }

  lemma {:induction false} LeakEnd(p: int, tag: string)
    ensures var s := State(map[p := OneByte(tag, false)], [], Driver({}, map[p := 1], {p}, 2));
      var paused := Apply(s, Pause(tag, -1, [p], NoFail()));
      Refits(s.allocations[p], 1) && paused.ok && !Apply(paused.s, Resume(tag, -1, [p], 1, NoFail())).ok
  {
    var s := State(map[p := OneByte(tag, false)], [], Driver({}, map[p := 1], {p}, 2));
    OneVisit(s, p, tag, 1, NoFail());
    assert MappedSize(1, 1) == 1;
  }

  lemma {:induction false} OneVisit(s: State, p: int, tag: string, granularity: nat, fail: Fails)
    requires p in s.allocations && s.allocations[p].tag == tag
    ensures PauseEach(s, [p], tag, -1, fail) == if Absent(s.allocations[p]) then Result(s, true)
      else var step := PauseOne(p, s.allocations[p], s.driver, fail); Result(With(s, p, step), step.ok)
    ensures ResumeEach(s, [p], tag, -1, granularity, fail)
      == var step := ResumeOne(p, s.allocations[p], s.driver, granularity, fail); Result(With(s, p, step), step.ok)
  {
    hide PauseOne, ResumeOne;
    assert [p][1..] == [];
  }

  lemma {:induction false} RunFive(e0: Event, e1: Event, e2: Event, e3: Event, e4: Event)
    ensures Run(Start(), [e0, e1, e2, e3, e4]) == Apply(Apply(Apply(Apply(Apply(Start(), e0).s, e1).s, e2).s, e3).s, e4).s
  {
    hide Apply;
    var all := [e0, e1, e2, e3, e4];
    assert all[..4] == [e0, e1, e2, e3] && all[..4][..3] == [e0, e1, e2] && all[..4][..3][..2] == [e0, e1] && all[..4][..3][..2][..1] == [e0];
    assert Run(Start(), []) == Start();
    assert Run(Start(), [e0]) == Apply(Start(), e0).s;
    assert Run(Start(), [e0, e1]) == Apply(Run(Start(), [e0]), e1).s;
    assert Run(Start(), [e0, e1, e2]) == Apply(Run(Start(), [e0, e1]), e2).s;
    assert Run(Start(), [e0, e1, e2, e3]) == Apply(Run(Start(), [e0, e1, e2]), e3).s;
  }

  // ---------------------------------------------------------------------------------------------
  // The library itself.

  class GraphAllocator {
    var allocations: map<int, Allocation>
    var scopes: seq<Scope>
    /** The state of the CUDA driver, changed only by the calls below. */
    var driver: Driver

    function View(): State
      reads this
    {
      State(allocations, scopes, driver)
    }

    constructor ()
      ensures View() == Start()
    {
      allocations, scopes, driver := map[], [], Driver({}, map[], {}, 0);
    }

    /**
      Unmaps the range and releases the handle, as far as they are held; stops at the first
      failure. It succeeds exactly if no call that is needed fails, and then the driver holds
      neither the range nor the handle. The table stays sound, and nothing beside `p` changes.
     */
    method Drop(p: int, fail: Fails) returns (ok: bool)
      requires Sound(View()) && p in allocations
      modifies this`allocations, this`driver
      ensures var step := PauseOne(p, old(allocations[p]), old(driver), fail);
        View() == With(old(View()), p, step) && ok == step.ok
      ensures Sound(View()) && Beside(old(View()), View(), p)
      ensures ok <==> DropWorks(p, old(allocations[p]), fail)
      ensures ok ==> Absent(allocations[p]) && Dropped(p, old(allocations[p]), driver)
      ensures DropLeaves(p, old(allocations[p]), allocations[p], fail)
    {
      hide Sound, Beside, DropWorks, Dropped, Unmapped, Released, DropLeaves;
      FlagsAt(View(), p);
      PauseSound(View(), p, fail);
      PauseMeaning(View(), p, fail);
      var a := allocations[p];
      SameAt(allocations, p);
      if fail(SetDevice, p) {
        return false;
      }
      if a.mapped {
        a := a.(accessible := false);
        allocations := allocations[p := a];
        if fail(Unmap, p) {
          return false;
        }
        driver := Unmapped(driver, p);
        a := a.(mapped := false);
        TwiceAt(old(allocations), p, allocations[p], a);
        allocations := allocations[p := a];
      }
      if a.handleValid {
        if fail(Release, p) {
          return false;
        }
        driver := Released(driver, a.handle);
        a := a.(handleValid := false, handle := 0);
        TwiceAt(old(allocations), p, allocations[p], a);
        allocations := allocations[p := a];
      }
      return StateOf(a) == Paused;
    }

    /**
      Gives a paused allocation new backing at its old address. It succeeds exactly if the
      allocation is active already or every call works, the range is free and the size still
      fits; then the allocation is active, with a new handle unless it was active before. The
      table stays sound, and nothing beside `p` changes.
     */
    method Restore(p: int, granularity: nat, fail: Fails) returns (ok: bool)
      requires Sound(View()) && p in allocations
      modifies this`allocations, this`driver
      ensures var step := ResumeOne(p, old(allocations[p]), old(driver), granularity, fail);
        View() == With(old(View()), p, step) && ok == step.ok
      ensures Sound(View()) && Beside(old(View()), View(), p)
      ensures ok <==> RestoreWorks(p, old(allocations[p]), old(driver), granularity, fail)
      ensures ok ==> Resident(allocations[p]) && p in driver.ranges && driver.ranges[p] == allocations[p].handle
      ensures ok && old(!Resident(allocations[p])) ==> allocations[p].handle in driver.handles - old(driver.handles)
      ensures !ok ==> RestoreLeaves(p, old(allocations[p]), allocations[p], fail)
    {
      hide Sound, Beside, RestoreWorks, MappedSize, Unmapped, Released, RestoreLeaves;
      FlagsAt(View(), p);
      ResumeSound(View(), p, granularity, fail);
      ResumeMeaning(View(), p, granularity, fail);
      var a := allocations[p];
      SameAt(allocations, p);
      if fail(SetDevice, p) {
        return false;
      }
      if StateOf(a) == Active {
        return true;
      }
      if a.mapped {
        return false;
      }
      if a.handleValid {
        if fail(Release, p) {
          return false;
        }
        driver := Released(driver, a.handle);
        a := a.(handleValid := false, handle := 0);
        allocations := allocations[p := a];
      }
      if fail(Properties, p) || !Sizable(a.raw, granularity) || MappedSize(a.raw, granularity) != a.size || fail(Create, p) {
        return false;
      }
      var h := driver.next;
      driver := driver.(handles := driver.handles + {h}, next := h + 1);
      if p in driver.ranges || fail(MapRange, p) {
        if !fail(UndoRelease, p) {
          driver := Released(driver, h);
        }
        return false;
      }
      driver := driver.(ranges := driver.ranges[p := h]);
      a := a.(handle := h, handleValid := true, mapped := true, accessible := false);
      if fail(SetAccess, p) {
        if !fail(UndoUnmap, p) {
          driver := Unmapped(driver, p);
        }
        if !fail(UndoRelease, p) {
          driver := Released(driver, h);
        }
        a := a.(handle := 0, handleValid := false, mapped := false);
        TwiceAt(old(allocations), p, allocations[p], a);
        allocations := allocations[p := a];
        return false;
      }
      a := a.(accessible := true);
      TwiceAt(old(allocations), p, allocations[p], a);
      allocations := allocations[p := a];
      return true;
    }

    /** Scopes are a stack; a scope may be bound to the current device. */
    method PushScope(scope: Scope, current: int, fail: Fails) returns (ok: bool)
      requires Sound(View())
      modifies this`scopes
      ensures Sound(View()) && Result(View(), ok) == Apply(old(View()), Push(scope, current, fail))
      ensures ok <==> scope.tag != "" && (scope.device < 0 || (!fail(GetDevice, 0) && current == scope.device))
      ensures scopes == old(scopes) + if ok then [scope] else []
    {
      hide Sound;
      ApplySound(View(), Push(scope, current, fail));
      if scope.tag == "" || (scope.device >= 0 && (fail(GetDevice, 0) || current != scope.device)) {
        return false;
      }
      scopes := scopes + [scope];
      return true;
    }

    method PopScope(fail: Fails) returns (ok: bool)
      requires Sound(View())
      modifies this`scopes
      ensures Sound(View()) && Result(View(), ok) == Apply(old(View()), Pop(fail))
      ensures if ok then exists scope :: old(scopes) == scopes + [scope] else scopes == old(scopes) == []
    {
      hide Sound;
      ApplySound(View(), Pop(fail));
      if scopes == [] {
        return false;
      }
      assert scopes == scopes[..|scopes| - 1] + [scopes[|scopes| - 1]];
      scopes := scopes[..|scopes| - 1];
      return true;
    }

    /**
      `cudaMalloc`; outside a scope the request goes to the runtime. In a scope it succeeds exactly
      if the request can be met, with an active allocation under the tag of the scope. Nothing else
      in the table changes, and a failure changes nothing in it.
     */
    method AllocateAt(raw: nat, current: int, p: int, granularity: nat, fail: Fails) returns (ok: bool)
      requires Sound(View())
      modifies this`allocations, this`driver
      ensures Sound(View()) && Result(View(), ok) == Apply(old(View()), Malloc(raw, current, p, granularity, fail))
      ensures scopes == [] || raw == 0 ==> ok && View() == old(View())
      ensures scopes != [] && raw != 0 ==> (ok <==> AllocateWorks(old(View()), raw, current, p, granularity, fail))
      ensures scopes != [] && raw != 0 && ok ==> Made(old(View()), View(), raw, current, p, granularity)
      ensures !ok ==> allocations == old(allocations) && (Undoes(p, fail) ==> SameHeld(driver, old(driver)))
      ensures forall q :: q in old(allocations) ==> q in allocations && allocations[q] == old(allocations[q])
    {
      hide Sound, MappedSize, AllocateWorks, Made;
      if scopes != [] { AllocateMeaning(View(), raw, current, p, granularity, fail); }
      ApplySound(View(), Malloc(raw, current, p, granularity, fail));
      if scopes == [] || raw == 0 {
        return true;
      }
      var scope := scopes[|scopes| - 1];
      if fail(GetDevice, p) || (scope.device >= 0 && scope.device != current)
         || fail(Properties, p) || !Sizable(raw, granularity) || fail(Create, p) {
        return false;
      }
      var h := driver.next;
      driver := driver.(handles := driver.handles + {h}, next := h + 1);
      if fail(Reserve, p) || p in driver.reserved {
        if !fail(UndoRelease, p) { driver := Released(driver, h); }
        return false;
      }
      driver := driver.(reserved := driver.reserved + {p});
      if p in driver.ranges || fail(MapRange, p) {
        if !fail(UndoFree, p) { driver := Freed(driver, p); }
        if !fail(UndoRelease, p) { driver := Released(driver, h); }
        return false;
      }
      driver := driver.(ranges := driver.ranges[p := h]);
      if fail(SetAccess, p) || p in allocations {
        if !fail(UndoUnmap, p) { driver := Unmapped(driver, p); }
        if !fail(UndoRelease, p) { driver := Released(driver, h); }
        if !fail(UndoFree, p) { driver := Freed(driver, p); }
        return false;
      }
      MappedSizeFits(raw, granularity);
      allocations := allocations[p := Allocation(raw, MappedSize(raw, granularity), current, scope.tag, scope.pool, h, true, true, true)];
      return true;
    }

    /**
      `cudaFree`; a pointer that is not managed goes to the runtime. Freeing succeeds exactly if no
      needed call fails; then the driver holds neither range, handle nor reservation. After a
      failure the allocation is still in the table.
     */
    method FreePointer(p: int, fail: Fails) returns (ok: bool)
      requires Sound(View())
      modifies this`allocations, this`driver
      ensures Sound(View()) && Result(View(), ok) == Apply(old(View()), FreeAt(p, fail))
      ensures p !in old(allocations) ==> ok && View() == old(View())
      ensures p in old(allocations) ==> (ok <==> FreeWorks(p, old(allocations)[p], fail))
      ensures p in old(allocations) && ok ==>
        allocations == Without(old(allocations), p) && Dropped(p, old(allocations)[p], driver) && p !in driver.reserved
      ensures !ok ==> allocations.Keys == old(allocations).Keys && forall q :: q in allocations && q != p ==> allocations[q] == old(allocations)[q]
      ensures !ok ==> if fail(Synchronize, p) then View() == old(View()) else DropLeaves(p, old(allocations)[p], allocations[p], fail)
    {
      hide PauseOne, Sound, Beside, DropWorks, Dropped, FreeWorks, DropLeaves;
      if p in allocations { FreeMeaning(View(), p, fail); }
      ApplySound(View(), FreeAt(p, fail));
      if p !in allocations {
        return true;
      }
      if fail(Synchronize, p) {
        return false;
      }
      ok := Drop(p, fail);
      if !ok || fail(FreeAddress, p) {
        return false;
      }
      driver := Freed(driver, p);
      assert Without(allocations, p) == Without(old(allocations), p);
      allocations := Without(allocations, p);
      return true;
    }

    /** Synchronises every device that holds a matching allocation. */
    method SyncMatching(tag: string, device: int, order: seq<int>, fail: Fails) returns (ok: bool)
      requires forall p :: p in order <==> p in allocations
      ensures ok <==> !SyncFails(View(), tag, device, fail)
    {
      forall k | 0 <= k < |order| ensures order[k] in allocations {
        var p := order[k];
        assert p in order;
      }
      for i := 0 to |order|
        invariant forall k :: 0 <= k < |order| ==> order[k] in allocations
        invariant forall k :: 0 <= k < i ==>
          !(Matches(allocations[order[k]], tag, device) && fail(Synchronize, allocations[order[k]].device))
      {
        var p := order[i];
        if Matches(allocations[p], tag, device) && fail(Synchronize, allocations[p].device) {
          assert p in View().allocations;
          return false;
        }
      }
      return true;
    }

    /**
      `coldsnap_graph_pause`. It succeeds exactly outside a scope, if every device of a match can be
      synchronised and every match that is not paused can be dropped; then all matches are paused.
      Everything else is left alone.
     */
    method PauseMatching(tag: string, device: int, order: seq<int>, fail: Fails) returns (ok: bool)
      requires Sound(View()) && forall p :: p in order <==> p in allocations
      modifies this`allocations, this`driver
      ensures Sound(View()) && Result(View(), ok) == Apply(old(View()), Pause(tag, device, order, fail))
      ensures ok <==> scopes == [] && old(!SyncFails(View(), tag, device, fail)) && old(AllDrop(View(), order, tag, device, fail))
      ensures Kept(old(View()), View(), tag, device) && (ok ==> AllAbsent(View(), tag, device))
    {
      hide PauseOne, Sound, Beside, DropWorks, Dropped, SyncFails, AllDrop, Kept, DropLeaves;
      ghost var start := View();
      SelfKept(start, tag, device);
      PauseEachMeaning(start, order, tag, device, fail);
      KeptKeys(start, PauseEach(start, order, tag, device, fail).s, tag, device);
      ApplySound(start, Pause(tag, device, order, fail));
      if scopes != [] {
        return false;
      }
      ok := SyncMatching(tag, device, order, fail);
      if !ok {
        return false;
      }
      for i := 0 to |order|
        invariant Sound(View()) && scopes == start.scopes
        invariant PauseEach(start, order, tag, device, fail) == PauseEach(View(), order[i..], tag, device, fail)
      {
        var p := order[i];
        assert order[i..][1..] == order[i + 1..];
        if p in allocations && Matches(allocations[p], tag, device) && StateOf(allocations[p]) != Paused {
          ok := Drop(p, fail);
          if !ok {
            return false;
          }
        }
      }
      assert order[|order|..] == [];
      return true;
    }

    /**
      `coldsnap_graph_resume`. It succeeds exactly outside a scope, if every match can be restored
      and every device of a match can be synchronised; if it can restore them, all matches are active.
      Everything else is left alone.
     */
    method ResumeMatching(tag: string, device: int, order: seq<int>, granularity: nat, fail: Fails) returns (ok: bool)
      requires Sound(View()) && forall p :: p in order <==> p in allocations
      modifies this`allocations, this`driver
      ensures Sound(View()) && Result(View(), ok) == Apply(old(View()), Resume(tag, device, order, granularity, fail))
      ensures ok <==> scopes == [] && old(AllRestore(View(), order, tag, device, granularity, fail)) && old(!SyncFails(View(), tag, device, fail))
      ensures Kept(old(View()), View(), tag, device)
      ensures scopes == [] && old(AllRestore(View(), order, tag, device, granularity, fail)) ==> AllResident(View(), tag, device)
    {
      hide ResumeOne, Sound, Beside, RestoreWorks, SyncFails, AllRestore, Kept, RestoreLeaves;
      ghost var start := View();
      SelfKept(start, tag, device);
      ResumeEachMeaning(start, order, tag, device, granularity, fail);
      KeptKeys(start, ResumeEach(start, order, tag, device, granularity, fail).s, tag, device);
      SyncSame(start, ResumeEach(start, order, tag, device, granularity, fail).s, tag, device, fail);
      ApplySound(start, Resume(tag, device, order, granularity, fail));
      if scopes != [] {
        return false;
      }
      for i := 0 to |order|
        invariant Sound(View()) && scopes == start.scopes && allocations.Keys == start.allocations.Keys
        invariant ResumeEach(start, order, tag, device, granularity, fail) == ResumeEach(View(), order[i..], tag, device, granularity, fail)
      {
        var p := order[i];
        assert order[i..][1..] == order[i + 1..];
        if p in allocations && Matches(allocations[p], tag, device) {
          ok := Restore(p, granularity, fail);
          if !ok {
            return false;
          }
        }
      }
      assert order[|order|..] == [];
      ok := SyncMatching(tag, device, order, fail);
    }
  }

  lemma {:induction false} SameAt(m: map<int, Allocation>, p: int)
    requires p in m
    ensures m[p := m[p]] == m
  {
  }

  lemma {:induction false} TwiceAt(m: map<int, Allocation>, p: int, a: Allocation, b: Allocation)
    ensures m[p := a][p := b] == m[p := b]
  {
  }

  lemma {:induction false} FlagsAt(s: State, p: int)
    requires Sound(s) && p in s.allocations
    ensures Flags(s.allocations[p])
  {
  }

  lemma {:induction false} SelfKept(s: State, tag: string, device: int)
    requires Sound(s)
    ensures Kept(s, s, tag, device)
  {
    hide Sound;
  }

  lemma {:induction false} KeptKeys(s: State, t: State, tag: string, device: int)
    requires Kept(s, t, tag, device)
    ensures t.allocations.Keys == s.allocations.Keys
    ensures forall p :: p in s.allocations ==> (Selected(t.allocations[p], tag, device) <==> Selected(s.allocations[p], tag, device))
  {
    hide Sound;
    forall p | p in s.allocations ensures Selected(t.allocations[p], tag, device) <==> Selected(s.allocations[p], tag, device) {
      assert SameIdentity(t.allocations[p], s.allocations[p]);
    }
  }

  lemma {:induction false} MappedSizeFits(raw: nat, granularity: nat)
    requires Sizable(raw, granularity)
    ensures MappedSize(raw, granularity) >= 0
  {
  }
}
