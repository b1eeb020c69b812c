/**
  Weight allocations and the byte ranges that are cut out of them. `Tiled` says that a bag of spans
  covers every allocation byte exactly once; `CheckCoverage` is the cursor scan with which the
  manifest loader and the relocator decide the same thing.
 */
module Tiling {
  import opened Sorting

  datatype Allocation = Allocation(pointer: int, size: int) {
    function End(): int { pointer + size }
  }

  /** A byte range; `owner` is the pointer of the allocation it was cut from. */
  datatype Span = Span(ptr: int, size: int, owner: int) {
    function End(): int { ptr + size }
    predicate Contains(x: int) { ptr <= x < End() }
  }

  predicate Apart(s: Span, t: Span) { s.End() <= t.ptr || t.End() <= s.ptr }

  predicate Inside(s: Span, a: Allocation) {
    s.owner == a.pointer && s.size > 0 && a.pointer <= s.ptr && s.End() <= a.End()
  }

  predicate WellFormed(allocations: seq<Allocation>) {
    && (forall a :: a in allocations ==> a.size > 0)
    && (forall i, j :: 0 <= i < j < |allocations| ==>
          allocations[i].End() <= allocations[j].pointer || allocations[j].End() <= allocations[i].pointer)
  }

  /** The weaker reading of the manifest checks, which look allocations up by pointer. */
  predicate Keyed(allocations: seq<Allocation>) {
    && (forall a :: a in allocations ==> a.size > 0)
    && (forall i, j :: 0 <= i < j < |allocations| ==> allocations[i].pointer != allocations[j].pointer)
  }

  lemma {:induction false} WellFormedKeyed(allocations: seq<Allocation>)
    requires WellFormed(allocations)
    ensures Keyed(allocations)
  {
    assert forall i :: 0 <= i < |allocations| ==> allocations[i] in allocations;
  }

  lemma {:induction false} PointersDistinct(allocations: seq<Allocation>, a: Allocation, b: Allocation)
    requires Keyed(allocations) && a in allocations && b in allocations && a.pointer == b.pointer
    ensures a == b
  {
    var i :| 0 <= i < |allocations| && allocations[i] == a;
    var j :| 0 <= j < |allocations| && allocations[j] == b;
    assert i == j;
  }

  ghost predicate Owned(allocations: seq<Allocation>, s: Span) {
    exists a :: a in allocations && Inside(s, a)
  }

  ghost predicate Covered(spans: multiset<Span>, owner: int, x: int) {
    exists s :: s in spans && s.owner == owner && s.Contains(x)
  }

  /** Distinct spans of one allocation share no byte, and no span occurs twice. */
  ghost predicate Disjoint(spans: multiset<Span>) {
    && (forall s :: s in spans ==> spans[s] == 1)
    && (forall s, t :: s in spans && t in spans && s != t && s.owner == t.owner ==> Apart(s, t))
  }

  ghost predicate Complete(allocations: seq<Allocation>, spans: multiset<Span>) {
    forall a, x :: a in allocations && a.pointer <= x < a.End() ==> Covered(spans, a.pointer, x)
  }

  /** Every byte of every allocation lies in exactly one span, and the spans hold no other byte. */
  ghost predicate Tiled(allocations: seq<Allocation>, spans: multiset<Span>) {
    && (forall s :: s in spans ==> Owned(allocations, s))
    && Disjoint(spans)
    && Complete(allocations, spans)
  }

  predicate ByStart(s: Span, t: Span) {
    s.ptr < t.ptr || (s.ptr == t.ptr && s.size <= t.size)
  }

  /** The spans of one allocation, in list order. */
  function Group(spans: seq<Span>, owner: int): (g: seq<Span>)
    ensures forall s :: s in g <==> s in spans && s.owner == owner
  {
    if spans == [] then []
    else
      var last := spans[|spans| - 1];
      Group(spans[..|spans| - 1], owner) + if last.owner == owner then [last] else []
  }

  lemma {:induction false} GroupCount(spans: seq<Span>, owner: int, s: Span)
    ensures multiset(Group(spans, owner))[s] == if s.owner == owner then multiset(spans)[s] else 0
  {
    if spans != [] {
      GroupCount(spans[..|spans| - 1], owner, s);
      assert spans == spans[..|spans| - 1] + [spans[|spans| - 1]];
    }
  }

  /** What the cursor of the loader accepts between `cursor` and `end`. */
  predicate Chain(spans: seq<Span>, cursor: int, end: int) {
    if spans == [] then cursor == end
    else spans[0].ptr == cursor && spans[0].size > 0 && Chain(spans[1..], spans[0].End(), end)
  }

  /** The same, without an order: inside, pairwise apart, and nothing left out. */
  ghost predicate Cuts(g: seq<Span>, lo: int, hi: int) {
    && (forall i :: 0 <= i < |g| ==> g[i].size > 0 && lo <= g[i].ptr && g[i].End() <= hi)
    && (forall i, j :: 0 <= i < j < |g| ==> Apart(g[i], g[j]))
    && (forall x :: lo <= x < hi ==> Hit(g, x))
  }

  ghost predicate Hit(g: seq<Span>, x: int) {
    exists i :: 0 <= i < |g| && g[i].Contains(x)
  }

  lemma {:induction false} ChainCuts(g: seq<Span>, lo: int, hi: int)
    requires Chain(g, lo, hi)
    ensures lo <= hi && Cuts(g, lo, hi)
  {
    if g != [] {
      var rest := g[1..];
      ChainCuts(rest, g[0].End(), hi);
      forall i | 0 <= i < |g|
        ensures g[i].size > 0 && lo <= g[i].ptr && g[i].End() <= hi && (i > 0 ==> g[0].End() <= g[i].ptr)
      {
        if i > 0 { assert g[i] == rest[i - 1]; }
      }
      forall i, j | 0 <= i < j < |g|
        ensures Apart(g[i], g[j])
      {
        if i > 0 { assert g[i] == rest[i - 1] && g[j] == rest[j - 1]; }
      }
      forall x | lo <= x < hi
        ensures Hit(g, x)
      {
        if x < g[0].End() {
          assert g[0].Contains(x);
        } else {
          assert Hit(rest, x);
          var i :| 0 <= i < |rest| && rest[i].Contains(x);
          assert g[i + 1].Contains(x);
        }
      }
    }
  }

  lemma {:induction false} CutsChain(g: seq<Span>, lo: int, hi: int)
    requires lo <= hi && SortedBy(ByStart, g) && Cuts(g, lo, hi)
    ensures Chain(g, lo, hi)
  {
    if g == [] {
      assert lo < hi ==> Hit(g, lo);
    } else {
      var rest := g[1..];
      assert lo < hi;
      assert Hit(g, lo);
      var k :| 0 <= k < |g| && g[k].Contains(lo);
      assert forall i :: 0 < i < |g| ==> ByStart(g[0], g[i]);
      assert g[0].ptr == lo;
      forall i | 0 <= i < |rest|
        ensures rest[i].size > 0 && g[0].End() <= rest[i].ptr && rest[i].End() <= hi
      {
        assert ByStart(g[0], g[i + 1]) && Apart(g[0], g[i + 1]);
      }
      forall x | g[0].End() <= x < hi
        ensures Hit(rest, x)
      {
        assert Hit(g, x);
        var i :| 0 <= i < |g| && g[i].Contains(x);
        assert rest[i - 1].Contains(x);
      }
      CutsChain(rest, g[0].End(), hi);
    }
  }

  lemma {:induction false} ByStartTotal()
    ensures TotalPreorder(ByStart)
  {
  }

  /** `Tiled`, seen from one allocation. */
  ghost predicate TiledIn(a: Allocation, spans: multiset<Span>) {
    && (forall s :: s in spans && s.owner == a.pointer ==> spans[s] == 1)
    && (forall s, t :: s in spans && t in spans && s != t && s.owner == a.pointer == t.owner ==> Apart(s, t))
    && (forall x :: a.pointer <= x < a.End() ==> Covered(spans, a.pointer, x))
  }

  lemma {:induction false} CutsTiledIn(spans: seq<Span>, a: Allocation)
    requires Cuts(Group(spans, a.pointer), a.pointer, a.End())
    ensures TiledIn(a, multiset(spans))
  {
    var g := Group(spans, a.pointer);
    Repetition(g);
    forall s | s in multiset(spans) && s.owner == a.pointer
      ensures multiset(spans)[s] == 1
    {
      GroupCount(spans, a.pointer, s);
      assert s in spans && s in g && s in multiset(g);
    }
    forall s, t | s in multiset(spans) && t in multiset(spans) && s != t && s.owner == a.pointer == t.owner
      ensures Apart(s, t)
    {
      assert s in g && t in g;
      var i :| 0 <= i < |g| && g[i] == s;
      var j :| 0 <= j < |g| && g[j] == t;
      assert i < j || j < i;
    }
    forall x | a.pointer <= x < a.End()
      ensures Covered(multiset(spans), a.pointer, x)
    {
      assert Hit(g, x);
      var i :| 0 <= i < |g| && g[i].Contains(x);
      assert g[i] in g && g[i] in multiset(spans);
    }
  }

  lemma {:induction false} TiledInCuts(spans: seq<Span>, a: Allocation)
    requires forall s :: s in spans && s.owner == a.pointer ==> Inside(s, a)
    requires TiledIn(a, multiset(spans))
    ensures Cuts(Group(spans, a.pointer), a.pointer, a.End())
  {
    var g := Group(spans, a.pointer);
    forall s | s in multiset(g)
      ensures multiset(g)[s] == 1
    {
      GroupCount(spans, a.pointer, s);
      assert s in g && s in spans && s in multiset(spans);
    }
    Repetition(g);
    forall i | 0 <= i < |g|
      ensures g[i].size > 0 && a.pointer <= g[i].ptr && g[i].End() <= a.End()
    {
      assert g[i] in g;
    }
    forall i, j | 0 <= i < j < |g|
      ensures Apart(g[i], g[j])
    {
      assert g[i] in g && g[j] in g && g[i] in multiset(spans) && g[j] in multiset(spans);
    }
    forall x | a.pointer <= x < a.End()
      ensures Hit(g, x)
    {
      assert Covered(multiset(spans), a.pointer, x);
      var s :| s in multiset(spans) && s.owner == a.pointer && s.Contains(x);
      assert s in spans && s in g;
    }
  }

  /** The scan of one allocation accepts exactly when the allocation is tiled. */
  lemma {:induction false} ChainExact(allocations: seq<Allocation>, spans: seq<Span>, a: Allocation)
    requires Keyed(allocations) && a in allocations
    requires forall s :: s in spans ==> Owned(allocations, s)
    ensures Chain(Sort(ByStart, Group(spans, a.pointer)), a.pointer, a.End()) <==> TiledIn(a, multiset(spans))
  {
    forall s | s in spans && s.owner == a.pointer
      ensures Inside(s, a)
    {
      var b :| b in allocations && Inside(s, b);
      PointersDistinct(allocations, a, b);
    }
    CutsSorted(Group(spans, a.pointer), a.pointer, a.End());
    if Cuts(Group(spans, a.pointer), a.pointer, a.End()) { CutsTiledIn(spans, a); }
    if TiledIn(a, multiset(spans)) { TiledInCuts(spans, a); }
  }

  lemma {:induction false} TiledByAllocation(allocations: seq<Allocation>, spans: multiset<Span>)
    requires forall s :: s in spans ==> Owned(allocations, s)
    ensures Tiled(allocations, spans) <==> forall a :: a in allocations ==> TiledIn(a, spans)
  {
    hide Covered;
    if Tiled(allocations, spans) {
      forall a | a in allocations ensures TiledIn(a, spans) {
      }
    }
    if forall a :: a in allocations ==> TiledIn(a, spans) {
      forall s, t | s in spans && t in spans && s.owner == t.owner
        ensures spans[s] == 1 && (s != t ==> Apart(s, t))
      {
        var a :| a in allocations && Inside(s, a);
        assert TiledIn(a, spans);
      }
      forall a, x | a in allocations && a.pointer <= x < a.End()
        ensures Covered(spans, a.pointer, x)
      {
        assert TiledIn(a, spans);
      }
    }
  }

  lemma {:induction false} CutsSorted(g: seq<Span>, lo: int, hi: int)
    requires lo <= hi
    ensures Chain(Sort(ByStart, g), lo, hi) <==> Cuts(g, lo, hi)
  {
    var s := Sort(ByStart, g);
    ByStartTotal();
    SortSorted(ByStart, g);
    if Chain(s, lo, hi) {
      ChainCuts(s, lo, hi);
      CutsPermuted(s, g, lo, hi);
    }
    if Cuts(g, lo, hi) {
      CutsPermuted(g, s, lo, hi);
      CutsChain(s, lo, hi);
    }
  }

  lemma {:induction false} CutsPermuted(g: seq<Span>, h: seq<Span>, lo: int, hi: int)
    requires multiset(g) == multiset(h) && Cuts(g, lo, hi)
    ensures Cuts(h, lo, hi)
  {
    InMultiset(g, h);
    Repetition(g);
    Repetition(h);
    forall i | 0 <= i < |h|
      ensures h[i].size > 0 && lo <= h[i].ptr && h[i].End() <= hi
    {
      assert h[i] in g;
    }
    forall i, j | 0 <= i < j < |h|
      ensures Apart(h[i], h[j])
    {
      assert h[i] != h[j] && h[i] in g && h[j] in g;
      var k :| 0 <= k < |g| && g[k] == h[i];
      var l :| 0 <= l < |g| && g[l] == h[j];
      assert k < l || l < k;
    }
    forall x | lo <= x < hi
      ensures Hit(h, x)
    {
      assert Hit(g, x);
      var k :| 0 <= k < |g| && g[k].Contains(x);
      assert g[k] in h;
    }
  }

  /**
    The loader's scan: every extent must lie in the allocation it names, and in each allocation
    the extents sorted by address must follow one another from the first byte to the last.
   */
  method CheckCoverage(allocations: seq<Allocation>, spans: seq<Span>) returns (ok: bool)
    requires Keyed(allocations)
    ensures ok <==> Tiled(allocations, multiset(spans))
  {
    hide TiledIn, Disjoint, Complete, Keyed, Tiled, Owned, Chain, Group;
    for i := 0 to |spans|
      invariant forall s :: s in spans[..i] ==> Owned(allocations, s)
    {
      var owned := FindOwner(allocations, spans[i]);
      if !owned {
        Unowned(allocations, spans, i);
        return false;
      }
      assert spans[..i + 1] == spans[..i] + [spans[i]];
    }
    assert spans[..|spans|] == spans;
    TiledByAllocation(allocations, multiset(spans));
    for i := 0 to |allocations|
      invariant forall a :: a in allocations[..i] ==> TiledIn(a, multiset(spans))
    {
      var a := allocations[i];
      assert allocations[..i + 1] == allocations[..i] + [a];
      ChainExact(allocations, spans, a);
      var chained := ScanChain(Sort(ByStart, Group(spans, a.pointer)), a.pointer, a.End());
      if !chained {
        return false;
      }
    }
    assert allocations[..|allocations|] == allocations;
    return true;
  }

  lemma {:induction false} Unowned(allocations: seq<Allocation>, spans: seq<Span>, i: nat)
    requires i < |spans| && !Owned(allocations, spans[i])
    ensures !Tiled(allocations, multiset(spans))
  {
    assert spans[i] in multiset(spans);
  }

  method FindOwner(allocations: seq<Allocation>, s: Span) returns (found: bool)
    requires Keyed(allocations)
    ensures found <==> Owned(allocations, s)
  {
    for i := 0 to |allocations|
      invariant forall k :: 0 <= k < i ==> allocations[k].pointer != s.owner
    {
      var a := allocations[i];
      if a.pointer == s.owner {
        forall b | b in allocations && Inside(s, b) ensures b == a {
          PointersDistinct(allocations, a, b);
        }
        found := s.size > 0 && a.pointer <= s.ptr && s.End() <= a.End();
        assert found <==> Inside(s, a);
        return found;
      }
    }
    return false;
  }

  method ScanChain(spans: seq<Span>, start: int, end: int) returns (ok: bool)
    ensures ok <==> Chain(spans, start, end)
  {
    var cursor := start;
    for i := 0 to |spans|
      invariant Chain(spans, start, end) <==> Chain(spans[i..], cursor, end)
    {
      assert spans[i..][1..] == spans[i + 1..];
      if spans[i].ptr != cursor || spans[i].End() <= spans[i].ptr {
        return false;
      }
      cursor := spans[i].End();
    }
    return cursor == end;
  }

  function TotalSize(spans: seq<Span>): int {
    if spans == [] then 0 else TotalSize(spans[..|spans| - 1]) + spans[|spans| - 1].size
  }

  function AllocationBytes(allocations: seq<Allocation>): int {
    if allocations == [] then 0
    else AllocationBytes(allocations[..|allocations| - 1]) + allocations[|allocations| - 1].size
  }

  lemma {:induction false} TotalConcat(left: seq<Span>, right: seq<Span>)
    ensures TotalSize(left + right) == TotalSize(left) + TotalSize(right)
  {
    if right == [] {
      assert left + right == left;
    } else {
      assert (left + right)[..|left + right| - 1] == left + right[..|right| - 1];
      TotalConcat(left, right[..|right| - 1]);
    }
  }

  lemma {:induction false} TotalInsert(x: Span, s: seq<Span>)
    ensures TotalSize(Insert(ByStart, x, s)) == x.size + TotalSize(s)
  {
    if s == [] {
    } else {
      assert s == [s[0]] + s[1..];
      TotalConcat([s[0]], s[1..]);
      if ByStart(x, s[0]) {
        TotalConcat([x], s);
      } else {
        TotalInsert(x, s[1..]);
        TotalConcat([s[0]], Insert(ByStart, x, s[1..]));
      }
    }
  }

  lemma {:induction false} TotalSort(s: seq<Span>)
    ensures TotalSize(Sort(ByStart, s)) == TotalSize(s)
  {
    if s != [] {
      TotalSort(s[1..]);
      TotalInsert(s[0], Sort(ByStart, s[1..]));
      assert s == [s[0]] + s[1..];
      TotalConcat([s[0]], s[1..]);
    }
  }

  lemma {:induction false} ChainTotal(g: seq<Span>, lo: int, hi: int)
    requires Chain(g, lo, hi)
    ensures TotalSize(g) == hi - lo
  {
    if g != [] {
      ChainTotal(g[1..], g[0].End(), hi);
      assert g == [g[0]] + g[1..];
      TotalConcat([g[0]], g[1..]);
    }
  }

  function GroupTotals(allocations: seq<Allocation>, spans: seq<Span>): int {
    if allocations == [] then 0
    else
      var last := allocations[|allocations| - 1];
      GroupTotals(allocations[..|allocations| - 1], spans) + TotalSize(Group(spans, last.pointer))
  }

  ghost predicate HasPointer(allocations: seq<Allocation>, pointer: int) {
    exists i :: 0 <= i < |allocations| && allocations[i].pointer == pointer
  }

  lemma {:induction false} GroupAppend(spans: seq<Span>, s: Span, owner: int)
    ensures TotalSize(Group(spans + [s], owner)) == TotalSize(Group(spans, owner)) + if s.owner == owner then s.size else 0
  {
    var extended := spans + [s];
    assert extended[..|extended| - 1] == spans && extended[|extended| - 1] == s;
    assert Group(extended, owner) == Group(spans, owner) + if s.owner == owner then [s] else [];
    assert Group(spans, owner) + [] == Group(spans, owner);
    TotalConcat(Group(spans, owner), [s]);
  }

  lemma {:induction false} HasPointerFront(allocations: seq<Allocation>, pointer: int)
    requires Keyed(allocations) && allocations != []
    ensures var front, last := allocations[..|allocations| - 1], allocations[|allocations| - 1];
      && Keyed(front)
      && (HasPointer(allocations, pointer) <==> HasPointer(front, pointer) || last.pointer == pointer)
      && !(HasPointer(front, pointer) && last.pointer == pointer)
  {
    var n := |allocations| - 1;
    var front := allocations[..n];
    assert forall i :: 0 <= i < n ==> front[i] == allocations[i];
    assert forall i :: 0 <= i < n ==> allocations[i].pointer != allocations[n].pointer;
  }

  lemma {:induction false} GroupTotalsAppend(allocations: seq<Allocation>, spans: seq<Span>, s: Span)
    requires Keyed(allocations)
    ensures GroupTotals(allocations, spans + [s])
         == GroupTotals(allocations, spans) + if HasPointer(allocations, s.owner) then s.size else 0
  {
    if allocations != [] {
      var n := |allocations| - 1;
      var front := allocations[..n];
      HasPointerFront(allocations, s.owner);
      GroupTotalsAppend(front, spans, s);
      GroupAppend(spans, s, allocations[n].pointer);
    }
  }

  lemma {:induction false} GroupTotalsAll(allocations: seq<Allocation>, spans: seq<Span>)
    requires Keyed(allocations)
    requires forall s :: s in spans ==> Owned(allocations, s)
    ensures GroupTotals(allocations, spans) == TotalSize(spans)
  {
    if spans == [] {
      GroupTotalsEmpty(allocations);
    } else {
      var front, last := spans[..|spans| - 1], spans[|spans| - 1];
      assert spans == front + [last] && Owned(allocations, last);
      assert HasPointer(allocations, last.owner);
      GroupTotalsAll(allocations, front);
      GroupTotalsAppend(allocations, front, last);
    }
  }

  lemma {:induction false} GroupTotalsEmpty(allocations: seq<Allocation>)
    ensures GroupTotals(allocations, []) == 0
  {
    if allocations != [] { GroupTotalsEmpty(allocations[..|allocations| - 1]); }
  }

  lemma {:induction false} GroupTotalsTiled(allocations: seq<Allocation>, spans: seq<Span>)
    requires forall a :: a in allocations ==> Chain(Sort(ByStart, Group(spans, a.pointer)), a.pointer, a.End())
    ensures GroupTotals(allocations, spans) == AllocationBytes(allocations)
  {
    if allocations != [] {
      var last := allocations[|allocations| - 1];
      GroupTotalsTiled(allocations[..|allocations| - 1], spans);
      ChainTotal(Sort(ByStart, Group(spans, last.pointer)), last.pointer, last.End());
      TotalSort(Group(spans, last.pointer));
    }
  }

  /** The byte totals that the manifest writer and loader compare always agree for a tiling. */
  lemma {:induction false} TiledTotal(allocations: seq<Allocation>, spans: seq<Span>)
    requires Keyed(allocations) && Tiled(allocations, multiset(spans))
    ensures TotalSize(spans) == AllocationBytes(allocations)
  {
    assert forall s :: s in spans ==> s in multiset(spans);
    TiledByAllocation(allocations, multiset(spans));
    forall a | a in allocations
      ensures Chain(Sort(ByStart, Group(spans, a.pointer)), a.pointer, a.End())
    {
      ChainExact(allocations, spans, a);
    }
    GroupTotalsAll(allocations, spans);
    GroupTotalsTiled(allocations, spans);
  }
  // ---------------------------------------------------------------------------------------------
  // Spans that share no byte.

  predicate SpansApart(spans: seq<Span>) {
    forall i, j :: 0 <= i < j < |spans| ==> Apart(spans[i], spans[j])
  }

  lemma {:induction false} TiledApart(allocations: seq<Allocation>, spans: seq<Span>, others: multiset<Span>)
    requires WellFormed(allocations) && Tiled(allocations, multiset(spans) + others)
    ensures SpansApart(spans)
  {
    var bag := multiset(spans) + others;
    forall s | s in multiset(spans) ensures multiset(spans)[s] == 1 {
      assert s in bag;
    }
    Repetition(spans);
    forall i, j | 0 <= i < j < |spans| ensures Apart(spans[i], spans[j]) {
      assert spans[i] in bag && spans[j] in bag && spans[i] != spans[j];
      if spans[i].owner != spans[j].owner {
        OwnersApart(allocations, spans[i], spans[j]);
      }
    }
  }

  lemma {:induction false} OwnersApart(allocations: seq<Allocation>, s: Span, t: Span)
    requires WellFormed(allocations) && Owned(allocations, s) && Owned(allocations, t) && s.owner != t.owner
    ensures Apart(s, t)
  {
    var a :| a in allocations && Inside(s, a);
    var b :| b in allocations && Inside(t, b);
    var i :| 0 <= i < |allocations| && allocations[i] == a;
    var j :| 0 <= j < |allocations| && allocations[j] == b;
    assert i < j || j < i;
  }

  /** The addresses of the spans. */
  function Footprint(spans: seq<Span>): set<int> {
    if spans == [] then {} else Footprint(spans[..|spans| - 1]) + Addresses(spans[|spans| - 1].ptr, spans[|spans| - 1].End())
  }

  function Addresses(lo: int, hi: int): (r: set<int>)
    ensures forall x :: x in r <==> lo <= x < hi
    ensures |r| == if lo < hi then hi - lo else 0
    decreases hi - lo
  {
    if lo >= hi then {} else Addresses(lo, hi - 1) + {hi - 1}
  }

  lemma {:induction false} Holder(spans: seq<Span>, x: int) returns (i: nat)
    requires x in Footprint(spans)
    ensures i < |spans| && spans[i].Contains(x)
  {
    i := |spans| - 1;
    if x in Footprint(spans[..i]) { i := Holder(spans[..i], x); }
  }

  /** Spans that share no byte have as many addresses as bytes. */
  lemma {:induction false} FootprintCount(spans: seq<Span>)
    requires SpansApart(spans) && forall i :: 0 <= i < |spans| ==> spans[i].size > 0
    ensures |Footprint(spans)| == TotalSize(spans)
  {
    if spans != [] {
      var n := |spans| - 1;
      var front, last := Footprint(spans[..n]), Addresses(spans[n].ptr, spans[n].End());
      FootprintCount(spans[..n]);
      forall x | x in front ensures x !in last {
        var i := Holder(spans[..n], x);
        assert Apart(spans[i], spans[n]);
      }
      assert front !! last;
    }
  }

  /** So they have no more bytes than there are addresses to hold them. */
  lemma {:induction false} ApartBound(spans: seq<Span>, limit: nat)
    requires SpansApart(spans) && forall i :: 0 <= i < |spans| ==> spans[i].size > 0 && 0 <= spans[i].ptr && spans[i].End() <= limit
    ensures TotalSize(spans) <= limit
  {
    FootprintCount(spans);
    forall x | x in Footprint(spans) ensures x in Addresses(0, limit) {
      var i := Holder(spans, x);
    }
    var rest := Addresses(0, limit) - Footprint(spans);
    assert Addresses(0, limit) == Footprint(spans) + rest && Footprint(spans) !! rest;
  }
}
