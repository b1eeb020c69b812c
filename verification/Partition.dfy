/**
  Splits the weight pool into the ranges that the model owns and the residual bytes between them
  (`_partition_semantic_weight_extents`).
 */
module Partition {
  import opened Bytes
  import opened Sorting
  import opened Tiling

  datatype SemanticRange = SemanticRange(pointer: int, size: int, id: string) {
    function End(): int { pointer + size }
    predicate Contains(x: int) { pointer <= x < End() }
  }

  /** A model-owned extent: a span and the semantic identity of the tensor bytes in it. */
  datatype ModelExtent = ModelExtent(span: Span, id: string) {
    function Range(): SemanticRange { SemanticRange(span.ptr, span.size, id) }
  }

  predicate ValidId(id: string) {
    |id| == 64 && forall c :: c in id ==> c in "0123456789abcdef"
  }

  /** Length and characters of an identity. */
  method CheckId(id: string) returns (ok: bool)
    ensures ok <==> ValidId(id)
  {
    if |id| != 64 {
      return false;
    }
    for i := 0 to |id|
      invariant forall k :: 0 <= k < i ==> '0' <= id[k] <= '9' || 'a' <= id[k] <= 'f'
    {
      if !('0' <= id[i] <= '9' || 'a' <= id[i] <= 'f') {
        assert id[i] in id;
        HexDigit(id[i]);
        return false;
      }
    }
    forall c | c in id ensures c in "0123456789abcdef" { HexDigit(c); }
    return true;
  }

  lemma {:induction false} HexDigit(c: char)
    ensures c in "0123456789abcdef" <==> '0' <= c <= '9' || 'a' <= c <= 'f'
  {
    var digits := "0123456789abcdef";
    assert forall i :: 0 <= i < 10 ==> digits[i] as int == '0' as int + i;
    assert forall i :: 10 <= i < 16 ==> digits[i] as int == 'a' as int + i - 10;
    if '0' <= c <= '9' { assert digits[c as int - '0' as int] == c; }
    if 'a' <= c <= 'f' { assert digits[c as int - 'a' as int + 10] == c; }
  }

  predicate Holds(a: Allocation, r: SemanticRange) {
    a.pointer <= r.pointer && r.End() <= a.End()
  }

  predicate ByPointer(r: SemanticRange, q: SemanticRange) { r.pointer <= q.pointer }

  /** What the layout of the model must be: positive, named once, disjoint, inside the pool. */
  ghost predicate ValidLayout(allocations: seq<Allocation>, layout: multiset<SemanticRange>) {
    && (forall r :: r in layout ==>
          && layout[r] == 1 && r.pointer > 0 && r.size > 0 && ValidId(r.id)
          && exists a :: a in allocations && Holds(a, r))
    && (forall r, q :: r in layout && q in layout && r != q ==>
          r.id != q.id && (r.End() <= q.pointer || q.End() <= r.pointer))
  }

  /** Some byte of the pool belongs to no model range. */
  ghost predicate HasResidual(allocations: seq<Allocation>, layout: multiset<SemanticRange>) {
    exists a, x :: a in allocations && a.pointer <= x < a.End() && Free(layout, x)
  }

  ghost predicate Free(layout: multiset<SemanticRange>, x: int) {
    forall r :: r in layout ==> !r.Contains(x)
  }

  ghost predicate AllFree(residual: seq<Span>, layout: multiset<SemanticRange>) {
    forall s, x :: s in residual && s.Contains(x) ==> Free(layout, x)
  }

  function Spans(model: seq<ModelExtent>): (s: seq<Span>)
    ensures |s| == |model| && forall i :: 0 <= i < |model| ==> s[i] == model[i].span
  {
    seq(|model|, i requires 0 <= i < |model| => model[i].span)
  }

  function Ranges(model: seq<ModelExtent>): (s: seq<SemanticRange>)
    ensures |s| == |model| && forall i :: 0 <= i < |model| ==> s[i] == model[i].Range()
  {
    seq(|model|, i requires 0 <= i < |model| => model[i].Range())
  }

  /** The ranges of `s` that `a` holds, in order. */
  function Held(a: Allocation, s: seq<SemanticRange>): (h: seq<SemanticRange>) {
    if s == [] then []
    else
      var last := s[|s| - 1];
      Held(a, s[..|s| - 1]) + if Holds(a, last) then [last] else []
  }

  /** Disjoint ranges in address order. */
  predicate InOrder(s: seq<SemanticRange>) {
    && (forall i :: 0 <= i < |s| ==> s[i].size > 0)
    && (forall i, j :: 0 <= i < j < |s| ==> s[i].End() <= s[j].pointer)
  }

  lemma {:induction false} HeldMembers(a: Allocation, s: seq<SemanticRange>)
    ensures forall r :: r in Held(a, s) <==> r in s && Holds(a, r)
  {
    if s != [] {
      HeldMembers(a, s[..|s| - 1]);
      assert s == s[..|s| - 1] + [s[|s| - 1]];
    }
  }

  lemma {:induction false} HeldInOrder(a: Allocation, s: seq<SemanticRange>)
    requires InOrder(s)
    ensures InOrder(Held(a, s))
  {
    if s != [] {
      var front, last := s[..|s| - 1], s[|s| - 1];
      HeldInOrder(a, front);
      HeldMembers(a, front);
      forall r | r in Held(a, front) ensures r.End() <= last.pointer {
        var i :| 0 <= i < |front| && front[i] == r;
        assert s[i] == r;
      }
    }
  }

  method FindHome(allocations: seq<Allocation>, r: SemanticRange) returns (home: Option<Allocation>)
    requires WellFormed(allocations) && r.size > 0
    ensures home.Some? ==> home.value in allocations && Holds(home.value, r)
    ensures home.Some? ==> forall a :: a in allocations && Holds(a, r) ==> a == home.value
    ensures home.None? ==> forall a :: a in allocations ==> !Holds(a, r)
  {
    for i := 0 to |allocations|
      invariant forall k :: 0 <= k < i ==> !Holds(allocations[k], r)
    {
      if Holds(allocations[i], r) {
        return Some(allocations[i]);
      }
    }
    return None;
  }

  function Ids(s: seq<SemanticRange>): set<string> {
    set r | r in s :: r.id
  }

  /** The first loop: walks the layout in address order and rejects a bad one. */
  method Validate(allocations: seq<Allocation>, ordered: seq<SemanticRange>) returns (ok: bool)
    requires WellFormed(allocations) && SortedBy(ByPointer, ordered)
    ensures ok <==> ValidLayout(allocations, multiset(ordered))
    ensures ok ==> InOrder(ordered)
  {
    hide Accepted, ValidLayout, ValidId;
    var previousEnd := 0;
    var ids: set<string> := {};
    AcceptNone(allocations, ordered);
    for i := 0 to |ordered|
      invariant Accepted(allocations, ordered[..i])
      invariant previousEnd == if i == 0 then 0 else ordered[i - 1].End()
      invariant ids == Ids(ordered[..i])
    {
      var r := ordered[i];
      var named := CheckId(r.id);
      if r.pointer <= 0 || r.size <= 0 || r.pointer < previousEnd || !named || r.id in ids {
        RejectRange(allocations, ordered, i);
        return false;
      }
      var home := FindHome(allocations, r);
      if home.None? {
        HomelessRange(allocations, ordered, i);
        return false;
      }
      AcceptRange(allocations, ordered, i);
      previousEnd := r.End();
      ids := ids + {r.id};
    }
    assert ordered[..|ordered|] == ordered;
    AcceptedValid(allocations, ordered);
    return true;
  }

  /** What the first loop has established for the ranges it has seen. */
  ghost predicate Accepted(allocations: seq<Allocation>, s: seq<SemanticRange>) {
    && InOrder(s)
    && (forall i :: 0 <= i < |s| ==>
          s[i].pointer > 0 && ValidId(s[i].id) && exists a :: a in allocations && Holds(a, s[i]))
    && (forall i, j :: 0 <= i < j < |s| ==> s[i].id != s[j].id)
  }

  lemma {:induction false} AcceptNone(allocations: seq<Allocation>, s: seq<SemanticRange>)
    ensures Accepted(allocations, s[..0]) && Ids(s[..0]) == {}
  {
  }

  lemma {:induction false} HomelessRange(allocations: seq<Allocation>, s: seq<SemanticRange>, i: nat)
    requires i < |s| && forall a :: a in allocations ==> !Holds(a, s[i])
    ensures !ValidLayout(allocations, multiset(s))
  {
    assert s[i] in multiset(s);
  }

  lemma {:induction false} AcceptRange(allocations: seq<Allocation>, s: seq<SemanticRange>, i: nat)
    requires i < |s| && Accepted(allocations, s[..i])
    requires s[i].pointer > 0 && s[i].size > 0 && ValidId(s[i].id) && (i > 0 ==> s[i - 1].End() <= s[i].pointer)
    requires s[i].id !in Ids(s[..i])
    requires exists a :: a in allocations && Holds(a, s[i])
    ensures Accepted(allocations, s[..i + 1]) && Ids(s[..i + 1]) == Ids(s[..i]) + {s[i].id}
  {
    var front, next := s[..i], s[..i + 1];
    assert next == front + [s[i]];
    forall j, k | 0 <= j < k < |next|
      ensures next[j].End() <= next[k].pointer && next[j].id != next[k].id
    {
      if k == i {
        assert next[j] == front[j] && front[j] in front;
        assert j < i - 1 ==> front[j].End() <= front[i - 1].pointer;
      } else {
        assert next[j] == front[j] && next[k] == front[k];
      }
    }
    forall k | 0 <= k < |next|
      ensures next[k].pointer > 0 && next[k].size > 0 && ValidId(next[k].id)
      ensures exists a :: a in allocations && Holds(a, next[k])
    {
      if k < i { assert next[k] == front[k]; }
    }
  }

  lemma {:induction false} RejectRange(allocations: seq<Allocation>, s: seq<SemanticRange>, i: nat)
    requires i < |s| && SortedBy(ByPointer, s) && Accepted(allocations, s[..i])
    requires s[i].pointer <= 0 || s[i].size <= 0 || !ValidId(s[i].id)
          || (i > 0 && s[i].pointer < s[i - 1].End()) || s[i].id in Ids(s[..i])
    ensures !ValidLayout(allocations, multiset(s))
  {
    var m := multiset(s);
    Repetition(s);
    assert forall k :: 0 <= k < |s| ==> s[k] in m;
    if i > 0 && s[i].pointer < s[i - 1].End() {
      assert s[i - 1] in m && ByPointer(s[i - 1], s[i]);
    } else if s[i].id in Ids(s[..i]) {
      var k :| 0 <= k < |s[..i]| && s[..i][k].id == s[i].id;
      assert s[k] in m;
    }
  }

  lemma {:induction false} AcceptedValid(allocations: seq<Allocation>, s: seq<SemanticRange>)
    requires Accepted(allocations, s)
    ensures ValidLayout(allocations, multiset(s)) && InOrder(s)
  {
    Repetition(s);
    forall r | r in multiset(s)
      ensures multiset(s)[r] == 1 && r.pointer > 0 && r.size > 0 && ValidId(r.id)
      ensures exists a :: a in allocations && Holds(a, r)
    {
      assert r in s;
    }
    forall r, q | r in multiset(s) && q in multiset(s) && r != q
      ensures r.id != q.id && (r.End() <= q.pointer || q.End() <= r.pointer)
    {
      assert r in s && q in s;
      var i :| 0 <= i < |s| && s[i] == r;
      var j :| 0 <= j < |s| && s[j] == q;
      assert i < j || j < i;
    }
  }

  /** The bag of spans of a partition. */
  ghost function Bag(model: seq<ModelExtent>, residual: seq<Span>): multiset<Span> {
    multiset(Spans(model)) + multiset(residual)
  }

  lemma {:induction false} BagModel(model: seq<ModelExtent>, residual: seq<Span>, e: ModelExtent)
    ensures Bag(model + [e], residual) == Bag(model, residual) + multiset{e.span}
    ensures Ranges(model + [e]) == Ranges(model) + [e.Range()]
  {
    assert Spans(model + [e]) == Spans(model) + [e.span];
  }

  lemma {:induction false} BagResidual(model: seq<ModelExtent>, residual: seq<Span>, s: Span)
    ensures Bag(model, residual + [s]) == Bag(model, residual) + multiset{s}
  {
  }

  /** `bag` tiles `a` from its first byte up to `cursor`. */
  ghost predicate CutTo(a: Allocation, bag: multiset<Span>, cursor: int) {
    && a.pointer <= cursor
    && (forall s :: s in bag ==> Inside(s, a) && s.End() <= cursor)
    && Disjoint(bag)
    && (forall x :: a.pointer <= x < cursor ==> Covered(bag, a.pointer, x))
  }

  lemma {:induction false} CutStart(a: Allocation, ranges: seq<SemanticRange>)
    ensures Bag([], []) == multiset{} && CutTo(a, multiset{}, a.pointer) && AllFree([], multiset(ranges)) && Rising([])
  {
  }

  lemma {:induction false} CutNext(a: Allocation, bag: multiset<Span>, cursor: int, s: Span)
    requires CutTo(a, bag, cursor) && Inside(s, a) && s.ptr == cursor
    ensures CutTo(a, bag + multiset{s}, s.End())
  {
    var next := bag + multiset{s};
    assert s !in bag;
    forall x | a.pointer <= x < s.End()
      ensures Covered(next, a.pointer, x)
    {
      if x < cursor {
        assert Covered(bag, a.pointer, x);
        var t :| t in bag && t.owner == a.pointer && t.Contains(x);
        assert t in next;
      } else {
        assert s in next && s.Contains(x);
      }
    }
  }

  /** The end of the last of `ranges`, or the start of the allocation. */
  function LastEnd(a: Allocation, ranges: seq<SemanticRange>): int {
    if ranges == [] then a.pointer else ranges[|ranges| - 1].End()
  }

  function GapTo(a: Allocation, cursor: int, next: int): seq<Span> {
    if cursor < next then [Span(cursor, next - cursor, a.pointer)] else []
  }

  /** The gaps in front of the ranges of one allocation. */
  function GapsBefore(a: Allocation, ranges: seq<SemanticRange>): seq<Span> {
    if ranges == [] then []
    else
      var front, last := ranges[..|ranges| - 1], ranges[|ranges| - 1];
      GapsBefore(a, front) + GapTo(a, LastEnd(a, front), last.pointer)
  }

  /** All gaps of one allocation, in address order. */
  function GapsIn(a: Allocation, ranges: seq<SemanticRange>): seq<Span> {
    GapsBefore(a, ranges) + GapTo(a, LastEnd(a, ranges), a.End())
  }

  /** All gaps of the pool. */
  function Gaps(allocations: seq<Allocation>, ranges: seq<SemanticRange>): seq<Span> {
    if allocations == [] then []
    else
      var last := allocations[|allocations| - 1];
      Gaps(allocations[..|allocations| - 1], ranges) + GapsIn(last, Held(last, ranges))
  }

  /** The second loop, for one allocation: gaps become residual, ranges become model extents. */
  method Cut(a: Allocation, ranges: seq<SemanticRange>) returns (model: seq<ModelExtent>, residual: seq<Span>)
    requires a.size > 0 && InOrder(ranges)
    requires forall r :: r in ranges ==> Holds(a, r)
    ensures Ranges(model) == ranges
    ensures CutTo(a, Bag(model, residual), a.End())
    ensures AllFree(residual, multiset(ranges)) && Rising(residual) && residual == GapsIn(a, ranges)
  {
    hide CutTo, AllFree, Bag, Rising, GapsBefore;
    model, residual := [], [];
    GapStart(a, ranges);
    var cursor := a.pointer;
    ghost var bag: multiset<Span> := multiset{};
    CutStart(a, ranges);
    for i := 0 to |ranges|
      invariant Ranges(model) == ranges[..i]
      invariant cursor == (if i == 0 then a.pointer else ranges[i - 1].End()) && cursor <= a.End()
      invariant bag == Bag(model, residual) && CutTo(a, bag, cursor)
      invariant AllFree(residual, multiset(ranges)) && Rising(residual)
      invariant residual == GapsBefore(a, ranges[..i])
    {
      var r := ranges[i];
      assert r in ranges && cursor <= r.pointer;
      GapStep(a, ranges, i);
      if cursor < r.pointer {
        residual, bag := CutGap(a, ranges, i, model, residual, bag, cursor, r.pointer);
      }
      var e := ModelExtent(Span(r.pointer, r.size, a.pointer), r.id);
      CutNext(a, bag, r.pointer, e.span);
      BagModel(model, residual, e);
      assert ranges[..i + 1] == ranges[..i] + [r];
      model, bag := model + [e], bag + multiset{e.span};
      cursor := r.End();
    }
    assert ranges[..|ranges|] == ranges;
    if cursor < a.End() {
      residual, bag := CutGap(a, ranges, |ranges|, model, residual, bag, cursor, a.End());
    }
  }

  lemma {:induction false} GapStart(a: Allocation, ranges: seq<SemanticRange>)
    ensures GapsBefore(a, ranges[..0]) == []
  {
  }

  lemma {:induction false} GapStep(a: Allocation, ranges: seq<SemanticRange>, i: nat)
    requires i < |ranges|
    ensures GapsBefore(a, ranges[..i + 1])
         == GapsBefore(a, ranges[..i]) + GapTo(a, if i == 0 then a.pointer else ranges[i - 1].End(), ranges[i].pointer)
  {
    assert ranges[..i + 1][..i] == ranges[..i];
  }

  /** Appends the residual span between two model ranges. */
  method CutGap(a: Allocation, ghost ranges: seq<SemanticRange>, ghost i: nat, ghost model: seq<ModelExtent>,
                residual: seq<Span>, ghost bag: multiset<Span>, cursor: int, next: int)
    returns (residual': seq<Span>, ghost bag': multiset<Span>)
    requires i <= |ranges| && InOrder(ranges) && cursor < next <= a.End()
    requires i > 0 ==> ranges[i - 1].End() <= cursor
    requires i < |ranges| ==> next <= ranges[i].pointer
    requires bag == Bag(model, residual) && CutTo(a, bag, cursor) && AllFree(residual, multiset(ranges)) && Rising(residual)
    ensures bag' == Bag(model, residual') && CutTo(a, bag', next) && AllFree(residual', multiset(ranges)) && Rising(residual')
    ensures residual' == residual + GapTo(a, cursor, next)
  {
    var gap := Span(cursor, next - cursor, a.pointer);
    RisingNext(a, model, residual, bag, cursor, gap);
    CutNext(a, bag, cursor, gap);
    BagResidual(model, residual, gap);
    GapFree(ranges, i, gap);
    residual', bag' := residual + [gap], bag + multiset{gap};
    forall s, x | s in residual' && s.Contains(x) ensures Free(multiset(ranges), x) {
      assert s in residual || s in [gap];
    }
  }

  lemma {:induction false} GapFree(ranges: seq<SemanticRange>, i: nat, gap: Span)
    requires i <= |ranges| && InOrder(ranges)
    requires i > 0 ==> ranges[i - 1].End() <= gap.ptr
    requires i < |ranges| ==> gap.End() <= ranges[i].pointer
    ensures AllFree([gap], multiset(ranges))
  {
    forall x, r | gap.Contains(x) && r in multiset(ranges)
      ensures !r.Contains(x)
    {
      assert r in ranges;
      var k :| 0 <= k < |ranges| && ranges[k] == r;
      assert k < i - 1 ==> ranges[k].End() <= ranges[i - 1].pointer;
      assert k > i ==> ranges[i].End() <= ranges[k].pointer;
    }
  }

  /** In each allocation the spans are listed in address order. */
  predicate Rising(s: seq<Span>) {
    forall i, j :: 0 <= i < j < |s| && s[i].owner == s[j].owner ==> s[i].End() <= s[j].ptr
  }

  lemma {:induction false} RisingNext(a: Allocation, model: seq<ModelExtent>, residual: seq<Span>, bag: multiset<Span>, cursor: int, gap: Span)
    requires Rising(residual) && bag == Bag(model, residual) && CutTo(a, bag, cursor) && gap.ptr == cursor
    ensures Rising(residual + [gap])
  {
    forall i | 0 <= i < |residual| ensures residual[i].End() <= cursor {
      assert residual[i] in multiset(residual) && residual[i] in bag;
    }
  }

  lemma {:induction false} RisingConcat(allocations: seq<Allocation>, n: nat, model: seq<ModelExtent>, residual: seq<Span>,
                     m: seq<ModelExtent>, d: seq<Span>)
    requires n < |allocations| && WellFormed(allocations) && Rising(residual) && Rising(d)
    requires Tiled(allocations[..n], Bag(model, residual)) && CutTo(allocations[n], Bag(m, d), allocations[n].End())
    ensures Rising(residual + d)
  {
    forall i | 0 <= i < |residual| ensures residual[i].owner != allocations[n].pointer {
      assert residual[i] in multiset(residual) && residual[i] in Bag(model, residual);
      var b :| b in allocations[..n] && Inside(residual[i], b);
      var k :| 0 <= k < n && allocations[k] == b;
    }
    forall i | 0 <= i < |d| ensures d[i].owner == allocations[n].pointer {
      assert d[i] in multiset(d) && d[i] in Bag(m, d);
    }
  }

  /** A newly cut allocation extends the tiling of the earlier ones. */
  lemma {:induction false} TiledExtend(allocations: seq<Allocation>, n: nat, bag: multiset<Span>, cut: multiset<Span>)
    requires n < |allocations| && WellFormed(allocations)
    requires Tiled(allocations[..n], bag) && CutTo(allocations[n], cut, allocations[n].End())
    ensures Tiled(allocations[..n + 1], bag + cut)
  {
    hide Disjoint, Complete, Covered, Inside, Owned;
    var front, a := allocations[..n], allocations[n];
    assert allocations[..n + 1] == front + [a];
    forall s | s in bag ensures s.owner != a.pointer && Owned(front + [a], s) {
      FrontOwned(allocations, n, s);
    }
    forall s | s in cut ensures s.owner == a.pointer && Owned(front + [a], s) {
      LastOwned(front, a, s);
    }
    DisjointUnion(bag, cut, a.pointer);
    CompleteUnion(front, a, bag, cut);
  }

  lemma {:induction false} FrontOwned(allocations: seq<Allocation>, n: nat, s: Span)
    requires n < |allocations| && WellFormed(allocations) && Owned(allocations[..n], s)
    ensures s.owner != allocations[n].pointer && Owned(allocations[..n] + [allocations[n]], s)
  {
    var b :| b in allocations[..n] && Inside(s, b);
    var i :| 0 <= i < n && allocations[i] == b;
    assert b in allocations && allocations[n] in allocations && b in allocations[..n] + [allocations[n]];
  }

  lemma {:induction false} LastOwned(front: seq<Allocation>, a: Allocation, s: Span)
    requires Inside(s, a)
    ensures s.owner == a.pointer && Owned(front + [a], s)
  {
    assert a in front + [a];
  }

  lemma {:induction false} DisjointUnion(bag: multiset<Span>, cut: multiset<Span>, owner: int)
    requires Disjoint(bag) && Disjoint(cut)
    requires forall s :: s in bag ==> s.owner != owner
    requires forall s :: s in cut ==> s.owner == owner
    ensures Disjoint(bag + cut)
  {
    forall s | s in bag + cut ensures (bag + cut)[s] == 1 {
      assert s in bag <==> s !in cut;
    }
  }

  lemma {:induction false} CompleteUnion(front: seq<Allocation>, a: Allocation, bag: multiset<Span>, cut: multiset<Span>)
    requires Complete(front, bag)
    requires forall x :: a.pointer <= x < a.End() ==> Covered(cut, a.pointer, x)
    ensures Complete(front + [a], bag + cut)
  {
    forall b, x | b in front + [a] && b.pointer <= x < b.End()
      ensures Covered(bag + cut, b.pointer, x)
    {
      if b in front {
        assert Covered(bag, b.pointer, x);
        var s :| s in bag && s.owner == b.pointer && s.Contains(x);
        assert s in bag + cut;
      } else {
        assert Covered(cut, a.pointer, x);
        var s :| s in cut && s.owner == a.pointer && s.Contains(x);
        assert s in bag + cut;
      }
    }
  }

  ghost function HeldBag(allocations: seq<Allocation>, s: seq<SemanticRange>): multiset<SemanticRange> {
    if allocations == [] then multiset{}
    else HeldBag(allocations[..|allocations| - 1], s) + multiset(Held(allocations[|allocations| - 1], s))
  }

  lemma {:induction false} HeldCount(a: Allocation, s: seq<SemanticRange>, r: SemanticRange)
    ensures multiset(Held(a, s))[r] == if Holds(a, r) then multiset(s)[r] else 0
  {
    if s != [] {
      HeldCount(a, s[..|s| - 1], r);
      assert s == s[..|s| - 1] + [s[|s| - 1]];
    }
  }

  lemma {:induction false} HeldBagCount(allocations: seq<Allocation>, s: seq<SemanticRange>, r: SemanticRange)
    requires WellFormed(allocations) && r.size > 0
    ensures (exists a :: a in allocations && Holds(a, r)) ==> HeldBag(allocations, s)[r] == multiset(s)[r]
    ensures !(exists a :: a in allocations && Holds(a, r)) ==> HeldBag(allocations, s)[r] == 0
  {
    if allocations != [] {
      var front, last := allocations[..|allocations| - 1], allocations[|allocations| - 1];
      HeldBagCount(front, s, r);
      HeldCount(last, s, r);
      assert forall a :: a in allocations <==> a in front || a == last;
      if Holds(last, r) {
        forall a | a in front ensures !Holds(a, r) {
          var i :| 0 <= i < |front| && front[i] == a;
          assert allocations[i] == a;
        }
      }
    }
  }

  lemma {:induction false} HeldBagAll(allocations: seq<Allocation>, s: seq<SemanticRange>)
    requires WellFormed(allocations) && Housed(allocations, multiset(s))
    ensures HeldBag(allocations, s) == multiset(s)
  {
    forall r: SemanticRange ensures HeldBag(allocations, s)[r] == multiset(s)[r] {
      if r in multiset(s) {
        HeldBagCount(allocations, s, r);
      } else {
        HeldBagNone(allocations, s, r);
      }
    }
  }

  lemma {:induction false} HeldBagNone(allocations: seq<Allocation>, s: seq<SemanticRange>, r: SemanticRange)
    requires r !in multiset(s)
    ensures HeldBag(allocations, s)[r] == 0
  {
    if allocations != [] {
      HeldBagNone(allocations[..|allocations| - 1], s, r);
      HeldCount(allocations[|allocations| - 1], s, r);
    }
  }

  /** What a partition promises. */
  ghost predicate Partitioned(allocations: seq<Allocation>, layout: seq<SemanticRange>,
                              model: seq<ModelExtent>, residual: seq<Span>) {
    && multiset(Ranges(model)) == multiset(layout)
    && Tiled(allocations, Bag(model, residual))
    && AllFree(residual, multiset(layout)) && Rising(residual)
    && model != [] && residual != []
  }

  /** Every range has a size and an allocation that holds it. */
  ghost predicate Housed(allocations: seq<Allocation>, layout: multiset<SemanticRange>) {
    forall r :: r in layout ==> r.size > 0 && exists a :: a in allocations && Holds(a, r)
  }

  lemma {:induction false} ValidHoused(allocations: seq<Allocation>, layout: multiset<SemanticRange>)
    requires ValidLayout(allocations, layout)
    ensures Housed(allocations, layout)
  {
  }

  predicate ByAddress(a: Allocation, b: Allocation) { a.pointer <= b.pointer }

  /** Spans in address order across the whole pool. */
  predicate Climbing(s: seq<Span>) {
    forall i, j :: 0 <= i < j < |s| ==> s[i].End() <= s[j].ptr
  }

  /** Cuts every allocation of the pool at the ranges it holds. */
  method CutPool(allocations: seq<Allocation>, sorted: seq<SemanticRange>) returns (model: seq<ModelExtent>, residual: seq<Span>)
    requires WellFormed(allocations) && InOrder(sorted) && Housed(allocations, multiset(sorted))
    ensures multiset(Ranges(model)) == multiset(sorted) && Tiled(allocations, Bag(model, residual))
    ensures AllFree(residual, multiset(sorted)) && Rising(residual) && residual == Gaps(allocations, sorted)
    ensures SortedBy(ByAddress, allocations) ==> Climbing(residual)
  {
    hide Tiled, AllFree, Housed, CutTo, Bag, InOrder, Ranges, WellFormed, Rising, GapsIn, Climbing, SortedBy;
    model, residual := [], [];
    ghost var bag: multiset<Span> := multiset{};
    JoinNone(allocations, sorted);
    for i := 0 to |allocations|
      invariant bag == Bag(model, residual) && Tiled(allocations[..i], bag)
      invariant multiset(Ranges(model)) == HeldBag(allocations[..i], sorted)
      invariant AllFree(residual, multiset(sorted)) && Rising(residual) && residual == Gaps(allocations[..i], sorted)
      invariant SortedBy(ByAddress, allocations) ==> Climbing(residual)
    {
      var a := allocations[i];
      assert a in allocations;
      PositiveSize(allocations, a);
      HeldInOrder(a, sorted);
      HeldMembers(a, sorted);
      var m, d := Cut(a, Held(a, sorted));
      TiledExtend(allocations, i, bag, Bag(m, d));
      JoinCut(allocations, sorted, i, model, residual, m, d);
      RisingConcat(allocations, i, model, residual, m, d);
      if SortedBy(ByAddress, allocations) { ClimbingConcat(allocations, i, model, residual, m, d); }
      model, residual, bag := model + m, residual + d, bag + Bag(m, d);
      assert allocations[..i + 1][..i] == allocations[..i];
    }
    assert allocations[..|allocations|] == allocations;
    HeldBagAll(allocations, sorted);
  }

  lemma {:induction false} ClimbingConcat(allocations: seq<Allocation>, n: nat, model: seq<ModelExtent>, residual: seq<Span>,
                     m: seq<ModelExtent>, d: seq<Span>)
    requires n < |allocations| && WellFormed(allocations) && SortedBy(ByAddress, allocations) && Climbing(residual) && Rising(d)
    requires Tiled(allocations[..n], Bag(model, residual)) && CutTo(allocations[n], Bag(m, d), allocations[n].End())
    ensures Climbing(residual + d)
  {
    forall i | 0 <= i < |residual| ensures residual[i].End() <= allocations[n].pointer {
      assert residual[i] in multiset(residual) && residual[i] in Bag(model, residual);
      var b :| b in allocations[..n] && Inside(residual[i], b);
      var k :| 0 <= k < n && allocations[k] == b;
      assert ByAddress(allocations[k], allocations[n]);
      assert allocations[n] in allocations;
    }
    forall i | 0 <= i < |d| ensures d[i].owner == allocations[n].pointer && allocations[n].pointer <= d[i].ptr {
      assert d[i] in multiset(d) && d[i] in Bag(m, d);
    }
  }

  /**
    A partition is made exactly when the layout is valid and leaves some byte over. Then the
    model extents are the layout, under the same names, and together with the residual spans
    they hold every byte of the pool exactly once.
   */
  method PartitionPool(allocations: seq<Allocation>, layout: seq<SemanticRange>)
    returns (r: Result<(seq<ModelExtent>, seq<Span>)>)
    requires WellFormed(allocations)
    ensures r.Ok? <==> layout != [] && ValidLayout(allocations, multiset(layout))
                       && HasResidual(allocations, multiset(layout))
    ensures r.Ok? ==> Partitioned(allocations, layout, r.value.0, r.value.1)
  {
    hide Tiled, AllFree, ValidLayout, HasResidual, CutTo, Bag, InOrder, Ranges, WellFormed, Rising;
    if layout == [] {
      return Err;
    }
    var sorted := Sort(ByPointer, layout);
    SortSorted(ByPointer, layout);
    var ok := Validate(allocations, sorted);
    if !ok {
      return Err;
    }
    ValidHoused(allocations, multiset(sorted));
    var model, residual := CutPool(allocations, sorted);
    ResidualExists(allocations, layout, model, residual);
    ModelExists(layout, model);
    if model == [] || residual == [] {
      return Err;
    }
    return Ok((model, residual));
  }

  lemma {:induction false} JoinNone(allocations: seq<Allocation>, layout: seq<SemanticRange>)
    ensures Bag([], []) == multiset{} && Tiled(allocations[..0], multiset{})
    ensures Ranges([]) == [] && AllFree([], multiset(layout)) && Rising([]) && Climbing([])
  {
  }

  lemma {:induction false} JoinCut(allocations: seq<Allocation>, sorted: seq<SemanticRange>, i: nat,
                model: seq<ModelExtent>, residual: seq<Span>, m: seq<ModelExtent>, d: seq<Span>)
    requires WellFormed(allocations) && i < |allocations| && Housed(allocations, multiset(sorted))
    requires CutTo(allocations[i], Bag(m, d), allocations[i].End())
    requires Ranges(m) == Held(allocations[i], sorted) && AllFree(d, multiset(Held(allocations[i], sorted)))
    requires multiset(Ranges(model)) == HeldBag(allocations[..i], sorted) && AllFree(residual, multiset(sorted))
    ensures Bag(model + m, residual + d) == Bag(model, residual) + Bag(m, d)
    ensures multiset(Ranges(model + m)) == HeldBag(allocations[..i + 1], sorted)
    ensures AllFree(residual + d, multiset(sorted))
  {
    hide AllFree, Housed, WellFormed, Disjoint;
    BagConcat(model, residual, m, d);
    assert allocations[..i + 1][..i] == allocations[..i];
    forall s | s in d ensures Inside(s, allocations[i]) {
      assert s in multiset(d) && s in Bag(m, d);
    }
    ResidualFree(allocations, sorted, allocations[i], d);
    AllFreeConcat(residual, d, multiset(sorted));
  }

  lemma {:induction false} BagConcat(model: seq<ModelExtent>, residual: seq<Span>, m: seq<ModelExtent>, d: seq<Span>)
    ensures Bag(model + m, residual + d) == Bag(model, residual) + Bag(m, d)
    ensures Ranges(model + m) == Ranges(model) + Ranges(m)
  {
    assert Spans(model + m) == Spans(model) + Spans(m);
  }

  lemma {:induction false} AllFreeConcat(left: seq<Span>, right: seq<Span>, layout: multiset<SemanticRange>)
    requires AllFree(left, layout) && AllFree(right, layout)
    ensures AllFree(left + right, layout)
  {
    forall s, x | s in left + right && s.Contains(x) ensures Free(layout, x) {
      assert s in left || s in right;
    }
  }

  /** A residual byte of `a` is in no range of the layout, held by `a` or by another allocation. */
  lemma {:induction false} ResidualFree(allocations: seq<Allocation>, layout: seq<SemanticRange>, a: Allocation, residual: seq<Span>)
    requires WellFormed(allocations) && Housed(allocations, multiset(layout)) && a in allocations
    requires forall s :: s in residual ==> Inside(s, a)
    requires AllFree(residual, multiset(Held(a, layout)))
    ensures AllFree(residual, multiset(layout))
  {
    forall s, x, r | s in residual && s.Contains(x) && r in multiset(layout)
      ensures !r.Contains(x)
    {
      var b :| b in allocations && Holds(b, r);
      if a == b {
        HeldMembers(a, layout);
        assert r in layout && r in Held(a, layout) && r in multiset(Held(a, layout));
        assert Free(multiset(Held(a, layout)), x);
      } else {
        var i :| 0 <= i < |allocations| && allocations[i] == a;
        var j :| 0 <= j < |allocations| && allocations[j] == b;
        assert i < j || j < i;
      }
    }
  }

  lemma {:induction false} PositiveSize(allocations: seq<Allocation>, a: Allocation)
    requires WellFormed(allocations) && a in allocations
    ensures a.size > 0
  {
  }

  lemma {:induction false} ModelExists(layout: seq<SemanticRange>, model: seq<ModelExtent>)
    requires multiset(Ranges(model)) == multiset(layout)
    ensures |model| == |layout|
  {
    assert |multiset(Ranges(model))| == |multiset(layout)|;
  }

  lemma {:induction false} ResidualExists(allocations: seq<Allocation>, layout: seq<SemanticRange>, model: seq<ModelExtent>, residual: seq<Span>)
    requires Tiled(allocations, Bag(model, residual)) && multiset(Ranges(model)) == multiset(layout)
    requires AllFree(residual, multiset(layout))
    ensures residual != [] <==> HasResidual(allocations, multiset(layout))
  {
    if residual != [] {
      var s := residual[0];
      assert s in residual && s in Bag(model, residual);
      var a :| a in allocations && Inside(s, a);
      assert s.Contains(s.ptr);
    }
    if HasResidual(allocations, multiset(layout)) {
      var a, x :| a in allocations && a.pointer <= x < a.End() && Free(multiset(layout), x);
      assert Covered(Bag(model, residual), a.pointer, x);
      var s :| s in Bag(model, residual) && s.owner == a.pointer && s.Contains(x);
      forall i | 0 <= i < |model| ensures model[i].span != s {
        assert Ranges(model)[i] in multiset(Ranges(model));
      }
      assert s !in Spans(model) && s !in multiset(Spans(model));
      assert s in residual;
    }
  }
}
