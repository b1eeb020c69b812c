/**
  Placing the captured residual stream into the gaps of a fresh address layout (`relocate_stream`).
  Extents are never split, so the greedy walk succeeds exactly when every gap ends where some
  captured extent ends.
 */
module Placement {
  import opened Bytes
  import opened Sorting
  import opened Tiling
  import opened Partition
  import opened Snapshot
  import opened ResidualSweep

  /** Some prefix of the spans has `total` bytes. */
  ghost predicate Boundary(spans: seq<Span>, total: int) {
    exists i :: 0 <= i <= |spans| && TotalSize(spans[..i]) == total
  }

  /** Equal totals, and every cumulative boundary of the gaps is one of the spans. */
  ghost predicate Fits(spans: seq<Span>, gaps: seq<Span>) {
    && TotalSize(spans) == TotalSize(gaps)
    && forall j :: 0 <= j <= |gaps| ==> Boundary(spans, TotalSize(gaps[..j]))
  }

  predicate AllSized(spans: seq<Span>) { forall i :: 0 <= i < |spans| ==> spans[i].size > 0 }

  /** The bytes of the first `n` gaps and of the first `filled` bytes of the next one. */
  ghost predicate Filled(gaps: seq<Span>, n: nat, filled: int, owner: int, x: int) {
    || (exists j :: 0 <= j < n && j < |gaps| && gaps[j].owner == owner && gaps[j].Contains(x))
    || (n < |gaps| && gaps[n].owner == owner && gaps[n].ptr <= x < gaps[n].ptr + filled)
  }

  /** The cursor of the walk: `k` spans have filled `n` gaps and `filled` bytes of gap `n`. */
  ghost predicate Cursor(spans: seq<Span>, gaps: seq<Span>, k: nat, n: nat, filled: int) {
    && k <= |spans| && n <= |gaps| && 0 <= filled
    && (if n < |gaps| then filled <= gaps[n].size else filled == 0)
    && TotalSize(spans[..k]) == TotalSize(gaps[..n]) + filled
    && forall j :: 0 <= j <= n ==> Boundary(spans, TotalSize(gaps[..j]))
  }

  /** What has been placed: the same sizes, in address order, inside the gaps, with no byte left out. */
  ghost predicate Packs(spans: seq<Span>, gaps: seq<Span>, k: nat, n: nat, filled: int, out: seq<Span>) {
    && k <= |spans| && |out| == k && (forall i :: 0 <= i < k ==> out[i].size == spans[i].size)
    && Climbing(out)
    && (forall i :: 0 <= i < k && n < |gaps| ==> out[i].End() <= gaps[n].ptr + filled)
    && (forall i :: 0 <= i < k ==> Within(out[i], gaps))
    && (forall o, x :: Covered(multiset(out), o, x) <==> Filled(gaps, n, filled, o, x))
  }

  lemma {:induction false} TotalNext(spans: seq<Span>, i: nat)
    requires i < |spans|
    ensures TotalSize(spans[..i + 1]) == TotalSize(spans[..i]) + spans[i].size
  {
    assert spans[..i + 1][..i] == spans[..i];
  }

  lemma {:induction false} TotalGrows(spans: seq<Span>, i: nat, j: nat)
    requires AllSized(spans) && i <= j <= |spans|
    ensures TotalSize(spans[..i]) + j - i <= TotalSize(spans[..j])
  {
    if i < j {
      TotalGrows(spans, i, j - 1);
      TotalNext(spans, j - 1);
    }
  }

  lemma {:induction false} TotalWhole(spans: seq<Span>)
    ensures TotalSize(spans[..|spans|]) == TotalSize(spans)
  {
    assert spans[..|spans|] == spans;
  }

  lemma {:induction false} CursorStart(spans: seq<Span>, gaps: seq<Span>)
    requires AllSized(gaps)
    ensures Cursor(spans, gaps, 0, 0, 0) && Packs(spans, gaps, 0, 0, 0, [])
  {
    assert TotalSize(spans[..0]) == 0 == TotalSize(gaps[..0]);
    assert Boundary(spans, TotalSize(gaps[..0]));
  }

  /** A gap that is full is left behind. */
  lemma {:induction false} CursorSkip(spans: seq<Span>, gaps: seq<Span>, k: nat, n: nat)
    requires AllSized(gaps) && n < |gaps| && Cursor(spans, gaps, k, n, gaps[n].size)
    ensures Cursor(spans, gaps, k, n + 1, 0)
  {
    TotalNext(gaps, n);
    assert Boundary(spans, TotalSize(gaps[..n + 1]));
  }

  lemma {:induction false} PacksSkip(spans: seq<Span>, gaps: seq<Span>, k: nat, n: nat, out: seq<Span>)
    requires Climbing(gaps) && n < |gaps| && Packs(spans, gaps, k, n, gaps[n].size, out)
    ensures Packs(spans, gaps, k, n + 1, 0, out)
  {
    forall o, x ensures Filled(gaps, n, gaps[n].size, o, x) == Filled(gaps, n + 1, 0, o, x) {
      if Filled(gaps, n, gaps[n].size, o, x) && !exists j :: 0 <= j < n && gaps[j].owner == o && gaps[j].Contains(x) {
        assert gaps[n].owner == o && gaps[n].Contains(x);
      }
    }
  }

  lemma {:induction false} CursorPlace(spans: seq<Span>, gaps: seq<Span>, k: nat, n: nat, filled: int)
    requires AllSized(spans) && k < |spans| && n < |gaps| && Cursor(spans, gaps, k, n, filled) && filled + spans[k].size <= gaps[n].size
    ensures Cursor(spans, gaps, k + 1, n, filled + spans[k].size)
  {
    TotalNext(spans, k);
  }

  lemma {:induction false} PacksPlace(spans: seq<Span>, gaps: seq<Span>, k: nat, n: nat, filled: int, out: seq<Span>, piece: Span)
    requires AllSized(spans) && k < |spans| && n < |gaps| && 0 <= filled && Packs(spans, gaps, k, n, filled, out)
    requires filled + spans[k].size <= gaps[n].size && piece == Span(gaps[n].ptr + filled, spans[k].size, gaps[n].owner)
    ensures Packs(spans, gaps, k + 1, n, filled + spans[k].size, out + [piece])
  {
    hide Filled, Covered;
    var after := out + [piece];
    assert gaps[n] in gaps && Within(piece, gaps);
    forall o, x ensures Covered(multiset(after), o, x) <==> Filled(gaps, n, filled + spans[k].size, o, x) {
      CoveredNext(out, piece, o, x);
      FilledNext(gaps, n, filled, spans[k].size, o, x);
      assert Covered(multiset(out), o, x) <==> Filled(gaps, n, filled, o, x);
    }
  }

  lemma {:induction false} FilledNext(gaps: seq<Span>, n: nat, filled: int, size: int, o: int, x: int)
    requires n < |gaps| && 0 <= filled && 0 < size
    ensures Filled(gaps, n, filled + size, o, x) <==>
      Filled(gaps, n, filled, o, x) || (gaps[n].owner == o && gaps[n].ptr + filled <= x < gaps[n].ptr + filled + size)
  {
  }

  lemma {:induction false} CoveredNext(out: seq<Span>, piece: Span, o: int, x: int)
    ensures Covered(multiset(out + [piece]), o, x) <==> Covered(multiset(out), o, x) || (piece.owner == o && piece.Contains(x))
  {
    assert multiset(out + [piece]) == multiset(out) + multiset{piece};
    if Covered(multiset(out), o, x) {
      var s :| s in multiset(out) && s.owner == o && s.Contains(x);
      assert s in multiset(out + [piece]);
    }
    assert piece in multiset(out + [piece]);
  }

  /** There are more bytes than the gaps can take. */
  lemma {:induction false} TooMany(spans: seq<Span>, gaps: seq<Span>, k: nat)
    requires AllSized(spans) && k < |spans| && Cursor(spans, gaps, k, |gaps|, 0)
    ensures !Fits(spans, gaps)
  {
    TotalGrows(spans, k, |spans|);
    TotalWhole(spans);
    TotalWhole(gaps);
  }

  /** The next span would cross the end of its gap, and no other prefix ends there. */
  lemma {:induction false} Crosses(spans: seq<Span>, gaps: seq<Span>, k: nat, n: nat, filled: int)
    requires AllSized(spans) && k < |spans| && n < |gaps| && Cursor(spans, gaps, k, n, filled)
    requires filled < gaps[n].size < filled + spans[k].size
    ensures !Fits(spans, gaps)
  {
    TotalNext(spans, k);
    TotalNext(gaps, n);
    var total := TotalSize(gaps[..n + 1]);
    forall i | 0 <= i <= |spans| ensures TotalSize(spans[..i]) != total {
      if i <= k { TotalGrows(spans, i, k); } else { TotalGrows(spans, k + 1, i); }
    }
    assert !Boundary(spans, total);
  }

  /** The stream ends before the last gap is full. */
  lemma {:induction false} TooFew(spans: seq<Span>, gaps: seq<Span>, n: nat, filled: int)
    requires AllSized(gaps) && n < |gaps| && Cursor(spans, gaps, |spans|, n, filled) && filled < gaps[n].size
    ensures !Fits(spans, gaps)
  {
    TotalNext(gaps, n);
    TotalGrows(gaps, n + 1, |gaps|);
    TotalWhole(spans);
    TotalWhole(gaps);
  }

  lemma {:induction false} AllPlaced(spans: seq<Span>, gaps: seq<Span>)
    requires Cursor(spans, gaps, |spans|, |gaps|, 0)
    ensures Fits(spans, gaps)
  {
    TotalWhole(spans);
    TotalWhole(gaps);
  }

  // ---------------------------------------------------------------------------------------------
  // The walk.

  datatype Indexed = Indexed(index: nat, entry: Entry)

  predicate ByPtr(a: Entry, b: Entry) { a.span.ptr <= b.span.ptr }

  predicate IndexedByPtr(a: Indexed, b: Indexed) { ByPtr(a.entry, b.entry) }

  predicate ByIndex(a: Indexed, b: Indexed) { a.index <= b.index }

  function EntryOf(i: Indexed): Entry { i.entry }

  function IndexOf(i: Indexed): int { i.index }

  function Enumerate(s: seq<Entry>): (r: seq<Indexed>)
    ensures |r| == |s| && forall i :: 0 <= i < |s| ==> r[i] == Indexed(i, s[i])
  {
    seq(|s|, i requires 0 <= i < |s| => Indexed(i, s[i]))
  }

  /** Moves past gaps that are full. */
  method SkipFull(ghost spans: seq<Span>, gaps: seq<Span>, ghost k: nat, n0: nat, filled0: int, ghost out: seq<Span>)
    returns (n: nat, filled: int)
    requires AllSized(gaps) && Climbing(gaps) && Cursor(spans, gaps, k, n0, filled0) && Packs(spans, gaps, k, n0, filled0, out)
    ensures Cursor(spans, gaps, k, n, filled) && Packs(spans, gaps, k, n, filled, out)
    ensures n < |gaps| ==> filled < gaps[n].size
  {
    hide Boundary, Packs, Climbing;
    n, filled := n0, filled0;
    while n < |gaps| && filled == gaps[n].size
      invariant Cursor(spans, gaps, k, n, filled) && Packs(spans, gaps, k, n, filled, out)
      decreases |gaps| - n
    {
      CursorSkip(spans, gaps, k, n);
      PacksSkip(spans, gaps, k, n, out);
      n, filled := n + 1, 0;
    }
  }

  /** The allocation that holds a piece of a gap is the owner of the gap. */
  lemma {:induction false} OwnerHolds(live: seq<Allocation>, gap: Span, r: SemanticRange)
    requires WellFormed(live) && Owned(live, gap) && gap.ptr <= r.pointer && r.End() <= gap.End() && r.size > 0
    ensures exists a :: a in live && Holds(a, r) && a.pointer == gap.owner
  {
    var a :| a in live && Inside(gap, a);
    assert Holds(a, r);
  }

  ghost predicate Carries(ordered: seq<Indexed>, placed: seq<Indexed>, out: seq<Span>) {
    && |placed| == |out| <= |ordered|
    && forall i :: 0 <= i < |placed| ==> placed[i] == Indexed(ordered[i].index, ordered[i].entry.(span := out[i]))
  }

  /** The greedy loop over the extents in address order. */
  method Walk(ordered: seq<Indexed>, gaps: seq<Span>, live: seq<Allocation>) returns (r: Result<seq<Indexed>>, ghost out: seq<Span>)
    requires WellFormed(live) && (forall g :: g in gaps ==> Owned(live, g)) && AllSized(gaps) && Climbing(gaps)
    requires AllSized(Map(SpanOf, Map(EntryOf, ordered)))
    ensures r.Ok? <==> Fits(Map(SpanOf, Map(EntryOf, ordered)), gaps)
    ensures r.Ok? ==> Packs(Map(SpanOf, Map(EntryOf, ordered)), gaps, |ordered|, |gaps|, 0, out) && Carries(ordered, r.value, out)
  {
    hide Map, Cursor, Packs, Fits, Climbing, Owned, WellFormed;
    ghost var spans := Map(SpanOf, Map(EntryOf, ordered));
    var n: nat, filled := 0, 0;
    var placed: seq<Indexed> := [];
    out := [];
    CursorStart(spans, gaps);
    for k := 0 to |ordered|
      invariant Cursor(spans, gaps, k, n, filled) && Packs(spans, gaps, k, n, filled, out) && Carries(ordered, placed, out)
      invariant |placed| == k
    {
      MapAt(EntryOf, ordered, k);
      MapAt(SpanOf, Map(EntryOf, ordered), k);
      var size := ordered[k].entry.span.size;
      assert spans[k].size == size;
      n, filled := SkipFull(spans, gaps, k, n, filled, out);
      CursorBounds(spans, gaps, k, n, filled);
      if n >= |gaps| {
        TooMany(spans, gaps, k);
        return Err, out;
      }
      if size > gaps[n].size - filled {
        Crosses(spans, gaps, k, n, filled);
        return Err, out;
      }
      var pointer := gaps[n].ptr + filled;
      OwnerHolds(live, gaps[n], SemanticRange(pointer, size, ""));
      var home := FindHome(live, SemanticRange(pointer, size, ""));
      var piece := Span(pointer, size, home.value.pointer);
      CursorPlace(spans, gaps, k, n, filled);
      PacksPlace(spans, gaps, k, n, filled, out, piece);
      placed := placed + [Indexed(ordered[k].index, ordered[k].entry.(span := piece))];
      out := out + [piece];
      filled := filled + size;
    }
    n, filled := SkipFull(spans, gaps, |ordered|, n, filled, out);
    CursorBounds(spans, gaps, |ordered|, n, filled);
    if n != |gaps| {
      TooFew(spans, gaps, n, filled);
      return Err, out;
    }
    AllPlaced(spans, gaps);
    return Ok(placed), out;
  }

  lemma {:induction false} CursorBounds(spans: seq<Span>, gaps: seq<Span>, k: nat, n: nat, filled: int)
    requires Cursor(spans, gaps, k, n, filled)
    ensures n <= |gaps| && 0 <= filled && (n == |gaps| ==> filled == 0)
  {
  }

  // ---------------------------------------------------------------------------------------------
  // The stream as a whole.

  /** An extent without its address: what it reads and how much. */
  function Strip(e: Entry): Entry { e.(span := Span(0, e.span.size, 0)) }

  /** Only the addresses change, and reading the extents in address order gives the same stream. */
  ghost predicate Restreamed(sources: seq<Entry>, gaps: seq<Span>, out: seq<Entry>) {
    && |out| == |sources|
    && (forall i :: 0 <= i < |out| ==> Strip(out[i]) == Strip(sources[i]))
    && Map(Strip, Sort(ByPtr, out)) == Map(Strip, Sort(ByPtr, sources))
    && Climbing(Map(SpanOf, Sort(ByPtr, out)))
    && (forall s :: s in Map(SpanOf, out) ==> Within(s, gaps))
    && (forall o, x :: Covered(multiset(Map(SpanOf, out)), o, x) <==> HeldBy(gaps, o, x))
  }

  lemma {:induction false} StreamOrder(sources: seq<Entry>)
    ensures Map(EntryOf, Sort(IndexedByPtr, Enumerate(sources))) == Sort(ByPtr, sources)
  {
    hide Sort;
    var e := Enumerate(sources);
    assert Agree(EntryOf, IndexedByPtr, ByPtr, e);
    SortMap(EntryOf, IndexedByPtr, ByPtr, e);
    forall i | 0 <= i < |sources| ensures Map(EntryOf, e)[i] == sources[i] {
      MapAt(EntryOf, e, i);
    }
    assert Map(EntryOf, e) == sources;
  }

  /** The extents keep their places in the manifest. */
  ghost predicate FromSource(sources: seq<Entry>, p: Indexed) {
    p.index < |sources| && Strip(p.entry) == Strip(sources[p.index])
  }

  /** Writing each placed extent back at its index gives the list sorted by index. */
  function Scatter(placed: seq<Indexed>): seq<Entry> { Map(EntryOf, Sort(ByIndex, placed)) }

  lemma {:induction false} CarriedFrom(sources: seq<Entry>, ordered: seq<Indexed>, placed: seq<Indexed>, out: seq<Span>)
    requires ordered == Sort(IndexedByPtr, Enumerate(sources)) && |placed| == |ordered| && Carries(ordered, placed, out)
    requires forall i :: 0 <= i < |out| ==> out[i].size == ordered[i].entry.span.size
    ensures forall i :: 0 <= i < |placed| ==> FromSource(sources, placed[i])
    ensures Map(Strip, Map(EntryOf, placed)) == Map(Strip, Map(EntryOf, ordered))
    ensures multiset(Map(IndexOf, placed)) == multiset(Map(IndexOf, Enumerate(sources)))
    ensures Map(SpanOf, Map(EntryOf, placed)) == out
  {
    hide Sort, Map;
    forall i | 0 <= i < |placed| ensures FromSource(sources, placed[i]) {
      assert ordered[i] in multiset(ordered);
      assert ordered[i] in Enumerate(sources);
    }
    forall i | 0 <= i < |placed|
      ensures Map(Strip, Map(EntryOf, placed))[i] == Map(Strip, Map(EntryOf, ordered))[i]
      ensures Map(IndexOf, placed)[i] == Map(IndexOf, ordered)[i] && Map(SpanOf, Map(EntryOf, placed))[i] == out[i]
    {
      MapAt(EntryOf, placed, i);
      MapAt(EntryOf, ordered, i);
      MapAt(Strip, Map(EntryOf, placed), i);
      MapAt(Strip, Map(EntryOf, ordered), i);
      MapAt(SpanOf, Map(EntryOf, placed), i);
      MapAt(IndexOf, placed, i);
      MapAt(IndexOf, ordered, i);
    }
    assert Map(IndexOf, placed) == Map(IndexOf, ordered);
    MapBag(IndexOf, ordered, Enumerate(sources));
  }

  lemma {:induction false} ScatterAt(sources: seq<Entry>, placed: seq<Indexed>)
    requires |placed| == |sources| && multiset(Map(IndexOf, placed)) == multiset(Map(IndexOf, Enumerate(sources)))
    requires forall i :: 0 <= i < |placed| ==> FromSource(sources, placed[i])
    ensures |Scatter(placed)| == |sources| && forall i :: 0 <= i < |sources| ==> Strip(Scatter(placed)[i]) == Strip(sources[i])
  {
    hide Map, Sort, FromSource;
    var sorted, e := Sort(ByIndex, placed), Enumerate(sources);
    SortSorted(ByIndex, placed);
    MapBag(IndexOf, sorted, placed);
    forall i | 0 <= i < |sources| ensures Map(IndexOf, e)[i] == i && Map(IndexOf, sorted)[i] == sorted[i].index {
      MapAt(IndexOf, e, i);
      MapAt(IndexOf, sorted, i);
    }
    SortedUnique(AtMost, Map(IndexOf, sorted), Map(IndexOf, e));
    forall i | 0 <= i < |sources| ensures Strip(Scatter(placed)[i]) == Strip(sources[i]) {
      assert sorted[i] in multiset(sorted);
      assert sorted[i] in placed;
      MapAt(EntryOf, sorted, i);
      SourceAt(sources, sorted[i]);
    }
  }

  predicate AtMost(x: int, y: int) { x <= y }

  lemma {:induction false} SourceAt(sources: seq<Entry>, p: Indexed)
    requires FromSource(sources, p)
    ensures p.index < |sources| && Strip(p.entry) == Strip(sources[p.index])
  {
  }

  /** Extents with increasing addresses are their own sorted list. */
  lemma {:induction false} ClimbingSorted(placed: seq<Indexed>)
    requires Climbing(Map(SpanOf, Map(EntryOf, placed))) && AllSized(Map(SpanOf, Map(EntryOf, placed)))
    ensures Sort(ByPtr, Scatter(placed)) == Map(EntryOf, placed)
  {
    hide Map, Sort;
    var entries, out := Map(EntryOf, placed), Scatter(placed);
    MapBag(EntryOf, Sort(ByIndex, placed), placed);
    SortSorted(ByPtr, out);
    forall i, j | 0 <= i < j < |entries| ensures entries[i].span.ptr < entries[j].span.ptr {
      MapAt(SpanOf, entries, i);
      MapAt(SpanOf, entries, j);
    }
    forall x, y | x in entries && y in entries && ByPtr(x, y) && ByPtr(y, x) ensures x == y {
      var i :| 0 <= i < |entries| && entries[i] == x;
      var j :| 0 <= j < |entries| && entries[j] == y;
      assert i == j;
    }
    SortedUnique(ByPtr, entries, Sort(ByPtr, out));
  }

  /** When everything is placed, the spans hold exactly the bytes of the gaps. */
  lemma {:induction false} GapsHeld(spans: seq<Span>, gaps: seq<Span>, out: seq<Span>)
    requires Packs(spans, gaps, |spans|, |gaps|, 0, out)
    ensures forall s :: s in out ==> Within(s, gaps)
    ensures forall o, x :: Covered(multiset(out), o, x) <==> HeldBy(gaps, o, x)
  {
    forall o, x ensures Filled(gaps, |gaps|, 0, o, x) <==> HeldBy(gaps, o, x) {
    }
  }

  /** `relocate_stream` on the captured residual extents. */
  method PlaceStream(sources: seq<Entry>, gaps: seq<Span>, live: seq<Allocation>) returns (r: Result<seq<Entry>>)
    requires WellFormed(live) && (forall g :: g in gaps ==> Owned(live, g)) && AllSized(gaps) && Climbing(gaps)
    requires AllSized(Map(SpanOf, sources))
    ensures r.Ok? <==> Fits(Map(SpanOf, Sort(ByPtr, sources)), gaps)
    ensures r.Ok? ==> Restreamed(sources, gaps, r.value)
  {
    hide Map, Sort, Packs, Fits, Climbing, Owned, WellFormed, Carries, Restreamed, AllSized;
    var ordered := Sort(IndexedByPtr, Enumerate(sources));
    StreamOrder(sources);
    SizedSorted(sources);
    var placed;
    ghost var out;
    placed, out := Walk(ordered, gaps, live);
    if placed.Err? {
      return Err;
    }
    r := Ok(Scatter(placed.value));
    StreamPlaced(sources, gaps, ordered, placed.value, out);
  }

  lemma {:induction false} SizedSorted(sources: seq<Entry>)
    requires AllSized(Map(SpanOf, sources))
    ensures AllSized(Map(SpanOf, Sort(ByPtr, sources)))
  {
    hide Map, Sort;
    var s := Map(SpanOf, Sort(ByPtr, sources));
    MapBag(SpanOf, Sort(ByPtr, sources), sources);
    forall i | 0 <= i < |s| ensures s[i].size > 0 {
      assert s[i] in multiset(s);
      assert s[i] in Map(SpanOf, sources);
    }
  }

  lemma {:induction false} StreamPlaced(sources: seq<Entry>, gaps: seq<Span>, ordered: seq<Indexed>, placed: seq<Indexed>, out: seq<Span>)
    requires ordered == Sort(IndexedByPtr, Enumerate(sources)) && AllSized(Map(SpanOf, Map(EntryOf, ordered)))
    requires Packs(Map(SpanOf, Map(EntryOf, ordered)), gaps, |ordered|, |gaps|, 0, out) && Carries(ordered, placed, out)
    ensures Restreamed(sources, gaps, Scatter(placed))
  {
    hide Map, Sort, Within, Covered, HeldBy, FromSource;
    var spans := Map(SpanOf, Map(EntryOf, ordered));
    forall i | 0 <= i < |out| ensures out[i].size == ordered[i].entry.span.size && out[i].size > 0 {
      MapAt(EntryOf, ordered, i);
      MapAt(SpanOf, Map(EntryOf, ordered), i);
      assert out[i].size == spans[i].size;
    }
    CarriedFrom(sources, ordered, placed, out);
    ScatterAt(sources, placed);
    ClimbingSorted(placed);
    StreamOrder(sources);
    GapsHeld(spans, gaps, out);
    MapBag(EntryOf, Sort(ByIndex, placed), placed);
    MapBag(SpanOf, Scatter(placed), Map(EntryOf, placed));
    forall s | s in Map(SpanOf, Scatter(placed)) ensures Within(s, gaps) {
      assert s in multiset(Map(SpanOf, Scatter(placed)));
      assert s in out;
    }
  }
}
