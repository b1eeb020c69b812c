/**
  Moving a portable native manifest to the address layout of a fresh process
  (`_relocate_split_native_manifest`).
 */
module Relocation {
  import opened Bytes
  import opened Sorting
  import opened Tiling
  import opened Partition
  import opened Snapshot
  import opened Placement
  import ResidualSweep
  import Pack
  import Jobs
  import DirectSplit
  import RoundTrip

  // ---------------------------------------------------------------------------------------------
  // The live side: allocations and model ranges.

  predicate NonNegative(allocations: seq<Allocation>) {
    forall i :: 0 <= i < |allocations| ==> allocations[i].pointer >= 0
  }

  method CheckCaptured(captured: seq<Allocation>) returns (ok: bool)
    ensures ok <==> NonNegative(captured) && Keyed(captured)
  {
    var seen: set<int> := {};
    for i := 0 to |captured|
      invariant forall k :: 0 <= k < i ==> captured[k].pointer >= 0 && captured[k].size > 0 && captured[k].pointer in seen
      invariant forall k, l :: 0 <= k < l < i ==> captured[k].pointer != captured[l].pointer
      invariant forall p :: p in seen ==> exists k :: 0 <= k < i && captured[k].pointer == p
    {
      assert captured[i] in captured;
      if captured[i].pointer < 0 || captured[i].size <= 0 || captured[i].pointer in seen {
        return false;
      }
      seen := seen + {captured[i].pointer};
    }
    return true;
  }

  /** The live allocations, sorted, must be positive and must not overlap. */
  method CheckLive(live: seq<Allocation>) returns (ok: bool)
    requires SortedBy(ByAddress, live)
    ensures ok <==> live != [] && NonNegative(live) && WellFormed(live)
  {
    for i := 0 to |live|
      invariant forall k :: 0 <= k < i ==> live[k].pointer >= 0 && live[k].size > 0
    {
      assert live[i] in live;
      if live[i].pointer < 0 || live[i].size <= 0 {
        return false;
      }
    }
    if live == [] {
      return false;
    }
    for i := 1 to |live|
      invariant forall k, l :: 0 <= k < l < i ==> live[k].End() <= live[l].pointer
    {
      assert ByAddress(live[i - 1], live[i]);
      if live[i].pointer < live[i - 1].End() {
        return false;
      }
    }
    return true;
  }

  /** Non-negative, positive, inside one allocation each, and not overlapping. */
  ghost predicate LiveRanges(live: seq<Allocation>, sorted: seq<SemanticRange>) {
    sorted != [] && (forall i :: 0 <= i < |sorted| ==> sorted[i].pointer >= 0) && InOrder(sorted) && Housed(live, multiset(sorted))
  }

  method CheckRanges(live: seq<Allocation>, sorted: seq<SemanticRange>) returns (ok: bool)
    requires WellFormed(live) && SortedBy(ByPointer, sorted)
    ensures ok <==> LiveRanges(live, sorted)
  {
    hide WellFormed;
    if sorted == [] {
      return false;
    }
    for i := 0 to |sorted|
      invariant forall k :: 0 <= k < i ==> sorted[k].pointer >= 0 && sorted[k].size > 0 && exists a :: a in live && Holds(a, sorted[k])
    {
      assert sorted[i] in multiset(sorted);
      if sorted[i].pointer < 0 || sorted[i].size <= 0 {
        return false;
      }
      var home := FindHome(live, sorted[i]);
      if home.None? {
        return false;
      }
    }
    for i := 1 to |sorted|
      invariant forall k, l :: 0 <= k < l < i ==> sorted[k].End() <= sorted[l].pointer
    {
      assert ByPointer(sorted[i - 1], sorted[i]);
      if sorted[i].pointer < sorted[i - 1].End() {
        return false;
      }
    }
    forall r | r in multiset(sorted) ensures r.size > 0 && exists a :: a in live && Holds(a, r) {
      assert r in sorted;
    }
    return true;
  }

  // ---------------------------------------------------------------------------------------------
  // Semantic identities.

  predicate Distinct<T(==)>(s: seq<T>) { forall i, j :: 0 <= i < j < |s| ==> s[i] != s[j] }

  function IdOf(e: Entry): string { e.id }

  function LiveId(r: SemanticRange): string { r.id }

  function Place(r: SemanticRange): (int, int) { (r.pointer, r.size) }

  function AsRange(r: (int, int)): SemanticRange { SemanticRange(r.0, r.1, "") }

  function Elements<T>(s: seq<T>): set<T> { set x | x in s }

  ghost predicate SameMembers<T(!new)>(s: seq<T>, t: seq<T>) { forall x :: x in s <==> x in t }

  lemma {:induction false} ElementsSame<T(!new)>(s: seq<T>, t: seq<T>)
    ensures Elements(s) == Elements(t) <==> SameMembers(s, t)
  {
    if Elements(s) == Elements(t) {
      forall x ensures x in s <==> x in t {
        assert x in Elements(s) <==> x in s;
        assert x in Elements(t) <==> x in t;
      }
    }
  }

  lemma {:induction false} ElementsNext<T>(s: seq<T>, i: nat)
    requires i < |s|
    ensures Elements(s[..i + 1]) == Elements(s[..i]) + {s[i]}
    ensures Distinct(s[..i + 1]) <==> Distinct(s[..i]) && s[i] !in Elements(s[..i])
  {
    var front, all := s[..i], s[..i + 1];
    assert all == front + [s[i]];
    if s[i] in front {
      var k :| 0 <= k < i && front[k] == s[i];
      assert all[k] == all[i];
    }
    if Distinct(all) {
      assert forall k :: 0 <= k < i ==> front[k] == all[k];
    }
  }

  /** The dictionary has the first `n` keys with their values. */
  ghost predicate Looks<V>(m: map<string, V>, keys: seq<string>, values: seq<V>, n: nat) {
    n <= |keys| == |values| && forall k :: 0 <= k < n ==> keys[k] in m && m[keys[k]] == values[k]
  }

  lemma {:induction false} LooksNext<V>(m: map<string, V>, keys: seq<string>, values: seq<V>, i: nat)
    requires i < |keys| && Looks(m, keys, values, i) && keys[i] !in Elements(keys[..i])
    ensures Looks(m[keys[i] := values[i]], keys, values, i + 1)
  {
    assert forall k :: 0 <= k < i ==> keys[..i][k] in Elements(keys[..i]);
  }

  /** A dictionary from keys to values; later entries win, and then the dictionary is too short. */
  method Index<V>(keys: seq<string>, values: seq<V>) returns (m: map<string, V>)
    requires |keys| == |values|
    ensures |m| == |keys| <==> Distinct(keys)
    ensures m.Keys == Elements(keys)
    ensures Distinct(keys) ==> Looks(m, keys, values, |keys|)
  {
    hide Built;
    m := map[];
    BuiltNone(keys, values);
    for i := 0 to |keys|
      invariant Built(m, keys, values, i)
    {
      BuiltNext(m, keys, values, i);
      m := m[keys[i] := values[i]];
    }
    BuiltAll(m, keys, values);
  }

  /** The dictionary after `i` insertions. */
  ghost predicate Built<V>(m: map<string, V>, keys: seq<string>, values: seq<V>, i: nat) {
    && i <= |keys| == |values| && m.Keys == Elements(keys[..i])
    && |m| <= i && (|m| == i <==> Distinct(keys[..i]))
    && (Distinct(keys[..i]) ==> Looks(m, keys, values, i))
  }

  lemma {:induction false} BuiltNone<V>(keys: seq<string>, values: seq<V>)
    requires |keys| == |values|
    ensures Built(map[], keys, values, 0)
  {
  }

  lemma {:induction false} BuiltNext<V>(m: map<string, V>, keys: seq<string>, values: seq<V>, i: nat)
    requires i < |keys| && Built(m, keys, values, i)
    ensures Built(m[keys[i] := values[i]], keys, values, i + 1)
  {
    hide Distinct, Elements, Looks;
    var m' := m[keys[i] := values[i]];
    ElementsNext(keys, i);
    if keys[i] in m {
      assert m'.Keys == m.Keys;
    } else {
      assert m'.Keys == m.Keys + {keys[i]};
      if Distinct(keys[..i]) { LooksNext(m, keys, values, i); }
    }
    assert |m'| == |m'.Keys| && |m| == |m.Keys|;
  }

  lemma {:induction false} BuiltAll<V>(m: map<string, V>, keys: seq<string>, values: seq<V>)
    requires Built(m, keys, values, |keys|)
    ensures (|m| == |keys| <==> Distinct(keys)) && m.Keys == Elements(keys) && (Distinct(keys) ==> Looks(m, keys, values, |keys|))
  {
    assert keys[..|keys|] == keys;
  }

  /** Lists without repetition that have the same elements are as long as each other. */
  lemma {:induction false} SameLength<T(!new)>(s: seq<T>, t: seq<T>)
    requires Distinct(s) && Distinct(t) && SameMembers(s, t)
    ensures |s| == |t|
  {
    Repetition(s);
    Repetition(t);
    var a, b := multiset(s), multiset(t);
    forall x: T ensures a[x] == b[x] {
      assert x in a <==> x in s;
      assert x in b <==> x in t;
    }
    assert a == b;
  }

  /** Lists with the same elements, one without repetition: they are permutations if equally long. */
  lemma {:induction false} SameBag<T(!new)>(s: seq<T>, t: seq<T>)
    requires Distinct(s) && SameMembers(s, t) && |s| == |t|
    ensures multiset(s) == multiset(t)
  {
    Repetition(s);
    var a, b := multiset(s), multiset(t);
    forall x | x in a ensures a[x] <= b[x] {
      assert x in s && x in t;
    }
    assert a <= b;
    assert b == a + (b - a);
    assert |b - a| == 0;
  }

  // ---------------------------------------------------------------------------------------------
  // The model extents.

  /** The extent has moved to the live range with its own identity; everything else is kept. */
  ghost predicate LandsOnId(live: seq<Allocation>, semantics: seq<SemanticRange>, e: Entry, e': Entry) {
    && Strip(e') == Strip(e) && Owned(live, e'.span)
    && exists r :: r in semantics && r.id == e.id && r.pointer == e'.span.ptr && r.size == e'.span.size
  }

  ghost predicate SemanticsMatch(model: seq<Entry>, ranges: seq<(int, int)>, semantics: seq<SemanticRange>) {
    && Distinct(Map(IdOf, model)) && Distinct(Map(LiveId, semantics))
    && SameMembers(Map(IdOf, model), Map(LiveId, semantics)) && SameMembers(Map(Place, semantics), ranges)
    && (forall e, r :: e in model && r in semantics && e.id == r.id ==> e.span.size == r.size)
  }

  lemma {:induction false} MapMember<T, U>(f: T -> U, s: seq<T>, y: U)
    ensures y in Map(f, s) <==> exists x :: x in s && f(x) == y
  {
    hide Map;
    if y in Map(f, s) {
      var i :| 0 <= i < |s| && Map(f, s)[i] == y;
      MapAt(f, s, i);
    }
    if x :| x in s && f(x) == y {
      var i :| 0 <= i < |s| && s[i] == x;
      MapAt(f, s, i);
    }
  }

  /** A distinct identity names one range. */
  lemma {:induction false} OneRange(semantics: seq<SemanticRange>, r: SemanticRange, q: SemanticRange)
    requires Distinct(Map(LiveId, semantics)) && r in semantics && q in semantics && r.id == q.id
    ensures r == q
  {
    hide Map;
    var i :| 0 <= i < |semantics| && semantics[i] == r;
    var j :| 0 <= j < |semantics| && semantics[j] == q;
    MapAt(LiveId, semantics, i);
    MapAt(LiveId, semantics, j);
    assert i == j;
  }

  lemma {:induction false} RangeHeld(live: seq<Allocation>, ranges: seq<(int, int)>, semantics: seq<SemanticRange>, r: SemanticRange)
    requires Housed(live, multiset(Map(AsRange, ranges))) && SameMembers(Map(Place, semantics), ranges) && r in semantics
    ensures r.size > 0 && exists a :: a in live && Holds(a, r)
  {
    hide Map;
    MapMember(Place, semantics, Place(r));
    MapMember(AsRange, ranges, AsRange(Place(r)));
    assert AsRange(Place(r)) in multiset(Map(AsRange, ranges));
    var a :| a in live && Holds(a, AsRange(Place(r)));
    assert Holds(a, r);
  }

  lemma {:induction false} IndexedRange(semantics: seq<SemanticRange>, current: map<string, SemanticRange>)
    requires current.Keys == Elements(Map(LiveId, semantics)) && Looks(current, Map(LiveId, semantics), semantics, |semantics|)
    ensures forall r :: r in semantics ==> r.id in current && current[r.id] == r
    ensures forall id :: id in current ==> current[id] in semantics && current[id].id == id
  {
    hide Map;
    forall r | r in semantics ensures r.id in current && current[r.id] == r {
      var i :| 0 <= i < |semantics| && semantics[i] == r;
      MapAt(LiveId, semantics, i);
    }
    forall id | id in current ensures current[id] in semantics && current[id].id == id {
      MapMember(LiveId, semantics, id);
    }
  }

  lemma {:induction false} ModelIds(model: seq<Entry>)
    ensures forall k :: 0 <= k < |model| ==> model[k].id in Elements(Map(IdOf, model))
  {
    hide Map;
    forall k | 0 <= k < |model| ensures model[k].id in Elements(Map(IdOf, model)) {
      MapAt(IdOf, model, k);
    }
  }

  lemma {:induction false} LandsHere(live: seq<Allocation>, semantics: seq<SemanticRange>, e: Entry, e': Entry, r: SemanticRange, a: Allocation)
    requires r in semantics && r.id == e.id && r.size == e.span.size > 0 && a in live && Holds(a, r)
    requires e' == e.(span := Span(r.pointer, r.size, a.pointer))
    ensures LandsOnId(live, semantics, e, e')
  {
    assert Inside(e'.span, a);
  }

  /** The loop that rebinds the model extents. */
  method MoveModel(model: seq<Entry>, live: seq<Allocation>, ranges: seq<(int, int)>, semantics: seq<SemanticRange>)
    returns (r: Result<seq<Entry>>)
    requires WellFormed(live) && Housed(live, multiset(Map(AsRange, ranges)))
    ensures r.Ok? <==> SemanticsMatch(model, ranges, semantics)
    ensures r.Ok? ==> |r.value| == |model| && forall i :: 0 <= i < |model| ==> LandsOnId(live, semantics, model[i], r.value[i])
  {
    hide Map, Distinct, Housed, WellFormed, LandsOnId, Elements, SameMembers, Looks;
    var captured := Index(Map(IdOf, model), model);
    var current := Index(Map(LiveId, semantics), semantics);
    ElementsSame(Map(IdOf, model), Map(LiveId, semantics));
    ElementsSame(Map(Place, semantics), ranges);
    if |captured| != |model| || |current| != |semantics| || captured.Keys != current.Keys
       || Elements(Map(Place, semantics)) != Elements(ranges) {
      return Err;
    }
    IndexedRange(semantics, current);
    ModelIds(model);
    var moved: seq<Entry> := [];
    for i := 0 to |model|
      invariant |moved| == i && forall k :: 0 <= k < i ==> LandsOnId(live, semantics, model[k], moved[k])
      invariant forall k :: 0 <= k < i ==> current[model[k].id].size == model[k].span.size
    {
      var range := current[model[i].id];
      if model[i].span.size != range.size {
        assert model[i] in model && range in semantics;
        return Err;
      }
      RangeHeld(live, ranges, semantics, range);
      var home := FindHome(live, range);
      var e := model[i].(span := Span(range.pointer, range.size, home.value.pointer));
      LandsHere(live, semantics, model[i], e, range, home.value);
      moved := moved + [e];
    }
    forall e, r | e in model && r in semantics && e.id == r.id ensures e.span.size == r.size {
      var k :| 0 <= k < |model| && model[k] == e;
      assert current[model[k].id] == r;
    }
    return Ok(moved);
  }

  // ---------------------------------------------------------------------------------------------
  // The relocated extents tile the live pool exactly if no two identities share a range.

  lemma {:induction false} SameOwner(live: seq<Allocation>, s: Span, t: Span)
    requires WellFormed(live) && Owned(live, s) && Owned(live, t) && s.ptr == t.ptr && s.size == t.size
    ensures s == t
  {
    var a :| a in live && Inside(s, a);
    var b :| b in live && Inside(t, b);
    var i :| 0 <= i < |live| && live[i] == a;
    var j :| 0 <= j < |live| && live[j] == b;
    assert i == j;
  }

  /** The cut of the live pool at the live ranges. */
  ghost predicate LiveCut(live: seq<Allocation>, ranges: seq<(int, int)>, cut: seq<ModelExtent>, gaps: seq<Span>) {
    && WellFormed(live) && Tiled(live, Bag(cut, gaps))
    && multiset(Ranges(cut)) == multiset(Map(AsRange, ranges))
  }

  lemma {:induction false} CutSpan(live: seq<Allocation>, ranges: seq<(int, int)>, cut: seq<ModelExtent>, gaps: seq<Span>, s: Span)
    requires LiveCut(live, ranges, cut, gaps) && Owned(live, s)
    ensures s in Spans(cut) <==> (s.ptr, s.size) in ranges
  {
    hide Map, Disjoint, Complete, WellFormed;
    var range := AsRange((s.ptr, s.size));
    MapMember(AsRange, ranges, range);
    assert range in multiset(Map(AsRange, ranges)) <==> range in Map(AsRange, ranges);
    assert (exists p :: p in ranges && AsRange(p) == range) <==> (s.ptr, s.size) in ranges;
    if s in Spans(cut) {
      var i :| 0 <= i < |cut| && cut[i].span == s;
      CutRange(ranges, cut, i);
    }
    if (s.ptr, s.size) in ranges {
      assert range in multiset(Ranges(cut));
      assert range in Ranges(cut);
      var i :| 0 <= i < |cut| && Ranges(cut)[i] == range;
      assert Spans(cut)[i] in multiset(Spans(cut));
      assert Owned(live, cut[i].span);
      SameOwner(live, s, cut[i].span);
    }
  }

  lemma {:induction false} CutRange(ranges: seq<(int, int)>, cut: seq<ModelExtent>, i: nat)
    requires multiset(Ranges(cut)) == multiset(Map(AsRange, ranges)) && i < |cut|
    ensures (cut[i].span.ptr, cut[i].span.size) in ranges
  {
    hide Map;
    assert Ranges(cut)[i] in multiset(Ranges(cut));
    assert Ranges(cut)[i] in Map(AsRange, ranges);
    MapMember(AsRange, ranges, Ranges(cut)[i]);
  }

  /** A live span is in a relocated model exactly if its range is one of the semantic places. */
  lemma {:induction false} MovedSpan(live: seq<Allocation>, model: seq<Entry>, moved: seq<Entry>, ranges: seq<(int, int)>,
                                     semantics: seq<SemanticRange>, s: Span)
    requires WellFormed(live) && SemanticsMatch(model, ranges, semantics) && Owned(live, s)
    requires |moved| == |model| && forall i :: 0 <= i < |model| ==> LandsOnId(live, semantics, model[i], moved[i])
    ensures s in Map(SpanOf, moved) <==> (s.ptr, s.size) in ranges
  {
    hide Map, WellFormed, Distinct, Owned;
    MapMember(Place, semantics, (s.ptr, s.size));
    if s in Map(SpanOf, moved) {
      var i :| 0 <= i < |moved| && Map(SpanOf, moved)[i] == s;
      MapAt(SpanOf, moved, i);
      assert LandsOnId(live, semantics, model[i], moved[i]);
      var r :| r in semantics && r.id == model[i].id && r.pointer == moved[i].span.ptr && r.size == moved[i].span.size;
      assert Place(r) == (s.ptr, s.size);
    }
    if (s.ptr, s.size) in ranges {
      var r :| r in semantics && Place(r) == (s.ptr, s.size);
      MapMember(LiveId, semantics, r.id);
      MapMember(IdOf, model, r.id);
      var e :| e in model && IdOf(e) == r.id;
      var i :| 0 <= i < |model| && model[i] == e;
      assert LandsOnId(live, semantics, model[i], moved[i]);
      var q :| q in semantics && q.id == model[i].id && q.pointer == moved[i].span.ptr && q.size == moved[i].span.size;
      OneRange(semantics, r, q);
      SameOwner(live, s, moved[i].span);
      MapAt(SpanOf, moved, i);
    }
  }

  lemma {:induction false} ModelSpans(live: seq<Allocation>, model: seq<Entry>, moved: seq<Entry>, ranges: seq<(int, int)>,
                                      semantics: seq<SemanticRange>, cut: seq<ModelExtent>, gaps: seq<Span>)
    requires LiveCut(live, ranges, cut, gaps) && SemanticsMatch(model, ranges, semantics)
    requires |moved| == |model| && forall i :: 0 <= i < |model| ==> LandsOnId(live, semantics, model[i], moved[i])
    ensures Distinct(Spans(cut)) && SameMembers(Spans(cut), Map(SpanOf, moved))
    ensures |cut| == |ranges| && |moved| == |semantics|
  {
    hide Map, WellFormed;
    CutDistinct(live, cut, gaps);
    forall s ensures s in Spans(cut) <==> s in Map(SpanOf, moved) {
      if s in Spans(cut) {
        assert s in multiset(Spans(cut)) && Owned(live, s);
        CutSpan(live, ranges, cut, gaps, s);
        MovedSpan(live, model, moved, ranges, semantics, s);
      }
      if s in Map(SpanOf, moved) {
        var i :| 0 <= i < |moved| && Map(SpanOf, moved)[i] == s;
        MapAt(SpanOf, moved, i);
        assert LandsOnId(live, semantics, model[i], moved[i]) && Owned(live, s);
        CutSpan(live, ranges, cut, gaps, s);
        MovedSpan(live, model, moved, ranges, semantics, s);
      }
    }
    assert |multiset(Ranges(cut))| == |multiset(Map(AsRange, ranges))|;
    SameLength(Map(IdOf, model), Map(LiveId, semantics));
  }

  lemma {:induction false} CutDistinct(live: seq<Allocation>, cut: seq<ModelExtent>, gaps: seq<Span>)
    requires Tiled(live, Bag(cut, gaps))
    ensures Distinct(Spans(cut))
  {
    forall s | s in multiset(Spans(cut)) ensures multiset(Spans(cut))[s] == 1 {
      assert s in Bag(cut, gaps);
    }
    Repetition(Spans(cut));
  }

  /** Pieces that hold exactly the bytes of the gaps can stand for the gaps. */
  ghost predicate Fill(gaps: seq<Span>, pieces: seq<Span>) {
    && (forall s :: s in pieces ==> ResidualSweep.Within(s, gaps) && s.size > 0)
    && Disjoint(multiset(pieces))
    && (forall o, x :: Covered(multiset(pieces), o, x) <==> ResidualSweep.HeldBy(gaps, o, x))
  }

  lemma {:induction false} TiledPieces(live: seq<Allocation>, model: seq<Span>, gaps: seq<Span>, pieces: seq<Span>)
    requires Tiled(live, multiset(model) + multiset(gaps)) && Fill(gaps, pieces)
    ensures Tiled(live, multiset(model) + multiset(pieces))
  {
    hide Disjoint, Complete, Covered, ResidualSweep.Within, ResidualSweep.HeldBy;
    ResidualSweep.PiecesOwned(live, model, gaps, pieces);
    ResidualSweep.PiecesDisjoint(model, gaps, pieces);
    ResidualSweep.PiecesComplete(live, model, gaps, pieces);
  }

  /**
    With ranges projected from the semantic layout the two lists are equally long, so the
    relocated extents tile the live pool. Given independently, the ranges may be fewer than the
    identities; then two identities share a range, and the relocated extents overlap.
   */
  lemma {:induction false} RelocatedTiles(live: seq<Allocation>, model: seq<Entry>, moved: seq<Entry>, ranges: seq<(int, int)>,
                                          semantics: seq<SemanticRange>, cut: seq<ModelExtent>, gaps: seq<Span>, pieces: seq<Span>)
    requires LiveCut(live, ranges, cut, gaps) && SemanticsMatch(model, ranges, semantics) && Fill(gaps, pieces)
    requires |moved| == |model| && forall i :: 0 <= i < |model| ==> LandsOnId(live, semantics, model[i], moved[i])
    ensures Tiled(live, multiset(Map(SpanOf, moved)) + multiset(pieces)) <==> |semantics| == |ranges|
  {
    hide Map, WellFormed, Fill, LandsOnId, SemanticsMatch, SameMembers, Distinct, Tiled;
    ModelSpans(live, model, moved, ranges, semantics, cut, gaps);
    var spans := Map(SpanOf, moved);
    if |semantics| == |ranges| {
      SameBag(Spans(cut), spans);
      TiledPieces(live, spans, gaps, pieces);
    }
    if Tiled(live, multiset(spans) + multiset(pieces)) {
      TiledDistinct(live, spans, pieces);
      MembersSwap(Spans(cut), spans);
      SameLength(spans, Spans(cut));
    }
  }

  lemma {:induction false} MembersSwap<T(!new)>(s: seq<T>, t: seq<T>)
    requires SameMembers(s, t)
    ensures SameMembers(t, s)
  {
  }

  lemma {:induction false} TiledDistinct(live: seq<Allocation>, spans: seq<Span>, pieces: seq<Span>)
    requires Tiled(live, multiset(spans) + multiset(pieces))
    ensures Distinct(spans)
  {
    forall s | s in multiset(spans) ensures multiset(spans)[s] == 1 {
      assert s in multiset(spans) + multiset(pieces);
    }
    Repetition(spans);
  }

  lemma {:induction false} FillSelf(live: seq<Allocation>, cut: seq<ModelExtent>, gaps: seq<Span>)
    requires Tiled(live, Bag(cut, gaps))
    ensures Fill(gaps, gaps) && AllSized(gaps) && (forall g :: g in gaps ==> Owned(live, g))
  {
    hide Complete, Disjoint, Covered, ResidualSweep.HeldBy, Owned;
    GapsDisjoint(multiset(Spans(cut)), multiset(gaps));
    forall g | g in gaps ensures Owned(live, g) && ResidualSweep.Within(g, gaps) && g.size > 0 {
      assert g in multiset(gaps) && g in Bag(cut, gaps);
      OwnedSized(live, g);
    }
    forall o, x ensures Covered(multiset(gaps), o, x) <==> ResidualSweep.HeldBy(gaps, o, x) {
      CoveredHeld(gaps, o, x);
    }
  }

  lemma {:induction false} OwnedSized(live: seq<Allocation>, g: Span)
    requires Owned(live, g)
    ensures g.size > 0
  {
  }

  lemma {:induction false} CoveredHeld(gaps: seq<Span>, o: int, x: int)
    ensures Covered(multiset(gaps), o, x) <==> ResidualSweep.HeldBy(gaps, o, x)
  {
  }

  lemma {:induction false} GapsDisjoint(model: multiset<Span>, gaps: multiset<Span>)
    requires Disjoint(model + gaps)
    ensures Disjoint(gaps)
  {
    forall s | s in gaps ensures gaps[s] == 1 && s in model + gaps {
      assert s in model + gaps;
    }
  }

  lemma {:induction false} FillStream(sources: seq<Entry>, gaps: seq<Span>, out: seq<Entry>)
    requires Restreamed(sources, gaps, out) && AllSized(Map(SpanOf, sources))
    ensures Fill(gaps, Map(SpanOf, out))
  {
    hide Map, Sort, Climbing, ResidualSweep.Within, ResidualSweep.HeldBy, Covered;
    var spans, sorted := Map(SpanOf, out), Map(SpanOf, Sort(ByPtr, out));
    MapBag(SpanOf, Sort(ByPtr, out), out);
    forall i | 0 <= i < |out| ensures spans[i].size > 0 {
      MapAt(SpanOf, out, i);
      MapAt(SpanOf, sources, i);
      assert Strip(out[i]) == Strip(sources[i]);
    }
    forall i | 0 <= i < |sorted| ensures sorted[i].size > 0 {
      assert sorted[i] in multiset(sorted);
      assert sorted[i] in spans;
    }
    ClimbingDisjoint(sorted);
  }

  lemma {:induction false} ClimbingDisjoint(spans: seq<Span>)
    requires Climbing(spans) && AllSized(spans)
    ensures Disjoint(multiset(spans))
  {
    assert Distinct(spans);
    Repetition(spans);
    forall s, t | s in multiset(spans) && t in multiset(spans) && s != t ensures Apart(s, t) {
      assert s in spans && t in spans;
      var i :| 0 <= i < |spans| && spans[i] == s;
      var j :| 0 <= j < |spans| && spans[j] == t;
      assert i < j || j < i;
    }
  }

  // ---------------------------------------------------------------------------------------------
  // The relocation as a whole.

  datatype Outcome = Unchanged | Rejected | Relocated(manifest: Manifest, snapshot: bool)

  function Sorted(allocations: seq<Allocation>): seq<Allocation> { Sort(ByAddress, allocations) }

  function SortedRanges(ranges: seq<(int, int)>): seq<SemanticRange> { Sort(ByPointer, Map(AsRange, ranges)) }

  /** The residual ranges of the live pool, in address order. */
  function LiveGaps(allocations: seq<Allocation>, ranges: seq<(int, int)>): seq<Span> {
    Gaps(Sorted(allocations), SortedRanges(ranges))
  }

  ghost predicate SourceValid(m: Manifest) {
    && m.model != [] && m.residual != [] && NonNegative(m.entries) && Keyed(m.entries)
    && Tiled(m.entries, multiset(Map(SpanOf, m.model)) + multiset(Map(SpanOf, m.residual)))
  }

  ghost predicate TargetValid(allocations: seq<Allocation>, ranges: seq<(int, int)>) {
    && allocations != [] && NonNegative(Sorted(allocations)) && WellFormed(Sorted(allocations))
    && LiveRanges(Sorted(allocations), SortedRanges(ranges)) && LiveGaps(allocations, ranges) != []
  }

  /** What a relocation needs: both sides valid, matching identities, and a stream that fits if its length does. */
  ghost predicate Acceptable(m: Manifest, allocations: seq<Allocation>, ranges: seq<(int, int)>, semantics: seq<SemanticRange>) {
    && SourceValid(m) && TargetValid(allocations, ranges) && SemanticsMatch(m.model, ranges, semantics)
    && (TotalSize(Map(SpanOf, m.residual)) == TotalSize(LiveGaps(allocations, ranges)) ==>
          Fits(Map(SpanOf, Sort(ByPtr, m.residual)), LiveGaps(allocations, ranges)))
  }

  /** A gap whose bytes are to be captured from the live pool. */
  function Fresh(g: Span): Entry { Entry(g, "", 0, 0) }

  /** The relocated manifest, piece by piece. */
  ghost predicate RelocatedTo(m: Manifest, allocations: seq<Allocation>, ranges: seq<(int, int)>, semantics: seq<SemanticRange>,
                              m': Manifest, snapshot: bool) {
    var gaps := LiveGaps(allocations, ranges);
    && m' == m.(entries := Sorted(allocations), model := m'.model, residual := m'.residual,
                allocationBytes := AllocationBytes(Sorted(allocations)), residualBytes := TotalSize(gaps))
    && |m'.model| == |m.model|
    && (forall i :: 0 <= i < |m.model| ==> LandsOnId(Sorted(allocations), semantics, m.model[i], m'.model[i]))
    && (snapshot <==> TotalSize(Map(SpanOf, m.residual)) != TotalSize(gaps))
    && (snapshot ==> Map(SpanOf, m'.residual) == gaps)
    && (!snapshot ==> Restreamed(m.residual, gaps, m'.residual))
  }

  /** Model and residual extents hold every byte of the allocations once. */
  ghost predicate ExtentsTile(m: Manifest) {
    Tiled(m.entries, multiset(Map(SpanOf, m.model)) + multiset(Map(SpanOf, m.residual)))
  }

  method Relocate(m: Manifest, allocations: seq<Allocation>, ranges: seq<(int, int)>, semantics: seq<SemanticRange>)
    returns (r: Outcome)
    ensures r.Unchanged? <==> Sorted(m.entries) == Sorted(allocations) || !m.portable
    ensures r.Relocated? <==> Sorted(m.entries) != Sorted(allocations) && m.portable && Acceptable(m, allocations, ranges, semantics)
    ensures r.Relocated? ==> RelocatedTo(m, allocations, ranges, semantics, r.manifest, r.snapshot)
    ensures r.Relocated? ==> (ExtentsTile(r.manifest) <==> |semantics| == |ranges|)
  {
    hide Map, Sort, Tiled, WellFormed, Keyed, NonNegative, LiveRanges, SemanticsMatch, Fits, Gaps, TotalSize, AllocationBytes,
      Restreamed, LandsOnId, SortedBy, Fill, Bag, AllSized, Climbing, InOrder, Housed;
    if Sorted(m.entries) == Sorted(allocations) || !m.portable {
      return Unchanged;
    }
    if m.model == [] || m.residual == [] {
      return Rejected;
    }
    var live, sorted := Sorted(allocations), SortedRanges(ranges);
    SortSorted(ByAddress, allocations);
    SortSorted(ByPointer, Map(AsRange, ranges));
    assert live == [] <==> allocations == [];
    var source := CheckSource(m);
    if !source {
      return Rejected;
    }
    var target := CheckLive(live);
    if !target {
      return Rejected;
    }
    var valid := CheckRanges(live, sorted);
    if !valid {
      return Rejected;
    }
    RangesReady(live, sorted);
    var cut, gaps := CutPool(live, sorted);
    if gaps == [] {
      return Rejected;
    }
    FillSelf(live, cut, gaps);
    RangesHoused(live, ranges, sorted);
    var moved := MoveModel(m.model, live, ranges, semantics);
    if moved.Err? {
      return Rejected;
    }
    SourceSized(m);
    var residual, snapshot := Map(Fresh, gaps), TotalSize(Map(SpanOf, m.residual)) != TotalSize(gaps);
    if !snapshot {
      var placed := PlaceStream(m.residual, gaps, live);
      if placed.Err? {
        return Rejected;
      }
      residual := placed.value;
      FillStream(m.residual, gaps, residual);
    } else {
      FreshSpans(gaps);
    }
    RelocatedTiles(live, m.model, moved.value, ranges, semantics, cut, gaps, Map(SpanOf, residual));
    r := Relocated(m.(entries := live, model := moved.value, residual := residual,
                      allocationBytes := AllocationBytes(live), residualBytes := TotalSize(gaps)), snapshot);
  }

  method CheckSource(m: Manifest) returns (ok: bool)
    requires m.model != [] && m.residual != []
    ensures ok <==> SourceValid(m)
  {
    hide Map, Tiled, Keyed, NonNegative;
    ok := CheckCaptured(m.entries);
    if ok {
      var spans := Map(SpanOf, m.model) + Map(SpanOf, m.residual);
      assert multiset(spans) == multiset(Map(SpanOf, m.model)) + multiset(Map(SpanOf, m.residual));
      ok := CheckCoverage(m.entries, spans);
    }
  }

  lemma {:induction false} RangesReady(live: seq<Allocation>, sorted: seq<SemanticRange>)
    requires LiveRanges(live, sorted)
    ensures InOrder(sorted) && Housed(live, multiset(sorted))
  {
  }

  lemma {:induction false} RangesHoused(live: seq<Allocation>, ranges: seq<(int, int)>, sorted: seq<SemanticRange>)
    requires sorted == SortedRanges(ranges) && Housed(live, multiset(sorted))
    ensures Housed(live, multiset(Map(AsRange, ranges))) && multiset(sorted) == multiset(Map(AsRange, ranges))
  {
  }

  lemma {:induction false} SourceSized(m: Manifest)
    requires SourceValid(m)
    ensures AllSized(Map(SpanOf, m.residual))
  {
    TiledPositive(m.entries, Map(SpanOf, m.model), Map(SpanOf, m.residual));
  }

  lemma {:induction false} FreshSpans(gaps: seq<Span>)
    ensures Map(SpanOf, Map(Fresh, gaps)) == gaps
  {
    forall i | 0 <= i < |gaps| ensures Map(SpanOf, Map(Fresh, gaps))[i] == gaps[i] {
      MapAt(Fresh, gaps, i);
      MapAt(SpanOf, Map(Fresh, gaps), i);
    }
  }

  /** Two identities on one live range are accepted, although the relocated extents then overlap. */
  lemma {:induction false} SharedRange()
    returns (m: Manifest, allocations: seq<Allocation>, ranges: seq<(int, int)>, semantics: seq<SemanticRange>)
    ensures Sorted(m.entries) != Sorted(allocations) && m.portable && Acceptable(m, allocations, ranges, semantics)
    ensures |semantics| != |ranges|
  {
    var first, second, rest := Span(0, 1, 0), Span(1, 1, 0), Span(2, 1, 0);
    var pool, area := Allocation(0, 3), Allocation(10, 3);
    m := Manifest([pool], [Entry(first, "a", 0, 0), Entry(second, "b", 4096, 1)], [Entry(rest, "", 0, 0)], true, true, true,
                  8192, 4096, 2, 1, 3);
    allocations, ranges := [area], [(10, 1)];
    semantics := [SemanticRange(10, 1, "a"), SemanticRange(10, 1, "b")];
    SharedSource(m, pool, first, second, rest);
    SharedTarget(area);
    SharedIds(m.model, semantics, ranges);
  }

  lemma {:induction false} MapTwo<T, U>(f: T -> U, s: seq<T>)
    requires |s| == 2
    ensures Map(f, s) == [f(s[0]), f(s[1])]
  {
    MapAt(f, s, 0);
    MapAt(f, s, 1);
  }

  lemma {:induction false} SharedIds(model: seq<Entry>, semantics: seq<SemanticRange>, ranges: seq<(int, int)>)
    requires |model| == 2 && model[0].id == "a" && model[1].id == "b" && model[0].span.size == 1 == model[1].span.size
    requires semantics == [SemanticRange(10, 1, "a"), SemanticRange(10, 1, "b")] && ranges == [(10, 1)]
    ensures SemanticsMatch(model, ranges, semantics)
  {
    hide Map;
    MapTwo(IdOf, model);
    MapTwo(LiveId, semantics);
    MapTwo(Place, semantics);
    assert "a"[0] != "b"[0];
  }

  lemma {:induction false} SharedSource(m: Manifest, pool: Allocation, first: Span, second: Span, rest: Span)
    requires pool == Allocation(0, 3) && first == Span(0, 1, 0) && second == Span(1, 1, 0) && rest == Span(2, 1, 0)
    requires m.entries == [pool] && |m.model| == 2 && |m.residual| == 1
    requires m.model[0].span == first && m.model[1].span == second && m.residual[0].span == rest
    ensures SourceValid(m) && TotalSize(Map(SpanOf, m.residual)) == 1 && Sorted(m.entries) == [pool]
  {
    hide Map, Sort;
    MapTwo(SpanOf, m.model);
    MapOne(SpanOf, m.residual[0]);
    SortOne(ByAddress, pool);
    assert m.residual == [m.residual[0]];
    var bag := multiset{first, second} + multiset{rest};
    assert pool in m.entries && Inside(first, pool) && Inside(second, pool) && Inside(rest, pool);
    assert multiset([first, second]) + multiset([rest]) == bag;
    forall x | 0 <= x < 3 ensures Covered(bag, 0, x) {
      assert first in bag && second in bag && rest in bag;
      assert first.Contains(x) || second.Contains(x) || rest.Contains(x);
    }
    assert Tiled(m.entries, bag);
    assert [rest][..0] == [] && TotalSize([]) == 0;
  }

  lemma {:induction false} SharedTarget(area: Allocation)
    requires area == Allocation(10, 3)
    ensures TargetValid([area], [(10, 1)]) && TotalSize(LiveGaps([area], [(10, 1)])) == 2 && Sorted([area]) == [area]
  {
    hide Gaps, Sort, Map, TotalSize;
    var range := SemanticRange(10, 1, "");
    MapOne(AsRange, (10, 1));
    SortOne(ByPointer, range);
    SortOne(ByAddress, area);
    OneGap(area, range);
    assert area in [area] && Holds(area, range);
  }

  lemma {:induction false} MapOne<T, U>(f: T -> U, x: T)
    ensures Map(f, [x]) == [f(x)]
  {
    MapAt(f, [x], 0);
  }

  lemma {:induction false} SortOne<T>(le: (T, T) -> bool, x: T)
    ensures Sort(le, [x]) == [x]
  {
    SortKeeps(le, [x]);
  }

  lemma {:induction false} OneGap(area: Allocation, range: SemanticRange)
    requires area == Allocation(10, 3) && range == SemanticRange(10, 1, "")
    ensures Gaps([area], [range]) == [Span(11, 2, 10)] && TotalSize(Gaps([area], [range])) == 2
  {
    hide GapsIn, Held;
    assert [area][..0] == [] && Gaps([], [range]) == [];
    HeldOne(area, range);
    GapOne(area, range);
    TotalOne(Span(11, 2, 10));
  }

  lemma {:induction false} HeldOne(a: Allocation, r: SemanticRange)
    requires Holds(a, r)
    ensures Held(a, [r]) == [r]
  {
    assert [r][..0] == [] && Held(a, []) == [];
  }

  lemma {:induction false} GapOne(area: Allocation, range: SemanticRange)
    requires area == Allocation(10, 3) && range == SemanticRange(10, 1, "")
    ensures GapsIn(area, [range]) == [Span(11, 2, 10)]
  {
    assert [range][..0] == [] && GapsBefore(area, []) == [];
  }

  lemma {:induction false} TotalOne(s: Span)
    ensures TotalSize([s]) == s.size
  {
    assert [s][..0] == [] && TotalSize([]) == 0;
  }

  // ---------------------------------------------------------------------------------------------
  // The loader accepts the relocated manifest.

  /** The residual file is used as before: the same slots, by the same entries. */
  lemma {:induction false} StreamFiles(sources: seq<Entry>, out: seq<Entry>)
    requires |out| == |sources| && forall i :: 0 <= i < |out| ==> Strip(out[i]) == Strip(sources[i])
    ensures Map(FileOf, out) == Map(FileOf, sources) && TotalSize(Map(SpanOf, out)) == TotalSize(Map(SpanOf, sources))
  {
    hide Map, TotalSize;
    forall i | 0 <= i < |out|
      ensures Map(FileOf, out)[i] == Map(FileOf, sources)[i] && Map(SpanOf, out)[i].size == Map(SpanOf, sources)[i].size
    {
      assert Strip(out[i]) == Strip(sources[i]);
      MapAt(FileOf, out, i);
      MapAt(FileOf, sources, i);
      MapAt(SpanOf, out, i);
      MapAt(SpanOf, sources, i);
    }
    SameTotal(Map(SpanOf, out), Map(SpanOf, sources));
  }

  lemma {:induction false} SameTotal(s: seq<Span>, t: seq<Span>)
    requires |s| == |t| && forall i :: 0 <= i < |s| ==> s[i].size == t[i].size
    ensures TotalSize(s) == TotalSize(t)
  {
    if s != [] { SameTotal(s[..|s| - 1], t[..|t| - 1]); }
  }

  lemma {:induction false} SamePacked(s: seq<Span>, t: seq<Span>)
    requires |s| == |t| && (forall i :: 0 <= i < |s| ==> s[i].size == t[i].size) && Pack.Positive(s)
    ensures Pack.Positive(t) && Pack.PackedBytes(s) == Pack.PackedBytes(t)
  {
    if s != [] { SamePacked(s[..|s| - 1], t[..|t| - 1]); }
  }

  /** The payload is used as before, too. */
  lemma {:induction false} StripSlotted(model: seq<Entry>, moved: seq<Entry>, fileBytes: int)
    requires |moved| == |model| && (forall i :: 0 <= i < |model| ==> Strip(moved[i]) == Strip(model[i]))
    requires Slotted(model, fileBytes) && SortedBy(ByKey, model)
    ensures Slotted(moved, fileBytes) && SortedBy(ByKey, moved)
    ensures TotalSize(Map(SpanOf, moved)) == TotalSize(Map(SpanOf, model))
  {
    hide Map, TotalSize, Pack.PackedBytes;
    var s, t := Map(SpanOf, model), Map(SpanOf, moved);
    forall i | 0 <= i < |model| ensures s[i].size == t[i].size {
      assert Strip(moved[i]) == Strip(model[i]);
      MapAt(SpanOf, model, i);
      MapAt(SpanOf, moved, i);
    }
    SamePacked(s, t);
    SameTotal(t, s);
    forall i | 0 <= i < |moved| ensures moved[i].offset == Pack.PackedBytes(t[..i]) {
      assert Strip(moved[i]) == Strip(model[i]);
      SamePacked(s[..i], t[..i]);
    }
    forall i, j | 0 <= i < j < |moved| ensures ByKey(moved[i], moved[j]) {
      assert Strip(moved[i]) == Strip(model[i]) && Strip(moved[j]) == Strip(model[j]) && ByKey(model[i], model[j]);
    }
  }

  /** A manifest that could be loaded before can be loaded after a relocation that kept its residual bytes. */
  lemma {:induction false} RelocatedLoads(m: Manifest, allocations: seq<Allocation>, ranges: seq<(int, int)>,
                                          semantics: seq<SemanticRange>, m': Manifest)
    requires Loadable(m) && RelocatedTo(m, allocations, ranges, semantics, m', false)
    requires TargetValid(allocations, ranges) && ExtentsTile(m')
    ensures Loadable(m')
  {
    WellFormedKeyed(Sorted(allocations));
    hide Map, Tiled, Sort, TotalSize, AllocationBytes, Gaps, SortedBy, Slotted, ResidualOk, LiveGaps;
    forall i | 0 <= i < |m.model| ensures Strip(m'.model[i]) == Strip(m.model[i]) {
      assert LandsOnId(Sorted(allocations), semantics, m.model[i], m'.model[i]);
    }
    StripSlotted(m.model, m'.model, m.modelFile);
    StreamFiles(m.residual, m'.residual);
  }

  // ---------------------------------------------------------------------------------------------
  // What a restore of the relocated manifest means.

  /** A restore puts, at the place of every extent, the file bytes that the extent names. */
  lemma {:induction false} RestorePlaces(entries: seq<Entry>, file: seq<Byte>, live: Memory, i: nat)
    requires RoundTrip.Movable(entries, file) && i < |entries| && Mapped(live, entries[i].span.ptr, entries[i].span.size)
    ensures Jobs.AllInFile(file, Map(RoundTrip.Move, entries))
    ensures var after := Jobs.CopyExtents(live, file, Map(RoundTrip.Move, entries));
      && Mapped(after, entries[i].span.ptr, entries[i].span.size)
      && entries[i].offset + entries[i].span.size <= |file|
      && Peek(after, entries[i].span.ptr, entries[i].span.size) == Slice(file, entries[i].offset, entries[i].span.size)
  {
    hide Map, Jobs.CopyExtents, DirectSplit.Hits;
    var moves, e := Map(RoundTrip.Move, entries), entries[i];
    RoundTrip.MovesDisjoint(entries, file);
    MapAt(RoundTrip.Move, entries, i);
    assert Jobs.InFile(file, moves[i].offset, moves[i].length);
    var after := Jobs.CopyExtents(live, file, moves);
    DirectSplit.CopyKeys(live, file, moves);
    var there, bytes := Peek(after, e.span.ptr, e.span.size), Slice(file, e.offset, e.span.size);
    forall k | 0 <= k < |there| ensures there[k] == bytes[k] {
      HitsSome(moves, i, e.offset + k, e.span.ptr + k);
      DirectSplit.CopyHit(live, file, moves, e.offset + k, e.span.ptr + k);
    }
  }

  lemma {:induction false} HitsSome(extents: seq<Jobs.Extent>, i: nat, x: int, a: int)
    requires i < |extents| && DirectSplit.Moves(extents[i], x, a)
    ensures DirectSplit.Hits(extents, x, a) > 0
  {
    if i < |extents| - 1 { HitsSome(extents[..|extents| - 1], i, x, a); }
  }

  lemma {:induction false} ModelApart(m: Manifest, i: nat, k: nat, a: int)
    requires WellFormed(m.entries) && Tiled(m.entries, multiset(Map(SpanOf, m.model)) + multiset(Map(SpanOf, m.residual)))
    requires i < |m.model| && k < |m.residual| && m.model[i].span.Contains(a)
    ensures !m.residual[k].span.Contains(a)
  {
    hide Map, WellFormed, Tiled;
    var all := Map(SpanOf, m.model) + Map(SpanOf, m.residual);
    assert multiset(all) + multiset{} == multiset(Map(SpanOf, m.model)) + multiset(Map(SpanOf, m.residual));
    TiledApart(m.entries, all, multiset{});
    MapAt(SpanOf, m.model, i);
    MapAt(SpanOf, m.residual, k);
    assert Apart(all[i], all[|m.model| + k]);
  }

  /** Copying the residual does not disturb the model extents. */
  lemma {:induction false} ResidualElsewhere(m: Manifest, payload: seq<Byte>, residual: seq<Byte>, live: Memory, a: int, i: nat)
    requires WellFormed(m.entries) && Loadable(m) && RoundTrip.Movable(m.model, payload) && RoundTrip.Movable(m.residual, residual)
    requires i < |m.model| && m.model[i].span.Contains(a) && a in live
    ensures Jobs.AllInFile(residual, Map(RoundTrip.Move, m.residual))
    ensures a in Jobs.CopyExtents(live, residual, Map(RoundTrip.Move, m.residual))
    ensures Jobs.CopyExtents(live, residual, Map(RoundTrip.Move, m.residual))[a] == live[a]
  {
    hide Map, Jobs.CopyExtents, DirectSplit.Hits, TotalSize, AllocationBytes, SortedBy, Slotted, ResidualOk;
    var moves := Map(RoundTrip.Move, m.residual);
    forall x ensures DirectSplit.Hits(moves, x, a) == 0 {
      if DirectSplit.Hits(moves, x, a) > 0 {
        var k := RoundTrip.HitBy(moves, x, a);
        MapAt(RoundTrip.Move, m.residual, k);
        ModelApart(m, i, k, a);
        assert false;
      }
    }
    DirectSplit.CopyMiss(live, residual, moves, a);
  }

  /** After both copies, every model extent holds its payload bytes. */
  lemma {:induction false} RestoredAt(m: Manifest, payload: seq<Byte>, residual: seq<Byte>, live: Memory, i: nat)
    requires WellFormed(m.entries) && Loadable(m) && RoundTrip.Movable(m.model, payload) && RoundTrip.Movable(m.residual, residual)
    requires i < |m.model| && m.model[i].span.size > 0 && Mapped(live, m.model[i].span.ptr, m.model[i].span.size)
    ensures m.model[i].offset >= 0 && m.model[i].offset + m.model[i].span.size <= |payload|
    ensures var after, e := RoundTrip.RestoredMemory(m, payload, residual, live), m.model[i];
      Mapped(after, e.span.ptr, e.span.size) && Peek(after, e.span.ptr, e.span.size) == Slice(payload, e.offset, e.span.size)
  {
    hide Map, Jobs.CopyExtents, Loadable, WellFormed, Jobs.AllInFile, SpansApart;
    var e := m.model[i];
    RestorePlaces(m.model, payload, live, i);
    var middle := Jobs.CopyExtents(live, payload, Map(RoundTrip.Move, m.model));
    var after := RoundTrip.RestoredMemory(m, payload, residual, live);
    forall a | e.span.ptr <= a < e.span.ptr + e.span.size ensures a in after && a in middle && after[a] == middle[a] {
      ResidualElsewhere(m, payload, residual, middle, a, i);
    }
    assert Peek(after, e.span.ptr, e.span.size) == Peek(middle, e.span.ptr, e.span.size);
  }

  /** The extent of an identity is at the live range of the identity. */
  lemma {:induction false} ExtentAtRange(live: seq<Allocation>, semantics: seq<SemanticRange>, e: Entry, e': Entry, r: SemanticRange)
    requires LandsOnId(live, semantics, e, e') && Distinct(Map(LiveId, semantics)) && r in semantics && r.id == e.id
    ensures e'.span.ptr == r.pointer && e'.span.size == r.size == e.span.size && e'.offset == e.offset
  {
    hide Map;
    var q :| q in semantics && q.id == e.id && q.pointer == e'.span.ptr && q.size == e'.span.size;
    OneRange(semantics, q, r);
    assert Strip(e').span.size == Strip(e).span.size && Strip(e').offset == Strip(e).offset;
  }

  /**
    Relocation preserves meaning: restoring the relocated manifest puts, at the live range of each
    identity, the payload bytes that the captured manifest names for the same identity.
   */
  lemma {:induction false} RelocationMeaning(m: Manifest, allocations: seq<Allocation>, ranges: seq<(int, int)>,
      semantics: seq<SemanticRange>, m': Manifest, payload: seq<Byte>, residual: seq<Byte>, live: Memory, i: nat, r: SemanticRange)
    requires Loadable(m) && RelocatedTo(m, allocations, ranges, semantics, m', false) && ExtentsTile(m')
    requires Acceptable(m, allocations, ranges, semantics)
    requires |payload| == m.modelFile && |residual| == m.residualFile
    requires i < |m.model| && r in semantics && r.id == m.model[i].id && r.size > 0 && Mapped(live, r.pointer, r.size)
    ensures RoundTrip.Movable(m'.model, payload) && RoundTrip.Movable(m'.residual, residual)
    ensures m.model[i].offset >= 0 && m.model[i].span.size == r.size && m.model[i].offset + r.size <= |payload|
    ensures var after := RoundTrip.RestoredMemory(m', payload, residual, live);
      Mapped(after, r.pointer, r.size) && Peek(after, r.pointer, r.size) == Slice(payload, m.model[i].offset, r.size)
  {
    hide Map, Sort, TotalSize, AllocationBytes, Gaps, SortedBy, Slotted, ResidualOk, Restreamed, Jobs.CopyExtents, WellFormed,
      RoundTrip.Movable, LiveRanges, Fits, LiveGaps, SourceValid, NonNegative, Owned, Tiled, Peek, Slice, Distinct, SameMembers;
    RelocatedLoads(m, allocations, ranges, semantics, m');
    RoundTrip.LoadableMoves(m', payload, residual);
    assert LandsOnId(Sorted(allocations), semantics, m.model[i], m'.model[i]);
    ExtentAtRange(Sorted(allocations), semantics, m.model[i], m'.model[i], r);
    RestoredAt(m', payload, residual, live, i);
  }
}
