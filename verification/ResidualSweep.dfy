/**
  The residual blob is shared by several providers, each of which sees its own residual spans.
  `ShareResidual` is the sweep of `_shared_residual_extents`: it cuts the union of the views at
  every boundary of every view, so that each view can refer to whole stored pieces.
 */
module ResidualSweep {
  import opened Bytes
  import Sorting
  import opened Tiling

  type View = seq<Span>

  predicate Positive(view: View) { forall s :: s in view ==> s.size > 0 }

  // ---------------------------------------------------------------------------------------------
  // Ascending lists without repetition: the sorted keys of a dictionary.

  predicate Ascending(s: seq<int>) { forall i, j :: 0 <= i < j < |s| ==> s[i] < s[j] }

  function AddKey(x: int, s: seq<int>): seq<int> {
    if s == [] || x < s[0] then [x] + s
    else if x == s[0] then s
    else [s[0]] + AddKey(x, s[1..])
  }

  lemma {:induction false} AddKeyAscending(x: int, s: seq<int>)
    requires Ascending(s)
    ensures Ascending(AddKey(x, s))
    ensures forall y :: y in AddKey(x, s) <==> y == x || y in s
  {
    if s != [] && s[0] < x {
      var rest := AddKey(x, s[1..]);
      AddKeyAscending(x, s[1..]);
      forall j | 0 <= j < |rest| ensures s[0] < rest[j] {
        assert rest[j] in rest;
        assert rest[j] == x || rest[j] in s[1..];
      }
      assert s == [s[0]] + s[1..];
    }
  }

  /** The allocations that occur in the views. */
  function Owners(spans: seq<Span>): seq<int> {
    if spans == [] then [] else AddKey(spans[|spans| - 1].owner, Owners(spans[..|spans| - 1]))
  }

  /** The addresses at which some span of `owner` starts or ends. */
  function Points(spans: seq<Span>, owner: int): seq<int> {
    if spans == [] then []
    else
      var last, front := spans[|spans| - 1], Points(spans[..|spans| - 1], owner);
      if last.owner == owner then AddKey(last.ptr, AddKey(last.End(), front)) else front
  }

  lemma {:induction false} OwnersKeys(spans: seq<Span>)
    ensures Ascending(Owners(spans))
    ensures forall s :: s in spans ==> s.owner in Owners(spans)
    ensures forall o :: o in Owners(spans) ==> exists s :: s in spans && s.owner == o
  {
    if spans != [] {
      var front, last := spans[..|spans| - 1], spans[|spans| - 1];
      OwnersKeys(front);
      AddKeyAscending(last.owner, Owners(front));
      assert forall s :: s in spans <==> s in front || s == last;
    }
  }

  lemma {:induction false} PointsKeys(spans: seq<Span>, owner: int)
    ensures Ascending(Points(spans, owner))
    ensures forall s :: s in spans && s.owner == owner ==> s.ptr in Points(spans, owner) && s.End() in Points(spans, owner)
  {
    if spans != [] {
      var front, last := spans[..|spans| - 1], spans[|spans| - 1];
      PointsKeys(front, owner);
      AddKeyAscending(last.End(), Points(front, owner));
      AddKeyAscending(last.ptr, AddKey(last.End(), Points(front, owner)));
      assert forall s :: s in spans <==> s in front || s == last;
    }
  }

  /** Some span of `owner` starts or ends at `x`. */
  ghost predicate Bound(spans: seq<Span>, owner: int, x: int) {
    exists s :: s in spans && s.owner == owner && (x == s.ptr || x == s.End())
  }

  lemma {:induction false} PointsBound(spans: seq<Span>, owner: int, x: int)
    requires x in Points(spans, owner)
    ensures Bound(spans, owner, x)
  {
    var front, last := spans[..|spans| - 1], spans[|spans| - 1];
    PointsKeys(front, owner);
    AddKeyAscending(last.End(), Points(front, owner));
    AddKeyAscending(last.ptr, AddKey(last.End(), Points(front, owner)));
    if x in Points(front, owner) {
      PointsBound(front, owner, x);
      assert forall s :: s in front ==> s in spans;
    } else {
      assert last in spans;
    }
  }

  function Flatten(views: seq<View>): (spans: seq<Span>) {
    if views == [] then [] else Flatten(views[..|views| - 1]) + views[|views| - 1]
  }

  lemma {:induction false} FlattenMembers(views: seq<View>)
    ensures forall v, s :: 0 <= v < |views| && s in views[v] ==> s in Flatten(views)
  {
    if views != [] {
      FlattenMembers(views[..|views| - 1]);
    }
  }

  lemma {:induction false} FlattenSource(views: seq<View>, s: Span) returns (v: nat)
    requires s in Flatten(views)
    ensures v < |views| && s in views[v]
  {
    var front := views[..|views| - 1];
    if s in Flatten(front) {
      v := FlattenSource(front, s);
    } else {
      v := |views| - 1;
    }
  }

  // ---------------------------------------------------------------------------------------------
  // The counter `active[v]` of the sweep.

  /** The start (the end) of `s`, at place `i` of its view, is among the changes applied so far:
      all changes before point `p`, and at `p` itself those of the first `q` spans. */
  predicate Started(s: Span, i: nat, p: int, q: nat) { s.ptr < p || (s.ptr == p && i < q) }

  predicate Ended(s: Span, i: nat, p: int, q: nat) { s.End() < p || (s.End() == p && i < q) }

  predicate IsOpen(view: View, owner: int, p: int, q: nat, i: nat)
    requires i < |view|
  {
    view[i].owner == owner && Started(view[i], i, p, q) && !Ended(view[i], i, p, q)
  }

  /** How many of the first `n` spans are open. */
  function Open(view: View, owner: int, p: int, q: nat, n: nat): nat
    requires n <= |view|
  {
    if n == 0 then 0
    else Open(view, owner, p, q, n - 1) + if IsOpen(view, owner, p, q, n - 1) then 1 else 0
  }

  function Change(s: Span, owner: int, p: int): int {
    if s.owner != owner then 0 else (if s.ptr == p then 1 else 0) - (if s.End() == p then 1 else 0)
  }

  lemma {:induction false} OpenStep(view: View, owner: int, p: int, q: nat, n: nat)
    requires Positive(view) && q < |view| && n <= |view|
    ensures Open(view, owner, p, q + 1, n) == Open(view, owner, p, q, n) + if q < n then Change(view[q], owner, p) else 0
  {
    if n > 0 {
      OpenStep(view, owner, p, q, n - 1);
      assert view[n - 1] in view;
    }
  }

  /** No span of the view starts or ends strictly between the two points. */
  predicate Quiet(view: View, owner: int, p: int, p': int) {
    forall s :: s in view && s.owner == owner ==>
      (s.ptr <= p || p' <= s.ptr) && (s.End() <= p || p' <= s.End())
  }

  lemma {:induction false} OpenQuiet(view: View, owner: int, p: int, p': int, n: nat)
    requires p < p' && Quiet(view, owner, p, p') && n <= |view|
    ensures Open(view, owner, p', 0, n) == Open(view, owner, p, |view|, n)
  {
    if n > 0 {
      OpenQuiet(view, owner, p, p', n - 1);
      assert view[n - 1] in view;
    }
  }

  /** Before the first point nothing is open. */
  lemma {:induction false} OpenBefore(view: View, owner: int, p: int, n: nat)
    requires Positive(view) && n <= |view|
    requires forall s :: s in view && s.owner == owner ==> p <= s.ptr
    ensures Open(view, owner, p, 0, n) == 0
  {
    if n > 0 {
      OpenBefore(view, owner, p, n - 1);
      assert view[n - 1] in view;
    }
  }

  lemma {:induction false} OpenSome(view: View, owner: int, p: int, q: nat, n: nat, i: nat)
    requires i < n <= |view| && IsOpen(view, owner, p, q, i)
    ensures Open(view, owner, p, q, n) >= 1
  {
    if i < n - 1 { OpenSome(view, owner, p, q, n - 1, i); }
  }

  lemma {:induction false} OpenTwo(view: View, owner: int, p: int, q: nat, n: nat, i: nat, j: nat)
    requires i < j < n <= |view| && IsOpen(view, owner, p, q, i) && IsOpen(view, owner, p, q, j)
    ensures Open(view, owner, p, q, n) >= 2
  {
    if j < n - 1 {
      OpenTwo(view, owner, p, q, n - 1, i, j);
    } else {
      OpenSome(view, owner, p, q, n - 1, i);
    }
  }

  lemma {:induction false} OpenOneWitness(view: View, owner: int, p: int, q: nat, n: nat) returns (i: nat)
    requires n <= |view| && Open(view, owner, p, q, n) >= 1
    ensures i < n && IsOpen(view, owner, p, q, i)
  {
    if IsOpen(view, owner, p, q, n - 1) {
      i := n - 1;
    } else {
      i := OpenOneWitness(view, owner, p, q, n - 1);
    }
  }

  lemma {:induction false} OpenTwoWitness(view: View, owner: int, p: int, q: nat, n: nat) returns (i: nat, j: nat)
    requires n <= |view| && Open(view, owner, p, q, n) >= 2
    ensures i < j < n && IsOpen(view, owner, p, q, i) && IsOpen(view, owner, p, q, j)
  {
    if IsOpen(view, owner, p, q, n - 1) {
      j := n - 1;
      i := OpenOneWitness(view, owner, p, q, n - 1);
    } else {
      i, j := OpenTwoWitness(view, owner, p, q, n - 1);
    }
  }

  // ---------------------------------------------------------------------------------------------
  // When the sweep raises.

  /**
    The spans of one allocation are disjoint, and none starts where a later-listed one ends. The
    second half is a quirk of the sweep: it applies the changes at a point in list order, so two
    adjacent spans are reported as overlapping when they are listed in descending order.
   */
  ghost predicate Sweepable(view: View) {
    forall i, j :: 0 <= i < j < |view| && view[i].owner == view[j].owner ==>
      Apart(view[i], view[j]) && view[i].ptr != view[j].End()
  }

  ghost predicate NeverTwo(view: View, owner: int, p: int) {
    forall q :: 0 <= q <= |view| ==> Open(view, owner, p, q, |view|) <= 1
  }

  lemma {:induction false} SweepableNeverTwo(view: View, owner: int, p: int)
    requires Positive(view) && Sweepable(view)
    ensures NeverTwo(view, owner, p)
  {
    forall q: nat | q <= |view| ensures Open(view, owner, p, q, |view|) <= 1 {
      if Open(view, owner, p, q, |view|) >= 2 {
        var i, j := OpenTwoWitness(view, owner, p, q, |view|);
        assert false;
      }
    }
  }

  /** A view that is not sweepable makes the counter reach two at one of its own points. */
  lemma {:induction false} NotSweepable(view: View, i: nat, j: nat)
    requires Positive(view) && i < j < |view| && view[i].owner == view[j].owner
    requires !Apart(view[i], view[j]) || view[i].ptr == view[j].End()
    ensures !NeverTwo(view, view[i].owner, view[i].ptr) || !NeverTwo(view, view[i].owner, view[j].ptr)
  {
    assert view[i] in view && view[j] in view;
    if view[i].ptr == view[j].End() {
      OpenTwo(view, view[i].owner, view[i].ptr, i + 1, |view|, i, j);
    } else {
      var p := if view[i].ptr < view[j].ptr then view[j].ptr else view[i].ptr;
      OpenTwo(view, view[i].owner, p, |view|, |view|, i, j);
    }
  }

  // ---------------------------------------------------------------------------------------------
  // What the sweep delivers.

  ghost predicate Within(piece: Span, view: View) {
    exists s :: s in view && s.owner == piece.owner && s.ptr <= piece.ptr && piece.End() <= s.End()
  }

  ghost predicate Outside(piece: Span, view: View) {
    forall s :: s in view && s.owner == piece.owner ==> Apart(s, piece)
  }

  ghost predicate Stored(stored: seq<Span>, owner: int, x: int) {
    exists i :: 0 <= i < |stored| && stored[i].owner == owner && stored[i].Contains(x)
  }

  /** `ref` lists, in file order, exactly the stored pieces that `view` is made of. */
  ghost predicate Refers(view: View, stored: seq<Span>, ref: seq<nat>) {
    && Ascending(ref)
    && (forall k :: 0 <= k < |ref| ==> ref[k] < |stored|)
    && (forall i :: 0 <= i < |stored| ==> if i in ref then Within(stored[i], view) else Outside(stored[i], view))
  }

  predicate PairwiseApart(stored: seq<Span>) {
    forall i, j :: 0 <= i < j < |stored| && stored[i].owner == stored[j].owner ==> Apart(stored[i], stored[j])
  }

  ghost predicate AllRefer(views: seq<View>, stored: seq<Span>, refs: seq<seq<nat>>) {
    |refs| == |views| && forall v :: 0 <= v < |views| ==> Refers(views[v], stored, refs[v])
  }

  ghost predicate Referenced(refs: seq<seq<nat>>, i: nat) { exists v :: 0 <= v < |refs| && i in refs[v] }

  ghost predicate NoneWasted(stored: seq<Span>, refs: seq<seq<nat>>) {
    forall i :: 0 <= i < |stored| ==> Referenced(refs, i)
  }

  /**
    The stored pieces are disjoint, every byte of every view is stored, nothing else is, and each
    view refers to whole pieces: a piece lies inside one span of the view or does not touch the
    view at all.
   */
  ghost predicate Shared(views: seq<View>, stored: seq<Span>, refs: seq<seq<nat>>) {
    && (forall i :: 0 <= i < |stored| ==> stored[i].size > 0)
    && PairwiseApart(stored)
    && AllRefer(views, stored, refs)
    && (forall v, s, x :: 0 <= v < |views| && s in views[v] && s.Contains(x) ==> Stored(stored, s.owner, x))
    && NoneWasted(stored, refs)
  }

  ghost predicate Edge(views: seq<View>, owner: int, x: int) { exists v :: 0 <= v < |views| && Bound(views[v], owner, x) }

  /** Pieces are cut only where a span of a view starts or ends. */
  ghost predicate CutAtEdges(views: seq<View>, stored: seq<Span>) {
    forall i :: 0 <= i < |stored| ==> Edge(views, stored[i].owner, stored[i].ptr) && Edge(views, stored[i].owner, stored[i].End())
  }

  predicate Before(a: Span, b: Span) { a.owner < b.owner || (a.owner == b.owner && a.End() <= b.ptr) }

  /** By allocation, and by address inside it. */
  predicate InOrder(stored: seq<Span>) { forall i, j :: 0 <= i < j < |stored| ==> Before(stored[i], stored[j]) }

  ghost predicate Neat(views: seq<View>, stored: seq<Span>) { CutAtEdges(views, stored) && InOrder(stored) }

  lemma {:induction false} NeatNext(views: seq<View>, stored: seq<Span>, done: set<int>, owner: int, p: int, p': int)
    requires Neat(views, stored) && Bounded(stored, done, owner, p) && p < p' && forall o :: o in done ==> o < owner
    requires Edge(views, owner, p) && Edge(views, owner, p')
    ensures Neat(views, stored + [Span(p, p' - p, owner)])
  {
  }

  lemma {:induction false} PointEdge(views: seq<View>, owner: int, k: nat)
    requires k < |Points(Flatten(views), owner)|
    ensures Edge(views, owner, Points(Flatten(views), owner)[k])
  {
    var spans := Flatten(views);
    var x := Points(spans, owner)[k];
    PointsBound(spans, owner, x);
    var s :| s in spans && s.owner == owner && (x == s.ptr || x == s.End());
    var v := FlattenSource(views, s);
    assert Bound(views[v], owner, x);
  }

  ghost predicate Bounded(stored: seq<Span>, done: set<int>, owner: int, p: int) {
    forall i :: 0 <= i < |stored| ==>
      stored[i].size > 0 && (stored[i].owner in done || (stored[i].owner == owner && stored[i].End() <= p))
  }

  ghost predicate Kept(views: seq<View>, stored: seq<Span>, done: set<int>, owner: int, p: int) {
    forall v, s, x ::
      0 <= v < |views| && s in views[v] && s.Contains(x) && (s.owner in done || (s.owner == owner && x < p))
      ==> Stored(stored, s.owner, x)
  }

  /** `Shared`, for the allocations in `done` and for `owner` below the address `p`. */
  ghost predicate Swept(views: seq<View>, stored: seq<Span>, refs: seq<seq<nat>>, done: set<int>, owner: int, p: int) {
    && Bounded(stored, done, owner, p)
    && PairwiseApart(stored)
    && AllRefer(views, stored, refs)
    && Kept(views, stored, done, owner, p)
    && NoneWasted(stored, refs)
  }

  predicate AllPositive(views: seq<View>) { forall v :: 0 <= v < |views| ==> Positive(views[v]) }

  ghost predicate AllQuiet(views: seq<View>, owner: int, p: int, p': int) {
    forall v :: 0 <= v < |views| ==> Quiet(views[v], owner, p, p')
  }

  /** The counters after all changes at `p`. */
  ghost predicate Settled(views: seq<View>, owner: int, p: int, active: seq<nat>) {
    |active| == |views| && forall v :: 0 <= v < |views| ==> active[v] == Open(views[v], owner, p, |views[v]|, |views[v]|)
  }

  /** A counter is positive exactly if the view holds the whole interval up to the next point. */
  lemma {:induction false} ActivePiece(view: View, owner: int, p: int, p': int)
    requires p < p' && Positive(view) && Quiet(view, owner, p, p')
    ensures var piece := Span(p, p' - p, owner);
      if Open(view, owner, p, |view|, |view|) > 0 then Within(piece, view) else Outside(piece, view)
  {
    var piece := Span(p, p' - p, owner);
    if Open(view, owner, p, |view|, |view|) > 0 {
      var i := OpenOneWitness(view, owner, p, |view|, |view|);
      assert view[i] in view;
    } else {
      forall s | s in view && s.owner == owner ensures Apart(s, piece) {
        var i :| 0 <= i < |view| && view[i] == s;
        if IsOpen(view, owner, p, |view|, i) {
          OpenSome(view, owner, p, |view|, |view|, i);
          assert false;
        }
      }
    }
  }

  function AddRef(refs: seq<seq<nat>>, active: seq<nat>, n: nat): (after: seq<seq<nat>>)
    requires |refs| == |active|
    ensures |after| == |refs|
    ensures forall v :: 0 <= v < |refs| ==> after[v] == refs[v] + if active[v] != 0 then [n] else []
  {
    seq(|refs|, v requires 0 <= v < |refs| => refs[v] + if active[v] != 0 then [n] else [])
  }

  lemma {:induction false} RefersNext(view: View, stored: seq<Span>, ref: seq<nat>, piece: Span, present: bool)
    requires Refers(view, stored, ref)
    requires if present then Within(piece, view) else Outside(piece, view)
    ensures Refers(view, stored + [piece], ref + if present then [|stored|] else [])
  {
    var next, ref' := stored + [piece], ref + if present then [|stored|] else [];
    assert forall k :: 0 <= k < |ref| ==> ref[k] in ref;
    forall i | 0 <= i < |next| ensures if i in ref' then Within(next[i], view) else Outside(next[i], view) {
      assert i in ref' <==> i in ref || (present && i == |stored|);
    }
  }

  lemma {:induction false} PieceKept(views: seq<View>, stored: seq<Span>, done: set<int>, owner: int, p: int, p': int)
    requires Kept(views, stored, done, owner, p) && p < p' && owner !in done
    ensures Kept(views, stored + [Span(p, p' - p, owner)], done, owner, p')
  {
    var next := stored + [Span(p, p' - p, owner)];
    forall v, s, x | 0 <= v < |views| && s in views[v] && s.Contains(x)
        && (s.owner in done || (s.owner == owner && x < p'))
      ensures Stored(next, s.owner, x)
    {
      if s.owner == owner && p <= x {
        assert next[|stored|].Contains(x);
      } else {
        assert Stored(stored, s.owner, x);
        var i :| 0 <= i < |stored| && stored[i].owner == s.owner && stored[i].Contains(x);
        assert next[i] == stored[i];
      }
    }
  }

  lemma {:induction false} PieceReferenced(stored: seq<Span>, refs: seq<seq<nat>>, active: seq<nat>, piece: Span)
    requires NoneWasted(stored, refs) && |active| == |refs|
    requires exists v :: 0 <= v < |active| && active[v] != 0
    ensures NoneWasted(stored + [piece], AddRef(refs, active, |stored|))
  {
    var refs' := AddRef(refs, active, |stored|);
    forall i | 0 <= i < |stored| + 1 ensures Referenced(refs', i) {
      if i < |stored| {
        assert Referenced(refs, i);
        var v :| 0 <= v < |refs| && i in refs[v];
        assert i in refs'[v];
      } else {
        var v :| 0 <= v < |active| && active[v] != 0;
        assert i in refs'[v];
      }
    }
  }

  lemma {:induction false} PieceApart(stored: seq<Span>, done: set<int>, owner: int, p: int, p': int)
    requires Bounded(stored, done, owner, p) && PairwiseApart(stored) && owner !in done && p < p'
    ensures PairwiseApart(stored + [Span(p, p' - p, owner)]) && Bounded(stored + [Span(p, p' - p, owner)], done, owner, p')
  {
  }

  lemma {:induction false} SweepPiece(views: seq<View>, stored: seq<Span>, refs: seq<seq<nat>>, done: set<int>, owner: int,
                   p: int, p': int, active: seq<nat>)
    requires Swept(views, stored, refs, done, owner, p) && owner !in done && p < p'
    requires AllPositive(views) && AllQuiet(views, owner, p, p') && Settled(views, owner, p, active)
    requires exists v :: 0 <= v < |active| && active[v] != 0
    ensures Swept(views, stored + [Span(p, p' - p, owner)], AddRef(refs, active, |stored|), done, owner, p')
  {
    hide Kept, NoneWasted, PairwiseApart, Bounded, Refers;
    var piece := Span(p, p' - p, owner);
    var next, refs' := stored + [piece], AddRef(refs, active, |stored|);
    forall v | 0 <= v < |views| ensures Refers(views[v], next, refs'[v]) {
      ActivePiece(views[v], owner, p, p');
      RefersNext(views[v], stored, refs[v], piece, active[v] != 0);
    }
    PieceKept(views, stored, done, owner, p, p');
    PieceReferenced(stored, refs, active, piece);
    PieceApart(stored, done, owner, p, p');
  }

  lemma {:induction false} SweepGap(views: seq<View>, stored: seq<Span>, refs: seq<seq<nat>>, done: set<int>, owner: int,
                 p: int, p': int, active: seq<nat>)
    requires Swept(views, stored, refs, done, owner, p) && owner !in done && p < p'
    requires AllPositive(views) && AllQuiet(views, owner, p, p') && Settled(views, owner, p, active)
    requires forall v :: 0 <= v < |active| ==> active[v] == 0
    ensures Swept(views, stored, refs, done, owner, p')
  {
    hide NoneWasted, PairwiseApart, Refers;
    forall v, s, x | 0 <= v < |views| && s in views[v] && s.Contains(x)
        && (s.owner in done || (s.owner == owner && x < p'))
      ensures Stored(stored, s.owner, x)
    {
      ActivePiece(views[v], owner, p, p');
      assert s.owner == owner ==> Apart(s, Span(p, p' - p, owner));
    }
  }

  /** The changes of one view at the point `p`. */
  method ApplyView(view: View, owner: int, p: int, before: nat) returns (ok: bool, count: nat)
    requires Positive(view) && before <= 1 && before == Open(view, owner, p, 0, |view|)
    ensures ok <==> NeverTwo(view, owner, p)
    ensures ok ==> count == Open(view, owner, p, |view|, |view|)
  {
    count := before;
    for q := 0 to |view|
      invariant count == Open(view, owner, p, q, |view|)
      invariant forall k :: 0 <= k <= q ==> Open(view, owner, p, k, |view|) <= 1
    {
      OpenStep(view, owner, p, q, |view|);
      assert view[q] in view;
      if view[q].owner == owner {
        if view[q].ptr == p {
          count := count + 1;
        } else if view[q].End() == p {
          count := count - 1;
        }
        if count > 1 {
          return false, count;
        }
      }
    }
    return true, count;
  }

  /** The changes of all views at the point `p`. */
  method ApplyPoint(views: seq<View>, owner: int, p: int, before: seq<nat>) returns (ok: bool, active: seq<nat>)
    requires AllPositive(views) && |before| == |views|
    requires forall v :: 0 <= v < |views| ==> before[v] <= 1 && before[v] == Open(views[v], owner, p, 0, |views[v]|)
    ensures ok <==> forall v :: 0 <= v < |views| ==> NeverTwo(views[v], owner, p)
    ensures ok ==> Settled(views, owner, p, active)
  {
    active := [];
    for v := 0 to |views|
      invariant |active| == v
      invariant forall w :: 0 <= w < v ==> NeverTwo(views[w], owner, p)
      invariant forall w :: 0 <= w < v ==> active[w] == Open(views[w], owner, p, |views[w]|, |views[w]|)
    {
      var ok', count := ApplyView(views[v], owner, p, before[v]);
      if !ok' {
        return false, active;
      }
      active := active + [count];
    }
    return true, active;
  }

  lemma {:induction false} QuietBetween(views: seq<View>, owner: int, k: nat)
    requires k + 1 < |Points(Flatten(views), owner)|
    ensures var points := Points(Flatten(views), owner); points[k] < points[k + 1] && AllQuiet(views, owner, points[k], points[k + 1])
  {
    var points := Points(Flatten(views), owner);
    PointsKeys(Flatten(views), owner);
    FlattenMembers(views);
    forall v, s | 0 <= v < |views| && s in views[v] && s.owner == owner
      ensures (s.ptr <= points[k] || points[k + 1] <= s.ptr) && (s.End() <= points[k] || points[k + 1] <= s.End())
    {
      assert s in Flatten(views);
      var i :| 0 <= i < |points| && points[i] == s.ptr;
      var j :| 0 <= j < |points| && points[j] == s.End();
      assert i < k || i == k || i == k + 1 || i > k + 1;
      assert j < k || j == k || j == k + 1 || j > k + 1;
    }
  }

  lemma {:induction false} OpenFirst(views: seq<View>, owner: int)
    requires AllPositive(views) && Points(Flatten(views), owner) != []
    ensures var p := Points(Flatten(views), owner)[0];
      forall v :: 0 <= v < |views| ==> Open(views[v], owner, p, 0, |views[v]|) == 0
  {
    var points := Points(Flatten(views), owner);
    PointsKeys(Flatten(views), owner);
    FlattenMembers(views);
    forall v | 0 <= v < |views| ensures Open(views[v], owner, points[0], 0, |views[v]|) == 0 {
      forall s | s in views[v] && s.owner == owner ensures points[0] <= s.ptr {
        assert s in Flatten(views);
        var i :| 0 <= i < |points| && points[i] == s.ptr;
        assert i == 0 || points[0] < points[i];
      }
      OpenBefore(views[v], owner, points[0], |views[v]|);
    }
  }

  lemma {:induction false} OpenNext(views: seq<View>, owner: int, p: int, p': int, active: seq<nat>)
    requires p < p' && AllQuiet(views, owner, p, p') && Settled(views, owner, p, active)
    ensures forall v :: 0 <= v < |views| ==> active[v] == Open(views[v], owner, p', 0, |views[v]|)
  {
    forall v | 0 <= v < |views| ensures active[v] == Open(views[v], owner, p', 0, |views[v]|) {
      OpenQuiet(views[v], owner, p, p', |views[v]|);
    }
  }

  /** No counter of `owner` leaves {0, 1} at any point. */
  ghost predicate Sound(views: seq<View>, owner: int) {
    forall k, v :: 0 <= k < |Points(Flatten(views), owner)| && 0 <= v < |views| ==>
      NeverTwo(views[v], owner, Points(Flatten(views), owner)[k])
  }

  /** `Shared`, for the allocations in `done`. */
  ghost predicate SweptDone(views: seq<View>, stored: seq<Span>, refs: seq<seq<nat>>, done: set<int>) {
    && (forall i :: 0 <= i < |stored| ==> stored[i].size > 0 && stored[i].owner in done)
    && PairwiseApart(stored)
    && AllRefer(views, stored, refs)
    && (forall v, s, x :: 0 <= v < |views| && s in views[v] && s.Contains(x) && s.owner in done ==> Stored(stored, s.owner, x))
    && NoneWasted(stored, refs)
  }

  lemma {:induction false} StartOwner(views: seq<View>, stored: seq<Span>, refs: seq<seq<nat>>, done: set<int>, owner: int)
    requires AllPositive(views) && SweptDone(views, stored, refs, done) && Points(Flatten(views), owner) != []
    ensures Swept(views, stored, refs, done, owner, Points(Flatten(views), owner)[0])
  {
    hide NoneWasted, PairwiseApart, AllRefer;
    var points := Points(Flatten(views), owner);
    PointsKeys(Flatten(views), owner);
    FlattenMembers(views);
    forall v, s | 0 <= v < |views| && s in views[v] && s.owner == owner ensures points[0] <= s.ptr {
      assert s in Flatten(views);
      var i :| 0 <= i < |points| && points[i] == s.ptr;
      assert i == 0 || points[0] < points[i];
    }
  }

  lemma {:induction false} FinishOwner(views: seq<View>, stored: seq<Span>, refs: seq<seq<nat>>, done: set<int>, owner: int, p: int)
    requires Swept(views, stored, refs, done, owner, p)
    requires Points(Flatten(views), owner) != [] && p == Points(Flatten(views), owner)[|Points(Flatten(views), owner)| - 1]
    ensures SweptDone(views, stored, refs, done + {owner})
  {
    hide NoneWasted, PairwiseApart, AllRefer;
    var points := Points(Flatten(views), owner);
    PointsKeys(Flatten(views), owner);
    FlattenMembers(views);
    forall v, s | 0 <= v < |views| && s in views[v] && s.owner == owner ensures s.End() <= p {
      assert s in Flatten(views);
      var j :| 0 <= j < |points| && points[j] == s.End();
      assert j == |points| - 1 || points[j] < points[|points| - 1];
    }
  }

  /** One step of the sweep: the interval that ends at `p'`, if any view holds it, becomes a piece. */
  method EmitPiece(ghost views: seq<View>, stored: seq<Span>, refs: seq<seq<nat>>, ghost done: set<int>, owner: int,
                   p: int, p': int, active: seq<nat>)
    returns (stored': seq<Span>, refs': seq<seq<nat>>)
    requires Swept(views, stored, refs, done, owner, p) && owner !in done && p < p'
    requires AllPositive(views) && AllQuiet(views, owner, p, p') && Settled(views, owner, p, active)
    requires Neat(views, stored) && (forall o :: o in done ==> o < owner) && Edge(views, owner, p) && Edge(views, owner, p')
    ensures Swept(views, stored', refs', done, owner, p') && Neat(views, stored')
  {
    hide Swept, AllPositive, AllQuiet, Settled, Neat, Edge;
    assert |active| == |refs| by { SettledLength(views, stored, refs, done, owner, p, active); }
    if exists v :: 0 <= v < |active| && active[v] != 0 {
      SweepPiece(views, stored, refs, done, owner, p, p', active);
      assert Bounded(stored, done, owner, p) by { SweptBounded(views, stored, refs, done, owner, p); }
      NeatNext(views, stored, done, owner, p, p');
      stored', refs' := stored + [Span(p, p' - p, owner)], AddRef(refs, active, |stored|);
    } else {
      SweepGap(views, stored, refs, done, owner, p, p', active);
      stored', refs' := stored, refs;
    }
  }

  lemma {:induction false} SweptBounded(views: seq<View>, stored: seq<Span>, refs: seq<seq<nat>>, done: set<int>, owner: int, p: int)
    requires Swept(views, stored, refs, done, owner, p)
    ensures Bounded(stored, done, owner, p)
  {
  }

  lemma {:induction false} SettledLength(views: seq<View>, stored: seq<Span>, refs: seq<seq<nat>>, done: set<int>, owner: int, p: int, active: seq<nat>)
    requires Swept(views, stored, refs, done, owner, p) && Settled(views, owner, p, active)
    ensures |active| == |refs| == |views|
  {
  }

  /** The sweep over the points of one allocation. */
  method SweepOwner(views: seq<View>, owner: int, stored0: seq<Span>, refs0: seq<seq<nat>>, ghost done: set<int>)
    returns (ok: bool, stored: seq<Span>, refs: seq<seq<nat>>)
    requires AllPositive(views) && SweptDone(views, stored0, refs0, done) && owner !in done
    requires Points(Flatten(views), owner) != [] && Neat(views, stored0) && forall o :: o in done ==> o < owner
    ensures ok <==> Sound(views, owner)
    ensures ok ==> SweptDone(views, stored, refs, done + {owner}) && Neat(views, stored)
  {
    hide Neat, Edge, Swept, SweptDone, AllPositive, AllQuiet, Sound, NeverTwo;
    var points := Points(Flatten(views), owner);
    stored, refs := stored0, refs0;
    StartOwner(views, stored, refs, done, owner);
    var active: seq<nat> := seq(|views|, _ => 0);
    var previous := points[0];
    OpenFirst(views, owner);
    ok, active := ApplyPoint(views, owner, points[0], active);
    if !ok {
      Unsound(views, owner, 0);
      return;
    }
    for k := 1 to |points|
      invariant previous == points[k - 1]
      invariant Settled(views, owner, previous, active)
      invariant Swept(views, stored, refs, done, owner, previous) && Neat(views, stored)
      invariant SoundTo(views, owner, k)
    {
      QuietBetween(views, owner, k - 1);
      PointEdge(views, owner, k - 1);
      PointEdge(views, owner, k);
      stored, refs := EmitPiece(views, stored, refs, done, owner, previous, points[k], active);
      OpenNext(views, owner, previous, points[k], active);
      CountersLow(views, owner, k - 1, active);
      ok, active := ApplyPoint(views, owner, points[k], active);
      if !ok {
        Unsound(views, owner, k);
        return;
      }
      SoundNext(views, owner, k);
      previous := points[k];
    }
    SoundAll(views, owner);
    FinishOwner(views, stored, refs, done, owner, previous);
    ok := true;
  }

  ghost predicate SoundTo(views: seq<View>, owner: int, n: nat) {
    && n <= |Points(Flatten(views), owner)|
    && forall k, v :: 0 <= k < n && 0 <= v < |views| ==> NeverTwo(views[v], owner, Points(Flatten(views), owner)[k])
  }

  lemma {:induction false} SoundNext(views: seq<View>, owner: int, k: nat)
    requires SoundTo(views, owner, k) && k < |Points(Flatten(views), owner)|
    requires forall v :: 0 <= v < |views| ==> NeverTwo(views[v], owner, Points(Flatten(views), owner)[k])
    ensures SoundTo(views, owner, k + 1)
  {
  }

  lemma {:induction false} SoundAll(views: seq<View>, owner: int)
    requires SoundTo(views, owner, |Points(Flatten(views), owner)|)
    ensures Sound(views, owner)
  {
  }

  lemma {:induction false} Unsound(views: seq<View>, owner: int, k: nat)
    requires k < |Points(Flatten(views), owner)|
    requires !(forall v :: 0 <= v < |views| ==> NeverTwo(views[v], owner, Points(Flatten(views), owner)[k]))
    ensures !Sound(views, owner)
  {
  }

  lemma {:induction false} CountersLow(views: seq<View>, owner: int, k: nat, active: seq<nat>)
    requires SoundTo(views, owner, k + 1) && Settled(views, owner, Points(Flatten(views), owner)[k], active)
    ensures |active| == |views| && forall v :: 0 <= v < |views| ==> active[v] <= 1
  {
    forall v | 0 <= v < |views| ensures active[v] <= 1 {
      assert NeverTwo(views[v], owner, Points(Flatten(views), owner)[k]);
    }
  }

  ghost predicate AllSound(views: seq<View>, owners: seq<int>) {
    forall k :: 0 <= k < |owners| ==> Sound(views, owners[k])
  }

  /** The sweep runs to its end exactly if every view is sweepable. */
  lemma {:induction false} SoundExact(views: seq<View>)
    requires AllPositive(views)
    ensures AllSound(views, Owners(Flatten(views))) <==> forall v :: 0 <= v < |views| ==> Sweepable(views[v])
  {
    var owners := Owners(Flatten(views));
    if forall v :: 0 <= v < |views| ==> Sweepable(views[v]) {
      forall k, j, v | 0 <= k < |owners| && 0 <= j < |Points(Flatten(views), owners[k])| && 0 <= v < |views|
        ensures NeverTwo(views[v], owners[k], Points(Flatten(views), owners[k])[j])
      {
        SweepableNeverTwo(views[v], owners[k], Points(Flatten(views), owners[k])[j]);
      }
    }
    if AllSound(views, owners) {
      forall v | 0 <= v < |views| ensures Sweepable(views[v]) {
        SoundSweepable(views, v);
      }
    }
  }

  lemma {:induction false} SoundSweepable(views: seq<View>, v: nat)
    requires AllPositive(views) && AllSound(views, Owners(Flatten(views))) && v < |views|
    ensures Sweepable(views[v])
  {
    hide NeverTwo, Points, Owners, Flatten;
    var view, spans := views[v], Flatten(views);
    FlattenMembers(views);
    OwnersKeys(spans);
    forall i: nat, j: nat | i < j < |view| && view[i].owner == view[j].owner
      ensures Apart(view[i], view[j]) && view[i].ptr != view[j].End()
    {
      var o, points := view[i].owner, Points(spans, view[i].owner);
      assert view[i] in spans && view[j] in spans;
      PointsKeys(spans, o);
      assert Sound(views, o) by {
        assert o in Owners(spans);
        var k :| 0 <= k < |Owners(spans)| && Owners(spans)[k] == o;
      }
      var m :| 0 <= m < |points| && points[m] == view[i].ptr;
      var n :| 0 <= n < |points| && points[n] == view[j].ptr;
      assert NeverTwo(view, o, points[m]) && NeverTwo(view, o, points[n]);
      if !Apart(view[i], view[j]) || view[i].ptr == view[j].End() {
        NotSweepable(view, i, j);
        assert false;
      }
    }
  }

  lemma {:induction false} FinishSweep(views: seq<View>, stored: seq<Span>, refs: seq<seq<nat>>, done: set<int>)
    requires SweptDone(views, stored, refs, done)
    requires forall o :: o in Owners(Flatten(views)) ==> o in done
    ensures Shared(views, stored, refs)
  {
    hide NoneWasted, PairwiseApart, AllRefer;
    OwnersKeys(Flatten(views));
    FlattenMembers(views);
    forall v, s | 0 <= v < |views| && s in views[v] ensures s.owner in done {
      assert s in Flatten(views);
    }
  }

  lemma {:induction false} StartSweep(views: seq<View>)
    ensures SweptDone(views, [], seq(|views|, _ => []), {})
  {
  }

  /**
    Succeeds exactly on sweepable views, with the pieces in file order and cut at the boundaries of
    the views and nowhere else. `SharedUnique` says that no other result is possible.
   */
  method ShareResidual(views: seq<View>) returns (r: Result<(seq<Span>, seq<seq<nat>>)>)
    requires AllPositive(views)
    ensures r.Ok? <==> forall v :: 0 <= v < |views| ==> Sweepable(views[v])
    ensures r.Ok? ==> Shared(views, r.value.0, r.value.1)
    ensures r.Ok? ==> CutAtEdges(views, r.value.0) && InOrder(r.value.0)
  {
    hide CutAtEdges, InOrder, SweptDone, Shared, Sweepable, Sound, AllPositive;
    var owners := Owners(Flatten(views));
    OwnersKeys(Flatten(views));
    SoundExact(views);
    StartSweep(views);
    NothingNeat(views);
    var stored: seq<Span>, refs: seq<seq<nat>> := [], seq(|views|, _ => []);
    ghost var done := {};
    for k := 0 to |owners|
      invariant done == set o | o in owners[..k]
      invariant SweptDone(views, stored, refs, done) && Neat(views, stored)
      invariant AllSound(views, owners[..k])
    {
      OwnerHasPoints(views, owners[k]);
      assert owners[k] !in owners[..k];
      var ok;
      ok, stored, refs := SweepOwner(views, owners[k], stored, refs, done);
      if !ok {
        return Err;
      }
      assert owners[..k + 1] == owners[..k] + [owners[k]];
      done := done + {owners[k]};
    }
    assert owners[..|owners|] == owners;
    FinishSweep(views, stored, refs, done);
    return Ok((stored, refs));
  }

  lemma {:induction false} NothingNeat(views: seq<View>)
    ensures Neat(views, [])
  {
  }

  // ---------------------------------------------------------------------------------------------
  // The result is determined.

  /** An edge of a view is never strictly inside a stored piece. */
  lemma {:induction false} EdgeOutside(views: seq<View>, stored: seq<Span>, refs: seq<seq<nat>>, i: nat, x: int)
    requires AllPositive(views) && (forall v :: 0 <= v < |views| ==> Sweepable(views[v]))
    requires Shared(views, stored, refs) && i < |stored| && Edge(views, stored[i].owner, x)
    ensures x <= stored[i].ptr || stored[i].End() <= x
  {
    hide PairwiseApart, NoneWasted;
    var v :| 0 <= v < |views| && Bound(views[v], stored[i].owner, x);
    var s :| s in views[v] && s.owner == stored[i].owner && (x == s.ptr || x == s.End());
    assert Refers(views[v], stored, refs[v]) && Sweepable(views[v]) && s.size > 0;
    if i in refs[v] {
      assert Within(stored[i], views[v]);
      var t :| t in views[v] && t.owner == stored[i].owner && t.ptr <= stored[i].ptr && stored[i].End() <= t.End();
      var a :| 0 <= a < |views[v]| && views[v][a] == s;
      var b :| 0 <= b < |views[v]| && views[v][b] == t;
      assert a < b || b < a || a == b;
    } else {
      assert Apart(s, stored[i]);
    }
  }

  /** A byte of a stored piece belongs to a view. */
  lemma {:induction false} PieceHeld(views: seq<View>, stored: seq<Span>, refs: seq<seq<nat>>, i: nat) returns (v: nat, s: Span)
    requires Shared(views, stored, refs) && i < |stored|
    ensures v < |views| && s in views[v] && s.owner == stored[i].owner && s.ptr <= stored[i].ptr && stored[i].End() <= s.End()
  {
    hide PairwiseApart;
    assert Referenced(refs, i);
    v :| 0 <= v < |refs| && i in refs[v];
    assert Refers(views[v], stored, refs[v]) && Within(stored[i], views[v]);
    s :| s in views[v] && s.owner == stored[i].owner && s.ptr <= stored[i].ptr && stored[i].End() <= s.End();
  }

  lemma {:induction false} SamePiece(views: seq<View>, a: seq<Span>, refsA: seq<seq<nat>>, b: seq<Span>, refsB: seq<seq<nat>>, i: nat)
    requires AllPositive(views) && (forall v :: 0 <= v < |views| ==> Sweepable(views[v]))
    requires Shared(views, a, refsA) && CutAtEdges(views, a) && Shared(views, b, refsB) && CutAtEdges(views, b) && i < |a|
    ensures a[i] in b
  {
    hide Shared, AllPositive, Sweepable, CutAtEdges;
    var j := HolderOf(views, a, refsA, b, refsB, i);
    EdgesOf(views, a, i);
    EdgesOf(views, b, j);
    EdgeOutside(views, b, refsB, j, a[i].ptr);
    EdgeOutside(views, b, refsB, j, a[i].End());
    EdgeOutside(views, a, refsA, i, b[j].End());
    assert b[j] == a[i];
  }

  lemma {:induction false} EdgesOf(views: seq<View>, stored: seq<Span>, i: nat)
    requires CutAtEdges(views, stored) && i < |stored|
    ensures Edge(views, stored[i].owner, stored[i].ptr) && Edge(views, stored[i].owner, stored[i].End())
  {
  }

  lemma {:induction false} HolderOf(views: seq<View>, a: seq<Span>, refsA: seq<seq<nat>>, b: seq<Span>, refsB: seq<seq<nat>>, i: nat) returns (j: nat)
    requires Shared(views, a, refsA) && Shared(views, b, refsB) && i < |a|
    ensures a[i].size > 0 && j < |b| && b[j].size > 0 && b[j].owner == a[i].owner && b[j].Contains(a[i].ptr)
  {
    hide PairwiseApart, AllRefer, NoneWasted;
    var v, s := PieceHeld(views, a, refsA, i);
    assert s.Contains(a[i].ptr) && Stored(b, s.owner, a[i].ptr);
    j :| 0 <= j < |b| && b[j].owner == s.owner && b[j].Contains(a[i].ptr);
  }

  ghost predicate Among(a: seq<Span>, b: seq<Span>) { forall i :: 0 <= i < |a| ==> a[i] in b }

  predicate Sized(stored: seq<Span>) { forall i :: 0 <= i < |stored| ==> stored[i].size > 0 }

  lemma {:induction false} FirstBelow(a: seq<Span>, b: seq<Span>)
    requires InOrder(b) && Among(a, b) && a != []
    ensures b != [] && (a[0] == b[0] || Before(b[0], a[0]))
  {
    assert a[0] in b;
    var j :| 0 <= j < |b| && b[j] == a[0];
    assert j > 0 ==> Before(b[0], b[j]);
  }

  lemma {:induction false} TailAmong(a: seq<Span>, b: seq<Span>)
    requires InOrder(a) && Sized(a) && Among(a, b) && a != [] && b != [] && a[0] == b[0]
    ensures Among(a[1..], b[1..])
  {
    forall i | 0 <= i < |a[1..]| ensures a[1..][i] in b[1..] {
      assert a[1..][i] == a[i + 1] && a[i + 1] in b && Before(a[0], a[i + 1]);
      var j :| 0 <= j < |b| && b[j] == a[i + 1];
      assert b[1..][j - 1] == b[j];
    }
  }

  lemma {:induction false} TailOrder(a: seq<Span>)
    requires InOrder(a) && Sized(a) && a != []
    ensures InOrder(a[1..]) && Sized(a[1..])
  {
  }

  lemma {:induction false} OrderDetermines(a: seq<Span>, b: seq<Span>)
    requires InOrder(a) && InOrder(b) && Sized(a) && Sized(b) && Among(a, b) && Among(b, a)
    ensures a == b
  {
    hide InOrder, Among;
    if a != [] { FirstBelow(a, b); }
    if b != [] { FirstBelow(b, a); }
    if a != [] && b != [] {
      TailAmong(a, b);
      TailAmong(b, a);
      TailOrder(a);
      TailOrder(b);
      OrderDetermines(a[1..], b[1..]);
      assert a == [a[0]] + a[1..] && b == [b[0]] + b[1..];
    }
  }

  lemma {:induction false} SamePieces(views: seq<View>, a: seq<Span>, refsA: seq<seq<nat>>, b: seq<Span>, refsB: seq<seq<nat>>)
    requires AllPositive(views) && (forall v :: 0 <= v < |views| ==> Sweepable(views[v]))
    requires Shared(views, a, refsA) && CutAtEdges(views, a) && InOrder(a)
    requires Shared(views, b, refsB) && CutAtEdges(views, b) && InOrder(b)
    ensures a == b
  {
    hide AllPositive, Sweepable, CutAtEdges, InOrder, PairwiseApart, AllRefer, NoneWasted;
    forall i | 0 <= i < |a| ensures a[i] in b { SamePiece(views, a, refsA, b, refsB, i); }
    forall i | 0 <= i < |b| ensures b[i] in a { SamePiece(views, b, refsB, a, refsA, i); }
    OrderDetermines(a, b);
  }

  lemma {:induction false} SameReferences(view: View, stored: seq<Span>, a: seq<nat>, b: seq<nat>)
    requires Refers(view, stored, a) && Refers(view, stored, b) && Sized(stored)
    ensures a == b
  {
    ReferencesAmong(view, stored, a, b);
    ReferencesAmong(view, stored, b, a);
    AscendingSame(a, b);
  }

  ghost predicate Listed(a: seq<nat>, b: seq<nat>) { forall k :: 0 <= k < |a| ==> a[k] in b }

  lemma {:induction false} ReferencesAmong(view: View, stored: seq<Span>, a: seq<nat>, b: seq<nat>)
    requires Refers(view, stored, a) && Refers(view, stored, b) && Sized(stored)
    ensures Listed(a, b)
  {
    forall k | 0 <= k < |a| ensures a[k] in b {
      assert a[k] in a && Within(stored[a[k]], view);
      assert !Outside(stored[a[k]], view);
    }
  }

  lemma {:induction false} LeastFirst(a: seq<nat>, b: seq<nat>)
    requires Ascending(b) && Listed(a, b) && a != []
    ensures b != [] && b[0] <= a[0]
  {
    assert a[0] in b;
    var j :| 0 <= j < |b| && b[j] == a[0];
    assert j > 0 ==> b[0] < b[j];
  }

  lemma {:induction false} TailListed(a: seq<nat>, b: seq<nat>)
    requires Ascending(a) && Listed(a, b) && a != [] && b != [] && a[0] == b[0]
    ensures Listed(a[1..], b[1..]) && Ascending(a[1..])
  {
    forall i | 0 <= i < |a[1..]| ensures a[1..][i] in b[1..] {
      assert a[1..][i] == a[i + 1] && a[i + 1] in b && a[0] < a[i + 1];
      var j :| 0 <= j < |b| && b[j] == a[i + 1];
      assert b[1..][j - 1] == b[j];
    }
  }

  lemma {:induction false} AscendingSame(a: seq<nat>, b: seq<nat>)
    requires Ascending(a) && Ascending(b) && Listed(a, b) && Listed(b, a)
    ensures a == b
  {
    hide Ascending, Listed;
    if a != [] { LeastFirst(a, b); }
    if b != [] { LeastFirst(b, a); }
    if a != [] && b != [] {
      TailListed(a, b);
      TailListed(b, a);
      AscendingSame(a[1..], b[1..]);
      assert a == [a[0]] + a[1..] && b == [b[0]] + b[1..];
    }
  }

  /** There is only one way to store views in order, cut at their edges: what the sweep delivers. */
  lemma {:induction false} SharedUnique(views: seq<View>, a: seq<Span>, refsA: seq<seq<nat>>, b: seq<Span>, refsB: seq<seq<nat>>)
    requires AllPositive(views) && (forall v :: 0 <= v < |views| ==> Sweepable(views[v]))
    requires Shared(views, a, refsA) && CutAtEdges(views, a) && InOrder(a)
    requires Shared(views, b, refsB) && CutAtEdges(views, b) && InOrder(b)
    ensures a == b && refsA == refsB
  {
    hide AllPositive, Sweepable, CutAtEdges, InOrder, PairwiseApart, NoneWasted;
    SamePieces(views, a, refsA, b, refsB);
    forall v | 0 <= v < |views| ensures refsA[v] == refsB[v] {
      SameReferences(views[v], a, refsA[v], refsB[v]);
    }
  }

  lemma {:induction false} OwnerHasPoints(views: seq<View>, owner: int)
    requires owner in Owners(Flatten(views))
    ensures Points(Flatten(views), owner) != []
  {
    OwnersKeys(Flatten(views));
    PointsKeys(Flatten(views), owner);
    var s :| s in Flatten(views) && s.owner == owner;
    assert s.ptr in Points(Flatten(views), owner);
  }

  // ---------------------------------------------------------------------------------------------
  // A view can be replaced by its references.

  /** The stored pieces that a reference list names. */
  function Pick(stored: seq<Span>, ref: seq<nat>): (pieces: seq<Span>)
    requires forall k :: 0 <= k < |ref| ==> ref[k] < |stored|
    ensures |pieces| == |ref| && forall k :: 0 <= k < |ref| ==> pieces[k] == stored[ref[k]]
  {
    seq(|ref|, k requires 0 <= k < |ref| => stored[ref[k]])
  }

  ghost predicate HeldBy(view: View, owner: int, x: int) {
    exists s :: s in view && s.owner == owner && s.Contains(x)
  }

  lemma {:induction false} PickDisjoint(stored: seq<Span>, ref: seq<nat>)
    requires PairwiseApart(stored) && (forall i :: 0 <= i < |stored| ==> stored[i].size > 0)
    requires Ascending(ref) && forall k :: 0 <= k < |ref| ==> ref[k] < |stored|
    ensures Disjoint(multiset(Pick(stored, ref)))
  {
    var pieces := Pick(stored, ref);
    forall k, l | 0 <= k < l < |pieces| ensures pieces[k] != pieces[l] && (pieces[k].owner == pieces[l].owner ==> Apart(pieces[k], pieces[l])) {
      assert ref[k] in ref && ref[l] in ref && ref[k] < ref[l];
    }
    Sorting.Repetition(pieces);
    forall s, t | s in multiset(pieces) && t in multiset(pieces) && s != t && s.owner == t.owner
      ensures Apart(s, t)
    {
      assert s in pieces && t in pieces;
      var k :| 0 <= k < |pieces| && pieces[k] == s;
      var l :| 0 <= l < |pieces| && pieces[l] == t;
      assert k < l || l < k;
    }
  }

  /** The references of a view cover exactly the bytes of the view. */
  lemma {:induction false} PickCovers(views: seq<View>, stored: seq<Span>, refs: seq<seq<nat>>, v: nat, owner: int, x: int)
    requires Shared(views, stored, refs) && v < |views|
    ensures Covered(multiset(Pick(stored, refs[v])), owner, x) <==> HeldBy(views[v], owner, x)
  {
    hide PairwiseApart, NoneWasted;
    var ref, pieces := refs[v], Pick(stored, refs[v]);
    assert Refers(views[v], stored, ref);
    if Covered(multiset(pieces), owner, x) {
      var s: Span :| s in multiset(pieces) && s.owner == owner && s.Contains(x);
      assert s in pieces;
      var k :| 0 <= k < |pieces| && pieces[k] == s;
      assert ref[k] in ref && Within(stored[ref[k]], views[v]);
    }
    if HeldBy(views[v], owner, x) {
      var s :| s in views[v] && s.owner == owner && s.Contains(x);
      assert Stored(stored, owner, x);
      var i :| 0 <= i < |stored| && stored[i].owner == owner && stored[i].Contains(x);
      assert i in ref;
      var k :| 0 <= k < |ref| && ref[k] == i;
      assert pieces[k] in pieces && pieces[k] in multiset(pieces);
    }
  }

  /** Replacing the residual spans of a tiling by the shared pieces they refer to keeps the tiling. */
  lemma {:induction false} TiledByReferences(allocations: seq<Allocation>, model: seq<Span>, views: seq<View>,
                          stored: seq<Span>, refs: seq<seq<nat>>, v: nat)
    requires Shared(views, stored, refs) && v < |views|
    requires Tiled(allocations, multiset(model) + multiset(views[v]))
    ensures Tiled(allocations, multiset(model) + multiset(Pick(stored, refs[v])))
  {
    hide PairwiseApart, NoneWasted, Disjoint, Complete;
    var ref, pieces, view := refs[v], Pick(stored, refs[v]), views[v];
    assert Refers(view, stored, ref);
    forall s | s in pieces ensures Within(s, view) && s.size > 0 {
      var k :| 0 <= k < |pieces| && pieces[k] == s;
      assert ref[k] in ref;
    }
    PiecesOwned(allocations, model, view, pieces);
    PickDisjoint(stored, ref);
    PiecesDisjoint(model, view, pieces);
    forall o, x ensures Covered(multiset(pieces), o, x) <==> HeldBy(view, o, x) {
      PickCovers(views, stored, refs, v, o, x);
    }
    PiecesComplete(allocations, model, view, pieces);
  }

  lemma {:induction false} PiecesOwned(allocations: seq<Allocation>, model: seq<Span>, view: View, pieces: seq<Span>)
    requires forall s :: s in multiset(model) + multiset(view) ==> Owned(allocations, s)
    requires forall s :: s in pieces ==> Within(s, view) && s.size > 0
    ensures forall s :: s in multiset(model) + multiset(pieces) ==> Owned(allocations, s)
  {
    forall s | s in multiset(model) + multiset(pieces) ensures Owned(allocations, s) {
      if s in multiset(model) {
        assert s in multiset(model) + multiset(view);
      } else {
        assert s in pieces;
        var t :| t in view && t.owner == s.owner && t.ptr <= s.ptr && s.End() <= t.End();
        assert t in multiset(model) + multiset(view);
        var a :| a in allocations && Inside(t, a);
        assert Inside(s, a);
      }
    }
  }

  lemma {:induction false} PiecesDisjoint(model: seq<Span>, view: View, pieces: seq<Span>)
    requires Disjoint(multiset(model) + multiset(view)) && Disjoint(multiset(pieces))
    requires forall s :: s in pieces ==> Within(s, view) && s.size > 0
    ensures Disjoint(multiset(model) + multiset(pieces))
  {
    var before, after := multiset(model) + multiset(view), multiset(model) + multiset(pieces);
    forall s, t | s in multiset(model) && t in multiset(pieces) && s.owner == t.owner
      ensures Apart(s, t) && s != t
    {
      assert t in pieces;
      var u :| u in view && u.owner == t.owner && u.ptr <= t.ptr && t.End() <= u.End();
      assert u in before && s in before && before[s] == 1 && before[u] == 1;
      assert u != s;
    }
    forall s | s in after ensures after[s] == 1 {
      if s in multiset(model) { assert s in before && before[s] == 1; }
      assert s in multiset(model) ==> s !in multiset(pieces);
    }
    forall s, t | s in after && t in after && s != t && s.owner == t.owner ensures Apart(s, t) {
      if s in multiset(model) && t in multiset(model) { assert s in before && t in before; }
    }
  }

  lemma {:induction false} PiecesComplete(allocations: seq<Allocation>, model: seq<Span>, view: View, pieces: seq<Span>)
    requires Complete(allocations, multiset(model) + multiset(view))
    requires forall o, x :: Covered(multiset(pieces), o, x) <==> HeldBy(view, o, x)
    ensures Complete(allocations, multiset(model) + multiset(pieces))
  {
    var before, after := multiset(model) + multiset(view), multiset(model) + multiset(pieces);
    forall a, x | a in allocations && a.pointer <= x < a.End() ensures Covered(after, a.pointer, x) {
      assert Covered(before, a.pointer, x);
      var s :| s in before && s.owner == a.pointer && s.Contains(x);
      if s in multiset(model) {
        assert s in after;
      } else {
        assert s in view && HeldBy(view, a.pointer, x);
        assert Covered(multiset(pieces), a.pointer, x);
        var t :| t in multiset(pieces) && t.owner == a.pointer && t.Contains(x);
        assert t in after;
      }
    }
  }
}
