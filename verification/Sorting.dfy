/** Stable sorting, as Python's `sorted(key=...)` and `list.sort(key=...)`. */
module Sorting {

  ghost predicate TotalPreorder<T(!new)>(le: (T, T) -> bool) {
    && (forall x, y :: le(x, y) || le(y, x))
    && (forall x, y, z :: le(x, y) && le(y, z) ==> le(x, z))
  }

  predicate SortedBy<T>(le: (T, T) -> bool, s: seq<T>) {
    forall i, j :: 0 <= i < j < |s| ==> le(s[i], s[j])
  }

  /** `x` goes before the first element it does not exceed. */
  function Insert<T>(le: (T, T) -> bool, x: T, s: seq<T>): (r: seq<T>)
    ensures multiset(r) == multiset{x} + multiset(s)
  {
    if s == [] then [x]
    else if le(x, s[0]) then [x] + s
    else
      assert s == [s[0]] + s[1..];
      [s[0]] + Insert(le, x, s[1..])
  }

  function Sort<T>(le: (T, T) -> bool, s: seq<T>): (r: seq<T>)
    ensures multiset(r) == multiset(s)
    ensures |r| == |s|
  {
    if s == [] then []
    else
      assert s == [s[0]] + s[1..];
      var r := Insert(le, s[0], Sort(le, s[1..]));
      assert |multiset(r)| == |multiset(s)|;
      r
  }

  lemma {:induction false} InMultiset<T>(s: seq<T>, t: seq<T>)
    requires multiset(s) == multiset(t)
    ensures forall x :: x in s <==> x in t
  {
    assert forall x :: x in s <==> x in multiset(s);
    assert forall x :: x in t <==> x in multiset(t);
  }

  lemma {:induction false} InsertSorted<T(!new)>(le: (T, T) -> bool, x: T, s: seq<T>)
    requires TotalPreorder(le) && SortedBy(le, s)
    ensures SortedBy(le, Insert(le, x, s))
  {
    if s != [] && !le(x, s[0]) {
      var rest := Insert(le, x, s[1..]);
      InsertSorted(le, x, s[1..]);
      forall j | 0 <= j < |rest|
        ensures le(s[0], rest[j])
      {
        assert rest[j] in multiset(rest);
        assert rest[j] == x || rest[j] in s[1..];
      }
    }
  }

  lemma {:induction false} SortSorted<T(!new)>(le: (T, T) -> bool, s: seq<T>)
    requires TotalPreorder(le)
    ensures SortedBy(le, Sort(le, s))
  {
    if s != [] {
      SortSorted(le, s[1..]);
      InsertSorted(le, s[0], Sort(le, s[1..]));
    }
  }

  /** A permutation that is sorted by an order with no ties is unique. */
  lemma {:induction false} SortedUnique<T(!new)>(le: (T, T) -> bool, s: seq<T>, t: seq<T>)
    requires multiset(s) == multiset(t)
    requires SortedBy(le, s) && SortedBy(le, t)
    requires forall x, y :: x in s && y in s && le(x, y) && le(y, x) ==> x == y
    ensures s == t
  {
    InMultiset(s, t);
    assert |multiset(s)| == |multiset(t)|;
    if s != [] {
      assert s[0] in t && t[0] in s;
      var i :| 0 <= i < |t| && t[i] == s[0];
      var j :| 0 <= j < |s| && s[j] == t[0];
      assert s[0] == t[0] by {
        assert i == 0 || le(t[0], s[0]);
        assert j == 0 || le(s[0], t[0]);
      }
      TailMultiset(s);
      TailMultiset(t);
      assert forall x :: x in s[1..] ==> x in s;
      SortedUnique(le, s[1..], t[1..]);
    }
  }

  lemma {:induction false} TailMultiset<T>(s: seq<T>)
    requires s != []
    ensures multiset(s[1..]) == multiset(s) - multiset{s[0]}
  {
    assert s == [s[0]] + s[1..];
  }

  /** A list repeats an element exactly if its bag does. */
  lemma {:induction false} Repetition<T>(g: seq<T>)
    ensures (forall s :: s in multiset(g) ==> multiset(g)[s] == 1)
       <==> (forall i, j :: 0 <= i < j < |g| ==> g[i] != g[j])
  {
    if g != [] {
      var front, last := g[..|g| - 1], g[|g| - 1];
      assert g == front + [last];
      Repetition(front);
      if forall s :: s in multiset(g) ==> multiset(g)[s] == 1 {
        assert multiset(g)[last] == 1 && last !in multiset(front) && last !in front;
        forall s | s in multiset(front)
          ensures multiset(front)[s] == 1
        {
          assert s in multiset(g);
        }
      }
      if forall i, j :: 0 <= i < j < |g| ==> g[i] != g[j] {
        assert forall i :: 0 <= i < |front| ==> front[i] != last;
        assert last !in front && last !in multiset(front);
      }
    }
  }

  /** `[f(x) for x in s]`. */
  function Map<T, U>(f: T -> U, s: seq<T>): (r: seq<U>)
    ensures |r| == |s|
  {
    if s == [] then [] else [f(s[0])] + Map(f, s[1..])
  }

  lemma {:induction false} MapAt<T, U>(f: T -> U, s: seq<T>, i: nat)
    requires i < |s|
    ensures Map(f, s)[i] == f(s[i])
  {
    if i > 0 { MapAt(f, s[1..], i - 1); }
  }

  /** `le` compares the elements as `to` compares their images. */
  ghost predicate Agree<T, U>(f: T -> U, le: (T, T) -> bool, to: (U, U) -> bool, s: seq<T>) {
    forall i, j :: 0 <= i < |s| && 0 <= j < |s| ==> le(s[i], s[j]) == to(f(s[i]), f(s[j]))
  }

  lemma {:induction false} InsertMap<T, U>(f: T -> U, le: (T, T) -> bool, to: (U, U) -> bool, x: T, s: seq<T>)
    requires forall i :: 0 <= i < |s| ==> le(x, s[i]) == to(f(x), f(s[i]))
    ensures Map(f, Insert(le, x, s)) == Insert(to, f(x), Map(f, s))
  {
    if s != [] {
      assert le(x, s[0]) == to(f(x), f(s[0]));
      if le(x, s[0]) {
        assert ([x] + s)[1..] == s;
      } else {
        InsertMap(f, le, to, x, s[1..]);
        assert ([s[0]] + Insert(le, x, s[1..]))[1..] == Insert(le, x, s[1..]);
        assert Map(f, s)[1..] == Map(f, s[1..]);
      }
    }
  }

  /** Sorting and then taking images is taking images and then sorting. */
  lemma {:induction false} SortMap<T, U>(f: T -> U, le: (T, T) -> bool, to: (U, U) -> bool, s: seq<T>)
    requires Agree(f, le, to, s)
    ensures Map(f, Sort(le, s)) == Sort(to, Map(f, s))
  {
    hide Insert;
    if s != [] {
      var rest := s[1..];
      assert Agree(f, le, to, rest);
      SortMap(f, le, to, rest);
      var sorted := Sort(le, rest);
      forall i | 0 <= i < |sorted| ensures le(s[0], sorted[i]) == to(f(s[0]), f(sorted[i])) {
        assert sorted[i] in multiset(sorted);
        assert sorted[i] in multiset(rest);
        AgreeAt(f, le, to, s, sorted[i]);
      }
      InsertMap(f, le, to, s[0], sorted);
      assert Map(f, s)[1..] == Map(f, rest);
    }
  }

  lemma {:induction false} AgreeAt<T, U>(f: T -> U, le: (T, T) -> bool, to: (U, U) -> bool, s: seq<T>, x: T)
    requires s != [] && Agree(f, le, to, s) && x in multiset(s[1..])
    ensures le(s[0], x) == to(f(s[0]), f(x))
  {
    assert x in s[1..];
    var k :| 0 <= k < |s[1..]| && s[1..][k] == x;
    assert s[k + 1] == x;
  }

  lemma {:induction false} SortHead<T>(le: (T, T) -> bool, s: seq<T>)
    requires s != [] && Sort(le, s[1..]) == s[1..] && (|s| > 1 ==> le(s[0], s[1]))
    ensures Sort(le, s) == s
  {
    assert s == [s[0]] + s[1..];
  }

  lemma {:induction false} SortKeeps<T>(le: (T, T) -> bool, s: seq<T>)
    requires SortedBy(le, s)
    ensures Sort(le, s) == s
  {
    hide Sort;
    if s != [] {
      SortKeeps(le, s[1..]);
      SortHead(le, s);
    } else {
      assert |Sort(le, s)| == 0;
    }
  }

  /** A list equals its sorted form exactly if it is sorted. */
  lemma {:induction false} SortFixed<T(!new)>(le: (T, T) -> bool, s: seq<T>)
    requires TotalPreorder(le)
    ensures Sort(le, s) == s <==> SortedBy(le, s)
  {
    hide Sort, TotalPreorder;
    SortSorted(le, s);
    if SortedBy(le, s) { SortKeeps(le, s); }
  }

  lemma {:induction false} MapBag<T, U>(f: T -> U, s: seq<T>, t: seq<T>)
    requires multiset(s) == multiset(t)
    ensures multiset(Map(f, s)) == multiset(Map(f, t))
  {
    hide Map;
    assert |multiset(s)| == |multiset(t)|;
    if s != [] {
      assert s[0] in multiset(s);
      assert s[0] in t;
      var k :| 0 <= k < |t| && t[k] == s[0];
      var rest := t[..k] + t[k + 1..];
      assert t == t[..k] + ([t[k]] + t[k + 1..]);
      TailMultiset(s);
      assert multiset(rest) == multiset(t) - multiset{t[k]};
      MapBag(f, s[1..], rest);
      MapConcat(f, t[..k], [t[k]] + t[k + 1..]);
      MapConcat(f, t[..k], t[k + 1..]);
      MapHead(f, s);
      MapHead(f, [t[k]] + t[k + 1..]);
      assert ([t[k]] + t[k + 1..])[1..] == t[k + 1..];
    } else {
      assert t == s;
    }
  }

  lemma {:induction false} MapHead<T, U>(f: T -> U, s: seq<T>)
    requires s != []
    ensures Map(f, s) == [f(s[0])] + Map(f, s[1..])
  {
  }

  lemma {:induction false} MapConcat<T, U>(f: T -> U, s: seq<T>, t: seq<T>)
    ensures Map(f, s + t) == Map(f, s) + Map(f, t)
  {
    hide Map;
    if s == [] {
      assert s + t == t && |Map(f, s)| == 0;
    } else {
      MapConcat(f, s[1..], t);
      assert (s + t)[1..] == s[1..] + t;
      MapHead(f, s);
      MapHead(f, s + t);
    }
  }
}
