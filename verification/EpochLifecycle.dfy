/**
  The lifecycle of a vLLM CUDA epoch (`coldsnap_cuda_epoch.py`): recipes, reset, rebind and the
  wake that claims the mappings a rebind made in advance.
 */
module EpochLifecycle {
  import opened Sorting

  /** The four fields of a CuMem handle identify a mapping request. */
  datatype Key = Key(device: int, bytes: int, address: int, box: int)

  datatype Recipe = Recipe(key: Key, externalized: bool) {
    function End(): int { key.address + key.bytes }
  }

  predicate ByAddress(a: Recipe, b: Recipe) {
    a.key.device < b.key.device || (a.key.device == b.key.device && a.key.address <= b.key.address)
  }

  /** Non-empty, on one device, no key twice, no two ranges in common. */
  ghost predicate ValidRecipes(recipes: multiset<Recipe>) {
    && recipes != multiset{}
    && (forall r, q :: r in recipes && q in recipes ==> r.key.device == q.key.device)
    && (forall r :: r in recipes ==> recipes[r] == 1)
    && (forall r, q :: r in recipes && q in recipes && r != q ==> r.key != q.key && (r.End() <= q.key.address || q.End() <= r.key.address))
  }

  predicate Positive(recipes: seq<Recipe>) { forall i :: 0 <= i < |recipes| ==> recipes[i].key.bytes > 0 }

  /** Increasing, disjoint, on one device. */
  predicate Ladder(s: seq<Recipe>) {
    && (forall i, j :: 0 <= i < j < |s| ==> s[i].End() <= s[j].key.address)
    && (forall i, j :: 0 <= i < j < |s| ==> s[i].key.device == s[j].key.device)
  }

  lemma {:induction false} LadderValid(s: seq<Recipe>)
    requires s != [] && Positive(s) && Ladder(s)
    ensures ValidRecipes(multiset(s))
  {
    Repetition(s);
    forall r, q | r in multiset(s) && q in multiset(s)
      ensures r.key.device == q.key.device
      ensures r != q ==> r.key != q.key && (r.End() <= q.key.address || q.End() <= r.key.address)
    {
      assert r in s && q in s;
      var i :| 0 <= i < |s| && s[i] == r;
      var j :| 0 <= j < |s| && s[j] == q;
      assert i < j || j < i || i == j;
    }
    assert s[0] in multiset(s);
  }

  lemma {:induction false} ValidLadder(s: seq<Recipe>)
    requires SortedBy(ByAddress, s) && Positive(s) && ValidRecipes(multiset(s))
    ensures s != [] && Ladder(s)
  {
    hide ValidRecipes, SortedBy;
    assert s != [] by { ValidNonEmpty(s); }
    forall i, j | 0 <= i < j < |s| ensures s[i].End() <= s[j].key.address && s[i].key.device == s[j].key.device {
      ValidPair(s, i, j);
    }
  }

  lemma {:induction false} ValidNonEmpty(s: seq<Recipe>)
    requires ValidRecipes(multiset(s))
    ensures s != []
  {
    assert s == [] ==> multiset(s) == multiset{};
  }

  lemma {:induction false} ValidPair(s: seq<Recipe>, i: nat, j: nat)
    requires i < j < |s| && SortedBy(ByAddress, s) && Positive(s) && ValidRecipes(multiset(s))
    ensures s[i].End() <= s[j].key.address && s[i].key.device == s[j].key.device
  {
    var r, q := s[i], s[j];
    assert r in multiset(s) && q in multiset(s) && ByAddress(r, q);
    assert r != q by {
      assert multiset(s)[r] == 1;
      if r == q { Repeated(s, i, j); }
    }
    assert r.key.device == q.key.device;
    assert r.End() <= q.key.address || q.End() <= r.key.address;
  }

  /** An element at two places is in the sequence at least twice. */
  lemma {:induction false} Repeated(s: seq<Recipe>, i: nat, j: nat)
    requires i < j < |s| && s[i] == s[j]
    ensures multiset(s)[s[i]] >= 2
  {
    var front, back := s[..j], s[j..];
    assert s == front + back;
    assert s[i] == front[i] && s[j] == back[0];
    assert s[i] in front && s[i] in back;
  }

  /** One device and no key twice; anything else is no ladder. */
  method CheckKeys(ordered: seq<Recipe>) returns (ok: bool)
    requires Positive(ordered)
    ensures ok ==> forall i :: 0 <= i < |ordered| ==> ordered[i].key.device == ordered[0].key.device
    ensures !ok ==> !Ladder(ordered)
  {
    var seen: set<Key> := {};
    for i := 0 to |ordered|
      invariant forall k :: 0 <= k < i ==> ordered[k].key.device == ordered[0].key.device
      invariant seen == Keys(ordered[..i])
    {
      if ordered[i].key.device != ordered[0].key.device || ordered[i].key in seen {
        NotLadder(ordered, i);
        return false;
      }
      assert ordered[..i + 1] == ordered[..i] + [ordered[i]];
      seen := seen + {ordered[i].key};
    }
    return true;
  }

  /** Each range ends before the next one begins. */
  method CheckSteps(ordered: seq<Recipe>) returns (ok: bool)
    requires Positive(ordered) && forall i :: 0 <= i < |ordered| ==> ordered[i].key.device == ordered[0].key.device
    ensures ok <==> Ladder(ordered)
  {
    if ordered == [] {
      return true;
    }
    for i := 1 to |ordered|
      invariant forall k, l :: 0 <= k < l < i ==> ordered[k].End() <= ordered[l].key.address
    {
      if ordered[i].key.address < ordered[i - 1].End() {
        return false;
      }
    }
    return true;
  }

  /** `_validate_recipes`: accepts exactly the valid lists. */
  method ValidateRecipes(recipes: seq<Recipe>) returns (ok: bool, ordered: seq<Recipe>)
    requires Positive(recipes)
    ensures ok <==> ValidRecipes(multiset(recipes))
    ensures ok ==> multiset(ordered) == multiset(recipes) && Ladder(ordered) && SortedBy(ByAddress, ordered)
  {
    hide ValidRecipes, Ladder, Sort, SortedBy;
    ordered := Sort(ByAddress, recipes);
    SortSorted(ByAddress, recipes);
    SortedPositive(recipes);
    ValidExact(ordered);
    if recipes == [] {
      return false, ordered;
    }
    ok := CheckKeys(ordered);
    if ok {
      ok := CheckSteps(ordered);
    }
  }

  function Keys(s: seq<Recipe>): set<Key> { set r | r in s :: r.key }

  /** Two devices, or one key twice: no ladder. */
  lemma {:induction false} NotLadder(s: seq<Recipe>, i: nat)
    requires i < |s| && Positive(s) && (s[i].key.device != s[0].key.device || s[i].key in Keys(s[..i]))
    ensures !Ladder(s)
  {
    if s[i].key.device == s[0].key.device {
      var r :| r in s[..i] && r.key == s[i].key;
      var k :| 0 <= k < i && s[k] == r;
      assert s[k].End() > s[i].key.address;
    }
  }

  lemma {:induction false} SortedPositive(recipes: seq<Recipe>)
    requires Positive(recipes)
    ensures Positive(Sort(ByAddress, recipes))
  {
    var s := Sort(ByAddress, recipes);
    forall i | 0 <= i < |s| ensures s[i].key.bytes > 0 {
      assert s[i] in multiset(s);
      assert s[i] in recipes;
    }
  }

  lemma {:induction false} ValidExact(s: seq<Recipe>)
    requires SortedBy(ByAddress, s) && Positive(s)
    ensures ValidRecipes(multiset(s)) <==> s != [] && Ladder(s)
  {
    if s != [] && Ladder(s) { LadderValid(s); }
    if ValidRecipes(multiset(s)) { ValidLadder(s); }
  }

  // ---------------------------------------------------------------------------------------------
  // Reset, rebind, wake.

  datatype Phase = Captured | WasReset | Rebinding | Rebound | Active | Error

  /** The requests that are not the first one for a prebound key, in order. */
  function Forwarded(requests: seq<Key>, prebound: set<Key>): seq<Key> {
    if requests == [] then []
    else
      var front, last := requests[..|requests| - 1], requests[|requests| - 1];
      Forwarded(front, prebound) + if last in prebound && last !in front then [] else [last]
  }

  /** Every request is either claimed or forwarded: each prebound key that is requested is claimed once. */
  lemma {:induction false} ForwardedCount(requests: seq<Key>, prebound: set<Key>, k: Key)
    ensures multiset(Forwarded(requests, prebound))[k]
         == multiset(requests)[k] - if k in prebound && k in requests then 1 else 0
  {
    if requests != [] {
      var front, last := requests[..|requests| - 1], requests[|requests| - 1];
      assert requests == front + [last];
      ForwardedCount(front, prebound, k);
      assert k in front <==> multiset(front)[k] > 0;
    }
  }

  /**
    The three calls of an epoch, with what the driver and the callback of the wake answer; `copies`
    is the number of residuals whose copy to the device works.
   */
  datatype Call = ResetCall(works: bool) | RebindCall(works: bool)
                | ResumeCall(rebinds: bool, copies: nat, requests: seq<Key>, callback: bool)

  /** `spent`: the host backup of the first residual is gone. */
  datatype Life = Life(phase: Phase, spent: bool)

  /** The keys the wake must ask for, and the number of residuals that the epoch itself hydrates. */
  datatype Duty = Duty(required: set<Key>, residuals: nat)

  /** The call rebinds a reset epoch. */
  predicate Tries(c: Call) { !c.ResetCall? }

  predicate Rebinds(c: Call) { (c.RebindCall? && c.works) || (c.ResumeCall? && c.rebinds) }

  /** The call copies a residual, and with that gives up its host backup. */
  predicate Spends(c: Call, duty: Duty) { c.ResumeCall? && duty.residuals > 0 && c.copies > 0 }

  /** All residuals are copied, the callback returns, and it has asked for every required key. */
  ghost predicate Completes(c: Call, duty: Duty) {
    c.ResumeCall? && c.copies >= duty.residuals && c.callback && duty.required <= (set k | k in c.requests)
  }

  /** A resume of a rebound epoch. */
  ghost function Resumed(l: Life, c: Call, duty: Duty): Life {
    if l.spent then l else Life(if Completes(c, duty) then Active else l.phase, Spends(c, duty))
  }

  ghost function Next(l: Life, c: Call, duty: Duty): Life {
    match l.phase
    case Captured => if c == ResetCall(true) then l.(phase := WasReset) else l
    case WasReset =>
      if !Tries(c) then l
      else if !Rebinds(c) then l.(phase := Error)
      else if c.RebindCall? then l.(phase := Rebound)
      else Resumed(l.(phase := Rebound), c, duty)
    case Rebound => if c.ResumeCall? then Resumed(l, c, duty) else l
    case _ => l
  }

  ghost function Run(calls: seq<Call>, duty: Duty): Life {
    if calls == [] then Life(Captured, false) else Next(Run(calls[..|calls| - 1], duty), calls[|calls| - 1], duty)
  }

  /** The first reset that worked. */
  predicate ResetAt(calls: seq<Call>, i: int) {
    0 <= i < |calls| && calls[i] == ResetCall(true) && forall h :: 0 <= h < i ==> calls[h] != ResetCall(true)
  }

  /** The first call after that reset which rebinds. */
  predicate TriedAt(calls: seq<Call>, i: int, j: int) {
    0 <= i < j < |calls| && Tries(calls[j]) && forall h :: i < h < j ==> !Tries(calls[h])
  }

  predicate Unspent(calls: seq<Call>, j: int, k: int, duty: Duty) {
    forall h :: 0 <= j <= h < k && h < |calls| ==> !Spends(calls[h], duty)
  }

  /** Call `k` completes the wake, and no call from `j` on has given up a host backup before it. */
  ghost predicate WokeAt(calls: seq<Call>, j: int, k: int, duty: Duty) {
    0 <= j <= k < |calls| && Completes(calls[k], duty) && Unspent(calls, j, k, duty)
  }

  ghost predicate Woken(calls: seq<Call>, j: int, duty: Duty) { exists k :: WokeAt(calls, j, k, duty) }

  /** What every phase says about the calls so far. */
  ghost predicate Explained(calls: seq<Call>, duty: Duty, l: Life, i: int, j: int) {
    match l.phase
    case Captured => !l.spent && forall h :: 0 <= h < |calls| ==> calls[h] != ResetCall(true)
    case WasReset => !l.spent && ResetAt(calls, i) && forall h :: i < h < |calls| ==> !Tries(calls[h])
    case Rebinding => false
    case Rebound =>
      && ResetAt(calls, i) && TriedAt(calls, i, j) && Rebinds(calls[j]) && !Woken(calls, j, duty)
      && (l.spent <==> !Unspent(calls, j, |calls|, duty))
    case Active => ResetAt(calls, i) && TriedAt(calls, i, j) && Rebinds(calls[j]) && Woken(calls, j, duty)
    case Error => ResetAt(calls, i) && TriedAt(calls, i, j) && !Rebinds(calls[j])
  }

  lemma {:induction false} Explain(calls: seq<Call>, duty: Duty) returns (i: int, j: int)
    ensures Explained(calls, duty, Run(calls, duty), i, j)
  {
    hide Completes, Tries, Rebinds, Spends, Woken, Unspent;
    i, j := 0, 0;
    if calls != [] {
      var n := |calls| - 1;
      var front, last := calls[..n], calls[n];
      i, j := Explain(front, duty);
      assert calls == front + [last];
      match Run(front, duty).phase
      case Captured => i := n;
      case WasReset =>
        j := if Tries(last) then n else j;
        WokenNext(front, last, n, duty);
        WokenNone(front, duty);
        TriesSplit(last, duty);
      case _ =>
        WokenNext(front, last, j, duty);
        TriesSplit(last, duty);
    }
  }

  lemma {:induction false} TriesSplit(c: Call, duty: Duty)
    ensures Tries(c) <==> c.RebindCall? || c.ResumeCall?
    ensures !c.ResumeCall? ==> !Spends(c, duty) && !Completes(c, duty)
  {
  }

  lemma {:induction false} WokenNone(calls: seq<Call>, duty: Duty)
    ensures !Woken(calls, |calls|, duty) && Unspent(calls, |calls|, |calls|, duty)
  {
  }

  /** One more call. */
  lemma {:induction false} WokenNext(front: seq<Call>, last: Call, j: int, duty: Duty)
    requires 0 <= j <= |front|
    ensures Woken(front + [last], j, duty) <==>
      Woken(front, j, duty) || (Completes(last, duty) && Unspent(front, j, |front|, duty))
    ensures Unspent(front + [last], j, |front| + 1, duty) <==> Unspent(front, j, |front|, duty) && !Spends(last, duty)
  {
    hide Completes, Spends;
    var calls, n := front + [last], |front|;
    assert forall h :: 0 <= h < n ==> calls[h] == front[h];
    assert calls[n] == last;
    if Completes(last, duty) && Unspent(front, j, n, duty) {
      assert Unspent(calls, j, n, duty);
      assert WokeAt(calls, j, n, duty);
    }
    if Woken(front, j, duty) {
      var k :| WokeAt(front, j, k, duty);
      assert Unspent(calls, j, k, duty);
      assert WokeAt(calls, j, k, duty);
    }
    if Woken(calls, j, duty) {
      var k :| WokeAt(calls, j, k, duty);
      assert Unspent(front, j, k, duty);
      if k < n { assert WokeAt(front, j, k, duty); }
    }
  }

  /**
    After every run of calls the epoch is active exactly if the first reset that worked was
    followed by a first attempt to rebind which worked, and by a wake that completed before any
    other resume had given up the host backup of a residual: with a residual, only the first
    resume that copies anything can succeed. Active and error are final.
   */
  lemma {:induction false} ActiveExact(calls: seq<Call>, more: seq<Call>, duty: Duty)
    ensures Run(calls, duty).phase == Active <==>
      exists i, j :: ResetAt(calls, i) && TriedAt(calls, i, j) && Rebinds(calls[j]) && Woken(calls, j, duty)
    ensures Run(calls, duty).phase == Error <==> exists i, j :: ResetAt(calls, i) && TriedAt(calls, i, j) && !Rebinds(calls[j])
    ensures Run(calls, duty).phase == Active || Run(calls, duty).phase == Error ==> Run(calls + more, duty) == Run(calls, duty)
  {
    hide Completes, Tries, Rebinds, Woken, Unspent;
    var i, j := Explain(calls, duty);
    var l := Run(calls, duty);
    forall i', j' | ResetAt(calls, i') && TriedAt(calls, i', j')
      ensures Explained(calls, duty, l, i', j') && (l.phase in {Rebound, Active, Error})
    {
      assert l.phase != Captured && l.phase != Rebinding;
      assert i == i' by { assert i < i' || i' < i || i == i'; }
      assert l.phase != WasReset;
      assert j == j' by { assert j < j' || j' < j || j == j'; }
    }
    if more != [] {
      var n := |more| - 1;
      ActiveExact(calls, more[..n], duty);
      assert (calls + more)[..|calls + more| - 1] == calls + more[..n];
    } else {
      assert calls + more == calls;
    }
  }

  /** A resume that copies a residual and does not complete is the end: no later call makes the epoch active. */
  lemma {:induction false} SpentStays(calls: seq<Call>, more: seq<Call>, duty: Duty)
    requires Run(calls, duty).phase == Rebound && Run(calls, duty).spent
    ensures Run(calls + more, duty) == Run(calls, duty)
  {
    hide Completes, Tries, Rebinds, Spends;
    if more != [] {
      var n := |more| - 1;
      SpentStays(calls, more[..n], duty);
      assert (calls + more)[..|calls + more| - 1] == calls + more[..n];
    } else {
      assert calls + more == calls;
    }
  }

  /** The residuals that the epoch hydrates itself, in order. */
  function Residuals(recipes: seq<Recipe>): seq<Key> {
    if recipes == [] then []
    else
      var front, last := Residuals(recipes[..|recipes| - 1]), recipes[|recipes| - 1];
      if last.externalized then front + [last.key] else front
  }

  predicate DistinctKeys(keys: seq<Key>) { forall i, j :: 0 <= i < j < |keys| ==> keys[i] != keys[j] }

  lemma {:induction false} ResidualsDistinct(recipes: seq<Recipe>)
    requires ValidRecipes(multiset(recipes))
    ensures DistinctKeys(Residuals(recipes))
  {
    Repetition(recipes);
    forall i, j | 0 <= i < j < |recipes| ensures recipes[i].key != recipes[j].key {
      assert recipes[i] in multiset(recipes) && recipes[j] in multiset(recipes) && recipes[i] != recipes[j];
    }
    DistinctResiduals(recipes);
  }

  lemma {:induction false} DistinctResiduals(recipes: seq<Recipe>)
    requires forall i, j :: 0 <= i < j < |recipes| ==> recipes[i].key != recipes[j].key
    ensures DistinctKeys(Residuals(recipes)) && forall k :: 0 <= k < |Residuals(recipes)| ==> HasKey(recipes, Residuals(recipes)[k])
  {
    if recipes != [] {
      var n := |recipes| - 1;
      DistinctResiduals(recipes[..n]);
      var front := Residuals(recipes[..n]);
      forall k | 0 <= k < |front| ensures front[k] != recipes[n].key && HasKey(recipes, front[k]) {
        assert HasKey(recipes[..n], front[k]);
        var i :| 0 <= i < n && recipes[..n][i].key == front[k];
        assert recipes[i].key == front[k];
      }
      assert HasKey(recipes, recipes[n].key);
    }
  }

  predicate HasKey(recipes: seq<Recipe>, k: Key) { exists i :: 0 <= i < |recipes| && recipes[i].key == k }

  /** Some recipe with this key was externalized by the epoch. */
  predicate Externalized(recipes: seq<Recipe>, k: Key) { exists i :: 0 <= i < |recipes| && recipes[i].externalized && recipes[i].key == k }

  lemma {:induction false} ResidualsExact(recipes: seq<Recipe>, k: Key)
    ensures k in Residuals(recipes) <==> Externalized(recipes, k)
  {
    if recipes != [] {
      var n := |recipes| - 1;
      ResidualsExact(recipes[..n], k);
      if Externalized(recipes[..n], k) {
        var i :| 0 <= i < n && recipes[..n][i].externalized && recipes[..n][i].key == k;
        assert recipes[i].externalized && recipes[i].key == k;
      }
      if Externalized(recipes, k) && !(recipes[n].externalized && recipes[n].key == k) {
        var i :| 0 <= i < |recipes| && recipes[i].externalized && recipes[i].key == k;
        assert recipes[..n][i] == recipes[i];
      }
    }
  }

  /** Every mapping that the wake itself must bring back has been asked for. */
  predicate AllAsked(recipes: seq<Recipe>, requests: seq<Key>) {
    forall i :: 0 <= i < |recipes| && !recipes[i].externalized ==> recipes[i].key in requests
  }

  /** The requests with this key that are not forwarded: one, if there are any and the key was bound in advance. */
  function Claims(recipes: seq<Recipe>, requests: seq<Key>, k: Key): nat {
    if HasKey(recipes, k) && k in requests then 1 else 0
  }

  lemma {:induction false} KeysExact(recipes: seq<Recipe>, k: Key)
    ensures k in Keys(recipes) <==> HasKey(recipes, k)
  {
    if k in Keys(recipes) {
      var r :| r in recipes && r.key == k;
      var i :| 0 <= i < |recipes| && recipes[i] == r;
      assert recipes[i].key == k;
    }
  }

  class Epoch {
    const recipes: seq<Recipe>
    var state: Phase
    /** The residuals that still have their host backup. */
    var backups: set<Key>

    /** Nothing has been copied yet, or the first residual has lost its backup. */
    ghost predicate Valid()
      reads this`backups
    {
      DistinctKeys(Residuals(recipes)) && (Spent() || backups == (set k | k in Residuals(recipes)))
    }

    ghost predicate Spent()
      reads this`backups
    {
      Residuals(recipes) != [] && Residuals(recipes)[0] !in backups
    }

    ghost function View(): Life
      reads this
    {
      Life(state, Spent())
    }

    ghost function Duties(): Duty { Duty(Required(), |Residuals(recipes)|) }

    /** Captured from validated recipes. */
    constructor (recipes: seq<Recipe>)
      requires ValidRecipes(multiset(recipes))
      ensures this.recipes == recipes && Valid() && View() == Run([], Duties())
    {
      this.recipes, state, backups := recipes, Captured, set k | k in Residuals(recipes);
      new;
      ResidualsDistinct(recipes);
      assert Residuals(recipes) != [] ==> Residuals(recipes)[0] in backups;
    }

    method ResetEpoch(works: bool) returns (ok: bool)
      modifies this`state
      ensures ok <==> old(state) == Captured && works
      ensures state == if ok then WasReset else old(state)
      ensures View() == Next(old(View()), ResetCall(works), Duties())
    {
      if state != Captured || !works {
        return false;
      }
      state := WasReset;
      return true;
    }

    /** A failed rebind leaves the epoch in the error state for good. */
    method RebindEpoch(works: bool) returns (ok: bool)
      modifies this`state
      ensures ok <==> old(state) == WasReset && works
      ensures state == if old(state) != WasReset then old(state) else if works then Rebound else Error
      ensures View() == Next(old(View()), RebindCall(works), Duties())
    {
      if state != WasReset {
        return false;
      }
      state := Rebinding;
      state := if works then Rebound else Error;
      return works;
    }

    /** The requests of the wake callback: the first one for a prebound key is accepted without mapping. */
    method Claim(requests: seq<Key>) returns (pending: set<Key>, forwarded: seq<Key>)
      ensures forwarded == Forwarded(requests, Keys(recipes))
      ensures forall k :: multiset(forwarded)[k] == multiset(requests)[k] - Claims(recipes, requests, k)
      ensures forall k :: k in pending <==> HasKey(recipes, k) && k !in requests
    {
      pending, forwarded := Keys(recipes), [];
      for i := 0 to |requests|
        invariant forwarded == Forwarded(requests[..i], Keys(recipes))
        invariant forall k :: k in pending <==> k in Keys(recipes) && k !in requests[..i]
      {
        assert requests[..i + 1] == requests[..i] + [requests[i]];
        assert requests[..i + 1][..i] == requests[..i];
        if requests[i] in pending {
          pending := pending - {requests[i]};
        } else {
          forwarded := forwarded + [requests[i]];
        }
      }
      assert requests[..|requests|] == requests;
      forall k ensures k in Keys(recipes) <==> HasKey(recipes, k) { KeysExact(recipes, k); }
      forall k ensures multiset(forwarded)[k] == multiset(requests)[k] - Claims(recipes, requests, k) {
        ForwardedCount(requests, Keys(recipes), k);
      }
    }

    /** The keys the wake must ask for. */
    function Required(): set<Key> { set r | r in recipes && !r.externalized :: r.key }

    lemma {:induction false} RequiredAsked(pending: set<Key>, requests: seq<Key>)
      requires forall k :: k in pending <==> HasKey(recipes, k) && k !in requests
      ensures AllAsked(recipes, requests) <==> Required() <= (set k | k in requests)
      ensures AllAsked(recipes, requests) <==> pending * Required() == {}
    {
      forall i | 0 <= i < |recipes| && !recipes[i].externalized ensures recipes[i].key in Required() && HasKey(recipes, recipes[i].key) {
        assert recipes[i] in recipes;
      }
      forall k | k in Required() ensures exists i :: 0 <= i < |recipes| && !recipes[i].externalized && recipes[i].key == k {
        var r :| r in recipes && !r.externalized && r.key == k;
        var i :| 0 <= i < |recipes| && recipes[i] == r;
        assert recipes[i].key == k;
      }
      if pending * Required() == {} {
        forall i | 0 <= i < |recipes| && !recipes[i].externalized ensures recipes[i].key in requests {
          assert recipes[i].key !in pending * Required();
        }
      }
    }

    /** Copies the residuals to the device; each copy gives up its host backup. On success all of them are copied, and no other. */
    method Hydrate(copies: nat) returns (ok: bool)
      requires Valid()
      modifies this`backups
      ensures Valid() && (ok <==> !old(Spent()) && copies >= |Residuals(recipes)|)
      ensures Spent() <==> old(Spent()) || (Residuals(recipes) != [] && copies > 0)
      ensures ok ==> backups == {} && forall k :: k in old(backups) <==> Externalized(recipes, k)
    {
      var keys := Residuals(recipes);
      forall k ensures k in keys <==> Externalized(recipes, k) { ResidualsExact(recipes, k); }
      assert keys[0..] == keys;
      for i := 0 to |keys|
        invariant i <= copies && (i > 0 ==> !old(Spent()))
        invariant if old(Spent()) then backups == old(backups) else backups == set k | k in keys[i..]
      {
        assert keys[i..] == [keys[i]] + keys[i + 1..];
        assert keys[i] in keys[i..] && keys[i] !in keys[i + 1..];
        if keys[i] !in backups {
          return false;  // "lost its host backup"
        }
        if i >= copies {
          assert i == 0 || keys[0] !in keys[i..];
          return false;
        }
        backups := backups - {keys[i]};
      }
      assert keys != [] ==> keys[0] !in keys[|keys|..];
      return true;
    }

    /**
      `resume`: rebinds first if that has not been done, copies the residuals, then runs the wake
      callback. Active is reached only from the rebound state, only with every host backup still
      there, and only if every required key was requested.
     */
    method ResumeEpoch(rebinds: bool, copies: nat, requests: seq<Key>, callback: bool) returns (ok: bool, forwarded: seq<Key>)
      requires Valid()
      modifies this
      ensures Valid() && View() == Next(old(View()), ResumeCall(rebinds, copies, requests, callback), Duties())
      ensures ok <==> copies >= |Residuals(recipes)| && !old(Spent()) && callback && AllAsked(recipes, requests)
                      && (old(state) == Rebound || (old(state) == WasReset && rebinds))
      ensures state == if ok then Active else if old(state) != WasReset then old(state) else if rebinds then Rebound else Error
      ensures copies >= |Residuals(recipes)| && !old(Spent()) && (old(state) == Rebound || (old(state) == WasReset && rebinds)) ==>
        forwarded == Forwarded(requests, Keys(recipes)) && forall k :: multiset(forwarded)[k] == multiset(requests)[k] - Claims(recipes, requests, k)
    {
      forwarded := [];
      if state == WasReset {
        ok := RebindEpoch(rebinds);
        if !ok {
          return false, [];
        }
      } else if state != Rebound {
        return false, [];
      }
      ok := Hydrate(copies);
      if !ok {
        return false, [];
      }
      var pending;
      pending, forwarded := Claim(requests);
      assert (pending * Required() == {} <==> AllAsked(recipes, requests)) && (AllAsked(recipes, requests) <==> Required() <= (set k | k in requests)) by {
        RequiredAsked(pending, requests);
      }
      if !callback || pending * Required() != {} {
        return false, forwarded;
      }
      state := Active;
      return true, forwarded;
    }
  }
}
