/**
  The registry of NVIDIA device mappings (`coldsnap_nvidia_mmap_shim.c`): a fixed table with
  removal by swapping, and the duplicated descriptors that it keeps open.
 */
module MmapRegistry {

  const CAPACITY: nat := 4096
  const UINTPTR_MAX: nat := 0xFFFF_FFFF_FFFF_FFFF

  /** `descriptor` is negative if none is held; `error` says why the duplication failed. */
  datatype Mapping = Mapping(address: nat, length: nat, protection: int, descriptor: int, error: int)

  function RangeEnd(address: nat, length: nat): nat {
    if length > UINTPTR_MAX - address then UINTPTR_MAX else address + length
  }

  predicate Overlaps(m: Mapping, address: nat, length: nat) {
    m.address < RangeEnd(address, length) && address < RangeEnd(m.address, m.length)
  }

  /** What a successful mmap returns: positive, and not wrapping around. */
  predicate Proper(address: nat, length: nat) { 0 < length && address + length <= UINTPTR_MAX }

  predicate Apart(m: Mapping, n: Mapping) { m.address + m.length <= n.address || n.address + n.length <= m.address }

  ghost predicate Holds(s: seq<Mapping>, d: int) { exists i :: 0 <= i < |s| && s[i].descriptor == d }

  /** Proper disjoint ranges; no descriptor twice; the open descriptors are exactly those recorded. */
  ghost predicate Clean(s: seq<Mapping>, open: set<int>) {
    && (forall i :: 0 <= i < |s| ==> Proper(s[i].address, s[i].length))
    && (forall i, j :: 0 <= i < j < |s| ==> Apart(s[i], s[j]))
    && (forall i, j :: 0 <= i < j < |s| && s[i].descriptor >= 0 ==> s[i].descriptor != s[j].descriptor)
    && (forall d :: d in open <==> d >= 0 && Holds(s, d))
  }

  /** The ranges meet; no end is cut off. */
  predicate Touches(m: Mapping, address: nat, length: nat) { m.address < address + length && address < m.address + m.length }

  predicate Within(x: int, address: nat, length: nat) { address <= x < address + length }

  /** For ranges that are not empty, this is having a byte in common. */
  lemma {:induction false} TouchesByte(m: Mapping, address: nat, length: nat)
    requires m.length > 0 && length > 0
    ensures Touches(m, address, length) <==> exists x :: Within(x, m.address, m.length) && Within(x, address, length)
  {
    if Touches(m, address, length) {
      var x := if m.address < address then address else m.address;
      assert Within(x, m.address, m.length) && Within(x, address, length);
    }
  }

  /** The entries that a range does not touch. */
  function Survivors(s: seq<Mapping>, address: nat, length: nat): seq<Mapping> {
    if s == [] then []
    else
      var last := s[|s| - 1];
      Survivors(s[..|s| - 1], address, length) + if Touches(last, address, length) then [] else [last]
  }

  lemma {:induction false} SurvivorsCount(s: seq<Mapping>, address: nat, length: nat, m: Mapping)
    ensures multiset(Survivors(s, address, length))[m] == if Touches(m, address, length) then 0 else multiset(s)[m]
  {
    if s != [] {
      SurvivorsCount(s[..|s| - 1], address, length, m);
      assert s == s[..|s| - 1] + [s[|s| - 1]];
    }
  }

  /** The table with the last entry moved to position `i`. */
  function SwapOut(s: seq<Mapping>, i: nat): (t: seq<Mapping>)
    requires i < |s|
    ensures |t| == |s| - 1
  {
    s[i := s[|s| - 1]][..|s| - 1]
  }

  lemma {:induction false} SwapBag(s: seq<Mapping>, i: nat)
    requires i < |s|
    ensures multiset(SwapOut(s, i)) == multiset(s) - multiset{s[i]}
  {
    var n, t := |s| - 1, s[i := s[|s| - 1]];
    assert multiset(t) == multiset(s) - multiset{s[i]} + multiset{s[n]};
    assert t == t[..n] + [s[n]];
    BagCancel(multiset(t[..n]), multiset(s) - multiset{s[i]}, s[n]);
  }

  lemma {:induction false} BagCancel(a: multiset<Mapping>, b: multiset<Mapping>, m: Mapping)
    requires a + multiset{m} == b + multiset{m}
    ensures a == b
  {
    assert a == (a + multiset{m}) - multiset{m} && b == (b + multiset{m}) - multiset{m};
  }

  lemma {:induction false} SwapFront(s: seq<Mapping>, i: nat)
    requires i < |s|
    ensures forall k :: 0 <= k < i ==> SwapOut(s, i)[k] == s[k]
  {
  }

  lemma {:induction false} RemoveBag(here: multiset<Mapping>, after: multiset<Mapping>, removed: multiset<Mapping>, m: Mapping)
    requires m in here && after == here - multiset{m}
    ensures after + (removed + multiset{m}) == here + removed
  {
  }

  lemma {:induction false} SwapClean(s: seq<Mapping>, i: nat, open: set<int>)
    requires i < |s| && Clean(s, open)
    ensures Clean(SwapOut(s, i), open - {s[i].descriptor})
  {
    var t, n, d := SwapOut(s, i), |s| - 1, s[i].descriptor;
    assert forall k :: 0 <= k < n ==> t[k] == if k == i then s[n] else s[k];
    forall e ensures e in open - {d} <==> e >= 0 && Holds(t, e) {
      if e in open - {d} {
        var k :| 0 <= k < |s| && s[k].descriptor == e;
        assert t[if k == n then i else k].descriptor == e;
      }
      if e >= 0 && Holds(t, e) {
        var k :| 0 <= k < |t| && t[k].descriptor == e;
        assert s[if k == i then n else k].descriptor == e;
      }
    }
  }

  lemma {:induction false} AppendClean(s: seq<Mapping>, m: Mapping, open: set<int>)
    requires Clean(s, open) && Proper(m.address, m.length) && m.descriptor !in open
    requires forall i :: 0 <= i < |s| ==> Apart(s[i], m)
    ensures Clean(s + [m], if m.descriptor >= 0 then open + {m.descriptor} else open)
  {
    var t, after := s + [m], if m.descriptor >= 0 then open + {m.descriptor} else open;
    forall i | 0 <= i < |s| && s[i].descriptor >= 0 ensures s[i].descriptor != m.descriptor {
      assert Holds(s, s[i].descriptor);
    }
    forall e ensures e in after <==> e >= 0 && Holds(t, e) {
      if e in open {
        var k :| 0 <= k < |s| && s[k].descriptor == e;
        assert t[k].descriptor == e;
      }
      if e in after && e !in open { assert t[|s|].descriptor == e; }
      if e >= 0 && Holds(t, e) {
        var k :| 0 <= k < |t| && t[k].descriptor == e;
        if k < |s| { assert Holds(s, e); }
      }
    }
  }

  /** Closing the descriptor of one entry. */
  lemma {:induction false} CloseClean(s: seq<Mapping>, i: nat, open: set<int>)
    requires i < |s| && Clean(s, open)
    ensures Clean(s[i := s[i].(descriptor := -1)], open - {s[i].descriptor})
  {
    var t, d := s[i := s[i].(descriptor := -1)], s[i].descriptor;
    forall e ensures e in open - {d} <==> e >= 0 && Holds(t, e) {
      if e in open - {d} {
        var k :| 0 <= k < |s| && s[k].descriptor == e;
        assert t[k].descriptor == e;
      }
      if e >= 0 && Holds(t, e) {
        var k :| 0 <= k < |t| && t[k].descriptor == e;
        assert s[k].descriptor == e;
      }
    }
  }

  /** For an entry of the table the overlap test of the source is the plain one, also if the range wraps around. */
  lemma {:induction false} OverlapsExact(m: Mapping, address: nat, length: nat)
    requires Proper(m.address, m.length) && address <= UINTPTR_MAX
    ensures Overlaps(m, address, length) <==> Touches(m, address, length)
  {
  }

  lemma {:induction false} EntryProper(s: seq<Mapping>, open: set<int>, i: nat)
    requires Clean(s, open) && i < |s|
    ensures Proper(s[i].address, s[i].length)
  {
  }

  class Registry {
    const table: array<Mapping>
    var count: nat
    /** The duplicates that this library has made and not closed. */
    var open: set<int>

    constructor ()
      ensures Valid() && Entries() == [] && fresh(table)
    {
      table := new Mapping[CAPACITY](_ => Mapping(0, 0, 0, -1, 0));
      count, open := 0, {};
    }

    ghost predicate Valid()
      reads this, table
    {
      table.Length == CAPACITY && count <= CAPACITY && Clean(table[..count], open)
    }

    function Entries(): seq<Mapping>
      requires count <= table.Length
      reads this, table
    {
      table[..count]
    }

    /** `forget_overlapping_mappings_locked`: exactly the entries that the range does not touch remain. */
    method Forget(address: nat, length: nat)
      requires Valid() && address <= UINTPTR_MAX
      modifies this, table
      ensures Valid() && open <= old(open) && count <= old(count) && count == |Survivors(old(Entries()), address, length)|
      ensures multiset(Entries()) == multiset(Survivors(old(Entries()), address, length))
      ensures forall i :: 0 <= i < count ==> !Touches(Entries()[i], address, length)
    {
      hide Clean, Overlaps, Touches, SwapOut;
      ghost var start, removed: multiset<Mapping> := Entries(), multiset{};
      var index := 0;
      while index < count
        invariant Valid() && index <= count <= old(count) && open <= old(open)
        invariant multiset(Entries()) + removed == multiset(start)
        invariant forall m :: m in removed ==> Touches(m, address, length)
        invariant forall i :: 0 <= i < index ==> !Touches(Entries()[i], address, length)
        decreases count - index
      {
        assert table[index] == Entries()[index];
        EntryProper(Entries(), open, index);
        OverlapsExact(table[index], address, length);
        if !Overlaps(table[index], address, length) {
          index := index + 1;
        } else {
          ghost var here := Entries();
          RemoveAt(index);
          SwapFront(here, index);
          SwapBag(here, index);
          RemoveBag(multiset(here), multiset(Entries()), removed, here[index]);
          removed := removed + multiset{here[index]};
        }
      }
      ForgetDone(start, Entries(), removed, address, length);
    }

    /** Closes the descriptor of an entry and moves the last entry into its place. */
    method RemoveAt(index: nat)
      requires Valid() && index < count
      modifies this, table
      ensures Valid() && count == old(count) - 1 && open <= old(open)
      ensures Entries() == SwapOut(old(Entries()), index)
    {
      hide Clean;
      ghost var here := table[..count];
      SwapClean(here, index, open);
      open := open - {table[index].descriptor};
      table[index] := table[count - 1];
      count := count - 1;
      assert table[..count] == SwapOut(here, index);
    }

    /** `record_if_nvidia` for a mapping of an NVIDIA device; `descriptor` is the duplicate, or negative. */
    method Record(address: nat, length: nat, protection: int, descriptor: int, error: int) returns (recorded: bool)
      requires Valid() && Proper(address, length) && descriptor !in open
      modifies this, table
      ensures Valid()
      ensures recorded <==> |Survivors(old(Entries()), address, length)| < 4096
      ensures !recorded ==> count == CAPACITY && descriptor !in open
      ensures multiset(Entries()) == multiset(Survivors(old(Entries()), address, length))
        + (if recorded then multiset{Mapping(address, length, protection, descriptor, error)} else multiset{})
    {
      hide Clean;
      Forget(address, length);
      if count < CAPACITY {
        ghost var here := table[..count];
        var m := Mapping(address, length, protection, descriptor, error);
        RecordApart(here, m, open);
        AppendClean(here, m, open);
        if descriptor >= 0 {
          open := open + {descriptor};
        }
        table[count] := m;
        count := count + 1;
        assert table[..count] == here + [m];
        return true;
      }
      // The duplicate is closed again and the mapping is not remembered.
      return false;
    }

    /** `munmap`: a successful unmap of a non-empty range forgets what it touches. */
    method Munmap(address: nat, length: nat, works: bool) returns (ok: bool)
      requires Valid() && address <= UINTPTR_MAX
      modifies this, table
      ensures Valid() && ok == works
      ensures multiset(Entries()) == multiset(if works && length != 0 then Survivors(old(Entries()), address, length) else old(Entries()))
    {
      if works && length != 0 {
        Forget(address, length);
      }
      return works;
    }

    /**
      `coldsnap_nvidia_mmap_publish_after_reset`. It succeeds exactly if every mapping is gone or was
      handed to the broker; just these lose their descriptors. The error is that of the first other one.
     */
    method Publish(live: int -> int, nvidia: int -> bool, send: (int, int) -> int) returns (firstError: int)
      requires Valid()
      modifies this, table
      ensures Valid() && count == old(count)
      ensures forall i :: 0 <= i < count ==>
        Entries()[i] == if Gone(old(Entries())[i], live) || HandedOver(old(Entries())[i], live, nvidia, send)
                        then old(Entries())[i].(descriptor := -1) else old(Entries())[i]
      ensures firstError == 0 <==> forall i :: 0 <= i < count ==> Gone(old(Entries())[i], live) || HandedOver(old(Entries())[i], live, nvidia, send)
      ensures firstError != 0 ==> FirstFault(old(Entries()), count, firstError, live, nvidia, send)
      ensures firstError == 0 ==> open == {}
    {
      hide Clean, FirstFault;
      firstError := 0;
      ghost var start := Entries();
      for index := 0 to count
        invariant count == old(count) && Valid() && start == old(Entries())
        invariant forall i :: 0 <= i < count ==> Entries()[i] == if i < index && Done(start[i], live, nvidia, send) then start[i].(descriptor := -1) else start[i]
        invariant firstError == 0 <==> forall i :: 0 <= i < index ==> Done(start[i], live, nvidia, send)
        invariant firstError != 0 ==> FirstFault(start, index, firstError, live, nvidia, send)
      {
        var m := table[index];
        assert m == Entries()[index] == start[index];
        var e, closes := 0, false;
        if live(m.address) < 0 {
          e := live(m.address);
        } else if live(m.address) == 0 {
          closes := true;
        } else if m.descriptor < 0 || !nvidia(m.descriptor) {
          e := if m.error == 0 then -19 else -m.error;
        } else {
          e := send(m.address, m.descriptor);
          closes := e == 0;
        }
        NextFault(start, index, firstError, e, live, nvidia, send);
        if firstError == 0 {
          firstError := e;
        }
        if closes {
          ghost var here := table[..count];
          CloseClean(here, index, open);
          open := open - {m.descriptor};
          table[index] := m.(descriptor := -1);
          assert table[..count] == here[index := m.(descriptor := -1)];
        }
      }
      if firstError == 0 { NoneOpen(Entries(), open); }
    }
  }

  /** The mapping is not there any more. */
  predicate Gone(m: Mapping, live: int -> int) { live(m.address) == 0 }

  /** The mapping is there, its descriptor is a valid one, and the broker has taken it. */
  predicate HandedOver(m: Mapping, live: int -> int, nvidia: int -> bool, send: (int, int) -> int) {
    live(m.address) > 0 && m.descriptor >= 0 && nvidia(m.descriptor) && send(m.address, m.descriptor) == 0
  }

  predicate Done(m: Mapping, live: int -> int, nvidia: int -> bool, send: (int, int) -> int) {
    Gone(m, live) || HandedOver(m, live, nvidia, send)
  }

  /** The error of an entry that is neither gone nor handed over: of its inspection, of its descriptor, or of the broker. */
  predicate Explains(m: Mapping, e: int, live: int -> int, nvidia: int -> bool, send: (int, int) -> int) {
    && (live(m.address) < 0 ==> e == live(m.address))
    && (live(m.address) > 0 && (m.descriptor < 0 || !nvidia(m.descriptor)) ==> e == if m.error == 0 then -19 else -m.error)
    && (live(m.address) > 0 && m.descriptor >= 0 && nvidia(m.descriptor) ==> e == send(m.address, m.descriptor))
  }

  /** `e` is the error of the first of the first `n` entries that is neither gone nor handed over. */
  ghost predicate FirstFault(s: seq<Mapping>, n: nat, e: int, live: int -> int, nvidia: int -> bool, send: (int, int) -> int) {
    n <= |s| && exists i :: 0 <= i < n && FirstAt(s, i, e, live, nvidia, send)
  }

  ghost predicate FirstAt(s: seq<Mapping>, i: nat, e: int, live: int -> int, nvidia: int -> bool, send: (int, int) -> int)
    requires i < |s|
  {
    && !Done(s[i], live, nvidia, send) && Explains(s[i], e, live, nvidia, send)
    && forall k :: 0 <= k < i ==> Done(s[k], live, nvidia, send)
  }

  lemma {:induction false} NextFault(s: seq<Mapping>, index: nat, before: int, e: int, live: int -> int, nvidia: int -> bool, send: (int, int) -> int)
    requires index < |s| && (before == 0 <==> forall i :: 0 <= i < index ==> Done(s[i], live, nvidia, send))
    requires before != 0 ==> FirstFault(s, index, before, live, nvidia, send)
    requires Done(s[index], live, nvidia, send) <==> e == 0
    requires e != 0 ==> Explains(s[index], e, live, nvidia, send)
    ensures var first := if before == 0 then e else before; first != 0 ==> FirstFault(s, index + 1, first, live, nvidia, send)
  {
    hide Done, Explains;
    if before != 0 {
      var i :| 0 <= i < index && FirstAt(s, i, before, live, nvidia, send);
    } else if e != 0 {
      assert FirstAt(s, index, e, live, nvidia, send);
    }
  }

  lemma {:induction false} ForgetDone(start: seq<Mapping>, now: seq<Mapping>, removed: multiset<Mapping>, address: nat, length: nat)
    requires multiset(now) + removed == multiset(start)
    requires forall m :: m in removed ==> Touches(m, address, length)
    requires forall i :: 0 <= i < |now| ==> !Touches(now[i], address, length)
    ensures multiset(now) == multiset(Survivors(start, address, length)) && |now| == |Survivors(start, address, length)|
  {
    hide Touches;
    forall m ensures multiset(now)[m] == multiset(Survivors(start, address, length))[m] {
      SurvivorsCount(start, address, length, m);
      assert m in multiset(now) ==> m in now;
      assert multiset(start)[m] == multiset(now)[m] + removed[m];
    }
    SameLength(now, Survivors(start, address, length));
  }

  lemma {:induction false} SameLength(s: seq<Mapping>, t: seq<Mapping>)
    requires multiset(s) == multiset(t)
    ensures |s| == |t|
  {
    assert |s| == |multiset(s)| && |t| == |multiset(t)|;
  }

  lemma {:induction false} RecordApart(s: seq<Mapping>, m: Mapping, open: set<int>)
    requires Clean(s, open) && Proper(m.address, m.length) && forall i :: 0 <= i < |s| ==> !Touches(s[i], m.address, m.length)
    ensures forall i :: 0 <= i < |s| ==> Apart(s[i], m)
  {
  }

  lemma {:induction false} NoneOpen(s: seq<Mapping>, open: set<int>)
    requires Clean(s, open) && forall i :: 0 <= i < |s| ==> s[i].descriptor < 0
    ensures open == {}
  {
    assert forall d :: d in open ==> d >= 0 && Holds(s, d);
    assert forall d :: d >= 0 ==> !Holds(s, d);
    assert forall d :: d !in open;
  }
}
