/** Bytes, device memory, files and 4 KiB alignment: the vocabulary of every other module. */
module Bytes {

  datatype Option<+T> = None | Some(value: T)

  /** A call of the original either returns a value or raises. */
  datatype Result<+T> = Ok(value: T) | Err

  type Byte = b: int | 0 <= b < 256

  /** Device memory: exactly the mapped addresses have a byte. */
  type Memory = map<int, Byte>

  const PAGE: nat := 4096

  predicate Mapped(mem: Memory, pointer: int, length: nat) {
    forall a :: pointer <= a < pointer + length ==> a in mem
  }

  /** The bytes at `pointer`, lowest address first. */
  function Peek(mem: Memory, pointer: int, length: nat): (bytes: seq<Byte>)
    requires Mapped(mem, pointer, length)
    ensures |bytes| == length
    ensures forall i :: 0 <= i < length ==> bytes[i] == mem[pointer + i]
  {
    seq(length, i requires 0 <= i < length => mem[pointer + i])
  }

  /** Stores `bytes` at `pointer`; what is mapped does not change. */
  function Poke(mem: Memory, pointer: int, bytes: seq<Byte>): Memory {
    map a | a in mem :: if pointer <= a < pointer + |bytes| then bytes[a - pointer] else mem[a]
  }

  lemma {:induction false} PokeTwice(mem: Memory, pointer: int, left: seq<Byte>, right: seq<Byte>)
    ensures Poke(Poke(mem, pointer, left), pointer + |left|, right) == Poke(mem, pointer, left + right)
  {
  }

  function Zeros(length: nat): (bytes: seq<Byte>)
    ensures |bytes| == length
    ensures forall i :: 0 <= i < length ==> bytes[i] == 0
  {
    seq(length, _ => 0)
  }

  function AlignUp(length: nat): (aligned: nat)
    ensures aligned % PAGE == 0 && length <= aligned < length + PAGE
    ensures length % PAGE == 0 ==> aligned == length
  {
    (length + 4095) / 4096 * 4096
  }

  /** The source bytes followed by zeros up to the end of their 4 KiB slot. */
  function Padded(bytes: seq<Byte>): (slot: seq<Byte>)
    ensures |slot| == AlignUp(|bytes|) && slot[..|bytes|] == bytes
  {
    bytes + Zeros(AlignUp(|bytes|) - |bytes|)
  }

  /** `s[k..]` of a file, `n` bytes long; the callers know that it is inside the file. */
  function Slice(file: seq<Byte>, offset: nat, length: nat): (bytes: seq<Byte>)
    requires offset + length <= |file|
    ensures |bytes| == length
  {
    file[offset..offset + length]
  }

  function WriteAt(file: seq<Byte>, offset: nat, bytes: seq<Byte>): (after: seq<Byte>)
    requires offset + |bytes| <= |file|
    ensures |after| == |file|
    ensures forall i :: 0 <= i < |file| ==>
      after[i] == if offset <= i < offset + |bytes| then bytes[i - offset] else file[i]
  {
    file[..offset] + bytes + file[offset + |bytes|..]
  }

  /**
    A streaming checksum (CRC-32, SHA-256) is a fold over the bytes it is fed. Nothing else about
    the two functions is used, so every statement below holds for any such digest.
   */
  function Fold<S>(step: (S, Byte) -> S, state: S, bytes: seq<Byte>): S {
    if bytes == [] then state else Fold(step, step(state, bytes[0]), bytes[1..])
  }

  lemma {:induction false} FoldConcat<S>(step: (S, Byte) -> S, state: S, left: seq<Byte>, right: seq<Byte>)
    ensures Fold(step, state, left + right) == Fold(step, Fold(step, state, left), right)
  {
    if left == [] {
      assert left + right == right;
    } else {
      assert (left + right)[1..] == left[1..] + right;
      FoldConcat(step, step(state, left[0]), left[1..], right);
    }
  }
}
