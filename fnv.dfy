/**
 * The 32-bit FNV-1a hash (Go's `hash/fnv.New32a`), which hashRGB runs over
 * the bytes of a string. Arithmetic is on `bv32`, so the multiplication by the
 * prime wraps modulo 2^32 as Go's `uint32` does.
 */
module Fnv {
  import opened GoNumerics

  const OffsetBasis: bv32 := 2166136261
  const Prime: bv32 := 16777619

  /** One byte of FNV-1a: XOR the byte into the state, then multiply by the prime. */
  function Step(h: bv32, b: byte): bv32 {
    (h ^ (b as bv32)) * Prime
  }

  /** The state reached from `h` after hashing `data` byte by byte. */
  function Fold(h: bv32, data: seq<byte>): bv32
    decreases |data|
  {
    if data == [] then h else Fold(Step(h, data[0]), data[1..])
  }

  /** The FNV-1a hash of `data`: the fold from the offset basis. */
  function Hash32a(data: seq<byte>): bv32 {
    Fold(OffsetBasis, data)
  }

  /** Hashing in two writes gives the state of hashing in one: the streaming property of hash.Hash32's Write. */
  lemma {:induction false} FoldAppend(h: bv32, a: seq<byte>, b: seq<byte>)
    ensures Fold(h, a + b) == Fold(Fold(h, a), b)
    decreases |a|
  {
    if a != [] {
      assert (a + b)[0] == a[0];
      assert (a + b)[1..] == a[1..] + b;
      FoldAppend(Step(h, a[0]), a[1..], b);
    } else {
      assert a + b == b;
    }
  }

  /**
   * `h := fnv.New32a(); h.Write(data); h.Sum32()`: the running 32-bit state
   * updated one byte at a time.
   */
  method Sum32(data: seq<byte>) returns (h: bv32)
    ensures h == Hash32a(data)
  {
    h := OffsetBasis;
    var i := 0;
    while i < |data|
      invariant 0 <= i <= |data|
      invariant Fold(h, data[i..]) == Hash32a(data)
    {
      assert data[i..][1..] == data[i + 1..];
      h := Step(h, data[i]);
      i := i + 1;
    }
  }

  /** Published FNV-1a test values: the empty input, "a" and "foobar". */
  lemma KnownValues()
    ensures Hash32a([]) == 0x811c9dc5
    ensures Hash32a([0x61]) == 0xe40c292c
    ensures Hash32a([0x66, 0x6f, 0x6f, 0x62, 0x61, 0x72]) == 0xbf9cf968
  {
  }
}
