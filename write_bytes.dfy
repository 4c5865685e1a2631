/**
 * WriteAllBytes of part2/loop.c: a counted loop that stores the low byte of
 * each index into a buffer passed by value (the count and the data pointer
 * are copied; only the bytes behind the pointer are shared).
 */
module WriteBytes {
  newtype u8 = x: int | 0 <= x < 0x100

  /** size_t and u64: 64 bits wide. */
  newtype u64 = x: int | 0 <= x < 0x1_0000_0000_0000_0000

  /** `struct buffer`: a count and a pointer to the bytes. */
  datatype Buffer = Buffer(count: u64, data: array<u8>)

  /** `(u8)i`: the low eight bits of the index. */
  function LowByte(i: u64): (b: u8)
    ensures b as int == i as int % 0x100
  {
    (i % 0x100) as u8
  }

  /** The bytes the loop writes: byte i is i modulo 256. */
  function Pattern(n: nat): (r: seq<u8>)
    ensures |r| == n && forall i :: 0 <= i < n ==> r[i] as int == i % 0x100
  {
    seq(n, i requires 0 <= i < n => (i % 0x100) as u8)
  }

  /**
   * WriteAllBytes: the caller hands over a pointer to at least Count bytes.
   * The first Count bytes become the pattern and no byte past them is written.
   */
  method WriteAllBytes(destBuffer: Buffer)
    requires destBuffer.count as int <= destBuffer.data.Length
    modifies destBuffer.data
    ensures destBuffer.data[..destBuffer.count] == Pattern(destBuffer.count as int)
    ensures destBuffer.data[destBuffer.count..] == old(destBuffer.data[destBuffer.count..])
  {
    var i: u64 := 0;
    while i < destBuffer.count
      invariant i <= destBuffer.count
      invariant destBuffer.data[..i] == Pattern(i as int)
      invariant destBuffer.data[destBuffer.count..] == old(destBuffer.data[destBuffer.count..])
      decreases destBuffer.count - i
    {
      destBuffer.data[i] := LowByte(i);
      i := i + 1;
    }
  }

  /** The pattern repeats every 256 bytes. */
  lemma PatternPeriodic(n: nat, i: nat)
    requires i + 0x100 < n
    ensures Pattern(n)[i + 0x100] == Pattern(n)[i]
  {
  }

  /** A longer buffer starts with the pattern of a shorter one. */
  lemma PatternPrefix(m: nat, n: nat)
    requires m <= n
    ensures Pattern(n)[..m] == Pattern(m)
  {
  }

  /** From 256 bytes on, the pattern holds every byte value, the value b first at index b. */
  lemma PatternCovers(n: nat, b: u8)
    requires n >= 0x100
    ensures Pattern(n)[b as int] == b
  {
  }
}
