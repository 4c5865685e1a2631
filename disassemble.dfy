/**
 * The bit-string disassembler (disassemble.ts): the buffer is turned into a
 * string of '0'/'1' characters, the fields of the first two bytes are cut
 * out of it by position, and register-to-register MOV and
 * immediate-to-register MOV are rendered through the REG name table.
 */
module Disassembler {
  import opened Wrappers
  import opened Text
  import opened Tables

  // -----------------------------------------------------------------------
  // Bit strings.

  function BitChar(x: nat): char
  {
    if x % 2 == 1 then '1' else '0'
  }

  predicate IsBinary(s: string)
  {
    forall i :: 0 <= i < |s| ==> s[i] == '0' || s[i] == '1'
  }

  /** The low k bits of v as '0'/'1' characters, most significant first. */
  function Bits(v: nat, k: nat): (s: string)
    ensures |s| == k
  {
    if k == 0 then "" else Bits(v / 2, k - 1) + [BitChar(v)]
  }

  lemma {:induction false} BitsBinary(v: nat, k: nat)
    ensures IsBinary(Bits(v, k))
  {
    if k > 0 {
      BitsBinary(v / 2, k - 1);
      var s := Bits(v, k);
      assert forall i :: 0 <= i < k - 1 ==> s[i] == Bits(v / 2, k - 1)[i];
    }
  }

  /** v >> m. */
  function Shr(v: nat, m: nat): nat
  {
    if m == 0 then v else Shr(v / 2, m - 1)
  }

  /** The value of a string of '0'/'1' digits, most significant first. */
  function BinaryValue(s: string): nat
  {
    if s == "" then 0 else 2 * BinaryValue(s[..|s| - 1]) + (if s[|s| - 1] == '1' then 1 else 0)
  }

  /** parseInt(s, 2) of a string of binary digits: the empty string gives NaN (None). */
  function ParseBinary(s: string): Option<nat>
    requires IsBinary(s)
  {
    if s == "" then None else Some(BinaryValue(s))
  }

  /** Character j of Bits(v, k) is bit k-1-j of v. */
  lemma {:induction false} BitsAt(v: nat, k: nat, j: nat)
    requires j < k
    ensures Bits(v, k)[j] == BitChar(Shr(v, k - 1 - j))
  {
    if j < k - 1 {
      BitsAt(v / 2, k - 1, j);
      ShrHalf(v, k - 2 - j);
    }
  }

  lemma ShrHalf(v: nat, m: nat)
    ensures Shr(v / 2, m) == Shr(v, m + 1)
  {
  }

  /** The high j bits of a (j+k)-bit field followed by its low k bits. */
  lemma {:induction false} BitsSplit(v: nat, j: nat, k: nat)
    ensures Bits(v, j + k) == Bits(Shr(v, k), j) + Bits(v, k)
  {
    if k > 0 {
      BitsSplit(v / 2, j, k - 1);
      var high, low := Bits(Shr(v, k), j), Bits(v / 2, k - 1);
      assert Bits(v, j + k) == (high + low) + [BitChar(v)];
      assert Bits(v, k) == low + [BitChar(v)];
      assert (high + low) + [BitChar(v)] == high + (low + [BitChar(v)]);
    } else {
      assert Bits(v, k) == [];
    }
  }

  /** Reading the bits back gives the number: the rendering loses nothing below 2^k. */
  lemma {:induction false} BitsValue(v: nat, k: nat)
    requires v < Pow2(k)
    ensures BinaryValue(Bits(v, k)) == v
  {
    if k > 0 {
      var s := Bits(v, k);
      assert s[..|s| - 1] == Bits(v / 2, k - 1);
      BitsValue(v / 2, k - 1);
    }
  }

  lemma BitsInjective(a: nat, b: nat, k: nat)
    requires a < Pow2(k) && b < Pow2(k)
    ensures Bits(a, k) == Bits(b, k) <==> a == b
  {
    if Bits(a, k) == Bits(b, k) {
      BitsValue(a, k);
      BitsValue(b, k);
    }
  }

  // Division by a constant, one linear step at a time: x == d * y + m with
  // 0 <= m < d fixes the quotient and the remainder.

  lemma Split2(x: int, y: int, m: int)
    requires x == 2 * y + m && 0 <= m < 2
    ensures x / 2 == y && x % 2 == m
  {
  }

  lemma Split4(x: int, y: int, m: int)
    requires x == 4 * y + m && 0 <= m < 4
    ensures x / 4 == y && x % 4 == m
  {
  }

  lemma Split8(x: int, y: int, m: int)
    requires x == 8 * y + m && 0 <= m < 8
    ensures x / 8 == y && x % 8 == m
  {
  }

  lemma Split16(x: int, y: int, m: int)
    requires x == 16 * y + m && 0 <= m < 16
    ensures x / 16 == y && x % 16 == m
  {
  }

  lemma Split32(x: int, y: int, m: int)
    requires x == 32 * y + m && 0 <= m < 32
    ensures x / 32 == y && x % 32 == m
  {
  }

  /** Halving a quotient by d is dividing by 2d. */
  lemma HalfOfHalf(v: nat)
    ensures v / 2 / 2 == v / 4
  {
    var a, b := v / 4, v % 4;
    Split2(v, 2 * a + b / 2, b % 2);
    Split2(2 * a + b / 2, a, b / 2);
  }

  lemma HalfOfQuarter(v: nat)
    ensures v / 4 / 2 == v / 8
  {
    var a, b := v / 8, v % 8;
    Split4(v, 2 * a + b / 4, b % 4);
    Split2(2 * a + b / 4, a, b / 4);
  }

  lemma HalfOfEighth(v: nat)
    ensures v / 8 / 2 == v / 16
  {
    var a, b := v / 16, v % 16;
    Split8(v, 2 * a + b / 8, b % 8);
    Split2(2 * a + b / 8, a, b / 8);
  }

  lemma HalfOfSixteenth(v: nat)
    ensures v / 16 / 2 == v / 32
  {
    var a, b := v / 32, v % 32;
    Split16(v, 2 * a + b / 16, b % 16);
    Split2(2 * a + b / 16, a, b / 16);
  }

  lemma HalfOfThirtySecond(v: nat)
    ensures v / 32 / 2 == v / 64
  {
    var a, b := v / 64, v % 64;
    Split32(v, 2 * a + b / 32, b % 32);
    Split2(2 * a + b / 32, a, b / 32);
  }

  lemma QuarterOfQuarter(v: nat)
    ensures v / 4 / 4 == v / 16
  {
    HalfOfHalf(v / 4);
    HalfOfQuarter(v);
    HalfOfEighth(v);
  }

  /** One more shift halves the result. */
  lemma {:induction false} ShrLast(v: nat, m: nat)
    ensures Shr(v, m + 1) == Shr(v, m) / 2
  {
    if m > 0 {
      ShrLast(v / 2, m - 1);
    }
  }

  /** v >> m for the shifts the fields use. */
  lemma ShrSmall(v: nat)
    ensures Shr(v, 1) == v / 2 && Shr(v, 2) == v / 4 && Shr(v, 3) == v / 8
    ensures Shr(v, 4) == v / 16 && Shr(v, 6) == v / 64
  {
    ShrLast(v, 0);
    ShrLast(v, 1);
    HalfOfHalf(v);
    ShrLast(v, 2);
    HalfOfQuarter(v);
    ShrLast(v, 3);
    HalfOfEighth(v);
    ShrLast(v, 4);
    HalfOfSixteenth(v);
    ShrLast(v, 5);
    HalfOfThirtySecond(v);
  }

  lemma Bits3(v: nat)
    ensures Bits(v, 3) == [BitChar(v / 4), BitChar(v / 2), BitChar(v)]
  {
    assert Bits(v, 3) == [BitChar(v / 2 / 2), BitChar(v / 2), BitChar(v)];
    HalfOfHalf(v);
  }

  lemma Bits4(v: nat)
    ensures Bits(v, 4) == [BitChar(v / 8), BitChar(v / 4), BitChar(v / 2), BitChar(v)]
  {
    assert Bits(v, 4) == [BitChar(v / 2 / 2 / 2), BitChar(v / 2 / 2), BitChar(v / 2), BitChar(v)];
    HalfOfHalf(v);
    HalfOfQuarter(v);
  }

  /** Bit j < 3 of x is bit j of x % 8. */
  lemma LowDigits8(x: nat)
    ensures (x / 4) % 2 == ((x % 8) / 4) % 2
    ensures (x / 2) % 2 == ((x % 8) / 2) % 2
    ensures x % 2 == (x % 8) % 2
  {
    var q, r := x / 8, x % 8;
    Split4(x, 2 * q + r / 4, r % 4);
    Split2(2 * q + r / 4, q, r / 4);
    Split2(r / 4, 0, r / 4);
    Split2(x, 4 * q + r / 2, r % 2);
    Split2(4 * q + r / 2, 2 * q + r / 2 / 2, (r / 2) % 2);
  }

  /** Bit j < 4 of x is bit j of x % 16. */
  lemma LowDigits16(x: nat)
    ensures (x / 8) % 2 == ((x % 16) / 8) % 2
    ensures (x / 4) % 2 == ((x % 16) / 4) % 2
    ensures (x / 2) % 2 == ((x % 16) / 2) % 2
    ensures x % 2 == (x % 16) % 2
  {
    var q, r := x / 16, x % 16;
    Split8(x, 2 * q + r / 8, r % 8);
    Split2(2 * q + r / 8, q, r / 8);
    Split2(r / 8, 0, r / 8);
    Split4(x, 4 * q + r / 4, r % 4);
    Split2(4 * q + r / 4, 2 * q + r / 4 / 2, (r / 4) % 2);
    Split2(x, 8 * q + r / 2, r % 2);
    Split2(8 * q + r / 2, 4 * q + r / 2 / 2, (r / 2) % 2);
  }

  /** A 1-, 3- or 4-bit field depends only on the low bits of the number. */
  lemma LowBits1(x: nat)
    ensures Bits(x, 1) == [BitChar(x)] && Bits(x, 1) == Bits(x % 2, 1)
  {
    assert Bits(x, 1) == Bits(x / 2, 0) + [BitChar(x)];
    assert Bits(x % 2, 1) == Bits(x % 2 / 2, 0) + [BitChar(x % 2)];
    assert (x % 2) % 2 == x % 2;
  }

  lemma LowBits3(x: nat)
    ensures Bits(x, 3) == Bits(x % 8, 3)
  {
    Bits3(x);
    Bits3(x % 8);
    LowDigits8(x);
  }

  lemma LowBits4(x: nat)
    ensures Bits(x, 4) == Bits(x % 16, 4)
  {
    Bits4(x);
    Bits4(x % 16);
    LowDigits16(x);
  }

  // -----------------------------------------------------------------------
  // bufferToBinaryString.

  /** The specification: each byte as eight bits, most significant first, bytes in order. */
  function BinaryString(data: seq<Byte>): (s: string)
    ensures |s| == 8 * |data|
  {
    if data == [] then "" else BinaryString(data[..|data| - 1]) + Bits(data[|data| - 1], 8)
  }

  function HexDigit(n: nat): char
    requires n < 16
  {
    "0123456789abcdef"[n]
  }

  predicate IsHexDigit(c: char)
  {
    '0' <= c <= '9' || 'a' <= c <= 'f'
  }

  /** `data.toString('hex')`: two lower-case hex digits per byte. */
  function HexString(data: seq<Byte>): (hex: string)
    ensures |hex| == 2 * |data|
  {
    if data == [] then ""
    else
      var b := data[|data| - 1];
      HexString(data[..|data| - 1]) + [HexDigit(b / 16), HexDigit(b % 16)]
  }

  /** parseInt(c, 16) for one hex digit. */
  function HexValue(c: char): (n: nat)
    requires IsHexDigit(c)
    ensures n < 16
  {
    if c <= '9' then c as int - '0' as int else c as int - 'a' as int + 10
  }

  lemma HexDigitValue(n: nat)
    requires n < 16
    ensures IsHexDigit(HexDigit(n)) && HexValue(HexDigit(n)) == n
  {
  }

  predicate IsHex(h: string)
  {
    forall i :: 0 <= i < |h| ==> IsHexDigit(h[i])
  }

  /** What the loop of bufferToBinaryString appends: four bits per hex digit, in order. */
  function HexBits(h: string): (s: string)
    requires IsHex(h)
    ensures |s| == 4 * |h|
  {
    if h == "" then "" else HexBits(h[..|h| - 1]) + Bits(HexValue(h[|h| - 1]), 4)
  }

  /** bufferToBinaryString: four bits per hex digit of the buffer's hex rendering. */
  method BufferToBinaryString(data: seq<Byte>) returns (binary: string)
    ensures binary == BinaryString(data)
  {
    binary := "";
    var hex := HexString(data);
    HexStringIsHex(data);
    var i := 0;
    while i < |hex|
      invariant i <= |hex| && binary == HexBits(hex[..i])
    {
      assert hex[..i + 1][..i] == hex[..i];
      binary := binary + Bits(HexValue(hex[i]), 4);
      i := i + 1;
    }
    assert hex[..i] == hex;
    HexBitsOfHexString(data);
  }

  lemma {:induction false} HexStringIsHex(data: seq<Byte>)
    ensures IsHex(HexString(data))
  {
    if data != [] {
      var b := data[|data| - 1];
      HexStringIsHex(data[..|data| - 1]);
      HexDigitValue(b / 16);
      HexDigitValue(b % 16);
    }
  }

  /** A byte's eight bits are its high nibble's four followed by its low nibble's four. */
  lemma ByteNibbles(b: Byte)
    ensures Bits(b, 8) == Bits(b / 16, 4) + Bits(b % 16, 4)
  {
    LowBits4(b);
    BitsSplit(b, 4, 4);
    ShrSmall(b);
  }

  /** Two more hex digits append their bits. */
  lemma HexBitsAppend(front: string, x: char, y: char)
    requires IsHex(front) && IsHexDigit(x) && IsHexDigit(y)
    ensures IsHex(front + [x, y])
    ensures HexBits(front + [x, y]) == HexBits(front) + (Bits(HexValue(x), 4) + Bits(HexValue(y), 4))
  {
    var h := front + [x, y];
    assert IsHex(h) by {
      forall i | 0 <= i < |h|
        ensures IsHexDigit(h[i])
      {
        if i < |front| {
          assert h[i] == front[i];
        }
      }
    }
    assert h[..|h| - 1][..|h| - 2] == front;
    assert h[..|h| - 1] == front + [x];
    var p, q := Bits(HexValue(x), 4), Bits(HexValue(y), 4);
    assert HexBits(h) == (HexBits(front) + p) + q;
    assert (HexBits(front) + p) + q == HexBits(front) + (p + q);
  }

  /** The hex detour loses nothing: the digits' bits are the bytes' bits. */
  lemma {:induction false} HexBitsOfHexString(data: seq<Byte>)
    ensures IsHex(HexString(data)) && HexBits(HexString(data)) == BinaryString(data)
  {
    HexStringIsHex(data);
    if data != [] {
      var init, b := data[..|data| - 1], data[|data| - 1];
      var hi, lo := HexDigit(b / 16), HexDigit(b % 16);
      HexBitsOfHexString(init);
      HexDigitValue(b / 16);
      HexDigitValue(b % 16);
      assert HexString(data) == HexString(init) + [hi, lo];
      HexBitsAppend(HexString(init), hi, lo);
      ByteNibbles(b);
      assert BinaryString(data) == BinaryString(init) + Bits(b, 8);
    }
  }

  // Properties of the bit string.

  lemma {:induction false} BinaryStringConcat(a: seq<Byte>, b: seq<Byte>)
    ensures BinaryString(a + b) == BinaryString(a) + BinaryString(b)
    decreases |b|
  {
    if b != [] {
      var init := b[..|b| - 1];
      BinaryStringConcat(a, init);
      assert (a + b)[..|a + b| - 1] == a + init;
      assert (a + b)[|a + b| - 1] == b[|b| - 1];
      assert BinaryString(a + b) == BinaryString(a + init) + Bits(b[|b| - 1], 8);
      assert BinaryString(b) == BinaryString(init) + Bits(b[|b| - 1], 8);
    } else {
      assert a + b == a;
    }
  }

  /** Every character is '0' or '1'. */
  lemma BinaryStringBinary(data: seq<Byte>)
    ensures IsBinary(BinaryString(data))
  {
    forall j | 0 <= j < |BinaryString(data)|
      ensures BinaryString(data)[j] == '0' || BinaryString(data)[j] == '1'
    {
      BinaryStringBit(data, j / 8, j % 8);
      assert 8 * (j / 8) + j % 8 == j;
    }
  }

  /** The middle part of a concatenation, cut out by position. */
  lemma MiddleSlice(a: string, b: string, c: string)
    ensures ((a + b) + c)[|a|..|a| + |b|] == b
  {
  }

  lemma BinaryStringOne(b: Byte)
    ensures BinaryString([b]) == Bits(b, 8)
  {
    assert [b][..0] == [];
  }

  /** A buffer is the bytes before i, byte i, and the bytes after it. */
  lemma Around(data: seq<Byte>, i: nat)
    requires i < |data|
    ensures data == (data[..i] + [data[i]]) + data[i + 1..]
  {
    assert data[..i + 1] == data[..i] + [data[i]];
    assert data == data[..i + 1] + data[i + 1..];
  }

  /** Byte i occupies characters 8i..8i+7, most significant bit first. */
  lemma BinaryStringByte(data: seq<Byte>, i: nat)
    requires i < |data|
    ensures BinaryString(data)[8 * i .. 8 * i + 8] == Bits(data[i], 8)
  {
    var front, back := data[..i], data[i + 1..];
    Around(data, i);
    BinaryStringConcat(front + [data[i]], back);
    BinaryStringConcat(front, [data[i]]);
    BinaryStringOne(data[i]);
    MiddleSlice(BinaryString(front), Bits(data[i], 8), BinaryString(back));
  }

  lemma BinaryStringBit(data: seq<Byte>, i: nat, j: nat)
    requires i < |data| && j < 8
    ensures BinaryString(data)[8 * i + j] == BitChar(Shr(data[i], 7 - j))
  {
    BinaryStringByte(data, i);
    BitsAt(data[i], 8, j);
    assert BinaryString(data)[8 * i + j] == BinaryString(data)[8 * i .. 8 * i + 8][j];
  }

  /** Reading a bit string back eight characters at a time. */
  function BytesOfBinary(s: string): seq<nat>
    requires |s| % 8 == 0
  {
    if s == "" then [] else BytesOfBinary(s[..|s| - 8]) + [BinaryValue(s[|s| - 8..])]
  }

  lemma ByteBitsValue(b: Byte)
    ensures BinaryValue(Bits(b, 8)) == b
  {
    assert Pow2(8) == 256;
    BitsValue(b, 8);
  }

  lemma InitLast(data: seq<Byte>)
    requires data != []
    ensures data[..|data| - 1] + [data[|data| - 1]] == data
  {
  }

  lemma Multiple8(n: nat)
    ensures (8 * n) % 8 == 0
  {
    Split8(8 * n, n, 0);
  }

  /** Reading one more byte's eight characters appends its value. */
  lemma BytesOfBinaryAppend(front: string, bits: string)
    requires |front| % 8 == 0 && |bits| == 8
    ensures BytesOfBinary(front + bits) == BytesOfBinary(front) + [BinaryValue(bits)]
  {
    var s := front + bits;
    assert s[..|s| - 8] == front;
    assert s[|s| - 8..] == bits;
  }

  /** The bit string determines the buffer. */
  lemma {:induction false} BinaryStringRoundTrip(data: seq<Byte>)
    ensures BytesOfBinary(BinaryString(data)) == data
  {
    if data != [] {
      var init, last := data[..|data| - 1], data[|data| - 1];
      BinaryStringRoundTrip(init);
      Multiple8(|init|);
      BytesOfBinaryAppend(BinaryString(init), Bits(last, 8));
      ByteBitsValue(last);
      InitLast(data);
    }
  }

  // -----------------------------------------------------------------------
  // The REG table.

  const REG: map<string, map<string, string>> := map[
    "000" := map["0" := "al", "1" := "ax"],
    "001" := map["0" := "cl", "1" := "cx"],
    "010" := map["0" := "dl", "1" := "dx"],
    "011" := map["0" := "bl", "1" := "bx"],
    "100" := map["0" := "ah", "1" := "sp"],
    "101" := map["0" := "ch", "1" := "bp"],
    "110" := map["0" := "dh", "1" := "si"],
    "111" := map["0" := "bh", "1" := "di"]
  ]

  predicate InTable(code: string, w: string)
  {
    code in REG && w in REG[code]
  }

  /** Row `code` of the REG table holds `lo` for width "0" and `hi` for width "1". */
  predicate RowIs(code: string, lo: string, hi: string)
  {
    InTable(code, "0") && InTable(code, "1") && REG[code]["0"] == lo && REG[code]["1"] == hi
  }

  lemma Row000()
    ensures RowIs(Bits(0, 3), Name(RegisterEncoding(0, 0)), Name(RegisterEncoding(1, 0)))
  {
    assert Bits(0, 3) == "000";
    assert Name(RegisterEncoding(0, 0)) == "al" && Name(RegisterEncoding(1, 0)) == "ax";
    assert REG["000"] == map["0" := "al", "1" := "ax"];
  }

  lemma Row001()
    ensures RowIs(Bits(1, 3), Name(RegisterEncoding(0, 1)), Name(RegisterEncoding(1, 1)))
  {
    assert Bits(1, 3) == "001";
    assert Name(RegisterEncoding(0, 1)) == "cl" && Name(RegisterEncoding(1, 1)) == "cx";
    assert REG["001"] == map["0" := "cl", "1" := "cx"];
  }

  lemma Row010()
    ensures RowIs(Bits(2, 3), Name(RegisterEncoding(0, 2)), Name(RegisterEncoding(1, 2)))
  {
    assert Bits(2, 3) == "010";
    assert Name(RegisterEncoding(0, 2)) == "dl" && Name(RegisterEncoding(1, 2)) == "dx";
    assert REG["010"] == map["0" := "dl", "1" := "dx"];
  }

  lemma Row011()
    ensures RowIs(Bits(3, 3), Name(RegisterEncoding(0, 3)), Name(RegisterEncoding(1, 3)))
  {
    assert Bits(3, 3) == "011";
    assert Name(RegisterEncoding(0, 3)) == "bl" && Name(RegisterEncoding(1, 3)) == "bx";
    assert REG["011"] == map["0" := "bl", "1" := "bx"];
  }

  lemma Row100()
    ensures RowIs(Bits(4, 3), Name(RegisterEncoding(0, 4)), Name(RegisterEncoding(1, 4)))
  {
    assert Bits(4, 3) == "100";
    assert Name(RegisterEncoding(0, 4)) == "ah" && Name(RegisterEncoding(1, 4)) == "sp";
    assert REG["100"] == map["0" := "ah", "1" := "sp"];
  }

  lemma Row101()
    ensures RowIs(Bits(5, 3), Name(RegisterEncoding(0, 5)), Name(RegisterEncoding(1, 5)))
  {
    assert Bits(5, 3) == "101";
    assert Name(RegisterEncoding(0, 5)) == "ch" && Name(RegisterEncoding(1, 5)) == "bp";
    assert REG["101"] == map["0" := "ch", "1" := "bp"];
  }

  lemma Row110()
    ensures RowIs(Bits(6, 3), Name(RegisterEncoding(0, 6)), Name(RegisterEncoding(1, 6)))
  {
    assert Bits(6, 3) == "110";
    assert Name(RegisterEncoding(0, 6)) == "dh" && Name(RegisterEncoding(1, 6)) == "si";
    assert REG["110"] == map["0" := "dh", "1" := "si"];
  }

  lemma Row111()
    ensures RowIs(Bits(7, 3), Name(RegisterEncoding(0, 7)), Name(RegisterEncoding(1, 7)))
  {
    assert Bits(7, 3) == "111";
    assert Name(RegisterEncoding(0, 7)) == "bh" && Name(RegisterEncoding(1, 7)) == "di";
    assert REG["111"] == map["0" := "bh", "1" := "di"];
  }

  /** Row c of the REG table, in the width order of registerEncoding. */
  lemma RegRow(c: nat)
    requires c < 8
    ensures RowIs(Bits(c, 3), Name(RegisterEncoding(0, c)), Name(RegisterEncoding(1, c)))
  {
    match c
    case 0 => Row000();
    case 1 => Row001();
    case 2 => Row010();
    case 3 => Row011();
    case 4 => Row100();
    case 5 => Row101();
    case 6 => Row110();
    case 7 => Row111();
  }

  /** The REG table is total on 3-bit codes and 1-bit widths, and names what registerEncoding names. */
  lemma RegTableAgrees(code: nat, w: nat)
    ensures InTable(Bits(code, 3), Bits(w, 1))
    ensures REG[Bits(code, 3)][Bits(w, 1)] == Name(RegisterEncoding(w % 2, code % 8))
  {
    LowBits3(code);
    LowBits1(w);
    RegRow(code % 8);
    assert Bits(w, 1) == (if w % 2 == 1 then "1" else "0");
  }

  // -----------------------------------------------------------------------
  // disassemble.

  /** The strings cut out of the first two bytes. */
  datatype BitFields = BitFields(op: string, d: string, w: string, mod: string, reg: string, rm: string)

  function Fields(data: seq<Byte>): BitFields
  {
    var binary := BinaryString(data);
    var firstByte := JsSlice(binary, 0, 8);
    var secondByte := JsSlice(binary, 8, 16);
    BitFields(
      JsSlice(firstByte, 0, 6), JsSlice(firstByte, 6, 7), JsSlice(firstByte, 7, 8),
      JsSlice(secondByte, 0, 2), JsSlice(secondByte, 2, 5), JsSlice(secondByte, 5, 8))
  }

  /** The fields of the immediate-to-register form, cut from the first 27 bytes. */
  datatype ImmediateFields = ImmediateFields(w: string, reg: string, dataM: string, dataL: string)

  /** The bytes the immediate layout reads: at most the first 27. */
  function ImmPrefix(data: seq<Byte>): (p: seq<Byte>)
    ensures |p| <= |data| && p == data[..|p|]
    ensures |data| >= 2 ==> |p| >= 2
  {
    data[..if |data| < 27 then |data| else 27]
  }

  function ImmFields(data: seq<Byte>): ImmediateFields
  {
    var binary := BinaryString(ImmPrefix(data));
    ImmediateFields(JsSlice(binary, 4, 5), JsSlice(binary, 5, 8), JsSlice(binary, 8, 12), JsSlice(binary, 12, 16))
  }

  predicate StartsWith(s: string, prefix: string)
  {
    |prefix| <= |s| && s[..|prefix|] == prefix
  }

  datatype Disassembly =
    | RegisterToRegister(op: string, d: string, w: string, mod: string, reg: string, rm: string, instruction: string)
    | ImmediateToRegister(instruction: string)

  /** registerToRegister: the REG field is the source when d is '0' and the destination otherwise. */
  function RegisterToRegisterText(f: BitFields): (r: Disassembly)
    requires InTable(f.reg, f.w) && InTable(f.rm, f.w)
    ensures r.RegisterToRegister? && r.op == f.op && r.d == f.d && r.w == f.w
    ensures r.mod == f.mod && r.reg == f.reg && r.rm == f.rm
  {
    var instruction :=
      if f.d == "0" then "mov " + REG[f.rm][f.w] + ", " + REG[f.reg][f.w]
      else "mov " + REG[f.reg][f.w] + ", " + REG[f.rm][f.w];
    RegisterToRegister(f.op, f.d, f.w, f.mod, f.reg, f.rm, instruction)
  }

  /** immediateToRegister: the value is parseInt(dataM + dataL, 2), rendered NaN when there are no bits. */
  function ImmediateToRegisterText(f: ImmediateFields): Disassembly
    requires InTable(f.reg, f.w) && IsBinary(f.dataM + f.dataL)
  {
    var value := ParseBinary(f.dataM + f.dataL);
    ImmediateToRegister("mov " + REG[f.reg][f.w] + ", " + (if value.Some? then NatToString(value.value) else "NaN"))
  }

  /** Bits lo..hi-1 of a byte, cut out of its eight characters by position. */
  lemma ByteField(v: nat, hi: nat, lo: nat)
    requires lo <= hi <= 8
    ensures JsSlice(Bits(v, 8), 8 - hi, 8 - lo) == Bits(Shr(v, lo), hi - lo)
  {
    var top := Shr(v, lo);
    BitsSplit(v, 8 - lo, lo);
    BitsSplit(top, 8 - hi, hi - lo);
    assert Bits(v, 8) == (Bits(Shr(top, hi - lo), 8 - hi) + Bits(top, hi - lo)) + Bits(v, lo);
    MiddleSlice(Bits(Shr(top, hi - lo), 8 - hi), Bits(top, hi - lo), Bits(v, lo));
  }

  /** The same field cut out of the whole bit string. */
  lemma SliceWithinByte(data: seq<Byte>, i: nat, hi: nat, lo: nat)
    requires i < |data| && lo <= hi <= 8
    ensures JsSlice(BinaryString(data), 8 * i + 8 - hi, 8 * i + 8 - lo) == Bits(Shr(data[i], lo), hi - lo)
  {
    var binary := BinaryString(data);
    BinaryStringByte(data, i);
    ByteField(data[i], hi, lo);
    assert binary[8 * i + 8 - hi .. 8 * i + 8 - lo] == binary[8 * i .. 8 * i + 8][8 - hi .. 8 - lo];
  }

  /** JsSlice(binary, 8i, 8i + 8) is byte i. */
  lemma ByteOfBinary(data: seq<Byte>, i: nat)
    requires i < |data|
    ensures JsSlice(BinaryString(data), 8 * i, 8 * i + 8) == Bits(data[i], 8)
  {
    BinaryStringByte(data, i);
  }

  /** The top four of six opcode bits are the high nibble. */
  lemma OpcodeNibble(v: nat)
    ensures Bits(v / 4, 6)[..4] == Bits(v / 16, 4)
  {
    BitsSplit(v / 4, 4, 2);
    ShrSmall(v / 4);
    QuarterOfQuarter(v);
  }

  lemma FirstByteFields(data: seq<Byte>)
    requires |data| >= 1
    ensures var f := Fields(data);
            f.op == Bits(data[0] / 4, 6) && f.d == Bits(data[0] / 2, 1) && f.w == Bits(data[0], 1)
            && f.op[..4] == Bits(data[0] / 16, 4)
  {
    var v := data[0];
    ByteOfBinary(data, 0);
    ByteField(v, 8, 2);
    ByteField(v, 2, 1);
    ByteField(v, 1, 0);
    ShrSmall(v);
    OpcodeNibble(v);
  }

  lemma SecondByteFields(data: seq<Byte>)
    requires |data| >= 2
    ensures var f := Fields(data);
            f.mod == Bits(data[1] / 64, 2) && f.reg == Bits(data[1] / 8, 3) && f.rm == Bits(data[1], 3)
  {
    var v := data[1];
    ByteOfBinary(data, 1);
    ByteField(v, 8, 6);
    ByteField(v, 6, 3);
    ByteField(v, 3, 0);
    ShrSmall(v);
  }

  lemma ShortSecondByte(data: seq<Byte>)
    requires |data| < 2
    ensures Fields(data).mod == ""
  {
  }

  lemma ImmediateFieldsOf(data: seq<Byte>)
    requires |data| >= 1
    ensures var f := ImmFields(data);
            f.w == Bits(data[0] / 8, 1) && f.reg == Bits(data[0], 3)
            && (|data| >= 2 ==> f.dataM + f.dataL == Bits(data[1], 8))
            && (|data| == 1 ==> f.dataM + f.dataL == "")
  {
    ImmediateHeadOf(data);
    ImmediateDataOf(data);
  }

  /** w and reg of the immediate layout come from the low nibble of the first byte. */
  lemma ImmediateHeadOf(data: seq<Byte>)
    requires |data| >= 1
    ensures ImmFields(data).w == Bits(data[0] / 8, 1) && ImmFields(data).reg == Bits(data[0], 3)
  {
    var prefix := ImmPrefix(data);
    assert prefix[0] == data[0];
    SliceWithinByte(prefix, 0, 4, 3);
    SliceWithinByte(prefix, 0, 3, 0);
    ShrSmall(data[0]);
  }

  /** The data field of the immediate layout is the second byte, or empty without one. */
  lemma ImmediateDataOf(data: seq<Byte>)
    requires |data| >= 1
    ensures |data| >= 2 ==> ImmFields(data).dataM + ImmFields(data).dataL == Bits(data[1], 8)
    ensures |data| == 1 ==> ImmFields(data).dataM + ImmFields(data).dataL == ""
  {
    var prefix := ImmPrefix(data);
    if |data| >= 2 {
      var v := data[1];
      assert prefix[1] == v;
      SliceWithinByte(prefix, 1, 8, 4);
      SliceWithinByte(prefix, 1, 4, 0);
      BitsSplit(v, 4, 4);
    } else {
      assert prefix == data;
    }
  }

  lemma RegisterToRegisterDefined(data: seq<Byte>)
    requires Fields(data).mod == "11"
    ensures InTable(Fields(data).reg, Fields(data).w) && InTable(Fields(data).rm, Fields(data).w)
  {
    if |data| < 2 {
      ShortSecondByte(data);
    }
    FirstByteFields(data);
    SecondByteFields(data);
    RegTableAgrees(data[1] / 8, data[0]);
    RegTableAgrees(data[1], data[0]);
  }

  lemma ImmediateDefined(data: seq<Byte>)
    requires StartsWith(Fields(data).op, "1011")
    ensures InTable(ImmFields(data).reg, ImmFields(data).w) && IsBinary(ImmFields(data).dataM + ImmFields(data).dataL)
  {
    assert |data| >= 1;
    ImmediateFieldsOf(data);
    if |data| >= 2 {
      BitsBinary(data[1], 8);
    }
    RegTableAgrees(data[0], data[0] / 8);
  }

  /** disassemble: undefined (None) for every other opcode, and for 100010 with a memory operand. */
  function Disassemble(data: seq<Byte>): Option<Disassembly>
  {
    var f := Fields(data);
    if f.op == "100010" && f.mod == "11" then
      RegisterToRegisterDefined(data);
      Some(RegisterToRegisterText(f))
    else if StartsWith(f.op, "1011") then
      ImmediateDefined(data);
      Some(ImmediateToRegisterText(ImmFields(data)))
    else None
  }

  // -----------------------------------------------------------------------
  // Properties of disassemble, in terms of the bytes.

  lemma OpcodeTests(data: seq<Byte>)
    requires |data| >= 1
    ensures Fields(data).op == "100010" <==> data[0] / 4 == 0x22
    ensures StartsWith(Fields(data).op, "1011") <==> data[0] / 16 == 0x0b
    ensures |data| >= 2 ==> (Fields(data).mod == "11" <==> data[1] / 64 == 3)
  {
    FirstByteFields(data);
    MovRegMemOpcode(data[0]);
    MovImmediateOpcode(data[0]);
    if |data| >= 2 {
      SecondByteFields(data);
      RegisterMode(data[1]);
    }
  }

  lemma MovRegMemOpcode(b: Byte)
    ensures Bits(b / 4, 6) == "100010" <==> b / 4 == 0x22
  {
    assert Pow2(6) == 64;
    assert Bits(0x22, 6) == "100010";
    BitsInjective(b / 4, 0x22, 6);
  }

  lemma MovImmediateOpcode(b: Byte)
    ensures Bits(b / 16, 4) == "1011" <==> b / 16 == 0x0b
  {
    assert Pow2(4) == 16;
    assert Bits(0x0b, 4) == "1011";
    BitsInjective(b / 16, 0x0b, 4);
  }

  lemma RegisterMode(b: Byte)
    ensures Bits(b / 64, 2) == "11" <==> b / 64 == 3
  {
    assert Pow2(2) == 4;
    assert Bits(3, 2) == "11";
    BitsInjective(b / 64, 3, 2);
  }

  /**
   * 100010dw with MOD 11: the register named by REG is the source when d is
   * 0 and the destination when d is 1; both names come from the row w selects.
   */
  lemma DisassembleRegisterToRegister(data: seq<Byte>)
    requires |data| >= 2 && data[0] / 4 == 0x22 && data[1] / 64 == 3
    ensures var w := data[0] % 2;
            var reg := Name(RegisterEncoding(w, (data[1] / 8) % 8));
            var rm := Name(RegisterEncoding(w, data[1] % 8));
            Disassemble(data).Some? && Disassemble(data).value.RegisterToRegister?
            && Disassemble(data).value.instruction
               == if (data[0] / 2) % 2 == 0 then "mov " + rm + ", " + reg else "mov " + reg + ", " + rm
  {
    OpcodeTests(data);
    FirstByteFields(data);
    SecondByteFields(data);
    RegTableAgrees(data[1] / 8, data[0]);
    RegTableAgrees(data[1], data[0]);
    LowBits1(data[0] / 2);
    assert Fields(data).d == "0" <==> (data[0] / 2) % 2 == 0;
  }

  /**
   * 1011wreg: the destination is REG[reg][w] and the value is the second
   * byte read as an unsigned number; a missing second byte renders NaN.
   */
  lemma DisassembleImmediate(data: seq<Byte>)
    requires |data| >= 1 && data[0] / 16 == 0x0b
    ensures Disassemble(data) == Some(ImmediateToRegister(
              "mov " + Name(RegisterEncoding((data[0] / 8) % 2, data[0] % 8)) + ", "
              + (if |data| >= 2 then NatToString(data[1]) else "NaN")))
  {
    OpcodeTests(data);
    ImmediateFieldsOf(data);
    RegTableAgrees(data[0], data[0] / 8);
    assert Fields(data).op != "100010" by {
      FirstByteFields(data);
      assert data[0] / 4 != 0x22;
    }
    if |data| >= 2 {
      assert Pow2(8) == 256;
      BitsValue(data[1], 8);
    }
  }

  /** Exactly those two shapes are disassembled. */
  lemma DisassembleUndefinedIff(data: seq<Byte>)
    ensures Disassemble(data).None? <==>
              |data| == 0
              || (data[0] / 16 != 0x0b && !(|data| >= 2 && data[0] / 4 == 0x22 && data[1] / 64 == 3))
  {
    if |data| >= 1 {
      OpcodeTests(data);
      if |data| < 2 {
        ShortSecondByte(data);
      }
    }
  }

  /** Everything after the first two bytes is ignored. */
  lemma DisassembleReadsTwoBytes(data: seq<Byte>, rest: seq<Byte>)
    requires |data| == 2
    ensures Disassemble(data + rest) == Disassemble(data)
  {
    var full := data + rest;
    assert full[0] == data[0] && full[1] == data[1];
    DisassembleUndefinedIff(full);
    DisassembleUndefinedIff(data);
    if full[0] / 16 == 0x0b {
      DisassembleImmediate(full);
      DisassembleImmediate(data);
    } else if full[0] / 4 == 0x22 && full[1] / 64 == 3 {
      OpcodeTests(full);
      OpcodeTests(data);
      FirstByteFields(full);
      FirstByteFields(data);
      SecondByteFields(full);
      SecondByteFields(data);
    }
  }

  // Concrete buffers: any buffer that starts with the given bytes.

  /** DisassembleRegisterToRegister with the byte fields already worked out. */
  lemma RegisterToRegisterAt(data: seq<Byte>, w: nat, d: nat, reg: nat, rm: nat)
    requires |data| >= 2 && data[0] / 4 == 0x22 && data[1] / 64 == 3
    requires w == data[0] % 2 && d == (data[0] / 2) % 2 && reg == (data[1] / 8) % 8 && rm == data[1] % 8
    ensures Disassemble(data).Some? && Disassemble(data).value.RegisterToRegister?
    ensures Disassemble(data).value.instruction
            == if d == 0 then "mov " + Name(RegisterEncoding(w, rm)) + ", " + Name(RegisterEncoding(w, reg))
               else "mov " + Name(RegisterEncoding(w, reg)) + ", " + Name(RegisterEncoding(w, rm))
  {
    DisassembleRegisterToRegister(data);
  }

  /** DisassembleImmediate for a buffer with a second byte, the fields worked out. */
  lemma ImmediateAt(data: seq<Byte>, w: nat, reg: nat)
    requires |data| >= 2 && data[0] / 16 == 0x0b
    requires w == (data[0] / 8) % 2 && reg == data[0] % 8
    ensures Disassemble(data) == Some(ImmediateToRegister("mov " + Name(RegisterEncoding(w, reg)) + ", " + NatToString(data[1])))
  {
    DisassembleImmediate(data);
  }

  lemma MovCxBxText()
    ensures "mov " + Name(RegisterEncoding(1, 1)) + ", " + Name(RegisterEncoding(1, 3)) == "mov cx, bx"
  {
    assert Name(RegisterEncoding(1, 1)) == "cx" && Name(RegisterEncoding(1, 3)) == "bx";
  }

  lemma MovCxBx(data: seq<Byte>)
    requires |data| >= 2 && data[0] == 0x89 && data[1] == 0xd9
    ensures Disassemble(data).Some? && Disassemble(data).value.instruction == "mov cx, bx"
  {
    RegisterToRegisterAt(data, 1, 0, 3, 1);
    MovCxBxText();
  }

  lemma MovChAhText()
    ensures "mov " + Name(RegisterEncoding(0, 5)) + ", " + Name(RegisterEncoding(0, 4)) == "mov ch, ah"
  {
    assert Name(RegisterEncoding(0, 5)) == "ch" && Name(RegisterEncoding(0, 4)) == "ah";
  }

  lemma MovChAh(data: seq<Byte>)
    requires |data| >= 2 && data[0] == 0x88 && data[1] == 0xe5
    ensures Disassemble(data).Some? && Disassemble(data).value.instruction == "mov ch, ah"
  {
    RegisterToRegisterAt(data, 0, 0, 4, 5);
    MovChAhText();
  }

  lemma MovCh244Text()
    ensures "mov " + Name(RegisterEncoding(0, 5)) + ", " + NatToString(244) == "mov ch, 244"
  {
    assert Name(RegisterEncoding(0, 5)) == "ch";
    assert NatToString(2) == "2";
    assert NatToString(24) == NatToString(2) + [DigitChar(4)];
    assert NatToString(244) == NatToString(24) + [DigitChar(4)];
  }

  /** The immediate is read unsigned: f4 renders 244, not -12. */
  lemma ImmediateIsUnsigned(data: seq<Byte>)
    requires |data| >= 2 && data[0] == 0xb5 && data[1] == 0xf4
    ensures Disassemble(data) == Some(ImmediateToRegister("mov ch, 244"))
  {
    ImmediateAt(data, 0, 5);
    MovCh244Text();
  }

  lemma MovCx12Text()
    ensures "mov " + Name(RegisterEncoding(1, 1)) + ", " + NatToString(12) == "mov cx, 12"
  {
    assert Name(RegisterEncoding(1, 1)) == "cx";
    assert NatToString(1) == "1";
    assert NatToString(12) == NatToString(1) + [DigitChar(2)];
  }

  /** A word immediate is read from the second byte alone; what follows is ignored. */
  lemma WordImmediateReadsOneByte(data: seq<Byte>)
    requires |data| >= 2 && data[0] == 0xb9 && data[1] == 0x0c
    ensures Disassemble(data) == Some(ImmediateToRegister("mov cx, 12"))
  {
    ImmediateAt(data, 1, 1);
    MovCx12Text();
  }
}
