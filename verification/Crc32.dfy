/** The table-driven CRC-32 of zip-folder.js against the bit-at-a-time register of the standard.
    A 32-bit pattern is the natural number it denotes: `c >>> k` divides, `c & 0xff` takes the
    remainder, and exclusive-or is defined bit by bit. */
module Crc32 {
  import opened ByteStrings
  import opened Records

  const POLY: nat := 0xedb8_8320
  const ONES: nat := 0xffff_ffff

  function Xor(a: nat, b: nat): nat
    decreases a, b
  {
    if a == 0 then b else if b == 0 then a
    else 2 * Xor(a / 2, b / 2) + if a % 2 == b % 2 then 0 else 1
  }

  function Pow2(k: nat): (p: nat)
    ensures p > 0
  {
    if k == 0 then 1 else 2 * Pow2(k - 1)
  }

  /** One step of the reflected shift register: the polynomial is mixed in when a one falls out. */
  function Shift(c: nat): nat {
    if c % 2 == 1 then Xor(POLY, c / 2) else c / 2
  }

  function Shifts(c: nat, k: nat): nat
    decreases k, c
  {
    if k == 0 then c else Shifts(Shift(c), k - 1)
  }

  // ---- reference: one message bit at a time, least significant bit first

  function FeedBits(c: nat, b: nat, k: nat): nat
    decreases k, c, b
  {
    if k == 0 then c else FeedBits(Shift(Xor(c, b % 2)), b / 2, k - 1)
  }

  function Register(c: nat, data: Bytes): nat
    decreases data, c
  {
    if data == [] then c else FeedBits(Register(c, data[..|data| - 1]), data[|data| - 1] as nat, 8)
  }

  function Not(c: nat): nat {
    if c <= ONES then ONES - c else 0
  }

  /** The CRC-32 of a byte string. */
  function Crc(data: Bytes): nat {
    Not(Register(ONES, data))
  }

  // ---- exclusive-or

  lemma {:induction false} XorBits(a: nat, b: nat)
    ensures Xor(a, b) / 2 == Xor(a / 2, b / 2)
    ensures Xor(a, b) % 2 == if a % 2 == b % 2 then 0 else 1
  {}

  lemma {:induction false} XorAssoc(a: nat, b: nat, c: nat)
    ensures Xor(Xor(a, b), c) == Xor(a, Xor(b, c))
    decreases a + b + c
  {
    if a != 0 && b != 0 && c != 0 {
      XorBits(a, b);
      XorBits(b, c);
      XorAssoc(a / 2, b / 2, c / 2);
      XorBits(Xor(a, b), c);
      XorBits(a, Xor(b, c));
    }
  }

  lemma {:induction false} XorComm(a: nat, b: nat)
    ensures Xor(a, b) == Xor(b, a)
    decreases a + b
  {
    if a != 0 && b != 0 { XorComm(a / 2, b / 2); }
  }

  lemma {:induction false} XorSelf(a: nat)
    ensures Xor(a, a) == 0
  {
    if a != 0 { XorSelf(a / 2); }
  }

  lemma {:induction false} XorBound(a: nat, b: nat, k: nat)
    requires a < Pow2(k) && b < Pow2(k)
    ensures Xor(a, b) < Pow2(k)
    decreases k
  {
    if a != 0 && b != 0 {
      XorBound(a / 2, b / 2, k - 1);
    }
  }

  /** A word split at bit k. */
  function Low(x: nat, k: nat): nat
    decreases k
  {
    if k == 0 then 0 else 2 * Low(x / 2, k - 1) + x % 2
  }

  function High(x: nat, k: nat): nat
    decreases k
  {
    if k == 0 then x else High(x / 2, k - 1)
  }

  function Up(h: nat, k: nat): nat
    decreases k
  {
    if k == 0 then h else 2 * Up(h, k - 1)
  }

  lemma {:induction false} XorParts(x: nat, k: nat)
    ensures Xor(Low(x, k), Up(High(x, k), k)) == x
    decreases k
  {
    if k > 0 {
      XorParts(x / 2, k - 1);
      XorDoubles(Low(x / 2, k - 1), Up(High(x / 2, k - 1), k - 1), x % 2);
    }
  }

  lemma XorDoubles(a: nat, b: nat, bit: nat)
    requires bit < 2
    ensures Xor(2 * a + bit, 2 * b) == 2 * Xor(a, b) + bit
  {
    var p, q := 2 * a + bit, 2 * b;
    assert p / 2 == a && p % 2 == bit && q / 2 == b && q % 2 == 0;
    XorBits(p, q);
  }

  lemma {:induction false} XorHigh(a: nat, b: nat, k: nat)
    requires b < Pow2(k)
    ensures High(Xor(a, b), k) == High(a, k)
    decreases k
  {
    if k > 0 {
      XorBits(a, b);
      XorHigh(a / 2, b / 2, k - 1);
    }
  }

  // ---- why the table works: the register is linear over exclusive-or

  lemma XorSwap(p: nat, q: nat, x: nat, y: nat)
    ensures Xor(Xor(p, x), Xor(q, y)) == Xor(Xor(p, q), Xor(x, y))
  {
    XorAssoc(p, x, Xor(q, y));
    XorAssoc(x, q, y);
    XorComm(x, q);
    XorAssoc(q, x, y);
    XorAssoc(p, q, Xor(x, y));
  }

  lemma ShiftLinear(a: nat, b: nat)
    ensures Shift(Xor(a, b)) == Xor(Shift(a), Shift(b))
  {
    XorBits(a, b);
    var p := if a % 2 == 1 then POLY else 0;
    var q := if b % 2 == 1 then POLY else 0;
    XorSwap(p, q, a / 2, b / 2);
    XorSelf(POLY);
    assert Shift(a) == Xor(p, a / 2) && Shift(b) == Xor(q, b / 2);
  }

  lemma {:induction false} ShiftsLinear(a: nat, b: nat, k: nat)
    ensures Shifts(Xor(a, b), k) == Xor(Shifts(a, k), Shifts(b, k))
    decreases k
  {
    if k > 0 {
      ShiftLinear(a, b);
      ShiftsLinear(Shift(a), Shift(b), k - 1);
    }
  }

  /** Steps only move a word whose low bits are zero. */
  lemma {:induction false} ShiftsMoves(h: nat, k: nat)
    ensures Shifts(Up(h, k), k) == h
    decreases k
  {
    if k > 0 {
      assert Shift(Up(h, k)) == Up(h, k - 1);
      ShiftsMoves(h, k - 1);
    }
  }

  /** Mixing in more message bits commutes with a step, as long as the lowest one is mixed in first. */
  lemma ShiftMixes(c: nat, m: nat)
    ensures Shift(Xor(c, m)) == Xor(Shift(Xor(c, m % 2)), m / 2)
  {
    XorBits(c, m);
    XorBits(c, m % 2);
    XorAssoc(POLY, c / 2, m / 2);
  }

  /** Feeding k message bits equals mixing them in first and shifting k times. */
  lemma {:induction false} FeedBitsIsShifts(c: nat, b: nat, k: nat)
    requires b < Pow2(k)
    ensures FeedBits(c, b, k) == Shifts(Xor(c, b), k)
    decreases k
  {
    if k > 0 {
      FeedBitsIsShifts(Shift(Xor(c, b % 2)), b / 2, k - 1);
      ShiftMixes(c, b);
    }
  }

  /** k steps on a word: the low bits are looked up, the high bits only move. */
  lemma LowAndHigh(x: nat, k: nat)
    ensures Shifts(x, k) == Xor(Shifts(Low(x, k), k), High(x, k))
  {
    XorParts(x, k);
    ShiftsLinear(Low(x, k), Up(High(x, k), k), k);
    ShiftsMoves(High(x, k), k);
  }

  lemma SplitByte(x: nat)
    ensures Low(x, 8) == x % 256 && High(x, 8) == x / 256
  {
    SplitNibble(x);
    SplitNibble(x / 16);
    assert High(x, 8) == High(High(x, 4), 4);
    assert Low(x, 8) == Low(x, 4) + 16 * Low(High(x, 4), 4);
    Halves(x, 16, 16);
  }

  lemma SplitNibble(x: nat)
    ensures Low(x, 4) == x % 16 && High(x, 4) == x / 16
  {
    assert High(x, 2) == x / 4 && Low(x, 2) == x % 4;
    assert High(x / 4, 2) == x / 4 / 4 && Low(x / 4, 2) == x / 4 % 4;
    assert High(x, 4) == High(x / 4, 2) && Low(x, 4) == Low(x, 2) + 4 * Low(x / 4, 2);
    Halves(x, 4, 4);
  }

  lemma Halves(x: nat, a: nat, b: nat)
    requires (a == 4 && b == 4) || (a == 16 && b == 16)
    ensures x / a / b == x / (a * b) && x % a + a * (x / a % b) == x % (a * b)
  {}

  lemma MaskByte(b: byte)
    ensures Pow2(8) == 256 && b as nat < Pow2(8)
  {
    assert Pow2(4) == 16;
  }

  /** One table step feeds the eight bits of a byte. */
  lemma ByteStep(c: nat, b: byte)
    ensures FeedBits(c, b as nat, 8) == Xor(Shifts(Xor(c, b as nat) % 256, 8), c / 256)
  {
    var x := Xor(c, b as nat);
    MaskByte(b);
    FeedBitsIsShifts(c, b as nat, 8);
    LowAndHigh(x, 8);
    XorHigh(c, b as nat, 8);
    SplitByte(x);
    SplitByte(c);
  }

  // ---- the register stays within 32 bits

  lemma Pow2Word()
    ensures Pow2(32) == ONES + 1
  {
    assert Pow2(8) == 256;
    assert Pow2(16) == 65536;
    assert Pow2(24) == 0x100_0000;
  }

  lemma ShiftBound(c: nat)
    requires c <= ONES
    ensures Shift(c) <= ONES
  {
    Pow2Word();
    XorBound(POLY, c / 2, 32);
  }

  lemma {:induction false} ShiftsBound(c: nat, k: nat)
    requires c <= ONES
    ensures Shifts(c, k) <= ONES
    decreases k
  {
    if k > 0 {
      ShiftBound(c);
      ShiftsBound(Shift(c), k - 1);
    }
  }

  lemma {:induction false} RegisterBound(c: nat, data: Bytes)
    requires c <= ONES
    ensures Register(c, data) <= ONES
    decreases |data|
  {
    if data != [] {
      var r, b := Register(c, data[..|data| - 1]), data[|data| - 1];
      RegisterBound(c, data[..|data| - 1]);
      FeedBitsIsShifts(r, b as nat, 8);
      MaskByte(b);
      Pow2Word();
      XorBound(r, b as nat, 32);
      ShiftsBound(Xor(r, b as nat), 8);
    }
  }

  // ---- the code

  ghost predicate IsTable(table: array<nat>)
    reads table
  {
    table.Length == 256 && forall n :: 0 <= n < 256 ==> table[n] == Shifts(n, 8)
  }

  method BuildTable() returns (table: array<nat>)
    ensures fresh(table) && IsTable(table)
  {
    table := new nat[256];
    for n := 0 to 256
      invariant forall j :: 0 <= j < n ==> table[j] == Shifts(j, 8)
    {
      var c: nat := n;
      for k := 0 to 8
        invariant Shifts(c, 8 - k) == Shifts(n, 8)
      {
        c := if c % 2 == 1 then Xor(POLY, c / 2) else c / 2;
      }
      table[n] := c;
    }
  }

  /** `crc32(buf, crc)`. */
  method Update(table: array<nat>, data: Bytes, crc: nat) returns (r: nat)
    requires IsTable(table)
    ensures r == Not(Register(Not(crc), data))
  {
    var c := Not(crc);
    for i := 0 to |data|
      invariant c == Register(Not(crc), data[..i])
    {
      assert data[..i + 1][..i] == data[..i];
      ByteStep(c, data[i]);
      c := Xor(table[Xor(c, data[i] as nat) % 256], c / 256);
    }
    assert data[..|data|] == data;
    r := Not(c);
  }

  lemma {:induction false} RegisterConcat(c: nat, a: Bytes, b: Bytes)
    ensures Register(c, a + b) == Register(Register(c, a), b)
    decreases |b|
  {
    if b == [] {
      assert a + b == a;
    } else {
      assert (a + b)[..|a + b| - 1] == a + b[..|b| - 1];
      RegisterConcat(c, a, b[..|b| - 1]);
    }
  }

  /** What continuing from an earlier result computes. */
  function Continue(data: Bytes, crc: nat): nat {
    Not(Register(Not(crc), data))
  }

  /** The CRC of a whole is the CRC of its head continued over the rest. */
  lemma CrcContinues(a: Bytes, b: Bytes)
    ensures Continue(b, Crc(a)) == Crc(a + b)
  {
    RegisterBound(ONES, a);
    RegisterConcat(ONES, a, b);
  }

  lemma CrcIsWord(a: Bytes)
    ensures Crc(a) <= ONES && Crc([]) == 0
  {
    RegisterBound(ONES, a);
  }

  function Whole(chunk: Bytes): Bytes {
    chunk
  }

  function Flatten(chunks: seq<Bytes>): Bytes {
    Flat(Whole, chunks)
  }

  /** A file fed chunk by chunk, each call continuing from the last result. */
  method CrcOfChunks(table: array<nat>, chunks: seq<Bytes>) returns (crc: nat)
    requires IsTable(table)
    ensures crc == Crc(Flatten(chunks))
  {
    crc := 0;
    for i := 0 to |chunks|
      invariant crc == Crc(Flatten(chunks[..i]))
    {
      FlatStep(Whole, chunks, i);
      CrcContinues(Flatten(chunks[..i]), chunks[i]);
      crc := Update(table, chunks[i], crc);
    }
    assert chunks[..|chunks|] == chunks;
  }

  // ---- check values

  /** A register of ones alone swallows a one without mixing the polynomial in. */
  lemma OnesFall(c: nat)
    requires c % 2 == 1
    ensures Shift(Xor(c, 1)) == c / 2
  {
    XorBits(c, 1);
    assert Xor(c / 2, 0) == c / 2;
  }

  lemma {:induction false} OnesFed(c: nat, b: nat, k: nat, low: nat)
    requires c == Pow2(k + low) - 1 && b == Pow2(k) - 1
    ensures FeedBits(c, b, k) == Pow2(low) - 1
    decreases k
  {
    if k > 0 {
      assert Pow2(k + low) == 2 * Pow2(k - 1 + low) && Pow2(k) == 2 * Pow2(k - 1);
      assert b % 2 == 1 && b / 2 == Pow2(k - 1) - 1 && c / 2 == Pow2(k - 1 + low) - 1;
      OnesFall(c);
      OnesFed(c / 2, b / 2, k - 1, low);
    }
  }

  lemma Powers()
    ensures Pow2(0) == 1 && Pow2(1) == 2 && Pow2(7) == 128 && Pow2(8) == 256 && Pow2(32) == ONES + 1
  {
    Pow2Word();
    MaskByte(0);
  }

  lemma LastByte(c: nat, data: Bytes, r: nat)
    requires data != [] && Register(c, data[..|data| - 1]) == r
    ensures Register(c, data) == FeedBits(r, data[|data| - 1] as nat, 8)
  {}

  lemma OnesByte(r: nat, low: nat)
    requires r == Pow2(8 + low) - 1
    ensures FeedBits(r, 0xff, 8) == Pow2(low) - 1
  {
    Powers();
    OnesFed(r, 0xff, 8, low);
  }

  /** Bytes of ones shift a register of ones out. */
  lemma {:induction false} OnesOut(c: nat, data: Bytes, low: nat)
    requires c == Pow2(8 * |data| + low) - 1 && forall i :: 0 <= i < |data| ==> data[i] == 0xff
    ensures Register(c, data) == Pow2(low) - 1
    decreases |data|
  {
    if data != [] {
      var r := Pow2(8 + low) - 1;
      OnesOut(c, data[..|data| - 1], 8 + low);
      LastByte(c, data, r);
      OnesByte(r, low);
    }
  }

  lemma {:induction false} LastBit(c: nat, b: nat, k: nat)
    requires b < Pow2(k)
    ensures FeedBits(c, b, k + 1) == Shift(FeedBits(c, b, k))
    decreases k
  {
    if k == 0 {
      assert FeedBits(c, 0, 1) == FeedBits(Shift(Xor(c, 0)), 0, 0);
      assert Xor(c, 0) == c;
    } else {
      LastBit(Shift(Xor(c, b % 2)), b / 2, k - 1);
    }
  }

  /** The last byte of the second check value. */
  lemma SevenOnes(c: nat)
    requires c == Pow2(8) - 1
    ensures FeedBits(c, 0x7f, 8) == POLY
  {
    Powers();
    OnesFed(c, 0x7f, 7, 1);
    LastBit(c, 0x7f, 7);
    assert FeedBits(c, 0x7f, 7) == 1;
    assert Shift(1) == POLY;
  }

  lemma CheckRegister(c: nat, data: Bytes)
    requires c == Pow2(32) - 1 && |data| == 4 && forall i :: 0 <= i < 3 ==> data[i] == 0xff
    ensures data[3] == 0xff ==> Register(c, data) == 0
    ensures data[3] == 0x7f ==> Register(c, data) == POLY
  {
    if data[3] == 0xff {
      OnesOut(c, data, 0);
    } else if data[3] == 0x7f {
      var front := data[..3];
      OnesOut(c, front, 8);
      LastByte(c, data, Pow2(8) - 1);
      SevenOnes(Pow2(8) - 1);
    }
  }

  /** Two check values: four bytes of ones empty the register, and a last bit of zero leaves the polynomial
      in it. */
  lemma CheckValues(data: Bytes)
    ensures data == [0xff, 0xff, 0xff, 0xff] ==> Crc(data) == 0xffff_ffff
    ensures data == [0xff, 0xff, 0xff, 0x7f] ==> Crc(data) == 0x1247_7cdf
  {
    if |data| == 4 && forall i :: 0 <= i < 3 ==> data[i] == 0xff {
      Powers();
      CheckRegister(ONES, data);
    }
  }
}
