/** Iteration and folding over any type, so that proofs about them need not look inside the values. */
module Iteration {

  function Iterate<T>(f: T -> T, value: T, n: nat): T
    decreases n
  {
    if n == 0 then value else Iterate(f, f(value), n - 1)
  }

  lemma {:induction false} IterateDistributes<T(!new)>(f: T -> T, op: (T, T) -> T, a: T, b: T, n: nat)
    requires forall x, y :: f(op(x, y)) == op(f(x), f(y))
    ensures Iterate(f, op(a, b), n) == op(Iterate(f, a, n), Iterate(f, b, n))
    decreases n
  {
    if n > 0 {
      IterateDistributes(f, op, f(a), f(b), n - 1);
    }
  }

  lemma {:induction false} IterateIsInjective<T(!new)>(f: T -> T, a: T, b: T, n: nat)
    requires forall x, y :: f(x) == f(y) ==> x == y
    requires Iterate(f, a, n) == Iterate(f, b, n)
    ensures a == b
    decreases n
  {
    if n > 0 {
      IterateIsInjective(f, f(a), f(b), n - 1);
    }
  }

  lemma Iterate8<T>(f: T -> T, v0: T, v1: T, v2: T, v3: T, v4: T, v5: T, v6: T, v7: T, v8: T)
    requires f(v0) == v1 && f(v1) == v2 && f(v2) == v3 && f(v3) == v4
    requires f(v4) == v5 && f(v5) == v6 && f(v6) == v7 && f(v7) == v8
    ensures Iterate(f, v0, 8) == v8
  {
    assert Iterate(f, v6, 2) == v8;
    assert Iterate(f, v4, 4) == v8;
    assert Iterate(f, v2, 6) == v8;
  }

  function Fold<T, M>(step: (T, M) -> T, state: T, data: seq<M>): T
    decreases |data|
  {
    if data == [] then state else Fold(step, step(state, data[0]), data[1..])
  }

  lemma {:induction false} FoldInSequence<T, M>(step: (T, M) -> T, state: T, first: seq<M>, second: seq<M>)
    ensures Fold(step, state, first + second) == Fold(step, Fold(step, state, first), second)
    decreases |first|
  {
    if first == [] {
      assert first + second == second;
    } else {
      assert (first + second)[1..] == first[1..] + second;
      FoldInSequence(step, step(state, first[0]), first[1..], second);
    }
  }

  lemma FoldLast<T, M>(step: (T, M) -> T, state: T, data: seq<M>, last: M)
    ensures Fold(step, state, data + [last]) == step(Fold(step, state, data), last)
  {
    FoldInSequence(step, state, data, [last]);
    assert [last][1..] == [];
  }

  /** Folding step by step through given states. */
  lemma {:induction false} FoldFollows<T, M>(step: (T, M) -> T, data: seq<M>, states: seq<T>, n: nat)
    requires n <= |data| && |states| == |data| + 1
    requires forall k | 0 <= k < |data| :: step(states[k], data[k]) == states[k + 1]
    ensures Fold(step, states[0], data[..n]) == states[n]
    decreases n
  {
    if n > 0 {
      FoldFollows(step, data, states, n - 1);
      FoldLast(step, states[0], data[..n - 1], data[n - 1]);
      assert data[..n] == data[..n - 1] + [data[n - 1]];
    }
  }

  lemma {:induction false} FoldIsInjective<T(!new), M(!new)>(step: (T, M) -> T, a: T, b: T, data: seq<M>)
    requires forall x, y, m :: step(x, m) == step(y, m) ==> x == y
    requires Fold(step, a, data) == Fold(step, b, data)
    ensures a == b
    decreases |data|
  {
    if data != [] {
      FoldIsInjective(step, step(a, data[0]), step(b, data[0]), data[1..]);
    }
  }
}

/** Feeding a value into a register bit by bit, and combining it first and shifting afterwards. */
module BitSerial {
  import opened Iteration

  /** The n low bits of a value, lowest first, each halving bringing the next one down. */
  function LowBits<T>(low: T -> bool, half: T -> T, value: T, n: nat): seq<bool>
    decreases n
  {
    if n == 0 then [] else [low(value)] + LowBits(low, half, half(value), n - 1)
  }

  lemma {:induction false} CombinedShiftsTakeBits<T(!new)>(shift: T -> T, take: (T, bool) -> T, low: T -> bool,
                                                           half: T -> T, xor: (T, T) -> T, register: T, value: T, n: nat)
    requires forall r, v :: shift(xor(r, v)) == xor(take(r, low(v)), half(v))
    ensures Iterate(shift, xor(register, value), n)
         == xor(Fold(take, register, LowBits(low, half, value, n)), Iterate(half, value, n))
    decreases n
  {
    if n > 0 {
      var next := take(register, low(value));
      CombinedShiftsTakeBits(shift, take, low, half, xor, next, half(value), n - 1);
      var rest := LowBits(low, half, half(value), n - 1);
      assert ([low(value)] + rest)[1..] == rest;
    }
  }
}

/** The table-driven CRC-32 of the update archive reader, against the bit-at-a-time definition it implements. */
module Crc32 {
  import opened Iteration
  import opened BitSerial

  const POLYNOMIAL: bv32 := 0xedb88320

  function Xor(a: bv32, b: bv32): bv32 {
    a ^ b
  }

  predicate Low(value: bv32) {
    value & 1 == 1
  }

  function Half(value: bv32): bv32 {
    value >> 1
  }

  function Feedback(bit: bool): bv32 {
    if bit then POLYNOMIAL else 0
  }

  // ----- the definition: one message bit at a time, least significant bit of each byte first -----

  /** The register takes in one bit: it shifts, and feeds the polynomial back when the bit leaving differs. */
  function TakeBit(register: bv32, bit: bool): bv32 {
    Xor(Feedback(Low(register) != bit), Half(register))
  }

  function BitsOf(byte: bv8): seq<bool> {
    LowBits(Low, Half, byte as bv32, 8)
  }

  function MessageBits(data: seq<bv8>): seq<bool> {
    if data == [] then [] else BitsOf(data[0]) + MessageBits(data[1..])
  }

  function TakeByte(register: bv32, byte: bv8): bv32 {
    Fold(TakeBit, register, BitsOf(byte))
  }

  /** The checksum of a message: all ones first, complemented last. */
  function Checksum(data: seq<bv8>): bv32 {
    Xor(Fold(TakeBit, 0xffffffff, MessageBits(data)), 0xffffffff)
  }

  // ----- exclusive or -----

  lemma XorCommutes(a: bv32, b: bv32)
    ensures Xor(a, b) == Xor(b, a)
  {
  }

  lemma XorAssociates(a: bv32, b: bv32, c: bv32)
    ensures Xor(Xor(a, b), c) == Xor(a, Xor(b, c))
  {
  }

  lemma XorCancels(a: bv32, b: bv32, c: bv32)
    requires Xor(a, b) == Xor(a, c)
    ensures b == c
  {
  }

  lemma XorZero(value: bv32)
    ensures Xor(value, 0) == value
  {
  }

  lemma XorRegroups(a: bv32, b: bv32, c: bv32, d: bv32)
    ensures Xor(Xor(a, b), Xor(c, d)) == Xor(Xor(a, c), Xor(b, d))
  {
    XorAssociates(a, b, Xor(c, d));
    XorAssociates(b, c, d);
    XorCommutes(b, c);
    XorAssociates(c, b, d);
    XorAssociates(a, c, Xor(b, d));
  }

  // ----- shifting -----

  /** One turn of the inner loop that fills the table. */
  function Shift(value: bv32): bv32 {
    Xor(Feedback(Low(value)), Half(value))
  }

  lemma HalfOfXor(a: bv32, b: bv32)
    ensures Half(Xor(a, b)) == Xor(Half(a), Half(b))
  {
  }

  lemma LowOfXor(a: bv32, b: bv32)
    ensures Low(Xor(a, b)) <==> Low(a) != Low(b)
  {
  }

  lemma FeedbackOfXor(a: bool, b: bool)
    ensures Feedback(a != b) == Xor(Feedback(a), Feedback(b))
  {
  }

  lemma ShiftOfXor(a: bv32, b: bv32)
    ensures Shift(Xor(a, b)) == Xor(Shift(a), Shift(b))
  {
    LowOfXor(a, b);
    HalfOfXor(a, b);
    FeedbackOfXor(Low(a), Low(b));
    XorRegroups(Feedback(Low(a)), Feedback(Low(b)), Half(a), Half(b));
  }

  /** Shifting a register combined with a value takes the value's low bit in. */
  lemma ShiftTakesBit(register: bv32, value: bv32)
    ensures Shift(Xor(register, value)) == Xor(TakeBit(register, Low(value)), Half(value))
  {
    LowOfXor(register, value);
    HalfOfXor(register, value);
    XorAssociates(Feedback(Low(register) != Low(value)), Half(register), Half(value));
  }

  /** The polynomial's top bit marks the steps that fed it back, so a shift can be undone. */
  lemma ShiftsDiffer(a: bv32, b: bv32)
    requires Shift(a) == Shift(b)
    ensures a == b
  {
    MarkedHalves(Low(a), Low(b), a, b);
  }

  lemma MarkedHalves(p: bool, q: bool, a: bv32, b: bv32)
    requires Low(a) == p && Low(b) == q
    requires Xor(Feedback(p), Half(a)) == Xor(Feedback(q), Half(b))
    ensures a == b
  {
  }

  lemma BitsDiffer(a: bv32, b: bv32, bit: bool)
    requires TakeBit(a, bit) == TakeBit(b, bit)
    ensures a == b
  {
    var value: bv32 := if bit then 1 else 0;
    assert Low(value) == bit && Half(value) == 0;
    ShiftTakesBit(a, value);
    ShiftTakesBit(b, value);
    ShiftsDiffer(Xor(a, value), Xor(b, value));
    XorCommutes(a, value);
    XorCommutes(b, value);
    XorCancels(value, a, b);
  }

  // ----- eight shifts at once -----

  lemma ByteHalvesAway(byte: bv8)
    ensures Iterate(Half, byte as bv32, 8) == 0
  {
    var y := byte as bv32;
    Iterate8(Half, y, y >> 1, y >> 2, y >> 3, y >> 4, y >> 5, y >> 6, y >> 7, 0);
  }

  /** Taking a byte in is combining it with the register and shifting eight times. */
  lemma TakeByteIsEightShifts(register: bv32, byte: bv8)
    ensures TakeByte(register, byte) == Iterate(Shift, Xor(register, byte as bv32), 8)
  {
    forall r, v
      ensures Shift(Xor(r, v)) == Xor(TakeBit(r, Low(v)), Half(v))
    {
      ShiftTakesBit(r, v);
    }
    CombinedShiftsTakeBits(Shift, TakeBit, Low, Half, Xor, register, byte as bv32, 8);
    ByteHalvesAway(byte);
    XorZero(TakeByte(register, byte));
  }

  function HighPart(value: bv32): bv32 {
    value & 0xffffff00
  }

  function LowPart(value: bv32): bv32 {
    value & 0xff
  }

  function Down(value: bv32): bv32 {
    value >> 8
  }

  lemma PartsCombine(value: bv32)
    ensures Xor(HighPart(value), LowPart(value)) == value
  {
  }

  lemma HighPartIsClear(value: bv32)
    ensures HighPart(value) & 0xff == 0
  {
  }

  lemma HighPartMovesDown(value: bv32)
    ensures Down(HighPart(value)) == Down(value)
  {
  }

  lemma ByteLeavesHighPart(register: bv32, byte: bv8)
    ensures Down(Xor(register, byte as bv32)) == Down(register)
  {
  }

  lemma ClearBitShifts(value: bv32, mask: bv32)
    requires mask & 1 == 1 && value & mask == 0
    ensures Shift(value) == Half(value) && Half(value) & Half(mask) == 0
  {
    ClearBit(value, mask);
    XorCommutes(0, Half(value));
    XorZero(Half(value));
  }

  lemma ClearBit(value: bv32, mask: bv32)
    requires mask & 1 == 1 && value & mask == 0
    ensures !Low(value) && Half(value) & Half(mask) == 0
  {
  }

  lemma EightHalves(h: bv32)
    ensures Iterate(Half, h, 8) == Down(h)
  {
    Iterate8(Half, h, h >> 1, h >> 2, h >> 3, h >> 4, h >> 5, h >> 6, h >> 7, h >> 8);
  }

  /** While its low bits are clear, a value only halves. */
  lemma ClearBitsShift(h: bv32)
    requires h & 0xff == 0
    ensures Iterate(Shift, h, 8) == Iterate(Half, h, 8)
  {
    var h1 := Half(h);
    var h2 := Half(h1);
    var h3 := Half(h2);
    var h4 := Half(h3);
    var h5 := Half(h4);
    var h6 := Half(h5);
    var h7 := Half(h6);
    ClearBitShifts(h, 0xff);
    ClearBitShifts(h1, 0x7f);
    ClearBitShifts(h2, 0x3f);
    ClearBitShifts(h3, 0x1f);
    ClearBitShifts(h4, 0xf);
    ClearBitShifts(h5, 0x7);
    ClearBitShifts(h6, 0x3);
    ClearBitShifts(h7, 0x1);
    Iterate8(Shift, h, h1, h2, h3, h4, h5, h6, h7, Half(h7));
    Iterate8(Half, h, h1, h2, h3, h4, h5, h6, h7, Half(h7));
  }

  lemma HighPartShiftsOut(value: bv32)
    ensures Iterate(Shift, HighPart(value), 8) == Down(value)
  {
    HighPartIsClear(value);
    HighPartMovesDown(value);
    ClearBitsShift(HighPart(value));
    EightHalves(HighPart(value));
  }

  lemma ShiftsOfXor(a: bv32, b: bv32, n: nat)
    ensures Iterate(Shift, Xor(a, b), n) == Xor(Iterate(Shift, a, n), Iterate(Shift, b, n))
  {
    forall x, y
      ensures Shift(Xor(x, y)) == Xor(Shift(x), Shift(y))
    {
      ShiftOfXor(x, y);
    }
    IterateDistributes(Shift, Xor, a, b, n);
  }

  /** By linearity, eight shifts are the table entry of the low byte combined with the rest moved down. */
  lemma EightShiftsByParts(value: bv32)
    ensures Iterate(Shift, value, 8) == Xor(Down(value), Iterate(Shift, LowPart(value), 8))
  {
    PartsCombine(value);
    ShiftsOfXor(HighPart(value), LowPart(value), 8);
    HighPartShiftsOut(value);
  }

  lemma TableStep(register: bv32, byte: bv8, value: bv32)
    requires value == Xor(register, byte as bv32)
    ensures Xor(Down(register), Iterate(Shift, LowPart(value), 8)) == TakeByte(register, byte)
  {
    TakeByteIsEightShifts(register, byte);
    EightShiftsByParts(value);
    ByteLeavesHighPart(register, byte);
  }

  lemma {:induction false} BytesTakeTheirBits(register: bv32, data: seq<bv8>)
    ensures Fold(TakeByte, register, data) == Fold(TakeBit, register, MessageBits(data))
    decreases |data|
  {
    if data != [] {
      BytesTakeTheirBits(TakeByte(register, data[0]), data[1..]);
      FoldInSequence(TakeBit, register, BitsOf(data[0]), MessageBits(data[1..]));
    }
  }

  // ----- the program -----

  /** What the table holds for a byte value. */
  function Entry(value: nat): bv32
    requires value < 256
  {
    Iterate(Shift, value as bv32, 8)
  }

  /** The first n words are the entries of their indices. */
  ghost predicate HoldsEntries(table: seq<bv32>, n: nat)
    requires n <= |table| && n <= 256
  {
    forall k | 0 <= k < n :: table[k] == Entry(k)
  }

  ghost predicate IsTable(table: seq<bv32>) {
    |table| == 256 && HoldsEntries(table, 256)
  }

  method CreateCrc32Table() returns (table: array<bv32>)
    ensures fresh(table) && IsTable(table[..])
  {
    table := new bv32[256];
    FillTable(table);
  }

  /** The outer loop, for a table of any size up to a byte's values. */
  method FillTable(table: array<bv32>)
    requires table.Length <= 256
    modifies table
    ensures HoldsEntries(table[..], table.Length)
  {
    var value := 0;
    while value < table.Length
      invariant 0 <= value <= table.Length
      invariant HoldsEntries(table[..], value)
    {
      var current := FillEntry(value);
      table[value] := current;
      value := value + 1;
    }
  }

  method FillEntry(value: nat) returns (current: bv32)
    requires value < 256
    ensures current == Entry(value)
  {
    current := value as bv32;
    var bit := 0;
    while bit < 8
      invariant 0 <= bit <= 8
      invariant Iterate(Shift, current, 8 - bit) == Iterate(Shift, value as bv32, 8)
    {
      ShiftByBranch(current);
      current := if current & 1 != 0 then POLYNOMIAL ^ (current >> 1) else current >> 1;
      bit := bit + 1;
    }
  }

  lemma ShiftByBranch(current: bv32)
    ensures Shift(current) == if current & 1 != 0 then POLYNOMIAL ^ (current >> 1) else current >> 1
  {
    XorCommutes(0, Half(current));
    XorZero(Half(current));
  }

  /** The register after the first n bytes. */
  ghost function Register(data: seq<bv8>, n: nat): bv32
    requires n <= |data|
  {
    Fold(TakeByte, 0xffffffff, data[..n])
  }

  lemma RegisterTakesByte(data: seq<bv8>, n: nat)
    requires n < |data|
    ensures Register(data, n + 1) == TakeByte(Register(data, n), data[n])
  {
    FoldLast(TakeByte, 0xffffffff, data[..n], data[n]);
    assert data[..n + 1] == data[..n] + [data[n]];
  }

  lemma LastRegister(data: seq<bv8>)
    ensures Register(data, 0) == 0xffffffff
    ensures Xor(Register(data, |data|), 0xffffffff) == Checksum(data)
  {
    assert data[..|data|] == data;
    BytesTakeTheirBits(0xffffffff, data);
  }

  method ComputeCrc32(data: seq<bv8>, table: array<bv32>) returns (crc: bv32)
    requires IsTable(table[..])
    ensures crc == Checksum(data)
  {
    crc := 0xffffffff;
    LastRegister(data);
    var i := 0;
    while i < |data|
      invariant 0 <= i <= |data|
      invariant crc == Register(data, i)
    {
      RegisterTakesByte(data, i);
      crc := NextRegister(crc, data[i], table);
      i := i + 1;
    }
    crc := Xor(crc, 0xffffffff);
  }

  method NextRegister(crc: bv32, byte: bv8, table: array<bv32>) returns (next: bv32)
    requires IsTable(table[..])
    ensures next == TakeByte(crc, byte)
  {
    var value := Xor(crc, byte as bv32);
    TableStep(crc, byte, value);
    LowPartIsSmall(value);
    var entry := LookUp(table, LowPart(value));
    next := Xor(Down(crc), entry);
  }

  method LookUp(table: array<bv32>, index: bv32) returns (entry: bv32)
    requires IsTable(table[..]) && index < 256
    ensures entry == Iterate(Shift, index, 8)
  {
    SmallWord(index);
    assert (index as int) as bv32 == index;
    entry := table[..][index as int];
  }

  lemma LowPartIsSmall(value: bv32)
    ensures LowPart(value) < 256
  {
  }

  lemma SmallWord(value: bv32)
    requires value < 256
    ensures value as int < 256
  {
  }

  // ----- what the checksum detects -----

  /** Messages of one length that differ in exactly one byte never share a checksum. */
  lemma SingleByteErrorsAreDetected(left: seq<bv8>, right: seq<bv8>, at: nat)
    requires |left| == |right| && at < |left|
    requires left[at] != right[at] && forall k | 0 <= k < |left| && k != at :: left[k] == right[k]
    ensures Checksum(left) != Checksum(right)
  {
    var same, rest := left[..at], left[at + 1..];
    assert left == same + ([left[at]] + rest);
    assert right == same + ([right[at]] + rest);
    var register := Fold(TakeByte, 0xffffffff, same);
    FoldInSequence(TakeByte, 0xffffffff, same, [left[at]] + rest);
    FoldInSequence(TakeByte, 0xffffffff, same, [right[at]] + rest);
    assert ([left[at]] + rest)[1..] == rest && ([right[at]] + rest)[1..] == rest;
    BytesDiffer(register, left[at], right[at]);
    LaterBytesKeepDifference(TakeByte(register, left[at]), TakeByte(register, right[at]), rest);
    BytesTakeTheirBits(0xffffffff, left);
    BytesTakeTheirBits(0xffffffff, right);
    ComplementsDiffer(Fold(TakeByte, 0xffffffff, left), Fold(TakeByte, 0xffffffff, right));
  }

  lemma ComplementsDiffer(a: bv32, b: bv32)
    requires a != b
    ensures Xor(a, 0xffffffff) != Xor(b, 0xffffffff)
  {
  }

  lemma BytesDiffer(register: bv32, left: bv8, right: bv8)
    requires left != right
    ensures TakeByte(register, left) != TakeByte(register, right)
  {
    TakeByteIsEightShifts(register, left);
    TakeByteIsEightShifts(register, right);
    if TakeByte(register, left) == TakeByte(register, right) {
      forall a, b | Shift(a) == Shift(b)
        ensures a == b
      {
        ShiftsDiffer(a, b);
      }
      IterateIsInjective(Shift, Xor(register, left as bv32), Xor(register, right as bv32), 8);
      XorCancels(register, left as bv32, right as bv32);
      WidenedBytesDiffer(left, right);
      assert false;
    }
  }

  lemma WidenedBytesDiffer(left: bv8, right: bv8)
    requires left != right
    ensures left as bv32 != right as bv32
  {
  }

  lemma LaterBytesKeepDifference(a: bv32, b: bv32, rest: seq<bv8>)
    requires a != b
    ensures Fold(TakeByte, a, rest) != Fold(TakeByte, b, rest)
  {
    BytesTakeTheirBits(a, rest);
    BytesTakeTheirBits(b, rest);
    if Fold(TakeByte, a, rest) == Fold(TakeByte, b, rest) {
      forall x, y, bit | TakeBit(x, bit) == TakeBit(y, bit)
        ensures x == y
      {
        BitsDiffer(x, y, bit);
      }
      FoldIsInjective(TakeBit, a, b, MessageBits(rest));
    }
  }

  // ----- the check value -----

  lemma ByteTaken(register: bv32, byte: bv8, v0: bv32, v1: bv32, v2: bv32, v3: bv32, v4: bv32, v5: bv32, v6: bv32,
                  v7: bv32, next: bv32)
    requires v0 == Xor(register, byte as bv32)
    requires Shift(v0) == v1 && Shift(v1) == v2 && Shift(v2) == v3 && Shift(v3) == v4
    requires Shift(v4) == v5 && Shift(v5) == v6 && Shift(v6) == v7 && Shift(v7) == next
    ensures TakeByte(register, byte) == next
  {
    TakeByteIsEightShifts(register, byte);
    Iterate8(Shift, v0, v1, v2, v3, v4, v5, v6, v7, next);
  }

  lemma ChecksumFollows(data: seq<bv8>, registers: seq<bv32>)
    requires |registers| == |data| + 1 && registers[0] == 0xffffffff
    requires forall k | 0 <= k < |data| :: TakeByte(registers[k], data[k]) == registers[k + 1]
    ensures Checksum(data) == Xor(registers[|data|], 0xffffffff)
  {
    FoldFollows(TakeByte, data, registers, |data|);
    LastRegister(data);
  }

  function CheckRegisters(): seq<bv32> {
    [0xffffffff, 0x7c231048, 0xb0acbb32, 0x77b79c2d, 0x641c1f5c, 0x340ac5e3, 0xf68d2c9e, 0xaffc9660, 0x651f2550,
     0x340bc6d9]
  }

  predicate IsCheckRun(data: seq<bv8>, registers: seq<bv32>) {
    data == [0x31, 0x32, 0x33, 0x34, 0x35, 0x36, 0x37, 0x38, 0x39] && registers == CheckRegisters()
  }

  lemma FirstCheckSteps(data: seq<bv8>, registers: seq<bv32>, k: nat)
    requires IsCheckRun(data, registers) && k < 3
    ensures TakeByte(registers[k], data[k]) == registers[k + 1]
  {
    if k == 0 {
      ByteTaken(registers[k], data[k], 0xffffffce, 0x7fffffe7, 0xd2477cd3, 0x849b3d49, 0xaff51d84, 0x57fa8ec2,
                0x2bfd4761, 0xf8462090, registers[k + 1]);
    } else if k == 1 {
      ByteTaken(registers[k], data[k], 0x7c23107a, 0x3e11883d, 0xf2b0473e, 0x7958239f, 0xd11492ef, 0x8532ca57,
                0xaf21e60b, 0xba287025, registers[k + 1]);
    } else {
      ByteTaken(registers[k], data[k], 0xb0acbb01, 0xb5eedea0, 0x5af76f50, 0x2d7bb7a8, 0x16bddbd4, 0x0b5eedea,
                0x05af76f5, 0xef6f385a, registers[k + 1]);
    }
  }

  lemma MiddleCheckSteps(data: seq<bv8>, registers: seq<bv32>, k: nat)
    requires IsCheckRun(data, registers) && 3 <= k < 6
    ensures TakeByte(registers[k], data[k]) == registers[k + 1]
  {
    if k == 3 {
      ByteTaken(registers[k], data[k], 0x77b79c19, 0xd6634d2c, 0x6b31a696, 0x3598d34b, 0xf774ea85, 0x9602f662,
                0x4b017b31, 0xc8383eb8, registers[k + 1]);
    } else if k == 4 {
      ByteTaken(registers[k], data[k], 0x641c1f69, 0xdfb68c94, 0x6fdb464a, 0x37eda325, 0xf64e52b2, 0x7b272959,
                0xd02b178c, 0x68158bc6, registers[k + 1]);
    } else {
      ByteTaken(registers[k], data[k], 0x340ac5d5, 0xf7bde1ca, 0x7bdef0e5, 0xd057fb52, 0x682bfda9, 0xd9ad7df4,
                0x6cd6befa, 0x366b5f7d, registers[k + 1]);
    }
  }

  lemma LastCheckSteps(data: seq<bv8>, registers: seq<bv32>, k: nat)
    requires IsCheckRun(data, registers) && 6 <= k < 9
    ensures TakeByte(registers[k], data[k]) == registers[k + 1]
  {
    if k == 6 {
      ByteTaken(registers[k], data[k], 0xf68d2ca9, 0x96fe1574, 0x4b7f0aba, 0x25bf855d, 0xff67418e, 0x7fb3a0c7,
                0xd2615343, 0x84882a81, registers[k + 1]);
    } else if k == 7 {
      ByteTaken(registers[k], data[k], 0xaffc9658, 0x57fe4b2c, 0x2bff2596, 0x15ff92cb, 0xe7474a45, 0x9e1b2602,
                0x4f0d9301, 0xca3e4aa0, registers[k + 1]);
    } else {
      ByteTaken(registers[k], data[k], 0x651f2569, 0xdf371194, 0x6f9b88ca, 0x37cdc465, 0xf65e6112, 0x7b2f3089,
                0xd02f1b64, 0x68178db2, registers[k + 1]);
    }
  }

  /**
   The digits from one to nine, in ASCII, have the check value published for this checksum, so its polynomial, bit order
   and complements are the standard ones.
   */
  lemma CheckValue(data: seq<bv8>)
    requires data == [0x31, 0x32, 0x33, 0x34, 0x35, 0x36, 0x37, 0x38, 0x39]
    ensures Checksum(data) == 0xcbf43926
  {
    var registers := CheckRegisters();
    forall k | 0 <= k < |data| ensures TakeByte(registers[k], data[k]) == registers[k + 1] {
      if k < 3 {
        FirstCheckSteps(data, registers, k);
      } else if k < 6 {
        MiddleCheckSteps(data, registers, k);
      } else {
        LastCheckSteps(data, registers, k);
      }
    }
    ChecksumFollows(data, registers);
  }
}
