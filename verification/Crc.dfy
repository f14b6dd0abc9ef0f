/**
 * CRC-32 as `crc32` of the ZIP writer computes it, a table lookup a byte, against the definition: the remainder of
 * dividing the message, as a polynomial over GF(2), by the generator (PKWARE APPNOTE.TXT, section 4.4.7).
 */
module Crc {
  import opened Texts

  /** The generator polynomial with its bits reversed: the lowest bit is the coefficient of x^31. */
  const POLY: bv32 := 0xedb88320

  // ---------------------------------------------------------------------------------------------------------------
  // Words of any kind that can be shifted and added
  // ---------------------------------------------------------------------------------------------------------------

  function Iter<T>(f: T -> T, c: T, n: nat): T
    decreases n
  {
    if n == 0 then c else Iter(f, f(c), n - 1)
  }

  function Feed<T>(step: (T, bool) -> T, c: T, bits: seq<bool>): T
    decreases bits
  {
    if bits == [] then c else Feed(step, step(c, bits[0]), bits[1..])
  }

  /** The lowest `n` bits, lowest first. */
  function LowBits<T>(low: T -> bool, down: T -> T, v: T, n: nat): seq<bool>
    decreases n
  {
    if n == 0 then [] else [low(v)] + LowBits(low, down, down(v), n - 1)
  }

  ghost predicate Linear<T(!new)>(f: T -> T, add: (T, T) -> T) {
    forall x, y :: f(add(x, y)) == add(f(x), f(y))
  }

  lemma {:induction false} IterLinear<T(!new)>(f: T -> T, add: (T, T) -> T, a: T, b: T, n: nat)
    requires Linear(f, add)
    ensures Iter(f, add(a, b), n) == add(Iter(f, a, n), Iter(f, b, n))
    decreases n
  {
    if n > 0 { IterLinear(f, add, f(a), f(b), n - 1); }
  }

  /** Where a bit that goes in takes the bits after it along, all of them can be put in at once. */
  lemma {:induction false} BitsAtOnce<T(!new)>(f: T -> T, add: (T, T) -> T, step: (T, bool) -> T, low: T -> bool,
                                               down: T -> T, c: T, v: T, n: nat)
    requires forall x, y :: add(step(x, low(y)), down(y)) == f(add(x, y))
    ensures add(Feed(step, c, LowBits(low, down, v, n)), Iter(down, v, n)) == Iter(f, add(c, v), n)
    decreases n
  {
    if n > 0 { BitsAtOnce(f, add, step, low, down, step(c, low(v)), down(v), n - 1); }
  }

  /** Shifting out zeros only moves the word. */
  lemma {:induction false} ZerosShiftOut<T(!new)>(f: T -> T, low: T -> bool, down: T -> T, a: T, n: nat)
    requires forall x :: !low(x) ==> f(x) == down(x)
    requires forall i :: 0 <= i < n ==> !low(Iter(down, a, i))
    ensures Iter(f, a, n) == Iter(down, a, n)
    decreases n
  {
    if n > 0 {
      assert !low(Iter(down, a, 0));
      forall i | 0 <= i < n - 1 ensures !low(Iter(down, down(a), i)) { assert !low(Iter(down, a, i + 1)); }
      ZerosShiftOut(f, low, down, down(a), n - 1);
    }
  }

  lemma {:induction false} FeedSplits<T>(step: (T, bool) -> T, c: T, x: seq<bool>, y: seq<bool>)
    ensures Feed(step, c, x + y) == Feed(step, Feed(step, c, x), y)
    decreases x
  {
    if x == [] {
      assert x + y == y;
    } else {
      assert (x + y)[1..] == x[1..] + y;
      FeedSplits(step, step(c, x[0]), x[1..], y);
    }
  }

  // ---------------------------------------------------------------------------------------------------------------
  // The table-driven computation
  // ---------------------------------------------------------------------------------------------------------------

  function Shift(c: bv32): bv32 {
    if c & 1 == 1 then POLY ^ (c >> 1) else c >> 1
  }

  /** An entry of CRC_TABLE: eight shifts. */
  function Entry(n: bv32): bv32 {
    Iter(Shift, n, 8)
  }

  function Xor(a: bv32, b: bv32): bv32 {
    a ^ b
  }

  function Low8(c: bv32): bv32 {
    c & 0xff
  }

  function Down8(c: bv32): bv32 {
    c >> 8
  }

  function LookupStep(c: bv32, v: bv32): bv32 {
    Xor(Entry(Low8(Xor(c, v))), Down8(c))
  }

  /** The register after one byte, by lookup. */
  function TableStep(c: bv32, b: byte): bv32 {
    LookupStep(c, b as bv32)
  }

  function TableSteps(c: bv32, bytes: seq<byte>): bv32
    decreases bytes
  {
    if bytes == [] then c else TableSteps(TableStep(c, bytes[0]), bytes[1..])
  }

  /** What `crc32(bytes, crc)` returns. */
  function Crc32(bytes: seq<byte>, crc: bv32): bv32 {
    !TableSteps(!crc, bytes)
  }

  ghost predicate IsTable(table: seq<bv32>) {
    |table| == 256 && forall n :: 0 <= n < 256 ==> table[n] == Entry(n as bv32)
  }

  /** One entry, in the loop that builds the table. */
  method BuildEntry(n: bv32) returns (c: bv32)
    ensures c == Entry(n)
  {
    c := n;
    for k := 0 to 8
      invariant Iter(Shift, c, 8 - k) == Entry(n)
    {
      c := Shift(c);
    }
  }

  method BuildTable() returns (table: seq<bv32>)
    ensures IsTable(table)
  {
    table := [];
    for n := 0 to 256
      invariant |table| == n
      invariant forall k :: 0 <= k < n ==> table[k] == Entry(k as bv32)
    {
      var c := BuildEntry(n as bv32);
      table := table + [c];
    }
  }

  lemma LowByte(x: bv32)
    ensures x & 0xff < 256
  {
  }

  lemma IndexBack(x: bv32)
    requires x < 256
    ensures 0 <= x as int < 256 && (x as int) as bv32 == x
  {
  }

  method Lookup(table: seq<bv32>, c: bv32, b: byte) returns (r: bv32)
    requires IsTable(table)
    ensures r == TableStep(c, b)
  {
    var index := Low8(Xor(c, b as bv32));
    LowByte(c ^ b as bv32);
    IndexBack(index);
    r := Xor(table[index as int], Down8(c));
  }

  method Compute(table: seq<bv32>, bytes: seq<byte>, crc: bv32) returns (r: bv32)
    requires IsTable(table)
    ensures r == Crc32(bytes, crc)
  {
    var c := !crc;
    for i := 0 to |bytes|
      invariant TableSteps(c, bytes[i..]) == TableSteps(!crc, bytes)
    {
      assert bytes[i..][1..] == bytes[i + 1..];
      c := Lookup(table, c, bytes[i]);
    }
    r := !c;
  }

  /** Checksumming chunk by chunk is checksumming the whole. */
  lemma {:induction false} StepsSplit(c: bv32, x: seq<byte>, y: seq<byte>)
    ensures TableSteps(c, x + y) == TableSteps(TableSteps(c, x), y)
    decreases x
  {
    if x == [] {
      assert x + y == y;
    } else {
      assert (x + y)[1..] == x[1..] + y;
      StepsSplit(TableStep(c, x[0]), x[1..], y);
    }
  }

  function Joined(chunks: seq<seq<byte>>): seq<byte> {
    if chunks == [] then [] else chunks[0] + Joined(chunks[1..])
  }

  function ChunkedCrc(chunks: seq<seq<byte>>, crc: bv32): bv32
    decreases chunks
  {
    if chunks == [] then crc else ChunkedCrc(chunks[1..], Crc32(chunks[0], crc))
  }

  lemma NotNot(c: bv32) ensures !!c == c {}

  lemma {:induction false} ChunkingDoesNotMatter(chunks: seq<seq<byte>>, crc: bv32)
    ensures ChunkedCrc(chunks, crc) == Crc32(Joined(chunks), crc)
    decreases chunks
  {
    NotNot(crc);
    if chunks != [] {
      ChunkingDoesNotMatter(chunks[1..], Crc32(chunks[0], crc));
      NotNot(TableSteps(!crc, chunks[0]));
      StepsSplit(!crc, chunks[0], Joined(chunks[1..]));
    }
  }

  // ---------------------------------------------------------------------------------------------------------------
  // Bit by bit
  // ---------------------------------------------------------------------------------------------------------------

  function LowBit(c: bv32): bool {
    c & 1 == 1
  }

  function Down(c: bv32): bv32 {
    c >> 1
  }

  function High24(c: bv32): bv32 {
    c & 0xffffff00
  }

  /** One message bit goes into the register. */
  function BitStep(c: bv32, bit: bool): bv32 {
    Shift(if bit then c ^ 1 else c)
  }

  function EightBits(v: bv32): seq<bool> {
    LowBits(LowBit, Down, v, 8)
  }

  /** The bits of a byte, lowest first: the order they are sent in. */
  function ByteBits(b: byte): seq<bool> {
    EightBits(b as bv32)
  }

  function AllBits(bytes: seq<byte>): seq<bool> {
    if bytes == [] then [] else ByteBits(bytes[0]) + AllBits(bytes[1..])
  }

  lemma ShiftXor(a: bv32, b: bv32) ensures (a ^ b) >> 1 == (a >> 1) ^ (b >> 1) {}
  lemma LowXor(a: bv32, b: bv32) ensures (a ^ b) & 1 == (a & 1) ^ (b & 1) {}
  lemma OneBit(a: bv32) ensures a & 1 == 0 || a & 1 == 1 {}
  lemma XorCancels(a: bv32, b: bv32, p: bv32)
    ensures a ^ b == (p ^ a) ^ (p ^ b) && (p ^ a) ^ b == p ^ (a ^ b) && a ^ (p ^ b) == p ^ (a ^ b) {}

  /** A shift of the register is linear over GF(2). */
  lemma ShiftLinear(a: bv32, b: bv32)
    ensures Shift(a ^ b) == Shift(a) ^ Shift(b)
  {
    ShiftXor(a, b);
    LowXor(a, b);
    OneBit(a);
    OneBit(b);
    XorCancels(a >> 1, b >> 1, POLY);
  }

  lemma BitGoesIn(c: bv32, v: bv32)
    ensures (if v & 1 == 1 then c ^ 1 else c) & 1 == (c ^ v) & 1
    ensures ((if v & 1 == 1 then c ^ 1 else c) >> 1) ^ (v >> 1) == (c ^ v) >> 1 {}

  /** A message bit goes in together with the bits after it, which come out shifted. */
  lemma BitStepEarly(c: bv32, v: bv32)
    ensures Xor(BitStep(c, LowBit(v)), Down(v)) == Shift(Xor(c, v))
  {
    BitGoesIn(c, v);
    var x := if v & 1 == 1 then c ^ 1 else c;
    XorCancels(x >> 1, v >> 1, POLY);
  }

  lemma ByteIsSmall(b: byte)
    ensures (b as bv32) >> 8 == 0
  {
    var v := b as bv32;
    assert v < 256;
  }

  lemma ShiftsAdd(v: bv32)
    ensures (v >> 1) >> 1 == v >> 2 && (v >> 2) >> 1 == v >> 3 && (v >> 3) >> 1 == v >> 4 && (v >> 4) >> 1 == v >> 5
    ensures (v >> 5) >> 1 == v >> 6 && (v >> 6) >> 1 == v >> 7 && (v >> 7) >> 1 == v >> 8 {}

  lemma {:induction false} IterTwice<T>(f: T -> T, v: T, n: nat)
    ensures Iter(f, v, n + 1) == f(Iter(f, v, n))
    decreases n
  {
    if n > 0 { IterTwice(f, f(v), n - 1); }
  }

  lemma IterChain<T>(f: T -> T, v: T, v1: T, v2: T, v3: T, v4: T, v5: T, v6: T, v7: T, v8: T)
    requires f(v) == v1 && f(v1) == v2 && f(v2) == v3 && f(v3) == v4
    requires f(v4) == v5 && f(v5) == v6 && f(v6) == v7 && f(v7) == v8
    ensures Iter(f, v, 0) == v && Iter(f, v, 1) == v1 && Iter(f, v, 2) == v2 && Iter(f, v, 3) == v3
    ensures Iter(f, v, 4) == v4 && Iter(f, v, 5) == v5 && Iter(f, v, 6) == v6 && Iter(f, v, 7) == v7
    ensures Iter(f, v, 8) == v8
  {
    IterTwice(f, v, 0); IterTwice(f, v, 1); IterTwice(f, v, 2); IterTwice(f, v, 3);
    IterTwice(f, v, 4); IterTwice(f, v, 5); IterTwice(f, v, 6); IterTwice(f, v, 7);
  }

  lemma DownBy(v: bv32)
    ensures Iter(Down, v, 0) == v && Iter(Down, v, 1) == v >> 1 && Iter(Down, v, 2) == v >> 2 && Iter(Down, v, 3) == v >> 3
    ensures Iter(Down, v, 4) == v >> 4 && Iter(Down, v, 5) == v >> 5 && Iter(Down, v, 6) == v >> 6
    ensures Iter(Down, v, 7) == v >> 7 && Iter(Down, v, 8) == v >> 8
  {
    ShiftsAdd(v);
    IterChain(Down, v, v >> 1, v >> 2, v >> 3, v >> 4, v >> 5, v >> 6, v >> 7, v >> 8);
  }

  lemma ZeroBits(a: bv32)
    requires a & 0xff == 0
    ensures a & 1 == 0 && (a >> 1) & 1 == 0 && (a >> 2) & 1 == 0 && (a >> 3) & 1 == 0
    ensures (a >> 4) & 1 == 0 && (a >> 5) & 1 == 0 && (a >> 6) & 1 == 0 && (a >> 7) & 1 == 0 {}

  lemma EmptyLowByte(a: bv32)
    requires a & 0xff == 0
    ensures Entry(a) == a >> 8
  {
    DownBy(a);
    ZeroBits(a);
    forall i | 0 <= i < 8 ensures !LowBit(Iter(Down, a, i)) {
      if i == 0 { assert Iter(Down, a, 0) == a; }
    }
    ZerosShiftOut(Shift, LowBit, Down, a, 8);
  }

  lemma XorZero(a: bv32) ensures a ^ 0 == a {}

  lemma ShiftIsLinear()
    ensures Linear(Shift, Xor)
  {
    forall p: bv32, q: bv32 ensures Shift(Xor(p, q)) == Xor(Shift(p), Shift(q)) { ShiftLinear(p, q); }
  }

  /** Any word is its low part and its high part, and shifting the high part out only moves it. */
  ghost predicate Parted<T(!new)>(f: T -> T, add: (T, T) -> T, low: T -> T, high: T -> T, past: T -> T) {
    forall x :: add(low(x), high(x)) == x && Iter(f, high(x), 8) == past(x)
  }

  lemma LookupGeneric<T(!new)>(f: T -> T, add: (T, T) -> T, low: T -> T, high: T -> T, past: T -> T, c: T, v: T)
    requires Linear(f, add) && Parted(f, add, low, high, past) && past(add(c, v)) == past(c)
    ensures add(Iter(f, low(add(c, v)), 8), past(c)) == Iter(f, add(c, v), 8)
  {
    IterLinear(f, add, low(add(c, v)), high(add(c, v)), 8);
  }

  lemma PartsMeet(x: bv32) ensures (x & 0xff) ^ (x & 0xffffff00) == x {}
  lemma HighIsHigh(x: bv32) ensures (x & 0xffffff00) & 0xff == 0 && (x & 0xffffff00) >> 8 == x >> 8 {}

  lemma WordParts(x: bv32)
    ensures Xor(Low8(x), High24(x)) == x && High24(x) & 0xff == 0 && High24(x) >> 8 == Down8(x)
  {
    PartsMeet(x);
    HighIsHigh(x);
  }

  lemma HighPast(x: bv32)
    ensures Iter(Shift, High24(x), 8) == Down8(x)
  {
    WordParts(x);
    EmptyLowByte(High24(x));
  }

  lemma WordsAreParted()
    ensures Parted(Shift, Xor, Low8, High24, Down8)
  {
    forall x: bv32 ensures Xor(Low8(x), High24(x)) == x && Iter(Shift, High24(x), 8) == Down8(x) {
      WordParts(x);
      HighPast(x);
    }
  }

  lemma SmallIsPast(c: bv32, v: bv32)
    requires v >> 8 == 0
    ensures Down8(Xor(c, v)) == Down8(c) {}

  /** The lookup is eight shifts of the register with the byte put in. */
  lemma LookupIsShifts(c: bv32, v: bv32)
    requires v >> 8 == 0
    ensures LookupStep(c, v) == Entry(Xor(c, v))
  {
    ShiftIsLinear();
    WordsAreParted();
    SmallIsPast(c, v);
    LookupGeneric(Shift, Xor, Low8, High24, Down8, c, v);
  }

  lemma BitsAreShifts(c: bv32, v: bv32)
    requires v >> 8 == 0
    ensures Feed(BitStep, c, EightBits(v)) == Entry(Xor(c, v))
  {
    forall p: bv32, q: bv32 ensures Xor(BitStep(p, LowBit(q)), Down(q)) == Shift(Xor(p, q)) { BitStepEarly(p, q); }
    BitsAtOnce(Shift, Xor, BitStep, LowBit, Down, c, v, 8);
    DownBy(v);
    XorZero(Feed(BitStep, c, EightBits(v)));
  }

  /** A lookup does what the byte's eight bits do. */
  lemma TableStepIsBits(c: bv32, b: byte)
    ensures TableStep(c, b) == Feed(BitStep, c, ByteBits(b))
  {
    ByteIsSmall(b);
    LookupIsBits(c, b as bv32);
  }

  lemma LookupIsBits(c: bv32, v: bv32)
    requires v >> 8 == 0
    ensures LookupStep(c, v) == Feed(BitStep, c, EightBits(v))
  {
    LookupIsShifts(c, v);
    BitsAreShifts(c, v);
  }

  /** The table-driven checksum feeds the message's bits through the register one by one. */
  lemma {:induction false} TableStepsAreBits(c: bv32, bytes: seq<byte>)
    ensures TableSteps(c, bytes) == Feed(BitStep, c, AllBits(bytes))
    decreases bytes
  {
    if bytes != [] {
      TableStepIsBits(c, bytes[0]);
      TableStepsAreBits(TableStep(c, bytes[0]), bytes[1..]);
      FeedSplits(BitStep, c, ByteBits(bytes[0]), AllBits(bytes[1..]));
    }
  }

  // ---------------------------------------------------------------------------------------------------------------
  // Division of polynomials, coefficients highest first
  // ---------------------------------------------------------------------------------------------------------------

  /** x^32 + x^26 + x^23 + x^22 + x^16 + x^12 + x^11 + x^10 + x^8 + x^7 + x^5 + x^4 + x^2 + x + 1, without its x^32. */
  const GENERATOR: seq<bool> :=
    [false, false, false, false, false, true, false, false] + [true, true, false, false, false, false, false, true] +
    [false, false, false, true, true, true, false, true] + [true, false, true, true, false, true, true, true]

  function Zeros(n: nat): seq<bool> {
    seq(n, _ => false)
  }

  /** `r` added to the front of `m`. */
  function AddFront(r: seq<bool>, m: seq<bool>): seq<bool>
    requires |r| <= |m|
  {
    seq(|m|, i requires 0 <= i < |m| => if i < |r| then r[i] != m[i] else m[i])
  }

  /** What is left of `m` once its first coefficient has been cancelled. */
  function Reduced(m: seq<bool>): seq<bool>
    requires |m| > 32
  {
    if m[0] then AddFront(GENERATOR, m[1..]) else m[1..]
  }

  /** The remainder of long division by the generator. */
  function Remainder(m: seq<bool>): seq<bool>
    requires |m| >= 32
    decreases |m|
  {
    if |m| == 32 then m else Remainder(Reduced(m))
  }

  function Quotient(m: seq<bool>): seq<bool>
    requires |m| >= 32
    decreases |m|
  {
    if |m| == 32 then [] else [m[0]] + Quotient(Reduced(m))
  }

  /** `q` times the generator: the sum of the generator's multiples by the powers of x in `q`. */
  function Times(q: seq<bool>): (r: seq<bool>)
    ensures |r| == |q| + 32
    decreases q
  {
    if q == [] then Zeros(32)
    else AddFront(if q[0] then [true] + GENERATOR else [], [false] + Times(q[1..]))
  }

  /** `r` added to the end of `m`. */
  function AddEnd(m: seq<bool>, r: seq<bool>): seq<bool>
    requires |r| <= |m|
  {
    m[..|m| - |r|] + AddFront(r, m[|m| - |r|..])
  }

  lemma AddEndAt(m: seq<bool>, r: seq<bool>, i: nat)
    requires |r| <= |m| && i < |m|
    ensures |AddEnd(m, r)| == |m|
    ensures AddEnd(m, r)[i] == if i < |m| - |r| then m[i] else m[i] != r[i - (|m| - |r|)] {}

  lemma AddFrontAt(r: seq<bool>, m: seq<bool>, i: nat)
    requires |r| <= |m| && i < |m|
    ensures |AddFront(r, m)| == |m|
    ensures AddFront(r, m)[i] == if i < |r| then r[i] != m[i] else m[i] {}

  /** Undoing one step of the division, for any generator `g`. */
  lemma UndoStep(g: seq<bool>, m: seq<bool>, t: seq<bool>, r: seq<bool>)
    requires |g| == |r| == 32 && |m| > 32 && |t| == |m| - 1
    requires (if m[0] then AddFront(g, m[1..]) else m[1..]) == AddEnd(t, r)
    ensures m == AddEnd(AddFront(if m[0] then [true] + g else [], [false] + t), r)
  {
    hide AddFront, AddEnd;
    var front := if m[0] then [true] + g else [];
    AddFrontAt(front, [false] + t, 0);
    var sum := AddFront(front, [false] + t);
    AddEndAt(sum, r, 0);
    forall i | 0 <= i < |m| ensures AddEnd(sum, r)[i] == m[i] {
      AddEndAt(sum, r, i);
      AddFrontAt(front, [false] + t, i);
      if i > 0 {
        AddEndAt(t, r, i - 1);
        if m[0] { AddFrontAt(g, m[1..], i - 1); }
      }
    }
  }

  /** Long division divides: a message is its quotient times the generator, plus a remainder of degree below 32. */
  lemma {:induction false} DivisionDivides(m: seq<bool>)
    requires |m| >= 32
    ensures |Quotient(m)| == |m| - 32 && |Remainder(m)| == 32
    ensures m == AddEnd(Times(Quotient(m)), Remainder(m))
    decreases |m|
  {
    if |m| == 32 {
      assert Times([]) == Zeros(32);
      assert m == AddEnd(Zeros(32), m);
    } else {
      var q := Quotient(Reduced(m));
      DivisionDivides(Reduced(m));
      UndoStep(GENERATOR, m, Times(q), Remainder(m));
      assert ([m[0]] + q)[1..] == q;
    }
  }

  ghost predicate StepDivides<T(!new)>(step: (T, bool) -> T, reg: T -> seq<bool>, c: T, b: bool) {
    |reg(c)| == 32 && reg(step(c, b)) == Reduced(AddFront(reg(c), [b] + Zeros(32)))
  }

  /** Every step takes one bit in and divides once. */
  ghost predicate Divides<T(!new)>(step: (T, bool) -> T, reg: T -> seq<bool>) {
    forall c, b :: StepDivides(step, reg, c, b)
  }

  /** Only the first 33 coefficients take part in a step. */
  lemma ReducedLocally(g: seq<bool>, r: seq<bool>, b: bool, rest: seq<bool>)
    requires |g| == |r| == 32 && |rest| >= 32
    ensures var m, short := AddFront(r, [b] + rest), AddFront(r, [b] + Zeros(32));
            m[0] == short[0] && |m[1..]| == |rest| &&
            m[1..] == AddFront(short[1..], rest) && AddFront(g, m[1..]) == AddFront(AddFront(g, short[1..]), rest)
  {
    var m, short := AddFront(r, [b] + rest), AddFront(r, [b] + Zeros(32));
    forall i | 0 <= i < |rest| ensures m[1..][i] == AddFront(short[1..], rest)[i] {
      assert ([b] + rest)[i + 1] == rest[i];
    }
  }

  lemma {:induction false} FeedDivides<T(!new)>(step: (T, bool) -> T, reg: T -> seq<bool>, c: T, bits: seq<bool>)
    requires Divides(step, reg)
    ensures |reg(c)| == 32 && reg(Feed(step, c, bits)) == Remainder(AddFront(reg(c), bits + Zeros(32)))
    decreases bits
  {
    assert StepDivides(step, reg, c, true);
    if bits == [] {
      assert [] + Zeros(32) == Zeros(32);
      assert AddFront(reg(c), Zeros(32)) == reg(c);
    } else {
      var rest := bits[1..] + Zeros(32);
      assert StepDivides(step, reg, c, bits[0]);
      FeedDivides(step, reg, step(c, bits[0]), bits[1..]);
      assert bits + Zeros(32) == [bits[0]] + rest;
      ReducedLocally(GENERATOR, reg(c), bits[0], rest);
    }
  }

  /** The register as coefficients: its lowest bit is the highest one. */
  function Register(c: bv32): seq<bool> {
    LowBits(LowBit, Down, c, 32)
  }

  ghost predicate LowAdds<T(!new)>(low: T -> bool, add: (T, T) -> T) {
    forall x, y :: low(add(x, y)) == (low(x) != low(y))
  }

  lemma AddFronts(p: bool, x: seq<bool>, q: bool, y: seq<bool>)
    requires |x| <= |y|
    ensures AddFront([p] + x, [q] + y) == [p != q] + AddFront(x, y)
  {
  }

  lemma {:induction false} LowBitsOfSum<T(!new)>(low: T -> bool, down: T -> T, add: (T, T) -> T, a: T, b: T, n: nat)
    requires Linear(down, add) && LowAdds(low, add)
    ensures |LowBits(low, down, a, n)| == n && |LowBits(low, down, b, n)| == n
    ensures LowBits(low, down, add(a, b), n) == AddFront(LowBits(low, down, a, n), LowBits(low, down, b, n))
    decreases n
  {
    if n > 0 {
      LowBitsOfSum(low, down, add, down(a), down(b), n - 1);
      AddFronts(low(a), LowBits(low, down, down(a), n - 1), low(b), LowBits(low, down, down(b), n - 1));
    }
  }

  lemma {:induction false} LowBitsGrow<T>(low: T -> bool, down: T -> T, v: T, n: nat)
    ensures LowBits(low, down, v, n + 1) == LowBits(low, down, v, n) + [low(Iter(down, v, n))]
    decreases n
  {
    if n > 0 { LowBitsGrow(low, down, down(v), n - 1); }
  }

  lemma {:induction false} LowBitsLength<T>(low: T -> bool, down: T -> T, v: T, n: nat)
    ensures |LowBits(low, down, v, n)| == n
    decreases n
  {
    if n > 0 { LowBitsLength(low, down, down(v), n - 1); }
  }

  lemma {:induction false} IterSplits<T>(f: T -> T, v: T, m: nat, n: nat)
    ensures Iter(f, v, m + n) == Iter(f, Iter(f, v, m), n)
    decreases m
  {
    if m > 0 { IterSplits(f, f(v), m - 1, n); }
  }

  lemma {:induction false} LowBitsSplit<T>(low: T -> bool, down: T -> T, v: T, m: nat, n: nat)
    ensures LowBits(low, down, v, m + n) == LowBits(low, down, v, m) + LowBits(low, down, Iter(down, v, m), n)
    decreases m
  {
    if m > 0 { LowBitsSplit(low, down, down(v), m - 1, n); }
  }

  lemma IterInParts<T>(f: T -> T, v: T, v1: T, v2: T, v3: T, v4: T, k: nat)
    requires Iter(f, v, k) == v1 && Iter(f, v1, k) == v2 && Iter(f, v2, k) == v3 && Iter(f, v3, k) == v4
    ensures Iter(f, v, k + (k + (k + k))) == v4
  {
    IterSplits(f, v, k, k + (k + k));
    IterSplits(f, v1, k, k + k);
    IterSplits(f, v2, k, k);
  }

  lemma LowBitsInParts<T>(low: T -> bool, down: T -> T, v: T, v1: T, v2: T, v3: T, k: nat)
    requires Iter(down, v, k) == v1 && Iter(down, v1, k) == v2 && Iter(down, v2, k) == v3
    ensures LowBits(low, down, v, k + (k + (k + k))) ==
            LowBits(low, down, v, k) + (LowBits(low, down, v1, k) + (LowBits(low, down, v2, k) + LowBits(low, down, v3, k)))
  {
    LowBitsSplit(low, down, v, k, k + (k + k));
    LowBitsSplit(low, down, v1, k, k + k);
    LowBitsSplit(low, down, v2, k, k);
  }

  lemma EightLowBits<T>(low: T -> bool, down: T -> T, v: T)
    ensures LowBits(low, down, v, 8) ==
            [low(Iter(down, v, 0)), low(Iter(down, v, 1)), low(Iter(down, v, 2)), low(Iter(down, v, 3)),
             low(Iter(down, v, 4)), low(Iter(down, v, 5)), low(Iter(down, v, 6)), low(Iter(down, v, 7))]
  {
    var v2, v4, v6 := Iter(down, v, 2), Iter(down, v, 4), Iter(down, v, 6);
    IterSplits(down, v, 2, 1); IterSplits(down, v, 2, 2);
    IterSplits(down, v, 4, 1); IterSplits(down, v, 4, 2);
    IterSplits(down, v, 6, 1);
    LowBitsSplit(low, down, v, 2, 6);
    LowBitsSplit(low, down, v2, 2, 4);
    LowBitsSplit(low, down, v4, 2, 2);
  }

  lemma DownEight(v: bv32)
    ensures Iter(Down, v, 8) == Down8(v)
  {
    DownBy(v);
  }

  lemma Emptied(c: bv32) ensures Down8(Down8(Down8(Down8(c)))) == 0 && !LowBit(0) {}

  lemma DownEmpties(c: bv32)
    ensures !LowBit(Iter(Down, c, 32))
  {
    var c1 := Down8(c);
    var c2 := Down8(c1);
    var c3 := Down8(c2);
    DownEight(c); DownEight(c1); DownEight(c2); DownEight(c3);
    IterInParts(Down, c, c1, c2, c3, Down8(c3), 8);
    Emptied(c);
  }

  /** A byte's bits one by one. */
  lemma BitsOfByte(v: bv32)
    ensures EightBits(v) == [LowBit(v), LowBit(v >> 1), LowBit(v >> 2), LowBit(v >> 3),
                             LowBit(v >> 4), LowBit(v >> 5), LowBit(v >> 6), LowBit(v >> 7)]
  {
    DownBy(v);
    EightLowBits(LowBit, Down, v);
  }

  lemma RegisterInBytes(v: bv32, v1: bv32, v2: bv32, v3: bv32)
    requires v1 == Down8(v) && v2 == Down8(v1) && v3 == Down8(v2)
    ensures Register(v) == EightBits(v) + (EightBits(v1) + (EightBits(v2) + EightBits(v3)))
  {
    DownEight(v); DownEight(v1); DownEight(v2);
    LowBitsInParts(LowBit, Down, v, v1, v2, v3, 8);
  }

  lemma PolyInBytes()
    ensures Down8(POLY) == 0xedb883 && Down8(0xedb883) == 0xedb8 && Down8(0xedb8) == 0xed {}

  lemma PolyByte0() ensures EightBits(POLY) == [false, false, false, false, false, true, false, false]
  { BitsOfByte(POLY); }
  lemma PolyByte1() ensures EightBits(0xedb883) == [true, true, false, false, false, false, false, true]
  { BitsOfByte(0xedb883); }
  lemma PolyByte2() ensures EightBits(0xedb8) == [false, false, false, true, true, true, false, true]
  { BitsOfByte(0xedb8); }
  lemma PolyByte3() ensures EightBits(0xed) == [true, false, true, true, false, true, true, true]
  { BitsOfByte(0xed); }

  /** The constant in the source is the generator, lowest bit first. */
  lemma PolyIsGenerator()
    ensures Register(POLY) == GENERATOR
  {
    PolyInBytes();
    RegisterInBytes(POLY, 0xedb883, 0xedb8, 0xed);
    PolyByte0();
    PolyByte1();
    PolyByte2();
    PolyByte3();
  }

  lemma LowBitsDown<T>(low: T -> bool, down: T -> T, v: T, n: nat)
    ensures |LowBits(low, down, v, n + 1)| == n + 1
    ensures LowBits(low, down, down(v), n + 1) == LowBits(low, down, v, n + 1)[1..] + [low(Iter(down, v, n + 1))]
  {
    LowBitsLength(low, down, v, n + 1);
    LowBitsGrow(low, down, v, n + 1);
    var r := LowBits(low, down, v, n + 1);
    assert (r + [low(Iter(down, v, n + 1))])[1..] == r[1..] + [low(Iter(down, v, n + 1))];
  }

  lemma RegisterDown(c: bv32)
    ensures |Register(c)| == 32 && Register(Down(c)) == Register(c)[1..] + [false]
  {
    LowBitsDown(LowBit, Down, c, 31);
    DownEmpties(c);
  }

  lemma XorLow(a: bv32, b: bv32)
    ensures LowBit(Xor(a, b)) == (LowBit(a) != LowBit(b))
    ensures Down(Xor(a, b)) == Xor(Down(a), Down(b))
  {
    LowXor(a, b);
    ShiftXor(a, b);
    OneBit(a);
    OneBit(b);
  }

  lemma LowBitAdds()
    ensures LowAdds(LowBit, Xor)
  {
    forall x: bv32, y: bv32 ensures LowBit(Xor(x, y)) == (LowBit(x) != LowBit(y)) { XorLow(x, y); }
  }

  lemma DownIsLinear()
    ensures Linear(Down, Xor)
  {
    forall x: bv32, y: bv32 ensures Down(Xor(x, y)) == Xor(Down(x), Down(y)) { XorLow(x, y); }
  }

  lemma RegisterOfSum(a: bv32, b: bv32)
    ensures |Register(a)| == |Register(b)| == 32
    ensures Register(Xor(a, b)) == AddFront(Register(a), Register(b))
  {
    LowBitAdds();
    DownIsLinear();
    LowBitsOfSum(LowBit, Down, Xor, a, b, 32);
  }

  lemma LowFlips(c: bv32) ensures (c ^ 1) & 1 == (c & 1) ^ 1 && (c ^ 1) >> 1 == c >> 1 {}

  /** A bit goes in at the bottom, and what is left is shifted. */
  lemma BitStepParts(c: bv32, b: bool)
    ensures BitStep(c, b) == if LowBit(c) != b then Xor(POLY, Down(c)) else Down(c)
  {
    LowFlips(c);
    OneBit(c);
  }

  /** The register takes a bit in as a step of the division does: `r` holds its coefficients. */
  lemma RegisterStep(c: bv32, b: bool, r: seq<bool>)
    requires |r| == 32 && r[0] == LowBit(c) && Register(Down(c)) == r[1..] + [false]
    ensures Register(BitStep(c, b)) == Reduced(AddFront(r, [b] + Zeros(32)))
  {
    BitStepParts(c, b);
    RegisterOfSum(POLY, Down(c));
    PolyIsGenerator();
    hide Register, BitStep, Xor, Down, LowBit, GENERATOR;
    var m := AddFront(r, [b] + Zeros(32));
    assert m[1..] == r[1..] + [false];
  }

  lemma FirstBit(c: bv32)
    ensures |Register(c)| == 32 && Register(c)[0] == LowBit(c)
  {
    LowBitsLength(LowBit, Down, c, 32);
  }

  lemma OneStepDivides(c: bv32, b: bool)
    ensures StepDivides(BitStep, Register, c, b)
  {
    RegisterDown(c);
    FirstBit(c);
    RegisterStep(c, b, Register(c));
  }

  lemma RegisterDivides()
    ensures Divides(BitStep, Register)
  {
    forall c: bv32, b: bool ensures StepDivides(BitStep, Register, c, b) { OneStepDivides(c, b); }
  }

  /**
   * The table-driven checksum, carried on from any value, is the remainder of the message followed by 32 zeros, with
   * the complement of that value added at its front; the result is the complement of the remainder.
   */
  lemma ChecksumIsRemainder(bytes: seq<byte>, crc: bv32)
    ensures |Register(!crc)| == 32
    ensures Register(!Crc32(bytes, crc)) == Remainder(AddFront(Register(!crc), AllBits(bytes) + Zeros(32)))
  {
    RegisterDivides();
    TableStepsAreBits(!crc, bytes);
    FeedDivides(BitStep, Register, !crc, AllBits(bytes));
    NotNot(TableSteps(!crc, bytes));
  }
}
