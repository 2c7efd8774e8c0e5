/**
 SHA-1: the one-shot definition of FIPS 180-4 (sections 4.1.1, 4.2.1, 5.1.1, 5.2.1, 5.3.1
 and 6.1.2), then the streaming context that keeps 64 bytes and 16 words of schedule.
 */
module Sha1 {
  import opened Bytes

  type word = bv32

  // ----- FIPS 180-4 -----

  function Rotl(x: word, n: nat): word
    requires n < 32
  {
    (x << n) | (x >> (32 - n))
  }

  function Ch(x: word, y: word, z: word): word { (x & y) ^ (!x & z) }
  function Parity(x: word, y: word, z: word): word { x ^ y ^ z }
  function Maj(x: word, y: word, z: word): word { (x & y) ^ (x & z) ^ (y & z) }

  function F(t: nat, x: word, y: word, z: word): word {
    if t < 20 then Ch(x, y, z) else if t < 40 then Parity(x, y, z)
    else if t < 60 then Maj(x, y, z) else Parity(x, y, z)
  }

  function K(t: nat): word {
    if t < 20 then 0x5A82_7999 else if t < 40 then 0x6ED9_EBA1
    else if t < 60 then 0x8F1B_BCDC else 0xCA62_C1D6
  }

  /** Section 4.2.1: the constants are the square roots of 2, 3, 5 and 10, to thirty binary places. */
  lemma Roots(t: nat)
    ensures var k, c := K(t) as nat, if t < 20 then 2 else if t < 40 then 3 else if t < 60 then 5 else 10;
            k * k <= c * 0x1000_0000_0000_0000 < (k + 1) * (k + 1)
  {
  }

  /** A word from four bytes, most significant first. */
  function WordOf(b0: byte, b1: byte, b2: byte, b3: byte): word {
    ((b0 as bv32) << 24) | ((b1 as bv32) << 16) | ((b2 as bv32) << 8) | (b3 as bv32)
  }

  function Mix(x: word, y: word, z: word, t: word): word { Rotl(x ^ y ^ z ^ t, 1) }

  /** Word t of the message schedule of a block. */
  function W(m: seq<byte>, t: nat): word
    requires |m| == 64
  {
    if t < 16 then WordOf(m[4 * t], m[4 * t + 1], m[4 * t + 2], m[4 * t + 3])
    else Mix(W(m, t - 3), W(m, t - 8), W(m, t - 14), W(m, t - 16))
  }

  datatype Words = Words(a: word, b: word, c: word, d: word, e: word)

  function Add(x: word, y: word): word { x + y }

  function Sum(r: word, f: word, e: word, k: word, w: word): word { Add(Add(Add(Add(r, f), e), k), w) }

  function Round(t: nat, h: Words, w: word): Words {
    Words(Sum(Rotl(h.a, 5), F(t, h.b, h.c, h.d), h.e, K(t), w), h.a, Rotl(h.b, 30), h.c, h.d)
  }

  function Rounds(m: seq<byte>, h: Words, t: nat): Words
    requires |m| == 64
  {
    if t == 0 then h else Round(t - 1, Rounds(m, h, t - 1), W(m, t - 1))
  }

  function Plus(h: Words, r: Words): Words {
    Words(Add(h.a, r.a), Add(h.b, r.b), Add(h.c, r.c), Add(h.d, r.d), Add(h.e, r.e))
  }

  function Compress(h: Words, m: seq<byte>): Words
    requires |m| == 64
  {
    Plus(h, Rounds(m, h, 80))
  }

  // ----- the rounds can be undone -----

  /** Rotations with constant shifts. */
  function Left1(x: word): word { (x << 1) | (x >> 31) }
  function Left5(x: word): word { (x << 5) | (x >> 27) }
  function Left30(x: word): word { (x << 30) | (x >> 2) }
  function Right30(x: word): word { (x >> 30) | (x << 2) }

  lemma Lefts(x: word)
    ensures Rotl(x, 1) == Left1(x) && Rotl(x, 5) == Left5(x) && Rotl(x, 30) == Left30(x)
  {
  }

  function Sub(x: word, y: word): word { x - y }

  function Less(s: word, r: word, f: word, k: word, w: word): word { Sub(Sub(Sub(s, w), k), Add(r, f)) }

  /** The variables before a round. */
  function Unround(t: nat, r: Words, w: word): Words {
    var b := Right30(r.c);
    Words(r.b, b, r.d, r.e, Less(r.a, Rotl(r.b, 5), F(t, b, r.d, r.e), K(t), w))
  }

  lemma RightLeft(x: word)
    ensures Right30(Left30(x)) == x
  {
  }

  lemma Cancel(x: word, y: word)
    ensures Sub(Add(x, y), y) == x && Sub(Add(x, y), x) == y
  {
  }

  lemma LessSum(r: word, f: word, e: word, k: word, w: word)
    ensures Less(Sum(r, f, e, k, w), r, f, k, w) == e
  {
    hide Add, Sub;
    Cancel(Add(Add(Add(r, f), e), k), w);
    Cancel(Add(Add(r, f), e), k);
    Cancel(Add(r, f), e);
  }

  lemma Undone(t: nat, h: Words, w: word)
    ensures Unround(t, Round(t, h, w), w) == h
  {
    Lefts(h.b);
    RightLeft(h.b);
    LessSum(Rotl(h.a, 5), F(t, h.b, h.c, h.d), h.e, K(t), w);
    hide Right30, Left1, Left5, Left30, Rotl, F, K, Sum, Less;
  }

  function Unrounds(m: seq<byte>, r: Words, t: nat): Words
    requires |m| == 64
    decreases t
  {
    if t == 0 then r else Unrounds(m, Unround(t - 1, r, W(m, t - 1)), t - 1)
  }

  /** For a block, the rounds are one to one: the variables before come back from the variables after. */
  lemma {:induction false} RoundsUndone(m: seq<byte>, h: Words, t: nat)
    requires |m| == 64
    ensures Unrounds(m, Rounds(m, h, t), t) == h
  {
    hide Round, Unround, W;
    if t > 0 {
      Undone(t - 1, Rounds(m, h, t - 1), W(m, t - 1));
      RoundsUndone(m, h, t - 1);
    }
  }

  function Minus(h: Words, r: Words): Words {
    Words(Sub(h.a, r.a), Sub(h.b, r.b), Sub(h.c, r.c), Sub(h.d, r.d), Sub(h.e, r.e))
  }

  /** The hash value before a block is added to what the rounds make of it. */
  lemma Forward(h: Words, m: seq<byte>)
    requires |m| == 64
    ensures Minus(Compress(h, m), Rounds(m, h, 80)) == h
  {
    hide Rounds, Add, Sub;
    var r := Rounds(m, h, 80);
    Cancel(h.a, r.a);
    Cancel(h.b, r.b);
    Cancel(h.c, r.c);
    Cancel(h.d, r.d);
    Cancel(h.e, r.e);
  }

  const H0 := Words(0x6745_2301, 0xEFCD_AB89, 0x98BA_DCFE, 0x1032_5476, 0xC3D2_E1F0)

  /** The hash value after all the blocks of m. */
  function HashBlocks(m: seq<byte>): Words
    requires |m| % 64 == 0
  {
    if m == [] then H0 else Compress(HashBlocks(m[..|m| - 64]), m[|m| - 64..])
  }

  function Zeros(n: nat): (r: seq<byte>)
    ensures |r| == n
  {
    seq(n, i => 0)
  }

  /** Number of zero bytes between the end mark and the length. */
  function Gap(n: nat): (k: nat)
    ensures k < 64 && (n + 1 + k) % 64 == 56
  {
    (119 - n % 64) % 64
  }

  function BitLength(n: nat): nat { 8 * n % TWO64 }

  function Padding(n: nat): (r: seq<byte>)
    ensures 9 <= |r| <= 72 && (n + |r|) % 64 == 0
  {
    assert (n + 1 + Gap(n) + 8) % 64 == 0;
    [0x80] + Zeros(Gap(n)) + Octets(BitLength(n), 8)
  }

  function WordBytes(w: word): (r: seq<byte>)
    ensures |r| == 4
  {
    [((w >> 24) & 0xFF) as byte, ((w >> 16) & 0xFF) as byte, ((w >> 8) & 0xFF) as byte, (w & 0xFF) as byte]
  }

  function Digest(m: seq<byte>): (r: seq<byte>)
    ensures |r| == 20
  {
    var h := HashBlocks(m + Padding(|m|));
    WordBytes(h.a) + WordBytes(h.b) + WordBytes(h.c) + WordBytes(h.d) + WordBytes(h.e)
  }

  // ----- the block function -----

  /** The logical functions as the macros write them. */
  function Ch0(w: word, x: word, y: word): word { (w & (x ^ y)) ^ y }
  function Maj3(w: word, x: word, y: word): word { ((w | x) & y) | (w & x) }

  lemma ChBits(w: word, x: word, y: word)
    ensures (w & (x ^ y)) ^ y == (w & x) ^ (!w & y)
  {
  }

  lemma MajBits(w: word, x: word, y: word)
    ensures ((w | x) & y) | (w & x) == (w & x) ^ (w & y) ^ (x & y)
  {
  }

  lemma MacrosAre(w: word, x: word, y: word)
    ensures Ch0(w, x, y) == Ch(w, x, y) && Maj3(w, x, y) == Maj(w, x, y)
  {
    ChBits(w, x, y);
    MajBits(w, x, y);
  }

  /** A word of memory on a little-endian machine. */
  function Load(b0: byte, b1: byte, b2: byte, b3: byte): word {
    (b0 as bv32) | ((b1 as bv32) << 8) | ((b2 as bv32) << 16) | ((b3 as bv32) << 24)
  }

  function Swap(x: word): word {
    (Rotl(x, 24) & 0xFF00_FF00) | (Rotl(x, 8) & 0x00FF_00FF)
  }

  lemma SwapHigh(b0: byte, b1: byte, b2: byte, b3: byte)
    ensures Rotl(Load(b0, b1, b2, b3), 24) & 0xFF00_FF00 == ((b0 as bv32) << 24) | ((b2 as bv32) << 8)
  {
  }

  lemma SwapLow(b0: byte, b1: byte, b2: byte, b3: byte)
    ensures Rotl(Load(b0, b1, b2, b3), 8) & 0x00FF_00FF == ((b1 as bv32) << 16) | (b3 as bv32)
  {
  }

  lemma Or4(x: word, y: word, z: word, t: word)
    ensures (x | z) | (y | t) == x | y | z | t
  {
  }

  lemma SwapLoad(b0: byte, b1: byte, b2: byte, b3: byte)
    ensures Swap(Load(b0, b1, b2, b3)) == WordOf(b0, b1, b2, b3)
  {
    hide Load, Rotl;
    SwapHigh(b0, b1, b2, b3);
    SwapLow(b0, b1, b2, b3);
    Or4((b0 as bv32) << 24, (b1 as bv32) << 16, (b2 as bv32) << 8, b3 as bv32);
  }

  /** Where word i of the schedule is kept. */
  function Slot(i: nat): (k: nat)
    ensures k < 16
  {
    i % 16
  }

  /** Before round t, the 16 words hold the schedule of the last 16 rounds, or memory not yet swapped. */
  ghost predicate Window(block: array<word>, m: seq<byte>, t: nat)
    requires |m| == 64
    reads block
  {
    && block.Length == 16
    && (forall j :: t - 16 <= j < t && 0 <= j ==> block[Slot(j)] == W(m, j))
    && (forall j :: t <= j < 16 ==> block[j] == Load(m[4 * j], m[4 * j + 1], m[4 * j + 2], m[4 * j + 3]))
  }

  method Blk0(block: array<word>, i: nat, ghost m: seq<byte>) returns (w: word)
    requires |m| == 64 && i < 16 && Window(block, m, i)
    modifies block
    ensures Window(block, m, i + 1) && w == W(m, i)
  {
    hide Swap, Load, WordOf, W, Rotl;
    SwapLoad(m[4 * i], m[4 * i + 1], m[4 * i + 2], m[4 * i + 3]);
    FirstWords(m, i);
    block[i] := Swap(block[i]);
    w := block[i];
  }

  lemma FirstWords(m: seq<byte>, t: nat)
    requires |m| == 64 && t < 16
    ensures W(m, t) == WordOf(m[4 * t], m[4 * t + 1], m[4 * t + 2], m[4 * t + 3])
  {
    hide WordOf;
  }

  lemma ScheduleIs(m: seq<byte>, t: nat)
    requires |m| == 64 && t >= 16
    ensures W(m, t) == Mix(W(m, t - 3), W(m, t - 8), W(m, t - 14), W(m, t - 16))
  {
  }

  lemma Circular(i: nat)
    requires i >= 16
    ensures Slot(i + 13) == Slot(i - 3) && Slot(i + 8) == Slot(i - 8)
    ensures Slot(i + 2) == Slot(i - 14) && Slot(i) == Slot(i - 16)
  {
  }

  lemma Apart(i: nat, j: nat)
    requires j < i < j + 16
    ensures Slot(j) != Slot(i)
  {
  }

  method Blk(block: array<word>, i: nat, ghost m: seq<byte>) returns (w: word)
    requires |m| == 64 && 16 <= i && Window(block, m, i)
    modifies block
    ensures Window(block, m, i + 1) && w == W(m, i)
  {
    hide W, Mix, Load, Slot;
    Circular(i);
    ScheduleIs(m, i);
    w := Mix(block[Slot(i + 13)], block[Slot(i + 8)], block[Slot(i + 2)], block[Slot(i)]);
    block[Slot(i)] := w;
    forall j | i - 15 <= j < i ensures Slot(j) != Slot(i) { Apart(i, j); }
  }

  /** What a round adds to its last variable, in the order of the macros. */
  function Added(z: word, f: word, b: word, k: word, r: word): (s: word)
    ensures s == Sum(r, f, z, k, b)
  {
    AddedIs(z, f, b, k, r);
    Add(z, Add(Add(Add(f, b), k), r))
  }

  lemma Exchange(x: word, y: word, z: word)
    ensures Add(Add(x, y), z) == Add(Add(x, z), y) && Add(x, y) == Add(y, x)
  {
  }

  lemma AddedIs(z: word, f: word, b: word, k: word, r: word)
    ensures Add(z, Add(Add(Add(f, b), k), r)) == Sum(r, f, z, k, b)
  {
    hide Add;
    Exchange(f, b, k);
    Exchange(Add(f, k), b, r);
    Exchange(f, k, r);
    Exchange(f, r, 0);
    Exchange(z, Add(Add(Add(r, f), k), b), 0);
    Exchange(Add(Add(r, f), k), b, z);
    Exchange(Add(r, f), k, z);
  }

  lemma RoundsNext(m: seq<byte>, h: Words, t: nat)
    requires |m| == 64
    ensures Rounds(m, h, t + 1) == Round(t, Rounds(m, h, t), W(m, t))
  {
  }

  /** One of R0, R1, R2, R3 and R4, chosen by the number of the round. */
  method R(block: array<word>, v: word, w: word, x: word, y: word, z: word, i: nat, ghost m: seq<byte>, ghost h: Words)
    returns (z': word, w': word)
    requires |m| == 64 && Window(block, m, i) && Words(v, w, x, y, z) == Rounds(m, h, i)
    modifies block
    ensures Window(block, m, i + 1) && Words(z', v, w', x, y) == Rounds(m, h, i + 1)
  {
    hide W, Rotl, Window, Rounds, Ch, Maj, Parity, Ch0, Maj3, Added, Sum, WordOf;
    var b: word;
    if i < 16 { b := Blk0(block, i, m); } else { b := Blk(block, i, m); }
    RoundsNext(m, h, i);
    MacrosAre(w, x, y);
    if i < 20 { z' := Added(z, Ch0(w, x, y), b, 0x5A82_7999, Rotl(v, 5)); }
    else if i < 40 { z' := Added(z, Parity(w, x, y), b, 0x6ED9_EBA1, Rotl(v, 5)); }
    else if i < 60 { z' := Added(z, Maj3(w, x, y), b, 0x8F1B_BCDC, Rotl(v, 5)); }
    else { z' := Added(z, Parity(w, x, y), b, 0xCA62_C1D6, Rotl(v, 5)); }
    w' := Rotl(w, 30);
  }

  /** After five rounds every variable has its name back. */
  method FiveRounds(block: array<word>, h': Words, i: nat, ghost m: seq<byte>, ghost h: Words) returns (r: Words)
    requires |m| == 64 && Window(block, m, i) && h' == Rounds(m, h, i)
    modifies block
    ensures Window(block, m, i + 5) && r == Rounds(m, h, i + 5)
  {
    hide W, Window, Rounds;
    var Words(a, b, c, d, e) := h';
    e, b := R(block, a, b, c, d, e, i, m, h);
    d, a := R(block, e, a, b, c, d, i + 1, m, h);
    c, e := R(block, d, e, a, b, c, i + 2, m, h);
    b, d := R(block, c, d, e, a, b, i + 3, m, h);
    a, c := R(block, b, c, d, e, a, i + 4, m, h);
    r := Words(a, b, c, d, e);
  }

  /** The block is hashed into the state; its words are overwritten by the schedule. */
  method Transform(state: array<word>, block: array<word>, ghost m: seq<byte>)
    requires state.Length == 5 && state != block
    requires |m| == 64 && Window(block, m, 0)
    modifies state, block
    ensures StateOf(state) == Compress(old(StateOf(state)), m)
  {
    hide W, Window, Rounds, Plus;
    var h := Words(state[0], state[1], state[2], state[3], state[4]);
    var r := h;
    RoundsZero(m, h);
    for i := 0 to 16
      invariant Window(block, m, 5 * i) && r == Rounds(m, h, 5 * i)
      invariant StateOf(state) == h
    {
      r := FiveRounds(block, r, 5 * i, m, h);
    }
    h := Plus(h, r);
    state[0], state[1], state[2], state[3], state[4] := h.a, h.b, h.c, h.d, h.e;
  }

  lemma RoundsZero(m: seq<byte>, h: Words)
    requires |m| == 64
    ensures Rounds(m, h, 0) == h
  {
  }

  ghost function StateOf(state: array<word>): Words
    requires state.Length == 5
    reads state
  {
    Words(state[0], state[1], state[2], state[3], state[4])
  }

  // ----- streaming -----

  /** The whole blocks of a message, and the bytes after them. */
  function Blocks(m: seq<byte>): (r: seq<byte>)
    ensures |r| % 64 == 0
  {
    m[..|m| - |m| % 64]
  }

  function Rest(m: seq<byte>): (r: seq<byte>)
    ensures |r| == |m| % 64
  {
    m[|m| - |m| % 64..]
  }

  lemma HashSnoc(m: seq<byte>, b: seq<byte>)
    requires |m| % 64 == 0 && |b| == 64
    ensures (|m| + 64) % 64 == 0 && HashBlocks(m + b) == Compress(HashBlocks(m), b)
  {
    hide Compress;
    var s := m + b;
    assert s[..|s| - 64] == m && s[|s| - 64..] == b;
  }

  lemma Wrap(x: nat, n: nat)
    ensures x % TWO64 % 64 == x % 64 && (x % TWO64 + n) % TWO64 == (x + n) % TWO64
  {
    var q := x / TWO64;
    assert x == TWO64 * q + x % TWO64;
    assert TWO64 * q == 64 * (0x400_0000_0000_0000 * q);
    Multiple(x % TWO64, 0x400_0000_0000_0000 * q);
    Multiple64(x % TWO64 + n, q);
  }

  lemma Multiple(a: nat, k: nat)
    ensures (a + 64 * k) % 64 == a % 64
  {
  }

  lemma {:induction false} Multiple64(a: nat, k: nat)
    ensures (a + TWO64 * k) % TWO64 == a % TWO64
  {
  }

  /** Short data are only kept. */
  lemma Kept(m: seq<byte>, data: seq<byte>)
    requires |m| % 64 + |data| < 64
    ensures Blocks(m + data) == Blocks(m) && Rest(m + data) == Rest(m) + data
  {
    assert |m + data| % 64 == |m| % 64 + |data|;
  }

  lemma AllBlocks(m: seq<byte>)
    requires |m| % 64 == 0
    ensures Blocks(m) == m && Rest(m) == []
  {
  }

  lemma Split(m: seq<byte>)
    ensures Blocks(m) + Rest(m) == m
  {
  }

  lemma Halves(m: seq<byte>, data: seq<byte>, i: nat)
    requires i <= |data|
    ensures m + data[..i] + data[i..] == m + data
    ensures (|m| + i) % 64 == 0 ==> |m + data[..i]| % 64 == 0
  {
  }

  class Context {
    const state: array<word>
    /** 64 bytes, that the block function sees as 16 words. */
    const buffer: array<byte>
    var length: nat

    /** What was hashed so far. */
    ghost var message: seq<byte>

    ghost predicate Shape()
      reads this
    {
      state.Length == 5 && buffer.Length == 64
    }

    /** The state after a message of whole blocks and some bytes more. */
    ghost predicate Hashed(m: seq<byte>)
      reads this, state, buffer
    {
      Shape() && StateOf(state) == HashBlocks(Blocks(m)) && buffer[..|Rest(m)|] == Rest(m)
    }

    ghost predicate Valid()
      reads this, state, buffer
    {
      Hashed(message) && length == |message| % TWO64
    }

    constructor ()
      ensures Valid() && message == [] && fresh(state) && fresh(buffer)
    {
      state := new word[5];
      buffer := new byte[64];
      length, message := 0, [];
      new;
      state[0], state[1], state[2], state[3], state[4] := 0x6745_2301, 0xEFCD_AB89, 0x98BA_DCFE, 0x1032_5476, 0xC3D2_E1F0;
    }

    method Copy(at: nat, data: seq<byte>)
      requires buffer.Length == 64 && at + |data| <= 64
      modifies buffer
      ensures buffer[..at + |data|] == old(buffer[..at]) + data
    {
      forall k | 0 <= k < |data| { buffer[at + k] := data[k]; }
      assert buffer[..at + |data|] == buffer[..at] + buffer[at..at + |data|];
    }

    /** The block function on the buffer, which is left with words of the schedule. */
    method Absorb(ghost m: seq<byte>)
      requires Shape() && |m| % 64 == 0 && StateOf(state) == HashBlocks(m)
      modifies state, buffer
      ensures Hashed(m + old(buffer[..]))
    {
      hide HashBlocks, Compress, Load;
      ghost var b := buffer[..];
      var words := new word[16](i requires 0 <= i < 16 && buffer.Length == 64 reads buffer =>
        Load(buffer[4 * i], buffer[4 * i + 1], buffer[4 * i + 2], buffer[4 * i + 3]));
      Transform(state, words, b);
      forall k | 0 <= k < 64 { buffer[k] := Stored(words[k / 4], k % 4); }
      HashSnoc(m, b);
      AllBlocks(m + b);
    }

    /** `SHA1_update`. */
    method Update(data: seq<byte>)
      requires Valid() && |data| < TWO64
      modifies this`length, this`message, state, buffer
      ensures Valid() && message == old(message) + data
    {
      hide HashBlocks, Blocks, Rest;
      ghost var m := message;
      var len := |data|;
      if len == 0 {
        assert message + data == message;
        return;
      }
      Wrap(|m|, len);
      var j := length % 64;
      length := (length + len) % TWO64;
      message := m + data;
      if j + len < 64 {
        Keep(m, j, data);
      } else {
        Consume(m, j, data);
      }
    }

    /** The branch of `SHA1_update` where a block at least is complete. */
    method Consume(ghost m: seq<byte>, j: nat, data: seq<byte>)
      requires Hashed(m) && j == |m| % 64 && j + |data| >= 64
      modifies state, buffer
      ensures Hashed(m + data)
    {
      hide HashBlocks, Blocks, Rest;
      var i := 64 - j;
      Join(m, data[..i]);
      i := AbsorbAll(m, data, i);
      Halves(m, data, i);
      Keep(m + data[..i], 0, data[i..]);
    }

    /** Data that do not complete a block wait in the buffer. */
    method Keep(ghost m: seq<byte>, j: nat, data: seq<byte>)
      requires Hashed(m) && j == |m| % 64 && j + |data| < 64
      modifies buffer
      ensures Hashed(m + data)
    {
      hide HashBlocks, Blocks, Rest;
      Kept(m, data);
      Copy(j, data);
    }

    /** Completes the block begun in the buffer. */
    method Join(ghost m: seq<byte>, data: seq<byte>)
      requires Hashed(m) && |m| % 64 + |data| == 64
      modifies state, buffer
      ensures Hashed(m + data)
    {
      hide HashBlocks, Blocks, Rest;
      Copy(64 - |data|, data);
      assert buffer[..] == Rest(m) + data;
      Split(m);
      assert Blocks(m) + (Rest(m) + data) == m + data;
      Absorb(Blocks(m));
    }

    /** The loop over the whole blocks of the data. */
    method AbsorbAll(ghost m: seq<byte>, data: seq<byte>, from: nat) returns (i: nat)
      requires from <= |data| && (|m| + from) % 64 == 0 && Hashed(m + data[..from])
      modifies state, buffer
      ensures from <= i <= |data| < i + 64 && (|m| + i) % 64 == 0 && Hashed(m + data[..i])
    {
      hide HashBlocks, Blocks, Rest;
      i := from;
      while i + 64 <= |data|
        invariant from <= i <= |data| && (|m| + i) % 64 == 0 && Hashed(m + data[..i])
      {
        assert m + data[..i] + data[i..i + 64] == m + data[..i + 64];
        AllBlocks(m + data[..i]);
        Copy(0, data[i..i + 64]);
        assert buffer[..] == data[i..i + 64];
        Absorb(m + data[..i]);
        i := i + 64;
      }
    }

    /** `SHA1_final`. */
    method Final(digest: array<byte>)
      requires Valid() && digest.Length == 20 && digest != buffer
      modifies this`length, this`message, state, buffer, digest
      ensures digest[..] == Digest(old(message))
    {
      hide HashBlocks, Blocks, Rest, WordBytes, Padding;
      var pad := MakePadding(length, |message|);
      AllBlocks(message + pad);
      Update(pad);
      var h := Words(state[0], state[1], state[2], state[3], state[4]);
      var out := WordBytes(h.a) + WordBytes(h.b) + WordBytes(h.c) + WordBytes(h.d) + WordBytes(h.e);
      forall i | 0 <= i < 20 { digest[i] := out[i]; }
    }
  }

  lemma GapIs(n: nat, k: nat)
    requires k < 64
    ensures (n + 1 + k) % 64 == 56 <==> k == Gap(n)
  {
  }

  lemma Wrap64(n: nat, k: nat)
    ensures (n % TWO64 + k) % 64 == (n + k) % 64
    ensures n % TWO64 * 8 % TWO64 == BitLength(n)
  {
    var q := n / TWO64;
    assert n == TWO64 * q + n % TWO64;
    assert TWO64 * q == 64 * (0x400_0000_0000_0000 * q);
    Multiple(n % TWO64 + k, 0x400_0000_0000_0000 * q);
    Multiple64(n % TWO64 * 8, 8 * q);
  }

  /** The size of the local buffer where the padding is made. */
  const ROOM := 64 + 7

  /** The buffer holds the padding of every message, except when the last block has exactly 56 bytes. */
  lemma PaddingRoom(n: nat)
    ensures |Padding(n)| <= ROOM <==> n % 64 != 56
    ensures n % 64 == 56 ==> |Padding(n)| == ROOM + 1
  {
    hide BitLength, Octets;
  }

  method MakePadding(len: nat, ghost n: nat) returns (buffer: seq<byte>)
    requires len == n % TWO64
    ensures buffer == Padding(n)
  {
    hide Gap, BitLength, Octets, Octet, Shr8;
    buffer := [128];
    GapIs(n, 0);
    Wrap64(n, 1);
    while (len + |buffer|) % 64 != 56
      invariant 1 <= |buffer| <= Gap(n) + 1
      invariant (len + |buffer|) % 64 == 56 <==> |buffer| == Gap(n) + 1
      invariant buffer == [0x80] + Zeros(|buffer| - 1)
      decreases 64 - |buffer|
    {
      buffer := buffer + [0];
      GapIs(n, |buffer| - 1);
      Wrap64(n, |buffer|);
    }
    var bits := len * 8 % TWO64;
    OctetsUnrolled(bits);
    buffer := buffer + [Octet(Shr8(bits, 7)), Octet(Shr8(bits, 6)), Octet(Shr8(bits, 5)), Octet(Shr8(bits, 4)),
                        Octet(Shr8(bits, 3)), Octet(Shr8(bits, 2)), Octet(Shr8(bits, 1)), Octet(Shr8(bits, 0))];
  }

  function Stored(w: word, k: nat): byte {
    if k == 0 then (w & 0xFF) as byte else if k == 1 then ((w >> 8) & 0xFF) as byte
    else if k == 2 then ((w >> 16) & 0xFF) as byte else ((w >> 24) & 0xFF) as byte
  }

  /** The length field of section 5.1.1 is the exact bit length of any message that the algorithm accepts. */
  lemma BitLengthExact(m: seq<byte>)
    requires |m| < 0x2000_0000_0000_0000
    ensures BigEndian(Octets(BitLength(|m|), 8)) == 8 * |m|
  {
    hide BigEndian, Octets, Pow256;
    Pow256Values();
    BigEndianOctets(8 * |m|, 8);
  }

  /** Section 5.1.1: the zero bytes are the fewest that complete a block. */
  lemma FewestZeros(n: nat, k: nat)
    requires (n + 1 + k + 8) % 64 == 0
    ensures |Padding(n)| <= 1 + k + 8
  {
    hide Octets;
    GapLeast(n / 64, n % 64, k);
  }

  lemma GapLeast(q: nat, r: nat, k: nat)
    requires r < 64 && (64 * q + r + 1 + k + 8) % 64 == 0
    ensures (119 - r) % 64 <= k
  {
    var s := (64 * q + r + 9 + k) / 64 - q;
    assert r + 9 + k == 64 * s;
  }

  /** Two messages are never padded to the same blocks. */
  lemma PaddedApart(a: seq<byte>, b: seq<byte>)
    requires |a| < 0x2000_0000_0000_0000 && |b| < 0x2000_0000_0000_0000
    requires a + Padding(|a|) == b + Padding(|b|)
    ensures a == b
  {
    BitLengthExact(a);
    BitLengthExact(b);
    LastOctets(a);
    LastOctets(b);
    hide Padding, Octets, BigEndian, BitLength;
    assert (a + Padding(|a|))[..|a|] == a && (b + Padding(|b|))[..|b|] == b;
  }

  lemma LastOctets(m: seq<byte>)
    ensures var s := m + Padding(|m|); |s| >= 8 && s[|s| - 8..] == Octets(BitLength(|m|), 8)
  {
    hide Octets, BitLength;
  }

  /** The blocks from the first one to the last one, as section 6.1.2 takes them. */
  function InTurn(h: Words, m: seq<byte>): Words
    requires |m| % 64 == 0
    decreases |m|
  {
    if m == [] then h else InTurn(Compress(h, m[..64]), m[64..])
  }

  /** The hash value after some blocks is all that later blocks need. */
  lemma {:induction false} BlocksInTurn(front: seq<byte>, m: seq<byte>)
    requires |front| % 64 == 0 && |m| % 64 == 0
    ensures |front + m| % 64 == 0 && HashBlocks(front + m) == InTurn(HashBlocks(front), m)
    decreases |m|
  {
    hide Compress, HashBlocks;
    if m == [] {
      assert front + m == front;
    } else {
      HashSnoc(front, m[..64]);
      assert front + m[..64] + m[64..] == front + m;
      BlocksInTurn(front + m[..64], m[64..]);
    }
  }

  /** Whatever the calls of update that bring a message, the digest is the one of the whole message. */
  method HashAll(chunks: seq<seq<byte>>) returns (digest: array<byte>)
    requires forall c <- chunks :: |c| < TWO64
    ensures digest[..] == Digest(Concat(chunks))
  {
    hide Digest;
    var context := new Context();
    for i := 0 to |chunks|
      invariant context.Valid() && context.message == Concat(chunks[..i])
      invariant fresh(context) && fresh(context.state) && fresh(context.buffer)
    {
      assert chunks[..i + 1] == chunks[..i] + [chunks[i]];
      ConcatSnoc(chunks[..i], chunks[i]);
      context.Update(chunks[i]);
    }
    assert chunks[..|chunks|] == chunks;
    digest := new byte[20];
    context.Final(digest);
  }
}
