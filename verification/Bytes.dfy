/**
 Octets, and numbers written with octets in network order.
 */
module Bytes {
  type byte = bv8

  const TWO64: nat := 0x1_0000_0000_0000_0000

  /** Value of octets in network order. */
  function BigEndian(s: seq<byte>): nat {
    if s == [] then 0 else 256 * BigEndian(s[..|s| - 1]) + s[|s| - 1] as nat
  }

  /** The byte of value n. */
  function ByteOf(n: nat): (b: byte)
    requires n < 256
    ensures b as nat == n
  {
    if n == 0 then 0 else NextByte(ByteOf(n - 1)); ByteOf(n - 1) + 1
  }

  lemma NextByte(b: byte)
    ensures b as nat < 255 ==> (b + 1) as nat == b as nat + 1
  {
  }

  function Octet(n: nat): (b: byte)
    ensures b as nat == n % 256
  {
    ByteOf(n % 256)
  }

  function Octets(n: nat, count: nat): (r: seq<byte>)
    ensures |r| == count
  {
    if count == 0 then [] else Octets(n / 256, count - 1) + [Octet(n)]
  }

  lemma BigEndianSnoc(s: seq<byte>, b: byte)
    ensures BigEndian(s + [b]) == 256 * BigEndian(s) + b as nat
  {
    assert (s + [b])[..|s|] == s;
  }

  function Pow256(k: nat): nat {
    if k == 0 then 1 else 256 * Pow256(k - 1)
  }

  lemma {:induction false} BigEndianOctets(n: nat, count: nat)
    requires n < Pow256(count)
    ensures BigEndian(Octets(n, count)) == n
  {
    if count > 0 {
      BigEndianOctets(n / 256, count - 1);
      BigEndianSnoc(Octets(n / 256, count - 1), Octet(n));
    }
  }

  lemma {:induction false} BigEndianBound(s: seq<byte>)
    ensures BigEndian(s) < Pow256(|s|)
  {
    if s != [] { BigEndianBound(s[..|s| - 1]); }
  }

  /** Octets are those of their number. */
  lemma {:induction false} OctetsBigEndian(s: seq<byte>)
    ensures Octets(BigEndian(s), |s|) == s
  {
    if s != [] {
      var front, b := s[..|s| - 1], s[|s| - 1];
      OctetsBigEndian(front);
      OctetsSnoc(BigEndian(front), b, |front|);
      BigEndianSnoc(front, b);
      hide Octets, BigEndian;
      assert s == front + [b];
    }
  }

  lemma OctetsSnoc(n: nat, b: byte, k: nat)
    ensures Octets(256 * n + b as nat, k + 1) == Octets(n, k) + [b]
  {
    hide Octet;
    LastOctet(n, b);
    var m := 256 * n + b as nat;
    assert m / 256 == n;
    assert Octets(m, k + 1) == Octets(m / 256, k) + [Octet(m)];
  }

  lemma LastOctet(n: nat, b: byte)
    ensures (256 * n + b as nat) / 256 == n && Octet(256 * n + b as nat) == b
  {
    hide ByteOf;
    ByteRange(b);
    var x := b as nat;
    LowPart(n, x);
    SameByte(Octet(256 * n + x), b);
  }

  lemma LowPart(n: nat, x: nat)
    requires x < 256
    ensures (256 * n + x) / 256 == n && (256 * n + x) % 256 == x
  {
  }

  lemma ByteRange(b: byte)
    ensures b as nat < 256
  {
  }

  lemma SameByte(a: byte, b: byte)
    requires a as nat == b as nat
    ensures a == b
  {
  }

  lemma Pow256Values()
    ensures Pow256(2) == 65536 && Pow256(8) == TWO64
  {
    assert Pow256(4) == 256 * (256 * (256 * 256));
    assert Pow256(8) == 256 * (256 * (256 * (256 * Pow256(4))));
  }

  lemma BigEndian2(s: seq<byte>)
    requires |s| == 2
    ensures BigEndian(s) == 0x100 * (s[0] as nat) + s[1] as nat
  {
    BigEndianSnoc(s[..1], s[1]);
    assert s == s[..1] + [s[1]];
    BigEndianSnoc([], s[0]);
    assert s[..1] == [] + [s[0]];
  }

  lemma BigEndianFour(front: seq<byte>, a: byte, b: byte, c: byte, d: byte)
    ensures BigEndian(front + [a, b, c, d]) == 0x1_0000_0000 * BigEndian(front)
          + 0x100_0000 * (a as nat) + 0x1_0000 * (b as nat) + 0x100 * (c as nat) + d as nat
  {
    hide BigEndian;
    BigEndianSnoc(front, a);
    BigEndianSnoc(front + [a], b);
    BigEndianSnoc(front + [a] + [b], c);
    BigEndianSnoc(front + [a] + [b] + [c], d);
    assert front + [a, b, c, d] == front + [a] + [b] + [c] + [d];
  }

  lemma BigEndian8(s: seq<byte>)
    requires |s| == 8
    ensures BigEndian(s) == 0x100_0000_0000_0000 * (s[0] as nat) + 0x1_0000_0000_0000 * (s[1] as nat)
          + 0x100_0000_0000 * (s[2] as nat) + 0x1_0000_0000 * (s[3] as nat)
          + 0x100_0000 * (s[4] as nat) + 0x1_0000 * (s[5] as nat)
          + 0x100 * (s[6] as nat) + s[7] as nat
  {
    assert BigEndian([]) == 0;
    hide BigEndian;
    Quads(s);
    BigEndianFour([], s[0], s[1], s[2], s[3]);
    BigEndianFour([] + [s[0], s[1], s[2], s[3]], s[4], s[5], s[6], s[7]);
  }

  lemma Quads<T>(s: seq<T>)
    requires |s| == 8
    ensures s == [] + [s[0], s[1], s[2], s[3]] + [s[4], s[5], s[6], s[7]]
  {
  }

  /** n shifted right by k octets. */
  function Shr8(n: nat, k: nat): nat {
    if k == 0 then n else Shr8(n / 256, k - 1)
  }

  lemma {:induction false} Shr8Next(n: nat, k: nat)
    ensures Shr8(n, k + 1) == Shr8(n, k) / 256
  {
    if k > 0 { Shr8Next(n / 256, k - 1); }
  }

  lemma OctetsNext(n: nat, k: nat, count: nat)
    ensures Octets(Shr8(n, k), count + 1) == Octets(Shr8(n, k + 1), count) + [Octet(Shr8(n, k))]
  {
    hide Octet, Shr8;
    Shr8Next(n, k);
  }

  lemma OctetsUnrolled(n: nat)
    ensures Octets(n, 2) == [Octet(Shr8(n, 1)), Octet(Shr8(n, 0))]
    ensures Octets(n, 8) == [Octet(Shr8(n, 7)), Octet(Shr8(n, 6)), Octet(Shr8(n, 5)), Octet(Shr8(n, 4)),
                             Octet(Shr8(n, 3)), Octet(Shr8(n, 2)), Octet(Shr8(n, 1)), Octet(Shr8(n, 0))]
  {
    hide Octet, Shr8, Octets;
    OctetsTwo(n);
    OctetsEight(n);
  }

  lemma OctetsTwo(n: nat)
    ensures Octets(n, 2) == [Octet(Shr8(n, 1)), Octet(Shr8(n, 0))]
  {
    assert Shr8(n, 0) == n;
    hide Octet, Shr8, Octets;
    OctetsNext(n, 0, 1);
    OctetsNext(n, 1, 0);
    OctetsEmpty(Shr8(n, 2));
  }

  lemma OctetsEight(n: nat)
    ensures Octets(n, 8) == [Octet(Shr8(n, 7)), Octet(Shr8(n, 6)), Octet(Shr8(n, 5)), Octet(Shr8(n, 4)),
                             Octet(Shr8(n, 3)), Octet(Shr8(n, 2)), Octet(Shr8(n, 1)), Octet(Shr8(n, 0))]
  {
    assert Shr8(n, 0) == n;
    hide Octet, Shr8, Octets;
    OctetsFour(n, 0, 4);
    OctetsFour(n, 4, 0);
    OctetsEmpty(Shr8(n, 8));
  }

  lemma OctetsFour(n: nat, k: nat, count: nat)
    ensures Octets(Shr8(n, k), count + 4) == Octets(Shr8(n, k + 4), count)
              + [Octet(Shr8(n, k + 3)), Octet(Shr8(n, k + 2)), Octet(Shr8(n, k + 1)), Octet(Shr8(n, k))]
  {
    hide Octet, Shr8, Octets;
    OctetsNext(n, k, count + 3); OctetsNext(n, k + 1, count + 2);
    OctetsNext(n, k + 2, count + 1); OctetsNext(n, k + 3, count);
  }

  lemma OctetsEmpty(n: nat)
    ensures Octets(n, 0) == []
  {
  }

  function Concat(parts: seq<seq<byte>>): seq<byte> {
    if parts == [] then [] else parts[0] + Concat(parts[1..])
  }

  lemma {:induction false} ConcatSnoc(parts: seq<seq<byte>>, v: seq<byte>)
    ensures Concat(parts + [v]) == Concat(parts) + v
  {
    if parts != [] {
      assert (parts + [v])[1..] == parts[1..] + [v];
      ConcatSnoc(parts[1..], v);
    }
  }

  /** The two halves of a byte. */
  lemma Nibbles(c: byte)
    ensures c >> 4 < 16 && c & 15 < 16 && ((c >> 4) << 4) | (c & 15) == c
  {
  }

  lemma Scaled(a: nat, b: nat, m: nat)
    requires a <= b
    ensures a * m <= b * m
  {
  }
}
