/**
 Framing of RFC 6455, independent of any reader or writer.

 `Scan` is the one-shot reading of a byte stream (sections 5.2 and 5.3): it looks at
 all the bytes at once and never resumes.  `Wire` is the writing of one frame.  The
 incremental reader of `WebSock` is proved to agree with `Scan` on every byte stream.
 */
module WebSockFrame {
  import opened Bytes

  const OPCODE_CONTINUATION: byte := 0x0
  const OPCODE_TEXT: byte := 0x1
  const OPCODE_BINARY: byte := 0x2
  const OPCODE_CLOSE: byte := 0x8
  const OPCODE_PING: byte := 0x9
  const OPCODE_PONG: byte := 0xA

  // ----- masking (section 5.3) -----

  datatype Key = Key(k0: byte, k1: byte, k2: byte, k3: byte)

  const NO_MASK := Key(0, 0, 0, 0)

  function At(k: Key, i: nat): byte {
    var m := i % 4;
    if m == 0 then k.k0 else if m == 1 then k.k1 else if m == 2 then k.k2 else k.k3
  }

  /** The key seen from position n of the payload. */
  function Rotate(k: Key, n: nat): Key {
    Key(At(k, n), At(k, n + 1), At(k, n + 2), At(k, n + 3))
  }

  function Xor(a: byte, b: byte): byte { a ^ b }

  /** Octet i of the payload is combined with octet i modulo 4 of the key. */
  function Masked(k: Key, data: seq<byte>): (r: seq<byte>)
    ensures |r| == |data|
  {
    seq(|data|, i requires 0 <= i < |data| => Xor(data[i], At(k, i)))
  }

  lemma AtRotate(k: Key, n: nat, i: nat)
    ensures At(Rotate(k, n), i) == At(k, n + i)
  {
    var m := i % 4;
    assert (n + i) % 4 == (n + m) % 4;
  }

  lemma RotateRotate(k: Key, a: nat, b: nat)
    ensures Rotate(Rotate(k, a), b) == Rotate(k, a + b)
  {
    AtRotate(k, a, b); AtRotate(k, a, b + 1); AtRotate(k, a, b + 2); AtRotate(k, a, b + 3);
  }

  /** Masking can be done piece by piece, provided that the key is rotated in between. */
  lemma MaskedAppend(k: Key, a: seq<byte>, b: seq<byte>)
    ensures Masked(k, a + b) == Masked(k, a) + Masked(Rotate(k, |a|), b)
  {
    forall i | 0 <= i < |b| ensures Masked(k, a + b)[|a| + i] == Masked(Rotate(k, |a|), b)[i] {
      AtRotate(k, |a|, i);
    }
  }

  /** Section 5.3: the same operation masks and unmasks. */
  lemma MaskedTwice(k: Key, data: seq<byte>)
    ensures Masked(k, Masked(k, data)) == data
  {
    forall i | 0 <= i < |data| ensures Masked(k, Masked(k, data))[i] == data[i] {
      XorTwice(data[i], At(k, i));
    }
  }

  lemma XorTwice(x: byte, k: byte)
    ensures Xor(Xor(x, k), k) == x
  {
  }

  lemma MaskedByZero(data: seq<byte>)
    ensures Masked(NO_MASK, data) == data
  {
    forall i | 0 <= i < |data| ensures Masked(NO_MASK, data)[i] == data[i] {
      XorZero(data[i]);
    }
  }

  lemma XorZero(x: byte)
    ensures Xor(x, 0) == x
  {
  }

  // ----- header (section 5.2) -----

  predicate Fin(b: byte) { (b >> 7) & 1 != 0 }

  function Opcode(b: byte): byte { b & 0x0F }

  predicate Reserved(b: byte) {
    (b >> 6) & 1 != 0 || (b >> 5) & 1 != 0 || (b >> 4) & 1 != 0
  }

  /** The three reserved bits as a number. */
  function Rsv(b: byte): byte { (b >> 4) & 7 }

  predicate HasMask(b: byte) { (b >> 7) & 1 != 0 }

  function Len7(b: byte): byte { b & 0x7F }

  predicate IsControl(b: byte) {
    Opcode(b) == OPCODE_CLOSE || Opcode(b) == OPCODE_PING || Opcode(b) == OPCODE_PONG
  }

  predicate IsData(b: byte) {
    Opcode(b) == OPCODE_CONTINUATION || Opcode(b) == OPCODE_TEXT || Opcode(b) == OPCODE_BINARY
  }

  /** Size of the extended payload length that a second octet announces. */
  function ExtSize(b: byte): nat {
    if Len7(b) == 127 then 8 else if Len7(b) == 126 then 2 else 0
  }

  function HeadSize(b: byte): (r: nat)
    ensures 2 <= r <= 14
  {
    2 + ExtSize(b) + if HasMask(b) then 4 else 0
  }

  function PayloadLength(s: seq<byte>): nat
    requires |s| >= 2 && |s| >= HeadSize(s[1])
  {
    if ExtSize(s[1]) == 0 then Len7(s[1]) as nat else BigEndian(s[2..2 + ExtSize(s[1])])
  }

  function MaskKey(s: seq<byte>): Key
    requires |s| >= 2 && |s| >= HeadSize(s[1])
  {
    var z := HeadSize(s[1]);
    if HasMask(s[1]) then Key(s[z - 4], s[z - 3], s[z - 2], s[z - 1]) else NO_MASK
  }

  /** The second octet in arithmetic: the mask bit is worth 128, and the length is what remains. */
  lemma SecondByte(b: byte)
    ensures b == (if HasMask(b) then 128 else 0) + Len7(b) && Len7(b) < 128
    ensures b == (if HasMask(b) then 0x80 else 0) | Len7(b)
  {
  }

  /** The first octet in arithmetic: fin is worth 128, the reserved bits 16 to 112, and the opcode is what remains. */
  lemma FirstByteIs(b: byte)
    ensures b == (if Fin(b) then 128 else 0) + 16 * Rsv(b) + Opcode(b) && Rsv(b) < 8 && Opcode(b) < 16
    ensures Reserved(b) <==> Rsv(b) != 0
  {
  }

  /** h is a header, and no more, for a payload of that size. */
  predicate IsHead(h: seq<byte>, n: nat, mask: bool) {
    |h| >= 2 && |h| == HeadSize(h[1]) && PayloadLength(h) == n && HasMask(h[1]) == mask
  }

  // ----- one-shot reading -----

  /** A data frame as an application sees it: announced length, and payload received so far. */
  datatype Part = Part(opcode: byte, fin: bool, length: nat, data: seq<byte>)

  /** How a stream ends: more bytes are expected, or a frame is refused or of control kind. */
  datatype Verdict = More | TooLong | Protocol | Control

  datatype Reading = Reading(parts: seq<Part>, verdict: Verdict)

  /** Verdict on the header that starts s, when all its octets are there. */
  function Judge(s: seq<byte>, max: nat): Verdict
    requires |s| >= 2 && |s| >= HeadSize(s[1])
  {
    if PayloadLength(s) > max then TooLong
    else if Reserved(s[0]) || !IsData(s[0]) then Protocol
    else More
  }

  function FrameSize(s: seq<byte>): (r: nat)
    requires |s| >= 2 && |s| >= HeadSize(s[1])
    ensures r >= 2
  {
    HeadSize(s[1]) + PayloadLength(s)
  }

  function FirstPart(s: seq<byte>): Part
    requires |s| >= 2 && |s| >= HeadSize(s[1])
  {
    var z := HeadSize(s[1]);
    var body := if |s| <= FrameSize(s) then s[z..] else s[z..FrameSize(s)];
    Part(Opcode(s[0]), Fin(s[0]), PayloadLength(s), Masked(MaskKey(s), body))
  }

  function Scan(s: seq<byte>, max: nat): Reading
    decreases |s|
  {
    if |s| < 2 then Reading([], More)
    else if IsControl(s[0]) then Reading([], Control)
    else if |s| < HeadSize(s[1]) then Reading([], More)
    else if Judge(s, max) != More then Reading([], Judge(s, max))
    else if |s| <= FrameSize(s) then Reading([FirstPart(s)], More)
    else
      var rest := Scan(s[FrameSize(s)..], max);
      Reading([FirstPart(s)] + rest.parts, rest.verdict)
  }

  /** s starts with a whole header of an acceptable data frame. */
  predicate Accepted(s: seq<byte>, max: nat) {
    |s| >= 2 && !IsControl(s[0]) && |s| >= HeadSize(s[1]) && Judge(s, max) == More
  }

  /** s is made of whole acceptable data frames. */
  predicate Whole(s: seq<byte>, max: nat)
    decreases |s|
  {
    s == [] || (Accepted(s, max) && |s| >= FrameSize(s) && Whole(s[FrameSize(s)..], max))
  }

  lemma HeadStable(s: seq<byte>, x: seq<byte>, max: nat)
    requires |s| >= 2 && |s| >= HeadSize(s[1])
    ensures PayloadLength(s + x) == PayloadLength(s) && MaskKey(s + x) == MaskKey(s)
    ensures Judge(s + x, max) == Judge(s, max)
  {
    var e := ExtSize(s[1]);
    assert (s + x)[2..2 + e] == s[2..2 + e];
  }

  /** The payload of a whole frame. */
  lemma WholePart(s: seq<byte>)
    requires |s| >= 2 && |s| >= HeadSize(s[1]) && |s| >= FrameSize(s)
    ensures FirstPart(s) ==
              Part(Opcode(s[0]), Fin(s[0]), PayloadLength(s), Masked(MaskKey(s), s[HeadSize(s[1])..FrameSize(s)]))
  {
    hide Masked, Opcode, Fin, PayloadLength, MaskKey;
    var z, n := HeadSize(s[1]), FrameSize(s);
    assert |s| == n ==> s[z..] == s[z..n];
  }

  lemma FirstPartStable(a: seq<byte>, b: seq<byte>)
    requires |a| >= 2 && |a| >= HeadSize(a[1]) && |a| >= FrameSize(a)
    ensures FirstPart(a + b) == FirstPart(a)
  {
    HeadStable(a, b, 0);
    WholePart(a);
    WholePart(a + b);
    hide Judge, PayloadLength, MaskKey, FirstPart, Masked, Opcode, Fin, ExtSize, HasMask;
    Sliced(a, b, HeadSize(a[1]), FrameSize(a));
  }

  lemma Sliced(a: seq<byte>, b: seq<byte>, i: nat, j: nat)
    ensures i <= j <= |a| ==> (a + b)[i..j] == a[i..j]
  {
  }

  lemma ScanNothing(max: nat)
    ensures Scan([], max) == Reading([], More) && Whole([], max)
  {
  }

  lemma ScanFirst(s: seq<byte>, max: nat)
    requires Accepted(s, max) && |s| >= FrameSize(s)
    ensures var rest := Scan(s[FrameSize(s)..], max);
            Scan(s, max) == Reading([FirstPart(s)] + rest.parts, rest.verdict)
  {
  }

  /** What follows does not change the first frame. */
  lemma FirstStays(a: seq<byte>, b: seq<byte>, max: nat)
    requires Accepted(a, max) && |a| >= FrameSize(a) > 0
    ensures Accepted(a + b, max) && FrameSize(a + b) == FrameSize(a) && FirstPart(a + b) == FirstPart(a)
    ensures (a + b)[FrameSize(a)..] == a[FrameSize(a)..] + b
  {
    hide Judge, IsControl, HasMask, Len7, FirstPart, PayloadLength, ExtSize;
    HeadStable(a, b, max);
    FirstPartStable(a, b);
  }

  /** Reading whole frames, then more, is reading them in a row. */
  lemma {:induction false} ScanAfterWhole(a: seq<byte>, b: seq<byte>, max: nat)
    requires Whole(a, max)
    ensures Scan(a + b, max) == Reading(Scan(a, max).parts + Scan(b, max).parts, Scan(b, max).verdict)
    ensures Scan(a, max).verdict == More
    decreases |a|
  {
    ScanNothing(max);
    if a == [] {
      assert a + b == b;
    } else {
      hide Scan, Judge, IsControl, FirstPart, HasMask, Len7, PayloadLength, ExtSize, HeadSize;
      var n := FrameSize(a);
      FirstStays(a, b, max);
      ScanAfterWhole(a[n..], b, max);
      ScanFirst(a, max);
      ScanFirst(a + b, max);
      Glue(FirstPart(a), Scan(a[n..], max).parts, Scan(b, max).parts);
    }
  }

  lemma Glue<T>(x: T, a: seq<T>, b: seq<T>)
    ensures [x] + (a + b) == [x] + a + b
  {
  }

  lemma {:induction false} WholeAppend(a: seq<byte>, b: seq<byte>, max: nat)
    requires Whole(a, max) && Whole(b, max)
    ensures Whole(a + b, max)
    decreases |a|
  {
    hide Judge, IsControl, HasMask, Len7;
    if a == [] {
      assert a + b == b;
    } else {
      var n := FrameSize(a);
      HeadStable(a, b, max);
      assert (a + b)[n..] == a[n..] + b;
      WholeAppend(a[n..], b, max);
    }
  }

  /** Once a stream is refused, what follows does not matter. */
  lemma {:induction false} ScanRefusedStable(a: seq<byte>, x: seq<byte>, max: nat)
    requires Scan(a, max).verdict != More
    ensures Scan(a + x, max) == Scan(a, max)
    decreases |a|
  {
    hide Judge, IsControl, HasMask, Len7, FirstPart, PayloadLength, ExtSize;
    if !IsControl(a[0]) {
      HeadStable(a, x, max);
      if Judge(a, max) == More {
        var n := FrameSize(a);
        assert (a + x)[n..] == a[n..] + x;
        FirstPartStable(a, x);
        ScanRefusedStable(a[n..], x, max);
      }
    }
  }

  // ----- writing -----

  datatype Mask = Plain | With(key: Key)

  datatype Frame = Frame(opcode: byte, fin: bool, mask: Mask, payload: seq<byte>)

  predicate Sendable(f: Frame, max: nat) {
    f.opcode in {OPCODE_CONTINUATION, OPCODE_TEXT, OPCODE_BINARY}
    && |f.payload| <= max && |f.payload| < TWO64
  }

  function FirstByte(opcode: byte, fin: bool): byte {
    (if fin then 0x80 else 0) | (opcode & 0x0F)
  }

  /** Header of a frame: minimal length encoding, then the masking key if any. */
  function WireHead(first: byte, mask: Mask, n: nat): seq<byte>
    requires n < TWO64
  {
    [first] + SizeBytes(if mask.With? then 0x80 else 0, n) + KeyBytes(mask)
  }

  function SizeBytes(m: byte, n: nat): seq<byte>
    requires n < TWO64
  {
    if n < 126 then [m | ByteOf(n)]
    else if n < 65536 then [m | 126] + Octets(n, 2)
    else [m | 127] + Octets(n, 8)
  }

  function KeyBytes(mask: Mask): seq<byte> {
    if mask.With? then [mask.key.k0, mask.key.k1, mask.key.k2, mask.key.k3] else []
  }

  function WireBody(f: Frame): seq<byte> {
    if f.mask.With? then Masked(f.mask.key, f.payload) else f.payload
  }

  function Wire(f: Frame): seq<byte>
    requires |f.payload| < TWO64
  {
    WireHead(FirstByte(f.opcode, f.fin), f.mask, |f.payload|) + WireBody(f)
  }

  function WireAll(fs: seq<Frame>, max: nat): seq<byte>
    requires forall f <- fs :: Sendable(f, max)
  {
    if fs == [] then [] else assert Sendable(fs[0], max); Wire(fs[0]) + WireAll(fs[1..], max)
  }

  lemma {:induction false} WireAllSnoc(fs: seq<Frame>, f: Frame, max: nat)
    requires (forall g <- fs :: Sendable(g, max)) && Sendable(f, max)
    ensures forall g <- fs + [f] :: Sendable(g, max)
    ensures WireAll(fs + [f], max) == WireAll(fs, max) + Wire(f)
  {
    hide Wire;
    if fs == [] {
      assert [] + [f] == [f];
      assert WireAll([f], max) == Wire(f) + WireAll([], max);
    } else {
      WireAllSnoc(fs[1..], f, max);
      assert (fs + [f])[1..] == fs[1..] + [f];
    }
  }

  function Received(f: Frame): Part {
    Part(f.opcode, f.fin, |f.payload|, f.payload)
  }

  function ReceivedAll(fs: seq<Frame>): (r: seq<Part>)
    ensures |r| == |fs|
  {
    seq(|fs|, i requires 0 <= i < |fs| => Received(fs[i]))
  }

  lemma FirstByteFields(f: Frame, max: nat)
    requires Sendable(f, max)
    ensures var b := FirstByte(f.opcode, f.fin);
            Opcode(b) == f.opcode && Fin(b) == f.fin && !Reserved(b) && IsData(b) && !IsControl(b)
  {
  }

  /** The first octets that are not refused are those that a sender of data writes: opcode 0, 1 or 2, no reserved bit. */
  lemma FirstByteOk(b: byte)
    ensures !Reserved(b) && IsData(b) <==> exists fin, op: byte :: (op == 0 || op == 1 || op == 2) && b == FirstByte(op, fin)
    ensures IsControl(b) <==> b % 16 == 8 || b % 16 == 9 || b % 16 == 10
  {
    if !Reserved(b) && IsData(b) {
      assert b == FirstByte(Opcode(b), Fin(b));
    }
  }

  /** A whole header of a data frame is accepted, found too long, or refused for its first octet, in that order. */
  lemma Judged(s: seq<byte>, max: nat)
    requires |s| >= 2 && |s| >= HeadSize(s[1])
    ensures Judge(s, max) ==
              if PayloadLength(s) > max then TooLong
              else if exists fin, op: byte :: (op == 0 || op == 1 || op == 2) && s[0] == FirstByte(op, fin) then More
              else Protocol
  {
    FirstByteOk(s[0]);
  }

  lemma SecondByteFields(b: byte, m: byte)
    requires b as nat < 128 && (m == 0 || m == 0x80)
    ensures Len7(m | b) == b && HasMask(m | b) == (m == 0x80)
  {
    HighBit(b);
  }

  lemma HighBit(b: byte)
    ensures b as nat < 128 <==> b < 128
  {
  }

  lemma SizeFields(m: byte, n: nat)
    requires n < TWO64 && (m == 0 || m == 0x80)
    ensures var z := SizeBytes(m, n);
            && |z| == 1 + ExtSize(z[0]) && HasMask(z[0]) == (m == 0x80)
            && ExtSize(z[0]) == (if n < 126 then 0 else if n < 65536 then 2 else 8)
            && (if ExtSize(z[0]) == 0 then Len7(z[0]) as nat else BigEndian(z[1..])) == n
  {
    var z := SizeBytes(m, n);
    if n < 126 {
      SecondByteFields(ByteOf(n), m);
      SmallByte(ByteOf(n));
    } else if n < 65536 {
      hide BigEndian, Octets;
      SecondByteFields(126, m);
      Pow256Values();
      BigEndianOctets(n, 2);
      assert z[1..] == Octets(n, 2);
    } else {
      hide BigEndian, Octets;
      SecondByteFields(127, m);
      Pow256Values();
      BigEndianOctets(n, 8);
      assert z[1..] == Octets(n, 8);
    }
  }

  lemma WireHeadFields(first: byte, mask: Mask, n: nat)
    requires n < TWO64
    ensures var h := WireHead(first, mask, n);
            |h| >= 2 && |h| == HeadSize(h[1]) && h[0] == first
            && PayloadLength(h) == n && MaskKey(h) == (if mask.With? then mask.key else NO_MASK)
  {
    hide SizeBytes, ExtSize, HasMask, Len7, BigEndian;
    var m: byte := if mask.With? then 0x80 else 0;
    var h, z := WireHead(first, mask, n), SizeBytes(m, n);
    SizeFields(m, n);
    assert h[1] == z[0] && h[2..2 + ExtSize(h[1])] == z[1..];
  }

  lemma OneMask(h: seq<byte>, mask: Mask)
    requires |h| >= 2 && |h| == HeadSize(h[1]) && HasMask(h[1]) == mask.With?
    requires MaskKey(h) == if mask.With? then mask.key else NO_MASK
    ensures h[2 + ExtSize(h[1])..] == KeyBytes(mask)
  {
  }

  lemma ExtBound(h: seq<byte>)
    requires |h| >= 2 && |h| == HeadSize(h[1])
    ensures ExtSize(h[1]) == 0 ==> PayloadLength(h) < 126
    ensures ExtSize(h[1]) == 2 ==> PayloadLength(h) < 65536
  {
    hide BigEndian;
    var e := ExtSize(h[1]);
    Pow256Values();
    if e == 0 {
      SmallByte(Len7(h[1]));
    } else {
      BigEndianBound(h[2..2 + e]);
    }
  }

  lemma SmallByte(b: byte)
    ensures b < 126 <==> b as nat < 126
  {
  }

  /** Section 5.2: among all the headers for a payload and a mask, the one that is written is the shortest. */
  lemma Shortest(first: byte, mask: Mask, n: nat, h: seq<byte>)
    requires n < TWO64 && IsHead(h, n, mask.With?)
    ensures |WireHead(first, mask, n)| <= |h|
  {
    ExtBound(h);
    WireHeadSize(first, mask, n);
    hide WireHead;
  }

  /** And it is the only one of that size. */
  lemma OnlyHead(first: byte, mask: Mask, n: nat, h: seq<byte>)
    requires n < TWO64 && IsHead(h, n, mask.With?) && |h| == |WireHead(first, mask, n)|
    requires h[0] == first && MaskKey(h) == if mask.With? then mask.key else NO_MASK
    ensures h == WireHead(first, mask, n)
  {
    hide SizeBytes, ExtSize, HasMask, Len7, BigEndian, KeyBytes, MaskKey;
    WireHeadSize(first, mask, n);
    OneMask(h, mask);
    OnlySize(if mask.With? then 0x80 else 0, n, h);
    hide HeadSize, PayloadLength;
    assert h == [h[0]] + h[1..2 + ExtSize(h[1])] + h[2 + ExtSize(h[1])..];
  }

  lemma OnlySize(m: byte, n: nat, h: seq<byte>)
    requires |h| >= 2 && |h| == HeadSize(h[1]) && PayloadLength(h) == n < TWO64
    requires m == if HasMask(h[1]) then 0x80 else 0
    requires ExtSize(h[1]) == if n < 126 then 0 else if n < 65536 then 2 else 8
    ensures h[1..2 + ExtSize(h[1])] == SizeBytes(m, n)
  {
    hide BigEndian, Octets, HasMask;
    SecondByte(h[1]);
    var e := ExtSize(h[1]);
    if e == 0 {
      ByteOfIs(Len7(h[1]));
      assert h[1..2] == [h[1]];
    } else {
      OctetsBigEndian(h[2..2 + e]);
      assert h[1..2 + e] == [h[1]] + h[2..2 + e];
    }
  }

  lemma ByteOfIs(b: byte)
    ensures b as nat < 256 && ByteOf(b as nat) == b
  {
    SameByte(ByteOf(b as nat), b);
  }

  lemma WireHeadSize(first: byte, mask: Mask, n: nat)
    requires n < TWO64
    ensures var h := WireHead(first, mask, n);
            && |h| >= 2 && ExtSize(h[1]) == (if n < 126 then 0 else if n < 65536 then 2 else 8)
            && |h| == 2 + ExtSize(h[1]) + (if mask.With? then 4 else 0) && IsHead(h, n, mask.With?)
  {
    hide SizeBytes, ExtSize, HasMask, Len7, BigEndian;
    WireHeadFields(first, mask, n);
    SizeFields(if mask.With? then 0x80 else 0, n);
  }

  // ----- the examples of section 5.7 -----

  const HELLO: seq<byte> := [0x48, 0x65, 0x6c, 0x6c, 0x6f]

  lemma SmallHeads()
    ensures WireHead(FirstByte(OPCODE_TEXT, true), Plain, 5) == [0x81, 0x05]
    ensures WireHead(FirstByte(OPCODE_TEXT, true), With(Key(0x37, 0xfa, 0x21, 0x3d)), 5)
         == [0x81, 0x85, 0x37, 0xfa, 0x21, 0x3d]
    ensures WireHead(FirstByte(OPCODE_TEXT, false), Plain, 3) == [0x01, 0x03]
    ensures WireHead(FirstByte(OPCODE_CONTINUATION, true), Plain, 2) == [0x80, 0x02]
  {
    ByteOfIs(5); ByteOfIs(3); ByteOfIs(2);
    hide ByteOf;
  }

  lemma Octets256()
    ensures Octets(256, 2) == [0x01, 0x00]
  {
    hide BigEndian, Octets;
    var a: seq<byte> := [0x01, 0x00];
    BigEndian2(a);
    OctetsBigEndian(a);
  }

  lemma Octets65536()
    ensures Octets(65536, 8) == [0x00, 0x00, 0x00, 0x00, 0x00, 0x01, 0x00, 0x00]
  {
    hide BigEndian, Octets;
    var b: seq<byte> := [0x00, 0x00, 0x00, 0x00, 0x00, 0x01, 0x00, 0x00];
    BigEndian8(b);
    OctetsBigEndian(b);
  }

  lemma LongHeads()
    ensures WireHead(FirstByte(OPCODE_BINARY, true), Plain, 256) == [0x82, 0x7e, 0x01, 0x00]
    ensures WireHead(FirstByte(OPCODE_BINARY, true), Plain, 65536)
         == [0x82, 0x7f, 0x00, 0x00, 0x00, 0x00, 0x00, 0x01, 0x00, 0x00]
  {
    Octets256();
    Octets65536();
    hide Octets;
  }

  lemma Hello()
    ensures Wire(Frame(OPCODE_TEXT, true, Plain, HELLO)) == [0x81, 0x05] + HELLO
    ensures Wire(Frame(OPCODE_TEXT, true, With(Key(0x37, 0xfa, 0x21, 0x3d)), HELLO))
         == [0x81, 0x85, 0x37, 0xfa, 0x21, 0x3d, 0x7f, 0x9f, 0x4d, 0x51, 0x58]
    ensures Wire(Frame(OPCODE_TEXT, false, Plain, HELLO[..3])) == [0x01, 0x03, 0x48, 0x65, 0x6c]
    ensures Wire(Frame(OPCODE_CONTINUATION, true, Plain, HELLO[3..])) == [0x80, 0x02, 0x6c, 0x6f]
  {
    SmallHeads();
    hide WireHead;
    assert Masked(Key(0x37, 0xfa, 0x21, 0x3d), HELLO) == [0x7f, 0x9f, 0x4d, 0x51, 0x58];
  }

  /** A frame alone is read as the frame that was written. */
  lemma ScanWire(f: Frame, max: nat)
    requires Sendable(f, max)
    ensures Whole(Wire(f), max)
    ensures Scan(Wire(f), max) == Reading([Received(f)], More)
  {
    var h := WireHead(FirstByte(f.opcode, f.fin), f.mask, |f.payload|);
    var body := WireBody(f);
    var w := Wire(f);
    FirstByteFields(f, max);
    WireHeadFields(FirstByte(f.opcode, f.fin), f.mask, |f.payload|);
    HeadStable(h, body, max);
    assert w[|h|..] == body;
    assert w[FrameSize(w)..] == [];
    if f.mask.With? { MaskedTwice(f.mask.key, f.payload); } else { MaskedByZero(f.payload); }
  }

  /** A frame that is cut gives nothing inside its header, and then as much of its payload as is there, in clear. */
  lemma ScanCut(f: Frame, max: nat, k: nat)
    requires Sendable(f, max) && k <= |Wire(f)|
    ensures var z := |WireHead(FirstByte(f.opcode, f.fin), f.mask, |f.payload|)|;
            Scan(Wire(f)[..k], max) ==
              if k < z then Reading([], More) else Reading([Received(f).(data := f.payload[..k - z])], More)
  {
    hide WireHead, FirstByte, Scan, WireBody, Masked, IsControl, Opcode, Fin, PayloadLength, MaskKey, HasMask, HeadSize;
    var h, body := WireHead(FirstByte(f.opcode, f.fin), f.mask, |f.payload|), WireBody(f);
    FirstByteFields(f, max);
    WireHeadFields(FirstByte(f.opcode, f.fin), f.mask, |f.payload|);
    CutBody(f, 0);
    if k < |h| {
      assert Wire(f)[..k] == h[..k];
      ScanHead(h, k, max);
    } else {
      assert Wire(f)[..k] == h + body[..k - |h|];
      ScanBody(h, body[..k - |h|], max);
      CutBody(f, k - |h|);
    }
  }

  lemma ScanHead(h: seq<byte>, k: nat, max: nat)
    requires k < |h| && |h| >= 2 && |h| == HeadSize(h[1]) && !IsControl(h[0])
    ensures Scan(h[..k], max) == Reading([], More)
  {
    hide HeadSize, IsControl;
  }

  /** A whole header, and part of the payload. */
  lemma ScanBody(h: seq<byte>, x: seq<byte>, max: nat)
    requires |h| >= 2 && |h| == HeadSize(h[1]) && !IsControl(h[0]) && Judge(h, max) == More && |x| <= PayloadLength(h)
    ensures Scan(h + x, max) ==
              Reading([Part(Opcode(h[0]), Fin(h[0]), PayloadLength(h), Masked(MaskKey(h), x))], More)
  {
    HeadStable(h, x, max);
    hide HeadSize, IsControl, Judge, PayloadLength, MaskKey, Masked, Opcode, Fin;
    assert (h + x)[|h|..] == x;
  }

  lemma CutBody(f: Frame, n: nat)
    requires n <= |f.payload|
    ensures |WireBody(f)| == |f.payload|
    ensures Masked(if f.mask.With? then f.mask.key else NO_MASK, WireBody(f)[..n]) == f.payload[..n]
  {
    if f.mask.With? {
      var k := f.mask.key;
      assert f.payload == f.payload[..n] + f.payload[n..];
      MaskedAppend(k, f.payload[..n], f.payload[n..]);
      assert WireBody(f)[..n] == Masked(k, f.payload[..n]);
      MaskedTwice(k, f.payload[..n]);
    } else {
      MaskedByZero(f.payload[..n]);
    }
  }

  /** Every sequence of data frames, masked or not, is read back as it was written. */
  lemma {:induction false} ScanWireAll(fs: seq<Frame>, max: nat)
    requires forall f <- fs :: Sendable(f, max)
    ensures Scan(WireAll(fs, max), max) == Reading(ReceivedAll(fs), More)
    ensures Whole(WireAll(fs, max), max)
  {
    hide Scan, Whole, Wire;
    if fs == [] {
      ScanNothing(max);
    } else {
      ScanWire(fs[0], max);
      ScanWireAll(fs[1..], max);
      ScanAfterWhole(Wire(fs[0]), WireAll(fs[1..], max), max);
      WholeAppend(Wire(fs[0]), WireAll(fs[1..], max), max);
      assert ReceivedAll(fs) == [Received(fs[0])] + ReceivedAll(fs[1..]);
    }
  }
}
