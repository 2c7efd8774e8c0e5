/**
 The resumable WebSocket endpoint: `websock_dispatch`, `websock_read`, `unmask` and
 `websock_send_internal_v`.

 The transport is free: each call of `Readv` follows the next entry of a script (fail,
 give nothing, give at most n bytes) and gives all it has once the script is over.
 */
module WebSock {
  import opened Bytes
  import opened WebSockFrame

  /** What the interface's readv gives.  `incoming` is all that the peer will ever send. */
  class Transport {
    var incoming: seq<byte>
    var script: seq<int>

    constructor (incoming: seq<byte>, script: seq<int>)
      ensures this.incoming == incoming && this.script == script
    {
      this.incoming := incoming;
      this.script := script;
    }

    function Budget(): nat
      reads this
    {
      |incoming| + |script|
    }

    method Readv(buf: array<byte>, off: nat, size: nat) returns (rc: int)
      requires off + size <= buf.Length
      modifies this, buf
      ensures rc <= size && rc <= |old(incoming)|
      ensures rc < 0 ==> incoming == old(incoming) && buf[..] == old(buf[..])
      ensures rc >= 0 ==> incoming == old(incoming)[rc..]
      ensures rc >= 0 ==> buf[..off + rc] == old(buf[..off]) + old(incoming)[..rc]
      ensures rc >= 0 ==> buf[off + rc..] == old(buf[off + rc..])
      ensures Budget() <= old(Budget())
      ensures Budget() == old(Budget()) ==> incoming == old(incoming)
      ensures size > 0 && old(incoming) != [] ==> Budget() < old(Budget())
    {
      rc := if size < |incoming| then size else |incoming|;
      if script != [] {
        if script[0] < rc { rc := script[0]; }
        script := script[1..];
      }
      if rc >= 0 {
        ghost var was := buf[..];
        var data := incoming[..rc];
        incoming := incoming[rc..];
        forall i | 0 <= i < rc { buf[off + i] := data[i]; }
        forall i | 0 <= i < off + rc ensures buf[i] == (was[..off] + data)[i] {
          if i < off { assert buf[i] == was[i]; } else { assert buf[off + (i - off)] == data[i - off]; }
        }
        assert buf[..off + rc] == was[..off] + data;
        assert buf[off + rc..] == was[off + rc..];
      }
    }
  }

  datatype State = INIT | START | LENGTH | DATA

  // ----- machine words of the unmasking loop -----

  function Word(a: byte, b: byte, c: byte, d: byte): bv32 {
    (a as bv32) | ((b as bv32) << 8) | ((c as bv32) << 16) | ((d as bv32) << 24)
  }

  function Word0(w: bv32): byte { (w & 0xFF) as byte }
  function Word1(w: bv32): byte { ((w >> 8) & 0xFF) as byte }
  function Word2(w: bv32): byte { ((w >> 16) & 0xFF) as byte }
  function Word3(w: bv32): byte { ((w >> 24) & 0xFF) as byte }

  lemma WordBytes(a: byte, b: byte, c: byte, d: byte)
    ensures var w := Word(a, b, c, d); Word0(w) == a && Word1(w) == b && Word2(w) == c && Word3(w) == d
  {
  }

  lemma WordXor(x: bv32, y: bv32)
    ensures Word0(x ^ y) == Xor(Word0(x), Word0(y)) && Word1(x ^ y) == Xor(Word1(x), Word1(y))
    ensures Word2(x ^ y) == Xor(Word2(x), Word2(y)) && Word3(x ^ y) == Xor(Word3(x), Word3(y))
  {
  }

  /** Four bytes of payload and a key, combined as two machine words: each byte meets its own key byte. */
  function XorWord(b: Key, u: Key): (r: Key)
    ensures r == Key(Xor(b.k0, u.k0), Xor(b.k1, u.k1), Xor(b.k2, u.k2), Xor(b.k3, u.k3))
  {
    var x, y := Word(b.k0, b.k1, b.k2, b.k3), Word(u.k0, u.k1, u.k2, u.k3);
    var w := x ^ y;
    assert Word0(w) == Xor(b.k0, u.k0) && Word1(w) == Xor(b.k1, u.k1)
           && Word2(w) == Xor(b.k2, u.k2) && Word3(w) == Xor(b.k3, u.k3) by {
      hide Word, Word0, Word1, Word2, Word3, Xor;
      WordXor(x, y);
      WordBytes(b.k0, b.k1, b.k2, b.k3);
      WordBytes(u.k0, u.k1, u.k2, u.k3);
    }
    Key(Word0(w), Word1(w), Word2(w), Word3(w))
  }

  /** The first p bytes are combined with the key, the others are untouched. */
  ghost predicate HalfMasked(was: seq<byte>, buf: array<byte>, k: Key, p: nat)
    reads buf
  {
    && buf.Length == |was| >= p
    && (forall i :: 0 <= i < p ==> buf[i] == Xor(was[i], At(k, i)))
    && (forall i :: p <= i < |was| ==> buf[i] == was[i])
  }

  method UnmaskByte(buf: array<byte>, p: nat, u: Key, ghost was: seq<byte>, ghost key: Key) returns (v: Key)
    requires p < buf.Length && HalfMasked(was, buf, key, p) && u == Rotate(key, p)
    modifies buf
    ensures HalfMasked(was, buf, key, p + 1) && v == Rotate(key, p + 1)
  {
    hide At, Rotate, Xor;
    RotateOne(key, p);
    buf[p] := Xor(buf[p], u.k0);
    v := Key(u.k1, u.k2, u.k3, u.k0);
  }

  method UnmaskWord(buf: array<byte>, p: nat, u: Key, ghost was: seq<byte>, ghost key: Key)
    requires p + 4 <= buf.Length && HalfMasked(was, buf, key, p) && u == Rotate(key, p)
    modifies buf
    ensures HalfMasked(was, buf, key, p + 4) && u == Rotate(key, p + 4)
  {
    hide At, Rotate, Xor, XorWord;
    RotateFour(key, p);
    var w := XorWord(Key(buf[p], buf[p + 1], buf[p + 2], buf[p + 3]), u);
    buf[p], buf[p + 1], buf[p + 2], buf[p + 3] := w.k0, w.k1, w.k2, w.k3;
  }

  /** Payload bytes go to the frame announced last. */
  function AddData(parts: seq<Part>, data: seq<byte>): seq<Part>
    requires parts != []
  {
    var last := parts[|parts| - 1];
    parts[..|parts| - 1] + [last.(data := last.data + data)]
  }

  class Endpoint {
    const maxlength: nat
    const transport: Transport
    const header: array<byte>
    var state: State
    var lenhead: nat
    var szhead: nat
    var length: nat
    var mask: Key

    /** Everything the peer will ever send. */
    ghost const stream: seq<byte>
    /** Bytes of the frames already left, then bytes of the current one. */
    ghost var past: seq<byte>
    ghost var cur: seq<byte>
    /** What the callbacks and the reads gave to the application. */
    ghost var delivered: seq<Part>
    /** First refusal met, More if none. */
    ghost var verdict: Verdict

    ghost function Consumed(): seq<byte>
      reads this
    {
      past + cur
    }

    /** Holds in every state, even after a refusal. */
    ghost predicate Safe()
      reads this, transport, header
    {
      && header.Length == 14
      && past + cur + transport.incoming == stream
      && (state.INIT? ==> cur == [])
      && (!state.INIT? ==> lenhead <= szhead <= 14)
      && (state.START? ==> szhead == 2 && HeaderRead())
      && (state.LENGTH? ==> lenhead >= 2 && HeaderRead() && !IsControl(header[0]) && szhead == HeadSize(header[1]))
    }

    ghost predicate HeaderRead()
      reads this, header
    {
      header.Length == 14 && |cur| == lenhead <= 14 && cur == header[..lenhead]
    }

    /** The application was given exactly what the one-shot reading of the consumed bytes gives. */
    ghost predicate Agrees()
      reads this
    {
      Scan(Consumed(), maxlength) == Reading(delivered, verdict)
    }

    /** Position inside the current frame, as long as nothing was refused. */
    ghost predicate Tracks()
      reads this
    {
      && Whole(past, maxlength)
      && (!state.DATA? ==> Scan(past, maxlength) == Reading(delivered, More))
      && (state.START? || state.LENGTH? ==> lenhead < szhead)
      && (state.DATA? ==>
            && Accepted(cur, maxlength)
            && |cur| + length == FrameSize(cur)
            && mask == Rotate(MaskKey(cur), |cur| - HeadSize(cur[1])))
    }

    /** A call returns with two bytes of header only if they announce a control frame. */
    ghost predicate Stopped()
      requires header.Length == 14
      reads this, header
    {
      state.START? && lenhead == 2 ==> IsControl(header[0])
    }

    ghost predicate Valid()
      reads this, transport, header
    {
      Safe() && Stopped() && (verdict.More? ==> Tracks() && Agrees())
    }

    constructor (transport: Transport, maxlength: nat)
      ensures Valid() && verdict == More && delivered == []
      ensures this.transport == transport && stream == transport.incoming && this.maxlength == maxlength
      ensures fresh(header)
    {
      this.transport, this.maxlength := transport, maxlength;
      header := new byte[14];
      state, lenhead, szhead, length, mask := INIT, 0, 0, 0, NO_MASK;
      stream, past, cur, delivered, verdict := transport.incoming, [], [], [], More;
    }

    /** Reads missing bytes of the header; a failed or short read keeps what is there. */
    method ReadHeader() returns (rc: int)
      requires Safe() && (state.START? || state.LENGTH?)
      modifies this`lenhead, this`cur, transport, header
      ensures Safe() && rc <= 0
      ensures old(cur) <= cur && |cur| == lenhead
      ensures rc < 0 ==> lenhead < szhead && lenhead == old(lenhead) && transport.incoming == old(transport.incoming)
      ensures lenhead > old(lenhead) ==> |transport.incoming| < |old(transport.incoming)|
      ensures |transport.incoming| <= |old(transport.incoming)|
      ensures transport.Budget() <= old(transport.Budget())
      ensures transport.Budget() == old(transport.Budget()) ==> transport.incoming == old(transport.incoming)
      ensures old(lenhead) < szhead && old(transport.incoming) != [] ==> transport.Budget() < old(transport.Budget())
      ensures old(transport.incoming) == [] ==> lenhead == old(lenhead)
    {
      hide IsControl, HeadSize;
      rc := 0;
      if lenhead < szhead {
        ghost var had, was := transport.incoming, cur;
        rc := transport.Readv(header, lenhead, szhead - lenhead);
        if rc >= 0 {
          cur := cur + had[..rc];
          lenhead := lenhead + rc;
          Moved(past, was, had, rc);
          rc := 0;
        }
      }
    }

    /** The payload length, from the bytes of a complete header. */
    method ComputeLength() returns (n: nat)
      requires Safe() && state.LENGTH? && lenhead == szhead
      ensures n == PayloadLength(cur)
    {
      hide HasMask, Len7, IsControl, BigEndian, PayloadLength, Scan;
      assert cur[1] == header[1];
      if Len7(header[1]) == 127 {
        n := 0x100_0000_0000_0000 * (header[2] as nat) + 0x1_0000_0000_0000 * (header[3] as nat)
          + 0x100_0000_0000 * (header[4] as nat) + 0x1_0000_0000 * (header[5] as nat)
          + 0x100_0000 * (header[6] as nat) + 0x1_0000 * (header[7] as nat)
          + 0x100 * (header[8] as nat) + header[9] as nat;
        Length64(cur);
      } else if Len7(header[1]) == 126 {
        n := 0x100 * (header[2] as nat) + header[3] as nat;
        Length16(cur);
      } else {
        n := Len7(header[1]) as nat;
        Length7(cur);
      }
    }

    /** The masking key, from the bytes of a complete header. */
    method ComputeMask() returns (k: Key)
      requires Safe() && state.LENGTH? && lenhead == szhead
      ensures k == MaskKey(cur)
    {
      hide HasMask, Len7, IsControl, Scan;
      MaskRoom(header[1]);
      if HasMask(header[1]) {
        k := Key(header[szhead - 4], header[szhead - 3], header[szhead - 2], header[szhead - 1]);
      } else {
        k := NO_MASK;
      }
    }

    /** The header is complete: computes length and mask, tells the application or refuses. */
    method Accept() returns (out: Verdict)
      requires Safe() && state.LENGTH? && lenhead == szhead
      requires verdict.More? ==> Whole(past, maxlength) && Scan(past, maxlength) == Reading(delivered, More)
      modifies this`length, this`mask, this`state, this`delivered, this`verdict
      ensures Valid()
      ensures old(verdict).More? ==> Agrees() && verdict == out
      ensures !old(verdict).More? ==> verdict == old(verdict)
      ensures out != Control && (out.More? ==> state.DATA?)
    {
      hide Fin, Opcode, Reserved, HasMask, IsControl, IsData, Whole, PayloadLength, ExtSize, Scan, Rotate,
        HeadSize, FrameSize, Accepted, MaskKey;
      length := ComputeLength();
      if verdict.More? { Completed(); }
      if length > maxlength {
        out := TooLong;
      } else {
        mask := ComputeMask();
        RotateZero(mask);
        state := DATA;
        if Reserved(header[0]) || !IsData(header[0]) {
          out := Protocol;
        } else {
          out := More;
          delivered := delivered + [Part(Opcode(header[0]), Fin(header[0]), length, [])];
        }
      }
      if verdict.More? { verdict := out; }
    }

    /** A complete header, and nothing of the payload yet. */
    lemma Completed()
      requires Safe() && state.LENGTH? && lenhead == szhead
      requires Whole(past, maxlength) && Scan(past, maxlength) == Reading(delivered, More)
      ensures var judged := Judge(cur, maxlength);
              var announced := Part(Opcode(cur[0]), Fin(cur[0]), PayloadLength(cur), []);
              Scan(Consumed(), maxlength)
              == Reading(if judged.More? then delivered + [announced] else delivered, judged)
      ensures |cur| == HeadSize(cur[1]) && FrameSize(cur) == |cur| + PayloadLength(cur)
      ensures Judge(cur, maxlength).More? ==> Accepted(cur, maxlength)
    {
      hide Fin, Opcode, HasMask, IsControl, Whole, PayloadLength, ExtSize, Judge, MaskKey;
      ScanAfterWhole(past, cur, maxlength);
      assert cur[HeadSize(cur[1])..] == [];
      assert Masked(MaskKey(cur), []) == [];
    }

    /** Between two frames or inside a header, with nothing refused yet. */
    ghost predicate AtHead()
      reads this, transport, header
    {
      Safe() && !state.DATA? &&
      (verdict.More? ==> Whole(past, maxlength) && Scan(past, maxlength) == Reading(delivered, More))
    }

    /** STATE_INIT and STATE_START: the two first bytes, then the size of the whole header. */
    method Begin() returns (rc: int, out: Verdict)
      requires AtHead() && (state.INIT? || state.START?)
      requires Stopped()
      requires verdict.More? && state.START? ==> lenhead < szhead
      modifies this`state, this`lenhead, this`szhead, this`cur, this`verdict, transport, header
      ensures AtHead() && rc <= 0 && (rc < 0 ==> state.START? && out.More?)
      ensures state.LENGTH? ==> out.More? && verdict == old(verdict)
      ensures !state.LENGTH? ==> Valid()
      ensures old(verdict).More? ==> verdict == out && (state.LENGTH? || Agrees())
      ensures !old(verdict).More? ==> verdict == old(verdict)
      ensures state.LENGTH? ==> |transport.incoming| < |old(transport.incoming)|
      ensures transport.Budget() <= old(transport.Budget())
      ensures transport.Budget() == old(transport.Budget()) ==> transport.incoming == old(transport.incoming)
      ensures old(verdict).More? && old(transport.incoming) != [] ==> transport.Budget() < old(transport.Budget())
      ensures state.LENGTH? || state.START?
      ensures |transport.incoming| <= |old(transport.incoming)|
    {
      hide Scan, Whole, Judge, FrameSize, MaskKey, Rotate, IsControl, HeadSize, Accepted, PayloadLength;
      out := More;
      if state.INIT? {
        lenhead, szhead, state := 0, 2, START;
      }
      rc := ReadHeader();
      if rc < 0 || lenhead < szhead {
        if verdict.More? { Pending(); }
      } else if IsControl(header[0]) {
        out := Control;
        if verdict.More? {
          Controlled();
          verdict := Control;
        }
      } else {
        szhead := HeadSize(header[1]);
        state := LENGTH;
      }
    }

    /** `websock_dispatch` without extension handler; control frames stop it with `Control`. */
    method Dispatch(loop: bool) returns (rc: int, out: Verdict)
      requires Valid()
      modifies this`state, this`lenhead, this`szhead, this`length, this`mask
      modifies this`past, this`cur, this`delivered, this`verdict, transport, header
      ensures Valid()
      ensures old(verdict).More? ==> Agrees() && verdict == out
      ensures !old(verdict).More? ==> verdict == old(verdict)
      ensures rc < 0 ==> out.More?
      ensures transport.Budget() <= old(transport.Budget())
      ensures transport.Budget() == old(transport.Budget()) ==> transport.incoming == old(transport.incoming)
      ensures old(verdict).More? && old(transport.incoming) != [] && out.More? ==>
                transport.Budget() < old(transport.Budget()) || (state.DATA? && length > 0)
    {
      hide Scan, Whole, Judge, FrameSize, MaskKey, Rotate, IsControl, HeadSize, Accepted, PayloadLength, Masked,
        Fin, Opcode, HasMask, Len7, IsData, ExtSize, Reserved;
      rc, out := 0, More;
      while true
        invariant Valid() && out.More? && rc == 0
        invariant old(verdict).More? ==> verdict.More?
        invariant !old(verdict).More? ==> verdict == old(verdict)
        invariant transport.Budget() <= old(transport.Budget())
        invariant transport.Budget() == old(transport.Budget()) ==> transport.incoming == old(transport.incoming)
        decreases |transport.incoming|, if state.LENGTH? then 3 else if state.DATA? then 2 else 1
      {
        if state.DATA? {
          if length != 0 { return 0, More; }
          Leave();
          continue;
        }
        if !state.LENGTH? {
          rc, out := Begin();
          if !state.LENGTH? { return rc, out; }
        }
        rc := ReadHeader();
        if rc < 0 || lenhead < szhead {
          if verdict.More? { Pending(); }
          return rc, More;
        }
        out := Accept();
        if !out.More? || !loop { return 0, out; }
      }
    }

    /** STATE_DATA with nothing left to read: back to STATE_INIT. */
    method Leave()
      requires Valid() && state.DATA? && length == 0
      modifies this`state, this`past, this`cur
      ensures Valid() && state.INIT?
    {
      if verdict.More? {
        assert cur[FrameSize(cur)..] == [];
        WholeAppend(past, cur, maxlength);
      }
      assert past + cur + [] == past + cur;
      past, cur, state := past + cur, [], INIT;
    }

    /** An incomplete header adds nothing to what was delivered. */
    lemma Pending()
      requires Safe() && (state.START? || state.LENGTH?) && lenhead < szhead
      requires Whole(past, maxlength) && Scan(past, maxlength) == Reading(delivered, More)
      ensures Scan(Consumed(), maxlength) == Reading(delivered, More)
    {
      hide IsControl, Whole, HasMask, Len7;
      ScanAfterWhole(past, cur, maxlength);
    }

    lemma Controlled()
      requires Safe() && state.START? && lenhead == 2 && IsControl(header[0])
      requires Whole(past, maxlength) && Scan(past, maxlength) == Reading(delivered, More)
      ensures Scan(Consumed(), maxlength) == Reading(delivered, Control)
    {
      hide IsControl, Whole;
      ScanAfterWhole(past, cur, maxlength);
    }

    /** Unmasks in place: bytes up to alignment, then words, then the remaining bytes. */
    method Unmask(buf: array<byte>, size: nat, align: nat)
      requires size <= buf.Length
      modifies buf, this`mask
      ensures buf[..size] == Masked(old(mask), old(buf[..size]))
      ensures buf[size..] == old(buf[size..])
      ensures mask == Rotate(old(mask), size)
    {
      hide At, Rotate, Xor, XorWord;
      var key := mask;
      var u := key;
      var p, n := 0, size;
      ghost var was := buf[..];
      RotateZero(key);
      while n != 0 && (align + p) % 4 != 0
        invariant p + n == size && u == Rotate(key, p) && HalfMasked(was, buf, key, p)
      {
        u := UnmaskByte(buf, p, u, was, key);
        p, n := p + 1, n - 1;
      }
      while n >= 4
        invariant p + n == size && u == Rotate(key, p) && HalfMasked(was, buf, key, p)
      {
        UnmaskWord(buf, p, u, was, key);
        p, n := p + 4, n - 4;
      }
      while n != 0
        invariant p + n == size && u == Rotate(key, p) && HalfMasked(was, buf, key, p)
      {
        u := UnmaskByte(buf, p, u, was, key);
        p, n := p + 1, n - 1;
      }
      mask := u;
    }

    /** `websock_read`: at most what remains of the current frame, in clear. */
    method Read(buf: array<byte>, size: nat, align: nat) returns (rc: int)
      requires Valid() && buf != header && size <= buf.Length
      modifies this`length, this`mask, this`cur, this`delivered, transport, buf
      ensures Valid() && rc <= size
      ensures !state.DATA? ==> rc == 0 && transport.incoming == old(transport.incoming)
      ensures transport.Budget() <= old(transport.Budget())
      ensures state.DATA? && old(length) > 0 && size > 0 && old(transport.incoming) != [] ==>
                transport.Budget() < old(transport.Budget())
      ensures rc > 0 ==> length == old(length) - rc
      ensures verdict.More? && rc <= 0 ==> delivered == old(delivered)
      ensures verdict.More? && rc > 0 ==> old(delivered) != []
      ensures verdict.More? && rc > 0 ==> delivered == AddData(old(delivered), buf[..rc])
    {
      hide Scan, Whole, Judge, FrameSize, MaskKey, Rotate, IsControl, HeadSize, Masked, AddData, PayloadLength, HeaderRead;
      if !state.DATA? { return 0; }
      var z := if size > length then length else size;
      ghost var had := transport.incoming;
      rc := transport.Readv(buf, 0, z);
      if rc > 0 {
        assert buf[..rc] == had[..rc];
        Clear(buf, rc, align, had);
      }
    }

    /** What a read does with the bytes it got. */
    method Clear(buf: array<byte>, rc: nat, align: nat, ghost had: seq<byte>)
      requires state.DATA? && header.Length == 14 && lenhead <= szhead <= 14 && buf != header
      requires 0 < rc <= buf.Length && rc <= |had| && rc <= length
      requires buf[..rc] == had[..rc] && transport.incoming == had[rc..] && past + cur + had == stream
      requires verdict.More? ==> Tracks() && Agrees()
      modifies this`length, this`mask, this`cur, this`delivered, buf
      ensures Valid()
      ensures length == old(length) - rc
      ensures verdict.More? ==> old(delivered) != []
      ensures verdict.More? ==> delivered == AddData(old(delivered), buf[..rc])
    {
      hide Scan, Whole, Judge, FrameSize, MaskKey, Rotate, IsControl, HeadSize, Masked, AddData, PayloadLength, HeaderRead;
      ghost var got, was, key := had[..rc], cur, mask;
      length := length - rc;
      Moved(past, was, had, rc);
      cur := cur + got;
      if mask != NO_MASK {
        Unmask(buf, rc, align);
      } else {
        MaskedByZero(got);
        RotateNone(rc);
      }
      assert buf[..rc] == Masked(key, got);
      if verdict.More? {
        Extended(past, was, got, maxlength);
        delivered := AddData(delivered, buf[..rc]);
      }
    }

    /** The application's loop: runs until the transport is exhausted or a frame is refused.
        Whatever the script and the buffer size, the outcome is the one-shot reading. */
    method Pump(buf: array<byte>, align: nat, loop: bool)
      requires Valid() && verdict.More? && buf != header && buf.Length > 0
      modifies this`state, this`lenhead, this`szhead, this`length, this`mask
      modifies this`past, this`cur, this`delivered, this`verdict, transport, header, buf
      ensures Valid()
      ensures Scan(stream, maxlength) == Reading(delivered, verdict)
    {
      hide Scan, Whole, Accepted, Judge, FrameSize, MaskKey, Rotate, IsControl, HeadSize;
      while transport.incoming != []
        invariant Valid() && verdict.More?
        decreases transport.Budget()
      {
        var rc, out := Dispatch(loop);
        if !out.More? {
          ScanRefusedStable(Consumed(), transport.incoming, maxlength);
          return;
        }
        rc := Read(buf, buf.Length, align);
      }
      assert Consumed() == stream;
    }
  }

  /** Bytes taken from the transport leave the stream as it was. */
  lemma Moved(past: seq<byte>, cur: seq<byte>, had: seq<byte>, n: nat)
    requires n <= |had|
    ensures past + (cur + had[..n]) + had[n..] == past + cur + had
  {
  }

  lemma MaskRoom(b: byte)
    ensures HasMask(b) ==> HeadSize(b) >= 6
  {
  }

  lemma RotateZero(k: Key)
    ensures Rotate(k, 0) == k
  {
  }

  lemma RotateOne(k: Key, p: nat)
    ensures var u := Rotate(k, p); Rotate(k, p + 1) == Key(u.k1, u.k2, u.k3, u.k0) && u.k0 == At(k, p)
  {
  }

  lemma RotateFour(k: Key, p: nat)
    ensures Rotate(k, p + 4) == Rotate(k, p) == Key(At(k, p), At(k, p + 1), At(k, p + 2), At(k, p + 3))
  {
    AtPeriod(k, p);
    AtPeriod(k, p + 1);
    AtPeriod(k, p + 2);
    AtPeriod(k, p + 3);
    hide At;
  }

  lemma AtPeriod(k: Key, i: nat)
    ensures At(k, i + 4) == At(k, i)
  {
    assert (i + 4) % 4 == i % 4;
  }

  lemma RotateNone(n: nat)
    ensures Rotate(NO_MASK, n) == NO_MASK
  {
  }

  lemma Length7(s: seq<byte>)
    requires |s| >= 2 && |s| >= HeadSize(s[1]) && Len7(s[1]) != 126 && Len7(s[1]) != 127
    ensures PayloadLength(s) == Len7(s[1]) as nat
  {
  }

  lemma Length16(s: seq<byte>)
    requires |s| >= 4 && |s| >= HeadSize(s[1]) && Len7(s[1]) == 126
    ensures PayloadLength(s) == 0x100 * (s[2] as nat) + s[3] as nat
  {
    BigEndian2(s[2..4]);
  }

  lemma Length64(s: seq<byte>)
    requires |s| >= 10 && |s| >= HeadSize(s[1]) && Len7(s[1]) == 127
    ensures PayloadLength(s) == 0x100_0000_0000_0000 * (s[2] as nat) + 0x1_0000_0000_0000 * (s[3] as nat)
          + 0x100_0000_0000 * (s[4] as nat) + 0x1_0000_0000 * (s[5] as nat)
          + 0x100_0000 * (s[6] as nat) + 0x1_0000 * (s[7] as nat)
          + 0x100 * (s[8] as nat) + s[9] as nat
  {
    hide BigEndian;
    BigEndian8(s[2..10]);
  }

  /** Bytes of payload that follow an accepted header only extend the last part. */
  lemma Extended(past: seq<byte>, cur: seq<byte>, got: seq<byte>, max: nat)
    requires Whole(past, max) && Accepted(cur, max) && |cur| + |got| <= FrameSize(cur)
    ensures Accepted(cur + got, max) && FrameSize(cur + got) == FrameSize(cur)
    ensures MaskKey(cur + got) == MaskKey(cur)
    ensures var key := Rotate(MaskKey(cur), |cur| - HeadSize(cur[1]));
            var r := Scan(past + cur, max);
            && r.verdict == More && r.parts != []
            && Rotate(key, |got|) == Rotate(MaskKey(cur), |cur| + |got| - HeadSize(cur[1]))
            && Scan(past + (cur + got), max) == Reading(AddData(r.parts, Masked(key, got)), More)
  {
    hide Scan, Whole, Accepted, Rotate, Masked, MaskKey, Current, HeadSize, FrameSize, AddData;
    SameFrame(cur, got, max);
    ScanAtEnd(past, cur, max);
    ScanAtEnd(past, cur + got, max);
    var z := HeadSize(cur[1]);
    RotateRotate(MaskKey(cur), |cur| - z, |got|);
    var key := Rotate(MaskKey(cur), |cur| - z);
    LastExtended(Scan(past, max).parts, Current(cur, max), Current(cur + got, max), Masked(key, got));
  }

  lemma SameFrame(cur: seq<byte>, got: seq<byte>, max: nat)
    requires Accepted(cur, max) && |cur| + |got| <= FrameSize(cur)
    ensures Accepted(cur + got, max) && FrameSize(cur + got) == FrameSize(cur) && MaskKey(cur + got) == MaskKey(cur)
    ensures 2 <= |cur| && HeadSize(cur[1]) <= |cur|
    ensures var data := Masked(Rotate(MaskKey(cur), |cur| - HeadSize(cur[1])), got);
            Current(cur + got, max) == Current(cur, max).(data := Current(cur, max).data + data)
  {
    hide Fin, Opcode, HasMask, Len7, IsControl, Judge, Rotate, Masked, MaskKey, PayloadLength, ExtSize;
    HeadStable(cur, got, max);
    UnmaskedSoFar(MaskKey(cur), HeadSize(cur[1]), cur, got);
  }

  /** The part of a frame in course. */
  function Current(s: seq<byte>, max: nat): Part
    requires Accepted(s, max)
  {
    Part(Opcode(s[0]), Fin(s[0]), PayloadLength(s), Masked(MaskKey(s), s[HeadSize(s[1])..]))
  }

  lemma LastExtended(parts: seq<Part>, p: Part, q: Part, data: seq<byte>)
    requires q == p.(data := p.data + data)
    ensures AddData(parts + [p], data) == parts + [q]
  {
  }

  lemma ScanAtEnd(past: seq<byte>, cur: seq<byte>, max: nat)
    requires Whole(past, max) && Accepted(cur, max) && |cur| <= FrameSize(cur)
    ensures Scan(past + cur, max) == Reading(Scan(past, max).parts + [Current(cur, max)], More)
  {
    hide Scan, Whole, Current, Accepted;
    ScanAfterWhole(past, cur, max);
    ScanOne(cur, max);
  }

  lemma UnmaskedSoFar(k: Key, z: nat, cur: seq<byte>, got: seq<byte>)
    requires z <= |cur|
    ensures Masked(k, (cur + got)[z..]) == Masked(k, cur[z..]) + Masked(Rotate(k, |cur| - z), got)
  {
    hide Rotate;
    assert (cur + got)[z..] == cur[z..] + got;
    MaskedAppend(k, cur[z..], got);
  }

  lemma ScanOne(s: seq<byte>, max: nat)
    requires Accepted(s, max) && |s| <= FrameSize(s)
    ensures Scan(s, max) == Reading([Current(s, max)], More)
  {
    hide HeadSize, ExtSize, Len7, IsControl, Judge, Masked;
    assert Scan(s, max) == Reading([FirstPart(s)], More);
  }

  // ----- sending -----

  const X_EINVAL := -22

  /** The vector given to writev: the header, then the non-empty buffers. */
  method SendV(first: byte, iov: seq<seq<byte>>, count: int) returns (rc: int, vec: seq<seq<byte>>)
    requires count <= |iov|
    requires 0 <= count ==> |Concat(iov[..count])| < TWO64
    ensures (rc == X_EINVAL <==> count < 0 || count > 31) && (rc == X_EINVAL ==> vec == [])
    ensures rc != X_EINVAL ==> rc == 0 && 1 <= |vec| <= 32
    ensures rc == 0 ==> Concat(vec) == WireHead(first, Plain, |Concat(iov[..count])|) + Concat(iov[..count])
    ensures rc == 0 ==>
              && IsHead(vec[0], |Concat(iov[..count])|, false) && vec[0][0] == first
              && forall h | IsHead(h, |Concat(iov[..count])|, false) :: |vec[0]| <= |h|
  {
    hide WireHead, IsHead;
    if count < 0 || count + 1 > 32 { return X_EINVAL, []; }
    var size := 0;
    vec := [];
    var j := 0;
    while j < count
      invariant 0 <= j <= count && |vec| <= j
      invariant Concat(vec) == Concat(iov[..j]) && size == |Concat(iov[..j])|
    {
      assert iov[..j + 1] == iov[..j] + [iov[j]];
      ConcatSnoc(iov[..j], iov[j]);
      ConcatSnoc(vec, iov[j]);
      if |iov[j]| != 0 {
        vec := vec + [iov[j]];
        size := size + |iov[j]|;
      }
      j := j + 1;
    }
    var header := MakeHeader(first, size);
    vec := [header] + vec;
    assert vec[1..] + [] == vec[1..];
    rc := 0;
  }

  method MakeHeader(first: byte, size: nat) returns (header: seq<byte>)
    requires size < TWO64
    ensures header == WireHead(first, Plain, size)
    ensures IsHead(header, size, false) && header[0] == first
    ensures forall h | IsHead(h, size, false) :: |header| <= |h|
  {
    hide Octets, Shr8, IsHead;
    WireHeadSize(first, Plain, size);
    forall h | IsHead(h, size, false) ensures |WireHead(first, Plain, size)| <= |h| {
      Shortest(first, Plain, size, h);
    }
    header := [first];
    if size < 126 {
      header := header + [ByteOf(size)];
      OrZero(ByteOf(size));
    } else {
      if size < 65536 {
        header := header + [126];
      } else {
        header := header + [127];
        header := header + [Octet(Shr8(size, 7)), Octet(Shr8(size, 6)), Octet(Shr8(size, 5)),
                            Octet(Shr8(size, 4)), Octet(Shr8(size, 3)), Octet(Shr8(size, 2))];
      }
      header := header + [Octet(Shr8(size, 1)), Octet(Shr8(size, 0))];
      OctetsUnrolled(size);
      OrZero(126);
      OrZero(127);
    }
  }

  lemma OrZero(b: byte)
    ensures 0 | b == b
  {
  }

  /** What an application asks to send: `websock_text_v` and the like. */
  datatype Message = Message(opcode: byte, fin: bool, iov: seq<seq<byte>>)

  function FrameOf(m: Message): Frame {
    Frame(m.opcode, m.fin, Plain, Concat(m.iov))
  }

  function Frames(ms: seq<Message>): seq<Frame> {
    seq(|ms|, i requires 0 <= i < |ms| => FrameOf(ms[i]))
  }

  predicate CanSend(m: Message, max: nat) {
    |m.iov| <= 31 && Sendable(FrameOf(m), max)
  }

  /** The vectors of all the sends, one after the other. */
  method SendAll(ms: seq<Message>, max: nat) returns (stream: seq<byte>)
    requires forall i | 0 <= i < |ms| :: CanSend(ms[i], max)
    ensures forall f <- Frames(ms) :: Sendable(f, max)
    ensures stream == WireAll(Frames(ms), max)
  {
    stream := [];
    var i := 0;
    assert Frames(ms[..0]) == [];
    while i < |ms|
      invariant 0 <= i <= |ms| && forall f <- Frames(ms[..i]) :: Sendable(f, max)
      invariant stream == WireAll(Frames(ms[..i]), max)
    {
      hide WireHead, WireAll, Concat, Sendable;
      var m := ms[i];
      var bytes := SendOne(m, max);
      assert Frames(ms[..i + 1]) == Frames(ms[..i]) + [FrameOf(m)];
      WireAllSnoc(Frames(ms[..i]), FrameOf(m), max);
      hide Wire;
      stream := stream + bytes;
      i := i + 1;
    }
    assert ms[..i] == ms;
  }

  method SendOne(m: Message, max: nat) returns (bytes: seq<byte>)
    requires CanSend(m, max)
    ensures Sendable(FrameOf(m), max) && bytes == Wire(FrameOf(m))
  {
    hide WireHead, IsHead;
    SendRoom(m, max);
    assert m.iov[..|m.iov|] == m.iov;
    var rc, vec := SendV(FirstByte(m.opcode, m.fin), m.iov, |m.iov|);
    bytes := Concat(vec);
  }

  lemma SendRoom(m: Message, max: nat)
    requires CanSend(m, max)
    ensures |Concat(m.iov)| < TWO64
  {
  }

  /** What is sent, read through any transport with any buffer: the application of the other side is
      given the messages, in order. */
  method Exchange(ms: seq<Message>, max: nat, script: seq<int>, bufsize: nat, align: nat, loop: bool)
    returns (e: Endpoint)
    requires forall i | 0 <= i < |ms| :: CanSend(ms[i], max)
    requires bufsize > 0
    ensures e.verdict == More && e.delivered == ReceivedAll(Frames(ms))
  {
    var stream := SendAll(ms, max);
    e := Receive(stream, max, script, bufsize, align, loop);
    ScanWireAll(Frames(ms), max);
  }

  /** A stream read through any transport with any buffer is read as its one-shot reading. */
  method Receive(stream: seq<byte>, max: nat, script: seq<int>, bufsize: nat, align: nat, loop: bool)
    returns (e: Endpoint)
    requires bufsize > 0
    ensures Scan(stream, max) == Reading(e.delivered, e.verdict)
  {
    var t := new Transport(stream, script);
    e := new Endpoint(t, max);
    var buf := new byte[bufsize];
    e.Pump(buf, align, loop);
  }
}
