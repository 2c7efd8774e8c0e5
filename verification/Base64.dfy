/**
 Base64 texts, sections 4 and 5 of RFC 4648, cut in lines or not, padded or not.
 */
module Base64 {
  import opened Bounded
  import opened Bytes
  import opened Wrappers

  const INVALID: int := -2

  // ----- what the RFC says -----

  /** A byte of the data, null after the end. */
  function Octet0(data: seq<byte>, k: nat): byte {
    if k < |data| then data[k] else 0
  }

  /** The number of characters that hold the data. */
  function Count(n: nat): nat {
    4 * (n / 3) + n % 3 + (if n % 3 != 0 then 1 else 0)
  }

  /** The value of a rank in a group of three bytes. */
  function Sixth(m: nat, a: byte, b: byte, c: byte): byte
    requires m < 4
  {
    match m
    case 0 => a >> 2
    case 1 => ((a & 3) << 4) | (b >> 4)
    case 2 => ((b & 15) << 2) | (c >> 6)
    case _ => c & 63
  }

  /** The value of the character of that rank: six bits of the group of three bytes. */
  function Sextet(data: seq<byte>, i: nat): byte {
    var g := i / 4 * 3;
    Sixth(i % 4, Octet0(data, g), Octet0(data, g + 1), Octet0(data, g + 2))
  }

  function Sextets(data: seq<byte>): (r: seq<byte>)
    ensures |r| == Count(|data|)
  {
    seq(Count(|data|), i requires 0 <= i => Sextet(data, i))
  }

  /** The byte that a value completes, from the value before it, at a rank in the group of four. */
  function Completed(m: nat, before: byte, v: byte): seq<byte>
    requires m < 4
  {
    match m
    case 0 => []
    case 1 => [(before << 2) | (v >> 4)]
    case 2 => [(before << 4) | (v >> 2)]
    case _ => [(before << 6) | v]
  }

  /** The bytes of a list of values of six bits. */
  function Octets4(values: seq<byte>): seq<byte> {
    if values == [] then []
    else
      var n := |values| - 1;
      Octets4(values[..n]) + Completed(n % 4, if n > 0 then values[n - 1] else 0, values[n])
  }

  lemma Rejoin(a: byte, b: byte, c: byte)
    ensures ((a >> 2) << 2) | ((((a & 3) << 4) | (b >> 4)) >> 4) == a
    ensures ((((a & 3) << 4) | (b >> 4)) << 4) | ((((b & 15) << 2) | (c >> 6)) >> 2) == b
    ensures ((((b & 15) << 2) | (c >> 6)) << 6) | (c & 63) == c
  {
  }

  lemma Group(data: seq<byte>, q: nat, m: nat, before: byte)
    requires m < 4 && (m > 0 ==> before == Sextet(data, 4 * q + m - 1))
    ensures Completed(m, before, Sextet(data, 4 * q + m)) == if m == 0 then [] else [Octet0(data, 3 * q + m - 1)]
  {
    hide Sextet, Octet0;
    if m > 0 {
      hide Completed;
      SextetAt(data, q, m - 1);
      SextetAt(data, q, m);
      hide Sixth;
      Finished(m, Octet0(data, 3 * q), Octet0(data, 3 * q + 1), Octet0(data, 3 * q + 2));
    }
  }

  lemma Finished(m: nat, a: byte, b: byte, c: byte)
    requires 0 < m < 4
    ensures Completed(m, Sixth(m - 1, a, b, c), Sixth(m, a, b, c)) == [if m == 1 then a else if m == 2 then b else c]
  {
    Rejoin(a, b, c);
  }

  lemma {:induction false} Regrouped(data: seq<byte>, q: nat, m: nat)
    requires m < 4 && 4 * q + m < Count(|data|)
    ensures 3 * q + m <= |data| && Octets4(Sextets(data)[..4 * q + m + 1]) == data[..3 * q + m]
    decreases q, m
  {
    hide Sextet, Completed, Octet0, Octets4, Count, Sextets;
    var s, n := Sextets(data), 4 * q + m;
    RankOf(q, m);
    Octets4Next(s, n);
    SextetsAt(data);
    Group(data, q, m, if n > 0 then s[n - 1] else 0);
    Enough(|data|, q, m);
    if m > 0 {
      Regrouped(data, q, m - 1);
      Inside(data, 3 * q + m - 1);
    } else if q > 0 {
      Regrouped(data, q - 1, 3);
    }
  }

  lemma Octets4Next(s: seq<byte>, n: nat)
    requires n < |s|
    ensures Octets4(s[..n + 1]) == Octets4(s[..n]) + Completed(n % 4, if n > 0 then s[n - 1] else 0, s[n])
    ensures Octets4(s[..0]) == []
  {
    hide Completed;
    assert s[..n + 1][..n] == s[..n];
  }

  lemma SextetsAt(data: seq<byte>)
    ensures forall i | 0 <= i < Count(|data|) :: Sextets(data)[i] == Sextet(data, i)
  {
  }

  lemma Inside(data: seq<byte>, k: nat)
    requires k < |data|
    ensures Octet0(data, k) == data[k] && data[..k + 1] == data[..k] + [data[k]]
  {
  }

  /** Taking the bytes of the values of the bytes gives the data. */
  lemma SextetsRoundTrip(data: seq<byte>)
    ensures Octets4(Sextets(data)) == data
  {
    var n := Count(|data|);
    if n > 0 {
      var q, m := (n - 1) / 4, (n - 1) % 4;
      assert 4 * q + m + 1 == n;
      Regrouped(data, q, m);
      assert Sextets(data)[..n] == Sextets(data);
      assert 3 * q + m == |data|;
      assert data[..3 * q + m] == data;
    }
  }

  // ----- alphabets -----

  const NEWLINE: byte := 10
  const RETURN: byte := 13
  const PAD: byte := 61

  /** The character of a value, in the standard alphabet or in the one for URLs. */
  function Letter(v: byte, url: bool): byte {
    if v < 52 then (if v < 26 then 65 + v else 97 + v - 26)
    else if v < 62 then 48 + v - 52
    else if v == 62 then (if url then 45 else 43)
    else (if url then 95 else 47)
  }

  /** The value of a character: url > 0 for the URL alphabet only, < 0 for the standard one only. */
  function Value(c: byte, url: int): Option<byte> {
    if 65 <= c <= 90 then Some(c - 65)
    else if 97 <= c <= 122 then Some(c - 97 + 26)
    else if 48 <= c <= 57 then Some(c - 48 + 52)
    else if c == 45 && url >= 0 then Some(62)
    else if c == 95 && url >= 0 then Some(63)
    else if c == 43 && url <= 0 then Some(62)
    else if c == 47 && url <= 0 then Some(63)
    else None
  }

  predicate Compatible(url: bool, mode: int) {
    mode == 0 || (url <==> mode > 0)
  }

  lemma LetterValue(v: byte, url: bool, mode: int)
    requires v < 64 && Compatible(url, mode)
    ensures Value(Letter(v, url), mode) == Some(v)
    ensures Letter(v, url) != PAD && Letter(v, url) != NEWLINE && Letter(v, url) != RETURN
  {
  }

  /** The runs of table 1 of RFC 4648: A to Z, a to z, 0 to 9, then two characters that depend on the alphabet. */
  lemma Runs(v: byte, url: bool)
    ensures Letter(0, url) == 0x41 && Letter(26, url) == 0x61 && Letter(52, url) == 0x30
    ensures v < 61 && v != 25 && v != 51 ==> Letter(v + 1, url) == Letter(v, url) + 1
    ensures Letter(62, false) == 0x2b && Letter(63, false) == 0x2f && Letter(62, true) == 0x2d && Letter(63, true) == 0x5f
  {
  }

  /** The characters that have a value are the letters of the alphabets of the mode, and no other. */
  lemma ValueOnly(c: byte, mode: int)
    ensures Value(c, mode).Some? <==>
              exists v, url | v < 64 && Compatible(url, mode) :: Letter(v, url) == c
    ensures Value(c, mode).Some? ==>
              Value(c, mode).value < 64 && exists url | Compatible(url, mode) :: Letter(Value(c, mode).value, url) == c
  {
    if Value(c, mode).Some? {
      var url := if c == 45 || c == 95 then true else if c == 43 || c == 47 then false else mode > 0;
      assert Compatible(url, mode) && Letter(Value(c, mode).value, url) == c;
    }
  }

  // ----- texts -----

  function Letters(values: seq<byte>, url: bool): (r: seq<byte>)
    ensures |r| == |values|
  {
    seq(|values|, i requires 0 <= i < |values| => Letter(values[i], url))
  }

  /** The padding that makes the length a multiple of four. */
  function Pads(n: nat, pad: bool): (r: seq<byte>)
    ensures pad ==> (n + |r|) % 4 == 0 && |r| < 4
    ensures !pad ==> r == []
  {
    if pad then seq((4 - n % 4) % 4, i => PAD) else []
  }

  lemma PadsLength(n: nat, pad: bool)
    ensures |Pads(n, pad)| == if pad then (4 - n % 4) % 4 else 0
  {
  }

  /** A new line after each full line. */
  function Broken(text: seq<byte>, width: nat): seq<byte> {
    if text == [] then []
    else
      Broken(text[..|text| - 1], width) + [text[|text| - 1]] +
      if width > 0 && |text| % width == 0 then [NEWLINE] else []
  }

  function Flat(data: seq<byte>, pad: bool, url: bool): seq<byte> {
    Letters(Sextets(data), url) + Pads(Count(|data|), pad)
  }

  function Encoded(data: seq<byte>, width: nat, pad: bool, url: bool): seq<byte> {
    Broken(Flat(data, pad, url), width)
  }

  lemma Division(n: nat, w: nat, q: nat, r: nat)
    requires w > 0 && n == q * w + r && r < w
    ensures n / w == q && n % w == r
  {
    Apart(n / w, q, w);
    Apart(q, n / w, w);
  }

  lemma Apart(a: nat, b: nat, w: nat)
    ensures a < b ==> a * w + w <= b * w
  {
    if a < b {
      Scaled(a + 1, b, w);
      assert (a + 1) * w == a * w + w;
    }
  }

  lemma NextColumn(n: nat, w: nat)
    requires w > 0
    ensures (n + 1) % w == if n % w + 1 == w then 0 else n % w + 1
    ensures (n + 1) / w == n / w + if n % w + 1 == w then 1 else 0
  {
    if n % w + 1 == w {
      Division(n + 1, w, n / w + 1, 0);
    } else {
      Division(n + 1, w, n / w, n % w + 1);
    }
  }

  function Lines(n: nat, width: nat): nat {
    if width == 0 then 0 else n / width
  }

  /** Where the new lines are: one after each group of that width, and the text in between. */
  lemma {:induction false} BrokenAt(text: seq<byte>, width: nat, i: nat)
    requires width > 0 && i < |text|
    ensures i + i / width < |Broken(text, width)| && Broken(text, width)[i + i / width] == text[i]
    ensures (i + 1) % width == 0 ==>
              i + i / width + 1 < |Broken(text, width)| && Broken(text, width)[i + i / width + 1] == NEWLINE
  {
    var n := |text| - 1;
    BrokenLength(text, width);
    BrokenLength(text[..n], width);
    NextColumn(n, width);
    if i < n {
      BrokenAt(text[..n], width, i);
    }
  }

  lemma {:induction false} BrokenLength(text: seq<byte>, width: nat)
    ensures |Broken(text, width)| == |text| + Lines(|text|, width)
  {
    if text != [] {
      BrokenLength(text[..|text| - 1], width);
      if width > 0 { NextColumn(|text| - 1, width); }
    } else if width > 0 {
      Division(0, width, 0, 0);
    }
  }

  lemma {:induction false} BrokenGrows(text: seq<byte>, n: nat, width: nat)
    requires n <= |text|
    ensures Broken(text[..n], width) <= Broken(text, width)
  {
    if n == |text| {
      assert text[..n] == text;
    } else {
      var front := text[..|text| - 1];
      assert front[..n] == text[..n];
      BrokenGrows(front, n, width);
    }
  }

  /** A padded text on one line has a multiple of four characters; any text is as long as announced. */
  lemma EncodedLength(data: seq<byte>, width: nat, pad: bool, url: bool)
    ensures |Encoded(data, width, pad, url)| == |Flat(data, pad, url)| + Lines(|Flat(data, pad, url)|, width)
    ensures pad ==> |Flat(data, pad, url)| % 4 == 0
    ensures 3 * |Letters(Sextets(data), url)| >= 4 * |data| > 3 * |Letters(Sextets(data), url)| - 3 || data == []
  {
    BrokenLength(Flat(data, pad, url), width);
  }

  // ----- encoding -----

  /** What the accumulator holds before the character 4q+m, and how many bytes are read. */
  predicate Loaded(data: seq<byte>, q: nat, m: nat, read: nat, u16: bv16) {
    && read <= |data|
    && match m
       case 0 => read == 3 * q
       case 1 => read == 3 * q + 1 && u16 == Octet0(data, 3 * q) as bv16
       case 2 => read == Min(3 * q + 2, |data|) && u16 == Joined(Octet0(data, 3 * q), Octet0(data, 3 * q + 1))
       case _ => read == Min(3 * q + 3, |data|) && u16 == Joined(Octet0(data, 3 * q + 1), Octet0(data, 3 * q + 2))
  }

  function Joined(a: byte, b: byte): bv16 {
    (a as bv16 << 8) | b as bv16
  }

  function Low(u: bv16): byte {
    (u & 255) as byte
  }

  /** The six bits of the accumulator above the given one. */
  function Six(u: bv16, shift: nat): byte
    requires shift <= 16
  {
    Low(u >> shift) & 63
  }

  lemma Shifted(a: byte, b: byte)
    ensures Six(a as bv16, 2) == a >> 2
    ensures Six(Joined(a, b), 4) == ((a & 3) << 4) | (b >> 4)
    ensures Six(Joined(a, b), 6) == ((a & 15) << 2) | (b >> 6)
    ensures Six(Joined(a, b), 0) == b & 63
  {
  }

  lemma Pushed(a: byte, b: byte, c: byte)
    ensures Joined(a, b) << 8 == Joined(b, 0)
    ensures (Joined(a, b) << 8) | c as bv16 == Joined(b, c)
    ensures a as bv16 == Joined(0, a)
  {
  }

  /** The byte that is read, or none, as the next one of the data. */
  function Read(data: seq<byte>, read: nat, u16: bv16): bv16 {
    if read < |data| then (u16 << 8) | data[read] as bv16 else u16 << 8
  }

  lemma Fetched(data: seq<byte>, read: nat, a: byte, b: byte)
    ensures Read(data, read, Joined(a, b)) == Joined(b, Octet0(data, read))
  {
    Pushed(a, b, Octet0(data, read));
    hide Joined;
  }

  lemma SextetAt(data: seq<byte>, q: nat, m: nat)
    requires m < 4
    ensures var (a, b, c) := (Octet0(data, 3 * q), Octet0(data, 3 * q + 1), Octet0(data, 3 * q + 2));
            Sextet(data, 4 * q + m) == Sixth(m, a, b, c)
  {
    hide Octet0;
    RankOf(q, m);
  }

  lemma RankOf(q: nat, m: nat)
    requires m < 4
    ensures (4 * q + m) / 4 == q && (4 * q + m) % 4 == m
  {
  }

  lemma Rank(i: nat)
    ensures i == 4 * (i / 4) + i % 4
    ensures (i + 1) / 4 == if i % 4 == 3 then i / 4 + 1 else i / 4
    ensures (i + 1) % 4 == if i % 4 == 3 then 0 else i % 4 + 1
  {
  }

  lemma Enough(n: nat, q: nat, m: nat)
    requires m < 4 && 4 * q + m < Count(n)
    ensures 3 * q + m <= n && 3 * q < n
  {
  }

  lemma Case0(data: seq<byte>, q: nat, read: nat, acc: bv16)
    requires Loaded(data, q, 0, read, acc) && read < |data|
    ensures Loaded(data, q, 1, read + 1, data[read] as bv16)
    ensures Six(data[read] as bv16, 2) == Sextet(data, 4 * q)
  {
    SextetAt(data, q, 0);
    hide Six, Sextet;
    Shifted(data[read], 0);
  }

  lemma Case1(data: seq<byte>, q: nat, read: nat, acc: bv16)
    requires Loaded(data, q, 1, read, acc)
    ensures Loaded(data, q, 2, Min(read + 1, |data|), Read(data, read, acc))
    ensures Six(Read(data, read, acc), 4) == Sextet(data, 4 * q + 1)
  {
    SextetAt(data, q, 1);
    hide Six, Sextet, Joined, Read;
    var a, b := Octet0(data, 3 * q), Octet0(data, 3 * q + 1);
    Pushed(a, 0, 0);
    Fetched(data, read, 0, a);
    Shifted(a, b);
  }

  lemma Case2(data: seq<byte>, q: nat, read: nat, acc: bv16)
    requires Loaded(data, q, 2, read, acc) && 3 * q + 2 <= |data|
    ensures Loaded(data, q, 3, Min(read + 1, |data|), Read(data, read, acc))
    ensures Six(Read(data, read, acc), 6) == Sextet(data, 4 * q + 2)
  {
    SextetAt(data, q, 2);
    hide Six, Sextet, Joined, Read;
    var a, b, c := Octet0(data, 3 * q), Octet0(data, 3 * q + 1), Octet0(data, 3 * q + 2);
    Fetched(data, read, a, b);
    Shifted(b, c);
  }

  lemma Case3(data: seq<byte>, q: nat, read: nat, acc: bv16)
    requires Loaded(data, q, 3, read, acc) && 3 * q + 3 <= |data|
    ensures Loaded(data, q + 1, 0, read, acc)
    ensures Six(acc, 0) == Sextet(data, 4 * q + 3)
  {
    SextetAt(data, q, 3);
    hide Six, Sextet, Joined;
    Shifted(Octet0(data, 3 * q + 1), Octet0(data, 3 * q + 2));
  }

  /** The `switch` that gets the next six bits. */
  method NextSextet(data: seq<byte>, iout: nat, read: nat, acc: bv16) returns (next: nat, u16: bv16, u8: byte)
    requires iout < Count(|data|) && Ready(data, iout, read, acc)
    ensures Ready(data, iout + 1, next, u16) && u8 == Sextet(data, iout)
  {
    next, u16, u8 := read, acc, 0;
    ghost var q := iout / 4;
    Rank(iout);
    Enough(|data|, q, iout % 4);
    LoadedHead(data, q, iout % 4, read, acc);
    hide Count, Sextet, Loaded, Octet0, Six, Read, Ready;
    if iout % 4 == 0 {
      Case0(data, q, read, acc);
      u16 := data[next] as bv16;
      next := next + 1;
      u8 := Six(u16, 2);
    } else if iout % 4 == 1 {
      Case1(data, q, read, acc);
      next, u16 := Fetch(data, next, u16);
      u8 := Six(u16, 4);
    } else if iout % 4 == 2 {
      Case2(data, q, read, acc);
      next, u16 := Fetch(data, next, u16);
      u8 := Six(u16, 6);
    } else {
      Case3(data, q, read, acc);
      u8 := Six(u16, 0);
    }
    IsReady(data, iout + 1, next, u16);
  }

  /** Makes room in the accumulator for one more byte, if there is one. */
  method Fetch(data: seq<byte>, read: nat, acc: bv16) returns (next: nat, u16: bv16)
    requires read <= |data|
    ensures next == Min(read + 1, |data|) && u16 == Read(data, read, acc)
  {
    next, u16 := read, acc << 8;
    if next < |data| {
      u16 := u16 | data[next] as bv16;
      next := next + 1;
    }
  }

  predicate Ready(data: seq<byte>, i: nat, read: nat, u16: bv16) {
    Loaded(data, i / 4, i % 4, read, u16)
  }

  lemma IsReady(data: seq<byte>, i: nat, read: nat, u16: bv16)
    ensures Ready(data, i, read, u16) <==> Loaded(data, i / 4, i % 4, read, u16)
  {
  }

  lemma LoadedHead(data: seq<byte>, q: nat, m: nat, read: nat, u16: bv16)
    requires Loaded(data, q, m, read, u16)
    ensures read <= |data| && (m == 0 ==> read == 3 * q)
  {
  }

  /** The first n characters of the text are written, and their new lines. */
  ghost predicate Written(result: array<byte>, text: seq<byte>, width: nat, n: nat, out: nat, iw: nat)
    reads result
  {
    && n <= |text| && |Broken(text, width)| < result.Length
    && out == |Broken(text[..n], width)| < result.Length && result[..out] == Broken(text[..n], width)
    && iw == if width == 0 then 0 else width - n % width
  }

  /** One more character, and the new line that may follow it. */
  method Put(result: array<byte>, c: byte, width: nat, at: nat, column: nat, ghost text: seq<byte>, ghost n: nat)
    returns (out: nat, iw: nat)
    requires n < |text| && c == text[n] && Written(result, text, width, n, at, column)
    modifies result
    ensures Written(result, text, width, n + 1, out, iw)
  {
    assert text[..n + 1][..n] == text[..n];
    BrokenGrows(text, n + 1, width);
    if width > 0 { NextColumn(n, width); }
    result[at] := c;
    assert result[..at + 1] == Broken(text[..n], width) + [c];
    out, iw := at + 1, column;
    if iw != 0 {
      iw := iw - 1;
      if iw == 0 {
        result[out] := NEWLINE;
        assert result[..out + 1] == Broken(text[..n], width) + [c] + [NEWLINE];
        out := out + 1;
        iw := width;
      }
    }
  }

  /** The lengths computed before writing. */
  method Measure(datalen: nat, width: nat, pad: bool) returns (nout: nat, rlen: int)
    ensures nout == Count(datalen)
    ensures rlen == nout + |Pads(nout, pad)| + Lines(nout + |Pads(nout, pad)|, width)
  {
    hide Pads;
    var n3, r3 := datalen / 3, datalen % 3;
    nout := 4 * n3 + r3 + if r3 != 0 then 1 else 0;
    PadsLength(nout, pad);
    rlen := nout;
    if pad {
      rlen := rlen + (4 - rlen % 4) % 4;
    }
    if width != 0 {
      rlen := rlen + rlen / width;
    }
  }

  lemma Start(result: array<byte>, text: seq<byte>, width: nat)
    requires |Broken(text, width)| < result.Length
    ensures Written(result, text, width, 0, 0, width)
  {
    assert text[..0] == [];
    if width > 0 { Division(0, width, 0, 0); }
  }

  lemma Finish(result: array<byte>, text: seq<byte>, width: nat, n: nat, out: nat, iw: nat)
    requires Written(result, text, width, n, out, iw)
    ensures out == |Broken(text, width)| <==> n == |text|
    ensures out <= |Broken(text, width)|
    ensures n == |text| ==> out < result.Length && result[..out] == Broken(text, width)
  {
    BrokenLength(text, width);
    BrokenLength(text[..n], width);
    BrokenGrows(text, n, width);
    if n == |text| {
      assert text[..n] == text;
    } else {
      assert text[..n + 1][..n] == text[..n];
      BrokenGrows(text, n + 1, width);
    }
  }

  /** The letters of the data. */
  method PutLetters(data: seq<byte>, result: array<byte>, width: nat, pad: bool, url: bool, nout: nat)
    returns (out: nat, iw: nat)
    requires nout == Count(|data|) && |Encoded(data, width, pad, url)| < result.Length
    modifies result
    ensures Written(result, Flat(data, pad, url), width, nout, out, iw)
  {
    ghost var text := Flat(data, pad, url);
    FlatAt(data, pad, url);
    Start(result, text, width);
    First(data);
    hide Broken, Written, Ready, Sextet, Letter, Flat, Count, Encoded;
    var read: nat, u16: bv16, iout := 0, 0, 0;
    out, iw := 0, width;
    while iout < nout
      invariant 0 <= iout <= nout && Written(result, text, width, iout, out, iw)
      invariant Ready(data, iout, read, u16)
    {
      var u8;
      read, u16, u8 := NextSextet(data, iout, read, u16);
      out, iw := Put(result, Letter(u8, url), width, out, iw, text, iout);
      iout := iout + 1;
    }
  }

  /** The padding, up to the end. */
  method PutPads(result: array<byte>, width: nat, at: nat, column: nat, rlen: nat, ghost text: seq<byte>, ghost n: nat)
    returns (out: nat)
    requires Written(result, text, width, n, at, column) && rlen == |Broken(text, width)|
    requires forall i | n <= i < |text| :: text[i] == PAD
    modifies result
    ensures out == rlen < result.Length && result[..rlen] == Broken(text, width)
  {
    out := at;
    var iw := column;
    ghost var k := n;
    Finish(result, text, width, k, out, iw);
    hide Broken, Written;
    while out < rlen
      invariant n <= k <= |text| && Written(result, text, width, k, out, iw)
      invariant out <= rlen && (out == rlen <==> k == |text|)
      decreases |text| - k
    {
      out, iw := Put(result, PAD, width, out, iw, text, k);
      k := k + 1;
      Finish(result, text, width, k, out, iw);
    }
    Finish(result, text, width, k, out, iw);
  }

  /** The text fills exactly the announced length, and a null follows it. */
  method Encode(data: seq<byte>, width: nat, pad: bool, url: bool) returns (encoded: array<byte>, encodedlen: nat)
    ensures fresh(encoded) && encoded.Length == encodedlen + 1 && encoded[encodedlen] == 0
    ensures encoded[..encodedlen] == Encoded(data, width, pad, url)
  {
    hide Flat, Broken, Written, Count, Lines, Pads, Letter, Sextet;
    var nout, rlen := Measure(|data|, width, pad);
    Announced(data, width, pad, url);
    FlatAt(data, pad, url);
    encoded := new byte[rlen + 1];
    var out, iw := PutLetters(data, encoded, width, pad, url, nout);
    out := PutPads(encoded, width, out, iw, rlen, Flat(data, pad, url), nout);
    encoded[out] := 0;
    encodedlen := rlen;
  }

  lemma Announced(data: seq<byte>, width: nat, pad: bool, url: bool)
    ensures var n := Count(|data|) + |Pads(Count(|data|), pad)|;
            |Encoded(data, width, pad, url)| == n + Lines(n, width)
  {
    EncodedLength(data, width, pad, url);
  }

  lemma First(data: seq<byte>)
    ensures Ready(data, 0, 0, 0)
  {
  }

  lemma FlatAt(data: seq<byte>, pad: bool, url: bool)
    ensures |Flat(data, pad, url)| >= Count(|data|)
    ensures forall i | 0 <= i < Count(|data|) :: Flat(data, pad, url)[i] == Letter(Sextet(data, i), url)
    ensures forall i | Count(|data|) <= i < |Flat(data, pad, url)| :: Flat(data, pad, url)[i] == PAD
  {
  }

  // ----- decoding -----

  /** The values of the characters; new lines count for nothing. */
  function Values(text: seq<byte>, mode: int): (r: Option<seq<byte>>)
    ensures r.Some? ==> |r.value| <= |text| && forall i | 0 <= i < |r.value| :: r.value[i] < 64
  {
    if text == [] then Some([])
    else
      var c := text[|text| - 1];
      match Values(text[..|text| - 1], mode)
      case None => None
      case Some(vs) =>
        if c == NEWLINE || c == RETURN then Some(vs)
        else match Value(c, mode)
          case None => None
          case Some(v) => Some(vs + [v])
  }

  /** Where the padding starts. */
  function PadAt(text: seq<byte>): (n: nat)
    ensures n <= |text| && (n < |text| ==> text[n] == PAD) && forall i | 0 <= i < n :: text[i] != PAD
  {
    if text == [] || text[0] == PAD then 0 else 1 + PadAt(text[1..])
  }

  predicate Filling(text: seq<byte>) {
    forall i | 0 <= i < |text| :: text[i] == PAD || text[i] == NEWLINE || text[i] == RETURN
  }

  /** The bytes that complete values: three for four, and the bits left are dropped. */
  lemma {:induction false} OctetsLength(values: seq<byte>)
    ensures |Octets4(values)| == |values| * 3 / 4
  {
    if values != [] {
      var n := |values| - 1;
      OctetsLength(values[..n]);
      CompletedSize(n % 4, if n > 0 then values[n - 1] else 0, values[n]);
      hide Completed;
      ThreeForFour(n);
    }
  }

  lemma CompletedSize(m: nat, before: byte, v: byte)
    requires m < 4
    ensures |Completed(m, before, v)| == if m == 0 then 0 else 1
  {
  }

  lemma ThreeForFour(n: nat)
    ensures (n + 1) * 3 / 4 == n * 3 / 4 + if n % 4 == 0 then 0 else 1
  {
  }

  /** A text has values exactly when each of its characters has one, or is the end of a line. */
  lemma {:induction false} ValuesSome(text: seq<byte>, mode: int)
    ensures Values(text, mode).Some? <==>
              forall i | 0 <= i < |text| :: text[i] == NEWLINE || text[i] == RETURN || Value(text[i], mode).Some?
  {
    hide Value;
    if text != [] { ValuesSome(text[..|text| - 1], mode); }
  }

  /** What a text means: known characters up to the padding, and only padding after. */
  function Decoded(text: seq<byte>, mode: int): Option<seq<byte>> {
    var n := PadAt(text);
    match Values(text[..n], mode)
    case None => None
    case Some(vs) => if Filling(text[n..]) then Some(Octets4(vs)) else None
  }

  lemma {:induction false} ValuesPrefix(text: seq<byte>, n: nat, mode: int)
    requires n <= |text| && Values(text[..n], mode) == None
    ensures Values(text, mode) == None
    decreases |text|
  {
    if n == |text| {
      assert text[..n] == text;
    } else {
      assert text[..|text| - 1][..n] == text[..n];
      ValuesPrefix(text[..|text| - 1], n, mode);
    }
  }

  lemma PadAtIs(text: seq<byte>, n: nat)
    requires n <= |text| && (n < |text| ==> text[n] == PAD) && PAD !in text[..n]
    ensures PadAt(text) == n
  {
    forall i | 0 <= i < n ensures text[i] != PAD { assert text[..n][i] == text[i]; }
  }

  /** A text means something exactly when its characters before the first pad have a value or end a line, and only padding follows. */
  lemma DecodedSome(text: seq<byte>, mode: int)
    ensures Decoded(text, mode).Some? <==>
              && (forall i | 0 <= i < PadAt(text) :: text[i] == NEWLINE || text[i] == RETURN || Value(text[i], mode).Some?)
              && (forall i | PadAt(text) <= i < |text| :: text[i] == PAD || text[i] == NEWLINE || text[i] == RETURN)
  {
    hide PadAt, Value, Values, Filling, Octets4;
    var n := PadAt(text);
    ValuesSome(text[..n], mode);
    FillingFrom(text, n);
    assert forall i | 0 <= i < n :: text[..n][i] == text[i];
  }

  lemma FillingFrom(text: seq<byte>, n: nat)
    requires n <= |text|
    ensures Filling(text[n..]) <==> forall i | n <= i < |text| :: text[i] == PAD || text[i] == NEWLINE || text[i] == RETURN
  {
    assert forall i | n <= i < |text| :: text[n..][i - n] == text[i];
  }

  lemma DecodedEmpty()
    ensures Decoded([], 0) == Some([])
  {
  }

  // ----- round trip -----

  lemma ValuesStep(front: seq<byte>, c: byte, values: seq<byte>, mode: int)
    requires Values(front, mode) == Some(values)
    ensures c == NEWLINE || c == RETURN ==> Values(front + [c], mode) == Some(values)
    ensures c != NEWLINE && c != RETURN && Value(c, mode).Some? ==>
              Values(front + [c], mode) == Some(values + [Value(c, mode).value])
  {
    hide Value;
    assert (front + [c])[..|front|] == front;
  }

  lemma LettersStep(values: seq<byte>, width: nat, url: bool)
    requires values != []
    ensures var n := |values| - 1;
            Broken(Letters(values, url), width) ==
              Broken(Letters(values[..n], url), width) + [Letter(values[n], url)] +
              if width > 0 && (n + 1) % width == 0 then [NEWLINE] else []
  {
    hide Letter;
    var n := |values| - 1;
    assert Letters(values, url)[..n] == Letters(values[..n], url);
  }

  lemma {:induction false} ValuesOfLetters(values: seq<byte>, width: nat, url: bool, mode: int)
    requires Compatible(url, mode) && forall i | 0 <= i < |values| :: values[i] < 64
    ensures Values(Broken(Letters(values, url), width), mode) == Some(values)
    ensures PAD !in Broken(Letters(values, url), width)
  {
    if values != [] {
      var n := |values| - 1;
      ValuesOfLetters(values[..n], width, url, mode);
      LetterValue(values[n], url, mode);
      hide Letter, Letters, Value, Values, Broken, Compatible;
      LettersStep(values, width, url);
      var front := Broken(Letters(values[..n], url), width);
      LineRead(front, Letter(values[n], url), width > 0 && (n + 1) % width == 0, values[..n], values[n], mode);
      Whole(values);
    }
  }

  lemma Whole<T>(s: seq<T>)
    requires s != []
    ensures s == s[..|s| - 1] + [s[|s| - 1]]
  {
  }

  /** One more letter, at the end of a line or not. */
  lemma LineRead(front: seq<byte>, c: byte, full: bool, values: seq<byte>, v: byte, mode: int)
    requires Values(front, mode) == Some(values) && Value(c, mode) == Some(v)
    requires c != PAD && c != NEWLINE && c != RETURN && PAD !in front
    ensures var text := front + [c] + if full then [NEWLINE] else [];
            Values(text, mode) == Some(values + [v]) && PAD !in text
  {
    hide Value, Values;
    ValuesStep(front, c, values, mode);
    if full {
      ValuesStep(front + [c], NEWLINE, values + [v], mode);
    } else {
      assert front + [c] + [] == front + [c];
    }
  }

  /** What padding adds to a broken text. */
  lemma {:induction false} BrokenPads(text: seq<byte>, pads: seq<byte>, width: nat) returns (rest: seq<byte>)
    requires forall i | 0 <= i < |pads| :: pads[i] == PAD
    ensures Broken(text + pads, width) == Broken(text, width) + rest
    ensures Filling(rest) && (rest != [] ==> rest[0] == PAD)
    decreases |pads|
  {
    if pads == [] {
      rest := [];
      assert text + pads == text;
    } else {
      var n := |pads| - 1;
      var before := BrokenPads(text, pads[..n], width);
      var line := if width > 0 && |text + pads| % width == 0 then [NEWLINE] else [];
      hide Broken;
      assert text + pads == text + pads[..n] + [PAD];
      BrokenSnoc(text + pads[..n], PAD, width);
      hide Filling;
      rest := before + ([PAD] + line);
      Joined4(Broken(text, width), before, [PAD], line);
      FillingJoin(before, [PAD] + line);
    }
  }

  lemma Joined4(a: seq<byte>, b: seq<byte>, c: seq<byte>, d: seq<byte>)
    ensures a + b + c + d == a + (b + (c + d))
  {
  }

  lemma FillingJoin(a: seq<byte>, b: seq<byte>)
    requires Filling(a) && Filling(b)
    ensures Filling(a + b)
  {
  }

  lemma BrokenSnoc(text: seq<byte>, c: byte, width: nat)
    ensures Broken(text + [c], width) ==
              Broken(text, width) + [c] + if width > 0 && |text + [c]| % width == 0 then [NEWLINE] else []
  {
    assert (text + [c])[..|text|] == text;
  }

  lemma SextetsSmall(data: seq<byte>)
    ensures forall i | 0 <= i < |Sextets(data)| :: Sextets(data)[i] < 64
  {
    forall i | 0 <= i < |Sextets(data)| ensures Sextet(data, i) < 64 {
      Small(Octet0(data, i / 4 * 3), Octet0(data, i / 4 * 3 + 1), Octet0(data, i / 4 * 3 + 2));
    }
  }

  lemma Small(a: byte, b: byte, c: byte)
    ensures a >> 2 < 64 && ((a & 3) << 4) | (b >> 4) < 64 && ((b & 15) << 2) | (c >> 6) < 64 && c & 63 < 64
  {
  }

  /** For all data, widths and paddings, decoding with a compatible alphabet gives the data back. */
  lemma RoundTrip(data: seq<byte>, width: nat, pad: bool, url: bool, mode: int)
    requires Compatible(url, mode)
    ensures Decoded(Encoded(data, width, pad, url), mode) == Some(data)
  {
    hide Sextet, Letter, Value;
    var values := Sextets(data);
    SextetsSmall(data);
    SextetsRoundTrip(data);
    ValuesOfLetters(values, width, url, mode);
    var front := Broken(Letters(values, url), width);
    var rest := BrokenPads(Letters(values, url), Pads(Count(|data|), pad), width);
    var text := Encoded(data, width, pad, url);
    assert text == front + rest;
    PadAtIs(text, |front|);
    assert text[..|front|] == front && text[|front|..] == rest;
  }

  // ----- the decoder -----

  /** The last value in the accumulator, and the byte above the bits that remain. */
  function Last(u: bv16): byte {
    Low(u) & 63
  }

  function Above(u: bv16, iin: nat): byte
    requires iin <= 16
  {
    Low(u >> iin)
  }

  function Push(u: bv16, v: byte): bv16 {
    (u << 6) | v as bv16
  }

  /** What the decoder holds once it has read some values. */
  predicate Holds(values: seq<byte>, u16: bv16, iin: nat) {
    match |values| % 4
    case 0 => iin == 0
    case 1 => iin == 6 && Last(u16) == values[|values| - 1]
    case 2 => iin == 4 && Last(u16) == values[|values| - 1]
    case _ => iin == 2 && Last(u16) == values[|values| - 1]
  }

  lemma Gathered(u: bv16, v: byte)
    requires v < 64
    ensures Last(Push(u, v)) == v && Last(v as bv16) == v
    ensures [Above(Push(u, v), 4)] == Completed(1, Last(u), v)
    ensures [Above(Push(u, v), 2)] == Completed(2, Last(u), v)
    ensures [Above(Push(u, v), 0)] == Completed(3, Last(u), v)
  {
  }

  /** One more value: at most one byte comes out. */
  method Accept(acc: bv16, before: nat, v: byte, ghost values: seq<byte>) returns (u16: bv16, iin: nat, bytes: seq<byte>)
    requires Holds(values, acc, before) && v < 64
    ensures Holds(values + [v], u16, iin)
    ensures Octets4(values + [v]) == Octets4(values) + bytes && |bytes| <= 1
  {
    LastOctet(values, v);
    HoldsNext(values, acc, before, v);
    hide Holds, Last, Above, Push, Octets4, Completed;
    if before == 0 {
      u16, iin, bytes := v as bv16, 6, [];
    } else {
      u16, iin := Push(acc, v), before - 2;
      bytes := [Above(u16, iin)];
    }
  }

  /** The bits kept, and the byte that the next value completes. */
  lemma HoldsNext(values: seq<byte>, acc: bv16, before: nat, v: byte)
    requires Holds(values, acc, before) && v < 64
    ensures before == 0 || 2 <= before <= 6
    ensures var last := if values != [] then values[|values| - 1] else 0;
            && (before == 0 ==> Holds(values + [v], v as bv16, 6) && Completed(|values| % 4, last, v) == [])
            && (before > 0 ==>
                  && Holds(values + [v], Push(acc, v), before - 2)
                  && Completed(|values| % 4, last, v) == [Above(Push(acc, v), before - 2)])
  {
    hide Last, Above, Push, Completed;
    NextRank(|values|);
    Gathered(acc, v);
    Silent(v);
    var after := values + [v];
    assert |after| == |values| + 1 && after[|after| - 1] == v;
  }

  lemma Silent(v: byte)
    ensures forall before :: Completed(0, before, v) == []
  {
  }

  lemma NextRank(n: nat)
    ensures (n + 1) % 4 == if n % 4 == 3 then 0 else n % 4 + 1
  {
  }

  lemma LastOctet(values: seq<byte>, v: byte)
    ensures Octets4(values + [v]) ==
              Octets4(values) + Completed(|values| % 4, if values != [] then values[|values| - 1] else 0, v)
  {
    hide Completed;
    assert (values + [v])[..|values|] == values;
  }

  /** The characters before a position are read, and their bytes are written. */
  ghost predicate Done(data: seq<byte>, url: int, result: array<byte>, at: nat, out: nat, values: seq<byte>)
    reads result
  {
    && at <= |data| < result.Length && PAD !in data[..at]
    && Values(data[..at], url) == Some(values)
    && out <= at && result[..out] == Octets4(values)
  }

  /** One character. */
  method Feed(data: seq<byte>, url: int, result: array<byte>, at: nat, n: nat, acc: bv16, before: nat,
      ghost seen: seq<byte>)
    returns (ok: bool, out: nat, u16: bv16, iin: nat, ghost values: seq<byte>)
    requires Done(data, url, result, at, n, seen) && Holds(seen, acc, before)
    requires at < |data| && data[at] != PAD
    modifies result
    ensures !ok ==> Decoded(data, url) == None
    ensures ok ==> Done(data, url, result, at + 1, out, values) && Holds(values, u16, iin)
  {
    hide Octets4, Value, Values, Holds, Decoded;
    var c := data[at];
    ok, out, u16, iin, values := true, n, acc, before, seen;
    assert data[..at + 1] == data[..at] + [c];
    ValuesStep(data[..at], c, values, url);
    if c != NEWLINE && c != RETURN {
      var v := Value(c, url);
      if v == None {
        Refused(data, at, url, values);
        ok := false;
        return;
      }
      ValueSmall(c, url);
      var bytes;
      u16, iin, bytes := Accept(acc, before, v.value, values);
      out := Store(result, out, bytes);
      values := values + [v.value];
    }
  }

  /** The first loop: the characters before the padding, written as bytes. */
  method DecodeHead(data: seq<byte>, url: int, result: array<byte>) returns (ok: bool, at: nat, out: nat,
      ghost values: seq<byte>)
    requires result.Length > |data|
    modifies result
    ensures !ok ==> Decoded(data, url) == None
    ensures ok ==> Done(data, url, result, at, out, values) && (at < |data| ==> data[at] == PAD)
  {
    var u16: bv16, iin: nat := 0, 0;
    ok, at, out, values := true, 0, 0, [];
    assert data[..0] == [];
    while at < |data| && data[at] != PAD
      invariant Done(data, url, result, at, out, values) && Holds(values, u16, iin) && ok
      decreases |data| - at
    {
      hide Done, Holds, Decoded;
      ok, out, u16, iin, values := Feed(data, url, result, at, out, u16, iin, values);
      if !ok {
        return;
      }
      at := at + 1;
    }
  }

  method Store(result: array<byte>, at: nat, bytes: seq<byte>) returns (out: nat)
    requires at < result.Length && |bytes| <= 1
    modifies result
    ensures out == at + |bytes| && result[..out] == old(result[..at]) + bytes
  {
    out := at;
    if bytes != [] {
      result[out] := bytes[0];
      out := out + 1;
    }
  }

  /** Any text, well formed or not; the buffer is cut to the bytes and ends with a null. */
  method Decode(data: seq<byte>, url: int) returns (rc: int, decoded: array<byte>, decodedlen: nat)
    ensures rc == if Decoded(data, url).Some? then 0 else INVALID
    ensures rc == 0 ==>
              && decoded.Length == decodedlen + 1 && decoded[decodedlen] == 0
              && Decoded(data, url) == Some(decoded[..decodedlen])
  {
    var result := new byte[|data| + 1];
    rc, decoded, decodedlen := INVALID, result, 0;
    var ok, at, out, values := DecodeHead(data, url, result);
    if !ok {
      return;
    }
    PadAtIs(data, at);
    ghost var start := at;
    while at < |data|
      invariant start <= at <= |data| && Filling(data[start..at])
    {
      var c := data[at];
      assert data[start..][at - start] == c;
      if c != PAD && c != NEWLINE && c != RETURN {
        return;
      }
      assert data[start..at + 1] == data[start..at] + [c];
      at := at + 1;
    }
    assert data[start..at] == data[start..];
    rc, decodedlen := 0, out;
    decoded := Shortened(result, out);
  }

  /** The buffer is cut, and a null put at its end. */
  method Shortened(result: array<byte>, out: nat) returns (decoded: array<byte>)
    requires out < result.Length
    ensures fresh(decoded) && decoded.Length == out + 1 && decoded[out] == 0 && decoded[..out] == result[..out]
  {
    decoded := new byte[out + 1];
    forall i | 0 <= i < out { decoded[i] := result[i]; }
    decoded[out] := 0;
  }

  lemma ValueSmall(c: byte, url: int)
    requires Value(c, url).Some?
    ensures Value(c, url).value < 64
  {
  }

  lemma Refused(data: seq<byte>, at: nat, mode: int, values: seq<byte>)
    requires at < |data| && PAD !in data[..at] && data[at] != PAD && Values(data[..at], mode) == Some(values)
    requires data[at] != NEWLINE && data[at] != RETURN && Value(data[at], mode) == None
    ensures Decoded(data, mode) == None
  {
    hide Value;
    var n := PadAt(data);
    assert data[..at + 1][..at] == data[..at];
    assert Values(data[..at + 1], mode) == None;
    forall i | 0 <= i < at ensures data[i] != PAD { assert data[..at][i] == data[i]; }
    assert n > at;
    assert data[..n][..at + 1] == data[..at + 1];
    ValuesPrefix(data[..n], at + 1, mode);
  }

  // ----- the vectors of section 10 of RFC 4648 -----

  const FOOBAR: seq<byte> := [0x66, 0x6f, 0x6f, 0x62, 0x61, 0x72]

  lemma Foobar()
    ensures Sextets(FOOBAR) == [25, 38, 61, 47, 24, 38, 5, 50]
    ensures Sextets(FOOBAR[..5]) == [25, 38, 61, 47, 24, 38, 4]
    ensures Sextets(FOOBAR[..4]) == [25, 38, 61, 47, 24, 32]
  {
  }

  /** "foobar" is Zm9vYmFy, "fooba" is Zm9vYmE=, "foob" is Zm9vYg==. */
  lemma Vectors()
    ensures Encoded(FOOBAR, 0, true, false) == [0x5a, 0x6d, 0x39, 0x76, 0x59, 0x6d, 0x46, 0x79]
    ensures Encoded(FOOBAR[..5], 0, true, false) == [0x5a, 0x6d, 0x39, 0x76, 0x59, 0x6d, 0x45, 0x3d]
    ensures Encoded(FOOBAR[..4], 0, true, false) == [0x5a, 0x6d, 0x39, 0x76, 0x59, 0x67, 0x3d, 0x3d]
  {
    hide Sextets, Broken, Flat;
    Foobar();
    Spelled(FOOBAR, [25, 38, 61, 47, 24, 38, 5, 50], [0x5a, 0x6d, 0x39, 0x76, 0x59, 0x6d, 0x46, 0x79]);
    Spelled(FOOBAR[..5], [25, 38, 61, 47, 24, 38, 4], [0x5a, 0x6d, 0x39, 0x76, 0x59, 0x6d, 0x45]);
    Spelled(FOOBAR[..4], [25, 38, 61, 47, 24, 32], [0x5a, 0x6d, 0x39, 0x76, 0x59, 0x67]);
  }

  lemma Spelled(data: seq<byte>, values: seq<byte>, letters: seq<byte>)
    requires Sextets(data) == values && |letters| == |values|
    requires forall i | 0 <= i < |values| :: letters[i] == Letter(values[i], false)
    ensures Encoded(data, 0, true, false) == letters + Pads(Count(|data|), true)
  {
    hide Sextets, Letter, Broken, Pads;
    assert Letters(values, false) == letters;
    Unbroken(Flat(data, true, false));
  }

  lemma {:induction false} Unbroken(text: seq<byte>)
    ensures Broken(text, 0) == text
  {
    if text != [] { Unbroken(text[..|text| - 1]); }
  }
}
