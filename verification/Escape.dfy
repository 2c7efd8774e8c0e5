/**
 Percent-encoding (section 2.1 of RFC 3986, with + for the space) of URLs and of lists of arguments.
 */
module Escape {
  import opened Bounded
  import opened Bytes
  import opened Wrappers


  const SPACE: byte := 32
  const PERCENT: byte := 37
  const AND: byte := 38
  const PLUS: byte := 43
  const SLASH: byte := 47
  const EQUAL: byte := 61
  const QUESTION: byte := 63

  // ----- characters -----

  predicate ShouldEscape(c: byte) {
    if c <= 90 then
      if c < 48 then c != 45 && c != 46 else c < 65 && c > 57
    else
      if c <= 122 then c < 97 && c != 95 else c != 126
  }

  /** The unreserved set of section 2.3 of RFC 3986: letters, digits, hyphen, period, underscore, tilde. */
  predicate Unreserved(c: byte) {
    65 <= c <= 90 || 97 <= c <= 122 || 48 <= c <= 57 || c == 45 || c == 46 || c == 95 || c == 126
  }

  lemma EscapesTheReserved(c: byte)
    ensures ShouldEscape(c) <==> !Unreserved(c)
  {
  }

  function Hex(d: byte): byte
    requires d < 16
  {
    if d < 10 then d + 48 else d + 55
  }

  function Binary(c: byte): Option<byte> {
    if c <= 70 then
      if c <= 57 then (if c >= 48 then Some(c - 48) else None)
      else if c >= 65 then Some(c - 55) else None
    else if 97 <= c <= 102 then Some(c - 87) else None
  }

  lemma HexBinary(d: byte)
    requires d < 16
    ensures Binary(Hex(d)) == Some(d) && Unreserved(Hex(d))
  {
  }

  /** Upper case digits are written, and those of both cases are read, and no other character. */
  lemma BinaryOnly(c: byte)
    ensures Binary(c).Some? <==> 48 <= c <= 57 || 65 <= c <= 70 || 97 <= c <= 102
    ensures Binary(c).Some? ==>
              && Binary(c).value < 16
              && c == (if c <= 57 then 48 + Binary(c).value else if c <= 70 then 55 + Binary(c).value else 87 + Binary(c).value)
              && (Hex(Binary(c).value) == c <==> c <= 70)
  {
  }

  // ----- meanings -----

  function Escape1(c: byte): (r: text)
    ensures |r| == if c != SPACE && ShouldEscape(c) then 3 else 1
  {
    if c == SPACE then [PLUS]
    else if ShouldEscape(c) then Nibbles(c); [PERCENT, Hex(c >> 4), Hex(c & 15)]
    else [c]
  }

  function Escaped(t: text): text {
    if t == [] then [] else Escape1(t[0]) + Escaped(t[1..])
  }

  predicate Malformed(t: text)
    requires t != [] && t[0] == PERCENT
  {
    |t| < 3 || Binary(t[1]) == None || Binary(t[2]) == None
  }

  /** The meaning of a text: it stops before the first malformed percent. */
  function Unescaped(t: text): text {
    if t == [] then []
    else if t[0] != PERCENT then [if t[0] == PLUS then SPACE else t[0]] + Unescaped(t[1..])
    else if Malformed(t) then []
    else [(Binary(t[1]).value << 4) | Binary(t[2]).value] + Unescaped(t[3..])
  }

  /** How much of it has a meaning. */
  function Usable(t: text): (n: nat)
    ensures n <= |t|
  {
    if t == [] then 0
    else if t[0] != PERCENT then 1 + Usable(t[1..])
    else if Malformed(t) then 0
    else 3 + Usable(t[3..])
  }

  /** Where nothing special is written. */
  predicate Plain(t: text) {
    AND !in t && EQUAL !in t && QUESTION !in t
  }

  lemma Escape1Back(c: byte, rest: text)
    ensures Unescaped(Escape1(c) + rest) == [c] + Unescaped(rest)
    ensures Usable(Escape1(c) + rest) == |Escape1(c)| + Usable(rest)
    ensures Plain(Escape1(c))
  {
    if c != SPACE && ShouldEscape(c) {
      Nibbles(c);
      Percent(c >> 4, c & 15, rest);
    } else {
      assert (Escape1(c) + rest)[1..] == rest;
    }
  }

  lemma Percent(high: byte, low: byte, rest: text)
    requires high < 16 && low < 16
    ensures var e := [PERCENT, Hex(high), Hex(low)];
            && Unescaped(e + rest) == [(high << 4) | low] + Unescaped(rest)
            && Usable(e + rest) == 3 + Usable(rest) && Plain(e)
  {
    HexBinary(high);
    HexBinary(low);
    hide Hex, Binary;
    var t := [PERCENT, Hex(high), Hex(low)] + rest;
    assert t[0] == PERCENT && t[1] == Hex(high) && t[2] == Hex(low) && t[3..] == rest;
  }

  /** "a b/" followed by the two bytes of an accented e: the space becomes a plus, and the rest as section 2.1 says. */
  lemma Example()
    ensures Escaped([0x61, 0x20, 0x62, 0x2f, 0xc3, 0xa9])
         == [0x61, 0x2b, 0x62, 0x25, 0x32, 0x46, 0x25, 0x43, 0x33, 0x25, 0x41, 0x39]
  {
    Escaped3(0x61, 0x20, 0x62, [0x2f, 0xc3, 0xa9]);
    Escaped3(0x2f, 0xc3, 0xa9, []);
    assert [0x61, 0x20, 0x62] + [0x2f, 0xc3, 0xa9] == [0x61, 0x20, 0x62, 0x2f, 0xc3, 0xa9];
    assert [0x2f, 0xc3, 0xa9] + [] == [0x2f, 0xc3, 0xa9];
    assert Escaped([]) == [];
    hide Escaped;
    Ones();
    hide Escape1;
  }

  lemma Ones()
    ensures Escape1(0x61) == [0x61] && Escape1(0x20) == [0x2b] && Escape1(0x62) == [0x62]
    ensures Escape1(0x2f) == [0x25, 0x32, 0x46] && Escape1(0xc3) == [0x25, 0x43, 0x33] && Escape1(0xa9) == [0x25, 0x41, 0x39]
  {
  }

  lemma Escaped3(a: byte, b: byte, c: byte, rest: text)
    ensures Escaped([a, b, c] + rest) == Escape1(a) + Escape1(b) + Escape1(c) + Escaped(rest)
  {
    hide Escape1;
    var t := [a, b, c] + rest;
    assert t[1..][1..][1..] == rest;
    assert Escaped(t[1..]) == Escape1(b) + Escaped(t[1..][1..]);
    assert Escaped(t[1..][1..]) == Escape1(c) + Escaped(rest);
  }

  /** Any text comes back from its escaped form, which has no separator and is well formed to its end. */
  lemma {:induction false} EscapedBack(t: text)
    ensures Unescaped(Escaped(t)) == t && Plain(Escaped(t)) && Usable(Escaped(t)) == |Escaped(t)|
  {
    if t != [] {
      EscapedBack(t[1..]);
      Escape1Back(t[0], Escaped(t[1..]));
      assert t == [t[0]] + t[1..];
    }
  }

  // ----- writing -----

  /** Escapes at the end of what is written; the length is the one of the whole, even if it does not fit. */
  method EscapeTo(itext: text, buffer: array<byte>, length: nat, l: nat, ghost t: text) returns (r: nat)
    requires Shows(buffer, length, t) && l == |t|
    modifies buffer
    ensures Shows(buffer, length, t + Escaped(itext)) && r == |t + Escaped(itext)|
    ensures r < length ==> buffer[r] == 0
    ensures forall i | length <= i < buffer.Length :: buffer[i] == old(buffer[i])
  {
    r := l;
    var i := 0;
    ghost var now := t;
    assert itext[0..] == itext;
    while i < |itext|
      invariant 0 <= i <= |itext| && Shows(buffer, length, now) && r == |now|
      invariant now + Escaped(itext[i..]) == t + Escaped(itext)
      invariant forall i | length <= i < buffer.Length :: buffer[i] == old(buffer[i])
    {
      hide Escaped, Shows, Escape1, Hex, ShouldEscape;
      r := EscapeOne(itext[i], buffer, length, r, now);
      EscapedStep(itext, i);
      assert (now + Escape1(itext[i])) + Escaped(itext[i + 1..]) == now + (Escape1(itext[i]) + Escaped(itext[i + 1..]));
      now := now + Escape1(itext[i]);
      i := i + 1;
    }
    assert now + [] == now;
    hide Shows, Escaped;
    PutEnd(buffer, length, r, now);
  }

  /** The null that ends what is written, if there is room. */
  method PutEnd(buffer: array<byte>, length: nat, l: nat, ghost t: text)
    requires Shows(buffer, length, t) && l == |t|
    modifies buffer
    ensures Shows(buffer, length, t) && (l < length ==> buffer[l] == 0)
    ensures forall i | length <= i < buffer.Length :: buffer[i] == old(buffer[i])
  {
    if l < length {
      buffer[l] := 0;
    }
  }

  lemma EscapedStep(t: text, i: nat)
    requires i < |t|
    ensures Escaped(t[i..]) == Escape1(t[i]) + Escaped(t[i + 1..])
  {
    assert t[i..][1..] == t[i + 1..];
  }

  method EscapeOne(c: byte, buffer: array<byte>, length: nat, l: nat, ghost t: text) returns (r: nat)
    requires Shows(buffer, length, t) && l == |t|
    modifies buffer
    ensures Shows(buffer, length, t + Escape1(c)) && r == |t + Escape1(c)|
    ensures forall i | length <= i < buffer.Length :: buffer[i] == old(buffer[i])
  {
    hide Shows, Hex;
    Nibbles(c);
    if c == SPACE {
      r := Emit(buffer, length, l, PLUS, t);
    } else if ShouldEscape(c) {
      r := Emit(buffer, length, l, PERCENT, t);
      r := Emit(buffer, length, r, Hex(c >> 4), t + [PERCENT]);
      r := Emit(buffer, length, r, Hex(c & 15), t + [PERCENT] + [Hex(c >> 4)]);
      assert t + [PERCENT] + [Hex(c >> 4)] + [Hex(c & 15)] == t + Escape1(c);
    } else {
      r := Emit(buffer, length, l, c, t);
    }
  }

  /** The length alone. */
  method EscapedLength(itext: text) returns (r: nat)
    ensures r == |Escaped(itext)|
  {
    r := 0;
    var i := 0;
    assert itext[0..] == itext;
    while i < |itext|
      invariant 0 <= i <= |itext| && r + |Escaped(itext[i..])| == |Escaped(itext)|
    {
      EscapedStep(itext, i);
      r := r + if itext[i] != SPACE && ShouldEscape(itext[i]) then 3 else 1;
      i := i + 1;
    }
  }

  // ----- URLs -----

  /** A key and its value, if any. */
  datatype Arg = Arg(key: text, value: Option<text>)

  function ArgText(a: Arg): text {
    Escaped(a.key) + match a.value case None => [] case Some(v) => [EQUAL] + Escaped(v)
  }

  /** The arguments, separated. */
  function ArgsText(args: seq<Arg>): text {
    if args == [] then []
    else if |args| == 1 then ArgText(args[0])
    else ArgText(args[0]) + [AND] + ArgsText(args[1..])
  }

  /** The base and the path, with a slash between if there is none. */
  function Place(base: text, path: text): text {
    base + (if base != [] && base[|base| - 1] != SLASH && path != [] && path[0] != SLASH then [SLASH] else []) + path
  }

  /** A query mark before the arguments, or an ampersand if the place has already a query. */
  function Opening(place: text): text {
    if place == [] then [] else if QUESTION in place then [AND] else [QUESTION]
  }

  function Url(base: text, path: text, args: seq<Arg>): text {
    var place := Place(base, path);
    if args == [] then place else place + Opening(place) + ArgsText(args)
  }

  lemma ArgsStep(args: seq<Arg>, i: nat)
    requires i < |args|
    ensures ArgsText(args[i..]) ==
              ArgText(args[i]) + if i + 1 < |args| then [AND] + ArgsText(args[i + 1..]) else []
  {
    hide ArgText;
    assert args[i..][1..] == args[i + 1..];
    if i + 1 == |args| { assert ArgText(args[i]) + [] == ArgText(args[i]); }
  }

  /** The base, the slash and the path. */
  method PlaceTo(base: text, path: text, buffer: array<byte>, length: nat) returns (l: nat)
    requires length <= buffer.Length
    modifies buffer
    ensures Shows(buffer, length, Place(base, path)) && l == |Place(base, path)|
    ensures forall i | length <= i < buffer.Length :: buffer[i] == old(buffer[i])
  {
    l := 0;
    assert Shows(buffer, length, []);
    hide Shows;
    ghost var slash: text := [];
    if base != [] {
      l := Copy(buffer, length, l, base, []);
      assert [] + base == base;
      if base[|base| - 1] != SLASH && path != [] && path[0] != SLASH {
        l := Emit(buffer, length, l, SLASH, base);
        slash := [SLASH];
      }
    }
    assert base + [] == base;
    if path != [] {
      l := Copy(buffer, length, l, path, base + slash);
    }
    assert base + slash + [] == base + slash;
  }

  /** The separator of an argument; the first one looks for a query in what is written. */
  method Separate(first: bool, buffer: array<byte>, length: nat, l: nat, ghost place: text,
      ghost t: text) returns (r: nat)
    requires Shows(buffer, length, t) && l == |t| && (first ==> t == place)
    modifies buffer
    ensures var c := if first then Opening(place) else [AND];
            Shows(buffer, length, t + c) && r == |t + c|
    ensures forall i | length <= i < buffer.Length :: buffer[i] == old(buffer[i])
  {
    r := l;
    if !first {
      r := Emit(buffer, length, l, AND, t);
    } else if l != 0 {
      if l < length {
        assert buffer[..l] == t by { assert t[..l] == t; }
        r := Emit(buffer, length, l, if QUESTION in buffer[..l] then AND else QUESTION, t);
      } else {
        assert (t + Opening(place))[..length] == t[..length];
        r := l + 1;
      }
    } else {
      assert t + [] == t;
    }
  }

  method ArgTo(a: Arg, buffer: array<byte>, length: nat, l: nat, ghost t: text) returns (r: nat)
    requires Shows(buffer, length, t) && l == |t|
    modifies buffer
    ensures Shows(buffer, length, t + ArgText(a)) && r == |t + ArgText(a)|
    ensures forall i | length <= i < buffer.Length :: buffer[i] == old(buffer[i])
  {
    hide Shows, Escaped;
    r := EscapeTo(a.key, buffer, length, l, t);
    ghost var key := t + Escaped(a.key);
    if a.value.Some? {
      r := Emit(buffer, length, r, EQUAL, key);
      r := EscapeTo(a.value.value, buffer, length, r, key + [EQUAL]);
      assert key + [EQUAL] + Escaped(a.value.value) == t + ArgText(a);
    } else {
      assert ArgText(a) == Escaped(a.key);
    }
  }

  /** What is written after some arguments: everything but their end. */
  function Query(place: text, args: seq<Arg>, n: nat): text
    requires n <= |args|
  {
    if n == 0 then place
    else Query(place, args, n - 1) + (if n > 1 then [AND] else Opening(place)) + ArgText(args[n - 1])
  }

  lemma Regroup(a: text, b: text, c: text, d: text)
    ensures a + b + c + d == a + (b + (c + d)) && a + b + (c + d) == a + b + c + d
  {
  }

  lemma {:induction false} QueryRest(place: text, args: seq<Arg>, n: nat)
    requires 0 < n <= |args|
    ensures Query(place, args, n) + (if n < |args| then [AND] + ArgsText(args[n..]) else []) ==
              place + Opening(place) + ArgsText(args)
  {
    ArgsStep(args, n - 1);
    hide ArgsText, ArgText, Opening;
    var rest := if n < |args| then [AND] + ArgsText(args[n..]) else [];
    if n == 1 {
      assert args[0..] == args;
      Regroup(place, Opening(place), ArgText(args[0]), rest);
    } else {
      QueryRest(place, args, n - 1);
      Regroup(Query(place, args, n - 1), [AND], ArgText(args[n - 1]), rest);
    }
  }

  /** Any buffer length: the length of the whole URL is returned, and its beginning is written. */
  method EscapeUrlTo(base: text, path: text, args: seq<Arg>, buffer: array<byte>, length: nat) returns (l: nat)
    requires length <= buffer.Length
    modifies buffer
    ensures l == |Url(base, path, args)| && Shows(buffer, length, Url(base, path, args))
    ensures l < length ==> buffer[l] == 0
    ensures forall i | length <= i < buffer.Length :: buffer[i] == old(buffer[i])
  {
    var place := Place(base, path);
    l := PlaceTo(base, path, buffer, length);
    var i := 0;
    while i < |args|
      invariant 0 <= i <= |args| && l == |Query(place, args, i)| && Shows(buffer, length, Query(place, args, i))
      invariant forall k | length <= k < buffer.Length :: buffer[k] == old(buffer[k])
    {
      hide Shows, ArgText;
      ghost var now := Query(place, args, i);
      l := Separate(i == 0, buffer, length, l, place, now);
      l := ArgTo(args[i], buffer, length, l, Query(place, args, i + 1)[..l]);
      i := i + 1;
    }
    if i > 0 {
      QueryRest(place, args, i);
      assert Query(place, args, i) + [] == Query(place, args, i);
    }
    hide Shows, Query;
    PutEnd(buffer, length, l, Url(base, path, args));
  }

  /** Measures, then writes in what was measured. */
  method EscapeUrl(base: text, path: text, args: seq<Arg>) returns (result: array<byte>, length: nat)
    ensures fresh(result) && length == |Url(base, path, args)| && result[..] == Url(base, path, args) + [0]
  {
    var none := new byte[0];
    length := EscapeUrlTo(base, path, args, none, 0);
    result := new byte[length + 1];
    var l := EscapeUrlTo(base, path, args, result, length + 1);
  }

  // ----- unescaping one text -----

  method UnescapableLength(itext: text) returns (i: nat)
    ensures i == Usable(itext)
  {
    i := 0;
    assert itext[0..] == itext;
    while i < |itext|
      invariant 0 <= i <= |itext| && i + Usable(itext[i..]) == Usable(itext)
    {
      ghost var rest := itext[i..];
      if itext[i] != PERCENT {
        assert rest[1..] == itext[i + 1..];
        i := i + 1;
      } else {
        if i + 3 > |itext| || Binary(itext[i + 1]) == None || Binary(itext[i + 2]) == None {
          return;
        }
        assert rest[3..] == itext[i + 3..];
        i := i + 3;
      }
    }
  }

  /** The count made before writing: a percent counts for three, well formed or not. */
  function Reserved(t: text): nat {
    if t == [] then 0
    else if t[0] != PERCENT then 1 + Reserved(t[1..])
    else if |t| < 3 then 1 else 1 + Reserved(t[3..])
  }

  method UnescapedLength(itext: text) returns (r: nat)
    ensures r == Reserved(itext)
  {
    r := 0;
    var i := 0;
    assert itext[0..] == itext;
    while i < |itext|
      invariant 0 <= i && r + (if i < |itext| then Reserved(itext[i..]) else 0) == Reserved(itext)
      decreases |itext| - i
    {
      ghost var rest := itext[i..];
      if itext[i] == PERCENT {
        if i + 3 <= |itext| { assert rest[3..] == itext[i + 3..]; }
        i := i + 3;
      } else {
        assert rest[1..] == itext[i + 1..];
        i := i + 1;
      }
      r := r + 1;
    }
  }

  /** What is reserved is enough, and is exactly what is used when the text is well formed to its end. */
  lemma {:induction false} ReservedEnough(t: text)
    ensures |Unescaped(t)| <= Reserved(t)
    ensures Usable(t) == |t| <==> |Unescaped(t)| == Reserved(t)
    decreases |t|
  {
    if t != [] {
      if t[0] != PERCENT {
        ReservedEnough(t[1..]);
      } else if !Malformed(t) {
        ReservedEnough(t[3..]);
      }
    }
  }

  /** Text already written, kept by what is written after it. */
  ghost predicate Wrote(p: array<byte>, start: nat, s: text)
    reads p
  {
    start + |s| <= p.Length && p[start..start + |s|] == s
  }

  /** One character of the meaning. */
  method UnescapeOne(itext: text, at: nat) returns (c: byte, i: nat)
    requires at < |itext| && Usable(itext[at..]) > 0
    ensures at < i <= |itext| && Unescaped(itext[at..]) == [c] + Unescaped(itext[i..])
    ensures i + Usable(itext[i..]) == at + Usable(itext[at..])
  {
    ghost var rest := itext[at..];
    c := itext[at];
    if c != PERCENT {
      if c == PLUS {
        c := SPACE;
      }
      i := at + 1;
      assert rest[1..] == itext[i..];
    } else {
      c := (Binary(itext[at + 1]).value << 4) | Binary(itext[at + 2]).value;
      i := at + 3;
      assert rest[3..] == itext[i..];
    }
  }

  /** The beginning of a text, as much as fits in the room. */
  ghost predicate Began(p: array<byte>, start: nat, olen: nat, s: text)
    reads p
  {
    start + olen <= p.Length && p[start..start + Min(|s|, olen)] == s[..Min(|s|, olen)]
  }

  lemma AllBegan(p: array<byte>, start: nat, olen: nat, s: text)
    requires Began(p, start, olen, s) && |s| <= olen
    ensures Wrote(p, start, s)
  {
    assert s[..|s|] == s;
  }

  /** Unescapes in a room of any size: all the meaning, or what fits of it; the null only if there is room for it. */
  method UnescapeTo(itext: text, p: array<byte>, start: nat, olen: nat) returns (r: nat)
    requires start + olen <= p.Length
    modifies p
    ensures r == |Unescaped(itext)| && Began(p, start, olen, Unescaped(itext))
    ensures r < olen ==> Wrote(p, start, Unescaped(itext)) && p[start + r] == 0
    ensures forall k | 0 <= k < start || start + olen <= k < p.Length :: p[k] == old(p[k])
  {
    var ilen := UnescapableLength(itext);
    r := 0;
    var i := 0;
    ghost var all := Unescaped(itext);
    assert itext[0..] == itext;
    while i < ilen
      invariant 0 <= i <= ilen <= |itext| && i + Usable(itext[i..]) == ilen
      invariant r <= |all| && Unescaped(itext[i..]) == all[r..]
      invariant Began(p, start, olen, all[..r])
      invariant forall k | 0 <= k < start || start + olen <= k < p.Length :: p[k] == old(p[k])
    {
      hide Usable, Unescaped, Began;
      var c;
      c, i := UnescapeOne(itext, i);
      Advance(all, r, c, Unescaped(itext[i..]));
      r := StoreAt(p, start, olen, r, c, all[..r]);
    }
    Stopped(itext[i..]);
    assert all[..r] == all;
    hide Usable, Unescaped;
    EndAt(p, start, olen, r, all);
  }

  /** The null after the text, if it fits. */
  method EndAt(p: array<byte>, start: nat, olen: nat, r: nat, ghost all: text)
    requires Began(p, start, olen, all) && r == |all|
    modifies p
    ensures Began(p, start, olen, all)
    ensures r < olen ==> Wrote(p, start, all) && p[start + r] == 0
    ensures forall k | 0 <= k < start || start + olen <= k < p.Length :: p[k] == old(p[k])
  {
    if r < olen {
      AllBegan(p, start, olen, all);
      p[start + r] := 0;
      assert all[..r] == all;
    }
  }

  /** One byte after what is written, if it fits. */
  method StoreAt(p: array<byte>, start: nat, olen: nat, at: nat, c: byte, ghost done: text) returns (r: nat)
    requires Began(p, start, olen, done) && at == |done|
    modifies p
    ensures r == at + 1 && Began(p, start, olen, done + [c])
    ensures forall k | 0 <= k < start || start + olen <= k < p.Length :: p[k] == old(p[k])
  {
    if at < olen {
      p[start + at] := c;
      assert p[start..start + at + 1] == done + [c];
      assert (done + [c])[..at + 1] == done + [c];
    } else {
      assert (done + [c])[..olen] == done[..olen];
    }
    r := at + 1;
  }

  /** The text with a null at its end; the length given is that of the count, exact on a text well formed to its end. */
  method Unescape(itext: text) returns (result: array<byte>, reslength: nat)
    ensures fresh(result) && result.Length == reslength + 1 && |Unescaped(itext)| <= reslength
    ensures Wrote(result, 0, Unescaped(itext)) && result[|Unescaped(itext)|] == 0
    ensures reslength == |Unescaped(itext)| <==> Usable(itext) == |itext|
  {
    hide Unescaped, Usable, Reserved;
    ReservedEnough(itext);
    reslength := UnescapedLength(itext);
    result := new byte[reslength + 1];
    var r := UnescapeTo(itext, result, 0, reslength + 1);
  }

  lemma Advance(all: text, r: nat, c: byte, rest: text)
    requires r <= |all| && all[r..] == [c] + rest
    ensures r < |all| && all[r + 1..] == rest && all[..r + 1] == all[..r] + [c]
  {
    assert all[r] == all[r..][0];
    assert all[r..][1..] == all[r + 1..];
  }

  lemma Stopped(t: text)
    requires Usable(t) == 0
    ensures Unescaped(t) == []
  {
  }

  // ----- lists of arguments -----

  /** `strcspn` on "&=" and on "&". */
  function KeyEnd(t: text): (n: nat)
    ensures n <= |t| && AND !in t[..n] && EQUAL !in t[..n] && (n < |t| ==> t[n] == AND || t[n] == EQUAL)
  {
    if t == [] || t[0] == AND || t[0] == EQUAL then 0
    else
      assert t[..1 + KeyEnd(t[1..])] == [t[0]] + t[1..][..KeyEnd(t[1..])];
      1 + KeyEnd(t[1..])
  }

  function ValueEnd(t: text): (n: nat)
    ensures n <= |t| && AND !in t[..n] && (n < |t| ==> t[n] == AND)
  {
    if t == [] || t[0] == AND then 0
    else
      assert t[..1 + ValueEnd(t[1..])] == [t[0]] + t[1..][..ValueEnd(t[1..])];
      1 + ValueEnd(t[1..])
  }

  /** The first argument of a text, still escaped, and where the next one starts: after the end for none. */
  function First(t: text): (r: (Arg, nat))
    ensures 0 < r.1 <= |t| + 1
  {
    var k := KeyEnd(t);
    if k < |t| && t[k] == EQUAL then
      var v := ValueEnd(t[k + 1..]);
      (Arg(t[..k], Some(t[k + 1..][..v])), k + 1 + v + 1)
    else (Arg(t[..k], None), k + 1)
  }

  /** The arguments of a text, at least one. */
  function PiecesFrom(t: text): (r: seq<Arg>)
    ensures r != []
    decreases |t|
  {
    var (a, next) := First(t);
    if next <= |t| then [a] + PiecesFrom(t[next..]) else [a]
  }

  function Pieces(t: text): seq<Arg> {
    if t == [] then [] else PiecesFrom(t)
  }

  function ValueOf(a: Arg): text {
    if a.value.None? then [] else a.value.value
  }

  /** A key with the empty value if it has none. */
  function Plainly(a: Arg): (text, text) {
    (Unescaped(a.key), Unescaped(ValueOf(a)))
  }

  function Meaning(ps: seq<Arg>): seq<(text, text)> {
    seq(|ps|, i requires 0 <= i < |ps| => Plainly(ps[i]))
  }

  function Raw(a: Arg): Arg {
    Arg(Escaped(a.key), match a.value case None => None case Some(v) => Some(Escaped(v)))
  }

  lemma KeyEndIs(t: text, n: nat)
    requires n <= |t| && AND !in t[..n] && EQUAL !in t[..n] && (n < |t| ==> t[n] == AND || t[n] == EQUAL)
    ensures KeyEnd(t) == n
  {
    var k := KeyEnd(t);
    forall i | 0 <= i < n ensures t[i] != AND && t[i] != EQUAL { assert t[..n][i] == t[i]; }
    forall i | 0 <= i < k ensures t[i] != AND && t[i] != EQUAL { assert t[..k][i] == t[i]; }
  }

  lemma ValueEndIs(t: text, n: nat)
    requires n <= |t| && AND !in t[..n] && (n < |t| ==> t[n] == AND)
    ensures ValueEnd(t) == n
  {
    var k := ValueEnd(t);
    forall i | 0 <= i < n ensures t[i] != AND { assert t[..n][i] == t[i]; }
    forall i | 0 <= i < k ensures t[i] != AND { assert t[..k][i] == t[i]; }
  }

  lemma FirstWithValue(key: text, value: text, rest: text)
    requires Plain(key) && Plain(value) && (rest == [] || rest[0] == AND)
    ensures First(key + ([EQUAL] + (value + rest))) == (Arg(key, Some(value)), |key| + |value| + 2)
  {
    var t := key + ([EQUAL] + (value + rest));
    assert t[..|key|] == key;
    KeyEndIs(t, |key|);
    assert t[|key|] == EQUAL && t[|key| + 1..] == value + rest;
    assert (value + rest)[..|value|] == value;
    ValueEndIs(value + rest, |value|);
  }

  lemma FirstAlone(key: text, rest: text)
    requires Plain(key) && (rest == [] || rest[0] == AND)
    ensures First(key + rest) == (Arg(key, None), |key| + 1)
  {
    var t := key + rest;
    assert t[..|key|] == key;
    KeyEndIs(t, |key|);
  }

  /** The text of an argument, at the end or before another one, is cut where it should. */
  lemma FirstOfArg(a: Arg, rest: text)
    requires rest == [] || rest[0] == AND
    ensures First(ArgText(a) + rest) == (Raw(a), |ArgText(a)| + 1)
  {
    hide First, Escaped, Plain;
    EscapedBack(a.key);
    var key := Escaped(a.key);
    if a.value.Some? {
      EscapedBack(a.value.value);
      var value := Escaped(a.value.value);
      FirstWithValue(key, value, rest);
      assert ArgText(a) + rest == key + ([EQUAL] + (value + rest));
    } else {
      FirstAlone(key, rest);
      assert ArgText(a) == key;
    }
  }

  lemma {:induction false} PiecesOfArgs(args: seq<Arg>)
    requires args != []
    ensures PiecesFrom(ArgsText(args)) == seq(|args|, i requires 0 <= i < |args| => Raw(args[i]))
  {
    hide First, ArgText, Raw;
    var t := ArgsText(args);
    if |args| == 1 {
      FirstOfArg(args[0], []);
      assert ArgText(args[0]) + [] == t;
    } else {
      var rest := [AND] + ArgsText(args[1..]);
      FirstOfArg(args[0], rest);
      assert ArgText(args[0]) + rest == t;
      assert t[|ArgText(args[0])| + 1..] == ArgsText(args[1..]);
      PiecesOfArgs(args[1..]);
    }
  }

  /** The pairs that were given, with the empty value where there is none. */
  function Given(args: seq<Arg>): seq<(text, text)> {
    seq(|args|, i requires 0 <= i < |args| => (args[i].key, ValueOf(args[i])))
  }

  lemma RawBack(a: Arg)
    ensures Plainly(Raw(a)) == (a.key, ValueOf(a)) && Tidy(Raw(a))
  {
    EscapedBack(a.key);
    if a.value.Some? { EscapedBack(a.value.value); }
  }

  lemma TextOfArgs(args: seq<Arg>)
    ensures ArgsText(args) == [] <==> args == [] || args == [Arg([], None)]
  {
    if args != [] { EscapedBack(args[0].key); }
  }

  /**
   Unescaping the arguments of an escaped list gives the same pairs back, except for the list of
   one empty key without a value, whose text is empty.
   */
  lemma ArgsRoundTrip(args: seq<Arg>)
    ensures Meaning(Pieces(ArgsText(args))) == Given(args) <==> args != [Arg([], None)]
    ensures forall i | 0 <= i < |Pieces(ArgsText(args))| :: Tidy(Pieces(ArgsText(args))[i])
  {
    TextOfArgs(args);
    if args != [] && args != [Arg([], None)] {
      PiecesOfArgs(args);
      forall i | 0 <= i < |args| ensures Plainly(Raw(args[i])) == (args[i].key, ValueOf(args[i])) && Tidy(Raw(args[i])) {
        RawBack(args[i]);
      }
    } else {
      assert |Given(args)| == |args|;
    }
  }

  // ----- reading a URL -----

  /** What comes before the first query mark. */
  function BeforeQuery(u: text): text {
    if u == [] || u[0] == QUESTION then [] else [u[0]] + BeforeQuery(u[1..])
  }

  /** What comes after it. */
  function QueryOf(u: text): text {
    if u == [] then [] else if u[0] == QUESTION then u[1..] else QueryOf(u[1..])
  }

  lemma {:induction false} CutAtMark(a: text, b: text)
    requires QUESTION !in a
    ensures BeforeQuery(a + [QUESTION] + b) == a && QueryOf(a + [QUESTION] + b) == b
  {
    var u := a + [QUESTION] + b;
    if a == [] {
      assert u[1..] == b;
    } else {
      assert u[1..] == a[1..] + [QUESTION] + b;
      CutAtMark(a[1..], b);
    }
  }

  lemma {:induction false} CutBefore(a: text, b: text)
    requires QUESTION in a
    ensures BeforeQuery(a + b) == BeforeQuery(a) && QueryOf(a + b) == QueryOf(a) + b
  {
    if a[0] == QUESTION {
      assert (a + b)[1..] == a[1..] + b;
    } else {
      assert (a + b)[1..] == a[1..] + b;
      CutBefore(a[1..], b);
    }
  }

  /** The first argument of a text is found whatever follows an ampersand. */
  lemma FirstJoin(a: text, b: text)
    ensures First(a + [AND] + b) == First(a)
  {
    hide KeyEnd, ValueEnd;
    var t, k := a + [AND] + b, KeyEnd(a);
    assert t[..k] == a[..k];
    KeyEndIs(t, k);
    if k < |a| && a[k] == EQUAL {
      var v := ValueEnd(a[k + 1..]);
      assert t[k + 1..] == a[k + 1..] + [AND] + b;
      assert t[k + 1..][..v] == a[k + 1..][..v];
      ValueEndIs(t[k + 1..], v);
    }
  }

  lemma {:induction false} PiecesJoin(a: text, b: text)
    ensures PiecesFrom(a + [AND] + b) == PiecesFrom(a) + PiecesFrom(b)
    decreases |a|
  {
    hide First;
    var t := a + [AND] + b;
    var (x, next) := First(a);
    FirstJoin(a, b);
    if next <= |a| {
      assert t[next..] == a[next..] + [AND] + b;
      PiecesJoin(a[next..], b);
      assert [x] + (PiecesFrom(a[next..]) + PiecesFrom(b)) == [x] + PiecesFrom(a[next..]) + PiecesFrom(b);
    } else {
      assert t[next..] == b;
    }
  }

  /** The base, then the path, with one slash at least where they meet and nothing else. */
  lemma PlaceMeets(base: text, path: text)
    ensures var p, extra := Place(base, path), |Place(base, path)| - |base| - |path|;
            && 0 <= extra <= 1 && p[..|base|] == base && p[|base| + extra..] == path
            && (extra == 1 ==> p[|base|] == SLASH)
            && (base != [] && path != [] ==> p[|base| - 1] == SLASH || p[|base|] == SLASH)
            && (extra == 0 <==> base == [] || path == [] || base[|base| - 1] == SLASH || path[0] == SLASH)
  {
  }

  /**
   A URL is read back: what is before the first query mark, and the arguments that come after it, those of the
   place first.  The list of one empty key without value is lost if it would be alone.
   */
  lemma UrlBack(base: text, path: text, args: seq<Arg>)
    requires args != [] && Place(base, path) != []
    ensures var p, u := Place(base, path), Url(base, path, args);
            && BeforeQuery(u) == BeforeQuery(p)
            && (QUESTION in p ==> Meaning(Pieces(QueryOf(u))) == Meaning(PiecesFrom(QueryOf(p))) + Given(args))
            && (QUESTION !in p ==> BeforeQuery(u) == p && (Meaning(Pieces(QueryOf(u))) == Given(args) <==> args != [Arg([], None)]))
  {
    hide Place, Meaning, Given, ArgsText;
    var p, u, query := Place(base, path), Url(base, path, args), ArgsText(args);
    if QUESTION in p {
      assert u == p + ([AND] + query);
      CutBefore(p, [AND] + query);
      assert QueryOf(p) + ([AND] + query) == QueryOf(p) + [AND] + query;
      PiecesJoin(QueryOf(p), query);
      MeaningJoin(PiecesFrom(QueryOf(p)), PiecesFrom(query));
      GivenBack(args);
    } else {
      CutAtMark(p, query);
      NoMark(p);
      ArgsRoundTrip(args);
    }
  }

  lemma {:induction false} NoMark(t: text)
    requires QUESTION !in t
    ensures BeforeQuery(t) == t
  {
    if t != [] { NoMark(t[1..]); }
  }

  lemma MeaningJoin(ps: seq<Arg>, qs: seq<Arg>)
    ensures Meaning(ps + qs) == Meaning(ps) + Meaning(qs)
  {
  }

  lemma GivenBack(args: seq<Arg>)
    requires args != []
    ensures Meaning(PiecesFrom(ArgsText(args))) == Given(args)
  {
    hide ArgsText, PiecesFrom;
    PiecesOfArgs(args);
    forall i | 0 <= i < |args| ensures Plainly(Raw(args[i])) == (args[i].key, ValueOf(args[i])) { RawBack(args[i]); }
  }

  // ----- the two passes -----

  function Room1(a: Arg): nat {
    1 + Reserved(a.key) + if a.value.Some? then 1 + Reserved(a.value.value) else 0
  }

  function Room(ps: seq<Arg>): nat {
    if ps == [] then 0 else Room(ps[..|ps| - 1]) + Room1(ps[|ps| - 1])
  }

  /** Well formed to its end. */
  predicate Tidy(a: Arg) {
    Usable(a.key) == |a.key| && (a.value.Some? ==> Usable(a.value.value) == |a.value.value|)
  }

  predicate AllTidy(ps: seq<Arg>) {
    forall i | 0 <= i < |ps| :: Tidy(ps[i])
  }

  /** The arguments of the text that remains, if there is one. */
  function Rest(t: text, z: nat, more: bool): seq<Arg> {
    if more && z <= |t| then PiecesFrom(t[z..]) else []
  }

  /** The arguments that are seen, and the text that remains. */
  predicate Seen(t: text, seen: seq<Arg>, z: nat, more: bool) {
    (more ==> z <= |t|) && PiecesFrom(t) == seen + Rest(t, z, more)
  }

  lemma Unfold(t: text, z: nat)
    requires z <= |t|
    ensures var next := z + First(t[z..]).1;
            Rest(t, z, true) == [First(t[z..]).0] + Rest(t, next, next <= |t|)
  {
    hide First;
    var next := First(t[z..]).1;
    if z + next <= |t| {
      assert t[z..][next..] == t[z + next..];
    }
  }

  lemma SeenEnds(t: text, seen: seq<Arg>, z: nat)
    ensures Seen(t, [], 0, true)
    ensures Seen(t, seen, z, false) ==> seen == PiecesFrom(t)
  {
    assert t[0..] == t;
    assert [] + Rest(t, 0, true) == Rest(t, 0, true);
    assert seen + [] == seen;
  }

  lemma Shift<T>(whole: seq<T>, a: seq<T>, b: seq<T>, c: seq<T>)
    requires whole == a + (b + c)
    ensures whole == a + b + c
  {
  }

  lemma SeenNext(t: text, seen: seq<Arg>, z: nat)
    requires Seen(t, seen, z, true)
    ensures Seen(t, seen + [First(t[z..]).0], z + First(t[z..]).1, z + First(t[z..]).1 <= |t|)
    ensures z <= |t|
  {
    hide First, Rest, PiecesFrom, Pieces, KeyEnd, ValueEnd;
    SeenInside(t, seen, z);
    hide Seen;
    Unfold(t, z);
    SeenMore(t, seen, First(t[z..]).0, z, z + First(t[z..]).1);
  }

  lemma SeenInside(t: text, seen: seq<Arg>, z: nat)
    requires Seen(t, seen, z, true)
    ensures z <= |t|
  {
  }

  lemma SeenMore(t: text, seen: seq<Arg>, a: Arg, z: nat, next: nat)
    requires Seen(t, seen, z, true) && Rest(t, z, true) == [a] + Rest(t, next, next <= |t|)
    ensures Seen(t, seen + [a], next, next <= |t|) && z <= |t|
  {
    hide PiecesFrom, Rest;
    Shift(PiecesFrom(t), seen, [a], Rest(t, next, next <= |t|));
  }

  /** The character at a position, null after the end. */
  function CharAt(t: text, z: nat): byte {
    if z < |t| then t[z] else 0
  }

  /** `strcspn` at a position. */
  method SpanTo(t: text, z: nat, equal: bool) returns (l: nat)
    requires z <= |t|
    ensures l == if equal then KeyEnd(t[z..]) else ValueEnd(t[z..])
  {
    l := 0;
    while z + l < |t| && t[z + l] != AND && !(equal && t[z + l] == EQUAL)
      invariant z + l <= |t|
      invariant (if equal then KeyEnd(t[z..]) else ValueEnd(t[z..])) ==
                l + if equal then KeyEnd(t[z + l..]) else ValueEnd(t[z + l..])
      decreases |t| - l
    {
      assert t[z + l..][1..] == t[z + l + 1..];
      l := l + 1;
    }
  }

  /** The scan of one argument, the same in both passes. */
  method ReadArg(args: text, z: nat) returns (a: Arg, next: nat, more: bool)
    requires NoNull(args) && z <= |args|
    ensures a == First(args[z..]).0 && next == z + First(args[z..]).1 && more == (next <= |args|)
  {
    hide KeyEnd, ValueEnd;
    ghost var t := args[z..];
    var l := SpanTo(args, z, true);
    a := Arg(args[z..z + l], None);
    assert args[z..z + l] == t[..l];
    next := z + l;
    var c := CharAt(args, next);
    NullAtEnd(args, next);
    next := next + 1;
    if c == EQUAL {
      assert args[next..] == t[l + 1..];
      l := SpanTo(args, next, false);
      a := a.(value := Some(args[next..next + l]));
      assert args[next..next + l] == args[next..][..l];
      next := next + l;
      c := CharAt(args, next);
      NullAtEnd(args, next);
      next := next + 1;
    }
    more := c != 0;
  }

  /** The room of one argument. */
  method CountOne(a: Arg) returns (j: nat)
    ensures j == Room1(a)
  {
    j := UnescapedLength(a.key);
    j := 1 + j;
    if a.value.Some? {
      var v := UnescapedLength(a.value.value);
      j := j + 1 + v;
    }
  }

  /** What the first pass has counted. */
  ghost predicate Counted(args: text, seen: seq<Arg>, z: nat, more: bool, n: nat, lt: nat) {
    && Seen(args, seen, z, more) && (more ==> z <= |args|) && (!more ==> seen == PiecesFrom(args))
    && n == |seen| && lt == Room(seen)
  }

  method CountNext(args: text, start: nat, n: nat, lt: nat, ghost before: seq<Arg>)
    returns (z: nat, more: bool, room: nat, ghost seen: seq<Arg>)
    requires NoNull(args) && Counted(args, before, start, true, n, lt)
    ensures Counted(args, seen, z, more, n + 1, room)
    ensures start < z && start <= |args| && (more ==> z <= |args|)
  {
    hide PiecesFrom, Room, Room1, First, Rest, NoNull, Seen;
    SeenNext(args, before, start);
    var a;
    a, z, more := ReadArg(args, start);
    RoomNext(before, a);
    var j := CountOne(a);
    room := lt + j;
    seen := before + [a];
    SeenEnds(args, seen, z);
  }

  /** The first pass: the number of arguments, and the room for their texts. */
  method CountArgs(args: text) returns (n: nat, lt: nat)
    requires NoNull(args)
    ensures n == |Pieces(args)| && lt == Room(Pieces(args))
  {
    n, lt := 0, 0;
    if args != [] {
      var z: nat, more := 0, true;
      ghost var seen: seq<Arg> := [];
      SeenEnds(args, seen, z);
      while more
        invariant Counted(args, seen, z, more, n, lt) && (more ==> z <= |args|)
        decreases if more then |args| + 1 - z else 0
      {
        hide Counted;
        z, more, lt, seen := CountNext(args, z, n, lt, seen);
        n := n + 1;
      }
    }
  }

  lemma RoomNext(ps: seq<Arg>, a: Arg)
    ensures Room(ps + [a]) == Room(ps) + Room1(a)
  {
    assert (ps + [a])[..|ps|] == ps;
  }

  lemma NullAtEnd(t: text, z: nat)
    requires NoNull(t) && z <= |t|
    ensures CharAt(t, z) != 0 <==> z < |t|
  {
  }

  lemma {:induction false} RoomAppend(a: seq<Arg>, b: seq<Arg>)
    ensures Room(a + b) == Room(a) + Room(b)
  {
    if b == [] {
      assert a + b == a;
    } else {
      assert (a + b)[..|a + b| - 1] == a + b[..|b| - 1];
      RoomAppend(a, b[..|b| - 1]);
    }
  }

  /** A text of the block, null terminated, before what is free. */
  predicate Held(p: seq<byte>, at: int, s: text, free: nat) {
    0 <= at && at + |s| < free <= |p| && p[at..at + |s|] == s && p[at + |s|] == 0
  }

  /** The two slots of an argument. */
  predicate Slots(q: seq<int>, p: seq<byte>, i: nat, a: Arg, free: nat) {
    2 * i + 1 < |q| && Held(p, q[2 * i], Unescaped(a.key), free) && Held(p, q[2 * i + 1], Unescaped(ValueOf(a)), free)
  }

  /** Writes one argument; without a value, the value is the end of the key. */
  method PutArg(a: Arg, q: array<int>, p: array<byte>, i: nat, start: nat) returns (end: nat)
    requires 2 * i + 1 < q.Length && start + Room1(a) <= p.Length && (p as object) != q
    modifies q, p
    ensures start < end <= start + Room1(a) && (end == start + Room1(a) <==> Tidy(a))
    ensures Slots(q[..], p[..], i, a, end)
    ensures forall k | 0 <= k < q.Length && k != 2 * i && k != 2 * i + 1 :: q[k] == old(q[k])
    ensures p[..start] == old(p[..start])
  {
    hide Unescaped, Reserved, Usable, Held;
    q[2 * i] := start;
    end := PutText(a.key, p, start);
    if a.value.None? {
      q[2 * i + 1] := end - 1;
      EmptyEnd(p[..], start, Unescaped(a.key), end);
    } else {
      var from := end;
      q[2 * i + 1] := from;
      ghost var was := p[..];
      end := PutText(a.value.value, p, from);
      HeldKept(was, start, Unescaped(a.key), from, p[..], end);
      assert p[..start] == p[..from][..start] == was[..from][..start];
    }
  }

  /** Writes the meaning of a text and the null that ends it. */
  method PutText(t: text, p: array<byte>, start: nat) returns (end: nat)
    requires start + 1 + Reserved(t) <= p.Length
    modifies p
    ensures start < end <= start + 1 + Reserved(t) && (end == start + 1 + Reserved(t) <==> Usable(t) == |t|)
    ensures Held(p[..], start, Unescaped(t), end) && end == start + |Unescaped(t)| + 1
    ensures p[..start] == old(p[..start])
  {
    hide Unescaped, Reserved, Usable, Began;
    ReservedEnough(t);
    var j := UnescapeTo(t, p, start, p.Length - start);
    end := start + 1 + j;
  }

  /** Without a value, the value is the empty text at the end of the key. */
  lemma EmptyEnd(p: seq<byte>, at: int, s: text, end: nat)
    requires Held(p, at, s, end) && end == at + |s| + 1
    ensures Held(p, end - 1, Unescaped([]), end)
  {
    EmptyText();
  }

  lemma EmptyText()
    ensures Unescaped([]) == []
  {
  }

  /** What the second pass has done: the arguments seen are in their slots, in a part of the room counted for them. */
  ghost predicate Progress(args: text, q: array<int>, p: array<byte>, seen: seq<Arg>, z: nat, more: bool, at: nat)
    reads q, p
  {
    && Seen(args, seen, z, more) && (!more ==> seen == PiecesFrom(args)) && (p as object) != q
    && q.Length == 2 * |PiecesFrom(args)| + 1 && p.Length == Room(PiecesFrom(args))
    && at <= Room(seen) <= p.Length && (at == Room(seen) <==> AllTidy(seen))
    && Filled(q[..], p[..], seen, at)
  }

  method FillOne(args: text, q: array<int>, p: array<byte>, start: nat, from: nat, k: nat, ghost before: seq<Arg>)
    returns (z: nat, more: bool, at: nat, ghost seen: seq<Arg>)
    requires NoNull(args) && Progress(args, q, p, before, start, true, from) && k == |before|
    modifies q, p
    ensures Progress(args, q, p, seen, z, more, at) && |seen| == k + 1 && z > start
    ensures (more ==> z <= |args|) && start <= |args|
  {
    hide First, PiecesFrom, Room, Room1, Tidy, AllTidy, Slots, Filled;
    SeenNext(args, before, start);
    var a;
    a, z, more := ReadArg(args, start);
    hide Seen;
    Fits(args, before, a, z, more);
    ghost var q0, p0 := q[..], p[..];
    at := PutArg(a, q, p, k, from);
    FilledNext(q0, p0, before, from, q[..], p[..], a, at);
    seen := before + [a];
    SeenEnds(args, seen, z);
  }

  /** The second pass. */
  method FillArgs(args: text, q: array<int>, p: array<byte>) returns (at: nat)
    requires NoNull(args) && args != [] && (p as object) != q
    requires q.Length == 2 * |PiecesFrom(args)| + 1 && p.Length == Room(PiecesFrom(args))
    modifies q, p
    ensures Filled(q[..], p[..], PiecesFrom(args), at)
    ensures at <= p.Length && (at == p.Length <==> AllTidy(PiecesFrom(args)))
  {
    at := 0;
    ghost var seen: seq<Arg> := [];
    var z: nat, more, k := 0, true, 0;
    SeenEnds(args, seen, z);
    NoArgs(q[..], p[..]);
    hide PiecesFrom, Seen, Filled, AllTidy;
    while more
      invariant Progress(args, q, p, seen, z, more, at) && k == |seen|
      invariant more ==> z <= |args|
      decreases if more then |args| + 1 - z else 0
    {
      hide Progress;
      z, more, at, seen := FillOne(args, q, p, z, at, k, seen);
      k := k + 1;
    }
  }

  /**
   Both passes: a slot pair for each argument, a last null slot, all the texts in the room that was
   counted; that room is filled exactly when no percent is malformed.
   */
  method UnescapeArgs(args: text) returns (q: array<int>, p: array<byte>, ghost used: nat)
    requires NoNull(args)
    ensures q.Length == 2 * |Pieces(args)| + 1 && q[2 * |Pieces(args)|] == -1 && p.Length == Room(Pieces(args))
    ensures Filled(q[..], p[..], Pieces(args), used)
    ensures used <= p.Length && (used == p.Length <==> AllTidy(Pieces(args)))
  {
    hide PiecesFrom, AllTidy, Filled;
    var n, lt := CountArgs(args);
    q := new int[2 * n + 1];
    p := new byte[lt];
    var at := 0;
    NoArgs(q[..], p[..]);
    if args != [] {
      at := FillArgs(args, q, p);
    }
    FilledLast(q[..], p[..], Pieces(args), at, -1);
    ghost var q1 := q[..];
    q[2 * n] := -1;
    assert q[..] == q1[2 * n := -1];
    used := at;
  }

  lemma NoArgs(q: seq<int>, p: seq<byte>)
    ensures Filled(q, p, [], 0) && AllTidy([])
  {
  }

  /** What is written after the used room and in other slots changes nothing. */
  lemma Untouched(q: seq<int>, p: seq<byte>, i: nat, a: Arg, free: nat, q': seq<int>, p': seq<byte>, end: nat, k: nat)
    requires Slots(q, p, i, a, free) && i < k && |q'| == |q| && |p'| == |p| && free <= end <= |p|
    requires forall j | 0 <= j < |q| && j != 2 * k && j != 2 * k + 1 :: q'[j] == q[j]
    requires p'[..free] == p[..free]
    ensures Slots(q', p', i, a, end)
  {
    HeldKept(p, q[2 * i], Unescaped(a.key), free, p', end);
    HeldKept(p, q[2 * i + 1], Unescaped(ValueOf(a)), free, p', end);
  }

  lemma HeldKept(p: seq<byte>, at: int, s: text, free: nat, p': seq<byte>, end: nat)
    requires Held(p, at, s, free) && |p'| == |p| && free <= end <= |p| && p'[..free] == p[..free]
    ensures Held(p', at, s, end)
  {
    assert p[at..at + |s|] == p[..free][at..at + |s|] && p'[at..at + |s|] == p'[..free][at..at + |s|];
    assert p[..free][at + |s|] == p'[..free][at + |s|];
  }

  predicate Filled(q: seq<int>, p: seq<byte>, seen: seq<Arg>, free: nat) {
    forall i | 0 <= i < |seen| :: Slots(q, p, i, seen[i], free)
  }

  lemma FilledNext(q: seq<int>, p: seq<byte>, seen: seq<Arg>, free: nat, q': seq<int>, p': seq<byte>, a: Arg, end: nat)
    requires Filled(q, p, seen, free) && Slots(q', p', |seen|, a, end)
    requires |q'| == |q| && |p'| == |p| && free <= end <= |p| && p'[..free] == p[..free]
    requires forall j | 0 <= j < |q| && j != 2 * |seen| && j != 2 * |seen| + 1 :: q'[j] == q[j]
    ensures Filled(q', p', seen + [a], end)
  {
    hide Slots;
    forall i | 0 <= i < |seen| ensures Slots(q', p', i, seen[i], end) {
      Untouched(q, p, i, seen[i], free, q', p', end, |seen|);
    }
  }

  lemma FilledLast(q: seq<int>, p: seq<byte>, ps: seq<Arg>, used: nat, n: int)
    requires Filled(q, p, ps, used) && |q| == 2 * |ps| + 1
    ensures Filled(q[2 * |ps| := n], p, ps, used)
  {
    forall i | 0 <= i < |ps| ensures Slots(q[2 * |ps| := n], p, i, ps[i], used) {
      assert Slots(q, p, i, ps[i], used);
    }
  }

  /** The next argument fits in what was counted. */
  lemma Fits(args: text, seen: seq<Arg>, a: Arg, z: nat, more: bool)
    requires Seen(args, seen + [a], z, more)
    ensures Room(seen + [a]) == Room(seen) + Room1(a) <= Room(PiecesFrom(args))
    ensures |seen| < |PiecesFrom(args)|
    ensures AllTidy(seen + [a]) <==> AllTidy(seen) && Tidy(a)
  {
    hide PiecesFrom, Room1, Tidy, Room, Rest;
    RoomNext(seen, a);
    RoomAppend(seen + [a], Rest(args, z, more));
    assert forall i | 0 <= i < |seen| :: (seen + [a])[i] == seen[i];
    assert (seen + [a])[|seen|] == a;
  }
}
