/**
 JSON texts: trees, how they are written, and what the strings of the trees mean.  A tree is derived
 by the strict grammar, which is that of sections 2 to 7 of RFC 8259, or by a looser one.
 */
module JsonText {
  import opened Bounded
  import opened Bytes
  import opened Wrappers

  const QUOTE: byte := 34
  const BACKSLASH: byte := 92
  const COMMA: byte := 44
  const COLON: byte := 58
  const POINT: byte := 46
  const MINUS: byte := 45
  const PLUS: byte := 43
  const OPEN_ARRAY: byte := 91
  const CLOSE_ARRAY: byte := 93
  const OPEN_OBJECT: byte := 123
  const CLOSE_OBJECT: byte := 125
  const LETTER_U: byte := 117

  /** Section 7: an unescaped byte, a short escape, or a code of four hexadecimal digits. */
  datatype Ch = Plain(b: byte) | Short(letter: byte) | Code(a: byte, b: byte, c: byte, d: byte)

  /** Section 6; the exponent has its letter, its sign or none, and its digits. */
  datatype Number = Number(sign: text, digits: text, fraction: Option<text>, exponent: Option<Exponent>)

  datatype Exponent = Exponent(letter: byte, sign: text, digits: text)

  /**
   Sections 3 to 5; the gap is the inside of an empty array or object.  The comma, if there is one, comes
   after the last item or member; in an object, its ending is the spaces that follow that comma.
   */
  datatype Tree =
    | Literal(name: text)
    | Numeric(n: Number)
    | Chars(chars: seq<Ch>)
    | Array(gap: text, items: seq<Elem>, comma: bool)
    | Object(gap: text, members: seq<Member>, ending: Option<text>)

  datatype Elem = Elem(before: text, value: Tree, after: text)

  datatype Member = Member(before: text, key: seq<Ch>, after: text, item: Elem)

  /**
   What the loose grammar adds: a plus before a number, leading zeros, no digit after the point, any
   byte in a string but the quote and the backslash, and a comma at the end of an array or an object.
   */
  datatype Grammar = Strict | Loose

  predicate IsSpace(c: byte) {
    c == 32 || c == 10 || c == 13 || c == 9
  }

  predicate IsDigit(c: byte) {
    48 <= c <= 57
  }

  predicate IsHex(c: byte) {
    48 <= c <= 57 || 97 <= c <= 102 || 65 <= c <= 70
  }

  /** The letters of short escapes: quote, backslash, slash, b, f, n, r and t. */
  predicate IsShort(c: byte) {
    c == QUOTE || c == BACKSLASH || c == 47 || c == 98 || c == 110 || c == 102 || c == 114 || c == 116
  }

  predicate Spaces(t: text) {
    forall i | 0 <= i < |t| :: IsSpace(t[i])
  }

  /** The classes of characters, as sections 2, 6 and 7 list them, and the names of section 3. */
  lemma Characters(c: byte)
    ensures IsSpace(c) <==> c == 0x20 || c == 0x09 || c == 0x0a || c == 0x0d
    ensures IsDigit(c) <==> c in [0x30, 0x31, 0x32, 0x33, 0x34, 0x35, 0x36, 0x37, 0x38, 0x39]
    ensures IsHex(c) <==> IsDigit(c) || c in [0x41, 0x42, 0x43, 0x44, 0x45, 0x46, 0x61, 0x62, 0x63, 0x64, 0x65, 0x66]
    ensures IsShort(c) <==> c in [0x22, 0x5c, 0x2f, 0x62, 0x66, 0x6e, 0x72, 0x74]
  {
  }

  lemma Names()
    ensures Spells(NULL, "null") && Spells(TRUE, "true") && Spells(FALSE, "false")
  {
  }

  predicate Spells(t: text, name: string) {
    |t| == |name| && forall i | 0 <= i < |t| :: t[i] as int == name[i] as int
  }

  predicate AllDigits(t: text) {
    forall i | 0 <= i < |t| :: IsDigit(t[i])
  }

  predicate Digits(t: text) {
    t != [] && AllDigits(t)
  }

  predicate DerivesCh(c: Ch, g: Grammar) {
    match c
    case Plain(b) => (g.Strict? ==> b >= 32) && b != QUOTE && b != BACKSLASH
    case Short(l) => IsShort(l)
    case Code(a, b, c, d) => IsHex(a) && IsHex(b) && IsHex(c) && IsHex(d)
  }

  predicate DerivesChars(cs: seq<Ch>, g: Grammar) {
    forall i | 0 <= i < |cs| :: DerivesCh(cs[i], g)
  }

  predicate IsSign(t: text) {
    t == [] || t == [PLUS] || t == [MINUS]
  }

  predicate DerivesExponent(x: Exponent) {
    (x.letter == 101 || x.letter == 69) && IsSign(x.sign) && Digits(x.digits)
  }

  predicate DerivesNumber(n: Number, g: Grammar) {
    && IsSign(n.sign) && (g.Strict? ==> n.sign != [PLUS])
    && Digits(n.digits) && (g.Strict? && n.digits[0] == 48 ==> |n.digits| == 1)
    && (n.fraction.Some? ==> if g.Strict? then Digits(n.fraction.value) else AllDigits(n.fraction.value))
    && (n.exponent.Some? ==> DerivesExponent(n.exponent.value))
  }

  const NULL: text := [110, 117, 108, 108]
  const TRUE: text := [116, 114, 117, 101]
  const FALSE: text := [102, 97, 108, 115, 101]

  predicate Derives(v: Tree, g: Grammar)
    decreases v
  {
    match v
    case Literal(name) => name == NULL || name == TRUE || name == FALSE
    case Numeric(n) => DerivesNumber(n, g)
    case Chars(cs) => DerivesChars(cs, g)
    case Array(gap, items, comma) =>
      && Spaces(gap) && (comma ==> g.Loose? && items != [])
      && forall i | 0 <= i < |items| :: DerivesElem(items[i], g)
    case Object(gap, members, ending) =>
      && Spaces(gap) && (ending.Some? ==> g.Loose? && members != [] && Spaces(ending.value))
      && forall i | 0 <= i < |members| :: DerivesMember(members[i], g)
  }

  predicate DerivesElem(e: Elem, g: Grammar)
    decreases e
  {
    Spaces(e.before) && Derives(e.value, g) && Spaces(e.after)
  }

  predicate DerivesMember(m: Member, g: Grammar)
    decreases m
  {
    Spaces(m.before) && DerivesChars(m.key, g) && Spaces(m.after) && DerivesElem(m.item, g)
  }

  function WriteCh(c: Ch): (r: text)
    ensures r != []
  {
    match c
    case Plain(b) => [b]
    case Short(l) => [BACKSLASH, l]
    case Code(a, b, c, d) => [BACKSLASH, LETTER_U, a, b, c, d]
  }

  function WriteChars(cs: seq<Ch>): text {
    if cs == [] then [] else WriteCh(cs[0]) + WriteChars(cs[1..])
  }

  function WriteNumber(n: Number): text {
    n.sign + WriteUnsigned(n)
  }

  function WriteUnsigned(n: Number): text {
    n.digits + (WriteFraction(n.fraction) + WriteExponent(n.exponent))
  }

  function WriteFraction(f: Option<text>): text {
    if f.Some? then [POINT] + f.value else []
  }

  function WriteExponent(e: Option<Exponent>): text {
    if e.Some? then [e.value.letter] + (e.value.sign + e.value.digits) else []
  }

  function Quoted(cs: seq<Ch>): text {
    [QUOTE] + (WriteChars(cs) + [QUOTE])
  }

  function Write(v: Tree): text
    decreases v
  {
    match v
    case Literal(name) => name
    case Numeric(n) => WriteNumber(n)
    case Chars(cs) => Quoted(cs)
    case Array(gap, items, comma) =>
      [OPEN_ARRAY] + ((if items == [] then gap else WriteItems(items) + WriteComma(comma)) + [CLOSE_ARRAY])
    case Object(gap, members, ending) =>
      [OPEN_OBJECT] + ((if members == [] then gap else WriteMembers(members) + WriteEnding(ending)) + [CLOSE_OBJECT])
  }

  function WriteComma(comma: bool): text {
    if comma then [COMMA] else []
  }

  function WriteEnding(ending: Option<text>): text {
    if ending.Some? then [COMMA] + ending.value else []
  }

  function WriteElem(e: Elem): text
    decreases e
  {
    e.before + (Write(e.value) + e.after)
  }

  function WriteItems(items: seq<Elem>): text
    requires items != []
    decreases items
  {
    WriteElem(items[0]) + if |items| == 1 then [] else [COMMA] + WriteItems(items[1..])
  }

  function WriteMember(m: Member): text
    decreases m
  {
    m.before + (Quoted(m.key) + (m.after + ([COLON] + WriteElem(m.item))))
  }

  function WriteMembers(members: seq<Member>): text
    requires members != []
    decreases members
  {
    WriteMember(members[0]) + if |members| == 1 then [] else [COMMA] + WriteMembers(members[1..])
  }

  // ----- the meaning of strings -----

  function HexValue(c: byte): byte {
    if c <= 57 then c - 48 else if c >= 97 then c - 87 else c - 55
  }

  /** A code of 16 bits in UTF-8. */
  function Utf8(high: byte, low: byte): text {
    if high == 0 && low < 128 then [low]
    else if high < 8 then [192 | (high << 2) | (low >> 6), 128 | (low & 63)]
    else [224 | (high >> 4), 128 | ((high & 15) << 2) | (low >> 6), 128 | (low & 63)]
  }

  function MeaningOf(c: Ch): text {
    match c
    case Plain(b) => [b]
    case Short(l) =>
      [if l == 98 then 8 else if l == 102 then 12 else if l == 110 then 10 else if l == 114 then 13
       else if l == 116 then 9 else l]
    case Code(a, b, c, d) =>
      Utf8((HexValue(a) << 4) | HexValue(b), (HexValue(c) << 4) | HexValue(d))
  }

  /** Section 7: b, f, n, r and t stand for backspace, form feed, line feed, carriage return and tab, and the others for themselves. */
  lemma Shorts(l: byte)
    requires IsShort(l)
    ensures MeaningOf(Short(0x62)) == [0x08] && MeaningOf(Short(0x66)) == [0x0c] && MeaningOf(Short(0x6e)) == [0x0a]
    ensures MeaningOf(Short(0x72)) == [0x0d] && MeaningOf(Short(0x74)) == [0x09]
    ensures l < 0x60 ==> MeaningOf(Short(l)) == [l]
  {
  }

  function Meaning(cs: seq<Ch>): text {
    if cs == [] then [] else MeaningOf(cs[0]) + Meaning(cs[1..])
  }

  /** A hexadecimal digit of either case writes its value. */
  lemma HexDigit(c: byte)
    requires IsHex(c)
    ensures HexValue(c) < 16
    ensures c == HexValue(c) + (if HexValue(c) < 10 then 48 else if c < 97 then 55 else 87)
  {
  }

  function Code16(high: byte, low: byte): bv16 { ((high as bv16) << 8) | (low as bv16) }

  /** The bytes are those of RFC 3629 for the code: the first tells how many they are, and their bits are those of the code. */
  lemma Utf8One(high: byte, low: byte)
    requires Code16(high, low) < 0x80
    ensures var r := Utf8(high, low); |r| == 1 && r[0] as bv16 == Code16(high, low)
  {
  }

  lemma Utf8Two(high: byte, low: byte)
    requires 0x80 <= Code16(high, low) < 0x800
    ensures var r := Utf8(high, low);
            && |r| == 2 && r[0] >> 5 == 6 && r[1] >> 6 == 2
            && (((r[0] & 31) as bv16) << 6) | ((r[1] & 63) as bv16) == Code16(high, low)
  {
  }

  lemma Utf8Three(high: byte, low: byte)
    requires 0x800 <= Code16(high, low)
    ensures var r := Utf8(high, low);
            && |r| == 3 && r[0] >> 4 == 14 && r[1] >> 6 == 2 && r[2] >> 6 == 2
            && (((r[0] & 15) as bv16) << 12) | (((r[1] & 63) as bv16) << 6) | ((r[2] & 63) as bv16) == Code16(high, low)
  {
  }

  lemma SameFirst(a: Ch, g: Grammar, b: Ch, h: Grammar, s: text, t: text)
    requires DerivesCh(a, g) && DerivesCh(b, h) && WriteCh(a) + s == WriteCh(b) + t
    ensures a == b && s == t
  {
    var w := WriteCh(a) + s;
    assert w[0] == WriteCh(a)[0] && w[0] == WriteCh(b)[0];
    if w[0] == BACKSLASH {
      assert w[1] == WriteCh(a)[1] && w[1] == WriteCh(b)[1];
      if w[1] == LETTER_U {
        assert w[2] == a.a && w[2] == b.a && w[3] == a.b && w[3] == b.b;
        assert w[4] == a.c && w[4] == b.c && w[5] == a.d && w[5] == b.d;
      }
    }
    assert w[|WriteCh(a)|..] == s && w[|WriteCh(b)|..] == t;
  }

  /** A string is read in one way only, whatever the grammars, so that its text decides of its meaning. */
  lemma {:induction false} Unambiguous(a: seq<Ch>, g: Grammar, b: seq<Ch>, h: Grammar)
    requires DerivesChars(a, g) && DerivesChars(b, h) && WriteChars(a) == WriteChars(b)
    ensures a == b
  {
    if a != [] && b != [] {
      SameFirst(a[0], g, b[0], h, WriteChars(a[1..]), WriteChars(b[1..]));
      Unambiguous(a[1..], g, b[1..], h);
      assert a == [a[0]] + a[1..] && b == [b[0]] + b[1..];
    }
  }
}
