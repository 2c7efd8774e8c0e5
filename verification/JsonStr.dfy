/**
 The recogniser of JSON texts and the escapers of JSON strings.
 */
module JsonStr {
  import opened Bounded
  import opened Bytes
  import opened Wrappers
  import opened JsonText

  // ----- what the recogniser does, on the text that remains -----

  function At(s: text): byte {
    if s == [] then 0 else s[0]
  }

  function SkipSpaces(s: text): (r: text)
    ensures |r| <= |s|
  {
    if s != [] && IsSpace(s[0]) then SkipSpaces(s[1..]) else s
  }

  function SkipDigits(s: text): (r: text)
    ensures |r| <= |s|
  {
    if s != [] && IsDigit(s[0]) then SkipDigits(s[1..]) else s
  }

  /** Reads up to n hexadecimal digits; stops at the first other character. */
  function Hexes(s: text, n: nat): (r: (bool, text))
    ensures |r.1| <= |s|
  {
    if n == 0 then (true, s) else if s == [] || !IsHex(s[0]) then (false, s) else Hexes(s[1..], n - 1)
  }

  /** The inside of a string and its last quote. */
  function StringTail(s: text): (r: (bool, text))
    ensures |r.1| <= |s| && (r.0 ==> |r.1| < |s|)
    decreases |s|
  {
    if s == [] then (false, s)
    else if s[0] == QUOTE then (true, s[1..])
    else if s[0] != BACKSLASH then StringTail(s[1..])
    else
      var e := s[1..];
      if IsShort(At(e)) then StringTail(e[1..])
      else if At(e) != LETTER_U then (false, e)
      else
        var (ok, rest) := Hexes(e[1..], 4);
        if ok then StringTail(rest) else (false, rest)
  }

  function String(s: text): (r: (bool, text))
    ensures |r.1| <= |s| && (r.0 ==> |r.1| < |s|)
  {
    if At(s) != QUOTE then (false, s) else StringTail(s[1..])
  }

  function Fraction(s: text): (r: text)
    ensures |r| <= |s|
  {
    if At(s) == POINT then SkipDigits(s[1..]) else s
  }

  function Sign(s: text): (r: text)
    ensures |r| <= |s|
  {
    if At(s) == MINUS || At(s) == PLUS then s[1..] else s
  }

  function Power(s: text): (r: (bool, text))
    ensures |r.1| <= |s|
  {
    if At(s) != 101 && At(s) != 69 then (true, s)
    else
      var d := Sign(s[1..]);
      if IsDigit(At(d)) then (true, SkipDigits(d)) else (false, d)
  }

  function Unsigned(s: text): (r: (bool, text))
    ensures |r.1| <= |s| && (r.0 ==> |r.1| < |s|)
  {
    if !IsDigit(At(s)) then (false, s) else Power(Fraction(SkipDigits(s)))
  }

  function Name(s: text, name: text): (r: (bool, text))
    ensures |r.1| <= |s| && (r.0 ==> |r.1| == |s| - |name|)
    decreases |name|
  {
    if name == [] then (true, s)
    else if s == [] || s[0] != name[0] then (false, s)
    else Name(s[1..], name[1..])
  }

  function Value(s: text): (r: (bool, text))
    ensures |r.1| <= |s| && (r.0 ==> |r.1| < |s|)
    decreases |s|, 1
  {
    var (ok, rest) := Core(SkipSpaces(s));
    (ok, if ok then SkipSpaces(rest) else rest)
  }

  function Core(s: text): (r: (bool, text))
    ensures |r.1| <= |s| && (r.0 ==> |r.1| < |s|)
    decreases |s|, 0
  {
    if At(s) == 110 then Name(s, NULL)
    else if At(s) == 116 then Name(s, TRUE)
    else if At(s) == 102 then Name(s, FALSE)
    else if At(s) == MINUS || At(s) == PLUS then Unsigned(s[1..])
    else if IsDigit(At(s)) then Unsigned(s)
    else if At(s) == QUOTE then String(s)
    else if At(s) == OPEN_ARRAY then Items(SkipSpaces(s[1..]))
    else if At(s) == OPEN_OBJECT then Members(SkipSpaces(s[1..]))
    else (false, s)
  }

  /** The items that remain, and the end of the array. */
  function Items(s: text): (r: (bool, text))
    ensures |r.1| <= |s| && (r.0 ==> |r.1| < |s|)
    decreases |s|, 2
  {
    if At(s) == CLOSE_ARRAY then (true, s[1..])
    else
      var (ok, rest) := Value(s);
      if !ok then (false, rest)
      else if At(rest) == COMMA then Items(rest[1..])
      else if At(rest) == CLOSE_ARRAY then Items(rest)
      else (false, rest)
  }

  /** The members that remain, and the end of the object. */
  function Members(s: text): (r: (bool, text))
    ensures |r.1| <= |s| && (r.0 ==> |r.1| < |s|)
    decreases |s|, 2
  {
    if At(s) == CLOSE_OBJECT then (true, s[1..])
    else
      var (ok, rest) := String(s);
      if !ok then (false, rest)
      else
        var colon := SkipSpaces(rest);
        if At(colon) != COLON then (false, colon)
        else
          var (good, after) := Value(colon[1..]);
          if !good then (false, after)
          else if At(after) == COMMA then Members(SkipSpaces(after[1..]))
          else if At(after) == CLOSE_OBJECT then Members(after)
          else (false, after)
  }

  predicate Accepts(t: text) {
    Value(t) == (true, [])
  }

  // ----- every derivable text is accepted -----

  /** What may follow a value. */
  predicate Stops(rest: text) {
    rest == [] || IsSpace(rest[0]) || rest[0] == COMMA || rest[0] == CLOSE_ARRAY || rest[0] == CLOSE_OBJECT
  }

  predicate Solid(rest: text) {
    rest == [] || !IsSpace(rest[0])
  }

  lemma {:induction false} SpacesRead(w: text, rest: text)
    requires Spaces(w) && Solid(rest)
    ensures SkipSpaces(w + rest) == rest
  {
    if w == [] {
      assert w + rest == rest;
    } else {
      assert (w + rest)[1..] == w[1..] + rest;
      SpacesRead(w[1..], rest);
    }
  }

  lemma {:induction false} DigitsRead(d: text, rest: text)
    requires AllDigits(d) && (rest == [] || !IsDigit(rest[0]))
    ensures SkipDigits(d + rest) == rest
  {
    if d == [] {
      assert d + rest == rest;
    } else {
      assert (d + rest)[1..] == d[1..] + rest;
      DigitsRead(d[1..], rest);
    }
  }

  lemma HexesRead(a: byte, b: byte, c: byte, d: byte, rest: text)
    requires IsHex(a) && IsHex(b) && IsHex(c) && IsHex(d)
    ensures Hexes([a, b, c, d] + rest, 4) == (true, rest)
  {
    var s := [a, b, c, d] + rest;
    assert s[1..][1..][1..][1..] == rest;
    assert Hexes(s[1..][1..][1..], 1) == Hexes(s[1..][1..][1..][1..], 0);
    assert Hexes(s[1..][1..], 2) == Hexes(s[1..][1..][1..], 1);
    assert Hexes(s[1..], 3) == Hexes(s[1..][1..], 2);
  }

  lemma ChRead(c: Ch, g: Grammar, rest: text)
    requires DerivesCh(c, g)
    ensures StringTail(WriteCh(c) + rest) == StringTail(rest)
  {
    var s := WriteCh(c) + rest;
    match c
    case Plain(b) => assert s[1..] == rest;
    case Short(l) => assert s[1..][1..] == rest;
    case Code(h, i, j, k) =>
      assert s[1..][1..] == [h, i, j, k] + rest;
      HexesRead(h, i, j, k, rest);
  }

  lemma {:induction false} CharsRead(cs: seq<Ch>, g: Grammar, rest: text)
    requires DerivesChars(cs, g)
    ensures StringTail(WriteChars(cs) + ([QUOTE] + rest)) == (true, rest)
  {
    var s := WriteChars(cs) + ([QUOTE] + rest);
    if cs == [] {
      assert s == [QUOTE] + rest && s[1..] == rest;
    } else {
      hide StringTail, WriteCh, DerivesCh;
      assert s == WriteCh(cs[0]) + (WriteChars(cs[1..]) + ([QUOTE] + rest));
      ChRead(cs[0], g, WriteChars(cs[1..]) + ([QUOTE] + rest));
      CharsRead(cs[1..], g, rest);
    }
  }

  lemma StringRead(cs: seq<Ch>, g: Grammar, rest: text)
    requires DerivesChars(cs, g)
    ensures String(Quoted(cs) + rest) == (true, rest)
  {
    var s := Quoted(cs) + rest;
    assert s[1..] == WriteChars(cs) + ([QUOTE] + rest);
    CharsRead(cs, g, rest);
  }

  lemma {:induction false} NameRead(name: text, rest: text)
    ensures Name(name + rest, name) == (true, rest)
  {
    if name == [] {
      assert name + rest == rest;
    } else {
      assert (name + rest)[1..] == name[1..] + rest;
      NameRead(name[1..], rest);
    }
  }

  lemma SignRead(sign: text, digits: text, rest: text)
    requires IsSign(sign) && digits != [] && IsDigit(digits[0])
    ensures Sign(sign + (digits + rest)) == digits + rest
  {
    assert (digits + rest)[0] == digits[0];
    if sign == [] {
      assert sign + (digits + rest) == digits + rest;
    } else {
      assert (sign + (digits + rest))[1..] == digits + rest;
    }
  }

  lemma Behind(letter: byte, sign: text, digits: text, rest: text)
    ensures (([letter] + (sign + digits)) + rest)[1..] == sign + (digits + rest)
    ensures (([letter] + (sign + digits)) + rest)[0] == letter
  {
  }

  lemma ExponentRead(x: Exponent, rest: text)
    requires DerivesExponent(x)
    requires rest == [] || !IsDigit(rest[0])
    ensures Power(WriteExponent(Some(x)) + rest) == (true, rest)
  {
    SignRead(x.sign, x.digits, rest);
    DigitsRead(x.digits, rest);
    Behind(x.letter, x.sign, x.digits, rest);
    assert At(x.digits + rest) == x.digits[0] && IsDigit(x.digits[0]);
    hide Sign, SkipDigits, Digits, IsDigit;
  }

  lemma PowerRead(e: Option<Exponent>, rest: text)
    requires (e.Some? ==> DerivesExponent(e.value)) && Stops(rest)
    ensures Power(WriteExponent(e) + rest) == (true, rest)
  {
    if e == None {
      assert WriteExponent(e) + rest == rest;
    } else {
      ExponentRead(e.value, rest);
    }
  }

  lemma FractionRead(f: Option<text>, rest: text)
    requires (f.Some? ==> AllDigits(f.value)) && (rest == [] || (!IsDigit(rest[0]) && rest[0] != POINT))
    ensures Fraction(WriteFraction(f) + rest) == rest
  {
    var s := WriteFraction(f) + rest;
    if f == None {
      assert s == rest;
    } else {
      assert s[1..] == f.value + rest;
      DigitsRead(f.value, rest);
    }
  }

  lemma NumberRead(n: Number, g: Grammar, rest: text)
    requires DerivesNumber(n, g) && Stops(rest)
    ensures Unsigned(WriteUnsigned(n) + rest) == (true, rest)
  {
    var power := WriteExponent(n.exponent) + rest;
    var fraction := WriteFraction(n.fraction) + power;
    assert WriteUnsigned(n) + rest == n.digits + fraction;
    assert (n.digits + fraction)[0] == n.digits[0];
    DigitsRead(n.digits, fraction);
    FractionRead(n.fraction, power);
    PowerRead(n.exponent, rest);
  }

  /** A written value starts with a character that no one takes for a space or the end of something. */
  predicate Opens(s: text) {
    s != [] && !IsSpace(s[0]) && s[0] != COMMA && s[0] != CLOSE_ARRAY && s[0] != CLOSE_OBJECT
  }

  lemma WriteOpens(v: Tree, g: Grammar)
    requires Derives(v, g)
    ensures Opens(Write(v))
  {
    match v
    case Numeric(n) =>
      UnsignedOpens(n, g);
      assert Write(v)[0] == if n.sign == [] then WriteUnsigned(n)[0] else n.sign[0];
    case _ =>
  }

  /** What ends an element. */
  predicate Ends(rest: text) {
    rest == [] || rest[0] == COMMA || rest[0] == CLOSE_ARRAY || rest[0] == CLOSE_OBJECT
  }

  lemma {:induction false} SolidSkip(s: text)
    ensures Solid(SkipSpaces(s)) && SkipSpaces(SkipSpaces(s)) == SkipSpaces(s)
  {
    if s != [] && IsSpace(s[0]) { SolidSkip(s[1..]); }
  }

  /** Only what follows the spaces matters to a value. */
  lemma SameValue(s: text, t: text)
    requires SkipSpaces(s) == SkipSpaces(t)
    ensures Value(s) == Value(t)
  {
  }

  lemma SpacesBefore(w: text, v: text, rest: text)
    requires Spaces(w) && Opens(v)
    ensures SkipSpaces(w + (v + rest)) == v + rest
    ensures w + (v + rest) != [] && At(w + (v + rest)) != CLOSE_ARRAY && At(w + (v + rest)) != CLOSE_OBJECT
  {
    assert (v + rest)[0] == v[0];
    SpacesRead(w, v + rest);
    if w != [] {
      assert (w + (v + rest))[0] == w[0];
    } else {
      assert w + (v + rest) == v + rest;
    }
  }

  lemma {:induction false} ElemRead(e: Elem, g: Grammar, rest: text)
    requires DerivesElem(e, g) && Ends(rest)
    ensures Value(WriteElem(e) + rest) == (true, rest)
    ensures At(WriteElem(e) + rest) != CLOSE_ARRAY && At(WriteElem(e) + rest) != CLOSE_OBJECT
    decreases e, 1
  {
    hide Core, Write, Derives;
    var s := WriteElem(e) + rest;
    var after := e.after + rest;
    assert s == e.before + (Write(e.value) + after);
    WriteOpens(e.value, g);
    SpacesBefore(e.before, Write(e.value), after);
    AfterStops(e.after, rest);
    CoreRead(e.value, g, after);
    SpacesRead(e.after, rest);
  }

  lemma AfterStops(w: text, rest: text)
    requires Spaces(w) && Ends(rest)
    ensures Stops(w + rest) && Solid(rest)
  {
    if w != [] {
      assert (w + rest)[0] == w[0];
    } else {
      assert w + rest == rest;
    }
  }

  lemma {:induction false} CoreRead(v: Tree, g: Grammar, rest: text)
    requires Derives(v, g) && Stops(rest)
    ensures Core(Write(v) + rest) == (true, rest)
    decreases v, 1
  {
    var s := Write(v) + rest;
    match v
    case Literal(name) =>
      assert s[0] == name[0];
      NameRead(name, rest);
    case Numeric(n) =>
      NumericRead(n, g, rest);
    case Chars(cs) =>
      StringRead(cs, g, rest);
    case Array(_, _, _) =>
      ArrayRead(v, g, rest);
    case Object(_, _, _) =>
      ObjectRead(v, g, rest);
  }

  lemma UnsignedOpens(n: Number, g: Grammar)
    requires DerivesNumber(n, g)
    ensures WriteUnsigned(n) != [] && IsDigit(WriteUnsigned(n)[0])
  {
    assert WriteUnsigned(n)[0] == n.digits[0];
  }

  lemma NumericRead(n: Number, g: Grammar, rest: text)
    requires DerivesNumber(n, g) && Stops(rest)
    ensures Core(WriteNumber(n) + rest) == (true, rest)
  {
    NumberRead(n, g, rest);
    UnsignedOpens(n, g);
    SignedForm(n.sign, WriteUnsigned(n), rest);
    CoreNumber(n.sign, WriteUnsigned(n) + rest);
    hide WriteUnsigned, Unsigned, Core, Stops, IsDigit, Digits, AllDigits, DerivesExponent;
  }

  lemma SignedForm(sign: text, u: text, rest: text)
    ensures (sign + u) + rest == sign + (u + rest)
    ensures u != [] ==> (u + rest)[0] == u[0]
  {
  }

  lemma CoreNumber(sign: text, u: text)
    requires IsSign(sign) && u != [] && IsDigit(u[0])
    ensures Core(sign + u) == Unsigned(u)
  {
    hide Unsigned, Items, Members, String, Name;
    if sign == [] {
      assert sign + u == u;
    } else {
      assert (sign + u)[1..] == u;
    }
  }

  lemma {:induction false} ArrayRead(v: Tree, g: Grammar, rest: text)
    requires Derives(v, g) && v.Array? && Stops(rest)
    ensures Core(Write(v) + rest) == (true, rest)
    decreases v, 0
  {
    hide Items, SkipSpaces;
    var close := [CLOSE_ARRAY] + rest;
    var s := Write(v) + rest;
    if v.items == [] {
      assert s[1..] == v.gap + close;
      SpacesRead(v.gap, close);
      ItemsEnd(rest);
    } else {
      var inside := WriteItems(v.items) + (WriteComma(v.comma) + close);
      assert s[1..] == inside;
      SolidSkip(inside);
      ItemsRead(v.items, g, v.comma, rest, SkipSpaces(inside));
    }
  }

  lemma ItemsEnd(rest: text)
    ensures Items([CLOSE_ARRAY] + rest) == (true, rest)
    ensures Members([CLOSE_OBJECT] + rest) == (true, rest)
  {
    assert ([CLOSE_ARRAY] + rest)[1..] == rest;
    assert ([CLOSE_OBJECT] + rest)[1..] == rest;
  }

  lemma {:induction false} ItemsRead(items: seq<Elem>, g: Grammar, comma: bool, rest: text, s: text)
    requires items != [] && forall i | 0 <= i < |items| :: DerivesElem(items[i], g)
    requires var inside := WriteItems(items) + (WriteComma(comma) + ([CLOSE_ARRAY] + rest));
             s == inside || s == SkipSpaces(inside)
    ensures Items(s) == (true, rest)
    decreases items
  {
    hide Value, WriteElem, DerivesElem, SkipSpaces;
    var e, close := items[0], [CLOSE_ARRAY] + rest;
    var end := WriteComma(comma) + close;
    var inside := WriteItems(items) + end;
    var after := if |items| == 1 then end else [COMMA] + (WriteItems(items[1..]) + end);
    assert inside == WriteElem(e) + after;
    ElemRead(e, g, after);
    SolidSkip(inside);
    SameValue(s, inside);
    NotClosed(e, g, after);
    if |items| == 1 {
      ItemsEnd(rest);
      if comma { assert after[1..] == close; } else { assert after == close; }
    } else {
      assert after[1..] == WriteItems(items[1..]) + end;
      ItemsRead(items[1..], g, comma, rest, after[1..]);
    }
  }

  /** After its spaces, a written element does not start with the end of an array. */
  lemma NotClosed(e: Elem, g: Grammar, rest: text)
    requires DerivesElem(e, g)
    ensures At(SkipSpaces(WriteElem(e) + rest)) != CLOSE_ARRAY && At(WriteElem(e) + rest) != CLOSE_ARRAY
  {
    hide Write, Derives;
    WriteOpens(e.value, g);
    assert WriteElem(e) + rest == e.before + (Write(e.value) + (e.after + rest));
    SpacesBefore(e.before, Write(e.value), e.after + rest);
  }

  lemma {:induction false} ObjectRead(v: Tree, g: Grammar, rest: text)
    requires Derives(v, g) && v.Object? && Stops(rest)
    ensures Core(Write(v) + rest) == (true, rest)
    decreases v, 0
  {
    hide Members, SkipSpaces;
    var close := [CLOSE_OBJECT] + rest;
    var s := Write(v) + rest;
    if v.members == [] {
      assert s[1..] == v.gap + close;
      SpacesRead(v.gap, close);
      ItemsEnd(rest);
    } else {
      var inside := WriteMembers(v.members) + (WriteEnding(v.ending) + close);
      assert s[1..] == inside;
      MembersRead(v.members, g, v.ending, rest);
    }
  }

  lemma {:induction false} MembersRead(members: seq<Member>, g: Grammar, ending: Option<text>, rest: text)
    requires members != [] && forall i | 0 <= i < |members| :: DerivesMember(members[i], g)
    requires ending.Some? ==> Spaces(ending.value)
    ensures Members(SkipSpaces(WriteMembers(members) + (WriteEnding(ending) + ([CLOSE_OBJECT] + rest)))) == (true, rest)
    decreases members
  {
    hide Members, WriteMember, WriteMembers, DerivesMember, SkipSpaces, WriteEnding;
    var close := [CLOSE_OBJECT] + rest;
    var end := WriteEnding(ending) + close;
    var after := if |members| == 1 then end else [COMMA] + (WriteMembers(members[1..]) + end);
    MembersText(members, end);
    EndingRead(ending, rest);
    MemberRead(members[0], g, after);
    if |members| > 1 {
      assert after[1..] == WriteMembers(members[1..]) + end;
      MembersRead(members[1..], g, ending, rest);
    }
  }

  lemma MembersText(members: seq<Member>, end: text)
    requires members != []
    ensures WriteMembers(members) + end == WriteMember(members[0]) +
              if |members| == 1 then end else [COMMA] + (WriteMembers(members[1..]) + end)
  {
    hide WriteMember;
    var first := WriteMember(members[0]);
    if |members| == 1 {
      Associate(first, [], end);
      assert [] + end == end;
    } else {
      Associate(first, [COMMA] + WriteMembers(members[1..]), end);
      Associate([COMMA], WriteMembers(members[1..]), end);
    }
  }

  lemma EndingRead(ending: Option<text>, rest: text)
    requires ending.Some? ==> Spaces(ending.value)
    ensures var end := WriteEnding(ending) + ([CLOSE_OBJECT] + rest);
            && end != [] && Ends(end) && end[0] == (if ending.Some? then COMMA else CLOSE_OBJECT)
            && Members(if ending.Some? then SkipSpaces(end[1..]) else end) == (true, rest)
  {
    hide Members, SkipSpaces, Spaces;
    var close := [CLOSE_OBJECT] + rest;
    ItemsEnd(rest);
    if ending.Some? {
      Associate([COMMA], ending.value, close);
      assert ([COMMA] + (ending.value + close))[1..] == ending.value + close;
      SpacesRead(ending.value, close);
    } else {
      assert [] + close == close;
    }
  }

  lemma {:induction false} MemberRead(m: Member, g: Grammar, after: text)
    requires DerivesMember(m, g) && after != [] && Ends(after)
    ensures Members(SkipSpaces(WriteMember(m) + after)) ==
              if after[0] == COMMA then Members(SkipSpaces(after[1..]))
              else if after[0] == CLOSE_OBJECT then Members(after) else (false, after)
    decreases m
  {
    hide Value, WriteElem, DerivesElem, SkipSpaces, DerivesChars, String;
    var item := [COLON] + (WriteElem(m.item) + after);
    var tail := m.after + item;
    assert WriteMember(m) + after == m.before + (Quoted(m.key) + tail);
    SpacesBefore(m.before, Quoted(m.key), tail);
    StringRead(m.key, g, tail);
    SpacesRead(m.after, item);
    assert item[1..] == WriteElem(m.item) + after;
    ElemRead(m.item, g, after);
  }

  /** Every text that either grammar derives is accepted, to its end. */
  lemma Complete(e: Elem, g: Grammar)
    requires DerivesElem(e, g)
    ensures Accepts(WriteElem(e))
  {
    ElemRead(e, g, []);
    assert WriteElem(e) + [] == WriteElem(e);
  }

  // ----- the reader -----

  /** The characters that are read: up to the limit or to the null. */
  function Visible(source: text, lenmax: nat): text {
    if lenmax <= |source| then source[..lenmax] else source
  }

  class ReadTxt {
    const source: text
    var c: byte
    var pos: nat
    var end: nat
    ghost const all: text
    ghost var at: nat

    /** The current character is that of a place of the text, null at its end. */
    ghost predicate Valid()
      reads this
    {
      && NoNull(source) && at <= |all| && all <= source && c == At(all[at..])
      && (at < |all| ==> pos == at + 1 && Min(end, |source|) == |all|)
      && (at == |all| ==> pos == at || (at == 0 && pos == 1 <= end))
    }

    ghost function Left(): text
      reads this
      requires Valid()
    {
      all[at..]
    }

    constructor (source: text, lenmax: nat)
      requires NoNull(source)
      ensures Valid() && Left() == Visible(source, lenmax) == all && this.source == source
      ensures all == [] ==> pos == if lenmax == 0 then 0 else 1
    {
      this.source := source;
      end := lenmax;
      c := if lenmax == 0 || source == [] then 0 else source[0];
      pos := if lenmax == 0 then 0 else 1;
      all := Visible(source, lenmax);
      at := 0;
    }

    /** The next character; the limit moves to the null when it is met. */
    method Read()
      requires Valid() && Left() != []
      modifies this
      ensures Valid() && Left() == old(Left())[1..] && (all != [] ==> pos > 0)
    {
      if pos == end {
        c := 0;
      } else {
        c := if pos < |source| then source[pos] else 0;
        if c == 0 {
          end := pos;
        } else {
          pos := pos + 1;
        }
      }
      at := at + 1;
      assert all[at - 1..][1..] == all[at..];
      assert at < |all| ==> all[at] == source[at];
    }

    lemma Current()
      requires Valid()
      ensures c == At(Left()) && (c == 0 <==> Left() == [])
    {
    }

    method SkipWhitespaces()
      requires Valid()
      modifies this
      ensures Valid() && Left() == SkipSpaces(old(Left())) && (old(Left()) == [] ==> pos == old(pos))
      decreases |Left()|
    {
      Current();
      if c == 32 || c == 10 || c == 13 || c == 9 {
        Read();
        SkipWhitespaces();
      }
    }

    /** Up to n hexadecimal digits, after the current character. */
    method ReadHexes(n: nat) returns (r: bool)
      requires Valid() && Left() != []
      modifies this
      ensures Valid()
      ensures r ==> Left() != [] && (true, Left()[1..]) == Hexes(old(Left())[1..], n)
      ensures !r ==> (false, Left()) == Hexes(old(Left())[1..], n)
      decreases n
    {
      r := true;
      if n > 0 {
        Read();
        Current();
        r := IsHex(c);
        if r {
          r := ReadHexes(n - 1);
        }
      }
    }

    method TestString() returns (r: bool)
      requires Valid()
      modifies this
      ensures Valid() && (r, Left()) == String(old(Left()))
    {
      Current();
      if c != QUOTE {
        return false;
      }
      while true
        invariant Valid() && Left() != [] && String(old(Left())) == StringTail(Left()[1..])
        decreases |Left()|
      {
        hide String;
        Read();
        Current();
        if c == 0 {
          return false;
        }
        if c == QUOTE {
          Read();
          return true;
        }
        if c == BACKSLASH {
          Read();
          Current();
          if !IsShort(c) {
            if c != LETTER_U {
              return false;
            }
            var ok := ReadHexes(4);
            if !ok {
              return false;
            }
          }
        }
      }
    }

    method Digits()
      requires Valid()
      modifies this
      ensures Valid() && Left() == SkipDigits(old(Left()))
    {
      Current();
      while 48 <= c <= 57
        invariant Valid() && SkipDigits(old(Left())) == SkipDigits(Left())
        decreases |Left()|
      {
        Current();
        Read();
      }
      Current();
    }

    method TestNumber() returns (r: bool)
      requires Valid()
      modifies this
      ensures Valid() && (r, Left()) == Unsigned(old(Left()))
    {
      hide SkipDigits, Power;
      Current();
      if c < 48 || c > 57 {
        return false;
      }
      Digits();
      Current();
      if c == POINT {
        Read();
        Digits();
      }
      r := TestPower();
    }

    /** The exponent, if there is one. */
    method TestPower() returns (r: bool)
      requires Valid()
      modifies this
      ensures Valid() && (r, Left()) == Power(old(Left()))
    {
      hide SkipDigits;
      Current();
      if c == 101 || c == 69 {
        Read();
        Current();
        if c == MINUS || c == PLUS {
          Read();
          Current();
        }
        if c < 48 || c > 57 {
          return false;
        }
        Digits();
      }
      return true;
    }

    method TestLiteral(name: text) returns (r: bool)
      requires Valid() && NoNull(name)
      modifies this
      ensures Valid() && (r, Left()) == Name(old(Left()), name)
    {
      var literal := name;
      while literal != []
        invariant Valid() && NoNull(literal) && Name(old(Left()), name) == Name(Left(), literal)
        decreases |literal|
      {
        Current();
        if c != literal[0] {
          return false;
        }
        literal := literal[1..];
        Read();
      }
      return true;
    }

    method TestObject() returns (r: bool)
      requires Valid() && At(Left()) == OPEN_OBJECT
      modifies this
      ensures Valid() && (r, Left()) == Members(SkipSpaces(old(Left())[1..]))
      decreases |Left()|, 0
    {
      Read();
      SkipWhitespaces();
      ghost var start := Left();
      while c != CLOSE_OBJECT
        invariant Valid() && Members(start) == Members(Left()) && |Left()| < |old(Left())|
        decreases |Left()|
      {
        hide SkipSpaces, String, Value;
        r := TestString();
        if !r {
          return;
        }
        SkipWhitespaces();
        Current();
        if c != COLON {
          return false;
        }
        Read();
        r := TestValue();
        if !r {
          return;
        }
        Current();
        if c == COMMA {
          Read();
          SkipWhitespaces();
        } else if c != CLOSE_OBJECT {
          return false;
        }
      }
      Current();
      Read();
      return true;
    }

    method TestArray() returns (r: bool)
      requires Valid() && At(Left()) == OPEN_ARRAY
      modifies this
      ensures Valid() && (r, Left()) == Items(SkipSpaces(old(Left())[1..]))
      decreases |Left()|, 0
    {
      Read();
      SkipWhitespaces();
      ghost var start := Left();
      while c != CLOSE_ARRAY
        invariant Valid() && Items(start) == Items(Left()) && |Left()| < |old(Left())|
        decreases |Left()|
      {
        r := TestValue();
        if !r {
          return;
        }
        Current();
        if c == COMMA {
          Read();
        } else if c != CLOSE_ARRAY {
          return false;
        }
      }
      Current();
      Read();
      return true;
    }

    method TestValue() returns (r: bool)
      requires Valid()
      modifies this
      ensures Valid() && (r, Left()) == Value(old(Left())) && (old(Left()) == [] ==> pos == old(pos))
      decreases |Left()|, 2
    {
      SkipWhitespaces();
      r := TestCore();
      if r {
        SkipWhitespaces();
      }
    }

    /** The `switch` on the first character. */
    method TestCore() returns (r: bool)
      requires Valid()
      modifies this
      ensures Valid() && (r, Left()) == Core(old(Left())) && (old(Left()) == [] ==> pos == old(pos))
      decreases |Left()|, 1
    {
      hide Items, Members, String, Unsigned, Name;
      Current();
      r := false;
      if c == 110 {
        r := TestLiteral(NULL);
      } else if c == 116 {
        r := TestLiteral(TRUE);
      } else if c == 102 {
        r := TestLiteral(FALSE);
      } else if c == MINUS || c == PLUS {
        Read();
        r := TestNumber();
      } else if 48 <= c <= 57 {
        r := TestNumber();
      } else if c == QUOTE {
        r := TestString();
      } else if c == OPEN_ARRAY {
        r := TestArray();
      } else if c == OPEN_OBJECT {
        r := TestObject();
      }
    }
  }

  /**
   `rp_jsonstr_test`: what is accepted is read to its end.  The size of what is refused is the place
   where it is refused, or the last character when its end is missing.
   */
  method Test(source: text, lenmax: nat) returns (r: bool, size: nat)
    requires NoNull(source)
    ensures r <==> Accepts(Visible(source, lenmax))
    ensures r ==> size == |Visible(source, lenmax)|
    ensures !r ==>
              var t := Visible(source, lenmax);
              var rest := Value(t).1;
              size == if t == [] then (if lenmax == 0 then TWO64 - 1 else 0)
                      else if rest == [] then |t| - 1 else |t| - |rest|
  {
    var rt := new ReadTxt(source, lenmax);
    hide Value;
    ghost var t := rt.Left();
    Nothing();
    r := true;
    r := rt.TestValue();
    r := r && rt.c == 0;
    rt.Current();
    size := if r then rt.pos else if rt.pos == 0 then TWO64 - 1 else rt.pos - 1;
  }

  lemma Nothing()
    ensures Value([]) == (false, [])
  {
  }

  // ----- escaping -----

  function Hex(d: byte): byte
    requires d < 16
  {
    if d > 9 then d + 87 else d + 48
  }

  /** The form of section 7 that is given to a character. */
  function ChOf(c: byte): Ch {
    if c < 32 then Nibbles(c); Code(48, 48, Hex(c >> 4), Hex(c & 15))
    else if c == QUOTE || c == BACKSLASH then Short(c)
    else Plain(c)
  }

  function CharsOf(t: text): seq<Ch> {
    seq(|t|, i requires 0 <= i < |t| => ChOf(t[i]))
  }

  function Escaped(t: text): text {
    WriteChars(CharsOf(t))
  }

  /** A quoted escaped string is a string of the grammar, and is accepted with its quotes. */
  lemma QuotedAccepted(t: text)
    ensures DerivesChars(CharsOf(t), Strict) && Accepts([QUOTE] + (Escaped(t) + [QUOTE]))
  {
    forall i | 0 <= i < |t| ensures DerivesCh(CharsOf(t)[i], Strict) {
      HexIsHex(t[i]);
    }
    var e := Elem([], Chars(CharsOf(t)), []);
    Complete(e, Strict);
    assert WriteElem(e) == Quoted(CharsOf(t));
  }

  lemma HexIsHex(c: byte)
    ensures DerivesCh(ChOf(c), Strict)
  {
    Nibbles(c);
  }

  lemma MeaningBack(c: byte)
    ensures MeaningOf(ChOf(c)) == [c]
  {
    Nibbles(c);
    HexBack(c);
  }

  lemma HexBack(c: byte)
    ensures c >> 4 < 16 && c & 15 < 16
    ensures (HexValue(Hex(c >> 4)) << 4) | HexValue(Hex(c & 15)) == c && (HexValue(48) << 4) | HexValue(48) == 0
  {
  }

  /** How much longer a string gets: five for each control character, one for each quote and each backslash. */
  function Extra(t: text): nat {
    if t == [] then 0
    else (if t[0] < 32 then 5 else if t[0] == 0x22 || t[0] == 0x5c then 1 else 0) + Extra(t[1..])
  }

  lemma {:induction false} EscapedWidth(t: text)
    ensures |Escaped(t)| == |t| + Extra(t)
  {
    if t != [] {
      EscapedStep(t, 0);
      EscapedWidth(t[1..]);
      assert t[0..] == t;
      ChWidth(t[0]);
      hide ChOf, WriteCh, Escaped;
    }
  }

  lemma ChWidth(c: byte)
    ensures |WriteCh(ChOf(c))| == if c < 32 then 6 else if c == 0x22 || c == 0x5c then 2 else 1
  {
  }

  /** A line feed, a quote and the letter a. */
  lemma EscapedExample()
    ensures Escaped([0x0a, 0x22, 0x61]) == [0x5c, 0x75, 0x30, 0x30, 0x30, 0x61, 0x5c, 0x22, 0x61]
  {
    var t: text := [0x0a, 0x22, 0x61];
    EscapedStep(t, 0);
    EscapedStep(t, 1);
    EscapedStep(t, 2);
    assert t[0..] == t && t[3..] == [];
    assert Escaped([]) == [];
    Nibbles(0x0a);
    hide Escaped;
  }

  /** Any way to read the escaped string gives the string back. */
  lemma {:induction false} EscapedMeaning(t: text, cs: seq<Ch>, g: Grammar)
    requires DerivesChars(cs, g) && WriteChars(cs) == Escaped(t)
    ensures Meaning(cs) == t
  {
    QuotedAccepted(t);
    Unambiguous(cs, g, CharsOf(t), Strict);
    if t != [] {
      MeaningBack(t[0]);
      assert CharsOf(t)[1..] == CharsOf(t[1..]);
      EscapedMeaning(t[1..], cs[1..], g);
      assert t == [t[0]] + t[1..];
    }
  }

  lemma EscapedStep(t: text, i: nat)
    requires i < |t|
    ensures Escaped(t[i..]) == WriteCh(ChOf(t[i])) + Escaped(t[i + 1..])
    ensures WriteCh(ChOf(t[i])) != []
  {
    assert CharsOf(t[i..])[1..] == CharsOf(t[i + 1..]);
  }

  /** The length alone. */
  method EscapeLength(source: text, maxlen: nat) returns (r: nat)
    requires NoNull(source)
    ensures r == |Escaped(Visible(source, maxlen))|
  {
    ghost var t := Visible(source, maxlen);
    r := 0;
    var i := 0;
    assert t[0..] == t;
    while i < maxlen && i < |source|
      invariant 0 <= i <= |t| && r + |Escaped(t[i..])| == |Escaped(t)|
      decreases |source| - i
    {
      hide Escaped;
      var c := source[i];
      EscapedStep(t, i);
      if c < 32 {
        r := r + 6;
      } else if c == QUOTE || c == BACKSLASH {
        r := r + 2;
      } else {
        r := r + 1;
      }
      i := i + 1;
    }
    assert t[i..] == [];
  }

  /** One character, in what remains of the destination. */
  method EscapeOne(c: byte, dest: array<byte>, length: nat, l: nat, ghost t: text) returns (r: nat)
    requires Shows(dest, length, t) && l == |t|
    modifies dest
    ensures Shows(dest, length, t + WriteCh(ChOf(c))) && r == |t + WriteCh(ChOf(c))|
    ensures forall i | length <= i < dest.Length :: dest[i] == old(dest[i])
  {
    hide Shows, Hex;
    Nibbles(c);
    if c < 32 {
      r := Emit(dest, length, l, BACKSLASH, t);
      r := Emit(dest, length, r, LETTER_U, t + [BACKSLASH]);
      r := Emit(dest, length, r, 48, t + [BACKSLASH] + [LETTER_U]);
      r := Emit(dest, length, r, 48, t + [BACKSLASH] + [LETTER_U] + [48]);
      r := Emit(dest, length, r, Hex(c >> 4), t + [BACKSLASH] + [LETTER_U] + [48] + [48]);
      r := Emit(dest, length, r, Hex(c & 15), t + [BACKSLASH] + [LETTER_U] + [48] + [48] + [Hex(c >> 4)]);
      assert t + [BACKSLASH] + [LETTER_U] + [48] + [48] + [Hex(c >> 4)] + [Hex(c & 15)] == t + WriteCh(ChOf(c));
    } else if c == QUOTE || c == BACKSLASH {
      r := Emit(dest, length, l, BACKSLASH, t);
      r := Emit(dest, length, r, c, t + [BACKSLASH]);
      assert t + [BACKSLASH] + [c] == t + WriteCh(ChOf(c));
    } else {
      r := Emit(dest, length, l, c, t);
    }
  }

  /**
   Any destination: the length is that of the whole escaped string, its beginning is written, and a
   null when there is room.
   */
  method Escape(dest: array<byte>, destlenmax: nat, source: text, maxlen: nat) returns (r: nat)
    requires NoNull(source) && destlenmax <= dest.Length
    modifies dest
    ensures r == |Escaped(Visible(source, maxlen))| && Shows(dest, destlenmax, Escaped(Visible(source, maxlen)))
    ensures r < destlenmax ==> dest[r] == 0
    ensures forall i | destlenmax <= i < dest.Length :: dest[i] == old(dest[i])
  {
    ghost var t, now := Visible(source, maxlen), [];
    r := 0;
    var i := 0;
    assert t[0..] == t && [] + Escaped(t) == Escaped(t);
    assert Shows(dest, destlenmax, now);
    hide Escaped, Shows, WriteCh, ChOf;
    while i < maxlen && i < |source| && r < destlenmax
      invariant 0 <= i <= |t| && Shows(dest, destlenmax, now) && r == |now|
      invariant now + Escaped(t[i..]) == Escaped(t)
      invariant forall k | destlenmax <= k < dest.Length :: dest[k] == old(dest[k])
      decreases |source| - i
    {
      EscapedStep(t, i);
      r := EscapeOne(source[i], dest, destlenmax, r, now);
      Associate(now, WriteCh(ChOf(t[i])), Escaped(t[i + 1..]));
      now := now + WriteCh(ChOf(t[i]));
      i := i + 1;
    }
    if i < maxlen && i < |source| {
      var rest := EscapeLength(source[i..], maxlen - i);
      assert Visible(source[i..], maxlen - i) == t[i..];
      r := r + rest;
      ShowsLonger(dest, destlenmax, now, Escaped(t[i..]));
    } else {
      NothingLeft(t, i, now);
    }
    EndWith(dest, destlenmax, r, Escaped(t));
  }

  lemma NothingLeft(t: text, i: nat, now: text)
    requires i == |t|
    ensures now + Escaped(t[i..]) == now
  {
    assert t[i..] == [];
  }

  /** A null after the text when there is room. */
  method EndWith(dest: array<byte>, length: nat, r: nat, ghost t: text)
    requires Shows(dest, length, t) && r == |t|
    modifies dest
    ensures Shows(dest, length, t) && (r < length ==> dest[r] == 0)
    ensures forall i | length <= i < dest.Length :: dest[i] == old(dest[i])
  {
    if r < length {
      dest[r] := 0;
    }
  }

  lemma Associate(a: text, b: text, c: text)
    ensures a + (b + c) == a + b + c
  {
  }

  lemma ShowsLonger(dest: array<byte>, length: nat, t: text, more: text)
    requires Shows(dest, length, t) && |t| >= length
    ensures Shows(dest, length, t + more)
  {
    assert (t + more)[..length] == t[..length];
  }

  /** Without a bound, in a destination that is large enough. */
  method EscapeUnsafe(dest: array<byte>, source: text, maxlen: nat) returns (r: nat)
    requires NoNull(source) && |Escaped(Visible(source, maxlen))| < dest.Length
    modifies dest
    ensures r == |Escaped(Visible(source, maxlen))| && dest[..r] == Escaped(Visible(source, maxlen)) && dest[r] == 0
  {
    ghost var t, now := Visible(source, maxlen), [];
    r := 0;
    var i := 0;
    assert t[0..] == t && [] + Escaped(t) == Escaped(t);
    while i < maxlen && i < |source|
      invariant 0 <= i <= |t| && Shows(dest, dest.Length, now) && r == |now|
      invariant now + Escaped(t[i..]) == Escaped(t)
      decreases |source| - i
    {
      hide Escaped, Shows, WriteCh, ChOf;
      EscapedStep(t, i);
      r := EscapeOne(source[i], dest, dest.Length, r, now);
      Associate(now, WriteCh(ChOf(t[i])), Escaped(t[i + 1..]));
      now := now + WriteCh(ChOf(t[i]));
      i := i + 1;
    }
    assert t[i..] == [] && now + [] == now;
    dest[r] := 0;
  }
}
