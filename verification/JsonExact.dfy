/**
 What the recogniser accepts is exactly what the loose grammar derives.
 */
module JsonExact {
  import opened Bounded
  import opened Bytes
  import opened Wrappers
  import opened JsonText
  import opened JsonStr

  // ----- what has been read is derived -----

  lemma {:induction false} SpacesTaken(s: text) returns (w: text)
    ensures Spaces(w) && s == w + SkipSpaces(s)
  {
    w := [];
    if s != [] && IsSpace(s[0]) {
      var more := SpacesTaken(s[1..]);
      w := [s[0]] + more;
    }
  }

  lemma {:induction false} DigitsTaken(s: text) returns (d: text)
    ensures AllDigits(d) && s == d + SkipDigits(s) && (IsDigit(At(s)) ==> d != [])
  {
    d := [];
    if s != [] && IsDigit(s[0]) {
      var more := DigitsTaken(s[1..]);
      d := [s[0]] + more;
    }
  }

  lemma {:induction false} HexesTaken(s: text, n: nat)
    requires Hexes(s, n).0
    ensures |s| >= n && Hexes(s, n).1 == s[n..] && forall i | 0 <= i < n :: IsHex(s[i])
    decreases n
  {
    if n > 0 {
      HexesTaken(s[1..], n - 1);
      assert s[1..][n - 1..] == s[n..];
      forall i | 0 < i < n ensures IsHex(s[i]) { assert s[1..][i - 1] == s[i]; }
    }
  }

  /** The first character of what is left of a string, and what comes after it. */
  lemma ChTaken(s: text) returns (c: Ch, rest: text)
    requires StringTail(s).0 && s[0] != QUOTE
    ensures DerivesCh(c, Loose) && s == WriteCh(c) + rest && StringTail(rest) == StringTail(s) && |rest| < |s|
  {
    if s[0] != BACKSLASH {
      c, rest := Plain(s[0]), s[1..];
    } else if IsShort(At(s[1..])) {
      c, rest := Short(s[1]), s[1..][1..];
    } else {
      var e := s[1..];
      assert e[0] == LETTER_U;
      HexesTaken(e[1..], 4);
      c, rest := Code(s[2], s[3], s[4], s[5]), e[1..][4..];
    }
  }

  lemma {:induction false} CharsTaken(s: text) returns (cs: seq<Ch>)
    requires StringTail(s).0
    ensures DerivesChars(cs, Loose) && s == WriteChars(cs) + ([QUOTE] + StringTail(s).1)
    decreases |s|
  {
    cs := [];
    if s[0] != QUOTE {
      var c, rest := ChTaken(s);
      hide StringTail, DerivesCh, WriteCh;
      var more := CharsTaken(rest);
      cs := [c] + more;
      assert cs[1..] == more;
      Associate(WriteCh(c), WriteChars(more), [QUOTE] + StringTail(s).1);
    }
  }

  lemma StringTaken(s: text) returns (cs: seq<Ch>)
    requires String(s).0
    ensures DerivesChars(cs, Loose) && s == Quoted(cs) + String(s).1
  {
    cs := CharsTaken(s[1..]);
  }

  lemma FractionTaken(s: text) returns (f: Option<text>)
    ensures (f.Some? ==> AllDigits(f.value)) && s == WriteFraction(f) + Fraction(s)
  {
    f := None;
    if At(s) == POINT {
      var d := DigitsTaken(s[1..]);
      f := Some(d);
    }
  }

  lemma SignTaken(s: text) returns (sign: text)
    ensures IsSign(sign) && s == sign + Sign(s)
  {
    sign := if At(s) == MINUS || At(s) == PLUS then [s[0]] else [];
  }

  lemma PowerTaken(s: text) returns (e: Option<Exponent>)
    requires Power(s).0
    ensures (e.Some? ==> DerivesExponent(e.value)) && s == WriteExponent(e) + Power(s).1
  {
    e := None;
    if At(s) == 101 || At(s) == 69 {
      hide SkipDigits, Sign, IsDigit, AllDigits;
      var sign := SignTaken(s[1..]);
      var digits := DigitsTaken(Sign(s[1..]));
      e := Some(Exponent(s[0], sign, digits));
      assert s == [s[0]] + s[1..];
      hide IsSign;
      Join3([s[0]], sign, digits, Power(s).1);
    }
  }

  lemma UnsignedTaken(s: text, sign: text) returns (n: Number)
    requires Unsigned(s).0 && IsSign(sign)
    ensures DerivesNumber(n, Loose) && n.sign == sign && s == WriteUnsigned(n) + Unsigned(s).1
  {
    hide WriteFraction, WriteExponent, SkipDigits, Fraction, Power, IsSign, DerivesExponent, AllDigits, IsDigit;
    var digits := DigitsTaken(s);
    var fraction := FractionTaken(SkipDigits(s));
    var power := PowerTaken(Fraction(SkipDigits(s)));
    n := Number(sign, digits, fraction, power);
    Join3(digits, WriteFraction(fraction), WriteExponent(power), Unsigned(s).1);
  }

  lemma Join3(a: text, b: text, c: text, d: text)
    ensures a + (b + (c + d)) == a + (b + c) + d
  {
  }

  lemma {:induction false} NameTaken(s: text, name: text)
    requires Name(s, name).0
    ensures s == name + Name(s, name).1
    decreases |name|
  {
    if name != [] { NameTaken(s[1..], name[1..]); }
  }

  // ----- values -----

  /** Spaces before an element or a member. */
  function Spaced(w: text, e: Elem): Elem {
    e.(before := w + e.before)
  }

  function SpacedMember(w: text, m: Member): Member {
    m.(before := w + m.before)
  }

  lemma SpacesJoin(w: text, x: text)
    requires Spaces(w) && Spaces(x)
    ensures Spaces(w + x)
  {
  }

  lemma WriteSpaced(w: text, items: seq<Elem>)
    requires items != []
    ensures WriteItems([Spaced(w, items[0])] + items[1..]) == w + WriteItems(items)
  {
    var e := items[0];
    var more := if |items| == 1 then [] else [COMMA] + WriteItems(items[1..]);
    assert ([Spaced(w, e)] + items[1..])[1..] == items[1..];
    Associate(w, e.before, Write(e.value) + e.after);
    Associate(w, WriteElem(e), more);
  }

  lemma WriteSpacedMember(w: text, members: seq<Member>)
    requires members != []
    ensures WriteMembers([SpacedMember(w, members[0])] + members[1..]) == w + WriteMembers(members)
  {
    hide WriteElem, Quoted;
    var m := members[0];
    var more := if |members| == 1 then [] else [COMMA] + WriteMembers(members[1..]);
    assert ([SpacedMember(w, m)] + members[1..])[1..] == members[1..];
    Associate(w, m.before, Quoted(m.key) + (m.after + ([COLON] + WriteElem(m.item))));
    Associate(w, WriteMember(m), more);
  }

  lemma WriteMore(e: Elem, more: seq<Elem>)
    ensures WriteItems([e] + more) == WriteElem(e) + if more == [] then [] else [COMMA] + WriteItems(more)
  {
    assert ([e] + more)[1..] == more;
  }

  lemma WriteMoreMembers(m: Member, more: seq<Member>)
    ensures WriteMembers([m] + more) == WriteMember(m) + if more == [] then [] else [COMMA] + WriteMembers(more)
  {
    assert ([m] + more)[1..] == more;
  }

  lemma {:induction false} ValueTaken(s: text) returns (e: Elem)
    requires Value(s).0
    ensures DerivesElem(e, Loose) && s == WriteElem(e) + Value(s).1
    decreases |s|, 2
  {
    hide Core, Write, Derives, Spaces, SkipSpaces;
    var before := SpacesTaken(s);
    var v := CoreTaken(SkipSpaces(s));
    var rest := Core(SkipSpaces(s)).1;
    var after := SpacesTaken(rest);
    e := Elem(before, v, after);
    Join3(before, Write(v), after, SkipSpaces(rest));
  }

  lemma {:induction false} CoreTaken(s: text) returns (v: Tree)
    requires Core(s).0
    ensures Derives(v, Loose) && s == Write(v) + Core(s).1
    decreases |s|, 1
  {
    hide Items, Members, Unsigned, String, Name;
    if At(s) == 110 {
      NameTaken(s, NULL);
      v := Literal(NULL);
    } else if At(s) == 116 {
      NameTaken(s, TRUE);
      v := Literal(TRUE);
    } else if At(s) == 102 {
      NameTaken(s, FALSE);
      v := Literal(FALSE);
    } else if At(s) == MINUS || At(s) == PLUS {
      v := NumberTaken(s);
    } else if IsDigit(At(s)) {
      var n := UnsignedTaken(s, []);
      v := Numeric(n);
    } else if At(s) == QUOTE {
      var cs := StringTaken(s);
      v := Chars(cs);
    } else if At(s) == OPEN_ARRAY {
      v := ArrayTaken(s);
    } else {
      v := ObjectTaken(s);
    }
  }

  lemma NumberTaken(s: text) returns (v: Tree)
    requires (At(s) == MINUS || At(s) == PLUS) && Unsigned(s[1..]).0
    ensures Derives(v, Loose) && s == Write(v) + Unsigned(s[1..]).1
  {
    hide Unsigned, WriteUnsigned;
    var n := UnsignedTaken(s[1..], [s[0]]);
    v := Numeric(n);
    Associate(n.sign, WriteUnsigned(n), Unsigned(s[1..]).1);
  }

  /** What is inside an array after its first spaces, with its end and what follows. */
  function ArrayText(items: seq<Elem>, comma: bool, rest: text): text {
    (if items == [] then [] else WriteItems(items) + WriteComma(comma)) + ([CLOSE_ARRAY] + rest)
  }

  lemma {:induction false} ArrayTaken(s: text) returns (v: Tree)
    requires At(s) == OPEN_ARRAY && Items(SkipSpaces(s[1..])).0
    ensures Derives(v, Loose) && s == Write(v) + Items(SkipSpaces(s[1..])).1
    decreases |s|, 0
  {
    hide Items, SkipSpaces, Spaces, DerivesElem, ArrayText, Write, Derives;
    var gap := SpacesTaken(s[1..]);
    var items, comma := ItemsTaken(SkipSpaces(s[1..]));
    assert s == [OPEN_ARRAY] + s[1..];
    v := ArrayTree(gap, items, comma, Items(SkipSpaces(s[1..])).1);
  }

  /** The array whose items, after spaces, were read. */
  lemma ArrayTree(gap: text, items: seq<Elem>, comma: bool, rest: text) returns (v: Tree)
    requires Spaces(gap) && (forall i | 0 <= i < |items| :: DerivesElem(items[i], Loose)) && (comma ==> items != [])
    ensures Derives(v, Loose) && [OPEN_ARRAY] + (gap + ArrayText(items, comma, rest)) == Write(v) + rest
  {
    hide WriteElem, WriteItems;
    if items == [] {
      v := Array(gap, [], false);
      Gapped(OPEN_ARRAY, gap, CLOSE_ARRAY, rest);
    } else {
      WriteSpaced(gap, items);
      SpacesJoin(gap, items[0].before);
      assert Spaces([]);
      v := Array([], [Spaced(gap, items[0])] + items[1..], comma);
      hide Spaces;
      Opened(OPEN_ARRAY, gap, WriteItems(items), WriteComma(comma), CLOSE_ARRAY, rest);
    }
  }

  lemma Opened(open: byte, gap: text, a: text, b: text, close: byte, rest: text)
    ensures [open] + (gap + (a + b + ([close] + rest))) == [open] + (((gap + a) + b) + [close]) + rest
  {
  }

  /** One item, and what comes after it. */
  lemma {:induction false} ItemTaken(s: text) returns (e: Elem, after: text)
    requires Items(s).0 && At(s) != CLOSE_ARRAY
    ensures DerivesElem(e, Loose) && s == WriteElem(e) + after && 0 < |after| < |s|
    ensures after[0] == COMMA || after[0] == CLOSE_ARRAY
    ensures Items(s) == Items(if after[0] == COMMA then after[1..] else after)
    decreases |s|, 3
  {
    e := ValueTaken(s);
    after := Value(s).1;
  }

  lemma {:induction false} ItemsTaken(s: text) returns (items: seq<Elem>, comma: bool)
    requires Items(s).0
    ensures forall i | 0 <= i < |items| :: DerivesElem(items[i], Loose)
    ensures s == ArrayText(items, comma, Items(s).1) && (comma ==> items != [])
    decreases |s|, 4
  {
    hide Items, WriteElem, WriteItems, DerivesElem, ArrayText;
    items, comma := [], false;
    if At(s) == CLOSE_ARRAY {
      NoItem(s);
    } else {
      var e, after := ItemTaken(s);
      var rest := Items(s).1;
      if after[0] == COMMA {
        var more, last := ItemsTaken(after[1..]);
        assert after == [COMMA] + after[1..];
        items, comma := [e] + more, last || more == [];
        LongerItems(e, more, last, rest);
      } else {
        items := [e];
        NoItem(after);
        LastItem(e, rest);
      }
    }
  }

  lemma NoItem(s: text)
    requires At(s) == CLOSE_ARRAY
    ensures Items(s) == (true, s[1..]) && s == ArrayText([], false, s[1..])
  {
    assert s == [CLOSE_ARRAY] + s[1..];
    assert [] + s == s;
  }

  lemma LongerItems(e: Elem, more: seq<Elem>, last: bool, rest: text)
    requires last ==> more != []
    ensures WriteElem(e) + ([COMMA] + ArrayText(more, last, rest)) == ArrayText([e] + more, last || more == [], rest)
  {
    hide WriteElem;
    WriteMore(e, more);
    hide WriteItems;
    JoinItems(WriteElem(e), if more == [] then [] else WriteItems(more), more == [], WriteComma(last), [CLOSE_ARRAY] + rest);
  }

  lemma LastItem(e: Elem, rest: text)
    ensures ArrayText([e], false, rest) == WriteElem(e) + ArrayText([], false, rest)
  {
    hide WriteElem;
    WriteMore(e, []);
    assert [e] + [] == [e];
    assert [] + ([CLOSE_ARRAY] + rest) == [CLOSE_ARRAY] + rest;
  }

  lemma JoinItems(first: text, more: text, none: bool, last: text, close: text)
    requires none ==> more == []
    ensures first + ([COMMA] + ((if none then [] else more + last) + close))
         == (if none then first + [] + [COMMA] else first + ([COMMA] + more) + last) + close
  {
  }

  function ObjectText(members: seq<Member>, ending: Option<text>, rest: text): text {
    (if members == [] then [] else WriteMembers(members) + WriteEnding(ending)) + ([CLOSE_OBJECT] + rest)
  }

  lemma {:induction false} ObjectTaken(s: text) returns (v: Tree)
    requires At(s) == OPEN_OBJECT && Members(SkipSpaces(s[1..])).0
    ensures Derives(v, Loose) && s == Write(v) + Members(SkipSpaces(s[1..])).1
    decreases |s|, 0
  {
    hide Members, SkipSpaces, Spaces, DerivesMember, ObjectText, Write, Derives;
    var gap := SpacesTaken(s[1..]);
    var members, ending := MembersTaken(SkipSpaces(s[1..]));
    assert s == [OPEN_OBJECT] + s[1..];
    v := ObjectTree(gap, members, ending, Members(SkipSpaces(s[1..])).1);
  }

  /** The object whose members, after spaces, were read. */
  lemma ObjectTree(gap: text, members: seq<Member>, ending: Option<text>, rest: text) returns (v: Tree)
    requires Spaces(gap) && forall i | 0 <= i < |members| :: DerivesMember(members[i], Loose)
    requires ending.Some? ==> members != [] && Spaces(ending.value)
    ensures Derives(v, Loose) && [OPEN_OBJECT] + (gap + ObjectText(members, ending, rest)) == Write(v) + rest
  {
    hide WriteMember, WriteMembers;
    if members == [] {
      v := Object(gap, [], None);
      Gapped(OPEN_OBJECT, gap, CLOSE_OBJECT, rest);
    } else {
      WriteSpacedMember(gap, members);
      SpacesJoin(gap, members[0].before);
      assert Spaces([]);
      v := Object([], [SpacedMember(gap, members[0])] + members[1..], ending);
      hide Spaces;
      Opened(OPEN_OBJECT, gap, WriteMembers(members), WriteEnding(ending), CLOSE_OBJECT, rest);
    }
  }

  lemma Gapped(open: byte, gap: text, close: byte, rest: text)
    ensures [open] + (gap + ([] + ([close] + rest))) == [open] + (gap + [close]) + rest
  {
  }

  /** One member, and what comes after it. */
  lemma {:induction false} MemberTaken(s: text) returns (m: Member, after: text)
    requires Members(s).0 && At(s) != CLOSE_OBJECT
    ensures DerivesMember(m, Loose) && s == WriteMember(m) + after && 0 < |after| < |s|
    ensures after[0] == COMMA || after[0] == CLOSE_OBJECT
    ensures Members(s) == Members(if after[0] == COMMA then SkipSpaces(after[1..]) else after)
    decreases |s|, 3
  {
    assert Spaces([]);
    hide String, Value, Quoted, WriteElem, DerivesElem, DerivesChars, Spaces;
    var key := StringTaken(s);
    var colon := SkipSpaces(String(s).1);
    var gap := SpacesTaken(String(s).1);
    var item := ValueTaken(colon[1..]);
    after := Value(colon[1..]).1;
    m := Member([], key, gap, item);
    assert colon == [COLON] + (WriteElem(item) + after);
    JoinMember(Quoted(key), gap, WriteElem(item), after);
  }

  lemma JoinMember(key: text, gap: text, item: text, after: text)
    ensures key + (gap + ([COLON] + (item + after))) == [] + (key + (gap + ([COLON] + item))) + after
  {
  }

  /** One member, a comma, spaces, and the members that were read after. */
  lemma Longer(m: Member, w: text, more: seq<Member>, last: Option<text>, rest: text)
    returns (members: seq<Member>, ending: Option<text>)
    requires DerivesMember(m, Loose) && Spaces(w) && forall i | 0 <= i < |more| :: DerivesMember(more[i], Loose)
    requires last.Some? ==> more != [] && Spaces(last.value)
    ensures members != [] && forall i | 0 <= i < |members| :: DerivesMember(members[i], Loose)
    ensures WriteMember(m) + ([COMMA] + (w + ObjectText(more, last, rest))) == ObjectText(members, ending, rest)
    ensures ending.Some? ==> Spaces(ending.value)
  {
    if more == [] {
      members, ending := [m], Some(w);
      WriteMoreMembers(m, []);
      assert [m] + [] == [m];
      hide WriteMember, DerivesMember, Spaces;
      JoinLast(WriteMember(m), w, [CLOSE_OBJECT] + rest);
    } else {
      var next := [SpacedMember(w, more[0])] + more[1..];
      members, ending := [m] + next, last;
      SpacesJoin(w, more[0].before);
      WriteSpacedMember(w, more);
      WriteMoreMembers(m, next);
      hide WriteMember, WriteMembers, WriteEnding, Spaces;
      JoinMore(WriteMember(m), w, WriteMembers(more), WriteEnding(last), [CLOSE_OBJECT] + rest);
    }
  }

  lemma JoinLast(first: text, w: text, close: text)
    ensures first + ([COMMA] + (w + ([] + close))) == (first + []) + ([COMMA] + w) + close
  {
  }

  lemma JoinMore(first: text, w: text, more: text, last: text, close: text)
    ensures first + ([COMMA] + (w + (more + last + close))) == (first + ([COMMA] + (w + more))) + last + close
  {
  }

  lemma {:induction false} MembersTaken(s: text) returns (members: seq<Member>, ending: Option<text>)
    requires Members(s).0
    ensures forall i | 0 <= i < |members| :: DerivesMember(members[i], Loose)
    ensures s == ObjectText(members, ending, Members(s).1)
    ensures ending.Some? ==> members != [] && Spaces(ending.value)
    decreases |s|, 4
  {
    hide Members, SkipSpaces, WriteMember, WriteMembers, DerivesMember, Spaces, ObjectText;
    members, ending := [], None;
    if At(s) == CLOSE_OBJECT {
      NoMember(s);
    } else {
      var m, after := MemberTaken(s);
      var rest := Members(s).1;
      if after[0] == COMMA {
        var w := SpacesTaken(after[1..]);
        var more, last := MembersTaken(SkipSpaces(after[1..]));
        assert after == [COMMA] + after[1..];
        members, ending := Longer(m, w, more, last, rest);
      } else {
        members := [m];
        NoMember(after);
        LastMember(m, rest);
      }
    }
  }

  lemma NoMember(s: text)
    requires At(s) == CLOSE_OBJECT
    ensures Members(s) == (true, s[1..]) && s == ObjectText([], None, s[1..])
  {
    assert s == [CLOSE_OBJECT] + s[1..];
    assert [] + s == s;
  }

  lemma LastMember(m: Member, rest: text)
    ensures ObjectText([m], None, rest) == WriteMember(m) + ObjectText([], None, rest)
  {
    hide WriteMember;
    WriteMoreMembers(m, []);
    assert [m] + [] == [m];
    assert [] + ([CLOSE_OBJECT] + rest) == [CLOSE_OBJECT] + rest;
  }

  /** What is accepted is exactly what the loose grammar derives. */
  lemma Exact(t: text)
    ensures Accepts(t) <==> exists e :: DerivesElem(e, Loose) && WriteElem(e) == t
  {
    hide Value, WriteElem, DerivesElem;
    if Accepts(t) {
      var e := ValueTaken(t);
      assert WriteElem(e) + [] == WriteElem(e);
    }
    forall e | DerivesElem(e, Loose) && WriteElem(e) == t ensures Accepts(t) { Complete(e, Loose); }
  }

  /** The loose grammar is larger: the text +1 is accepted, and no tree of RFC 8259 writes it. */
  lemma PlusOne(e: Elem)
    ensures Accepts([PLUS, 49])
    ensures DerivesElem(e, Strict) ==> WriteElem(e) != [PLUS, 49]
  {
    var one := Elem([], Numeric(Number([PLUS], [49], None, None)), []);
    assert WriteElem(one) == [PLUS, 49];
    Complete(one, Loose);
    if DerivesElem(e, Strict) {
      var v := Write(e.value);
      WriteOpens(e.value, Strict);
      assert v[0] != PLUS by {
        if e.value.Numeric? { assert WriteUnsigned(e.value.n)[0] == e.value.n.digits[0]; }
      }
      assert WriteElem(e)[0] == if e.before == [] then v[0] else e.before[0];
    }
  }

  /** A number of section 6 has no digit after a first zero; the text 01 is accepted. */
  lemma LeadingZero(e: Elem)
    ensures Accepts([48, 49])
    ensures DerivesElem(e, Strict) && |WriteElem(e)| >= 2 && WriteElem(e)[0] == 48 ==> !IsDigit(WriteElem(e)[1])
  {
    var one := Elem([], Numeric(Number([], [48, 49], None, None)), []);
    assert WriteElem(one) == [48, 49];
    Complete(one, Loose);
    var t := WriteElem(e);
    if DerivesElem(e, Strict) && |t| >= 2 && t[0] == 48 {
      var v := Write(e.value);
      WriteOpens(e.value, Strict);
      FrontOf(e.before, v + e.after);
      assert t == v + e.after && v[0] == 48;
      match e.value
      case Numeric(n) => ZeroAlone(n);
      case _ =>
    }
  }

  lemma FrontOf(a: text, b: text)
    requires a + b != []
    ensures (a + b)[0] == if a == [] then b[0] else a[0]
  {
  }

  lemma ZeroAlone(n: Number)
    requires DerivesNumber(n, Strict) && WriteNumber(n)[0] == 48
    ensures |WriteNumber(n)| >= 2 ==> !IsDigit(WriteNumber(n)[1])
  {
    FrontOf(n.sign, WriteUnsigned(n));
    var tail := WriteFraction(n.fraction) + WriteExponent(n.exponent);
    assert WriteNumber(n) == n.digits + tail && n.digits == [48];
    assert |tail| > 0 ==> WriteNumber(n)[1] == tail[0];
  }
}
