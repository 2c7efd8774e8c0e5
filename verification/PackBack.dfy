/**
 What a call packs with a format, another call unpacks with the same format.
 */
module PackBack {
  import opened Json
  import opened Wrappers
  import opened Pack
  import Unpack
  import UnpackProofs
  import PackProofs
  import Base64
  import opened Bytes

  type Format = Unpack.Format
  type Field = Unpack.Field

  /** The formats that serve to make a value and to read it back. */
  predicate Both(f: Format) {
    match f
    case Leaf(c) => c in "nbiIfoO"
    case Str(_) => true
    case Bytes(_) => true
    case Arr(items, tail) => tail == Unpack.Open && forall i | 0 <= i < |items| :: Both(items[i])
    case Obj(fields, tail) =>
      tail == Unpack.Open && forall i | 0 <= i < |fields| :: !fields[i].optional && Both(fields[i].value)
  }

  /** What such a format describes for the packer. */
  function ShapeOf(f: Format): Shape
    decreases f, 0
  {
    match f
    case Leaf(c) => One(c, Bare)
    case Str(size) => Joined([size], Bare)
    case Bytes(url) => Coded(url, Bare)
    case Arr(items, _) => List(ShapesOf(items), false)
    case Obj(fields, _) => Dict(MembersOf(fields), false)
  }

  function ShapesOf(items: seq<Format>): (r: seq<Shape>)
    ensures |r| == |items|
    decreases items, 1
  {
    if items == [] then [] else [ShapeOf(items[0])] + ShapesOf(items[1..])
  }

  function MembersOf(fields: seq<Field>): (r: seq<Member>)
    ensures |r| == |fields|
    decreases fields, 1
  {
    if fields == [] then []
    else
      var f := fields[0];
      assert f.value < f;
      [Member([false], ShapeOf(f.value))] + MembersOf(fields[1..])
  }

  lemma {:induction false} SameText(f: Format)
    requires Both(f)
    ensures Good(ShapeOf(f)) && Text(ShapeOf(f)) == Unpack.Text(f)
    decreases f, 0
  {
    match f
    case Arr(items, _) =>
      hide Text, Unpack.Text, Good, ShapeOf, Both;
      SameItems(items);
      SameList(f);
    case Obj(fields, _) =>
      hide Text, Unpack.Text, Good, ShapeOf, Both;
      SameMembers(fields);
      SameDict(f);
    case _ =>
  }

  lemma SameList(f: Format)
    requires f.Arr? && f.tail == Unpack.Open && ItemsText(ShapesOf(f.items)) == Unpack.ItemsText(f.items)
    requires forall i | 0 <= i < |f.items| :: Good(ShapesOf(f.items)[i])
    ensures Good(ShapeOf(f)) && Text(ShapeOf(f)) == Unpack.Text(f)
  {
    hide ShapesOf, ItemsText, Unpack.ItemsText;
    var inside := Unpack.ItemsText(f.items);
    assert "[" + (inside + ("]" + "")) == "[" + inside + "" + "]";
  }

  lemma SameDict(f: Format)
    requires f.Obj? && f.tail == Unpack.Open && MembersText(MembersOf(f.fields)) == Unpack.FieldsText(f.fields)
    requires forall i | 0 <= i < |f.fields| :: MembersOf(f.fields)[i].sizes != [] && Good(MembersOf(f.fields)[i].value)
    ensures Good(ShapeOf(f)) && Text(ShapeOf(f)) == Unpack.Text(f)
  {
    hide MembersOf, MembersText, Unpack.FieldsText;
    var inside := Unpack.FieldsText(f.fields);
    assert "{" + (inside + ("}" + "")) == "{" + inside + "" + "}";
  }

  lemma {:induction false} SameItems(items: seq<Format>)
    requires forall i | 0 <= i < |items| :: Both(items[i])
    ensures ItemsText(ShapesOf(items)) == Unpack.ItemsText(items)
    ensures forall i | 0 <= i < |items| :: Good(ShapesOf(items)[i])
    decreases items, 1
  {
    hide Text, Unpack.Text, Good, ShapeOf, Both, ShapesOf;
    if items != [] {
      SameText(items[0]);
      SameItems(items[1..]);
      ShapesFirst(items);
    } else {
      NoShapes();
    }
  }

  lemma NoShapes()
    ensures ShapesOf([]) == [] && MembersOf([]) == []
  {
  }

  lemma ShapesFirst(items: seq<Format>)
    requires items != []
    ensures var r := ShapesOf(items); r[0] == ShapeOf(items[0]) && r[1..] == ShapesOf(items[1..]) && r == [r[0]] + r[1..]
  {
    hide ShapeOf;
  }

  lemma MembersFirst(fields: seq<Field>)
    requires fields != []
    ensures var r := MembersOf(fields);
            r[0] == Member([false], ShapeOf(fields[0].value)) && r[1..] == MembersOf(fields[1..]) && r == [r[0]] + r[1..]
  {
    hide ShapeOf;
  }

  lemma FirstText(members: seq<Member>)
    requires members != [] && members[0].sizes == [false]
    ensures MembersText(members) == "s" + (Text(members[0].value) + MembersText(members[1..]))
  {
    hide Text, SizesText;
    NoSize();
    var x := Text(members[0].value) + MembersText(members[1..]);
    assert SizesText([false]) + x == x;
  }

  lemma NoSize()
    ensures SizesText([false]) == ""
  {
  }

  lemma FirstField(fields: seq<Field>)
    requires fields != [] && !fields[0].optional
    ensures Unpack.FieldsText(fields) == "s" + (Unpack.Text(fields[0].value) + Unpack.FieldsText(fields[1..]))
  {
    hide Unpack.Text;
  }

  lemma {:induction false} SameMembers(fields: seq<Field>)
    requires forall i | 0 <= i < |fields| :: !fields[i].optional && Both(fields[i].value)
    ensures MembersText(MembersOf(fields)) == Unpack.FieldsText(fields)
    ensures forall i | 0 <= i < |fields| :: MembersOf(fields)[i].sizes != [] && Good(MembersOf(fields)[i].value)
    decreases fields, 1
  {
    hide Text, Unpack.Text, Good, ShapeOf, Both, MembersOf;
    if fields != [] {
      assert fields[0].value < fields[0];
      SameText(fields[0].value);
      SameMembers(fields[1..]);
      MembersFirst(fields);
      FirstText(MembersOf(fields));
      FirstField(fields);
    } else {
      NoShapes();
    }
  }

  lemma NeverLeftOut(f: Format, v: Json)
    ensures !LeftOut(ShapeOf(f), v)
  {
  }

  lemma JoinOne(size: bool, args: seq<Item>)
    requires |args| > (if size then 1 else 0) && args[0].Chars? && (size ==> args[1].Length?)
    ensures Join([size], args) ==
              if args[0].s.None? then (None, if size then args[2..] else args[1..])
              else if size then (Some(Cut(args[0].s.value, args[1].n)), args[2..]) else (args[0].s, args[1..])
  {
    hide Cut;
    var rest := if size then args[2..] else args[1..];
    assert Join([size][1..], rest) == (None, rest);
    assert size ==> args[1..][0] == args[1] && args[1..][1..] == args[2..];
    if args[0].s.Some? {
      var piece := if size then Cut(args[0].s.value, args[1].n) else args[0].s.value;
      assert piece + "" == piece;
    }
  }

  function Build(e: Encode, f: Format, args: seq<Item>, depth: nat): Built {
    Make(e, ShapeOf(f), args, depth)
  }

  function BuildItems(e: Encode, items: seq<Format>, done: seq<Json>, args: seq<Item>, depth: nat): Built {
    MakeItems(e, ShapesOf(items), done, args, depth)
  }

  function BuildFields(e: Encode, fields: seq<Field>, done: map<string, Json>, args: seq<Item>, depth: nat): Built {
    MakeMembers(e, MembersOf(fields), done, args, depth)
  }

  /** What to ask to get arguments back: names and places; what the places then hold; and the arguments that are left. */
  datatype Echo = Echo(asked: seq<Unpack.Arg>, puts: seq<Unpack.Put>, rest: seq<Item>)

  predicate Fits(c: char, n: int) {
    if c == 'i' then -0x8000_0000 <= n < 0x8000_0000 else -0x8000_0000_0000_0000 <= n < 0x8000_0000_0000_0000
  }

  predicate AreOctets(s: string) {
    forall i | 0 <= i < |s| :: s[i] < 256 as char
  }

  /** A text, or bytes, and the length given: one place for each. */
  function Sized(s: string, n: nat, k: nat, rest: seq<Item>): Option<Echo> {
    if n > |s| then None
    else Some(Echo([Unpack.Place(k), Unpack.Place(k + 1)], [Unpack.Put(k, JString(s[..n])), Unpack.Put(k + 1, JInt(n))], rest))
  }

  function Single(v: Json, k: nat, rest: seq<Item>): Option<Echo> {
    Some(Echo([Unpack.Place(k)], [Unpack.Put(k, v)], rest))
  }

  /**
   The arguments of a format, with places numbered from k; None if they are not of its types, if a text, a name or a
   value is null, if a length is too long, if an integer is too wide, if an object has twice a name, or if the nesting
   is over 31.
   */
  function Ask(f: Format, args: seq<Item>, k: nat, depth: nat): Option<Echo>
    requires Both(f)
    decreases f, 0
  {
    match f
    case Leaf(c) =>
      if c == 'n' then Some(Echo([], [], args))
      else if args == [] then None
      else if c == 'b' then (if args[0].Truth? then Single(JBool(args[0].b), k, args[1..]) else None)
      else if c == 'i' || c == 'I' then (if args[0].Whole? && Fits(c, args[0].i) then Single(JInt(args[0].i), k, args[1..]) else None)
      else if c == 'f' then (if args[0].Double? then Single(JDouble(args[0].r), k, args[1..]) else None)
      else if args[0].Node? && args[0].j != JNull then Single(args[0].j, k, args[1..])
      else None
    case Str(size) =>
      if args == [] || !args[0].Chars? || args[0].s.None? then None
      else if !size then Single(JString(args[0].s.value), k, args[1..])
      else if |args| < 2 || !args[1].Length? then None
      else Sized(args[0].s.value, args[1].n, k, args[2..])
    case Bytes(_) =>
      if |args| < 2 || !args[0].Chars? || !args[1].Length? then None
      else if args[0].s.None? then Sized("", 0, k, args[2..])
      else if !AreOctets(args[0].s.value) then None
      else Sized(args[0].s.value, args[1].n, k, args[2..])
    case Arr(items, _) => if depth >= 31 then None else AskItems(items, args, k, depth + 1)
    case Obj(fields, _) => if depth >= 31 then None else AskFields(fields, {}, args, k, depth + 1)
  }

  function Follow(a: Echo, b: Echo): Echo {
    Echo(a.asked + b.asked, a.puts + b.puts, b.rest)
  }

  function AskItems(items: seq<Format>, args: seq<Item>, k: nat, depth: nat): Option<Echo>
    requires forall i | 0 <= i < |items| :: Both(items[i])
    decreases items, 1
  {
    if items == [] then Some(Echo([], [], args))
    else
      match Ask(items[0], args, k, depth)
      case None => None
      case Some(a) =>
        match AskItems(items[1..], a.rest, k + |a.puts|, depth)
        case None => None
        case Some(b) => Some(Follow(a, b))
  }

  function AskFields(fields: seq<Field>, names: set<string>, args: seq<Item>, k: nat, depth: nat): Option<Echo>
    requires forall i | 0 <= i < |fields| :: !fields[i].optional && Both(fields[i].value)
    decreases fields, 1
  {
    if fields == [] then Some(Echo([], [], args))
    else if args == [] || !args[0].Chars? || args[0].s.None? || args[0].s.value in names then None
    else
      var f, name := fields[0], args[0].s.value;
      assert f.value < f;
      match Ask(f.value, args[1..], k, depth)
      case None => None
      case Some(a) =>
        match AskFields(fields[1..], names + {name}, a.rest, k + |a.puts|, depth)
        case None => None
        case Some(b) => Some(Follow(Echo([Unpack.Name(name)] + a.asked, a.puts, a.rest), b))
  }

  /** Integers that have their width are read as they are, and octets that were encoded are decoded. */
  ghost predicate Faithful(e: Encode, m: Unpack.Mode) {
    && m.store && (forall c, n | Fits(c, n) :: m.conv(c, JInt(n)) == Some(n))
    && (forall b, url | AreOctets(b) :: m.decode(e(b, url)) == Some(b)) && m.decode("") == Some("")
  }

  function Done(more: seq<Unpack.Arg>, puts: seq<Unpack.Put>): Unpack.Reading {
    Unpack.Reading(Unpack.OK, Unpack.Io(more, puts))
  }

  lemma LeafBack(e: Encode, m: Unpack.Mode, c: char, args: seq<Item>, k: nat, depth: nat,
      more: seq<Unpack.Arg>, puts: seq<Unpack.Put>)
    requires Faithful(e, m) && c in "nbiIfoO" && Ask(Unpack.Leaf(c), args, k, depth).Some?
    ensures var f, q, r := Unpack.Leaf(c), Ask(Unpack.Leaf(c), args, k, depth).value, Build(e, Unpack.Leaf(c), args, depth);
            && r.result.Made? && r.args == q.rest
            && Unpack.Read(m, f, Some(r.result.value), Unpack.Io(q.asked + more, puts), depth) == Done(more, puts + q.puts)
  {
    var q := Ask(Unpack.Leaf(c), args, k, depth).value;
    if c == 'n' {
      assert q.asked + more == more && puts + q.puts == puts;
    } else {
      assert (q.asked + more)[1..] == more;
    }
  }

  lemma SizedBack(e: Encode, m: Unpack.Mode, f: Format, args: seq<Item>, k: nat, depth: nat,
      more: seq<Unpack.Arg>, puts: seq<Unpack.Put>)
    requires Faithful(e, m) && (f.Str? || f.Bytes?) && Ask(f, args, k, depth).Some?
    ensures var q, r := Ask(f, args, k, depth).value, Build(e, f, args, depth);
            && r.result.Made? && r.args == q.rest
            && Unpack.Read(m, f, Some(r.result.value), Unpack.Io(q.asked + more, puts), depth) == Done(more, puts + q.puts)
  {
    var q := Ask(f, args, k, depth).value;
    if f.Str? { JoinOne(f.size, args); }
    hide Join;
    assert (q.asked + more)[1..] == q.asked[1..] + more;
    if |q.asked| == 2 {
      assert args[1..][1..] == args[2..];
      assert (q.asked + more)[1..][1..] == more;
      assert puts + q.puts == puts + [q.puts[0]] + [q.puts[1]];
    } else {
      assert q.asked[1..] + more == more;
    }
  }

  lemma {:induction false} Back(e: Encode, m: Unpack.Mode, f: Format, args: seq<Item>, k: nat, depth: nat,
      more: seq<Unpack.Arg>, puts: seq<Unpack.Put>)
    requires Faithful(e, m) && Both(f) && Ask(f, args, k, depth).Some?
    ensures var q, r := Ask(f, args, k, depth).value, Build(e, f, args, depth);
            && r.result.Made? && r.args == q.rest
            && Unpack.Read(m, f, Some(r.result.value), Unpack.Io(q.asked + more, puts), depth) == Done(more, puts + q.puts)
    decreases f, 0
  {
    match f
    case Leaf(c) => LeafBack(e, m, c, args, k, depth, more, puts);
    case Str(_) => SizedBack(e, m, f, args, k, depth, more, puts);
    case Bytes(_) => SizedBack(e, m, f, args, k, depth, more, puts);
    case Arr(items, _) =>
      hide Faithful;
      BackItems(e, m, items, [], args, k, depth + 1, more, puts);
    case Obj(fields, _) =>
      hide Faithful;
      var none: map<string, Json> := map[];
      assert none.Keys == {};
      BackFields(e, m, fields, none, args, k, depth + 1, 0, more, puts);
  }

  /** The array of the items keeps what it had, and reading it back gives the arguments of the items. */
  ghost predicate ItemsGiven(e: Encode, m: Unpack.Mode, items: seq<Format>, done: seq<Json>, args: seq<Item>, q: Echo,
      depth: nat, more: seq<Unpack.Arg>, puts: seq<Unpack.Put>)
  {
    var r := BuildItems(e, items, done, args, depth);
    && r.result.Made? && r.args == q.rest && r.result.value.JArray? && done <= r.result.value.items
    && |r.result.value.items| == |done| + |items|
    && Unpack.ReadItems(m, items, Unpack.Open, Some(r.result.value.items), |done|, Unpack.Io(q.asked + more, puts), depth)
         == Done(more, puts + q.puts)
  }

  lemma {:induction false} BackItems(e: Encode, m: Unpack.Mode, items: seq<Format>, done: seq<Json>, args: seq<Item>,
      k: nat, depth: nat, more: seq<Unpack.Arg>, puts: seq<Unpack.Put>)
    requires Faithful(e, m) && (forall i | 0 <= i < |items| :: Both(items[i])) && AskItems(items, args, k, depth).Some?
    ensures ItemsGiven(e, m, items, done, args, AskItems(items, args, k, depth).value, depth, more, puts)
    decreases items, 1
  {
    hide Faithful, Ask, Build, Unpack.Read;
    if items == [] {
      assert [] + more == more && puts + [] == puts;
    } else {
      hide AskItems, BuildItems, Unpack.ReadItems, ItemsGiven, Both, Follow, Done;
      ItemAsked(items, args, k, depth);
      var a := Ask(items[0], args, k, depth).value;
      var b := AskItems(items[1..], a.rest, k + |a.puts|, depth).value;
      Back(e, m, items[0], args, k, depth, b.asked + more, puts);
      var v := Build(e, items[0], args, depth).result.value;
      BackItems(e, m, items[1..], done + [v], a.rest, k + |a.puts|, depth, more, puts + a.puts);
      ItemsStep(e, m, items, done, args, a, b, depth, more, puts);
    }
  }

  /** One item in front of others that are read back. */
  lemma ItemsStep(e: Encode, m: Unpack.Mode, items: seq<Format>, done: seq<Json>, args: seq<Item>, a: Echo, b: Echo,
      depth: nat, more: seq<Unpack.Arg>, puts: seq<Unpack.Put>)
    requires items != [] && forall i | 0 <= i < |items| :: Both(items[i])
    requires var r := Build(e, items[0], args, depth);
             && r.result.Made? && r.args == a.rest
             && Unpack.Read(m, items[0], Some(r.result.value), Unpack.Io(a.asked + (b.asked + more), puts), depth)
                  == Done(b.asked + more, puts + a.puts)
             && ItemsGiven(e, m, items[1..], done + [r.result.value], a.rest, b, depth, more, puts + a.puts)
    ensures ItemsGiven(e, m, items, done, args, Follow(a, b), depth, more, puts)
  {
    hide Build, BuildItems, Unpack.Read, Unpack.ReadItems, Both;
    var v := Build(e, items[0], args, depth).result.value;
    ItemBuilt(e, items, done, args, depth);
    var all := BuildItems(e, items, done, args, depth).result.value.items;
    assert all[|done|] == (done + [v])[|done|] == v;
    ItemRead(m, items, all, |done|, a.asked + (b.asked + more), puts, depth);
    assert a.asked + b.asked + more == a.asked + (b.asked + more);
    assert puts + a.puts + b.puts == puts + (a.puts + b.puts);
  }

  lemma ItemAsked(items: seq<Format>, args: seq<Item>, k: nat, depth: nat)
    requires items != [] && (forall i | 0 <= i < |items| :: Both(items[i])) && AskItems(items, args, k, depth).Some?
    ensures var a := Ask(items[0], args, k, depth);
            && a.Some?
            && var b := AskItems(items[1..], a.value.rest, k + |a.value.puts|, depth);
               b.Some? && AskItems(items, args, k, depth) == Some(Follow(a.value, b.value))
  {
    hide Ask, Follow;
  }

  lemma ItemBuilt(e: Encode, items: seq<Format>, done: seq<Json>, args: seq<Item>, depth: nat)
    requires items != [] && (forall i | 0 <= i < |items| :: Both(items[i]))
    ensures var r := Build(e, items[0], args, depth);
            r.result.Made? ==>
              BuildItems(e, items, done, args, depth) == BuildItems(e, items[1..], done + [r.result.value], r.args, depth)
  {
    hide Make, ShapeOf, ShapesOf, LeftOut;
    ShapesFirst(items);
    var r := Build(e, items[0], args, depth);
    if r.result.Made? { NeverLeftOut(items[0], r.result.value); }
  }

  lemma ItemRead(m: Unpack.Mode, items: seq<Format>, all: seq<Json>, k: nat, rest: seq<Unpack.Arg>, puts: seq<Unpack.Put>,
      depth: nat)
    requires items != [] && k < |all|
    ensures var r := Unpack.Read(m, items[0], Some(all[k]), Unpack.Io(rest, puts), depth);
            Unpack.ReadItems(m, items, Unpack.Open, Some(all), k, Unpack.Io(rest, puts), depth) ==
              if r.code.OK? then Unpack.ReadItems(m, items[1..], Unpack.Open, Some(all), k + 1, r.io, depth) else r
  {
    hide Unpack.Read;
  }

  /** The object of the fields keeps the members it had, and reading it back gives the arguments of the fields. */
  ghost predicate FieldsGiven(e: Encode, m: Unpack.Mode, fields: seq<Field>, done: map<string, Json>, args: seq<Item>, q: Echo,
      depth: nat, count: nat, more: seq<Unpack.Arg>, puts: seq<Unpack.Put>)
    requires forall i | 0 <= i < |fields| :: !fields[i].optional && Both(fields[i].value)
  {
    var r := BuildFields(e, fields, done, args, depth);
    && r.result.Made? && r.args == q.rest && r.result.value.JObject?
    && (forall x | x in done :: x in r.result.value.members && r.result.value.members[x] == done[x])
    && Unpack.ReadFields(m, fields, Unpack.Open, Some(r.result.value.members), count, Unpack.Io(q.asked + more, puts), depth)
         == Done(more, puts + q.puts)
  }

  lemma {:induction false} BackFields(e: Encode, m: Unpack.Mode, fields: seq<Field>, done: map<string, Json>, args: seq<Item>,
      k: nat, depth: nat, count: nat, more: seq<Unpack.Arg>, puts: seq<Unpack.Put>)
    requires Faithful(e, m) && (forall i | 0 <= i < |fields| :: !fields[i].optional && Both(fields[i].value))
    requires AskFields(fields, done.Keys, args, k, depth).Some?
    ensures FieldsGiven(e, m, fields, done, args, AskFields(fields, done.Keys, args, k, depth).value, depth, count, more, puts)
    decreases fields, 1
  {
    hide Faithful, Ask, Build, Unpack.Read;
    if fields == [] {
      assert [] + more == more && puts + [] == puts;
    } else {
      hide AskFields, BuildFields, Unpack.ReadFields, FieldsGiven, Both, Follow, Done;
      FieldAsked(fields, done.Keys, args, k, depth);
      var f, name := fields[0], args[0].s.value;
      assert f.value < f;
      var a := Ask(f.value, args[1..], k, depth).value;
      var b := AskFields(fields[1..], done.Keys + {name}, a.rest, k + |a.puts|, depth).value;
      Back(e, m, f.value, args[1..], k, depth, b.asked + more, puts);
      var next := done[name := Build(e, f.value, args[1..], depth).result.value];
      assert next.Keys == done.Keys + {name};
      BackFields(e, m, fields[1..], next, a.rest, k + |a.puts|, depth, count + 1, more, puts + a.puts);
      FieldsStep(e, m, fields, done, args, a, b, depth, count, more, puts);
    }
  }

  /** One member in front of others that are read back. */
  lemma FieldsStep(e: Encode, m: Unpack.Mode, fields: seq<Field>, done: map<string, Json>, args: seq<Item>, a: Echo, b: Echo,
      depth: nat, count: nat, more: seq<Unpack.Arg>, puts: seq<Unpack.Put>)
    requires fields != [] && (forall i | 0 <= i < |fields| :: !fields[i].optional && Both(fields[i].value))
    requires args != [] && args[0].Chars? && args[0].s.Some? && args[0].s.value !in done
    requires var r := Build(e, fields[0].value, args[1..], depth);
             && r.result.Made? && r.args == a.rest
             && Unpack.Read(m, fields[0].value, Some(r.result.value), Unpack.Io(a.asked + (b.asked + more), puts), depth)
                  == Done(b.asked + more, puts + a.puts)
             && FieldsGiven(e, m, fields[1..], done[args[0].s.value := r.result.value], a.rest, b, depth, count + 1, more, puts + a.puts)
    ensures FieldsGiven(e, m, fields, done, args, Follow(Echo([Unpack.Name(args[0].s.value)] + a.asked, a.puts, a.rest), b),
              depth, count, more, puts)
  {
    hide Build, BuildFields, Unpack.Read, Unpack.ReadFields, Both, Follow, Done;
    var name, v := args[0].s.value, Build(e, fields[0].value, args[1..], depth).result.value;
    var next := done[name := v];
    FieldBuilt(e, fields, done, args, depth);
    var all := BuildFields(e, fields, done, args, depth).result.value.members;
    assert name in next && all[name] == v;
    FieldsJoined(m, fields, all, count, name, a, b, more, puts, depth);
    FollowRest(Echo([Unpack.Name(name)] + a.asked, a.puts, a.rest), b);
    assert forall x | x in done :: x in next && next[x] == done[x];
  }

  lemma FollowRest(a: Echo, b: Echo)
    ensures Follow(a, b).rest == b.rest
  {
  }

  /** The first member and the others, read one after the other. */
  lemma FieldsJoined(m: Unpack.Mode, fields: seq<Field>, all: map<string, Json>, count: nat, name: string, a: Echo, b: Echo,
      more: seq<Unpack.Arg>, puts: seq<Unpack.Put>, depth: nat)
    requires fields != [] && name in all
    requires Unpack.Read(m, fields[0].value, Some(all[name]), Unpack.Io(a.asked + (b.asked + more), puts), depth)
          == Done(b.asked + more, puts + a.puts)
    requires Unpack.ReadFields(m, fields[1..], Unpack.Open, Some(all), count + 1, Unpack.Io(b.asked + more, puts + a.puts), depth)
          == Done(more, puts + a.puts + b.puts)
    ensures var q := Follow(Echo([Unpack.Name(name)] + a.asked, a.puts, a.rest), b);
            Unpack.ReadFields(m, fields, Unpack.Open, Some(all), count, Unpack.Io(q.asked + more, puts), depth) == Done(more, puts + q.puts)
  {
    hide Unpack.Read, Unpack.ReadFields;
    FieldRead(m, fields, all, count, name, a.asked + (b.asked + more), puts, depth);
    Joined3(Unpack.Name(name), a.asked, b.asked, more);
    assert puts + a.puts + b.puts == puts + (a.puts + b.puts);
  }

  lemma Joined3(x: Unpack.Arg, a: seq<Unpack.Arg>, b: seq<Unpack.Arg>, c: seq<Unpack.Arg>)
    ensures [x] + a + b + c == [x] + (a + (b + c))
  {
  }

  lemma FieldAsked(fields: seq<Field>, names: set<string>, args: seq<Item>, k: nat, depth: nat)
    requires fields != [] && (forall i | 0 <= i < |fields| :: !fields[i].optional && Both(fields[i].value))
    requires AskFields(fields, names, args, k, depth).Some?
    ensures args != [] && args[0].Chars? && args[0].s.Some? && args[0].s.value !in names
    ensures var a := Ask(fields[0].value, args[1..], k, depth);
            && a.Some?
            && var b := AskFields(fields[1..], names + {args[0].s.value}, a.value.rest, k + |a.value.puts|, depth);
               b.Some? && AskFields(fields, names, args, k, depth) ==
                 Some(Follow(Echo([Unpack.Name(args[0].s.value)] + a.value.asked, a.value.puts, a.value.rest), b.value))
  {
    hide Ask, Follow;
  }

  lemma FieldBuilt(e: Encode, fields: seq<Field>, done: map<string, Json>, args: seq<Item>, depth: nat)
    requires fields != [] && (forall i | 0 <= i < |fields| :: !fields[i].optional && Both(fields[i].value))
    requires args != [] && args[0].Chars? && args[0].s.Some?
    ensures var r := Build(e, fields[0].value, args[1..], depth);
            r.result.Made? ==>
              BuildFields(e, fields, done, args, depth) ==
                BuildFields(e, fields[1..], done[args[0].s.value := r.result.value], r.args, depth)
  {
    hide Make, ShapeOf, MembersOf, LeftOut, Join;
    MembersFirst(fields);
    JoinOne(false, args);
    var r := Build(e, fields[0].value, args[1..], depth);
    if r.result.Made? { NeverLeftOut(fields[0].value, r.result.value); }
  }

  /** The member of that name is read, then the others. */
  lemma FieldRead(m: Unpack.Mode, fields: seq<Field>, all: map<string, Json>, count: nat, name: string,
      rest: seq<Unpack.Arg>, puts: seq<Unpack.Put>, depth: nat)
    requires fields != [] && name in all
    ensures var r := Unpack.Read(m, fields[0].value, Some(all[name]), Unpack.Io(rest, puts), depth);
            Unpack.ReadFields(m, fields, Unpack.Open, Some(all), count, Unpack.Io([Unpack.Name(name)] + rest, puts), depth) ==
              if r.code.OK? then Unpack.ReadFields(m, fields[1..], Unpack.Open, Some(all), count + 1, r.io, depth) else r
  {
    hide Unpack.Read;
    assert ([Unpack.Name(name)] + rest)[1..] == rest;
  }

  /**
   Round trip: a value packed from arguments with a format, its separators apart, is unpacked with the same format, and
   the places hold the arguments.
   */
  lemma RoundTrip(e: Encode, m: Unpack.Mode, f: Format, desc: string, args: seq<Item>)
    requires Faithful(e, m) && Both(f) && UnpackProofs.Strip(desc) == Unpack.Text(f)
    requires Ask(f, args, 0, 0).Some?
    ensures var q, r := Ask(f, args, 0, 0).value, Run(e, Start(desc, args));
            r.Made? && UnpackProofs.Call(m, desc, r.value, q.asked) == Done([], q.puts)
  {
    var q := Ask(f, args, 0, 0).value;
    SameText(f);
    PackProofs.Packed(e, ShapeOf(f), desc, args);
    Back(e, m, f, args, 0, 0, [], []);
    BothGood(f);
    assert q.asked + [] == q.asked && [] + q.puts == q.puts;
    UnpackProofs.Unpacked(m, f, desc, q.asked, Build(e, f, args, 0).result.value);
    hide Run, Ask, Build, Unpack.Run, Unpack.Read;
  }

  /** The octets of a text, and the text of octets. */
  function Octets(s: string): seq<byte>
    requires AreOctets(s)
  {
    seq(|s|, i requires 0 <= i < |s| => ByteOf(s[i] as nat))
  }

  function Chars(b: seq<byte>): (s: string)
    ensures AreOctets(s)
  {
    seq(|b|, i requires 0 <= i < |b| => b[i] as char)
  }

  function Encode64(s: string, url: bool): string {
    if AreOctets(s) then Chars(Base64.Encoded(Octets(s), 0, false, url)) else ""
  }

  function Decode64(s: string): Option<string> {
    if !AreOctets(s) then None
    else
      match Base64.Decoded(Octets(s), 0)
      case None => None
      case Some(b) => Some(Chars(b))
  }

  lemma OctetsChars(b: seq<byte>)
    ensures Octets(Chars(b)) == b
  {
  }

  lemma CharsOctets(s: string)
    requires AreOctets(s)
    ensures Chars(Octets(s)) == s
  {
    hide Octets, Chars;
    CharsLength(s);
    forall i | 0 <= i < |s| ensures Chars(Octets(s))[i] == s[i] {
      CharsAt(s, i);
      OctetChar(s[i]);
    }
  }

  lemma CharsLength(s: string)
    requires AreOctets(s)
    ensures |Chars(Octets(s))| == |s|
  {
  }

  lemma CharsAt(s: string, i: nat)
    requires AreOctets(s) && i < |s|
    ensures i < |Chars(Octets(s))| && Chars(Octets(s))[i] == ByteOf(s[i] as nat) as char
  {
  }

  lemma OctetChar(c: char)
    requires c < 256 as char
    ensures ByteOf(c as nat) as char == c
  {
    assert ByteOf(c as nat) as nat == c as nat;
    hide ByteOf;
  }

  /** With the encoding of base 64, for both alphabets, nothing is lost. */
  lemma Base64Faithful(conv: (char, Json) -> Option<int>)
    requires forall c, n | Fits(c, n) :: conv(c, JInt(n)) == Some(n)
    ensures Faithful(Encode64, Unpack.Mode(true, conv, Decode64))
  {
    hide Base64.Decoded, Base64.Encoded;
    forall b, url | AreOctets(b) ensures Decode64(Encode64(b, url)) == Some(b) {
      OctetsChars(Base64.Encoded(Octets(b), 0, false, url));
      Base64.RoundTrip(Octets(b), 0, false, url, 0);
      CharsOctets(b);
    }
    Base64.DecodedEmpty();
    assert Octets("") == [] && Chars([]) == "";
  }

  lemma {:induction false} BothGood(f: Format)
    requires Both(f)
    ensures Unpack.Good(f)
  {
    match f
    case Arr(items, _) => forall i | 0 <= i < |items| ensures Unpack.Good(items[i]) { BothGood(items[i]); }
    case Obj(fields, _) =>
      forall i | 0 <= i < |fields| ensures Unpack.Good(fields[i].value) {
        assert fields[i].value < fields[i];
        BothGood(fields[i].value);
      }
    case _ =>
  }
}
