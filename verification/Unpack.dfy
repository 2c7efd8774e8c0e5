/**
 `vunpack`: a JSON value is read as a format tells, with an explicit stack.

 `Read` is the recursive reading of a format tree; `Step` is one turn of the loop over
 the text of the format.  Arguments of the call are consumed by both in the same order.
 */
module Unpack {
  import opened Json
  import opened Wrappers

  datatype Code =
    | OK | TRUNCATED | INTERNAL_ERROR | INVALID_CHARACTER | TOO_DEEP | NULL_KEY | OUT_OF_RANGE
    | DICTIONARY_INCOMPLETE | ARRAY_INCOMPLETE | ARRAY_EXTRA_FIELD | MISSFIT_TYPE | KEY_NOT_FOUND | BAD_BASE64

  const STACKCOUNT: nat := 32

  /** What follows the format in a call: names of members, and places where to store. */
  datatype Arg = Name(name: string) | Place(place: int) | Null

  datatype Put = Put(place: int, what: Json)

  /** Arguments left, and what was stored so far. */
  datatype Io = Io(args: seq<Arg>, puts: seq<Put>)

  /** Store or check mode, with the reading of integers for 'i' and 'I' and the decoding of
      base 64 for 'y' and 'Y': any total functions. */
  datatype Mode = Mode(store: bool, conv: (char, Json) -> Option<int>, decode: string -> Option<string>)

  datatype Reading = Reading(code: Code, io: Io)

  function TakeName(io: Io): (Option<string>, Io) {
    if io.args == [] then (None, io)
    else (if io.args[0].Name? then Some(io.args[0].name) else None, io.(args := io.args[1..]))
  }

  /** In check mode no place is given. */
  function TakePlace(m: Mode, io: Io): (Option<int>, Io) {
    if !m.store || io.args == [] then (None, io)
    else (if io.args[0].Place? then Some(io.args[0].place) else None, io.(args := io.args[1..]))
  }

  function Store(io: Io, place: Option<int>, what: Json): Io {
    if place.Some? then io.(puts := io.puts + [Put(place.value, what)]) else io
  }

  const LEAVES := "nbiIfFoO"

  /** What a leaf stores for a value, None if the value does not fit. */
  function LeafValue(m: Mode, c: char, v: Json): Option<Json> {
    if c == 'n' then (if v.JNull? then Some(v) else None)
    else if c == 'b' then (if v.JBool? then Some(v) else None)
    else if c == 'i' || c == 'I' then
      (var n := m.conv(c, v); if n.Some? then Some(JInt(n.value)) else None)
    else if c == 'f' then (if v.JDouble? then Some(v) else None)
    else if c == 'F' then
      (if v.JDouble? then Some(v) else if v.JInt? then Some(JDouble(v.n as real)) else None)
    else Some(v)
  }

  /** 'y' and 'Y': null is an empty string of bytes, and the text is only decoded when stored. */
  function ReadBytes(m: Mode, v: Option<Json>, io: Io): Reading {
    var (place, io) := TakePlace(m, io);
    var (size, io) := TakePlace(m, io);
    if v.None? then Reading(OK, io)
    else if v.value.JNull? then
      Reading(OK, if place.Some? && size.Some? then Store(Store(io, place, JNull), size, JInt(0)) else io)
    else if !v.value.JString? then Reading(MISSFIT_TYPE, io)
    else if place.None? || size.None? then Reading(OK, io)
    else
      var b := m.decode(v.value.s);
      if b.None? then Reading(BAD_BASE64, io)
      else Reading(OK, Store(Store(io, place, JString(b.value)), size, JInt(|b.value|)))
  }

  // ----- the tree -----

  datatype Tail = Open | Star | Bang

  datatype Format =
    | Leaf(c: char)
    | Str(size: bool)
    | Bytes(url: bool)
    | Arr(items: seq<Format>, tail: Tail)
    | Obj(fields: seq<Field>, tail: Tail)

  datatype Field = Field(optional: bool, value: Format)

  predicate Good(f: Format) {
    match f
    case Leaf(c) => c in LEAVES
    case Str(_) => true
    case Bytes(_) => true
    case Arr(items, _) => forall i | 0 <= i < |items| :: Good(items[i])
    case Obj(fields, _) => forall i | 0 <= i < |fields| :: Good(fields[i].value)
  }

  function TailText(t: Tail): string {
    match t case Open => "" case Star => "*" case Bang => "!"
  }

  function Text(f: Format): (r: string)
    ensures |r| > 0
    decreases f, 0
  {
    match f
    case Leaf(c) => [c]
    case Str(size) => if size then "s%" else "s"
    case Bytes(url) => if url then "y" else "Y"
    case Arr(items, tail) => "[" + ItemsText(items) + TailText(tail) + "]"
    case Obj(fields, tail) => "{" + FieldsText(fields) + TailText(tail) + "}"
  }

  function ItemsText(items: seq<Format>): string
    decreases items, 1
  {
    if items == [] then "" else Text(items[0]) + ItemsText(items[1..])
  }

  function FieldsText(fields: seq<Field>): string
    decreases fields, 1
  {
    if fields == [] then ""
    else
      var f := fields[0];
      assert f.value < f;
      "s" + (if fields[0].optional then "?" else "") + Text(fields[0].value) + FieldsText(fields[1..])
  }

  // ----- recursive reading -----

  /** Reads a value, or only skips its arguments if there is none. */
  function Read(m: Mode, f: Format, v: Option<Json>, io: Io, depth: nat): Reading
    decreases f, 0
  {
    match f
    case Leaf(c) =>
      var (place, io) := if c == 'n' then (None, io) else TakePlace(m, io);
      if v.None? then Reading(OK, io)
      else
        var w := LeafValue(m, c, v.value);
        if w.None? then Reading(MISSFIT_TYPE, io) else Reading(OK, Store(io, place, w.value))
    case Str(size) =>
      var (place, io) := TakePlace(m, io);
      if v.Some? && !v.value.JString? then Reading(MISSFIT_TYPE, io)
      else
        var io := if v.Some? then Store(io, place, v.value) else io;
        if !size then Reading(OK, io)
        else
          var (place, io) := TakePlace(m, io);
          Reading(OK, if v.Some? then Store(io, place, JInt(|v.value.s|)) else io)
    case Bytes(_) => ReadBytes(m, v, io)
    case Arr(items, tail) =>
      if depth >= STACKCOUNT then Reading(TOO_DEEP, io)
      else if v.Some? && !v.value.JArray? then Reading(MISSFIT_TYPE, io)
      else ReadItems(m, items, tail, if v.Some? then Some(v.value.items) else None, 0, io, depth + 1)
    case Obj(fields, tail) =>
      if depth >= STACKCOUNT then Reading(TOO_DEEP, io)
      else if v.Some? && !v.value.JObject? then Reading(MISSFIT_TYPE, io)
      else ReadFields(m, fields, tail, if v.Some? then Some(v.value.members) else None, 0, io, depth + 1)
  }

  function ReadItems(m: Mode, items: seq<Format>, tail: Tail, a: Option<seq<Json>>, k: nat, io: Io, depth: nat): Reading
    decreases items, 1
  {
    if items == [] then
      if tail.Bang? && a.Some? && k < |a.value| then Reading(ARRAY_INCOMPLETE, io)
      else if tail.Bang? && a.Some? && k > |a.value| then Reading(ARRAY_EXTRA_FIELD, io)
      else Reading(OK, io)
    else if a.Some? && k >= |a.value| then Reading(OUT_OF_RANGE, io)
    else
      var r := Read(m, items[0], if a.Some? then Some(a.value[k]) else None, io, depth);
      if r.code.OK? then ReadItems(m, items[1..], tail, a, k + 1, r.io, depth) else r
  }

  /** k is the number of named members that were found. */
  function ReadFields(m: Mode, fields: seq<Field>, tail: Tail, o: Option<map<string, Json>>, k: nat, io: Io,
      depth: nat): Reading
    decreases fields, 1
  {
    if fields == [] then
      if tail.Bang? && o.Some? && k != |o.value| then Reading(DICTIONARY_INCOMPLETE, io)
      else Reading(OK, io)
    else
      var (name, io) := TakeName(io);
      if name.None? then Reading(NULL_KEY, io)
      else
        var found := o.Some? && name.value in o.value;
        if o.Some? && !found && !fields[0].optional then Reading(KEY_NOT_FOUND, io)
        else
          var f := fields[0];
          assert f.value < f;
          var r := Read(m, f.value, if found then Some(o.value[name.value]) else None, io, depth);
          if r.code.OK? then ReadFields(m, fields[1..], tail, o, if found then k + 1 else k, r.io, depth) else r
  }

  // ----- the loop over the text -----

  const IGNORED := " \t\n\r,:"

  function Skip(d: string): (r: string)
    ensures |r| <= |d|
    ensures r != "" ==> r[0] !in IGNORED
  {
    if d != "" && d[0] in IGNORED then Skip(d[1..]) else d
  }

  const ANY := "[{snbiIfFoOyY"

  /** The characters that begin a value. */
  predicate Begins(c: char) { c in ANY }

  /** The characters that are expected: those of a list, or the only one of xacc. */
  datatype Acc = InAny | InArr | InKey | InXacc

  /** type 0, ']' , '}' and ':' of the code. */
  datatype Within = Top | InArray | InObject | InMember

  datatype Frame = Frame(parent: Json, acc: Acc, index: nat, count: nat, within: Within)

  datatype State = State(d: string, io: Io, stack: seq<Frame>, acc: Acc, xacc: Within, ignore: nat, obj: Json)

  datatype Outcome = Stop(result: Reading) | Go(s: State)

  predicate Expected(acc: Acc, xacc: Within, c: char) {
    match acc
    case InAny => Begins(c)
    case InArr => c == '*' || c == '!' || c == ']' || Begins(c)
    case InKey => c == '*' || c == '!' || c == '}' || c == 's'
    case InXacc => (xacc.InArray? && c == ']') || (xacc.InObject? && c == '}') || (xacc.InMember? && c == ':')
  }

  predicate Next(d: string, c: char) { d != "" && d[0] == c }

  function Advance(d: string): (r: string)
    requires d != ""
    ensures |r| < |d|
  {
    Skip(d[1..])
  }

  function Last(s: seq<Frame>): Frame
    requires s != []
  {
    s[|s| - 1]
  }

  function WithLast(s: seq<Frame>, f: Frame): (r: seq<Frame>)
    requires s != []
    ensures |r| == |s|
  {
    s[..|s| - 1] + [f]
  }

  /** The end of a turn: what comes after a value. */
  function After(s: State): (r: Outcome)
    ensures r.Go? ==> r.s.d == s.d
  {
    match s.xacc
    case Top =>
      if s.stack != [] then Stop(Reading(INTERNAL_ERROR, s.io))
      else if s.d != "" then Stop(Reading(INVALID_CHARACTER, s.io))
      else Stop(Reading(OK, s.io))
    case InArray =>
      if s.ignore == 0 && s.stack != [] && (s.d == "" || Begins(s.d[0])) then
        var top := Last(s.stack);
        if top.index >= top.count || !top.parent.JArray? || top.index >= |top.parent.items|
        then Stop(Reading(OUT_OF_RANGE, s.io))
        else Go(s.(obj := top.parent.items[top.index], stack := WithLast(s.stack, top.(index := top.index + 1))))
      else Go(s)
    case InMember =>
      Go(s.(acc := InKey, xacc := InObject, ignore := if s.ignore > 0 then s.ignore - 1 else 0))
    case InObject => Stop(Reading(INTERNAL_ERROR, s.io))
  }

  function StepKey(s: State): (r: Outcome)
    ensures r.Go? ==> |r.s.d| <= |s.d|
  {
    var (name, io) := TakeName(s.io);
    if name.None? then Stop(Reading(NULL_KEY, io))
    else
      var optional := Next(s.d, '?');
      var s := s.(io := io, d := if optional then Advance(s.d) else s.d, xacc := InMember, acc := InAny);
      if s.ignore > 0 then Go(s.(ignore := s.ignore + 1))
      else if s.stack != [] && Last(s.stack).parent.JObject? && name.value in Last(s.stack).parent.members then
        var top := Last(s.stack);
        Go(s.(obj := top.parent.members[name.value], stack := WithLast(s.stack, top.(index := top.index + 1))))
      else if !optional then Stop(Reading(KEY_NOT_FOUND, io))
      else Go(s.(ignore := 1, obj := JNull))
  }

  function StepString(m: Mode, s: State): (r: Outcome)
    ensures r.Go? ==> |r.s.d| <= |s.d|
  {
    var (place, io) := TakePlace(m, s.io);
    if s.ignore == 0 && !s.obj.JString? then Stop(Reading(MISSFIT_TYPE, io))
    else
      var io := if s.ignore == 0 then Store(io, place, s.obj) else io;
      if Next(s.d, '%') then
        var (place, io) := TakePlace(m, io);
        After(s.(d := Advance(s.d), io := if s.ignore == 0 then Store(io, place, JInt(|s.obj.s|)) else io))
      else After(s.(io := io))
  }

  function StepLeaf(m: Mode, c: char, s: State): (r: Outcome)
    ensures r.Go? ==> |r.s.d| <= |s.d|
  {
    var (place, io) := if c == 'n' then (None, s.io) else TakePlace(m, s.io);
    if s.ignore > 0 then After(s.(io := io))
    else
      var w := LeafValue(m, c, s.obj);
      if w.None? then Stop(Reading(MISSFIT_TYPE, io)) else After(s.(io := Store(io, place, w.value)))
  }

  function StepBytes(m: Mode, s: State): (r: Outcome)
    ensures r.Go? ==> |r.s.d| <= |s.d|
  {
    var r := ReadBytes(m, if s.ignore > 0 then None else Some(s.obj), s.io);
    if r.code.OK? then After(s.(io := r.io)) else Stop(r)
  }

  function StepOpen(c: char, s: State): (r: Outcome)
    ensures r.Go? ==> |r.s.d| <= |s.d|
  {
    if |s.stack| >= STACKCOUNT then Stop(Reading(TOO_DEEP, s.io))
    else if s.ignore == 0 && c == '[' && !s.obj.JArray? then Stop(Reading(MISSFIT_TYPE, s.io))
    else if s.ignore == 0 && c == '{' && !s.obj.JObject? then Stop(Reading(MISSFIT_TYPE, s.io))
    else
      var count := if s.ignore > 0 then 0 else if s.obj.JArray? then |s.obj.items| else if s.obj.JObject? then |s.obj.members| else 0;
      var stack := s.stack + [Frame(s.obj, s.acc, 0, count, s.xacc)];
      var s := s.(stack := stack, ignore := if s.ignore > 0 then s.ignore + 1 else 0);
      if c == '[' then After(s.(xacc := InArray, acc := InArr)) else Go(s.(xacc := InObject, acc := InKey))
  }

  function StepClose(c: char, s: State): (r: Outcome)
    ensures r.Go? ==> |r.s.d| <= |s.d|
  {
    if s.stack == [] || s.xacc != (if c == ']' then InArray else InObject) then Stop(Reading(INTERNAL_ERROR, s.io))
    else
      var top := Last(s.stack);
      After(s.(acc := top.acc, xacc := top.within, stack := s.stack[..|s.stack| - 1],
               ignore := if s.ignore > 0 then s.ignore - 1 else 0))
  }

  function StepBang(s: State): (r: Outcome)
    ensures r.Go? ==> |r.s.d| <= |s.d|
  {
    if s.stack == [] || !((s.xacc.InArray? && Next(s.d, ']')) || (s.xacc.InObject? && Next(s.d, '}')))
    then Stop(Reading(INVALID_CHARACTER, s.io))
    else
      var top := Last(s.stack);
      if s.ignore == 0 && top.index != top.count then
        Stop(Reading(if s.xacc.InObject? then DICTIONARY_INCOMPLETE
                     else if top.index < top.count then ARRAY_INCOMPLETE else ARRAY_EXTRA_FIELD, s.io))
      else Go(s.(acc := InXacc))
  }

  /** One turn of the loop. */
  function Step(m: Mode, s: State): (r: Outcome)
    ensures r.Go? ==> |r.s.d| < |s.d|
  {
    if s.d == "" then Stop(Reading(TRUNCATED, s.io))
    else
      var c := s.d[0];
      if !Expected(s.acc, s.xacc, c) then Stop(Reading(INVALID_CHARACTER, s.io))
      else
        var s := s.(d := Advance(s.d));
        if c == 's' && s.xacc.InObject? then StepKey(s)
        else if c == 's' then StepString(m, s)
        else if c in LEAVES then StepLeaf(m, c, s)
        else if c == 'y' || c == 'Y' then StepBytes(m, s)
        else if c == '[' || c == '{' then StepOpen(c, s)
        else if c == ']' || c == '}' then StepClose(c, s)
        else if c == '!' then StepBang(s)
        else if c == '*' then Go(s.(acc := InXacc))
        else Stop(Reading(INTERNAL_ERROR, s.io))
  }

  function Run(m: Mode, s: State): Reading
    decreases |s.d|
  {
    match Step(m, s)
    case Stop(r) => r
    case Go(s') => Run(m, s')
  }

  function Start(desc: string, args: seq<Arg>, value: Json): State {
    State(Skip(desc), Io(args, []), [], InAny, Top, 0, value)
  }

  method Vunpack(m: Mode, value: Json, desc: string, args: seq<Arg>) returns (r: Reading)
    ensures r == Run(m, Start(desc, args, value))
  {
    var s := Start(desc, args, value);
    while true
      invariant Run(m, s) == Run(m, Start(desc, args, value))
      decreases |s.d|
    {
      match Step(m, s)
      case Stop(r') => return r';
      case Go(s') => s := s';
    }
  }
}
