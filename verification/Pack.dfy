/**
 `rp_jsonc_vpack`: a JSON value is made as a format tells, from the arguments of a call, with an explicit stack.

 `Make` is the recursive making of a shape; `Step` is one turn of the loop over the text of the format.
 */
module Pack {
  import opened Json
  import opened Wrappers
  import Unpack

  type Within = Unpack.Within

  datatype Error = NullObject | Truncated | Internal | InvalidCharacter | TooDeep | NullKey | NullString

  datatype Result = Made(value: Json) | Failed(error: Error)

  /** What follows the format in a call: texts and bytes that may be null, lengths, numbers, and values that may be null. */
  datatype Item = Chars(s: Option<string>) | Length(n: nat) | Truth(b: bool) | Whole(i: int) | Double(r: real) | Node(j: Json)

  /** The encoding of bytes in base 64, with the alphabet for URLs or not: any total function. */
  type Encode = (string, bool) -> string

  function TakeChars(args: seq<Item>): (Option<string>, seq<Item>) {
    if args == [] then (None, []) else (if args[0].Chars? then args[0].s else None, args[1..])
  }

  function TakeLength(args: seq<Item>): (nat, seq<Item>) {
    if args == [] then (0, []) else (if args[0].Length? then args[0].n else 0, args[1..])
  }

  /** The value of an argument that is not a text. */
  function TakeValue(c: char, args: seq<Item>): (Json, seq<Item>) {
    if c == 'n' then (JNull, args)
    else
      var first := if args == [] then Node(JNull) else args[0];
      var rest := if args == [] then [] else args[1..];
      if c == 'b' then (JBool(first.Truth? && first.b), rest)
      else if c == 'i' || c == 'I' then (JInt(if first.Whole? then first.i else 0), rest)
      else if c == 'f' then (JDouble(if first.Double? then first.r else 0.0), rest)
      else (if first.Node? then first.j else JNull, rest)
  }

  /** A text with its length: what the length takes of it. */
  function Cut(s: string, n: nat): string {
    if n <= |s| then s[..n] else s
  }

  // ----- the loop over the text -----

  datatype Accept = Any | InArr | InKey

  const ANY := "[{snbiIfoOyY"

  predicate Accepts(acc: Accept, c: char) {
    match acc
    case Any => c in ANY
    case InArr => c == ']' || c in ANY
    case InKey => c == 's' || c == '}'
  }

  /** A container that is being made; the first frame is for the result. */
  datatype Frame = Frame(cont: Json, key: Option<string>, acc: Accept, within: Within)

  datatype State = State(d: string, args: seq<Item>, stack: seq<Frame>)

  datatype Outcome = Stop(result: Result) | Go(s: State)

  /** The texts that a plus joins; None if all are null. */
  function Piece(d: string, args: seq<Item>, text: Option<string>, nullable: bool):
      (r: (Option<string>, bool, string, seq<Item>))
    ensures |r.2| <= |d|
  {
    var (str, args) := TakeChars(args);
    var before := Unpack.Next(d, '?');
    var d1 := if before then Unpack.Advance(d) else d;
    var sized := Unpack.Next(d1, '%') || Unpack.Next(d1, '#');
    var (len, args2) := if sized then TakeLength(args) else (0, args);
    var d2 := if sized then Unpack.Advance(d1) else d1;
    var piece := if str.Some? then (if sized then Cut(str.value, len) else str.value) else "";
    var all := if str.None? then text else Some((if text.Some? then text.value else "") + piece);
    var after := Unpack.Next(d2, '?');
    var d3 := if after then Unpack.Advance(d2) else d2;
    var nulls := nullable || before || after;
    (all, nulls, d3, args2)
  }

  /** The pieces that '+' puts together. */
  function Gather(d: string, args: seq<Item>, text: Option<string>, nullable: bool):
      (r: (Option<string>, bool, string, seq<Item>))
    ensures |r.2| <= |d|
    decreases |d|
  {
    var (all, nulls, next, rest) := Piece(d, args, text, nullable);
    if Unpack.Next(next, '+') then Gather(Unpack.Advance(next), rest, all, nulls) else (all, nulls, next, rest)
  }

  function Top(s: State): Frame
    requires s.stack != []
  {
    s.stack[|s.stack| - 1]
  }

  function WithTop(s: State, f: Frame): (r: State)
    requires s.stack != []
    ensures r.d == s.d && r.args == s.args && |r.stack| == |s.stack|
  {
    s.(stack := s.stack[..|s.stack| - 1] + [f])
  }

  /** A value that is made is the result, or goes in the container; a star leaves out the null ones. */
  function After(s: State, obj: Json): (r: Outcome)
    requires s.stack != []
    ensures r.Go? ==> |r.s.d| <= |s.d| && r.s.stack != []
  {
    var top := Top(s);
    var star := Unpack.Next(s.d, '*');
    var s1 := if star then s.(d := Unpack.Advance(s.d)) else s;
    var kept := obj != JNull || !star;
    match top.within
    case Top =>
      if |s.stack| != 1 then Stop(Failed(Internal))
      else if s.d != "" then Stop(Failed(InvalidCharacter))
      else Stop(Made(obj))
    case InArray =>
      if !top.cont.JArray? then Stop(Failed(Internal))
      else Go(WithTop(s1, if kept then top.(cont := JArray(top.cont.items + [obj])) else top))
    case InObject =>
      if obj == JNull then Stop(Failed(NullKey))
      else if !obj.JString? then Stop(Failed(Internal))
      else Go(WithTop(s, top.(key := Some(obj.s), acc := Any, within := Unpack.InMember)))
    case InMember =>
      if !top.cont.JObject? || top.key.None? then Stop(Failed(Internal))
      else
        var cont := if kept then JObject(top.cont.members[top.key.value := obj]) else top.cont;
        Go(WithTop(s1, Frame(cont, None, InKey, Unpack.InObject)))
  }

  function StepString(s: State): (r: Outcome)
    requires s.stack != []
    ensures r.Go? ==> |r.s.d| <= |s.d| && r.s.stack != []
  {
    var (text, nullable, d, args) := Gather(s.d, s.args, None, false);
    var s1 := s.(d := d, args := args);
    if text.Some? then After(s1, JString(text.value))
    else if nullable || Unpack.Next(d, '*') then After(s1, JNull)
    else Stop(Failed(NullString))
  }

  function StepValue(c: char, s: State): (r: Outcome)
    requires s.stack != []
    ensures r.Go? ==> |r.s.d| <= |s.d| && r.s.stack != []
  {
    var (obj, args) := TakeValue(c, s.args);
    var s1 := s.(args := args);
    if c != 'o' && c != 'O' then After(s1, obj)
    else if Unpack.Next(s.d, '?') then After(s1.(d := Unpack.Advance(s.d)), obj)
    else if !Unpack.Next(s.d, '*') && obj == JNull then Stop(Failed(NullObject))
    else After(s1, obj)
  }

  function StepBytes(e: Encode, c: char, s: State): (r: Outcome)
    requires s.stack != []
    ensures r.Go? ==> |r.s.d| <= |s.d| && r.s.stack != []
  {
    var (bytes, args) := TakeChars(s.args);
    var (n, args2) := TakeLength(args);
    var s1 := s.(args := args2);
    var obj := if bytes.None? || n == 0 then JNull else JString(e(Cut(bytes.value, n), c == 'y'));
    if Unpack.Next(s.d, '?') then After(s1.(d := Unpack.Advance(s.d)), obj)
    else if !Unpack.Next(s.d, '*') && obj == JNull then After(s1, JString(""))
    else After(s1, obj)
  }

  function StepOpen(c: char, s: State): (r: Outcome)
    requires s.stack != []
    ensures r.Go? ==> |r.s.d| <= |s.d| && r.s.stack != []
  {
    if |s.stack| >= Unpack.STACKCOUNT then Stop(Failed(TooDeep))
    else if c == '[' then Go(s.(stack := s.stack + [Frame(JArray([]), None, InArr, Unpack.InArray)]))
    else Go(s.(stack := s.stack + [Frame(JObject(map[]), None, InKey, Unpack.InObject)]))
  }

  predicate Empty(v: Json) {
    v == JArray([]) || v == JObject(map[])
  }

  function StepClose(c: char, s: State): (r: Outcome)
    requires s.stack != []
    ensures r.Go? ==> |r.s.d| <= |s.d| && r.s.stack != []
  {
    if |s.stack| <= 1 || Top(s).within != (if c == ']' then Unpack.InArray else Unpack.InObject) then Stop(Failed(Internal))
    else
      var obj := Top(s).cont;
      After(s.(stack := s.stack[..|s.stack| - 1]), if Unpack.Next(s.d, '*') && Empty(obj) then JNull else obj)
  }

  /** One turn of the loop. */
  function Step(e: Encode, s: State): (r: Outcome)
    requires s.stack != []
    ensures r.Go? ==> |r.s.d| < |s.d| && r.s.stack != []
  {
    if s.d == "" then Stop(Failed(Truncated))
    else
      var c := s.d[0];
      if !Accepts(Top(s).acc, c) then Stop(Failed(InvalidCharacter))
      else
        var s := s.(d := Unpack.Advance(s.d));
        if c == 's' then StepString(s)
        else if c == 'y' || c == 'Y' then StepBytes(e, c, s)
        else if c == '[' || c == '{' then StepOpen(c, s)
        else if c == ']' || c == '}' then StepClose(c, s)
        else StepValue(c, s)
  }

  function Run(e: Encode, s: State): Result
    requires s.stack != []
    decreases |s.d|
  {
    match Step(e, s)
    case Stop(r) => r
    case Go(s') => Run(e, s')
  }

  function Start(desc: string, args: seq<Item>): State {
    State(Unpack.Skip(desc), args, [Frame(JNull, None, Any, Unpack.Top)])
  }

  method Vpack(e: Encode, desc: string, args: seq<Item>) returns (r: Result)
    ensures r == Run(e, Start(desc, args))
  {
    var s := Start(desc, args);
    while true
      invariant s.stack != [] && Run(e, s) == Run(e, Start(desc, args))
      decreases |s.d|
    {
      match Step(e, s)
      case Stop(r') => return r';
      case Go(s') => s := s';
    }
  }

  // ----- recursive making -----

  /** A null value is refused, unless it is marked as welcome or as left out. */
  datatype Mark = Bare | Null | Star

  /** What a format describes; a text joins some texts, of which those that are flagged come with a length. */
  datatype Shape =
    | One(c: char, mark: Mark)
    | Joined(sizes: seq<bool>, mark: Mark)
    | Coded(url: bool, mark: Mark)
    | List(items: seq<Shape>, star: bool)
    | Dict(members: seq<Member>, star: bool)

  datatype Member = Member(sizes: seq<bool>, value: Shape)

  predicate Good(f: Shape) {
    match f
    case One(c, mark) => c in "nbiIfoO" && (mark.Null? ==> c == 'o' || c == 'O')
    case Joined(sizes, _) => sizes != []
    case Coded(_, _) => true
    case List(items, _) => forall i | 0 <= i < |items| :: Good(items[i])
    case Dict(members, _) => forall i | 0 <= i < |members| :: members[i].sizes != [] && Good(members[i].value)
  }

  predicate Starred(f: Shape) {
    if f.List? || f.Dict? then f.star else f.mark.Star?
  }

  function MarkText(m: Mark): string {
    match m case Bare => "" case Null => "?" case Star => "*"
  }

  function StarText(star: bool): string {
    if star then "*" else ""
  }

  function SizeText(size: bool): string {
    if size then "%" else ""
  }

  function SizesText(sizes: seq<bool>): string {
    if sizes == [] then ""
    else if |sizes| == 1 then SizeText(sizes[0])
    else SizeText(sizes[0]) + ("+" + SizesText(sizes[1..]))
  }

  function Text(f: Shape): (r: string)
    ensures |r| > 0
    decreases f, 0
  {
    match f
    case One(c, mark) => [c] + MarkText(mark)
    case Joined(sizes, mark) => "s" + (SizesText(sizes) + MarkText(mark))
    case Coded(url, mark) => (if url then "y" else "Y") + MarkText(mark)
    case List(items, star) => "[" + (ItemsText(items) + ("]" + StarText(star)))
    case Dict(members, star) => "{" + (MembersText(members) + ("}" + StarText(star)))
  }

  function ItemsText(items: seq<Shape>): string
    decreases items, 1
  {
    if items == [] then "" else Text(items[0]) + ItemsText(items[1..])
  }

  function MembersText(members: seq<Member>): string
    decreases members, 1
  {
    if members == [] then ""
    else
      var f := members[0];
      assert f.value < f;
      "s" + (SizesText(f.sizes) + (Text(f.value) + MembersText(members[1..])))
  }

  /** The texts, one after the other; None if all are null. */
  function Join(sizes: seq<bool>, args: seq<Item>): (Option<string>, seq<Item>) {
    if sizes == [] then (None, args)
    else
      var (str, args1) := TakeChars(args);
      var (len, args2) := if sizes[0] then TakeLength(args1) else (0, args1);
      var (others, rest) := Join(sizes[1..], args2);
      if str.None? then (others, rest)
      else
        var piece := if sizes[0] then Cut(str.value, len) else str.value;
        (Some(piece + if others.Some? then others.value else ""), rest)
  }

  datatype Built = Built(result: Result, args: seq<Item>)

  function Make(e: Encode, f: Shape, args: seq<Item>, depth: nat): Built
    decreases f, 0
  {
    match f
    case One(c, mark) =>
      var (obj, rest) := TakeValue(c, args);
      if (c == 'o' || c == 'O') && obj == JNull && mark.Bare? then Built(Failed(NullObject), rest) else Built(Made(obj), rest)
    case Joined(sizes, mark) =>
      var (text, rest) := Join(sizes, args);
      if text.Some? then Built(Made(JString(text.value)), rest)
      else Built(if mark.Bare? then Failed(NullString) else Made(JNull), rest)
    case Coded(url, mark) =>
      var (bytes, rest) := TakeChars(args);
      var (n, rest2) := TakeLength(rest);
      if bytes.Some? && n > 0 then Built(Made(JString(e(Cut(bytes.value, n), url))), rest2)
      else Built(Made(if mark.Bare? then JString("") else JNull), rest2)
    case List(items, star) =>
      if depth >= 31 then Built(Failed(TooDeep), args)
      else
        var r := MakeItems(e, items, [], args, depth + 1);
        if star && r.result == Made(JArray([])) then Built(Made(JNull), r.args) else r
    case Dict(members, star) =>
      if depth >= 31 then Built(Failed(TooDeep), args)
      else
        var r := MakeMembers(e, members, map[], args, depth + 1);
        if star && r.result == Made(JObject(map[])) then Built(Made(JNull), r.args) else r
  }

  /** A null value with a star is left out. */
  predicate LeftOut(f: Shape, v: Json) {
    Starred(f) && v == JNull
  }

  function MakeItems(e: Encode, items: seq<Shape>, done: seq<Json>, args: seq<Item>, depth: nat): Built
    decreases items, 1
  {
    if items == [] then Built(Made(JArray(done)), args)
    else
      var r := Make(e, items[0], args, depth);
      if r.result.Failed? then r
      else
        var v := r.result.value;
        MakeItems(e, items[1..], if LeftOut(items[0], v) then done else done + [v], r.args, depth)
  }

  function MakeMembers(e: Encode, members: seq<Member>, done: map<string, Json>, args: seq<Item>, depth: nat): Built
    decreases members, 1
  {
    if members == [] then Built(Made(JObject(done)), args)
    else
      var f := members[0];
      assert f.value < f;
      var (key, rest) := Join(f.sizes, args);
      if key.None? then Built(Failed(NullString), rest)
      else
        var r := Make(e, f.value, rest, depth);
        if r.result.Failed? then r
        else
          var v := r.result.value;
          MakeMembers(e, members[1..], if LeftOut(f.value, v) then done else done[key.value := v], r.args, depth)
  }
}
