/**
 The loop over the text of a format does what the recursive reading of its tree does,
 error codes, stored values and consumed arguments included.
 */
module UnpackProofs {
  import opened Json
  import opened Wrappers
  import opened Unpack

  // ----- separators -----

  ghost predicate Clean(d: string) {
    forall i | 0 <= i < |d| :: d[i] !in IGNORED
  }

  function Strip(d: string): (r: string)
    ensures Clean(r)
    ensures |r| <= |d|
  {
    if d == "" then "" else if d[0] in IGNORED then Strip(d[1..]) else [d[0]] + Strip(d[1..])
  }

  lemma {:induction false} StripSkip(d: string)
    ensures Strip(Skip(d)) == Strip(d)
  {
    if d != "" && d[0] in IGNORED { StripSkip(d[1..]); }
  }

  lemma SkipClean(d: string)
    requires Clean(d)
    ensures Skip(d) == d
  {
  }

  /** The text and its stripped form start alike and advance alike. */
  ghost predicate Normal(d: string) {
    d != "" ==> d[0] !in IGNORED
  }

  lemma StripNormal(d: string)
    requires Normal(d)
    ensures Strip(d) == "" <==> d == ""
    ensures d != "" ==> Strip(d)[0] == d[0] && Strip(Advance(d)) == Advance(Strip(d)) && Normal(Advance(d))
  {
    if d != "" {
      StripSkip(d[1..]);
      SkipClean(Strip(d)[1..]);
    }
  }

  function Stripped(s: State): State {
    s.(d := Strip(s.d))
  }

  ghost predicate Alike(r: Outcome, q: Outcome) {
    match r
    case Stop(_) => q == r
    case Go(s) => Normal(s.d) && q == Go(Stripped(s))
  }

  lemma AfterAlike(s: State)
    requires Normal(s.d)
    ensures Alike(After(s), After(Stripped(s)))
  {
    StripNormal(s.d);
  }

  lemma StringAlike(m: Mode, s: State)
    requires Normal(s.d)
    ensures Alike(StepString(m, s), StepString(m, Stripped(s)))
  {
    hide After, Strip, Advance, Skip;
    StripNormal(s.d);
    var (place, io) := TakePlace(m, s.io);
    if s.ignore != 0 || s.obj.JString? {
      var io := if s.ignore == 0 then Store(io, place, s.obj) else io;
      if Next(s.d, '%') {
        var (place, io) := TakePlace(m, io);
        AfterAlike(s.(d := Advance(s.d), io := if s.ignore == 0 then Store(io, place, JInt(|s.obj.s|)) else io));
      } else {
        AfterAlike(s.(io := io));
      }
    }
  }

  lemma KeyAlike(s: State)
    requires Normal(s.d)
    ensures Alike(StepKey(s), StepKey(Stripped(s)))
  {
    StripNormal(s.d);
  }

  lemma LeafAlike(m: Mode, c: char, s: State)
    requires Normal(s.d)
    ensures Alike(StepLeaf(m, c, s), StepLeaf(m, c, Stripped(s)))
  {
    hide After, Strip, LeafValue;
    var (place, io) := if c == 'n' then (None, s.io) else TakePlace(m, s.io);
    AfterAlike(s.(io := io));
    var w := LeafValue(m, c, s.obj);
    if w.Some? { AfterAlike(s.(io := Store(io, place, w.value))); }
  }

  lemma BytesAlike(m: Mode, s: State)
    requires Normal(s.d)
    ensures Alike(StepBytes(m, s), StepBytes(m, Stripped(s)))
  {
    hide After, Strip, ReadBytes;
    var r := ReadBytes(m, if s.ignore > 0 then None else Some(s.obj), s.io);
    AfterAlike(s.(io := r.io));
  }

  lemma OpenAlike(c: char, s: State)
    requires Normal(s.d)
    ensures Alike(StepOpen(c, s), StepOpen(c, Stripped(s)))
  {
    hide After, Strip;
    var count := if s.ignore > 0 then 0 else if s.obj.JArray? then |s.obj.items| else if s.obj.JObject? then |s.obj.members| else 0;
    var stack := s.stack + [Frame(s.obj, s.acc, 0, count, s.xacc)];
    var s' := s.(stack := stack, ignore := if s.ignore > 0 then s.ignore + 1 else 0);
    AfterAlike(s'.(xacc := InArray, acc := InArr));
  }

  lemma CloseAlike(c: char, s: State)
    requires Normal(s.d)
    ensures Alike(StepClose(c, s), StepClose(c, Stripped(s)))
  {
    hide After, Strip;
    if s.stack != [] {
      var top := Last(s.stack);
      AfterAlike(s.(acc := top.acc, xacc := top.within, stack := s.stack[..|s.stack| - 1],
                    ignore := if s.ignore > 0 then s.ignore - 1 else 0));
    }
  }

  lemma BangAlike(s: State)
    requires Normal(s.d)
    ensures Alike(StepBang(s), StepBang(Stripped(s)))
  {
    StripNormal(s.d);
  }

  lemma AlikeGo(s: State)
    ensures Normal(s.d) ==> Alike(Go(s), Go(Stripped(s)))
    ensures forall r :: Alike(Stop(r), Stop(r))
  {
  }

  lemma StepAlike(m: Mode, s: State)
    requires Normal(s.d)
    ensures Alike(Step(m, s), Step(m, Stripped(s)))
  {
    hide StepKey, StepString, StepLeaf, StepBytes, StepOpen, StepClose, StepBang, Strip, Advance, Expected, Alike;
    AlikeGo(s.(d := if s.d == "" then "" else Advance(s.d), acc := InXacc));
    StripNormal(s.d);
    if s.d != "" {
      var c, s' := s.d[0], s.(d := Advance(s.d));
      KeyAlike(s'); StringAlike(m, s'); LeafAlike(m, c, s'); BytesAlike(m, s');
      OpenAlike(c, s'); CloseAlike(c, s'); BangAlike(s');
    }
  }

  /** Separators change nothing. */
  lemma {:induction false} RunStripped(m: Mode, s: State)
    requires Normal(s.d)
    ensures Run(m, s) == Run(m, Stripped(s))
    decreases |s.d|
  {
    hide Step, Strip;
    StepAlike(m, s);
    var r := Step(m, s);
    if r.Go? { RunStripped(m, r.s); }
  }

  // ----- one value -----

  /** What the loop gives when a value was just read. */
  function AfterRun(m: Mode, s: State): Reading {
    match After(s)
    case Stop(r) => r
    case Go(s') => Run(m, s')
  }

  function OutcomeRun(m: Mode, r: Outcome): Reading {
    match r
    case Stop(q) => q
    case Go(s) => Run(m, s)
  }

  /** The value that is read, none when it is ignored. */
  function View(s: State): Option<Json> {
    if s.ignore > 0 then None else Some(s.obj)
  }

  /** What may follow a format. */
  predicate Follows(rest: string) {
    rest != "" ==> rest[0] != '%' && rest[0] != '?'
  }

  ghost predicate ReadyFor(s: State, f: Format, rest: string) {
    && Good(f) && Clean(s.d) && s.d == Text(f) + rest && Follows(rest)
    && (s.acc.InAny? || s.acc.InArr?) && !s.xacc.InObject?
  }

  lemma TextFirst(f: Format)
    requires Good(f)
    ensures Begins(Text(f)[0])
  {
  }

  lemma EndsArray(tail: Tail, rest: string)
    ensures (TailText(tail) + "]" + rest)[0] == (if tail.Star? then '*' else if tail.Bang? then '!' else ']')
  {
  }

  lemma NotAny(c: char)
    requires c in {'*', '!', ']', '%', '?'}
    ensures !Begins(c)
  {
  }

  lemma FirstItem(items: seq<Format>, d: string)
    requires items != [] && Good(items[0])
    ensures Begins((ItemsText(items) + d)[0])
  {
    TextFirst(items[0]);
    hide Text, Begins;
    assert (ItemsText(items) + d)[0] == Text(items[0])[0];
  }

  lemma BeginsFollows(d: string)
    requires d != "" && (Begins(d[0]) || d[0] in {'*', '!', ']', '}'})
    ensures Follows(d)
  {
    NotAny('%');
    NotAny('?');
  }

  lemma Assoc(a: string, b: string, c: string, d: string)
    ensures a + b + c + d == a + (b + c + d)
  {
  }

  lemma ItemsFirst(items: seq<Format>, tail: Tail, rest: string)
    requires forall i | 0 <= i < |items| :: Good(items[i])
    ensures var d := ItemsText(items) + TailText(tail) + "]" + rest;
            Follows(d) && (Begins(d[0]) <==> items != [])
  {
    hide Begins, Follows, Good, ItemsText, TailText;
    Assoc(ItemsText(items), TailText(tail), "]", rest);
    EndsArray(tail, rest);
    ItemsFirst'(items, TailText(tail) + "]" + rest);
  }

  lemma ItemsFirst'(items: seq<Format>, d: string)
    requires forall i | 0 <= i < |items| :: Good(items[i])
    requires d != "" && d[0] in {'*', '!', ']'}
    ensures Follows(ItemsText(items) + d) && (Begins((ItemsText(items) + d)[0]) <==> items != [])
  {
    hide Begins, Follows, Good;
    if items != [] {
      FirstItem(items, d);
    } else {
      NotAny(d[0]);
      assert ItemsText(items) + d == d;
    }
    BeginsFollows(ItemsText(items) + d);
  }

  lemma FieldsFirst(fields: seq<Field>, tail: Tail, rest: string)
    ensures Follows(FieldsText(fields) + TailText(tail) + "}" + rest)
  {
  }

  lemma AdvanceClean(d: string)
    requires Clean(d) && d != ""
    ensures Advance(d) == d[1..] && Clean(d[1..])
  {
    SkipClean(d[1..]);
  }

  lemma RunLeaf(m: Mode, f: Format, s: State, rest: string)
    requires ReadyFor(s, f, rest) && f.Leaf?
    ensures var r := Read(m, f, View(s), s.io, |s.stack|);
            Run(m, s) == if r.code.OK? then AfterRun(m, s.(d := rest, io := r.io)) else r
  {
    hide LeafValue, After;
    AdvanceClean(s.d);
    assert s.d[1..] == rest;
    assert Step(m, s) == StepLeaf(m, f.c, s.(d := rest));
  }

  lemma RunStr(m: Mode, f: Format, s: State, rest: string)
    requires ReadyFor(s, f, rest) && f.Str?
    ensures var r := Read(m, f, View(s), s.io, |s.stack|);
            Run(m, s) == if r.code.OK? then AfterRun(m, s.(d := rest, io := r.io)) else r
  {
    hide After;
    AdvanceClean(s.d);
    if f.size {
      AdvanceClean(s.d[1..]);
      assert s.d[1..][1..] == rest;
    } else {
      assert s.d[1..] == rest;
    }
    assert Step(m, s) == StepString(m, s.(d := s.d[1..]));
  }

  lemma RunBytes(m: Mode, f: Format, s: State, rest: string)
    requires ReadyFor(s, f, rest) && f.Bytes?
    ensures var r := Read(m, f, View(s), s.io, |s.stack|);
            Run(m, s) == if r.code.OK? then AfterRun(m, s.(d := rest, io := r.io)) else r
  {
    hide After, ReadBytes;
    AdvanceClean(s.d);
    assert s.d[1..] == rest;
    assert Step(m, s) == StepBytes(m, s.(d := rest));
  }

  // ----- arrays and objects -----

  /** The frame is left; only the dead variable obj is free. */
  function Popped(s: State, rest: string, io: Io, obj: Json): State
    requires s.stack != []
  {
    var top := Last(s.stack);
    s.(d := rest, io := io, obj := obj, acc := top.acc, xacc := top.within, stack := s.stack[..|s.stack| - 1],
       ignore := if s.ignore > 0 then s.ignore - 1 else 0)
  }

  lemma RunClose(m: Mode, s: State, c: char, rest: string)
    requires s.stack != [] && Clean(s.d) && s.d == [c] + rest
    requires (c == ']' && s.xacc.InArray? && (s.acc.InArr? || s.acc.InXacc?))
          || (c == '}' && s.xacc.InObject? && (s.acc.InKey? || s.acc.InXacc?))
    ensures Run(m, s) == AfterRun(m, Popped(s, rest, s.io, s.obj))
  {
    hide After, Begins;
    AdvanceClean(s.d);
    assert s.d[1..] == rest;
    assert Step(m, s) == StepClose(c, s.(d := rest));
  }

  /** '*' and '!' leave only the end of the array or object possible. */
  lemma RunTail(m: Mode, s: State, tail: Tail, c: char, rest: string)
    requires s.stack != [] && Clean(s.d) && s.d == TailText(tail) + [c] + rest
    requires (c == ']' && s.xacc.InArray? && s.acc.InArr?) || (c == '}' && s.xacc.InObject? && s.acc.InKey?)
    ensures var top := Last(s.stack);
            Run(m, s) == if tail.Bang? && s.ignore == 0 && top.index != top.count then
                           Reading(if c == '}' then DICTIONARY_INCOMPLETE
                                   else if top.index < top.count then ARRAY_INCOMPLETE else ARRAY_EXTRA_FIELD, s.io)
                         else AfterRun(m, Popped(s, rest, s.io, s.obj))
  {
    hide AfterRun, Run, Begins;
    if tail.Open? {
      RunClose(m, s, c, rest);
    } else {
      AdvanceClean(s.d);
      assert s.d[1..] == [c] + rest;
      var s' := s.(d := [c] + rest, acc := InXacc);
      RunStarBang(m, s, tail, c, rest);
      RunClose(m, s', c, rest);
    }
  }

  lemma RunStarBang(m: Mode, s: State, tail: Tail, c: char, rest: string)
    requires s.stack != [] && !tail.Open? && s.d == TailText(tail) + [c] + rest && Advance(s.d) == [c] + rest
    requires (c == ']' && s.xacc.InArray? && s.acc.InArr?) || (c == '}' && s.xacc.InObject? && s.acc.InKey?)
    ensures var top := Last(s.stack);
            Run(m, s) == if tail.Bang? && s.ignore == 0 && top.index != top.count then
                           Reading(if c == '}' then DICTIONARY_INCOMPLETE
                                   else if top.index < top.count then ARRAY_INCOMPLETE else ARRAY_EXTRA_FIELD, s.io)
                         else Run(m, s.(d := [c] + rest, acc := InXacc))
  {
    hide Begins, Advance;
    if tail.Bang? {
      assert Step(m, s) == StepBang(s.(d := [c] + rest));
    } else {
      assert Step(m, s) == Go(s.(d := [c] + rest, acc := InXacc));
    }
  }

  /** Both states come back to the same one. */
  ghost predicate SameBelow(s: State, t: State) {
    && |s.stack| == |t.stack| > 0 && s.stack[..|s.stack| - 1] == t.stack[..|t.stack| - 1] && s.ignore == t.ignore
    && Last(s.stack).acc == Last(t.stack).acc && Last(s.stack).within == Last(t.stack).within
  }

  lemma PoppedSame(s: State, t: State, rest: string, io: Io, obj: Json)
    requires SameBelow(s, t)
    ensures |s.stack| == |t.stack| && Popped(s, rest, io, obj) == Popped(t, rest, io, obj)
  {
  }

  ghost predicate AtItems(s: State, items: seq<Format>, tail: Tail, rest: string, k: nat) {
    && (forall i | 0 <= i < |items| :: Good(items[i]))
    && Clean(s.d) && s.d == ItemsText(items) + TailText(tail) + "]" + rest && Follows(rest)
    && s.stack != [] && s.xacc.InArray? && s.acc.InArr?
    && (s.ignore == 0 ==>
          var top := Last(s.stack);
          top.parent.JArray? && top.count == |top.parent.items| && top.index == k)
  }

  ghost predicate AtFields(s: State, fields: seq<Field>, tail: Tail, rest: string, k: nat) {
    && (forall i | 0 <= i < |fields| :: Good(fields[i].value))
    && Clean(s.d) && s.d == FieldsText(fields) + TailText(tail) + "}" + rest && Follows(rest)
    && s.stack != [] && s.xacc.InObject? && s.acc.InKey?
    && (s.ignore == 0 ==>
          var top := Last(s.stack);
          top.parent.JObject? && top.count == |top.parent.members| && top.index == k)
  }

  function ArrayOf(s: State): Option<seq<Json>>
    requires s.stack != []
  {
    if s.ignore > 0 || !Last(s.stack).parent.JArray? then None else Some(Last(s.stack).parent.items)
  }

  function ObjectOf(s: State): Option<map<string, Json>>
    requires s.stack != []
  {
    if s.ignore > 0 || !Last(s.stack).parent.JObject? then None else Some(Last(s.stack).parent.members)
  }

  /** Just after '[' or '{'. */
  function Inside(s: State, f: Format, rest: string): State
    requires f.Arr? || f.Obj?
  {
    var d := if f.Arr? then ItemsText(f.items) + TailText(f.tail) + "]" + rest
             else FieldsText(f.fields) + TailText(f.tail) + "}" + rest;
    var count := if s.ignore > 0 then 0 else if s.obj.JArray? then |s.obj.items| else if s.obj.JObject? then |s.obj.members| else 0;
    State(d, s.io, s.stack + [Frame(s.obj, s.acc, 0, count, s.xacc)], if f.Arr? then InArr else InKey,
          if f.Arr? then InArray else InObject, if s.ignore > 0 then s.ignore + 1 else 0, s.obj)
  }

  predicate Opens(f: Format, s: State) {
    |s.stack| < STACKCOUNT && (s.ignore == 0 ==> if f.Arr? then s.obj.JArray? else s.obj.JObject?)
  }

  lemma OpenText(f: Format, s: State, rest: string)
    requires ReadyFor(s, f, rest) && (f.Arr? || f.Obj?)
    ensures s.d[0] == (if f.Arr? then '[' else '{') && s.d[1..] == Inside(s, f, rest).d
    ensures Expected(s.acc, s.xacc, s.d[0]) && Advance(s.d) == Inside(s, f, rest).d
  {
    hide Inside;
    AdvanceClean(s.d);
    InsideText(s, f, rest);
  }

  lemma InsideText(s: State, f: Format, rest: string)
    requires f.Arr? || f.Obj?
    ensures (Text(f) + rest)[1..] == Inside(s, f, rest).d
  {
    hide ItemsText, FieldsText, TailText;
    if f.Arr? {
      FirstCut("[", ItemsText(f.items), TailText(f.tail), "]", rest);
    } else {
      FirstCut("{", FieldsText(f.fields), TailText(f.tail), "}", rest);
    }
  }

  lemma FirstCut(open: string, a: string, b: string, close: string, rest: string)
    requires |open| == 1
    ensures (open + a + b + close + rest)[1..] == a + b + close + rest
  {
  }

  lemma RunOpen(m: Mode, f: Format, s: State, rest: string)
    requires ReadyFor(s, f, rest) && (f.Arr? || f.Obj?)
    ensures var s' := Inside(s, f, rest);
            Run(m, s) == if |s.stack| >= STACKCOUNT then Reading(TOO_DEEP, s.io)
                         else if !Opens(f, s) then Reading(MISSFIT_TYPE, s.io)
                         else if f.Arr? then AfterRun(m, s') else Run(m, s')
  {
    hide After, Text, ItemsText, FieldsText, TailText, Good, Clean, Follows, Expected, Advance, Step;
    OpenText(f, s, rest);
    OpenStep(m, s);
  }

  lemma OpenStep(m: Mode, s: State)
    requires s.d != "" && s.d[0] in "[{" && Expected(s.acc, s.xacc, s.d[0])
    ensures Step(m, s) == StepOpen(s.d[0], s.(d := Advance(s.d)))
  {
    hide StepOpen, Expected, Advance;
  }

  lemma InsideItems(f: Format, s: State, rest: string)
    requires ReadyFor(s, f, rest) && f.Arr? && Opens(f, s)
    ensures var s' := Inside(s, f, rest);
            && AtItems(s', f.items, f.tail, rest, 0) && |s'.stack| == |s.stack| + 1
            && ArrayOf(s') == (if s.ignore == 0 then Some(s.obj.items) else None)
            && forall io, obj :: Popped(s', rest, io, obj) == s.(d := rest, io := io, obj := obj)
  {
    AdvanceClean(s.d);
    assert s.d[1..] == Inside(s, f, rest).d;
  }

  lemma InsideFields(f: Format, s: State, rest: string)
    requires ReadyFor(s, f, rest) && f.Obj? && Opens(f, s)
    ensures var s' := Inside(s, f, rest);
            && AtFields(s', f.fields, f.tail, rest, 0) && |s'.stack| == |s.stack| + 1
            && ObjectOf(s') == (if s.ignore == 0 then Some(s.obj.members) else None)
            && forall io, obj :: Popped(s', rest, io, obj) == s.(d := rest, io := io, obj := obj)
  {
    AdvanceClean(s.d);
    assert s.d[1..] == Inside(s, f, rest).d;
  }

  lemma {:induction false} RunValue(m: Mode, f: Format, s: State, rest: string) returns (obj: Json)
    requires ReadyFor(s, f, rest)
    ensures var r := Read(m, f, View(s), s.io, |s.stack|);
            Run(m, s) == if r.code.OK? then AfterRun(m, s.(d := rest, io := r.io, obj := obj)) else r
    decreases f, 0
  {
    hide AfterRun, Run, Inside, AtItems, AtFields, Popped;
    obj := s.obj;
    match f
    case Leaf(_) => RunLeaf(m, f, s, rest);
    case Str(_) => RunStr(m, f, s, rest);
    case Bytes(_) => RunBytes(m, f, s, rest);
    case Arr(items, tail) =>
      RunOpen(m, f, s, rest);
      if Opens(f, s) {
        InsideItems(f, s, rest);
        InsideIo(s, f, rest);
        obj := RunItems(m, items, tail, Inside(s, f, rest), rest, 0);
      }
    case Obj(fields, tail) =>
      RunOpen(m, f, s, rest);
      if Opens(f, s) {
        InsideFields(f, s, rest);
        InsideIo(s, f, rest);
        obj := RunFields(m, fields, tail, Inside(s, f, rest), rest, 0);
      }
  }

  lemma InsideIo(s: State, f: Format, rest: string)
    requires f.Arr? || f.Obj?
    ensures Inside(s, f, rest).io == s.io
  {
  }

  lemma {:induction false} RunItems(m: Mode, items: seq<Format>, tail: Tail, s: State, rest: string,
      k: nat) returns (obj: Json)
    requires AtItems(s, items, tail, rest, k)
    ensures var r := ReadItems(m, items, tail, ArrayOf(s), k, s.io, |s.stack|);
            AfterRun(m, s) == if r.code.OK? then AfterRun(m, Popped(s, rest, r.io, obj)) else r
    decreases items, 1
  {
    obj := s.obj;
    if items == [] {
      NoMoreItems(m, tail, s, rest, k);
    } else {
      hide Run, AfterRun, AtItems, Popped, ArrayOf, View, ReadyFor, ItemsText, TailText, Fetched, SameBelow;
      hide Read, ItemRest, ReadItems;
      ReadItemsNext(m, items, tail, ArrayOf(s), k, s.io, |s.stack|);
      var next := ItemRest(items, tail, rest);
      ItemFetched(m, items, tail, s, rest, k);
      if s.ignore > 0 || k < |Last(s.stack).parent.items| {
        var s1 := Fetched(s);
        var o := RunValue(m, items[0], s1, next);
        var r := Read(m, items[0], View(s1), s.io, |s.stack|);
        if r.code.OK? {
          ItemNext(items, tail, s, rest, k, r.io, o);
          var s2 := s1.(d := next, io := r.io, obj := o);
          obj := RunItems(m, items[1..], tail, s2, rest, k + 1);
          PoppedSame(s2, s, rest, ReadItems(m, items[1..], tail, ArrayOf(s), k + 1, r.io, |s.stack|).io, obj);
        }
      }
    }
  }

  lemma ReadItemsNext(m: Mode, items: seq<Format>, tail: Tail, a: Option<seq<Json>>, k: nat, io: Io, depth: nat)
    requires items != []
    ensures ReadItems(m, items, tail, a, k, io, depth)
            == if a.Some? && k >= |a.value| then Reading(OUT_OF_RANGE, io)
               else
                 var r := Read(m, items[0], if a.Some? then Some(a.value[k]) else None, io, depth);
                 if r.code.OK? then ReadItems(m, items[1..], tail, a, k + 1, r.io, depth) else r
  {
  }

  function ItemRest(items: seq<Format>, tail: Tail, rest: string): string
    requires items != []
  {
    ItemsText(items[1..]) + TailText(tail) + "]" + rest
  }

  /** The next item of the array is the current value. */
  function Fetched(s: State): State
    requires s.stack != []
  {
    var top := Last(s.stack);
    if s.ignore > 0 || !top.parent.JArray? || top.index >= |top.parent.items| then s
    else s.(obj := top.parent.items[top.index], stack := WithLast(s.stack, top.(index := top.index + 1)))
  }

  lemma ItemFetched(m: Mode, items: seq<Format>, tail: Tail, s: State, rest: string, k: nat)
    requires AtItems(s, items, tail, rest, k) && items != []
    ensures s.stack != [] && (s.ignore == 0 ==> Last(s.stack).parent.JArray?)
    ensures ArrayOf(s) == if s.ignore > 0 then None else Some(Last(s.stack).parent.items)
    ensures if s.ignore > 0 || k < |Last(s.stack).parent.items| then
              && AfterRun(m, s) == Run(m, Fetched(s))
              && ReadyFor(Fetched(s), items[0], ItemRest(items, tail, rest))
              && View(Fetched(s)) == (if s.ignore > 0 then None else Some(Last(s.stack).parent.items[k]))
              && Fetched(s).io == s.io && |Fetched(s).stack| == |s.stack|
            else AfterRun(m, s) == Reading(OUT_OF_RANGE, s.io)
  {
    ItemsFirst(items, tail, rest);
    ItemsFirst(items[1..], tail, rest);
    ItemsTextIs(items, tail, rest);
    hide Run, Text, ItemsText, TailText, Good, Begins, Follows;
  }

  lemma ItemsTextIs(items: seq<Format>, tail: Tail, rest: string)
    requires items != []
    ensures ItemsText(items) + TailText(tail) + "]" + rest == Text(items[0]) + ItemRest(items, tail, rest)
  {
    hide Text, TailText;
    Behind("", Text(items[0]), ItemsText(items[1..]), TailText(tail), "]", rest);
    assert "" + Text(items[0]) == Text(items[0]);
  }

  lemma ItemNext(items: seq<Format>, tail: Tail, s: State, rest: string, k: nat, io: Io, o: Json)
    requires AtItems(s, items, tail, rest, k) && items != [] && (s.ignore > 0 || k < |Last(s.stack).parent.items|)
    ensures var s2 := Fetched(s).(d := ItemRest(items, tail, rest), io := io, obj := o);
            && AtItems(s2, items[1..], tail, rest, k + 1) && ArrayOf(s2) == ArrayOf(s) && SameBelow(s2, s)
  {
    var next := ItemsText(items[1..]) + TailText(tail) + "]" + rest;
    assert s.d == Text(items[0]) + next;
    assert next == s.d[|Text(items[0])|..];
    var s2 := Fetched(s).(d := next, io := io, obj := o);
    assert s2.stack[..|s2.stack| - 1] == s.stack[..|s.stack| - 1];
  }

  lemma NoMoreItems(m: Mode, tail: Tail, s: State, rest: string, k: nat)
    requires AtItems(s, [], tail, rest, k)
    ensures var r := ReadItems(m, [], tail, ArrayOf(s), k, s.io, |s.stack|);
            AfterRun(m, s) == if r.code.OK? then AfterRun(m, Popped(s, rest, r.io, s.obj)) else r
  {
    hide Run, Popped;
    ItemsFirst([], tail, rest);
    assert s.d == TailText(tail) + "]" + rest;
    assert After(s) == Go(s);
    hide AfterRun;
    AfterGo(m, s);
    RunTail(m, s, tail, ']', rest);
  }

  lemma AfterGo(m: Mode, s: State)
    requires After(s).Go?
    ensures AfterRun(m, s) == Run(m, After(s).s)
  {
  }

  lemma {:induction false} RunFields(m: Mode, fields: seq<Field>, tail: Tail, s: State, rest: string,
      k: nat) returns (obj: Json)
    requires AtFields(s, fields, tail, rest, k)
    ensures var r := ReadFields(m, fields, tail, ObjectOf(s), k, s.io, |s.stack|);
            Run(m, s) == if r.code.OK? then AfterRun(m, Popped(s, rest, r.io, obj)) else r
    decreases fields, 1
  {
    obj := s.obj;
    if fields == [] {
      hide Run, AfterRun;
      assert s.d == TailText(tail) + "}" + rest;
      RunTail(m, s, tail, '}', rest);
    } else {
      hide Run, AfterRun, AtFields, Popped, ObjectOf, View, ReadyFor, StepKey, SameBelow, Named, Done, FieldRest;
      var (name, io) := TakeName(s.io);
      KeyTaken(m, fields, tail, s, rest, k);
      if name.Some? && (s.ignore > 0 || name.value in ObjectOf(s).value || fields[0].optional) {
        var s1 := Named(s, fields[0], FieldRest(fields, tail, rest));
        var f := fields[0];
        assert f.value < f;
        var o := RunValue(m, f.value, s1, FieldRest(fields, tail, rest));
        var r := Read(m, f.value, View(s1), io, |s.stack|);
        if r.code.OK? {
          FieldNext(m, fields, tail, s, rest, k, r.io, o);
          var found := s.ignore == 0 && name.value in ObjectOf(s).value;
          var s2, k' := Done(s1, FieldRest(fields, tail, rest), r.io, o), if found then k + 1 else k;
          obj := RunFields(m, fields[1..], tail, s2, rest, k');
          PoppedSame(s2, s, rest, ReadFields(m, fields[1..], tail, ObjectOf(s), k', r.io, |s.stack|).io, obj);
        }
      }
    }
  }

  function FieldRest(fields: seq<Field>, tail: Tail, rest: string): string
    requires fields != []
  {
    FieldsText(fields[1..]) + TailText(tail) + "}" + rest
  }

  /** After the key, and its optional mark: what comes is the value, possibly ignored. */
  function Named(s: State, f: Field, next: string): State
    requires s.stack != []
  {
    var (name, io) := TakeName(s.io);
    var s := s.(io := io, d := Text(f.value) + next, xacc := InMember, acc := InAny);
    var top := Last(s.stack);
    if s.ignore > 0 then s.(ignore := s.ignore + 1)
    else if name.Some? && top.parent.JObject? && name.value in top.parent.members then
      s.(obj := top.parent.members[name.value], stack := WithLast(s.stack, top.(index := top.index + 1)))
    else s.(ignore := 1, obj := JNull)
  }

  /** After the value of a member. */
  function Done(s: State, next: string, io: Io, o: Json): State {
    s.(d := next, io := io, obj := o, acc := InKey, xacc := InObject, ignore := if s.ignore > 0 then s.ignore - 1 else 0)
  }

  lemma FieldsTextIs(fields: seq<Field>, tail: Tail, rest: string)
    requires fields != []
    ensures FieldsText(fields) + TailText(tail) + "}" + rest
            == "s" + (if fields[0].optional then "?" else "") + (Text(fields[0].value) + FieldRest(fields, tail, rest))
  {
    hide Text, TailText;
    var optional := if fields[0].optional then "?" else "";
    Behind("s" + optional, Text(fields[0].value), FieldsText(fields[1..]), TailText(tail), "}", rest);
  }

  lemma Behind(a: string, b: string, c: string, d: string, e: string, f: string)
    ensures a + b + c + d + e + f == a + (b + (c + d + e + f))
  {
  }

  lemma KeyText(fields: seq<Field>, tail: Tail, s: State, rest: string, k: nat)
    requires AtFields(s, fields, tail, rest, k) && fields != []
    ensures s.d[0] == 's' && Advance(s.d) == s.d[1..]
    ensures Next(s.d[1..], '?') == fields[0].optional
    ensures (if fields[0].optional then Advance(s.d[1..]) else s.d[1..]) == Text(fields[0].value) + FieldRest(fields, tail, rest)
    ensures Follows(FieldRest(fields, tail, rest)) && Clean(Text(fields[0].value) + FieldRest(fields, tail, rest))
  {
    var f := fields[0];
    var text := Text(f.value) + FieldRest(fields, tail, rest);
    FieldsFirst(fields[1..], tail, rest);
    FieldsTextIs(fields, tail, rest);
    TextFirst(f.value);
    NotAny('?');
    AdvanceClean(s.d);
    hide Text, FieldRest, FieldsText, TailText, Advance;
    if f.optional {
      assert s.d[1..] == "?" + text;
      AdvanceClean(s.d[1..]);
      assert s.d[1..][1..] == text;
    } else {
      assert s.d[1..] == text;
      assert text[0] == Text(f.value)[0];
    }
  }

  lemma KeyTaken(m: Mode, fields: seq<Field>, tail: Tail, s: State, rest: string, k: nat)
    requires AtFields(s, fields, tail, rest, k) && fields != []
    ensures s.stack != [] && (s.ignore == 0 <==> ObjectOf(s).Some?)
    ensures var (name, io) := TakeName(s.io);
            if name.None? then Run(m, s) == Reading(NULL_KEY, io)
            else if s.ignore == 0 && name.value !in ObjectOf(s).value && !fields[0].optional
            then Run(m, s) == Reading(KEY_NOT_FOUND, io)
            else
              var s1 := Named(s, fields[0], FieldRest(fields, tail, rest));
              && Run(m, s) == Run(m, s1)
              && ReadyFor(s1, fields[0].value, FieldRest(fields, tail, rest))
              && s1.io == io && |s1.stack| == |s.stack|
              && View(s1) == if s.ignore == 0 && name.value in ObjectOf(s).value
                             then Some(ObjectOf(s).value[name.value]) else None
  {
    hide FieldRest, Text, Follows, FieldsText, TailText, Clean, Run, StepKey, Good;
    KeyText(fields, tail, s, rest, k);
    KeyStep(fields[0], s, FieldRest(fields, tail, rest));
    KeyRun(m, s);
  }

  lemma KeyRun(m: Mode, s: State)
    requires s.d != "" && s.d[0] == 's' && s.acc.InKey? && s.xacc.InObject? && Advance(s.d) == s.d[1..]
    ensures Run(m, s) == OutcomeRun(m, StepKey(s.(d := s.d[1..])))
  {
    hide StepKey;
    assert Step(m, s) == StepKey(s.(d := s.d[1..]));
  }

  lemma KeyStep(f: Field, s: State, next: string)
    requires s.stack != [] && s.d != "" && s.xacc.InObject? && Next(s.d[1..], '?') == f.optional
    requires (if f.optional then Advance(s.d[1..]) else s.d[1..]) == Text(f.value) + next
    ensures var (name, io) := TakeName(s.io);
            StepKey(s.(d := s.d[1..]))
            == if name.None? then Stop(Reading(NULL_KEY, io))
               else if s.ignore == 0 && !(Last(s.stack).parent.JObject? && name.value in Last(s.stack).parent.members) && !f.optional
               then Stop(Reading(KEY_NOT_FOUND, io))
               else Go(Named(s, f, next))
  {
    hide Text, Advance;
  }

  lemma FieldNext(m: Mode, fields: seq<Field>, tail: Tail, s: State, rest: string, k: nat, io: Io, o: Json)
    requires AtFields(s, fields, tail, rest, k) && fields != []
    requires var (name, _) := TakeName(s.io);
             name.Some? && (s.ignore > 0 || name.value in ObjectOf(s).value || fields[0].optional)
    ensures var (name, _) := TakeName(s.io);
            var next := FieldRest(fields, tail, rest);
            var s1 := Named(s, fields[0], next);
            var s2 := Done(s1, next, io, o);
            var found := s.ignore == 0 && name.value in ObjectOf(s).value;
            && AfterRun(m, s1.(d := next, io := io, obj := o)) == Run(m, s2)
            && AtFields(s2, fields[1..], tail, rest, if found then k + 1 else k)
            && ObjectOf(s2) == ObjectOf(s) && s2.io == io && SameBelow(s2, s)
  {
    assert s.stack != [];
    hide Run, AfterRun, Named, Text, FieldRest, AtFields, ObjectOf, SameBelow, TakeName;
    var next := FieldRest(fields, tail, rest);
    FieldDone(fields, tail, s, rest, k, io, o);
    AfterMember(m, Named(s, fields[0], next).(d := next, io := io, obj := o));
  }

  lemma FieldDone(fields: seq<Field>, tail: Tail, s: State, rest: string, k: nat, io: Io, o: Json)
    requires AtFields(s, fields, tail, rest, k) && fields != []
    requires var (name, _) := TakeName(s.io);
             name.Some? && (s.ignore > 0 || name.value in ObjectOf(s).value || fields[0].optional)
    ensures var (name, _) := TakeName(s.io);
            var next := FieldRest(fields, tail, rest);
            var s1 := Named(s, fields[0], next);
            var s2 := Done(s1, next, io, o);
            var found := s.ignore == 0 && name.value in ObjectOf(s).value;
            && s1.xacc.InMember?
            && AtFields(s2, fields[1..], tail, rest, if found then k + 1 else k)
            && ObjectOf(s2) == ObjectOf(s) && SameBelow(s2, s)
  {
    hide FieldsText, Text, TailText, Named, Good, FieldRest, Follows, Advance, TakeName, Clean;
    var next := FieldRest(fields, tail, rest);
    FieldLeft(fields, tail, s, rest, k);
    NamedIs(s, fields[0], next);
    DoneIs(Named(s, fields[0], next), next, io, o);
    hide Done;
  }

  /** The text of the other fields. */
  lemma FieldLeft(fields: seq<Field>, tail: Tail, s: State, rest: string, k: nat)
    requires AtFields(s, fields, tail, rest, k) && fields != []
    ensures var next := FieldRest(fields, tail, rest);
            Clean(next) && Follows(rest) && next == FieldsText(fields[1..]) + TailText(tail) + "}" + rest
  {
    hide FieldsText, Text, TailText, Good, FieldRest, Follows, Advance, Clean;
    KeyText(fields, tail, s, rest, k);
    DropText(Text(fields[0].value), FieldRest(fields, tail, rest));
    FieldRestIs(fields, tail, rest);
  }

  lemma DoneIs(s: State, next: string, io: Io, o: Json)
    ensures var r := Done(s, next, io, o);
            && r.d == next && r.stack == s.stack && r.acc.InKey? && r.xacc.InObject?
            && r.ignore == if s.ignore > 0 then s.ignore - 1 else 0
  {
  }

  lemma FieldRestIs(fields: seq<Field>, tail: Tail, rest: string)
    requires fields != []
    ensures FieldRest(fields, tail, rest) == FieldsText(fields[1..]) + TailText(tail) + "}" + rest
  {
  }

  lemma AfterMember(m: Mode, s: State)
    requires s.xacc.InMember?
    ensures AfterRun(m, s) == Run(m, Done(s, s.d, s.io, s.obj))
  {
    hide Run;
  }

  /** A key leaves the frame as it is, but for the count of the members found. */
  lemma NamedIs(s: State, f: Field, next: string)
    requires s.stack != [] && TakeName(s.io).0.Some?
    ensures var s1 := Named(s, f, next);
            var top, top1 := Last(s.stack), Last(s1.stack);
            var found := s.ignore == 0 && top.parent.JObject? && TakeName(s.io).0.value in top.parent.members;
            && s1.xacc.InMember? && s1.ignore == (if found then 0 else s.ignore + 1)
            && |s1.stack| == |s.stack| && s1.stack[..|s1.stack| - 1] == s.stack[..|s.stack| - 1]
            && top1 == top.(index := if found then top.index + 1 else top.index)
  {
  }

  lemma DropText(text: string, next: string)
    requires Clean(text + next)
    ensures Clean(next)
  {
    assert next == (text + next)[|text|..];
  }

  // ----- results -----

  /** A call with the text of a format, separators apart, is the reading of its tree. */
  lemma Unpacked(m: Mode, f: Format, desc: string, args: seq<Arg>, value: Json)
    requires Good(f) && Strip(desc) == Text(f)
    ensures Run(m, Start(desc, args, value)) == Read(m, f, Some(value), Io(args, []), 0)
  {
    hide Run, Read;
    StripSkip(desc);
    var s := Start(desc, args, value);
    RunStripped(m, s);
    assert Text(f) + "" == Text(f);
    var obj := RunValue(m, f, Stripped(s), "");
  }

  function Depth(f: Format): nat
    decreases f, 0
  {
    match f
    case Arr(items, _) => 1 + ItemsDepth(items)
    case Obj(fields, _) => 1 + FieldsDepth(fields)
    case _ => 0
  }

  function ItemsDepth(items: seq<Format>): nat
    decreases items, 1
  {
    if items == [] then 0
    else
      var a, b := Depth(items[0]), ItemsDepth(items[1..]);
      if a < b then b else a
  }

  function FieldsDepth(fields: seq<Field>): nat
    decreases fields, 1
  {
    if fields == [] then 0
    else
      var f := fields[0];
      assert f.value < f;
      var a, b := Depth(f.value), FieldsDepth(fields[1..]);
      if a < b then b else a
  }

  /** The stack is only too small for formats nested more than 32 deep. */
  lemma {:induction false} DeepEnough(m: Mode, f: Format, v: Option<Json>, io: Io, depth: nat)
    requires depth + Depth(f) <= STACKCOUNT
    ensures Read(m, f, v, io, depth).code != TOO_DEEP
    decreases f, 0
  {
    hide LeafValue;
    match f
    case Arr(items, tail) =>
      if v.None? || v.value.JArray? {
        DeepEnoughItems(m, items, tail, if v.Some? then Some(v.value.items) else None, 0, io, depth + 1);
      }
    case Obj(fields, tail) =>
      if v.None? || v.value.JObject? {
        DeepEnoughFields(m, fields, tail, if v.Some? then Some(v.value.members) else None, 0, io, depth + 1);
      }
    case _ =>
  }

  lemma {:induction false} DeepEnoughItems(m: Mode, items: seq<Format>, tail: Tail, a: Option<seq<Json>>,
      k: nat, io: Io, depth: nat)
    requires depth + ItemsDepth(items) <= STACKCOUNT
    ensures ReadItems(m, items, tail, a, k, io, depth).code != TOO_DEEP
    decreases items, 1
  {
    hide Read;
    if items != [] && (a.None? || k < |a.value|) {
      var v := if a.Some? then Some(a.value[k]) else None;
      DeepEnough(m, items[0], v, io, depth);
      DeepEnoughItems(m, items[1..], tail, a, k + 1, Read(m, items[0], v, io, depth).io, depth);
    }
  }

  lemma {:induction false} DeepEnoughFields(m: Mode, fields: seq<Field>, tail: Tail,
      o: Option<map<string, Json>>, k: nat, io: Io, depth: nat)
    requires depth + FieldsDepth(fields) <= STACKCOUNT
    ensures ReadFields(m, fields, tail, o, k, io, depth).code != TOO_DEEP
    decreases fields, 1
  {
    hide Read;
    if fields != [] {
      var (name, io') := TakeName(io);
      if name.Some? {
        var f := fields[0];
        assert f.value < f;
        var found := o.Some? && name.value in o.value;
        var v := if found then Some(o.value[name.value]) else None;
        DeepEnough(m, f.value, v, io', depth);
        DeepEnoughFields(m, fields[1..], tail, o, if found then k + 1 else k, Read(m, f.value, v, io', depth).io, depth);
      }
    }
  }

  // ----- check mode and store mode -----

  /** What a format takes from the arguments in store mode: true for a name, false for a place. */
  function Needs(f: Format): seq<bool>
    decreases f, 0
  {
    match f
    case Leaf(c) => if c == 'n' then [] else [false]
    case Str(size) => if size then [false, false] else [false]
    case Bytes(_) => [false, false]
    case Arr(items, _) => ItemsNeed(items)
    case Obj(fields, _) => FieldsNeed(fields)
  }

  function ItemsNeed(items: seq<Format>): seq<bool>
    decreases items, 1
  {
    if items == [] then [] else Needs(items[0]) + ItemsNeed(items[1..])
  }

  function FieldsNeed(fields: seq<Field>): seq<bool>
    decreases fields, 1
  {
    if fields == [] then []
    else
      var f := fields[0];
      assert f.value < f;
      [true] + (Needs(f.value) + FieldsNeed(fields[1..]))
  }

  /** The names among the arguments: what a check is called with. */
  function Names(args: seq<Arg>, needs: seq<bool>): seq<Arg>
    requires |args| == |needs|
  {
    if args == [] then [] else (if needs[0] then [args[0]] else []) + Names(args[1..], needs[1..])
  }

  lemma NamesFirst(a: seq<Arg>, n: seq<bool>, a': seq<Arg>, n': seq<bool>)
    requires |a| == |n| > 0 && a == [a[0]] + a' && n == [n[0]] + n'
    ensures Names(a, n) == (if n[0] then [a[0]] else []) + Names(a', n')
  {
    assert a[1..] == a' && n[1..] == n';
  }

  lemma {:induction false} NamesAppend(a: seq<Arg>, n: seq<bool>, b: seq<Arg>, p: seq<bool>)
    requires |a| == |n| && |b| == |p|
    ensures Names(a + b, n + p) == Names(a, n) + Names(b, p)
  {
    if a != [] { hide Names; }
    if a == [] {
      assert a + b == b && n + p == p;
    } else {
      NamesFirst(a + b, n + p, a[1..] + b, n[1..] + p);
      NamesFirst(a, n, a[1..], n[1..]);
      NamesAppend(a[1..], n[1..], b, p);
    }
  }

  /** The two modes agree; where decoding fails, only the store mode can tell. */
  ghost predicate Same(r: Reading, q: Reading, rest: seq<Arg>, names: seq<Arg>) {
    && (r.code == q.code || r.code == BAD_BASE64)
    && (r.code.OK? ==> r.io.args == rest && q.io.args == names)
  }

  /** The arguments that a format needs, all of them in store mode and the names in check mode. */
  ghost predicate Pair(io: Io, io': Io, args: seq<Arg>, needs: seq<bool>, rest: seq<Arg>, names: seq<Arg>) {
    |args| == |needs| && io.args == args + rest && io'.args == Names(args, needs) + names
  }

  function Checking(m: Mode): Mode { m.(store := false) }

  lemma NamesNone(args: seq<Arg>, needs: seq<bool>)
    requires |args| == |needs| && forall i | 0 <= i < |needs| :: !needs[i]
    ensures Names(args, needs) == []
  {
  }

  lemma SameLeaf(m: Mode, f: Format, v: Option<Json>, io: Io, io': Io, depth: nat, args: seq<Arg>,
      rest: seq<Arg>, names: seq<Arg>)
    requires m.store && Pair(io, io', args, Needs(f), rest, names) && !f.Arr? && !f.Obj?
    ensures Same(Read(m, f, v, io, depth), Read(Checking(m), f, v, io', depth), rest, names)
  {
    hide LeafValue, Names;
    NamesNone(args, Needs(f));
    assert [] + names == names;
    if |args| > 0 { assert io.args[1..] == args[1..] + rest; }
    if |args| > 1 { assert io.args[1..][1..] == args[2..] + rest; }
    if f.Leaf? { SameLeafValue(m, f.c, v); }
  }

  lemma SameLeafValue(m: Mode, c: char, v: Option<Json>)
    ensures v.Some? ==> LeafValue(m, c, v.value) == LeafValue(Checking(m), c, v.value)
  {
  }

  /** Whatever the value, even where it is missing, both modes consume what belongs to the format. */
  lemma {:induction false} SameCode(m: Mode, f: Format, v: Option<Json>, io: Io, io': Io, depth: nat,
                                    args: seq<Arg>, rest: seq<Arg>, names: seq<Arg>)
    requires m.store && Pair(io, io', args, Needs(f), rest, names)
    ensures Same(Read(m, f, v, io, depth), Read(Checking(m), f, v, io', depth), rest, names)
    decreases f, 0
  {
    hide Names, LeafValue;
    match f
    case Arr(items, tail) =>
      if v.None? || v.value.JArray? {
        SameItems(m, items, tail, if v.Some? then Some(v.value.items) else None, 0, io, io', depth + 1, args, rest, names);
      }
    case Obj(fields, tail) =>
      if v.None? || v.value.JObject? {
        SameFields(m, fields, tail, if v.Some? then Some(v.value.members) else None, 0, io, io', depth + 1, args, rest, names);
      }
    case _ => SameLeaf(m, f, v, io, io', depth, args, rest, names);
  }

  /** The arguments of two successive readings. */
  lemma PairSplit(io: Io, io': Io, args: seq<Arg>, n: seq<bool>, p: seq<bool>, rest: seq<Arg>, names: seq<Arg>)
    requires Pair(io, io', args, n + p, rest, names)
    ensures Pair(io, io', args[..|n|], n, args[|n|..] + rest, Names(args[|n|..], p) + names)
  {
    var a, b := args[..|n|], args[|n|..];
    assert args == a + b;
    NamesAppend(a, n, b, p);
  }

  lemma {:induction false} SameItems(m: Mode, items: seq<Format>, tail: Tail, a: Option<seq<Json>>, k: nat,
      io: Io, io': Io, depth: nat,
                                     args: seq<Arg>, rest: seq<Arg>, names: seq<Arg>)
    requires m.store && Pair(io, io', args, ItemsNeed(items), rest, names)
    ensures Same(ReadItems(m, items, tail, a, k, io, depth), ReadItems(Checking(m), items, tail, a, k, io', depth), rest, names)
    decreases items, 1
  {
    if items == [] {
      assert [] + rest == rest && [] + names == names;
    } else if a.None? || k < |a.value| {
      hide Names, Read;
      var n, p := Needs(items[0]), ItemsNeed(items[1..]);
      var v, next := if a.Some? then Some(a.value[k]) else None, args[|n|..];
      PairSplit(io, io', args, n, p, rest, names);
      SameCode(m, items[0], v, io, io', depth, args[..|n|], next + rest, Names(next, p) + names);
      var r, q := Read(m, items[0], v, io, depth), Read(Checking(m), items[0], v, io', depth);
      if r.code.OK? {
        SameItems(m, items[1..], tail, a, k + 1, r.io, q.io, depth, next, rest, names);
      }
    }
  }

  lemma {:induction false} SameFields(m: Mode, fields: seq<Field>, tail: Tail, o: Option<map<string, Json>>,
      k: nat, io: Io, io': Io, depth: nat,
                                      args: seq<Arg>, rest: seq<Arg>, names: seq<Arg>)
    requires m.store && Pair(io, io', args, FieldsNeed(fields), rest, names)
    ensures Same(ReadFields(m, fields, tail, o, k, io, depth), ReadFields(Checking(m), fields, tail, o, k, io', depth), rest, names)
    decreases fields, 1
  {
    if fields == [] {
      assert [] + rest == rest && [] + names == names;
    } else {
      var f := fields[0];
      assert f.value < f;
      var n, p := Needs(f.value), FieldsNeed(fields[1..]);
      NameTaken(io, io', args, n + p, rest, names);
      hide Names, Read, TakeName;
      var (name, io1) := TakeName(io);
      var io2 := TakeName(io').1;
      if name.Some? {
        var found := o.Some? && name.value in o.value;
        var v, next, k' := if found then Some(o.value[name.value]) else None, args[1..][|n|..], if found then k + 1 else k;
        PairSplit(io1, io2, args[1..], n, p, rest, names);
        SameCode(m, f.value, v, io1, io2, depth, args[1..][..|n|], next + rest, Names(next, p) + names);
        var r, q := Read(m, f.value, v, io1, depth), Read(Checking(m), f.value, v, io2, depth);
        if r.code.OK? {
          SameFields(m, fields[1..], tail, o, k', r.io, q.io, depth, next, rest, names);
        }
      }
    }
  }

  lemma NameTaken(io: Io, io': Io, args: seq<Arg>, needs: seq<bool>, rest: seq<Arg>, names: seq<Arg>)
    requires Pair(io, io', args, [true] + needs, rest, names)
    ensures TakeName(io).0 == TakeName(io').0
    ensures Pair(TakeName(io).1, TakeName(io').1, args[1..], needs, rest, names)
  {
    assert ([true] + needs)[1..] == needs;
    assert io.args[1..] == args[1..] + rest;
    assert io'.args[1..] == Names(args[1..], needs) + names;
  }

  predicate HasBytes(f: Format) {
    match f
    case Bytes(_) => true
    case Arr(items, _) => exists i | 0 <= i < |items| :: HasBytes(items[i])
    case Obj(fields, _) => exists i | 0 <= i < |fields| :: HasBytes(fields[i].value)
    case _ => false
  }

  lemma {:induction false} NoBytes(m: Mode, f: Format, v: Option<Json>, io: Io, depth: nat)
    requires !HasBytes(f)
    ensures Read(m, f, v, io, depth).code != BAD_BASE64
    decreases f, 0
  {
    hide LeafValue;
    match f
    case Arr(items, tail) =>
      if v.None? || v.value.JArray? {
        NoBytesItems(m, items, tail, if v.Some? then Some(v.value.items) else None, 0, io, depth + 1);
      }
    case Obj(fields, tail) =>
      if v.None? || v.value.JObject? {
        NoBytesFields(m, fields, tail, if v.Some? then Some(v.value.members) else None, 0, io, depth + 1);
      }
    case _ =>
  }

  lemma {:induction false} NoBytesItems(m: Mode, items: seq<Format>, tail: Tail, a: Option<seq<Json>>, k: nat,
      io: Io, depth: nat)
    requires forall i | 0 <= i < |items| :: !HasBytes(items[i])
    ensures ReadItems(m, items, tail, a, k, io, depth).code != BAD_BASE64
    decreases items, 1
  {
    hide Read;
    if items != [] && (a.None? || k < |a.value|) {
      var v := if a.Some? then Some(a.value[k]) else None;
      NoBytes(m, items[0], v, io, depth);
      NoBytesItems(m, items[1..], tail, a, k + 1, Read(m, items[0], v, io, depth).io, depth);
    }
  }

  lemma {:induction false} NoBytesFields(m: Mode, fields: seq<Field>, tail: Tail, o: Option<map<string, Json>>,
      k: nat, io: Io, depth: nat)
    requires forall i | 0 <= i < |fields| :: !HasBytes(fields[i].value)
    ensures ReadFields(m, fields, tail, o, k, io, depth).code != BAD_BASE64
    decreases fields, 1
  {
    hide Read;
    if fields != [] {
      var (name, io') := TakeName(io);
      if name.Some? {
        var f := fields[0];
        assert f.value < f;
        var found := o.Some? && name.value in o.value;
        var v := if found then Some(o.value[name.value]) else None;
        NoBytes(m, f.value, v, io', depth);
        NoBytesFields(m, fields[1..], tail, o, if found then k + 1 else k, Read(m, f.value, v, io', depth).io, depth);
      }
    }
  }

  /** A check says whether an unpack would succeed, when there is nothing to decode. */
  lemma CheckIsUnpack(m: Mode, f: Format, desc: string, args: seq<Arg>, value: Json)
    requires Good(f) && Strip(desc) == Text(f) && m.store && |args| == |Needs(f)|
    ensures var r, q := Run(m, Start(desc, args, value)), Run(Checking(m), Start(desc, Names(args, Needs(f)), value));
            && (r.code == q.code || r.code == BAD_BASE64)
            && (!HasBytes(f) ==> r.code == q.code)
            && (r.code.OK? ==> r.io.args == [])
  {
    hide Run, Read, HasBytes, Names, Needs;
    var names := Names(args, Needs(f));
    Unpacked(m, f, desc, args, value);
    Unpacked(Checking(m), f, desc, names, value);
    assert args == args + [] && names == names + [];
    SameCode(m, f, Some(value), Io(args, []), Io(names, []), 0, args, [], []);
    if !HasBytes(f) { NoBytes(m, f, Some(value), Io(args, []), 0); }
  }

  // ----- what each kind of value gives, and to which place -----

  /** A place given in a call, or the null one. */
  function Given(place: Option<int>): Arg {
    if place.Some? then Place(place.value) else Null
  }

  function Kept(place: Option<int>, what: Json): seq<Put> {
    if place.Some? then [Put(place.value, what)] else []
  }

  /** A call with the text of a format. */
  function Call(m: Mode, desc: string, value: Json, args: seq<Arg>): Reading {
    Run(m, Start(desc, args, value))
  }

  predicate Simple(f: Format) { f.Leaf? || f.Str? || f.Bytes? }

  lemma CallIs(m: Mode, f: Format, value: Json, args: seq<Arg>)
    requires Good(f) && Simple(f)
    ensures Call(m, Text(f), value, args) == Read(m, f, Some(value), Io(args, []), 0)
  {
    assert Strip(Text(f)) == Text(f) by {
      if |Text(f)| == 2 { assert Text(f)[1..] == "%"; }
    }
    Unpacked(m, f, Text(f), args, value);
  }

  lemma TakeGiven(m: Mode, p: Option<int>, rest: seq<Arg>, puts: seq<Put>)
    requires m.store
    ensures TakePlace(m, Io([Given(p)] + rest, puts)) == (p, Io(rest, puts))
  {
    assert ([Given(p)] + rest)[1..] == rest;
  }

  lemma StoreKept(p: Option<int>, what: Json, rest: seq<Arg>, puts: seq<Put>)
    ensures Store(Io(rest, puts), p, what) == Io(rest, puts + Kept(p, what))
    ensures Store(Io(rest, []), p, what) == Io(rest, Kept(p, what))
  {
    assert puts + [] == puts;
    assert [] + [Put(if p.Some? then p.value else 0, what)] == [Put(if p.Some? then p.value else 0, what)];
  }

  /** What a call gives when the place gets a value, or when the type is not the right one. */
  function Gave(place: Option<int>, what: Json, rest: seq<Arg>): Reading {
    Reading(OK, Io(rest, Kept(place, what)))
  }

  function Missed(rest: seq<Arg>): Reading {
    Reading(MISSFIT_TYPE, Io(rest, []))
  }

  /**
   A single value, stored: n takes null and no place; b and f take their type, o and O anything, and the place gets
   the value itself; F also takes an integer, as a real; i and I give what the conversion says.
   */
  lemma Stored(m: Mode, c: char, value: Json, p: Option<int>, rest: seq<Arg>)
    requires m.store && c in LEAVES
    ensures var args := [Given(p)] + rest;
            Call(m, [c], value, args) ==
              match c {
                case 'n' => if value == JNull then Reading(OK, Io(args, [])) else Missed(args)
                case 'b' => if value.JBool? then Gave(p, JBool(value.b), rest) else Missed(rest)
                case 'f' => if value.JDouble? then Gave(p, JDouble(value.r), rest) else Missed(rest)
                case 'F' =>
                  if value.JDouble? then Gave(p, JDouble(value.r), rest)
                  else if value.JInt? then Gave(p, JDouble(value.n as real), rest) else Missed(rest)
                case 'o' => Gave(p, value, rest)
                case 'O' => Gave(p, value, rest)
                case _ => if m.conv(c, value).Some? then Gave(p, JInt(m.conv(c, value).value), rest) else Missed(rest)
              }
  {
    var args := [Given(p)] + rest;
    CallIs(m, Leaf(c), value, args);
    if c == 'n' {
      assert Text(Leaf(c)) == [c];
      hide Run, Call, Good, Text, Given;
    } else {
      hide Call;
      StoredLeaf(m, c, value, p, rest);
      hide Gave, Missed, Given;
    }
  }

  lemma StoredLeaf(m: Mode, c: char, value: Json, p: Option<int>, rest: seq<Arg>)
    requires m.store && c in LEAVES && c != 'n'
    ensures var w := LeafValue(m, c, value);
            Call(m, [c], value, [Given(p)] + rest) == if w.Some? then Gave(p, w.value, rest) else Missed(rest)
  {
    CallIs(m, Leaf(c), value, [Given(p)] + rest);
    assert Text(Leaf(c)) == [c];
    hide Run, Call, Good, Text, TakePlace, Given, LeafValue, Store, Kept;
    TakeGiven(m, p, rest, []);
    if LeafValue(m, c, value).Some? { StoreKept(p, LeafValue(m, c, value).value, rest, []); }
  }

  /** A string without its length. */
  lemma StoredString(m: Mode, value: Json, p: Option<int>, rest: seq<Arg>)
    requires m.store
    ensures Call(m, "s", value, [Given(p)] + rest) == if value.JString? then Gave(p, JString(value.s), rest) else Missed(rest)
  {
    var args := [Given(p)] + rest;
    CallIs(m, Str(false), value, args);
    assert Text(Str(false)) == "s";
    hide Run, Call, Good, Text, TakePlace, Given, Store, Kept;
    TakeGiven(m, p, rest, []);
    StoreKept(p, value, rest, []);
  }

  /** A string with its length: two places. */
  lemma StoredSized(m: Mode, value: Json, p: Option<int>, q: Option<int>, rest: seq<Arg>)
    requires m.store
    ensures var args := [Given(p), Given(q)] + rest;
            Call(m, "s%", value, args) ==
              if value.JString? then Reading(OK, Io(rest, Kept(p, value) + Kept(q, JInt(|value.s|))))
              else Reading(MISSFIT_TYPE, Io([Given(q)] + rest, []))
  {
    var args := [Given(p), Given(q)] + rest;
    assert args == [Given(p)] + ([Given(q)] + rest);
    CallIs(m, Str(true), value, args);
    assert Text(Str(true)) == "s%";
    hide Run, Call, Good, Text, TakePlace, Given, Store, Kept;
    TakeGiven(m, p, [Given(q)] + rest, []);
    StoreKept(p, value, [Given(q)] + rest, []);
    TakeGiven(m, q, rest, Kept(p, value));
    if value.JString? { StoreKept(q, JInt(|value.s|), rest, Kept(p, value)); }
  }

  /** Bytes: nothing is stored unless both places are given; null is no byte, a text is decoded. */
  lemma StoredBytes(m: Mode, c: char, value: Json, p: Option<int>, q: Option<int>, rest: seq<Arg>)
    requires m.store && (c == 'y' || c == 'Y')
    ensures var args, both := [Given(p), Given(q)] + rest, p.Some? && q.Some?;
            Call(m, [c], value, args) ==
              match value {
                case JNull => Reading(OK, Io(rest, if both then [Put(p.value, JNull), Put(q.value, JInt(0))] else []))
                case JString(t) =>
                  if !both then Reading(OK, Io(rest, []))
                  else match m.decode(t) {
                    case Some(b) => Reading(OK, Io(rest, [Put(p.value, JString(b)), Put(q.value, JInt(|b|))]))
                    case None => Reading(BAD_BASE64, Io(rest, []))
                  }
                case _ => Reading(MISSFIT_TYPE, Io(rest, []))
              }
  {
    var args := [Given(p), Given(q)] + rest;
    assert args == [Given(p)] + ([Given(q)] + rest);
    CallIs(m, Bytes(c == 'y'), value, args);
    assert Text(Bytes(c == 'y')) == [c];
    hide Run, Call, Good, Text, TakePlace, Given;
    TakeGiven(m, p, [Given(q)] + rest, []);
    TakeGiven(m, q, rest, []);
  }

  /** In check mode no place is taken, and nothing is stored. */
  lemma Checked(m: Mode, f: Format, value: Json, args: seq<Arg>)
    requires !m.store && Good(f) && Simple(f)
    ensures Call(m, Text(f), value, args).io == Io(args, [])
    ensures Call(m, Text(f), value, args).code ==
              if match f {
                case Leaf(c) =>
                  if c == 'n' then value.JNull? else if c == 'b' then value.JBool? else if c == 'f' then value.JDouble?
                  else if c == 'F' then value.JDouble? || value.JInt?
                  else if c == 'i' || c == 'I' then m.conv(c, value).Some? else true
                case Str(_) => value.JString?
                case _ => value.JString? || value.JNull?
              } then OK else MISSFIT_TYPE
  {
    CallIs(m, f, value, args);
    hide Run, Call, Text;
  }

  // ----- an object of one member, an array of one item -----

  lemma CallTree(m: Mode, f: Format, value: Json, args: seq<Arg>)
    requires Good(f) && Strip(Text(f)) == Text(f)
    ensures Call(m, Text(f), value, args) == Read(m, f, Some(value), Io(args, []), 0)
  {
    Unpacked(m, f, Text(f), args, value);
  }

  lemma StripAll(d: string)
    requires forall i | 0 <= i < |d| :: d[i] !in IGNORED
    ensures Strip(d) == d
  {
    if d != "" { StripAll(d[1..]); }
  }

  lemma SimpleText(f: Format)
    requires Good(f) && Simple(f)
    ensures forall i | 0 <= i < |Text(f)| :: Text(f)[i] !in IGNORED
  {
  }

  lemma SimpleDeep(m: Mode, f: Format, v: Option<Json>, io: Io)
    requires Simple(f)
    ensures Read(m, f, v, io, 1) == Read(m, f, v, io, 0)
  {
  }

  function OptionalText(optional: bool): string { if optional then "?" else "" }

  /** The places that a format takes. */
  function Places(m: Mode, f: Format): nat
    requires Simple(f)
  {
    if !m.store || f == Leaf('n') then 0 else if f.Leaf? || f == Str(false) then 1 else 2
  }

  /** Places are passed over when there is no value. */
  lemma Skipped(m: Mode, f: Format, args: seq<Arg>)
    requires Simple(f)
    ensures var n := Places(m, f);
            Read(m, f, None, Io(args, []), 0) == Reading(OK, Io(if n < |args| then args[n..] else [], []))
  {
    if |args| > 1 { assert args[1..][1..] == args[2..]; }
  }

  /** After a value that was read: a closed object or array has nothing else. */
  function Closed(tail: Tail, r: Reading, left: bool, code: Code): Reading {
    if r.code.OK? && tail.Bang? && left then Reading(code, r.io) else r
  }

  /**
   An object of which one member is asked: it is unpacked as it would be alone; an optional one may be missing, and
   its places are passed over; a missing one is an error otherwise, as a null name; a closed object has no other member.
   */
  lemma CallMember(m: Mode, f: Format, optional: bool, tail: Tail, value: Json, name: Option<string>, args: seq<Arg>)
    requires Good(f) && Simple(f)
    ensures var first := if name.Some? then Name(name.value) else Null;
            Call(m, "{s" + OptionalText(optional) + Text(f) + TailText(tail) + "}", value, [first] + args) ==
              if !value.JObject? then Reading(MISSFIT_TYPE, Io([first] + args, []))
              else if name.None? then Reading(NULL_KEY, Io(args, []))
              else if name.value in value.members then
                Closed(tail, Call(m, Text(f), value.members[name.value], args), |value.members| != 1, DICTIONARY_INCOMPLETE)
              else if !optional then Reading(KEY_NOT_FOUND, Io(args, []))
              else
                var n := Places(m, f);
                Closed(tail, Reading(OK, Io(if n < |args| then args[n..] else [], [])), |value.members| != 0, DICTIONARY_INCOMPLETE)
  {
    var first := if name.Some? then Name(name.value) else Null;
    var tree := Obj([Field(optional, f)], tail);
    var all := [first] + args;
    assert all[1..] == args;
    OneField(f, optional, tail);
    SimpleText(f);
    StripAll(Text(tree));
    CallTree(m, tree, value, all);
    hide Run, Call, Text, Good, Strip, Places;
    if value.JObject? && name.Some? {
      if name.value in value.members {
        CallIs(m, f, value.members[name.value], args);
        SimpleDeep(m, f, Some(value.members[name.value]), Io(args, []));
      } else {
        Skipped(m, f, args);
        SimpleDeep(m, f, None, Io(args, []));
      }
    }
    hide Read;
    ReadObject(m, f, optional, tail, value, all, 0);
  }

  lemma OneField(f: Format, optional: bool, tail: Tail)
    ensures Text(Obj([Field(optional, f)], tail)) == "{s" + OptionalText(optional) + Text(f) + TailText(tail) + "}"
  {
    var fields := [Field(optional, f)];
    assert fields[1..] == [];
    assert FieldsText(fields) == "s" + OptionalText(optional) + Text(f) + "";
    hide FieldsText;
  }

  lemma ReadObject(m: Mode, f: Format, optional: bool, tail: Tail, value: Json, args: seq<Arg>, depth: nat)
    requires args != [] && depth < STACKCOUNT
    ensures Read(m, Obj([Field(optional, f)], tail), Some(value), Io(args, []), depth) ==
              if !value.JObject? then Reading(MISSFIT_TYPE, Io(args, []))
              else if !args[0].Name? then Reading(NULL_KEY, Io(args[1..], []))
              else if args[0].name in value.members then
                Closed(tail, Read(m, f, Some(value.members[args[0].name]), Io(args[1..], []), depth + 1),
                       |value.members| != 1, DICTIONARY_INCOMPLETE)
              else if !optional then Reading(KEY_NOT_FOUND, Io(args[1..], []))
              else Closed(tail, Read(m, f, None, Io(args[1..], []), depth + 1), |value.members| != 0, DICTIONARY_INCOMPLETE)
  {
    var fields := [Field(optional, f)];
    assert fields[0] == Field(optional, f) && fields[1..] == [];
    if value.JObject? && args[0].Name? {
      var found := args[0].name in value.members;
      var v := if found then Some(value.members[args[0].name]) else None;
      var r := Read(m, f, v, Io(args[1..], []), depth + 1);
      assert ReadFields(m, fields[1..], tail, Some(value.members), if found then 1 else 0, r.io, depth + 1) ==
        if tail.Bang? && |value.members| != (if found then 1 else 0) then Reading(DICTIONARY_INCOMPLETE, r.io) else Reading(OK, r.io);
    }
  }

  /** An array of which the first item is asked; an empty one is too short, and a closed one has no other item. */
  lemma CallItem(m: Mode, f: Format, tail: Tail, value: Json, args: seq<Arg>)
    requires Good(f) && Simple(f)
    ensures Call(m, "[" + Text(f) + TailText(tail) + "]", value, args) ==
              if !value.JArray? then Reading(MISSFIT_TYPE, Io(args, []))
              else if value.items == [] then Reading(OUT_OF_RANGE, Io(args, []))
              else Closed(tail, Call(m, Text(f), value.items[0], args), |value.items| != 1, ARRAY_INCOMPLETE)
  {
    var tree := Arr([f], tail);
    OneItem(f, tail);
    SimpleText(f);
    StripAll(Text(tree));
    CallTree(m, tree, value, args);
    hide Run, Call, Text, Good, Strip;
    if value.JArray? && value.items != [] {
      CallIs(m, f, value.items[0], args);
      SimpleDeep(m, f, Some(value.items[0]), Io(args, []));
    }
    hide Read;
    ReadArray(m, f, tail, value, args, 0);
  }

  lemma OneItem(f: Format, tail: Tail)
    ensures Text(Arr([f], tail)) == "[" + Text(f) + TailText(tail) + "]"
  {
    assert [f][1..] == [];
    assert ItemsText([f]) == Text(f) + "";
    hide ItemsText;
  }

  lemma ReadArray(m: Mode, f: Format, tail: Tail, value: Json, args: seq<Arg>, depth: nat)
    requires depth < STACKCOUNT
    ensures Read(m, Arr([f], tail), Some(value), Io(args, []), depth) ==
              if !value.JArray? then Reading(MISSFIT_TYPE, Io(args, []))
              else if value.items == [] then Reading(OUT_OF_RANGE, Io(args, []))
              else Closed(tail, Read(m, f, Some(value.items[0]), Io(args, []), depth + 1), |value.items| != 1, ARRAY_INCOMPLETE)
  {
    assert [f][0] == f && [f][1..] == [];
    if value.JArray? && value.items != [] {
      var r := Read(m, f, Some(value.items[0]), Io(args, []), depth + 1);
      assert ReadItems(m, [f][1..], tail, Some(value.items), 1, r.io, depth + 1) ==
        if tail.Bang? && |value.items| > 1 then Reading(ARRAY_INCOMPLETE, r.io) else Reading(OK, r.io);
    }
  }

  // ----- depth -----

  /** n arrays of one item, one inside the other. */
  function Nested(n: nat): Format {
    if n == 0 then Leaf('n') else Arr([Nested(n - 1)], Open)
  }

  function NestedValue(n: nat): Json {
    if n == 0 then JNull else JArray([NestedValue(n - 1)])
  }

  lemma {:induction false} NestedRead(m: Mode, n: nat, io: Io, depth: nat)
    requires depth <= 32
    ensures Read(m, Nested(n), Some(NestedValue(n)), io, depth).code == if depth + n > 32 then TOO_DEEP else OK
  {
    if n > 0 && depth < 32 {
      NestedRead(m, n - 1, io, depth + 1);
      var f, v := Nested(n - 1), NestedValue(n - 1);
      assert [f][0] == f && [f][1..] == [] && [v][0] == v;
      var r := Read(m, f, Some(v), io, depth + 1);
      assert ReadItems(m, [f][1..], Open, Some([v]), 1, r.io, depth + 1) == Reading(OK, r.io);
    }
  }

  lemma {:induction false} NestedText(n: nat)
    ensures Good(Nested(n)) && forall i | 0 <= i < |Text(Nested(n))| :: Text(Nested(n))[i] !in IGNORED
  {
    if n > 0 {
      NestedText(n - 1);
      OneItem(Nested(n - 1), Open);
    }
  }

  /** Thirty-two levels are unpacked, and not one more. */
  lemma Deepest(m: Mode, n: nat, args: seq<Arg>)
    ensures Call(m, Text(Nested(n)), NestedValue(n), args).code == if n > 32 then TOO_DEEP else OK
  {
    NestedText(n);
    StripAll(Text(Nested(n)));
    CallTree(m, Nested(n), NestedValue(n), args);
    NestedRead(m, n, Io(args, []), 0);
  }
}
