/**
 The loop over the text of a format makes what the recursive making of its shape makes, marks, joined texts and
 separators included.
 */
module PackProofs {
  import opened Json
  import opened Wrappers
  import opened Pack
  import Unpack
  import UnpackProofs

  // ----- the loop and the tree -----

  function AfterRun(e: Encode, s: State, obj: Json): Result
    requires s.stack != []
  {
    match After(s, obj)
    case Stop(r) => r
    case Go(s') => Run(e, s')
  }

  /** No mark of the value that precedes. */
  predicate Quiet(d: string) {
    d == "" || d[0] !in "?%#+*"
  }

  lemma QuietNext(d: string)
    requires Quiet(d)
    ensures !Unpack.Next(d, '?') && !Unpack.Next(d, '%') && !Unpack.Next(d, '#') && !Unpack.Next(d, '+') && !Unpack.Next(d, '*')
  {
  }

  lemma TextStarts(f: Shape, rest: string)
    requires Good(f)
    ensures Text(f)[0] in ANY && Quiet(Text(f) + rest)
  {
    assert (Text(f) + rest)[0] == Text(f)[0];
  }

  lemma ItemsStart(items: seq<Shape>, rest: string)
    requires forall i | 0 <= i < |items| :: Good(items[i])
    ensures Quiet(ItemsText(items) + ("]" + rest))
  {
    hide ItemsText, Text, Quiet;
    if items != [] {
      TextStarts(items[0], ItemsText(items[1..]) + ("]" + rest));
      ItemsText1(items, rest);
    } else {
      NoItemsStart(rest);
    }
  }

  lemma NoItemsStart(rest: string)
    ensures Quiet(ItemsText([]) + ("]" + rest))
  {
    assert ItemsText([]) + ("]" + rest) == "]" + rest;
  }

  lemma MembersStart(members: seq<Member>, rest: string)
    ensures Quiet(MembersText(members) + ("}" + rest))
  {
    var t := MembersText(members) + ("}" + rest);
    assert t[0] == if members == [] then '}' else 's';
  }

  /** The first character is read, and nothing is skipped. */
  lemma Reads(d: string)
    requires UnpackProofs.Clean(d) && d != ""
    ensures Unpack.Advance(d) == d[1..] && UnpackProofs.Clean(d[1..])
  {
    UnpackProofs.AdvanceClean(d);
  }

  predicate AtValue(s: State) {
    s.stack != [] && Top(s).acc != InKey
  }

  /** The loop goes on after a turn. */
  function OutcomeRun(e: Encode, r: Outcome): Result
    requires r.Go? ==> r.s.stack != []
  {
    match r
    case Stop(q) => q
    case Go(s) => Run(e, s)
  }

  lemma RunIs(e: Encode, s: State)
    requires s.stack != []
    ensures Run(e, s) == OutcomeRun(e, Step(e, s))
  {
    hide Step;
  }

  lemma AfterIs(e: Encode, s: State, obj: Json)
    requires s.stack != []
    ensures AfterRun(e, s, obj) == OutcomeRun(e, After(s, obj))
  {
    hide After, Run;
  }

  /** The turn of a value. */
  lemma StepAt(e: Encode, s: State, rest: string)
    requires AtValue(s) && s.d != "" && s.d[0] in ANY && s.d[1..] == rest && UnpackProofs.Clean(s.d)
    ensures var c, s1 := s.d[0], s.(d := rest);
            Step(e, s) ==
              if c == 's' then StepString(s1)
              else if c == 'y' || c == 'Y' then StepBytes(e, c, s1)
              else if c == '[' || c == '{' then StepOpen(c, s1)
              else StepValue(c, s1)
  {
    hide StepString, StepBytes, StepOpen, StepValue, StepClose;
    Reads(s.d);
  }

  /** A mark is read, and nothing else. */
  lemma MarkRead(m: Mark, rest: string)
    requires UnpackProofs.Clean(MarkText(m) + rest) && Quiet(rest)
    ensures var d := MarkText(m) + rest;
            && (Unpack.Next(d, '?') <==> m.Null?) && (Unpack.Next(d, '*') <==> m.Star?)
            && !Unpack.Next(d, '%') && !Unpack.Next(d, '#') && !Unpack.Next(d, '+')
            && (!m.Bare? ==> Unpack.Advance(d) == rest)
  {
    var d := MarkText(m) + rest;
    QuietNext(rest);
    if m.Bare? {
      assert d == rest;
    } else {
      assert d[0] == MarkText(m)[0] && d[1..] == rest;
      Reads(d);
    }
  }

  /** What is left of the text when a value has been made: its star, and the rest. */
  function Left(f: Shape, rest: string): string {
    StarText(Starred(f)) + rest
  }

  lemma OneStep(c: char, mark: Mark, s: State, rest: string)
    requires Good(One(c, mark)) && s.stack != [] && s.d == MarkText(mark) + rest && UnpackProofs.Clean(s.d) && Quiet(rest)
    ensures var r := Make((_, _) => "", One(c, mark), s.args, 0);
            StepValue(c, s) == if r.result.Failed? then Stop(r.result)
                               else After(s.(d := Left(One(c, mark), rest), args := r.args), r.result.value)
  {
    hide After, TakeValue, UnpackProofs.Clean, Quiet, Unpack.Next, Unpack.Advance;
    MarkRead(mark, rest);
    assert "" + rest == rest;
  }

  lemma RunOne(e: Encode, c: char, mark: Mark, s: State, rest: string)
    requires Good(One(c, mark)) && AtValue(s) && s.d == [c] + (MarkText(mark) + rest) && UnpackProofs.Clean(s.d) && Quiet(rest)
    ensures var f := One(c, mark);
            var r := Make(e, f, s.args, |s.stack| - 1);
            Run(e, s) == if r.result.Failed? then r.result
                         else AfterRun(e, s.(d := Left(f, rest), args := r.args), r.result.value)
  {
    hide Run, Step, After, AfterRun, StepValue, StepOpen, StepBytes, StepString, TakeValue, MarkText, Left, UnpackProofs.Clean;
    var f, tail := One(c, mark), MarkText(mark) + rest;
    assert s.d[0] == c && s.d[1..] == tail;
    StepAt(e, s, tail);
    Reads(s.d);
    OneStep(c, mark, s.(d := tail), rest);
    RunIs(e, s);
    var r := Make(e, f, s.args, |s.stack| - 1);
    if r.result.Made? { AfterIs(e, s.(d := Left(f, rest), args := r.args), r.result.value); }
  }

  lemma CodedStep(e: Encode, url: bool, mark: Mark, s: State, rest: string)
    requires s.stack != [] && s.d == MarkText(mark) + rest && UnpackProofs.Clean(s.d) && Quiet(rest)
    ensures var f := Coded(url, mark);
            var r := Make(e, f, s.args, |s.stack| - 1);
            r.result.Made? && StepBytes(e, if url then 'y' else 'Y', s) == After(s.(d := Left(f, rest), args := r.args), r.result.value)
  {
    hide After, TakeChars, TakeLength, Cut, UnpackProofs.Clean, Quiet, Unpack.Next, Unpack.Advance;
    MarkRead(mark, rest);
    assert "" + rest == rest;
    var (bytes, args) := TakeChars(s.args);
    var (n, args2) := TakeLength(args);
    if bytes.Some? && n > 0 {
      assert e(Cut(bytes.value, n), (if url then 'y' else 'Y') == 'y') == e(Cut(bytes.value, n), url);
    }
  }

  lemma RunCoded(e: Encode, url: bool, mark: Mark, s: State, rest: string)
    requires AtValue(s) && s.d == [if url then 'y' else 'Y'] + (MarkText(mark) + rest) && UnpackProofs.Clean(s.d) && Quiet(rest)
    ensures var f := Coded(url, mark);
            var r := Make(e, f, s.args, |s.stack| - 1);
            r.result.Made? && Run(e, s) == AfterRun(e, s.(d := Left(f, rest), args := r.args), r.result.value)
  {
    hide Run, Step, After, AfterRun, StepOpen, StepValue, StepString, StepBytes, Make, MarkText, Left, UnpackProofs.Clean;
    var f, tail := Coded(url, mark), MarkText(mark) + rest;
    assert s.d[0] == (if url then 'y' else 'Y') && s.d[1..] == tail;
    StepAt(e, s, tail);
    Reads(s.d);
    CodedStep(e, url, mark, s.(d := tail), rest);
    RunIs(e, s);
    var r := Make(e, f, s.args, |s.stack| - 1);
    AfterIs(e, s.(d := Left(f, rest), args := r.args), r.result.value);
  }

  // ----- joined texts -----

  /** Texts that come after others. */
  function Plus(text: Option<string>, others: Option<string>): Option<string> {
    if others.None? then text else if text.None? then others else Some(text.value + others.value)
  }

  lemma PlusPlus(a: Option<string>, b: Option<string>, c: Option<string>)
    ensures Plus(Plus(a, b), c) == Plus(a, Plus(b, c)) && Plus(None, a) == a && Plus(a, None) == a
  {
    if a.Some? && b.Some? && c.Some? {
      assert (a.value + b.value) + c.value == a.value + (b.value + c.value);
    }
  }

  /** One of the texts. */
  function Single(size: bool, args: seq<Item>): (Option<string>, seq<Item>) {
    var (str, args1) := TakeChars(args);
    var (len, args2) := if size then TakeLength(args1) else (0, args1);
    (if str.None? then None else Some(if size then Cut(str.value, len) else str.value), args2)
  }

  lemma JoinFirst(sizes: seq<bool>, args: seq<Item>)
    requires sizes != []
    ensures var (one, args1) := Single(sizes[0], args);
            var (others, rest) := Join(sizes[1..], args1);
            Join(sizes, args) == (Plus(one, others), rest)
  {
    hide TakeChars, TakeLength, Cut;
    var (one, args1) := Single(sizes[0], args);
    if one.Some? { assert one.value + "" == one.value; }
  }

  /** A text and its length, and perhaps the mark, before what can not be a length. */
  lemma PieceIs(size: bool, mark: Mark, args: seq<Item>, text: Option<string>, nullable: bool, next: string)
    requires UnpackProofs.Clean(SizeText(size) + (MarkText(mark) + next))
    requires mark.Star? ==> Quiet(next)
    requires next == "" || next[0] !in "?%#"
    ensures var (one, rest) := Single(size, args);
            Piece(SizeText(size) + (MarkText(mark) + next), args, text, nullable)
              == (Plus(text, one), nullable || mark.Null?, StarText(mark.Star?) + next, rest)
  {
    var m := MarkText(mark) + next;
    var d := SizeText(size) + m;
    if size {
      assert d[0] == '%' && d[1..] == m;
      Reads(d);
    } else {
      assert d == m;
    }
    if mark.Bare? {
      assert m == next && StarText(false) + next == next;
    } else {
      assert m[0] == MarkText(mark)[0] && m[1..] == next;
      Reads(m);
      assert StarText(false) + next == next;
    }
    hide TakeChars, TakeLength, Cut, UnpackProofs.Clean, Unpack.Advance;
    var (one, rest) := Single(size, args);
    if one.Some? { assert "" + one.value == one.value; }
  }

  /** The loop over the texts joins them. */
  lemma {:induction false} GatherIs(sizes: seq<bool>, mark: Mark, args: seq<Item>, text: Option<string>, nullable: bool, rest: string)
    requires sizes != [] && UnpackProofs.Clean(SizesText(sizes) + (MarkText(mark) + rest)) && Quiet(rest)
    ensures var (others, args1) := Join(sizes, args);
            Gather(SizesText(sizes) + (MarkText(mark) + rest), args, text, nullable)
              == (Plus(text, others), nullable || mark.Null?, StarText(mark.Star?) + rest, args1)
    decreases |sizes|
  {
    hide Piece, Join, Plus, Single, UnpackProofs.Clean, Quiet, MarkText;
    JoinFirst(sizes, args);
    var (one, args1) := Single(sizes[0], args);
    if |sizes| == 1 {
      assert sizes[1..] == [];
      LastPiece(sizes[0], mark, args, text, nullable, rest);
      NoMore(args1);
      PlusPlus(text, one, None);
      PlusPlus(one, None, None);
    } else {
      var next := SizesText(sizes[1..]) + (MarkText(mark) + rest);
      FirstPiece(sizes, mark, rest);
      PieceIs(sizes[0], Bare, args, text, nullable, "+" + next);
      JoinedNext(next, sizes[0]);
      GatherIs(sizes[1..], mark, args1, Plus(text, one), nullable, rest);
      PlusPlus(text, one, Join(sizes[1..], args1).0);
    }
  }

  lemma NoMore(args: seq<Item>)
    ensures Join([], args) == (None, args)
  {
  }

  lemma LastPiece(size: bool, mark: Mark, args: seq<Item>, text: Option<string>, nullable: bool, rest: string)
    requires UnpackProofs.Clean(SizeText(size) + (MarkText(mark) + rest)) && Quiet(rest)
    ensures var (one, args1) := Single(size, args);
            var d := StarText(mark.Star?) + rest;
            && Piece(SizeText(size) + (MarkText(mark) + rest), args, text, nullable) == (Plus(text, one), nullable || mark.Null?, d, args1)
            && !Unpack.Next(d, '+')
  {
    PieceIs(size, mark, args, text, nullable, rest);
    QuietNext(rest);
    assert StarText(false) + rest == rest;
    assert (StarText(true) + rest)[0] == '*';
  }

  lemma FirstPiece(sizes: seq<bool>, mark: Mark, rest: string)
    requires |sizes| > 1 && UnpackProofs.Clean(SizesText(sizes) + (MarkText(mark) + rest))
    ensures var next := SizesText(sizes[1..]) + (MarkText(mark) + rest);
            && SizesText(sizes) + (MarkText(mark) + rest) == SizeText(sizes[0]) + (MarkText(Bare) + ("+" + next))
            && UnpackProofs.Clean(SizeText(sizes[0]) + (MarkText(Bare) + ("+" + next))) && UnpackProofs.Clean("+" + next)
            && UnpackProofs.Clean(next)
  {
    hide SizesText, SizeText, MarkText, UnpackProofs.Clean;
    var z, others, m := SizeText(sizes[0]), SizesText(sizes[1..]), MarkText(mark) + rest;
    SizesFirst(sizes);
    PlusRegrouped(z, others, m);
    ClosedText(z, "+" + (others + m));
    ClosedText("+", others + m);
  }

  lemma PlusRegrouped(z: string, others: string, m: string)
    ensures z + ("+" + others) + m == z + ("+" + (others + m))
    ensures MarkText(Bare) + ("+" + (others + m)) == "+" + (others + m)
  {
  }

  lemma SizesFirst(sizes: seq<bool>)
    requires |sizes| > 1
    ensures SizesText(sizes) == SizeText(sizes[0]) + ("+" + SizesText(sizes[1..]))
  {
    hide SizeText;
  }

  lemma JoinedNext(next: string, size: bool)
    requires UnpackProofs.Clean("+" + next)
    ensures StarText(false) + ("+" + next) == "+" + next && Unpack.Next("+" + next, '+') && Unpack.Advance("+" + next) == next
  {
    assert ("+" + next)[1..] == next;
    Reads("+" + next);
  }

  lemma RunJoined(e: Encode, sizes: seq<bool>, mark: Mark, s: State, rest: string)
    requires sizes != [] && AtValue(s) && s.d == "s" + (SizesText(sizes) + (MarkText(mark) + rest))
    requires UnpackProofs.Clean(s.d) && Quiet(rest)
    ensures var f := Joined(sizes, mark);
            var r := Make(e, f, s.args, |s.stack| - 1);
            Run(e, s) == if r.result.Failed? then r.result
                         else AfterRun(e, s.(d := Left(f, rest), args := r.args), r.result.value)
  {
    hide Run, Step, After, AfterRun, StepOpen, StepValue, StepBytes, Gather, Join, Top, Quiet, SizesText, MarkText;
    hide UnpackProofs.Clean, Unpack.Advance, Unpack.Next;
    var f, tail := Joined(sizes, mark), SizesText(sizes) + (MarkText(mark) + rest);
    assert s.d[0] == 's' && s.d[1..] == tail;
    StepAt(e, s, tail);
    Reads(s.d);
    GatherIs(sizes, mark, s.args, None, false, rest);
    PlusPlus(Join(sizes, s.args).0, None, None);
    StarLeft(mark.Star?, rest);
    RunIs(e, s);
    var r := Make(e, f, s.args, |s.stack| - 1);
    if r.result.Made? { AfterIs(e, s.(d := Left(f, rest), args := r.args), r.result.value); }
  }

  lemma StarLeft(star: bool, rest: string)
    requires Quiet(rest)
    ensures Unpack.Next(StarText(star) + rest, '*') <==> star
  {
    QuietNext(rest);
    assert StarText(false) + rest == rest && (StarText(true) + rest)[0] == '*';
  }

  // ----- shapes -----

  lemma {:induction false} RunMake(e: Encode, f: Shape, s: State, rest: string)
    requires Good(f) && AtValue(s) && s.d == Text(f) + rest && UnpackProofs.Clean(s.d) && Quiet(rest)
    ensures var r := Make(e, f, s.args, |s.stack| - 1);
            Run(e, s) == if r.result.Failed? then r.result
                         else AfterRun(e, s.(d := Left(f, rest), args := r.args), r.result.value)
    decreases f, 1
  {
    hide Run, AfterRun, After, Step, Top, Make, Text, MarkText, SizesText, Left, AtValue, Quiet, UnpackProofs.Clean;
    SingleText(f, rest);
    match f
    case One(c, mark) => RunOne(e, c, mark, s, rest);
    case Joined(sizes, mark) => RunJoined(e, sizes, mark, s, rest);
    case Coded(url, mark) => RunCoded(e, url, mark, s, rest);
    case List(_, _) => RunList(e, f, s, rest);
    case Dict(_, _) => RunDict(e, f, s, rest);
  }

  lemma SingleText(f: Shape, rest: string)
    ensures f.One? ==> Text(f) + rest == [f.c] + (MarkText(f.mark) + rest)
    ensures f.Joined? ==> Text(f) + rest == "s" + (SizesText(f.sizes) + (MarkText(f.mark) + rest))
    ensures f.Coded? ==> Text(f) + rest == [if f.url then 'y' else 'Y'] + (MarkText(f.mark) + rest)
  {
    hide MarkText, SizesText, ItemsText, MembersText;
    match f
    case One(c, mark) => assert [c] + MarkText(mark) + rest == [c] + (MarkText(mark) + rest);
    case Joined(sizes, mark) =>
      assert "s" + (SizesText(sizes) + MarkText(mark)) + rest == "s" + (SizesText(sizes) + (MarkText(mark) + rest));
    case Coded(url, mark) => assert [if url then 'y' else 'Y'] + MarkText(mark) + rest == [if url then 'y' else 'Y'] + (MarkText(mark) + rest);
    case _ =>
  }

  lemma BracketText(open: string, inside: string, close: string, star: string, rest: string)
    requires |open| == 1
    ensures var d := open + (inside + (close + star)) + rest;
            d[0] == open[0] && d[1..] == inside + (close + (star + rest))
  {
    assert open + (inside + (close + star)) + rest == open + (inside + (close + (star + rest)));
  }

  lemma {:induction false} RunList(e: Encode, f: Shape, s: State, rest: string)
    requires Good(f) && f.List? && AtValue(s) && s.d == Text(f) + rest && UnpackProofs.Clean(s.d) && Quiet(rest)
    ensures var r := Make(e, f, s.args, |s.stack| - 1);
            Run(e, s) == if r.result.Failed? then r.result
                         else AfterRun(e, s.(d := Left(f, rest), args := r.args), r.result.value)
    decreases f, 0
  {
    hide Run, AfterRun, After, Step, StepString, StepBytes, StepValue;
    var inside := ItemsText(f.items) + ("]" + (StarText(f.star) + rest));
    BracketText("[", ItemsText(f.items), "]", StarText(f.star), rest);
    StepAt(e, s, inside);
    Reads(s.d);
    RunIs(e, s);
    if |s.stack| < 32 {
      var s1 := State(inside, s.args, s.stack + [Frame(JArray([]), None, InArr, Unpack.InArray)]);
      assert s1.stack[..|s1.stack| - 1] == s.stack;
      RunItems(e, f.items, [], f.star, s1, rest);
    }
  }

  lemma {:induction false} RunDict(e: Encode, f: Shape, s: State, rest: string)
    requires Good(f) && f.Dict? && AtValue(s) && s.d == Text(f) + rest && UnpackProofs.Clean(s.d) && Quiet(rest)
    ensures var r := Make(e, f, s.args, |s.stack| - 1);
            Run(e, s) == if r.result.Failed? then r.result
                         else AfterRun(e, s.(d := Left(f, rest), args := r.args), r.result.value)
    decreases f, 0
  {
    hide Run, AfterRun, After, Step, StepString, StepBytes, StepValue;
    var inside := MembersText(f.members) + ("}" + (StarText(f.star) + rest));
    BracketText("{", MembersText(f.members), "}", StarText(f.star), rest);
    StepAt(e, s, inside);
    Reads(s.d);
    RunIs(e, s);
    if |s.stack| < 32 {
      var s1 := State(inside, s.args, s.stack + [Frame(JObject(map[]), None, InKey, Unpack.InObject)]);
      assert s1.stack[..|s1.stack| - 1] == s.stack;
      RunMembers(e, f.members, map[], f.star, s1, rest);
    }
  }

  /** The turn that ends a container. */
  lemma RunClose(e: Encode, c: char, star: bool, s: State, rest: string)
    requires |s.stack| > 1 && (c == ']' || c == '}') && s.d == [c] + (StarText(star) + rest) && UnpackProofs.Clean(s.d) && Quiet(rest)
    requires Top(s).within == (if c == ']' then Unpack.InArray else Unpack.InObject)
    requires Top(s).acc == if c == ']' then InArr else InKey
    ensures Run(e, s) == AfterRun(e, State(StarText(star) + rest, s.args, s.stack[..|s.stack| - 1]),
                                  if star && Empty(Top(s).cont) then JNull else Top(s).cont)
  {
    var d := StarText(star) + rest;
    assert s.d[0] == c && s.d[1..] == d;
    Reads(s.d);
    StarLeft(star, rest);
    RunIs(e, s);
    assert Step(e, s) == StepClose(c, s.(d := d));
    AfterIs(e, State(d, s.args, s.stack[..|s.stack| - 1]), if star && Empty(Top(s).cont) then JNull else Top(s).cont);
    hide Run, Step, After, AfterRun;
  }

  /** A star is passed over. */
  lemma PassStar(star: bool, rest: string)
    requires UnpackProofs.Clean(StarText(star) + rest) && Quiet(rest)
    ensures var d := StarText(star) + rest; (Unpack.Next(d, '*') <==> star) && (if star then Unpack.Advance(d) == rest else d == rest)
  {
    StarLeft(star, rest);
    if star {
      assert ("*" + rest)[1..] == rest;
      Reads("*" + rest);
    }
  }

  /** An item that is made goes at the end of the array, unless it is left out. */
  lemma ItemDone(e: Encode, f: Shape, s: State, done: seq<Json>, v: Json, next: string)
    requires |s.stack| > 1 && Top(s) == Frame(JArray(done), None, InArr, Unpack.InArray)
    requires s.d == Left(f, next) && UnpackProofs.Clean(s.d) && Quiet(next)
    ensures var items := if LeftOut(f, v) then done else done + [v];
            var s1 := WithTop(s.(d := next), Frame(JArray(items), None, InArr, Unpack.InArray));
            AfterRun(e, s, v) == Run(e, s1) && Top(s1) == Frame(JArray(items), None, InArr, Unpack.InArray)
            && s1.stack[..|s1.stack| - 1] == s.stack[..|s.stack| - 1]
  {
    hide Run, StarText, Starred, UnpackProofs.Clean;
    PassStar(Starred(f), next);
  }

  lemma {:induction false} RunItems(e: Encode, items: seq<Shape>, done: seq<Json>, star: bool, s: State, rest: string)
    requires forall i | 0 <= i < |items| :: Good(items[i])
    requires |s.stack| > 1 && Top(s) == Frame(JArray(done), None, InArr, Unpack.InArray)
    requires s.d == ItemsText(items) + ("]" + (StarText(star) + rest)) && UnpackProofs.Clean(s.d) && Quiet(rest)
    ensures var r := MakeItems(e, items, done, s.args, |s.stack| - 1);
            Run(e, s) == if r.result.Failed? then r.result
                         else AfterRun(e, State(StarText(star) + rest, r.args, s.stack[..|s.stack| - 1]),
                                       if star && r.result.value == JArray([]) then JNull else r.result.value)
    decreases items, 0
  {
    hide Run, AfterRun, After, Step, Make, Text, StarText, Left;
    if items == [] {
      assert s.d == [']'] + (StarText(star) + rest);
      RunClose(e, ']', star, s, rest);
    } else {
      var last := StarText(star) + rest;
      var next := ItemsText(items[1..]) + ("]" + last);
      ItemsText1(items, last);
      ItemsStart(items[1..], last);
      RunMake(e, items[0], s, next);
      var r := Make(e, items[0], s.args, |s.stack| - 1);
      if r.result.Made? {
        var v := r.result.value;
        var s1 := s.(d := Left(items[0], next), args := r.args);
        LeftClean(items[0], next);
        ItemDone(e, items[0], s1, done, v, next);
        var done1 := if LeftOut(items[0], v) then done else done + [v];
        RunItems(e, items[1..], done1, star, WithTop(s1.(d := next), Frame(JArray(done1), None, InArr, Unpack.InArray)), rest);
      }
    }
  }

  lemma ItemsText1(items: seq<Shape>, rest: string)
    requires items != []
    ensures ItemsText(items) + ("]" + rest) == Text(items[0]) + (ItemsText(items[1..]) + ("]" + rest))
  {
    hide Text;
  }

  lemma ClosedText(a: string, b: string)
    requires UnpackProofs.Clean(a + b)
    ensures UnpackProofs.Clean(b)
  {
    assert b == (a + b)[|a|..];
  }

  /** What is left of a clean text is clean. */
  lemma LeftClean(f: Shape, next: string)
    requires UnpackProofs.Clean(Text(f) + next)
    ensures UnpackProofs.Clean(Left(f, next)) && UnpackProofs.Clean(next)
  {
    ClosedText(Text(f), next);
    assert '*' !in Unpack.IGNORED;
    hide Text;
  }

  /** The key is kept until its value is made. */
  lemma KeyTaken(e: Encode, sizes: seq<bool>, s: State, done: map<string, Json>, next: string)
    requires |s.stack| > 1 && Top(s) == Frame(JObject(done), None, InKey, Unpack.InObject)
    requires sizes != [] && s.d == "s" + (SizesText(sizes) + next) && UnpackProofs.Clean(s.d) && Quiet(next)
    ensures var (key, args) := Join(sizes, s.args);
            Run(e, s) == if key.None? then Failed(NullString)
                         else Run(e, WithTop(State(next, args, s.stack), Frame(JObject(done), key, Any, Unpack.InMember)))
  {
    hide Run, Step, After, StepString, Join, SizesText, UnpackProofs.Clean, Quiet;
    var tail := SizesText(sizes) + next;
    assert s.d[0] == 's' && s.d[1..] == tail;
    Reads(s.d);
    KeyStep(e, s, tail);
    KeyText(sizes, s.(d := tail), done, next);
    RunIs(e, s);
  }

  lemma KeyStep(e: Encode, s: State, tail: string)
    requires s.stack != [] && Top(s).acc == InKey && s.d != "" && s.d[0] == 's' && Unpack.Advance(s.d) == tail
    ensures Step(e, s) == StepString(s.(d := tail))
  {
    hide StepString, StepValue, StepBytes, StepOpen, StepClose, Unpack.Advance;
  }

  lemma KeyText(sizes: seq<bool>, s: State, done: map<string, Json>, next: string)
    requires |s.stack| > 1 && Top(s) == Frame(JObject(done), None, InKey, Unpack.InObject)
    requires sizes != [] && s.d == SizesText(sizes) + next && UnpackProofs.Clean(s.d) && Quiet(next)
    ensures var (key, args) := Join(sizes, s.args);
            StepString(s) == if key.None? then Stop(Failed(NullString))
                             else Go(WithTop(State(next, args, s.stack), Frame(JObject(done), key, Any, Unpack.InMember)))
  {
    hide Join, Gather, SizesText, UnpackProofs.Clean;
    QuietNext(next);
    assert MarkText(Bare) + next == next && StarText(false) + next == next;
    GatherIs(sizes, Bare, s.args, None, false, next);
    PlusPlus(Join(sizes, s.args).0, None, None);
  }

  /** A member that is made goes in the object, unless it is left out. */
  lemma MemberDone(e: Encode, f: Shape, s: State, done: map<string, Json>, key: string, v: Json, next: string)
    requires |s.stack| > 1 && Top(s) == Frame(JObject(done), Some(key), Any, Unpack.InMember)
    requires s.d == Left(f, next) && UnpackProofs.Clean(s.d) && Quiet(next)
    ensures var members := if LeftOut(f, v) then done else done[key := v];
            var s1 := WithTop(s.(d := next), Frame(JObject(members), None, InKey, Unpack.InObject));
            AfterRun(e, s, v) == Run(e, s1) && Top(s1) == Frame(JObject(members), None, InKey, Unpack.InObject)
            && s1.stack[..|s1.stack| - 1] == s.stack[..|s.stack| - 1]
  {
    hide Run, StarText, Starred, UnpackProofs.Clean;
    PassStar(Starred(f), next);
  }

  lemma {:induction false} RunMembers(e: Encode, members: seq<Member>, done: map<string, Json>, star: bool, s: State, rest: string)
    requires forall i | 0 <= i < |members| :: members[i].sizes != [] && Good(members[i].value)
    requires |s.stack| > 1 && Top(s) == Frame(JObject(done), None, InKey, Unpack.InObject)
    requires s.d == MembersText(members) + ("}" + (StarText(star) + rest)) && UnpackProofs.Clean(s.d) && Quiet(rest)
    ensures var r := MakeMembers(e, members, done, s.args, |s.stack| - 1);
            Run(e, s) == if r.result.Failed? then r.result
                         else AfterRun(e, State(StarText(star) + rest, r.args, s.stack[..|s.stack| - 1]),
                                       if star && r.result.value == JObject(map[]) then JNull else r.result.value)
    decreases members, 0
  {
    hide Run, AfterRun, After, Step, Make, Text, StarText, Left, Join, SizesText;
    if members == [] {
      assert s.d == ['}'] + (StarText(star) + rest);
      RunClose(e, '}', star, s, rest);
    } else {
      var f := members[0];
      assert f.value < f;
      var end := StarText(star) + rest;
      var last := MembersText(members[1..]) + ("}" + end);
      var next := Text(f.value) + last;
      MembersText1(members, end);
      MembersStart(members[1..], end);
      TextStarts(f.value, last);
      KeyTaken(e, f.sizes, s, done, next);
      ClosedText("s", SizesText(f.sizes) + next);
      ClosedText(SizesText(f.sizes), next);
      var (key, args) := Join(f.sizes, s.args);
      if key.Some? {
        var s1 := WithTop(State(next, args, s.stack), Frame(JObject(done), key, Any, Unpack.InMember));
        RunMake(e, f.value, s1, last);
        var r := Make(e, f.value, args, |s.stack| - 1);
        if r.result.Made? {
          var v := r.result.value;
          var s2 := s1.(d := Left(f.value, last), args := r.args);
          LeftClean(f.value, last);
          MemberDone(e, f.value, s2, done, key.value, v, last);
          var done1 := if LeftOut(f.value, v) then done else done[key.value := v];
          RunMembers(e, members[1..], done1, star, WithTop(s2.(d := last), Frame(JObject(done1), None, InKey, Unpack.InObject)), rest);
        }
      }
    }
  }

  lemma MembersText1(members: seq<Member>, rest: string)
    requires members != []
    ensures MembersText(members) + ("}" + rest) ==
              "s" + (SizesText(members[0].sizes) + (Text(members[0].value) + (MembersText(members[1..]) + ("}" + rest))))
  {
    hide Text, SizesText;
    var f := members[0];
    Grouped("s", SizesText(f.sizes), Text(f.value), MembersText(members[1..]), "}" + rest);
  }

  lemma Grouped(a: string, b: string, c: string, d: string, e: string)
    ensures a + (b + (c + d)) + e == a + (b + (c + (d + e)))
  {
  }

  // ----- separators -----

  function Stripped(s: State): State {
    s.(d := UnpackProofs.Strip(s.d))
  }

  ghost predicate Alike(r: Outcome, q: Outcome) {
    match r
    case Stop(_) => q == r
    case Go(s) => UnpackProofs.Normal(s.d) && q == Go(Stripped(s))
  }

  /** Reading a mark is the same on the stripped text. */
  lemma MarkAlike(d: string, c: char)
    requires UnpackProofs.Normal(d)
    ensures Unpack.Next(UnpackProofs.Strip(d), c) == Unpack.Next(d, c)
    ensures var d1 := if Unpack.Next(d, c) then Unpack.Advance(d) else d;
            && UnpackProofs.Normal(d1)
            && UnpackProofs.Strip(d1) == (if Unpack.Next(d, c) then Unpack.Advance(UnpackProofs.Strip(d)) else UnpackProofs.Strip(d))
  {
    UnpackProofs.StripNormal(d);
  }

  lemma PieceAlike(d: string, args: seq<Item>, text: Option<string>, nullable: bool)
    requires UnpackProofs.Normal(d)
    ensures var r := Piece(d, args, text, nullable);
            UnpackProofs.Normal(r.2) && Piece(UnpackProofs.Strip(d), args, text, nullable) == (r.0, r.1, UnpackProofs.Strip(r.2), r.3)
  {
    hide UnpackProofs.Strip, UnpackProofs.Normal, Unpack.Next, Unpack.Advance, TakeChars, TakeLength, Cut;
    MarkAlike(d, '?');
    var d1 := if Unpack.Next(d, '?') then Unpack.Advance(d) else d;
    MarkAlike(d1, '%');
    MarkAlike(d1, '#');
    var d2 := if Unpack.Next(d1, '%') || Unpack.Next(d1, '#') then Unpack.Advance(d1) else d1;
    MarkAlike(d2, '?');
  }

  lemma {:induction false} GatherAlike(d: string, args: seq<Item>, text: Option<string>, nullable: bool)
    requires UnpackProofs.Normal(d)
    ensures var r := Gather(d, args, text, nullable);
            UnpackProofs.Normal(r.2) && Gather(UnpackProofs.Strip(d), args, text, nullable) == (r.0, r.1, UnpackProofs.Strip(r.2), r.3)
    decreases |d|
  {
    hide UnpackProofs.Strip, UnpackProofs.Normal, Unpack.Next, Unpack.Advance, Piece;
    PieceAlike(d, args, text, nullable);
    var (all, nulls, next, rest) := Piece(d, args, text, nullable);
    MarkAlike(next, '+');
    if Unpack.Next(next, '+') {
      GatherAlike(Unpack.Advance(next), rest, all, nulls);
    }
  }

  lemma WithTopStripped(s: State, f: Frame)
    requires s.stack != []
    ensures WithTop(Stripped(s), f) == Stripped(WithTop(s, f))
  {
    hide UnpackProofs.Strip;
  }

  lemma AfterAlike(s: State, obj: Json)
    requires s.stack != [] && UnpackProofs.Normal(s.d)
    ensures Alike(After(s, obj), After(Stripped(s), obj))
  {
    MarkAlike(s.d, '*');
    UnpackProofs.StripNormal(s.d);
    hide UnpackProofs.Strip, UnpackProofs.Normal, Unpack.Next, Unpack.Advance, WithTop;
    var top := Top(s);
    var star := Unpack.Next(s.d, '*');
    var s1 := if star then s.(d := Unpack.Advance(s.d)) else s;
    var kept := obj != JNull || !star;
    assert Top(Stripped(s)) == top;
    match top.within
    case Top =>
    case InArray =>
      if top.cont.JArray? {
        WithTopStripped(s1, if kept then top.(cont := JArray(top.cont.items + [obj])) else top);
      }
    case InObject =>
      if obj.JString? { WithTopStripped(s, top.(key := Some(obj.s), acc := Any, within := Unpack.InMember)); }
    case InMember =>
      if top.cont.JObject? && top.key.Some? {
        var cont := if kept then JObject(top.cont.members[top.key.value := obj]) else top.cont;
        WithTopStripped(s1, Frame(cont, None, InKey, Unpack.InObject));
      }
  }

  lemma StringAlike(s: State)
    requires s.stack != [] && UnpackProofs.Normal(s.d)
    ensures Alike(StepString(s), StepString(Stripped(s)))
  {
    GatherAlike(s.d, s.args, None, false);
    var (text, nullable, d, args) := Gather(s.d, s.args, None, false);
    var s1 := s.(d := d, args := args);
    MarkAlike(d, '*');
    hide After, Gather, UnpackProofs.Strip, UnpackProofs.Normal, Unpack.Next;
    AfterAlike(s1, if text.Some? then JString(text.value) else JNull);
  }

  lemma ValueAlike(c: char, s: State)
    requires s.stack != [] && UnpackProofs.Normal(s.d)
    ensures Alike(StepValue(c, s), StepValue(c, Stripped(s)))
  {
    var (obj, args) := TakeValue(c, s.args);
    var s1 := s.(args := args);
    MarkAlike(s.d, '?');
    MarkAlike(s.d, '*');
    hide After, TakeValue, UnpackProofs.Strip, UnpackProofs.Normal, Unpack.Next, Unpack.Advance;
    AfterAlike(s1, obj);
    if Unpack.Next(s.d, '?') { AfterAlike(s1.(d := Unpack.Advance(s.d)), obj); }
  }

  lemma BytesAlike(e: Encode, c: char, s: State)
    requires s.stack != [] && UnpackProofs.Normal(s.d)
    ensures Alike(StepBytes(e, c, s), StepBytes(e, c, Stripped(s)))
  {
    var (bytes, args) := TakeChars(s.args);
    var (n, args2) := TakeLength(args);
    var s1 := s.(args := args2);
    var obj := if bytes.None? || n == 0 then JNull else JString(e(Cut(bytes.value, n), c == 'y'));
    MarkAlike(s.d, '?');
    MarkAlike(s.d, '*');
    hide After, TakeChars, TakeLength, Cut, UnpackProofs.Strip, UnpackProofs.Normal, Unpack.Next, Unpack.Advance;
    AfterAlike(s1, obj);
    AfterAlike(s1, JString(""));
    if Unpack.Next(s.d, '?') { AfterAlike(s1.(d := Unpack.Advance(s.d)), obj); }
  }

  lemma CloseAlike(c: char, s: State)
    requires s.stack != [] && UnpackProofs.Normal(s.d)
    ensures Alike(StepClose(c, s), StepClose(c, Stripped(s)))
  {
    MarkAlike(s.d, '*');
    hide After, UnpackProofs.Strip, UnpackProofs.Normal, Unpack.Next;
    if |s.stack| > 1 {
      AfterAlike(s.(stack := s.stack[..|s.stack| - 1]), if Unpack.Next(s.d, '*') && Empty(Top(s).cont) then JNull else Top(s).cont);
    }
  }

  lemma OpenAlike(c: char, s: State)
    requires s.stack != [] && UnpackProofs.Normal(s.d)
    ensures Alike(StepOpen(c, s), StepOpen(c, Stripped(s)))
  {
    hide UnpackProofs.Strip, UnpackProofs.Normal;
  }

  lemma StepAlike(e: Encode, s: State)
    requires s.stack != [] && UnpackProofs.Normal(s.d)
    ensures Alike(Step(e, s), Step(e, Stripped(s)))
  {
    UnpackProofs.StripNormal(s.d);
    if s.d != "" {
      var c, s1 := s.d[0], s.(d := Unpack.Advance(s.d));
      hide StepString, StepValue, StepBytes, StepClose, StepOpen, Unpack.Advance, UnpackProofs.Strip, UnpackProofs.Normal;
      if Accepts(Top(s).acc, c) {
        if c == 's' {
          StringAlike(s1);
        } else if c == 'y' || c == 'Y' {
          BytesAlike(e, c, s1);
        } else if c == '[' || c == '{' {
          OpenAlike(c, s1);
        } else if c == ']' || c == '}' {
          CloseAlike(c, s1);
        } else {
          ValueAlike(c, s1);
        }
      }
    }
  }

  /** Separators change nothing. */
  lemma {:induction false} RunStripped(e: Encode, s: State)
    requires s.stack != [] && UnpackProofs.Normal(s.d)
    ensures Run(e, s) == Run(e, Stripped(s))
    decreases |s.d|
  {
    RunIs(e, s);
    RunIs(e, Stripped(s));
    StepAlike(e, s);
    hide Run, Step, UnpackProofs.Strip, UnpackProofs.Normal;
    match Step(e, s)
    case Go(s') => RunStripped(e, s');
    case Stop(_) =>
  }

  /**
   A call with the text of a shape, separators apart, makes what the recursive making makes; a star is refused at the
   end of the whole.
   */
  lemma Packed(e: Encode, f: Shape, desc: string, args: seq<Item>)
    requires Good(f) && UnpackProofs.Strip(desc) == Text(f)
    ensures var r := Make(e, f, args, 0).result;
            Run(e, Start(desc, args)) == if r.Made? && Starred(f) then Failed(InvalidCharacter) else r
  {
    hide Run, Make, Text;
    UnpackProofs.StripSkip(desc);
    var s := Start(desc, args);
    assert UnpackProofs.Normal(s.d);
    RunStripped(e, s);
    var q := Stripped(s);
    assert Text(f) + "" == Text(f);
    assert UnpackProofs.Clean(q.d);
    RunMake(e, f, q, "");
    var r := Make(e, f, args, 0);
    if r.result.Made? { AfterIs(e, q.(d := Left(f, ""), args := r.args), r.result.value); }
  }
}
