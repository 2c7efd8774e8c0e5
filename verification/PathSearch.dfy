/**
 Lists of directories to search: chains of reference counted nodes, shared by their tails.

 Each node says whether its directory comes before or after those of its parent, by the sign of
 its length.
 */
module PathSearch {
  import opened Sets
  import opened Wrappers

  const EINVAL: int := -22
  const SHRT_MAX: nat := 32767
  const COUNT_END: nat := 0x1_0000

  // ----- names in a text -----

  /** The number of characters before the first colon. */
  function Span(s: string): (n: nat)
    ensures n <= |s| && (n < |s| ==> s[n] == ':') && (forall i | 0 <= i < n :: s[i] != ':')
  {
    if s == "" || s[0] == ':' then 0 else 1 + Span(s[1..])
  }

  /** The names that colons separate; none is empty. */
  function Fields(s: string): (names: seq<string>)
    decreases |s|
  {
    if s == "" then []
    else if s[0] == ':' then Fields(s[1..])
    else [s[..Span(s)]] + Fields(s[Span(s)..])
  }

  predicate Clean(name: string) {
    name != "" && ':' !in name
  }

  function Joined(names: seq<string>): string {
    if names == [] then "" else names[0] + ":" + Joined(names[1..])
  }

  lemma {:induction false} FieldsClean(s: string)
    ensures forall i | 0 <= i < |Fields(s)| :: Clean(Fields(s)[i])
    decreases |s|
  {
    if s == "" {
    } else if s[0] == ':' {
      FieldsClean(s[1..]);
    } else {
      FieldsClean(s[Span(s)..]);
    }
  }

  lemma SpanOfName(name: string, rest: string)
    requires Clean(name)
    ensures Span(name + ":" + rest) == |name|
  {
    var s := name + ":" + rest;
    assert s[|name|] == ':';
    forall i | 0 <= i < |name| ensures s[i] != ':' { assert s[i] == name[i] && name[i] in name; }
  }

  /** Writing names with colons and splitting them gives the names back. */
  lemma {:induction false} FieldsOfJoined(names: seq<string>)
    requires forall i | 0 <= i < |names| :: Clean(names[i])
    ensures Fields(Joined(names)) == names
  {
    if names != [] {
      var rest := Joined(names[1..]);
      var s := Joined(names);
      SpanOfName(names[0], rest);
      FieldsOfJoined(names[1..]);
      assert names[0][0] in names[0];
      assert s[0] == names[0][0];
      assert s[..|names[0]|] == names[0] && s[|names[0]|..] == ":" + rest;
      assert (":" + rest)[1..] == rest;
    }
  }

  lemma SpanTo(a: string, b: string)
    ensures Span(a + ":" + b) == Span(a)
  {
    var s, k := a + ":" + b, Span(a);
    assert s[k] == ':';
    forall i | 0 <= i < k ensures s[i] != ':' { assert s[i] == a[i]; }
  }

  /** A colon cuts a text in two, wherever it is: the names are those of both parts. */
  lemma {:induction false} FieldsCut(a: string, b: string)
    ensures Fields(a + ":" + b) == Fields(a) + Fields(b)
    decreases |a|
  {
    hide Span;
    var s := a + ":" + b;
    if a == "" {
      assert s[1..] == b;
      assert [] + Fields(b) == Fields(b);
    } else if a[0] == ':' {
      assert s[1..] == a[1..] + ":" + b;
      FieldsCut(a[1..], b);
    } else {
      var k := Span(a);
      SpanTo(a, b);
      assert s[..k] == a[..k] && s[k..] == a[k..] + ":" + b;
      FieldsCut(a[k..], b);
      assert [a[..k]] + (Fields(a[k..]) + Fields(b)) == [a[..k]] + Fields(a[k..]) + Fields(b);
    }
  }

  /** A text without colon is one name, or none when it is empty. */
  lemma FieldsAlone(s: string)
    requires ':' !in s
    ensures Fields(s) == if s == "" then [] else [s]
  {
    if s != "" {
      assert Span(s) == |s|;
      assert s[|s|..] == "" && s[..|s|] == s;
    }
  }

  // ----- what a chain means -----

  /** A node as a value: positive length before, negative length after. */
  datatype Entry = Entry(path: string, length: int)

  function Listing(chain: seq<Entry>): seq<string> {
    if chain == [] then []
    else
      (if chain[0].length > 0 then [chain[0].path] else []) + Listing(chain[1..]) +
      (if chain[0].length < 0 then [chain[0].path] else [])
  }

  predicate Named(chain: seq<Entry>, name: string) {
    exists i | 0 <= i < |chain| :: chain[i].path == name
  }

  predicate Signed(chain: seq<Entry>) {
    forall i | 0 <= i < |chain| :: chain[i].length != 0
  }

  /** `must_add`: in front, only the head is looked at. */
  predicate MustAdd(chain: seq<Entry>, name: string, before: bool) {
    if before then chain == [] || chain[0].path != name else !Named(chain, name)
  }

  function Added(chain: seq<Entry>, name: string, before: bool): seq<Entry> {
    if name == "" || !MustAdd(chain, name, before) then chain
    else [Entry(name, if before then |name| else -|name|)] + chain
  }

  /** All the names, the last first when they go in front. */
  function Made(chain: seq<Entry>, names: seq<string>, before: bool): seq<Entry>
    decreases |names|
  {
    if names == [] then chain
    else if before then Added(Made(chain, names[1..], true), names[0], true)
    else Made(Added(chain, names[0], false), names[1..], false)
  }

  lemma {:induction false} ListingHas(chain: seq<Entry>, name: string)
    requires Signed(chain)
    ensures name in Listing(chain) <==> Named(chain, name)
  {
    if chain != [] {
      ListingHas(chain[1..], name);
      NamedFirst(chain, name);
    }
  }

  lemma NamedFirst(chain: seq<Entry>, name: string)
    requires chain != []
    ensures Named(chain, name) <==> chain[0].path == name || Named(chain[1..], name)
  {
    if Named(chain[1..], name) {
      var i :| 0 <= i < |chain| - 1 && chain[1..][i].path == name;
      assert chain[i + 1].path == name;
    }
    if Named(chain, name) && chain[0].path != name {
      var i :| 0 <= i < |chain| && chain[i].path == name;
      assert chain[1..][i - 1].path == name;
    }
  }

  lemma AddedListing(chain: seq<Entry>, name: string, before: bool)
    requires name != "" && MustAdd(chain, name, before)
    ensures Listing(Added(chain, name, before)) ==
              if before then [name] + Listing(chain) else Listing(chain) + [name]
  {
    var e := Entry(name, if before then |name| else -|name|);
    assert Added(chain, name, before) == [e] + chain;
    hide Added, MustAdd;
    assert ([e] + chain)[1..] == chain;
  }

  /** The names not yet in the list, each once, in their order. */
  function Missing(dirs: seq<string>, names: seq<string>): seq<string>
    decreases |names|
  {
    if names == [] then []
    else if names[0] in dirs then Missing(dirs, names[1..])
    else [names[0]] + Missing(dirs + [names[0]], names[1..])
  }

  lemma Associate(a: seq<string>, b: seq<string>, c: seq<string>)
    ensures a + b + c == a + (b + c)
  {
  }

  lemma AppendOne(chain: seq<Entry>, name: string)
    requires Signed(chain) && name != ""
    ensures Signed(Added(chain, name, false))
    ensures Listing(Added(chain, name, false)) == Listing(chain) + if Named(chain, name) then [] else [name]
  {
    if Named(chain, name) {
      assert Listing(chain) + [] == Listing(chain);
    } else {
      AddedListing(chain, name, false);
    }
  }

  /** Appending leaves the old list and puts after it the new directories. */
  lemma {:induction false} Appended(chain: seq<Entry>, names: seq<string>)
    requires Signed(chain) && forall i | 0 <= i < |names| :: names[i] != ""
    ensures Signed(Made(chain, names, false))
    ensures Listing(Made(chain, names, false)) == Listing(chain) + Missing(Listing(chain), names)
    decreases |names|
  {
    if names != [] {
      var name := names[0];
      ListingHas(chain, name);
      AppendOne(chain, name);
      Appended(Added(chain, name, false), names[1..]);
      hide Added, Listing, Signed, Named;
      Associate(Listing(chain), [name], Missing(Listing(chain) + [name], names[1..]));
    } else {
      assert Listing(chain) + [] == Listing(chain);
    }
  }

  predicate Distinct(dirs: seq<string>) {
    forall i, j | 0 <= i < j < |dirs| :: dirs[i] != dirs[j]
  }

  /** What is added is what was missing: nothing twice, nothing else, nothing forgotten. */
  lemma {:induction false} MissingIsNew(dirs: seq<string>, names: seq<string>)
    ensures Distinct(Missing(dirs, names))
    ensures forall d :: d in Missing(dirs, names) <==> d in names && d !in dirs
    decreases |names|
  {
    if names != [] {
      var next := if names[0] in dirs then dirs else dirs + [names[0]];
      MissingIsNew(next, names[1..]);
      assert names == [names[0]] + names[1..];
      assert names[0] !in Missing(next, names[1..]) by { assert names[0] in next; }
      forall d ensures d in Missing(dirs, names) <==> d in names && d !in dirs { }
    }
  }

  /** Some elements of a list, in their order. */
  predicate Subsequence(s: seq<string>, t: seq<string>) {
    if s == [] then true
    else if t == [] then false
    else if s[0] == t[0] then Subsequence(s[1..], t[1..]) else Subsequence(s, t[1..])
  }

  /** Dropping the first element of the large list, or keeping it, is allowed. */
  lemma {:induction false} SubsequenceTail(s: seq<string>, t: seq<string>)
    requires t != [] && Subsequence(s, t[1..])
    ensures Subsequence(s, t)
    decreases |t|, |s|
  {
    if s != [] && s[0] == t[0] {
      var rest := t[1..];
      if s[0] == rest[0] {
        SubsequenceTail(s[1..], rest);
      } else {
        assert Subsequence(s, rest[1..]);
        ShorterToo(s, rest);
      }
    }
  }

  lemma {:induction false} ShorterToo(s: seq<string>, t: seq<string>)
    requires s != [] && Subsequence(s, t)
    ensures Subsequence(s[1..], t)
    decreases |t|, |s|
  {
    if s[0] == t[0] {
      SubsequenceTail(s[1..], t);
    } else {
      ShorterToo(s, t[1..]);
      SubsequenceTail(s[1..], t);
    }
  }

  /** The names that prepending keeps: not the one that is already at the head of the chain. */
  function Front(chain: seq<Entry>, names: seq<string>): seq<string> {
    if names == [] then []
    else
      var rest := Front(chain, names[1..]);
      if MustAdd(Made(chain, names[1..], true), names[0], true) then [names[0]] + rest else rest
  }

  /** What prepending puts in front is made of the new directories, in their order. */
  lemma {:induction false} FrontIsPart(chain: seq<Entry>, names: seq<string>)
    ensures Subsequence(Front(chain, names), names)
  {
    hide Added, Made, MustAdd;
    if names != [] {
      FrontIsPart(chain, names[1..]);
      var rest := Front(chain, names[1..]);
      if Front(chain, names) == rest {
        SubsequenceTail(rest, names);
      } else {
        assert Front(chain, names)[1..] == rest;
      }
    }
  }

  /** Prepending puts them before the unchanged old list. */
  lemma {:induction false} Prepended(chain: seq<Entry>, names: seq<string>)
    requires Signed(chain) && forall i | 0 <= i < |names| :: names[i] != ""
    ensures Signed(Made(chain, names, true))
    ensures Listing(Made(chain, names, true)) == Front(chain, names) + Listing(chain)
  {
    if names != [] {
      var name, rest := names[0], Made(chain, names[1..], true);
      Prepended(chain, names[1..]);
      if MustAdd(rest, name, true) {
        AddedListing(rest, name, true);
        assert [name] + (Front(chain, names[1..]) + Listing(chain)) ==
               [name] + Front(chain, names[1..]) + Listing(chain);
      }
    }
  }

  /** And none of them is lost. */
  lemma {:induction false} NoneLost(chain: seq<Entry>, names: seq<string>)
    requires Signed(chain) && forall i | 0 <= i < |names| :: names[i] != ""
    ensures Signed(Made(chain, names, true))
    ensures forall i | 0 <= i < |names| :: names[i] in Listing(Made(chain, names, true))
  {
    if names != [] {
      var name, rest := names[0], Made(chain, names[1..], true);
      NoneLost(chain, names[1..]);
      var all := Listing(Made(chain, names, true));
      if MustAdd(rest, name, true) {
        AddedListing(rest, name, true);
        assert all == [name] + Listing(rest);
      } else {
        ListingHas(rest, name);
        assert Named(rest, name);
      }
      forall i | 0 <= i < |names| ensures names[i] in all {
        if i > 0 { assert names[i] == names[1..][i - 1]; }
      }
    }
  }

  /** Nothing is put in front exactly when all the names are that of the head of the chain. */
  predicate AllHead(chain: seq<Entry>, names: seq<string>) {
    chain != [] && forall i | 0 <= i < |names| :: names[i] == chain[0].path
  }

  lemma {:induction false} FrontHead(chain: seq<Entry>, names: seq<string>)
    requires names != [] && forall i | 0 <= i < |names| :: names[i] != ""
    ensures Made(chain, names, true) != [] && Made(chain, names, true)[0].path == names[0]
    ensures if AllHead(chain, names) then Front(chain, names) == [] && Made(chain, names, true) == chain
            else Front(chain, names) != [] && Front(chain, names)[0] == names[0]
  {
    var rest := Made(chain, names[1..], true);
    assert names == [names[0]] + names[1..];
    if |names| > 1 {
      FrontHead(chain, names[1..]);
      assert AllHead(chain, names) <==> AllHead(chain, names[1..]) && names[0] == chain[0].path;
    } else {
      assert AllHead(chain, names) <==> chain != [] && chain[0].path == names[0];
    }
  }

  /** The head of the chain bears the name, but comes after another directory, of another name. */
  predicate Behind(chain: seq<Entry>) {
    chain != [] && chain[0].length < 0 && Listing(chain[1..]) != [] && Listing(chain[1..])[0] != chain[0].path
  }

  /**
   The first of the directories that are put in front is searched first, unless they are all the
   head of the chain and that head was appended behind another directory.
   */
  lemma FirstOfAll(chain: seq<Entry>, names: seq<string>)
    requires Signed(chain) && names != [] && forall i | 0 <= i < |names| :: names[i] != ""
    ensures var dirs := Listing(Made(chain, names, true));
            dirs != [] && (dirs[0] == names[0] <==> !(AllHead(chain, names) && Behind(chain)))
  {
    Prepended(chain, names);
    FrontHead(chain, names);
    if AllHead(chain, names) {
      assert names[0] == chain[0].path;
    }
  }

  lemma NotFirst()
    ensures var chain := Made([], ["a", "b"], false);
            Listing(Made(chain, ["b"], true)) == ["a", "b"]
  {
    assert Made([], ["a", "b"], false) == Made([Entry("a", -1)], ["b"], false);
    var chain := [Entry("b", -1), Entry("a", -1)];
    assert !Named([Entry("a", -1)], "b");
    assert Made([Entry("a", -1)], ["b"], false) == Made(chain, [], false);
    assert chain[1..] == [Entry("a", -1)] && chain[1..][1..] == [];
  }

  predicate TooLong(names: seq<string>) {
    exists i | 0 <= i < |names| :: |names[i]| > SHRT_MAX
  }

  /** Names are refused from 32768 characters on. */
  lemma Longest(name: string)
    ensures TooLong([name]) <==> |name| >= 32768
  {
    assert [name][0] == name;
  }

  lemma TooLongFirst(names: seq<string>)
    requires names != []
    ensures TooLong(names) <==> |names[0]| > SHRT_MAX || TooLong(names[1..])
  {
    if TooLong(names[1..]) {
      var i :| 0 <= i < |names| - 1 && |names[1..][i]| > SHRT_MAX;
      assert |names[i + 1]| > SHRT_MAX;
    }
    if TooLong(names) && |names[0]| <= SHRT_MAX {
      var i :| 0 <= i < |names| && |names[i]| > SHRT_MAX;
      assert |names[1..][i - 1]| > SHRT_MAX;
    }
  }

  /** The list of an extended chain: what appending adds after the old list, or prepending before it. */
  function Extended(chain: seq<Entry>, names: seq<string>, before: bool): seq<string> {
    if before then Front(chain, names) + Listing(chain) else Listing(chain) + Missing(Listing(chain), names)
  }

  lemma MadeListing(chain: seq<Entry>, names: seq<string>, before: bool)
    requires Signed(chain) && forall i | 0 <= i < |names| :: Clean(names[i])
    ensures Listing(Made(chain, names, before)) == Extended(chain, names, before)
  {
    if before { Prepended(chain, names); } else { Appended(chain, names); }
  }

  // ----- visiting -----

  /** Calls back on each directory until an answer is not null; the answer depends on all visits so far. */
  function Visit(todo: seq<string>, callback: seq<string> -> int, seen: seq<string>): (int, seq<string>) {
    if todo == [] then (0, seen)
    else
      var now := seen + [todo[0]];
      if callback(now) != 0 then (callback(now), now) else Visit(todo[1..], callback, now)
  }

  lemma {:induction false} VisitBoth(a: seq<string>, b: seq<string>, callback: seq<string> -> int, seen: seq<string>)
    ensures var (r, log) := Visit(a, callback, seen);
            Visit(a + b, callback, seen) == if r != 0 then (r, log) else Visit(b, callback, log)
    decreases |a|
  {
    if a == [] {
      assert a + b == b;
    } else {
      assert (a + b)[1..] == a[1..] + b;
      VisitBoth(a[1..], b, callback, seen + [a[0]]);
    }
  }

  /** A stopped visit has seen a beginning of the list, the last one being the first refusal. */
  lemma {:induction false} VisitPrefix(todo: seq<string>,
      callback: seq<string> -> int, seen: seq<string>) returns (n: nat)
    ensures n <= |todo|
    ensures Visit(todo, callback, seen).1 == seen + todo[..n]
    ensures forall k | 0 < k < n :: callback(seen + todo[..k]) == 0
    ensures var r := Visit(todo, callback, seen).0;
            if r == 0 then n == |todo| && (n > 0 ==> callback(seen + todo) == 0)
            else n > 0 && r == callback(seen + todo[..n])
    decreases |todo|
  {
    if todo == [] {
      n := 0;
      assert seen + todo[..0] == seen;
    } else {
      var now := seen + [todo[0]];
      assert todo[..1] == [todo[0]];
      if callback(now) != 0 {
        n := 1;
      } else {
        var m := VisitPrefix(todo[1..], callback, now);
        n := m + 1;
        assert now + todo[1..] == seen + todo;
        forall k | 0 < k <= n ensures seen + todo[..k] == now + todo[1..][..k - 1] {
          assert todo[..k] == [todo[0]] + todo[1..][..k - 1];
        }
        if m == 0 { assert todo[1..] == []; assert now + [] == now; }
        forall k | 0 < k < n ensures callback(seen + todo[..k]) == 0 {
          if k > 1 {
            assert callback(now + todo[1..][..k - 1]) == 0;
          } else {
            assert now + todo[1..][..0] == now;
          }
        }
      }
    }
  }

  /** The first name of a text, and what follows its colon if there is one. */
  method Cut(dirs: string) returns (name: string, colon: bool, rest: string)
    ensures colon ==> |rest| < |dirs| && name != "" && Fields(dirs) == [name] + Fields(rest)
    ensures !colon ==> Fields(dirs) == if name == "" then [] else [name]
  {
    var text := dirs;
    while text != "" && text[0] == ':'
      invariant |text| <= |dirs| && Fields(text) == Fields(dirs)
      decreases |text|
    {
      text := text[1..];
    }
    var where := 0;
    while where < |text| && text[where] != ':'
      invariant 0 <= where <= |text| && Span(text) == where + Span(text[where..])
    {
      assert text[where..][1..] == text[where + 1..];
      where := where + 1;
    }
    name, colon, rest := text[..where], where < |text|, "";
    assert Span(text) == where;
    if colon {
      rest := text[where + 1..];
      assert text[where..][1..] == rest;
      assert Fields(text) == [name] + Fields(rest);
    } else {
      assert text[where..] == "" && name == text;
      if text != "" { assert Fields(text) == [text]; }
    }
  }

  lemma AddedEmpty(chain: seq<Entry>, before: bool)
    ensures Added(chain, "", before) == chain
  {
  }

  lemma NotAdded(chain: seq<Entry>, value: string, before: bool)
    ensures value == "" || !MustAdd(chain, value, before) ==> Added(chain, value, before) == chain
  {
  }

  /** The two orders in which the names are added. */
  lemma MadeStep(chain: seq<Entry>, dirs: string, name: string, colon: bool, rest: string, before: bool)
    requires Fields(dirs) == (if !colon && name == "" then [] else [name]) + if colon then Fields(rest) else []
    ensures Made(chain, Fields(dirs), before) ==
              if !colon then Added(chain, name, before)
              else if before then Added(Made(chain, Fields(rest), true), name, true)
              else Made(Added(chain, name, false), Fields(rest), false)
    ensures TooLong(Fields(dirs)) <==> |name| > SHRT_MAX || (colon && TooLong(Fields(rest)))
  {
    hide Fields, Added;
    var names := Fields(dirs);
    if names == [] {
      AddedEmpty(chain, before);
    } else {
      TooLongFirst(names);
      assert names[1..] == if colon then Fields(rest) else [];
    }
  }

  // ----- nodes -----

  class Node {
    const parent: Node?
    const length: int
    const path: string
    ghost const depth: nat
    var refcount: nat

    constructor (value: string, before: bool, parent: Node?)
      ensures this.parent == parent && path == value && length == (if before then |value| else -|value|)
      ensures refcount == 1 && depth == (if parent == null then 0 else parent.depth + 1)
    {
      length := if before then |value| else -|value|;
      path := value;
      this.parent := parent;
      refcount := 1;
      depth := if parent == null then 0 else parent.depth + 1;
    }
  }

  /** A node is as `add` makes it. */
  ghost predicate Shaped(n: Node) {
    && n.length != 0 && |n.path| == (if n.length > 0 then n.length else -n.length) <= SHRT_MAX
    && (n.parent != null ==> n.parent.depth < n.depth)
  }

  /** The parents of live nodes are live. */
  ghost predicate Closed(live: set<Node>) {
    forall n | n in live :: Shaped(n) && (n.parent != null ==> n.parent in live)
  }

  ghost function Kids(n: Node, live: set<Node>): set<Node> {
    set c | c in live && c.parent == n
  }

  ghost function Chain(n: Node?): seq<Entry>
    decreases if n == null then 0 else n.depth + 1
  {
    if n == null then []
    else [Entry(n.path, n.length)] +
         if n.parent == null || n.parent.depth >= n.depth then [] else Chain(n.parent)
  }

  lemma {:induction false} ChainSigned(n: Node?, live: set<Node>)
    requires Closed(live) && (n != null ==> n in live)
    ensures Signed(Chain(n))
    decreases if n == null then 0 else n.depth + 1
  {
    if n != null {
      ChainSigned(n.parent, live);
    }
  }

  /** The node is the other one or one of its parents. */
  ghost predicate Above(n: Node, h: Node)
    decreases h.depth
  {
    n == h || (h.parent != null && h.parent.depth < h.depth && Above(n, h.parent))
  }

  /** Every live node is held from outside or by a live child. */
  ghost predicate Backed(live: set<Node>, handles: multiset<Node>) {
    && Closed(live) && (forall h | h in handles :: h in live)
    && forall n | n in live :: n in handles || Kids(n, live) != {}
  }

  lemma {:induction false} AboveIsLive(n: Node, h: Node, live: set<Node>)
    requires Closed(live) && h in live && Above(n, h)
    ensures n in live
    decreases h.depth
  {
    if n != h {
      AboveIsLive(n, h.parent, live);
    }
  }

  lemma {:induction false} AboveParent(c: Node, h: Node, live: set<Node>)
    requires Closed(live) && h in live && Above(c, h) && c.parent != null
    ensures Above(c.parent, h)
    decreases h.depth
  {
    if c == h {
      assert Shaped(c);
      assert Above(c.parent, c.parent);
    } else {
      AboveParent(c, h.parent, live);
    }
  }

  lemma {:induction false} LiveIsHeld(n: Node, live: set<Node>, handles: multiset<Node>) returns (h: Node)
    requires Backed(live, handles) && n in live
    ensures h in handles && Above(n, h)
    decreases |set m | m in live && m.depth > n.depth|
  {
    if n in handles {
      h := n;
    } else {
      var c :| c in Kids(n, live);
      assert Shaped(c);
      var deeper, deepest := (set m | m in live && m.depth > n.depth), (set m | m in live && m.depth > c.depth);
      assert deepest <= deeper - {c};
      Smaller(deepest, deeper, c);
      h := LiveIsHeld(c, live, handles);
      AboveParent(c, h, live);
    }
  }

  lemma Smaller(a: set<Node>, b: set<Node>, x: Node)
    requires x in b && a <= b - {x}
    ensures |a| < |b|
  {
    SubsetCard(a, b - {x});
  }

  lemma NewHead(path: Node, value: string, before: bool)
    requires path.path == value != "" && path.length == if before then |value| else -|value|
    requires path.depth == (if path.parent == null then 0 else path.parent.depth + 1)
    requires MustAdd(Chain(path.parent), value, before)
    ensures Chain(path) == Added(Chain(path.parent), value, before)
  {
    assert Chain(path) == [Entry(path.path, path.length)] + Chain(path.parent);
  }

  /** No leak and no dangling node: what is alive is what the outside handles lead to. */
  lemma LiveDetermined(one: set<Node>, two: set<Node>, handles: multiset<Node>)
    requires Backed(one, handles) && Backed(two, handles)
    ensures one == two
  {
    forall n | n in one ensures n in two {
      var h := LiveIsHeld(n, one, handles);
      AboveIsLive(n, h, two);
    }
    forall n | n in two ensures n in one {
      var h := LiveIsHeld(n, two, handles);
      AboveIsLive(n, h, one);
    }
  }

  lemma KidsAdd(n: Node, c: Node, live: set<Node>)
    requires c !in live
    ensures |Kids(n, live + {c})| == |Kids(n, live)| + (if c.parent == n then 1 else 0)
  {
    assert Kids(n, live + {c}) == if c.parent == n then Kids(n, live) + {c} else Kids(n, live);
  }

  lemma KidsRemove(n: Node, c: Node, live: set<Node>)
    requires c in live
    ensures |Kids(n, live - {c})| == |Kids(n, live)| - (if c.parent == n then 1 else 0)
  {
    assert Kids(n, live) == if c.parent == n then Kids(n, live - {c}) + {c} else Kids(n, live - {c});
  }

  ghost function Held(n: Node?): multiset<Node> {
    if n == null then multiset{} else multiset{n}
  }

  /** A handle that moves twice. */
  lemma Moved(handles: multiset<Node>, head: Node?, r: Node?, last: Node?)
    ensures handles - Held(head) + Held(r) - Held(r) + Held(last) == handles - Held(head) + Held(last)
  {
  }

  lemma Lent(handles: multiset<Node>, parent: Node?, r: Node?)
    ensures handles + Held(parent) - Held(parent) + Held(r) == handles + Held(r)
    ensures handles + Held(r) - Held(r) == handles
    ensures parent != null ==> parent in handles + Held(parent)
  {
  }

  lemma NotMoved(handles: multiset<Node>, head: Node?)
    requires head != null ==> head in handles
    ensures handles - Held(head) + Held(head) == handles
  {
  }

  lemma HandleMoves(handles: multiset<Node>, head: Node?, path: Node)
    requires path !in handles && (head != null ==> head in handles)
    ensures var next := handles - Held(head) + Held(path);
            next[path] == 1 && forall n: Node {:trigger next[n]} | n != path :: next[n] == handles[n] - (if n == head then 1 else 0)
  {
  }

  lemma MoreKids(path: Node, live: set<Node>)
    requires path !in live
    ensures forall n | n in live + {path} ::
              |Kids(n, live + {path})| == |Kids(n, live)| + (if path.parent == n then 1 else 0)
  {
    forall n | n in live + {path}
      ensures |Kids(n, live + {path})| == |Kids(n, live)| + (if path.parent == n then 1 else 0)
    {
      KidsAdd(n, path, live);
    }
  }

  lemma NoKids(path: Node, live: set<Node>)
    requires Closed(live) && path !in live
    ensures Kids(path, live) == {}
  {
    forall c | c in live ensures c.parent != path { }
  }

  /** A new node takes the handle of its parent: the parent owes one reference as before. */
  lemma Rebalanced(live: set<Node>, handles: multiset<Node>, head: Node?, path: Node)
    requires Closed(live) && (forall h | h in handles :: h in live) && (head != null ==> head in handles)
    requires path !in live && path.parent == head
    ensures var (next, more) := (handles - Held(head) + Held(path), live + {path});
            && (forall n | n in live :: next[n] + |Kids(n, more)| == handles[n] + |Kids(n, live)|)
            && next[path] + |Kids(path, more)| == 1 && forall h | h in next :: h in more
  {
    NoKids(path, live);
    hide Closed, Kids;
    MoreKids(path, live);
    assert path !in handles;
    HandleMoves(handles, head, path);
    hide Held;
    forall h | h in handles - Held(head) + Held(path) ensures h in live + {path} {
      if h != path { assert h in handles; }
    }
  }

  /** All the nodes of the program, and the references held outside the nodes. */
  class Paths {
    ghost var live: set<Node>
    ghost var handles: multiset<Node>

    constructor ()
      ensures Inv() && live == {} && handles == multiset{}
    {
      live, handles := {}, multiset{};
    }

    /** The references to a node: handles, live children, and one more for the node in hand. */
    ghost function Owed(n: Node, extra: Node?): nat
      reads this
    {
      handles[n] + |Kids(n, live)| + (if n == extra then 1 else 0)
    }

    ghost predicate Linked()
      reads this
    {
      Closed(live) && (forall h | h in handles :: h in live)
    }

    ghost predicate Balanced(extra: Node?)
      reads this, live
    {
      && Linked() && (extra != null ==> extra in live)
      && forall n | n in live :: 0 < n.refcount < COUNT_END && n.refcount == Owed(n, extra)
    }

    ghost predicate Inv()
      reads this, live
    {
      Balanced(null)
    }

    lemma IsLinked()
      requires Inv()
      ensures Linked()
    {
    }

    lemma IsBacked()
      requires Inv()
      ensures Backed(live, handles)
    {
      forall n | n in live ensures n in handles || Kids(n, live) != {} {
        assert n.refcount == Owed(n, null);
      }
    }

    ghost predicate OthersRight(p: Node)
      reads this, live
    {
      Linked() && forall n | n in live && n != p :: 0 < n.refcount < COUNT_END && n.refcount == Owed(n, null)
    }

    lemma AllRight(p: Node)
      requires OthersRight(p) && p in live
      ensures Inv() <==> 0 < p.refcount < COUNT_END && p.refcount == Owed(p, null)
    {
    }

    /** One more handle; the 16-bit count bears it as long as it does not wrap. */
    method AddRef(paths: Node?)
      requires Inv() && (paths != null ==> paths in live)
      modifies this`handles, live
      ensures live == old(live) && handles == old(handles) + Held(paths)
      ensures Inv() <==> paths == null || old(paths.refcount) < COUNT_END - 1
    {
      if paths != null {
        hide Kids, Shaped;
        paths.refcount := (paths.refcount + 1) % COUNT_END;
        handles := handles + multiset{paths};
        assert OthersRight(paths);
        assert Owed(paths, null) == old(Owed(paths, null)) + 1;
        hide Balanced, OthersRight;
        AllRight(paths);
      }
    }

    /** Gives a handle back, and frees what nothing holds any more. */
    method Unref(paths: Node?)
      requires Inv() && (paths != null ==> paths in handles)
      modifies this, live
      ensures Inv() && live <= old(live) && handles == old(handles) - Held(paths)
    {
      var p := paths;
      InHand(p);
      while p != null
        invariant Balanced(p) && live <= old(live)
        invariant handles == old(handles) - Held(paths)
        decreases live
      {
        hide Balanced;
        var freed := Decrement(p);
        if !freed {
          return;
        }
        var parent := p.parent;
        Bury(p);
        p := parent;
      }
    }

    ghost method InHand(p: Node?)
      requires Inv() && (p != null ==> p in handles)
      modifies this`handles
      ensures Balanced(p) && handles == old(handles) - Held(p)
    {
      hide Kids, Shaped;
      handles := handles - Held(p);
      assert forall n | n in live :: old(Owed(n, null)) == Owed(n, p);
    }

    method Decrement(p: Node) returns (zero: bool)
      requires Balanced(p)
      modifies p`refcount
      ensures if zero then Unheld(p) else Inv()
    {
      hide Kids, Shaped;
      assert p.refcount == Owed(p, p);
      label before: assert forall n | n in live && n != p :: n.refcount == Owed(n, p) == Owed(n, null);
      p.refcount := (p.refcount - 1) % COUNT_END;
      zero := p.refcount == 0;
      assert Owed(p, p) == old@before(Owed(p, p));
      if zero { Lonely(p); }
    }

    /** Nothing refers to the node any more, and all the others are balanced. */
    ghost predicate Unheld(p: Node)
      reads this, live
    {
      OthersRight(p) && p in live && handles[p] == 0 && (forall c | c in live :: c.parent != p)
    }

    ghost method Bury(p: Node)
      requires Unheld(p)
      modifies this`live
      ensures Balanced(p.parent) && live == old(live) - {p}
    {
      forall n | n in live && n != p
        ensures |Kids(n, live - {p})| == |Kids(n, live)| - (if p.parent == n then 1 else 0)
      {
        KidsRemove(n, p, live);
      }
      assert Shaped(p);
      live := live - {p};
      assert forall n | n in live :: Owed(n, p.parent) == old(Owed(n, null));
    }

    lemma Lonely(p: Node)
      requires |Kids(p, live)| == 0
      ensures forall c | c in live :: c.parent != p
    {
      assert Kids(p, live) == {};
      forall c | c in live ensures c.parent != p {
        assert c in Kids(p, live) <==> c.parent == p;
      }
    }

    /** The walk of `must_add`, that stops at the head when the name is to go in front. */
    method IsMissing(paths: Node?, value: string, before: bool) returns (b: bool)
      requires Linked() && (paths != null ==> paths in live)
      ensures b == MustAdd(Chain(paths), value, before)
    {
      var p := paths;
      b := true;
      while p != null
        invariant p != null ==> p in live
        invariant before ==> p == paths
        invariant Named(Chain(paths), value) == Named(Chain(p), value)
        decreases if p == null then 0 else p.depth + 1
      {
        assert Shaped(p);
        var plen := if p.length >= 0 then p.length else -p.length;
        assert Chain(p)[0] == Entry(p.path, p.length);
        NamedFirst(Chain(p), value);
        if plen == |value| && p.path == value {
          return false;
        }
        if before {
          return true;
        }
        assert Chain(p)[1..] == Chain(p.parent);
        p := p.parent;
      }
    }

    /** One name; the handle in hand moves to the new node. */
    method Add(head: Node?, value: string, before: bool) returns (rc: int, r: Node?)
      requires Inv() && (head != null ==> head in handles)
      modifies this
      ensures Inv() && handles == old(handles) - Held(head) + Held(r) && (r != null ==> r in handles)
      ensures old(live) <= live && (forall n | n in live && n !in old(live) :: fresh(n))
      ensures rc == if |value| > SHRT_MAX then EINVAL else 0
      ensures Chain(r) == if rc == 0 then Added(Chain(head), value, before) else Chain(head)
    {
      hide Balanced, Chain, Added, MustAdd;
      rc, r := 0, head;
      NotAdded(Chain(head), value, before);
      NotMoved(handles, head);
      IsLinked();
      if |value| > SHRT_MAX {
        rc := EINVAL;
      } else if |value| > 0 {
        var missing := IsMissing(head, value, before);
        if missing {
          r := Front(head, value, before);
        }
      }
    }

    /** A new node on the chain. */
    method Front(head: Node?, value: string, before: bool) returns (r: Node)
      requires Inv() && (head != null ==> head in handles)
      requires 0 < |value| <= SHRT_MAX && MustAdd(Chain(head), value, before)
      modifies this
      ensures Inv() && handles == old(handles) - Held(head) + Held(r) && r in handles
      ensures live == old(live) + {r} && fresh(r)
      ensures Chain(r) == Added(Chain(head), value, before)
    {
      hide Balanced, Chain, Added, MustAdd;
      IsLinked();
      r := new Node(value, before, head);
      Grow(head, r);
      NewHead(r, value, before);
    }

    ghost method Grow(head: Node?, path: Node)
      requires Inv() && (head != null ==> head in handles)
      requires path !in live && path.parent == head && Shaped(path) && path.refcount == 1
      modifies this
      ensures Inv() && live == old(live) + {path} && handles == old(handles) - Held(head) + Held(path)
    {
      hide Kids, Held, Shaped;
      Rebalanced(live, handles, head, path);
      live := live + {path};
      handles := handles - Held(head) + Held(path);
      assert OthersRight(path);
      hide Balanced, OthersRight;
      AllRight(path);
    }

    /** All the names of a text, the last first when they go in front. */
    method Make(head: Node?, dirs: string, before: bool) returns (rc: int, r: Node?)
      requires Inv() && (head != null ==> head in handles)
      modifies this
      ensures Inv() && handles == old(handles) - Held(head) + Held(r) && (r != null ==> r in handles)
      ensures old(live) <= live && (forall n | n in live && n !in old(live) :: fresh(n))
      ensures rc == if TooLong(Fields(dirs)) then EINVAL else 0
      ensures rc == 0 ==> Chain(r) == Made(Chain(head), Fields(dirs), before)
      decreases |dirs|
    {
      hide Balanced, Fields, TooLong, Chain, Added, Held, Inv, Made;
      var name, colon, rest := Cut(dirs);
      MadeStep(Chain(head), dirs, name, colon, rest, before);
      if !colon {
        rc, r := Add(head, name, before);
      } else {
        rc, r := 0, head;
        ghost var middle := head;
        NotMoved(handles, head);
        if before {
          rc, r := Make(r, rest, before);
          middle := r;
        }
        if rc >= 0 {
          rc, r := Add(r, name, before);
          Moved(old(handles), head, middle, r);
          middle := r;
        }
        assert forall n | n in live && n !in old(live) :: fresh(n);
        if rc >= 0 && !before {
          rc, r := Make(r, rest, before);
          Moved(old(handles), head, middle, r);
        }
      }
    }

    /** The handles alone decide of all the rest. */
    twostate lemma Restored()
      requires old(Inv()) && Inv() && handles == old(handles)
      ensures live == old(live) && forall n | n in live :: n.refcount == old(n.refcount)
    {
      IsBacked();
      WasBacked();
      LiveDetermined(live, old(live), handles);
      forall n | n in live ensures n.refcount == old(n.refcount) {
        assert n.refcount == Owed(n, null) && old(n.refcount) == old(Owed(n, null));
      }
    }

    twostate lemma WasBacked()
      requires old(Inv())
      ensures Backed(old(live), old(handles))
    {
      forall n | n in old(live) ensures n in old(handles) || Kids(n, old(live)) != {} {
        assert old(n.refcount) == old(Owed(n, null));
      }
    }

    lemma Listed(parent: Node?, dirs: string, before: bool)
      requires Inv() && (parent != null ==> parent in live)
      ensures Listing(Made(Chain(parent), Fields(dirs), before)) == Extended(Chain(parent), Fields(dirs), before)
    {
      ChainSigned(parent, live);
      FieldsClean(dirs);
      MadeListing(Chain(parent), Fields(dirs), before);
    }

    /** A new handle on the names put before or after a chain; on failure everything is as before. */
    method AddDirExpanded(dirs: Option<string>, before: bool, parent: Node?) returns (rc: int, paths: Node?)
      requires Inv() && (parent != null ==> parent in live && parent.refcount < COUNT_END - 1)
      modifies this, live
      ensures Inv()
      ensures rc == if dirs.None? || TooLong(Fields(dirs.value)) then EINVAL else 0
      ensures rc == 0 ==>
                && handles == old(handles) + Held(paths) && old(live) <= live && (forall n | n in live && n !in old(live) :: fresh(n))
                && Chain(paths) == Made(Chain(parent), Fields(dirs.value), before)
                && Listing(Chain(paths)) == Extended(Chain(parent), Fields(dirs.value), before)
      ensures rc != 0 ==>
                && paths == null && handles == old(handles) && live == old(live)
                && forall n | n in live :: n.refcount == old(n.refcount)
    {
      hide Balanced, Fields, TooLong, Chain, Held, Made, Extended, Listing;
      if dirs.Some? { Listed(parent, dirs.value, before); }
      AddRef(parent);
      Lent(old(handles), parent, parent);
      var head := parent;
      if dirs.None? {
        rc := EINVAL;
      } else {
        rc, head := Make(head, dirs.value, before);
        Lent(old(handles), parent, head);
      }
      if rc < 0 {
        Unref(head);
        head := null;
        Restored();
      }
      paths := head;
    }

    /** The handle of the caller moves to the extended chain; on failure nothing moves. */
    method ExtendDirs(paths: Node?, dirs: Option<string>, before: bool) returns (rc: int, r: Node?)
      requires Inv() && (paths != null ==> paths in handles && paths.refcount < COUNT_END - 1)
      modifies this, live
      ensures Inv()
      ensures rc == if dirs.None? || TooLong(Fields(dirs.value)) then EINVAL else 0
      ensures rc == 0 ==>
                && handles == old(handles) - Held(paths) + Held(r)
                && Chain(r) == Made(Chain(paths), Fields(dirs.value), before)
                && Listing(Chain(r)) == Extended(Chain(paths), Fields(dirs.value), before)
      ensures rc != 0 ==>
                && r == paths && handles == old(handles) && live == old(live)
                && forall n | n in live :: n.refcount == old(n.refcount)
    {
      var p;
      rc, p := AddDirExpanded(dirs, before, paths);
      r := paths;
      if rc >= 0 {
        Unref(paths);
        r := p;
      }
    }

    /** Visits the directories in the order of the list, until one answer is not null. */
    method List(paths: Node, callback: seq<string> -> int, seen: seq<string>) returns (result: int, log: seq<string>)
      requires Linked() && paths in live
      ensures (result, log) == Visit(Listing(Chain(paths)), callback, seen)
      decreases paths.depth
    {
      assert Shaped(paths);
      result, log := 0, seen;
      ghost var first := if paths.length > 0 then [paths.path] else [];
      ghost var last := if paths.length < 0 then [paths.path] else [];
      ghost var middle := Listing(Chain(paths.parent));
      assert Chain(paths)[1..] == Chain(paths.parent);
      assert Listing(Chain(paths)) == first + middle + last;
      VisitBoth(first + middle, last, callback, seen);
      VisitBoth(first, middle, callback, seen);
      if paths.length > 0 {
        log := log + [paths.path];
        result := callback(log);
      }
      if result == 0 && paths.parent != null {
        result, log := List(paths.parent, callback, log);
      }
      if result == 0 && paths.length < 0 {
        log := log + [paths.path];
        result := callback(log);
      }
    }
  }
}
