/**
 The path that leads from the root of a tree to a node, as a text.
 */
module JsonPath {
  import opened Wrappers

  /** Nodes are compared by identity; the members of an object are in their order of iteration. */
  datatype Node =
    | Leaf(id: nat)
    | Array(id: nat, items: seq<Node>)
    | Object(id: nat, members: seq<Member>)

  datatype Member = Member(key: string, node: Node)

  /** The steps, linked from the last one to the first. */
  datatype Path = Root | Key(previous: Path, key: string) | Index(previous: Path, index: nat)

  // ----- texts -----

  function Digit(n: nat): char
    requires n < 10
  {
    '0' + n as char
  }

  function Decimal(n: nat): (r: string)
    ensures r != []
  {
    if n < 10 then [Digit(n)] else Decimal(n / 10) + [Digit(n % 10)]
  }

  function Text(p: Path): string {
    match p
    case Root => ""
    case Key(previous, key) => Text(previous) + "." + key
    case Index(previous, index) => Text(previous) + "[" + Decimal(index) + "]"
  }

  lemma Hundreds(n: nat)
    requires n >= 100
    ensures n / 10 / 10 == n / 100 && n / 10 >= 10
  {
  }

  lemma TwoDigits(n: nat)
    requires n >= 100
    ensures |Decimal(n)| == |Decimal(n / 100)| + 2
  {
    Hundreds(n);
  }

  /** The number that digits write. */
  function NumberOf(s: string): int {
    if s == "" then 0 else NumberOf(s[..|s| - 1]) * 10 + (s[|s| - 1] as int - '0' as int)
  }

  lemma {:induction false} DecimalBack(n: nat)
    ensures NumberOf(Decimal(n)) == n
  {
    if n < 10 {
      assert Decimal(n)[..0] == "";
    } else {
      DecimalBack(n / 10);
      assert Decimal(n)[..|Decimal(n)| - 1] == Decimal(n / 10);
    }
  }

  // ----- reading a text back -----

  predicate IsMark(c: char) { c == '.' || c == '[' }

  /** Where the last step of a text starts, -1 if it has none. */
  function LastMark(s: string): (k: int)
    ensures -1 <= k < |s| && (k >= 0 ==> IsMark(s[k])) && forall i | k < i < |s| :: !IsMark(s[i])
  {
    if s == "" then -1 else if IsMark(s[|s| - 1]) then |s| - 1 else LastMark(s[..|s| - 1])
  }

  /** The path that a text tells, step by step from its end. */
  function ReadPath(s: string): Option<Path> {
    var k := LastMark(s);
    if s == "" then Some(Root)
    else if k < 0 then None
    else
      match ReadPath(s[..k])
      case None => None
      case Some(previous) =>
        if s[k] == '.' then Some(Key(previous, s[k + 1..]))
        else if k + 1 < |s| && s[|s| - 1] == ']' && NumberOf(s[k + 1..|s| - 1]) >= 0 then
          Some(Index(previous, NumberOf(s[k + 1..|s| - 1])))
        else None
  }

  predicate NoMark(s: string) { forall i | 0 <= i < |s| :: !IsMark(s[i]) }

  /** No key has a period or an opening bracket. */
  predicate Clear(p: Path) {
    match p
    case Root => true
    case Key(previous, key) => NoMark(key) && Clear(previous)
    case Index(previous, _) => Clear(previous)
  }

  lemma {:induction false} DecimalDigits(n: nat)
    ensures forall i | 0 <= i < |Decimal(n)| :: '0' <= Decimal(n)[i] <= '9'
  {
    if n >= 10 { DecimalDigits(n / 10); }
  }

  lemma LastMarkIs(s: string, k: nat)
    requires k < |s| && IsMark(s[k]) && forall i | k < i < |s| :: !IsMark(s[i])
    ensures LastMark(s) == k
  {
  }

  /** The text of a path is read back as that path exactly when no key could be taken for steps. */
  lemma {:induction false} TextBack(p: Path)
    ensures ReadPath(Text(p)) == Some(p) <==> Clear(p)
  {
    match p
    case Root =>
    case Key(previous, key) =>
      TextBack(previous);
      KeyBack(previous, key);
    case Index(previous, index) =>
      TextBack(previous);
      IndexBack(previous, index);
  }

  lemma KeyBack(previous: Path, key: string)
    ensures NoMark(key) ==>
              ReadPath(Text(Key(previous, key))) ==
                match ReadPath(Text(previous)) { case None => None case Some(q) => Some(Key(q, key)) }
    ensures !NoMark(key) ==> ReadPath(Text(Key(previous, key))) != Some(Key(previous, key))
  {
    var front := Text(previous);
    assert Text(Key(previous, key)) == front + "." + key;
    hide Text, ReadPath, NoMark;
    if NoMark(key) { ClearKey(front, key); } else { MarkedKey(front, key); }
  }

  lemma ClearKey(front: string, key: string)
    requires NoMark(key)
    ensures ReadPath(front + "." + key) == match ReadPath(front) { case None => None case Some(q) => Some(Key(q, key)) }
  {
    var t := front + "." + key;
    KeyText(front, key);
    assert t[|front|] == '.';
    LastMarkIs(t, |front|);
    hide LastMark, NumberOf;
  }

  lemma MarkedKey(front: string, key: string)
    requires !NoMark(key)
    ensures var r := ReadPath(front + "." + key); r.Some? && r.value.Key? ==> |r.value.key| < |key|
  {
    hide ReadPath;
    var t, n := front + "." + key, |front|;
    KeyText(front, key);
    var i :| 0 <= i < |key| && IsMark(key[i]);
    assert IsMark(t[n + 1 + i]);
    assert LastMark(t) >= n + 1 + i;
    LastKey(t);
  }

  lemma KeyText(front: string, key: string)
    ensures var t := front + "." + key;
            && t[|front|] == '.' && t[..|front|] == front && t[|front| + 1..] == key
            && forall i | 0 <= i < |key| :: t[|front| + 1 + i] == key[i]
  {
  }

  /** A key that is read is what follows the last mark. */
  lemma LastKey(s: string)
    requires s != ""
    ensures ReadPath(s).Some? && ReadPath(s).value.Key? ==> |ReadPath(s).value.key| == |s| - LastMark(s) - 1
  {
    hide NumberOf;
  }

  lemma IndexBack(previous: Path, index: nat)
    ensures ReadPath(Text(Index(previous, index))) ==
              match ReadPath(Text(previous)) { case None => None case Some(q) => Some(Index(q, index)) }
  {
    var t, n, d := Text(Index(previous, index)), |Text(previous)|, Decimal(index);
    DecimalDigits(index);
    DecimalBack(index);
    hide Decimal, NumberOf;
    assert t == Text(previous) + "[" + d + "]" && t[n] == '[';
    assert forall i | 0 <= i < |d| :: t[n + 1 + i] == d[i];
    LastMarkIs(t, n);
    assert t[..n] == Text(previous) && t[n + 1..|t| - 1] == d;
  }

  /** The length of the text, where the digits of an index are counted by hundreds. */
  method PathLen(path: Path, got: nat) returns (r: nat)
    ensures r == got + |Text(path)|
    decreases path
  {
    match path
    case Root =>
      r := got;
    case Key(previous, key) =>
      r := PathLen(previous, got + 1 + |key|);
    case Index(previous, index) =>
      var v, n := index, got + 3;
      while v >= 100
        invariant n + |Decimal(v)| == got + 3 + |Decimal(index)|
      {
        TwoDigits(v);
        v := v / 100;
        n := n + 2;
      }
      SmallWidth(v);
      n := n + if v > 9 then 1 else 0;
      r := PathLen(previous, n);
  }

  lemma SmallWidth(v: nat)
    requires v < 100
    ensures |Decimal(v)| == if v > 9 then 2 else 1
  {
    if v > 9 { assert v / 10 < 10; }
  }

  function Power10(k: nat): nat {
    if k == 0 then 1 else 10 * Power10(k - 1)
  }

  lemma {:induction false} Width(n: nat, k: nat)
    requires k > 0 && n < Power10(k)
    ensures |Decimal(n)| <= k
  {
    if n >= 10 {
      assert n / 10 < Power10(k - 1);
      assert k > 1;
      Width(n / 10, k - 1);
    }
  }

  /** An index of 64 bits has at most twenty digits. */
  lemma IndexWidth(n: nat)
    requires n < 0x1_0000_0000_0000_0000
    ensures |Decimal(n)| <= 20
  {
    assert Power10(5) == 100000;
    assert Power10(10) == 100000 * Power10(5);
    assert Power10(15) == 100000 * Power10(10);
    assert Power10(20) == 100000 * Power10(15);
    Width(n, 20);
  }

  function Reversed(s: string): (r: string)
    ensures |r| == |s|
  {
    if s == "" then "" else [s[|s| - 1]] + Reversed(s[..|s| - 1])
  }

  lemma {:induction false} ReversedAt(s: string, i: nat)
    requires i < |s|
    ensures Reversed(s)[|s| - 1 - i] == s[i]
  {
    if i < |s| - 1 {
      ReversedAt(s[..|s| - 1], i);
    }
  }

  lemma LastDigit(d: string, i: nat, v: nat)
    requires i <= |d| && Reversed(d)[i..] == Reversed(Decimal(v))
    ensures i < |d| && Reversed(d)[..i + 1] == Reversed(d)[..i] + [Digit(v % 10)]
    ensures if v / 10 != 0 then Reversed(d)[i + 1..] == Reversed(Decimal(v / 10)) else i + 1 == |d|
  {
    var dv := Decimal(v);
    assert Reversed(d)[i] == Reversed(d)[i..][0] == dv[|dv| - 1] == Digit(v % 10);
    assert v >= 10 ==> dv[..|dv| - 1] == Decimal(v / 10);
    assert Reversed(dv)[1..] == Reversed(dv[..|dv| - 1]);
    assert Reversed(d)[i..][1..] == Reversed(d)[i + 1..];
  }

  /** The digits of an index, the last first, in a buffer of 30 characters. */
  method DigitsOf(index: nat, buffer: array<char>) returns (i: nat)
    requires index < 0x1_0000_0000_0000_0000 && buffer.Length == 30
    modifies buffer
    ensures i == |Decimal(index)| <= 20 && buffer[..i] == Reversed(Decimal(index))
  {
    IndexWidth(index);
    var v := index;
    i := 0;
    ghost var d := Decimal(index);
    var more := true;
    while more
      invariant i <= |d| <= 20 && buffer[..i] == Reversed(d)[..i]
      invariant if more then Reversed(d)[i..] == Reversed(Decimal(v)) else i == |d|
      decreases if more then v + 1 else 0
    {
      LastDigit(d, i, v);
      buffer[i] := Digit(v % 10);
      assert buffer[..i + 1] == buffer[..i] + [Digit(v % 10)];
      i := i + 1;
      v := v / 10;
      more := v != 0;
    }
    assert Reversed(d)[..i] == Reversed(d);
  }

  /** All the indexes of a path are sizes. */
  predicate Sized(p: Path) {
    match p
    case Root => true
    case Key(previous, _) => Sized(previous)
    case Index(previous, index) => index < 0x1_0000_0000_0000_0000 && Sized(previous)
  }

  /** Writes the text of the path, the first step first, and gives where it ends. */
  method PathSet(path: Path, result: array<char>) returns (base: nat)
    requires Sized(path) && |Text(path)| <= result.Length
    modifies result
    ensures base == |Text(path)| && result[..base] == Text(path)
    decreases path
  {
    match path
    case Root =>
      base := 0;
    case Key(previous, key) =>
      base := PathSet(previous, result);
      base := PutKey(result, base, key);
    case Index(previous, index) =>
      base := PathSet(previous, result);
      base := PutIndex(result, base, index);
  }

  method PutKey(result: array<char>, at: nat, key: string) returns (base: nat)
    requires at + 1 + |key| <= result.Length
    modifies result
    ensures base == at + 1 + |key| && result[..base] == old(result[..at]) + "." + key
  {
    result[at] := '.';
    forall i | 0 <= i < |key| {
      result[at + 1 + i] := key[i];
    }
    base := at + 1 + |key|;
    assert result[..at] == old(result[..at]);
    assert result[at + 1..base] == key;
    assert result[..base] == result[..at] + [result[at]] + result[at + 1..base];
  }

  method PutIndex(result: array<char>, at: nat, index: nat) returns (base: nat)
    requires index < 0x1_0000_0000_0000_0000 && at + 2 + |Decimal(index)| <= result.Length
    modifies result
    ensures base == at + 2 + |Decimal(index)| && result[..base] == old(result[..at]) + "[" + Decimal(index) + "]"
  {
    var buffer := new char[30];
    var i := DigitsOf(index, buffer);
    result[at] := '[';
    assert result[..at + 1] == old(result[..at]) + "[";
    base := PutDigits(result, at + 1, buffer, i, Decimal(index));
    result[base] := ']';
    assert result[..base + 1] == result[..base] + "]";
    base := base + 1;
  }

  /** The digits of the buffer, from the last one to the first. */
  method PutDigits(result: array<char>, at: nat, buffer: array<char>, n: nat, ghost d: string) returns (base: nat)
    requires n == |d| <= buffer.Length && at + n <= result.Length && buffer != result && buffer[..n] == Reversed(d)
    modifies result
    ensures base == at + n && result[..base] == old(result[..at]) + d
  {
    var i := n;
    base := at;
    ghost var start := result[..at];
    assert start + d[..0] == start;
    while i > 0
      invariant 0 <= i <= n && base + i == at + n
      invariant buffer[..n] == Reversed(d)
      invariant result[..base] == start + d[..n - i]
    {
      hide Reversed;
      i := i - 1;
      ReversedAt(d, n - 1 - i);
      assert buffer[i] == buffer[..n][i] == d[n - 1 - i];
      result[base] := buffer[i];
      assert result[..base + 1] == result[..base] + [d[n - 1 - i]];
      assert d[..n - i] == d[..n - 1 - i] + [d[n - 1 - i]];
      base := base + 1;
    }
    assert d[..n] == d;
  }

  // ----- places -----

  datatype Place = Place(path: Path, node: Node)

  /** All the places of a tree, in preorder: a node before what it holds. */
  function All(n: Node, previous: Path): (r: seq<Place>)
    ensures r != [] && r[0] == Place(previous, n)
    decreases n
  {
    [Place(previous, n)] +
    match n
    case Leaf(_) => []
    case Array(_, items) => AllItems(items, 0, previous)
    case Object(_, members) => AllMembers(members, 0, previous)
  }

  function AllItems(items: seq<Node>, k: nat, previous: Path): seq<Place>
    decreases items, |items| - k
  {
    if k >= |items| then [] else All(items[k], Index(previous, k)) + AllItems(items, k + 1, previous)
  }

  function AllMembers(members: seq<Member>, k: nat, previous: Path): seq<Place>
    decreases members, |members| - k
  {
    if k >= |members| then []
    else All(members[k].node, Key(previous, members[k].key)) + AllMembers(members, k + 1, previous)
  }

  /** The first place of a node. */
  function First(places: seq<Place>, id: nat): (r: Option<Path>)
    ensures match r
            case None => forall i | 0 <= i < |places| :: places[i].node.id != id
            case Some(p) =>
              exists i | 0 <= i < |places| ::
                && places[i].path == p && places[i].node.id == id
                && forall j | 0 <= j < i :: places[j].node.id != id
  {
    if places == [] then None
    else if places[0].node.id == id then Some(places[0].path)
    else
      var r := First(places[1..], id);
      FirstShift(places, id, r);
      r
  }

  lemma FirstShift(places: seq<Place>, id: nat, r: Option<Path>)
    requires places != [] && places[0].node.id != id
    requires match r
             case None => forall i | 0 <= i < |places[1..]| :: places[1..][i].node.id != id
             case Some(p) =>
               exists i | 0 <= i < |places[1..]| ::
                 && places[1..][i].path == p && places[1..][i].node.id == id
                 && forall j | 0 <= j < i :: places[1..][j].node.id != id
    ensures match r
            case None => forall i | 0 <= i < |places| :: places[i].node.id != id
            case Some(p) =>
              exists i | 0 <= i < |places| ::
                && places[i].path == p && places[i].node.id == id
                && forall j | 0 <= j < i :: places[j].node.id != id
  {
    if r == None {
      forall i | 0 <= i < |places| ensures places[i].node.id != id {
        if i > 0 { assert places[i] == places[1..][i - 1]; }
      }
    } else {
      var i :| 0 <= i < |places[1..]| && places[1..][i].path == r.value && places[1..][i].node.id == id
               && forall j | 0 <= j < i :: places[1..][j].node.id != id;
      forall j | 0 <= j < i + 1 ensures places[j].node.id != id {
        if j > 0 { assert places[j] == places[1..][j - 1]; }
      }
      assert places[i + 1] == places[1..][i];
    }
  }

  lemma {:induction false} FirstAppend(a: seq<Place>, b: seq<Place>, id: nat)
    ensures First(a + b, id) == if First(a, id).Some? then First(a, id) else First(b, id)
  {
    if a == [] {
      assert a + b == b;
    } else {
      assert (a + b)[1..] == a[1..] + b;
      FirstAppend(a[1..], b, id);
    }
  }

  /** The lengths of arrays are sizes. */
  predicate Small(n: Node)
    decreases n
  {
    match n
    case Leaf(_) => true
    case Array(_, items) => |items| < 0x1_0000_0000_0000_0000 && forall i | 0 <= i < |items| :: Small(items[i])
    case Object(_, members) => forall i | 0 <= i < |members| :: Small(members[i].node)
  }

  /** What a search gives: nothing, or the text of the first place. */
  ghost predicate Found(result: array?<char>, first: Option<Path>)
    reads result
  {
    match first
    case None => result == null
    case Some(p) => result != null && result[..] == Text(p) + [0 as char]
  }

  /** Looks for a node, itself first, then in what it holds. */
  method Search(root: Node, jso: nat, previous: Path) returns (result: array?<char>)
    requires Small(root) && Sized(previous)
    ensures Found(result, First(All(root, previous), jso)) && (result != null ==> fresh(result))
    decreases root
  {
    result := null;
    if root.id == jso {
      var n := PathLen(previous, 1);
      result := new char[n];
      var end := PathSet(previous, result);
      result[end] := 0 as char;
      assert result[..] == Text(previous) + [0 as char];
    } else {
      var inside := All(root, previous)[1..];
      assert First(All(root, previous), jso) == First(inside, jso);
      match root
      case Leaf(_) =>
      case Array(_, items) =>
        assert inside == AllItems(items, 0, previous);
        var idx := 0;
        while result == null && idx < |items|
          invariant 0 <= idx <= |items| && (result != null ==> fresh(result))
          invariant if result == null then First(inside, jso) == First(AllItems(items, idx, previous), jso)
                    else Found(result, First(inside, jso))
        {
          hide All, First, Text;
          FirstAppend(All(items[idx], Index(previous, idx)), AllItems(items, idx + 1, previous), jso);
          result := Search(items[idx], jso, Index(previous, idx));
          idx := idx + 1;
        }
      case Object(_, members) =>
        assert inside == AllMembers(members, 0, previous);
        var it := 0;
        while result == null && it < |members|
          invariant 0 <= it <= |members| && (result != null ==> fresh(result))
          invariant if result == null then First(inside, jso) == First(AllMembers(members, it, previous), jso)
                    else Found(result, First(inside, jso))
        {
          hide All, First, Text;
          FirstAppend(All(members[it].node, Key(previous, members[it].key)), AllMembers(members, it + 1, previous), jso);
          result := Search(members[it].node, jso, Key(previous, members[it].key));
          it := it + 1;
        }
    }
  }

  // ----- following a path -----

  function Member0(members: seq<Member>, key: string, k: nat): Option<Node>
    decreases |members| - k
  {
    if k >= |members| then None
    else if members[k].key == key then Some(members[k].node)
    else Member0(members, key, k + 1)
  }

  /** Where a path leads, key by key and index by index. */
  function Follow(root: Node, p: Path): Option<Node>
    decreases p
  {
    match p
    case Root => Some(root)
    case Key(previous, key) =>
      (match Follow(root, previous)
       case Some(Object(_, members)) => Member0(members, key, 0)
       case _ => None)
    case Index(previous, index) =>
      (match Follow(root, previous)
       case Some(Array(_, items)) => if index < |items| then Some(items[index]) else None
       case _ => None)
  }

  /** The keys of an object are distinct, in the whole tree. */
  predicate Wellformed(n: Node)
    decreases n
  {
    match n
    case Leaf(_) => true
    case Array(_, items) => forall i | 0 <= i < |items| :: Wellformed(items[i])
    case Object(_, members) =>
      && (forall i, j | 0 <= i < j < |members| :: members[i].key != members[j].key)
      && forall i | 0 <= i < |members| :: Wellformed(members[i].node)
  }

  lemma {:induction false} MemberAt(members: seq<Member>, i: nat, k: nat)
    requires k <= i < |members| && forall a, b | 0 <= a < b < |members| :: members[a].key != members[b].key
    ensures Member0(members, members[i].key, k) == Some(members[i].node)
    decreases i - k
  {
    if k < i { MemberAt(members, i, k + 1); }
  }

  lemma {:induction false} MemberIs(members: seq<Member>, key: string, k: nat) returns (i: nat)
    requires Member0(members, key, k).Some?
    ensures k <= i < |members| && members[i] == Member(key, Member0(members, key, k).value)
    decreases |members| - k
  {
    if members[k].key == key { i := k; } else { i := MemberIs(members, key, k + 1); }
  }

  /** Each place is where its path leads. */
  lemma {:induction false} PlacesFollow(root: Node, n: Node, previous: Path, place: Place)
    requires Wellformed(n) && Follow(root, previous) == Some(n) && place in All(n, previous)
    ensures Follow(root, place.path) == Some(place.node)
    decreases n
  {
    if place != Place(previous, n) {
      match n
      case Array(_, items) =>
        assert place in AllItems(items, 0, previous);
        var i := ItemPlace(items, 0, previous, place);
        PlacesFollow(root, items[i], Index(previous, i), place);
      case Object(_, members) =>
        assert place in AllMembers(members, 0, previous);
        var i := MemberPlace(members, 0, previous, place);
        MemberAt(members, i, 0);
        PlacesFollow(root, members[i].node, Key(previous, members[i].key), place);
      case Leaf(_) =>
    }
  }

  lemma {:induction false} ItemPlace(items: seq<Node>, k: nat, previous: Path, place: Place) returns (i: nat)
    requires place in AllItems(items, k, previous)
    ensures k <= i < |items| && place in All(items[i], Index(previous, i))
    decreases |items| - k
  {
    if place in All(items[k], Index(previous, k)) { i := k; } else { i := ItemPlace(items, k + 1, previous, place); }
  }

  lemma {:induction false} MemberPlace(members: seq<Member>, k: nat, previous: Path, place: Place) returns (i: nat)
    requires place in AllMembers(members, k, previous)
    ensures k <= i < |members| && place in All(members[i].node, Key(previous, members[i].key))
    decreases |members| - k
  {
    if place in All(members[k].node, Key(previous, members[k].key)) {
      i := k;
    } else {
      i := MemberPlace(members, k + 1, previous, place);
    }
  }

  lemma {:induction false} ItemIn(items: seq<Node>, k: nat, previous: Path, i: nat, place: Place)
    requires k <= i < |items| && place in All(items[i], Index(previous, i))
    ensures place in AllItems(items, k, previous)
    decreases |items| - k
  {
    if k < i { ItemIn(items, k + 1, previous, i, place); }
  }

  lemma {:induction false} MemberIn(members: seq<Member>, k: nat, previous: Path, i: nat, place: Place)
    requires k <= i < |members| && place in All(members[i].node, Key(previous, members[i].key))
    ensures place in AllMembers(members, k, previous)
    decreases |members| - k
  {
    if k < i { MemberIn(members, k + 1, previous, i, place); }
  }

  /** A place, or one step down from a place. */
  predicate Below(place: Place, down: Place) {
    match place.node
    case Leaf(_) => false
    case Array(_, items) => exists i | 0 <= i < |items| :: down == Place(Index(place.path, i), items[i])
    case Object(_, members) =>
      exists i | 0 <= i < |members| :: down == Place(Key(place.path, members[i].key), members[i].node)
  }

  lemma {:induction false} StepDown(n: Node, previous: Path, place: Place, down: Place)
    requires place in All(n, previous) && Below(place, down)
    ensures down in All(n, previous)
    decreases n
  {
    match n
    case Leaf(_) =>
    case Array(_, items) =>
      if place == Place(previous, n) {
        var i :| 0 <= i < |items| && down == Place(Index(previous, i), items[i]);
        ItemIn(items, 0, previous, i, down);
      } else {
        var i := ItemPlace(items, 0, previous, place);
        StepDown(items[i], Index(previous, i), place, down);
        ItemIn(items, 0, previous, i, down);
      }
    case Object(_, members) =>
      if place == Place(previous, n) {
        var i :| 0 <= i < |members| && down == Place(Key(previous, members[i].key), members[i].node);
        MemberIn(members, 0, previous, i, down);
      } else {
        var i := MemberPlace(members, 0, previous, place);
        StepDown(members[i].node, Key(previous, members[i].key), place, down);
        MemberIn(members, 0, previous, i, down);
      }
  }

  /** And every path that leads somewhere is a place. */
  lemma {:induction false} FollowedPlaces(root: Node, p: Path)
    requires Follow(root, p).Some?
    ensures Place(p, Follow(root, p).value) in All(root, Root)
    decreases p
  {
    match p
    case Root =>
    case Key(previous, key) =>
      FollowedPlaces(root, previous);
      var n := Follow(root, previous).value;
      var i := MemberIs(n.members, key, 0);
      assert Below(Place(previous, n), Place(p, n.members[i].node));
      StepDown(root, Root, Place(previous, n), Place(p, n.members[i].node));
    case Index(previous, index) =>
      FollowedPlaces(root, previous);
      var n := Follow(root, previous).value;
      assert Below(Place(previous, n), Place(p, n.items[index]));
      StepDown(root, Root, Place(previous, n), Place(p, n.items[index]));
  }

  // ----- the order of places -----

  function Rank(members: seq<Member>, key: string, k: nat): nat
    decreases |members| - k
  {
    if k >= |members| || members[k].key == key then k else Rank(members, key, k + 1)
  }

  /** At each step of a path, the position among the items, or among the members. */
  function Trail(root: Node, p: Path): seq<nat>
    decreases p
  {
    match p
    case Root => []
    case Index(previous, index) => Trail(root, previous) + [index]
    case Key(previous, key) =>
      var n := Follow(root, previous);
      Trail(root, previous) + [if n.Some? && n.value.Object? then Rank(n.value.members, key, 0) else 0]
  }

  /** The order of a document: what holds comes before what it holds, and then the first difference decides. */
  predicate Before(a: seq<nat>, b: seq<nat>) {
    if b == [] then false
    else if a == [] then true
    else a[0] < b[0] || (a[0] == b[0] && Before(a[1..], b[1..]))
  }

  lemma {:induction false} BeforeAfter(t: seq<nat>, a: seq<nat>, b: seq<nat>)
    ensures Before(t + a, t + b) <==> Before(a, b)
  {
    if t == [] {
      assert t + a == a && t + b == b;
    } else {
      assert (t + a)[1..] == t[1..] + a && (t + b)[1..] == t[1..] + b;
      BeforeAfter(t[1..], a, b);
    }
  }

  ghost predicate Ordered(root: Node, places: seq<Place>) {
    forall i, j | 0 <= i < j < |places| :: Before(Trail(root, places[i].path), Trail(root, places[j].path))
  }

  /** Places whose trails go on from t, with position k or more. */
  ghost predicate Under(root: Node, t: seq<nat>, k: nat, places: seq<Place>) {
    forall i | 0 <= i < |places| :: UnderAt(t, k, Trail(root, places[i].path))
  }

  predicate UnderAt(t: seq<nat>, k: nat, a: seq<nat>) {
    |t| < |a| && a[..|t|] == t && a[|t|] >= k
  }

  /** The places of a child, then those of the next ones. */
  lemma OrderedAppend(root: Node, t: seq<nat>, k: nat, a: seq<Place>, b: seq<Place>)
    requires Ordered(root, a) && Ordered(root, b) && Under(root, t, k + 1, b)
    requires forall i | 0 <= i < |a| :: t + [k] <= Trail(root, a[i].path)
    ensures Ordered(root, a + b) && Under(root, t, k, a + b)
  {
    hide Trail, Before;
    forall i, j | 0 <= i < |a| && 0 <= j < |b| ensures Before(Trail(root, a[i].path), Trail(root, b[j].path)) {
      Apart(t, k, Trail(root, a[i].path), Trail(root, b[j].path));
    }
    forall i | 0 <= i < |a| ensures UnderAt(t, k, Trail(root, a[i].path)) {
      assert (t + [k])[..|t|] == t;
    }
  }

  lemma Apart(t: seq<nat>, k: nat, a: seq<nat>, b: seq<nat>)
    requires t + [k] <= a && UnderAt(t, k + 1, b)
    ensures Before(a, b)
  {
    assert a == t + a[|t|..] && b == t + b[|t|..];
    BeforeAfter(t, a[|t|..], b[|t|..]);
  }

  /** The places of a node are in the order of the document. */
  lemma {:induction false} AllInOrder(root: Node, n: Node, previous: Path)
    requires Wellformed(n) && Follow(root, previous) == Some(n)
    ensures Ordered(root, All(n, previous))
    ensures forall i | 0 <= i < |All(n, previous)| :: Trail(root, previous) <= Trail(root, All(n, previous)[i].path)
    decreases n, 0
  {
    hide Trail, Before, Ordered, Under, All, AllItems, AllMembers;
    AllIs(n, previous);
    match n
    case Leaf(_) =>
      NoneInOrder(root, Trail(root, previous), 0);
      FirstInOrder(root, Place(previous, n), []);
    case Array(_, items) =>
      ItemsInOrder(root, n, 0, previous);
      FirstInOrder(root, Place(previous, n), AllItems(items, 0, previous));
    case Object(_, members) =>
      MembersInOrder(root, n, 0, previous);
      FirstInOrder(root, Place(previous, n), AllMembers(members, 0, previous));
  }

  lemma AllIs(n: Node, previous: Path)
    ensures All(n, previous) == [Place(previous, n)] + match n
                                                       case Leaf(_) => []
                                                       case Array(_, items) => AllItems(items, 0, previous)
                                                       case Object(_, members) => AllMembers(members, 0, previous)
  {
    hide AllItems, AllMembers;
  }

  lemma FirstInOrder(root: Node, place: Place, inside: seq<Place>)
    requires Under(root, Trail(root, place.path), 0, inside) && Ordered(root, inside)
    ensures var all := [place] + inside;
            Ordered(root, all) && forall i | 0 <= i < |all| :: Trail(root, place.path) <= Trail(root, all[i].path)
  {
    hide Trail, Before;
    var t := Trail(root, place.path);
    forall i | 0 <= i < |inside| ensures t <= Trail(root, inside[i].path) && Before(t, Trail(root, inside[i].path)) {
      var a := Trail(root, inside[i].path);
      assert a == t + a[|t|..] && t == t + [];
      BeforeAfter(t, [], a[|t|..]);
      assert Before([], a[|t|..]) by { EmptyFirst(a[|t|..]); }
    }
  }

  lemma EmptyFirst(a: seq<nat>)
    requires a != []
    ensures Before([], a)
  {
  }

  lemma {:induction false} ItemsInOrder(root: Node, n: Node, k: nat, previous: Path)
    requires n.Array? && Wellformed(n) && Follow(root, previous) == Some(n) && k <= |n.items|
    ensures Ordered(root, AllItems(n.items, k, previous)) && Under(root, Trail(root, previous), k, AllItems(n.items, k, previous))
    decreases n.items, |n.items| - k
  {
    hide All, Before, Ordered, Under;
    if k < |n.items| {
      AllInOrder(root, n.items[k], Index(previous, k));
      ItemsInOrder(root, n, k + 1, previous);
      OrderedAppend(root, Trail(root, previous), k, All(n.items[k], Index(previous, k)), AllItems(n.items, k + 1, previous));
    } else {
      NoneInOrder(root, Trail(root, previous), k);
    }
  }

  lemma NoneInOrder(root: Node, t: seq<nat>, k: nat)
    ensures Ordered(root, []) && Under(root, t, k, [])
  {
  }

  lemma {:induction false} MembersInOrder(root: Node, n: Node, k: nat, previous: Path)
    requires n.Object? && Wellformed(n) && Follow(root, previous) == Some(n) && k <= |n.members|
    ensures Ordered(root, AllMembers(n.members, k, previous))
    ensures Under(root, Trail(root, previous), k, AllMembers(n.members, k, previous))
    decreases n.members, |n.members| - k
  {
    hide All, Before, Ordered, Under;
    if k < |n.members| {
      var m := n.members[k];
      MemberAt(n.members, k, 0);
      RankAt(n.members, k, 0);
      AllInOrder(root, m.node, Key(previous, m.key));
      MembersInOrder(root, n, k + 1, previous);
      OrderedAppend(root, Trail(root, previous), k, All(m.node, Key(previous, m.key)), AllMembers(n.members, k + 1, previous));
    } else {
      NoneInOrder(root, Trail(root, previous), k);
    }
  }

  lemma {:induction false} RankAt(members: seq<Member>, i: nat, k: nat)
    requires k <= i < |members| && forall a, b | 0 <= a < b < |members| :: members[a].key != members[b].key
    ensures Rank(members, members[i].key, k) == i
    decreases i - k
  {
    if k < i { RankAt(members, i, k + 1); }
  }

  /**
   What a search from the root finds: nothing exactly when no path leads to the node, and otherwise the path that
   leads to it and comes before all the others in the order of the document.
   */
  lemma SearchMeaning(root: Node, id: nat)
    requires Wellformed(root)
    ensures First(All(root, Root), id) == None <==>
              forall p | Follow(root, p).Some? :: Follow(root, p).value.id != id
    ensures match First(All(root, Root), id)
            case None => true
            case Some(p) =>
              && Follow(root, p).Some? && Follow(root, p).value.id == id
              && forall q | Follow(root, q).Some? && Follow(root, q).value.id == id && q != p :: Before(Trail(root, p), Trail(root, q))
  {
    hide All, Trail, Before;
    var places := All(root, Root);
    var first := First(places, id);
    if first == None {
      forall p | Follow(root, p).Some? ensures Follow(root, p).value.id != id {
        FollowedPlaces(root, p);
        var i :| 0 <= i < |places| && places[i] == Place(p, Follow(root, p).value);
        assert places[i].node.id != id;
      }
    } else {
      var i :| 0 <= i < |places| && places[i].path == first.value && places[i].node.id == id
               && forall j | 0 <= j < i :: places[j].node.id != id;
      PlacesFollow(root, root, Root, places[i]);
      AllInOrder(root, root, Root);
      forall q | Follow(root, q).Some? && Follow(root, q).value.id == id && q != first.value
        ensures Before(Trail(root, first.value), Trail(root, q))
      {
        FollowedPlaces(root, q);
        var j :| 0 <= j < |places| && places[j] == Place(q, Follow(root, q).value);
      }
    }
  }
}
