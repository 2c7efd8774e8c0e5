/**
 Cloning to a depth: containers above the depth are made anew, everything else is shared.

 New nodes take the identities that follow a counter.
 */
module JsonClone {
  import opened Wrappers
  import opened JsonPath

  // ----- what cloning makes -----

  /** The clone, and the next free identity. */
  function Clone(n: Node, depth: int, next: nat): (r: (Node, nat))
    decreases n
  {
    if depth == 0 then (n, next)
    else match n
      case Leaf(_) => (n, next)
      case Array(_, items) =>
        var (copies, after) := CloneItems(items, 0, depth - 1, next + 1);
        (Array(next, copies), after)
      case Object(_, members) =>
        var (copies, after) := CloneMembers(members, |members|, depth - 1, next + 1);
        (Object(next, copies), after)
  }

  /** The items from a rank on are cloned from the last one. */
  function CloneItems(items: seq<Node>, k: nat, depth: int, next: nat): (r: (seq<Node>, nat))
    ensures |r.0| == if k < |items| then |items| - k else 0
    decreases items, |items| - k
  {
    if k >= |items| then ([], next)
    else
      var (rest, mid) := CloneItems(items, k + 1, depth, next);
      var (one, after) := Clone(items[k], depth, mid);
      ([one] + rest, after)
  }

  /** The first members are cloned from the first one. */
  function CloneMembers(members: seq<Member>, k: nat, depth: int, next: nat): (r: (seq<Member>, nat))
    requires k <= |members|
    ensures |r.0| == k && forall i | 0 <= i < k :: r.0[i].key == members[i].key
    decreases members, k
  {
    if k == 0 then ([], next)
    else
      var (front, mid) := CloneMembers(members, k - 1, depth, next);
      var (one, after) := Clone(members[k - 1].node, depth, mid);
      (front + [Member(members[k - 1].key, one)], after)
  }

  // ----- cloning -----

  method CloneDepth(item: Node, depth: int, next: nat) returns (r: Node, after: nat)
    ensures (r, after) == Clone(item, depth, next)
    decreases item, 1
  {
    r, after := item, next;
    if depth != 0 {
      match item
      case Array(_, _) =>
        r, after := CloneArray(item, depth - 1, next);
      case Object(_, _) =>
        r, after := CloneObject(item, depth - 1, next);
      case Leaf(_) =>
    }
  }

  /** From the last item: the first write makes room for all of them. */
  method CloneArray(list: Node, subdepth: int, next: nat) returns (r: Node, after: nat)
    requires list.Array?
    ensures var (copies, last) := CloneItems(list.items, 0, subdepth, next + 1);
            r == Array(next, copies) && after == last
    decreases list, 0
  {
    var items := list.items;
    var n := |items|;
    var copies: seq<Node> := [];
    after := next + 1;
    while n != 0
      invariant 0 <= n <= |items| && |copies| == (if n < |items| then |items| else 0)
      invariant (copies[if n < |items| then n else 0..], after) == CloneItems(items, n, subdepth, next + 1)
      decreases n
    {
      n := n - 1;
      var one;
      one, after := CloneDepth(items[n], subdepth, after);
      ghost var was := copies;
      copies := PutIdx(copies, n, one);
      assert copies[n..] == [one] + (if n + 1 < |items| then was[n + 1..] else []);
    }
    r := Array(next, copies);
    assert copies[0..] == copies;
  }

  /** From the first member. */
  method CloneObject(whole: Node, subdepth: int, next: nat) returns (r: Node, after: nat)
    requires whole.Object?
    ensures var (copies, last) := CloneMembers(whole.members, |whole.members|, subdepth, next + 1);
            r == Object(next, copies) && after == last
    decreases whole, 0
  {
    var members := whole.members;
    var copies: seq<Member> := [];
    after := next + 1;
    var it := 0;
    while it < |members|
      invariant 0 <= it <= |members| && (copies, after) == CloneMembers(members, it, subdepth, next + 1)
    {
      var one;
      one, after := CloneDepth(members[it].node, subdepth, after);
      copies := copies + [Member(members[it].key, one)];
      it := it + 1;
    }
    r := Object(next, copies);
  }

  /** Writing after the end fills with nulls. */
  function PutIdx(s: seq<Node>, i: nat, v: Node): (r: seq<Node>)
    ensures |r| == if i < |s| then |s| else i + 1
    ensures r[i] == v && (forall k | 0 <= k < |s| && k != i :: r[k] == s[k])
  {
    if i < |s| then s[i := v] else s + seq(i - |s|, _ => Leaf(0)) + [v]
  }

  // ----- the content is the same -----

  /** A value without the identities of its containers. */
  datatype Content = CLeaf(id: nat) | CArray(items: seq<Content>) | CObject(members: seq<(string, Content)>)

  function ContentOf(n: Node): Content {
    match n
    case Leaf(id) => CLeaf(id)
    case Array(_, items) => CArray(seq(|items|, i requires 0 <= i < |items| => ContentOf(items[i])))
    case Object(_, members) =>
      CObject(seq(|members|, i requires 0 <= i < |members| => (members[i].key, ContentOf(members[i].node))))
  }

  /** A cloned item is a clone of the item. */
  lemma {:induction false} ItemIs(items: seq<Node>, k: nat, depth: int, next: nat, i: nat) returns (at: nat)
    requires k <= i < |items|
    ensures var (copies, after) := CloneItems(items, k, depth, next);
            && copies[i - k] == Clone(items[i], depth, at).0
            && next <= at <= Clone(items[i], depth, at).1 <= after
    decreases |items| - k
  {
    ItemsCount(items, k + 1, depth, next);
    var mid := CloneItems(items, k + 1, depth, next).1;
    Counted(items[k], depth, mid);
    if i == k {
      at := mid;
    } else {
      at := ItemIs(items, k + 1, depth, next, i);
    }
  }

  lemma {:induction false} MemberIs0(members: seq<Member>, k: nat, depth: int, next: nat, i: nat) returns (at: nat)
    requires i < k <= |members|
    ensures var (copies, after) := CloneMembers(members, k, depth, next);
            && copies[i] == Member(members[i].key, Clone(members[i].node, depth, at).0)
            && next <= at <= Clone(members[i].node, depth, at).1 <= after
    decreases k
  {
    MembersCount(members, k - 1, depth, next);
    var mid := CloneMembers(members, k - 1, depth, next).1;
    Counted(members[k - 1].node, depth, mid);
    if i == k - 1 {
      at := mid;
    } else {
      at := MemberIs0(members, k - 1, depth, next, i);
    }
  }

  lemma {:induction false} Counted(n: Node, depth: int, next: nat)
    ensures next <= Clone(n, depth, next).1
    decreases n, 1
  {
    if depth != 0 {
      match n
      case Array(_, items) => ItemsCount(items, 0, depth - 1, next + 1);
      case Object(_, members) => MembersCount(members, |members|, depth - 1, next + 1);
      case Leaf(_) =>
    }
  }

  lemma {:induction false} ItemsCount(items: seq<Node>, k: nat, depth: int, next: nat)
    ensures next <= CloneItems(items, k, depth, next).1
    decreases items, 0, |items| - k
  {
    if k < |items| {
      ItemsCount(items, k + 1, depth, next);
      Counted(items[k], depth, CloneItems(items, k + 1, depth, next).1);
    }
  }

  lemma {:induction false} MembersCount(members: seq<Member>, k: nat, depth: int, next: nat)
    requires k <= |members|
    ensures next <= CloneMembers(members, k, depth, next).1
    decreases members, 0, k
  {
    if k > 0 {
      MembersCount(members, k - 1, depth, next);
      Counted(members[k - 1].node, depth, CloneMembers(members, k - 1, depth, next).1);
    }
  }

  /** A clone, of any depth, has the same content. */
  lemma {:induction false} SameContent(n: Node, depth: int, next: nat)
    ensures ContentOf(Clone(n, depth, next).0) == ContentOf(n)
    decreases n
  {
    if depth != 0 {
      var r := Clone(n, depth, next).0;
      match n
      case Leaf(_) =>
      case Array(_, items) =>
        forall i | 0 <= i < |items| ensures ContentOf(r.items[i]) == ContentOf(items[i]) {
          var at := ItemIs(items, 0, depth - 1, next + 1, i);
          SameContent(items[i], depth - 1, at);
        }
      case Object(_, members) =>
        forall i | 0 <= i < |members| ensures ContentOf(r.members[i].node) == ContentOf(members[i].node) {
          var at := MemberIs0(members, |members|, depth - 1, next + 1, i);
          SameContent(members[i].node, depth - 1, at);
        }
    }
  }

  // ----- what is new and what is shared -----

  function Steps(p: Path): nat {
    match p
    case Root => 0
    case Key(previous, _) => 1 + Steps(previous)
    case Index(previous, _) => 1 + Steps(previous)
  }

  lemma {:induction false} SameKeys(members: seq<Member>, copies: seq<Member>, key: string, k: nat)
    requires |copies| == |members| && k <= |members| && forall i | 0 <= i < |members| :: copies[i].key == members[i].key
    ensures Member0(members, key, k) == None <==> Member0(copies, key, k) == None
    ensures Member0(members, key, k).Some? ==>
              exists i | k <= i < |members| :: Member0(members, key, k) == Some(members[i].node)
                                               && Member0(copies, key, k) == Some(copies[i].node)
    decreases |members| - k
  {
    if k < |members| && members[k].key != key {
      SameKeys(members, copies, key, k + 1);
    }
  }

  /** One key down. */
  lemma KeyDown(m: Node, left: int, up: nat, key: string) returns (at: nat)
    requires m.Object? && left != 0
    ensures var (r, after) := Clone(m, left, up);
            && r.Object? && Member0(r.members, key, 0).Some? == Member0(m.members, key, 0).Some?
            && (Member0(m.members, key, 0).Some? ==>
                  var child := Member0(m.members, key, 0).value;
                  && Member0(r.members, key, 0).value == Clone(child, left - 1, at).0
                  && up <= at <= Clone(child, left - 1, at).1 <= after)
  {
    at := up;
    var copies := CloneMembers(m.members, |m.members|, left - 1, up + 1).0;
    SameKeys(m.members, copies, key, 0);
    if Member0(m.members, key, 0).Some? {
      var i :| 0 <= i < |m.members| && Member0(m.members, key, 0) == Some(m.members[i].node)
               && Member0(copies, key, 0) == Some(copies[i].node);
      at := MemberIs0(m.members, |m.members|, left - 1, up + 1, i);
    }
  }

  /** One index down. */
  lemma IndexDown(m: Node, left: int, up: nat, index: nat) returns (at: nat)
    requires m.Array? && left != 0
    ensures var (r, after) := Clone(m, left, up);
            && r.Array? && |r.items| == |m.items|
            && (index < |m.items| ==>
                  && r.items[index] == Clone(m.items[index], left - 1, at).0
                  && up <= at <= Clone(m.items[index], left - 1, at).1 <= after)
  {
    at := up;
    if index < |m.items| {
      at := ItemIs(m.items, 0, left - 1, up + 1, index);
    }
  }

  lemma SameKind(n: Node, depth: int, next: nat)
    ensures var r := Clone(n, depth, next).0;
            (r.Leaf? <==> n.Leaf?) && (r.Array? <==> n.Array?) && (r.Object? <==> n.Object?) && (n.Leaf? ==> r == n)
  {
  }

  /** What a path finds in the clone is the clone of what it finds, of the depth that remains. */
  ghost predicate Parallel(n: Node, depth: int, next: nat, p: Path, at: nat) {
    var (r, after) := Clone(n, depth, next);
    && Follow(r, p).Some? == Follow(n, p).Some?
    && (Follow(n, p).Some? ==>
          && Follow(r, p).value == Clone(Follow(n, p).value, depth - Steps(p), at).0
          && next <= at <= Clone(Follow(n, p).value, depth - Steps(p), at).1 <= after)
  }

  lemma FollowKey(root: Node, previous: Path, key: string)
    ensures var up := Follow(root, previous);
            Follow(root, Key(previous, key)) ==
              if up.Some? && up.value.Object? then Member0(up.value.members, key, 0) else None
  {
  }

  lemma FollowIndex(root: Node, previous: Path, index: nat)
    ensures var up := Follow(root, previous);
            Follow(root, Index(previous, index)) ==
              if up.Some? && up.value.Array? && index < |up.value.items| then Some(up.value.items[index]) else None
  {
  }

  lemma AlongKey(n: Node, depth: int, next: nat, previous: Path, key: string, up: nat) returns (at: nat)
    requires (depth < 0 || Steps(previous) < depth) && Parallel(n, depth, next, previous, up)
    ensures Parallel(n, depth, next, Key(previous, key), at)
  {
    FollowKey(n, previous, key);
    FollowKey(Clone(n, depth, next).0, previous, key);
    var m := Follow(n, previous);
    at := up;
    if m.Some? {
      SameKind(m.value, depth - Steps(previous), up);
      if m.value.Object? { at := KeyDown(m.value, depth - Steps(previous), up, key); }
    }
    hide Clone, Member0, Follow;
  }

  lemma AlongIndex(n: Node, depth: int, next: nat, previous: Path, index: nat, up: nat) returns (at: nat)
    requires (depth < 0 || Steps(previous) < depth) && Parallel(n, depth, next, previous, up)
    ensures Parallel(n, depth, next, Index(previous, index), at)
  {
    FollowIndex(n, previous, index);
    FollowIndex(Clone(n, depth, next).0, previous, index);
    var m := Follow(n, previous);
    at := up;
    if m.Some? {
      SameKind(m.value, depth - Steps(previous), up);
      if m.value.Array? { at := IndexDown(m.value, depth - Steps(previous), up, index); }
    }
    hide Clone, Follow;
  }

  lemma {:induction false} Along(n: Node, depth: int, next: nat, p: Path) returns (at: nat)
    requires depth < 0 || Steps(p) <= depth
    ensures Parallel(n, depth, next, p, at)
    decreases p
  {
    match p
    case Root =>
      at := next;
      Counted(n, depth, next);
    case Key(previous, key) =>
      hide Parallel;
      var up := Along(n, depth, next, previous);
      at := AlongKey(n, depth, next, previous, key, up);
    case Index(previous, index) =>
      hide Parallel;
      var up := Along(n, depth, next, previous);
      at := AlongIndex(n, depth, next, previous, index, up);
  }

  /** From the depth on, a clone shares the nodes of the original. */
  lemma {:induction false} Shares(n: Node, depth: int, next: nat, p: Path)
    requires 0 <= depth <= Steps(p)
    ensures Follow(Clone(n, depth, next).0, p) == Follow(n, p)
    decreases p
  {
    if depth == Steps(p) {
      var at := Along(n, depth, next, p);
      assert Parallel(n, depth, next, p, at);
    } else {
      match p
      case Key(previous, _) => Shares(n, depth, next, previous);
      case Index(previous, _) => Shares(n, depth, next, previous);
      case Root =>
    }
  }

  /** Above the depth, or for any depth when it is negative, containers are new and leaves are shared. */
  lemma Renews(n: Node, depth: int, next: nat, p: Path)
    requires (depth < 0 || Steps(p) < depth) && Follow(n, p).Some?
    ensures var (r, after) := Clone(n, depth, next);
            && Follow(r, p).Some?
            && (if Follow(n, p).value.Leaf? then Follow(r, p) == Follow(n, p) else next <= Follow(r, p).value.id < after)
  {
    hide Clone, Follow, Steps, Parallel;
    var at := Along(n, depth, next, p);
    RenewsAt(n, depth, next, p, at);
  }

  lemma RenewsAt(n: Node, depth: int, next: nat, p: Path, at: nat)
    requires (depth < 0 || Steps(p) < depth) && Follow(n, p).Some? && Parallel(n, depth, next, p, at)
    ensures var (r, after) := Clone(n, depth, next);
            && Follow(r, p).Some?
            && (if Follow(n, p).value.Leaf? then Follow(r, p) == Follow(n, p) else next <= Follow(r, p).value.id < after)
  {
    hide Clone, Follow, Steps;
    var m, left := Follow(n, p).value, depth - Steps(p);
    SameKind(m, left, at);
    if !m.Leaf? { NewContainer(m, left, at); }
  }

  lemma NewContainer(m: Node, depth: int, next: nat)
    requires !m.Leaf? && depth != 0
    ensures Clone(m, depth, next).0.id == next < Clone(m, depth, next).1
  {
    match m
    case Array(_, items) => ItemsCount(items, 0, depth - 1, next + 1);
    case Object(_, members) => MembersCount(members, |members|, depth - 1, next + 1);
  }

  // ----- no new node serves twice -----

  /** The identity is that of a new container of the clone. */
  ghost predicate New(n: Node, r: Node, depth: int, id: nat)
    decreases n
  {
    depth != 0 &&
    match n
    case Leaf(_) => false
    case Array(_, items) =>
      id == r.id || (r.Array? && exists i | 0 <= i < |items| && i < |r.items| :: New(items[i], r.items[i], depth - 1, id))
    case Object(_, members) =>
      id == r.id ||
      (r.Object? && exists i | 0 <= i < |members| && i < |r.members| :: New(members[i].node, r.members[i].node, depth - 1, id))
  }

  /** Two clones have no new container in common. */
  ghost predicate Disjoint(a: Node, x: Node, b: Node, y: Node, depth: int) {
    forall id | New(a, x, depth, id) :: !New(b, y, depth, id)
  }

  /** A new container is not inside itself, and two children have no new container in common. */
  ghost predicate Apart(n: Node, r: Node, depth: int)
    decreases n
  {
    depth != 0 ==>
    match n
    case Leaf(_) => true
    case Array(_, items) =>
      && r.Array? && |r.items| == |items|
      && (forall i | 0 <= i < |items| :: !New(items[i], r.items[i], depth - 1, r.id) && Apart(items[i], r.items[i], depth - 1))
      && forall i, j | 0 <= i < j < |items| :: Disjoint(items[i], r.items[i], items[j], r.items[j], depth - 1)
    case Object(_, members) =>
      && r.Object? && |r.members| == |members|
      && (forall i | 0 <= i < |members| ::
            && !New(members[i].node, r.members[i].node, depth - 1, r.id)
            && Apart(members[i].node, r.members[i].node, depth - 1))
      && forall i, j | 0 <= i < j < |members| :: Disjoint(members[i].node, r.members[i].node, members[j].node, r.members[j].node, depth - 1)
  }

  lemma NewItem(n: Node, depth: int, next: nat, id: nat) returns (i: nat, at: nat)
    requires n.Array? && New(n, Clone(n, depth, next).0, depth, id) && id != Clone(n, depth, next).0.id
    ensures i < |n.items| && New(n.items[i], Clone(n.items[i], depth - 1, at).0, depth - 1, id)
    ensures next < at && Clone(n.items[i], depth - 1, at).1 <= Clone(n, depth, next).1
  {
    var r := Clone(n, depth, next).0;
    i :| 0 <= i < |n.items| && i < |r.items| && New(n.items[i], r.items[i], depth - 1, id);
    hide New;
    at := ItemIs(n.items, 0, depth - 1, next + 1, i);
  }

  lemma NewMember(n: Node, depth: int, next: nat, id: nat) returns (i: nat, at: nat)
    requires n.Object? && New(n, Clone(n, depth, next).0, depth, id) && id != Clone(n, depth, next).0.id
    ensures i < |n.members| && New(n.members[i].node, Clone(n.members[i].node, depth - 1, at).0, depth - 1, id)
    ensures next < at && Clone(n.members[i].node, depth - 1, at).1 <= Clone(n, depth, next).1
  {
    var r := Clone(n, depth, next).0;
    i :| 0 <= i < |n.members| && i < |r.members| && New(n.members[i].node, r.members[i].node, depth - 1, id);
    hide New;
    at := MemberIs0(n.members, |n.members|, depth - 1, next + 1, i);
  }

  lemma {:induction false} NewInRange(n: Node, depth: int, next: nat, id: nat)
    requires New(n, Clone(n, depth, next).0, depth, id)
    ensures next <= id < Clone(n, depth, next).1
    decreases n
  {
    NewContainer(n, depth, next);
    hide New, Clone;
    if id != Clone(n, depth, next).0.id {
      match n
      case Array(_, items) =>
        var i, at := NewItem(n, depth, next, id);
        NewInRange(items[i], depth - 1, at, id);
      case Object(_, members) =>
        var i, at := NewMember(n, depth, next, id);
        NewInRange(members[i].node, depth - 1, at, id);
    }
  }

  /** Clones made one after the other have nothing new in common. */
  lemma RangesDisjoint(a: Node, at: nat, b: Node, from: nat, depth: int)
    requires Clone(a, depth, at).1 <= from
    ensures Disjoint(a, Clone(a, depth, at).0, b, Clone(b, depth, from).0, depth)
    ensures Disjoint(b, Clone(b, depth, from).0, a, Clone(a, depth, at).0, depth)
  {
    hide New, Clone;
    forall id | New(a, Clone(a, depth, at).0, depth, id) ensures !New(b, Clone(b, depth, from).0, depth, id) {
      NewInRange(a, depth, at, id);
      NotBefore(b, depth, from, id);
    }
  }

  lemma NotBefore(n: Node, depth: int, next: nat, id: nat)
    ensures New(n, Clone(n, depth, next).0, depth, id) ==> next <= id
  {
    if New(n, Clone(n, depth, next).0, depth, id) { NewInRange(n, depth, next, id); }
  }

  /** The identities of a later item come before those of an earlier one. */
  lemma {:induction false} ItemsOrdered(items: seq<Node>, k: nat, depth: int, next: nat, i: nat, j: nat)
    returns (ai: nat, aj: nat)
    requires k <= i < j < |items|
    ensures var copies := CloneItems(items, k, depth, next).0;
            && copies[i - k] == Clone(items[i], depth, ai).0 && copies[j - k] == Clone(items[j], depth, aj).0
            && Clone(items[j], depth, aj).1 <= ai
    decreases |items| - k
  {
    if i == k {
      ai := CloneItems(items, k + 1, depth, next).1;
      aj := ItemIs(items, k + 1, depth, next, j);
    } else {
      ai, aj := ItemsOrdered(items, k + 1, depth, next, i, j);
    }
  }

  lemma {:induction false} MembersOrdered(members: seq<Member>, k: nat, depth: int, next: nat, i: nat, j: nat)
    returns (ai: nat, aj: nat)
    requires i < j < k <= |members|
    ensures var copies := CloneMembers(members, k, depth, next).0;
            && copies[i].node == Clone(members[i].node, depth, ai).0 && copies[j].node == Clone(members[j].node, depth, aj).0
            && Clone(members[i].node, depth, ai).1 <= aj
    decreases k
  {
    if j == k - 1 {
      aj := CloneMembers(members, k - 1, depth, next).1;
      ai := MemberIs0(members, k - 1, depth, next, i);
    } else {
      ai, aj := MembersOrdered(members, k - 1, depth, next, i, j);
    }
  }

  /** All the new containers of a clone are distinct. */
  lemma {:induction false} NewApart(n: Node, depth: int, next: nat)
    ensures Apart(n, Clone(n, depth, next).0, depth)
    decreases n
  {
    if depth != 0 {
      match n
      case Leaf(_) =>
      case Array(_, items) => ItemsApart(n, depth, next);
      case Object(_, members) => MembersApart(n, depth, next);
    }
  }

  lemma {:induction false} ItemsApart(n: Node, depth: int, next: nat)
    requires n.Array? && depth != 0
    ensures Apart(n, Clone(n, depth, next).0, depth)
    decreases n, 0
  {
    var items, r := n.items, Clone(n, depth, next).0;
    forall i | 0 <= i < |items|
      ensures !New(items[i], r.items[i], depth - 1, r.id) && Apart(items[i], r.items[i], depth - 1)
    {
      var at := ItemIs(items, 0, depth - 1, next + 1, i);
      NotBefore(items[i], depth - 1, at, r.id);
      NewApart(items[i], depth - 1, at);
    }
    forall i, j | 0 <= i < j < |items| ensures Disjoint(items[i], r.items[i], items[j], r.items[j], depth - 1) {
      var ai, aj := ItemsOrdered(items, 0, depth - 1, next + 1, i, j);
      RangesDisjoint(items[j], aj, items[i], ai, depth - 1);
    }
  }

  lemma {:induction false} MembersApart(n: Node, depth: int, next: nat)
    requires n.Object? && depth != 0
    ensures Apart(n, Clone(n, depth, next).0, depth)
    decreases n, 0
  {
    var members, r := n.members, Clone(n, depth, next).0;
    forall i | 0 <= i < |members|
      ensures !New(members[i].node, r.members[i].node, depth - 1, r.id)
              && Apart(members[i].node, r.members[i].node, depth - 1)
    {
      var at := MemberIs0(members, |members|, depth - 1, next + 1, i);
      NotBefore(members[i].node, depth - 1, at, r.id);
      NewApart(members[i].node, depth - 1, at);
    }
    forall i, j | 0 <= i < j < |members| ensures Disjoint(members[i].node, r.members[i].node, members[j].node, r.members[j].node, depth - 1) {
      var ai, aj := MembersOrdered(members, |members|, depth - 1, next + 1, i, j);
      RangesDisjoint(members[i].node, ai, members[j].node, aj, depth - 1);
    }
  }
}
