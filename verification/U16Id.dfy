/**
 Maps from 16-bit ids to 64-bit words, packed in one block: a count, the ids, then the
 pointers, whose place depends on the count.

 The block is an array of 64-bit words.  A word holds either four ids or a pointer;
 reading it the other way gives a dummy value.
 */
module U16Id {
  type u16 = n: nat | n < 0x1_0000
  type ptr = bv64

  datatype Word = Ids(l0: u16, l1: u16, l2: u16, l3: u16) | Ptr(value: ptr)

  function Lane(w: Word, j: nat): u16
    requires j < 4
  {
    if w.Ptr? then 0 else if j == 0 then w.l0 else if j == 1 then w.l1 else if j == 2 then w.l2 else w.l3
  }

  function SetLane(w: Word, j: nat, id: u16): (r: Word)
    requires j < 4
    ensures forall k | 0 <= k < 4 && k != j :: Lane(r, k) == Lane(w, k)
    ensures Lane(r, j) == id
  {
    Ids(if j == 0 then id else Lane(w, 0), if j == 1 then id else Lane(w, 1),
        if j == 2 then id else Lane(w, 2), if j == 3 then id else Lane(w, 3))
  }

  function Value(w: Word): ptr {
    if w.Ptr? then w.value else 0
  }

  /** The smallest 4k - 1 that is not below upper. */
  function Capacity(upper: nat): (c: nat)
    ensures c >= 3 && c % 4 == 3 && upper <= c < upper + 4
    ensures upper < 0x1_0000 ==> c < 0x1_0000
  {
    upper / 4 * 4 + 3
  }

  /** Words of a block. */
  function Size(capacity: nat): nat { (capacity + 1) / 4 + capacity }

  type Memory = seq<Word>

  function IdAt(mem: Memory, k: nat): u16
    requires k / 4 < |mem|
  {
    Lane(mem[k / 4], k % 4)
  }

  /** Where pointer p is, counted from 1, in a block of that capacity. */
  function PtrPos(capacity: nat, p: nat): (k: nat)
    requires capacity >= 3
  {
    (capacity + 1) / 4 + p - 1
  }

  datatype Pair = Pair(id: u16, value: ptr)

  /** The pairs that a block holds, in order. */
  function Pairs(mem: Memory): (r: seq<Pair>)
    requires Sized(mem)
    ensures |r| == IdAt(mem, 0)
  {
    PairsIn(mem, IdAt(mem, 0), Capacity(IdAt(mem, 0)))
  }

  predicate Sized(mem: Memory) {
    |mem| > 0 && |mem| >= Size(Capacity(IdAt(mem, 0)))
  }

  function PairsIn(mem: Memory, n: nat, capacity: nat): (r: seq<Pair>)
    requires n <= capacity && capacity % 4 == 3 && |mem| >= Size(capacity)
    ensures |r| == n
  {
    seq(n, i requires 0 <= i < n =>
      PlaceOk(capacity, i + 1);
      Pair(IdAt(mem, i + 1), Value(mem[PtrPos(capacity, i + 1)])))
  }

  lemma PlaceOk(capacity: nat, p: nat)
    requires 1 <= p <= capacity && capacity % 4 == 3
    ensures p / 4 < (capacity + 1) / 4 <= PtrPos(capacity, p) < Size(capacity)
  {
  }

  predicate Distinct(s: seq<Pair>) {
    forall i, j | 0 <= i < j < |s| :: s[i].id != s[j].id
  }

  /** The map that a list of pairs is. */
  function MapOf(s: seq<Pair>): map<u16, ptr> {
    if s == [] then map[] else MapOf(s[..|s| - 1])[s[|s| - 1].id := s[|s| - 1].value]
  }

  /** Removal of an item: the last one takes its place. */
  function Without(s: seq<Pair>, i: nat): (r: seq<Pair>)
    requires i < |s|
    ensures |r| == |s| - 1
  {
    if i == |s| - 1 then s[..i] else s[i := s[|s| - 1]][..|s| - 1]
  }

  // ----- pairs as a map -----

  lemma {:induction false} MapAt(s: seq<Pair>, i: nat)
    requires Distinct(s) && i < |s|
    ensures s[i].id in MapOf(s) && MapOf(s)[s[i].id] == s[i].value
  {
    if i < |s| - 1 {
      assert s[i].id != s[|s| - 1].id;
      MapAt(s[..|s| - 1], i);
    }
  }

  lemma {:induction false} MapHas(s: seq<Pair>, id: u16)
    ensures id in MapOf(s) <==> exists i | 0 <= i < |s| :: s[i].id == id
  {
    if s != [] { MapHas(s[..|s| - 1], id); }
  }

  /** Two lists of distinct ids with the same pairs are the same map. */
  lemma MapSame(s: seq<Pair>, m: map<u16, ptr>)
    requires Distinct(s)
    requires forall i | 0 <= i < |s| :: s[i].id in m && m[s[i].id] == s[i].value
    requires forall id | id in m :: exists i | 0 <= i < |s| :: s[i].id == id
    ensures MapOf(s) == m
  {
    forall id | id in m ensures id in MapOf(s) && MapOf(s)[id] == m[id] {
      var i :| 0 <= i < |s| && s[i].id == id;
      MapAt(s, i);
    }
    forall id | id in MapOf(s) ensures id in m { MapHas(s, id); }
  }

  lemma MapAppend(s: seq<Pair>, id: u16, value: ptr)
    requires Distinct(s) && forall i | 0 <= i < |s| :: s[i].id != id
    ensures Distinct(s + [Pair(id, value)]) && MapOf(s + [Pair(id, value)]) == MapOf(s)[id := value]
  {
    var r := s + [Pair(id, value)];
    assert MapOf(r) == MapOf(r[..|s|])[id := value];
    hide MapOf;
    assert r[..|s|] == s;
    forall i, j | 0 <= i < j < |r| ensures r[i].id != r[j].id {
      if j < |s| { assert r[i] == s[i] && r[j] == s[j]; }
    }
  }

  lemma MapUpdate(s: seq<Pair>, i: nat, value: ptr)
    requires Distinct(s) && i < |s|
    ensures var r := s[i := Pair(s[i].id, value)]; Distinct(r) && MapOf(r) == MapOf(s)[s[i].id := value]
  {
    var r, m := s[i := Pair(s[i].id, value)], MapOf(s)[s[i].id := value];
    forall j | 0 <= j < |r| ensures r[j].id in m && m[r[j].id] == r[j].value { MapAt(s, j); }
    forall id | id in m ensures exists j | 0 <= j < |r| :: r[j].id == id {
      if id == s[i].id { assert r[i].id == id; }
      else { MapHas(s, id); var j :| 0 <= j < |s| && s[j].id == id; assert r[j].id == id; }
    }
    MapSame(r, m);
  }

  /** Where the pairs that stay come from. */
  lemma WithoutAt(s: seq<Pair>, i: nat, j: nat)
    requires i < |s| && j < |s| - 1
    ensures Without(s, i)[j] == s[if j == i then |s| - 1 else j]
  {
  }

  lemma MapWithout(s: seq<Pair>, i: nat)
    requires Distinct(s) && i < |s|
    ensures Distinct(Without(s, i)) && MapOf(Without(s, i)) == MapOf(s) - {s[i].id}
  {
    hide MapOf, Without;
    var r, m := Without(s, i), MapOf(s) - {s[i].id};
    forall j | 0 <= j < |r| ensures r[j].id in m && m[r[j].id] == r[j].value {
      WithoutAt(s, i, j);
      MapAt(s, if j == i then |s| - 1 else j);
    }
    forall id | id in m ensures exists j | 0 <= j < |r| :: r[j].id == id {
      MapHas(s, id);
      var j :| 0 <= j < |s| && s[j].id == id;
      var k := if j == |s| - 1 then i else j;
      WithoutAt(s, i, k);
      assert r[k].id == id;
    }
    forall j, k | 0 <= j < k < |r| ensures r[j].id != r[k].id {
      WithoutAt(s, i, j);
      WithoutAt(s, i, k);
    }
    MapSame(r, m);
  }

  // ----- writes in a block -----

  function WithId(mem: Memory, k: nat, id: u16): (r: Memory)
    requires k / 4 < |mem|
    ensures |r| == |mem|
  {
    mem[k / 4 := SetLane(mem[k / 4], k % 4, id)]
  }

  lemma WithIdAt(mem: Memory, k: nat, id: u16, j: nat)
    requires k / 4 < |mem| && j / 4 < |mem|
    ensures IdAt(WithId(mem, k, id), j) == if j == k then id else IdAt(mem, j)
  {
    if j / 4 == k / 4 && j != k { assert j % 4 != k % 4; }
  }

  /** Pointers in a block whose ids are counted on their own. */
  predicate Holds(mem: Memory, s: seq<Pair>, capacity: nat) {
    && |s| <= capacity && capacity % 4 == 3 && |mem| >= Size(capacity)
    && PairsIn(mem, |s|, capacity) == s
  }

  lemma HoldsAt(mem: Memory, s: seq<Pair>, capacity: nat, i: nat)
    requires Holds(mem, s, capacity) && i < |s|
    ensures (i + 1) / 4 < |mem| && PtrPos(capacity, i + 1) < |mem|
    ensures IdAt(mem, i + 1) == s[i].id && Value(mem[PtrPos(capacity, i + 1)]) == s[i].value
  {
    PlaceOk(capacity, i + 1);
    assert PairsIn(mem, |s|, capacity)[i] == s[i];
  }

  predicate HeldAt(mem: Memory, s: seq<Pair>, capacity: nat, i: nat)
    requires i < |s| && capacity >= 3
  {
    && (i + 1) / 4 < |mem| && PtrPos(capacity, i + 1) < |mem|
    && IdAt(mem, i + 1) == s[i].id && Value(mem[PtrPos(capacity, i + 1)]) == s[i].value
  }

  lemma HoldsIf(mem: Memory, s: seq<Pair>, capacity: nat)
    requires |s| <= capacity && capacity % 4 == 3 && |mem| >= Size(capacity)
    requires forall i | 0 <= i < |s| :: HeldAt(mem, s, capacity, i)
    ensures Holds(mem, s, capacity)
  {
    var p := PairsIn(mem, |s|, capacity);
    forall i | 0 <= i < |s| ensures p[i] == s[i] {
      PlaceOk(capacity, i + 1);
      assert HeldAt(mem, s, capacity, i);
    }
    assert p == s;
  }

  /** What `add` writes, once the block is large enough. */
  function Written(mem: Memory, capacity: nat, nupper: u16, id: u16, value: ptr): Memory
    requires 0 < |mem| && nupper / 4 < |mem| && capacity >= 3 && PtrPos(capacity, nupper) < |mem|
  {
    WithId(WithId(mem, 0, nupper), nupper, id)[PtrPos(capacity, nupper) := Ptr(value)]
  }

  /** A count, and a pair after the last one. */
  lemma Append(mem: Memory, s: seq<Pair>, capacity: nat, id: u16, value: ptr)
    requires Holds(mem, s, capacity) && |s| < capacity < 0x1_0000
    ensures |s| + 1 < 0x1_0000 && 0 < |mem| && (|s| + 1) / 4 < |mem| && PtrPos(capacity, |s| + 1) < |mem|
    ensures var r := Written(mem, capacity, |s| + 1, id, value);
            |r| == |mem| && Holds(r, s + [Pair(id, value)], capacity) && IdAt(r, 0) == |s| + 1
  {
    var n := |s| + 1;
    PlaceOk(capacity, n);
    var a := WithId(mem, 0, n);
    var b := WithId(a, n, id);
    var r := b[PtrPos(capacity, n) := Ptr(value)];
    var q := s + [Pair(id, value)];
    WithIdAt(mem, 0, n, 0);
    WithIdAt(a, n, id, 0);
    forall i | 0 <= i < n ensures HeldAt(r, q, capacity, i) {
      PlaceOk(capacity, i + 1);
      WithIdAt(mem, 0, n, i + 1);
      WithIdAt(a, n, id, i + 1);
      if i < |s| { HoldsAt(mem, s, capacity, i); }
    }
    HoldsIf(r, q, capacity);
  }

  lemma Put(mem: Memory, s: seq<Pair>, capacity: nat, i: nat, value: ptr)
    requires Holds(mem, s, capacity) && i < |s|
    ensures PtrPos(capacity, i + 1) < |mem|
    ensures var r := mem[PtrPos(capacity, i + 1) := Ptr(value)];
            Holds(r, s[i := Pair(s[i].id, value)], capacity) && IdAt(r, 0) == IdAt(mem, 0)
  {
    PlaceOk(capacity, i + 1);
    var r, q := mem[PtrPos(capacity, i + 1) := Ptr(value)], s[i := Pair(s[i].id, value)];
    forall j | 0 <= j < |q| ensures HeldAt(r, q, capacity, j) {
      PlaceOk(capacity, j + 1);
      HoldsAt(mem, s, capacity, j);
    }
    HoldsIf(r, q, capacity);
  }

  /** The pair of index i takes the place of another one. */
  lemma Replace(mem: Memory, s: seq<Pair>, capacity: nat, i: nat, id: u16, value: ptr)
    requires Holds(mem, s, capacity) && i < |s|
    ensures (i + 1) / 4 < |mem| && PtrPos(capacity, i + 1) < |mem|
    ensures var r := WithId(mem, i + 1, id)[PtrPos(capacity, i + 1) := Ptr(value)];
            Holds(r, s[i := Pair(id, value)], capacity)
  {
    PlaceOk(capacity, i + 1);
    var a := WithId(mem, i + 1, id);
    var r, q := a[PtrPos(capacity, i + 1) := Ptr(value)], s[i := Pair(id, value)];
    forall j | 0 <= j < |q| ensures HeldAt(r, q, capacity, j) {
      PlaceOk(capacity, j + 1);
      WithIdAt(mem, i + 1, id, j + 1);
      HoldsAt(mem, s, capacity, j);
    }
    HoldsIf(r, q, capacity);
  }

  // ----- the block -----

  const X_EEXIST := -17
  const X_ENOENT := -2
  const X_EINVAL := -22

  const MAX: nat := 0xFFFF

  class Packed {
    var base: array?<Word>

    ghost predicate Sane()
      reads this, base
    {
      base != null ==> Sized(base[..])
    }

    /** The pairs, in order; none when nothing is allocated. */
    ghost function Contents(): seq<Pair>
      requires Sane()
      reads this, base
    {
      if base == null then [] else Pairs(base[..])
    }

    ghost predicate Valid()
      reads this, base
    {
      Sane() && Distinct(Contents())
    }

    ghost function Map(): map<u16, ptr>
      requires Sane()
      reads this, base
    {
      MapOf(Contents())
    }

    constructor ()
      ensures Valid() && Contents() == [] && base == null
    {
      base := null;
    }

    method Upper() returns (n: u16)
      requires Sane()
      ensures n == |Contents()|
    {
      n := 0;
      if base != null { n := IdAt(base[..], 0); }
    }

    /** The not null index of the id, 0 if there is none. */
    method Search(id: u16) returns (index: nat)
      requires Valid()
      ensures index <= |Contents()|
      ensures index == 0 <==> id !in Map()
      ensures index > 0 ==> Contents()[index - 1].id == id && Map()[id] == Contents()[index - 1].value
    {
      hide Distinct, MapOf, Pairs, IdAt, PairsIn, Capacity, Size;
      var upper := Upper();
      ghost var s := Contents();
      MapHas(s, id);
      index := 0;
      var k := 0;
      while k != upper
        invariant 0 <= k <= upper
        invariant forall j | 0 <= j < k :: s[j].id != id
      {
        k := k + 1;
        PairAt(base[..], k);
        if IdAt(base[..], k) == id {
          MapAt(s, k - 1);
          return k;
        }
      }
    }

    /** The two places of an item. */
    method Ids(k: nat) returns (id: u16)
      requires Sane() && 1 <= k <= |Contents()|
      ensures id == Contents()[k - 1].id
    {
      hide Pairs, IdAt, PairsIn;
      PairAt(base[..], k);
      id := IdAt(base[..], k);
    }

    method Ptrs(k: nat) returns (value: ptr)
      requires Sane() && 1 <= k <= |Contents()|
      ensures value == Contents()[k - 1].value
    {
      hide Pairs, IdAt, PairsIn, Capacity, Value;
      PairAt(base[..], k);
      value := Value(base[PtrPos(Capacity(IdAt(base[..], 0)), k)]);
    }

    method SetPtr(k: nat, value: ptr)
      requires Sane() && 1 <= k <= |Contents()|
      modifies base
      ensures Sane() && Contents() == old(Contents())[k - 1 := Pair(old(Contents())[k - 1].id, value)]
    {
      hide Pairs, IdAt, PairsIn, Size, Capacity, PtrPos, Value;
      var upper := IdAt(base[..], 0);
      ghost var mem, s := base[..], Contents();
      PairsHold(mem);
      Put(mem, s, Capacity(upper), k - 1, value);
      base[PtrPos(Capacity(upper), k)] := Ptr(value);
      assert base[..] == mem[PtrPos(Capacity(upper), k) := Ptr(value)];
      HoldPairs(base[..], s[k - 1 := Pair(s[k - 1].id, value)], upper);
    }

    /** `add`: a pair comes after the last one, in a larger block if needed.
        The count is on 16 bits: in a block of 65535 pairs the id takes its place. */
    method Add(id: u16, value: ptr)
      requires Sane()
      modifies this, base
      ensures base != null && (old(base) == base || fresh(base)) && Sane()
      ensures |old(Contents())| < MAX ==> Contents() == old(Contents()) + [Pair(id, value)]
      ensures |old(Contents())| == MAX ==> |Contents()| == id
    {
      hide Pairs, IdAt, PairsIn, Size, Capacity, PtrPos, Holds, Written;
      ghost var s := Contents();
      var oupper: nat := Upper();
      var nupper: nat := (oupper + 1) % 0x1_0000;
      var capacity := 0;
      if base != null {
        PairsHold(base[..]);
        capacity := Capacity(oupper);
      }
      CapacityRoom(oupper);
      if nupper > capacity {
        Grow(oupper, nupper, s);
        capacity := Capacity(nupper);
      }
      ghost var mem := base[..];
      WriteRoom(mem, s, capacity, nupper);
      if |s| < MAX { Append(mem, s, capacity, id, value); } else { FullBlock(mem, s, id, value); }
      Write(capacity, nupper, id, value);
      if |s| < MAX { HoldPairs(base[..], s + [Pair(id, value)], nupper); } else { FullSane(base[..], id); }
    }

    method Write(capacity: nat, nupper: u16, id: u16, value: ptr)
      requires base != null && capacity >= 3 && nupper / 4 < base.Length && PtrPos(capacity, nupper) < base.Length
      modifies base
      ensures base[..] == Written(old(base[..]), capacity, nupper, id, value)
    {
      hide PtrPos, WithId;
      SetId(0, nupper);
      SetId(nupper, id);
      SetWord(PtrPos(capacity, nupper), Ptr(value));
    }

    method SetId(k: nat, id: u16)
      requires base != null && k / 4 < base.Length
      modifies base
      ensures base[..] == WithId(old(base[..]), k, id)
    {
      base[k / 4] := SetLane(base[k / 4], k % 4, id);
    }

    method SetWord(k: nat, w: Word)
      requires base != null && k < base.Length
      modifies base
      ensures base[..] == old(base[..])[k := w]
    {
      base[k] := w;
    }

    /** Pointers leave their place for higher ones, last first. */
    method MoveUp(n: nat, from: nat, to: nat, ghost s: seq<Pair>)
      requires base != null && Holds(base[..], s, from) && n == |s|
      requires from < to && to % 4 == 3 && base.Length >= Size(to)
      modifies base
      ensures Holds(base[..], s, to)
    {
      hide Holds;
      ghost var mem := base[..];
      HoldsFacts(mem, s, from);
      CopyUp(n, (from + 1) / 4, (to + 1) / 4);
      Moved(mem, base[..], s, from, to);
    }

    method CopyUp(n: nat, from: nat, to: nat)
      requires base != null && from < to && to + n <= base.Length
      modifies base
      ensures forall w | 0 <= w < from :: base[w] == old(base[w])
      ensures forall w | to <= w < to + n :: base[w] == old(base[w - to + from])
    {
      ghost var mem := base[..];
      var k := n;
      while k != 0
        invariant 0 <= k <= n
        invariant forall w | 0 <= w < from + k :: base[w] == mem[w]
        invariant forall w | to + k <= w < to + n :: base[w] == mem[w - to + from]
      {
        base[to + k - 1] := base[from + k - 1];
        k := k - 1;
      }
    }

    /** Pointers leave their place for lower ones, first first. */
    method MoveDown(n: nat, from: nat, to: nat, ghost s: seq<Pair>)
      requires base != null && Holds(base[..], s, from) && n == |s|
      requires n <= to < from && to % 4 == 3 && base.Length > 0
      modifies base
      ensures Holds(base[..], s, to) && base.Length > 0 && IdAt(base[..], 0) == old(IdAt(base[..], 0))
    {
      hide Holds, IdAt;
      ghost var mem := base[..];
      HoldsFacts(mem, s, from);
      CopyDown(n, (from + 1) / 4, (to + 1) / 4);
      CountAt(mem, base[..]);
      Moved(mem, base[..], s, from, to);
    }

    method CopyDown(n: nat, from: nat, to: nat)
      requires base != null && to < from && from + n <= base.Length
      modifies base
      ensures forall w | 0 <= w < to :: base[w] == old(base[w])
      ensures forall w | to <= w < to + n :: base[w] == old(base[w - to + from])
    {
      ghost var mem := base[..];
      var idx := 1;
      while idx <= n
        invariant 1 <= idx <= n + 1
        invariant forall w | 0 <= w < to :: base[w] == mem[w]
        invariant forall w | to <= w < to + idx - 1 :: base[w] == mem[w - to + from]
        invariant forall w | from + idx - 1 <= w < from + n :: base[w] == mem[w]
      {
        base[to + idx - 1] := base[from + idx - 1];
        idx := idx + 1;
      }
    }

    /** `drop`: the last pair takes the place of the removed one, and pointers follow the ids. */
    method Drop(index: nat)
      requires Sane() && 1 <= index <= |Contents()|
      modifies base
      ensures Sane() && Contents() == Without(old(Contents()), index - 1)
    {
      hide Pairs, IdAt, PairsIn, Size, Capacity, PtrPos, Holds, WithId, Value;
      ghost var s := Contents();
      var upper: nat := Upper();
      var capacity := Capacity(upper);
      PairsHold(base[..]);
      ghost var r := s;
      if index != upper {
        HoldsAt(base[..], s, capacity, upper - 1);
        Replace(base[..], s, capacity, index - 1, s[upper - 1].id, s[upper - 1].value);
        var id := Ids(upper);
        var value := Ptrs(upper);
        SetId(index, id);
        SetWord(PtrPos(capacity, index), Ptr(value));
        r := s[index - 1 := s[upper - 1]];
      }
      Shorter(base[..], r, capacity);
      SetId(0, upper - 1);
      r := r[..upper - 1];
      assert r == Without(s, index - 1);
      upper := upper - 1;
      CapacityFall(upper);
      if Capacity(upper) != capacity {
        MoveDown(upper, capacity, Capacity(upper), r);
      }
      HoldPairs(base[..], r, upper);
    }

    // ----- ids to pointers -----

    method Create()
      modifies this
      ensures Valid() && Map() == map[] && base != null && fresh(base)
    {
      base := new Word[Size(Capacity(0))](i => Ptr(0));
      base[0] := SetLane(base[0], 0, 0);
      assert Contents() == [];
    }

    method DropAll()
      requires Valid()
      modifies base
      ensures Valid() && Map() == map[]
    {
      if base != null {
        base[0] := SetLane(base[0], 0, 0);
        assert Contents() == [];
      }
    }

    method Has(id: u16) returns (r: bool)
      requires Valid()
      ensures r <==> id in Map()
    {
      var index := Search(id);
      r := index != 0;
    }

    method AddNew(id: u16, value: ptr) returns (rc: int)
      requires Valid()
      modifies this, base
      ensures old(base) == base || fresh(base)
      ensures rc == X_EEXIST <==> id in old(Map())
      ensures rc == X_EEXIST ==> Valid() && Map() == old(Map())
      ensures rc != X_EEXIST ==> rc == 0 && Sane()
      ensures rc == 0 ==> (Valid() && Map() == old(Map())[id := value] <==> |old(Contents())| < 65535)
    {
      hide Distinct, MapOf, Pairs;
      var index := Search(id);
      if index != 0 { return X_EEXIST; }
      AddUnknown(id, value);
      rc := 0;
    }

    /** A new id is associated if and only if there are less than 65535 pairs. */
    method AddUnknown(id: u16, value: ptr)
      requires Valid() && id !in Map()
      modifies this, base
      ensures (old(base) == base || fresh(base)) && Sane()
      ensures Valid() && Map() == old(Map())[id := value] <==> |old(Contents())| < 65535
    {
      hide Distinct, MapOf, Pairs;
      ghost var s := Contents();
      AppendDistinct(s, id, value);
      Add(id, value);
      if |s| == MAX { OneTooMany(s, id, value, Contents()); }
    }

    method Set(id: u16, value: ptr)
      requires Valid()
      modifies this, base
      ensures old(base) == base || fresh(base)
      ensures Sane()
      ensures Valid() && Map() == old(Map())[id := value] <==> id in old(Map()) || |old(Contents())| < 65535
    {
      hide Distinct, MapOf, Pairs;
      var index := Search(id);
      if index != 0 {
        MapUpdate(Contents(), index - 1, value);
        SetPtr(index, value);
      } else {
        AddUnknown(id, value);
      }
    }

    method PutPtr(id: u16, value: ptr) returns (rc: int)
      requires Valid()
      modifies base
      ensures Valid() && (rc == 0 <==> id in old(Map())) && (rc == X_ENOENT <==> id !in old(Map()))
      ensures Map() == if rc == 0 then old(Map())[id := value] else old(Map())
    {
      hide Distinct, MapOf, Pairs;
      var index := Search(id);
      if index == 0 { return X_ENOENT; }
      MapUpdate(Contents(), index - 1, value);
      SetPtr(index, value);
      rc := 0;
    }

    method Get(id: u16) returns (rc: int, value: ptr)
      requires Valid()
      ensures (rc == 0 <==> id in Map()) && (rc == X_ENOENT <==> id !in Map())
      ensures rc == 0 ==> value == Map()[id]
    {
      hide Distinct, MapOf, Pairs;
      var index := Search(id);
      if index == 0 { return X_ENOENT, 0; }
      rc := 0;
      value := Ptrs(index);
    }

    method Remove(id: u16) returns (rc: int, value: ptr)
      requires Valid()
      modifies base
      ensures Valid() && (rc == 0 <==> id in old(Map())) && (rc == X_ENOENT <==> id !in old(Map()))
      ensures Map() == old(Map()) - {id}
      ensures rc == 0 ==> value == old(Map())[id]
    {
      hide Distinct, MapOf, Pairs;
      var index := Search(id);
      if index == 0 { return X_ENOENT, 0; }
      MapWithout(Contents(), index - 1);
      value := Ptrs(index);
      Drop(index);
      rc := 0;
    }

    method Count() returns (n: nat)
      requires Valid()
      ensures n == |Map()|
    {
      n := Upper();
      MapCount(Contents());
    }

    method At(index: int) returns (rc: int, id: u16, value: ptr)
      requires Valid()
      ensures rc == (if 0 <= index < |Contents()| then 0 else X_EINVAL)
      ensures rc == 0 ==> Contents()[index] == Pair(id, value)
    {
      var upper := Upper();
      if index < 0 || index >= upper { return X_EINVAL, 0, 0; }
      rc := 0;
      id := Ids(index + 1);
      value := Ptrs(index + 1);
    }

    /** The calls that `forall` makes: each pair once, last first. */
    method ForAll() returns (calls: seq<Pair>)
      requires Valid()
      ensures |calls| == |Contents()|
      ensures forall i | 0 <= i < |calls| :: calls[i] == Contents()[|calls| - 1 - i]
    {
      hide Pairs;
      var upper: nat := Upper();
      ghost var n := upper;
      calls := [];
      while upper != 0
        invariant upper + |calls| == n == |Contents()|
        invariant forall i | 0 <= i < |calls| :: calls[i] == Contents()[n - 1 - i]
      {
        var id := Ids(upper);
        var value := Ptrs(upper);
        calls := calls + [Pair(id, value)];
        upper := upper - 1;
      }
    }

    // ----- ids to booleans -----

    method BoolGet(id: u16) returns (r: bool)
      requires Valid()
      ensures r == HasBit(Map(), id)
    {
      hide Distinct, MapOf, Pairs, Bit;
      var index := Search(id - id % 64);
      if index == 0 { return false; }
      var field := Ptrs(index);
      r := Bit(field, id % 64);
    }

    method BoolSet(id: u16, value: bool) returns (r: bool)
      requires Valid() && BoolMap(Map())
      modifies this, base
      ensures old(base) == base || fresh(base)
      ensures Valid() && BoolMap(Map()) && r == old(HasBit(Map(), id))
      ensures forall j: u16 :: HasBit(Map(), j) == if j == id then value else old(HasBit(Map(), j))
    {
      hide Distinct, MapOf, Pairs, Bit, SetBit, BoolMap, HasBit;
      ghost var m, s := Map(), Contents();
      var idm: u16 := id - id % 64;
      var index := Search(idm);
      var ofield := 0;
      if index != 0 { ofield := Ptrs(index); }
      var field := SetBit(ofield, id % 64, value);
      BoolChange(m, id, value, ofield, field);
      if field != ofield {
        if field != 0 {
          if index != 0 {
            MapUpdate(s, index - 1, field);
            SetPtr(index, field);
          } else {
            AppendDistinct(s, idm, field);
            FewWords(s);
            Add(idm, field);
          }
        } else if index != 0 {
          MapWithout(s, index - 1);
          Drop(index);
        }
      }
      r := Bit(ofield, id % 64);
    }

    method Grow(oupper: u16, nupper: u16, ghost s: seq<Pair>)
      requires |s| == oupper && nupper == oupper + 1
      requires base != null ==> Holds(base[..], s, Capacity(oupper)) && nupper > Capacity(oupper)
      requires base == null ==> oupper == 0
      modifies this
      ensures base != null && fresh(base) && Holds(base[..], s, Capacity(nupper))
    {
      var grown := new Word[Size(Capacity(nupper))](i => Ptr(0));
      if base != null {
        Resize(grown, base);
      }
      base := grown;
      if oupper != 0 {
        MoveUp(oupper, Capacity(oupper), Capacity(nupper), s);
      } else {
        assert PairsIn(base[..], 0, Capacity(nupper)) == [];
      }
    }
  }

  /** What realloc keeps. */
  method Resize(grown: array<Word>, from: array<Word>)
    requires grown != from
    modifies grown
    ensures forall i | 0 <= i < grown.Length && i < from.Length :: grown[i] == from[i]
  {
    forall i | 0 <= i < grown.Length && i < from.Length { grown[i] := from[i]; }
  }

  lemma HoldsFacts(mem: Memory, s: seq<Pair>, capacity: nat)
    requires Holds(mem, s, capacity)
    ensures capacity % 4 == 3 && |s| <= capacity && |mem| >= Size(capacity)
  {
  }

  lemma AppendDistinct(s: seq<Pair>, id: u16, value: ptr)
    requires Distinct(s) && id !in MapOf(s)
    ensures Distinct(s + [Pair(id, value)]) && MapOf(s + [Pair(id, value)]) == MapOf(s)[id := value]
  {
    MapHas(s, id);
    MapAppend(s, id, value);
  }

  lemma {:induction false} MapCount(s: seq<Pair>)
    requires Distinct(s)
    ensures |MapOf(s)| == |s|
  {
    if s != [] {
      var r := s[..|s| - 1];
      MapCount(r);
      MapHas(r, s[|s| - 1].id);
      assert MapOf(s).Keys == MapOf(r).Keys + {s[|s| - 1].id};
    }
  }

  // ----- words of booleans -----

  /** No list of a 16-bit count holds the 65536 associations. */
  lemma OneTooMany(s: seq<Pair>, id: u16, value: ptr, r: seq<Pair>)
    requires Distinct(s) && |s| == MAX && id !in MapOf(s) && |r| <= MAX
    ensures MapOf(r) != MapOf(s)[id := value]
  {
    hide MapOf, Distinct;
    MapCount(s);
    MapSize(r);
    var m := MapOf(s)[id := value];
    assert m.Keys == MapOf(s).Keys + {id};
    assert |m.Keys| == |m| && |MapOf(r).Keys| == |MapOf(r)|;
  }

  lemma {:induction false} MapSize(s: seq<Pair>)
    ensures |MapOf(s)| <= |s|
  {
    if s != [] {
      MapSize(s[..|s| - 1]);
      var m := MapOf(s[..|s| - 1]);
      assert MapOf(s).Keys == m.Keys + {s[|s| - 1].id};
      assert |MapOf(s).Keys| == |MapOf(s)| && |m.Keys| == |m|;
    }
  }

  /** One, shifted left k times. */
  function Mask(k: nat): ptr
    requires k < 64
  {
    if k == 0 then 1 else Twice(Mask(k - 1))
  }

  function Twice(w: ptr): ptr { w << 1 }

  predicate Meets(w: ptr, mask: ptr) { w & mask != 0 }

  predicate Bit(w: ptr, k: nat)
    requires k < 64
  {
    Meets(w, Mask(k))
  }

  function SetBit(w: ptr, k: nat, value: bool): ptr
    requires k < 64
  {
    Change(w, Mask(k), value)
  }

  lemma MaskNext(k: nat)
    requires k < 63
    ensures Mask(k + 1) == Mask(k) << 1
  {
  }

  lemma ShiftedApart(a: ptr, b: ptr)
    ensures (a << 1) & 1 == 0 && (a & b == 0 ==> (a << 1) & (b << 1) == 0)
  {
  }

  lemma FirstMask()
    ensures Mask(0) == 1
  {
  }

  lemma {:induction false} MasksApart(k: nat, j: nat)
    requires k < j < 64
    ensures Mask(k) & Mask(j) == 0
  {
    hide Mask;
    MaskNext(j - 1);
    ShiftedApart(Mask(j - 1), if k == 0 then 0 else Mask(k - 1));
    if k == 0 {
      FirstMask();
      AndSwap(Mask(0), Mask(j));
    } else {
      MaskNext(k - 1);
      MasksApart(k - 1, j - 1);
      AndSwap(Mask(k - 1), Mask(j - 1));
      AndSwap(Mask(k), Mask(j));
    }
  }

  lemma AndSwap(a: ptr, b: ptr)
    ensures a & b == b & a
  {
  }

  lemma MaskSome(k: nat)
    requires k < 64
    ensures Mask(k) != 0
  {
    ToTheTop(k, 63 - k);
    LastMask();
    hide Mask;
    if Mask(k) == 0 { NothingShifted(63 - k); }
  }

  function Shifted(w: ptr, n: nat): ptr
    decreases n
  {
    if n == 0 then w else Shifted(Twice(w), n - 1)
  }

  lemma {:induction false} NothingShifted(n: nat)
    ensures Shifted(0, n) == 0
  {
    if n > 0 {
      assert Twice(0) == 0;
      NothingShifted(n - 1);
    }
  }

  lemma {:induction false} ToTheTop(k: nat, n: nat)
    requires k + n < 64
    ensures Shifted(Mask(k), n) == Mask(k + n)
    decreases n
  {
    if n > 0 { ToTheTop(k + 1, n - 1); }
  }

  lemma EightShifts(a: ptr)
    ensures Twice(Twice(Twice(Twice(Twice(Twice(Twice(Twice(a)))))))) == Higher(a)
  {
  }

  function Higher(w: ptr): ptr { w << 8 }

  lemma EightMore(k: nat)
    requires k + 8 < 64
    ensures Mask(k + 8) == Higher(Mask(k))
  {
    hide Twice, Higher;
    EightShifts(Mask(k));
    assert Mask(k + 2) == Twice(Twice(Mask(k)));
    assert Mask(k + 4) == Twice(Twice(Mask(k + 2)));
    assert Mask(k + 6) == Twice(Twice(Mask(k + 4)));
  }

  lemma SeventhMask()
    ensures Mask(7) == 128
  {
    assert Mask(2) == 4;
    assert Mask(4) == 16;
    assert Mask(6) == 64;
  }

  /** The bit of the last mask is still in the word. */
  lemma LastMask()
    ensures Mask(63) == 0x8000_0000_0000_0000
  {
    SeventhMask();
    EightMore(7);
    EightMore(15);
    EightMore(23);
    EightMore(31);
    EightMore(39);
    EightMore(47);
    EightMore(55);
    hide Mask;
  }

  function Change(w: ptr, a: ptr, value: bool): ptr { if value then w | a else w & !a }

  lemma OtherMask(w: ptr, a: ptr, b: ptr, value: bool)
    requires !Meets(a, b)
    ensures Meets(Change(w, a, value), b) == Meets(w, b)
  {
  }

  lemma SameMask(w: ptr, a: ptr, value: bool)
    requires a != 0
    ensures Meets(Change(w, a, value), a) == value
  {
  }

  lemma SetBitSame(w: ptr, k: nat, value: bool)
    requires k < 64
    ensures Bit(SetBit(w, k, value), k) == value
  {
    hide Mask, Change, Meets;
    MaskSome(k);
    SameMask(w, Mask(k), value);
  }

  lemma MasksOther(k: nat, j: nat)
    requires k < 64 && j < 64 && k != j
    ensures !Meets(Mask(k), Mask(j))
  {
    hide Mask;
    if k < j { MasksApart(k, j); } else { MasksApart(j, k); AndSwap(Mask(j), Mask(k)); }
  }

  lemma SetBitOther(w: ptr, k: nat, value: bool, j: nat)
    requires k < 64 && j < 64 && k != j
    ensures Bit(SetBit(w, k, value), j) == Bit(w, j)
  {
    hide Mask, Change, Meets;
    MasksOther(k, j);
    OtherMask(w, Mask(k), Mask(j), value);
  }

  lemma SetBitAt(w: ptr, k: nat, value: bool, j: nat)
    requires k < 64 && j < 64
    ensures Bit(SetBit(w, k, value), j) == if j == k then value else Bit(w, j)
  {
    hide Bit, SetBit;
    if j == k { SetBitSame(w, k, value); } else { SetBitOther(w, k, value, j); }
  }

  lemma NoBit(j: nat)
    requires j < 64
    ensures !Bit(0, j)
  {
  }

  /** Every key is the first id of a word, and no word is zero. */
  predicate BoolMap(m: map<u16, ptr>) {
    forall k | k in m :: k % 64 == 0 && m[k] != 0
  }

  /** The boolean of an id. */
  predicate HasBit(m: map<u16, ptr>, id: u16) {
    var idm := id - id % 64;
    idm in m && Bit(m[idm], id % 64)
  }

  lemma BoolChange(m: map<u16, ptr>, id: u16, value: bool, ofield: ptr, field: ptr)
    requires BoolMap(m) && field == SetBit(ofield, id % 64, value)
    requires var idm: u16 := id - id % 64; ofield == if idm in m then m[idm] else 0
    ensures var idm: u16 := id - id % 64;
            var r := if field == ofield then m else if field != 0 then m[idm := field] else m - {idm};
            && BoolMap(r) && Bit(ofield, id % 64) == HasBit(m, id)
            && forall j: u16 :: HasBit(r, j) == if j == id then value else HasBit(m, j)
  {
    hide Bit, SetBit;
    var idm: u16 := id - id % 64;
    var r := if field == ofield then m else if field != 0 then m[idm := field] else m - {idm};
    NoBit(id % 64);
    forall j: u16 ensures HasBit(r, j) == if j == id then value else HasBit(m, j) {
      SetBitAt(ofield, id % 64, value, j % 64);
      NoBit(j % 64);
      if j - j % 64 == idm && j % 64 == id % 64 { assert j == id; }
    }
  }

  lemma {:induction false} FewKeys(keys: set<u16>, n: nat)
    requires forall k | k in keys :: k % 64 == 0 && k < 64 * n
    ensures |keys| <= n
  {
    if n > 0 {
      var rest := set k | k in keys && k != 64 * (n - 1);
      FewKeys(rest, n - 1);
      assert |keys - rest| <= 1 by {
        forall k | k in keys - rest ensures k == 64 * (n - 1) {}
        if k :| k in keys - rest { assert keys - rest == {k}; }
      }
      assert keys == rest + (keys - rest);
    } else {
      assert keys == {};
    }
  }

  /** There are at most 1024 words: the count cannot reach its limit. */
  lemma FewWords(s: seq<Pair>)
    requires Distinct(s) && BoolMap(MapOf(s))
    ensures |s| <= 1024
  {
    MapCount(s);
    FewKeys(MapOf(s).Keys, 1024);
  }

  lemma CapacityFall(n: nat)
    ensures Capacity(n) == Capacity(n + 1) || Capacity(n) < Capacity(n + 1)
    ensures n <= Capacity(n) && Capacity(n) % 4 == 3
  {
  }

  /** Leaving the last pair, and changing the count. */
  lemma Shorter(mem: Memory, s: seq<Pair>, capacity: nat)
    requires Holds(mem, s, capacity) && 0 < |s| <= MAX
    ensures |mem| > 0
    ensures var r := WithId(mem, 0, |s| - 1);
            |r| == |mem| && Holds(r, s[..|s| - 1], capacity) && IdAt(r, 0) == |s| - 1
  {
    var r, q := WithId(mem, 0, |s| - 1), s[..|s| - 1];
    WithIdAt(mem, 0, |s| - 1, 0);
    forall i | 0 <= i < |q| ensures HeldAt(r, q, capacity, i) {
      PlaceOk(capacity, i + 1);
      WithIdAt(mem, 0, |s| - 1, i + 1);
      HoldsAt(mem, s, capacity, i);
    }
    HoldsIf(r, q, capacity);
  }

  lemma CountAt(mem: Memory, r: Memory)
    requires 0 < |mem| == |r| && mem[0] == r[0]
    ensures IdAt(mem, 0) == IdAt(r, 0)
  {
  }

  lemma CapacityRoom(n: nat)
    requires n <= MAX
    ensures n < MAX ==> n + 1 <= Capacity(n + 1) < 0x1_0000
    ensures n == MAX ==> Capacity(n) == MAX
    ensures n + 1 <= Capacity(n) ==> Capacity(n + 1) == Capacity(n)
  {
  }

  /** The ids where they were, the pointers at the places of the other capacity. */
  lemma Moved(mem: Memory, r: Memory, s: seq<Pair>, from: nat, to: nat)
    requires Holds(mem, s, from) && |s| <= to && to % 4 == 3 && |r| >= Size(to) && |r| == |mem|
    requires forall w | 0 <= w < (from + 1) / 4 && w < (to + 1) / 4 :: r[w] == mem[w]
    requires forall w | (to + 1) / 4 <= w < (to + 1) / 4 + |s| :: r[w] == mem[w - (to + 1) / 4 + (from + 1) / 4]
    ensures Holds(r, s, to)
  {
    forall i | 0 <= i < |s| ensures HeldAt(r, s, to, i) {
      MovedAt(mem, r, s, from, to, i);
    }
    HoldsIf(r, s, to);
  }

  lemma MovedAt(mem: Memory, r: Memory, s: seq<Pair>, from: nat, to: nat, i: nat)
    requires Holds(mem, s, from) && |s| <= to && to % 4 == 3 && |r| >= Size(to) && |r| == |mem| && i < |s|
    requires forall w | 0 <= w < (from + 1) / 4 && w < (to + 1) / 4 :: r[w] == mem[w]
    requires forall w | (to + 1) / 4 <= w < (to + 1) / 4 + |s| :: r[w] == mem[w - (to + 1) / 4 + (from + 1) / 4]
    ensures HeldAt(r, s, to, i)
  {
    PlaceOk(from, i + 1);
    PlaceOk(to, i + 1);
    HoldsAt(mem, s, from, i);
    assert r[PtrPos(to, i + 1)] == mem[PtrPos(from, i + 1)];
  }

  lemma WriteRoom(mem: Memory, s: seq<Pair>, capacity: nat, nupper: nat)
    requires Holds(mem, s, capacity) && |s| <= MAX && nupper == (|s| + 1) % 0x1_0000
    requires (|s| < MAX ==> |s| < capacity) && (|s| == MAX ==> capacity == MAX)
    ensures 0 < |mem| && nupper / 4 < |mem| && PtrPos(capacity, nupper) < |mem|
  {
    if |s| < MAX { PlaceOk(capacity, |s| + 1); }
  }

  /** In a full block the id comes at the place of the count. */
  lemma FullBlock(mem: Memory, s: seq<Pair>, id: u16, value: ptr)
    requires Holds(mem, s, MAX) && |s| == MAX
    ensures 0 < PtrPos(MAX, 0) < |mem|
    ensures |Written(mem, MAX, 0, id, value)| == |mem| >= Size(MAX)
    ensures IdAt(Written(mem, MAX, 0, id, value), 0) == id
  {
  }

  /** Whatever the count has become, the block of 65535 pairs is large enough for it. */
  lemma FullSane(mem: Memory, id: u16)
    requires |mem| >= Size(MAX) && IdAt(mem, 0) == id
    ensures Sized(mem) && |Pairs(mem)| == id
  {
  }

  lemma PairAt(mem: Memory, k: nat)
    requires Sized(mem) && 1 <= k <= |Pairs(mem)|
    ensures k / 4 < |mem| && PtrPos(Capacity(IdAt(mem, 0)), k) < |mem|
    ensures Pairs(mem)[k - 1] == Pair(IdAt(mem, k), Value(mem[PtrPos(Capacity(IdAt(mem, 0)), k)]))
  {
    hide Pairs, Holds, IdAt, Value, Capacity, Size, PtrPos, PairsIn;
    PairsHold(mem);
    HoldsAt(mem, Pairs(mem), Capacity(IdAt(mem, 0)), k - 1);
    PairOf(Pairs(mem)[k - 1]);
  }

  lemma PairOf(p: Pair)
    ensures p == Pair(p.id, p.value)
  {
  }

  lemma PairsHold(mem: Memory)
    requires Sized(mem)
    ensures Holds(mem, Pairs(mem), Capacity(|Pairs(mem)|)) && IdAt(mem, 0) == |Pairs(mem)|
  {
  }

  lemma HoldPairs(mem: Memory, s: seq<Pair>, upper: u16)
    requires |mem| > 0 && IdAt(mem, 0) == upper == |s| && Holds(mem, s, Capacity(upper))
    ensures Sized(mem) && Pairs(mem) == s
  {
  }
}
