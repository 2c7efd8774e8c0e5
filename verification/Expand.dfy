/**
 Expansion of "$ref" in JSON values: objects that refer to files are replaced by what the
 files hold, expanded in turn, up to ten files deep.

 `Expansion` says what a value becomes; `Expref` is the record that the callbacks modify,
 save and restore on the way.
 */
module Expand {
  import opened Json
  import opened Wrappers
  import JsonMerge

  const DEPTHMAX: nat := 10

  const REF := "$ref"

  datatype Flags = Flags(refs: bool, multiple: bool, deleteNulls: bool, strings: bool)

  const NO_FLAGS := Flags(false, false, false, false)

  /** The files that can be read, where a name is searched for, and what strings stand for. */
  datatype World = World(
    files: map<string, Json>,
    locate: (Option<string>, string) -> Option<string>,
    scan: string -> Json,
    flags: Flags)

  /** No object inside has a "$ref". */
  predicate Clean(v: Json) {
    match v
    case JObject(m) => REF !in m && forall k | k in m :: Clean(m[k])
    case JArray(a) => forall i | 0 <= i < |a| :: Clean(a[i])
    case _ => true
  }

  function Rank(v: Json): nat { if Clean(v) then 0 else 1 }

  lemma RankInside(v: Json)
    ensures v.JObject? ==> forall k | k in v.members :: Rank(v.members[k]) <= Rank(v)
    ensures v.JArray? ==> forall i | 0 <= i < |v.items| :: Rank(v.items[i]) <= Rank(v)
    ensures v.JObject? && REF in v.members ==> Rank(v) == 1
  {
  }

  /** A string stands for itself or for a scalar. */
  function Scanned(w: World, s: string): (r: Json)
    ensures Clean(r)
  {
    var v := if w.flags.strings then w.scan(s) else JString(s);
    if v.JArray? || v.JObject? then JString(s) else v
  }

  function WithoutNulls(w: World, v: Json): (r: Json)
    ensures Clean(v) ==> Clean(r)
  {
    if w.flags.deleteNulls && v.JObject? then JObject(map k | k in v.members && v.members[k] != JNull :: v.members[k]) else v
  }

  // ----- what a value becomes -----

  /** The expansion of a value met at a depth in a file, None if there is an error. */
  ghost function Expansion(w: World, n: nat, path: Option<string>, v: Json): (r: Option<Json>)
    requires n <= DEPTHMAX
    ensures r.Some? && w.flags.refs ==> Clean(r.value)
    decreases DEPTHMAX - n, Rank(v), v, 1
  {
    RankInside(v);
    match v
    case JObject(m) =>
      var e := Members(w, n, path, v);
      if e.None? then None
      else if w.flags.refs && REF in e.value then
        if n >= DEPTHMAX then None
        else
          var t := References(w, n + 1, path, e.value[REF]);
          if t.None? then None else Expansion(w, n, path, WithoutNulls(w, t.value))
      else Some(WithoutNulls(w, JObject(e.value)))
    case JArray(a) =>
      if exists i | 0 <= i < |a| :: Expansion(w, n, path, a[i]).None? then None
      else Some(JArray(seq(|a|, i requires 0 <= i < |a| => Expansion(w, n, path, a[i]).value)))
    case JString(s) => Some(Scanned(w, s))
    case _ => Some(v)
  }

  ghost function Members(w: World, n: nat, path: Option<string>, v: Json): (r: Option<map<string, Json>>)
    requires n <= DEPTHMAX && v.JObject?
    ensures r.Some? ==> r.value.Keys == v.members.Keys
    ensures r.Some? && w.flags.refs ==> forall k | k in r.value :: Clean(r.value[k])
    decreases DEPTHMAX - n, Rank(v), v, 0
  {
    RankInside(v);
    var m := v.members;
    if exists k | k in m :: Expansion(w, n, path, m[k]).None? then None
    else Some(map k | k in m :: Expansion(w, n, path, m[k]).value)
  }

  /** What the value of a "$ref" refers to: a file, or several ones merged. */
  ghost function References(w: World, n: nat, path: Option<string>, ref: Json): (r: Option<Json>)
    requires n <= DEPTHMAX
    ensures r.Some? && w.flags.refs ==> Clean(r.value)
    decreases DEPTHMAX - n, 3
  {
    if w.flags.multiple && ref.JArray? then Several(w, n, path, ref.items, JNull)
    else Several(w, n, path, [ref], JNull)
  }

  ghost function Several(w: World, n: nat, path: Option<string>, refs: seq<Json>, target: Json): (r: Option<Json>)
    requires n <= DEPTHMAX && (w.flags.refs ==> Clean(target))
    ensures r.Some? && w.flags.refs ==> Clean(r.value)
    decreases DEPTHMAX - n, 2, |refs|
  {
    if refs == [] then Some(target)
    else if !refs[0].JString? then None
    else
      var file := w.locate(path, refs[0].s);
      if file.None? || file.value !in w.files then None
      else
        var v := w.files[file.value];
        var r := Expansion(w, n, file, v);
        if r.None? then None
        else
          MergedClean(target, r.value);
          Several(w, n, path, refs[1..], Joined(target, r.value))
  }

  /** The content of one more file. */
  function Joined(target: Json, v: Json): Json {
    if !target.JObject? then v
    else if v.JObject? then JsonMerge.Merged(target, v, JsonMerge.JoinOrReplace)
    else target
  }

  lemma {:induction false} MergedClean(target: Json, v: Json)
    ensures Clean(target) && Clean(v) ==> Clean(Joined(target, v))
  {
    if Clean(target) && Clean(v) && target.JObject? && v.JObject? {
      MergedObjectsClean(target, v);
    }
  }

  lemma {:induction false} MergedObjectsClean(d: Json, m: Json)
    requires Clean(d) && Clean(m) && d.JObject? && m.JObject?
    ensures Clean(JsonMerge.Merged(d, m, JsonMerge.JoinOrReplace))
    decreases m, 0
  {
    var r := JsonMerge.Merged(d, m, JsonMerge.JoinOrReplace);
    forall k | k in r.members ensures Clean(r.members[k]) {
      JsonMerge.MergedAt(d, m, JsonMerge.JoinOrReplace, k);
      if k in d.members && k in m.members { MixClean(d.members[k], m.members[k]); }
    }
  }

  lemma {:induction false} MixClean(to: Json, from: Json)
    requires Clean(to) && Clean(from)
    ensures Clean(JsonMerge.Mix(to, from, JsonMerge.JoinOrReplace))
    decreases from, 1
  {
    if to.JObject? && from.JObject? { MergedObjectsClean(to, from); }
  }

  // ----- the expander -----

  const EINVAL := -22
  const ELOOP := -40
  const ENOENT := -2

  class Expref {
    const world: World
    var error_code: int
    var flags: Flags
    var nestcnt: nat
    var path: Option<string>
    var root: Json
    var target: Json

    /** An error stops every processing. */
    ghost predicate Valid()
      reads this
    {
      && nestcnt <= DEPTHMAX && error_code <= 0
      && flags == (if error_code == 0 then world.flags else NO_FLAGS)
    }

    /** What every call restores, and what it says of the error. */
    twostate predicate Kept()
      reads this
    {
      && Valid() && nestcnt == old(nestcnt) && path == old(path) && target == old(target)
      && (old(error_code) != 0 ==> error_code != 0)
    }

    constructor (world: World, value: Json, path: Option<string>)
      ensures Valid() && this.world == world && root == value && this.path == path && nestcnt == 0 && error_code == 0
    {
      this.world, error_code, flags, nestcnt, root, this.path, target := world, 0, world.flags, 0, value, path, JNull;
    }

    method SetError(code: int)
      requires code < 0
      modifies this`error_code, this`flags
      ensures error_code == code && flags == NO_FLAGS
    {
      flags := NO_FLAGS;
      error_code := code;
    }

    /** The recursive `expand`: what is inside, then the object itself, then what replaces it. */
    method ExpandValue(v: Json) returns (r: Json)
      requires Valid()
      modifies this
      ensures Kept() && root == old(root)
      ensures old(error_code) == 0 ==> Agrees(Expansion(world, nestcnt, path, v), error_code, r)
      decreases DEPTHMAX - nestcnt, Rank(v), v, 1
    {
      hide Expansion, References, Rank, WithoutNulls;
      r := v;
      if v.JObject? {
        var m := ExpandMembers(v);
        ghost var failed := error_code != 0;
        var replaced;
        r, replaced := ExpandObject(v, m);
        if old(error_code) == 0 { ObjectExpansion(world, nestcnt, path, v, m, failed); }
        if replaced {
          RankReplaced(world, v, r);
          r := ExpandValue(r);
        }
      } else if v.JArray? {
        r := ExpandItems(v);
      } else {
        ScalarExpansion(world, nestcnt, path, v);
        if v.JString? { r := ExpandString(v.s); }
      }
    }

    method ExpandString(s: string) returns (r: Json)
      requires Valid()
      ensures error_code == 0 ==> r == Scanned(world, s)
    {
      r := if flags.strings then Scanned(world, s) else JString(s);
    }

    method ExpandMembers(v: Json) returns (r: map<string, Json>)
      requires Valid() && v.JObject?
      modifies this
      ensures Kept() && root == old(root) && r.Keys == v.members.Keys
      ensures old(error_code) == 0 ==>
                forall k | k in v.members :: error_code == 0 ==> Agrees(Expansion(world, nestcnt, path, v.members[k]), 0, r[k])
      ensures old(error_code) == 0 && error_code != 0 ==>
                exists k | k in v.members :: Expansion(world, nestcnt, path, v.members[k]).None?
      decreases DEPTHMAX - nestcnt, Rank(v), v, 0
    {
      hide Expansion, Rank;
      var m := v.members;
      r := m;
      var it := m.Keys;
      while it != {}
        invariant Kept() && root == old(root) && r.Keys == m.Keys && it <= m.Keys
        invariant old(error_code) == 0 && error_code == 0 ==>
                    forall k | k in m && k !in it :: Agrees(Expansion(world, nestcnt, path, m[k]), 0, r[k])
        invariant old(error_code) == 0 && error_code != 0 ==>
                    exists k | k in m :: Expansion(world, nestcnt, path, m[k]).None?
        decreases |it|
      {
        var k :| k in it;
        it := it - {k};
        RankMember(v, k);
        ghost var failed := error_code != 0;
        var x := ExpandValue(m[k]);
        r := r[k := x];
        assert !failed && error_code != 0 ==> Expansion(world, nestcnt, path, m[k]).None?;
      }
    }

    method ExpandItems(v: Json) returns (r: Json)
      requires Valid() && v.JArray?
      modifies this
      ensures Kept() && root == old(root)
      ensures old(error_code) == 0 ==> Agrees(Expansion(world, nestcnt, path, v), error_code, r)
      decreases DEPTHMAX - nestcnt, Rank(v), v, 0
    {
      hide Expansion, Rank;
      var a, i := v.items, 0;
      var items := a;
      while i < |a|
        invariant 0 <= i <= |a| == |items| && Kept() && root == old(root)
        invariant old(error_code) == 0 && error_code == 0 ==>
                    forall j | 0 <= j < i :: Agrees(Expansion(world, nestcnt, path, a[j]), 0, items[j])
        invariant old(error_code) == 0 && error_code != 0 ==>
                    exists j | 0 <= j < |a| :: Expansion(world, nestcnt, path, a[j]).None?
      {
        RankItem(v, i);
        ghost var failed := error_code != 0;
        var x := ExpandValue(a[i]);
        items := items[i := x];
        assert !failed && error_code != 0 ==> Expansion(world, nestcnt, path, a[i]).None?;
        i := i + 1;
      }
      r := JArray(items);
      if old(error_code) == 0 { ArrayExpansion(world, nestcnt, path, v, items, error_code); }
    }

    /** `expand_object`: the object, or what its "$ref" refers to. */
    method ExpandObject(v: Json, m: map<string, Json>) returns (r: Json, replaced: bool)
      requires Valid() && v.JObject? && m.Keys == v.members.Keys
      modifies this
      ensures Kept() && root == old(root)
      ensures replaced ==> old(error_code) == 0 && world.flags.refs && REF in m && nestcnt < DEPTHMAX
      ensures old(error_code) == 0 && world.flags.refs && REF in m ==>
                (error_code == 0 <==> nestcnt < DEPTHMAX && References(world, nestcnt + 1, path, m[REF]).Some?)
      ensures old(error_code) == 0 && world.flags.refs && REF in m && error_code == 0 ==>
                replaced && r == WithoutNulls(world, References(world, nestcnt + 1, path, m[REF]).value)
      ensures replaced ==> error_code == 0
      ensures old(error_code) == 0 && !(world.flags.refs && REF in m) ==>
                error_code == 0 && !replaced && r == WithoutNulls(world, JObject(m))
      decreases DEPTHMAX - nestcnt, Rank(v), v, 0
    {
      hide Several, Rank;
      r, replaced := JObject(m), false;
      if flags.refs && REF in m {
        if nestcnt >= DEPTHMAX {
          SetError(ELOOP);
        } else {
          var saved := target;
          nestcnt := nestcnt + 1;
          target := JNull;
          var ref := m[REF];
          if flags.multiple && ref.JArray? { ExpandRefs(ref.items); } else { ExpandRefs([ref]); }
          if error_code == 0 { r, replaced := target, true; }
          target := saved;
          nestcnt := nestcnt - 1;
        }
      }
      if flags.deleteNulls { r := WithoutNulls(world, r); }
    }

    /** The references of one object, in order. */
    method ExpandRefs(refs: seq<Json>)
      requires Valid() && (world.flags.refs ==> Clean(target)) && error_code == 0
      modifies this
      ensures Valid() && nestcnt == old(nestcnt) && path == old(path) && root == old(root)
      ensures Agrees(Several(world, nestcnt, path, refs, old(target)), error_code, target)
      decreases DEPTHMAX - nestcnt, 5
    {
      hide Several, Clean;
      var i := 0;
      ghost var start := Several(world, nestcnt, path, refs, target);
      assert refs[0..] == refs;
      while i < |refs|
        invariant 0 <= i <= |refs| && Valid() && nestcnt == old(nestcnt) && path == old(path) && root == old(root)
        invariant world.flags.refs && error_code == 0 ==> Clean(target)
        invariant error_code == 0 ==> Several(world, nestcnt, path, refs[i..], target) == start
        invariant error_code != 0 ==> start.None?
      {
        if error_code == 0 { SeveralNext(world, nestcnt, path, refs[i..], target); }
        assert refs[i..][1..] == refs[i + 1..];
        ExpandRef(refs[i]);
        i := i + 1;
      }
      assert refs[|refs|..] == [];
      if error_code == 0 { SeveralEnd(world, nestcnt, path, target); }
    }

    method ExpandRef(ref: Json)
      requires Valid() && (world.flags.refs && error_code == 0 ==> Clean(target))
      modifies this
      ensures Valid() && nestcnt == old(nestcnt) && path == old(path) && root == old(root)
      ensures old(error_code) != 0 ==> error_code != 0
      ensures old(error_code) == 0 ==> Agrees(One(world, nestcnt, path, ref, old(target)), error_code, target)
      decreases DEPTHMAX - nestcnt, 4
    {
      if !ref.JString? {
        SetError(EINVAL);
      } else {
        var rc := ReadFileRef(ref.s);
      }
    }

    /** `read_file_ref`: the file becomes the root while it is expanded. */
    method ReadFileRef(name: string) returns (rc: int)
      requires Valid() && (world.flags.refs && error_code == 0 ==> Clean(target))
      modifies this
      ensures Valid() && nestcnt == old(nestcnt) && path == old(path) && root == old(root)
      ensures old(error_code) != 0 ==> error_code != 0
      ensures old(error_code) == 0 ==> Agrees(One(world, nestcnt, path, JString(name), old(target)), error_code, target)
      decreases DEPTHMAX - nestcnt, 3
    {
      hide Expansion, Joined;
      var file := world.locate(path, name);
      if file.None? {
        SetError(ENOENT);
        return ENOENT;
      }
      if file.value !in world.files {
        SetError(-1);
        return -1;
      }
      var saved_root, saved_path := root, path;
      root, path := world.files[file.value], file;
      rc := DefaultExpand();
      var obj := root;
      root, path := saved_root, saved_path;
      if rc < 0 { return; }
      target := Joined(target, obj);
      rc := 0;
    }

    method DefaultExpand() returns (rc: int)
      requires Valid()
      modifies this
      ensures Kept() && rc == error_code
      ensures old(error_code) == 0 ==> Agrees(Expansion(world, nestcnt, path, old(root)), error_code, root)
      decreases DEPTHMAX - nestcnt, 2
    {
      hide Expansion;
      var obj := ExpandValue(root);
      root := obj;
      rc := error_code;
    }
  }

  /** One more reference. */
  ghost function One(w: World, n: nat, path: Option<string>, ref: Json, target: Json): (r: Option<Json>)
    requires n <= DEPTHMAX && (w.flags.refs ==> Clean(target))
    ensures r.Some? && w.flags.refs ==> Clean(r.value)
  {
    if !ref.JString? then None
    else
      var file := w.locate(path, ref.s);
      if file.None? || file.value !in w.files then None
      else
        var r := Expansion(w, n, file, w.files[file.value]);
        if r.None? then None else MergedClean(target, r.value); Some(Joined(target, r.value))
  }

  lemma SeveralNext(w: World, n: nat, path: Option<string>, refs: seq<Json>, target: Json)
    requires n <= DEPTHMAX && (w.flags.refs ==> Clean(target)) && refs != []
    ensures var r := One(w, n, path, refs[0], target);
            Several(w, n, path, refs, target) == if r.None? then None else Several(w, n, path, refs[1..], r.value)
  {
    hide Expansion, Clean, Joined;
  }

  lemma SeveralEnd(w: World, n: nat, path: Option<string>, target: Json)
    requires n <= DEPTHMAX && (w.flags.refs ==> Clean(target))
    ensures Several(w, n, path, [], target) == Some(target)
  {
  }

  lemma RankMember(v: Json, k: string)
    requires v.JObject? && k in v.members
    ensures Rank(v.members[k]) <= Rank(v)
  {
  }

  lemma RankItem(v: Json, i: nat)
    requires v.JArray? && i < |v.items|
    ensures Rank(v.items[i]) <= Rank(v)
  {
  }

  lemma RankReplaced(w: World, v: Json, r: Json)
    requires v.JObject? && REF in v.members && Clean(r)
    ensures Rank(r) < Rank(v)
  {
  }

  lemma ObjectExpansion(w: World, n: nat, path: Option<string>, v: Json, m: map<string, Json>, failed: bool)
    requires n <= DEPTHMAX && v.JObject? && m.Keys == v.members.Keys
    requires !failed ==> forall k | k in v.members :: Agrees(Expansion(w, n, path, v.members[k]), 0, m[k])
    requires failed ==> exists k | k in v.members :: Expansion(w, n, path, v.members[k]).None?
    ensures Expansion(w, n, path, v)
            == if failed then None
               else if w.flags.refs && REF in m then
                 if n >= DEPTHMAX then None
                 else
                   var t := References(w, n + 1, path, m[REF]);
                   if t.None? then None else Expansion(w, n, path, WithoutNulls(w, t.value))
               else Some(WithoutNulls(w, JObject(m)))
  {
    MembersAre(w, n, path, v, m, failed);
  }

  lemma MembersAre(w: World, n: nat, path: Option<string>, v: Json, m: map<string, Json>, failed: bool)
    requires n <= DEPTHMAX && v.JObject? && m.Keys == v.members.Keys
    requires !failed ==> forall k | k in v.members :: Agrees(Expansion(w, n, path, v.members[k]), 0, m[k])
    requires failed ==> exists k | k in v.members :: Expansion(w, n, path, v.members[k]).None?
    ensures Members(w, n, path, v) == if failed then None else Some(m)
  {
    hide Expansion;
    if !failed {
      forall k | k in v.members ensures Expansion(w, n, path, v.members[k]) == Some(m[k]) {
        assert Agrees(Expansion(w, n, path, v.members[k]), 0, m[k]);
      }
      var e := Members(w, n, path, v);
      assert e.Some? && e.value.Keys == m.Keys;
      assert e.value == m;
    }
  }

  lemma ArrayExpansion(w: World, n: nat, path: Option<string>, v: Json, items: seq<Json>, error_code: int)
    requires n <= DEPTHMAX && v.JArray? && |items| == |v.items|
    requires error_code == 0 ==> forall i | 0 <= i < |items| :: Agrees(Expansion(w, n, path, v.items[i]), 0, items[i])
    requires error_code != 0 ==> exists i | 0 <= i < |items| :: Expansion(w, n, path, v.items[i]).None?
    ensures Agrees(Expansion(w, n, path, v), error_code, JArray(items))
  {
  }

  /** A call ends without error exactly when there is an expansion, and then returns it. */
  ghost predicate Agrees(e: Option<Json>, error_code: int, r: Json) {
    (error_code == 0 <==> e.Some?) && (error_code == 0 ==> r == e.value)
  }

  lemma ScalarExpansion(w: World, n: nat, path: Option<string>, v: Json)
    requires n <= DEPTHMAX && !v.JObject? && !v.JArray?
    ensures Expansion(w, n, path, v) == Some(if v.JString? then Scanned(w, v.s) else v)
  {
  }

  // ----- results -----

  /** A value without reference is left as it is, at any depth. */
  lemma {:induction false} CleanUnchanged(w: World, n: nat, path: Option<string>, v: Json)
    requires n <= DEPTHMAX && Clean(v) && !w.flags.strings && !w.flags.deleteNulls
    ensures Expansion(w, n, path, v) == Some(v)
    decreases v
  {
    match v
    case JObject(m) =>
      forall k | k in m ensures Agrees(Expansion(w, n, path, m[k]), 0, m[k]) { CleanUnchanged(w, n, path, m[k]); }
      ObjectExpansion(w, n, path, v, m, false);
    case JArray(a) =>
      forall i | 0 <= i < |a| ensures Agrees(Expansion(w, n, path, a[i]), 0, a[i]) { CleanUnchanged(w, n, path, a[i]); }
      ArrayExpansion(w, n, path, v, a, 0);
    case _ =>
  }

  // ----- what a reference becomes -----

  /** What one reference gives by itself: the expansion of the file of that name. */
  ghost function Content(w: World, n: nat, path: Option<string>, ref: Json): (r: Option<Json>)
    requires n <= DEPTHMAX
  {
    if !ref.JString? then None
    else
      var file := w.locate(path, ref.s);
      if file.None? || file.value !in w.files then None else Expansion(w, n, file, w.files[file.value])
  }

  /** Strings and nulls are left as they are. */
  predicate Plain(w: World) { w.flags.refs && !w.flags.strings && !w.flags.deleteNulls }

  /** An object that refers to one name becomes the expansion of that file, one level deeper, whatever else it holds. */
  lemma OneReference(w: World, n: nat, path: Option<string>, v: Json)
    requires Plain(w) && n <= DEPTHMAX
    requires v.JObject? && REF in v.members && v.members[REF].JString?
    ensures Expansion(w, n, path, v) ==
              if n == DEPTHMAX || exists k | k in v.members :: Expansion(w, n, path, v.members[k]).None? then None
              else Content(w, n + 1, path, v.members[REF])
  {
    var ref := v.members[REF];
    ScalarExpansion(w, n, path, ref);
    var e := Members(w, n, path, v);
    if e.Some? && n < DEPTHMAX {
      assert e.value[REF] == ref;
      var t := References(w, n + 1, path, ref);
      OneContent(w, n + 1, path, ref);
      assert t == Content(w, n + 1, path, ref);
      if t.Some? { CleanUnchanged(w, n, path, t.value); }
    }
  }

  lemma OneContent(w: World, n: nat, path: Option<string>, ref: Json)
    requires Plain(w) && n <= DEPTHMAX && !ref.JArray?
    ensures References(w, n, path, ref) == Content(w, n, path, ref)
  {
    SeveralNext(w, n, path, [ref], JNull);
    assert [ref][1..] == [];
    hide Expansion;
    var c := Content(w, n, path, ref);
    if c.Some? { SeveralEnd(w, n, path, c.value); }
  }

  lemma {:induction false} SeveralSnoc(w: World, n: nat, path: Option<string>, refs: seq<Json>, ref: Json, target: Json)
    requires n <= DEPTHMAX && (w.flags.refs ==> Clean(target))
    ensures var t := Several(w, n, path, refs, target);
            Several(w, n, path, refs + [ref], target) == if t.None? then None else One(w, n, path, ref, t.value)
    decreases |refs|
  {
    hide Expansion, Clean, Several, One;
    var all := refs + [ref];
    SeveralNext(w, n, path, all, target);
    if refs == [] {
      assert all[1..] == [];
      SeveralEnd(w, n, path, target);
      var r := One(w, n, path, ref, target);
      if r.Some? { SeveralEnd(w, n, path, r.value); }
    } else {
      assert all[1..] == refs[1..] + [ref] && all[0] == refs[0];
      SeveralNext(w, n, path, refs, target);
      var r := One(w, n, path, refs[0], target);
      if r.Some? { SeveralSnoc(w, n, path, refs[1..], ref, r.value); }
    }
  }

  /** The objects among values. */
  function Objects(vs: seq<Json>): (r: seq<map<string, Json>>)
    ensures forall i | 0 <= i < |r| :: JObject(r[i]) in vs
  {
    if vs == [] then []
    else
      var v := vs[|vs| - 1];
      Objects(vs[..|vs| - 1]) + if v.JObject? then [v.members] else []
  }

  /** The items that objects hold under a key, one list after the other. */
  function Gathered(os: seq<map<string, Json>>, k: string): seq<Json> {
    if os == [] then []
    else
      var o := os[|os| - 1];
      Gathered(os[..|os| - 1], k) + if k in o && o[k].JArray? then o[k].items else []
  }

  /**
   Objects put together: all their keys; under a key, the last value, unless an array follows arrays or an
   object follows something; arrays only are put one after the other.
   */
  ghost predicate United(os: seq<map<string, Json>>, r: map<string, Json>) {
    && (forall k :: k in r <==> exists i | 0 <= i < |os| :: k in os[i])
    && (forall i, k | 0 <= i < |os| && k in os[i] && Last(os, i, k) && (First(os, i, k) || !IsBox(os[i][k])) :: r[k] == os[i][k])
    && (forall k | k in r && Arrays(os, k) :: r[k] == JArray(Gathered(os, k)))
  }

  predicate IsBox(v: Json) { v.JArray? || v.JObject? }

  ghost predicate Last(os: seq<map<string, Json>>, i: nat, k: string) {
    forall j | i < j < |os| :: k !in os[j]
  }

  ghost predicate First(os: seq<map<string, Json>>, i: nat, k: string) {
    forall j | 0 <= j < i && j < |os| :: k !in os[j]
  }

  ghost predicate Arrays(os: seq<map<string, Json>>, k: string) {
    forall i | 0 <= i < |os| && k in os[i] :: os[i][k].JArray?
  }

  lemma UnitedOne(o: map<string, Json>)
    ensures United([o], o)
  {
    forall k | k in o && Arrays([o], k) ensures o[k] == JArray(Gathered([o], k)) {
      assert o == [o][0];
      assert [o][..0] == [];
      assert Gathered([o], k) == [] + o[k].items;
    }
    assert [o][0] == o;
  }

  lemma UnitedNext(os: seq<map<string, Json>>, r: map<string, Json>, o: map<string, Json>)
    requires os != [] && United(os, r)
    ensures United(os + [o], JsonMerge.Merged(JObject(r), JObject(o), JsonMerge.JoinOrReplace).members)
  {
    var all, next := os + [o], JsonMerge.Merged(JObject(r), JObject(o), JsonMerge.JoinOrReplace).members;
    forall k ensures k in next <==> exists i | 0 <= i < |all| :: k in all[i] {
      if k in r {
        var i :| 0 <= i < |os| && k in os[i];
        assert k in all[i];
      }
      if k in o { assert k in all[|os|]; }
    }
    forall i, k | 0 <= i < |all| && k in all[i] && Last(all, i, k) && (First(all, i, k) || !IsBox(all[i][k]))
      ensures next[k] == all[i][k]
    {
      UnitedKey(os, r, o, i, k);
    }
    forall k | k in next && Arrays(all, k) ensures next[k] == JArray(Gathered(all, k)) {
      UnitedArrays(os, r, o, k);
    }
  }

  lemma MergedHere(r: map<string, Json>, o: map<string, Json>, k: string)
    requires k in r || k in o
    ensures var next := JsonMerge.Merged(JObject(r), JObject(o), JsonMerge.JoinOrReplace).members;
            && k in next && (k !in o ==> next[k] == r[k]) && (k !in r ==> next[k] == o[k])
            && (k in r && k in o && r[k].JArray? && o[k].JArray? ==> next[k] == JArray(r[k].items + o[k].items))
            && (k in r && k in o && !IsBox(o[k]) ==> next[k] == o[k])
  {
  }

  lemma UnitedKey(os: seq<map<string, Json>>, r: map<string, Json>, o: map<string, Json>, i: nat, k: string)
    requires os != [] && United(os, r)
    requires var all := os + [o];
             i < |all| && k in all[i] && Last(all, i, k) && (First(all, i, k) || !IsBox(all[i][k]))
    ensures var next := JsonMerge.Merged(JObject(r), JObject(o), JsonMerge.JoinOrReplace).members;
            k in next && next[k] == (os + [o])[i][k]
  {
    var all := os + [o];
    if i < |os| {
      assert all[|os|] == o && k !in o;
      assert k in os[i];
      assert Last(os, i, k) by { forall j | i < j < |os| ensures k !in os[j] { assert all[j] == os[j]; } }
      if First(all, i, k) {
        assert First(os, i, k) by { forall j | 0 <= j < i ensures k !in os[j] { assert all[j] == os[j]; } }
      }
    } else if First(all, i, k) {
      forall j | 0 <= j < |os| ensures k !in os[j] { assert all[j] == os[j]; }
    }
    MergedHere(r, o, k);
  }

  lemma UnitedArrays(os: seq<map<string, Json>>, r: map<string, Json>, o: map<string, Json>, k: string)
    requires os != [] && United(os, r) && Arrays(os + [o], k) && (k in r || k in o)
    ensures var next := JsonMerge.Merged(JObject(r), JObject(o), JsonMerge.JoinOrReplace).members;
            k in next && next[k] == JArray(Gathered(os + [o], k))
  {
    var all := os + [o];
    assert all[..|all| - 1] == os && all[|os|] == o;
    assert Arrays(os, k) by {
      forall i | 0 <= i < |os| && k in os[i] ensures os[i][k].JArray? { assert all[i] == os[i]; }
    }
    if k !in r { NothingGathered(os, k); }
    MergedHere(r, o, k);
    assert Gathered(all, k) == Gathered(os, k) + if k in o then o[k].items else [];
  }

  lemma {:induction false} NothingGathered(os: seq<map<string, Json>>, k: string)
    requires forall i | 0 <= i < |os| :: k !in os[i]
    ensures Gathered(os, k) == []
  {
    if os != [] { NothingGathered(os[..|os| - 1], k); }
  }

  /** What each reference gives by itself. */
  ghost predicate Contents(w: World, n: nat, path: Option<string>, refs: seq<Json>, vs: seq<Json>)
    requires n <= DEPTHMAX
  {
    |vs| == |refs| && forall i | 0 <= i < |refs| :: Content(w, n, path, refs[i]) == Some(vs[i])
  }

  /** References one after the other: the objects among the files are put together, and without object the last file is taken. */
  lemma {:induction false} SeveralUnited(w: World, n: nat, path: Option<string>, refs: seq<Json>, vs: seq<Json>)
    requires Plain(w) && n <= DEPTHMAX && Contents(w, n, path, refs, vs)
    ensures var r := Several(w, n, path, refs, JNull);
            && r.Some?
            && if Objects(vs) == [] then r.value == (if vs == [] then JNull else vs[|vs| - 1])
               else r.value.JObject? && United(Objects(vs), r.value.members)
    decreases |refs|
  {
    hide Expansion, Several, One, United;
    if refs == [] {
      SeveralEnd(w, n, path, JNull);
    } else {
      var e := |refs| - 1;
      SeveralUnited(w, n, path, refs[..e], vs[..e]);
      assert refs == refs[..e] + [refs[e]];
      SeveralSnoc(w, n, path, refs[..e], refs[e], JNull);
      var t := Several(w, n, path, refs[..e], JNull).value;
      OneIs(w, n, path, refs[e], t, vs[e]);
      if vs[e].JObject? {
        if Objects(vs[..e]) == [] {
          assert [] + [vs[e].members] == [vs[e].members];
          UnitedOne(vs[e].members);
          NoObject(vs[..e]);
        } else {
          UnitedNext(Objects(vs[..e]), t.members, vs[e].members);
        }
      } else {
        assert Objects(vs) == Objects(vs[..e]) + [] == Objects(vs[..e]);
        NoObject(vs[..e]);
      }
    }
  }

  lemma {:induction false} NoObject(vs: seq<Json>)
    ensures Objects(vs) == [] ==> forall i | 0 <= i < |vs| :: !vs[i].JObject?
  {
    if vs != [] && Objects(vs) == [] {
      NoObject(vs[..|vs| - 1]);
      forall i | 0 <= i < |vs| ensures !vs[i].JObject? {
        if i < |vs| - 1 { assert vs[..|vs| - 1][i] == vs[i]; }
      }
    }
  }

  lemma OneIs(w: World, n: nat, path: Option<string>, ref: Json, target: Json, v: Json)
    requires Plain(w) && n <= DEPTHMAX && Clean(target) && Content(w, n, path, ref) == Some(v)
    ensures One(w, n, path, ref, target) ==
              Some(if !target.JObject? then v
                   else if v.JObject? then JsonMerge.Merged(target, v, JsonMerge.JoinOrReplace) else target)
  {
  }

  /** An object that refers to a list of names, where lists are allowed. */
  lemma ListReference(w: World, n: nat, path: Option<string>, v: Json, vs: seq<Json>)
    requires Plain(w) && w.flags.multiple && n < DEPTHMAX
    requires v.JObject? && REF in v.members && v.members[REF].JArray?
    requires forall i | 0 <= i < |v.members[REF].items| :: v.members[REF].items[i].JString?
    requires forall k | k in v.members :: Expansion(w, n, path, v.members[k]).Some?
    requires Contents(w, n + 1, path, v.members[REF].items, vs)
    ensures var r := Expansion(w, n, path, v);
            && r.Some?
            && if Objects(vs) == [] then r.value == (if vs == [] then JNull else vs[|vs| - 1])
               else r.value.JObject? && United(Objects(vs), r.value.members)
  {
    var ref := v.members[REF];
    var e := Members(w, n, path, v);
    CleanUnchanged(w, n, path, ref);
    assert e.Some? && e.value[REF] == ref;
    hide United, Contents, Several;
    SeveralUnited(w, n + 1, path, ref.items, vs);
    var t := References(w, n + 1, path, ref);
    assert t == Several(w, n + 1, path, ref.items, JNull);
    CleanUnchanged(w, n, path, t.value);
  }

  /** A list of references has a content exactly when each of them has one. */
  lemma {:induction false} SeveralSome(w: World, n: nat, path: Option<string>, refs: seq<Json>, target: Json)
    requires n <= DEPTHMAX && (w.flags.refs ==> Clean(target))
    ensures Several(w, n, path, refs, target).Some? <==> forall i | 0 <= i < |refs| :: Content(w, n, path, refs[i]).Some?
    decreases |refs|
  {
    hide Expansion, Clean, Several;
    if refs == [] {
      SeveralEnd(w, n, path, target);
    } else {
      SeveralNext(w, n, path, refs, target);
      OneSome(w, n, path, refs[0], target);
      var r := One(w, n, path, refs[0], target);
      hide One, Content;
      if r.Some? {
        SeveralSome(w, n, path, refs[1..], r.value);
        assert forall i | 1 <= i < |refs| :: refs[1..][i - 1] == refs[i];
      }
    }
  }

  lemma OneSome(w: World, n: nat, path: Option<string>, ref: Json, target: Json)
    requires n <= DEPTHMAX && (w.flags.refs ==> Clean(target))
    ensures One(w, n, path, ref, target).Some? <==> Content(w, n, path, ref).Some?
  {
    hide Expansion, Clean;
  }

  /** A reference is a string, or a list where lists are allowed: any other value is an error. */
  lemma BadReference(w: World, n: nat, path: Option<string>, v: Json)
    requires w.flags.refs && n <= DEPTHMAX && v.JObject? && REF in v.members
    requires !v.members[REF].JObject? && !v.members[REF].JString? && (v.members[REF].JArray? ==> !w.flags.multiple)
    ensures Expansion(w, n, path, v).None?
  {
    var ref := v.members[REF];
    var e := Members(w, n, path, v);
    if e.Some? && n < DEPTHMAX {
      var x := e.value[REF];
      assert Expansion(w, n, path, ref) == Some(x);
      assert !x.JString?;
      SeveralNext(w, n + 1, path, [x], JNull);
    }
  }

  // ----- how deep -----

  /** File k of the chain refers to the next one, and the last one holds a value. */
  ghost predicate Chained(w: World, names: seq<string>, v: Json) {
    && names != []
    && (forall i, path | 0 <= i < |names| :: w.locate(path, names[i]) == Some(names[i]))
    && (forall i | 0 <= i < |names| - 1 :: names[i] in w.files && w.files[names[i]] == JObject(map[REF := JString(names[i + 1])]))
    && names[|names| - 1] in w.files && w.files[names[|names| - 1]] == v
  }

  /** Ten files deep is expanded to what the last one holds, and one more is an error. */
  lemma ChainedDepth(w: World, names: seq<string>, v: Json)
    requires Plain(w) && Chained(w, names, v) && Clean(v)
    ensures Expansion(w, 0, None, JObject(map[REF := JString(names[0])])) == if |names| <= 10 then Some(v) else None
  {
    ChainedFrom(w, names, v, 0, None, 0);
  }

  lemma {:induction false} ChainedFrom(w: World, names: seq<string>, v: Json, i: nat, path: Option<string>, n: nat)
    requires Plain(w) && Chained(w, names, v) && Clean(v) && i < |names| && n <= 10
    ensures Expansion(w, n, path, JObject(map[REF := JString(names[i])])) == if n + |names| - i <= 10 then Some(v) else None
    decreases |names| - i
  {
    var o := JObject(map[REF := JString(names[i])]);
    OneReference(w, n, path, o);
    ScalarExpansion(w, n, path, JString(names[i]));
    assert w.locate(path, names[i]) == Some(names[i]);
    if n < 10 {
      if i == |names| - 1 {
        CleanUnchanged(w, n + 1, Some(names[i]), v);
      } else {
        ChainedFrom(w, names, v, i + 1, Some(names[i]), n + 1);
      }
    }
  }

  // ----- null members, strings -----

  /** No object inside has a null member. */
  predicate NoNull(v: Json) {
    match v
    case JObject(m) => forall k | k in m :: m[k] != JNull && NoNull(m[k])
    case JArray(a) => forall i | 0 <= i < |a| :: NoNull(a[i])
    case _ => true
  }

  /** r is v without the null members of its objects, at any depth, and nothing else. */
  predicate Pruned(v: Json, r: Json)
    decreases v
  {
    match v
    case JObject(m) =>
      && r.JObject? && (forall k | k in r.members :: k in m) && (forall k | k in m :: k in r.members <==> m[k] != JNull)
      && forall k | k in m && m[k] != JNull :: Pruned(m[k], r.members[k])
    case JArray(a) => r.JArray? && |r.items| == |a| && forall i | 0 <= i < |a| :: Pruned(a[i], r.items[i])
    case _ => r == v
  }

  /** What comes out has no null member when they are to be deleted, be it in the value or in the files. */
  lemma {:induction false} NullsDeleted(w: World, n: nat, path: Option<string>, v: Json)
    requires n <= DEPTHMAX && w.flags.deleteNulls
    ensures var r := Expansion(w, n, path, v); r.Some? ==> NoNull(r.value)
    decreases DEPTHMAX - n, Rank(v), v
  {
    RankInside(v);
    match v
    case JObject(m) =>
      forall k | k in m ensures var r := Expansion(w, n, path, m[k]); r.Some? ==> NoNull(r.value) {
        NullsDeleted(w, n, path, m[k]);
      }
      var e := Members(w, n, path, v);
      if e.Some? && w.flags.refs && REF in e.value && n < DEPTHMAX {
        var t := References(w, n + 1, path, e.value[REF]);
        if t.Some? {
          RankReplaced(w, v, WithoutNulls(w, t.value));
          NullsDeleted(w, n, path, WithoutNulls(w, t.value));
        }
      }
    case JArray(a) =>
      forall i | 0 <= i < |a| ensures var r := Expansion(w, n, path, a[i]); r.Some? ==> NoNull(r.value) {
        NullsDeleted(w, n, path, a[i]);
      }
    case _ =>
  }

  /** And nothing else changes when nothing else is asked. */
  lemma {:induction false} NullsOnly(w: World, n: nat, path: Option<string>, v: Json)
    requires n <= DEPTHMAX && w.flags.deleteNulls && !w.flags.strings && (w.flags.refs ==> Clean(v))
    ensures var r := Expansion(w, n, path, v); r.Some? && Pruned(v, r.value)
    ensures Expansion(w, n, path, v) == Some(JNull) <==> v == JNull
    decreases v
  {
    match v
    case JObject(m) =>
      forall k | k in m
        ensures var r := Expansion(w, n, path, m[k]); r.Some? && Pruned(m[k], r.value)
        ensures Expansion(w, n, path, m[k]) == Some(JNull) <==> m[k] == JNull
      {
        NullsOnly(w, n, path, m[k]);
      }
    case JArray(a) =>
      forall i | 0 <= i < |a| ensures var r := Expansion(w, n, path, a[i]); r.Some? && Pruned(a[i], r.value) {
        NullsOnly(w, n, path, a[i]);
      }
    case _ =>
  }

  /** A string becomes what it is scanned to when strings are expanded and that is a scalar, and stays itself otherwise. */
  lemma StringExpanded(w: World, n: nat, path: Option<string>, s: string)
    requires n <= DEPTHMAX
    ensures Expansion(w, n, path, JString(s)) ==
              Some(if w.flags.strings && !IsBox(w.scan(s)) then w.scan(s) else JString(s))
  {
    ScalarExpansion(w, n, path, JString(s));
  }

  /** The value of a "$ref" is that name, or a list with it where lists are allowed, once strings are expanded. */
  predicate Names(w: World, ref: Json, name: string) {
    match ref
    case JString(s) => Scanned(w, s) == JString(name)
    case JArray(a) => w.flags.multiple && exists i | 0 <= i < |a| :: a[i].JString? && Scanned(w, a[i].s) == JString(name)
    case _ => false
  }

  /** Somewhere in the value, an object refers to that name. */
  ghost predicate Refers(w: World, v: Json, name: string)
    decreases v
  {
    match v
    case JObject(m) => (REF in m && Names(w, m[REF], name)) || exists k | k in m :: Refers(w, m[k], name)
    case JArray(a) => exists i | 0 <= i < |a| :: Refers(w, a[i], name)
    case _ => false
  }

  /** Every file of the set refers to a file of the set. */
  ghost predicate Closed(w: World, files: set<string>) {
    forall f | f in files ::
      f in w.files && exists name :: Refers(w, w.files[f], name) && Goes(w, Some(f), name, files)
  }

  ghost predicate Goes(w: World, path: Option<string>, name: string, files: set<string>) {
    var f := w.locate(path, name);
    f.Some? && f.value in files
  }

  /** A cycle of files is always an error. */
  lemma {:induction false} CycleFails(w: World, files: set<string>, n: nat, path: Option<string>, v: Json, name: string)
    requires w.flags.refs && n <= DEPTHMAX
    requires Closed(w, files) && Refers(w, v, name) && Goes(w, path, name, files)
    ensures Expansion(w, n, path, v).None?
    decreases DEPTHMAX - n, v
  {
    hide Closed, Goes, Names;
    match v
    case JArray(a) =>
      var i :| 0 <= i < |a| && Refers(w, a[i], name);
      CycleFails(w, files, n, path, a[i], name);
    case JObject(m) =>
      if REF in m && Names(w, m[REF], name) {
        if n < DEPTHMAX {
          var f := w.locate(path, name);
          var next := NextFile(w, files, path, name);
          CycleFails(w, files, n + 1, f, w.files[f.value], next);
          RefFails(w, n, path, v, name);
        }
      } else {
        var k :| k in m && Refers(w, m[k], name);
        CycleFails(w, files, n, path, m[k], name);
      }
  }

  lemma NextFile(w: World, files: set<string>, path: Option<string>, name: string) returns (next: string)
    requires Closed(w, files) && Goes(w, path, name, files)
    ensures var f := w.locate(path, name);
            f.Some? && f.value in w.files && Refers(w, w.files[f.value], next) && Goes(w, f, next, files)
  {
    hide Refers;
    var f := w.locate(path, name).value;
    next :| Refers(w, w.files[f], next) && Goes(w, Some(f), next, files);
  }

  /** The file of that name can not be expanded. */
  ghost predicate Fails(w: World, n: nat, path: Option<string>, name: string)
    requires n <= DEPTHMAX
  {
    var f := w.locate(path, name);
    f.None? || f.value !in w.files || Expansion(w, n, f, w.files[f.value]).None?
  }

  lemma {:induction false} SeveralFails(w: World, n: nat, path: Option<string>, refs: seq<Json>, target: Json, i: nat, name: string)
    requires n <= DEPTHMAX && (w.flags.refs ==> Clean(target))
    requires i < |refs| && refs[i] == JString(name) && Fails(w, n, path, name)
    ensures Several(w, n, path, refs, target).None?
    decreases i
  {
    SeveralNext(w, n, path, refs, target);
    var r := One(w, n, path, refs[0], target);
    if i > 0 && r.Some? {
      SeveralFails(w, n, path, refs[1..], r.value, i - 1, name);
    }
  }

  /** Where the name is in the list of references, once this list is expanded. */
  lemma NameExpanded(w: World, n: nat, path: Option<string>, a: seq<Json>, name: string) returns (i: nat)
    requires n <= DEPTHMAX && Names(w, JArray(a), name) && Expansion(w, n, path, JArray(a)).Some?
    ensures var r := Expansion(w, n, path, JArray(a)).value; r.JArray? && i < |r.items| && r.items[i] == JString(name)
  {
    i :| 0 <= i < |a| && a[i].JString? && Scanned(w, a[i].s) == JString(name);
    ScalarExpansion(w, n, path, a[i]);
  }

  lemma RefFails(w: World, n: nat, path: Option<string>, v: Json, name: string)
    requires w.flags.refs && n < DEPTHMAX
    requires v.JObject? && REF in v.members && Names(w, v.members[REF], name)
    requires Fails(w, n + 1, path, name)
    ensures Expansion(w, n, path, v).None?
  {
    var e, ref := Members(w, n, path, v), v.members[REF];
    if e.Some? {
      assert e.value[REF] == Expansion(w, n, path, ref).value;
      if ref.JString? {
        ScalarExpansion(w, n, path, ref);
        SeveralFails(w, n + 1, path, [JString(name)], JNull, 0, name);
      } else {
        var i := NameExpanded(w, n, path, ref.items, name);
        SeveralFails(w, n + 1, path, e.value[REF].items, JNull, i, name);
      }
    }
  }

  /** `rp_jsonc_default_expanding`: the value given, or the file when there is none. */
  method DefaultExpanding(w: World, value: Option<Json>, path: Option<string>) returns (error_code: int, r: Json)
    ensures value.None? && (path.None? || path.value !in w.files) ==> error_code != 0
    ensures value.Some? || (path.Some? && path.value in w.files) ==>
              Agrees(Expansion(w, 0, path, if value.Some? then value.value else w.files[path.value]), error_code, r)
    ensures error_code == 0 && w.flags.refs ==> Clean(r)
  {
    hide Expansion, Clean;
    var expref := new Expref(w, if value.Some? then value.value else JNull, path);
    if value.None? {
      if path.None? {
        expref.SetError(EINVAL);
        return expref.error_code, JNull;
      }
      if path.value !in w.files {
        expref.SetError(-1);
        return expref.error_code, JNull;
      }
      expref.root := w.files[path.value];
    }
    var rc := expref.DefaultExpand();
    return expref.error_code, expref.root;
  }
}
