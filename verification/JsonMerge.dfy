/**
 Containment and equality (`jcmp` without sorting), merge of objects, insertion in arrays.

 Numbers are never NaN here: doubles are reals.
 */
module JsonMerge {
  import opened Json
  import opened Sets
  import opened Wrappers

  // ----- comparison -----

  /** Strings are compared by `strcmp`, which sees them up to their first null. */
  function CText(s: string): (r: string)
    ensures '\0' !in r && r <= s && (r == s <==> '\0' !in s)
  {
    if s == "" || s[0] == '\0' then "" else [s[0]] + CText(s[1..])
  }

  predicate SameScalar(x: Json, y: Json) {
    if x.JString? && y.JString? then CText(x.s) == CText(y.s) else x == y
  }

  /** What `jcmp` answers 0 for: x equals y, or x includes y when inc. */
  predicate Match(x: Json, y: Json, inc: bool)
    decreases y
  {
    match (x, y)
    case (JArray(a), JArray(b)) =>
      && (|a| == |b| || (inc && |a| > |b|))
      && forall i | 0 <= i < |b| :: Match(a[i], b[i], inc)
    case (JObject(a), JObject(b)) =>
      && (|a| == |b| || (inc && |a| > |b|))
      && forall k | k in b :: k in a && Match(a[k], b[k], inc)
    case _ => SameScalar(x, y)
  }

  /** A value whose strings are cut at their first null. */
  function Clipped(v: Json): Json {
    match v
    case JString(s) => JString(CText(s))
    case JArray(a) => JArray(seq(|a|, i requires 0 <= i < |a| => Clipped(a[i])))
    case JObject(m) => JObject(map k | k in m :: Clipped(m[k]))
    case _ => v
  }

  predicate NullFree(v: Json) {
    match v
    case JString(s) => '\0' !in s
    case JArray(a) => forall i | 0 <= i < |a| :: NullFree(a[i])
    case JObject(m) => forall k | k in m :: NullFree(m[k])
    case _ => true
  }

  lemma {:induction false} ClippedSame(v: Json)
    ensures Clipped(v) == v <==> NullFree(v)
  {
    match v
    case JArray(a) =>
      var r := Clipped(v).items;
      forall i | 0 <= i < |a| ensures r[i] == a[i] <==> NullFree(a[i]) { ClippedSame(a[i]); }
      assert r == a <==> forall i | 0 <= i < |a| :: r[i] == a[i];
    case JObject(m) =>
      var r := Clipped(v).members;
      forall k | k in m ensures r[k] == m[k] <==> NullFree(m[k]) { ClippedSame(m[k]); }
      assert r == m <==> forall k | k in m :: r[k] == m[k];
    case _ =>
  }

  lemma ClippedItems(a: seq<Json>, b: seq<Json>)
    ensures Clipped(JArray(a)) == Clipped(JArray(b)) <==> |a| == |b| && forall i | 0 <= i < |b| :: Clipped(a[i]) == Clipped(b[i])
  {
    var p, q := Clipped(JArray(a)).items, Clipped(JArray(b)).items;
    assert |p| == |a| && |q| == |b|;
    assert forall i | 0 <= i < |a| :: p[i] == Clipped(a[i]);
    assert forall i | 0 <= i < |b| :: q[i] == Clipped(b[i]);
    if |a| == |b| && forall i | 0 <= i < |b| :: Clipped(a[i]) == Clipped(b[i]) {
      assert forall i | 0 <= i < |q| :: p[i] == q[i];
      assert p == q;
    }
  }

  lemma ClippedMembers(a: map<string, Json>, b: map<string, Json>)
    ensures Clipped(JObject(a)) == Clipped(JObject(b)) <==>
              a.Keys == b.Keys && forall k | k in b :: Clipped(a[k]) == Clipped(b[k])
  {
    var p, q := Clipped(JObject(a)).members, Clipped(JObject(b)).members;
    assert p.Keys == a.Keys && q.Keys == b.Keys;
    assert p == q <==> p.Keys == q.Keys && forall k | k in q :: p[k] == q[k];
  }

  /** Equality is equality of values, whatever the order of members, but for what follows a null in a string. */
  lemma {:induction false} EqualIsStructural(x: Json, y: Json)
    ensures Match(x, y, false) <==> Clipped(x) == Clipped(y)
    decreases y
  {
    match (x, y)
    case (JArray(a), JArray(b)) =>
      hide Clipped;
      ClippedItems(a, b);
      forall i | 0 <= i < |b| && i < |a| ensures Match(a[i], b[i], false) <==> Clipped(a[i]) == Clipped(b[i]) {
        EqualIsStructural(a[i], b[i]);
      }
    case (JObject(a), JObject(b)) =>
      hide Clipped;
      ClippedMembers(a, b);
      SameMembers(a, b);
      forall k | k in b && k in a ensures Match(a[k], b[k], false) <==> Clipped(a[k]) == Clipped(b[k]) {
        EqualIsStructural(a[k], b[k]);
      }
    case _ =>
  }

  lemma SameMembers(a: map<string, Json>, b: map<string, Json>)
    ensures |a| == |b| && (forall k | k in b :: k in a) <==> a.Keys == b.Keys
  {
    assert |a.Keys| == |a| && |b.Keys| == |b|;
    if forall k | k in b :: k in a {
      assert b.Keys <= a.Keys;
      SubsetCard(b.Keys, a.Keys);
    }
  }

  /** Values without null in their strings are equal exactly when they are the same. */
  lemma EqualExactly(x: Json, y: Json)
    requires NullFree(x) && NullFree(y)
    ensures Match(x, y, false) <==> x == y
  {
    EqualIsStructural(x, y);
    ClippedSame(x);
    ClippedSame(y);
  }

  /** Two strings that differ after a null are equal. */
  lemma NullHides()
    ensures var x, y := JString("a\0b"), JString("a\0c"); x != y && Match(x, y, false) && Match(x, y, true)
  {
    assert CText("a\0b") == "a" + CText("\0b") && CText("a\0c") == "a" + CText("\0c");
  }

  lemma {:induction false} ContainsReflexive(x: Json, inc: bool)
    ensures Match(x, x, inc)
    decreases x
  {
    match x
    case JArray(a) => forall i | 0 <= i < |a| ensures Match(a[i], a[i], inc) { ContainsReflexive(a[i], inc); }
    case JObject(a) => forall k | k in a ensures Match(a[k], a[k], inc) { ContainsReflexive(a[k], inc); }
    case _ =>
  }

  lemma {:induction false} ContainsTransitive(x: Json, y: Json, z: Json)
    requires Match(x, y, true) && Match(y, z, true)
    ensures Match(x, z, true)
    decreases z
  {
    match z
    case JArray(c) =>
      forall i | 0 <= i < |c| ensures Match(x.items[i], c[i], true) {
        ContainsTransitive(x.items[i], y.items[i], c[i]);
      }
    case JObject(c) =>
      forall k | k in c ensures k in x.members && Match(x.members[k], c[k], true) {
        ContainsTransitive(x.members[k], y.members[k], c[k]);
      }
    case _ =>
  }

  lemma BothItems(a: seq<Json>, b: seq<Json>)
    requires Match(JArray(a), JArray(b), true) && Match(JArray(b), JArray(a), true)
    ensures |a| == |b| && forall i | 0 <= i < |b| :: Match(a[i], b[i], true) && Match(b[i], a[i], true)
  {
  }

  lemma BothMembers(a: map<string, Json>, b: map<string, Json>)
    requires Match(JObject(a), JObject(b), true) && Match(JObject(b), JObject(a), true)
    ensures a.Keys == b.Keys && forall k | k in b :: Match(a[k], b[k], true) && Match(b[k], a[k], true)
  {
  }

  lemma {:induction false} ContainsAntisymmetric(x: Json, y: Json)
    requires Match(x, y, true) && Match(y, x, true)
    ensures Clipped(x) == Clipped(y)
    decreases y
  {
    match (x, y)
    case (JArray(a), JArray(b)) =>
      BothItems(a, b);
      hide Match, Clipped;
      forall i | 0 <= i < |b| ensures Clipped(a[i]) == Clipped(b[i]) { ContainsAntisymmetric(a[i], b[i]); }
      ClippedItems(a, b);
    case (JObject(a), JObject(b)) =>
      BothMembers(a, b);
      hide Match, Clipped;
      forall k | k in b ensures Clipped(a[k]) == Clipped(b[k]) { ContainsAntisymmetric(a[k], b[k]); }
      ClippedMembers(a, b);
    case _ =>
  }

  // ----- containment, place by place -----

  datatype Step = Key(k: string) | Nth(i: nat)

  function At(v: Json, p: seq<Step>): Option<Json>
    decreases |p|
  {
    if p == [] then Some(v)
    else
      match (v, p[0])
      case (JArray(a), Nth(i)) => if i < |a| then At(a[i], p[1..]) else None
      case (JObject(m), Key(k)) => if k in m then At(m[k], p[1..]) else None
      case _ => None
  }

  /** Two containers of the same kind, or the same scalar. */
  predicate Akin(x: Json, y: Json) {
    (x.JArray? && y.JArray?) || (x.JObject? && y.JObject?) || SameScalar(x, y)
  }

  ghost predicate Covers(x: Json, y: Json) {
    forall p | At(y, p).Some? :: At(x, p).Some? && Akin(At(x, p).value, At(y, p).value)
  }

  lemma {:induction false} ContainsAt(x: Json, y: Json, p: seq<Step>)
    requires Match(x, y, true) && At(y, p).Some?
    ensures At(x, p).Some? && Akin(At(x, p).value, At(y, p).value)
    decreases |p|
  {
    if p != [] {
      match (y, p[0])
      case (JArray(b), Nth(i)) => ContainsAt(x.items[i], b[i], p[1..]);
      case (JObject(b), Key(k)) => ContainsAt(x.members[k], b[k], p[1..]);
    }
  }

  /** What a place covers is covered in the same place. */
  lemma CoversStep(x: Json, y: Json, s: Step)
    requires Covers(x, y) && At(y, [s]).Some?
    ensures At(x, [s]).Some? && Covers(At(x, [s]).value, At(y, [s]).value)
  {
    var a, b := At(x, [s]), At(y, [s]).value;
    forall p | At(b, p).Some? ensures At(a.value, p).Some? && Akin(At(a.value, p).value, At(b, p).value) {
      AtStep(y, s, p);
      AtStep(x, s, p);
    }
  }

  lemma AtStep(v: Json, s: Step, p: seq<Step>)
    ensures At(v, [s] + p) == if At(v, [s]).Some? then At(At(v, [s]).value, p) else None
  {
    assert ([s] + p)[1..] == p;
  }

  /**
   A value contains another if and only if every place of the other is a place of it, with a container of the
   same kind or the same scalar.
   */
  lemma {:induction false} ContainsPlaces(x: Json, y: Json)
    ensures Match(x, y, true) <==> Covers(x, y)
    decreases y
  {
    if Match(x, y, true) {
      forall p | At(y, p).Some? ensures At(x, p).Some? && Akin(At(x, p).value, At(y, p).value) { ContainsAt(x, y, p); }
    }
    if Covers(x, y) { CoveredContained(x, y); }
  }

  lemma {:induction false} CoveredContained(x: Json, y: Json)
    requires Covers(x, y)
    ensures Match(x, y, true)
    decreases y
  {
    assert At(y, []).Some? && At(x, []) == Some(x);
    match y
    case JArray(b) =>
      if |b| > |x.items| { CoversStep(x, y, Nth(|x.items|)); }
      forall i | 0 <= i < |b| ensures i < |x.items| && Match(x.items[i], b[i], true) {
        CoversStep(x, y, Nth(i));
        CoveredContained(x.items[i], b[i]);
      }
    case JObject(b) =>
      forall k | k in b ensures k in x.members && Match(x.members[k], b[k], true) {
        CoversStep(x, y, Key(k));
        CoveredContained(x.members[k], b[k]);
      }
      SubsetCard(b.Keys, x.members.Keys);
      assert |b.Keys| == |b| && |x.members.Keys| == |x.members|;
    case _ =>
  }

  /** Type numbers of json-c, whose difference is returned for values of distinct types. */
  function TypeOf(x: Json): int {
    match x
    case JNull => 0
    case JBool(_) => 1
    case JDouble(_) => 2
    case JInt(_) => 3
    case JObject(_) => 4
    case JArray(_) => 5
    case JString(_) => 6
  }

  /** Sign of strcmp. */
  function Compare(x: string, y: string): (r: int)
    ensures r == 0 <==> x == y
  {
    if x == "" && y == "" then 0
    else if x == "" then -1
    else if y == "" then 1
    else if x[0] < y[0] then -1
    else if x[0] > y[0] then 1
    else Compare(x[1..], y[1..])
  }

  /** `jcmp` with sort = 0: members are visited in any order, until a difference. */
  method Jcmp(x: Json, y: Json, inc: bool) returns (r: int)
    ensures r == 0 <==> Match(x, y, inc)
    decreases y
  {
    r := TypeOf(x) - TypeOf(y);
    if r != 0 { return; }
    match x
    case JNull =>
    case JBool(b) => r := (if b then 1 else 0) - if y.b then 1 else 0;
    case JDouble(d) => r := if d < y.r then -1 else if d > y.r then 1 else 0;
    case JInt(n) => r := if n < y.n then -1 else if n > y.n then 1 else 0;
    case JString(s) => r := Compare(CText(s), CText(y.s));
    case JObject(a) => r := JcmpObjects(x, y, inc);
    case JArray(a) =>
      r := |a| - |y.items|;
      if r > 0 && inc { r := 0; }
      var i := 0;
      while r == 0 && i < |y.items|
        invariant 0 <= i <= |y.items|
        invariant r == 0 ==> |a| >= |y.items| && (|a| == |y.items| || inc)
        invariant r == 0 ==> forall j | 0 <= j < i :: Match(a[j], y.items[j], inc)
        invariant r != 0 ==> !Match(x, y, inc)
        decreases |y.items| - i
      {
        r := Jcmp(a[i], y.items[i], inc);
        i := i + 1;
      }
  }

  method JcmpObjects(x: Json, y: Json, inc: bool) returns (r: int)
    requires x.JObject? && y.JObject?
    ensures r == 0 <==> Match(x, y, inc)
    decreases y, 0
  {
    var a, b := x.members, y.members;
    r := |a| - |b|;
    if r > 0 && inc { r := 0; }
    var it := b.Keys;
    while r == 0 && it != {}
      invariant it <= b.Keys
      invariant r == 0 ==> |a| == |b| || (inc && |a| > |b|)
      invariant r == 0 ==> forall k | k in b && k !in it :: k in a && Match(a[k], b[k], inc)
      invariant r != 0 ==> !Match(x, y, inc)
      decreases |it|, if r == 0 then 1 else 0
    {
      var k :| k in it;
      if k in a {
        it := it - {k};
        r := Jcmp(a[k], b[k], inc);
      } else {
        r := 1;
      }
    }
  }

  // ----- merge -----

  datatype Merging = Keep | Replace | JoinOrKeep | JoinOrReplace

  /** The value of a key that both objects have. */
  function Mix(to: Json, from: Json, option: Merging): Json
    decreases from, 1
  {
    if option.Replace? then from
    else if option.Keep? then to
    else if to.JObject? && from.JObject? then Merged(to, from, option)
    else if to.JArray? && from.JArray? then JArray(to.items + from.items)
    else if option.JoinOrReplace? then from
    else to
  }

  function Merged(dest: Json, merged: Json, option: Merging): (r: Json)
    requires dest.JObject? && merged.JObject?
    ensures r.JObject? && r.members.Keys == dest.members.Keys + merged.members.Keys
    decreases merged, 0
  {
    var d, m := dest.members, merged.members;
    JObject(map k | k in d.Keys + m.Keys ::
      if k !in m then d[k] else if k !in d then m[k] else Mix(d[k], m[k], option))
  }

  lemma CardUnion(a: set<string>, b: set<string>)
    ensures |a| <= |a + b| && |b| <= |a + b|
  {
    SubsetCard(a, a + b);
    SubsetCard(b, a + b);
  }

  /** Nothing of the destination is lost when it is kept, joined or not. */
  lemma {:induction false} KeepContainsDest(dest: Json, merged: Json, option: Merging)
    requires dest.JObject? && merged.JObject? && (option.Keep? || option.JoinOrKeep?)
    ensures Match(Merged(dest, merged, option), dest, true)
    decreases merged, 0
  {
    var d, m, r := dest.members, merged.members, Merged(dest, merged, option).members;
    CardUnion(d.Keys, m.Keys);
    assert |r.Keys| == |r| && |d.Keys| == |d|;
    forall k | k in d ensures Match(r[k], d[k], true) {
      if k in m { MixContains(d[k], m[k], option); } else { ContainsReflexive(d[k], true); }
    }
  }

  lemma {:induction false} MixContains(to: Json, from: Json, option: Merging)
    requires option.Keep? || option.JoinOrKeep?
    ensures Match(Mix(to, from, option), to, true)
    decreases from, 1
  {
    ContainsReflexive(to, true);
    if option.JoinOrKeep? && to.JObject? && from.JObject? {
      KeepContainsDest(to, from, option);
    } else if option.JoinOrKeep? && to.JArray? && from.JArray? {
      forall i | 0 <= i < |to.items| ensures Match((to.items + from.items)[i], to.items[i], true) {
        ContainsReflexive(to.items[i], true);
      }
    }
  }

  lemma {:induction false} ReplaceContainsMerged(dest: Json, merged: Json)
    requires dest.JObject? && merged.JObject?
    ensures Match(Merged(dest, merged, Replace), merged, true)
  {
    var d, m, r := dest.members, merged.members, Merged(dest, merged, Replace).members;
    CardUnion(d.Keys, m.Keys);
    assert |r.Keys| == |r| && |m.Keys| == |m|;
    forall k | k in m ensures Match(r[k], m[k], true) {
      MergedAt(dest, merged, Replace, k);
      ContainsReflexive(m[k], true);
    }
  }

  lemma MergedAt(dest: Json, merged: Json, option: Merging, k: string)
    requires dest.JObject? && merged.JObject? && (k in dest.members || k in merged.members)
    ensures var d, m, r := dest.members, merged.members, Merged(dest, merged, option).members;
            k in r && r[k] == if k !in m then d[k] else if k !in d then m[k] else Mix(d[k], m[k], option)
  {
  }

  lemma Idempotent(dest: Json, merged: Json, option: Merging)
    requires dest.JObject? && merged.JObject? && (option.Keep? || option.Replace?)
    ensures Merged(Merged(dest, merged, option), merged, option) == Merged(dest, merged, option)
  {
    hide Merged;
    var r := Merged(dest, merged, option);
    var q := Merged(r, merged, option);
    forall k | k in r.members ensures k in q.members && q.members[k] == r.members[k] {
      MergedAt(dest, merged, option, k);
      MergedAt(r, merged, option, k);
    }
    assert q.members == r.members;
  }

  /**
   What makes a join grow again when it is made twice: a non-empty array, under objects only, that
   is joined with an array, or that has replaced what was there and then meets itself.
   */
  predicate Grows(to: Json, from: Json, option: Merging)
    decreases from
  {
    match from
    case JArray(items) => items != [] && (to.JArray? || option.JoinOrReplace?)
    case JObject(m) =>
      var d := if to.JObject? then to.members else map[];
      && (to.JObject? || option.JoinOrReplace?)
      && exists k | k in m :: Grows(if k in d then d[k] else m[k], m[k], option)
    case _ => false
  }

  /** Joining twice is joining once exactly where no array would grow, whatever is done of other values. */
  lemma {:induction false} JoinIdempotent(dest: Json, merged: Json, option: Merging)
    requires dest.JObject? && merged.JObject? && (option.JoinOrKeep? || option.JoinOrReplace?)
    ensures Merged(Merged(dest, merged, option), merged, option) == Merged(dest, merged, option)
            <==> !Grows(dest, merged, option)
    decreases merged, 0
  {
    var d, m, r := dest.members, merged.members, Merged(dest, merged, option).members;
    var q := Merged(JObject(r), merged, option).members;
    forall k | k in m ensures q[k] == r[k] <==> !Grows(if k in d then d[k] else m[k], m[k], option) {
      if k in d { MixTwice(d[k], m[k], option); } else { MixSelf(m[k], option); }
    }
    if !Grows(dest, merged, option) {
      assert q == r;
    } else {
      var k :| k in m && Grows(if k in d then d[k] else m[k], m[k], option);
      assert q[k] != r[k];
    }
  }

  lemma {:induction false} MixTwice(to: Json, from: Json, option: Merging)
    requires option.JoinOrKeep? || option.JoinOrReplace?
    ensures Mix(Mix(to, from, option), from, option) == Mix(to, from, option) <==> !Grows(to, from, option)
    decreases from, 1
  {
    if to.JObject? && from.JObject? {
      JoinIdempotent(to, from, option);
    } else if to.JArray? && from.JArray? {
      assert |to.items + from.items + from.items| == |to.items + from.items| + |from.items|;
      assert from.items == [] ==> to.items + from.items + from.items == to.items + from.items;
    } else if option.JoinOrReplace? {
      MixSelf(from, option);
      Replaced(to, from);
    }
  }

  /** A value of another kind leaves its place, and the array then meets itself. */
  lemma Replaced(to: Json, from: Json)
    requires !(to.JObject? && from.JObject?) && !(to.JArray? && from.JArray?)
    ensures Grows(to, from, JoinOrReplace) <==> Grows(from, from, JoinOrReplace)
  {
  }

  lemma {:induction false} MixSelf(from: Json, option: Merging)
    requires option.JoinOrKeep? || option.JoinOrReplace?
    ensures Mix(from, from, option) == from <==> !Grows(from, from, option)
    decreases from, 1
  {
    if from.JArray? {
      assert |from.items + from.items| == |from.items| + |from.items|;
      assert from.items == [] ==> from.items + from.items == from.items;
    } else if from.JObject? {
      var m := from.members;
      var r := Merged(from, from, option).members;
      forall k | k in m ensures r[k] == m[k] <==> !Grows(m[k], m[k], option) { MixSelf(m[k], option); }
      if Grows(from, from, option) {
        var k :| k in m && Grows(m[k], m[k], option);
        assert r[k] != m[k];
      } else {
        assert r == m;
      }
    }
  }

  /** A number replaced by an array, with join_or_replace, is that array twice after the second merge. */
  lemma JoinTwice()
    ensures var d, m := JObject(map["a" := JInt(1)]), JObject(map["a" := JArray([JInt(1)])]);
            var r := Merged(d, m, JoinOrReplace);
            && r.members["a"] == JArray([JInt(1)])
            && Merged(r, m, JoinOrReplace).members["a"] == JArray([JInt(1), JInt(1)])
            && Merged(Merged(d, m, JoinOrKeep), m, JoinOrKeep) == Merged(d, m, JoinOrKeep)
  {
    var d, m := JObject(map["a" := JInt(1)]), JObject(map["a" := JArray([JInt(1)])]);
    MergedAt(d, m, JoinOrReplace, "a");
    MergedAt(Merged(d, m, JoinOrReplace), m, JoinOrReplace, "a");
    assert !Grows(d, m, JoinOrKeep);
    JoinIdempotent(d, m, JoinOrKeep);
  }

  // ----- what is found along a path of keys -----

  function Along(v: Json, p: seq<string>): Option<Json> {
    if p == [] then Some(v)
    else if v.JObject? && p[0] in v.members then Along(v.members[p[0]], p[1..])
    else None
  }

  lemma {:induction false} AlongMore(v: Json, p: seq<string>, q: seq<string>)
    ensures Along(v, p + q) == if Along(v, p).Some? then Along(Along(v, p).value, q) else None
    decreases |p|
  {
    if p == [] {
      assert p + q == q;
    } else {
      assert (p + q)[1..] == p[1..] + q;
      if v.JObject? && p[0] in v.members { AlongMore(v.members[p[0]], p[1..], q); }
    }
  }

  /** Before its last key, the path leads to an object in both values. */
  predicate Meets(to: Json, from: Json, p: seq<string>) {
    && p != [] && to.JObject? && from.JObject?
    && forall i | 0 < i < |p| ::
         && Along(to, p[..i]).Some? && Along(to, p[..i]).value.JObject?
         && Along(from, p[..i]).Some? && Along(from, p[..i]).value.JObject?
  }

  /**
   What a merge leaves at the end of a path: what is on one side only is there as it was; of two values, two
   objects are united and two arrays put one after the other when joining, and otherwise the option chooses.
   */
  lemma {:induction false} MergedAlong(dest: Json, merged: Json, option: Merging, p: seq<string>)
    requires Meets(dest, merged, p) && (|p| == 1 || option.JoinOrKeep? || option.JoinOrReplace?)
    ensures var a, b, r := Along(dest, p), Along(merged, p), Along(Merged(dest, merged, option), p);
            if a.None? then r == b
            else if b.None? then r == a
            else if (option.JoinOrKeep? || option.JoinOrReplace?) && a.value.JArray? && b.value.JArray? then
              r == Some(JArray(a.value.items + b.value.items))
            else if (option.JoinOrKeep? || option.JoinOrReplace?) && a.value.JObject? && b.value.JObject? then
              r.Some? && r.value.JObject? && r.value.members.Keys == a.value.members.Keys + b.value.members.Keys
            else r == if option.Replace? || option.JoinOrReplace? then b else a
    decreases |p|
  {
    var k, q := p[0], p[1..];
    var d, m := dest.members, merged.members;
    if |p| == 1 {
      assert q == [];
    } else {
      assert p[..1][1..] == [] && p[..1][0] == k;
      assert Along(dest, p[..1]).Some? && Along(merged, p[..1]).Some?;
      assert Along(dest, p[..1]).value == d[k] && Along(merged, p[..1]).value == m[k];
      MeetsInside(dest, merged, p);
      MergedAlong(d[k], m[k], option, q);
    }
  }

  lemma MeetsInside(dest: Json, merged: Json, p: seq<string>)
    requires Meets(dest, merged, p) && |p| > 1
    requires p[0] in dest.members && p[0] in merged.members
    requires dest.members[p[0]].JObject? && merged.members[p[0]].JObject?
    ensures Meets(dest.members[p[0]], merged.members[p[0]], p[1..])
  {
    var k, q := p[0], p[1..];
    forall i | 0 < i < |q|
      ensures Along(dest.members[k], q[..i]) == Along(dest, p[..i + 1])
      ensures Along(merged.members[k], q[..i]) == Along(merged, p[..i + 1])
    {
      assert p[..i + 1][1..] == q[..i] && p[..i + 1][0] == k;
    }
  }

  /** An object that is modified in place. */
  class ObjectCell {
    var members: map<string, Json>

    constructor (members: map<string, Json>)
      ensures this.members == members
    {
      this.members := members;
    }

    /** `object_merge`: the members of merged, in any order. */
    method Merge(merged: map<string, Json>, option: Merging, ghost whole: Json)
      requires whole == JObject(merged)
      modifies this
      ensures JObject(members) == Merged(JObject(old(members)), whole, option)
      decreases whole, 0, 1
    {
      hide Merged, Mix, PartMerged;
      ghost var d, done := members, {};
      PartNone(d, merged, option);
      var it := merged.Keys;
      while it != {}
        invariant it <= merged.Keys && done <= merged.Keys && it == merged.Keys - done
        invariant members == PartMerged(d, merged, done, option)
        decreases |it|
      {
        var k :| k in it;
        PartNext(d, merged, done, k, option);
        it, done := it - {k}, done + {k};
        MergeItem(k, merged[k], option, whole);
      }
      assert done == merged.Keys;
      PartAll(d, whole, option);
    }

    method MergeItem(k: string, from: Json, option: Merging, ghost whole: Json)
      requires whole.JObject? && k in whole.members && from == whole.members[k]
      modifies this
      ensures members == old(members)[k := if k in old(members) then Mix(old(members)[k], from, option) else from]
      decreases whole, 0, 0
    {
      if option.Replace? || k !in members {
        members := members[k := from];
      } else if !option.Keep? {
        var v := Join(members[k], from, option);
        members := members[k := v];
      }
    }
  }

  /** The new value of an item that both objects have, when they may be joined. */
  method Join(to: Json, from: Json, option: Merging) returns (r: Json)
    requires option.JoinOrKeep? || option.JoinOrReplace?
    ensures r == Mix(to, from, option)
    decreases from, 1
  {
    r := to;
    if to.JObject? && from.JObject? {
      var cell := new ObjectCell(to.members);
      cell.Merge(from.members, option, from);
      r := JObject(cell.members);
    } else if to.JArray? && from.JArray? {
      var cell := new ArrayCell(to.items);
      var added := new ArrayCell(from.items);
      cell.InsertArray(added, -1);
      assert cell.items == to.items + from.items;
      r := JArray(cell.items);
    } else if option.JoinOrReplace? {
      r := from;
    }
  }

  /** The merge of some of the members. */
  ghost function PartMerged(d: map<string, Json>, m: map<string, Json>, done: set<string>,
      option: Merging): map<string, Json>
    requires done <= m.Keys
  {
    map k | k in d.Keys + done :: if k !in done then d[k] else if k in d then Mix(d[k], m[k], option) else m[k]
  }

  lemma PartNone(d: map<string, Json>, m: map<string, Json>, option: Merging)
    ensures PartMerged(d, m, {}, option) == d
  {
    hide Mix;
    assert PartMerged(d, m, {}, option).Keys == d.Keys;
  }

  lemma PartNext(d: map<string, Json>, m: map<string, Json>, done: set<string>, k: string, option: Merging)
    requires done <= m.Keys && k in m && k !in done
    ensures var p := PartMerged(d, m, done, option);
            && (k in p <==> k in d) && (k in d ==> p[k] == d[k])
            && PartMerged(d, m, done + {k}, option) == p[k := if k in d then Mix(d[k], m[k], option) else m[k]]
  {
    hide Mix;
  }

  lemma PartAll(d: map<string, Json>, merged: Json, option: Merging)
    requires merged.JObject?
    ensures JObject(PartMerged(d, merged.members, merged.members.Keys, option)) == Merged(JObject(d), merged, option)
  {
    hide Mix;
  }

  /** An array that is modified in place; a write past the end extends it with nulls. */
  class ArrayCell {
    var items: seq<Json>

    constructor (items: seq<Json>)
      ensures this.items == items
    {
      this.items := items;
    }

    method PutIdx(i: nat, v: Json)
      modifies this
      ensures i < |old(items)| ==> items == old(items)[i := v]
      ensures i >= |old(items)| ==> items == old(items) + seq(i - |old(items)|, k => JNull) + [v]
    {
      if i < |items| { items := items[i := v]; } else { items := items + seq(i - |items|, k => JNull) + [v]; }
    }

    /** `rp_jsonc_array_insert_array`, whether added is another array or this one. */
    method InsertArray(added: ArrayCell, idx: int)
      modifies this
      ensures items == Inserted(old(items), old(added.items), idx)
    {
      var nd, na := |items|, |added.items|;
      var k := idx;
      if k < 0 { k := 1 + nd + k; }
      if k < 0 { k := 0; } else if k > nd { k := nd; }
      ghost var d, a := items, added.items;
      MoveEnd(k, nd, na);
      CopyAdded(added, k, nd, na, d, a);
      assert items == d[..k] + a + d[k..];
    }

    /** The items from k on move na places up, last first. */
    method MoveEnd(k: nat, nd: nat, na: nat)
      requires |items| == nd && k <= nd
      modifies this
      ensures |items| == if k < nd then nd + na else nd
      ensures forall j | 0 <= j < nd && j < k + na :: items[j] == old(items)[j]
      ensures forall j | k + na <= j < nd + na :: items[j] == old(items)[j - na]
    {
      ghost var d := items;
      var i := nd + na;
      while i > k + na
        invariant k + na <= i <= nd + na
        invariant |items| == if i < nd + na then nd + na else nd
        invariant forall j | 0 <= j < i && j < nd :: items[j] == d[j]
        invariant forall j | i <= j < nd + na :: items[j] == d[j - na]
      {
        i := i - 1;
        PutIdx(i, items[i - na]);
      }
    }

    /** The added items come in the gap, last first: what is still to be read is not yet overwritten. */
    method CopyAdded(added: ArrayCell, k: nat, nd: nat, na: nat, ghost d: seq<Json>, ghost a: seq<Json>)
      requires |d| == nd && |a| == na && k <= nd && |items| == if k < nd then nd + na else nd
      requires if added == this then a == d else added.items == a
      requires forall j | 0 <= j < nd && j < k + na :: items[j] == d[j]
      requires forall j | k + na <= j < nd + na :: items[j] == d[j - na]
      modifies this
      ensures |items| == nd + na
      ensures forall j | 0 <= j < k :: items[j] == d[j]
      ensures forall j | k <= j < k + na :: items[j] == a[j - k]
      ensures forall j | k + na <= j < nd + na :: items[j] == d[j - na]
    {
      var i := k + na;
      while i > k
        invariant k <= i <= k + na
        invariant |items| == if k < nd || i < k + na then nd + na else nd
        invariant forall j | 0 <= j < nd && j < i :: items[j] == d[j]
        invariant added != this ==> added.items == a
        invariant forall j | i <= j < k + na :: items[j] == a[j - k]
        invariant forall j | k + na <= j < nd + na :: items[j] == d[j - na]
      {
        i := i - 1;
        PutIdx(i, added.items[i - k]);
      }
    }
  }

  /** Negative indexes count from after the end; others are limited to the array. */
  function Position(idx: int, n: nat): (k: nat)
    ensures k <= n
  {
    if idx < 0 then (if 1 + n + idx < 0 then 0 else 1 + n + idx) else if idx > n then n else idx
  }

  function Inserted<T>(items: seq<T>, added: seq<T>, idx: int): seq<T> {
    var k := Position(idx, |items|);
    items[..k] + added + items[k..]
  }

  function Mirrored<T>(s: seq<T>): (r: seq<T>)
    ensures |r| == |s| && forall i | 0 <= i < |r| :: r[i] == s[|s| - 1 - i]
  {
    seq(|s|, i requires 0 <= i < |s| => s[|s| - 1 - i])
  }

  /**
   Where the items go: at the index when it is in the array, so that the first of them has that index; for a
   negative index that counts back inside the array, so that -idx - 1 of the old items come after them; and
   otherwise at the end that is overrun.
   */
  lemma Inserting<T>(items: seq<T>, added: seq<T>, idx: int)
    ensures var r, n, a := Inserted(items, added, idx), |items|, |added|;
            && (0 <= idx <= n ==> r[idx..idx + a] == added && r[..idx] == items[..idx] && r[idx + a..] == items[idx..])
            && (idx > n ==> r == items + added)
            && (-n <= idx + 1 <= 0 ==>
                  var after := -idx - 1;
                  |r| == n + a && r[|r| - after..] == items[n - after..] && r == items[..n - after] + added + items[n - after..])
            && (idx + 1 < -n ==> r == added + items)
  {
    var k := Position(idx, |items|);
    assert 0 <= k <= |items|;
    if idx > |items| { assert items[k..] == [] && items + added + [] == items + added; }
    if idx + 1 < -|items| { assert items[..k] == [] && [] + added == added; }
  }

  /** Index -1 - j is from the end what index j is from the start, whatever the sign and the size of j. */
  lemma InsertedMirror<T>(items: seq<T>, added: seq<T>, j: int)
    ensures Inserted(items, added, -1 - j) == Mirrored(Inserted(Mirrored(items), Mirrored(added), j))
  {
    assert Position(-1 - j, |items|) == |items| - Position(j, |items|);
    hide Position;
  }
}
