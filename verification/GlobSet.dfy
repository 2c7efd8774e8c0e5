/**
 Set of handlers for patterns: a dictionary of chains for the patterns without star, that
 grows, and the list of the others, from which the best match is taken.

 A chain is a sequence of entries; masking a hash by gmask is a remainder, since
 gmask + 1 is a power of two.
 */
module GlobSet {
  import opened Wrappers
  import opened GlobMatch

  /** The hash is 0 for patterns with stars. */
  datatype Entry = Entry(pattern: string, hash: nat, callback: int, closure: int)

  function LowerChar(c: char): char {
    if 'A' <= c <= 'Z' then (c as int - 'A' as int + 'a' as int) as char else c
  }

  /** Patterns are compared in lower case. */
  function Lower(s: string): (r: string)
    ensures |r| == |s| && (GLOB in r <==> GLOB in s)
  {
    if s == "" then "" else Lower(s[..|s| - 1]) + [LowerChar(s[|s| - 1])]
  }

  // ----- up to case -----

  /** The same character, or the same ASCII letter in the two cases. */
  predicate SameChar(x: char, y: char) {
    x == y || (65 <= x as int <= 90 && y as int == x as int + 32) || (65 <= y as int <= 90 && x as int == y as int + 32)
  }

  predicate SameText(a: string, b: string) {
    |a| == |b| && forall i | 0 <= i < |a| :: SameChar(a[i], b[i])
  }

  /** No upper case letter. */
  predicate Normal(s: string) {
    forall i | 0 <= i < |s| :: !(65 <= s[i] as int <= 90)
  }

  lemma {:induction false} LowerAt(s: string, i: nat)
    requires i < |s|
    ensures Lower(s)[i] == LowerChar(s[i])
  {
    if i < |s| - 1 { LowerAt(s[..|s| - 1], i); }
  }

  /** The normal form: no upper case, the same text up to case, and nothing to do twice. */
  lemma LowerNormal(s: string)
    ensures Normal(Lower(s)) && SameText(Lower(s), s)
    ensures Normal(s) ==> Lower(s) == s
  {
    forall i | 0 <= i < |s| ensures Lower(s)[i] == LowerChar(s[i]) { LowerAt(s, i); }
    hide Lower;
    forall i | 0 <= i < |s|
      ensures !(65 <= Lower(s)[i] as int <= 90) && SameChar(Lower(s)[i], s[i]) && (Normal(s) ==> Lower(s)[i] == s[i])
    {
    }
  }

  /** Two texts have one normal form exactly when they are the same up to case. */
  lemma SameLower(a: string, b: string)
    ensures Lower(a) == Lower(b) <==> SameText(a, b)
  {
    forall i | 0 <= i < |a| ensures Lower(a)[i] == LowerChar(a[i]) { LowerAt(a, i); }
    forall i | 0 <= i < |b| ensures Lower(b)[i] == LowerChar(b[i]) { LowerAt(b, i); }
    hide Lower;
    if Lower(a) == Lower(b) {
      forall i | 0 <= i < |a| ensures SameChar(a[i], b[i]) { assert LowerChar(a[i]) == LowerChar(b[i]); }
    }
    if SameText(a, b) {
      forall i | 0 <= i < |a| ensures Lower(a)[i] == Lower(b)[i] { assert SameChar(a[i], b[i]); }
    }
  }

  function Stir(hash: bv32, c: char): bv32 {
    var h := hash + ((c as int % 256) as bv32);
    var h := h + (h << 10);
    h ^ (h >> 6)
  }

  function Stirred(s: string): bv32 {
    if s == "" then 0 else Stir(Stirred(s[..|s| - 1]), s[|s| - 1])
  }

  function Finish(hash: bv32, n: nat): bv32 {
    var h := hash + ((n % 0x1_0000_0000) as bv32);
    var h := h + (h << 3);
    var h := h ^ (h >> 11);
    h + (h << 15)
  }

  /** Hash code of a normalized pattern. */
  function HashOf(s: string): (h: nat)
    ensures h == 0 <==> GLOB in s
  {
    if GLOB in s then 0
    else
      var h := Finish(Stirred(s), |s|) as nat;
      if h == 0 then 1 + |s| else h
  }

  method NormHash(from: string) returns (to: string, hash: nat)
    ensures to == Lower(from) && hash == HashOf(to)
  {
    var isglob, h := false, 0 as bv32;
    to := "";
    var i := 0;
    while i < |from|
      invariant 0 <= i <= |from| && to == Lower(from[..i])
      invariant isglob <==> GLOB in to
      invariant !isglob ==> h == Stirred(to)
    {
      hide Stir;
      var c := from[i];
      LowerNext(from, i);
      ghost var was := to;
      if c == GLOB {
        isglob := true;
        h := 0;
      } else {
        c := LowerChar(c);
        if !isglob {
          h := Stir(h, c);
        }
      }
      to := to + [c];
      assert to[..i] == was;
      i := i + 1;
    }
    assert from[..|from|] == from;
    hash := 0;
    if !isglob {
      hash := Finish(h, i) as nat;
      if hash == 0 { hash := 1 + i; }
    }
  }

  lemma LowerNext(s: string, i: nat)
    requires i < |s|
    ensures Lower(s[..i + 1]) == Lower(s[..i]) + [LowerChar(s[i])]
    ensures s[i] != GLOB ==> LowerChar(s[i]) != GLOB
    ensures LowerChar(GLOB) == GLOB
  {
    assert s[..i + 1][..i] == s[..i];
  }

  // ----- the dictionary -----

  type Content = map<string, Entry>

  ghost predicate NoDup(chain: seq<Entry>) {
    forall i, j | 0 <= i < j < |chain| :: chain[i].pattern != chain[j].pattern
  }

  /** An entry is that of its pattern, with its hash. */
  ghost predicate Known(content: Content, e: Entry) {
    e.pattern in content && content[e.pattern] == e && e.hash == HashOf(e.pattern)
  }

  ghost predicate Placed(t: seq<seq<Entry>>, content: Content, done: set<string>) {
    forall i, e :: 0 <= i < |t| && e in t[i] ==> Known(content, e) && e.pattern in done && e.hash % |t| == i
  }

  ghost predicate Full(t: seq<seq<Entry>>, content: Content, done: set<string>) {
    forall p :: p in done ==>
      p in content && content[p].pattern == p && HashOf(p) != 0 && |t| > 0 && content[p] in t[HashOf(p) % |t|]
  }

  /** The chains hold the entries of the patterns done, each where its hash tells. */
  ghost predicate Table(t: seq<seq<Entry>>, content: Content, done: set<string>) {
    && Placed(t, content, done) && Full(t, content, done)
    && (forall i :: 0 <= i < |t| ==> NoDup(t[i]))
  }

  ghost function Exact(content: Content): set<string> {
    set p | p in content && HashOf(p) != 0
  }

  /** The list holds the entries of the patterns with stars. */
  ghost predicate List(globs: seq<Entry>, content: Content) {
    && (forall e :: e in globs ==> Known(content, e) && e.hash == 0)
    && (forall p :: p in content && HashOf(p) == 0 ==> content[p].pattern == p && content[p] in globs)
    && NoDup(globs)
  }

  ghost predicate PowerOfTwo(n: nat) {
    n == 1 || (n > 1 && n % 2 == 0 && PowerOfTwo(n / 2))
  }

  /** Sizes of the dictionary: none, or a power of two that is at least 16; load below three quarters. */
  ghost predicate Sized(gmask: nat, count: nat, n: nat) {
    if gmask == 0 then n == 0 && count == 0
    else n == gmask + 1 && gmask >= 15 && PowerOfTwo(n) && 4 * count < 3 * n && gmask < 0x1_0000_0000
  }

  lemma TableMore(t: seq<seq<Entry>>, content: Content, done: set<string>, e: Entry, chain: seq<Entry>)
    requires Table(t, content, done) && Known(content, e) && e.hash != 0 && |t| > 0
    requires e.pattern !in done
    requires chain == [e] + t[e.hash % |t|] || chain == t[e.hash % |t|] + [e]
    ensures Table(t[e.hash % |t| := chain], content, done + {e.pattern})
  {
    hide HashOf;
    var b := e.hash % |t|;
    var r := t[b := chain];
    forall x | x in t[b] ensures x.pattern in done {}
    NoDupMore(t[b], e, chain);
    hide NoDup;
    assert forall x :: x in chain <==> x == e || x in t[b];
    assert Placed(r, content, done + {e.pattern}) by {
      forall i, x | 0 <= i < |r| && x in r[i]
        ensures Known(content, x) && x.pattern in done + {e.pattern} && x.hash % |r| == i
      {
        if i != b || x != e { assert x in t[i]; }
      }
    }
    FullMore(t, content, done, e, chain);
  }

  lemma NoDupMore(chain: seq<Entry>, e: Entry, r: seq<Entry>)
    requires NoDup(chain) && (r == [e] + chain || r == chain + [e])
    requires forall x | x in chain :: x.pattern != e.pattern
    ensures NoDup(r)
  {
  }

  lemma FullMore(t: seq<seq<Entry>>, content: Content, done: set<string>, e: Entry, chain: seq<Entry>)
    requires Full(t, content, done) && Known(content, e) && e.hash != 0 && |t| > 0
    requires forall x :: x in chain <==> x == e || x in t[e.hash % |t|]
    ensures Full(t[e.hash % |t| := chain], content, done + {e.pattern})
  {
    hide HashOf;
  }

  /** A pattern more in the content, still to be put in a chain. */
  lemma TableContent(t: seq<seq<Entry>>, content: Content, done: set<string>, e: Entry)
    requires Table(t, content, done) && e.pattern !in content
    ensures Table(t, content[e.pattern := e], done)
  {
    hide HashOf, NoDup;
  }

  /** An entry less. */
  lemma TableLess(t: seq<seq<Entry>>, content: Content, done: set<string>, b: nat, k: nat)
    requires Table(t, content, done) && b < |t| && k < |t[b]|
    ensures var p := t[b][k].pattern;
            Table(t[b := t[b][..k] + t[b][k + 1..]], content - {p}, done - {p})
  {
    hide HashOf;
    var chain, e := t[b], t[b][k];
    var shorter := chain[..k] + chain[k + 1..];
    var r := t[b := shorter];
    ShorterChain(chain, k);
    hide NoDup;
    assert e in t[b];
    assert Placed(r, content - {e.pattern}, done - {e.pattern}) by {
      forall i, x | 0 <= i < |r| && x in r[i]
        ensures Known(content - {e.pattern}, x) && x.pattern in done - {e.pattern} && x.hash % |r| == i
      {
        assert x in t[i];
      }
    }
    FullLess(t, content, done, b, e, shorter);
  }

  lemma ShorterChain(chain: seq<Entry>, k: nat)
    requires NoDup(chain) && k < |chain|
    ensures var r := chain[..k] + chain[k + 1..];
            NoDup(r) && forall x :: x in r <==> x in chain && x.pattern != chain[k].pattern
  {
    var r := chain[..k] + chain[k + 1..];
    forall x | x in chain && x.pattern != chain[k].pattern ensures x in r {
      var j :| 0 <= j < |chain| && chain[j] == x;
      assert r[if j < k then j else j - 1] == x;
    }
  }

  lemma FullLess(t: seq<seq<Entry>>, content: Content, done: set<string>, b: nat, e: Entry, shorter: seq<Entry>)
    requires Full(t, content, done) && b < |t|
    requires forall x :: x in shorter <==> x in t[b] && x.pattern != e.pattern
    ensures Full(t[b := shorter], content - {e.pattern}, done - {e.pattern})
  {
    hide HashOf;
  }

  // ----- the set -----

  const X_EEXIST := -17
  const X_ENOENT := -2
  const X_EOVERFLOW := -75

  lemma NextSize(gmask: nat, count: nat)
    requires Sized(gmask, count, if gmask == 0 then 0 else gmask + 1)
    requires gmask - gmask / 4 <= count + 1 || gmask == 0
    ensures var g := gmask / 8 * 16 + 15;
            g > gmask && PowerOfTwo(g + 1) && 4 * (count + 1) < 3 * (g + 1)
            && (gmask != 0 ==> g + 1 == 2 * (gmask + 1))
            && gmask * 2 / 16 * 16 + 15 == g
  {
    if gmask == 0 {
      Sixteen();
    } else {
      EighthOfPower(gmask + 1);
      NextMask(gmask, (gmask + 1) / 8);
      Doubled(gmask + 1);
      hide PowerOfTwo;
    }
  }

  lemma Sixteen()
    ensures PowerOfTwo(16)
  {
    assert PowerOfTwo(8) by { assert PowerOfTwo(4) by { assert PowerOfTwo(2); } }
  }

  lemma Doubled(n: nat)
    requires PowerOfTwo(n)
    ensures PowerOfTwo(2 * n)
  {
    assert 2 * n / 2 == n;
  }

  lemma NextMask(gmask: nat, e: nat)
    requires gmask + 1 == 8 * e
    ensures gmask / 8 * 16 + 15 == 2 * gmask + 1 && gmask * 2 / 16 * 16 + 15 == 2 * gmask + 1
  {
    assert gmask / 8 == e - 1 && gmask * 2 / 16 == e - 1;
  }

  lemma GrowTest(gmask: nat, count: nat)
    requires Sized(gmask, count, if gmask == 0 then 0 else gmask + 1)
    ensures gmask - gmask / 4 > count + 1 ==> gmask != 0 && 4 * (count + 1) < 3 * (gmask + 1)
  {
    if gmask != 0 { EighthOfPower(gmask + 1); }
  }

  lemma EighthOfPower(n: nat)
    requires PowerOfTwo(n) && n >= 16
    ensures n % 8 == 0
  {
    assert PowerOfTwo(n / 2);
    assert PowerOfTwo(n / 2 / 2);
    assert n % 2 == 0 && n / 2 % 2 == 0 && n / 2 / 2 % 2 == 0;
  }

  class GlobSet {
    /** Entries with stars, in the order they were added. */
    var globs: seq<Entry>
    var exacts: seq<seq<Entry>>
    var gmask: nat
    var count: nat

    /** What the set holds, by normalized pattern. */
    ghost var content: Content

    ghost predicate Valid()
      reads this
    {
      && (forall p | p in content :: Normal(p))
      && Table(exacts, content, Exact(content)) && List(globs, content)
      && Sized(gmask, count, |exacts|) && count == |Exact(content)|
    }

    constructor ()
      ensures Valid() && content == map[]
    {
      globs, exacts, gmask, count, content := [], [], 0, 0, map[];
    }

    /** Ensures that there is room for one more exact pattern. */
    method Grow() returns (rc: int)
      requires Valid()
      modifies this`exacts, this`gmask
      ensures Valid() && (rc == 0 || rc == X_EOVERFLOW)
      ensures rc == 0 ==> gmask != 0 && 4 * (count + 1) < 3 * |exacts|
      ensures rc != 0 ==> gmask == old(gmask) && exacts == old(exacts) && gmask >= 0x7FFF_FFFF
    {
      hide HashOf, Table, PowerOfTwo, Below, List;
      GrowTest(gmask, count);
      if gmask - gmask / 4 > count + 1 { return 0; }
      var new_gmask := gmask * 2 / 16 * 16 + 15;
      NextSize(gmask, count);
      if new_gmask + 1 >= 0x1_0000_0000 { return X_EOVERFLOW; }
      var new_exacts := seq(new_gmask + 1, i => []);
      EmptyTable(new_gmask + 1, content);
      NoneBelow(Exact(content), |exacts|);
      var i := 0;
      while i < |exacts|
        invariant Valid() && exacts == old(exacts) && gmask == old(gmask) && content == old(content)
        invariant 0 <= i <= |exacts| && |new_exacts| == new_gmask + 1
        invariant Table(new_exacts, content, Below(Exact(content), |exacts|, i))
      {
        new_exacts := Rehash(new_exacts, i);
        i := i + 1;
      }
      AllBelow(exacts, content, Exact(content));
      exacts, gmask := new_exacts, new_gmask;
      rc := 0;
    }

    /** The chain i, put entry by entry at the head of the chains of a larger dictionary. */
    method Rehash(t: seq<seq<Entry>>, i: nat) returns (r: seq<seq<Entry>>)
      requires Valid() && i < |exacts| && |t| > 0
      requires Table(t, content, Below(Exact(content), |exacts|, i))
      ensures |r| == |t| && Table(r, content, Below(Exact(content), |exacts|, i + 1))
    {
      hide HashOf, Below, Table, Full, NoDup, Exact;
      r := t;
      ghost var done := Below(Exact(content), |exacts|, i);
      var chain := exacts[i];
      var k := 0;
      assert done + Patterns(chain[..0]) == done;
      while k < |chain|
        invariant 0 <= k <= |chain| && |r| == |t|
        invariant Table(r, content, done + Patterns(chain[..k]))
      {
        var e := chain[k];
        ChainEntry(exacts, content, Exact(content), i, k);
        PatternsNext(chain, k);
        var b := e.hash % |r|;
        TableMore(r, content, done + Patterns(chain[..k]), e, [e] + r[b]);
        assert done + Patterns(chain[..k + 1]) == done + Patterns(chain[..k]) + {e.pattern};
        r := r[b := [e] + r[b]];
        k := k + 1;
      }
      assert chain[..k] == chain;
      BelowNext(exacts, content, Exact(content), i);
    }

    /** Where entries of that hash are. */
    function ChainOf(hash: nat): seq<Entry>
      requires |exacts| == 0 || gmask < |exacts|
      reads this
    {
      if hash == 0 then globs else if exacts == [] then [] else exacts[hash % (gmask + 1)]
    }

    /** Position of the pattern in its chain, or the length of the chain. */
    method Search(normal: string, hash: nat) returns (k: nat)
      requires Valid() && hash == HashOf(normal)
      ensures k <= |ChainOf(hash)|
      ensures k < |ChainOf(hash)| <==> normal in content
      ensures k < |ChainOf(hash)| ==> ChainOf(hash)[k] == content[normal]
      ensures forall e | e in ChainOf(hash)[..k] :: e.pattern != normal
    {
      hide HashOf, NoDup;
      var chain := ChainOf(hash);
      ChainIs(normal);
      k := 0;
      while k < |chain| && chain[k].pattern != normal
        invariant 0 <= k <= |chain|
        invariant forall e | e in chain[..k] :: e.pattern != normal
      {
        k := k + 1;
      }
    }

    lemma ChainIs(normal: string)
      requires Valid()
      ensures var chain := ChainOf(HashOf(normal));
              && (normal in content ==> content[normal] in chain && content[normal].pattern == normal)
              && (forall e | e in chain :: Known(content, e))
    {
      hide HashOf, NoDup;
    }

    /** `globset_add`: a dictionary of maximal size cannot grow, and nothing is added. */
    method Add(pattern: string, callback: int, closure: int) returns (rc: int)
      requires Valid()
      modifies this
      ensures Valid()
      ensures var p := Lower(pattern);
              && rc in {0, X_EEXIST, -1}
              && (rc == X_EEXIST ==> p in old(content))
              && (rc == 0 ==> p !in old(content) && content == old(content)[p := Entry(p, HashOf(p), callback, closure)])
              && (rc != 0 ==> content == old(content))
              && globs == (if rc == 0 && GLOB in pattern then old(globs) + [content[p]] else old(globs))
              && (rc == -1 ==> GLOB !in pattern && old(gmask) >= 0x7FFF_FFFF)
      ensures rc == X_EEXIST ==> exists q :: q in old(content) && SameText(q, pattern)
      ensures rc == 0 ==> forall q | q in old(content) :: !SameText(q, pattern)
    {
      hide HashOf, Table, List, PowerOfTwo, Exact, SameText, Normal, Lower;
      SameNormal(content, pattern);
      var pat, hash := NormHash(pattern);
      if hash != 0 {
        rc := Grow();
        if rc != 0 { return -1; }
      }
      var k := Search(pat, hash);
      if k < |ChainOf(hash)| { return X_EEXIST; }
      var ph := Entry(pat, hash, callback, closure);
      AddContent(exacts, globs, content, ph);
      content := content[pat := ph];
      if hash != 0 {
        var b := hash % (gmask + 1);
        exacts := exacts[b := exacts[b] + [ph]];
        count := count + 1;
      } else {
        globs := globs + [ph];
      }
      rc := 0;
    }

    /** `globset_del` */
    method Del(pattern: string) returns (rc: int, closure: int)
      requires Valid()
      modifies this
      ensures Valid() && content == old(content) - {Lower(pattern)}
      ensures rc == if Lower(pattern) in old(content) then 0 else X_ENOENT
      ensures forall q | q in old(content) :: q in content <==> !SameText(q, pattern)
      ensures rc == 0 ==> closure == old(content)[Lower(pattern)].closure
      ensures GLOB !in pattern ==> globs == old(globs)
      ensures GLOB in pattern && rc == 0 ==>
                exists k | 0 <= k < |old(globs)| :: old(globs)[k].pattern == Lower(pattern)
                                                    && globs == old(globs)[..k] + old(globs)[k + 1..]
    {
      hide HashOf, Table, List, PowerOfTwo, Exact, SameText, Normal, Lower;
      SameNormal(content, pattern);
      var pat, hash := NormHash(pattern);
      var k := Search(pat, hash);
      if k == |ChainOf(hash)| {
        assert content - {pat} == content;
        return X_ENOENT, 0;
      }
      closure := ChainOf(hash)[k].closure;
      Unlink(pat, hash, k);
      rc := 0;
    }

    /** The entry k of its chain leaves it. */
    method Unlink(pat: string, hash: nat, k: nat)
      requires Valid() && hash == HashOf(pat) && k < |ChainOf(hash)| && pat in content && ChainOf(hash)[k] == content[pat]
      modifies this
      ensures Valid() && content == old(content) - {pat}
      ensures hash == 0 ==> old(globs)[k].pattern == pat && globs == old(globs)[..k] + old(globs)[k + 1..]
      ensures hash != 0 ==> globs == old(globs)
    {
      hide HashOf, Table, PowerOfTwo, Exact, NoDup;
      ChainIs(pat);
      DelContent(exacts, globs, content, pat, k);
      hide List;
      content := content - {pat};
      if hash != 0 {
        count := count - 1;
        var b := hash % (gmask + 1);
        exacts := exacts[b := exacts[b][..k] + exacts[b][k + 1..]];
      } else {
        globs := globs[..k] + globs[k + 1..];
      }
    }

    /** `globset_search` */
    method Find(pattern: string) returns (r: Option<Entry>)
      requires Valid()
      ensures r == if Lower(pattern) in content then Some(content[Lower(pattern)]) else None
      ensures r.Some? <==> exists q :: q in content && SameText(q, pattern)
      ensures forall q | q in content && SameText(q, pattern) :: r == Some(content[q])
    {
      hide HashOf, Table, List, SameText, Normal, Lower;
      SameNormal(content, pattern);
      var pat, hash := NormHash(pattern);
      var k := Search(pat, hash);
      r := if k < |ChainOf(hash)| then Some(ChainOf(hash)[k]) else None;
    }

    /** `globset_match`: the exact entry, else the first of the entries with stars that say most. */
    method Match(text: string) returns (r: Option<Entry>)
      requires Valid()
      ensures var t := Lower(text);
              if GLOB !in text && t in content then r == Some(content[t])
              else if r.None? then forall e | e in globs :: Score(e.pattern, t) == 0
              else exists k :: IsBest(globs, t, k) && r.value == globs[k]
    {
      hide HashOf, Table, List;
      var txt, hash := NormHash(text);
      r := None;
      if hash != 0 && exacts != [] {
        var k := Search(txt, hash);
        if k < |ChainOf(hash)| { r := Some(ChainOf(hash)[k]); }
      }
      if hash != 0 && exacts == [] { ChainIs(txt); }
      if r.None? {
        var s, i := 0, 0;
        ghost var best := 0;
        while i < |globs|
          invariant 0 <= i <= |globs|
          invariant forall j | 0 <= j < i :: Score(globs[j].pattern, txt) <= s
          invariant s == 0 ==> r.None?
          invariant s > 0 ==> best < i && r == Some(globs[best]) && Score(globs[best].pattern, txt) == s
          invariant s > 0 ==> forall j | 0 <= j < best :: Score(globs[j].pattern, txt) < s
        {
          var g := GlobMatch.Match(globs[i].pattern, txt);
          if g > s {
            s, r, best := g, Some(globs[i]), i;
          }
          i := i + 1;
        }
        if s > 0 { assert IsBest(globs, txt, best); }
      }
    }
  }

  /** With normal patterns, the one that is searched is the one that is the same up to case. */
  lemma SameNormal(content: Content, pattern: string)
    requires forall p | p in content :: Normal(p)
    ensures forall q | q in content :: SameText(q, pattern) <==> q == Lower(pattern)
    ensures Normal(Lower(pattern)) && SameText(Lower(pattern), pattern)
  {
    LowerNormal(pattern);
    forall q | q in content ensures SameText(q, pattern) <==> q == Lower(pattern) {
      LowerNormal(q);
      SameLower(q, pattern);
    }
  }

  ghost predicate IsBest(globs: seq<Entry>, t: string, k: int) {
    && 0 <= k < |globs| && Score(globs[k].pattern, t) > 0
    && (forall j | 0 <= j < |globs| :: Score(globs[j].pattern, t) <= Score(globs[k].pattern, t))
    && (forall j | 0 <= j < k :: Score(globs[j].pattern, t) < Score(globs[k].pattern, t))
  }

  lemma AddContent(t: seq<seq<Entry>>, globs: seq<Entry>, content: Content, e: Entry)
    requires Table(t, content, Exact(content)) && List(globs, content)
    requires e.pattern !in content && e.hash == HashOf(e.pattern) && (e.hash != 0 ==> |t| > 0)
    ensures var c := content[e.pattern := e];
            && List(if e.hash == 0 then globs + [e] else globs, c)
            && Exact(c) == Exact(content) + (if e.hash != 0 then {e.pattern} else {})
            && e.pattern !in Exact(content)
            && (e.hash == 0 ==> Table(t, c, Exact(c)))
            && (e.hash != 0 ==> Table(t[e.hash % |t| := t[e.hash % |t|] + [e]], c, Exact(c)))
  {
    hide HashOf, Table;
    var c := content[e.pattern := e];
    assert Exact(c) == Exact(content) + (if e.hash != 0 then {e.pattern} else {});
    TableContent(t, content, Exact(content), e);
    if e.hash != 0 {
      TableMore(t, c, Exact(content), e, t[e.hash % |t|] + [e]);
    } else {
      assert Exact(c) == Exact(content);
      NoDupMore(globs, e, globs + [e]);
    }
  }

  lemma DelContent(t: seq<seq<Entry>>, globs: seq<Entry>, content: Content, p: string, k: nat)
    requires Table(t, content, Exact(content)) && List(globs, content) && p in content
    requires HashOf(p) == 0 ==> k < |globs| && globs[k] == content[p]
    requires HashOf(p) != 0 ==> |t| > 0 && k < |t[HashOf(p) % |t|]| && t[HashOf(p) % |t|][k] == content[p]
    ensures var c := content - {p};
            && Exact(c) == Exact(content) - (if HashOf(p) != 0 then {p} else {})
            && (HashOf(p) != 0 ==> p in Exact(content))
            && List(if HashOf(p) == 0 then globs[..k] + globs[k + 1..] else globs, c)
            && (HashOf(p) == 0 ==> Table(t, c, Exact(c)))
            && (HashOf(p) != 0 ==>
                  var b := HashOf(p) % |t|;
                  Table(t[b := t[b][..k] + t[b][k + 1..]], c, Exact(c)))
  {
    hide HashOf, NoDup, Table, List;
    var c := content - {p};
    ExactLess(content, p);
    if HashOf(p) == 0 {
      TableOther(t, content, p);
      ListLess(globs, content, p, k);
    } else {
      ListOther(globs, content, p);
      assert t[HashOf(p) % |t|][k].pattern == p by { FullAt(t, content, p); }
      TableLess(t, content, Exact(content), HashOf(p) % |t|, k);
    }
  }

  lemma FullAt(t: seq<seq<Entry>>, content: Content, p: string)
    requires Table(t, content, Exact(content)) && p in content && HashOf(p) != 0
    ensures content[p].pattern == p
  {
    hide HashOf;
    assert p in Exact(content);
  }

  lemma ExactLess(content: Content, p: string)
    requires p in content
    ensures Exact(content - {p}) == Exact(content) - (if HashOf(p) != 0 then {p} else {})
    ensures HashOf(p) != 0 <==> p in Exact(content)
  {
    hide HashOf;
  }

  lemma TableOther(t: seq<seq<Entry>>, content: Content, p: string)
    requires Table(t, content, Exact(content)) && p in content && HashOf(p) == 0
    ensures Table(t, content - {p}, Exact(content - {p}))
  {
    hide HashOf, NoDup;
    ExactLess(content, p);
    assert Exact(content - {p}) == Exact(content);
  }

  lemma ListOther(globs: seq<Entry>, content: Content, p: string)
    requires List(globs, content) && p in content && HashOf(p) != 0
    ensures List(globs, content - {p})
  {
    hide HashOf, NoDup;
  }

  lemma ListLess(globs: seq<Entry>, content: Content, p: string, k: nat)
    requires List(globs, content) && p in content && HashOf(p) == 0 && k < |globs| && globs[k] == content[p]
    ensures List(globs[..k] + globs[k + 1..], content - {p})
  {
    hide HashOf;
    ShorterChain(globs, k);
    hide NoDup;
  }

  ghost function Patterns(chain: seq<Entry>): set<string> {
    set e | e in chain :: e.pattern
  }

  lemma PatternsNext(chain: seq<Entry>, k: nat)
    requires k < |chain|
    ensures Patterns(chain[..k + 1]) == Patterns(chain[..k]) + {chain[k].pattern}
  {
    assert chain[..k + 1] == chain[..k] + [chain[k]];
    var a, b := Patterns(chain[..k + 1]), Patterns(chain[..k]) + {chain[k].pattern};
    forall p | p in a ensures p in b {
      var e :| e in chain[..k + 1] && e.pattern == p;
      if e != chain[k] { assert e in chain[..k]; }
    }
    forall p | p in b ensures p in a {
      if p != chain[k].pattern {
        var e :| e in chain[..k] && e.pattern == p;
        assert e in chain[..k + 1];
      } else {
        assert chain[k] in chain[..k + 1];
      }
    }
  }

  /** An entry of chain i is known, and its pattern is neither in a former chain nor before in this one. */
  lemma ChainEntry(t: seq<seq<Entry>>, content: Content, done: set<string>, i: nat, k: nat)
    requires Table(t, content, done) && i < |t| && k < |t[i]|
    ensures var e := t[i][k];
            Known(content, e) && e.hash != 0
            && e.pattern !in Below(done, |t|, i) + Patterns(t[i][..k])
  {
    hide HashOf;
    var e := t[i][k];
    assert e in t[i];
    assert NoDup(t[i]);
  }

  lemma BelowNext(t: seq<seq<Entry>>, content: Content, done: set<string>, i: nat)
    requires Table(t, content, done) && i < |t|
    ensures Below(done, |t|, i + 1) == Below(done, |t|, i) + Patterns(t[i])
  {
    hide HashOf, NoDup;
    var a, b := Below(done, |t|, i + 1), Below(done, |t|, i) + Patterns(t[i]);
    forall p | p in a ensures p in b {
      if p !in Below(done, |t|, i) {
        assert content[p] in t[i] && content[p].pattern == p;
      }
    }
    forall p | p in b ensures p in a {
      if p in Patterns(t[i]) {
        var e :| e in t[i] && e.pattern == p;
        assert Known(content, e);
      }
    }
  }

  lemma AllBelow(t: seq<seq<Entry>>, content: Content, done: set<string>)
    requires Table(t, content, done)
    ensures Below(done, |t|, |t|) == done
  {
    hide HashOf;
    forall p | p in done ensures p in Below(done, |t|, |t|) {}
  }

  /** The patterns whose chain is before the i-th of n. */
  ghost function Below(ps: set<string>, n: nat, i: nat): set<string> {
    set p | p in ps && n > 0 && HashOf(p) % n < i
  }

  lemma NoneBelow(ps: set<string>, n: nat)
    ensures Below(ps, n, 0) == {}
  {
  }

  lemma EmptyTable(n: nat, content: Content)
    ensures Table(seq(n, i => []), content, {})
  {
  }
}
