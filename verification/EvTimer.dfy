/**
 Timers of the event manager: the choice of the instant to wake up, the arming of the one
 system timer, and the dispatch of what is due.

 Instants are in milliseconds on 64 bits.
 */
module EvTimer {
  import opened Bytes
  import opened Wrappers

  const TIME_MS_MAX: nat := TWO64 - 1

  /** Instants of timers stay below the half of the 64-bit clock, and the clock below the quarter. */
  const FAR: nat := 0x8000_0000_0000_0000
  const CLOCK_END: nat := 0x4000_0000_0000_0000

  datatype Timer = Timer(id: nat, next_ms: nat, accuracy_ms: nat, period_ms: nat, decount: nat,
                         is_active: bool, is_deleted: bool, auto_unref: bool)

  predicate Sound(t: Timer) {
    && 1 <= t.period_ms < 0x1_0000_0000 && 1 <= t.accuracy_ms < 0x1_0000_0000 && t.decount < 0x1_0000_0000
    && (t.is_active ==> 0 < t.next_ms && t.next_ms + t.accuracy_ms < FAR && !t.is_deleted)
  }

  lemma Periodic(t: Timer)
    requires Sound(t)
    ensures t.period_ms > 0
  {
  }

  predicate AllSound(ts: seq<Timer>) {
    forall i | 0 <= i < |ts| :: Sound(ts[i])
  }

  // ----- creation -----

  function Default(x: nat, otherwise: nat): nat {
    if x == 0 then otherwise else x
  }

  /** The timer that `ev_mgr_add_timer` makes, with its arithmetic on 64 bits. */
  function Created(id: nat, now: nat, start_sec: int, start_ms: nat, count: nat, period_ms: nat,
                   accuracy_ms: nat, auto_unref: bool): Timer
  {
    Timer(id, (now + start_sec * 1000 + start_ms - accuracy_ms / 2) % TWO64,
          Default(accuracy_ms, 1), Default(period_ms, 1000), count, true, false, auto_unref)
  }

  lemma NoWrap(x: nat)
    requires x < TWO64
    ensures x % TWO64 == x
  {
  }

  /** The window of a new timer holds the instant that was asked for, in its middle. */
  lemma Centred(id: nat, now: nat, start_sec: int, start_ms: nat, count: nat, period_ms: nat, accuracy_ms: nat, u: bool)
    requires period_ms < 0x1_0000_0000 && accuracy_ms < 0x1_0000_0000 && count < 0x1_0000_0000
    requires accuracy_ms / 2 < now + start_sec * 1000 + start_ms < CLOCK_END
    ensures var t := Created(id, now, start_sec, start_ms, count, period_ms, accuracy_ms, u);
            var wanted := now + start_sec * 1000 + start_ms;
            && Sound(t) && t.next_ms <= wanted <= t.next_ms + t.accuracy_ms
            && 0 <= (t.next_ms + t.accuracy_ms - wanted) - (wanted - t.next_ms) <= 1
            && t.is_active && t.id == id && t.decount == count && t.auto_unref == u
            && t.accuracy_ms == (if accuracy_ms > 0 then accuracy_ms else 1)
            && t.period_ms == (if period_ms > 0 then period_ms else 1000)
  {
    NoWrap(now + start_sec * 1000 + start_ms - accuracy_ms / 2);
  }

  // ----- the instant to wake up -----

  /** Nobody waits longer than its accuracy allows, and somebody is due. */
  ghost predicate Serves(ts: seq<Timer>, upper: nat, when: nat) {
    && 0 < when <= upper
    && (forall i | 0 <= i < |ts| && ts[i].is_active :: when <= ts[i].next_ms + ts[i].accuracy_ms)
    && exists i | 0 <= i < |ts| :: ts[i].is_active && ts[i].next_ms <= when
  }

  /** No timer asks to wake up before the limit. */
  ghost predicate Nobody(ts: seq<Timer>, upper: nat) {
    forall i | 0 <= i < |ts| && ts[i].is_active :: upper < ts[i].next_ms
  }

  lemma Middle(lower: nat, upper: nat)
    requires 0 < lower <= upper < FAR
    ensures lower <= (lower + upper) % TWO64 / 2 <= upper
  {
    NoWrap(lower + upper);
  }

  /** The window left by the timers: each cuts it, or replaces it when it ends before it. */
  function Window(ts: seq<Timer>, limit: nat): (nat, nat) {
    if ts == [] then (0, limit)
    else
      var t := ts[|ts| - 1];
      Cut(t, Window(ts[..|ts| - 1], limit))
  }

  function Cut(t: Timer, window: (nat, nat)): (nat, nat) {
    var (lower, upper) := window;
    var up := (t.next_ms + t.accuracy_ms) % TWO64;
    if !t.is_active || upper < t.next_ms then (lower, upper)
    else if up <= lower then (t.next_ms, up)
    else (if lower < t.next_ms then t.next_ms else lower, if up < upper then up else upper)
  }

  lemma WindowNext(ts: seq<Timer>, i: nat, limit: nat)
    requires i < |ts|
    ensures Window(ts[..i + 1], limit) == Cut(ts[i], Window(ts[..i], limit))
  {
    assert ts[..i + 1][..i] == ts[..i];
  }

  /** The instant given to the system timer, 0 for none. */
  function Instant(ts: seq<Timer>, limit: nat): nat {
    var (lower, upper) := Window(ts, limit);
    if lower != 0 then (lower + upper) % TWO64 / 2 else 0
  }

  /** What the window means: no timer wants less than its end, and its start is wanted by one. */
  lemma {:induction false} WindowFits(ts: seq<Timer>, limit: nat)
    requires AllSound(ts)
    ensures var (lower, upper) := Window(ts, limit);
            && lower <= upper <= limit
            && (forall j | 0 <= j < |ts| && ts[j].is_active :: upper <= ts[j].next_ms + ts[j].accuracy_ms)
            && (lower > 0 ==> upper < FAR && exists j | 0 <= j < |ts| :: ts[j].is_active && ts[j].next_ms == lower)
            && (lower == 0 ==> upper == limit && Nobody(ts, limit))
  {
    if ts != [] {
      var n := |ts| - 1;
      WindowFits(ts[..n], limit);
      assert Sound(ts[n]);
      if ts[n].is_active { NoWrap(ts[n].next_ms + ts[n].accuracy_ms); }
      var (lower, upper) := Window(ts[..n], limit);
      assert Window(ts, limit) == Cut(ts[n], (lower, upper));
      hide Window;
      if lower > 0 {
        var j :| 0 <= j < n && ts[..n][j].is_active && ts[..n][j].next_ms == lower;
        assert ts[j].is_active && ts[j].next_ms == lower;
      }
      forall j | 0 <= j < n && ts[j].is_active
        ensures upper <= ts[j].next_ms + ts[j].accuracy_ms && (lower == 0 ==> limit < ts[j].next_ms)
      {
        assert ts[..n][j] == ts[j];
      }
    }
  }

  /** The chosen instant serves every timer, and there is none only if nobody wants to wake up. */
  lemma InstantServes(ts: seq<Timer>, limit: nat)
    requires AllSound(ts)
    ensures if Instant(ts, limit) == 0 then Nobody(ts, limit) else Serves(ts, limit, Instant(ts, limit))
  {
    WindowFits(ts, limit);
    var (lower, upper) := Window(ts, limit);
    if lower > 0 { Middle(lower, upper); }
  }

  /** Every active timer can be served at any instant of the window. */
  ghost predicate Suits(ts: seq<Timer>, lower: nat, upper: nat) {
    forall i | 0 <= i < |ts| && ts[i].is_active :: ts[i].next_ms <= lower && upper <= ts[i].next_ms + ts[i].accuracy_ms
  }

  ghost predicate Starts(ts: seq<Timer>, lower: nat) {
    exists i | 0 <= i < |ts| :: ts[i].is_active && ts[i].next_ms == lower
  }

  ghost predicate Ends(ts: seq<Timer>, upper: nat) {
    exists i | 0 <= i < |ts| :: ts[i].is_active && ts[i].next_ms + ts[i].accuracy_ms == upper
  }

  /** All that suits the timers: from the last start to the first end, or to the limit. */
  ghost predicate Bounds(ts: seq<Timer>, limit: nat, lower: nat, upper: nat) {
    Suits(ts, lower, upper) && Starts(ts, lower) && (upper == limit || Ends(ts, upper)) && lower < upper <= limit
  }

  lemma {:induction false} WindowBounds(ts: seq<Timer>, limit: nat, low: nat, high: nat)
    requires AllSound(ts) && low < high <= limit && Suits(ts, low, high)
    ensures var (lower, upper) := Window(ts, limit);
            && Suits(ts, lower, upper) && (lower == 0 || Starts(ts, lower)) && (upper == limit || Ends(ts, upper))
            && lower <= low && high <= upper <= limit
  {
    if ts != [] {
      var n := |ts| - 1;
      var front, t := ts[..n], ts[n];
      assert AllSound(front) && Sound(t);
      SuitsFront(ts, low, high);
      if t.is_active { NoWrap(t.next_ms + t.accuracy_ms); }
      hide Suits, Starts, Ends, AllSound;
      WindowBounds(front, limit, low, high);
      var (lower, upper) := Window(front, limit);
      assert Window(ts, limit) == Cut(t, (lower, upper));
      hide Window, Sound;
      var next := Cut(t, (lower, upper));
      SuitsNext(ts, lower, upper, next.0, next.1);
      StartsNext(ts, lower);
      StartsNext(ts, next.0);
      EndsNext(ts, upper);
      EndsNext(ts, next.1);
    }
  }

  lemma SuitsFront(ts: seq<Timer>, low: nat, high: nat)
    requires ts != [] && Suits(ts, low, high)
    ensures Suits(ts[..|ts| - 1], low, high)
    ensures var t := ts[|ts| - 1]; t.is_active ==> t.next_ms <= low && high <= t.next_ms + t.accuracy_ms
  {
  }

  lemma SuitsNext(ts: seq<Timer>, lower: nat, upper: nat, low: nat, high: nat)
    requires ts != [] && Suits(ts[..|ts| - 1], lower, upper) && lower <= low && high <= upper
    requires var t := ts[|ts| - 1]; t.is_active ==> t.next_ms <= low && high <= t.next_ms + t.accuracy_ms
    ensures Suits(ts, low, high)
  {
    forall i | 0 <= i < |ts| && ts[i].is_active ensures ts[i].next_ms <= low && high <= ts[i].next_ms + ts[i].accuracy_ms {
      if i < |ts| - 1 { assert ts[..|ts| - 1][i] == ts[i]; }
    }
  }

  lemma StartsNext(ts: seq<Timer>, lower: nat)
    requires ts != []
    ensures Starts(ts[..|ts| - 1], lower) || (ts[|ts| - 1].is_active && ts[|ts| - 1].next_ms == lower) ==> Starts(ts, lower)
  {
  }

  lemma EndsNext(ts: seq<Timer>, upper: nat)
    requires ts != []
    ensures var t := ts[|ts| - 1];
            Ends(ts[..|ts| - 1], upper) || (t.is_active && t.next_ms + t.accuracy_ms == upper) ==> Ends(ts, upper)
  {
  }

  /** When one instant suits all the timers, the one chosen is in the middle of all that suit them. */
  lemma InstantMiddle(ts: seq<Timer>, limit: nat, lower: nat, upper: nat)
    requires AllSound(ts) && Bounds(ts, limit, lower, upper) && upper < FAR
    ensures Instant(ts, limit) == (lower + upper) / 2
  {
    WindowBounds(ts, limit, lower, upper);
    var i :| 0 <= i < |ts| && ts[i].is_active && ts[i].next_ms == lower;
    assert Sound(ts[i]);
    hide Window;
    NoWrap(lower + upper);
  }

  /** The loop of `timer_set`. */
  method NextInstant(timers: seq<Timer>, limit: nat) returns (when: nat)
    requires AllSound(timers) && limit <= TIME_MS_MAX
    ensures when == Instant(timers, limit)
    ensures if when == 0 then Nobody(timers, limit) else Serves(timers, limit, when)
  {
    var lower: nat, upper: nat := 0, limit;
    var i := 0;
    while i < |timers|
      invariant 0 <= i <= |timers| && (lower, upper) == Window(timers[..i], limit)
    {
      WindowNext(timers, i, limit);
      hide Window;
      var t := timers[i];
      if t.is_active {
        var lo := t.next_ms;
        if lo <= upper {
          var up := (lo + t.accuracy_ms) % TWO64;
          if up <= lower {
            lower, upper := lo, up;
          } else {
            if lower < lo { lower := lo; }
            if up < upper { upper := up; }
          }
        }
      }
      i := i + 1;
    }
    assert timers[..i] == timers;
    InstantServes(timers, limit);
    when := if lower != 0 then (lower + upper) % TWO64 / 2 else 0;
  }

  // ----- one timer when it is due -----

  predicate Due(t: Timer, now: nat) {
    t.is_active && t.next_ms <= now
  }

  function Occurrence(next: nat, period: nat, k: nat): nat {
    next + k * period
  }

  /** The first occurrence of the timer after now. */
  function Later(next: nat, period: nat, now: nat): nat
    requires period > 0 && next <= now
  {
    Occurrence(next, period, (now - next) / period + 1)
  }

  lemma Quotient(x: nat, m: nat)
    requires m > 0
    ensures x / m * m <= x < (x / m + 1) * m <= x + m
  {
    assert x == x / m * m + x % m;
    assert (x / m + 1) * m == x / m * m + m;
  }

  /** It keeps the phase, is after now, and no occurrence after now comes before it. */
  lemma LaterIsNext(next: nat, period: nat, now: nat)
    requires period > 0 && next <= now
    ensures now < Later(next, period, now) <= now + period
    ensures exists k: nat :: k > 0 && Later(next, period, now) == Occurrence(next, period, k)
    ensures forall k: nat | now < Occurrence(next, period, k) :: Later(next, period, now) <= Occurrence(next, period, k)
  {
    var q := (now - next) / period;
    Quotient(now - next, period);
    forall k: nat | now < Occurrence(next, period, k)
      ensures Later(next, period, now) <= Occurrence(next, period, k)
    {
      if k <= q { Scaled(k, q, period); } else { Scaled(q + 1, k, period); }
    }
  }

  /** The `do ... while` that skips the missed occurrences. */
  method Advance(next: nat, period: nat, now: nat) returns (r: nat)
    requires period > 0 && next <= now
    ensures r == Later(next, period, now)
  {
    LaterIsNext(next, period, now);
    ghost var last := (now - next) / period + 1;
    ghost var k := 1;
    r := next + period;
    Scaled(1, last, period);
    while r <= now
      invariant 1 <= k <= last && r == Occurrence(next, period, k)
      decreases now + period - r
    {
      r := r + period;
      assert k * period + period == (k + 1) * period;
      k := k + 1;
    }
    Scaled(k, last, period);
  }

  /** A due timer once its handler has returned. */
  function After(t: Timer, now: nat): Timer
    requires Due(t, now) && t.period_ms > 0
  {
    var next := Later(t.next_ms, t.period_ms, now);
    if t.decount == 0 then t.(next_ms := next)
    else if t.decount > 1 then t.(next_ms := next, decount := t.decount - 1)
    else if t.auto_unref then t.(next_ms := next, decount := 0, is_active := false, is_deleted := true)
    else t.(next_ms := TIME_MS_MAX, decount := 0, is_active := false)
  }

  /** What one pass makes of a timer. */
  function Passed(t: Timer, now: nat): Timer
    requires t.period_ms > 0
  {
    if Due(t, now) then After(t, now) else t
  }

  lemma PassedSound(t: Timer, now: nat)
    requires Sound(t) && now < CLOCK_END
    ensures Sound(Passed(t, now))
    ensures Passed(t, now).is_active ==> now < Passed(t, now).next_ms
    ensures Passed(t, now).id == t.id
  {
    if Due(t, now) {
      LaterIsNext(t.next_ms, t.period_ms, now);
    }
  }

  /** The argument of the handler: a 32-bit count seen as a signed integer. */
  function AsInt(n: nat): int {
    if n < 0x8000_0000 then n else n - 0x1_0000_0000
  }

  // ----- one pass over the list -----

  datatype Call = Call(id: nat, count: int)

  function CallOf(t: Timer, now: nat): seq<Call> {
    if Due(t, now) then [Call(t.id, AsInt(t.decount))] else []
  }

  function Calls(ts: seq<Timer>, now: nat): seq<Call> {
    if ts == [] then []
    else
      var t := ts[|ts| - 1];
      Calls(ts[..|ts| - 1], now) + CallOf(t, now)
  }

  function Dispatched(ts: seq<Timer>, now: nat): seq<Timer>
    requires AllSound(ts)
  {
    if ts == [] then []
    else
      var t := Passed(ts[|ts| - 1], now);
      Dispatched(ts[..|ts| - 1], now) + if t.is_deleted then [] else [t]
  }

  lemma {:induction false} DispatchedSound(ts: seq<Timer>, now: nat)
    requires AllSound(ts) && now < CLOCK_END
    ensures AllSound(Dispatched(ts, now))
    ensures Nobody(Dispatched(ts, now), now)
  {
    if ts != [] {
      DispatchedSound(ts[..|ts| - 1], now);
      PassedSound(ts[|ts| - 1], now);
    }
  }

  /** One more timer seen by the pass. */
  lemma OneMore(seen: seq<Timer>, t: Timer, now: nat)
    requires AllSound(seen) && Sound(t)
    ensures AllSound(seen + [t])
    ensures Dispatched(seen + [t], now) ==
              Dispatched(seen, now) + if Passed(t, now).is_deleted then [] else [Passed(t, now)]
    ensures Calls(seen + [t], now) ==
              Calls(seen, now) + CallOf(t, now)
  {
    assert (seen + [t])[..|seen|] == seen;
  }

  /** The pass on the first of the timers not seen yet. */
  lemma Passing(was: seq<Timer>, seen: seq<Timer>, rest: seq<Timer>, now: nat)
    requires AllSound(was) && AllSound(seen) && was == seen + rest && rest != []
    ensures var t, next := rest[0], seen + [rest[0]];
            && t.period_ms > 0 && was == next + rest[1..] && AllSound(next)
            && Dispatched(next, now) == Dispatched(seen, now) + (if Passed(t, now).is_deleted then [] else [Passed(t, now)])
            && Calls(next, now) == Calls(seen, now) + CallOf(t, now)
  {
    hide Dispatched, Calls, Passed, CallOf, Sound;
    assert rest[0] == was[|seen|];
    Periodic(rest[0]);
    OneMore(seen, rest[0], now);
  }

  // ----- what one timer receives over a whole run -----

  predicate Distinct(ts: seq<Timer>) {
    forall i, j | 0 <= i < j < |ts| :: ts[i].id != ts[j].id
  }

  /** The calls made to one timer. */
  function Of(calls: seq<Call>, id: nat): seq<int> {
    if calls == [] then []
    else
      var c := calls[|calls| - 1];
      Of(calls[..|calls| - 1], id) + if c.id == id then [c.count] else []
  }

  lemma {:induction false} OfAppend(a: seq<Call>, b: seq<Call>, id: nat)
    ensures Of(a + b, id) == Of(a, id) + Of(b, id)
  {
    if b == [] {
      assert a + b == a;
    } else {
      assert (a + b)[..|a + b| - 1] == a + b[..|b| - 1];
      OfAppend(a, b[..|b| - 1], id);
    }
  }

  lemma OfOne(t: Timer, now: nat, id: nat)
    ensures Of(CallOf(t, now), id) == if t.id == id then (if Due(t, now) then [AsInt(t.decount)] else []) else []
  {
    assert CallOf(t, now) != [] ==> CallOf(t, now)[..|CallOf(t, now)| - 1] == [];
  }

  predicate Absent(ts: seq<Timer>, id: nat) {
    forall i | 0 <= i < |ts| :: ts[i].id != id
  }

  lemma {:induction false} AbsentStays(ts: seq<Timer>, now: nat, id: nat)
    requires AllSound(ts) && now < CLOCK_END && Absent(ts, id)
    ensures Absent(Dispatched(ts, now), id) && Of(Calls(ts, now), id) == []
  {
    if ts != [] {
      var t := ts[|ts| - 1];
      AbsentStays(ts[..|ts| - 1], now, id);
      PassedSound(t, now);
      OfAppend(Calls(ts[..|ts| - 1], now), CallOf(t, now), id);
      OfOne(t, now, id);
    }
  }

  /** In one pass, each timer is called once if it is due and not at all otherwise. */
  lemma {:induction false} CalledOnce(ts: seq<Timer>, now: nat, k: nat)
    requires AllSound(ts) && now < CLOCK_END && Distinct(ts) && k < |ts|
    ensures Of(Calls(ts, now), ts[k].id) == if Due(ts[k], now) then [AsInt(ts[k].decount)] else []
  {
    hide Of, CallOf, Passed, Due, Sound;
    var n := |ts| - 1;
    var t, id := ts[n], ts[k].id;
    OfAppend(Calls(ts[..n], now), CallOf(t, now), id);
    OfOne(t, now, id);
    if k == n {
      AbsentStays(ts[..n], now, id);
    } else {
      CalledOnce(ts[..n], now, k);
      assert t.id != id && ts[..n][k] == ts[k];
    }
  }

  /** After the pass, the timer is still there, as the pass made it, unless it was deleted. */
  lemma {:induction false} Stays(ts: seq<Timer>, now: nat, k: nat)
    requires AllSound(ts) && now < CLOCK_END && Distinct(ts) && k < |ts|
    ensures var u := Passed(ts[k], now);
            if u.is_deleted then Absent(Dispatched(ts, now), ts[k].id) else u in Dispatched(ts, now)
  {
    hide Passed, Due, Sound;
    var n := |ts| - 1;
    Periodic(ts[k]);
    PassedSound(ts[n], now);
    if k == n {
      AbsentStays(ts[..n], now, ts[k].id);
    } else {
      Stays(ts[..n], now, k);
      assert ts[n].id != ts[k].id && ts[..n][k] == ts[k];
    }
  }

  lemma {:induction false} DistinctStays(ts: seq<Timer>, now: nat)
    requires AllSound(ts) && now < CLOCK_END && Distinct(ts)
    ensures Distinct(Dispatched(ts, now))
  {
    if ts != [] {
      var n := |ts| - 1;
      Periodic(ts[n]);
      PassedSound(ts[n], now);
      assert Distinct(ts[..n]) && AllSound(ts[..n]);
      AbsentFront(ts);
      var kept, t := Dispatched(ts[..n], now), Passed(ts[n], now);
      assert Dispatched(ts, now) == kept + if t.is_deleted then [] else [t];
      hide Dispatched, Passed, Sound, AllSound, Calls, Of, Distinct, Absent;
      DistinctStays(ts[..n], now);
      AbsentStays(ts[..n], now, ts[n].id);
      if t.is_deleted { assert kept + [] == kept; } else { DistinctMore(kept, t); }
    }
  }

  lemma AbsentFront(ts: seq<Timer>)
    requires ts != [] && Distinct(ts)
    ensures Absent(ts[..|ts| - 1], ts[|ts| - 1].id)
  {
  }

  lemma DistinctMore(ts: seq<Timer>, t: Timer)
    requires Distinct(ts) && Absent(ts, t.id)
    ensures Distinct(ts + [t])
  {
  }

  /** Instants of successive passes. */
  predicate Instants(nows: seq<nat>) {
    forall i | 0 <= i < |nows| :: nows[i] < CLOCK_END
  }

  /** All the calls of a run of passes. */
  function Log(ts: seq<Timer>, nows: seq<nat>): seq<Call>
    requires AllSound(ts) && Instants(nows)
    decreases |nows|
  {
    if nows == [] then []
    else
      DispatchedSound(ts, nows[0]);
      Calls(ts, nows[0]) + Log(Dispatched(ts, nows[0]), nows[1..])
  }

  /** The same for a timer that would be alone. */
  function Fires(t: Timer, nows: seq<nat>): seq<int>
    requires Sound(t) && Instants(nows)
    decreases |nows|
  {
    if nows == [] || t.is_deleted then []
    else
      PassedSound(t, nows[0]);
      (if Due(t, nows[0]) then [AsInt(t.decount)] else []) + Fires(Passed(t, nows[0]), nows[1..])
  }

  lemma {:induction false} AbsentSilent(ts: seq<Timer>, nows: seq<nat>, id: nat)
    requires AllSound(ts) && Instants(nows) && Absent(ts, id)
    ensures Of(Log(ts, nows), id) == []
    decreases |nows|
  {
    if nows != [] {
      DispatchedSound(ts, nows[0]);
      AbsentStays(ts, nows[0], id);
      AbsentSilent(Dispatched(ts, nows[0]), nows[1..], id);
      OfAppend(Calls(ts, nows[0]), Log(Dispatched(ts, nows[0]), nows[1..]), id);
    }
  }

  lemma LogNext(ts: seq<Timer>, nows: seq<nat>, id: nat)
    requires AllSound(ts) && Instants(nows) && nows != []
    ensures nows[0] < CLOCK_END && Instants(nows[1..]) && AllSound(Dispatched(ts, nows[0]))
    ensures Of(Log(ts, nows), id) == Of(Calls(ts, nows[0]), id) + Of(Log(Dispatched(ts, nows[0]), nows[1..]), id)
  {
    hide Of, Calls, Dispatched;
    DispatchedSound(ts, nows[0]);
    OfAppend(Calls(ts, nows[0]), Log(Dispatched(ts, nows[0]), nows[1..]), id);
  }

  /** Over any run, what a timer of the list receives does not depend on the others. */
  lemma {:induction false} Independent(ts: seq<Timer>, nows: seq<nat>, k: nat)
    requires AllSound(ts) && Instants(nows) && Distinct(ts) && k < |ts| && !ts[k].is_deleted
    ensures Of(Log(ts, nows), ts[k].id) == Fires(ts[k], nows)
    decreases |nows|
  {
    if nows != [] {
      var now, id := nows[0], ts[k].id;
      var next, u := Dispatched(ts, now), Passed(ts[k], now);
      LogNext(ts, nows, id);
      PassedSound(ts[k], now);
      assert Fires(ts[k], nows) == (if Due(ts[k], now) then [AsInt(ts[k].decount)] else []) + Fires(u, nows[1..]);
      assert u.is_deleted ==> Fires(u, nows[1..]) == [];
      hide Passed, Due, Distinct, Sound, Dispatched, Calls, Of, Log, Fires;
      DistinctStays(ts, now);
      CalledOnce(ts, now, k);
      Stays(ts, now, k);
      if u.is_deleted {
        hide Absent;
        AbsentSilent(next, nows[1..], id);
      } else {
        hide Absent;
        var j :| 0 <= j < |next| && next[j] == u;
        Independent(next, nows[1..], j);
      }
    }
  }

  /** A timer made with a count fires at most that many times, counting down to 1; with none, it sees 0. */
  lemma {:induction false} CountDown(t: Timer, nows: seq<nat>)
    requires Sound(t) && Instants(nows)
    ensures t.decount > 0 ==> |Fires(t, nows)| <= t.decount
    ensures forall i | 0 <= i < |Fires(t, nows)| ::
              Fires(t, nows)[i] == if t.decount > 0 then AsInt(t.decount - i) else 0
    ensures !t.is_active ==> Fires(t, nows) == []
    decreases |nows|
  {
    if nows != [] && !t.is_deleted {
      PassedSound(t, nows[0]);
      CountDown(Passed(t, nows[0]), nows[1..]);
    }
  }

  /** The list that a run of passes leaves. */
  function Ran(ts: seq<Timer>, nows: seq<nat>): (r: seq<Timer>)
    requires AllSound(ts) && Instants(nows)
    ensures AllSound(r)
    decreases |nows|
  {
    if nows == [] then ts
    else
      DispatchedSound(ts, nows[0]);
      Ran(Dispatched(ts, nows[0]), nows[1..])
  }

  /** A timer of that identity is in the list, active or not. */
  ghost predicate Listed(ts: seq<Timer>, id: nat, active: bool) {
    exists j | 0 <= j < |ts| :: ts[j].id == id && ts[j].is_active == active
  }

  lemma {:induction false} AbsentRan(ts: seq<Timer>, nows: seq<nat>, id: nat)
    requires AllSound(ts) && Instants(nows) && Absent(ts, id)
    ensures Absent(Ran(ts, nows), id)
    decreases |nows|
  {
    if nows != [] {
      DispatchedSound(ts, nows[0]);
      AbsentStays(ts, nows[0], id);
      AbsentRan(Dispatched(ts, nows[0]), nows[1..], id);
    }
  }

  lemma {:induction false} IdleRan(ts: seq<Timer>, nows: seq<nat>, k: nat)
    requires AllSound(ts) && Instants(nows) && Distinct(ts) && k < |ts| && !ts[k].is_deleted && !ts[k].is_active
    ensures Listed(Ran(ts, nows), ts[k].id, false)
    decreases |nows|
  {
    if nows != [] {
      var now := nows[0];
      var next := Dispatched(ts, now);
      DispatchedSound(ts, now);
      DistinctStays(ts, now);
      Stays(ts, now, k);
      PassedSound(ts[k], now);
      assert Passed(ts[k], now) == ts[k];
      var j :| 0 <= j < |next| && next[j] == ts[k];
      IdleRan(next, nows[1..], j);
    }
  }

  /**
   What becomes of an active timer over a run: it stays active until its count is over; then it leaves the list
   if it was made to be released, and stays there idle otherwise.
   */
  lemma {:induction false} Fate(ts: seq<Timer>, nows: seq<nat>, k: nat)
    requires AllSound(ts) && Instants(nows) && Distinct(ts) && k < |ts| && ts[k].is_active
    ensures var (t, r) := (ts[k], Ran(ts, nows));
            if t.decount == 0 || |Fires(t, nows)| < t.decount then Listed(r, t.id, true)
            else if t.auto_unref then Absent(r, t.id) else Listed(r, t.id, false)
    decreases |nows|
  {
    if nows == [] {
      assert Listed(ts, ts[k].id, true);
    } else {
      var t, now := ts[k], nows[0];
      var u, next := Passed(t, now), Dispatched(ts, now);
      DispatchedSound(ts, now);
      DistinctStays(ts, now);
      Stays(ts, now, k);
      PassedSound(t, now);
      CountDown(u, nows[1..]);
      FiresNext(t, nows);
      hide Distinct, Dispatched, Fires;
      if u.is_deleted {
        AbsentRan(next, nows[1..], t.id);
      } else {
        var j :| 0 <= j < |next| && next[j] == u;
        if u.is_active {
          Fate(next, nows[1..], j);
        } else {
          IdleRan(next, nows[1..], j);
        }
      }
    }
  }

  lemma FiresNext(t: Timer, nows: seq<nat>)
    requires Sound(t) && t.is_active && Instants(nows) && nows != []
    ensures Sound(Passed(t, nows[0])) && Instants(nows[1..])
    ensures |Fires(t, nows)| == (if Due(t, nows[0]) then 1 else 0) + |Fires(Passed(t, nows[0]), nows[1..])|
  {
    PassedSound(t, nows[0]);
  }

  /** The argument of the handler is the count modulo 2^32, as a signed integer of 32 bits. */
  lemma AsIntIs(n: nat)
    requires n < 0x1_0000_0000
    ensures -0x8000_0000 <= AsInt(n) < 0x8000_0000 && (AsInt(n) - n) % 0x1_0000_0000 == 0
  {
  }

  // ----- the manager -----

  /** Writing or cutting the first element of the second part. */
  lemma Junction<T>(done: seq<T>, rest: seq<T>, x: T)
    requires rest != []
    ensures (done + rest)[|done| := x] == (done + [x]) + rest[1..]
    ensures (done + rest)[..|done|] + (done + rest)[|done| + 1..] == done + rest[1..]
    ensures (done + rest)[|done|] == rest[0]
  {
  }

  /** The system timer: off, or armed at an instant and not yet read. */
  datatype Alarm = Off | At(when: nat)

  datatype State = Idle | Preparing | Ready | Waiting | Pending | Dispatching

  /** Where a polled event comes from. */
  datatype Source = FromTimer | FromFd | FromWakeup

  const ENOTSUP: int := -95
  const EINTR: int := -4

  class Mgr {
    var timers: seq<Timer>
    var last_timer: nat
    var alarm: Alarm
    var state: State
    var event: Option<Source>

    ghost predicate Valid()
      reads this
    {
      && AllSound(timers)
      && (alarm.At? ==> alarm.when == last_timer > 0)
    }

    /** Once the alarm has gone off, every timer wants an instant after the one it was armed for. */
    ghost predicate Fresh()
      reads this
    {
      alarm.At? || Nobody(timers, last_timer)
    }

    constructor ()
      ensures Valid() && Fresh() && timers == [] && last_timer == 0 && alarm == Off && state == Idle
    {
      timers, last_timer, alarm, state, event := [], 0, Off, Idle, None;
    }

    /** Arms the system timer, or turns it off for 0; nothing is done for the instant already asked. */
    method TimerArm(when: nat)
      requires Valid()
      modifies this`last_timer, this`alarm
      ensures Valid() && last_timer == when
      ensures alarm == if when == old(last_timer) then old(alarm) else if when == 0 then Off else At(when)
    {
      if when == last_timer {
        return;
      }
      alarm := if when == 0 then Off else At(when);
      last_timer := when;
    }

    /**
     The shortcut of `TimerArm` loses the wake-up in one case only: the alarm has gone off and the
     new instant is the one it went off for.  That never happens when `Fresh` held.
     */
    method TimerSet(limit: nat)
      requires Valid() && limit <= TIME_MS_MAX
      modifies this`last_timer, this`alarm
      ensures Valid()
      ensures last_timer == Instant(timers, limit)
      ensures if last_timer == 0 then Nobody(timers, limit) && alarm == Off else Serves(timers, limit, last_timer)
      ensures last_timer != 0 ==>
                (alarm == Off <==> old(alarm) == Off && last_timer == old(last_timer))
      ensures alarm.At? ==> alarm.when == last_timer
      ensures old(Fresh()) ==> Fresh() && (last_timer != 0 ==> alarm == At(last_timer))
    {
      var when := NextInstant(timers, limit);
      TimerArm(when);
    }

    /** The fields of a due timer once its handler has returned. */
    static method Fired(timer: Timer, now: nat) returns (t: Timer)
      requires Due(timer, now) && timer.period_ms > 0
      ensures t == After(timer, now)
    {
      var next := Advance(timer.next_ms, timer.period_ms, now);
      t := timer.(next_ms := next);
      if t.decount != 0 {
        t := t.(decount := t.decount - 1);
        if t.decount == 0 {
          t := t.(is_active := false);
          if t.auto_unref {
            t := t.(is_deleted := true);
          } else {
            t := t.(next_ms := TIME_MS_MAX);
          }
        }
      }
    }

    /** One pass of `timer_dispatch` at an instant. */
    method TimerDispatch(now: nat) returns (calls: seq<Call>)
      requires Valid() && now < CLOCK_END
      modifies this`timers
      ensures Valid() && timers == Dispatched(old(timers), now) && calls == Calls(old(timers), now)
      ensures Nobody(timers, now)
    {
      calls := [];
      var i := 0;
      ghost var was, seen, done, rest := timers, [], [], timers;
      DispatchedSound(was, now);
      while i < |timers|
        invariant was == seen + rest && AllSound(seen) && i == |done|
        invariant timers == done + rest
        invariant done == Dispatched(seen, now) && calls == Calls(seen, now)
        decreases |rest|
      {
        hide Dispatched, Calls, After, Sound, AllSound, Nobody, AsInt;
        var t := timers[i];
        Junction(done, rest, t);
        Passing(was, seen, rest, now);
        if t.is_active && t.next_ms <= now {
          calls := calls + [Call(t.id, AsInt(t.decount))];
          t := Fired(t, now);
          Junction(done, rest, t);
        } else {
          assert calls + [] == calls;
        }
        assert t == Passed(rest[0], now);
        hide Passed, CallOf;
        if !t.is_deleted {
          timers := timers[i := t];
          i := i + 1;
          done := done + [t];
        } else {
          timers := timers[..i] + timers[i + 1..];
        }
        seen, rest := seen + [rest[0]], rest[1..];
      }
      assert seen == was;
    }

    /** The event of the system timer: a pass only if it has really gone off when it is read. */
    method TimerEvent(at: nat, now: nat) returns (calls: seq<Call>)
      requires Valid() && at <= now < CLOCK_END
      modifies this`timers, this`alarm
      ensures Valid() && (old(Fresh()) ==> Fresh())
      ensures if old(alarm).At? && old(alarm).when <= at
              then alarm == Off && timers == Dispatched(old(timers), now) && calls == Calls(old(timers), now)
              else alarm == old(alarm) && timers == old(timers) && calls == []
    {
      calls := [];
      if alarm.At? && alarm.when <= at {
        alarm := Off;
        calls := TimerDispatch(now);
        forall i | 0 <= i < |timers| && timers[i].is_active ensures last_timer < timers[i].next_ms { }
      }
    }

    /** Adds a timer at the head of the list.  It leaves `Fresh` when the timer wants an instant to come. */
    method AddTimer(id: nat, now: nat, start_sec: int, start_ms: nat, count: nat, period_ms: nat,
                    accuracy_ms: nat, auto_unref: bool)
      requires Valid() && now < CLOCK_END
      requires Sound(Created(id, now, start_sec, start_ms, count, period_ms, accuracy_ms, auto_unref))
      modifies this`timers, this`last_timer, this`alarm
      ensures Valid()
      ensures timers == [Created(id, now, start_sec, start_ms, count, period_ms, accuracy_ms, auto_unref)] + old(timers)
      ensures last_timer == Instant(timers, TIME_MS_MAX) && Serves(timers, TIME_MS_MAX, last_timer)
      ensures alarm == At(last_timer) <==> !(old(alarm) == Off && last_timer == old(last_timer))
      ensures old(Fresh()) && (old(alarm).At? || old(last_timer) < timers[0].next_ms) ==>
                Fresh() && alarm == At(last_timer)
    {
      var t := Created(id, now, start_sec, start_ms, count, period_ms, accuracy_ms, auto_unref);
      timers := [t] + timers;
      assert timers[0].is_active;
      TimerSet(TIME_MS_MAX);
    }

    // ----- the states of the loop -----

    method Prepare(wakeup_ms: nat) returns (rc: int)
      requires Valid() && wakeup_ms <= TIME_MS_MAX
      modifies this`last_timer, this`alarm, this`state
      ensures Valid() && (old(Fresh()) ==> Fresh())
      ensures rc == 0 <==> old(state) == Idle || old(state) == Ready
      ensures rc != 0 ==> rc == ENOTSUP && state == old(state) && last_timer == old(last_timer) && alarm == old(alarm)
      ensures rc == 0 ==>
                && state == Ready && last_timer == Instant(timers, wakeup_ms)
                && (last_timer != 0 ==> (alarm == Off <==> old(alarm) == Off && last_timer == old(last_timer)))
                && (if last_timer == 0 then Nobody(timers, wakeup_ms) && alarm == Off
                    else Serves(timers, wakeup_ms, last_timer) && (old(Fresh()) ==> alarm == At(last_timer)))
    {
      if state != Idle && state != Ready {
        rc := ENOTSUP;
      } else {
        state := Preparing;
        TimerSet(wakeup_ms);
        rc := 0;
        state := Ready;
      }
    }

    /** Waits; what the poll finds is given. */
    method Wait(found: Option<Source>) returns (rc: int)
      modifies this`state, this`event
      ensures old(state) != Ready ==> rc == ENOTSUP && state == old(state) && event == old(event)
      ensures old(state) == Ready ==>
                match found
                case None => rc == 0 && state == Idle && event == None
                case Some(s) => if s == FromWakeup then rc == EINTR && state == Idle && event == None
                                else rc == 1 && state == Pending && event == found
    {
      if state != Ready {
        rc := ENOTSUP;
      } else {
        state := Waiting;
        if found == None {
          event := None;
          state := Idle;
          rc := 0;
        } else {
          state := Pending;
          event := found;
          rc := 1;
          if event == Some(FromWakeup) {
            event := None;
            state := Idle;
            rc := EINTR;
          }
        }
      }
    }

    /** Dispatches the pending event, once. */
    method Dispatch(at: nat, now: nat) returns (calls: seq<Call>)
      requires Valid() && at <= now < CLOCK_END
      modifies this`timers, this`alarm, this`state
      ensures Valid() && (old(Fresh()) ==> Fresh())
      ensures state == if old(state) == Pending then Idle else old(state)
      ensures if old(state) == Pending && old(event) == Some(FromTimer) && old(alarm).At? && old(alarm).when <= at
              then alarm == Off && timers == Dispatched(old(timers), now) && calls == Calls(old(timers), now)
              else alarm == old(alarm) && timers == old(timers) && calls == []
    {
      calls := [];
      if state == Pending {
        state := Dispatching;
        if event == Some(FromTimer) {
          calls := TimerEvent(at, now);
        }
        state := Idle;
      }
    }

    /** One turn of the loop: prepares, waits, and dispatches what the wait found. */
    method Run(limit: nat, found: Option<Source>, at: nat, now: nat) returns (rc: int, calls: seq<Call>)
      requires Valid() && limit <= TIME_MS_MAX && at <= now < CLOCK_END
      modifies this
      ensures Valid() && (old(Fresh()) ==> Fresh())
      ensures old(state) != Idle && old(state) != Ready ==>
                && rc == ENOTSUP && state == old(state) && calls == []
                && timers == old(timers) && last_timer == old(last_timer) && alarm == old(alarm)
      ensures old(state) == Idle || old(state) == Ready ==>
                && state == Idle && last_timer == Instant(old(timers), limit)
                && rc == (if found == None then 0 else if found == Some(FromWakeup) then EINTR else 1)
      ensures (old(state) == Idle || old(state) == Ready) && old(Fresh()) ==>
                if found == Some(FromTimer) && 0 < last_timer <= at
                then timers == Dispatched(old(timers), now) && calls == Calls(old(timers), now)
                else timers == old(timers) && calls == []
    {
      hide Nobody, Instant, Dispatched, Calls, AllSound, Serves;
      calls := [];
      rc := Prepare(limit);
      if rc >= 0 {
        rc := Wait(found);
        if rc > 0 { calls := Dispatch(at, now); }
      }
    }

    /** Turns of the loop that the alarm ends: no wake-up is lost, and every pass is made. */
    method Turns(turns: seq<Turn>, late: nat) returns (calls: seq<Call>)
      requires Valid() && Fresh() && state == Idle && Punctual(timers, turns, late)
      modifies this
      ensures Valid() && Fresh() && state == Idle
      ensures Instants(Nows(turns)) && calls == Log(old(timers), Nows(turns))
    {
      calls := [];
      PunctualInstants(timers, turns, late);
      var i := 0;
      while i < |turns|
        invariant 0 <= i <= |turns| && Valid() && Fresh() && state == Idle && Punctual(timers, turns[i..], late)
        invariant Instants(Nows(turns)) && Instants(Nows(turns)[i..])
        invariant Log(old(timers), Nows(turns)) == calls + Log(timers, Nows(turns)[i..])
      {
        hide Instant, Instants, AllSound, Fresh, Log, Punctual, Dispatched, Calls;
        FirstTurn(timers, turns, i, late);
        var rc, more := Run(turns[i].limit, Some(FromTimer), turns[i].now, turns[i].now);
        Associate(calls, more, Log(timers, Nows(turns)[i + 1..]));
        calls := calls + more;
        i := i + 1;
      }
    }
  }

  // ----- on time, over a whole run -----

  /** A turn of the loop: the limit of the wait, and the instant of the pass that ends it. */
  datatype Turn = Turn(limit: nat, now: nat)

  function Nows(turns: seq<Turn>): (r: seq<nat>)
    ensures |r| == |turns| && forall i | 0 <= i < |r| :: r[i] == turns[i].now
  {
    seq(|turns|, i requires 0 <= i < |turns| => turns[i].now)
  }

  /** Each pass comes once its alarm has gone off, at most that late. */
  predicate Punctual(ts: seq<Timer>, turns: seq<Turn>, late: nat)
    requires AllSound(ts)
    decreases |turns|
  {
    turns == [] ||
    (var when, now := Instant(ts, turns[0].limit), turns[0].now;
     && turns[0].limit <= TIME_MS_MAX && 0 < when <= now <= when + late && now < CLOCK_END
     && (DispatchedSound(ts, now); Punctual(Dispatched(ts, now), turns[1..], late)))
  }

  lemma {:induction false} PunctualInstants(ts: seq<Timer>, turns: seq<Turn>, late: nat)
    requires AllSound(ts) && Punctual(ts, turns, late)
    ensures Instants(Nows(turns))
    decreases |turns|
  {
    if turns != [] {
      DispatchedSound(ts, turns[0].now);
      PunctualInstants(Dispatched(ts, turns[0].now), turns[1..], late);
      assert forall i | 1 <= i < |turns| :: Nows(turns)[i] == Nows(turns[1..])[i - 1];
    }
  }

  lemma PunctualNext(ts: seq<Timer>, turns: seq<Turn>, late: nat)
    requires AllSound(ts) && Punctual(ts, turns, late) && turns != []
    ensures var when, now := Instant(ts, turns[0].limit), turns[0].now;
            && 0 < when <= now <= when + late && now < CLOCK_END
            && AllSound(Dispatched(ts, now)) && Punctual(Dispatched(ts, now), turns[1..], late)
  {
    DispatchedSound(ts, turns[0].now);
  }

  /** What the turn at a rank does. */
  lemma FirstTurn(ts: seq<Timer>, turns: seq<Turn>, i: nat, late: nat)
    requires AllSound(ts) && i < |turns| && Instants(Nows(turns)) && Punctual(ts, turns[i..], late)
    ensures turns[i].limit <= TIME_MS_MAX && turns[i].now < CLOCK_END
    ensures 0 < Instant(ts, turns[i].limit) <= turns[i].now
    ensures var next := Dispatched(ts, turns[i].now);
            && AllSound(next) && Punctual(next, turns[i + 1..], late)
            && Instants(Nows(turns)[i..]) && Instants(Nows(turns)[i + 1..])
            && Log(ts, Nows(turns)[i..]) == Calls(ts, turns[i].now) + Log(next, Nows(turns)[i + 1..])
  {
    hide Instant, Dispatched, Calls;
    assert turns[i..][1..] == turns[i + 1..] && turns[i..][0] == turns[i];
    DispatchedSound(ts, turns[i].now);
    var nows := Nows(turns)[i..];
    assert nows[1..] == Nows(turns)[i + 1..] && nows[0] == turns[i].now;
  }

  lemma Associate<T>(a: seq<T>, b: seq<T>, c: seq<T>)
    ensures a + (b + c) == (a + b) + c
  {
  }

  /** The instants at which a timer is called. */
  function Moments(t: Timer, nows: seq<nat>): (r: seq<nat>)
    requires Sound(t) && Instants(nows)
    ensures |r| == |Fires(t, nows)|
    ensures !t.is_active ==> r == []
    decreases |nows|
  {
    if nows == [] || t.is_deleted then []
    else
      PassedSound(t, nows[0]);
      (if Due(t, nows[0]) then [nows[0]] else []) + Moments(Passed(t, nows[0]), nows[1..])
  }

  /** The calls match the occurrences. */
  ghost predicate Matches(next: nat, period: nat, moments: seq<nat>, margin: nat) {
    forall j | 0 <= j < |moments| :: Occurrence(next, period, j) <= moments[j] <= Occurrence(next, period, j) + margin
  }

  /** The occurrences of a timer that never skips one. */
  ghost predicate OnTime(t: Timer, nows: seq<nat>, moments: seq<nat>, margin: nat) {
    && Matches(t.next_ms, t.period_ms, moments, margin)
    && (t.decount == 0 || |moments| < t.decount ==>
          forall i | 0 <= i < |nows| :: nows[i] < Occurrence(t.next_ms, t.period_ms, |moments|))
  }

  lemma OccurrenceNext(next: nat, period: nat, k: nat)
    ensures Occurrence(next + period, period, k) == Occurrence(next, period, k + 1) >= next
    ensures Occurrence(next, period, 0) == next
  {
  }

  /** A timer that has not come yet is left as it is. */
  lemma NotYet(t: Timer, now: nat, nows: seq<nat>, margin: nat)
    requires Sound(t) && t.is_active && now < t.next_ms && nows != [] && nows[0] == now && Instants(nows)
    requires OnTime(t, nows[1..], Moments(t, nows[1..]), margin)
    ensures OnTime(t, nows, Moments(t, nows), margin)
  {
    assert Moments(t, nows) == [] + Moments(t, nows[1..]);
    if t.decount == 0 || |Moments(t, nows)| < t.decount {
      OccurrenceUp(t.next_ms, t.period_ms, |Moments(t, nows)|);
      hide Occurrence, Moments;
      Shifted(nows, Occurrence(t.next_ms, t.period_ms, |Moments(t, nows)|));
    }
  }

  /** A timer called within its margin has its next occurrence one period later. */
  lemma Called(t: Timer, now: nat, nows: seq<nat>, margin: nat)
    requires Sound(t) && Due(t, now) && now <= t.next_ms + margin < t.next_ms + t.period_ms
    requires nows != [] && nows[0] == now && Instants(nows)
    ensures var u := Passed(t, now);
            u.is_active ==>
              && u.next_ms == t.next_ms + t.period_ms && u.period_ms == t.period_ms && u.accuracy_ms == t.accuracy_ms
              && u.decount == (if t.decount == 0 then 0 else t.decount - 1) && (t.decount > 0 ==> u.decount > 0)
    ensures !Passed(t, now).is_active <==> t.decount == 1
  {
    LaterSoon(t.next_ms, t.period_ms, now);
    hide Later;
  }

  /** A pass skips occurrences exactly when it does not come before the next one. */
  lemma LaterSoon(next: nat, period: nat, now: nat)
    requires period > 0 && next <= now
    ensures Later(next, period, now) == next + period <==> now < next + period
  {
    LaterIsNext(next, period, now);
    if now < next + period { assert (now - next) / period == 0; }
  }

  lemma OnTimeAgain(t: Timer, nows: seq<nat>, margin: nat)
    requires nows != [] && Instants(nows)
    requires Sound(t) && Due(t, nows[0]) && nows[0] <= t.next_ms + margin < t.next_ms + t.period_ms
    requires Sound(Passed(t, nows[0]))
    requires var u := Passed(t, nows[0]);
             u.is_active ==> OnTime(u, nows[1..], Moments(u, nows[1..]), margin)
    ensures OnTime(t, nows, Moments(t, nows), margin)
  {
    var u := Passed(t, nows[0]);
    Called(t, nows[0], nows, margin);
    var rest := Moments(u, nows[1..]);
    assert Moments(t, nows) == [nows[0]] + rest;
    hide Passed, Moments, Fires, Sound;
    if u.is_active {
      Shift(t.next_ms, t.period_ms, nows[0], rest, margin);
      if t.decount == 0 || |rest| < u.decount {
        OccurrenceNext(t.next_ms, t.period_ms, |rest|);
        OccurrenceUp(t.next_ms + t.period_ms, t.period_ms, |rest|);
        hide Occurrence;
        Shifted(nows, Occurrence(t.next_ms, t.period_ms, |rest| + 1));
      }
    } else {
      Shift(t.next_ms, t.period_ms, nows[0], [], margin);
    }
  }

  lemma Shift(next: nat, period: nat, first: nat, rest: seq<nat>, margin: nat)
    requires next <= first <= next + margin && Matches(next + period, period, rest, margin)
    ensures Matches(next, period, [first] + rest, margin)
  {
    hide Occurrence;
    forall j | 0 <= j < |[first] + rest|
      ensures Occurrence(next, period, j) <= ([first] + rest)[j] <= Occurrence(next, period, j) + margin
    {
      OccurrenceNext(next, period, if j > 0 then j - 1 else 0);
    }
  }

  lemma OccurrenceUp(next: nat, period: nat, k: nat)
    ensures next <= Occurrence(next, period, k)
  {
  }

  lemma Shifted(nows: seq<nat>, end: nat)
    requires nows != [] && nows[0] < end && forall i | 0 <= i < |nows| - 1 :: nows[1..][i] < end
    ensures forall i | 0 <= i < |nows| :: nows[i] < end
  {
    forall i | 0 < i < |nows| ensures nows[i] < end { assert nows[i] == nows[1..][i - 1]; }
  }

  /** One pass: a timer is called in its margin or not at all, and is in the list left unless it is deleted. */
  lemma OneTurn(ts: seq<Timer>, turn: Turn, late: nat, k: nat) returns (j: nat)
    requires AllSound(ts) && Distinct(ts) && k < |ts| && ts[k].is_active && turn.now < CLOCK_END
    requires 0 < Instant(ts, turn.limit) && turn.now <= Instant(ts, turn.limit) + late
    ensures AllSound(Dispatched(ts, turn.now)) && Distinct(Dispatched(ts, turn.now))
    ensures Sound(ts[k]) && Sound(Passed(ts[k], turn.now)) && turn.now <= ts[k].next_ms + ts[k].accuracy_ms + late
    ensures Passed(ts[k], turn.now).is_active ==>
              j < |Dispatched(ts, turn.now)| && Dispatched(ts, turn.now)[j] == Passed(ts[k], turn.now)
  {
    InstantServes(ts, turn.limit);
    hide Passed, Due, Dispatched, Distinct, Instant, Absent;
    var u, next := Passed(ts[k], turn.now), Dispatched(ts, turn.now);
    DispatchedSound(ts, turn.now);
    DistinctStays(ts, turn.now);
    PassedSound(ts[k], turn.now);
    Stays(ts, turn.now, k);
    j := 0;
    if u.is_active { j :| 0 <= j < |next| && next[j] == u; }
  }

  /**
   When the system is late by less than the period leaves after the accuracy, a timer of the list misses
   none of its occurrences over a whole run: its calls come in order, one for each occurrence, never
   before it and later by the accuracy and that delay at most; and the occurrences up to the last
   pass have all been called, unless the count is over.
   */
  lemma {:induction false} AlwaysOnTime(ts: seq<Timer>, turns: seq<Turn>, late: nat, k: nat)
    requires AllSound(ts) && Distinct(ts) && Punctual(ts, turns, late)
    requires k < |ts| && ts[k].is_active && ts[k].accuracy_ms + late < ts[k].period_ms
    ensures Instants(Nows(turns))
    ensures OnTime(ts[k], Nows(turns), Moments(ts[k], Nows(turns)), ts[k].accuracy_ms + late)
    decreases |turns|
  {
    PunctualInstants(ts, turns, late);
    var t, nows := ts[k], Nows(turns);
    if turns != [] {
      PunctualNext(ts, turns, late);
      hide Passed, Due, Dispatched, Distinct, Sound, OnTime, Moments, Instant, Instants, Punctual, AllSound;
      var now := turns[0].now;
      var j := OneTurn(ts, turns[0], late, k);
      assert nows[1..] == Nows(turns[1..]);
      if Due(t, now) { Called(t, now, nows, t.accuracy_ms + late); } else { Waits(t, now); }
      if Passed(t, now).is_active { AlwaysOnTime(Dispatched(ts, now), turns[1..], late, j); }
      if Due(t, now) {
        OnTimeAgain(t, nows, t.accuracy_ms + late);
      } else {
        NotYet(t, now, nows, t.accuracy_ms + late);
      }
    }
  }

  /**
   From the call that creates a timer to the calls it receives: over any punctual run, call j comes around the
   instant that was asked for plus j periods, by half of the accuracy, and by the delay of the system.
   */
  lemma CreatedOnTime(id: nat, now: nat, start_sec: int, start_ms: nat, count: nat, period_ms: nat, accuracy_ms: nat,
      u: bool, others: seq<Timer>, turns: seq<Turn>, late: nat)
    requires 0 < period_ms < 0x1_0000_0000 && 0 < accuracy_ms < 0x1_0000_0000 && count < 0x1_0000_0000
    requires accuracy_ms / 2 < now + start_sec * 1000 + start_ms < CLOCK_END && accuracy_ms + late < period_ms
    requires var ts := [Created(id, now, start_sec, start_ms, count, period_ms, accuracy_ms, u)] + others;
             AllSound(ts) && Distinct(ts) && Punctual(ts, turns, late)
    ensures Instants(Nows(turns))
    ensures var t := Created(id, now, start_sec, start_ms, count, period_ms, accuracy_ms, u);
            var wanted := now + start_sec * 1000 + start_ms;
            var calls := Moments(t, Nows(turns));
            && Sound(t) && (count > 0 ==> |calls| <= count)
            && (forall j | 0 <= j < |calls| ::
                  wanted + j * period_ms - accuracy_ms / 2 <= calls[j] <= wanted + j * period_ms + (accuracy_ms + 1) / 2 + late)
            && (count == 0 || |calls| < count ==>
                  forall i | 0 <= i < |turns| :: turns[i].now < wanted + |calls| * period_ms - accuracy_ms / 2)
  {
    var t := Created(id, now, start_sec, start_ms, count, period_ms, accuracy_ms, u);
    var ts := [t] + others;
    Centred(id, now, start_sec, start_ms, count, period_ms, accuracy_ms, u);
    assert ts[0] == t;
    AlwaysOnTime(ts, turns, late, 0);
    PunctualInstants(ts, turns, late);
    CountDown(t, Nows(turns));
    assert t.next_ms == now + start_sec * 1000 + start_ms - accuracy_ms / 2;
    hide Created, Distinct, Punctual, Moments, Sound, AllSound, Instants;
    var calls, nows := Moments(t, Nows(turns)), Nows(turns);
    forall i | 0 <= i < |turns| && (count == 0 || |calls| < count)
      ensures turns[i].now < Occurrence(t.next_ms, t.period_ms, |calls|)
    {
      assert nows[i] == turns[i].now;
    }
  }

  lemma Waits(t: Timer, now: nat)
    requires Sound(t) && !Due(t, now)
    ensures Passed(t, now) == t && (t.is_active ==> now < t.next_ms)
  {
  }

  lemma Alone(id: nat, now: nat, count: nat, auto_unref: bool)
    requires 0 < now < CLOCK_END - 1 && count < 0x1_0000_0000
    ensures var t := Created(id, now, 0, 0, count, 0, 0, auto_unref);
            Sound(t) && t.next_ms == now && Instant([t], TIME_MS_MAX) == now
  {
    var t := Created(id, now, 0, 0, count, 0, 0, auto_unref);
    NoWrap(now);
    NoWrap(now + 1);
    NoWrap(now + now + 1);
    assert [t][..0] == [];
    assert Window([t], TIME_MS_MAX) == (now, now + 1);
  }

  /** The run that loses a wake-up: a timer without delay, added in the millisecond the alarm went off for. */
  method LostWakeUp(now: nat) returns (m: Mgr)
    requires 0 < now < CLOCK_END - 1
    ensures m.Valid() && m.state == Idle && m.alarm == Off && m.last_timer == now
    ensures |m.timers| == 1 && Due(m.timers[0], now)
  {
    Alone(1, now, 1, true);
    Alone(2, now, 1, true);
    m := new Mgr();
    m.AddTimer(1, now, 0, 0, 1, 0, 0, true);
    ghost var first := m.timers;
    assert first == [Created(1, now, 0, 0, 1, 0, 0, true)];
    var rc := m.Prepare(TIME_MS_MAX);
    rc := m.Wait(Some(FromTimer));
    var calls := m.Dispatch(now, now);
    assert Dispatched(first, now) == [] by {
      assert first[..0] == [];
      assert Passed(first[0], now).is_deleted;
    }
    m.AddTimer(2, now, 0, 0, 1, 0, 0, true);
    assert m.timers == [Created(2, now, 0, 0, 1, 0, 0, true)];
    rc := m.Prepare(TIME_MS_MAX);
    rc := m.Wait(None);
  }
}
