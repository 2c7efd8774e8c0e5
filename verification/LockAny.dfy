/**
 Per-item reader/writer lock over a shared pool of lockers.

 Every stretch of code run while the mutex is held is one atomic step, and a thread
 that waits on a condition gives the mutex back: it becomes a claim that is asleep.
 `Next` is the step relation, a run is any sequence of enabled steps, and the class
 `Pool` is the imperative form of each step.
 */
module LockAny {

  /** Address of an item, NULL for none. */
  type Item = nat
  const NULL: Item := 0

  /** cntw and cntr are 15-bit fields. */
  const WIDTH: nat := 0x8000

  datatype Locker = Locker(item: Item, lockw: bool, lockr: bool, cntw: nat, cntr: nat)

  datatype Mode = Read | Write

  /** A lock call, of whatever thread. */
  type Ticket = int

  /** A lock call in progress or granted: asleep in the wait, signalled since it slept, or holding. */
  datatype Phase = Asleep | Signalled | Held

  datatype Claim = Claim(item: Item, mode: Mode, lock: nat, phase: Phase)

  /** The pool in order of creation (the head of the list is last), and the claims by ticket. */
  datatype State = State(lockers: seq<Locker>, claims: map<Ticket, Claim>)

  const INIT := State([], map[])

  // ----- the sections of code -----

  predicate Used(l: Locker) { l.cntw != 0 || l.cntr != 0 }

  function Release(l: Locker): Locker {
    if Used(l) then l else l.(item := NULL)
  }

  /** Position nearest to the head of a locker of that item, -1 if none. */
  function Where(ls: seq<Locker>, item: Item): (k: int)
    ensures -1 <= k < |ls|
    ensures k >= 0 ==> ls[k].item == item
    ensures forall j :: k < j < |ls| ==> ls[j].item != item
  {
    if ls == [] then -1
    else if ls[|ls| - 1].item == item then |ls| - 1
    else Where(ls[..|ls| - 1], item)
  }

  /** The locker of the item: the existing one, else an unused one, else a new one. */
  function Get(ls: seq<Locker>, item: Item): (r: (seq<Locker>, nat))
    ensures r.1 < |r.0| && r.0[r.1].item == item
  {
    var k := Where(ls, item);
    if k >= 0 then (ls, k)
    else
      var u := Where(ls, NULL);
      if u >= 0 then (ls[u := ls[u].(item := item)], u)
      else (ls + [Locker(item, false, false, 0, 0)], |ls|)
  }

  function Count(l: Locker, mode: Mode): Locker {
    if mode.Read? then l.(cntr := (l.cntr + 1) % WIDTH) else l.(cntw := (l.cntw + 1) % WIDTH)
  }

  predicate Blocked(l: Locker, mode: Mode) {
    l.lockw || (mode.Write? && l.lockr)
  }

  function Grant(l: Locker, mode: Mode): Locker {
    if mode.Read? then l.(lockr := true) else l.(lockw := true)
  }

  /** The test of the waiting loop, then either sleeping or leaving with the lock. */
  function Attempt(s: State, t: Ticket, item: Item, mode: Mode, i: nat): State
    requires i < |s.lockers|
  {
    var l := s.lockers[i];
    if Blocked(l, mode) then s.(claims := s.claims[t := Claim(item, mode, i, Asleep)])
    else State(s.lockers[i := Release(Grant(l, mode))], s.claims[t := Claim(item, mode, i, Held)])
  }

  function LockStep(s: State, t: Ticket, item: Item, mode: Mode): State {
    var (ls, i) := Get(s.lockers, item);
    Attempt(State(ls[i := Count(ls[i], mode)], s.claims), t, item, mode, i)
  }

  function TryReadStep(s: State, t: Ticket, item: Item): State {
    var (ls, i) := Get(s.lockers, item);
    if ls[i].lockw then s.(lockers := ls[i := Release(ls[i])])
    else State(ls[i := Release(Grant(Count(ls[i], Read), Read))], s.claims[t := Claim(item, Read, i, Held)])
  }

  /** The test of the non blocking write lock: both flags at once. */
  predicate Refuses(s: State, item: Item) {
    var (ls, i) := Get(s.lockers, item);
    ls[i].lockw && ls[i].lockr
  }

  function TryWriteStep(s: State, t: Ticket, item: Item): State {
    var (ls, i) := Get(s.lockers, item);
    if Refuses(s, item) then s.(lockers := ls[i := Release(ls[i])])
    else State(ls[i := Release(Grant(Count(ls[i], Write), Write))], s.claims[t := Claim(item, Write, i, Held)])
  }

  function Uncount(l: Locker): Locker {
    if l.lockw then l.(lockw := false, cntw := (l.cntw + WIDTH - 1) % WIDTH)
    else if l.lockr then
      var n := (l.cntr + WIDTH - 1) % WIDTH;
      l.(cntr := n, lockr := n != 0)
    else l
  }

  predicate Signals(l: Locker) {
    (l.lockw && Used(Uncount(l))) || (!l.lockw && l.lockr && !Uncount(l).lockr && Used(Uncount(l)))
  }

  function Broadcast(claims: map<Ticket, Claim>, i: nat): map<Ticket, Claim> {
    map t | t in claims ::
      if claims[t].lock == i && claims[t].phase.Asleep? then claims[t].(phase := Signalled) else claims[t]
  }

  function UnlockStep(s: State, t: Ticket, item: Item): State {
    var (ls, i) := Get(s.lockers, item);
    var claims := s.claims - {t};
    State(ls[i := Release(Uncount(ls[i]))], if Signals(ls[i]) then Broadcast(claims, i) else claims)
  }

  // ----- runs -----

  datatype Action =
    | LockRead(t: Ticket, item: Item)
    | TryLockRead(t: Ticket, item: Item)
    | LockWrite(t: Ticket, item: Item)
    | TryLockWrite(t: Ticket, item: Item)
    | Wake(t: Ticket)
    | Unlock(t: Ticket)

  ghost function Claims(s: State, item: Item, mode: Mode): set<Ticket> {
    set t | t in s.claims && s.claims[t].item == item && s.claims[t].mode == mode
  }

  ghost predicate Holds(s: State, t: Ticket, item: Item, mode: Mode) {
    t in s.claims && s.claims[t].item == item && s.claims[t].mode == mode && s.claims[t].phase.Held?
  }

  ghost predicate Free(s: State, item: Item) {
    forall t, mode :: !Holds(s, t, item, mode)
  }

  /** A lock call comes with a new ticket and an item; any waiting thread may wake at any time,
      signalled or not; only who holds unlocks.  Counters must have room.  The non blocking write
      lock is a step where it is refused or nobody holds the item: `TryWrite` says why. */
  ghost predicate Enabled(s: State, a: Action) {
    match a
    case LockRead(t, item) => t !in s.claims && item != NULL && |Claims(s, item, Read)| < WIDTH - 1
    case TryLockRead(t, item) => t !in s.claims && item != NULL && |Claims(s, item, Read)| < WIDTH - 1
    case LockWrite(t, item) => t !in s.claims && item != NULL && |Claims(s, item, Write)| < WIDTH - 1
    case TryLockWrite(t, item) =>
      t !in s.claims && item != NULL && |Claims(s, item, Write)| < WIDTH - 1 && (Refuses(s, item) || Free(s, item))
    case Wake(t) => t in s.claims && !s.claims[t].phase.Held? && s.claims[t].lock < |s.lockers|
    case Unlock(t) => t in s.claims && s.claims[t].phase.Held?
  }

  ghost function Next(s: State, a: Action): State
    requires Enabled(s, a)
  {
    match a
    case LockRead(t, item) => LockStep(s, t, item, Read)
    case TryLockRead(t, item) => TryReadStep(s, t, item)
    case LockWrite(t, item) => LockStep(s, t, item, Write)
    case TryLockWrite(t, item) => TryWriteStep(s, t, item)
    case Wake(t) => Attempt(s, t, s.claims[t].item, s.claims[t].mode, s.claims[t].lock)
    case Unlock(t) => UnlockStep(s, t, s.claims[t].item)
  }

  ghost predicate Stepped(s: State, a: Action, s': State) {
    Enabled(s, a) && s' == Next(s, a)
  }

  ghost predicate Reachable(s: State, run: seq<Action>)
    decreases |run|
  {
    if run == [] then s == INIT
    else
      var a := run[|run| - 1];
      exists p :: Stepped(p, a, s) && Reachable(p, run[..|run| - 1])
  }

  // ----- what every step keeps -----

  function Of(claims: map<Ticket, Claim>, i: nat, mode: Mode): set<Ticket> {
    set t | t in claims && claims[t].lock == i && claims[t].mode == mode
  }

  function CountOf(l: Locker, mode: Mode): nat {
    if mode.Read? then l.cntr else l.cntw
  }

  ghost predicate Held1(claims: map<Ticket, Claim>, t: Ticket, i: nat, mode: Mode) {
    t in claims && claims[t].lock == i && claims[t].mode == mode && claims[t].phase.Held?
  }

  ghost predicate FlagsOk(l: Locker, i: nat, claims: map<Ticket, Claim>) {
    && (forall t, u :: Held1(claims, t, i, Write) ==> !Held1(claims, u, i, Read))
    && (l.lockr ==> l.cntr > 0)
    && (l.lockw ==> exists t :: Held1(claims, t, i, Write))
    && (forall t :: Held1(claims, t, i, Read) ==> l.lockr)
    && (forall t :: Held1(claims, t, i, Write) ==> l.lockw)
    && (forall t, u :: Held1(claims, t, i, Write) && Held1(claims, u, i, Write) ==> t == u)
  }

  ghost predicate CountsOk(l: Locker, i: nat, claims: map<Ticket, Claim>) {
    && l.cntr == |Of(claims, i, Read)| < WIDTH
    && l.cntw == |Of(claims, i, Write)| < WIDTH
  }

  ghost predicate ClaimOk(s: State, c: Claim) {
    && c.item != NULL
    && c.lock < |s.lockers|
    && s.lockers[c.lock].item == c.item
    && (c.phase.Asleep? ==> Blocked(s.lockers[c.lock], c.mode))
  }

  ghost predicate LockerOk(s: State, i: nat)
    requires i < |s.lockers|
  {
    && FlagsOk(s.lockers[i], i, s.claims)
    && CountsOk(s.lockers[i], i, s.claims)
    && (s.lockers[i].item != NULL <==> Used(s.lockers[i]))
  }

  ghost predicate Distinct(ls: seq<Locker>) {
    forall i, j :: 0 <= i < j < |ls| && ls[i].item != NULL ==> ls[i].item != ls[j].item
  }

  ghost predicate Inv(s: State) {
    && Distinct(s.lockers)
    && (forall t :: t in s.claims ==> ClaimOk(s, s.claims[t]))
    && (forall i :: 0 <= i < |s.lockers| ==> LockerOk(s, i))
  }

  // ----- one step -----

  lemma OfSet(claims: map<Ticket, Claim>, t: Ticket, c: Claim, i: nat, mode: Mode)
    requires t !in claims
    ensures Of(claims[t := c], i, mode) == Of(claims, i, mode) + (if c.lock == i && c.mode == mode then {t} else {})
  {
  }

  lemma OfReset(claims: map<Ticket, Claim>, t: Ticket, c: Claim, i: nat, mode: Mode)
    requires t in claims && claims[t].lock == c.lock && claims[t].mode == c.mode
    ensures Of(claims[t := c], i, mode) == Of(claims, i, mode)
  {
  }

  lemma OfDrop(claims: map<Ticket, Claim>, t: Ticket, i: nat, mode: Mode)
    requires t in claims
    ensures Of(claims - {t}, i, mode) == Of(claims, i, mode) - {t}
    ensures t in Of(claims, i, mode) <==> claims[t].lock == i && claims[t].mode == mode
  {
  }

  lemma OfBroadcast(claims: map<Ticket, Claim>, i: nat, j: nat, mode: Mode)
    ensures Of(Broadcast(claims, i), j, mode) == Of(claims, j, mode)
  {
  }

  /** ls is the pool of s where locker i was found, recycled or created for the item. */
  ghost predicate Got(s: State, ls: seq<Locker>, i: nat, item: Item) {
    && i < |ls| && (|ls| == |s.lockers| || (|ls| == |s.lockers| + 1 && i == |s.lockers|))
    && (forall j :: 0 <= j < |s.lockers| && j != i ==> ls[j] == s.lockers[j])
    && ls[i].item == item && Distinct(ls)
    && FlagsOk(ls[i], i, s.claims) && CountsOk(ls[i], i, s.claims)
    && (forall t :: t in s.claims && s.claims[t].lock == i ==> ClaimOk(State(ls, s.claims), s.claims[t]))
  }

  lemma GetOk(s: State, item: Item)
    requires Inv(s) && item != NULL
    ensures var (ls, i) := Get(s.lockers, item); Got(s, ls, i, item)
  {
    var (ls, i) := Get(s.lockers, item);
    if i < |s.lockers| {
      assert LockerOk(s, i);
    } else {
      forall t | t in s.claims ensures s.claims[t].lock != i { assert ClaimOk(s, s.claims[t]); }
      assert Of(s.claims, i, Read) == {} && Of(s.claims, i, Write) == {};
    }
    forall t | t in s.claims && s.claims[t].lock == i ensures ClaimOk(State(ls, s.claims), s.claims[t]) {
      assert ClaimOk(s, s.claims[t]);
      var mode := s.claims[t].mode;
      assert t in Of(s.claims, i, mode);
    }
  }

  lemma OfSame(a: map<Ticket, Claim>, b: map<Ticket, Claim>, j: nat, mode: Mode)
    requires forall t :: t in a && a[t].lock == j ==> t in b && b[t] == a[t]
    requires forall t :: t in b && b[t].lock == j ==> t in a && a[t] == b[t]
    ensures Of(a, j, mode) == Of(b, j, mode)
  {
    assert forall t :: t in Of(a, j, mode) <==> t in Of(b, j, mode);
  }

  /** A step that only changes locker i and claims on it keeps the invariant as soon as it holds there. */
  lemma StepOk(s: State, ls: seq<Locker>, i: nat, item: Item, l: Locker, claims: map<Ticket, Claim>)
    requires Inv(s) && Got(s, ls, i, item)
    requires l.item == item || l.item == NULL
    requires forall t :: t in claims && claims[t].lock != i ==> t in s.claims && claims[t] == s.claims[t]
    requires forall t :: t in s.claims && s.claims[t].lock != i ==> t in claims && claims[t] == s.claims[t]
    requires FlagsOk(l, i, claims) && CountsOk(l, i, claims) && (l.item != NULL <==> Used(l))
    requires forall t :: t in claims && claims[t].lock == i ==> ClaimOk(State(ls[i := l], claims), claims[t])
    ensures Inv(State(ls[i := l], claims))
  {
    var s' := State(ls[i := l], claims);
    forall t | t in claims ensures ClaimOk(s', claims[t]) {
      if claims[t].lock != i { assert ClaimOk(s, s.claims[t]); }
    }
    forall j | 0 <= j < |s'.lockers| ensures LockerOk(s', j) {
      if j != i {
        assert LockerOk(s, j);
        OfSame(s.claims, claims, j, Read);
        OfSame(s.claims, claims, j, Write);
        forall t, mode ensures Held1(claims, t, j, mode) == Held1(s.claims, t, j, mode) {}
      }
    }
  }

  lemma ClaimsOf(s: State, ls: seq<Locker>, i: nat, item: Item, mode: Mode)
    requires Inv(s) && Got(s, ls, i, item) && item != NULL
    ensures Of(s.claims, i, mode) == Claims(s, item, mode)
  {
    forall t | t in s.claims ensures s.claims[t].lock == i <==> s.claims[t].item == item {
      var c := s.claims[t];
      assert ClaimOk(s, c);
    }
  }

  /** Entering the wait. */
  lemma SleepFlags(l: Locker, i: nat, claims: map<Ticket, Claim>, t: Ticket, c: Claim)
    requires FlagsOk(l, i, claims) && c.phase.Asleep?
    requires t in claims ==> !claims[t].phase.Held?
    ensures FlagsOk(l, i, claims[t := c])
  {
    var after := claims[t := c];
    assert forall u, m :: Held1(after, u, i, m) <==> Held1(claims, u, i, m);
  }

  /** Leaving with the lock: who sleeps is still blocked. */
  lemma GrantFlags(l: Locker, i: nat, claims: map<Ticket, Claim>, t: Ticket, c: Claim)
    requires FlagsOk(l, i, claims) && CountOf(l, c.mode) > 0 && !Blocked(l, c.mode)
    requires c.lock == i && c.phase.Held?
    requires t in claims ==> !claims[t].phase.Held?
    ensures FlagsOk(Grant(l, c.mode), i, claims[t := c])
    ensures forall m :: Blocked(l, m) ==> Blocked(Grant(l, c.mode), m)
  {
    var after := claims[t := c];
    assert forall u, m :: Held1(after, u, i, m) <==> Held1(claims, u, i, m) || (u == t && m == c.mode);
    assert Held1(after, t, i, c.mode);
  }

  lemma GotFacts(s: State, ls: seq<Locker>, i: nat, item: Item)
    requires Got(s, ls, i, item)
    ensures i < |ls| && ls[i].item == item && FlagsOk(ls[i], i, s.claims) && CountsOk(ls[i], i, s.claims)
    ensures forall t :: t in s.claims && s.claims[t].lock == i ==>
              s.claims[t].item == item && (s.claims[t].phase.Asleep? ==> Blocked(ls[i], s.claims[t].mode))
  {
  }

  lemma LockOk(s: State, t: Ticket, item: Item, mode: Mode)
    requires Inv(s) && item != NULL && t !in s.claims && |Claims(s, item, mode)| < WIDTH - 1
    ensures Inv(LockStep(s, t, item, mode))
  {
    hide Get, Where, FlagsOk, CountsOk, Count, Used, Grant, Blocked, Inv, Distinct, LockStep, Got, Of, Claims;
    GetOk(s, item);
    var (ls, i) := Get(s.lockers, item);
    ClaimsOf(s, ls, i, item, mode);
    GotFacts(s, ls, i, item);
    var l := Count(ls[i], mode);
    CountIs(ls[i], i, s.claims, mode);
    CountFlags(ls[i], i, s.claims, mode);
    var blocked := Blocked(l, mode);
    var c := Claim(item, mode, i, if blocked then Asleep else Held);
    var l', claims := if blocked then l else Grant(l, mode), s.claims[t := c];
    if blocked { SleepFlags(l, i, s.claims, t, c); } else { GrantFlags(l, i, s.claims, t, c); }
    CountsAdd(ls[i], i, s.claims, t, c);
    GrantKeeps(l, i, claims, mode);
    StepOk(s, ls, i, item, l', claims);
    LockStepIs(s, t, item, mode);
  }

  lemma LockStepIs(s: State, t: Ticket, item: Item, mode: Mode)
    requires var (ls, i) := Get(s.lockers, item); CountOf(Count(ls[i], mode), mode) > 0
    ensures var (ls, i) := Get(s.lockers, item);
            var l := Count(ls[i], mode);
            LockStep(s, t, item, mode)
            == if Blocked(l, mode) then State(ls[i := l], s.claims[t := Claim(item, mode, i, Asleep)])
               else State(ls[i := Grant(l, mode)], s.claims[t := Claim(item, mode, i, Held)])
  {
    hide Get, Blocked;
    var (ls, i) := Get(s.lockers, item);
    var l := Count(ls[i], mode);
    assert ls[i := l][i := Grant(l, mode)] == ls[i := Grant(l, mode)];
  }

  lemma GrantKeeps(l: Locker, i: nat, claims: map<Ticket, Claim>, mode: Mode)
    requires CountsOk(l, i, claims)
    ensures CountsOk(Grant(l, mode), i, claims)
    ensures Grant(l, mode).item == l.item && (Used(Grant(l, mode)) <==> Used(l))
  {
  }

  lemma CountsAdd(l: Locker, i: nat, claims: map<Ticket, Claim>, t: Ticket, c: Claim)
    requires CountsOk(l, i, claims) && t !in claims && c.lock == i && CountOf(l, c.mode) < WIDTH - 1
    ensures CountsOk(Count(l, c.mode), i, claims[t := c])
    ensures Count(l, c.mode).item == l.item && Used(Count(l, c.mode))
  {
    hide Of;
    OfSet(claims, t, c, i, c.mode);
    OfSet(claims, t, c, i, if c.mode.Read? then Write else Read);
    NotIn(claims, t, i, c.mode);
  }

  lemma NotIn(claims: map<Ticket, Claim>, t: Ticket, i: nat, mode: Mode)
    requires t !in claims
    ensures t !in Of(claims, i, mode)
  {
  }

  lemma CountIs(l: Locker, i: nat, claims: map<Ticket, Claim>, mode: Mode)
    requires CountsOk(l, i, claims)
    ensures CountOf(l, mode) == |Of(claims, i, mode)|
  {
  }

  lemma CountFlags(l: Locker, i: nat, claims: map<Ticket, Claim>, mode: Mode)
    requires FlagsOk(l, i, claims) && CountOf(l, mode) < WIDTH - 1
    ensures FlagsOk(Count(l, mode), i, claims) && CountOf(Count(l, mode), mode) == CountOf(l, mode) + 1
    ensures forall m :: Blocked(Count(l, mode), m) == Blocked(l, m)
  {
  }

  lemma WakeOk(s: State, t: Ticket)
    requires Inv(s) && t in s.claims && !s.claims[t].phase.Held? && s.claims[t].lock < |s.lockers|
    ensures Inv(Attempt(s, t, s.claims[t].item, s.claims[t].mode, s.claims[t].lock))
  {
    hide FlagsOk, CountsOk, Used, Grant, Blocked, Inv, Distinct, Got, Of;
    var i, item, mode := s.claims[t].lock, s.claims[t].item, s.claims[t].mode;
    WaitGot(s, t);
    var l := s.lockers[i];
    var blocked := Blocked(l, mode);
    var c := Claim(item, mode, i, if blocked then Asleep else Held);
    var l', claims := if blocked then l else Grant(l, mode), s.claims[t := c];
    if blocked { SleepFlags(l, i, s.claims, t, c); } else { GrantFlags(l, i, s.claims, t, c); }
    CountsSame(l, i, s.claims, claims, t);
    GrantKeeps(l, i, claims, mode);
    GotFacts(s, s.lockers, i, item);
    assert s.lockers[i := l] == s.lockers;
    StepOk(s, s.lockers, i, item, l', claims);
  }

  lemma WaitGot(s: State, t: Ticket)
    requires Inv(s) && t in s.claims
    ensures var c := s.claims[t];
            && c.item != NULL && c.lock < |s.lockers| && Got(s, s.lockers, c.lock, c.item)
            && CountOf(s.lockers[c.lock], c.mode) > 0 && Used(s.lockers[c.lock])
  {
    var c := s.claims[t];
    assert ClaimOk(s, c);
    assert LockerOk(s, c.lock);
    assert t in Of(s.claims, c.lock, c.mode);
    forall u | u in s.claims && s.claims[u].lock == c.lock ensures ClaimOk(State(s.lockers, s.claims), s.claims[u]) {
      assert ClaimOk(s, s.claims[u]);
    }
  }

  lemma CountsSame(l: Locker, i: nat, claims: map<Ticket, Claim>, after: map<Ticket, Claim>, t: Ticket)
    requires CountsOk(l, i, claims) && t in claims && t in after && after == claims[t := after[t]]
    requires claims[t].lock == after[t].lock && claims[t].mode == after[t].mode
    ensures CountsOk(l, i, after)
  {
    hide Of;
    OfReset(claims, t, after[t], i, Read);
    OfReset(claims, t, after[t], i, Write);
  }

  lemma TryReadOk(s: State, t: Ticket, item: Item)
    requires Inv(s) && item != NULL && t !in s.claims && |Claims(s, item, Read)| < WIDTH - 1
    ensures Inv(TryReadStep(s, t, item))
  {
    GetOk(s, item);
    var (ls, i) := Get(s.lockers, item);
    if ls[i].lockw {
      WriterCounted(ls[i], i, s.claims);
      assert Inv(s.(lockers := ls[i := ls[i]])) by {
        hide Get, FlagsOk, CountsOk, Inv, Distinct, Got;
        GotFacts(s, ls, i, item);
        StepOk(s, ls, i, item, ls[i], s.claims);
      }
    } else {
      assert TryReadStep(s, t, item) == LockStep(s, t, item, Read);
      LockOk(s, t, item, Read);
    }
  }

  /** The non blocking write lock, refused or on an item that nobody holds. */
  lemma TryWriteOk(s: State, t: Ticket, item: Item)
    requires Inv(s) && item != NULL && t !in s.claims && |Claims(s, item, Write)| < WIDTH - 1
    requires Refuses(s, item) || Free(s, item)
    ensures Inv(TryWriteStep(s, t, item))
  {
    hide Get, Where, FlagsOk, CountsOk, Count, Used, Grant, Blocked, Inv, Distinct, TryWriteStep, Got, Of, Claims;
    GetOk(s, item);
    var (ls, i) := Get(s.lockers, item);
    GotFacts(s, ls, i, item);
    if Refuses(s, item) {
      WriterCounted(ls[i], i, s.claims);
      StepOk(s, ls, i, item, ls[i], s.claims);
    } else {
      ClaimsOf(s, ls, i, item, Write);
      CountIs(ls[i], i, s.claims, Write);
      CountFlags(ls[i], i, s.claims, Write);
      var l, c := Count(ls[i], Write), Claim(item, Write, i, Held);
      CountsAdd(ls[i], i, s.claims, t, c);
      GrantKeeps(l, i, s.claims[t := c], Write);
      FreeHeld(s, ls, i, item);
      FirstWriter(l, i, s.claims, t, c);
      StepOk(s, ls, i, item, Grant(l, Write), s.claims[t := c]);
    }
    TryWriteIs(s, t, item);
  }

  lemma FreeHeld(s: State, ls: seq<Locker>, i: nat, item: Item)
    requires Got(s, ls, i, item) && Free(s, item)
    ensures forall u, m :: !Held1(s.claims, u, i, m)
  {
    forall u, m ensures !Held1(s.claims, u, i, m) {
      assert !Holds(s, u, item, m);
    }
  }

  /** Without other holder, taking the lock to write is sound, whatever the flags say. */
  lemma FirstWriter(l: Locker, i: nat, claims: map<Ticket, Claim>, t: Ticket, c: Claim)
    requires FlagsOk(l, i, claims) && (forall u, m :: !Held1(claims, u, i, m))
    requires t !in claims && c.lock == i && c.phase.Held? && c.mode.Write?
    ensures FlagsOk(Grant(l, Write), i, claims[t := c])
    ensures forall m :: Blocked(Grant(l, Write), m)
  {
    var after := claims[t := c];
    assert forall u, m :: Held1(after, u, i, m) <==> Held1(claims, u, i, m) || (u == t && m == Write);
    assert Held1(after, t, i, Write);
  }

  lemma TryWriteIs(s: State, t: Ticket, item: Item)
    requires var (ls, i) := Get(s.lockers, item);
             if Refuses(s, item) then Used(ls[i]) else CountOf(Count(ls[i], Write), Write) > 0
    ensures var (ls, i) := Get(s.lockers, item);
            TryWriteStep(s, t, item)
            == if Refuses(s, item) then State(ls[i := ls[i]], s.claims)
               else State(ls[i := Grant(Count(ls[i], Write), Write)], s.claims[t := Claim(item, Write, i, Held)])
  {
    hide Get;
  }

  lemma WriterCounted(l: Locker, i: nat, claims: map<Ticket, Claim>)
    requires FlagsOk(l, i, claims) && CountsOk(l, i, claims) && l.lockw
    ensures Used(l)
  {
    var t :| Held1(claims, t, i, Write);
    assert t in Of(claims, i, Write);
  }

  /** The counter and the flag that an unlock changes are those of the claim. */
  lemma UncountFlags(l: Locker, i: nat, claims: map<Ticket, Claim>, t: Ticket)
    requires FlagsOk(l, i, claims) && CountsOk(l, i, claims)
    requires t in claims && claims[t].lock == i && claims[t].phase.Held?
    ensures FlagsOk(Uncount(l), i, claims - {t}) && CountsOk(Uncount(l), i, claims - {t})
    ensures claims[t].mode.Write? <==> l.lockw
    ensures claims[t].mode.Read? ==> l.lockr
  {
    hide CountsOk, Of;
    var after, m := claims - {t}, claims[t].mode;
    assert Held1(claims, t, i, m);
    UncountCounts(l, i, claims, t);
    assert forall u, m :: Held1(after, u, i, m) <==> Held1(claims, u, i, m) && u != t;
    if m.Read? { ReadersGone(after, i); }
  }

  lemma UncountCounts(l: Locker, i: nat, claims: map<Ticket, Claim>, t: Ticket)
    requires CountsOk(l, i, claims)
    requires t in claims && claims[t].lock == i && claims[t].phase.Held?
    requires if claims[t].mode.Write? then l.lockw else !l.lockw && l.lockr
    ensures CountsOk(Uncount(l), i, claims - {t})
    ensures Uncount(l).cntr == |Of(claims - {t}, i, Read)|
  {
    hide Of;
    OfDrop(claims, t, i, Read);
    OfDrop(claims, t, i, Write);
  }

  lemma ReadersGone(claims: map<Ticket, Claim>, i: nat)
    ensures |Of(claims, i, Read)| == 0 ==> forall u :: !Held1(claims, u, i, Read)
  {
    if u :| Held1(claims, u, i, Read) { assert u in Of(claims, i, Read); }
  }

  /** After an unlock without broadcast, who sleeps on the locker still has a reason to. */
  lemma NotSignalled(l: Locker, i: nat, claims: map<Ticket, Claim>, t: Ticket, u: Ticket)
    requires FlagsOk(l, i, claims) && CountsOk(l, i, claims)
    requires t in claims && claims[t].lock == i && claims[t].phase.Held? && !Signals(l)
    requires u in claims - {t} && claims[u].lock == i && claims[u].phase.Asleep? && Blocked(l, claims[u].mode)
    ensures Blocked(Uncount(l), claims[u].mode)
  {
    UncountFlags(l, i, claims, t);
    assert u in Of(claims - {t}, i, claims[u].mode);
  }

  lemma BroadcastOk(l: Locker, i: nat, claims: map<Ticket, Claim>)
    requires FlagsOk(l, i, claims) && CountsOk(l, i, claims)
    ensures FlagsOk(l, i, Broadcast(claims, i)) && CountsOk(l, i, Broadcast(claims, i))
  {
    hide Of, Broadcast;
    BroadcastHeld(claims, i);
    OfBroadcast(claims, i, i, Read);
    OfBroadcast(claims, i, i, Write);
  }

  lemma BroadcastHeld(claims: map<Ticket, Claim>, i: nat)
    ensures forall u, m :: Held1(Broadcast(claims, i), u, i, m) <==> Held1(claims, u, i, m)
  {
  }

  lemma ReleaseOk(l: Locker, i: nat, claims: map<Ticket, Claim>)
    requires FlagsOk(l, i, claims) && CountsOk(l, i, claims) && l.item != NULL
    ensures FlagsOk(Release(l), i, claims) && CountsOk(Release(l), i, claims)
    ensures Release(l).item != NULL <==> Used(Release(l))
    ensures Release(l).item in {l.item, NULL}
    ensures forall m :: Blocked(Release(l), m) == Blocked(l, m)
    ensures forall u :: u in claims && claims[u].lock == i ==> Release(l).item == l.item
  {
    if u :| u in claims && claims[u].lock == i { assert u in Of(claims, i, claims[u].mode); }
  }

  ghost predicate LocalOk(l: Locker, i: nat, claims: map<Ticket, Claim>, item: Item) {
    && FlagsOk(l, i, claims) && CountsOk(l, i, claims)
    && l.item in {item, NULL} && (l.item != NULL <==> Used(l))
    && (forall u :: u in claims && claims[u].lock == i ==>
          l.item == item && (claims[u].phase.Asleep? ==> Blocked(l, claims[u].mode)))
  }

  function Left(l: Locker, i: nat, claims: map<Ticket, Claim>, t: Ticket): map<Ticket, Claim> {
    if Signals(l) then Broadcast(claims - {t}, i) else claims - {t}
  }

  lemma UnlockLocal(l: Locker, i: nat, claims: map<Ticket, Claim>, t: Ticket, item: Item)
    requires FlagsOk(l, i, claims) && CountsOk(l, i, claims) && l.item == item != NULL
    requires t in claims && claims[t].lock == i && claims[t].phase.Held?
    requires forall u :: u in claims && claims[u].lock == i && claims[u].phase.Asleep? ==> Blocked(l, claims[u].mode)
    ensures LocalOk(Release(Uncount(l)), i, Left(l, i, claims, t), item)
  {
    hide FlagsOk, CountsOk, Signals, Blocked, Of, Release, Uncount, Used;
    UncountFlags(l, i, claims, t);
    UncountItem(l);
    if Signals(l) {
      BroadcastOk(Uncount(l), i, claims - {t});
    } else {
      forall u | u in claims - {t} && claims[u].lock == i && claims[u].phase.Asleep?
        ensures Blocked(Uncount(l), claims[u].mode)
      {
        NotSignalled(l, i, claims, t, u);
      }
    }
    ReleaseOk(Uncount(l), i, Left(l, i, claims, t));
  }

  lemma UncountItem(l: Locker)
    ensures Uncount(l).item == l.item
  {
  }

  lemma LeftElsewhere(l: Locker, i: nat, claims: map<Ticket, Claim>, t: Ticket)
    requires t in claims && claims[t].lock == i
    ensures var left := Left(l, i, claims, t);
            forall u :: (u in left && left[u].lock != i) || (u in claims && claims[u].lock != i)
              ==> u in left && u in claims && left[u] == claims[u]
    ensures var left := Left(l, i, claims, t);
            forall u :: u in left && left[u].lock == i ==> u in claims && claims[u].item == left[u].item
  {
  }

  lemma UnlockOk(s: State, t: Ticket)
    requires Inv(s) && t in s.claims && s.claims[t].phase.Held?
    ensures Inv(UnlockStep(s, t, s.claims[t].item))
  {
    hide Get, FlagsOk, CountsOk, Uncount, Blocked, Broadcast, Of, Left, Inv, Got, Distinct, Release;
    var item := s.claims[t].item;
    var (ls, i) := Get(s.lockers, item);
    HolderGot(s, t);
    GotFacts(s, ls, i, item);
    UnlockLocal(ls[i], i, s.claims, t, item);
    LeftElsewhere(ls[i], i, s.claims, t);
    UnlockIs(s, t, item);
    StepOk(s, ls, i, item, Release(Uncount(ls[i])), Left(ls[i], i, s.claims, t));
  }

  lemma UnlockIs(s: State, t: Ticket, item: Item)
    ensures var (ls, i) := Get(s.lockers, item);
            UnlockStep(s, t, item) == State(ls[i := Release(Uncount(ls[i]))], Left(ls[i], i, s.claims, t))
  {
  }

  /** The locker found by item is the one that served the claim. */
  lemma HolderGot(s: State, t: Ticket)
    requires Inv(s) && t in s.claims
    ensures var (ls, i) := Get(s.lockers, s.claims[t].item);
            s.claims[t].item != NULL && i == s.claims[t].lock && ls == s.lockers && Got(s, ls, i, s.claims[t].item)
  {
    WaitGot(s, t);
  }

  lemma NextOk(s: State, a: Action)
    requires Inv(s) && Enabled(s, a)
    ensures Inv(Next(s, a))
  {
    hide Inv, LockStep, TryReadStep, UnlockStep, Attempt;
    match a
    case LockRead(t, item) => LockOk(s, t, item, Read);
    case TryLockRead(t, item) => TryReadOk(s, t, item);
    case LockWrite(t, item) => LockOk(s, t, item, Write);
    case TryLockWrite(t, item) => TryWriteOk(s, t, item);
    case Wake(t) => WakeOk(s, t);
    case Unlock(t) => UnlockOk(s, t);
  }

  lemma {:induction false} ReachableOk(s: State, run: seq<Action>)
    requires Reachable(s, run)
    ensures Inv(s)
    decreases |run|
  {
    hide Next, Enabled, Inv;
    if run == [] {
      InitOk();
    } else {
      var a := run[|run| - 1];
      var p :| Stepped(p, a, s) && Reachable(p, run[..|run| - 1]);
      ReachableOk(p, run[..|run| - 1]);
      NextOk(p, a);
    }
  }

  lemma InitOk()
    ensures Inv(INIT)
  {
  }

  // ----- what every reachable state offers -----

  lemma OneHolder(s: State, t: Ticket, u: Ticket, item: Item, mode: Mode)
    requires Inv(s) && Holds(s, t, item, Write) && Holds(s, u, item, mode)
    ensures t == u
  {
    assert ClaimOk(s, s.claims[t]) && ClaimOk(s, s.claims[u]);
    var i := s.claims[t].lock;
    assert i == s.claims[u].lock;
    assert LockerOk(s, i);
    assert Held1(s.claims, t, i, Write) && Held1(s.claims, u, i, mode);
  }

  /** A writer shares its item with no other holder. */
  lemma Exclusion(s: State, run: seq<Action>, t: Ticket, u: Ticket, item: Item, mode: Mode)
    requires Reachable(s, run)
    requires Holds(s, t, item, Write) && Holds(s, u, item, mode)
    ensures t == u
  {
    ReachableOk(s, run);
    OneHolder(s, t, u, item, mode);
  }

  /** Counters are the numbers of holders and waiters, and an item has one locker at most. */
  lemma Counters(s: State, run: seq<Action>, i: nat)
    requires Reachable(s, run) && i < |s.lockers| && s.lockers[i].item != NULL
    ensures s.lockers[i].cntr == |Claims(s, s.lockers[i].item, Read)|
    ensures s.lockers[i].cntw == |Claims(s, s.lockers[i].item, Write)|
    ensures forall j :: 0 <= j < |s.lockers| && s.lockers[j].item == s.lockers[i].item ==> j == i
  {
    ReachableOk(s, run);
    assert LockerOk(s, i);
    LockerGot(s, i);
    ClaimsOf(s, s.lockers, i, s.lockers[i].item, Read);
    ClaimsOf(s, s.lockers, i, s.lockers[i].item, Write);
  }

  lemma Pick(ts: set<Ticket>) returns (t: Ticket)
    requires |ts| > 0
    ensures t in ts
  {
    assert (forall u :: u !in ts) ==> ts == {};
    t :| t in ts;
  }

  lemma LockerGot(s: State, i: nat)
    requires Inv(s) && i < |s.lockers| && s.lockers[i].item != NULL
    ensures Got(s, s.lockers, i, s.lockers[i].item)
  {
    assert LockerOk(s, i);
    var readers, writers := Of(s.claims, i, Read), Of(s.claims, i, Write);
    if |readers| > 0 {
      var t := Pick(readers);
      WaitGot(s, t);
    } else {
      assert |writers| > 0;
      var t := Pick(writers);
      WaitGot(s, t);
    }
  }

  ghost predicate Idle(s: State, i: nat) {
    forall t :: t in s.claims ==> s.claims[t].lock != i
  }

  /** A locker changes item only from or to a state where nobody holds it or waits on it. */
  lemma Recycling(s: State, run: seq<Action>, a: Action, i: nat)
    requires Reachable(s, run) && Enabled(s, a) && i < |s.lockers|
    ensures i < |Next(s, a).lockers|
    ensures Next(s, a).lockers[i].item != s.lockers[i].item ==>
              || (s.lockers[i].item == NULL && Idle(s, i))
              || (Next(s, a).lockers[i].item == NULL && Idle(Next(s, a), i))
  {
    hide Next, Inv, Enabled, Idle, Reachable;
    ReachableOk(s, run);
    NextOk(s, a);
    StepItem(s, a, i);
    if s.lockers[i].item == NULL { NoItemIdle(s, i); }
    if Next(s, a).lockers[i].item == NULL { NoItemIdle(Next(s, a), i); }
  }

  lemma NoItemIdle(s: State, i: nat)
    requires Inv(s) && i < |s.lockers| && s.lockers[i].item == NULL
    ensures Idle(s, i)
  {
    forall t | t in s.claims ensures s.claims[t].lock != i { assert ClaimOk(s, s.claims[t]); }
  }

  lemma StepItem(s: State, a: Action, i: nat)
    requires Enabled(s, a) && i < |s.lockers|
    ensures i < |Next(s, a).lockers|
    ensures Next(s, a).lockers[i].item in {s.lockers[i].item, NULL} || s.lockers[i].item == NULL
  {
  }

  // ----- no lost wake-up, no deadlock -----

  /** A waiter that was not signalled since it slept still sees what it waits for. */
  lemma NoLostWakeUp(s: State, run: seq<Action>, t: Ticket)
    requires Reachable(s, run) && t in s.claims && s.claims[t].phase.Asleep?
    ensures s.claims[t].lock < |s.lockers|
    ensures var l := s.lockers[s.claims[t].lock];
            l.item == s.claims[t].item && (l.lockw || (s.claims[t].mode.Write? && l.lockr))
  {
    ReachableOk(s, run);
    assert ClaimOk(s, s.claims[t]);
  }

  /** When nobody holds an item that is waited for, a signalled waiter is about to get it. */
  lemma NoDeadlock(s: State, run: seq<Action>, t: Ticket)
    requires Reachable(s, run) && t in s.claims && !s.claims[t].phase.Held?
    requires forall u, mode :: !Holds(s, u, s.claims[t].item, mode)
    ensures exists u :: u in s.claims && s.claims[u].item == s.claims[t].item && s.claims[u].phase.Signalled?
                        && Enabled(s, Wake(u)) && Holds(Next(s, Wake(u)), u, s.claims[t].item, s.claims[u].mode)
  {
    ReachableOk(s, run);
    WaitGot(s, t);
    var i, item := s.claims[t].lock, s.claims[t].item;
    forall u, mode ensures !Held1(s.claims, u, i, mode) {
      if Held1(s.claims, u, i, mode) {
        assert ClaimOk(s, s.claims[u]);
        assert Holds(s, u, item, mode);
      }
    }
    var u := NextHolder(s, t, i);
    assert Holds(Next(s, Wake(u)), u, item, s.claims[u].mode);
  }

  /** Without holder, a reader is not blocked; if there is none, a writer is not. */
  lemma NextHolder(s: State, t: Ticket, i: nat) returns (u: Ticket)
    requires Inv(s) && t in s.claims && s.claims[t].lock == i < |s.lockers|
    requires forall u, mode :: !Held1(s.claims, u, i, mode)
    ensures u in s.claims && s.claims[u].lock == i && s.claims[u].item == s.lockers[i].item
    ensures s.claims[u].phase.Signalled? && !Blocked(s.lockers[i], s.claims[u].mode)
  {
    assert LockerOk(s, i);
    u := t;
    if s.lockers[i].lockr {
      u := Pick(Of(s.claims, i, Read));
    }
    assert ClaimOk(s, s.claims[u]);
    assert !Held1(s.claims, u, i, s.claims[u].mode);
  }

  // ----- limits -----

  /** The counters have room for WIDTH - 1 claims of a kind: one more and the counter says none. */
  lemma Room(s: State, t: Ticket, item: Item, mode: Mode)
    requires Inv(s) && item != NULL && t !in s.claims
    ensures |Claims(s, item, mode)| < WIDTH
    ensures Inv(LockStep(s, t, item, mode)) <==> |Claims(s, item, mode)| < WIDTH - 1
    ensures var (ls, i) := Get(s.lockers, item);
            var s' := LockStep(s, t, item, mode);
            |Claims(s, item, mode)| == WIDTH - 1 ==>
              CountOf(s'.lockers[i], mode) == 0 && |Claims(s', item, mode)| == WIDTH
  {
    GetOk(s, item);
    var (ls, i) := Get(s.lockers, item);
    ClaimsOf(s, ls, i, item, mode);
    if |Claims(s, item, mode)| < WIDTH - 1 {
      hide LockStep, Inv;
      LockOk(s, t, item, mode);
    } else {
      NoRoom(s, t, item, mode);
    }
  }

  lemma NoRoom(s: State, t: Ticket, item: Item, mode: Mode)
    requires Inv(s) && item != NULL && t !in s.claims && |Claims(s, item, mode)| == WIDTH - 1
    ensures var (ls, i) := Get(s.lockers, item);
            var s' := LockStep(s, t, item, mode);
            CountOf(s'.lockers[i], mode) == 0 && |Claims(s', item, mode)| == WIDTH && !Inv(s')
  {
    GetOk(s, item);
    var (ls, i) := Get(s.lockers, item);
    ClaimsOf(s, ls, i, item, mode);
    hide Get, Of;
    var s' := LockStep(s, t, item, mode);
    OfSet(s.claims, t, s'.claims[t], i, mode);
    assert Claims(s', item, mode) == Claims(s, item, mode) + {t};
    assert !CountsOk(s'.lockers[i], i, s'.claims);
    assert !LockerOk(s', i);
  }

  /** The NULL item is not a lock: a reader of it makes any other item look read. */
  lemma NullItem(item: Item)
    requires item != NULL
    ensures var s := LockStep(LockStep(INIT, 0, NULL, Read), 1, item, Write);
            s.claims[1].phase.Asleep? && forall u, mode :: !Holds(s, u, item, mode)
  {
  }

  /** No writer of an item shares it with another holder. */
  ghost predicate Exclusive(s: State) {
    forall t, u, item, mode :: Holds(s, t, item, Write) && Holds(s, u, item, mode) ==> t == u
  }

  lemma InvExclusive(s: State)
    requires Inv(s)
    ensures Exclusive(s)
  {
    forall t, u, item, mode | Holds(s, t, item, Write) && Holds(s, u, item, mode) ensures t == u {
      OneHolder(s, t, u, item, mode);
    }
  }

  /**
   The non blocking write lock takes the item unless both flags are up.  It keeps exclusion, now and
   in all the later states, if and only if it is refused or nobody holds the item.
   */
  lemma TryWrite(s: State, t: Ticket, item: Item)
    requires Inv(s) && item != NULL && t !in s.claims && |Claims(s, item, Write)| < WIDTH - 1
    ensures Holds(TryWriteStep(s, t, item), t, item, Write) <==> !Refuses(s, item)
    ensures Exclusive(TryWriteStep(s, t, item)) <==> Refuses(s, item) || Free(s, item)
    ensures Inv(TryWriteStep(s, t, item)) <==> Refuses(s, item) || Free(s, item)
  {
    var s' := TryWriteStep(s, t, item);
    if Refuses(s, item) || Free(s, item) {
      TryWriteOk(s, t, item);
      InvExclusive(s');
    } else {
      var u, mode :| Holds(s, u, item, mode);
      assert Holds(s', u, item, mode) && Holds(s', t, item, Write);
      if Inv(s') { InvExclusive(s'); }
    }
  }

  /** A reader, then a non blocking writer: both hold the item. */
  lemma TryWriteBreaks(item: Item)
    requires item != NULL
    ensures Reachable(LockStep(INIT, 0, item, Read), [LockRead(0, item)])
    ensures !Exclusive(TryWriteStep(LockStep(INIT, 0, item, Read), 1, item))
  {
    var s := LockStep(INIT, 0, item, Read);
    First(item);
    assert Holds(s, 0, item, Read);
    var s' := TryWriteStep(s, 1, item);
    assert Holds(s', 0, item, Read) && Holds(s', 1, item, Write);
  }

  lemma Extend(s: State, run: seq<Action>, a: Action)
    requires Reachable(s, run) && Enabled(s, a)
    ensures Reachable(Next(s, a), run + [a])
  {
    hide Next, Enabled;
    var longer := run + [a];
    assert longer[..|longer| - 1] == run && longer[|longer| - 1] == a;
    assert Stepped(s, a, Next(s, a));
  }

  lemma First(item: Item)
    requires item != NULL
    ensures Reachable(LockStep(INIT, 0, item, Read), [LockRead(0, item)])
    ensures LockStep(INIT, 0, item, Read) == Crowded(item, 1)
  {
    assert Claims(INIT, item, Read) == {};
    Extend(INIT, [], LockRead(0, item));
    assert [] + [LockRead(0, item)] == [LockRead(0, item)];
    assert Crowded(item, 1).claims == map[0 := Claim(item, Read, 0, Held)];
  }

  function Tickets(n: nat): (r: set<Ticket>)
    ensures |r| == n && forall t :: t in r <==> 0 <= t < n
  {
    if n == 0 then {} else Tickets(n - 1) + {n - 1}
  }

  /** n readers of one item, all holding it. */
  function Crowded(item: Item, n: nat): State
    requires n < WIDTH
  {
    State([Locker(item, false, true, 0, n)], map t | t in Tickets(n) :: Claim(item, Read, 0, Held))
  }

  function Readers(item: Item, n: nat): seq<Action> {
    seq(n, i requires 0 <= i => LockRead(i, item))
  }

  lemma CrowdSize(item: Item, n: nat)
    requires n < WIDTH
    ensures |Claims(Crowded(item, n), item, Read)| == n
  {
    assert Claims(Crowded(item, n), item, Read) == Tickets(n);
  }

  lemma OneMoreReader(item: Item, n: nat)
    requires item != NULL && 0 < n < WIDTH - 1
    ensures Enabled(Crowded(item, n), LockRead(n, item))
    ensures LockStep(Crowded(item, n), n, item, Read) == Crowded(item, n + 1)
  {
    CrowdSize(item, n);
    var s := Crowded(item, n);
    assert Get(s.lockers, item) == (s.lockers, 0);
    var r := LockStep(s, n, item, Read);
    assert r.lockers == Crowded(item, n + 1).lockers;
    assert r.claims == Crowded(item, n + 1).claims;
  }

  lemma NextCrowd(item: Item, n: nat)
    requires item != NULL && 0 < n < WIDTH - 1 && Reachable(Crowded(item, n), Readers(item, n))
    ensures Reachable(Crowded(item, n + 1), Readers(item, n + 1))
  {
    hide LockStep, Enabled, Reachable, Crowded;
    OneMoreReader(item, n);
    Extend(Crowded(item, n), Readers(item, n), LockRead(n, item));
    hide Next;
    assert Readers(item, n + 1) == Readers(item, n) + [LockRead(n, item)];
  }

  /** Any number of readers below the limit is reached. */
  lemma {:induction false} CrowdReached(item: Item, n: nat)
    requires item != NULL && 0 < n < WIDTH
    ensures Reachable(Crowded(item, n), Readers(item, n))
  {
    if n == 1 {
      First(item);
      assert Readers(item, 1) == [LockRead(0, item)];
    } else {
      CrowdReached(item, n - 1);
      NextCrowd(item, n - 1);
    }
  }

  /** The limit of the counters is reached, and the next reader breaks them: the count of 32768 readers is 0. */
  lemma Overflow(item: Item)
    requires item != NULL
    ensures WIDTH == 32768 && Reachable(Crowded(item, WIDTH - 1), Readers(item, WIDTH - 1))
    ensures var s := LockStep(Crowded(item, WIDTH - 1), WIDTH, item, Read);
            var (ls, i) := Get(Crowded(item, WIDTH - 1).lockers, item);
            s.lockers[i].cntr == 0 && |Claims(s, item, Read)| == WIDTH && !Inv(s)
  {
    hide LockStep, Get, Inv, Claims, Crowded;
    CrowdReached(item, WIDTH - 1);
    ReachableOk(Crowded(item, WIDTH - 1), Readers(item, WIDTH - 1));
    CrowdSize(item, WIDTH - 1);
    NewTicket(item);
    Room(Crowded(item, WIDTH - 1), WIDTH, item, Read);
  }

  lemma NewTicket(item: Item)
    ensures WIDTH !in Crowded(item, WIDTH - 1).claims
  {
  }

  // ----- what each step does for the callers -----

  /** A call as its thread sees it: nothing of the lockers. */
  datatype Call = Call(item: Item, mode: Mode, phase: Phase)

  function Calls(claims: map<Ticket, Claim>): map<Ticket, Call> {
    map t | t in claims :: Call(claims[t].item, claims[t].mode, claims[t].phase)
  }

  ghost predicate Written(s: State, item: Item) {
    exists u :: Holds(s, u, item, Write)
  }

  /** The read flag of the item, which outlives the readers as long as others wait for it. */
  ghost predicate ReadFlag(s: State, item: Item) {
    exists i :: 0 <= i < |s.lockers| && s.lockers[i].item == item && s.lockers[i].lockr
  }

  /** What a blocking call gets when it looks at the flags. */
  ghost function Turn(s: State, item: Item, mode: Mode): Phase {
    if Written(s, item) || (mode.Write? && ReadFlag(s, item)) then Asleep else Held
  }

  function Woken(calls: map<Ticket, Call>, item: Item): map<Ticket, Call> {
    map t | t in calls ::
      if calls[t].item == item && calls[t].phase.Asleep? then calls[t].(phase := Signalled) else calls[t]
  }

  /** Each action on the calls: who holds, who sleeps, who is signalled; all the others are as before. */
  ghost predicate Effect(s: State, a: Action, s': State) {
    var c, c' := Calls(s.claims), Calls(s'.claims);
    match a
    case LockRead(t, item) => c' == c[t := Call(item, Read, Turn(s, item, Read))]
    case LockWrite(t, item) => c' == c[t := Call(item, Write, Turn(s, item, Write))]
    case TryLockRead(t, item) => c' == if Written(s, item) then c else c[t := Call(item, Read, Held)]
    case TryLockWrite(t, item) =>
      c' == if Written(s, item) && ReadFlag(s, item) then c else c[t := Call(item, Write, Held)]
    case Wake(t) => t in c && c' == c[t := c[t].(phase := Turn(s, c[t].item, c[t].mode))]
    case Unlock(t) =>
      && t in c
      && c' == if c[t].mode.Write? || Claims(s, c[t].item, Read) == {t} then Woken(c - {t}, c[t].item) else c - {t}
  }

  /** A new ticket, and an item, in a state of the invariant. */
  ghost predicate Fair(s: State, item: Item, t: Ticket) {
    Inv(s) && item != NULL && t !in s.claims
  }

  lemma FlagsSeen(s: State, item: Item)
    requires Inv(s) && item != NULL
    ensures var (ls, i) := Get(s.lockers, item);
            (ls[i].lockw <==> Written(s, item)) && (ls[i].lockr <==> ReadFlag(s, item))
  {
    GetOk(s, item);
    var (ls, i) := Get(s.lockers, item);
    WriteSeen(s, ls, i, item);
    if i < |s.lockers| { assert LockerOk(s, i); }
    forall j | 0 <= j < |s.lockers| && s.lockers[j].item == item ensures j == i && ls == s.lockers {
      if Where(s.lockers, item) < 0 { assert false; }
    }
  }

  lemma WriteSeen(s: State, ls: seq<Locker>, i: nat, item: Item)
    requires Inv(s) && item != NULL && Got(s, ls, i, item)
    ensures ls[i].lockw <==> Written(s, item)
  {
    forall u ensures Holds(s, u, item, Write) <==> Held1(s.claims, u, i, Write) {
      if u in s.claims { SameLock(s, ls, i, item, u); }
    }
    if Written(s, item) {
      var u :| Holds(s, u, item, Write);
      assert Held1(s.claims, u, i, Write);
    }
    if ls[i].lockw {
      var u :| Held1(s.claims, u, i, Write);
      assert Holds(s, u, item, Write);
    }
  }

  lemma SameLock(s: State, ls: seq<Locker>, i: nat, item: Item, u: Ticket)
    requires Inv(s) && item != NULL && Got(s, ls, i, item) && u in s.claims
    ensures s.claims[u].lock == i <==> s.claims[u].item == item
  {
    assert ClaimOk(s, s.claims[u]);
  }

  /** Readers that hold are seen by the flag, and the flag means that some reader holds or is on its way. */
  lemma ReadFlagMeans(s: State, item: Item)
    requires Inv(s) && item != NULL
    ensures (exists u :: Holds(s, u, item, Read)) ==> ReadFlag(s, item)
    ensures ReadFlag(s, item) ==> Claims(s, item, Read) != {}
  {
    GetOk(s, item);
    FlagsSeen(s, item);
    var (ls, i) := Get(s.lockers, item);
    ClaimsOf(s, ls, i, item, Read);
    if u :| Holds(s, u, item, Read) {
      SameLock(s, ls, i, item, u);
      assert Held1(s.claims, u, i, Read);
    }
  }

  /** States of a run: a writer, a reader that sleeps behind it and is signalled, another reader that comes and goes. */
  function Late(item: Item, k: nat): State
    requires k <= 5
  {
    var w, r := Claim(item, Write, 0, Held), Claim(item, Read, 0, Held);
    match k
    case 0 => INIT
    case 1 => State([Locker(item, true, false, 1, 0)], map[0 := w])
    case 2 => State([Locker(item, true, false, 1, 1)], map[0 := w, 1 := r.(phase := Asleep)])
    case 3 => State([Locker(item, false, false, 0, 1)], map[1 := r.(phase := Signalled)])
    case 4 => State([Locker(item, false, true, 0, 2)], map[1 := r.(phase := Signalled), 2 := r])
    case _ => State([Locker(item, false, true, 0, 1)], map[1 := r.(phase := Signalled)])
  }

  function LateRun(item: Item): seq<Action> {
    [Action.LockWrite(0, item), LockRead(1, item), Unlock(0), LockRead(2, item), Unlock(2)]
  }

  lemma LateLocks(item: Item, k: nat)
    requires item != NULL && (k == 0 || k == 1 || k == 3)
    ensures Stepped(Late(item, k), LateRun(item)[k], Late(item, k + 1))
  {
    var s := Late(item, k);
    if k == 0 {
      assert Claims(s, item, Write) == {};
    } else {
      assert Claims(s, item, Read) == if k == 1 then {} else {1};
      assert Get(s.lockers, item) == (s.lockers, 0);
    }
  }

  lemma LateUnlocks(item: Item, k: nat)
    requires item != NULL && (k == 2 || k == 4)
    ensures Stepped(Late(item, k), LateRun(item)[k], Late(item, k + 1))
  {
    var s := Late(item, k);
    assert Get(s.lockers, item) == (s.lockers, 0);
    if k == 2 {
      assert Broadcast(s.claims - {0}, 0) == Late(item, 3).claims;
    } else {
      assert s.claims - {2} == Late(item, 5).claims;
    }
  }

  lemma {:induction false} LateReached(item: Item, k: nat)
    requires item != NULL && k <= 5
    ensures Reachable(Late(item, k), LateRun(item)[..k])
  {
    hide Stepped, Late;
    if k == 0 {
      assert Late(item, 0) == INIT by { LateStart(item); }
    } else {
      LateReached(item, k - 1);
      if k == 3 || k == 5 { LateUnlocks(item, k - 1); } else { LateLocks(item, k - 1); }
      assert LateRun(item)[..k][..k - 1] == LateRun(item)[..k - 1] && LateRun(item)[..k][k - 1] == LateRun(item)[k - 1];
    }
  }

  lemma LateStart(item: Item)
    ensures Late(item, 0) == INIT
  {
  }

  /** The flag may stay up after its readers: the item is free, and a writer has to sleep. */
  lemma StaleFlag(item: Item)
    requires item != NULL
    ensures var s := Late(item, 5);
            Reachable(s, LateRun(item)) && Free(s, item) && Turn(s, item, Write).Asleep?
  {
    LateReached(item, 5);
    assert LateRun(item)[..5] == LateRun(item);
    assert Late(item, 5).lockers[0].lockr;
    hide Reachable;
  }

  lemma LockEffect(s: State, t: Ticket, item: Item, mode: Mode)
    requires Inv(s) && item != NULL && t !in s.claims
    ensures Effect(s, if mode.Read? then LockRead(t, item) else LockWrite(t, item), LockStep(s, t, item, mode))
  {
    FlagsSeen(s, item);
    hide Get;
  }

  lemma TryReadEffect(s: State, t: Ticket, item: Item)
    requires Inv(s) && item != NULL && t !in s.claims
    ensures Effect(s, TryLockRead(t, item), TryReadStep(s, t, item))
    ensures Holds(TryReadStep(s, t, item), t, item, Read) <==> forall u :: !Holds(s, u, item, Write)
  {
    FlagsSeen(s, item);
    hide Get;
  }

  lemma TryWriteEffect(s: State, t: Ticket, item: Item)
    requires Inv(s) && item != NULL && t !in s.claims
    ensures Effect(s, TryLockWrite(t, item), TryWriteStep(s, t, item))
    ensures Refuses(s, item) <==> Written(s, item) && ReadFlag(s, item)
  {
    FlagsSeen(s, item);
    hide Get;
  }

  lemma WakeEffect(s: State, t: Ticket)
    requires Inv(s) && t in s.claims && s.claims[t].lock < |s.lockers|
    ensures Effect(s, Wake(t), Attempt(s, t, s.claims[t].item, s.claims[t].mode, s.claims[t].lock))
  {
    HolderGot(s, t);
    FlagsSeen(s, s.claims[t].item);
    hide Get, Inv;
  }

  /** Signals are for the last holder: a writer, or the only reader, waiting ones included. */
  lemma SignalsLast(l: Locker, i: nat, claims: map<Ticket, Claim>, t: Ticket)
    requires FlagsOk(l, i, claims) && CountsOk(l, i, claims)
    requires t in claims && claims[t].lock == i && claims[t].phase.Held?
    ensures Signals(l) <==> (claims[t].mode.Write? || Of(claims, i, Read) == {t}) && Used(Uncount(l))
    ensures !Used(Uncount(l)) ==> Of(claims, i, Read) + Of(claims, i, Write) == {t}
  {
    UncountFlags(l, i, claims, t);
    var m := claims[t].mode;
    assert t in Of(claims, i, m);
    OfDrop(claims, t, i, Read);
    OfDrop(claims, t, i, Write);
    if m.Read? { OneLeft(Of(claims, i, Read), t); }
    hide Of, FlagsOk;
    EmptyCounts(Uncount(l), i, claims - {t});
  }

  lemma OneLeft(a: set<Ticket>, t: Ticket)
    requires t in a
    ensures |a| == 1 <==> a == {t}
  {
    assert a == {t} + (a - {t});
  }

  lemma EmptyCounts(l: Locker, i: nat, claims: map<Ticket, Claim>)
    requires CountsOk(l, i, claims)
    ensures !Used(l) ==> Of(claims, i, Read) == {} && Of(claims, i, Write) == {}
  {
  }

  lemma UnlockEffect(s: State, t: Ticket)
    requires Inv(s) && t in s.claims && s.claims[t].phase.Held?
    ensures Effect(s, Unlock(t), UnlockStep(s, t, s.claims[t].item))
  {
    hide Inv, Get, Signals, Used, Uncount, FlagsOk, CountsOk, Of, Broadcast, Release;
    HolderGot(s, t);
    var item, i := s.claims[t].item, s.claims[t].lock;
    var l := s.lockers[i];
    ClaimsOf(s, s.lockers, i, item, Read);
    ClaimsOf(s, s.lockers, i, item, Write);
    SignalsLast(l, i, s.claims, t);
    UnlockIs(s, t, item);
    forall u | u in s.claims ensures s.claims[u].lock == i <==> s.claims[u].item == item {
      SameLock(s, s.lockers, i, item, u);
    }
    hide Got;
    LeftCalls(s.claims, i, item, t, Signals(l));
  }

  /** What unlocking tells: whether a call on the item is left. */
  lemma UnlockUsed(s: State, t: Ticket)
    requires Inv(s) && t in s.claims && s.claims[t].phase.Held?
    ensures var (item, i) := (s.claims[t].item, s.claims[t].lock);
            var s' := UnlockStep(s, t, item);
            && i == Get(s.lockers, item).1 && i < |s'.lockers|
            && (Used(s'.lockers[i]) <==> exists u :: u in s'.claims && s'.claims[u].item == item)
  {
    var item, i := s.claims[t].item, s.claims[t].lock;
    var l := s.lockers[i];
    HolderGot(s, t);
    ClaimsOf(s, s.lockers, i, item, Read);
    ClaimsOf(s, s.lockers, i, item, Write);
    SignalsLast(l, i, s.claims, t);
    UncountFlags(l, i, s.claims, t);
    LeftItems(l, i, s.claims, t);
    UnlockIs(s, t, item);
    hide Inv, Get, Got, Signals, Uncount, FlagsOk, Left;
    SomeLeft(Uncount(l), i, s.claims - {t});
    forall u | u in s.claims ensures s.claims[u].lock == i <==> s.claims[u].item == item {
      SameLock(s, s.lockers, i, item, u);
    }
  }

  lemma Unlocking(s: State, t: Ticket, item: Item)
    requires Inv(s) && exists mode :: Holds(s, t, item, mode)
    ensures var s' := UnlockStep(s, t, item);
            var i := Get(s.lockers, item).1;
            && Effect(s, Unlock(t), s') && i < |s'.lockers|
            && (Used(s'.lockers[i]) <==> exists u :: u in s'.claims && s'.claims[u].item == item)
  {
    UnlockEffect(s, t);
    UnlockUsed(s, t);
  }

  lemma LeftItems(l: Locker, i: nat, claims: map<Ticket, Claim>, t: Ticket)
    ensures var left := Left(l, i, claims, t);
            left.Keys == claims.Keys - {t} && forall u :: u in left ==> left[u].item == claims[u].item
  {
  }

  lemma SomeLeft(l: Locker, i: nat, claims: map<Ticket, Claim>)
    requires CountsOk(l, i, claims)
    ensures Used(l) <==> exists u :: u in claims && claims[u].lock == i
  {
    EmptyCounts(l, i, claims);
    if Used(l) {
      var m := if l.cntr != 0 then Read else Write;
      var calls := Of(claims, i, m);
      assert (forall u :: u !in calls) ==> calls == {};
      var u :| u in calls;
      assert u in claims && claims[u].lock == i;
    }
    if u :| u in claims && claims[u].lock == i {
      assert u in Of(claims, i, claims[u].mode);
    }
  }

  lemma LeftCalls(claims: map<Ticket, Claim>, i: nat, item: Item, t: Ticket, signals: bool)
    requires t in claims && claims[t].lock == i
    requires forall u :: u in claims ==> (claims[u].lock == i <==> claims[u].item == item)
    ensures Calls(Broadcast(claims - {t}, i)) == Woken(Calls(claims) - {t}, item)
    ensures Calls(claims - {t}) == Calls(claims) - {t}
  {
    var a, b := Calls(Broadcast(claims - {t}, i)), Woken(Calls(claims) - {t}, item);
    assert a.Keys == claims.Keys - {t} == b.Keys;
    forall u | u in a ensures a[u] == b[u] {
      assert claims[u].lock == i <==> claims[u].item == item;
    }
  }

  lemma NextEffect(s: State, a: Action)
    requires Inv(s) && Enabled(s, a)
    ensures Effect(s, a, Next(s, a))
  {
    match a
    case LockRead(t, item) => LockEffect(s, t, item, Read);
    case TryLockRead(t, item) => TryReadEffect(s, t, item);
    case LockWrite(t, item) => LockEffect(s, t, item, Write);
    case TryLockWrite(t, item) => TryWriteEffect(s, t, item);
    case Wake(t) => WakeEffect(s, t);
    case Unlock(t) => UnlockEffect(s, t);
  }

  // ----- the pool itself -----

  const X_EAGAIN := -11

  /** The static list of lockers, with the claims of the threads that use it. */
  class Pool {
    var lockers: seq<Locker>
    ghost var claims: map<Ticket, Claim>

    ghost function Now(): State
      reads this
    {
      State(lockers, claims)
    }

    constructor ()
      ensures Now() == INIT
    {
      lockers, claims := [], map[];
    }

    method LockerGet(item: Item) returns (i: nat)
      modifies this`lockers
      ensures (lockers, i) == Get(old(lockers), item)
    {
      var k, unused := |lockers| - 1, -1;
      while k >= 0 && lockers[k].item != item && lockers[k].item != NULL
        invariant -1 <= k < |lockers|
        invariant forall j :: k < j < |lockers| ==> lockers[j].item != item && lockers[j].item != NULL
      {
        k := k - 1;
      }
      if k >= 0 && lockers[k].item != item {
        unused, k := k, k - 1;
        while k >= 0 && lockers[k].item != item
          invariant -1 <= k < |lockers|
          invariant forall j :: k < j < |lockers| ==> lockers[j].item != item
        {
          k := k - 1;
        }
      }
      if k < 0 {
        if unused >= 0 {
          lockers := lockers[unused := lockers[unused].(item := item)];
          k := unused;
        } else {
          lockers := lockers + [Locker(item, false, false, 0, 0)];
          k := |lockers| - 1;
        }
      }
      i := k;
    }

    method LockerRelease(i: nat)
      requires i < |lockers|
      modifies this`lockers
      ensures lockers == old(lockers)[i := Release(old(lockers)[i])]
    {
      if lockers[i].cntw == 0 && lockers[i].cntr == 0 {
        lockers := lockers[i := lockers[i].(item := NULL)];
      }
    }

    /** The body of the waiting loop of a reader: the mutex is given back either way. */
    method ReaderLoop(i: nat, item: Item, ghost t: Ticket)
      requires i < |lockers|
      modifies this
      ensures Now() == Attempt(old(Now()), t, item, Read, i)
    {
      if lockers[i].lockw {
        claims := claims[t := Claim(item, Read, i, Asleep)];
      } else {
        lockers := lockers[i := lockers[i].(lockr := true)];
        LockerRelease(i);
        claims := claims[t := Claim(item, Read, i, Held)];
      }
    }

    method WriterLoop(i: nat, item: Item, ghost t: Ticket)
      requires i < |lockers|
      modifies this
      ensures Now() == Attempt(old(Now()), t, item, Write, i)
    {
      if lockers[i].lockw || lockers[i].lockr {
        claims := claims[t := Claim(item, Write, i, Asleep)];
      } else {
        lockers := lockers[i := lockers[i].(lockw := true)];
        LockerRelease(i);
        claims := claims[t := Claim(item, Write, i, Held)];
      }
    }

    /** Returns the locker to which the thread comes back when it wakes. */
    method LockRead(item: Item, ghost t: Ticket) returns (i: nat)
      modifies this
      ensures Now() == LockStep(old(Now()), t, item, Read)
      ensures t in claims && claims[t].lock == i
      ensures Fair(old(Now()), item, t) ==> Effect(old(Now()), Action.LockRead(t, item), Now())
    {
      hide Inv, Effect;
      if Fair(Now(), item, t) { LockEffect(Now(), t, item, Read); }
      i := LockerGet(item);
      lockers := lockers[i := lockers[i].(cntr := (lockers[i].cntr + 1) % WIDTH)];
      ReaderLoop(i, item, t);
    }

    method LockWrite(item: Item, ghost t: Ticket) returns (i: nat)
      modifies this
      ensures Now() == LockStep(old(Now()), t, item, Write)
      ensures t in claims && claims[t].lock == i
      ensures Fair(old(Now()), item, t) ==> Effect(old(Now()), Action.LockWrite(t, item), Now())
    {
      hide Inv, Effect;
      if Fair(Now(), item, t) { LockEffect(Now(), t, item, Write); }
      i := LockerGet(item);
      lockers := lockers[i := lockers[i].(cntw := (lockers[i].cntw + 1) % WIDTH)];
      WriterLoop(i, item, t);
    }

    method TryLockRead(item: Item, ghost t: Ticket) returns (rc: int)
      modifies this
      ensures Now() == TryReadStep(old(Now()), t, item)
      ensures rc == (if Get(old(lockers), item).0[Get(old(lockers), item).1].lockw then X_EAGAIN else 0)
      ensures Fair(old(Now()), item, t) ==>
                && Effect(old(Now()), Action.TryLockRead(t, item), Now())
                && (rc == 0 <==> Holds(Now(), t, item, Read)) && (rc == X_EAGAIN <==> Written(old(Now()), item))
    {
      hide Inv, Effect;
      if Fair(Now(), item, t) { TryReadEffect(Now(), t, item); }
      rc := 0;
      var i := LockerGet(item);
      if lockers[i].lockw {
        rc := X_EAGAIN;
      } else {
        lockers := lockers[i := lockers[i].(cntr := (lockers[i].cntr + 1) % WIDTH, lockr := true)];
        claims := claims[t := Claim(item, Read, i, Held)];
      }
      LockerRelease(i);
    }

    method TryLockWrite(item: Item, ghost t: Ticket) returns (rc: int)
      modifies this
      ensures Now() == TryWriteStep(old(Now()), t, item)
      ensures rc == if Refuses(old(Now()), item) then X_EAGAIN else 0
      ensures Fair(old(Now()), item, t) ==>
                && Effect(old(Now()), Action.TryLockWrite(t, item), Now())
                && (rc == 0 <==> Holds(Now(), t, item, Write))
                && (rc == X_EAGAIN <==> Written(old(Now()), item) && ReadFlag(old(Now()), item))
    {
      hide Inv, Effect;
      if Fair(Now(), item, t) { TryWriteEffect(Now(), t, item); }
      rc := 0;
      var i := LockerGet(item);
      if lockers[i].lockw && lockers[i].lockr {
        rc := X_EAGAIN;
      } else {
        lockers := lockers[i := lockers[i].(cntw := (lockers[i].cntw + 1) % WIDTH, lockw := true)];
        claims := claims[t := Claim(item, Write, i, Held)];
      }
      LockerRelease(i);
    }

    /** Returns whether the item is still held or waited for. */
    method Unlock(item: Item, ghost t: Ticket) returns (rc: bool)
      modifies this
      ensures Now() == UnlockStep(old(Now()), t, item)
      ensures rc == Used(lockers[Get(old(lockers), item).1])
      ensures Inv(old(Now())) && (exists mode :: Holds(old(Now()), t, item, mode)) ==>
                && Effect(old(Now()), Action.Unlock(t), Now())
                && (rc <==> exists u :: u in claims && claims[u].item == item)
    {
      ghost var s := Now();
      hide Inv, Effect, Holds;
      if Inv(s) && exists mode :: Holds(s, t, item, mode) { Unlocking(s, t, item); }
      var sig := false;
      var i := LockerGet(item);
      ghost var was := lockers[i];
      claims := claims - {t};
      if lockers[i].lockw {
        lockers := lockers[i := lockers[i].(lockw := false, cntw := (lockers[i].cntw + WIDTH - 1) % WIDTH)];
        sig := true;
      } else if lockers[i].lockr {
        lockers := lockers[i := lockers[i].(cntr := (lockers[i].cntr + WIDTH - 1) % WIDTH)];
        if lockers[i].cntr == 0 {
          sig := true;
          lockers := lockers[i := lockers[i].(lockr := false)];
        }
      }
      assert lockers[i] == Uncount(was);
      rc := lockers[i].cntw != 0 || lockers[i].cntr != 0;
      if rc && sig {
        claims := Broadcast(claims, i);
      }
      LockerRelease(i);
    }
  }
}
