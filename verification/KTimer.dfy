/**
 POSIX and interval timers of kernel/ktimer.c: a table of slots swept once per tick. The
 arithmetic of a sweep is shown to account for every period exactly, whatever the times at
 which the sweeps happen.
 */
module KTimer {
  import opened Machine

  const KTIMER_MAX: nat := 64
  const ITIMER_REAL: int := 0
  const ITIMER_VIRTUAL: int := 1
  const ITIMER_PROF: int := 2

  /** `which` is negative for a POSIX timer. `signo` is zero where no signal is wanted. */
  datatype Timer = Timer(used: bool, armed: bool, owner: nat, id: nat, which: int, signo: nat,
                         expiry: nat, interval: nat, overrun: nat)

  const EMPTY: Timer := Timer(false, false, 0, 0, 0, 0, 0, 0, 0)

  /** Ticks since boot, and the user and system ticks of every process. */
  datatype Clock = Clock(wall: nat, user: nat -> nat, sys: nat -> nat)

  function Now(c: Clock, t: Timer): nat
  {
    if t.which == ITIMER_VIRTUAL then c.user(t.owner)
    else if t.which == ITIMER_PROF then c.user(t.owner) + c.sys(t.owner)
    else c.wall
  }

  // ----------------------------------------------------------------- one timer, one sweep

  predicate Expires(t: Timer, now: nat)
  {
    t.used && t.armed && now >= t.expiry
  }

  /** The periods beyond the first that have passed unnoticed. */
  function Missed(t: Timer, now: nat): nat
  {
    if Expires(t, now) && t.interval > 0 then (now - t.expiry) / t.interval else 0
  }

  function Swept(t: Timer, now: nat): Timer
  {
    if !Expires(t, now) then t
    else if t.interval == 0 then t.(armed := false)
    else
      var late := now - t.expiry;
      t.(overrun := (t.overrun + (late / t.interval) % U32) % U32,
         expiry := (now + t.interval - late % t.interval) % U64)
  }

  /** ktimer_remaining. */
  function Remaining(t: Timer, now: nat): (left: nat)
    ensures left == 0 <==> !t.armed
  {
    if !t.armed then 0 else if t.expiry > now then t.expiry - now else 1
  }

  /** The new expiry is the old one moved by the periods that have begun, and it is the
      first one after now. */
  lemma SweepMoves(t: Timer, now: nat)
    requires Expires(t, now) && t.interval > 0 && now + t.interval < U64
    ensures var n := 1 + Missed(t, now);
            && Swept(t, now).expiry == t.expiry + n * t.interval
            && now < Swept(t, now).expiry <= now + t.interval
  {
    var late := now - t.expiry;
    var q, rem := late / t.interval, late % t.interval;
    assert late == t.interval * q + rem;
    assert (1 + q) * t.interval == t.interval + t.interval * q;
  }

  /** With 64-bit ticks the next expiry is after now exactly if it does not wrap. */
  lemma AfterNowIff(t: Timer, now: nat)
    requires Expires(t, now) && 0 < t.interval < U64 && now < U64
    ensures now < Swept(t, now).expiry <==> now + t.interval - (now - t.expiry) % t.interval < U64
  {
    var next := now + t.interval - (now - t.expiry) % t.interval;
    if next >= U64 {
      ModUnique(next, U64, 1, next - U64);
    }
  }

  // ------------------------------------------------------------------- every run of sweeps

  function Sweeps(t: Timer, nows: seq<nat>): Timer
    decreases |nows|
  {
    if nows == [] then t else Swept(Sweeps(t, nows[..|nows| - 1]), nows[|nows| - 1])
  }

  /** How often the timer has fired, and how many periods were counted as overrun. */
  function Fired(t: Timer, nows: seq<nat>): nat
    decreases |nows|
  {
    if nows == [] then 0
    else
      var n := |nows| - 1;
      Fired(t, nows[..n]) + if Expires(Sweeps(t, nows[..n]), nows[n]) then 1 else 0
  }

  function Overran(t: Timer, nows: seq<nat>): nat
    decreases |nows|
  {
    if nows == [] then 0
    else
      var n := |nows| - 1;
      Overran(t, nows[..n]) + Missed(Sweeps(t, nows[..n]), nows[n])
  }

  ghost predicate Rising(nows: seq<nat>)
  {
    forall i, j | 0 <= i < j < |nows| :: nows[i] <= nows[j]
  }

  /** The periods that have begun by `now`. */
  function Periods(first: nat, interval: nat, now: nat): nat
    requires interval > 0
  {
    if now < first then 0 else (now - first) / interval + 1
  }

  lemma {:induction false} SweepsKeep(t: Timer, nows: seq<nat>)
    requires t.used && t.armed && t.interval > 0
    ensures var u := Sweeps(t, nows);
            u.used && u.armed && u.interval == t.interval && u.owner == t.owner && u.which == t.which
    decreases |nows|
  {
    if nows != [] {
      SweepsKeep(t, nows[..|nows| - 1]);
    }
  }

  /** The time n intervals after the first expiry. */
  function After(first: nat, interval: nat, n: nat): nat
    decreases n
  {
    if n == 0 then first else After(first, interval, n - 1) + interval
  }

  lemma {:induction false} AfterIsProduct(first: nat, interval: nat, n: nat)
    ensures After(first, interval, n) == first + n * interval
    decreases n
  {
    if n > 0 {
      AfterIsProduct(first, interval, n - 1);
    }
  }

  lemma {:induction false} AfterAfter(first: nat, interval: nat, n: nat, m: nat)
    ensures After(After(first, interval, n), interval, m) == After(first, interval, n + m)
    decreases m
  {
    if m > 0 {
      AfterAfter(first, interval, n, m - 1);
    }
  }

  /** After n periods, the last of them begun by `last`, the expiry is this. */
  ghost predicate Tally(first: nat, interval: nat, expiry: nat, n: nat, last: Option<nat>)
  {
    && expiry == After(first, interval, n)
    && (last.Some? ==> last.value < expiry)
    && (n > 0 ==> last.Some? && expiry <= last.value + interval)
  }

  function Last(nows: seq<nat>): Option<nat>
  {
    if nows == [] then None else Some(nows[|nows| - 1])
  }

  /** The times do not fall, and one interval after each still fits 64 bits. */
  ghost predicate InOrder(nows: seq<nat>, interval: nat)
    decreases |nows|
  {
    nows == []
    || (InOrder(nows[..|nows| - 1], interval)
        && nows[|nows| - 1] + interval < U64
        && (|nows| > 1 ==> nows[|nows| - 2] <= nows[|nows| - 1]))
  }

  lemma {:induction false} RisingInOrder(nows: seq<nat>, interval: nat)
    requires Rising(nows) && forall i | 0 <= i < |nows| :: nows[i] + interval < U64
    ensures InOrder(nows, interval)
    decreases |nows|
  {
    if nows != [] {
      RisingInOrder(nows[..|nows| - 1], interval);
    }
  }

  lemma {:induction false} SweepsAccount(t: Timer, nows: seq<nat>)
    requires t.used && t.armed && t.interval > 0 && InOrder(nows, t.interval)
    ensures Tally(t.expiry, t.interval, Sweeps(t, nows).expiry, Fired(t, nows) + Overran(t, nows), Last(nows))
    decreases |nows|
  {
    if nows != [] {
      var before, now := nows[..|nows| - 1], nows[|nows| - 1];
      SweepsAccount(t, before);
      SweepsKeep(t, before);
      assert nows == before + [now];
      var u := Sweeps(t, before);
      LastSweep(t, before, now);
      SweepBegins(u, now);
      TallyStep(t.expiry, t.interval, u.expiry, Fired(t, before) + Overran(t, before), Last(before),
                Begun(u, now), Swept(u, now).expiry, now);
    }
  }

  lemma SweepMovesOn(t: Timer, now: nat)
    requires Expires(t, now) && t.interval > 0 && now + t.interval < U64
    ensures Swept(t, now).expiry == After(t.expiry, t.interval, 1 + Missed(t, now))
    ensures now < Swept(t, now).expiry <= now + t.interval
  {
    SweepMoves(t, now);
    AfterIsProduct(t.expiry, t.interval, 1 + Missed(t, now));
  }

  /** The periods that begin at one sweep. */
  function Begun(t: Timer, now: nat): nat
  {
    if Expires(t, now) then 1 + Missed(t, now) else 0
  }

  lemma SweepBegins(t: Timer, now: nat)
    requires t.used && t.armed && t.interval > 0 && now + t.interval < U64
    ensures Swept(t, now).expiry == After(t.expiry, t.interval, Begun(t, now))
    ensures now < Swept(t, now).expiry
    ensures Begun(t, now) > 0 ==> Swept(t, now).expiry <= now + t.interval
    ensures Begun(t, now) == 0 ==> Swept(t, now) == t
  {
    if Expires(t, now) {
      SweepMovesOn(t, now);
    }
  }

  lemma LastSweep(t: Timer, before: seq<nat>, now: nat)
    ensures Sweeps(t, before + [now]) == Swept(Sweeps(t, before), now)
    ensures Fired(t, before + [now]) + Overran(t, before + [now])
            == Fired(t, before) + Overran(t, before) + Begun(Sweeps(t, before), now)
  {
    assert (before + [now])[..|before|] == before;
  }

  lemma TallyStep(first: nat, interval: nat, expiry: nat, n: nat, last: Option<nat>, b: nat, expiry': nat, now: nat)
    requires Tally(first, interval, expiry, n, last) && (last.Some? ==> last.value <= now)
    requires expiry' == After(expiry, interval, b) && now < expiry'
    requires if b > 0 then expiry' <= now + interval else expiry' == expiry
    ensures Tally(first, interval, expiry', n + b, Some(now))
  {
    AfterAfter(first, interval, n, b);
  }

  /** In every run of sweeps at non-decreasing times, an interval timer's expiry is its
      first expiry moved by one interval for each firing and each overrun; their sum is
      the number of periods that have begun, so it depends on the last time alone. */
  lemma PeriodsExact(t: Timer, nows: seq<nat>)
    requires t.used && t.armed && t.interval > 0 && Rising(nows) && nows != []
    requires forall i | 0 <= i < |nows| :: nows[i] + t.interval < U64
    ensures var u, last := Sweeps(t, nows), nows[|nows| - 1];
            && u.expiry == t.expiry + (Fired(t, nows) + Overran(t, nows)) * t.interval
            && last < u.expiry
            && Fired(t, nows) + Overran(t, nows) == Periods(t.expiry, t.interval, last)
  {
    RisingInOrder(nows, t.interval);
    SweepsAccount(t, nows);
    TallyCounts(t.expiry, t.interval, Sweeps(t, nows).expiry, Fired(t, nows) + Overran(t, nows), nows[|nows| - 1]);
  }

  lemma TallyCounts(first: nat, interval: nat, expiry: nat, n: nat, last: nat)
    requires interval > 0 && Tally(first, interval, expiry, n, Some(last))
    ensures expiry == first + n * interval && n == Periods(first, interval, last)
  {
    AfterIsProduct(first, interval, n);
    if n > 0 {
      assert n * interval == (n - 1) * interval + interval;
      ModUnique(last - first, interval, n - 1, last - first - (n - 1) * interval);
    }
  }

  /** The stored overrun is the overrun modulo 2^32, so it is exact below that. */
  lemma {:induction false} OverrunStored(t: Timer, nows: seq<nat>)
    requires t.overrun == 0
    ensures Sweeps(t, nows).overrun == Overran(t, nows) % U32
    decreases |nows|
  {
    if nows != [] {
      var n := |nows| - 1;
      OverrunStored(t, nows[..n]);
      AddMod(Overran(t, nows[..n]), Missed(Sweeps(t, nows[..n]), nows[n]));
    }
  }

  lemma AddMod(a: nat, b: nat)
    ensures (a % U32 + b % U32) % U32 == (a + b) % U32
    ensures (a % U32 + 0) % U32 == a % U32
  {
    assert a == U32 * (a / U32) + a % U32 && b == U32 * (b / U32) + b % U32;
    var s := a % U32 + b % U32;
    assert a + b == U32 * (a / U32 + b / U32 + s / U32) + s % U32;
    ModUnique(a + b, U32, a / U32 + b / U32 + s / U32, s % U32);
  }

  /** A one-shot timer fires once, at the first sweep not before its expiry, and is then
      disarmed; a disarmed timer never fires. */
  lemma {:induction false} OneShotFiresOnce(t: Timer, nows: seq<nat>)
    requires t.used && t.armed && t.interval == 0 && Rising(nows)
    ensures Fired(t, nows) == if nows != [] && nows[|nows| - 1] >= t.expiry then 1 else 0
    ensures Sweeps(t, nows) == t.(armed := Fired(t, nows) == 0)
    ensures Overran(t, nows) == 0
    decreases |nows|
  {
    if nows != [] {
      OneShotFiresOnce(t, nows[..|nows| - 1]);
    }
  }

  // ------------------------------------------------------------------------- the table

  datatype Signal = Signal(owner: nat, signo: nat)

  /** The signals a sweep raises, in slot order. */
  function Signals(ts: seq<Timer>, c: Clock): (fire: seq<Signal>)
    ensures |fire| <= |ts|
    decreases |ts|
  {
    if ts == [] then []
    else
      Signals(ts[..|ts| - 1], c) + SlotSignals(ts[|ts| - 1], c)
  }

  function SlotSignals(t: Timer, c: Clock): (fire: seq<Signal>)
    ensures |fire| <= 1
  {
    if Expires(t, Now(c, t)) && t.signo != 0 then [Signal(t.owner, t.signo)] else []
  }

  datatype Reply = Done(value: nat, interval: nat) | EINVAL | EAGAIN

  /** What settime and setitimer do to a timer. A value of zero disarms and forgets the interval; any other arms for the expiry, keeps
      the interval given and starts counting overruns anew. What the timer is stays. */
  predicate SetFields(t: Timer, u: Timer, expiry: nat, value: nat, interval: nat)
  {
    && u.used == t.used && u.owner == t.owner && u.id == t.id && u.which == t.which && u.signo == t.signo
    && u.armed == (value != 0)
    && u.interval == (if value == 0 then 0 else interval)
    && u.expiry == (if value == 0 then t.expiry else expiry % U64)
    && u.overrun == (if value == 0 then t.overrun else 0)
  }

  /** The fields that settime and setitimer write. */
  method Armed(t: Timer, expiry: nat, value: nat, interval: nat) returns (u: Timer)
    ensures SetFields(t, u, expiry, value, interval)
  {
    u := t;
    if value == 0 {
      u := u.(armed := false);
      u := u.(interval := 0);
    } else {
      u := u.(expiry := expiry % U64);
      u := u.(interval := interval);
      u := u.(armed := true);
      u := u.(overrun := 0);
    }
  }

  class Table {
    const slot: array<Timer>
    var nextId: nat

    /** Ids tell the POSIX timers apart, and a process has one interval timer of a kind. */
    ghost predicate Valid()
      reads this, slot
    {
      && slot.Length == KTIMER_MAX
      && (forall i | 0 <= i < KTIMER_MAX && slot[i].used && slot[i].which < 0 :: slot[i].which == -1 && slot[i].id < nextId)
      && (forall i, j | 0 <= i < j < KTIMER_MAX && slot[i].used && slot[j].used && slot[i].owner == slot[j].owner
                        && slot[i].which == slot[j].which :: slot[i].which < 0 && slot[i].id != slot[j].id)
    }

    constructor ()
      ensures Valid() && fresh(slot) && forall i | 0 <= i < KTIMER_MAX :: slot[i] == EMPTY
    {
      slot := new Timer[KTIMER_MAX](_ => EMPTY);
      nextId := 1;
    }

    /** ktimer_scan. The list of signals never runs out of room. */
    method Scan(c: Clock) returns (fire: seq<Signal>)
      requires Valid()
      modifies slot
      ensures Valid() && fire == Signals(old(slot[..]), c)
      ensures forall i | 0 <= i < KTIMER_MAX :: slot[i] == Swept(old(slot[i]), Now(c, old(slot[i])))
    {
      fire := [];
      ghost var ts := slot[..];
      ghost var swept := seq(KTIMER_MAX, j requires 0 <= j < KTIMER_MAX => Swept(ts[j], Now(c, ts[j])));
      assert forall j | 0 <= j < KTIMER_MAX :: SameTimer(ts[j], swept[j]);
      var i := 0;
      while i < KTIMER_MAX
        invariant 0 <= i <= KTIMER_MAX && |fire| <= i
        invariant fire == Signals(ts[..i], c)
        invariant forall j | 0 <= j < i :: slot[j] == swept[j]
        invariant forall j | i <= j < KTIMER_MAX :: slot[j] == ts[j]
      {
        SignalsNext(ts, i, c);
        fire := ScanSlot(i, c, fire);
        i := i + 1;
      }
      assert ts[..KTIMER_MAX] == ts;
    }

    /** The sweep of one slot. */
    method ScanSlot(i: nat, c: Clock, fire0: seq<Signal>) returns (fire: seq<Signal>)
      requires i < slot.Length && |fire0| < KTIMER_MAX
      modifies slot
      ensures slot[i] == Swept(old(slot[i]), Now(c, old(slot[i])))
      ensures forall j | 0 <= j < slot.Length && j != i :: slot[j] == old(slot[j])
      ensures fire == fire0 + SlotSignals(old(slot[i]), c)
    {
      fire := fire0;
      var t := slot[i];
      var now := Now(c, t);
      if t.used && t.armed && now >= t.expiry {
        if t.interval != 0 {
          var late := now - t.expiry;
          var missed := late / t.interval;
          slot[i] := t.(overrun := (t.overrun + missed % U32) % U32,
                        expiry := (now + t.interval - late % t.interval) % U64);
        } else {
          slot[i] := t.(armed := false);
        }
        if t.signo != 0 && |fire| < KTIMER_MAX {
          fire := fire + [Signal(t.owner, t.signo)];
        }
      }
    }

    /** ktimer_process_exit: no timer of the process is left, and no other is touched. */
    method Exit(owner: nat)
      requires Valid()
      modifies slot
      ensures Valid()
      ensures forall i | 0 <= i < KTIMER_MAX ::
                slot[i] == if old(slot[i]).used && old(slot[i]).owner == owner then EMPTY else old(slot[i])
    {
      var i := 0;
      while i < KTIMER_MAX
        invariant 0 <= i <= KTIMER_MAX
        invariant forall j | 0 <= j < i ::
                    slot[j] == if old(slot[j]).used && old(slot[j]).owner == owner then EMPTY else old(slot[j])
        invariant forall j | i <= j < KTIMER_MAX :: slot[j] == old(slot[j])
      {
        if slot[i].used && slot[i].owner == owner {
          slot[i] := EMPTY;
        }
        i := i + 1;
      }
    }

    /** ktimer_find. */
    method Find(owner: nat, id: nat) returns (r: Option<nat>)
      requires Valid()
      ensures r.Some? ==> r.value < KTIMER_MAX && IsPosix(slot[r.value], owner, id)
      ensures r.None? ==> forall i | 0 <= i < KTIMER_MAX :: !IsPosix(slot[i], owner, id)
    {
      var i := 0;
      while i < KTIMER_MAX
        invariant 0 <= i <= KTIMER_MAX && forall j | 0 <= j < i :: !IsPosix(slot[j], owner, id)
      {
        if IsPosix(slot[i], owner, id) {
          return Some(i);
        }
        i := i + 1;
      }
      r := None;
    }

    /** ktimer_settime: `at` is the slot of the timer, if the process has it. */
    method SetTime(owner: nat, id: nat, abstime: bool, value: nat, interval: nat, c: Clock) returns (r: Reply, at: Option<nat>)
      requires Valid()
      modifies slot
      ensures Valid()
      ensures at.None? ==> r == EINVAL && forall i | 0 <= i < KTIMER_MAX :: !IsPosix(slot[i], owner, id)
      ensures at.Some? ==>
                && at.value < KTIMER_MAX
                && var t := old(slot[at.value]);
                   && IsPosix(t, owner, id)
                   && SetFields(t, slot[at.value], if abstime then value else c.wall + value, value, interval)
                   && r == Done(if !t.armed then 0 else if t.expiry <= c.wall then 1 else t.expiry - c.wall, t.interval)
      ensures forall i | 0 <= i < KTIMER_MAX && at != Some(i) :: slot[i] == old(slot[i])
    {
      at := Find(owner, id);
      if at.None? {
        return EINVAL, None;
      }
      var t := slot[at.value];
      r := Done(Remaining(t, Now(c, t)), t.interval);
      var u := Armed(t, if abstime then value else Now(c, t) + value, value, interval);
      slot[at.value] := u;
    }

    /** ktimer_find_itimer. */
    method FindItimer(owner: nat, which: int) returns (r: Option<nat>)
      requires Valid()
      ensures r.Some? ==> r.value < KTIMER_MAX && IsItimer(slot[r.value], owner, which)
      ensures r.None? ==> forall i | 0 <= i < KTIMER_MAX :: !IsItimer(slot[i], owner, which)
    {
      var i := 0;
      while i < KTIMER_MAX
        invariant 0 <= i <= KTIMER_MAX && forall j | 0 <= j < i :: !IsItimer(slot[j], owner, which)
      {
        if IsItimer(slot[i], owner, which) {
          return Some(i);
        }
        i := i + 1;
      }
      r := None;
    }

    /** ktimer_alloc. */
    method Alloc() returns (r: Option<nat>)
      requires Valid()
      ensures r.Some? ==> r.value < KTIMER_MAX && !slot[r.value].used
      ensures r.None? ==> forall i | 0 <= i < KTIMER_MAX :: slot[i].used
    {
      var i := 0;
      while i < KTIMER_MAX
        invariant 0 <= i <= KTIMER_MAX && forall j | 0 <= j < i :: slot[j].used
      {
        if !slot[i].used {
          return Some(i);
        }
        i := i + 1;
      }
      r := None;
    }

    /** The process's timer of the kind, or a new one in a free slot if it is to be armed. */
    method ClaimItimer(owner: nat, which: int, arming: bool) returns (at: Option<nat>, u: Timer, full: bool)
      requires Valid() && ITIMER_REAL <= which <= ITIMER_PROF
      ensures at.Some? ==>
                && at.value < KTIMER_MAX && IsItimer(u, owner, which)
                && u == (if slot[at.value].used then slot[at.value]
                         else Timer(true, false, owner, 0, which, ItimerSignal(which), 0, 0, 0))
                && forall i | 0 <= i < KTIMER_MAX && i != at.value :: !IsItimer(slot[i], owner, which)
      ensures at.None? ==> if full then forall i | 0 <= i < KTIMER_MAX :: slot[i].used else !arming
    {
      full := false;
      at := FindItimer(owner, which);
      u := EMPTY;
      if at.Some? {
        u := slot[at.value];
        return;
      }
      if !arming {
        return;
      }
      at := Alloc();
      full := at.None?;
      if !full {
        u := Timer(true, false, owner, 0, which, ItimerSignal(which), 0, 0, 0);
      }
    }

    /** ktimer_setitimer: `at` is the slot it arms or disarms, if any. */
    method SetItimer(owner: nat, which: int, value: nat, interval: nat, c: Clock) returns (r: Reply, at: Option<nat>)
      requires Valid()
      modifies slot
      ensures Valid()
      ensures r == EINVAL <==> which < ITIMER_REAL || which > ITIMER_PROF
      ensures at.None? ==>
                || r == EINVAL || (r == Done(0, 0) && value == 0)
                || (r == EAGAIN && forall i | 0 <= i < KTIMER_MAX :: slot[i].used)
      ensures at.Some? ==>
                && at.value < KTIMER_MAX && r.Done?
                && var t := old(slot[at.value]);
                   var u := if t.used then t else Timer(true, false, owner, 0, which, ItimerSignal(which), 0, 0, 0);
                   && IsItimer(u, owner, which)
                   && var now := if which == 0 then c.wall else c.user(owner) + if which == 2 then c.sys(owner) else 0;
                   SetFields(u, slot[at.value], now + value, value, interval)
                   && r == Done(if !u.armed then 0 else if u.expiry <= now then 1 else u.expiry - now, u.interval)
                   && (!t.used ==> u.signo == if which == 0 then 14 else if which == 1 then 26 else 27)
      ensures forall i | 0 <= i < KTIMER_MAX && at != Some(i) :: slot[i] == old(slot[i])
    {
      if which != ITIMER_REAL && which != ITIMER_VIRTUAL && which != ITIMER_PROF {
        return EINVAL, None;
      }
      var u, full;
      at, u, full := ClaimItimer(owner, which, value != 0);
      if at.None? {
        return if full then EAGAIN else Done(0, 0), None;
      }
      r := Done(Remaining(u, Now(c, u)), u.interval);
      var v := Armed(u, Now(c, u) + value, value, interval);
      slot[at.value] := v;
    }
  }

  predicate SameTimer(t: Timer, u: Timer)
  {
    u.used == t.used && u.owner == t.owner && u.which == t.which && u.id == t.id
  }

  /** The ticks a timer counts: its owner's user ticks, all of its owner's ticks, or all. */
  predicate Due(t: Timer, c: Clock)
  {
    && t.used && t.armed
    && t.expiry <= if t.which == 1 then c.user(t.owner) else if t.which == 2 then c.user(t.owner) + c.sys(t.owner) else c.wall
  }

  /** A sweep raises a signal exactly for the timers that are due and want one. */
  lemma {:induction false} SignalsIff(ts: seq<Timer>, c: Clock, s: Signal)
    ensures s in Signals(ts, c)
            <==> exists i :: 0 <= i < |ts| && Due(ts[i], c) && ts[i].signo != 0 && s == Signal(ts[i].owner, ts[i].signo)
    decreases |ts|
  {
    if ts != [] {
      var n := |ts| - 1;
      SignalsIff(ts[..n], c, s);
      assert s in SlotSignals(ts[n], c) <==> Due(ts[n], c) && ts[n].signo != 0 && s == Signal(ts[n].owner, ts[n].signo);
      if s in Signals(ts[..n], c) {
        var i :| 0 <= i < n && Due(ts[..n][i], c) && ts[..n][i].signo != 0 && s == Signal(ts[..n][i].owner, ts[..n][i].signo);
        assert ts[..n][i] == ts[i];
      }
      if i :| 0 <= i < |ts| && Due(ts[i], c) && ts[i].signo != 0 && s == Signal(ts[i].owner, ts[i].signo) {
        assert i < n ==> ts[..n][i] == ts[i];
      }
    }
  }

  lemma SignalsNext(ts: seq<Timer>, i: nat, c: Clock)
    requires i < |ts|
    ensures Signals(ts[..i + 1], c)
            == Signals(ts[..i], c) + SlotSignals(ts[i], c)
  {
    assert ts[..i + 1][..i] == ts[..i];
  }

  predicate IsItimer(t: Timer, owner: nat, which: int)
  {
    t.used && t.owner == owner && t.which == which
  }

  function ItimerSignal(which: int): nat
  {
    if which == ITIMER_VIRTUAL then 26 else if which == ITIMER_PROF then 27 else 14
  }

  predicate IsPosix(t: Timer, owner: nat, id: nat)
  {
    t.used && t.owner == owner && t.which < 0 && t.id == id
  }
}
