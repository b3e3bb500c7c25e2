/**
 Signal delivery and rt_sigreturn of kernel/signal.c on the state of one thread, and runs
 in which handlers nest to any depth. If handlers leave the frames below them alone, every
 rt_sigreturn gives back the context that the matching delivery interrupted.
 */
module SignalNesting {
  import opened Machine
  import opened SignalFrame

  /** What is fixed for a thread: its alternate stack, the size of the floating-point
      state in bytes and in words, and the lowest address it may map. */
  datatype Config = Config(alt: Alt, fp: nat, minAddr: nat)

  function FpWords(cfg: Config): nat
  {
    (cfg.fp + 7) / 8
  }

  /** The kernel cuts the size of the floating-point area to its 4096-byte buffer. */
  ghost predicate ConfigOk(cfg: Config)
  {
    cfg.alt.sp + cfg.alt.size < U64 && 0 < cfg.fp <= FP_MAX && cfg.minAddr > 0
  }

  /** `restore` is the mask that a masked wait will put back; `fp` the opaque
      floating-point state. */
  datatype User = User(r: Regs, blocked: set<nat>, restore: Option<set<nat>>, mem: Memory, fp: seq<Word>, alive: bool)

  datatype Action = Action(handler: nat, restorer: nat, mask: set<nat>, onStack: bool, noDefer: bool, resetHand: bool)

  /** The context that is saved: an interrupted system call that is to be restarted goes
      back to its two-byte instruction with its number in rax. */
  function Interrupted(r: Regs, restart: Option<nat>): Regs
  {
    if restart.Some? then r.(rip := (r.rip + U64 - 2) % U64, gp := r.gp.(rax := restart.value)) else r
  }

  function SavedMask(u: User): set<nat>
  {
    if u.restore.Some? then u.restore.value else u.blocked
  }

  /** The words of the frame for a delivery at `base`. */
  function FrameWords(cfg: Config, u: User, act: Action, sig: nat, restart: Option<nat>, base: nat): (ws: seq<Word>)
    ensures |ws| == WORDS
  {
    Encode(act.restorer, Interrupted(u.r, restart), SavedMask(u), cfg.alt, OnAlt(u.r.rsp, cfg.alt), base + FRAME, sig)
  }

  function SavedMemory(cfg: Config, u: User, act: Action, sig: nat, restart: Option<nat>, base: nat): Memory
  {
    Store(Store(u.mem, base, FrameWords(cfg, u, act, sig, restart, base)), base + FRAME, u.fp)
  }

  /** The registers a handler starts with. */
  function HandlerRegs(r: Regs, act: Action, sig: nat, base: nat): Regs
  {
    r.(gp := r.gp.(rdi := sig, rsi := base + 312, rdx := base + 8, rax := 0),
       rsp := base, rip := act.handler, flags := r.flags - HANDLER_CLEARS)
  }

  /** signal_deliver_pending from the choice of the stack on. */
  function Deliver(cfg: Config, u: User, act: Action, sig: nat, restart: Option<nat>, fault: bool): User
  {
    var spot := Place(u.r.rsp, cfg.alt, act.onStack, cfg.fp, cfg.minAddr);
    if spot.None? || fault then u.(alive := false)
    else
      var base := spot.value;
      User(HandlerRegs(Interrupted(u.r, restart), act, sig, base),
           u.blocked + act.mask + (if act.noDefer then {} else {sig}),
           None,
           SavedMemory(cfg, u, act, sig, restart, base),
           u.fp, true)
  }

  ghost predicate Readable(m: Memory, base: nat, n: nat)
  {
    forall j | 0 <= j < n :: base + 8 * j in m
  }

  function Read(m: Memory, base: nat, n: nat): (ws: seq<Word>)
    ensures |ws| == n
  {
    seq(n, j => if j >= 0 && base + 8 * j in m then m[base + 8 * j] else Num(0))
  }

  predicate InUserRange(a: nat, minAddr: nat)
  {
    minAddr <= a < TASK_SIZE_MAX
  }

  /** The flags rt_sigreturn lets through, and those it forces. */
  function Allowed(flags: set<nat>): set<nat>
  {
    flags * USER_FLAGS + FORCED_FLAGS
  }

  /** The thread after taking over a context: selectors are forced, flags filtered, and
      the two signals that cannot be blocked are not. */
  ghost function Resumed(cfg: Config, u: User, c: Context): User
  {
    var u' := u.(r := Regs(c.gp, c.rsp, c.rip, Allowed(c.flags), 0x23, 0x1B, 0x1B),
                 blocked := c.mask - {SIGKILL, SIGSTOP});
    if c.fpstate == 0 then u'
    else if !InUserRange(c.fpstate, cfg.minAddr) || c.fpstate % 64 != 0
            || !Readable(u.mem, c.fpstate, FpWords(cfg)) then u'.(alive := false)
    else u'.(fp := Read(u.mem, c.fpstate, FpWords(cfg)))
  }

  /** sys_rt_sigreturn_impl. */
  ghost function Sigreturn(cfg: Config, u: User): User
  {
    var base := (u.r.rsp + U64 - 8) % U64;
    if !Readable(u.mem, base, WORDS) then u.(alive := false) else Returned(cfg, u, Decode(Read(u.mem, base, WORDS)))
  }

  ghost function Returned(cfg: Config, u: User, c: Context): User
  {
    if !InUserRange(c.rip, cfg.minAddr) || !InUserRange(c.rsp, cfg.minAddr) then u.(alive := false)
    else Resumed(cfg, u, c)
  }

  // --------------------------------------------------------------------- live frames

  /** A delivery whose handler has not returned: where its frame is, and what it saved. */
  datatype Live = Live(base: nat, words: seq<Word>, r: Regs, mask: set<nat>, fp: seq<Word>)

  datatype Session = Session(u: User, live: seq<Live>)

  function End(cfg: Config, base: nat): nat
  {
    base + FRAME + 8 * FpWords(cfg)
  }

  ghost predicate Present(cfg: Config, m: Memory, l: Live)
  {
    HasWords(m, l.base, l.words) && HasWords(m, l.base + FRAME, l.fp)
  }

  /** The record of a frame is right: its words decode to the saved context. */
  ghost predicate Recorded(cfg: Config, l: Live)
  {
    && |l.words| == WORDS && |l.fp| == FpWords(cfg)
    && Decode(l.words) == Context(l.r.gp, l.r.rsp, l.r.rip, l.r.flags, l.mask, l.base + FRAME)
    && WellPlaced(cfg, l.base)
  }

  ghost predicate WellPlaced(cfg: Config, base: nat)
  {
    (base + FRAME) % 64 == 0 && cfg.minAddr <= base && End(cfg, base) <= TASK_SIZE_MAX
  }

  predicate InAlt(cfg: Config, base: nat)
  {
    cfg.alt.sp != 0 && !cfg.alt.disabled && cfg.alt.sp <= base && End(cfg, base) <= cfg.alt.sp + cfg.alt.size
  }

  predicate OffAlt(cfg: Config, base: nat)
  {
    cfg.alt.sp == 0 || cfg.alt.disabled || End(cfg, base) <= cfg.alt.sp || cfg.alt.sp + cfg.alt.size <= base
  }

  /** Frames on the alternate stack come last, and on one stack each lies below the ones
      before it. */
  ghost predicate Stacked(cfg: Config, live: seq<Live>)
  {
    && (forall i | 0 <= i < |live| :: InAlt(cfg, live[i].base) || OffAlt(cfg, live[i].base))
    && (forall i, j | 0 <= i < j < |live| && InAlt(cfg, live[i].base) :: InAlt(cfg, live[j].base))
    && (forall i, j | 0 <= i < j < |live| && (InAlt(cfg, live[i].base) <==> InAlt(cfg, live[j].base)) ::
          End(cfg, live[j].base) <= live[i].base)
  }

  ghost predicate Inv(cfg: Config, s: Session)
  {
    && s.u.r.rsp < U64 && |s.u.fp| == FpWords(cfg)
    && Stacked(cfg, s.live)
    && (forall i | 0 <= i < |s.live| :: Present(cfg, s.u.mem, s.live[i]))
    && (forall i | 0 <= i < |s.live| :: Recorded(cfg, s.live[i]))
  }

  ghost predicate Disjoint(cfg: Config, a: nat, b: nat)
  {
    End(cfg, a) <= b || End(cfg, b) <= a
  }

  /** What delivery relies on the interrupted code for: a handler runs on the stack of its
      frame and has not popped it, and that stack has room for one more frame. */
  ghost predicate Disciplined(cfg: Config, s: Session, onStack: bool, base: nat)
  {
    && (s.live != [] ==>
          var top := s.live[|s.live| - 1].base;
          && s.u.r.rsp <= top + RED_ZONE
          && (OnAlt(s.u.r.rsp, cfg.alt) <==> InAlt(cfg, top)))
    && (!Entering(s.u.r.rsp, cfg.alt, onStack) ==>
          if OnAlt(s.u.r.rsp, cfg.alt) then cfg.alt.sp <= base else OffAlt(cfg, base))
  }

  // ------------------------------------------------------- where the next frame goes

  /** A frame lies on the alternate stack or off it, not both. */
  lemma OneArea(cfg: Config, a: nat, b: nat)
    requires InAlt(cfg, a) && OffAlt(cfg, b)
    ensures Disjoint(cfg, a, b) && !InAlt(cfg, b) && !OffAlt(cfg, a)
  {
  }

  lemma NewFrameArea(cfg: Config, s: Session, onStack: bool)
    requires ConfigOk(cfg) && s.u.r.rsp < U64
    requires Place(s.u.r.rsp, cfg.alt, onStack, cfg.fp, cfg.minAddr).Some?
    requires Disciplined(cfg, s, onStack, Place(s.u.r.rsp, cfg.alt, onStack, cfg.fp, cfg.minAddr).value)
    ensures var base := Place(s.u.r.rsp, cfg.alt, onStack, cfg.fp, cfg.minAddr).value;
            var rsp := s.u.r.rsp;
            && (if Entering(rsp, cfg.alt, onStack) || OnAlt(rsp, cfg.alt) then InAlt(cfg, base) else OffAlt(cfg, base))
            && (!Entering(rsp, cfg.alt, onStack) ==> End(cfg, base) + RED_ZONE <= rsp)
  {
    PlacedWell(s.u.r.rsp, cfg.alt, onStack, cfg.fp, cfg.minAddr);
  }

  /** The new frame overlaps no live frame. */
  lemma NewFrameApart(cfg: Config, s: Session, onStack: bool, i: nat)
    requires ConfigOk(cfg) && Inv(cfg, s) && i < |s.live|
    requires Place(s.u.r.rsp, cfg.alt, onStack, cfg.fp, cfg.minAddr).Some?
    requires Disciplined(cfg, s, onStack, Place(s.u.r.rsp, cfg.alt, onStack, cfg.fp, cfg.minAddr).value)
    ensures var base := Place(s.u.r.rsp, cfg.alt, onStack, cfg.fp, cfg.minAddr).value;
            && Disjoint(cfg, s.live[i].base, base)
            && (InAlt(cfg, s.live[i].base) ==> InAlt(cfg, base))
            && ((InAlt(cfg, s.live[i].base) <==> InAlt(cfg, base)) ==> End(cfg, base) <= s.live[i].base)
  {
    var base := Place(s.u.r.rsp, cfg.alt, onStack, cfg.fp, cfg.minAddr).value;
    NewFrameArea(cfg, s, onStack);
    var n := |s.live| - 1;
    var top := s.live[n].base;
    if InAlt(cfg, s.live[i].base) {
      assert InAlt(cfg, top);
    } else {
      assert OffAlt(cfg, s.live[i].base);
      if InAlt(cfg, base) {
        OneArea(cfg, base, s.live[i].base);
      } else {
        assert OffAlt(cfg, base);
        assert !InAlt(cfg, top);
      }
    }
    if i < n && (InAlt(cfg, s.live[i].base) <==> InAlt(cfg, top)) {
      assert End(cfg, top) <= s.live[i].base;
    }
  }

  lemma NewFrameStacks(cfg: Config, s: Session, onStack: bool, l: Live)
    requires ConfigOk(cfg) && Inv(cfg, s)
    requires Place(s.u.r.rsp, cfg.alt, onStack, cfg.fp, cfg.minAddr) == Some(l.base)
    requires Disciplined(cfg, s, onStack, l.base)
    ensures Stacked(cfg, s.live + [l])
  {
    NewFrameArea(cfg, s, onStack);
    var live := s.live + [l];
    forall i, j | 0 <= i < j < |live|
      ensures InAlt(cfg, live[i].base) ==> InAlt(cfg, live[j].base)
      ensures (InAlt(cfg, live[i].base) <==> InAlt(cfg, live[j].base)) ==> End(cfg, live[j].base) <= live[i].base
    {
      if j == |s.live| {
        NewFrameApart(cfg, s, onStack, i);
      }
    }
  }

  // ---------------------------------------------------------------------- memory facts

  lemma ReadStored(m: Memory, base: nat, ws: seq<Word>)
    requires HasWords(m, base, ws)
    ensures Readable(m, base, |ws|) && Read(m, base, |ws|) == ws
  {
    forall j | 0 <= j < |ws|
      ensures base + 8 * j in m && Read(m, base, |ws|)[j] == ws[j]
    {
      var w := ws[j];
      assert base + 8 * j in m && m[base + 8 * j] == w;
    }
  }

  // -------------------------------------------------------------------------- the steps

  datatype Event =
    | UserRun(u: User)
    | Signal(act: Action, sig: nat, restart: Option<nat>, fault: bool)
    | Return

  function NewLive(cfg: Config, u: User, act: Action, sig: nat, restart: Option<nat>, base: nat): Live
  {
    Live(base, FrameWords(cfg, u, act, sig, restart, base), Interrupted(u.r, restart), SavedMask(u), u.fp)
  }

  /** User code may do anything but touch live frames; a delivery needs the discipline;
      a return comes from the restorer, which has popped the return address of the frame. */
  ghost predicate Enabled(cfg: Config, s: Session, e: Event)
  {
    && s.u.alive
    && match e
       case UserRun(u) =>
         && u.alive && u.r.rsp < U64 && |u.fp| == FpWords(cfg)
         && forall i | 0 <= i < |s.live| :: Present(cfg, u.mem, s.live[i])
       case Signal(act, sig, restart, fault) =>
         var spot := Place(s.u.r.rsp, cfg.alt, act.onStack, cfg.fp, cfg.minAddr);
         spot.Some? ==> Disciplined(cfg, s, act.onStack, spot.value)
       case Return => s.live != [] && s.u.r.rsp == s.live[|s.live| - 1].base + 8
  }

  ghost function Apply(cfg: Config, s: Session, e: Event): Session
    requires Enabled(cfg, s, e)
  {
    match e
    case UserRun(u) => Session(u, s.live)
    case Signal(act, sig, restart, fault) =>
      var u' := Deliver(cfg, s.u, act, sig, restart, fault);
      if u'.alive
      then Session(u', s.live + [NewLive(cfg, s.u, act, sig, restart, u'.r.rsp)])
      else Session(u', s.live)
    case Return => Session(Sigreturn(cfg, s.u), s.live[..|s.live| - 1])
  }

  lemma DeliveredPresent(cfg: Config, m: Memory, l: Live)
    requires |l.words| == WORDS
    ensures Present(cfg, Store(Store(m, l.base, l.words), l.base + FRAME, l.fp), l)
  {
    var m1 := Store(m, l.base, l.words);
    Stored(m, l.base, l.words);
    StoreElsewhere(m1, l.base + FRAME, l.fp, l.base, l.words);
    Stored(m1, l.base + FRAME, l.fp);
  }

  lemma DeliveredRecorded(cfg: Config, u: User, act: Action, sig: nat, restart: Option<nat>, base: nat)
    requires ConfigOk(cfg) && u.r.rsp < U64 && |u.fp| == FpWords(cfg)
    requires Place(u.r.rsp, cfg.alt, act.onStack, cfg.fp, cfg.minAddr) == Some(base)
    ensures Recorded(cfg, NewLive(cfg, u, act, sig, restart, base))
  {
    FrameRoundTrip(act.restorer, Interrupted(u.r, restart), SavedMask(u), cfg.alt, OnAlt(u.r.rsp, cfg.alt), base + FRAME, sig);
    PlaceWell(cfg, u.r.rsp, act.onStack, base);
  }

  lemma PlaceWell(cfg: Config, rsp: nat, onStack: bool, base: nat)
    requires ConfigOk(cfg) && rsp < U64 && Place(rsp, cfg.alt, onStack, cfg.fp, cfg.minAddr) == Some(base)
    ensures WellPlaced(cfg, base)
  {
    PlacedWell(rsp, cfg.alt, onStack, cfg.fp, cfg.minAddr);
  }

  lemma StillPresent(cfg: Config, m: Memory, l: Live, base: nat, words: seq<Word>, fp: seq<Word>)
    requires Present(cfg, m, l) && |words| == |l.words| == WORDS && |fp| == |l.fp| == FpWords(cfg)
    requires Disjoint(cfg, l.base, base)
    ensures Present(cfg, Store(Store(m, base, words), base + FRAME, fp), l)
  {
    var m1 := Store(m, base, words);
    StoreElsewhere(m, base, words, l.base, l.words);
    StoreElsewhere(m, base, words, l.base + FRAME, l.fp);
    StoreElsewhere(m1, base + FRAME, fp, l.base, l.words);
    StoreElsewhere(m1, base + FRAME, fp, l.base + FRAME, l.fp);
  }

  lemma OthersPresent(cfg: Config, s: Session, onStack: bool, base: nat, words: seq<Word>)
    requires ConfigOk(cfg) && Inv(cfg, s) && |words| == WORDS
    requires Place(s.u.r.rsp, cfg.alt, onStack, cfg.fp, cfg.minAddr) == Some(base)
    requires Disciplined(cfg, s, onStack, base)
    ensures forall i | 0 <= i < |s.live| :: Present(cfg, Store(Store(s.u.mem, base, words), base + FRAME, s.u.fp), s.live[i])
  {
    forall i | 0 <= i < |s.live|
      ensures Present(cfg, Store(Store(s.u.mem, base, words), base + FRAME, s.u.fp), s.live[i])
    {
      NewFrameApart(cfg, s, onStack, i);
      assert Recorded(cfg, s.live[i]);
      StillPresent(cfg, s.u.mem, s.live[i], base, words, s.u.fp);
    }
  }

  /** A delivery pushes a frame. */
  lemma PushKeeps(cfg: Config, s: Session, onStack: bool, l: Live, u': User)
    requires ConfigOk(cfg) && Inv(cfg, s) && Recorded(cfg, l) && l.fp == s.u.fp
    requires Place(s.u.r.rsp, cfg.alt, onStack, cfg.fp, cfg.minAddr) == Some(l.base)
    requires Disciplined(cfg, s, onStack, l.base)
    requires u'.r.rsp < U64 && u'.fp == s.u.fp
    requires u'.mem == Store(Store(s.u.mem, l.base, l.words), l.base + FRAME, l.fp)
    ensures Inv(cfg, Session(u', s.live + [l]))
  {
    NewFrameStacks(cfg, s, onStack, l);
    DeliveredPresent(cfg, s.u.mem, l);
    OthersPresent(cfg, s, onStack, l.base, l.words);
    InvPush(cfg, s, u', l);
  }

  lemma InvPush(cfg: Config, s: Session, u': User, l: Live)
    requires Inv(cfg, s) && Stacked(cfg, s.live + [l]) && Recorded(cfg, l)
    requires u'.r.rsp < U64 && |u'.fp| == FpWords(cfg)
    requires Present(cfg, u'.mem, l) && forall i | 0 <= i < |s.live| :: Present(cfg, u'.mem, s.live[i])
    ensures Inv(cfg, Session(u', s.live + [l]))
  {
  }

  lemma DeliverPushes(cfg: Config, u: User, act: Action, sig: nat, restart: Option<nat>, base: nat)
    requires Place(u.r.rsp, cfg.alt, act.onStack, cfg.fp, cfg.minAddr) == Some(base)
    ensures var u' := Deliver(cfg, u, act, sig, restart, false);
            && u'.alive && u'.r.rsp == base && u'.fp == u.fp
            && u'.mem == SavedMemory(cfg, u, act, sig, restart, base)
  {
  }

  lemma SavedIsPushed(cfg: Config, u: User, act: Action, sig: nat, restart: Option<nat>, base: nat, l: Live)
    requires l.base == base && l.fp == u.fp && l.words == FrameWords(cfg, u, act, sig, restart, base)
    ensures SavedMemory(cfg, u, act, sig, restart, base) == Store(Store(u.mem, l.base, l.words), l.base + FRAME, l.fp)
  {
  }

  lemma SignalKeeps(cfg: Config, s: Session, act: Action, sig: nat, restart: Option<nat>, fault: bool)
    requires ConfigOk(cfg) && Inv(cfg, s) && Enabled(cfg, s, Signal(act, sig, restart, fault))
    ensures Apply(cfg, s, Signal(act, sig, restart, fault)).u.alive ==>
              Inv(cfg, Apply(cfg, s, Signal(act, sig, restart, fault)))
  {
    var spot := Place(s.u.r.rsp, cfg.alt, act.onStack, cfg.fp, cfg.minAddr);
    if spot.Some? && !fault {
      var base := spot.value;
      var l := NewLive(cfg, s.u, act, sig, restart, base);
      DeliverPushes(cfg, s.u, act, sig, restart, base);
      SavedIsPushed(cfg, s.u, act, sig, restart, base, l);
      DeliveredRecorded(cfg, s.u, act, sig, restart, base);
      PlacedWell(s.u.r.rsp, cfg.alt, act.onStack, cfg.fp, cfg.minAddr);
      PushKeeps(cfg, s, act.onStack, l, Deliver(cfg, s.u, act, sig, restart, false));
    }
  }

  /** rt_sigreturn with a live frame on top: the process is killed exactly if the saved
      instruction or stack pointer is no user address; otherwise everything is back. */
  lemma ReturnRestores(cfg: Config, s: Session)
    requires ConfigOk(cfg) && Inv(cfg, s) && Enabled(cfg, s, Return)
    ensures var l := s.live[|s.live| - 1];
            var u' := Sigreturn(cfg, s.u);
            && (u'.alive <==> InUserRange(l.r.rip, cfg.minAddr) && InUserRange(l.r.rsp, cfg.minAddr))
            && (u'.alive ==>
                  && u'.r == Regs(l.r.gp, l.r.rsp, l.r.rip, l.r.flags * USER_FLAGS + FORCED_FLAGS, 0x23, 0x1B, 0x1B)
                  && u'.blocked == l.mask - {SIGKILL, SIGSTOP}
                  && u'.fp == l.fp && u'.mem == s.u.mem)
  {
    SigreturnReads(cfg, s.u, s.live[|s.live| - 1]);
  }

  lemma SigreturnReads(cfg: Config, u: User, l: Live)
    requires ConfigOk(cfg) && Present(cfg, u.mem, l) && Recorded(cfg, l) && u.alive && u.r.rsp == l.base + 8
    ensures var u' := Sigreturn(cfg, u);
            if InUserRange(l.r.rip, cfg.minAddr) && InUserRange(l.r.rsp, cfg.minAddr)
            then u' == u.(r := Regs(l.r.gp, l.r.rsp, l.r.rip, Allowed(l.r.flags), 0x23, 0x1B, 0x1B),
                          blocked := l.mask - {SIGKILL, SIGSTOP}, fp := l.fp)
            else !u'.alive
  {
    assert (u.r.rsp + U64 - 8) % U64 == l.base;
    ReadStored(u.mem, l.base, l.words);
    ReadStored(u.mem, l.base + FRAME, l.fp);
  }

  /** Whatever the user memory holds, a thread that lives through rt_sigreturn runs at user
      addresses with the user selectors, without flags it may not set, and with the two signals
      that cannot be blocked open; nothing in its memory has changed. */
  lemma SigreturnSafe(cfg: Config, u: User)
    requires u.alive
    ensures var u' := Sigreturn(cfg, u);
            && u'.mem == u.mem
            && (u'.alive ==>
                  && cfg.minAddr <= u'.r.rip < TASK_SIZE_MAX && cfg.minAddr <= u'.r.rsp < TASK_SIZE_MAX
                  && u'.r.cs == 0x23 && u'.r.ss == 0x1B && u'.r.ds == 0x1B
                  && {1, 9} <= u'.r.flags <= {0, 1, 2, 4, 6, 7, 9, 10, 11, 18, 21}
                  && 9 !in u'.blocked && 19 !in u'.blocked
                  && exists base: nat :: base == (u.r.rsp - 8) % U64 && Readable(u.mem, base, WORDS))
  {
  }

  lemma StepKeeps(cfg: Config, s: Session, e: Event)
    requires ConfigOk(cfg) && Inv(cfg, s) && Enabled(cfg, s, e)
    ensures Apply(cfg, s, e).u.alive ==> Inv(cfg, Apply(cfg, s, e))
  {
    match e
    case UserRun(u) =>
    case Signal(act, sig, restart, fault) => SignalKeeps(cfg, s, act, sig, restart, fault);
    case Return => ReturnRestores(cfg, s);
  }

  // ------------------------------------------------------------------------- every run

  ghost predicate Runnable(cfg: Config, s: Session, es: seq<Event>)
    decreases |es|
  {
    es == [] || (Enabled(cfg, s, es[0]) && Runnable(cfg, Apply(cfg, s, es[0]), es[1..]))
  }

  ghost function Run(cfg: Config, s: Session, es: seq<Event>): Session
    requires Runnable(cfg, s, es)
    decreases |es|
  {
    if es == [] then s else Run(cfg, Apply(cfg, s, es[0]), es[1..])
  }

  /** At least d frames are live all along. */
  ghost predicate Deep(cfg: Config, s: Session, es: seq<Event>, d: nat)
    requires Runnable(cfg, s, es)
    decreases |es|
  {
    |s.live| >= d && (es == [] || Deep(cfg, Apply(cfg, s, es[0]), es[1..], d))
  }

  lemma {:induction false} RunKeeps(cfg: Config, s: Session, es: seq<Event>)
    requires ConfigOk(cfg) && Inv(cfg, s) && Runnable(cfg, s, es) && Run(cfg, s, es).u.alive
    ensures Inv(cfg, Run(cfg, s, es))
    decreases |es|
  {
    if es != [] {
      StaysDead(cfg, Apply(cfg, s, es[0]), es[1..]);
      StepKeeps(cfg, s, es[0]);
      RunKeeps(cfg, Apply(cfg, s, es[0]), es[1..]);
    }
  }

  lemma StaysDead(cfg: Config, s: Session, es: seq<Event>)
    requires Runnable(cfg, s, es) && Run(cfg, s, es).u.alive
    ensures s.u.alive
  {
  }

  lemma {:induction false} DeeperKeeps(cfg: Config, s: Session, es: seq<Event>, d: nat)
    requires Runnable(cfg, s, es) && Deep(cfg, s, es, d)
    ensures |Run(cfg, s, es).live| >= d && Run(cfg, s, es).live[..d] == s.live[..d]
    decreases |es|
  {
    if es != [] {
      DeeperKeeps(cfg, Apply(cfg, s, es[0]), es[1..], d);
      assert Apply(cfg, s, es[0]).live[..d] == s.live[..d];
    }
  }

  /** The thread goes on with this context, or is killed for its addresses. */
  ghost predicate Resumes(cfg: Config, u: User, r: Regs, mask: set<nat>, fp: seq<Word>)
  {
    && (u.alive <==> cfg.minAddr <= r.rip < TASK_SIZE_MAX && cfg.minAddr <= r.rsp < TASK_SIZE_MAX)
    && (u.alive ==>
          && u.r == Regs(r.gp, r.rsp, r.rip, r.flags * USER_FLAGS + FORCED_FLAGS, 0x23, 0x1B, 0x1B)
          && u.blocked == mask - {SIGKILL, SIGSTOP} && u.fp == fp)
  }

  lemma InterruptedIs(r: Regs, restart: Option<nat>)
    ensures restart.None? ==> Interrupted(r, restart) == r
    ensures restart.Some? ==> Interrupted(r, restart) == r.(rip := (r.rip - 2) % U64, gp := r.gp.(rax := restart.value))
  {
  }

  lemma SavedMaskIs(u: User)
    ensures SavedMask(u) == if u.restore.Some? then u.restore.value else u.blocked
  {
  }

  /** A handler, whatever it runs and however deep others nest in it, gives back the
      context it interrupted: all registers, the permitted flags, the mask that a masked wait
      had put aside or else the one in force, and the floating-point state. A system call that
      is restarted is two bytes back with its number in rax, and nothing else differs. */
  lemma HandlerRoundTrip(cfg: Config, s: Session, e: Event, body: seq<Event>)
    requires ConfigOk(cfg) && Inv(cfg, s) && e.Signal? && Enabled(cfg, s, e)
    requires Apply(cfg, s, e).u.alive && Runnable(cfg, Apply(cfg, s, e), body)
    requires Deep(cfg, Apply(cfg, s, e), body, |s.live| + 1)
    requires var s2 := Run(cfg, Apply(cfg, s, e), body); |s2.live| == |s.live| + 1 && Enabled(cfg, s2, Return)
    ensures var s3 := Apply(cfg, Run(cfg, Apply(cfg, s, e), body), Return);
            var r := s.u.r;
            var back := if e.restart.Some? then r.(rip := (r.rip - 2) % U64, gp := r.gp.(rax := e.restart.value)) else r;
            && s3.live == s.live
            && Resumes(cfg, s3.u, back, if s.u.restore.Some? then s.u.restore.value else s.u.blocked, s.u.fp)
  {
    var s1 := Apply(cfg, s, e);
    var s2 := Run(cfg, s1, body);
    var d := |s.live|;
    var l := s1.live[d];
    StepKeeps(cfg, s, e);
    RunKeeps(cfg, s1, body);
    DeeperKeeps(cfg, s1, body, d + 1);
    SamePrefix(s.live, l, s2.live);
    ReturnRestores(cfg, s2);
    ResumesBack(cfg, Apply(cfg, s2, Return).u, s.u, e.restart);
  }

  lemma ResumesBack(cfg: Config, u: User, was: User, restart: Option<nat>)
    requires Resumes(cfg, u, Interrupted(was.r, restart), SavedMask(was), was.fp)
    ensures var r := was.r;
            var back := if restart.Some? then r.(rip := (r.rip - 2) % U64, gp := r.gp.(rax := restart.value)) else r;
            Resumes(cfg, u, back, if was.restore.Some? then was.restore.value else was.blocked, was.fp)
  {
    InterruptedIs(was.r, restart);
    SavedMaskIs(was);
  }

  lemma SamePrefix(live: seq<Live>, l: Live, live2: seq<Live>)
    requires |live2| == |live| + 1 && live2[..|live| + 1] == (live + [l])[..|live| + 1]
    ensures live2[|live|] == l && live2[..|live|] == live
  {
    assert live2 == live2[..|live| + 1];
  }

  /** A frame in user memory: the return address at `sp`, the signal number at `info`, and a
      user context at `ctx` with the alternate stack, the registers and flags in the order of
      the machine context, the address of the floating-point state and the mask. */
  ghost predicate FrameSeen(m: Memory, sp: nat, info: nat, ctx: nat, restorer: nat, sig: nat, r: Regs, mask: set<nat>, alt: Alt)
  {
    var g := r.gp;
    && Holds(m, sp, Num(restorer)) && Holds(m, info, Num(sig))
    && Holds(m, ctx + 16, Num(alt.sp)) && Holds(m, ctx + 32, Num(alt.size))
    && HasWords(m, ctx + 40,
                [Num(g.r8), Num(g.r9), Num(g.r10), Num(g.r11), Num(g.r12), Num(g.r13), Num(g.r14), Num(g.r15),
                 Num(g.rdi), Num(g.rsi), Num(g.rbp), Num(g.rbx), Num(g.rdx), Num(g.rax), Num(g.rcx),
                 Num(r.rsp), Num(r.rip), Bits(r.flags)])
    && Holds(m, ctx + 224, Num(sp + FRAME)) && Holds(m, ctx + 296, Bits(mask))
  }

  /** How a handler starts: at its address, on its frame, with its arguments and its mask, and
      with all else as it was. On top of the stack it finds its return address, behind its second
      argument the signal number and behind its third the interrupted context: of a system call
      to be restarted, the address of its instruction and its number. */
  lemma HandlerSeesFrame(cfg: Config, u: User, act: Action, sig: nat, restart: Option<nat>, base: nat)
    requires Place(u.r.rsp, cfg.alt, act.onStack, cfg.fp, cfg.minAddr) == Some(base)
    ensures var u', g := Deliver(cfg, u, act, sig, restart, false), u.r.gp;
            var seen := if restart.Some? then u.r.(rip := (u.r.rip - 2) % U64, gp := g.(rax := restart.value)) else u.r;
            && u'.alive && u'.r.rip == act.handler && u'.r.rsp == base && u'.fp == u.fp && u'.restore == None
            && u'.r.gp == g.(rdi := sig, rsi := base + 312, rdx := base + 8, rax := 0)
            && u'.r.flags == u.r.flags - HANDLER_CLEARS
            && u'.r.cs == u.r.cs && u'.r.ss == u.r.ss && u'.r.ds == u.r.ds
            && u'.blocked == u.blocked + act.mask + (if act.noDefer then {} else {sig})
            && FrameSeen(u'.mem, base, base + 312, base + 8, act.restorer, sig,
                         seen, if u.restore.Some? then u.restore.value else u.blocked, cfg.alt)
  {
    SavedFrame(cfg, u, act, sig, restart, base);
    InterruptedIs(u.r, restart);
    SavedMaskIs(u);
    HandlerStarts(cfg, u, act, sig, restart, base);
  }

  lemma HandlerStarts(cfg: Config, u: User, act: Action, sig: nat, restart: Option<nat>, base: nat)
    requires Place(u.r.rsp, cfg.alt, act.onStack, cfg.fp, cfg.minAddr) == Some(base)
    ensures var u', g := Deliver(cfg, u, act, sig, restart, false), u.r.gp;
            && u'.alive && u'.r.rip == act.handler && u'.r.rsp == base && u'.fp == u.fp && u'.restore == None
            && u'.r.gp == g.(rdi := sig, rsi := base + 312, rdx := base + 8, rax := 0)
            && u'.r.flags == u.r.flags - HANDLER_CLEARS
            && u'.r.cs == u.r.cs && u'.r.ss == u.r.ss && u'.r.ds == u.r.ds
            && u'.blocked == u.blocked + act.mask + (if act.noDefer then {} else {sig})
            && u'.mem == SavedMemory(cfg, u, act, sig, restart, base)
  {
  }

  lemma SavedFrame(cfg: Config, u: User, act: Action, sig: nat, restart: Option<nat>, base: nat)
    ensures FrameSeen(SavedMemory(cfg, u, act, sig, restart, base), base, base + 312, base + 8, act.restorer, sig,
                      Interrupted(u.r, restart), SavedMask(u), cfg.alt)
  {
    var ws := SavedWords(cfg, u, act, sig, restart, base);
    FrameFields(act.restorer, Interrupted(u.r, restart), SavedMask(u), cfg.alt, OnAlt(u.r.rsp, cfg.alt), base + FRAME, sig);
    FrameAt(SavedMemory(cfg, u, act, sig, restart, base), base, ws);
  }

  /** The words of the frame are in memory after the delivery. */
  lemma SavedWords(cfg: Config, u: User, act: Action, sig: nat, restart: Option<nat>, base: nat) returns (ws: seq<Word>)
    ensures |ws| == WORDS && HasWords(SavedMemory(cfg, u, act, sig, restart, base), base, ws)
    ensures ws == Encode(act.restorer, Interrupted(u.r, restart), SavedMask(u), cfg.alt, OnAlt(u.r.rsp, cfg.alt), base + FRAME, sig)
  {
    ws := FrameWords(cfg, u, act, sig, restart, base);
    Stored(u.mem, base, ws);
    StoreElsewhere(Store(u.mem, base, ws), base + FRAME, u.fp, base, ws);
  }

  lemma FrameAt(m: Memory, base: nat, ws: seq<Word>)
    requires |ws| == WORDS && HasWords(m, base, ws)
    ensures Holds(m, base, ws[0]) && Holds(m, base + 24, ws[3]) && Holds(m, base + 40, ws[5])
    ensures HasWords(m, base + 48, ws[6..24]) && Holds(m, base + 232, ws[29])
    ensures Holds(m, base + 304, ws[38]) && Holds(m, base + 312, ws[39])
  {
    WordAt(m, base, ws, 0);
    WordAt(m, base, ws, 3);
    WordAt(m, base, ws, 5);
    WordsAt(m, base, ws, 6, 24);
    WordAt(m, base, ws, 29);
    WordAt(m, base, ws, 38);
    WordAt(m, base, ws, 39);
  }

  lemma WordsAt(m: Memory, base: nat, ws: seq<Word>, i: nat, j: nat)
    requires HasWords(m, base, ws) && i <= j <= |ws|
    ensures HasWords(m, base + 8 * i, ws[i..j])
  {
    forall k | 0 <= k < j - i
      ensures base + 8 * i + 8 * k in m && m[base + 8 * i + 8 * k] == ws[i..j][k]
    {
      WordAt(m, base, ws, i + k);
    }
  }

  ghost predicate Holds(m: Memory, a: nat, w: Word)
  {
    a in m && m[a] == w
  }

  lemma WordAt(m: Memory, base: nat, ws: seq<Word>, j: nat)
    requires HasWords(m, base, ws) && j < |ws|
    ensures Holds(m, base + 8 * j, ws[j])
  {
  }

  /** The permitted flags come back as they were, two are forced, and no other is let in. */
  lemma AllowedKeeps(flags: set<nat>)
    ensures Allowed(flags) * USER_FLAGS == flags * USER_FLAGS && FORCED_FLAGS <= Allowed(flags)
    ensures Allowed(flags) <= {0, 2, 4, 6, 7, 10, 11, 18, 21} + {1, 9}
  {
  }

  // ------------------------------------------------------- when the discipline is broken

  /** A handler on the alternate stack that has run off its end: the next delivery that
      asks for that stack starts again at its top, where the frame of the first is. Two
      frames entered onto one alternate stack are never apart. */
  lemma ReentryOverwrites(cfg: Config, rsp: nat, rsp': nat)
    requires ConfigOk(cfg) && rsp < U64 && rsp' < U64
    requires Entering(rsp, cfg.alt, true) && Entering(rsp', cfg.alt, true)
    requires Place(rsp, cfg.alt, true, cfg.fp, cfg.minAddr).Some?
    ensures Place(rsp', cfg.alt, true, cfg.fp, cfg.minAddr) == Place(rsp, cfg.alt, true, cfg.fp, cfg.minAddr)
    ensures var base := Place(rsp, cfg.alt, true, cfg.fp, cfg.minAddr).value; !Disjoint(cfg, base, base)
  {
  }

  /** With a frame entered onto the alternate stack on top and room on every stack, the
      next frame is apart from it exactly if delivery finds the thread still on that stack
      or is not asked to use it. */
  lemma ApartIffStillOn(cfg: Config, rsp0: nat, rsp: nat, onStack: bool)
    requires ConfigOk(cfg) && rsp0 < U64 && rsp < U64 && Entering(rsp0, cfg.alt, true)
    requires Place(rsp0, cfg.alt, true, cfg.fp, cfg.minAddr).Some?
    requires Place(rsp, cfg.alt, onStack, cfg.fp, cfg.minAddr).Some?
    requires rsp <= Place(rsp0, cfg.alt, true, cfg.fp, cfg.minAddr).value + RED_ZONE
    ensures Disjoint(cfg, Place(rsp0, cfg.alt, true, cfg.fp, cfg.minAddr).value,
                     Place(rsp, cfg.alt, onStack, cfg.fp, cfg.minAddr).value)
            <==> OnAlt(rsp, cfg.alt) || !onStack
  {
    PlacedWell(rsp0, cfg.alt, true, cfg.fp, cfg.minAddr);
    PlacedWell(rsp, cfg.alt, onStack, cfg.fp, cfg.minAddr);
  }

  /** A concrete case: a 4096-byte alternate stack at 0x20000 and a stack pointer that has
      sunk just below it. The second frame lands on the first. */
  lemma RunOffExample()
    ensures var cfg := Config(Alt(0x2_0000, 4096, false), 512, 0x1_0000);
            && ConfigOk(cfg)
            && Place(0x7_0000, cfg.alt, true, 512, 0x1_0000) == Some(0x2_0BF8)
            && Place(0x1_FFF0, cfg.alt, true, 512, 0x1_0000) == Some(0x2_0BF8)
  {
  }

  /** The next multiple of 64. */
  function RoundUp(a: nat): (r: nat)
    ensures a <= r < a + 64 && r % 64 == 0
  {
    a + (63 - (a + 63) % 64)
  }

  /** The size of the alternate stack is checked when it is entered, and not for a thread that
      is on it already. The next frame of such a thread is inside the stack exactly if the stack
      pointer is this far above its low end. */
  lemma InsideIffRoom(cfg: Config, rsp: nat, onStack: bool)
    requires ConfigOk(cfg) && rsp < U64 && OnAlt(rsp, cfg.alt)
    requires Place(rsp, cfg.alt, onStack, cfg.fp, cfg.minAddr).Some?
    ensures InAlt(cfg, Place(rsp, cfg.alt, onStack, cfg.fp, cfg.minAddr).value)
            <==> rsp >= RoundUp(cfg.alt.sp + 8) + FRAME + cfg.fp + RED_ZONE
  {
    var base := Place(rsp, cfg.alt, onStack, cfg.fp, cfg.minAddr).value;
    PlaceIff(rsp, cfg.alt, onStack, cfg.fp, cfg.minAddr, base);
    EndFits(cfg, base, rsp);
    RoundedUp(cfg.alt.sp, base, rsp - RED_ZONE - FRAME - cfg.fp);
  }

  lemma EndFits(cfg: Config, base: nat, rsp: nat)
    requires base + 8 <= rsp - RED_ZONE - FRAME - cfg.fp
    ensures End(cfg, base) <= rsp
  {
  }

  lemma RoundedUp(sp: nat, base: nat, low: nat)
    requires (base + 8) % 64 == 0 && base + 8 <= low < base + 72
    ensures sp <= base <==> low >= RoundUp(sp + 8)
  {
  }

  /** A concrete case: a 2048-byte alternate stack at 0x20000, large enough to be entered. The
      frame of a second handler, taken with the first at its very start, lies below the stack. */
  lemma NestedOverflowExample()
    ensures var cfg := Config(Alt(0x2_0000, 2048, false), 512, 0x1_0000);
            && ConfigOk(cfg)
            && Place(0x7_0000, cfg.alt, true, 512, 0x1_0000) == Some(0x2_03F8) && InAlt(cfg, 0x2_03F8)
            && Place(0x2_03F8, cfg.alt, true, 512, 0x1_0000) == Some(0x1_FF78) && 0x1_FF78 < cfg.alt.sp
  {
  }
}
