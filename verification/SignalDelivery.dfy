/**
 Signal delivery and return as kernel/signal.c performs them, changing the registers, the
 masks and the user memory of a thread in place. Each method does what the function of the
 same name in SignalNesting says.
 */
module SignalDelivery {
  import opened Machine
  import opened SignalFrame
  import opened SignalNesting

  /** The lowest-numbered signal of a set, or zero; numbers from 64 on are not seen. */
  method LowestSignal(s: set<nat>) returns (sig: nat)
    ensures sig == 0 <==> forall i | 0 < i < NSIG :: i !in s
    ensures sig != 0 ==> sig in s && sig < NSIG && forall i | 0 < i < sig :: i !in s
  {
    var i := 1;
    while i < NSIG
      invariant 1 <= i <= NSIG && forall j | 0 < j < i :: j !in s
    {
      if i in s {
        return i;
      }
      i := i + 1;
    }
    sig := 0;
  }

  class SignalThread {
    var r: Regs
    var blocked: set<nat>
    var pending: set<nat>
    var procPending: set<nat>
    var handlers: map<nat, Action>
    var restore: Option<set<nat>>
    var mem: Memory
    var fp: seq<Word>
    var alive: bool
    const cfg: Config

    constructor (cfg: Config, r: Regs, mem: Memory, fp: seq<Word>, handlers: map<nat, Action>)
      ensures this.cfg == cfg && View() == User(r, {}, None, mem, fp, true)
      ensures pending == {} && procPending == {} && this.handlers == handlers
    {
      this.cfg, this.r, this.mem, this.fp, this.handlers := cfg, r, mem, fp, handlers;
      blocked, pending, procPending, restore, alive := {}, {}, {}, None, true;
    }

    function View(): User
      reads this
    {
      User(r, blocked, restore, mem, fp, alive)
    }

    /** What signal_deliver_pending picks: the lowest signal sent to the thread, whatever the
        process has; and only if the thread has none, the lowest sent to the process. */
    method NextSignal() returns (sig: nat, own: bool)
      ensures own <==> exists i :: i in pending && i !in blocked && i != SIGKILL && i != SIGSTOP
      ensures var s := (if own then pending else procPending) - blocked - {SIGKILL, SIGSTOP};
              && (sig == 0 <==> forall i | 0 < i < NSIG :: i !in s)
              && (sig != 0 ==> sig in s && forall i | 0 < i < sig :: i !in s)
    {
      var mine := pending - blocked - {SIGKILL, SIGSTOP};
      own := mine != {};
      assert forall i | i in pending && i !in blocked && i != SIGKILL && i != SIGSTOP :: i in mine;
      if own {
        assert exists i :: i in mine;
        sig := LowestSignal(mine);
      } else {
        sig := LowestSignal(procPending - blocked - {SIGKILL, SIGSTOP});
      }
    }

    /** copy_to_user, word by word. */
    method StoreWords(base: nat, ws: seq<Word>)
      modifies this`mem
      ensures mem == Store(old(mem), base, ws)
    {
      var j := 0;
      StoreNone(mem, base, ws);
      while j < |ws|
        invariant 0 <= j <= |ws|
        invariant mem == Store(old(mem), base, ws[..j])
      {
        StoreNext(old(mem), base, ws, j);
        mem := mem[base + 8 * j := ws[j]];
        j := j + 1;
      }
      assert ws[..|ws|] == ws;
    }

    /** copy_from_user: fails at the first word that is not mapped. */
    method LoadWords(base: nat, n: nat) returns (ok: bool, ws: seq<Word>)
      ensures ok <==> Readable(mem, base, n)
      ensures ok ==> ws == Read(mem, base, n) && |ws| == n
    {
      ws := [];
      var j := 0;
      while j < n
        invariant 0 <= j <= n && |ws| == j
        invariant forall i | 0 <= i < j :: base + 8 * i in mem && ws[i] == mem[base + 8 * i]
      {
        if base + 8 * j !in mem {
          return false, ws;
        }
        ws := ws + [mem[base + 8 * j]];
        j := j + 1;
      }
      ok := true;
    }

    /** Write the frame and the floating-point state to the user stack. */
    method SaveContext(base: nat, act: Action, sig: nat, restart: Option<nat>)
      modifies this`r, this`mem
      ensures r == Interrupted(old(r), restart)
      ensures mem == SavedMemory(cfg, old(View()), act, sig, restart, base)
    {
      var onAlt := OnAlt(r.rsp, cfg.alt);
      if restart.Some? {
        r := r.(rip := (r.rip + U64 - 2) % U64, gp := r.gp.(rax := restart.value));
      }
      var mask := if restore.Some? then restore.value else blocked;
      StoreWords(base, Encode(act.restorer, r, mask, cfg.alt, onAlt, base + FRAME, sig));
      StoreWords(base + FRAME, fp);
    }

    method EnterHandler(base: nat, act: Action, sig: nat)
      modifies this`r, this`blocked, this`restore
      ensures r == HandlerRegs(old(r), act, sig, base) && restore == None
      ensures blocked == old(blocked) + act.mask + (if act.noDefer then {} else {sig})
    {
      restore := None;
      r := r.(rip := act.handler, rsp := base,
              gp := r.gp.(rdi := sig, rsi := base + 312, rdx := base + 8, rax := 0),
              flags := r.flags - HANDLER_CLEARS);
      blocked := blocked + act.mask;
      if !act.noDefer {
        blocked := blocked + {sig};
      }
    }

    /** signal_deliver_pending once a handler is found; `own` says whose pending signal it is,
        and `fault` is a failed copy. A handler that asks for it is taken off when entered. */
    method DeliverSignal(sig: nat, own: bool, restart: Option<nat>, fault: bool)
      requires alive && sig in handlers
      modifies this
      ensures View() == Deliver(cfg, old(View()), old(handlers[sig]), sig, restart, fault)
      ensures pending == (if own then old(pending) - {sig} else old(pending))
      ensures procPending == (if own then old(procPending) else old(procPending) - {sig})
      ensures handlers == if alive && old(handlers[sig]).resetHand then old(handlers) - {sig} else old(handlers)
    {
      var act := handlers[sig];
      if own {
        pending := pending - {sig};
      } else {
        procPending := procPending - {sig};
      }
      var spot := Place(r.rsp, cfg.alt, act.onStack, cfg.fp, cfg.minAddr);
      if spot.None? || fault {
        alive := false;
        return;
      }
      SaveContext(spot.value, act, sig, restart);
      EnterHandler(spot.value, act, sig);
      if act.resetHand {
        handlers := handlers - {sig};
      }
    }

    /** sys_rt_sigreturn_impl. */
    method SigReturn()
      modifies this
      ensures View() == Sigreturn(cfg, old(View())) && unchanged(`pending, `procPending, `handlers)
    {
      var base := (r.rsp + U64 - 8) % U64;
      var ok, ws := LoadWords(base, WORDS);
      if !ok {
        alive := false;
        return;
      }
      Return(Decode(ws));
    }

    method Return(c: Context)
      modifies this`r, this`blocked, this`fp, this`alive
      ensures View() == Returned(cfg, old(View()), c)
    {
      if !InUserRange(c.rip, cfg.minAddr) || !InUserRange(c.rsp, cfg.minAddr) {
        alive := false;
        return;
      }
      Resume(c);
    }

    /** Take over a context that passed the checks. */
    method Resume(c: Context)
      modifies this`r, this`blocked, this`fp, this`alive
      ensures View() == Resumed(cfg, old(View()), c)
    {
      r := Regs(c.gp, c.rsp, c.rip, Allowed(c.flags), 0x23, 0x1B, 0x1B);
      blocked := c.mask - {SIGKILL, SIGSTOP};
      if c.fpstate != 0 {
        var ok, area := LoadWords(c.fpstate, FpWords(cfg));
        if !InUserRange(c.fpstate, cfg.minAddr) || c.fpstate % 64 != 0 || !ok {
          alive := false;
        } else {
          fp := area;
        }
      }
    }
  }

  lemma StoreNone(m: Memory, base: nat, ws: seq<Word>)
    ensures Store(m, base, ws[..0]) == m
  {
  }

  lemma StoreNext(m: Memory, base: nat, ws: seq<Word>, j: nat)
    requires j < |ws|
    ensures Store(m, base, ws[..j + 1]) == Store(m, base, ws[..j])[base + 8 * j := ws[j]]
  {
    var m', n' := Store(m, base, ws[..j + 1]), Store(m, base, ws[..j])[base + 8 * j := ws[j]];
    assert Cells(base, j + 1) == Cells(base, j) + {base + 8 * j};
    forall a | a in m'
      ensures a in n' && m'[a] == n'[a]
    {
      if a in Cells(base, j) {
        var i :| 0 <= i < j && a == base + 8 * i;
        assert ws[..j + 1][i] == ws[..j][i];
      }
    }
  }
}
