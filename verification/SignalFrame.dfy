/**
 The signal frame of kernel/signal.c: what rt_sigreturn finds in the words that delivery
 wrote, and where on the user stacks delivery puts them.
 */
module SignalFrame {
  import opened Machine

  const FRAME: nat := 456               // sizeof(sigframe_t)
  const WORDS: nat := 57                // of eight bytes each
  const RED_ZONE: nat := 128
  const SLACK: nat := 128               // alignment and red zone slack in the size checks
  const TASK_SIZE_MAX: nat := 0x8000_0000_0000
  const FP_MAX: nat := 4096
  const NSIG: nat := 64
  const SIGKILL: nat := 9
  const SIGSTOP: nat := 19

  /** A saved word, read as a number or as a set of bits. */
  datatype Word = Num(n: nat) | Bits(b: set<nat>)

  /** The general registers other than the stack pointer. */
  datatype Gp = Gp(r8: nat, r9: nat, r10: nat, r11: nat, r12: nat, r13: nat, r14: nat, r15: nat,
                   rdi: nat, rsi: nat, rbp: nat, rbx: nat, rdx: nat, rax: nat, rcx: nat)

  datatype Regs = Regs(gp: Gp, rsp: nat, rip: nat, flags: set<nat>, cs: nat, ss: nat, ds: nat)

  /** The registered alternate stack; `sp` is zero for none. */
  datatype Alt = Alt(sp: nat, size: nat, disabled: bool)

  /** The flags a signal frame may carry: CF PF AF ZF SF DF OF AC ID. */
  const USER_FLAGS: set<nat> := {0, 2, 4, 6, 7, 10, 11, 18, 21}
  const FORCED_FLAGS: set<nat> := {1, 9}
  const HANDLER_CLEARS: set<nat> := {8, 10, 16}

  // -------------------------------------------------------------------------- layout

  /** The words of a frame in memory order: the return address, the user context with its
      machine context, the signal information and the padding. */
  function Encode(restorer: nat, r: Regs, mask: set<nat>, alt: Alt, onAlt: bool, fpstate: nat, sig: nat): (ws: seq<Word>)
    ensures |ws| == WORDS
  {
    var altFlags := if onAlt then 1 else if alt.disabled then 2 else 0;
    var selectors := r.cs + 0x1_0000_0000_0000 * r.ss;
    [Num(restorer)]
    + [Num(0), Num(0), Num(alt.sp), Num(altFlags), Num(alt.size)]
    + [Num(r.gp.r8), Num(r.gp.r9), Num(r.gp.r10), Num(r.gp.r11), Num(r.gp.r12), Num(r.gp.r13), Num(r.gp.r14), Num(r.gp.r15)]
    + [Num(r.gp.rdi), Num(r.gp.rsi), Num(r.gp.rbp), Num(r.gp.rbx), Num(r.gp.rdx), Num(r.gp.rax), Num(r.gp.rcx)]
    + [Num(r.rsp), Num(r.rip), Bits(r.flags), Num(selectors)]
    + [Num(0), Num(0), Num(0), Num(0), Num(fpstate)]
    + seq(8, _ => Num(0))
    + [Bits(mask)]
    + [Num(sig)] + seq(15, _ => Num(0))
    + seq(2, _ => Num(0))
  }

  /** The fields that rt_sigreturn takes from a frame. */
  datatype Context = Context(gp: Gp, rsp: nat, rip: nat, flags: set<nat>, mask: set<nat>, fpstate: nat)

  function N(w: Word): nat
  {
    if w.Num? then w.n else 0
  }

  function B(w: Word): set<nat>
  {
    if w.Bits? then w.b else {}
  }

  function Decode(ws: seq<Word>): Context
    requires |ws| == WORDS
  {
    Context(Gp(N(ws[6]), N(ws[7]), N(ws[8]), N(ws[9]), N(ws[10]), N(ws[11]), N(ws[12]), N(ws[13]),
               N(ws[14]), N(ws[15]), N(ws[16]), N(ws[17]), N(ws[18]), N(ws[19]), N(ws[20])),
            N(ws[21]), N(ws[22]), B(ws[23]), B(ws[38]), N(ws[29]))
  }

  /** rt_sigreturn finds what delivery saved. */
  lemma FrameRoundTrip(restorer: nat, r: Regs, mask: set<nat>, alt: Alt, onAlt: bool, fpstate: nat, sig: nat)
    ensures Decode(Encode(restorer, r, mask, alt, onAlt, fpstate, sig))
            == Context(r.gp, r.rsp, r.rip, r.flags, mask, fpstate)
  {
  }

  /** The words a handler can look at through its arguments. */
  lemma FrameFields(restorer: nat, r: Regs, mask: set<nat>, alt: Alt, onAlt: bool, fpstate: nat, sig: nat)
    ensures var ws := Encode(restorer, r, mask, alt, onAlt, fpstate, sig);
            && ws[0] == Num(restorer) && ws[3] == Num(alt.sp) && ws[5] == Num(alt.size)
            && ws[6..24]
               == [Num(r.gp.r8), Num(r.gp.r9), Num(r.gp.r10), Num(r.gp.r11), Num(r.gp.r12), Num(r.gp.r13), Num(r.gp.r14),
                   Num(r.gp.r15), Num(r.gp.rdi), Num(r.gp.rsi), Num(r.gp.rbp), Num(r.gp.rbx), Num(r.gp.rdx), Num(r.gp.rax),
                   Num(r.gp.rcx), Num(r.rsp), Num(r.rip), Bits(r.flags)]
            && ws[29] == Num(fpstate) && ws[38] == Bits(mask) && ws[39] == Num(sig)
  {
  }

  // ----------------------------------------------------------------------- user memory

  type Memory = map<nat, Word>

  function Cells(base: nat, n: nat): set<nat>
  {
    set j | 0 <= j < n :: base + 8 * j
  }

  function Store(m: Memory, base: nat, ws: seq<Word>): Memory
  {
    m + map a | a in Cells(base, |ws|) :: ws[(a - base) / 8]
  }

  /** The words from `base` on are these. */
  ghost predicate HasWords(m: Memory, base: nat, ws: seq<Word>)
  {
    forall j {:trigger ws[j]} | 0 <= j < |ws| :: base + 8 * j in m && m[base + 8 * j] == ws[j]
  }

  lemma Stored(m: Memory, base: nat, ws: seq<Word>)
    ensures HasWords(Store(m, base, ws), base, ws)
  {
    forall j | 0 <= j < |ws|
      ensures base + 8 * j in Store(m, base, ws) && Store(m, base, ws)[base + 8 * j] == ws[j]
    {
      assert base + 8 * j in Cells(base, |ws|);
    }
  }

  lemma StoreElsewhere(m: Memory, base: nat, ws: seq<Word>, a: nat, vs: seq<Word>)
    requires HasWords(m, a, vs) && (base + 8 * |ws| <= a || a + 8 * |vs| <= base)
    ensures HasWords(Store(m, base, ws), a, vs)
  {
    var m' := Store(m, base, ws);
    forall j | 0 <= j < |vs|
      ensures a + 8 * j in m' && m'[a + 8 * j] == vs[j]
    {
      var v := vs[j];
      assert a + 8 * j in m && m[a + 8 * j] == v;
      assert a + 8 * j !in Cells(base, |ws|);
    }
  }

  // ------------------------------------------------------------------------- placement

  predicate OnAlt(rsp: nat, alt: Alt)
  {
    alt.sp != 0 && !alt.disabled && alt.sp <= rsp < (alt.sp + alt.size) % U64
  }

  /** The handler asked for the alternate stack, and the thread is not on it. */
  predicate Entering(rsp: nat, alt: Alt, onStack: bool)
  {
    onStack && alt.sp != 0 && !alt.disabled && !OnAlt(rsp, alt)
  }

  /** The address the frame has to stay below. */
  function Ceiling(rsp: nat, alt: Alt, onStack: bool): nat
  {
    if Entering(rsp, alt, onStack) then (alt.sp + alt.size) % U64 else (rsp + U64 - RED_ZONE) % U64
  }

  /** Where signal_deliver_pending puts the frame, or None where it kills the process. */
  function Place(rsp: nat, alt: Alt, onStack: bool, fp: nat, minAddr: nat): Option<nat>
  {
    var need := FRAME + fp + SLACK;
    var sp := Ceiling(rsp, alt, onStack);
    if Entering(rsp, alt, onStack) && alt.size < need then None
    else if sp < need || sp >= TASK_SIZE_MAX then None
    else
      var low := sp - (FRAME + fp);
      var base := low - low % 64 - 8;
      if base < minAddr || base >= TASK_SIZE_MAX then None else Some(base)
  }

  /** The stack is aligned as at a call, the floating-point area to 64 bytes; the frame is
      below the red zone of the interrupted stack, or wholly inside the alternate stack. */
  lemma PlacedWell(rsp: nat, alt: Alt, onStack: bool, fp: nat, minAddr: nat)
    requires rsp < U64 && alt.sp + alt.size < U64
    requires Place(rsp, alt, onStack, fp, minAddr).Some?
    ensures var base := Place(rsp, alt, onStack, fp, minAddr).value;
            && base % 16 == 8 && (base + FRAME) % 64 == 0
            && minAddr <= base && base + FRAME + fp + 8 <= TASK_SIZE_MAX
            && (if Entering(rsp, alt, onStack)
                then alt.sp <= base && base + FRAME + fp + 8 <= alt.sp + alt.size
                else base + FRAME + fp + 8 <= rsp - RED_ZONE)
  {
    var sp := Ceiling(rsp, alt, onStack);
    var low := sp - (FRAME + fp);
    Align(low);
  }

  /** Where the frame goes: with room for it, its padding and a red zone, below the end of the
      alternate stack if that is entered and below the red zone of the interrupted stack if not,
      at the highest address that leaves the floating-point area on a multiple of 64. */
  lemma PlaceIff(rsp: nat, alt: Alt, onStack: bool, fp: nat, minAddr: nat, base: nat)
    requires rsp < U64 && alt.sp + alt.size < U64
    ensures var enters := onStack && alt.sp != 0 && !alt.disabled && !(alt.sp <= rsp < alt.sp + alt.size);
            var top: int := if enters then alt.sp + alt.size else rsp - 128;
            Place(rsp, alt, onStack, fp, minAddr) == Some(base)
            <==> && (enters ==> FRAME + fp + 128 <= alt.size)
                 && FRAME + fp + 128 <= top < TASK_SIZE_MAX && minAddr <= base
                 && (base + 8) % 64 == 0 && base + 8 <= top - FRAME - fp < base + 72
  {
    var sp := Ceiling(rsp, alt, onStack);
    if sp >= FRAME + fp {
      Highest64(sp - (FRAME + fp), base);
    }
  }

  lemma Highest64(low: nat, base: nat)
    ensures base == low - low % 64 - 8 <==> (base + 8) % 64 == 0 && base + 8 <= low < base + 72
  {
  }

  lemma Align(low: nat)
    requires low >= 64
    ensures var base := low - low % 64 - 8;
            base % 16 == 8 && (base + FRAME) % 64 == 0 && low - 71 <= base && base + 8 <= low
  {
    var base, q := low - low % 64 - 8, low / 64;
    DivMod(low, 64);
    ModUnique(base, 16, 4 * q - 1, 8);
    ModUnique(base + FRAME, 64, q + 7, 0);
  }
}
