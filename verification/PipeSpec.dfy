/**
 The critical sections of fs/pipe.c as functions on the abstract pipe: the byte
 stream in the ring, the read sequence number, the two reference counts and the
 two wait queues. PipeRing proves that the ring-buffer code computes these
 functions; PipeProtocol composes them into every interleaving.
 */
module PipeSpec {
  import opened Machine
  import opened SinglyLinked

  type Tid = nat

  const PIPE_BUFFER_SIZE: nat := 4096

  datatype Errno = EAGAIN | EINTR | EPIPE | EFAULT

  datatype Ret = Count(n: nat) | Err(e: Errno)

  /** What the surroundings decide when a thread takes its next step: whether the
      scheduler knows a current thread, whether an unblocked signal is pending,
      and whether the user-memory copy just before the step faulted. */
  datatype Env = Env(haveThread: bool, signal: bool, fault: bool)

  /** `woken` holds the threads sched_unblock() has been called for since they
      last went to sleep. */
  datatype Pipe = Pipe(
    contents: seq<Byte>, readSeq: nat,
    readers: nat, writers: nat,
    readWait: seq<Tid>, writeWait: seq<Tid>, woken: set<Tid>)

  /** The first `n` bytes, or all of them if there are fewer. */
  function Take(s: seq<Byte>, n: nat): seq<Byte>
  {
    s[..Min(n, |s|)]
  }

  function Skip(s: seq<Byte>, n: nat): seq<Byte>
  {
    s[Min(n, |s|)..]
  }

  function Available(p: Pipe): int
  {
    PIPE_BUFFER_SIZE - |p.contents|
  }

  function Members(q: seq<Tid>): set<Tid>
  {
    set t | t in q
  }

  /** Appending is suppressed for a thread that is already queued. */
  function Push(q: seq<Tid>, t: Tid): seq<Tid>
  {
    if t in q then q else q + [t]
  }

  function WakeAllReaders(p: Pipe): Pipe
  {
    p.(readWait := [], woken := p.woken + Members(p.readWait))
  }

  function WakeAllWriters(p: Pipe): Pipe
  {
    p.(writeWait := [], woken := p.woken + Members(p.writeWait))
  }

  function WakeOneReader(p: Pipe): Pipe
  {
    if p.readWait == [] then p
    else p.(readWait := p.readWait[1..], woken := p.woken + {p.readWait[0]})
  }

  function WakeOneWriter(p: Pipe): Pipe
  {
    if p.writeWait == [] then p
    else p.(writeWait := p.writeWait[1..], woken := p.woken + {p.writeWait[0]})
  }

  // ---------------------------------------------------------------- sleeping

  datatype SleepStart = Asleep | Refused(e: Errno)

  function SleepOutcome(env: Env): SleepStart
  {
    if !env.haveThread then Refused(EAGAIN)
    else if env.signal then Refused(EINTR)
    else Asleep
  }

  function SleepOnRead(p: Pipe, t: Tid, env: Env): Pipe
  {
    if SleepOutcome(env).Asleep? then p.(readWait := Push(p.readWait, t)) else p
  }

  function SleepOnWrite(p: Pipe, t: Tid, env: Env): Pipe
  {
    if SleepOutcome(env).Asleep? then p.(writeWait := Push(p.writeWait, t)) else p
  }

  /** The tail of pipe_sleep_locked: the thread runs again and leaves its queue. */
  function AwakeOnRead(p: Pipe, t: Tid): Pipe
  {
    p.(readWait := Without(p.readWait, t), woken := p.woken - {t})
  }

  function AwakeOnWrite(p: Pipe, t: Tid): Pipe
  {
    p.(writeWait := Without(p.writeWait, t), woken := p.woken - {t})
  }

  // ------------------------------------------------------- user-memory reader

  datatype ReadEntry =
    | Snapshot(sequence: nat, bytes: seq<Byte>)
    | ReadReturns(ret: Ret)
    | ReadSleeps

  function ReadEnter(p: Pipe, total: nat, nonblock: bool, env: Env): ReadEntry
  {
    if p.contents != [] then
      Snapshot(p.readSeq, Take(p.contents, total))
    else if p.writers == 0 then ReadReturns(Count(0))
    else if nonblock then ReadReturns(Err(EAGAIN))
    else match SleepOutcome(env)
      case Asleep => ReadSleeps
      case Refused(e) => ReadReturns(Err(e))
  }

  function AfterReadEnter(p: Pipe, t: Tid, total: nat, nonblock: bool, env: Env): Pipe
  {
    if p.contents == [] && p.writers != 0 && !nonblock then SleepOnRead(p, t, env) else p
  }

  function AfterReadFault(p: Pipe): Pipe
  {
    if p.contents != [] then WakeAllReaders(p) else p
  }

  /** Drop `length` bytes from the front of the stream. */
  function Consume(p: Pipe, length: nat): Pipe
  {
    p.(contents := Skip(p.contents, length), readSeq := (p.readSeq + 1) % U64)
  }

  function AfterReadCommit(p: Pipe, length: nat): Pipe
  {
    var q := WakeAllWriters(Consume(p, length));
    if q.contents != [] then WakeAllReaders(q) else q
  }

  // ------------------------------------------------------- user-memory writer

  predicate Atomic(total: nat)
  {
    total <= PIPE_BUFFER_SIZE
  }

  /** A writer of `total` bytes finds no room to proceed with. */
  predicate NoRoom(p: Pipe, total: nat)
  {
    Available(p) <= 0 || (Atomic(total) && Available(p) < total)
  }

  datatype WriteEntry =
    | Stage(length: nat)
    | WriteReturns(ret: Ret)
    | WriteSleeps

  function Partial(written: nat, e: Errno): Ret
  {
    if written > 0 then Count(written) else Err(e)
  }

  function WriteEnter(p: Pipe, total: nat, written: nat, nonblock: bool, env: Env): WriteEntry
  {
    if p.readers == 0 then WriteReturns(Partial(written, EPIPE))
    else if NoRoom(p, total) then
      if nonblock then WriteReturns(Partial(written, EAGAIN))
      else match SleepOutcome(env)
        case Asleep => WriteSleeps
        case Refused(e) => WriteReturns(Partial(written, e))
    else
      Stage(Min(Monus(total, written), Available(p)))
  }

  function AfterWriteEnter(p: Pipe, t: Tid, total: nat, nonblock: bool, env: Env): Pipe
  {
    if p.readers != 0 && NoRoom(p, total) && !nonblock then SleepOnWrite(p, t, env) else p
  }

  function AfterWriteFault(p: Pipe): Pipe
  {
    if |p.contents| < PIPE_BUFFER_SIZE then WakeAllWriters(p) else p
  }

  datatype WriteTry =
    | Committed(length: nat)
    | TryReturns(ret: Ret)
    | TrySleeps

  /** The staged chunk cannot be committed now. */
  predicate NoRoomFor(p: Pipe, total: nat, length: nat)
  {
    Available(p) <= 0 || (Atomic(total) && Available(p) < length)
  }

  function WriteCommit(p: Pipe, total: nat, written: nat, length: nat, nonblock: bool, env: Env): WriteTry
  {
    if p.readers == 0 then TryReturns(Partial(written, EPIPE))
    else if NoRoomFor(p, total, length) then
      if nonblock then TryReturns(Partial(written, EAGAIN))
      else match SleepOutcome(env)
        case Asleep => TrySleeps
        case Refused(e) => TryReturns(Partial(written, e))
    else
      Committed(Min(length, Available(p)))
  }

  function Append(p: Pipe, bytes: seq<Byte>): Pipe
  {
    p.(contents := p.contents + bytes)
  }

  function AfterWriteCommit(p: Pipe, t: Tid, total: nat, written: nat, staged: seq<Byte>,
                            nonblock: bool, env: Env): Pipe
  {
    match WriteCommit(p, total, written, |staged|, nonblock, env)
    case Committed(n) =>
      var q := WakeAllReaders(Append(p, Take(staged, n)));
      if |q.contents| < PIPE_BUFFER_SIZE then WakeAllWriters(q) else q
    case TryReturns(_) => p
    case TrySleeps => SleepOnWrite(p, t, env)
  }

  // --------------------------------------------------- kernel-buffer variants

  datatype KernelRead = Took(bytes: seq<Byte>) | KReadReturns(ret: Ret) | KReadSleeps

  function KernelReadOutcome(p: Pipe, len: nat, nonblock: bool): KernelRead
  {
    if p.contents != [] then Took(Take(p.contents, len))
    else if p.writers == 0 then KReadReturns(Count(0))
    else if nonblock then KReadReturns(Err(EAGAIN))
    else KReadSleeps
  }

  function AfterKernelRead(p: Pipe, t: Tid, len: nat, nonblock: bool): Pipe
  {
    match KernelReadOutcome(p, len, nonblock)
    case Took(bytes) =>
      var q := WakeAllWriters(Consume(p, |bytes|));
      if q.contents != [] then WakeOneReader(q) else q
    case KReadReturns(_) => p
    case KReadSleeps => p.(readWait := Push(p.readWait, t))
  }

  datatype KernelWrite = Put(length: nat) | KWriteReturns(ret: Ret) | KWriteSleeps

  function KernelWriteOutcome(p: Pipe, len: nat, written: nat, nonblock: bool): KernelWrite
  {
    if p.readers == 0 then KWriteReturns(Err(EPIPE))
    else if 0 < Available(p) && (len > PIPE_BUFFER_SIZE || Available(p) >= len) then
      Put(Min(Monus(len, written), Available(p)))
    else if nonblock then KWriteReturns(Partial(written, EAGAIN))
    else KWriteSleeps
  }

  /** A kernel-buffer write that commits: one reader is woken, and one writer if room is left. */
  function KernelPut(p: Pipe, bytes: seq<Byte>): Pipe
  {
    var q := WakeOneReader(Append(p, bytes));
    if |q.contents| < PIPE_BUFFER_SIZE then WakeOneWriter(q) else q
  }

  function AfterKernelWrite(p: Pipe, t: Tid, data: seq<Byte>, written: nat, nonblock: bool): Pipe
  {
    match KernelWriteOutcome(p, |data|, written, nonblock)
    case Put(n) => KernelPut(p, Take(Skip(data, written), n))
    case KWriteReturns(_) => p
    case KWriteSleeps => p.(writeWait := Push(p.writeWait, t))
  }

  // ------------------------------------------------------------------ release

  function AfterReadRelease(p: Pipe): Pipe
  {
    WakeAllWriters(if p.readers > 0 then p.(readers := p.readers - 1) else p)
  }

  function AfterWriteRelease(p: Pipe): Pipe
  {
    WakeAllReaders(if p.writers > 0 then p.(writers := p.writers - 1) else p)
  }
}
