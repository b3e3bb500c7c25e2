/**
 Every interleaving of pipe readers and writers. A state holds the abstract pipe
 and one program counter per call in progress; an action is one lock-held section
 of one call, a new call, or the release of an end of the pipe. User copies happen
 between two sections of the same call, so other calls run in between.

 Three histories ride along: the chunks in the order they were committed, the chunks
 handed to readers in the order their reads were committed, and the number of
 committed reads.
 */
module PipeProtocol {
  import opened Machine
  import opened PipeSpec

  datatype Local =
    // pipe_read_user
    | RTop(total: nat, nonblock: bool)
    | RAsleep(total: nat)
    | RCopy(total: nat, nonblock: bool, sequence: nat, snap: seq<Byte>, at: nat)
    | RDone(ret: Ret, got: seq<Byte>)
    // pipe_write_user
    | WTop(data: seq<Byte>, nonblock: bool, written: nat)
    | WAsleep(data: seq<Byte>, written: nat)
    | WStage(data: seq<Byte>, nonblock: bool, written: nat, length: nat)
    | WCommit(data: seq<Byte>, nonblock: bool, written: nat, staged: seq<Byte>)
    | WAsleepStaged(data: seq<Byte>, written: nat, staged: seq<Byte>)
    | WDone(data: seq<Byte>, written: nat, ret: Ret)
    // pipe_read and pipe_write
    | KRTop(len: nat, nonblock: bool)
    | KRAsleep(len: nat)
    | KRDone(ret: Ret, got: seq<Byte>)
    | KWTop(data: seq<Byte>, nonblock: bool, written: nat)
    | KWAsleep(data: seq<Byte>, written: nat)
    | KWDone(data: seq<Byte>, written: nat, ret: Ret)

  datatype Chunk = Chunk(tid: Tid, bytes: seq<Byte>)

  datatype State = State(
    pipe: Pipe,
    calls: map<Tid, Local>,
    log: seq<Chunk>,
    taken: seq<Chunk>,
    readCommits: nat)

  datatype Action =
    | CallRead(t: Tid, total: nat, nonblock: bool)
    | CallWrite(t: Tid, data: seq<Byte>, nonblock: bool)
    | CallKernelRead(t: Tid, total: nat, nonblock: bool)
    | CallKernelWrite(t: Tid, data: seq<Byte>, nonblock: bool)
    | Run(t: Tid, env: Env)
    | ReleaseRead
    | ReleaseWrite

  /** A fresh pipe, as pipe_create leaves it. */
  function Init(): State
  {
    State(Pipe([], 0, 1, 1, [], [], {}), map[], [], [], 0)
  }

  predicate Finished(c: Local)
  {
    c.RDone? || c.WDone? || c.KRDone? || c.KWDone?
  }

  predicate Enabled(s: State, a: Action)
  {
    match a
    case Run(t, _) => t in s.calls && !Finished(s.calls[t])
    case ReleaseRead => true
    case ReleaseWrite => true
    case _ => a.t !in s.calls
  }

  // ------------------------------------------------------------ the next state

  function At(s: State, t: Tid, p: Pipe, c: Local): State
  {
    s.(pipe := p, calls := s.calls[t := c])
  }

  function RunReadTop(s: State, t: Tid, c: Local, env: Env): State
    requires c.RTop?
  {
    At(s, t, AfterReadEnter(s.pipe, t, c.total, c.nonblock, env),
       match ReadEnter(s.pipe, c.total, c.nonblock, env)
       case Snapshot(q, bytes) => RCopy(c.total, c.nonblock, q, bytes, s.readCommits)
       case ReadReturns(r) => RDone(r, [])
       case ReadSleeps => RAsleep(c.total))
  }

  function RunReadCopy(s: State, t: Tid, c: Local, env: Env): State
    requires c.RCopy?
  {
    if env.fault then
      At(s, t, AfterReadFault(s.pipe), RDone(Err(EFAULT), []))
    else if s.pipe.readSeq != c.sequence then
      At(s, t, s.pipe, if env.signal then RDone(Err(EINTR), []) else RTop(c.total, c.nonblock))
    else
      At(s, t, AfterReadCommit(s.pipe, |c.snap|), RDone(Count(|c.snap|), c.snap))
      .(taken := s.taken + [Chunk(t, c.snap)], readCommits := s.readCommits + 1)
  }

  function RunWriteTop(s: State, t: Tid, c: Local, env: Env): State
    requires c.WTop?
  {
    At(s, t, AfterWriteEnter(s.pipe, t, |c.data|, c.nonblock, env),
       match WriteEnter(s.pipe, |c.data|, c.written, c.nonblock, env)
       case Stage(n) => WStage(c.data, c.nonblock, c.written, n)
       case WriteReturns(r) => WDone(c.data, c.written, r)
       case WriteSleeps => WAsleep(c.data, c.written))
  }

  function RunWriteStage(s: State, t: Tid, c: Local, env: Env): State
    requires c.WStage?
  {
    if env.fault then
      At(s, t, AfterWriteFault(s.pipe), WDone(c.data, c.written, Partial(c.written, EFAULT)))
    else
      At(s, t, s.pipe, WCommit(c.data, c.nonblock, c.written, Take(Skip(c.data, c.written), c.length)))
  }

  function RunWriteCommit(s: State, t: Tid, c: Local, env: Env): State
    requires c.WCommit?
  {
    WriteCommitted(s, t, c, env, AfterWriteCommit(s.pipe, t, |c.data|, c.written, c.staged, c.nonblock, env))
  }

  function WriteCommitted(s: State, t: Tid, c: Local, env: Env, p: Pipe): State
    requires c.WCommit?
  {
    match WriteCommit(s.pipe, |c.data|, c.written, |c.staged|, c.nonblock, env)
    case Committed(n) =>
      var written := c.written + n;
      var next := if c.nonblock || written >= |c.data| || env.signal
                  then WDone(c.data, written, Count(written))
                  else WTop(c.data, false, written);
      At(s, t, p, next).(log := s.log + [Chunk(t, Take(c.staged, n))])
    case TryReturns(r) => At(s, t, p, WDone(c.data, c.written, r))
    case TrySleeps => At(s, t, p, WAsleepStaged(c.data, c.written, c.staged))
  }

  function RunKernelRead(s: State, t: Tid, c: Local): State
    requires c.KRTop?
  {
    var p := AfterKernelRead(s.pipe, t, c.len, c.nonblock);
    match KernelReadOutcome(s.pipe, c.len, c.nonblock)
    case Took(bytes) =>
      At(s, t, p, KRDone(Count(|bytes|), bytes))
      .(taken := s.taken + [Chunk(t, bytes)], readCommits := s.readCommits + 1)
    case KReadReturns(r) => At(s, t, p, KRDone(r, []))
    case KReadSleeps => At(s, t, p, KRAsleep(c.len))
  }

  function RunKernelWrite(s: State, t: Tid, c: Local): State
    requires c.KWTop?
  {
    KernelWritten(s, t, c, AfterKernelWrite(s.pipe, t, c.data, c.written, c.nonblock))
  }

  function KernelWritten(s: State, t: Tid, c: Local, p: Pipe): State
    requires c.KWTop?
  {
    match KernelWriteOutcome(s.pipe, |c.data|, c.written, c.nonblock)
    case Put(n) =>
      var written := c.written + n;
      var next := if c.nonblock || written >= |c.data|
                  then KWDone(c.data, written, Count(written))
                  else KWTop(c.data, false, written);
      At(s, t, p, next).(log := s.log + [Chunk(t, Take(Skip(c.data, c.written), n))])
    case KWriteReturns(r) => At(s, t, p, KWDone(c.data, c.written, r))
    case KWriteSleeps => At(s, t, p, KWAsleep(c.data, c.written))
  }

  /** A sleeping call runs again. User calls leave the queue; the kernel-buffer
      calls leave it only when a signal ends them. */
  function RunAsleep(s: State, t: Tid, c: Local, env: Env): State
    requires c.RAsleep? || c.WAsleep? || c.WAsleepStaged? || c.KRAsleep? || c.KWAsleep?
  {
    var awake := s.pipe.(woken := s.pipe.woken - {t});
    match c
    case RAsleep(total) =>
      At(s, t, AwakeOnRead(s.pipe, t), if env.signal then RDone(Err(EINTR), []) else RTop(total, false))
    case WAsleep(data, written) =>
      At(s, t, AwakeOnWrite(s.pipe, t),
         if env.signal then WDone(data, written, Partial(written, EINTR)) else WTop(data, false, written))
    case WAsleepStaged(data, written, staged) =>
      At(s, t, AwakeOnWrite(s.pipe, t),
         if env.signal then WDone(data, written, Partial(written, EINTR))
         else WCommit(data, false, written, staged))
    case KRAsleep(len) =>
      if env.signal then At(s, t, AwakeOnRead(s.pipe, t), KRDone(Err(EINTR), []))
      else At(s, t, awake, KRTop(len, false))
    case KWAsleep(data, written) =>
      if env.signal then At(s, t, AwakeOnWrite(s.pipe, t), KWDone(data, written, Partial(written, EINTR)))
      else At(s, t, awake, KWTop(data, false, written))
  }

  function RunCall(s: State, t: Tid, env: Env): State
    requires t in s.calls && !Finished(s.calls[t])
  {
    var c := s.calls[t];
    if c.RTop? then RunReadTop(s, t, c, env)
    else if c.RCopy? then RunReadCopy(s, t, c, env)
    else if c.WTop? then RunWriteTop(s, t, c, env)
    else if c.WStage? then RunWriteStage(s, t, c, env)
    else if c.WCommit? then RunWriteCommit(s, t, c, env)
    else if c.KRTop? then RunKernelRead(s, t, c)
    else if c.KWTop? then RunKernelWrite(s, t, c)
    else RunAsleep(s, t, c, env)
  }

  /** A call of no bytes returns 0 at once. */
  function Apply(s: State, a: Action): State
    requires Enabled(s, a)
  {
    match a
    case CallRead(t, total, nonblock) =>
      At(s, t, s.pipe, if total == 0 then RDone(Count(0), []) else RTop(total, nonblock))
    case CallWrite(t, data, nonblock) =>
      At(s, t, s.pipe, if data == [] then WDone(data, 0, Count(0)) else WTop(data, nonblock, 0))
    case CallKernelRead(t, len, nonblock) =>
      At(s, t, s.pipe, if len == 0 then KRDone(Count(0), []) else KRTop(len, nonblock))
    case CallKernelWrite(t, data, nonblock) =>
      At(s, t, s.pipe, if data == [] then KWDone(data, 0, Count(0)) else KWTop(data, nonblock, 0))
    case Run(t, env) => RunCall(s, t, env)
    case ReleaseRead => s.(pipe := AfterReadRelease(s.pipe))
    case ReleaseWrite => s.(pipe := AfterWriteRelease(s.pipe))
  }

  predicate Runnable(s: State, acts: seq<Action>)
    decreases |acts|
  {
    acts == [] || (Enabled(s, acts[0]) && Runnable(Apply(s, acts[0]), acts[1..]))
  }

  function Exec(s: State, acts: seq<Action>): State
    requires Runnable(s, acts)
    decreases |acts|
  {
    if acts == [] then s else Exec(Apply(s, acts[0]), acts[1..])
  }

  // ------------------------------------------------------------- the histories

  function Stream(log: seq<Chunk>): seq<Byte>
  {
    if log == [] then [] else Stream(log[..|log| - 1]) + log[|log| - 1].bytes
  }

  /** The chunks of one call, in commit order. */
  function Blocks(log: seq<Chunk>, t: Tid): seq<seq<Byte>>
  {
    if log == [] then []
    else
      var last := log[|log| - 1];
      Blocks(log[..|log| - 1], t) + (if last.tid == t then [last.bytes] else [])
  }

  function Join(blocks: seq<seq<Byte>>): seq<Byte>
  {
    if blocks == [] then [] else Join(blocks[..|blocks| - 1]) + blocks[|blocks| - 1]
  }

  lemma LogGrows(log: seq<Chunk>, c: Chunk)
    ensures Stream(log + [c]) == Stream(log) + c.bytes
    ensures Blocks(log + [c], c.tid) == Blocks(log, c.tid) + [c.bytes]
    ensures forall t | t != c.tid :: Blocks(log + [c], t) == Blocks(log, t)
  {
    assert (log + [c])[..|log|] == log;
  }

  lemma JoinGrows(blocks: seq<seq<Byte>>, b: seq<Byte>)
    ensures Join(blocks + [b]) == Join(blocks) + b
  {
    assert (blocks + [b])[..|blocks|] == blocks;
  }
}
