/**
 No lost wakeups: a sleeping call that nobody has woken is still waiting for something
 that has not happened. This holds in every interleaving of the user-memory calls, the
 kernel-buffer calls and the two release operations in which every kernel-buffer write
 that commits finds at most one reader waiting; and that is exactly when one such write
 keeps it, because pipe_write wakes a single reader.
 */
module PipeWakeups {
  import opened Machine
  import opened SinglyLinked
  import opened PipeSpec
  import opened PipeProtocol
  import PipeWriters

  predicate ReadAsleep(c: Local)
  {
    c.RAsleep? || c.KRAsleep?
  }

  predicate WriteAsleep(c: Local)
  {
    c.WAsleep? || c.WAsleepStaged? || c.KWAsleep?
  }

  /** Who may be on the read queue: the sleepers, and a kernel-buffer reader that runs again
      without having been woken, because it stays on the queue. */
  predicate MayWaitToRead(c: Local)
  {
    ReadAsleep(c) || (c.KRTop? && !c.nonblock)
  }

  predicate MayWaitToWrite(c: Local)
  {
    WriteAsleep(c) || (c.KWTop? && !c.nonblock)
  }

  /** Nothing a reader could act on. */
  predicate ReadIdle(p: Pipe)
  {
    p.contents == [] && p.writers > 0
  }

  predicate WriteIdle(p: Pipe, total: nat)
  {
    NoRoom(p, total) && p.readers > 0
  }

  /** Each sleeping call is on its queue or has been woken. A call is on a queue only while
      its condition is unmet. */
  ghost predicate QueuesOk(p: Pipe, calls: map<Tid, Local>)
  {
    && Distinct(p.readWait) && Distinct(p.writeWait)
    && (forall t | t in p.readWait :: t in calls && MayWaitToRead(calls[t]) && ReadIdle(p))
    && (forall t | t in p.writeWait :: t in calls && MayWaitToWrite(calls[t]) && WriteIdle(p, |calls[t].data|))
    && (forall t | t in calls && ReadAsleep(calls[t]) :: t in p.readWait || t in p.woken)
    && (forall t | t in calls && WriteAsleep(calls[t]) :: t in p.writeWait || t in p.woken)
  }

  ghost predicate WakeupsOk(s: State)
  {
    PipeWriters.WritersOk(s) && QueuesOk(s.pipe, s.calls)
  }

  // ------------------------------------------------------------- queue surgery

  /** Waking everyone on both queues is right whatever the ring looks like. */
  lemma WakeBothOk(p: Pipe, calls: map<Tid, Local>, q: Pipe)
    requires QueuesOk(p, calls)
    requires q.readWait == [] && q.writeWait == []
    requires q.woken == p.woken + Members(p.readWait) + Members(p.writeWait)
    ensures QueuesOk(q, calls)
  {
  }

  /** Waking all readers is right if nothing became possible for a writer. */
  lemma WakeReadersOk(p: Pipe, calls: map<Tid, Local>, q: Pipe)
    requires QueuesOk(p, calls)
    requires q.readWait == [] && q.writeWait == p.writeWait
    requires q.woken == p.woken + Members(p.readWait)
    requires q.readers == p.readers && |q.contents| >= |p.contents|
    ensures QueuesOk(q, calls)
  {
  }

  /** Waking all writers is right if nothing became possible for a reader. */
  lemma WakeWritersOk(p: Pipe, calls: map<Tid, Local>, q: Pipe)
    requires QueuesOk(p, calls)
    requires q.writeWait == [] && q.readWait == p.readWait
    requires q.woken == p.woken + Members(p.writeWait)
    requires q.writers == p.writers
    requires q.contents == [] || p.readWait == []
    ensures QueuesOk(q, calls)
  {
  }

  /** Waking the first writer is right while nothing became possible for the others. */
  lemma WakeWriterOk(p: Pipe, calls: map<Tid, Local>)
    requires QueuesOk(p, calls)
    ensures QueuesOk(WakeOneWriter(p), calls)
  {
    if p.writeWait != [] {
      assert p.writeWait == [p.writeWait[0]] + p.writeWait[1..];
      assert forall t | t in p.writeWait :: t == p.writeWait[0] || t in p.writeWait[1..];
    }
  }

  /** A call that does not sleep and is on no queue may change its counter freely. */
  lemma AwakeMovesOk(p: Pipe, calls: map<Tid, Local>, t: Tid, c: Local)
    requires QueuesOk(p, calls)
    requires t !in p.readWait && t !in p.writeWait
    requires !ReadAsleep(c) && !WriteAsleep(c)
    ensures QueuesOk(p, calls[t := c])
  {
  }

  lemma ReaderFallsAsleepOk(p: Pipe, calls: map<Tid, Local>, t: Tid, c: Local)
    requires QueuesOk(p, calls) && ReadIdle(p)
    requires t in calls && t !in p.writeWait && ReadAsleep(c)
    ensures QueuesOk(p.(readWait := Push(p.readWait, t)), calls[t := c])
  {
  }

  lemma WriterFallsAsleepOk(p: Pipe, calls: map<Tid, Local>, t: Tid, c: Local)
    requires QueuesOk(p, calls)
    requires t in calls && t !in p.readWait && WriteAsleep(c)
    requires WriteIdle(p, |c.data|)
    ensures QueuesOk(p.(writeWait := Push(p.writeWait, t)), calls[t := c])
  {
  }

  lemma ReaderAwakesOk(p: Pipe, calls: map<Tid, Local>, t: Tid, c: Local)
    requires QueuesOk(p, calls)
    requires t in calls && ReadAsleep(calls[t]) && !ReadAsleep(c) && !WriteAsleep(c)
    ensures QueuesOk(AwakeOnRead(p, t), calls[t := c])
  {
    WithoutOne(p.readWait, t);
  }

  lemma WriterAwakesOk(p: Pipe, calls: map<Tid, Local>, t: Tid, c: Local)
    requires QueuesOk(p, calls)
    requires t in calls && WriteAsleep(calls[t]) && !ReadAsleep(c) && !WriteAsleep(c)
    ensures QueuesOk(AwakeOnWrite(p, t), calls[t := c])
  {
    WithoutOne(p.writeWait, t);
  }

  /** A kernel-buffer call runs again without a signal: it does not leave its queue. */
  lemma RunsAgainOk(p: Pipe, calls: map<Tid, Local>, t: Tid, c: Local)
    requires QueuesOk(p, calls) && t in calls
    requires (calls[t].KRAsleep? && c.KRTop? && !c.nonblock)
             || (calls[t].KWAsleep? && c.KWTop? && !c.nonblock && c.data == calls[t].data)
    ensures QueuesOk(p.(woken := p.woken - {t}), calls[t := c])
  {
  }

  // ---------------------------------------------------------------- one action

  lemma ReadTopQueues(s: State, t: Tid, env: Env)
    requires QueuesOk(s.pipe, s.calls) && t in s.calls && s.calls[t].RTop?
    ensures var s' := RunReadTop(s, t, s.calls[t], env); QueuesOk(s'.pipe, s'.calls)
  {
    var c := s.calls[t];
    var s' := RunReadTop(s, t, c, env);
    if s'.calls[t].RAsleep? {
      ReaderFallsAsleepOk(s.pipe, s.calls, t, s'.calls[t]);
    } else {
      AwakeMovesOk(s.pipe, s.calls, t, s'.calls[t]);
    }
  }

  lemma ReadCommitQueues(p: Pipe, calls: map<Tid, Local>, length: nat)
    requires QueuesOk(p, calls)
    ensures QueuesOk(AfterReadCommit(p, length), calls)
  {
    var q := AfterReadCommit(p, length);
    if q.contents != [] {
      WakeBothOk(p, calls, q);
    } else {
      WakeWritersOk(p, calls, q);
    }
  }

  lemma ReadCopyQueues(s: State, t: Tid, env: Env)
    requires QueuesOk(s.pipe, s.calls) && t in s.calls && s.calls[t].RCopy?
    ensures var s' := RunReadCopy(s, t, s.calls[t], env); QueuesOk(s'.pipe, s'.calls)
  {
    var c := s.calls[t];
    var s' := RunReadCopy(s, t, c, env);
    if env.fault {
      if s.pipe.contents != [] {
        WakeReadersOk(s.pipe, s.calls, s'.pipe);
      }
    } else if s.pipe.readSeq == c.sequence {
      ReadCommitQueues(s.pipe, s.calls, |c.snap|);
    }
    AwakeMovesOk(s'.pipe, s.calls, t, s'.calls[t]);
  }

  lemma WriteTopQueues(s: State, t: Tid, env: Env)
    requires QueuesOk(s.pipe, s.calls) && t in s.calls && s.calls[t].WTop?
    ensures var s' := RunWriteTop(s, t, s.calls[t], env); QueuesOk(s'.pipe, s'.calls)
  {
    var c := s.calls[t];
    var s' := RunWriteTop(s, t, c, env);
    if s'.calls[t].WAsleep? {
      WriterFallsAsleepOk(s.pipe, s.calls, t, s'.calls[t]);
    } else {
      AwakeMovesOk(s.pipe, s.calls, t, s'.calls[t]);
    }
  }

  lemma WriteStageQueues(s: State, t: Tid, env: Env)
    requires QueuesOk(s.pipe, s.calls) && t in s.calls && s.calls[t].WStage?
    ensures var s' := RunWriteStage(s, t, s.calls[t], env); QueuesOk(s'.pipe, s'.calls)
  {
    var s' := RunWriteStage(s, t, s.calls[t], env);
    if env.fault && |s.pipe.contents| < PIPE_BUFFER_SIZE {
      assert s.pipe.readWait != [] ==> s.pipe.readWait[0] in s.pipe.readWait;
      WakeWritersOk(s.pipe, s.calls, s'.pipe);
    }
    AwakeMovesOk(s'.pipe, s.calls, t, s'.calls[t]);
  }

  lemma AppendQueues(p: Pipe, calls: map<Tid, Local>, bytes: seq<Byte>)
    requires QueuesOk(p, calls)
    ensures var q := WakeAllReaders(Append(p, bytes));
            QueuesOk(if |q.contents| < PIPE_BUFFER_SIZE then WakeAllWriters(q) else q, calls)
  {
    var q := WakeAllReaders(Append(p, bytes));
    WakeReadersOk(p, calls, q);
    if |q.contents| < PIPE_BUFFER_SIZE {
      WakeWritersOk(q, calls, WakeAllWriters(q));
    }
  }

  lemma WriteCommitQueues(s: State, t: Tid, env: Env)
    requires QueuesOk(s.pipe, s.calls) && t in s.calls && s.calls[t].WCommit?
    requires PipeWriters.CallOk(s.log, t, s.calls[t])
    ensures var s' := RunWriteCommit(s, t, s.calls[t], env); QueuesOk(s'.pipe, s'.calls)
  {
    var c := s.calls[t];
    var s' := RunWriteCommit(s, t, c, env);
    match WriteCommit(s.pipe, |c.data|, c.written, |c.staged|, c.nonblock, env) {
      case Committed(n) =>
        AppendQueues(s.pipe, s.calls, Take(c.staged, n));
        AwakeMovesOk(s'.pipe, s.calls, t, s'.calls[t]);
      case TryReturns(_) =>
        AwakeMovesOk(s.pipe, s.calls, t, s'.calls[t]);
      case TrySleeps =>
        WriterFallsAsleepOk(s.pipe, s.calls, t, s'.calls[t]);
    }
  }

  lemma AsleepQueues(s: State, t: Tid, env: Env)
    requires QueuesOk(s.pipe, s.calls) && t in s.calls
    requires ReadAsleep(s.calls[t]) || WriteAsleep(s.calls[t])
    ensures var s' := RunAsleep(s, t, s.calls[t], env); QueuesOk(s'.pipe, s'.calls)
  {
    var c := s.calls[t];
    var s' := RunAsleep(s, t, c, env);
    if (c.KRAsleep? || c.KWAsleep?) && !env.signal {
      RunsAgainOk(s.pipe, s.calls, t, s'.calls[t]);
    } else if ReadAsleep(c) {
      ReaderAwakesOk(s.pipe, s.calls, t, s'.calls[t]);
    } else {
      WriterAwakesOk(s.pipe, s.calls, t, s'.calls[t]);
    }
  }

  lemma KernelReadQueues(s: State, t: Tid)
    requires QueuesOk(s.pipe, s.calls) && t in s.calls && s.calls[t].KRTop?
    ensures var s' := RunKernelRead(s, t, s.calls[t]); QueuesOk(s'.pipe, s'.calls)
  {
    var c := s.calls[t];
    var s' := RunKernelRead(s, t, c);
    match KernelReadOutcome(s.pipe, c.len, c.nonblock) {
      case Took(bytes) =>
        NobodyWaits(s.pipe, s.calls);
        WakeBothOk(s.pipe, s.calls, s'.pipe);
        AwakeMovesOk(s'.pipe, s.calls, t, s'.calls[t]);
      case KReadReturns(_) =>
        AwakeMovesOk(s.pipe, s.calls, t, s'.calls[t]);
      case KReadSleeps =>
        ReaderFallsAsleepOk(s.pipe, s.calls, t, s'.calls[t]);
    }
  }

  /** Nobody waits to read while there are bytes. */
  lemma NobodyWaits(p: Pipe, calls: map<Tid, Local>)
    requires QueuesOk(p, calls) && p.contents != []
    ensures p.readWait == []
  {
    assert forall t :: t !in Members(p.readWait);
    if p.readWait != [] {
      HeadWaits(p.readWait);
      assert false;
    }
  }

  lemma HeadWaits(q: seq<Tid>)
    requires q != []
    ensures q[0] in Members(q)
  {
  }

  /** A kernel-buffer write keeps every wakeup exactly if at most one reader waits: it wakes
      the first, and whoever is left on the queue sleeps on beside the bytes. */
  lemma KernelPutIff(p: Pipe, calls: map<Tid, Local>, bytes: seq<Byte>)
    requires QueuesOk(p, calls) && bytes != []
    ensures QueuesOk(KernelPut(p, bytes), calls) <==> |p.readWait| <= 1
  {
    var q := WakeOneReader(Append(p, bytes));
    if |p.readWait| <= 1 {
      assert q.readWait == [];
      assert |p.readWait| == 1 ==> p.readWait == [p.readWait[0]];
      WakeReadersOk(p, calls, q);
      WakeWriterOk(q, calls);
    } else {
      var p' := KernelPut(p, bytes);
      assert p'.contents == p.contents + bytes && p'.readWait == p.readWait[1..];
      assert p'.readWait[0] in p'.readWait;
    }
  }

  lemma KernelWriteQueues(s: State, t: Tid)
    requires QueuesOk(s.pipe, s.calls) && t in s.calls && s.calls[t].KWTop?
    requires PipeWriters.CallOk(s.log, t, s.calls[t]) && Narrow(s, t)
    ensures var s' := RunKernelWrite(s, t, s.calls[t]); QueuesOk(s'.pipe, s'.calls)
  {
    var c := s.calls[t];
    var s' := RunKernelWrite(s, t, c);
    match KernelWriteOutcome(s.pipe, |c.data|, c.written, c.nonblock) {
      case Put(n) =>
        PipeWriters.KernelPutSize(s.pipe, c.data, c.written);
        KernelPutIff(s.pipe, s.calls, Take(Skip(c.data, c.written), n));
        PutLeaves(s.pipe, s.calls, t, Take(Skip(c.data, c.written), n));
        AwakeMovesOk(s'.pipe, s.calls, t, s'.calls[t]);
      case KWriteReturns(_) =>
        AwakeMovesOk(s.pipe, s.calls, t, s'.calls[t]);
      case KWriteSleeps =>
        WriterFallsAsleepOk(s.pipe, s.calls, t, s'.calls[t]);
    }
  }

  /** A writer that has room is not on the queue after its write either. */
  lemma PutLeaves(p: Pipe, calls: map<Tid, Local>, t: Tid, bytes: seq<Byte>)
    requires QueuesOk(p, calls) && t !in p.readWait && t !in p.writeWait
    ensures t !in KernelPut(p, bytes).readWait && t !in KernelPut(p, bytes).writeWait
  {
  }

  /** If call t is a kernel-buffer write about to commit, at most one reader waits. */
  predicate Narrow(s: State, t: Tid)
  {
    t in s.calls && s.calls[t].KWTop?
    && KernelWriteOutcome(s.pipe, |s.calls[t].data|, s.calls[t].written, s.calls[t].nonblock).Put?
    ==> |s.pipe.readWait| <= 1
  }

  lemma RunQueues(s: State, t: Tid, env: Env)
    requires WakeupsOk(s) && t in s.calls && !Finished(s.calls[t]) && Narrow(s, t)
    ensures var s' := RunCall(s, t, env); QueuesOk(s'.pipe, s'.calls)
  {
    var c := s.calls[t];
    assert PipeWriters.CallOk(s.log, t, c);
    if c.RTop? {
      ReadTopQueues(s, t, env);
    } else if c.RCopy? {
      ReadCopyQueues(s, t, env);
    } else if c.WTop? {
      WriteTopQueues(s, t, env);
    } else if c.WStage? {
      WriteStageQueues(s, t, env);
    } else if c.WCommit? {
      WriteCommitQueues(s, t, env);
    } else if c.KRTop? {
      KernelReadQueues(s, t);
    } else if c.KWTop? {
      KernelWriteQueues(s, t);
    } else {
      AsleepQueues(s, t, env);
    }
  }

  lemma ReleaseQueues(p: Pipe, calls: map<Tid, Local>)
    requires QueuesOk(p, calls)
    ensures QueuesOk(AfterReadRelease(p), calls) && QueuesOk(AfterWriteRelease(p), calls)
  {
  }

  lemma ActionWakeups(s: State, a: Action)
    requires WakeupsOk(s) && Enabled(s, a) && (a.Run? ==> Narrow(s, a.t))
    ensures WakeupsOk(Apply(s, a))
  {
    PipeWriters.ActionOk(s, a);
    match a
    case Run(t, env) => RunQueues(s, t, env);
    case ReleaseRead => ReleaseQueues(s.pipe, s.calls);
    case ReleaseWrite => ReleaseQueues(s.pipe, s.calls);
    case _ => AwakeMovesOk(s.pipe, s.calls, a.t, Apply(s, a).calls[a.t]);
  }

  // -------------------------------------------------------------- every history

  /** Every kernel-buffer write that commits finds at most one reader waiting. */
  ghost predicate NarrowRun(s: State, acts: seq<Action>)
    requires Runnable(s, acts)
    decreases |acts|
  {
    acts == [] || ((acts[0].Run? ==> Narrow(s, acts[0].t)) && NarrowRun(Apply(s, acts[0]), acts[1..]))
  }

  lemma {:induction false} WakeupsOkAlways(s: State, acts: seq<Action>)
    requires WakeupsOk(s) && Runnable(s, acts) && NarrowRun(s, acts)
    ensures WakeupsOk(Exec(s, acts))
    decreases |acts|
  {
    if acts != [] {
      ActionWakeups(s, acts[0]);
      WakeupsOkAlways(Apply(s, acts[0]), acts[1..]);
    }
  }

  /** A call that sleeps and has not been woken has nothing to do: the ring is empty
      and a writer may still come, or its room is missing and a reader may still come. */
  lemma NoLostWakeup(acts: seq<Action>, t: Tid)
    requires Runnable(Init(), acts) && NarrowRun(Init(), acts)
    requires t in Exec(Init(), acts).calls && t !in Exec(Init(), acts).pipe.woken
    ensures var s := Exec(Init(), acts);
            && (ReadAsleep(s.calls[t]) ==> t in s.pipe.readWait && s.pipe.contents == [] && s.pipe.writers > 0)
            && (WriteAsleep(s.calls[t]) ==>
                  t in s.pipe.writeWait && s.pipe.readers > 0 && NoRoom(s.pipe, |s.calls[t].data|))
  {
    WakeupsOkAlways(Init(), acts);
  }

  /** Runs without kernel-buffer writes are such runs. */
  lemma {:induction false} WithoutKernelWrites(s: State, acts: seq<Action>)
    requires Runnable(s, acts) && (forall t | t in s.calls :: !s.calls[t].KWTop? && !s.calls[t].KWAsleep?)
    requires forall a | a in acts :: !a.CallKernelWrite?
    ensures NarrowRun(s, acts)
    decreases |acts|
  {
    if acts != [] {
      NoKernelWriter(s, acts[0]);
      WithoutKernelWrites(Apply(s, acts[0]), acts[1..]);
    }
  }

  lemma NoKernelWriter(s: State, a: Action)
    requires Enabled(s, a) && !a.CallKernelWrite?
    requires forall t | t in s.calls :: !s.calls[t].KWTop? && !s.calls[t].KWAsleep?
    ensures forall t | t in Apply(s, a).calls :: !Apply(s, a).calls[t].KWTop? && !Apply(s, a).calls[t].KWAsleep?
  {
  }
}
