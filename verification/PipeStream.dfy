/**
 What readers get is what writers wrote, in every interleaving: the committed
 chunks, in commit order, are the bytes handed to readers followed by the bytes
 still in the ring.
 */
module PipeStream {
  import opened Machine
  import opened PipeSpec
  import opened PipeProtocol

  /** A reader that has copied its snapshot and not yet committed it. `at` is the
      number of reads committed when the snapshot was taken. */
  ghost predicate CopyOk(s: State, c: Local)
  {
    c.RCopy? ==>
      && c.at <= s.readCommits
      && c.sequence == c.at % U64
      && (c.at == s.readCommits ==> c.snap <= s.pipe.contents)
  }

  ghost predicate Conserved(s: State)
  {
    && Stream(s.log) == Stream(s.taken) + s.pipe.contents
    && |s.pipe.contents| <= PIPE_BUFFER_SIZE
    && s.pipe.readSeq == s.readCommits % U64
    && forall t | t in s.calls :: CopyOk(s, s.calls[t])
  }

  /** Fewer than 2^64 reads have been committed since any pending snapshot, so the
      64-bit sequence number has not come round. */
  ghost predicate NoLap(s: State)
  {
    forall t | t in s.calls && s.calls[t].RCopy? :: s.readCommits < s.calls[t].at + U64
  }

  ghost predicate NeverLapped(s: State, acts: seq<Action>)
    requires Runnable(s, acts)
    decreases |acts|
  {
    NoLap(s) && (acts == [] || NeverLapped(Apply(s, acts[0]), acts[1..]))
  }

  // ---------------------------------------------------------------- one action

  /** The other calls' snapshots survive a step that appends to the ring or that
      commits a read. */
  lemma OthersCopyOk(s: State, s': State, t: Tid)
    requires Conserved(s)
    requires forall u | u in s'.calls && u != t :: u in s.calls && s'.calls[u] == s.calls[u]
    requires || (s'.readCommits == s.readCommits && s.pipe.contents <= s'.pipe.contents)
             || s'.readCommits > s.readCommits
    requires t in s'.calls ==> CopyOk(s', s'.calls[t])
    ensures forall u | u in s'.calls :: CopyOk(s', s'.calls[u])
  {
  }

  /** The commit test of pipe_read_user is sound: a reader that passes it holds
      exactly the current prefix of the ring, although it copied with no lock held. */
  lemma PassingReaderHoldsPrefix(s: State, t: Tid)
    requires Conserved(s) && NoLap(s)
    requires t in s.calls && s.calls[t].RCopy?
    requires s.calls[t].sequence == s.pipe.readSeq
    ensures s.calls[t].snap <= s.pipe.contents
    ensures s.calls[t].at == s.readCommits
  {
    SameResidue(s.calls[t].at, s.readCommits);
  }

  /** The commit test tells that no read came in between exactly if fewer than 2^64 did. */
  lemma PassIsCurrentIff(s: State, t: Tid)
    requires Conserved(s)
    requires t in s.calls && s.calls[t].RCopy?
    requires s.calls[t].sequence == s.pipe.readSeq
    ensures s.calls[t].at == s.readCommits <==> s.readCommits < s.calls[t].at + U64
  {
    if s.readCommits < s.calls[t].at + U64 {
      SameResidue(s.calls[t].at, s.readCommits);
    }
  }

  lemma SameResidue(a: nat, b: nat)
    requires a <= b < a + U64 && a % U64 == b % U64
    ensures a == b
  {
  }

  /** The three kinds of step: bytes leave the ring, bytes enter it, or neither. In each,
      call t goes on to a place where it holds no snapshot. */
  ghost predicate StepOf(s: State, s': State, t: Tid)
  {
    t in s'.calls && s'.calls == s.calls[t := s'.calls[t]] && !s'.calls[t].RCopy?
  }

  lemma TakeConserves(s: State, s': State, t: Tid, bytes: seq<Byte>)
    requires Conserved(s) && StepOf(s, s', t)
    requires s.pipe.contents == bytes + s'.pipe.contents && s'.taken == s.taken + [Chunk(t, bytes)] && s'.log == s.log
    requires s'.readCommits == s.readCommits + 1 && s'.pipe.readSeq == (s.pipe.readSeq + 1) % U64
    ensures Conserved(s')
  {
    NextSequence(s.readCommits);
    LogGrows(s.taken, Chunk(t, bytes));
    assert Stream(s.taken) + (bytes + s'.pipe.contents) == (Stream(s.taken) + bytes) + s'.pipe.contents;
    OthersCopyOk(s, s', t);
  }

  lemma PutConserves(s: State, s': State, t: Tid, bytes: seq<Byte>)
    requires Conserved(s) && StepOf(s, s', t)
    requires s'.pipe.contents == s.pipe.contents + bytes && |s'.pipe.contents| <= PIPE_BUFFER_SIZE
    requires s'.log == s.log + [Chunk(t, bytes)] && s'.taken == s.taken
    requires s'.readCommits == s.readCommits && s'.pipe.readSeq == s.pipe.readSeq
    ensures Conserved(s')
  {
    LogGrows(s.log, Chunk(t, bytes));
    assert (Stream(s.taken) + s.pipe.contents) + bytes == Stream(s.taken) + (s.pipe.contents + bytes);
    OthersCopyOk(s, s', t);
  }

  lemma StillConserves(s: State, s': State, t: Tid)
    requires Conserved(s) && StepOf(s, s', t)
    requires s'.pipe.contents == s.pipe.contents && s'.pipe.readSeq == s.pipe.readSeq
    requires s'.log == s.log && s'.taken == s.taken && s'.readCommits == s.readCommits
    ensures Conserved(s')
  {
    OthersCopyOk(s, s', t);
  }

  lemma NextSequence(n: nat)
    ensures (n % U64 + 1) % U64 == (n + 1) % U64
  {
  }

  lemma ReadCopyConserves(s: State, t: Tid, env: Env)
    requires Conserved(s) && NoLap(s)
    requires t in s.calls && s.calls[t].RCopy?
    ensures Conserved(RunReadCopy(s, t, s.calls[t], env))
  {
    var c := s.calls[t];
    var s' := RunReadCopy(s, t, c, env);
    if !env.fault && s.pipe.readSeq == c.sequence {
      PassingReaderHoldsPrefix(s, t);
      assert s.pipe.contents == c.snap + Skip(s.pipe.contents, |c.snap|);
      TakeConserves(s, s', t, c.snap);
    } else {
      StillConserves(s, s', t);
    }
  }

  lemma WriteCommitConserves(s: State, t: Tid, env: Env)
    requires Conserved(s)
    requires t in s.calls && s.calls[t].WCommit?
    ensures Conserved(RunWriteCommit(s, t, s.calls[t], env))
  {
    var c := s.calls[t];
    var s' := RunWriteCommit(s, t, c, env);
    match WriteCommit(s.pipe, |c.data|, c.written, |c.staged|, c.nonblock, env) {
      case Committed(n) => PutConserves(s, s', t, Take(c.staged, n));
      case TryReturns(_) => StillConserves(s, s', t);
      case TrySleeps => StillConserves(s, s', t);
    }
  }

  lemma KernelReadTakes(p: Pipe, t: Tid, len: nat, nonblock: bool)
    ensures var q := AfterKernelRead(p, t, len, nonblock);
            match KernelReadOutcome(p, len, nonblock)
            case Took(bytes) => p.contents == bytes + q.contents && q.readSeq == (p.readSeq + 1) % U64
            case _ => q.contents == p.contents && q.readSeq == p.readSeq
  {
  }

  lemma KernelReadConserves(s: State, t: Tid)
    requires Conserved(s)
    requires t in s.calls && s.calls[t].KRTop?
    ensures Conserved(RunKernelRead(s, t, s.calls[t]))
  {
    var c := s.calls[t];
    var s' := RunKernelRead(s, t, c);
    KernelReadTakes(s.pipe, t, c.len, c.nonblock);
    match KernelReadOutcome(s.pipe, c.len, c.nonblock) {
      case Took(bytes) => TakeConserves(s, s', t, bytes);
      case KReadReturns(_) => StillConserves(s, s', t);
      case KReadSleeps => StillConserves(s, s', t);
    }
  }

  lemma KernelWriteAppends(p: Pipe, t: Tid, data: seq<Byte>, written: nat, nonblock: bool)
    ensures var q := AfterKernelWrite(p, t, data, written, nonblock);
            && q.readSeq == p.readSeq
            && match KernelWriteOutcome(p, |data|, written, nonblock)
               case Put(n) => q.contents == p.contents + Take(Skip(data, written), n) && n <= Available(p)
               case _ => q.contents == p.contents
  {
  }

  lemma KernelWriteConserves(s: State, t: Tid, p: Pipe)
    requires Conserved(s)
    requires t in s.calls && s.calls[t].KWTop?
    requires p.readSeq == s.pipe.readSeq
    requires var c := s.calls[t];
             match KernelWriteOutcome(s.pipe, |c.data|, c.written, c.nonblock)
             case Put(n) => p.contents == s.pipe.contents + Take(Skip(c.data, c.written), n) && n <= Available(s.pipe)
             case _ => p.contents == s.pipe.contents
    ensures Conserved(KernelWritten(s, t, s.calls[t], p))
  {
    var c := s.calls[t];
    var s' := KernelWritten(s, t, c, p);
    match KernelWriteOutcome(s.pipe, |c.data|, c.written, c.nonblock) {
      case Put(n) => PutConserves(s, s', t, Take(Skip(c.data, c.written), n));
      case KWriteReturns(_) => StillConserves(s, s', t);
      case KWriteSleeps => StillConserves(s, s', t);
    }
  }

  /** The sections that neither append nor consume. */
  lemma QuietConserves(s: State, t: Tid, env: Env)
    requires Conserved(s)
    requires t in s.calls && !Finished(s.calls[t])
    requires var c := s.calls[t]; !c.RCopy? && !c.WCommit? && !c.KRTop? && !c.KWTop?
    ensures Conserved(RunCall(s, t, env))
  {
    var s' := RunCall(s, t, env);
    assert s'.pipe.contents == s.pipe.contents && s'.pipe.readSeq == s.pipe.readSeq;
    OthersCopyOk(s, s', t);
  }

  lemma ActionConserves(s: State, a: Action)
    requires Conserved(s) && NoLap(s) && Enabled(s, a)
    ensures Conserved(Apply(s, a))
  {
    match a
    case Run(t, env) =>
      var c := s.calls[t];
      if c.RCopy? {
        ReadCopyConserves(s, t, env);
      } else if c.WCommit? {
        WriteCommitConserves(s, t, env);
      } else if c.KRTop? {
        KernelReadConserves(s, t);
      } else if c.KWTop? {
        KernelWriteAppends(s.pipe, t, c.data, c.written, c.nonblock);
        KernelWriteConserves(s, t, Apply(s, a).pipe);
      } else {
        QuietConserves(s, t, env);
      }
    case _ =>
  }

  // -------------------------------------------------------------- every history

  /** In every interleaving of user and kernel-buffer readers and writers, the
      committed writes are the delivered reads followed by the ring contents. */
  lemma {:induction false} StreamConserved(s: State, acts: seq<Action>)
    requires Conserved(s) && Runnable(s, acts) && NeverLapped(s, acts)
    ensures Conserved(Exec(s, acts))
    decreases |acts|
  {
    if acts != [] {
      ActionConserves(s, acts[0]);
      StreamConserved(Apply(s, acts[0]), acts[1..]);
    }
  }

  lemma EveryRunConserves(acts: seq<Action>)
    requires Runnable(Init(), acts) && NeverLapped(Init(), acts)
    ensures var s := Exec(Init(), acts);
            && Stream(s.log) == Stream(s.taken) + s.pipe.contents
            && |s.pipe.contents| <= PIPE_BUFFER_SIZE
  {
    StreamConserved(Init(), acts);
  }
}
