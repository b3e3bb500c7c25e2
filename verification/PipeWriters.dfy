/**
 What one write call contributes to the stream, in every interleaving: a request
 of at most PIPE_BUFFER_SIZE bytes is one chunk or nothing, and a returned count
 is exactly the number of bytes committed. An error means that none were, except that
 a kernel-buffer write reports EPIPE when it finds no reader, whatever it has committed.
 */
module PipeWriters {
  import opened Machine
  import opened PipeSpec
  import opened PipeProtocol

  /** Call `t` has put the first `written` bytes of `data` into the stream, an
      atomic request in one piece. */
  ghost predicate Contributed(log: seq<Chunk>, t: Tid, data: seq<Byte>, written: nat)
  {
    && written <= |data|
    && Join(Blocks(log, t)) == data[..written]
    && (written == 0 ==> Blocks(log, t) == [])
    && (written > 0 && Atomic(|data|) ==> Blocks(log, t) == [data])
  }

  ghost predicate InProgress(log: seq<Chunk>, t: Tid, data: seq<Byte>, written: nat)
  {
    && Contributed(log, t, data, written)
    && written < |data|
    && (Atomic(|data|) ==> written == 0)
  }

  /** A staged chunk is the next unwritten part of the request. */
  ghost predicate StagedOk(data: seq<Byte>, written: nat, staged: seq<Byte>)
  {
    && staged != []
    && written + |staged| <= |data|
    && staged == data[written..written + |staged|]
    && (Atomic(|data|) ==> staged == data)
  }

  ghost predicate CallOk(log: seq<Chunk>, t: Tid, c: Local)
  {
    match c
    case WTop(data, _, written) => InProgress(log, t, data, written)
    case WAsleep(data, written) => InProgress(log, t, data, written)
    case WStage(data, _, written, length) =>
      && InProgress(log, t, data, written)
      && 0 < length <= |data| - written
      && (Atomic(|data|) ==> length == |data|)
    case WCommit(data, _, written, staged) =>
      InProgress(log, t, data, written) && StagedOk(data, written, staged)
    case WAsleepStaged(data, written, staged) =>
      InProgress(log, t, data, written) && StagedOk(data, written, staged)
    case WDone(data, written, ret) =>
      && Contributed(log, t, data, written)
      && (match ret case Count(n) => n == written case Err(_) => written == 0)
    case KWTop(data, _, written) => InProgress(log, t, data, written)
    case KWAsleep(data, written) => InProgress(log, t, data, written)
    case KWDone(data, written, ret) =>
      && Contributed(log, t, data, written)
      && (match ret case Count(n) => n == written case Err(e) => written == 0 || (e == EPIPE && !Atomic(|data|)))
    case _ => Blocks(log, t) == []
  }

  ghost predicate WritersOk(s: State)
  {
    && (forall t | t in s.calls :: CallOk(s.log, t, s.calls[t]))
    && (forall t | t !in s.calls :: Blocks(s.log, t) == [])
  }

  // ---------------------------------------------------------------- one action

  /** CallOk depends on the log only through the call's own chunks. */
  lemma OwnChunks(log: seq<Chunk>, log': seq<Chunk>, t: Tid, c: Local)
    requires CallOk(log, t, c) && Blocks(log', t) == Blocks(log, t)
    ensures CallOk(log', t, c)
  {
  }

  lemma OthersOk(s: State, s': State, t: Tid)
    requires WritersOk(s) && t in s'.calls
    requires s'.calls == s.calls[t := s'.calls[t]]
    requires s'.log == s.log || (|s'.log| == |s.log| + 1 && s'.log == s.log + [s'.log[|s.log|]] && s'.log[|s.log|].tid == t)
    requires CallOk(s'.log, t, s'.calls[t])
    ensures WritersOk(s')
  {
    if s'.log != s.log {
      LogGrows(s.log, s'.log[|s.log|]);
    }
    forall u | u in s'.calls
      ensures CallOk(s'.log, u, s'.calls[u])
    {
      if u != t {
        OwnChunks(s.log, s'.log, u, s.calls[u]);
      }
    }
  }

  /** One more chunk of the call's own data. */
  lemma Contribute(log: seq<Chunk>, t: Tid, data: seq<Byte>, written: nat, bytes: seq<Byte>)
    requires InProgress(log, t, data, written)
    requires written + |bytes| <= |data| && bytes == data[written..written + |bytes|] && bytes != []
    requires Atomic(|data|) ==> |bytes| == |data|
    ensures Contributed(log + [Chunk(t, bytes)], t, data, written + |bytes|)
  {
    LogGrows(log, Chunk(t, bytes));
    JoinGrows(Blocks(log, t), bytes);
    assert data[..written] + bytes == data[..written + |bytes|];
    if Atomic(|data|) {
      assert bytes == data;
    }
  }

  lemma WriteTopOk(s: State, t: Tid, env: Env)
    requires WritersOk(s) && t in s.calls && s.calls[t].WTop?
    ensures WritersOk(RunWriteTop(s, t, s.calls[t], env))
  {
    var c := s.calls[t];
    var s' := RunWriteTop(s, t, c, env);
    assert CallOk(s.log, t, c);
    assert CallOk(s.log, t, s'.calls[t]);
    OthersOk(s, s', t);
  }

  lemma WriteStageOk(s: State, t: Tid, env: Env)
    requires WritersOk(s) && t in s.calls && s.calls[t].WStage?
    ensures WritersOk(RunWriteStage(s, t, s.calls[t], env))
  {
    var c := s.calls[t];
    var s' := RunWriteStage(s, t, c, env);
    assert CallOk(s.log, t, c);
    if !env.fault {
      assert s'.calls[t].staged == c.data[c.written..c.written + c.length];
    }
    OthersOk(s, s', t);
  }

  /** Committing the next part of the request, whatever the pipe looks like after. */
  lemma CommitOk(s: State, t: Tid, p: Pipe, data: seq<Byte>, written: nat, bytes: seq<Byte>, s': State)
    requires WritersOk(s) && t in s.calls && t in s'.calls && InProgress(s.log, t, data, written)
    requires 0 < |bytes| <= |data| - written && (Atomic(|data|) ==> |bytes| == |data|)
    requires bytes == data[written..written + |bytes|]
    requires s' == At(s, t, p, s'.calls[t]).(log := s.log + [Chunk(t, bytes)])
    requires GoesOn(s'.calls[t], data, written + |bytes|)
    ensures WritersOk(s')
  {
    Contribute(s.log, t, data, written, bytes);
    MovedOn(s', t, data, written + |bytes|);
    OthersOk(s, s', t);
  }

  /** After a commit the call returns its count or goes round again. */
  ghost predicate GoesOn(c: Local, data: seq<Byte>, written: nat)
  {
    || c == WDone(data, written, Count(written))
    || c == KWDone(data, written, Count(written))
    || (written < |data| && (c == WTop(data, false, written) || c == KWTop(data, false, written)))
  }

  /** A commit attempt unfolded: a chunk is logged and the call goes on, or nothing is. */
  lemma WriteCommitCases(s: State, t: Tid, c: Local, env: Env, p: Pipe)
    requires c.WCommit?
    ensures var s' := WriteCommitted(s, t, c, env, p);
            match WriteCommit(s.pipe, |c.data|, c.written, |c.staged|, c.nonblock, env)
            case Committed(n) =>
              && t in s'.calls && n <= |c.staged|
              && s' == At(s, t, p, s'.calls[t]).(log := s.log + [Chunk(t, Take(c.staged, n))])
              && GoesOn(s'.calls[t], c.data, c.written + n)
            case TryReturns(r) => s' == At(s, t, p, WDone(c.data, c.written, r))
            case TrySleeps => s' == At(s, t, p, WAsleepStaged(c.data, c.written, c.staged))
  {
  }

  lemma WriteCommitOk(s: State, t: Tid, env: Env, p: Pipe)
    requires WritersOk(s) && t in s.calls && s.calls[t].WCommit?
    ensures WritersOk(WriteCommitted(s, t, s.calls[t], env, p))
  {
    var c := s.calls[t];
    var s' := WriteCommitted(s, t, c, env, p);
    assert CallOk(s.log, t, c);
    WriteCommitCases(s, t, c, env, p);
    var r := WriteCommit(s.pipe, |c.data|, c.written, |c.staged|, c.nonblock, env);
    if r.Committed? {
      StagedCommitOk(s, t, p, c, r.length, s');
    } else {
      OthersOk(s, s', t);
    }
  }

  lemma StagedCommitOk(s: State, t: Tid, p: Pipe, c: Local, n: nat, s': State)
    requires WritersOk(s) && t in s.calls && t in s'.calls && c.WCommit? && CallOk(s.log, t, c)
    requires 0 < n <= |c.staged| && (Atomic(|c.data|) ==> n == |c.staged|)
    requires s' == At(s, t, p, s'.calls[t]).(log := s.log + [Chunk(t, Take(c.staged, n))])
    requires GoesOn(s'.calls[t], c.data, c.written + n)
    ensures WritersOk(s')
  {
    StagedPart(c.data, c.written, c.staged, n);
    CommitOk(s, t, p, c.data, c.written, Take(c.staged, n), s');
  }

  lemma StagedPart(data: seq<Byte>, written: nat, staged: seq<Byte>, n: nat)
    requires written + |staged| <= |data| && staged == data[written..written + |staged|] && n <= |staged|
    ensures Take(staged, n) == data[written..written + n]
  {
  }

  lemma TakeSkip(data: seq<Byte>, k: nat, n: nat)
    requires k + n <= |data|
    ensures Take(Skip(data, k), n) == data[k..k + n]
  {
  }

  lemma KernelPutSize(p: Pipe, data: seq<Byte>, written: nat)
    requires written < |data| && (Atomic(|data|) ==> written == 0)
    ensures forall nonblock :: match KernelWriteOutcome(p, |data|, written, nonblock)
            case Put(n) => 0 < n <= |data| - written && (Atomic(|data|) ==> n == |data|)
            case _ => true
  {
  }

  lemma KernelWriteCases(s: State, t: Tid, c: Local, p: Pipe)
    requires c.KWTop?
    ensures var s' := KernelWritten(s, t, c, p);
            match KernelWriteOutcome(s.pipe, |c.data|, c.written, c.nonblock)
            case Put(n) =>
              && t in s'.calls
              && s' == At(s, t, p, s'.calls[t]).(log := s.log + [Chunk(t, Take(Skip(c.data, c.written), n))])
              && GoesOn(s'.calls[t], c.data, c.written + n)
            case KWriteReturns(r) => s' == At(s, t, p, KWDone(c.data, c.written, r))
            case KWriteSleeps => s' == At(s, t, p, KWAsleep(c.data, c.written))
  {
  }

  lemma KernelWriteOk(s: State, t: Tid, p: Pipe)
    requires WritersOk(s) && t in s.calls && s.calls[t].KWTop?
    ensures WritersOk(KernelWritten(s, t, s.calls[t], p))
  {
    var c := s.calls[t];
    var s' := KernelWritten(s, t, c, p);
    assert CallOk(s.log, t, c);
    KernelWriteCases(s, t, c, p);
    var r := KernelWriteOutcome(s.pipe, |c.data|, c.written, c.nonblock);
    if r.Put? {
      KernelPutSize(s.pipe, c.data, c.written);
      TakeSkip(c.data, c.written, r.length);
      CommitOk(s, t, p, c.data, c.written, Take(Skip(c.data, c.written), r.length), s');
    } else {
      OthersOk(s, s', t);
    }
  }

  lemma MovedOn(s: State, t: Tid, data: seq<Byte>, written: nat)
    requires t in s.calls && Contributed(s.log, t, data, written) && written > 0
    requires GoesOn(s.calls[t], data, written)
    ensures CallOk(s.log, t, s.calls[t])
  {
    if Atomic(|data|) {
      assert Join([data]) == Join([]) + data;
      assert data[..written] == data;
    }
  }

  lemma ReaderRunsOk(s: State, t: Tid, env: Env)
    requires WritersOk(s) && t in s.calls
    requires var c := s.calls[t]; c.RTop? || c.RAsleep? || c.RCopy? || c.KRTop? || c.KRAsleep?
    ensures WritersOk(RunCall(s, t, env))
  {
    var s' := RunCall(s, t, env);
    assert CallOk(s.log, t, s.calls[t]);
    assert s'.log == s.log;
    OthersOk(s, s', t);
  }

  lemma SleeperRunsOk(s: State, t: Tid, env: Env)
    requires WritersOk(s) && t in s.calls
    requires var c := s.calls[t]; c.WAsleep? || c.WAsleepStaged? || c.KWAsleep?
    ensures WritersOk(RunCall(s, t, env))
  {
    var s' := RunCall(s, t, env);
    assert CallOk(s.log, t, s.calls[t]);
    assert s'.log == s.log;
    OthersOk(s, s', t);
  }

  lemma ActionOk(s: State, a: Action)
    requires WritersOk(s) && Enabled(s, a)
    ensures WritersOk(Apply(s, a))
  {
    match a
    case Run(t, env) =>
      var c := s.calls[t];
      if c.WTop? {
        WriteTopOk(s, t, env);
      } else if c.WStage? {
        WriteStageOk(s, t, env);
      } else if c.WCommit? {
        WriteCommitOk(s, t, env, Apply(s, a).pipe);
      } else if c.KWTop? {
        KernelWriteOk(s, t, Apply(s, a).pipe);
      } else if c.WAsleep? || c.WAsleepStaged? || c.KWAsleep? {
        SleeperRunsOk(s, t, env);
      } else {
        ReaderRunsOk(s, t, env);
      }
    case ReleaseRead =>
    case ReleaseWrite =>
    case _ =>
      OthersOk(s, Apply(s, a), a.t);
  }

  // -------------------------------------------------------------- every history

  lemma {:induction false} WritersOkAlways(s: State, acts: seq<Action>)
    requires WritersOk(s) && Runnable(s, acts)
    ensures WritersOk(Exec(s, acts))
    decreases |acts|
  {
    if acts != [] {
      ActionOk(s, acts[0]);
      WritersOkAlways(Apply(s, acts[0]), acts[1..]);
    }
  }

  lemma {:induction false} StreamSplits(log: seq<Chunk>, i: nat)
    requires i < |log|
    ensures Stream(log) == Stream(log[..i]) + log[i].bytes + Stream(log[i + 1..])
  {
    if i + 1 < |log| {
      var front := log[..|log| - 1];
      StreamSplits(front, i);
      assert front[..i] == log[..i];
      assert log[i + 1..][..|log| - i - 2] == front[i + 1..];
    }
  }

  lemma {:induction false} OneBlockOneChunk(log: seq<Chunk>, t: Tid, data: seq<Byte>) returns (i: nat)
    requires Blocks(log, t) == [data]
    ensures i < |log| && log[i] == Chunk(t, data)
    ensures forall j | 0 <= j < |log| && j != i :: log[j].tid != t
  {
    var front := log[..|log| - 1];
    if log[|log| - 1].tid == t {
      assert |Blocks(log, t)| == |Blocks(front, t)| + 1;
      assert Blocks(log, t)[0] == log[|log| - 1].bytes;
      i := |log| - 1;
      NoBlocksNoChunks(front, t);
    } else {
      i := OneBlockOneChunk(front, t, data);
    }
  }

  lemma {:induction false} NoBlocksNoChunks(log: seq<Chunk>, t: Tid)
    requires Blocks(log, t) == []
    ensures forall j | 0 <= j < |log| :: log[j].tid != t
  {
    if log != [] {
      NoBlocksNoChunks(log[..|log| - 1], t);
    }
  }

  /** Chunk `i` holds `data`, and call `t` has no other chunk. */
  ghost predicate OnlyChunk(log: seq<Chunk>, t: Tid, i: nat, data: seq<Byte>)
    requires i < |log|
  {
    log[i] == Chunk(t, data) && forall j | 0 <= j < |log| && j != i :: log[j].tid != t
  }

  predicate IsWrite(c: Local)
  {
    c.WTop? || c.WAsleep? || c.WStage? || c.WCommit? || c.WAsleepStaged? || c.WDone?
    || c.KWTop? || c.KWAsleep? || c.KWDone?
  }

  /** The PIPE_BUF rule: in every reachable state a write of at most 4096 bytes,
      finished or not, is one contiguous piece of the stream or absent from it. */
  lemma AtomicWriteIsContiguous(acts: seq<Action>, t: Tid) returns (before: seq<Byte>, after: seq<Byte>)
    requires Runnable(Init(), acts)
    requires var s := Exec(Init(), acts); t in s.calls && IsWrite(s.calls[t]) && Atomic(|s.calls[t].data|)
    ensures var s := Exec(Init(), acts);
            || (forall j | 0 <= j < |s.log| :: s.log[j].tid != t)
            || (Stream(s.log) == before + s.calls[t].data + after
                && (exists i :: 0 <= i < |s.log| && OnlyChunk(s.log, t, i, s.calls[t].data)))
  {
    WritersOkAlways(Init(), acts);
    var s := Exec(Init(), acts);
    before, after := [], [];
    assert CallOk(s.log, t, s.calls[t]);
    if Blocks(s.log, t) == [] {
      NoBlocksNoChunks(s.log, t);
    } else {
      var i := OneBlockOneChunk(s.log, t, s.calls[t].data);
      assert OnlyChunk(s.log, t, i, s.calls[t].data);
      StreamSplits(s.log, i);
      before, after := Stream(s.log[..i]), Stream(s.log[i + 1..]);
    }
  }

  /** For a request of any size, a returned count is the length of the prefix of
      the request that was committed, and an error means nothing was. */
  lemma ReturnedCountIsCommitted(acts: seq<Action>, t: Tid)
    requires Runnable(Init(), acts)
    requires t in Exec(Init(), acts).calls && Exec(Init(), acts).calls[t].WDone?
    ensures var s := Exec(Init(), acts);
            var c := s.calls[t];
            match c.ret
            case Count(n) => n <= |c.data| && Join(Blocks(s.log, t)) == c.data[..n]
            case Err(_) => Blocks(s.log, t) == []
  {
    WritersOkAlways(Init(), acts);
    var s := Exec(Init(), acts);
    assert CallOk(s.log, t, s.calls[t]);
  }
  // ------------------------------------------------- the kernel-buffer write's errors

  /** One section of a kernel-buffer write ends it with an error although bytes of it are in
      the stream exactly if it finds no reader after a commit; the error is then EPIPE. */
  lemma KernelErrorIff(s: State, t: Tid, env: Env)
    requires WritersOk(s) && t in s.calls && (s.calls[t].KWTop? || s.calls[t].KWAsleep?)
    ensures var s' := RunCall(s, t, env);
            && t in s'.calls
            && ((s'.calls[t].KWDone? && s'.calls[t].ret.Err? && Blocks(s'.log, t) != [])
                <==> (s.calls[t].KWTop? && s.pipe.readers == 0 && Blocks(s.log, t) != []))
    ensures s.calls[t].KWTop? && s.pipe.readers == 0 ==>
              RunCall(s, t, env).calls[t] == KWDone(s.calls[t].data, s.calls[t].written, Err(EPIPE))
  {
    assert CallOk(s.log, t, s.calls[t]);
    ActionOk(s, Run(t, env));
    assert CallOk(RunCall(s, t, env).log, t, RunCall(s, t, env).calls[t]);
  }

  /** Where a kernel-buffer write failed after a commit, no reader is left. */
  ghost predicate FailureOk(c: Local, readers: nat)
  {
    c.KWDone? && c.ret.Err? && c.written > 0 ==> readers == 0
  }

  ghost predicate FailuresOk(s: State)
  {
    forall t | t in s.calls :: FailureOk(s.calls[t], s.pipe.readers)
  }

  lemma RunFailure(s: State, t: Tid, env: Env)
    requires t in s.calls && !Finished(s.calls[t])
    ensures var s' := RunCall(s, t, env); t in s'.calls && FailureOk(s'.calls[t], s.pipe.readers)
  {
    var c := s.calls[t];
    if c.KWTop? {
      KernelWriteCases(s, t, c, RunCall(s, t, env).pipe);
    }
  }

  lemma RunMovesOne(s: State, t: Tid, env: Env)
    requires t in s.calls && !Finished(s.calls[t])
    ensures var s' := RunCall(s, t, env); s'.calls.Keys == s.calls.Keys && s'.pipe.readers == s.pipe.readers
    ensures forall u | u in s.calls && u != t :: RunCall(s, t, env).calls[u] == s.calls[u]
  {
  }

  lemma StepFailures(s: State, a: Action)
    requires FailuresOk(s) && Enabled(s, a)
    ensures FailuresOk(Apply(s, a))
  {
    match a
    case Run(t, env) =>
      RunFailure(s, t, env);
      RunMovesOne(s, t, env);
    case _ =>
  }

  lemma {:induction false} FailuresOkAlways(s: State, acts: seq<Action>)
    requires FailuresOk(s) && WritersOk(s) && Runnable(s, acts)
    ensures FailuresOk(Exec(s, acts))
    decreases |acts|
  {
    if acts != [] {
      StepFailures(s, acts[0]);
      ActionOk(s, acts[0]);
      FailuresOkAlways(Apply(s, acts[0]), acts[1..]);
    }
  }

  /** In every run, a count that a kernel-buffer write returned is the length of the prefix of
      the request that was committed. An error means that nothing was, or it is EPIPE for a
      request of more than 4096 bytes and no reader is left. */
  lemma KernelWriteReturns(acts: seq<Action>, t: Tid)
    requires Runnable(Init(), acts)
    requires t in Exec(Init(), acts).calls && Exec(Init(), acts).calls[t].KWDone?
    ensures var s := Exec(Init(), acts);
            var c := s.calls[t];
            match c.ret
            case Count(n) => n <= |c.data| && Join(Blocks(s.log, t)) == c.data[..n]
            case Err(e) =>
              && Join(Blocks(s.log, t)) <= c.data
              && (Blocks(s.log, t) != [] ==> e == EPIPE && s.pipe.readers == 0 && !Atomic(|c.data|))
  {
    WritersOkAlways(Init(), acts);
    FailuresOkAlways(Init(), acts);
    var s := Exec(Init(), acts);
    assert CallOk(s.log, t, s.calls[t]);
  }
}
