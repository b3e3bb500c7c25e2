/**
 What a call on a pipe is told, in every interleaving, said of the ring, the two reference
 counts and the request. A finished read is traced back to the step that finished it and to
 the moment its bytes stood in the ring, a finished write to the step that ended it.
 */
module PipeAnswers {
  import opened Machine
  import opened PipeSpec
  import opened PipeProtocol
  import opened PipeStream
  import opened PipeWriters

  // ----------------------------------------------------------------- one step of a read

  /** The section in which pipe_read_user looks at the ring. */
  lemma ReadTopStep(s: State, t: Tid, env: Env)
    requires t in s.calls && s.calls[t].RTop?
    ensures var c, p, s' := s.calls[t], s.pipe, RunCall(s, t, env);
            && t in s'.calls && s'.pipe.contents == p.contents && s'.taken == s.taken && s'.log == s.log
            && s'.calls[t]
               == if p.contents != [] then
                 RCopy(c.total, c.nonblock, p.readSeq, p.contents[..Min(c.total, |p.contents|)], s.readCommits)
               else if p.writers == 0 then RDone(Count(0), [])
               else if c.nonblock || !env.haveThread then RDone(Err(EAGAIN), [])
               else if env.signal then RDone(Err(EINTR), [])
               else RAsleep(c.total)
  {
  }

  /** The section after the copy to user memory. */
  lemma ReadCopyStep(s: State, t: Tid, env: Env)
    requires t in s.calls && s.calls[t].RCopy?
    ensures var c, p, s' := s.calls[t], s.pipe, RunCall(s, t, env);
            && t in s'.calls && s'.log == s.log
            && (if env.fault then s'.calls[t] == RDone(Err(EFAULT), [])
                else if p.readSeq != c.sequence then
                  s'.calls[t] == if env.signal then RDone(Err(EINTR), []) else RTop(c.total, c.nonblock)
                else s'.calls[t] == RDone(Count(|c.snap|), c.snap))
            && (if !env.fault && p.readSeq == c.sequence
                then s'.taken == s.taken + [Chunk(t, c.snap)] && s'.pipe.contents == Skip(p.contents, |c.snap|)
                else s'.taken == s.taken && s'.pipe.contents == p.contents)
  {
  }

  /** pipe_read, between taking the lock and releasing it. */
  lemma KernelReadStep(s: State, t: Tid, env: Env)
    requires t in s.calls && s.calls[t].KRTop?
    ensures var c, p, s' := s.calls[t], s.pipe, RunCall(s, t, env);
            && t in s'.calls && s'.log == s.log
            && (if p.contents != [] then
                  var n := Min(c.len, |p.contents|);
                  && s'.calls[t] == KRDone(Count(n), p.contents[..n])
                  && s'.taken == s.taken + [Chunk(t, p.contents[..n])] && s'.pipe.contents == p.contents[n..]
                else
                  && s'.taken == s.taken && s'.pipe.contents == p.contents
                  && s'.calls[t] == if p.writers == 0 then KRDone(Count(0), [])
                                    else if c.nonblock then KRDone(Err(EAGAIN), [])
                                    else KRAsleep(c.len))
  {
  }

  /** A reader runs again after a sleep. */
  lemma ReaderAwakeStep(s: State, t: Tid, env: Env)
    requires t in s.calls && (s.calls[t].RAsleep? || s.calls[t].KRAsleep?)
    ensures var c, s' := s.calls[t], RunCall(s, t, env);
            && t in s'.calls && s'.log == s.log && s'.taken == s.taken && s'.pipe.contents == s.pipe.contents
            && s'.calls[t] == if c.RAsleep? then if env.signal then RDone(Err(EINTR), []) else RTop(c.total, false)
                              else if env.signal then KRDone(Err(EINTR), []) else KRTop(c.len, false)
  {
  }

  // ---------------------------------------------------------------- one step of a write

  /** No room for a request: the ring is full, or the request is to go in as one piece and this
      many bytes of it do not fit. */
  predicate Blocked(p: Pipe, total: nat, length: nat)
  {
    |p.contents| >= 4096 || (total <= 4096 && 4096 - |p.contents| < length)
  }

  /** The answer of a write that stops with an error: the count, once bytes are in the ring. */
  function Stopped(written: nat, e: Errno): Ret
  {
    if written > 0 then Count(written) else Err(e)
  }

  /** What a write without room does. */
  function Waits(asleep: Local, data: seq<Byte>, written: nat, nonblock: bool, env: Env): Local
  {
    if nonblock || !env.haveThread then WDone(data, written, Stopped(written, EAGAIN))
    else if env.signal then WDone(data, written, Stopped(written, EINTR))
    else asleep
  }

  lemma WriteTopStep(s: State, t: Tid, env: Env)
    requires t in s.calls && s.calls[t].WTop? && s.calls[t].written <= |s.calls[t].data|
    ensures var c, p, s' := s.calls[t], s.pipe, RunCall(s, t, env);
            && t in s'.calls && s'.log == s.log && s'.taken == s.taken && s'.pipe.contents == p.contents
            && s'.calls[t]
               == if p.readers == 0 then WDone(c.data, c.written, Stopped(c.written, EPIPE))
               else if Blocked(p, |c.data|, |c.data|) then
                 Waits(WAsleep(c.data, c.written), c.data, c.written, c.nonblock, env)
               else WStage(c.data, c.nonblock, c.written, Min(|c.data| - c.written, 4096 - |p.contents|))
  {
  }

  lemma WriteStageStep(s: State, t: Tid, env: Env)
    requires t in s.calls && s.calls[t].WStage? && s.calls[t].written + s.calls[t].length <= |s.calls[t].data|
    ensures var c, s' := s.calls[t], RunCall(s, t, env);
            && t in s'.calls && s'.log == s.log && s'.taken == s.taken && s'.pipe.contents == s.pipe.contents
            && s'.calls[t] == if env.fault then WDone(c.data, c.written, Stopped(c.written, EFAULT))
                              else WCommit(c.data, c.nonblock, c.written, c.data[c.written..c.written + c.length])
  {
    var c := s.calls[t];
    TakeSkip(c.data, c.written, c.length);
  }

  lemma WriteCommitStep(s: State, t: Tid, env: Env)
    requires t in s.calls && s.calls[t].WCommit?
    ensures var c, p, s' := s.calls[t], s.pipe, RunCall(s, t, env);
            && t in s'.calls && s'.taken == s.taken
            && (if p.readers == 0 || Blocked(p, |c.data|, |c.staged|) then
                  && s'.log == s.log && s'.pipe.contents == p.contents
                  && s'.calls[t] == if p.readers == 0 then WDone(c.data, c.written, Stopped(c.written, EPIPE))
                                    else Waits(WAsleepStaged(c.data, c.written, c.staged), c.data, c.written, c.nonblock, env)
                else
                  var n := Min(|c.staged|, 4096 - |p.contents|);
                  && s'.log == s.log + [Chunk(t, c.staged[..n])] && s'.pipe.contents == p.contents + c.staged[..n]
                  && s'.calls[t] == if c.nonblock || c.written + n >= |c.data| || env.signal
                                    then WDone(c.data, c.written + n, Count(c.written + n))
                                    else WTop(c.data, false, c.written + n))
  {
    WriteCommitCases(s, t, s.calls[t], env, RunCall(s, t, env).pipe);
  }

  lemma WriterAwakeStep(s: State, t: Tid, env: Env)
    requires t in s.calls && (s.calls[t].WAsleep? || s.calls[t].WAsleepStaged?)
    ensures var c, s' := s.calls[t], RunCall(s, t, env);
            && t in s'.calls && s'.log == s.log && s'.taken == s.taken && s'.pipe.contents == s.pipe.contents
            && s'.calls[t] == if env.signal then WDone(c.data, c.written, Stopped(c.written, EINTR))
                              else if c.WAsleep? then WTop(c.data, false, c.written)
                              else WCommit(c.data, false, c.written, c.staged)
  {
  }

  lemma KernelWriteStep(s: State, t: Tid, env: Env)
    requires t in s.calls && s.calls[t].KWTop? && s.calls[t].written <= |s.calls[t].data|
    ensures var c, p, s' := s.calls[t], s.pipe, RunCall(s, t, env);
            && t in s'.calls && s'.taken == s.taken
            && (if p.readers == 0 || Blocked(p, |c.data|, |c.data|) then
                  && s'.log == s.log && s'.pipe.contents == p.contents
                  && s'.calls[t] == if p.readers == 0 then KWDone(c.data, c.written, Err(EPIPE))
                                    else if c.nonblock then KWDone(c.data, c.written, Stopped(c.written, EAGAIN))
                                    else KWAsleep(c.data, c.written)
                else
                  var n := Min(|c.data| - c.written, 4096 - |p.contents|);
                  var bytes := c.data[c.written..c.written + n];
                  && s'.log == s.log + [Chunk(t, bytes)] && s'.pipe.contents == p.contents + bytes
                  && s'.calls[t] == if c.nonblock || c.written + n >= |c.data|
                                    then KWDone(c.data, c.written + n, Count(c.written + n))
                                    else KWTop(c.data, false, c.written + n))
  {
    var c := s.calls[t];
    KernelWriteCases(s, t, c, RunCall(s, t, env).pipe);
    KernelWriteAppends(s.pipe, t, c.data, c.written, c.nonblock);
    if s.pipe.readers > 0 && !Blocked(s.pipe, |c.data|, |c.data|) {
      TakeSkip(c.data, c.written, Min(|c.data| - c.written, 4096 - |s.pipe.contents|));
    }
  }

  // ------------------------------------------------------------------ where a run stands

  /** The state before action i of a run. */
  function StateAt(s: State, acts: seq<Action>, i: nat): State
    requires Runnable(s, acts) && i <= |acts|
    decreases i
  {
    if i == 0 then s else StateAt(Apply(s, acts[0]), acts[1..], i - 1)
  }

  lemma {:induction false} StateAtEnd(s: State, acts: seq<Action>)
    requires Runnable(s, acts)
    ensures StateAt(s, acts, |acts|) == Exec(s, acts)
    decreases |acts|
  {
    if acts != [] {
      StateAtEnd(Apply(s, acts[0]), acts[1..]);
    }
  }

  lemma {:induction false} StepAt(s: State, acts: seq<Action>, i: nat)
    requires Runnable(s, acts) && i < |acts|
    ensures Enabled(StateAt(s, acts, i), acts[i])
    ensures StateAt(s, acts, i + 1) == Apply(StateAt(s, acts, i), acts[i])
    decreases i
  {
    if i > 0 {
      StepAt(Apply(s, acts[0]), acts[1..], i - 1);
    } else {
      assert StateAt(s, acts, 1) == StateAt(Apply(s, acts[0]), acts[1..], 0);
    }
  }

  lemma {:induction false} WritersOkAt(s: State, acts: seq<Action>, i: nat)
    requires WritersOk(s) && Runnable(s, acts) && i <= |acts|
    ensures WritersOk(StateAt(s, acts, i))
    decreases i
  {
    if i > 0 {
      ActionOk(s, acts[0]);
      WritersOkAt(Apply(s, acts[0]), acts[1..], i - 1);
    }
  }

  lemma {:induction false} ConservedAt(s: State, acts: seq<Action>, i: nat)
    requires Conserved(s) && Runnable(s, acts) && NeverLapped(s, acts) && i <= |acts|
    ensures Conserved(StateAt(s, acts, i)) && NoLap(StateAt(s, acts, i))
    decreases i
  {
    if i > 0 {
      ActionConserves(s, acts[0]);
      ConservedAt(Apply(s, acts[0]), acts[1..], i - 1);
    }
  }

  /** The call an action is of. */
  function Of(a: Action): Option<Tid>
  {
    if a.ReleaseRead? || a.ReleaseWrite? then None else Some(a.t)
  }

  /** An action changes no call but its own. */
  lemma OthersStay(s: State, a: Action, u: Tid)
    requires Enabled(s, a) && Of(a) != Some(u)
    ensures u in Apply(s, a).calls <==> u in s.calls
    ensures u in s.calls ==> Apply(s, a).calls[u] == s.calls[u]
  {
    if a.Run? {
      var c := s.calls[a.t];
      if c.WCommit? || c.KWTop? {
        CommitsStay(s, a.t, a.env, u);
      } else {
        RunStays(s, a.t, a.env, u);
      }
    }
  }

  lemma RunStays(s: State, t: Tid, env: Env, u: Tid)
    requires t in s.calls && !Finished(s.calls[t]) && !s.calls[t].WCommit? && !s.calls[t].KWTop? && u != t
    ensures var s' := RunCall(s, t, env);
            (u in s'.calls <==> u in s.calls) && (u in s.calls ==> s'.calls[u] == s.calls[u])
  {
  }

  lemma CommitsStay(s: State, t: Tid, env: Env, u: Tid)
    requires t in s.calls && (s.calls[t].WCommit? || s.calls[t].KWTop?) && u != t
    ensures var s' := RunCall(s, t, env);
            (u in s'.calls <==> u in s.calls) && (u in s.calls ==> s'.calls[u] == s.calls[u])
  {
  }

  /** The step that finished a call. */
  lemma {:induction false} FinishingStep(acts: seq<Action>, n: nat, t: Tid) returns (i: nat)
    requires Runnable(Init(), acts) && n <= |acts|
    requires t in StateAt(Init(), acts, n).calls && Finished(StateAt(Init(), acts, n).calls[t])
    ensures i < n && Of(acts[i]) == Some(t)
    ensures var before, after := StateAt(Init(), acts, i), StateAt(Init(), acts, i + 1);
            && Enabled(before, acts[i]) && after == Apply(before, acts[i])
            && (t in before.calls ==> !Finished(before.calls[t]))
            && t in after.calls && after.calls[t] == StateAt(Init(), acts, n).calls[t]
    decreases n
  {
    if n == 0 {
      assert false;
    } else {
      var s := StateAt(Init(), acts, n - 1);
      StepAt(Init(), acts, n - 1);
      if Of(acts[n - 1]) == Some(t) {
        i := n - 1;
      } else {
        OthersStay(s, acts[n - 1], t);
        i := FinishingStep(acts, n - 1, t);
      }
    }
  }

  /** The action that a call under way goes back to. */
  function Origin(t: Tid, c: Local): Action
    requires !Finished(c)
  {
    match c
    case RTop(total, nonblock) => CallRead(t, total, nonblock)
    case RAsleep(total) => CallRead(t, total, false)
    case RCopy(total, nonblock, _, _, _) => CallRead(t, total, nonblock)
    case WTop(data, nonblock, _) => CallWrite(t, data, nonblock)
    case WAsleep(data, _) => CallWrite(t, data, false)
    case WStage(data, nonblock, _, _) => CallWrite(t, data, nonblock)
    case WCommit(data, nonblock, _, _) => CallWrite(t, data, nonblock)
    case WAsleepStaged(data, _, _) => CallWrite(t, data, false)
    case KRTop(len, nonblock) => CallKernelRead(t, len, nonblock)
    case KRAsleep(len) => CallKernelRead(t, len, false)
    case KWTop(data, nonblock, _) => CallKernelWrite(t, data, nonblock)
    case KWAsleep(data, _) => CallKernelWrite(t, data, false)
  }

  /** A request of no bytes does not get under way. */
  predicate Asks(a: Action)
  {
    match a
    case CallRead(_, total, _) => total > 0
    case CallWrite(_, data, _) => data != []
    case CallKernelRead(_, len, _) => len > 0
    case CallKernelWrite(_, data, _) => data != []
    case _ => false
  }

  lemma OriginKept(s: State, t: Tid, env: Env)
    requires t in s.calls && !Finished(s.calls[t])
    ensures var s' := RunCall(s, t, env);
            t in s'.calls && (!Finished(s'.calls[t]) ==> Origin(t, s'.calls[t]) == Origin(t, s.calls[t]))
  {
    var c := s.calls[t];
    if c.WCommit? {
      WriteCommitCases(s, t, c, env, RunCall(s, t, env).pipe);
    } else if c.KWTop? {
      KernelWriteCases(s, t, c, RunCall(s, t, env).pipe);
    }
  }

  /** The request of a call under way is the one it was called with. */
  lemma {:induction false} RequestKept(acts: seq<Action>, n: nat, t: Tid) returns (j: nat)
    requires Runnable(Init(), acts) && n <= |acts|
    requires t in StateAt(Init(), acts, n).calls && !Finished(StateAt(Init(), acts, n).calls[t])
    ensures j < n && acts[j] == Origin(t, StateAt(Init(), acts, n).calls[t]) && Asks(acts[j])
    decreases n
  {
    if n == 0 {
      assert false;
    } else {
      var s, a := StateAt(Init(), acts, n - 1), acts[n - 1];
      StepAt(Init(), acts, n - 1);
      if Of(a) != Some(t) {
        OthersStay(s, a, t);
        j := RequestKept(acts, n - 1, t);
      } else if a.Run? {
        OriginKept(s, t, a.env);
        j := RequestKept(acts, n - 1, t);
      } else {
        j := n - 1;
      }
    }
  }

  // ------------------------------------------------------------------- what reads are told

  /** A finished read took what it hands out, in one piece, and no other call took anything. */
  ghost predicate TakerOk(taken: seq<Chunk>, t: Tid, c: Local)
  {
    match c
    case RDone(ret, got) => TookExactly(taken, t, ret, got)
    case KRDone(ret, got) => TookExactly(taken, t, ret, got)
    case RCopy(_, _, _, snap, _) => Blocks(taken, t) == [] && snap != []
    case _ => Blocks(taken, t) == []
  }

  ghost predicate TookExactly(taken: seq<Chunk>, t: Tid, ret: Ret, got: seq<Byte>)
  {
    && Blocks(taken, t) == (if got == [] then [] else [got])
    && ret == (if ret.Count? then Count(|got|) else ret) && (ret.Err? ==> got == [])
  }

  ghost predicate TakersOk(s: State)
  {
    && (forall t | t in s.calls :: TakerOk(s.taken, t, s.calls[t]))
    && (forall t | t !in s.calls :: Blocks(s.taken, t) == [])
    && (forall t | t in s.calls && !Finished(s.calls[t]) :: Asks(Origin(t, s.calls[t])))
  }

  lemma OneTook(s: State, s': State, t: Tid)
    requires TakersOk(s) && t in s'.calls && s'.calls == s.calls[t := s'.calls[t]]
    requires s'.taken == s.taken || (|s'.taken| == |s.taken| + 1 && s'.taken == s.taken + [s'.taken[|s.taken|]] && s'.taken[|s.taken|].tid == t)
    requires TakerOk(s'.taken, t, s'.calls[t]) && (!Finished(s'.calls[t]) ==> Asks(Origin(t, s'.calls[t])))
    ensures TakersOk(s')
  {
    if s'.taken != s.taken {
      LogGrows(s.taken, s'.taken[|s.taken|]);
    }
    forall u | u in s'.calls
      ensures TakerOk(s'.taken, u, s'.calls[u])
    {
      if u != t {
        SameBlocks(s.taken, s'.taken, u, s.calls[u]);
      }
    }
  }

  lemma SameBlocks(taken: seq<Chunk>, taken': seq<Chunk>, t: Tid, c: Local)
    requires TakerOk(taken, t, c) && Blocks(taken', t) == Blocks(taken, t)
    ensures TakerOk(taken', t, c)
  {
  }

  lemma ReaderTakes(s: State, t: Tid, env: Env)
    requires TakersOk(s) && t in s.calls
    requires var c := s.calls[t]; c.RTop? || c.RAsleep? || c.RCopy? || c.KRTop? || c.KRAsleep?
    ensures TakerOk(RunCall(s, t, env).taken, t, RunCall(s, t, env).calls[t])
  {
    var c, s' := s.calls[t], RunCall(s, t, env);
    assert TakerOk(s.taken, t, c) && Asks(Origin(t, c));
    if c.RTop? {
      ReadTopStep(s, t, env);
    } else if c.RCopy? {
      ReadCopyStep(s, t, env);
      LogGrows(s.taken, Chunk(t, c.snap));
    } else if c.KRTop? {
      KernelReadStep(s, t, env);
      LogGrows(s.taken, Chunk(t, s.pipe.contents[..Min(c.len, |s.pipe.contents|)]));
    } else {
      ReaderAwakeStep(s, t, env);
    }
  }

  /** Only a step of a read takes bytes, as one chunk. */
  lemma RunTakes(s: State, t: Tid, env: Env)
    requires t in s.calls && !Finished(s.calls[t])
    ensures var s' := RunCall(s, t, env);
            && t in s'.calls && s'.calls == s.calls[t := s'.calls[t]]
            && (s'.taken == s.taken
                || (|s'.taken| == |s.taken| + 1 && s'.taken == s.taken + [s'.taken[|s.taken|]]
                    && s'.taken[|s.taken|].tid == t))
  {
  }

  lemma WriterTakesNothing(s: State, t: Tid, env: Env)
    requires t in s.calls && !Finished(s.calls[t])
    requires var c := s.calls[t]; !(c.RTop? || c.RAsleep? || c.RCopy? || c.KRTop? || c.KRAsleep?)
    ensures var s' := RunCall(s, t, env);
            s'.taken == s.taken && t in s'.calls && !s'.calls[t].RDone? && !s'.calls[t].KRDone? && !s'.calls[t].RCopy?
  {
  }

  lemma ActionTakes(s: State, a: Action)
    requires TakersOk(s) && Enabled(s, a)
    ensures TakersOk(Apply(s, a))
  {
    match a
    case Run(t, env) =>
      var c := s.calls[t];
      RunTakes(s, t, env);
      OriginKept(s, t, env);
      if c.RTop? || c.RAsleep? || c.RCopy? || c.KRTop? || c.KRAsleep? {
        ReaderTakes(s, t, env);
      } else {
        WriterTakesNothing(s, t, env);
        assert TakerOk(s.taken, t, c);
      }
      OneTook(s, Apply(s, a), t);
    case ReleaseRead =>
    case ReleaseWrite =>
    case _ => OneTook(s, Apply(s, a), a.t);
  }

  lemma {:induction false} TakersOkAt(s: State, acts: seq<Action>, i: nat)
    requires TakersOk(s) && Runnable(s, acts) && i <= |acts|
    ensures TakersOk(StateAt(s, acts, i))
    decreases i
  {
    if i > 0 {
      ActionTakes(s, acts[0]);
      TakersOkAt(Apply(s, acts[0]), acts[1..], i - 1);
    }
  }

  /** The bytes of a snapshot stood at the front of the ring when it was taken. */
  lemma {:induction false} SnapshotStood(acts: seq<Action>, n: nat, t: Tid) returns (k: nat)
    requires Runnable(Init(), acts) && n <= |acts|
    requires t in StateAt(Init(), acts, n).calls && StateAt(Init(), acts, n).calls[t].RCopy?
    ensures k < n
    ensures var c, ring := StateAt(Init(), acts, n).calls[t], StateAt(Init(), acts, k).pipe.contents;
            ring != [] && c.snap == ring[..Min(c.total, |ring|)]
    decreases n
  {
    if n == 0 {
      assert false;
    } else {
      var s, a := StateAt(Init(), acts, n - 1), acts[n - 1];
      StepAt(Init(), acts, n - 1);
      if Of(a) == Some(t) {
        SnapshotTaken(s, a, t);
        k := n - 1;
      } else {
        OthersStay(s, a, t);
        k := SnapshotStood(acts, n - 1, t);
      }
    }
  }

  /** Only the first section of a read takes a snapshot. */
  lemma SnapshotTaken(s: State, a: Action, t: Tid)
    requires Enabled(s, a) && Of(a) == Some(t) && t in Apply(s, a).calls && Apply(s, a).calls[t].RCopy?
    ensures var c, ring := Apply(s, a).calls[t], s.pipe.contents;
            ring != [] && c.snap == ring[..Min(c.total, |ring|)]
  {
    if a.Run? {
      if s.calls[t].RTop? {
        ReadTopStep(s, t, a.env);
      } else {
        OnlyTopSnapshots(s, t, a.env);
      }
    }
  }

  lemma OnlyTopSnapshots(s: State, t: Tid, env: Env)
    requires t in s.calls && !Finished(s.calls[t]) && !s.calls[t].RTop?
    ensures t in RunCall(s, t, env).calls && !RunCall(s, t, env).calls[t].RCopy?
  {
  }

  /** Why a read ended without bytes, at the step `a` from state s. */
  ghost predicate ReadStopped(s: State, a: Action, nonblock: bool, ret: Ret)
  {
    && a.Run?
    && match ret
       case Count(n) => n == 0 && s.pipe.contents == [] && s.pipe.writers == 0
       case Err(EAGAIN) => s.pipe.contents == [] && s.pipe.writers > 0 && (nonblock || !a.env.haveThread)
       case Err(EINTR) => a.env.signal
       case Err(EFAULT) => a.env.fault
       case Err(EPIPE) => false
  }

  /** The bytes are the first of the ring, as many as were asked for. */
  ghost predicate FirstOf(got: seq<Byte>, ring: seq<Byte>, total: nat)
  {
    got != [] && ring != [] && got == ring[..Min(total, |ring|)]
  }

  /** Call t ends with these bytes and this answer: it took them, in one piece, and nothing else. */
  ghost predicate Told(s: State, t: Tid, ret: Ret, got: seq<Byte>)
  {
    && Blocks(s.taken, t) == (if got == [] then [] else [got])
    && (ret.Count? ==> ret.n == |got|) && (ret.Err? ==> got == [])
  }

  lemma TakersInit()
    ensures TakersOk(Init()) && WritersOk(Init()) && Conserved(Init())
  {
  }

  lemma ToldAtEnd(acts: seq<Action>, t: Tid)
    requires Runnable(Init(), acts) && t in Exec(Init(), acts).calls
    ensures var s, c := Exec(Init(), acts), Exec(Init(), acts).calls[t];
            c.RDone? || c.KRDone? ==> Told(s, t, c.ret, c.got)
  {
    TakersInit();
    TakersOkAt(Init(), acts, |acts|);
    StateAtEnd(Init(), acts);
    assert TakerOk(Exec(Init(), acts).taken, t, Exec(Init(), acts).calls[t]);
  }

  /** A step that finishes a pipe_read_user. */
  lemma ReadFinishes(s: State, t: Tid, env: Env)
    requires t in s.calls && !Finished(s.calls[t]) && RunCall(s, t, env).calls[t].RDone?
    ensures var c, d := s.calls[t], RunCall(s, t, env).calls[t];
            && (c.RTop? || c.RAsleep? || c.RCopy?)
            && (d.got == [] && (c.RCopy? ==> c.snap != []) ==>
                  ReadStopped(s, Run(t, env), Origin(t, c).nonblock, d.ret))
            && (d.got != [] ==> c.RCopy? && d.got == c.snap && c.sequence == s.pipe.readSeq
                                && RunCall(s, t, env).pipe.contents == Skip(s.pipe.contents, |d.got|))
  {
    ReadKind(s, t, env);
    var c := s.calls[t];
    if c.RTop? {
      ReadTopStep(s, t, env);
    } else if c.RCopy? {
      ReadCopyStep(s, t, env);
    } else {
      ReaderAwakeStep(s, t, env);
    }
  }

  lemma ReadKind(s: State, t: Tid, env: Env)
    requires t in s.calls && !Finished(s.calls[t])
    ensures var c, d := s.calls[t], RunCall(s, t, env).calls[t];
            && (d.RDone? ==> c.RTop? || c.RAsleep? || c.RCopy?)
            && (d.KRDone? ==> c.KRTop? || c.KRAsleep?)
            && (d.WDone? ==> c.WTop? || c.WAsleep? || c.WStage? || c.WCommit? || c.WAsleepStaged?)
            && (d.KWDone? ==> c.KWTop? || c.KWAsleep?)
  {
    var c := s.calls[t];
    if c.WCommit? {
      WriteCommitCases(s, t, c, env, RunCall(s, t, env).pipe);
    } else if c.KWTop? {
      KernelWriteCases(s, t, c, RunCall(s, t, env).pipe);
    }
  }

  /** In every run, a finished pipe_read_user goes back to a call of `total` bytes. What it is
      told it got is what its commit took, and that is the first bytes of the ring, as many as it
      asked for, at a moment in the run before. Without bytes it took nothing, and the step that
      finished it says why. */
  lemma ReadAnswer(acts: seq<Action>, t: Tid) returns (i: nat, j: nat, k: nat)
    requires Runnable(Init(), acts) && t in Exec(Init(), acts).calls && Exec(Init(), acts).calls[t].RDone?
    ensures i < |acts| && j <= i && k <= i && acts[j].CallRead? && acts[j].t == t
    ensures var s, c, total := Exec(Init(), acts), Exec(Init(), acts).calls[t], acts[j].total;
            var before, after := StateAt(Init(), acts, i), StateAt(Init(), acts, i + 1);
            && t in after.calls && after.calls[t] == c && Told(s, t, c.ret, c.got)
            && (if c.got == [] then (total == 0 && c.ret == Count(0)) || ReadStopped(before, acts[i], acts[j].nonblock, c.ret)
                else FirstOf(c.got, StateAt(Init(), acts, k).pipe.contents, total))
            && (c.got != [] && NeverLapped(Init(), acts) ==> before.pipe.contents == c.got + after.pipe.contents)
  {
    StateAtEnd(Init(), acts);
    ToldAtEnd(acts, t);
    i := FinishingStep(acts, |acts|, t);
    j, k := i, 0;
    var before := StateAt(Init(), acts, i);
    if acts[i].Run? {
      j := RequestKept(acts, i, t);
      ReadFinishes(before, t, acts[i].env);
      if before.calls[t].RCopy? {
        k := SnapshotStood(acts, i, t);
        if NeverLapped(Init(), acts) {
          TakersInit();
          ConservedAt(Init(), acts, i);
          CommitTakesFront(before, t, acts[i].env);
        }
      }
    }
  }

  /** A read that commits takes its bytes from the front of the ring. */
  lemma CommitTakesFront(s: State, t: Tid, env: Env)
    requires Conserved(s) && NoLap(s) && t in s.calls && s.calls[t].RCopy?
    ensures var s' := RunCall(s, t, env);
            !env.fault && s.pipe.readSeq == s.calls[t].sequence ==>
              s.pipe.contents == s.calls[t].snap + s'.pipe.contents
  {
    ReadCopyStep(s, t, env);
    if s.pipe.readSeq == s.calls[t].sequence {
      PassingReaderHoldsPrefix(s, t);
    }
  }

  /** The same for pipe_read, whose bytes stand in the ring when it is finished. */
  lemma KernelReadAnswer(acts: seq<Action>, t: Tid) returns (i: nat, j: nat)
    requires Runnable(Init(), acts) && t in Exec(Init(), acts).calls && Exec(Init(), acts).calls[t].KRDone?
    ensures i < |acts| && j <= i && acts[j].CallKernelRead? && acts[j].t == t
    ensures var s, c, total := Exec(Init(), acts), Exec(Init(), acts).calls[t], acts[j].total;
            var before, after := StateAt(Init(), acts, i), StateAt(Init(), acts, i + 1);
            && t in after.calls && after.calls[t] == c && Told(s, t, c.ret, c.got)
            && (if c.got == [] then (total == 0 && c.ret == Count(0)) || ReadStopped(before, acts[i], acts[j].nonblock, c.ret)
                else FirstOf(c.got, before.pipe.contents, total) && before.pipe.contents == c.got + after.pipe.contents)
  {
    StateAtEnd(Init(), acts);
    ToldAtEnd(acts, t);
    i := FinishingStep(acts, |acts|, t);
    j := i;
    var before := StateAt(Init(), acts, i);
    if acts[i].Run? {
      j := RequestKept(acts, i, t);
      KernelReadFinishes(before, t, acts[i].env);
    }
  }

  /** A step that finishes a pipe_read. */
  lemma KernelReadFinishes(s: State, t: Tid, env: Env)
    requires t in s.calls && !Finished(s.calls[t]) && RunCall(s, t, env).calls[t].KRDone?
    ensures var c, s' := s.calls[t], RunCall(s, t, env);
            var d := s'.calls[t];
            && (c.KRTop? || c.KRAsleep?)
            && if d.got == [] then (Origin(t, c).total == 0 && d.ret == Count(0)) || ReadStopped(s, Run(t, env), Origin(t, c).nonblock, d.ret)
               else FirstOf(d.got, s.pipe.contents, Origin(t, c).total) && s.pipe.contents == d.got + s'.pipe.contents
  {
    ReadKind(s, t, env);
    if s.calls[t].KRTop? {
      KernelReadStep(s, t, env);
    } else {
      ReaderAwakeStep(s, t, env);
    }
  }

  // ------------------------------------------------------------------ what writes are told

  /** Why a write ended with an error, at the step `a` from state s. */
  ghost predicate WriteStopped(s: State, a: Action, total: nat, nonblock: bool, e: Errno)
  {
    && a.Run?
    && match e
       case EPIPE => s.pipe.readers == 0
       case EAGAIN => s.pipe.readers > 0 && Blocked(s.pipe, total, total) && (nonblock || !a.env.haveThread)
       case EINTR => a.env.signal
       case EFAULT => a.env.fault
  }

  /** A step that finishes a pipe_write_user. */
  lemma WriteFinishes(s: State, t: Tid, env: Env)
    requires WritersOk(s) && t in s.calls && !Finished(s.calls[t]) && RunCall(s, t, env).calls[t].WDone?
    ensures var c, d := s.calls[t], RunCall(s, t, env).calls[t];
            && (c.WTop? || c.WAsleep? || c.WStage? || c.WCommit? || c.WAsleepStaged?)
            && d.data == c.data
            && (d.ret.Err? ==> WriteStopped(s, Run(t, env), |c.data|, Origin(t, c).nonblock, d.ret.e))
            && (d.ret.Count? && d.ret.n < |c.data| ==>
                  Origin(t, c).nonblock || env.signal || env.fault || !env.haveThread || s.pipe.readers == 0)
  {
    ReadKind(s, t, env);
    var c := s.calls[t];
    assert CallOk(s.log, t, c);
    if c.WTop? {
      WriteTopStep(s, t, env);
    } else if c.WStage? {
      WriteStageStep(s, t, env);
    } else if c.WCommit? {
      WriteCommitStep(s, t, env);
    } else {
      WriterAwakeStep(s, t, env);
    }
  }

  /** In every run, a finished pipe_write_user goes back to a call with this request. A count is
      the length of its part that is in the stream, and short only for a reason that the step that
      finished it shows; an error means that nothing is, and which error says why. */
  lemma WriteAnswer(acts: seq<Action>, t: Tid) returns (i: nat, j: nat)
    requires Runnable(Init(), acts) && t in Exec(Init(), acts).calls && Exec(Init(), acts).calls[t].WDone?
    ensures i < |acts| && j <= i && acts[j].CallWrite? && acts[j].t == t && acts[j].data == Exec(Init(), acts).calls[t].data
    ensures var s, c := Exec(Init(), acts), Exec(Init(), acts).calls[t];
            var before := StateAt(Init(), acts, i);
            match c.ret
            case Count(n) =>
              && n <= |c.data| && Join(Blocks(s.log, t)) == c.data[..n]
              && (n < |c.data| ==> acts[i].Run?
                                   && (acts[j].nonblock || acts[i].env.signal || acts[i].env.fault
                                       || !acts[i].env.haveThread || before.pipe.readers == 0))
            case Err(e) => Blocks(s.log, t) == [] && WriteStopped(before, acts[i], |c.data|, acts[j].nonblock, e)
  {
    StateAtEnd(Init(), acts);
    TakersInit();
    ReturnedCountIsCommitted(acts, t);
    i := FinishingStep(acts, |acts|, t);
    j := i;
    if acts[i].Run? {
      j := RequestKept(acts, i, t);
      WritersOkAt(Init(), acts, i);
      WriteFinishes(StateAt(Init(), acts, i), t, acts[i].env);
    }
  }

  /** A step that finishes a pipe_write. */
  lemma KernelWriteFinishes(s: State, t: Tid, env: Env)
    requires WritersOk(s) && t in s.calls && !Finished(s.calls[t]) && RunCall(s, t, env).calls[t].KWDone?
    ensures var c, d := s.calls[t], RunCall(s, t, env).calls[t];
            && (c.KWTop? || c.KWAsleep?)
            && d.data == c.data
            && (d.ret.Err? ==> WriteStopped(s, Run(t, env), |c.data|, Origin(t, c).nonblock, d.ret.e)
                               && (d.ret.e == EAGAIN ==> Origin(t, c).nonblock))
            && d.ret != Err(EFAULT)
            && (d.ret.Count? && d.ret.n < |c.data| ==> Origin(t, c).nonblock || env.signal)
  {
    ReadKind(s, t, env);
    var c := s.calls[t];
    assert CallOk(s.log, t, c);
    if c.KWTop? {
      KernelWriteStep(s, t, env);
    }
  }

  /** The same for pipe_write, which waits with a thread at all times, and whose EPIPE does not
      mean that nothing is in the stream. */
  lemma KernelWriteAnswer(acts: seq<Action>, t: Tid) returns (i: nat, j: nat)
    requires Runnable(Init(), acts) && t in Exec(Init(), acts).calls && Exec(Init(), acts).calls[t].KWDone?
    ensures i < |acts| && j <= i && acts[j].CallKernelWrite? && acts[j].t == t
    ensures acts[j].data == Exec(Init(), acts).calls[t].data
    ensures var s, c := Exec(Init(), acts), Exec(Init(), acts).calls[t];
            var before := StateAt(Init(), acts, i);
            match c.ret
            case Count(n) =>
              && n <= |c.data| && Join(Blocks(s.log, t)) == c.data[..n]
              && (n < |c.data| ==> acts[i].Run? && (acts[j].nonblock || acts[i].env.signal))
            case Err(e) =>
              && e != EFAULT && WriteStopped(before, acts[i], |c.data|, acts[j].nonblock, e)
              && (e == EAGAIN ==> acts[j].nonblock) && (e != EPIPE ==> Blocks(s.log, t) == [])
  {
    StateAtEnd(Init(), acts);
    TakersInit();
    KernelWriteReturns(acts, t);
    i := FinishingStep(acts, |acts|, t);
    j := i;
    if acts[i].Run? {
      j := RequestKept(acts, i, t);
      WritersOkAt(Init(), acts, i);
      KernelWriteFinishes(StateAt(Init(), acts, i), t, acts[i].env);
    }
  }

  /** Closing an end of the pipe lowers its count and leaves the ring. */
  lemma ReleaseStep(s: State)
    ensures var r, w := Apply(s, ReleaseRead).pipe, Apply(s, ReleaseWrite).pipe;
            && r.contents == w.contents == s.pipe.contents
            && r.readers == (if s.pipe.readers == 0 then 0 else s.pipe.readers - 1) && r.writers == s.pipe.writers
            && w.writers == (if s.pipe.writers == 0 then 0 else s.pipe.writers - 1) && w.readers == s.pipe.readers
  {
  }
}
