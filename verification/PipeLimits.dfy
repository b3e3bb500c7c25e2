/**
 Where the pipe's guarantees end, each shown by a run.

 The sequence number is 64 bits wide: a reader overtaken by exactly 2^64 other reads
 passes the commit test with a stale snapshot, so NeverLapped cannot be dropped from
 PipeStream. pipe_write wakes a single reader: if that reader leaves on a signal, another
 sleeps on while bytes are waiting, so PipeWakeups admits the kernel-buffer writes that find
 at most one reader waiting. And a pipe_write that has committed a part of its request
 reports EPIPE all the same once the readers are gone.
 */
module PipeLimits {
  import opened Machine
  import opened PipeSpec
  import opened PipeProtocol
  import opened PipeStream

  const CALM := Env(true, false, false)
  const STALE: Byte := 65
  const CURRENT: Byte := 66

  lemma {:induction false} RunsCompose(s: State, a: seq<Action>, b: seq<Action>)
    requires Runnable(s, a) && Runnable(Exec(s, a), b)
    ensures Runnable(s, a + b) && Exec(s, a + b) == Exec(Exec(s, a), b)
    decreases |a|
  {
    if a == [] {
      assert a + b == b;
    } else {
      RunsCompose(Apply(s, a[0]), a[1..], b);
      assert (a + b)[1..] == a[1..] + b;
    }
  }

  /** Call 0 still holds the snapshot it took before any read was committed, while
      `n` reads have gone by and the ring holds another byte. */
  ghost predicate Overtaken(s: State, n: nat, k: nat)
  {
    && s.pipe == Pipe([CURRENT], n % U64, 1, 1, [], [], {})
    && s.readCommits == n
    && k > 0
    && (forall t | t in s.calls :: t < k)
    && (forall t | t in s.calls && t != 0 :: !s.calls[t].RCopy?)
    && 0 in s.calls && s.calls[0] == RCopy(1, false, 0, [STALE], 0)
    && Conserved(s)
  }

  lemma TwoSteps(s: State, a: Action, b: Action)
    requires Enabled(s, a) && Enabled(Apply(s, a), b)
    ensures Runnable(s, [a, b]) && Exec(s, [a, b]) == Apply(Apply(s, a), b)
  {
    OneStep(Apply(s, a), b);
    assert [a, b][1..] == [b];
  }

  lemma OneStep(s: State, a: Action)
    requires Enabled(s, a)
    ensures Runnable(s, [a]) && Exec(s, [a]) == Apply(s, a)
  {
    assert [a][1..] == [];
    assert Runnable(Apply(s, a), []);
  }

  /** A new kernel-buffer reader takes the only byte. */
  lemma ReadOne(s: State, k: nat, b: Byte) returns (acts: seq<Action>, s': State)
    requires s.pipe == Pipe([b], s.readCommits % U64, 1, 1, [], [], {}) && Conserved(s) && k !in s.calls
    ensures Runnable(s, acts) && s' == Exec(s, acts)
    ensures s'.pipe == Pipe([], (s.readCommits + 1) % U64, 1, 1, [], [], {})
    ensures s'.readCommits == s.readCommits + 1
    ensures s'.calls == s.calls[k := KRDone(Count(1), [b])]
    ensures Conserved(s')
  {
    var s1 := Apply(s, CallKernelRead(k, 1, false));
    assert Conserved(s1);
    s' := Apply(s1, Run(k, CALM));
    KernelReadConserves(s1, k);
    assert Take([b], 1) == [b] && Skip([b], 1) == [];
    TwoSteps(s, CallKernelRead(k, 1, false), Run(k, CALM));
    acts := [CallKernelRead(k, 1, false), Run(k, CALM)];
  }

  /** A new kernel-buffer writer puts one byte into the empty ring. */
  lemma WriteOne(s: State, k: nat, b: Byte) returns (acts: seq<Action>, s': State)
    requires s.pipe == Pipe([], s.readCommits % U64, 1, 1, [], [], {}) && Conserved(s) && k !in s.calls
    ensures Runnable(s, acts) && s' == Exec(s, acts)
    ensures s'.pipe == s.pipe.(contents := [b]) && s'.readCommits == s.readCommits
    ensures s'.calls == s.calls[k := KWDone([b], 1, Count(1))]
    ensures Conserved(s')
  {
    var s1 := Apply(s, CallKernelWrite(k, [b], false));
    s' := Apply(s1, Run(k, CALM));
    assert Conserved(s1);
    KernelWriteAppends(s1.pipe, k, [b], 0, false);
    KernelWriteConserves(s1, k, s'.pipe);
    TwoSteps(s, CallKernelWrite(k, [b], false), Run(k, CALM));
    acts := [CallKernelWrite(k, [b], false), Run(k, CALM)];
  }

  /** A user reader takes its snapshot of one byte and goes off to copy it. */
  lemma SnapshotOne(s: State, b: Byte) returns (acts: seq<Action>, s': State)
    requires s.pipe == Pipe([b], 0, 1, 1, [], [], {}) && s.readCommits == 0 && Conserved(s) && 0 !in s.calls
    ensures Runnable(s, acts) && s' == Exec(s, acts)
    ensures s' == s.(calls := s.calls[0 := RCopy(1, false, 0, [b], 0)])
    ensures Conserved(s')
  {
    var s1 := Apply(s, CallRead(0, 1, false));
    assert Conserved(s1);
    s' := Apply(s1, Run(0, CALM));
    assert Take([b], 1) == [b];
    QuietConserves(s1, 0, CALM);
    TwoSteps(s, CallRead(0, 1, false), Run(0, CALM));
    acts := [CallRead(0, 1, false), Run(0, CALM)];
  }

  lemma {:induction false} OvertakenBy(n: nat) returns (acts: seq<Action>, k: nat)
    requires 1 <= n <= U64
    ensures Runnable(Init(), acts) && Overtaken(Exec(Init(), acts), n, k)
    decreases n
  {
    var before, s, j := [], Init(), 1;
    if n == 1 {
      before, s := Snapshotting();
      j := 2;
    } else {
      before, j := OvertakenBy(n - 1);
      s := Exec(Init(), before);
    }
    var more, s' := Round(s, n - 1, j);
    RunsCompose(Init(), before, more);
    acts, k := before + more, j + 2;
  }

  /** Another reader takes the byte in the ring and another writer replaces it. */
  lemma Round(s: State, n: nat, j: nat) returns (acts: seq<Action>, s': State)
    requires |s.pipe.contents| == 1 && s.pipe == Pipe(s.pipe.contents, n % U64, 1, 1, [], [], {})
    requires s.readCommits == n && j > 0
    requires forall t | t in s.calls :: t < j
    requires forall t | t in s.calls && t != 0 :: !s.calls[t].RCopy?
    requires 0 in s.calls && s.calls[0] == RCopy(1, false, 0, [STALE], 0)
    requires Conserved(s)
    ensures Runnable(s, acts) && s' == Exec(s, acts)
    ensures Overtaken(s', n + 1, j + 2)
  {
    assert s.pipe.contents == [s.pipe.contents[0]];
    var a, s1 := ReadOne(s, j, s.pipe.contents[0]);
    var b, s2 := WriteOne(s1, j + 1, CURRENT);
    RunsCompose(s, a, b);
    acts, s' := a + b, s2;
  }

  lemma Snapshotting() returns (acts: seq<Action>, s: State)
    ensures Runnable(Init(), acts) && s == Exec(Init(), acts)
    ensures s.pipe == Pipe([STALE], 0, 1, 1, [], [], {}) && s.readCommits == 0
    ensures s.calls == map[1 := KWDone([STALE], 1, Count(1)), 0 := RCopy(1, false, 0, [STALE], 0)]
    ensures Conserved(s)
  {
    var a, s1 := WriteOne(Init(), 1, STALE);
    var b, s2 := SnapshotOne(s1, STALE);
    RunsCompose(Init(), a, b);
    acts, s := a + b, s2;
  }

  /** After 2^64 intervening reads the commit test passes on a stale snapshot, and
      the delivered bytes are not the written bytes. */
  lemma LappedReaderBreaksStream() returns (acts: seq<Action>)
    ensures Runnable(Init(), acts)
    ensures var s := Exec(Init(), acts);
            Stream(s.log) != Stream(s.taken) + s.pipe.contents
  {
    var before, k := OvertakenBy(U64);
    var s := Exec(Init(), before);
    var last := [Run(0, CALM)];
    var s' := Apply(s, last[0]);
    assert last[1..] == [] && Exec(s, last) == s';
    RunsCompose(Init(), before, last);
    LogGrows(s.taken, Chunk(0, [STALE]));
    assert Stream(s'.taken) == Stream(s.taken) + [STALE];
    assert Stream(s'.log)[|Stream(s.taken)|] == CURRENT;
    acts := before + last;
  }

  /** Two readers sleep, a kernel-buffer write wakes the first, a signal makes it
      leave: every other call has finished, nobody is woken, and the second reader sleeps on
      beside a readable byte. */
  lemma KernelWriteLosesWakeup() returns (acts: seq<Action>)
    ensures Runnable(Init(), acts)
    ensures var s := Exec(Init(), acts);
            && 1 in s.calls && s.calls[1].RAsleep? && s.pipe.woken == {} && s.pipe.contents != []
            && 0 in s.calls && s.calls[0] == RDone(Err(EINTR), [])
            && 2 in s.calls && s.calls[2] == KWDone([STALE], 1, Count(1))
            && s.calls.Keys == {0, 1, 2}
  {
    var quit := Run(0, CALM.(signal := true));
    var s1 := Apply(Init(), CallRead(0, 1, false));
    var s2 := Apply(s1, Run(0, CALM));
    TwoSteps(Init(), CallRead(0, 1, false), Run(0, CALM));
    assert s2.pipe == Pipe([], 0, 1, 1, [0], [], {});
    var s3 := Apply(s2, CallRead(1, 1, false));
    var s4 := Apply(s3, CallKernelWrite(2, [STALE], false));
    TwoSteps(s2, CallRead(1, 1, false), CallKernelWrite(2, [STALE], false));
    var s5 := Apply(s4, Run(1, CALM));
    assert s5.pipe == Pipe([], 0, 1, 1, [0, 1], [], {});
    var s6 := Apply(s5, Run(2, CALM));
    TwoSteps(s4, Run(1, CALM), Run(2, CALM));
    assert s6.pipe == Pipe([STALE], 0, 1, 1, [1], [], {0});
    acts := Concluding(s6, quit,
      [CallRead(0, 1, false), Run(0, CALM)],
      [CallRead(1, 1, false), CallKernelWrite(2, [STALE], false)],
      [Run(1, CALM), Run(2, CALM)]);
  }

  /** The first 4096 bytes of a request of 4097 are in the ring. */
  lemma PartlyWritten() returns (acts: seq<Action>)
    ensures Runnable(Init(), acts)
    ensures Exec(Init(), acts)
            == State(Pipe(Zeros(4096), 0, 1, 1, [], [], {}), map[0 := KWTop(Zeros(4097), false, 4096)],
                     [Chunk(0, Zeros(4096))], [], 0)
  {
    var write := CallKernelWrite(0, Zeros(4097), false);
    TwoSteps(Init(), write, Run(0, CALM));
    assert Take(Skip(Zeros(4097), 0), 4096) == Zeros(4096);
    assert [] + Zeros(4096) == Zeros(4096);
    acts := [write, Run(0, CALM)];
  }

  /** A kernel-buffer write of 4097 bytes commits 4096 of them, the reader leaves, and the
      call returns EPIPE. */
  lemma EpipeAfterCommit() returns (acts: seq<Action>)
    ensures Runnable(Init(), acts)
    ensures var s := Exec(Init(), acts);
            && 0 in s.calls && s.calls[0] == KWDone(Zeros(4097), 4096, Err(EPIPE))
            && Blocks(s.log, 0) == [Zeros(4096)] && s.pipe.contents == Zeros(4096)
  {
    var before := PartlyWritten();
    TwoSteps(Exec(Init(), before), ReleaseRead, Run(0, CALM));
    RunsCompose(Init(), before, [ReleaseRead, Run(0, CALM)]);
    LogGrows([], Chunk(0, Zeros(4096)));
    assert [] + [Chunk(0, Zeros(4096))] == [Chunk(0, Zeros(4096))];
    acts := before + [ReleaseRead, Run(0, CALM)];
  }

  /** Three legs and a last action, strung together. */
  lemma Concluding(s: State, last: Action, a: seq<Action>, b: seq<Action>, c: seq<Action>)
    returns (acts: seq<Action>)
    requires Runnable(Init(), a) && Runnable(Exec(Init(), a), b)
    requires Runnable(Exec(Exec(Init(), a), b), c) && s == Exec(Exec(Exec(Init(), a), b), c)
    requires Enabled(s, last)
    ensures Runnable(Init(), acts) && Exec(Init(), acts) == Apply(s, last)
  {
    OneStep(s, last);
    RunsCompose(Init(), a, b);
    RunsCompose(Init(), a + b, c);
    RunsCompose(Init(), a + b + c, [last]);
    acts := a + b + c + [last];
  }
}
