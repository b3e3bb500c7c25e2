/**
 The ring buffer of fs/pipe.c as it is laid out in memory: a 4096-byte array, a
 read and a write position, a count. Every method is one section that runs with
 the pipe lock held, and its postcondition says which function of PipeSpec it
 computes on the abstract pipe. No function of PipeSpec knows about positions or
 wrap-around; those are discharged here.
 */
module PipeRing {
  import opened Machine
  import opened PipeSpec
  import opened SinglyLinked

  /** `n` bytes of a ring, starting at `pos` and continuing at index 0. */
  ghost function Unroll(b: seq<Byte>, pos: nat, n: nat): (s: seq<Byte>)
    requires |b| == PIPE_BUFFER_SIZE && pos < PIPE_BUFFER_SIZE && n <= PIPE_BUFFER_SIZE
    ensures |s| == n
    ensures forall i | 0 <= i < n :: s[i] == b[Slot(pos, i)]
  {
    if pos + n <= PIPE_BUFFER_SIZE then b[pos..pos + n]
    else b[pos..] + b[..pos + n - PIPE_BUFFER_SIZE]
  }

  /** The array index of the i-th byte after `pos`. */
  ghost function Slot(pos: nat, i: nat): (k: nat)
    requires pos < PIPE_BUFFER_SIZE && i < PIPE_BUFFER_SIZE
    ensures k < PIPE_BUFFER_SIZE
  {
    if pos + i < PIPE_BUFFER_SIZE then pos + i else pos + i - PIPE_BUFFER_SIZE
  }

  /** Reading from the front leaves the unrolled rest in place. */
  lemma UnrollDrop(b: seq<Byte>, pos: nat, n: nat, k: nat)
    requires |b| == PIPE_BUFFER_SIZE && pos < PIPE_BUFFER_SIZE && k <= n <= PIPE_BUFFER_SIZE
    ensures Unroll(b, (pos + k) % PIPE_BUFFER_SIZE, n - k) == Unroll(b, pos, n)[k..]
  {
    var pos' := (pos + k) % PIPE_BUFFER_SIZE;
    assert forall i | 0 <= i < n - k :: Slot(pos', i) == Slot(pos, k + i);
  }

  /** Bytes stored behind the last occupied slot extend the stream and touch no
      occupied byte. */
  lemma UnrollAppend(b: seq<Byte>, b': seq<Byte>, pos: nat, n: nat, bytes: seq<Byte>)
    requires |b| == |b'| == PIPE_BUFFER_SIZE && pos < PIPE_BUFFER_SIZE
    requires n + |bytes| <= PIPE_BUFFER_SIZE
    requires forall j | 0 <= j < |bytes| :: b'[Slot((pos + n) % PIPE_BUFFER_SIZE, j)] == bytes[j]
    requires forall i | 0 <= i < n :: b'[Slot(pos, i)] == b[Slot(pos, i)]
    ensures Unroll(b', pos, n + |bytes|) == Unroll(b, pos, n) + bytes
  {
    forall i | 0 <= i < n + |bytes|
      ensures Unroll(b', pos, n + |bytes|)[i] == (Unroll(b, pos, n) + bytes)[i]
    {
      if i >= n {
        assert Slot(pos, i) == Slot((pos + n) % PIPE_BUFFER_SIZE, i - n);
      }
    }
  }

  lemma {:induction false} WithoutAt(q: seq<Tid>, t: Tid, i: nat)
    requires i < |q| && q[i] == t && t !in q[..i]
    ensures Without(q, t) == q[..i] + q[i + 1..]
  {
    if i > 0 {
      assert q[0] in q[..i] && q[1..][..i - 1] == q[..i][1..];
      WithoutAt(q[1..], t, i - 1);
    }
  }

  lemma {:induction false} WithoutNone(q: seq<Tid>, t: Tid)
    requires t !in q
    ensures Without(q, t) == q
  {
    if q != [] {
      WithoutNone(q[1..], t);
    }
  }

  class Ring {
    const buffer: array<Byte>
    var readPos: nat
    var writePos: nat
    var count: nat
    var readSeq: nat
    var readers: nat
    var writers: nat
    var readWait: seq<Tid>
    var writeWait: seq<Tid>
    var woken: set<Tid>

    ghost predicate Valid()
      reads this
    {
      && buffer.Length == PIPE_BUFFER_SIZE
      && readPos < PIPE_BUFFER_SIZE
      && count <= PIPE_BUFFER_SIZE
      && writePos == (readPos + count) % PIPE_BUFFER_SIZE
      && readSeq < U64
    }

    /** The abstract pipe this ring stands for. */
    ghost function View(): Pipe
      requires Valid()
      reads this, buffer
    {
      Pipe(Unroll(buffer[..], readPos, count), readSeq, readers, writers, readWait, writeWait, woken)
    }

    constructor ()
      ensures Valid() && fresh(buffer)
      ensures View() == Pipe([], 0, 1, 1, [], [], {})
    {
      buffer := new Byte[PIPE_BUFFER_SIZE](_ => 0);
      readPos, writePos, count, readSeq := 0, 0, 0, 0;
      readers, writers := 1, 1;
      readWait, writeWait, woken := [], [], {};
    }

    /** The two-part copy out of the ring. */
    method Peek(length: nat) returns (bytes: seq<Byte>)
      requires Valid() && length <= count
      ensures bytes == View().contents[..length]
    {
      var first := PIPE_BUFFER_SIZE - readPos;
      if first > length {
        first := length;
      }
      bytes := buffer[readPos..readPos + first] + buffer[..length - first];
      assert bytes == Unroll(buffer[..], readPos, count)[..length];
    }

    /** Advance the read side past `length` bytes. */
    method Drop(length: nat)
      requires Valid() && length <= count
      modifies this`readPos, this`count, this`readSeq
      ensures Valid() && View() == Consume(old(View()), length)
    {
      UnrollDrop(buffer[..], readPos, count, length);
      readPos := (readPos + length) % PIPE_BUFFER_SIZE;
      count := count - length;
      readSeq := (readSeq + 1) % U64;
    }

    /** The two-part copy into the ring: the bytes land in the slots behind the
        write position and every other slot keeps its byte. */
    method CopyIn(bytes: seq<Byte>)
      requires Valid() && count + |bytes| <= PIPE_BUFFER_SIZE
      modifies buffer
      ensures forall j | 0 <= j < |bytes| :: buffer[Slot(writePos, j)] == bytes[j]
      ensures forall i | 0 <= i < count :: buffer[Slot(readPos, i)] == old(buffer[Slot(readPos, i)])
    {
      assert writePos == if readPos + count < PIPE_BUFFER_SIZE then readPos + count
                         else readPos + count - PIPE_BUFFER_SIZE;
      var first := PIPE_BUFFER_SIZE - writePos;
      if first > |bytes| {
        first := |bytes|;
      }
      forall j | 0 <= j < first {
        buffer[writePos + j] := bytes[j];
      }
      forall j | 0 <= j < |bytes| - first {
        buffer[j] := bytes[first + j];
      }
    }

    /** The position updates that publish the copied bytes. */
    method Store(bytes: seq<Byte>)
      requires Valid() && count + |bytes| <= PIPE_BUFFER_SIZE
      modifies this`writePos, this`count, buffer
      ensures Valid() && View() == Append(old(View()), bytes)
    {
      ghost var before := buffer[..];
      CopyIn(bytes);
      UnrollAppend(before, buffer[..], readPos, count, bytes);
      writePos := (writePos + |bytes|) % PIPE_BUFFER_SIZE;
      count := count + |bytes|;
    }

    method WakeReaders()
      requires Valid()
      modifies this`readWait, this`woken
      ensures Valid() && View() == WakeAllReaders(old(View()))
    {
      while readWait != []
        invariant Members(readWait) + woken == old(Members(readWait)) + old(woken)
        decreases |readWait|
      {
        var t := readWait[0];
        assert Members(readWait) == Members(readWait[1..]) + {t} by {
          assert readWait == [t] + readWait[1..];
        }
        readWait := readWait[1..];
        woken := woken + {t};
      }
    }

    method WakeWriters()
      requires Valid()
      modifies this`writeWait, this`woken
      ensures Valid() && View() == WakeAllWriters(old(View()))
    {
      while writeWait != []
        invariant Members(writeWait) + woken == old(Members(writeWait)) + old(woken)
        decreases |writeWait|
      {
        var t := writeWait[0];
        assert Members(writeWait) == Members(writeWait[1..]) + {t} by {
          assert writeWait == [t] + writeWait[1..];
        }
        writeWait := writeWait[1..];
        woken := woken + {t};
      }
    }

    method WakeReader()
      requires Valid()
      modifies this`readWait, this`woken
      ensures Valid() && View() == WakeOneReader(old(View()))
    {
      if readWait != [] {
        woken := woken + {readWait[0]};
        readWait := readWait[1..];
      }
    }

    method WakeWriter()
      requires Valid()
      modifies this`writeWait, this`woken
      ensures Valid() && View() == WakeOneWriter(old(View()))
    {
      if writeWait != [] {
        woken := woken + {writeWait[0]};
        writeWait := writeWait[1..];
      }
    }

    /** pipe_wait_push: at the end of the queue, unless the thread is on it. */
    method Enqueued(q: seq<Tid>, t: Tid) returns (r: seq<Tid>)
      ensures r == Push(q, t)
    {
      var i := 0;
      while i < |q|
        invariant 0 <= i <= |q| && t !in q[..i]
      {
        if q[i] == t {
          return q;
        }
        i := i + 1;
      }
      assert q[..|q|] == q;
      r := q + [t];
    }

    /** pipe_wait_remove: the first entry of the thread is unlinked. */
    method Unqueued(q: seq<Tid>, t: Tid) returns (r: seq<Tid>)
      ensures r == Without(q, t)
    {
      var i := 0;
      while i < |q|
        invariant 0 <= i <= |q| && t !in q[..i]
      {
        if q[i] == t {
          WithoutAt(q, t, i);
          return q[..i] + q[i + 1..];
        }
        i := i + 1;
      }
      assert q[..|q|] == q;
      WithoutNone(q, t);
      r := q;
    }

    /** The tail of pipe_sleep_locked: the thread that ran again leaves its queue. */
    method AwakeRead(t: Tid)
      requires Valid()
      modifies this`readWait, this`woken
      ensures Valid() && View() == AwakeOnRead(old(View()), t)
    {
      woken := woken - {t};
      readWait := Unqueued(readWait, t);
    }

    method AwakeWrite(t: Tid)
      requires Valid()
      modifies this`writeWait, this`woken
      ensures Valid() && View() == AwakeOnWrite(old(View()), t)
    {
      woken := woken - {t};
      writeWait := Unqueued(writeWait, t);
    }

    method SleepRead(t: Tid, env: Env) returns (r: SleepStart)
      requires Valid()
      modifies this`readWait
      ensures Valid() && View() == SleepOnRead(old(View()), t, env) && r == SleepOutcome(env)
    {
      if !env.haveThread {
        return Refused(EAGAIN);
      }
      if env.signal {
        return Refused(EINTR);
      }
      readWait := Enqueued(readWait, t);
      return Asleep;
    }

    method SleepWrite(t: Tid, env: Env) returns (r: SleepStart)
      requires Valid()
      modifies this`writeWait
      ensures Valid() && View() == SleepOnWrite(old(View()), t, env) && r == SleepOutcome(env)
    {
      if !env.haveThread {
        return Refused(EAGAIN);
      }
      if env.signal {
        return Refused(EINTR);
      }
      writeWait := Enqueued(writeWait, t);
      return Asleep;
    }

    /** pipe_read_user, from taking the lock to releasing it or falling asleep. */
    method EnterRead(t: Tid, total: nat, nonblock: bool, env: Env) returns (r: ReadEntry)
      requires Valid()
      modifies this`readWait
      ensures Valid() && View() == AfterReadEnter(old(View()), t, total, nonblock, env)
      ensures r == ReadEnter(old(View()), total, nonblock, env)
    {
      if count == 0 {
        if writers == 0 {
          return ReadReturns(Count(0));
        }
        if nonblock {
          return ReadReturns(Err(EAGAIN));
        }
        var s := SleepRead(t, env);
        match s {
          case Asleep => return ReadSleeps;
          case Refused(e) => return ReadReturns(Err(e));
        }
      }
      var length := if total < count then total else count;
      var bytes := Peek(length);
      return Snapshot(readSeq, bytes);
    }

    /** pipe_read_user after a faulting user copy. */
    method FaultRead()
      requires Valid()
      modifies this`readWait, this`woken
      ensures Valid() && View() == AfterReadFault(old(View()))
    {
      if count != 0 {
        WakeReaders();
      }
    }

    /** pipe_read_user after a complete user copy: commit unless another reader got
        in between. */
    method CommitRead(sequence: nat, length: nat) returns (ok: bool)
      requires Valid()
      requires readSeq == sequence ==> length <= count
      modifies this`readPos, this`count, this`readSeq, this`readWait, this`writeWait, this`woken
      ensures ok == (old(readSeq) == sequence)
      ensures Valid()
      ensures View() == if ok then AfterReadCommit(old(View()), length) else old(View())
    {
      if readSeq != sequence {
        return false;
      }
      Drop(length);
      WakeWriters();
      if count != 0 {
        WakeReaders();
      }
      return true;
    }

    /** pipe_write_user, the space check before staging. */
    method EnterWrite(t: Tid, total: nat, written: nat, nonblock: bool, env: Env) returns (r: WriteEntry)
      requires Valid() && written <= total
      modifies this`writeWait
      ensures Valid() && View() == AfterWriteEnter(old(View()), t, total, nonblock, env)
      ensures r == WriteEnter(old(View()), total, written, nonblock, env)
    {
      if readers == 0 {
        return WriteReturns(Partial(written, EPIPE));
      }
      var available := PIPE_BUFFER_SIZE - count;
      if available == 0 || (total <= PIPE_BUFFER_SIZE && available < total) {
        if nonblock {
          return WriteReturns(Partial(written, EAGAIN));
        }
        var s := SleepWrite(t, env);
        match s {
          case Asleep => return WriteSleeps;
          case Refused(e) => return WriteReturns(Partial(written, e));
        }
      }
      var length := total - written;
      if length > available {
        length := available;
      }
      return Stage(length);
    }

    method FaultWrite()
      requires Valid()
      modifies this`writeWait, this`woken
      ensures Valid() && View() == AfterWriteFault(old(View()))
    {
      if count < PIPE_BUFFER_SIZE {
        WakeWriters();
      }
    }

    /** pipe_write_user, one round of the commit loop for a staged chunk. */
    method CommitWrite(t: Tid, total: nat, written: nat, staged: seq<Byte>, nonblock: bool, env: Env)
      returns (r: WriteTry)
      requires Valid()
      modifies this`writePos, this`count, this`readWait, this`writeWait, this`woken, buffer
      ensures Valid() && View() == AfterWriteCommit(old(View()), t, total, written, staged, nonblock, env)
      ensures r == WriteCommit(old(View()), total, written, |staged|, nonblock, env)
    {
      if readers == 0 {
        return TryReturns(Partial(written, EPIPE));
      }
      var available := PIPE_BUFFER_SIZE - count;
      if available == 0 || (total <= PIPE_BUFFER_SIZE && available < |staged|) {
        if nonblock {
          return TryReturns(Partial(written, EAGAIN));
        }
        var s := SleepWrite(t, env);
        match s {
          case Asleep => return TrySleeps;
          case Refused(e) => return TryReturns(Partial(written, e));
        }
      }
      var length := |staged|;
      if length > available {
        length := available;
      }
      Store(staged[..length]);
      WakeReaders();
      if count < PIPE_BUFFER_SIZE {
        WakeWriters();
      }
      return Committed(length);
    }

    /** pipe_read: copy and commit in one critical section. */
    method KRead(t: Tid, len: nat, nonblock: bool) returns (r: KernelRead)
      requires Valid()
      modifies this`readPos, this`count, this`readSeq, this`readWait, this`writeWait, this`woken
      ensures Valid() && View() == AfterKernelRead(old(View()), t, len, nonblock)
      ensures r == KernelReadOutcome(old(View()), len, nonblock)
    {
      if count > 0 {
        var toRead := len;
        if toRead > count {
          toRead := count;
        }
        var bytes := Peek(toRead);
        Drop(toRead);
        WakeWriters();
        if count > 0 {
          WakeReader();
        }
        return Took(bytes);
      }
      if writers == 0 {
        return KReadReturns(Count(0));
      }
      if nonblock {
        return KReadReturns(Err(EAGAIN));
      }
      readWait := Enqueued(readWait, t);
      return KReadSleeps;
    }

    /** pipe_write, the bytes that fit. */
    method KPut(bytes: seq<Byte>)
      requires Valid() && count + |bytes| <= PIPE_BUFFER_SIZE
      modifies this`writePos, this`count, this`readWait, this`writeWait, this`woken, buffer
      ensures Valid() && View() == KernelPut(old(View()), bytes)
    {
      Store(bytes);
      WakeReader();
      if count < PIPE_BUFFER_SIZE {
        WakeWriter();
      }
    }

    /** pipe_write: one round of its loop. */
    method KWrite(t: Tid, data: seq<Byte>, written: nat, nonblock: bool) returns (r: KernelWrite)
      requires Valid() && written <= |data|
      modifies this`writePos, this`count, this`readWait, this`writeWait, this`woken, buffer
      ensures Valid() && View() == AfterKernelWrite(old(View()), t, data, written, nonblock)
      ensures r == KernelWriteOutcome(old(View()), |data|, written, nonblock)
    {
      if readers == 0 {
        return KWriteReturns(Err(EPIPE));
      }
      if count < PIPE_BUFFER_SIZE && (|data| > PIPE_BUFFER_SIZE || PIPE_BUFFER_SIZE - count >= |data|) {
        var toWrite := |data| - written;
        if toWrite > PIPE_BUFFER_SIZE - count {
          toWrite := PIPE_BUFFER_SIZE - count;
        }
        assert data[written..written + toWrite] == Take(Skip(data, written), toWrite);
        KPut(data[written..written + toWrite]);
        return Put(toWrite);
      }
      if nonblock {
        return KWriteReturns(Partial(written, EAGAIN));
      }
      writeWait := Enqueued(writeWait, t);
      return KWriteSleeps;
    }

    method ReleaseReader()
      requires Valid()
      modifies this`readers, this`writeWait, this`woken
      ensures Valid() && View() == AfterReadRelease(old(View()))
    {
      if readers > 0 {
        readers := readers - 1;
      }
      WakeWriters();
    }

    method ReleaseWriter()
      requires Valid()
      modifies this`writers, this`readWait, this`woken
      ensures Valid() && View() == AfterWriteRelease(old(View()))
    {
      if writers > 0 {
        writers := writers - 1;
      }
      WakeReaders();
    }
  }
}
