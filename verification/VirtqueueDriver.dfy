/**
 The driver side of hal/virtqueue.c in memory: the next-free links, the descriptor
 table, the two rings and the wrapping 16-bit indices. Valid() couples them with a
 queue of VirtqueueSpec; each method performs one action of that protocol.
 */
module VirtqueueDriver {
  import opened Machine
  import opened VirtqueueSpec

  const END_OF_LIST: nat := 0xFFFF
  const F_NEXT: nat := 1
  const F_WRITE: nat := 2

  datatype Desc = Desc(addr: nat, len: nat, flags: nat, next: nat)

  datatype UsedElem = UsedElem(id: nat, len: nat)

  /** The F_NEXT bit of the flag word. */
  predicate HasNext(d: Desc)
  {
    d.flags % 2 == 1
  }

  // ------------------------------------------------------------------- coupling

  /** What the descriptor below position k of a stack is: the next free one. */
  ghost function Link(stack: seq<nat>, k: nat): nat
    requires k <= |stack|
  {
    if k == 0 then END_OF_LIST else stack[k - 1]
  }

  ghost predicate FreeOk(q: Queue, freeList: seq<nat>, freeHead: nat, numFree: nat)
  {
    && |freeList| == q.size
    && numFree == |q.stack|
    && freeHead == Link(q.stack, |q.stack|)
    && forall k {:trigger freeList[q.stack[k]]} | 0 <= k < |q.stack| ::
         q.stack[k] < q.size && freeList[q.stack[k]] == Link(q.stack, k)
  }

  /** Descriptor `d` describes position k of the chain's block. */
  ghost predicate Describes(d: Desc, block: seq<nat>, bufs: seq<Buf>, k: nat)
    requires k < |block| == |bufs|
  {
    var b := bufs[|block| - 1 - k];
    && d.addr == b.addr && d.len == b.len
    && d.flags == (if b.deviceWrites then F_WRITE else 0) + (if k > 0 then F_NEXT else 0)
    && (k > 0 ==> d.next == block[k - 1])
  }

  ghost predicate DescOk(q: Queue, desc: seq<Desc>)
  {
    && |desc| == q.size
    && forall h, k {:trigger desc[q.chains[h].block[k]]} | h in q.chains && 0 <= k < |q.chains[h].block| ::
         && |q.chains[h].bufs| == |q.chains[h].block|
         && q.chains[h].block[k] < q.size
         && Describes(desc[q.chains[h].block[k]], q.chains[h].block, q.chains[h].bufs, k)
  }

  ghost predicate DataOk(q: Queue, data: seq<Cookie>)
  {
    && |data| == q.size
    && forall h | h in q.chains ::
         h < q.size && q.chains[h].ticket < |q.cookies| && data[h] == q.cookies[q.chains[h].ticket]
  }

  ghost predicate AvailOk(q: Queue, ring: seq<nat>, idx: nat)
  {
    && |ring| == q.size > 0
    && idx == |q.submitted| % U16
    && forall t | q.seen <= t < |q.submitted| :: ring[t % q.size] == q.submitted[t]
  }

  ghost predicate UsedOk(q: Queue, ring: seq<UsedElem>, idx: nat, last: nat)
  {
    && |ring| == q.size > 0
    && idx == |q.completed| % U16
    && last == q.collected % U16
    && forall j | q.collected <= j < |q.completed| :: ring[j % q.size].id == q.completed[j]
  }

  /** What the device finds from a descriptor on, following the links: these buffers. */
  ghost predicate DeviceReads(desc: seq<Desc>, d: nat, bufs: seq<Buf>)
    decreases |bufs|
  {
    && bufs != [] && d < |desc|
    && desc[d].addr == bufs[0].addr && desc[d].len == bufs[0].len
    && desc[d].flags == (if bufs[0].deviceWrites then 2 else 0) + (if |bufs| > 1 then 1 else 0)
    && (|bufs| > 1 ==> DeviceReads(desc, desc[d].next, bufs[1..]))
  }

  /** The device reads every chain in flight as the buffers that were handed in, in order. */
  lemma ChainReads(q: Queue, desc: seq<Desc>, h: nat)
    requires Tickets(q) && DescOk(q, desc) && h in q.chains
    ensures DeviceReads(desc, h, q.chains[h].bufs)
  {
    var c := q.chains[h];
    assert ChainShape(h, c);
    forall k | 0 <= k < |c.block|
      ensures c.block[k] < |desc| && Describes(desc[c.block[k]], c.block, c.bufs, k)
    {
      assert desc[q.chains[h].block[k]] == desc[c.block[k]];
    }
    ReadsFrom(desc, c.block, c.bufs, |c.block| - 1);
    assert c.bufs[0..] == c.bufs;
  }

  lemma {:induction false} ReadsFrom(desc: seq<Desc>, block: seq<nat>, bufs: seq<Buf>, k: nat)
    requires k < |block| == |bufs|
    requires forall j | 0 <= j < |block| :: block[j] < |desc| && Describes(desc[block[j]], block, bufs, j)
    ensures DeviceReads(desc, block[k], bufs[|block| - 1 - k..])
    decreases k
  {
    var rest := bufs[|block| - 1 - k..];
    if k > 0 {
      ReadsFrom(desc, block, bufs, k - 1);
      assert rest[1..] == bufs[|block| - k..];
    }
  }

  // ------------------------------------------------------- indices and ring slots

  lemma Pow2Of16()
    ensures Pow2(16) == U16 && Pow2(15) == 32768
  {
    assert Pow2(4) == 16;
    Pow2Splits(4, 8);
    assert Pow2(8) == 256;
    Pow2Splits(8, 16);
    assert Pow2(16) == 2 * Pow2(15);
  }

  /** The masked 16-bit index is the unbounded counter modulo the queue size. */
  lemma SlotOfIndex(count: nat, order: nat)
    requires order <= 15
    ensures BitAnd(count % U16, Pow2(order) - 1) == count % Pow2(order)
  {
    MaskIsMod(count % U16, order);
    Pow2Of16();
    Pow2Splits(order, 16);
    ModOfMod(count, Pow2(order), Pow2(16 - order));
  }

  lemma {:induction false} Pow2Splits(a: nat, b: nat)
    requires a <= b
    ensures Pow2(b) == Pow2(a) * Pow2(b - a)
  {
    if a > 0 {
      Pow2Splits(a - 1, b - 1);
    }
  }

  lemma {:induction false} Pow2Monotone(a: nat, b: nat)
    requires a <= b
    ensures Pow2(a) <= Pow2(b)
  {
    if a < b {
      Pow2Monotone(a, b - 1);
    }
  }

  /** Counters less than a ring apart use different slots. */
  lemma SlotsDiffer(t: nat, u: nat, size: nat)
    requires t < u < t + size
    ensures t % size != u % size
  {
    if t % size == u % size {
      var a, b := t / size, u / size;
      assert u - t == size * (b - a);
      if b - a <= 0 {
        MulOrder(size, 0, a - b);
      } else {
        MulOrder(size, 1, b - a);
      }
    }
  }

  /** With at most `size` entries outstanding, equal wrapped indices mean an empty ring. */
  lemma WrappedEqual(a: nat, b: nat)
    requires a <= b < a + U16
    ensures a % U16 == b % U16 <==> a == b
  {
  }

  lemma NextIndex(count: nat)
    ensures (count % U16 + 1) % U16 == (count + 1) % U16
  {
  }

  // ------------------------------------------------------------ coupling survives

  lemma SubmitFree(q: Queue, bufs: seq<Buf>, cookie: Cookie, freeList: seq<nat>, freeHead: nat)
    requires CanSubmit(q, bufs) && FreeOk(q, freeList, freeHead, |q.stack|)
    ensures var low := |q.stack| - |bufs|;
            FreeOk(Submit(q, bufs, cookie), freeList, Link(q.stack, low), low)
  {
    var q' := Submit(q, bufs, cookie);
    forall k | 0 <= k < |q'.stack|
      ensures q'.stack[k] < q.size && freeList[q'.stack[k]] == Link(q'.stack, k)
    {
      assert q'.stack[k] == q.stack[k];
      assert freeList[q.stack[k]] == Link(q.stack, k);
    }
  }

  lemma SubmitDesc(q: Queue, bufs: seq<Buf>, cookie: Cookie, desc: seq<Desc>, desc': seq<Desc>, rest: nat)
    requires Inv(q) && CanSubmit(q, bufs) && DescOk(q, desc) && |desc'| == q.size
    requires Refilled(desc', desc, bufs, Walk(TopBlock(q, |bufs|)), rest)
    ensures DescOk(Submit(q, bufs, cookie), desc')
  {
    FreshHead(q);
    TopPath(q, |bufs|);
    var q' := Submit(q, bufs, cookie);
    forall h, k | h in q'.chains && 0 <= k < |q'.chains[h].block|
      ensures q'.chains[h].block[k] < q.size
      ensures |q'.chains[h].bufs| == |q'.chains[h].block|
      ensures Describes(desc'[q'.chains[h].block[k]], q'.chains[h].block, q'.chains[h].bufs, k)
    {
      if h == Top(q) {
        FilledDescribes(desc', desc, bufs, TopBlock(q, |bufs|), rest, k);
      } else {
        assert q.place[q.chains[h].block[k]] == InChain(h, k);
        assert desc[q.chains[h].block[k]] == desc'[q.chains[h].block[k]];
      }
    }
  }

  lemma FilledDescribes(desc': seq<Desc>, desc: seq<Desc>, bufs: seq<Buf>, block: seq<nat>, rest: nat, k: nat)
    requires |block| == |bufs| && k < |block|
    requires Refilled(desc', desc, bufs, Walk(block), rest)
    ensures block[k] < |desc'| && Describes(desc'[block[k]], block, bufs, k)
  {
    var path, i := Walk(block), |block| - 1 - k;
    assert path[i] == block[k];
    assert Filled(desc'[path[i]], bufs, i, After(path, rest, i));
  }

  lemma SubmitData(q: Queue, bufs: seq<Buf>, cookie: Cookie, data: seq<Cookie>)
    requires Inv(q) && CanSubmit(q, bufs) && DataOk(q, data)
    ensures DataOk(Submit(q, bufs, cookie), data[Top(q) := cookie])
  {
    FreshHead(q);
  }

  /** Publishing a chain overwrites no slot the device has yet to read. */
  lemma SubmitAvail(q: Queue, bufs: seq<Buf>, cookie: Cookie, ring: seq<nat>, idx: nat)
    requires Inv(q) && CanSubmit(q, bufs) && AvailOk(q, ring, idx)
    ensures AvailOk(Submit(q, bufs, cookie), ring[|q.submitted| % q.size := Top(q)], (idx + 1) % U16)
  {
    var q' := Submit(q, bufs, cookie);
    var n := |q.submitted|;
    UnreadFits(q);
    NextIndex(n);
    forall t | q.seen <= t < n + 1
      ensures ring[n % q.size := Top(q)][t % q.size] == q'.submitted[t]
    {
      if t < n {
        SlotsDiffer(t, n, q.size);
      }
    }
  }

  lemma CompleteUsed(q: Queue, head: nat, ring: seq<UsedElem>, idx: nat, last: nat, len: nat)
    requires Inv(q) && Held(q, head) && UsedOk(q, ring, idx, last)
    ensures UsedOk(Complete(q, head), ring[|q.completed| % q.size := UsedElem(head, len)], (idx + 1) % U16, last)
  {
    var q' := Complete(q, head);
    var n := |q.completed|;
    UncollectedFits(q);
    NextIndex(n);
    forall j | q.collected <= j < n + 1
      ensures ring[n % q.size := UsedElem(head, len)][j % q.size].id == q'.completed[j]
    {
      if j < n {
        SlotsDiffer(j, n, q.size);
      }
    }
  }

  lemma CollectFree(q: Queue, freeList: seq<nat>, freeList': seq<nat>, freeHead: nat)
    requires Inv(q) && CanCollect(q) && FreeOk(q, freeList, freeHead, |q.stack|) && |freeList'| == q.size
    requires Relinked(freeList', freeList, Walk(q.chains[q.completed[q.collected]].block), freeHead)
    ensures var head := q.completed[q.collected];
            FreeOk(Collect(q), freeList', head, |q.stack| + |q.chains[head].block|)
  {
    var head := q.completed[q.collected];
    var c := q.chains[head];
    assert ChainShape(head, c);
    forall k | 0 <= k < |q.stack|
      ensures q.stack[k] < q.size && q.stack[k] !in Walk(c.block)
    {
      NotOnPath(q, head, k);
    }
    Continued(q.stack, c.block, freeList, freeList', freeHead);
    assert Collect(q).stack == q.stack + c.block;
  }

  /** The free list after a block was put in front of it. */
  lemma Continued(stack: seq<nat>, block: seq<nat>, freeList: seq<nat>, freeList': seq<nat>, freeHead: nat)
    requires freeHead == Link(stack, |stack|) && Relinked(freeList', freeList, Walk(block), freeHead)
    requires forall k | 0 <= k < |stack| :: stack[k] < |freeList| && stack[k] !in Walk(block)
    requires forall k {:trigger freeList[stack[k]]} | 0 <= k < |stack| :: freeList[stack[k]] == Link(stack, k)
    ensures forall k | 0 <= k < |stack + block| ::
              (stack + block)[k] < |freeList| && freeList'[(stack + block)[k]] == Link(stack + block, k)
  {
    OnPath(|freeList|, block, freeList', freeHead);
    forall k | 0 <= k < |stack + block|
      ensures (stack + block)[k] < |freeList| && freeList'[(stack + block)[k]] == Link(stack + block, k)
    {
      if k < |stack| {
        assert freeList[stack[k]] == Link(stack, k);
        KeptLink(stack, block, freeList, freeList', Walk(block), k);
      } else {
        RestoredLink(stack, block, freeList', freeHead, k - |stack|);
      }
    }
  }

  lemma NotOnPath(q: Queue, head: nat, k: nat)
    requires Inv(q) && head in q.chains && k < |q.stack|
    ensures q.stack[k] < q.size && q.stack[k] !in Walk(q.chains[head].block)
  {
    assert q.place[q.stack[k]] == InStack(k);
    ChainPath(q, head);
  }

  lemma OnPath(size: nat, block: seq<nat>, freeList: seq<nat>, rest: nat)
    requires |freeList| == size && Linked(freeList, Walk(block), rest)
    ensures forall i | 0 <= i < |block| :: block[i] < size
    ensures forall i | 0 <= i < |block| :: freeList[Walk(block)[i]] == After(Walk(block), rest, i)
  {
    forall i | 0 <= i < |block|
      ensures block[i] < size
    {
      assert block[i] == Walk(block)[|block| - 1 - i];
    }
  }

  lemma KeptLink(stack: seq<nat>, block: seq<nat>, freeList: seq<nat>, freeList': seq<nat>, path: seq<nat>, k: nat)
    requires k < |stack| && stack[k] < |freeList| == |freeList'| && stack[k] !in path
    requires forall x | 0 <= x < |freeList| && x !in path :: freeList'[x] == freeList[x]
    requires freeList[stack[k]] == Link(stack, k)
    ensures freeList'[(stack + block)[k]] == Link(stack + block, k)
  {
  }

  lemma TopIsFree(q: Queue)
    requires Inv(q) && q.stack != []
    ensures Top(q) < q.size && Top(q) == Link(q.stack, |q.stack|)
  {
    assert q.place[q.stack[|q.stack| - 1]] == InStack(|q.stack| - 1);
  }

  /** A released block continues the stack below it. */
  lemma RestoredLink(stack: seq<nat>, block: seq<nat>, freeList: seq<nat>, freeHead: nat, j: nat)
    requires j < |block| && freeHead == Link(stack, |stack|)
    requires forall i | 0 <= i < |block| :: block[i] < |freeList|
    requires var path := Walk(block);
             freeList[path[|block| - 1 - j]] == After(path, freeHead, |block| - 1 - j)
    ensures freeList[(stack + block)[|stack| + j]] == Link(stack + block, |stack| + j)
  {
  }

  lemma CollectRest(q: Queue, desc: seq<Desc>, data: seq<Cookie>, x: Cookie)
    requires Inv(q) && CanCollect(q) && DescOk(q, desc) && DataOk(q, data)
    ensures DescOk(Collect(q), desc)
    ensures DataOk(Collect(q), data[q.completed[q.collected] := x])
  {
  }

  lemma CollectRingsOk(q: Queue, avail: seq<nat>, ai: nat, used: seq<UsedElem>, ui: nat, last: nat)
    requires Inv(q) && CanCollect(q) && AvailOk(q, avail, ai) && UsedOk(q, used, ui, last)
    ensures AvailOk(Collect(q), avail, ai) && UsedOk(Collect(q), used, ui, (last + 1) % U16)
  {
    NextIndex(q.collected);
  }

  // -------------------------------------------------------------- the two loops

  /** `path` lists distinct descriptors, in the order a walk visits them. */
  ghost predicate Path(path: seq<nat>, size: nat)
  {
    && path != []
    && (forall i | 0 <= i < |path| :: path[i] < size)
    && (forall i, j | 0 <= i < j < |path| :: path[i] != path[j])
  }

  /** The walk's successor of position i; `rest` follows the last. */
  ghost function After(path: seq<nat>, rest: nat, i: nat): nat
    requires i < |path|
  {
    if i + 1 < |path| then path[i + 1] else rest
  }

  /** A descriptor filled for buffer i of a chain. */
  ghost predicate Filled(d: Desc, bufs: seq<Buf>, i: nat, next: nat)
    requires i < |bufs|
  {
    && d.addr == bufs[i].addr && d.len == bufs[i].len
    && d.flags == (if bufs[i].deviceWrites then F_WRITE else 0) + (if i < |bufs| - 1 then F_NEXT else 0)
    && (i < |bufs| - 1 ==> d.next == next)
  }

  /** The free list follows the path and then `rest`. */
  ghost predicate Linked(freeList: seq<nat>, path: seq<nat>, rest: nat)
  {
    && Path(path, |freeList|)
    && forall i {:trigger freeList[path[i]]} | 0 <= i < |path| :: freeList[path[i]] == After(path, rest, i)
  }

  /** The free list follows the path and then `rest`, and is as before elsewhere. */
  ghost predicate Relinked(freeList': seq<nat>, freeList: seq<nat>, path: seq<nat>, rest: nat)
  {
    && |freeList'| == |freeList|
    && Linked(freeList', path, rest)
    && forall x | 0 <= x < |freeList| && x !in path :: freeList'[x] == freeList[x]
  }

  /** The descriptors on the path describe the buffers, and the others are as before. */
  ghost predicate Refilled(desc': seq<Desc>, desc: seq<Desc>, bufs: seq<Buf>, path: seq<nat>, rest: nat)
  {
    && |desc'| == |desc| && Path(path, |desc|) && |path| == |bufs|
    && (forall i {:trigger desc'[path[i]]} | 0 <= i < |path| ::
          Filled(desc'[path[i]], bufs, i, After(path, rest, i)))
    && (forall x | 0 <= x < |desc| && x !in path :: desc'[x] == desc[x])
  }

  /** Following F_NEXT from the first descriptor of the path visits the path. */
  ghost predicate Chained(desc: seq<Desc>, path: seq<nat>)
  {
    && Path(path, |desc|)
    && forall i {:trigger desc[path[i]]} | 0 <= i < |path| ::
         && (HasNext(desc[path[i]]) <==> i + 1 < |path|)
         && (i + 1 < |path| ==> desc[path[i]].next == path[i + 1])
  }

  /** The loop of virtqueue_add_chain: take descriptors off the free list and fill
      them, linking each to the next one taken. */
  method FillDescriptors(freeList: array<nat>, desc: array<Desc>, head: nat, bufs: seq<Buf>,
                         ghost path: seq<nat>, ghost rest: nat)
    returns (freeHead: nat)
    requires freeList.Length == desc.Length && |path| == |bufs|
    requires Linked(freeList[..], path, rest) && head == path[0]
    modifies desc
    ensures freeHead == rest
    ensures Refilled(desc[..], old(desc[..]), bufs, path, rest)
  {
    freeHead := head;
    var i := 0;
    while i < |bufs|
      invariant 0 <= i <= |bufs|
      invariant freeHead == if i < |path| then path[i] else rest
      invariant forall k {:trigger desc[path[k]]} | 0 <= k < i ::
                  Filled(desc[path[k]], bufs, k, After(path, rest, k))
      invariant forall x | 0 <= x < desc.Length && x !in path :: desc[x] == old(desc[x])
    {
      var current := freeHead;
      assert freeList[..][path[i]] == After(path, rest, i);
      freeHead := freeList[current];
      var flags := 0;
      if bufs[i].deviceWrites {
        flags := flags + F_WRITE;
      }
      if i < |bufs| - 1 {
        desc[current] := Desc(bufs[i].addr, bufs[i].len, flags + F_NEXT, freeHead);
      } else {
        desc[current] := Desc(bufs[i].addr, bufs[i].len, flags, desc[current].next);
      }
      i := i + 1;
    }
  }

  /** The loop of virtqueue_get_used: walk the chain, copying its links into the free
      list, and hang the old free list off its end. */
  method ReleaseChain(freeList: array<nat>, desc: array<Desc>, head: nat, freeHead: nat, ghost path: seq<nat>)
    returns (count: nat)
    requires freeList.Length == desc.Length
    requires Chained(desc[..], path) && head == path[0]
    modifies freeList
    ensures count == |path|
    ensures Relinked(freeList[..], old(freeList[..]), path, freeHead)
  {
    var current := head;
    count := 1;
    NextFlag(desc[current]);
    while BitAnd(desc[current].flags, F_NEXT) != 0
      invariant 1 <= count <= |path| && current == path[count - 1]
      invariant BitAnd(desc[current].flags, F_NEXT) != 0 <==> HasNext(desc[current])
      invariant forall k {:trigger freeList[path[k]]} | 0 <= k < count - 1 :: freeList[path[k]] == path[k + 1]
      invariant forall x | 0 <= x < freeList.Length && x !in path :: freeList[x] == old(freeList[x])
      decreases |path| - count
    {
      assert HasNext(desc[..][path[count - 1]]);
      var next := desc[current].next;
      freeList[current] := next;
      current := next;
      count := count + 1;
      NextFlag(desc[current]);
    }
    assert !HasNext(desc[..][path[count - 1]]);
    freeList[current] := freeHead;
  }

  method StoreAt(a: array<nat>, i: nat, x: nat)
    requires i < a.Length
    modifies a
    ensures a[..] == old(a[..])[i := x]
  {
    a[i] := x;
  }

  /** A block, in the order its chain is walked. */
  ghost function Walk(block: seq<nat>): (path: seq<nat>)
    ensures |path| == |block| && forall i | 0 <= i < |path| :: path[i] == block[|block| - 1 - i]
  {
    seq(|block|, i requires 0 <= i < |block| => block[|block| - 1 - i])
  }

  lemma TopPath(q: Queue, n: nat)
    requires Inv(q) && 1 <= n <= |q.stack|
    ensures Path(Walk(TopBlock(q, n)), q.size)
    ensures forall x | 0 <= x < q.size :: x in Walk(TopBlock(q, n)) <==> q.place[x].InStack? && q.place[x].k >= |q.stack| - n
  {
    var low, path := |q.stack| - n, Walk(TopBlock(q, n));
    assert forall i | 0 <= i < n :: path[i] == q.stack[|q.stack| - 1 - i];
    assert forall i | 0 <= i < n :: q.place[path[i]] == InStack(|q.stack| - 1 - i);
    forall x | 0 <= x < q.size
      ensures x in path <==> q.place[x].InStack? && q.place[x].k >= low
    {
      assert PlaceHolds(q, x);
      if q.place[x].InStack? && q.place[x].k >= low {
        assert path[|q.stack| - 1 - q.place[x].k] == x;
      }
    }
  }

  lemma TopLinks(q: Queue, freeList: seq<nat>, freeHead: nat, numFree: nat, n: nat)
    requires Inv(q) && 1 <= n <= |q.stack| && FreeOk(q, freeList, freeHead, numFree)
    ensures var path := Walk(TopBlock(q, n));
            path[0] == freeHead && Linked(freeList, path, Link(q.stack, |q.stack| - n))
  {
    var path := Walk(TopBlock(q, n));
    TopPath(q, n);
    forall i | 0 <= i < n
      ensures path[i] < q.size && freeList[path[i]] == After(path, Link(q.stack, |q.stack| - n), i)
    {
      var k := |q.stack| - 1 - i;
      TopAt(q, n, i);
      assert freeList[q.stack[k]] == Link(q.stack, k);
      if i + 1 < n {
        TopAt(q, n, i + 1);
      }
    }
    TopAt(q, n, 0);
  }

  lemma TopAt(q: Queue, n: nat, i: nat)
    requires i < n <= |q.stack|
    ensures |Walk(TopBlock(q, n))| == n && Walk(TopBlock(q, n))[i] == q.stack[|q.stack| - 1 - i]
  {
  }

  lemma ChainPath(q: Queue, h: nat)
    requires Inv(q) && h in q.chains
    ensures var path := Walk(q.chains[h].block);
            Path(path, q.size) && path[0] == h
            && forall x | 0 <= x < q.size :: x in path <==> q.place[x].InChain? && q.place[x].head == h
  {
    var c := q.chains[h];
    var path := Walk(c.block);
    assert ChainShape(h, c);
    assert forall i | 0 <= i < |path| :: q.place[path[i]] == InChain(h, |c.block| - 1 - i);
    forall x | 0 <= x < q.size
      ensures x in path <==> q.place[x].InChain? && q.place[x].head == h
    {
      assert PlaceHolds(q, x);
      if q.place[x].InChain? && q.place[x].head == h {
        assert path[|c.block| - 1 - q.place[x].k] == x;
      }
    }
  }

  lemma ChainLinks(q: Queue, desc: seq<Desc>, h: nat)
    requires Inv(q) && h in q.chains && DescOk(q, desc)
    ensures var path := Walk(q.chains[h].block);
            Chained(desc, path) && path[0] == h
  {
    var c := q.chains[h];
    var path := Walk(c.block);
    ChainPath(q, h);
    assert ChainShape(h, c);
    forall i | 0 <= i < |path|
      ensures path[i] < q.size
      ensures HasNext(desc[path[i]]) <==> i + 1 < |path|
      ensures i + 1 < |path| ==> desc[path[i]].next == path[i + 1]
    {
      var k := |path| - 1 - i;
      assert path[i] == c.block[k];
      assert Describes(desc[c.block[k]], c.block, c.bufs, k);
    }
  }

  /** Masking the flag word with F_NEXT tests its lowest bit. */
  lemma NextFlag(d: Desc)
    ensures BitAnd(d.flags, F_NEXT) != 0 <==> HasNext(d)
  {
    MaskIsMod(d.flags, 1);
    assert Pow2(1) == 2;
  }

  // ------------------------------------------------------------ the whole memory

  /** The memory of a virtqueue, as a value. */
  datatype Memory = Memory(
    freeList: seq<nat>, desc: seq<Desc>, data: seq<Cookie>, avail: seq<nat>, used: seq<UsedElem>,
    freeHead: nat, numFree: nat, availIdx: nat, usedIdx: nat, lastUsedIdx: nat, deviceIdx: nat)

  ghost predicate Coupled(q: Queue, m: Memory)
  {
    && Inv(q)
    && FreeOk(q, m.freeList, m.freeHead, m.numFree)
    && DescOk(q, m.desc)
    && DataOk(q, m.data)
    && AvailOk(q, m.avail, m.availIdx)
    && UsedOk(q, m.used, m.usedIdx, m.lastUsedIdx)
    && m.deviceIdx == q.seen % U16
  }

  lemma SubmitCoupled(q: Queue, m: Memory, bufs: seq<Buf>, cookie: Cookie, m': Memory)
    requires Coupled(q, m) && CanSubmit(q, bufs)
    requires |m'.desc| == q.size
    requires var path := Walk(TopBlock(q, |bufs|));
             var rest := Link(q.stack, |q.stack| - |bufs|);
             && Refilled(m'.desc, m.desc, bufs, path, rest)
             && m' == m.(desc := m'.desc, data := m.data[Top(q) := cookie],
                         avail := m.avail[|q.submitted| % q.size := Top(q)],
                         freeHead := rest, numFree := m.numFree - |bufs|,
                         availIdx := (m.availIdx + 1) % U16)
    ensures Coupled(Submit(q, bufs, cookie), m')
  {
    SubmitFree(q, bufs, cookie, m.freeList, m.freeHead);
    SubmitDesc(q, bufs, cookie, m.desc, m'.desc, m'.freeHead);
    SubmitData(q, bufs, cookie, m.data);
    SubmitAvail(q, bufs, cookie, m.avail, m.availIdx);
    SubmitPartition(q, bufs, cookie);
    SubmitTickets(q, bufs, cookie);
  }

  lemma CollectCoupled(q: Queue, m: Memory, m': Memory)
    requires Coupled(q, m) && CanCollect(q) && |m'.freeList| == q.size
    requires var head := q.completed[q.collected];
             var path := Walk(q.chains[head].block);
             && Relinked(m'.freeList, m.freeList, path, m.freeHead)
             && m' == m.(freeList := m'.freeList, data := m.data[head := 0],
                         freeHead := head, numFree := m.numFree + |path|,
                         lastUsedIdx := (m.lastUsedIdx + 1) % U16)
    ensures Coupled(Collect(q), m')
  {
    CollectFree(q, m.freeList, m'.freeList, m.freeHead);
    CollectRest(q, m.desc, m.data, 0);
    CollectRingsOk(q, m.avail, m.availIdx, m.used, m.usedIdx, m.lastUsedIdx);
    CollectPartition(q);
    CollectTickets(q);
    CollectRings(q);
  }

  lemma TakenChain(q: Queue, m: Memory)
    requires Coupled(q, m) && CanTake(q)
    ensures var head := q.submitted[q.seen];
            && head in q.chains && q.chains[head].ticket == q.seen
            && DeviceReads(m.desc, head, q.chains[head].bufs)
  {
    assert InFlight(q, q.seen);
    ChainReads(q, m.desc, q.submitted[q.seen]);
  }

  lemma TakeCoupled(q: Queue, m: Memory)
    requires Coupled(q, m) && CanTake(q)
    ensures Coupled(Take(q), m.(deviceIdx := (m.deviceIdx + 1) % U16))
  {
    TakeInv(q);
    NextIndex(q.seen);
  }

  lemma CompleteCoupled(q: Queue, m: Memory, head: nat, len: nat)
    requires Coupled(q, m) && Held(q, head)
    ensures Coupled(Complete(q, head),
                    m.(used := m.used[|q.completed| % q.size := UsedElem(head, len)],
                       usedIdx := (m.usedIdx + 1) % U16))
  {
    CompleteInv(q, head);
    CompleteUsed(q, head, m.used, m.usedIdx, m.lastUsedIdx, len);
  }

  /** The empty-ring test of virtqueue_get_used is exact. */
  lemma EmptyTest(q: Queue, m: Memory, order: nat)
    requires Coupled(q, m) && order <= 15 && q.size == Pow2(order)
    ensures m.lastUsedIdx == m.usedIdx <==> q.collected == |q.completed|
    ensures CanCollect(q) <==> q.collected < |q.completed|
  {
    UncollectedFits(q);
    Pow2Monotone(order, 15);
    Pow2Of16();
    WrappedEqual(q.collected, |q.completed|);
  }

  // ------------------------------------------------------------------- the driver

  class Driver {
    const queueSize: nat
    const freeList: array<nat>
    const desc: array<Desc>
    const data: array<Cookie>
    const availRing: array<nat>
    const usedRing: array<UsedElem>
    var freeHead: nat
    var numFree: nat
    var availIdx: nat
    var usedIdx: nat
    var lastUsedIdx: nat
    var deviceIdx: nat  // the device's own position in the available ring

    ghost const order: nat
    ghost var q: Queue

    ghost function View(): Memory
      reads this, freeList, desc, data, availRing, usedRing
    {
      Memory(freeList[..], desc[..], data[..], availRing[..], usedRing[..],
             freeHead, numFree, availIdx, usedIdx, lastUsedIdx, deviceIdx)
    }

    ghost predicate Valid()
      reads this, freeList, desc, data, availRing, usedRing
    {
      && order <= 15 && queueSize == Pow2(order) && q.size == queueSize
      && freeList != availRing && freeList != data && data != availRing
      && Coupled(q, View())
    }

    /** virtqueue_create. The queue size must be a power of two. */
    constructor (size: nat, ghost k: nat)
      requires k <= 15 && size == Pow2(k)
      ensures Valid() && q == Init(size)
      ensures fresh(freeList) && fresh(desc) && fresh(data) && fresh(availRing) && fresh(usedRing)
    {
      queueSize, order := size, k;
      freeHead, numFree, availIdx, usedIdx, lastUsedIdx, deviceIdx := 0, size, 0, 0, 0, 0;
      var links := new nat[size](_ => 0);
      var i := 0;
      while i < size - 1
        invariant 0 <= i <= size - 1
        invariant forall x | 0 <= x < i :: links[x] == x + 1
      {
        links[i] := i + 1;
        i := i + 1;
      }
      links[size - 1] := END_OF_LIST;
      freeList := links;
      desc := new Desc[size](_ => Desc(0, 0, 0, 0));
      data := new Cookie[size](_ => 0);
      availRing := new nat[size](_ => 0);
      usedRing := new UsedElem[size](_ => UsedElem(0, 0));
      q := Init(size);
      new;
      InitInv(size);
    }

    /** Take the protocol state the memory now stands for. */
    ghost method MoveTo(q': Queue)
      requires order <= 15 && queueSize == Pow2(order) && q'.size == queueSize
      requires freeList != availRing && freeList != data && data != availRing
      requires Coupled(q', View())
      modifies this`q
      ensures Valid() && q == q'
    {
      q := q';
    }

    /** virtqueue_add_chain. */
    method AddChain(bufs: seq<Buf>, cookie: Cookie) returns (ok: bool)
      requires Valid()
      modifies this`freeHead, this`numFree, this`availIdx, this`q, desc, data, availRing
      ensures Valid()
      ensures ok <==> 0 < |bufs| <= |old(q).stack|
      ensures q == if ok then Submit(old(q), bufs, cookie) else old(q)
      ensures ok ==>
                && q.submitted == old(q).submitted + [old(freeHead)] && q.cookies == old(q).cookies + [cookie]
                && DeviceReads(desc[..], old(freeHead), bufs)
                && availRing[|old(q).submitted| % queueSize] == old(freeHead)
      ensures !ok ==> desc[..] == old(desc[..]) && data[..] == old(data[..]) && availRing[..] == old(availRing[..])
    {
      var num := |bufs|;
      if numFree < num || num == 0 {
        return false;
      }
      TopIsFree(q);
      Publish(bufs, cookie);
      ChainReads(q, desc[..], q.submitted[|q.submitted| - 1]);
      return true;
    }

    /** The rest of virtqueue_add_chain: fill the descriptors, keep the cookie, and
        make the head available. */
    method Publish(bufs: seq<Buf>, cookie: Cookie)
      requires Valid() && CanSubmit(q, bufs)
      modifies this`freeHead, this`numFree, this`availIdx, this`q, desc, data, availRing
      ensures Valid() && q == Submit(old(q), bufs, cookie)
    {
      var head := freeHead;
      ghost var m := View();
      var slot := AvailSlot();
      TopIsFree(q);
      Fill(bufs);
      Announce(head, slot, cookie);
      SubmitCoupled(q, m, bufs, cookie, View());
      MoveTo(Submit(q, bufs, cookie));
    }

    method AvailSlot() returns (slot: nat)
      requires Valid()
      ensures slot == |q.submitted| % q.size < q.size
    {
      SlotOfIndex(|q.submitted|, order);
      slot := BitAnd(availIdx, queueSize - 1);
    }

    /** Keep the cookie and put the head into the available ring. */
    method Announce(head: nat, slot: nat, cookie: Cookie)
      requires head < data.Length && slot < availRing.Length
      requires freeList != availRing && freeList != data && data != availRing
      modifies this`availIdx, data, availRing
      ensures View() == old(View()).(data := old(data[..])[head := cookie], avail := old(availRing[..])[slot := head],
                                     availIdx := (old(availIdx) + 1) % U16)
    {
      StoreAt(data, head, cookie);
      StoreAt(availRing, slot, head);
      availIdx := (availIdx + 1) % U16;
    }

    method Fill(bufs: seq<Buf>)
      requires Valid() && CanSubmit(q, bufs)
      modifies this`freeHead, this`numFree, desc
      ensures var rest := Link(q.stack, |q.stack| - |bufs|);
              && View() == old(View()).(desc := desc[..], freeHead := rest, numFree := old(numFree) - |bufs|)
              && Refilled(desc[..], old(desc[..]), bufs, Walk(TopBlock(q, |bufs|)), rest)
    {
      TopLinks(q, freeList[..], freeHead, numFree, |bufs|);
      numFree := numFree - |bufs|;
      ghost var path, rest := Walk(TopBlock(q, |bufs|)), Link(q.stack, |q.stack| - |bufs|);
      freeHead := FillDescriptors(freeList, desc, freeHead, bufs, path, rest);
    }

    /** virtqueue_get_used. */
    method GetUsed() returns (found: bool, cookie: Cookie, len: nat)
      requires Valid()
      modifies this`freeHead, this`numFree, this`lastUsedIdx, this`q, freeList, data
      ensures Valid()
      ensures found <==> old(q).collected < |old(q).completed|
      ensures q == if found then Collect(old(q)) else old(q)
      ensures found ==> cookie == old(q).cookies[q.returned[|q.returned| - 1]]
      ensures found ==> len == old(usedRing[q.collected % queueSize].len)
    {
      EmptyTest(q, View(), order);
      if lastUsedIdx == usedIdx {
        return false, 0, 0;
      }
      SlotOfIndex(q.collected, order);
      var slot := BitAnd(lastUsedIdx, queueSize - 1);
      len := usedRing[slot].len;
      cookie := Recycle(usedRing[slot].id);
      found := true;
    }

    /** The rest of virtqueue_get_used: hand out the cookie, free the chain, advance. */
    method Recycle(id: nat) returns (cookie: Cookie)
      requires Valid() && CanCollect(q) && id == q.completed[q.collected]
      modifies this`freeHead, this`numFree, this`lastUsedIdx, this`q, freeList, data
      ensures Valid() && q == Collect(old(q))
      ensures cookie == old(q).cookies[old(q).chains[id].ticket]
    {
      ghost var m, path := View(), Walk(q.chains[id].block);
      ChainLinks(q, m.desc, id);
      cookie := data[id];
      data[id] := 0;
      var count := ReleaseChain(freeList, desc, id, freeHead, path);
      freeHead := id;
      numFree := numFree + count;
      lastUsedIdx := (lastUsedIdx + 1) % U16;
      CollectCoupled(q, m, View());
      MoveTo(Collect(q));
    }

    /** The device reads the next entry of the available ring. */
    method DeviceTake() returns (head: nat)
      requires Valid() && CanTake(q)
      modifies this`deviceIdx, this`q
      ensures Valid() && q == Take(old(q))
      ensures head == q.submitted[old(q).seen] && head in q.chains && q.chains[head].ticket == old(q).seen
      ensures DeviceReads(desc[..], head, q.chains[head].bufs)
    {
      TakenChain(q, View());
      TakeCoupled(q, View());
      SlotOfIndex(q.seen, order);
      head := availRing[BitAnd(deviceIdx, queueSize - 1)];
      deviceIdx := (deviceIdx + 1) % U16;
      q := Take(q);
    }

    method StoreUsed(slot: nat, e: UsedElem)
      requires slot < usedRing.Length
      modifies this`usedIdx, usedRing
      ensures usedRing[..] == old(usedRing[..])[slot := e] && usedIdx == (old(usedIdx) + 1) % U16
    {
      usedRing[slot] := e;
      usedIdx := (usedIdx + 1) % U16;
    }

    /** The device reports a chain it holds as used, in any order. */
    method DeviceComplete(head: nat, len: nat)
      requires Valid() && Held(q, head)
      modifies this`usedIdx, this`q, usedRing
      ensures Valid() && q == Complete(old(q), head)
    {
      ghost var m := View();
      CompleteCoupled(q, m, head, len);
      SlotOfIndex(|q.completed|, order);
      var slot := BitAnd(usedIdx, queueSize - 1);
      StoreUsed(slot, UsedElem(head, len));
      assert View() == m.(used := m.used[slot := UsedElem(head, len)], usedIdx := (m.usedIdx + 1) % U16);
      MoveTo(Complete(q, head));
    }
  }
}
