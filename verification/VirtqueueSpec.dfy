/**
 The split virtqueue of hal/virtqueue.c as a protocol between the driver and a
 device. The free descriptors form a stack, every submitted chain owns a block of
 descriptors, and the device takes chains in submission order and completes them in
 any order. Positions in the two rings are unbounded counters here; VirtqueueDriver
 ties them to the 16-bit indices and the ring slots.
 */
module VirtqueueSpec {
  import opened SinglyLinked

  type Cookie = nat

  /** One buffer of a chain, as handed to virtqueue_add_chain. */
  datatype Buf = Buf(addr: nat, len: nat, deviceWrites: bool)

  /** The descriptors of a submitted chain. `block` lists them last to first: its last
      element is the head. Buffer i is described by block[|block| - 1 - i]. */
  datatype Chain = Chain(block: seq<nat>, bufs: seq<Buf>, ticket: nat)

  /** Where a descriptor is: k-th from the bottom of the free stack, or k-th in the
      block of the chain with the given head. */
  datatype Place = InStack(k: nat) | InChain(head: nat, k: nat)

  datatype Queue = Queue(
    size: nat,
    stack: seq<nat>,             // free descriptors, top last
    chains: map<nat, Chain>,     // chains in flight, by head
    place: seq<Place>,           // for each descriptor, where it is
    submitted: seq<nat>,         // heads, by ticket
    cookies: seq<Cookie>,        // cookies, by ticket
    seen: nat,                   // chains the device has taken
    completed: seq<nat>,         // heads, in completion order
    collected: nat,              // completions the driver has consumed
    returned: seq<nat>)          // tickets, in the order they were returned

  function Init(size: nat): Queue
  {
    Queue(size, seq(size, i requires 0 <= i < size => size - 1 - i), map[],
          seq(size, i requires 0 <= i < size => InStack(size - 1 - i)), [], [], 0, [], 0, [])
  }

  // ---------------------------------------------------------------- the actions

  predicate CanSubmit(q: Queue, bufs: seq<Buf>)
  {
    1 <= |bufs| <= |q.stack|
  }

  /** The descriptors a chain of `n` buffers gets. */
  function TopBlock(q: Queue, n: nat): seq<nat>
    requires 1 <= n <= |q.stack|
  {
    q.stack[|q.stack| - n..]
  }

  function Top(q: Queue): nat
    requires q.stack != []
  {
    q.stack[|q.stack| - 1]
  }

  function Submit(q: Queue, bufs: seq<Buf>, cookie: Cookie): Queue
    requires CanSubmit(q, bufs)
  {
    var low := |q.stack| - |bufs|;
    var head := Top(q);
    q.(stack := q.stack[..low],
       chains := q.chains[head := Chain(TopBlock(q, |bufs|), bufs, |q.submitted|)],
       place := seq(|q.place|, x requires 0 <= x < |q.place| =>
                  if q.place[x].InStack? && q.place[x].k >= low
                  then InChain(head, q.place[x].k - low) else q.place[x]),
       submitted := q.submitted + [head],
       cookies := q.cookies + [cookie])
  }

  predicate CanTake(q: Queue)
  {
    q.seen < |q.submitted|
  }

  function Take(q: Queue): Queue
  {
    q.(seen := q.seen + 1)
  }

  /** The device holds the chain: taken and not yet completed. */
  predicate Held(q: Queue, head: nat)
  {
    && head in q.chains
    && q.chains[head].ticket < q.seen
    && q.collected <= |q.completed|
    && head !in q.completed[q.collected..]
  }

  function Complete(q: Queue, head: nat): Queue
  {
    q.(completed := q.completed + [head])
  }

  predicate CanCollect(q: Queue)
  {
    && q.collected < |q.completed|
    && q.completed[q.collected] in q.chains
  }

  function Collect(q: Queue): Queue
    requires CanCollect(q)
  {
    var head := q.completed[q.collected];
    var c := q.chains[head];
    q.(stack := q.stack + c.block,
       chains := q.chains - {head},
       place := seq(|q.place|, x requires 0 <= x < |q.place| =>
                  if q.place[x].InChain? && q.place[x].head == head
                  then InStack(|q.stack| + q.place[x].k) else q.place[x]),
       collected := q.collected + 1,
       returned := q.returned + [c.ticket])
  }

  // -------------------------------------------------------------- the invariant

  /** The free stack and the chains in flight partition the descriptors. */
  ghost predicate Partition(q: Queue)
  {
    && |q.place| == q.size
    && (forall k | 0 <= k < |q.stack| :: q.stack[k] < q.size && q.place[q.stack[k]] == InStack(k))
    && (forall h, k | h in q.chains && 0 <= k < |q.chains[h].block| ::
          q.chains[h].block[k] < q.size && q.place[q.chains[h].block[k]] == InChain(h, k))
    && (forall x | 0 <= x < q.size :: PlaceHolds(q, x))
  }

  ghost predicate PlaceHolds(q: Queue, x: nat)
    requires x < |q.place|
  {
    match q.place[x]
    case InStack(k) => k < |q.stack| && q.stack[k] == x
    case InChain(h, k) => h in q.chains && k < |q.chains[h].block| && q.chains[h].block[k] == x
  }

  ghost predicate ChainShape(h: nat, c: Chain)
  {
    && c.block != []
    && |c.bufs| == |c.block|
    && c.block[|c.block| - 1] == h
  }

  /** Each ticket is in flight or returned, never both, and returned at most once. */
  ghost predicate Tickets(q: Queue)
  {
    && |q.cookies| == |q.submitted|
    && |q.returned| == q.collected
    && (forall h | h in q.chains ::
          && ChainShape(h, q.chains[h])
          && q.chains[h].ticket < |q.submitted|
          && q.submitted[q.chains[h].ticket] == h
          && q.chains[h].ticket !in q.returned)
    && (forall i, j | 0 <= i < j < |q.returned| :: q.returned[i] != q.returned[j])
    && (forall t | t in q.returned :: t < |q.submitted|)
    && (forall t | 0 <= t < |q.submitted| :: t in q.returned || InFlight(q, t))
  }

  ghost predicate InFlight(q: Queue, t: nat)
    requires t < |q.submitted|
  {
    q.submitted[t] in q.chains && q.chains[q.submitted[t]].ticket == t
  }

  /** What the device has not read yet is in flight; what the driver has not collected
      yet is in flight, taken, and listed once. */
  ghost predicate Rings(q: Queue)
  {
    && q.seen <= |q.submitted|
    && q.collected <= |q.completed|
    && (forall t | q.seen <= t < |q.submitted| :: InFlight(q, t))
    && (forall j | q.collected <= j < |q.completed| ::
          q.completed[j] in q.chains && q.chains[q.completed[j]].ticket < q.seen)
    && (forall i, j | q.collected <= i < j < |q.completed| :: q.completed[i] != q.completed[j])
  }

  ghost predicate Inv(q: Queue)
  {
    Partition(q) && Tickets(q) && Rings(q)
  }

  lemma InitInv(size: nat)
    ensures Inv(Init(size))
  {
  }

  // -------------------------------------------------------------------- Submit

  lemma HeadIsBusy(q: Queue, h: nat)
    requires Inv(q) && h in q.chains
    ensures h < q.size && q.place[h].InChain?
  {
    var c := q.chains[h];
    assert ChainShape(h, c);
    assert c.block[|c.block| - 1] == h;
  }

  lemma FreshHead(q: Queue)
    requires Inv(q) && q.stack != []
    ensures Top(q) !in q.chains
  {
    assert q.place[Top(q)].InStack?;
    if Top(q) in q.chains {
      HeadIsBusy(q, Top(q));
    }
  }

  lemma SubmitPartition(q: Queue, bufs: seq<Buf>, cookie: Cookie)
    requires Inv(q) && CanSubmit(q, bufs)
    ensures Partition(Submit(q, bufs, cookie))
  {
    FreshHead(q);
    var q' := Submit(q, bufs, cookie);
    var head := Top(q);
    forall h, k | h in q'.chains && 0 <= k < |q'.chains[h].block|
      ensures q'.chains[h].block[k] < q.size && q'.place[q'.chains[h].block[k]] == InChain(h, k)
    {
      if h == head {
        var x := q'.chains[h].block[k];
        assert x == q.stack[|q.stack| - |bufs| + k];
      }
    }
    forall x | 0 <= x < q.size
      ensures PlaceHolds(q', x)
    {
      assert PlaceHolds(q, x);
    }
  }

  lemma SubmitTickets(q: Queue, bufs: seq<Buf>, cookie: Cookie)
    requires Inv(q) && CanSubmit(q, bufs)
    ensures Tickets(Submit(q, bufs, cookie)) && Rings(Submit(q, bufs, cookie))
  {
    FreshHead(q);
    var q' := Submit(q, bufs, cookie);
    forall t | 0 <= t < |q'.submitted|
      ensures t in q'.returned || InFlight(q', t)
      ensures q.seen <= t ==> InFlight(q', t)
    {
      if t < |q.submitted| {
        assert t in q.returned || InFlight(q, t);
        assert q.seen <= t ==> InFlight(q, t);
      }
    }
  }

  // ------------------------------------------------------------- Take, Complete

  /** The device's steps do not move descriptors or tickets. */
  lemma SameDescriptors(q: Queue, q': Queue)
    requires Partition(q) && Tickets(q)
    requires q' == q.(seen := q'.seen, completed := q'.completed)
    ensures Partition(q') && Tickets(q')
    ensures forall t | 0 <= t < |q.submitted| :: InFlight(q', t) == InFlight(q, t)
  {
    forall x | 0 <= x < q.size
      ensures PlaceHolds(q', x)
    {
      assert PlaceHolds(q, x);
    }
    forall t | 0 <= t < |q.submitted|
      ensures t in q'.returned || InFlight(q', t)
    {
      assert t in q.returned || InFlight(q, t);
    }
  }

  lemma TakeInv(q: Queue)
    requires Inv(q) && CanTake(q)
    ensures Inv(Take(q))
  {
    SameDescriptors(q, Take(q));
  }

  lemma CompleteInv(q: Queue, head: nat)
    requires Inv(q) && Held(q, head)
    ensures Inv(Complete(q, head))
  {
    var q' := Complete(q, head);
    forall j | q.collected <= j < |q.completed|
      ensures q'.completed[j] == q.completed[j] && q.completed[j] != head
    {
      assert q.completed[j] in q.completed[q.collected..];
    }
    SameDescriptors(q, q');
  }

  // -------------------------------------------------------------------- Collect

  lemma CollectPartition(q: Queue)
    requires Inv(q) && CanCollect(q)
    ensures Partition(Collect(q))
  {
    var q' := Collect(q);
    var head := q.completed[q.collected];
    forall k | 0 <= k < |q'.stack|
      ensures q'.stack[k] < q.size && q'.place[q'.stack[k]] == InStack(k)
    {
      if k >= |q.stack| {
        assert q'.stack[k] == q.chains[head].block[k - |q.stack|];
      }
    }
    forall x | 0 <= x < q.size
      ensures PlaceHolds(q', x)
    {
      assert PlaceHolds(q, x);
    }
  }

  lemma CollectTickets(q: Queue)
    requires Inv(q) && CanCollect(q)
    ensures Tickets(Collect(q))
  {
    var q' := Collect(q);
    var head := q.completed[q.collected];
    var t0 := q.chains[head].ticket;
    forall h | h in q'.chains
      ensures q'.chains[h].ticket !in q'.returned
    {
      assert q.submitted[q.chains[h].ticket] == h && q.submitted[t0] == head;
    }
    forall t | 0 <= t < |q'.submitted|
      ensures t in q'.returned || InFlight(q', t)
    {
      assert t in q.returned || InFlight(q, t);
      if t in q.returned {
        assert t in q'.returned;
      } else if q.submitted[t] == head {
        assert q'.returned[|q.returned|] == t;
      }
    }
  }

  lemma CollectRings(q: Queue)
    requires Inv(q) && CanCollect(q)
    ensures Rings(Collect(q))
  {
    var q' := Collect(q);
    var head := q.completed[q.collected];
    assert q.chains[head].ticket < q.seen;
    forall t | q.seen <= t < |q.submitted|
      ensures InFlight(q', t)
    {
      assert InFlight(q, t);
      assert q.submitted[t] != head;
    }
  }

  // ------------------------------------------------------------------ every run

  datatype Action =
    | DoSubmit(bufs: seq<Buf>, cookie: Cookie)
    | DoTake
    | DoComplete(head: nat)
    | DoCollect

  predicate Enabled(q: Queue, a: Action)
  {
    match a
    case DoSubmit(bufs, _) => CanSubmit(q, bufs)
    case DoTake => CanTake(q)
    case DoComplete(head) => Held(q, head)
    case DoCollect => CanCollect(q)
  }

  function Apply(q: Queue, a: Action): Queue
    requires Enabled(q, a)
  {
    match a
    case DoSubmit(bufs, cookie) => Submit(q, bufs, cookie)
    case DoTake => Take(q)
    case DoComplete(head) => Complete(q, head)
    case DoCollect => Collect(q)
  }

  predicate Runnable(q: Queue, acts: seq<Action>)
    decreases |acts|
  {
    acts == [] || (Enabled(q, acts[0]) && Runnable(Apply(q, acts[0]), acts[1..]))
  }

  function Exec(q: Queue, acts: seq<Action>): Queue
    requires Runnable(q, acts)
    decreases |acts|
  {
    if acts == [] then q else Exec(Apply(q, acts[0]), acts[1..])
  }

  lemma ActionInv(q: Queue, a: Action)
    requires Inv(q) && Enabled(q, a)
    ensures Inv(Apply(q, a)) && Apply(q, a).size == q.size
  {
    match a
    case DoSubmit(bufs, cookie) =>
      SubmitPartition(q, bufs, cookie);
      SubmitTickets(q, bufs, cookie);
    case DoTake => TakeInv(q);
    case DoComplete(head) => CompleteInv(q, head);
    case DoCollect =>
      CollectPartition(q);
      CollectTickets(q);
      CollectRings(q);
  }

  lemma {:induction false} RunInv(q: Queue, acts: seq<Action>)
    requires Inv(q) && Runnable(q, acts)
    ensures Inv(Exec(q, acts)) && Exec(q, acts).size == q.size
    decreases |acts|
  {
    if acts != [] {
      ActionInv(q, acts[0]);
      RunInv(Apply(q, acts[0]), acts[1..]);
    }
  }

  // ------------------------------------------------------------- the guarantees

  function Range(n: nat): (r: set<nat>)
    ensures forall x: nat :: x in r <==> x < n
    ensures |r| == n
  {
    if n == 0 then {} else Range(n - 1) + {n - 1}
  }

  function Elements(s: seq<nat>): (r: set<nat>)
    ensures forall x :: x in r <==> x in s
  {
    if s == [] then {} else Elements(s[..|s| - 1]) + {s[|s| - 1]}
  }

  lemma {:induction false} DistinctSize(s: seq<nat>)
    requires Distinct(s)
    ensures |Elements(s)| == |s|
  {
    if s != [] {
      DistinctSize(s[..|s| - 1]);
    }
  }

  lemma {:induction false} SubsetSize(a: set<nat>, b: set<nat>)
    requires a <= b
    ensures |a| <= |b|
  {
    if a != {} {
      var x :| x in a;
      SubsetSize(a - {x}, b - {x});
    }
  }

  /** Distinct numbers below n are at most n. */
  lemma PigeonHole(s: seq<nat>, n: nat)
    requires Distinct(s) && forall i | 0 <= i < |s| :: s[i] < n
    ensures |s| <= n
  {
    DistinctSize(s);
    SubsetSize(Elements(s), Range(n));
  }

  /** The available ring never holds more unread entries than it has slots, with one
      slot to spare for every free descriptor. */
  lemma UnreadFits(q: Queue)
    requires Inv(q)
    ensures |q.submitted| - q.seen + |q.stack| <= q.size
  {
    var unread := q.submitted[q.seen..];
    var all := unread + q.stack;
    forall i | 0 <= i < |unread|
      ensures unread[i] < q.size && q.place[unread[i]].InChain?
    {
      assert InFlight(q, q.seen + i);
      HeadIsBusy(q, unread[i]);
    }
    forall i, j | 0 <= i < j < |unread|
      ensures unread[i] != unread[j]
    {
      assert InFlight(q, q.seen + i) && InFlight(q, q.seen + j);
    }
    assert forall i | 0 <= i < |all| :: all[i] < q.size;
    assert Distinct(all);
    PigeonHole(all, q.size);
  }

  /** The used ring never holds more uncollected entries than it has slots, and there
      is a slot for every chain the device still holds. */
  lemma UncollectedFits(q: Queue)
    requires Inv(q)
    ensures |q.completed| - q.collected <= q.size
    ensures forall h: nat | Held(q, h) :: |q.completed| - q.collected < q.size
  {
    var pending := q.completed[q.collected..];
    forall i | 0 <= i < |pending|
      ensures pending[i] < q.size
    {
      HeadIsBusy(q, pending[i]);
    }
    PigeonHole(pending, q.size);
    forall h: nat | Held(q, h)
      ensures |pending| < q.size
    {
      HeadIsBusy(q, h);
      var more := pending + [h];
      PigeonHole(more, q.size);
    }
  }

  /** In every run: the free stack and the blocks in flight cover the descriptors
      exactly once, both rings fit, and the tickets are exactly the returned ones, each
      once, plus those in flight. */
  lemma EveryRun(size: nat, acts: seq<Action>)
    requires Runnable(Init(size), acts)
    ensures var q := Exec(Init(size), acts);
            && (forall x | 0 <= x < size ::
                  (x in q.stack) != (exists h :: h in q.chains && x in q.chains[h].block))
            && |q.submitted| - q.seen <= size
            && |q.completed| - q.collected <= size
            && Distinct(q.returned)
            && (forall t | 0 <= t < |q.submitted| :: (t in q.returned) != InFlight(q, t))
  {
    InitInv(size);
    RunInv(Init(size), acts);
    var q := Exec(Init(size), acts);
    UnreadFits(q);
    UncollectedFits(q);
    forall x | 0 <= x < size
      ensures (x in q.stack) != (exists h :: h in q.chains && x in q.chains[h].block)
    {
      assert PlaceHolds(q, x);
    }
  }
}
