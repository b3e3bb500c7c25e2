/**
 The namespace guard of fs/vfs.c (an owner word taken by compare-and-swap, with a plain
 nesting depth) and the reference count of an open file, for any number of threads. Each
 step is one access to shared memory, so every interleaving is a run.
 */
module VfsGuard {
  import opened Machine

  /** What a thread does once it has the guard. */
  datatype Then = Return | Close

  /** Where a thread is. PutLoop holds the count that vfs_put last loaded. */
  datatype Pc =
    | Idle
    | Check(next: Then)        // vfs_namespace_lock: is the owner this thread?
    | Bump(next: Then)         //   yes: deepen
    | Spin(next: Then)         //   no: compare-and-swap until the owner word is free
    | First(next: Then)        //   taken: the depth is set to one
    | PutLoop(refs: nat)       // vfs_put: at the compare-and-swap
    | Drop                     // vfs_close_locked: at the decrement
    | Finalize                 //   the decrement gave zero: tear down and free
    | Leave                    // vfs_namespace_unlock: at the decrement of the depth
    | Free                     //   the depth is zero: clear the owner word

  /** `nest` counts the guard calls a thread has not undone, `held` the references to the
      file it owns. */
  datatype Thread = Thread(pc: Pc, nest: nat, held: nat)

  /** `finals` counts how often the file was torn down. */
  datatype State = State(owner: Option<nat>, depth: nat, count: nat, alive: bool, finals: nat, th: seq<Thread>)

  /** What a thread may start when it is idle, and Go: its next step when it is not. */
  datatype Act = Lock | Unlock | Put | CloseFile | Dup | Give(to: nat) | Go

  predicate Enabled(s: State, i: nat, a: Act)
  {
    && i < |s.th|
    && match a
       case Lock => s.th[i].pc == Idle
       case Unlock => s.th[i].pc == Idle && s.th[i].nest > 0
       case Put => s.th[i].pc == Idle && s.th[i].held > 0
       case CloseFile => s.th[i].pc == Idle && s.th[i].held > 0
       case Dup => s.th[i].pc == Idle && s.th[i].held > 0
       case Give(to) => s.th[i].pc == Idle && s.th[i].held > 0 && to < |s.th| && to != i
       case Go => s.th[i].pc != Idle
  }

  function At(s: State, i: nat, pc: Pc): State
    requires i < |s.th|
  {
    s.(th := s.th[i := s.th[i].(pc := pc)])
  }

  /** One reference of thread i is given up. */
  function Dropped(s: State, i: nat, pc: Pc): State
    requires i < |s.th|
  {
    s.(count := Monus(s.count, 1), th := s.th[i := Thread(pc, s.th[i].nest, Monus(s.th[i].held, 1))])
  }

  /** The guard was entered once more. */
  function Entered(s: State, i: nat, depth: nat, next: Then): State
    requires i < |s.th|
  {
    s.(depth := depth,
       th := s.th[i := Thread(if next == Close then Drop else Idle, s.th[i].nest + 1, s.th[i].held)])
  }

  function Advance(s: State, i: nat): State
    requires i < |s.th|
  {
    var t := s.th[i];
    match t.pc
    case Idle => s
    case Check(next) => At(s, i, if s.owner == Some(i) then Bump(next) else Spin(next))
    case Bump(next) => Entered(s, i, s.depth + 1, next)
    case Spin(next) => if s.owner == None then At(s.(owner := Some(i)), i, First(next)) else s
    case First(next) => Entered(s, i, 1, next)
    case PutLoop(refs) =>
      if refs <= 1 then At(s, i, Check(Close))
      else if s.count == refs then Dropped(s, i, Idle)
      else At(s, i, PutLoop(s.count))
    case Drop => Dropped(s, i, if s.count == 1 then Finalize else Leave)
    case Finalize => At(s.(alive := false, finals := s.finals + 1), i, Leave)
    case Leave =>
      s.(depth := Monus(s.depth, 1),
         th := s.th[i := Thread(if s.depth == 1 then Free else Idle, Monus(t.nest, 1), t.held)])
    case Free => At(s.(owner := None), i, Idle)
  }

  function Apply(s: State, i: nat, a: Act): State
    requires Enabled(s, i, a)
  {
    match a
    case Lock => At(s, i, Check(Return))
    case Unlock => At(s, i, Leave)
    case Put => At(s, i, PutLoop(s.count))
    case CloseFile => At(s, i, Check(Close))
    case Dup => s.(count := s.count + 1, th := s.th[i := s.th[i].(held := s.th[i].held + 1)])
    case Give(to) => s.(th := s.th[i := s.th[i].(held := s.th[i].held - 1)][to := s.th[to].(held := s.th[to].held + 1)])
    case Go => Advance(s, i)
  }

  /** The step reads or writes the file structure. */
  predicate TouchesFile(s: State, i: nat, a: Act)
    requires i < |s.th|
  {
    a == Put || a == Dup || (a == Go && (s.th[i].pc.PutLoop? || s.th[i].pc == Drop || s.th[i].pc == Finalize))
  }

  // -------------------------------------------------------------------- references

  function Held(th: seq<Thread>): nat
  {
    if th == [] then 0 else th[0].held + Held(th[1..])
  }

  lemma {:induction false} HeldUpdate(th: seq<Thread>, i: nat, t: Thread)
    requires i < |th|
    ensures Held(th[i := t]) + th[i].held == Held(th) + t.held
  {
    if i > 0 {
      assert th[i := t][1..] == th[1..][i - 1 := t];
      HeldUpdate(th[1..], i - 1, t);
    }
  }

  lemma {:induction false} HeldPart(th: seq<Thread>, i: nat)
    requires i < |th|
    ensures th[i].held <= Held(th)
  {
    if i > 0 {
      HeldPart(th[1..], i - 1);
    }
  }

  // ------------------------------------------------------------------- the invariant

  predicate Inside(t: Thread)
  {
    t.nest > 0 || t.pc.First? || t.pc == Free
  }

  /** What the guard looks like to a thread. */
  predicate GuardOk(owner: Option<nat>, depth: nat, i: nat, t: Thread)
  {
    && (owner == Some(i) <==> Inside(t))
    && (t.pc.First? || t.pc == Free || t.pc.Spin? ==> t.nest == 0)
    && (t.pc.Bump? || t.pc == Drop || t.pc == Finalize || t.pc == Leave ==> t.nest > 0)
    && (t.nest > 0 ==> depth == t.nest)
  }

  predicate NeedsRef(pc: Pc)
  {
    || pc.PutLoop? || pc == Drop
    || (pc.Check? && pc.next == Close) || (pc.Bump? && pc.next == Close)
    || (pc.Spin? && pc.next == Close) || (pc.First? && pc.next == Close)
  }

  predicate FileOk(count: nat, alive: bool, t: Thread)
  {
    && (NeedsRef(t.pc) ==> t.held > 0)
    && (t.pc == Finalize ==> count == 0 && alive)
  }

  predicate Finalizing(s: State)
  {
    exists i | 0 <= i < |s.th| :: s.th[i].pc == Finalize
  }

  ghost predicate Inv(s: State)
  {
    && (forall i | 0 <= i < |s.th| :: GuardOk(s.owner, s.depth, i, s.th[i]))
    && (forall i | 0 <= i < |s.th| :: FileOk(s.count, s.alive, s.th[i]))
    && s.count == Held(s.th)
    && (s.alive <==> s.count > 0 || Finalizing(s))
    && s.finals == if s.alive then 0 else 1
  }

  // ------------------------------------------------------------- what every step keeps

  lemma GuardKept(s: State, i: nat, a: Act)
    requires Inv(s) && Enabled(s, i, a)
    ensures var s' := Apply(s, i, a);
            forall j | 0 <= j < |s'.th| :: GuardOk(s'.owner, s'.depth, j, s'.th[j])
  {
    var s' := Apply(s, i, a);
    assert GuardOk(s.owner, s.depth, i, s.th[i]);
    forall j | 0 <= j < |s'.th|
      ensures GuardOk(s'.owner, s'.depth, j, s'.th[j])
    {
      assert GuardOk(s.owner, s.depth, j, s.th[j]);
    }
  }

  lemma CountKept(s: State, i: nat, a: Act)
    requires Inv(s) && Enabled(s, i, a)
    ensures Apply(s, i, a).count == Held(Apply(s, i, a).th)
  {
    assert FileOk(s.count, s.alive, s.th[i]);
    HeldPart(s.th, i);
    if a.Give? {
      GiveKeeps(s.th, i, a.to);
    } else {
      OwnHeld(s, i, a);
      HeldUpdate(s.th, i, Apply(s, i, a).th[i]);
    }
  }

  lemma GiveKeeps(th: seq<Thread>, i: nat, to: nat)
    requires i < |th| && to < |th| && i != to && th[i].held > 0
    ensures Held(th[i := th[i].(held := th[i].held - 1)][to := th[to].(held := th[to].held + 1)]) == Held(th)
  {
    var t := th[i].(held := th[i].held - 1);
    HeldUpdate(th, i, t);
    HeldUpdate(th[i := t], to, th[to].(held := th[to].held + 1));
  }

  /** The count moves with the references of the thread that steps. */
  lemma OwnHeld(s: State, i: nat, a: Act)
    requires Enabled(s, i, a) && !a.Give? && s.th[i].held <= s.count
    requires FileOk(s.count, s.alive, s.th[i])
    ensures var s' := Apply(s, i, a);
            s'.th == s.th[i := s'.th[i]] && s'.count + s.th[i].held == s.count + s'.th[i].held
  {
  }

  /** Nobody is past the last reference while a thread holds one. */
  lemma NobodyFinalizes(s: State, i: nat)
    requires Inv(s) && i < |s.th| && s.th[i].held > 0
    ensures s.count > 0 && s.alive && !Finalizing(s)
  {
    HeldPart(s.th, i);
    assert forall j | 0 <= j < |s.th| :: FileOk(s.count, s.alive, s.th[j]);
  }

  /** A step of a thread that needs no reference changes the count only with one. */
  lemma CountMoves(s: State, i: nat, a: Act)
    requires Inv(s) && Enabled(s, i, a)
    ensures Apply(s, i, a).count != s.count ==> s.th[i].held > 0 && s.count > 0
    ensures Apply(s, i, a).alive != s.alive ==> s.th[i].pc == Finalize && a == Go
    ensures forall j | 0 <= j < |s.th| && j != i ::
              Apply(s, i, a).th[j].pc == s.th[j].pc && Apply(s, i, a).th[j].held >= s.th[j].held
  {
    assert FileOk(s.count, s.alive, s.th[i]);
    HeldPart(s.th, i);
  }

  /** At most one thread is tearing down. */
  lemma OneFinalizer(s: State, i: nat, j: nat)
    requires Inv(s) && i < |s.th| && j < |s.th| && s.th[i].pc == Finalize && s.th[j].pc == Finalize
    ensures i == j
  {
    assert GuardOk(s.owner, s.depth, i, s.th[i]) && GuardOk(s.owner, s.depth, j, s.th[j]);
  }

  lemma OwnFileKept(s: State, i: nat, a: Act)
    requires Inv(s) && Enabled(s, i, a)
    ensures FileOk(Apply(s, i, a).count, Apply(s, i, a).alive, Apply(s, i, a).th[i])
    ensures Apply(s, i, a).th[i].pc == Finalize ==> s.th[i].pc == Drop && s.count == 1
  {
    assert FileOk(s.count, s.alive, s.th[i]);
    HeldPart(s.th, i);
  }

  lemma FilesKept(s: State, i: nat, a: Act)
    requires Inv(s) && Enabled(s, i, a)
    ensures var s' := Apply(s, i, a);
            forall j | 0 <= j < |s'.th| :: FileOk(s'.count, s'.alive, s'.th[j])
  {
    var s' := Apply(s, i, a);
    OwnFileKept(s, i, a);
    CountMoves(s, i, a);
    forall j | 0 <= j < |s'.th|
      ensures FileOk(s'.count, s'.alive, s'.th[j])
    {
      assert FileOk(s.count, s.alive, s.th[j]);
      if j != i && s.th[j].pc == Finalize && s.th[i].pc == Finalize {
        OneFinalizer(s, i, j);
      }
    }
  }

  lemma LifeKept(s: State, i: nat, a: Act)
    requires Inv(s) && Enabled(s, i, a)
    ensures var s' := Apply(s, i, a);
            && (s'.alive <==> s'.count > 0 || Finalizing(s'))
            && s'.finals == if s'.alive then 0 else 1
  {
    var s' := Apply(s, i, a);
    CountMoves(s, i, a);
    assert FileOk(s.count, s.alive, s.th[i]);
    if s.th[i].held > 0 {
      NobodyFinalizes(s, i);
    }
    if a == Go && s.th[i].pc == Drop && s.count == 1 {
      assert s'.th[i].pc == Finalize;
    } else if a == Go && s.th[i].pc == Finalize {
      forall j | 0 <= j < |s'.th|
        ensures s'.th[j].pc != Finalize
      {
        if j != i && s.th[j].pc == Finalize {
          OneFinalizer(s, i, j);
        }
      }
    } else {
      SameFinalizers(s, s', i);
    }
  }

  lemma SameFinalizers(s: State, s': State, i: nat)
    requires |s'.th| == |s.th| && i < |s.th| && s.th[i].pc != Finalize && s'.th[i].pc != Finalize
    requires forall j | 0 <= j < |s.th| && j != i :: s'.th[j].pc == s.th[j].pc
    ensures Finalizing(s') <==> Finalizing(s)
  {
    if Finalizing(s) {
      var j :| 0 <= j < |s.th| && s.th[j].pc == Finalize;
      assert s'.th[j].pc == Finalize;
    }
    if Finalizing(s') {
      var j :| 0 <= j < |s'.th| && s'.th[j].pc == Finalize;
      assert s.th[j].pc == Finalize;
    }
  }

  lemma StepKeeps(s: State, i: nat, a: Act)
    requires Inv(s) && Enabled(s, i, a)
    ensures Inv(Apply(s, i, a))
  {
    GuardKept(s, i, a);
    FilesKept(s, i, a);
    CountKept(s, i, a);
    LifeKept(s, i, a);
  }

  // ------------------------------------------------------------------------ every run

  datatype Move = Move(i: nat, a: Act)

  predicate Runnable(s: State, run: seq<Move>)
    decreases |run|
  {
    run == [] || (Enabled(s, run[0].i, run[0].a) && Runnable(Apply(s, run[0].i, run[0].a), run[1..]))
  }

  function Run(s: State, run: seq<Move>): State
    requires Runnable(s, run)
    decreases |run|
  {
    if run == [] then s else Run(Apply(s, run[0].i, run[0].a), run[1..])
  }

  /** Nobody in the guard, and every reference accounted for. */
  ghost predicate Start(s: State)
  {
    && s.owner == None && s.count == Held(s.th) && s.count > 0 && s.alive && s.finals == 0
    && forall i | 0 <= i < |s.th| :: s.th[i].pc == Idle && s.th[i].nest == 0
  }

  lemma {:induction false} RunKeeps(s: State, run: seq<Move>)
    requires Inv(s) && Runnable(s, run)
    ensures Inv(Run(s, run))
    decreases |run|
  {
    if run != [] {
      StepKeeps(s, run[0].i, run[0].a);
      RunKeeps(Apply(s, run[0].i, run[0].a), run[1..]);
    }
  }

  lemma EveryRunInv(s: State, run: seq<Move>)
    requires Start(s) && Runnable(s, run)
    ensures Inv(Run(s, run))
  {
    RunKeeps(s, run);
  }

  /** In every interleaving two threads are never inside the guard together, and the depth
      is the nesting of the one that is. */
  lemma GuardExcludes(s: State, run: seq<Move>, i: nat, j: nat)
    requires Start(s) && Runnable(s, run) && i < |Run(s, run).th| && j < |Run(s, run).th|
    ensures var r := Run(s, run);
            && (Inside(r.th[i]) && Inside(r.th[j]) ==> i == j)
            && (r.th[i].nest > 0 ==> r.owner == Some(i) && r.depth == r.th[i].nest)
  {
    EveryRunInv(s, run);
    var r := Run(s, run);
    assert GuardOk(r.owner, r.depth, i, r.th[i]) && GuardOk(r.owner, r.depth, j, r.th[j]);
  }

  /** In every interleaving the file is touched only while it exists, and by a thread that
      still owns a reference or is the one that took the count to zero. */
  lemma NoUseAfterFree(s: State, run: seq<Move>, i: nat, a: Act)
    requires Start(s) && Runnable(s, run) && Enabled(Run(s, run), i, a) && TouchesFile(Run(s, run), i, a)
    ensures var r := Run(s, run);
            r.alive && r.finals == 0 && (r.th[i].held > 0 || r.th[i].pc == Finalize)
  {
    EveryRunInv(s, run);
    var r := Run(s, run);
    assert FileOk(r.count, r.alive, r.th[i]);
    if r.th[i].held > 0 {
      NobodyFinalizes(r, i);
    }
  }

  /** In every interleaving the file is torn down at most once; and once no thread owns a
      reference and none is under way, exactly once. */
  lemma FinalizedOnce(s: State, run: seq<Move>)
    requires Start(s) && Runnable(s, run)
    ensures Run(s, run).finals <= 1
    ensures Run(s, run).finals == 1 ==> Held(Run(s, run).th) == 0
    ensures Held(Run(s, run).th) == 0 && (forall i | 0 <= i < |Run(s, run).th| :: Run(s, run).th[i].pc == Idle) ==>
              Run(s, run).finals == 1
  {
    EveryRunInv(s, run);
  }
}
