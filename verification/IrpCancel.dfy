/** Cancellation of queued IRPs: queuing, dequeuing and cancelling race on an atomically exchanged
    cancel routine and on the queue's lock. Every thread is a small program; a run is any
    interleaving of their atomic actions. */
module IrpCancel {
  import opened Options
  import opened Seqs
  import opened IrpQueue

  /** Where a thread stands. `Owned` and `Unlock` hold the queue lock. */
  datatype Pc =
    | QWait(irp: nat) | QLocked(irp: nat) | QArmed(irp: nat) | QCancelSeen(irp: nat) | QInsert(irp: nat)
    | DWait | DLocked | DTaken(irp: nat) | DLost(irp: nat)
    | CStart(irp: nat) | CMarked(irp: nat) | CCalled(irp: nat) | CLocked(irp: nat)
    | Owned(irp: nat) | Complete(irp: nat) | Unlock | Done

  /** Who may complete an IRP: whoever finds its cancel routine, a thread, or nobody any more. */
  datatype Owner = Armed | Thread(t: nat) | Completed

  datatype State = State(
    lock: Option<nat>,
    cancel: set<nat>,        // IRPs whose Cancel flag is set
    routine: set<nat>,       // IRPs whose cancel routine is not null
    links: Links,
    pc: map<nat, Pc>,
    done: multiset<nat>,     // calls of IoCompleteRequest
    queue: seq<nat>,         // history: what the links should spell
    owner: map<nat, Owner>)  // history: see `Owner`

  predicate HoldsLock(p: Pc)
  {
    p.QLocked? || p.QArmed? || p.QCancelSeen? || p.QInsert? || p.DLocked? || p.DTaken? || p.DLost?
    || p.CLocked? || p.Owned? || p.Unlock?
  }

  /** The thread is the one that will complete the IRP. */
  predicate MustComplete(p: Pc, i: nat)
  {
    p == QWait(i) || p == QLocked(i) || p == CCalled(i) || p == CLocked(i) || p == Owned(i) || p == Complete(i)
  }

  /** The thread holds the lock and has the IRP off the list, its cancel routine still set or taken by a canceller. */
  predicate InHand(p: Pc, i: nat)
  {
    p == QArmed(i) || p == QCancelSeen(i) || p == QInsert(i) || p == DTaken(i) || p == DLost(i)
  }

  function Goto(s: State, t: nat, p: Pc): State
  {
    s.(pc := s.pc[t := p])
  }

  function Acquire(s: State, t: nat, p: Pc): State
  {
    if s.lock.None? then Goto(s, t, p).(lock := Some(t)) else s
  }

  function Release(s: State, t: nat, p: Pc): State
  {
    Goto(s, t, p).(lock := None)
  }

  /** IoSetCancelRoutine(Irp, NULL): the routine is cleared in one step; whoever found it set goes to `won`. */
  function TakeRoutine(s: State, t: nat, i: nat, won: Pc, lost: Pc): State
  {
    if i in s.routine then Goto(s, t, won).(routine := s.routine - {i}, owner := s.owner[i := Thread(t)])
    else Goto(s, t, lost)
  }

  /** The next atomic action of thread `t`; a thread that waits for the lock leaves the state as it is. */
  function Step(s: State, t: nat): State
    requires t in s.pc
  {
    match s.pc[t]
    case QWait(i) => Acquire(s, t, QLocked(i))
    case QLocked(i) => Goto(s, t, QArmed(i)).(routine := s.routine + {i}, owner := s.owner[i := Armed])
    case QArmed(i) => Goto(s, t, if i in s.cancel then QCancelSeen(i) else QInsert(i))
    case QCancelSeen(i) => TakeRoutine(s, t, i, Owned(i), QInsert(i))
    case QInsert(i) => Goto(s, t, Unlock).(links := InsertTailList(s.links, Of(i)), queue := s.queue + [i])
    case DWait => Acquire(s, t, DLocked)
    case DLocked =>
      (match s.links.flink(Head)
       case Head => Goto(s, t, Unlock)
       case Of(i) => Goto(s, t, DTaken(i)).(links := RemoveEntryList(s.links, Of(i)), queue := Removed(s.queue, i)))
    case DTaken(i) => TakeRoutine(s, t, i, Owned(i), DLost(i))
    case DLost(i) => Goto(s, t, Unlock).(links := InitializeListHead(s.links, Of(i)))
    case CStart(i) => Goto(s, t, CMarked(i)).(cancel := s.cancel + {i})
    case CMarked(i) => TakeRoutine(s, t, i, CCalled(i), Done)
    case CCalled(i) => Acquire(s, t, CLocked(i))
    case CLocked(i) =>
      Goto(s, t, Owned(i)).(links := RemoveEntryList(s.links, Of(i)), queue := Removed(s.queue, i))
    case Owned(i) => Release(s, t, Complete(i))
    case Complete(i) => Goto(s, t, Done).(done := s.done + multiset{i}, owner := s.owner[i := Completed])
    case Unlock => Release(s, t, Done)
    case Done => s
  }

  // ----- The invariant

  ghost predicate OffList(s: State, i: nat)
  {
    s.lock.Some? && s.lock.value in s.pc && InHand(s.pc[s.lock.value], i)
  }

  ghost predicate OwnedByCanceller(s: State, i: nat)
  {
    && i in s.owner && s.owner[i].Thread? && s.owner[i].t in s.pc
    && (s.pc[s.owner[i].t] == CCalled(i) || s.pc[s.owner[i].t] == CLocked(i))
  }

  ghost predicate ThreadOk(s: State, t: nat)
    requires t in s.pc
  {
    match s.pc[t]
    case QWait(i) => i in s.owner && s.owner[i] == Thread(t) && i !in s.queue
    case QLocked(i) => i in s.owner && s.owner[i] == Thread(t) && i !in s.queue
    case QArmed(i) => i in s.owner && i !in s.queue && (s.owner[i].Armed? || OwnedByCanceller(s, i))
    case QCancelSeen(i) => i in s.owner && i !in s.queue && (s.owner[i].Armed? || OwnedByCanceller(s, i))
    case QInsert(i) => i in s.owner && i !in s.queue && (s.owner[i].Armed? || OwnedByCanceller(s, i))
    case DTaken(i) => i in s.owner && i !in s.queue && (s.owner[i].Armed? || OwnedByCanceller(s, i))
    case DLost(i) => i !in s.queue && OwnedByCanceller(s, i)
    case CStart(i) => i in s.owner
    case CMarked(i) => i in s.owner
    case CCalled(i) => i in s.owner && s.owner[i] == Thread(t) &&
        (i in s.queue || SelfLinked(s.links, Of(i)) || OffList(s, i))
    case CLocked(i) => i in s.owner && s.owner[i] == Thread(t) && (i in s.queue || SelfLinked(s.links, Of(i)))
    case Owned(i) => i in s.owner && s.owner[i] == Thread(t) && i !in s.queue
    case Complete(i) => i in s.owner && s.owner[i] == Thread(t) && i !in s.queue
    case _ => true
  }

  ghost predicate IrpOk(s: State, i: nat)
    requires i in s.owner
  {
    && (s.owner[i].Armed? <==> i in s.routine)
    && (s.owner[i].Armed? && i !in s.queue ==> OffList(s, i))
    && (s.owner[i].Thread? ==> s.owner[i].t in s.pc && MustComplete(s.pc[s.owner[i].t], i))
    && (i in s.queue ==> s.owner[i].Armed? || OwnedByCanceller(s, i))
    && s.done[i] == (if s.owner[i].Completed? then 1 else 0)
  }

  ghost predicate LockOk(s: State)
  {
    && (forall t :: t in s.pc ==> (HoldsLock(s.pc[t]) <==> s.lock == Some(t)))
    && (s.lock.Some? ==> s.lock.value in s.pc)
  }

  ghost predicate OwnersOk(s: State)
  {
    && LockOk(s)
    && (forall t :: t in s.pc ==> ThreadOk(s, t))
    && (forall i :: i in s.owner ==> IrpOk(s, i))
  }

  ghost predicate Inv(s: State)
  {
    && ListIs(s.links, s.queue)
    && (forall i :: i in s.queue ==> i in s.owner)
    && OwnersOk(s)
  }

  ghost predicate LockAction(p: Pc)
  {
    p.QWait? || p.DWait? || p.CCalled? || p.Owned? || p.Unlock? || p.Done?
  }

  ghost predicate FlagAction(p: Pc)
  {
    p.QArmed? || p.CStart?
  }

  lemma {:induction false} RemovedIsWithout(q: seq<nat>, k: nat)
    requires k < |q| && forall j :: 0 <= j < k ==> q[j] != q[k]
    ensures Removed(q, q[k]) == Without(q, k)
  {
    if k > 0 {
      RemovedIsWithout(q[1..], k - 1);
      assert q[1..][k - 1] == q[k] && Without(q, k) == [q[0]] + Without(q[1..], k - 1);
    }
  }

  lemma {:induction false} LockKeepsThread(s: State, t: nat, u: nat)
    requires OwnersOk(s) && t in s.pc && u in s.pc && LockAction(s.pc[t])
    ensures ThreadOk(Step(s, t), u)
  {
    assert ThreadOk(s, t) && ThreadOk(s, u);
  }

  lemma {:induction false} LockKeepsIrp(s: State, t: nat, i: nat)
    requires OwnersOk(s) && t in s.pc && i in s.owner && LockAction(s.pc[t])
    ensures i in Step(s, t).owner && IrpOk(Step(s, t), i)
  {
    assert ThreadOk(s, t) && IrpOk(s, i);
  }

  lemma {:induction false} FlagKeepsThread(s: State, t: nat, u: nat)
    requires OwnersOk(s) && t in s.pc && u in s.pc && FlagAction(s.pc[t])
    ensures ThreadOk(Step(s, t), u)
  {
    assert ThreadOk(s, t) && ThreadOk(s, u);
  }

  lemma {:induction false} FlagKeepsIrp(s: State, t: nat, i: nat)
    requires OwnersOk(s) && t in s.pc && i in s.owner && FlagAction(s.pc[t])
    ensures i in Step(s, t).owner && IrpOk(Step(s, t), i)
  {
    assert ThreadOk(s, t) && IrpOk(s, i);
  }

  lemma {:induction false} TakeBackKeepsThread(s: State, t: nat, u: nat)
    requires OwnersOk(s) && t in s.pc && u in s.pc && (s.pc[t].QCancelSeen? || s.pc[t].DTaken?)
    ensures ThreadOk(Step(s, t), u)
  {
    assert ThreadOk(s, t) && ThreadOk(s, u);
  }

  lemma {:induction false} TakeBackKeepsIrp(s: State, t: nat, i: nat)
    requires OwnersOk(s) && t in s.pc && i in s.owner && (s.pc[t].QCancelSeen? || s.pc[t].DTaken?)
    ensures i in Step(s, t).owner && IrpOk(Step(s, t), i)
  {
    assert ThreadOk(s, t) && IrpOk(s, i);
  }

  lemma {:induction false} CancelTakeKeepsThread(s: State, t: nat, u: nat)
    requires OwnersOk(s) && t in s.pc && u in s.pc && s.pc[t].CMarked?
    ensures ThreadOk(Step(s, t), u)
  {
    assert ThreadOk(s, t) && ThreadOk(s, u);
  }

  lemma {:induction false} CancelTakeKeepsIrp(s: State, t: nat, i: nat)
    requires OwnersOk(s) && t in s.pc && i in s.owner && s.pc[t].CMarked?
    ensures i in Step(s, t).owner && IrpOk(Step(s, t), i)
  {
    assert ThreadOk(s, t) && IrpOk(s, i);
  }

  lemma {:induction false} CompleteKeepsThread(s: State, t: nat, u: nat)
    requires OwnersOk(s) && t in s.pc && u in s.pc && s.pc[t].Complete?
    ensures ThreadOk(Step(s, t), u)
  {
    assert ThreadOk(s, t) && ThreadOk(s, u);
  }

  lemma {:induction false} CompleteKeepsIrp(s: State, t: nat, i: nat)
    requires OwnersOk(s) && t in s.pc && i in s.owner && s.pc[t].Complete?
    ensures i in Step(s, t).owner && IrpOk(Step(s, t), i)
  {
    assert ThreadOk(s, t) && IrpOk(s, i);
  }

  lemma {:induction false} ArmKeepsThread(s: State, t: nat, u: nat)
    requires OwnersOk(s) && t in s.pc && u in s.pc && s.pc[t].QLocked?
    ensures ThreadOk(Step(s, t), u)
  {
    assert ThreadOk(s, t) && ThreadOk(s, u);
  }

  lemma {:induction false} ArmKeepsIrp(s: State, t: nat, i: nat)
    requires OwnersOk(s) && t in s.pc && i in s.owner && s.pc[t].QLocked?
    ensures i in Step(s, t).owner && IrpOk(Step(s, t), i)
  {
    assert ThreadOk(s, t) && IrpOk(s, i);
  }

  lemma {:induction false} InsertKeepsThread(s: State, t: nat, u: nat)
    requires Inv(s) && t in s.pc && u in s.pc && s.pc[t].QInsert?
    ensures ThreadOk(Step(s, t), u)
  {
    assert ThreadOk(s, t) && ThreadOk(s, u);
    if s.pc[u].CCalled? && s.pc[u].irp != s.pc[t].irp && s.pc[u].irp !in s.queue &&
        SelfLinked(s.links, Of(s.pc[u].irp)) {
      OutsiderUntouchedByInsert(s.links, s.queue, s.pc[t].irp, s.pc[u].irp);
    }
  }

  lemma {:induction false} InsertKeepsIrp(s: State, t: nat, i: nat)
    requires Inv(s) && t in s.pc && i in s.owner && s.pc[t].QInsert?
    ensures i in Step(s, t).owner && IrpOk(Step(s, t), i)
  {
    assert ThreadOk(s, t) && IrpOk(s, i);
  }

  // The IRP that the dequeuer takes is the first of the queue.
  lemma {:induction false} DequeueTakesFirst(s: State, t: nat)
    requires Inv(s) && t in s.pc && s.pc[t].DLocked? && s.links.flink(Head).Of?
    ensures s.queue != [] && s.links.flink(Head).irp == s.queue[0]
    ensures forall j :: j in Step(s, t).queue <==> j in s.queue && j != s.queue[0]
  {
    RemovedMembers(s.queue, s.queue[0]);
  }

  lemma {:induction false} RemovalLeavesOutsider(s: State, i: nat, x: nat)
    requires Inv(s) && x != i && x !in s.queue && SelfLinked(s.links, Of(x))
    requires i in s.queue || SelfLinked(s.links, Of(i))
    ensures SelfLinked(RemoveEntryList(s.links, Of(i)), Of(x))
  {
    if i in s.queue {
      var k :| 0 <= k < |s.queue| && s.queue[k] == i;
      OutsiderUntouched(s.links, s.queue, k, x);
    }
  }

  lemma {:induction false} DequeueKeepsThread(s: State, t: nat, u: nat)
    requires Inv(s) && t in s.pc && u in s.pc && s.pc[t].DLocked? && s.links.flink(Head).Of?
    ensures ThreadOk(Step(s, t), u)
  {
    assert ThreadOk(s, t) && ThreadOk(s, u);
    DequeueTakesFirst(s, t);
    var i := s.queue[0];
    if s.pc[u].CCalled? && s.pc[u].irp != i && s.pc[u].irp !in s.queue && SelfLinked(s.links, Of(s.pc[u].irp)) {
      RemovalLeavesOutsider(s, i, s.pc[u].irp);
    }
  }

  lemma {:induction false} DequeueKeepsIrp(s: State, t: nat, i: nat)
    requires Inv(s) && t in s.pc && i in s.owner && s.pc[t].DLocked? && s.links.flink(Head).Of?
    ensures i in Step(s, t).owner && IrpOk(Step(s, t), i)
  {
    assert ThreadOk(s, t) && IrpOk(s, i);
    DequeueTakesFirst(s, t);
  }

  lemma {:induction false} EmptyDequeueKeepsThread(s: State, t: nat, u: nat)
    requires OwnersOk(s) && t in s.pc && u in s.pc && s.pc[t].DLocked? && s.links.flink(Head).Head?
    ensures ThreadOk(Step(s, t), u)
  {
    assert ThreadOk(s, t) && ThreadOk(s, u);
  }

  lemma {:induction false} EmptyDequeueKeepsIrp(s: State, t: nat, i: nat)
    requires OwnersOk(s) && t in s.pc && i in s.owner && s.pc[t].DLocked? && s.links.flink(Head).Head?
    ensures i in Step(s, t).owner && IrpOk(Step(s, t), i)
  {
    assert ThreadOk(s, t) && IrpOk(s, i);
  }

  lemma {:induction false} LostKeepsThread(s: State, t: nat, u: nat)
    requires OwnersOk(s) && t in s.pc && u in s.pc && s.pc[t].DLost?
    ensures ThreadOk(Step(s, t), u)
  {
    assert ThreadOk(s, t) && ThreadOk(s, u);
  }

  lemma {:induction false} LostKeepsIrp(s: State, t: nat, i: nat)
    requires OwnersOk(s) && t in s.pc && i in s.owner && s.pc[t].DLost?
    ensures i in Step(s, t).owner && IrpOk(Step(s, t), i)
  {
    assert ThreadOk(s, t) && IrpOk(s, i);
  }

  lemma {:induction false} CancelRemoveKeepsThread(s: State, t: nat, u: nat)
    requires Inv(s) && t in s.pc && u in s.pc && s.pc[t].CLocked?
    ensures ThreadOk(Step(s, t), u)
  {
    assert ThreadOk(s, t) && ThreadOk(s, u);
    RemovedMembers(s.queue, s.pc[t].irp);
    if s.pc[u].CCalled? && s.pc[u].irp != s.pc[t].irp && s.pc[u].irp !in s.queue &&
        SelfLinked(s.links, Of(s.pc[u].irp)) {
      RemovalLeavesOutsider(s, s.pc[t].irp, s.pc[u].irp);
    }
  }

  lemma {:induction false} CancelRemoveKeepsIrp(s: State, t: nat, i: nat)
    requires Inv(s) && t in s.pc && i in s.owner && s.pc[t].CLocked?
    ensures i in Step(s, t).owner && IrpOk(Step(s, t), i)
  {
    assert ThreadOk(s, t) && IrpOk(s, i);
    RemovedMembers(s.queue, s.pc[t].irp);
  }

  lemma {:induction false} LockKeptSelf(s: State, t: nat)
    requires t in s.pc && (HoldsLock(s.pc[t]) <==> s.lock == Some(t))
    ensures t in Step(s, t).pc && (HoldsLock(Step(s, t).pc[t]) <==> Step(s, t).lock == Some(t))
  {
  }

  lemma {:induction false} OthersKept(s: State, t: nat)
    requires t in s.pc && (HoldsLock(s.pc[t]) <==> s.lock == Some(t))
    ensures Step(s, t).pc.Keys == s.pc.Keys && forall u :: u in s.pc && u != t ==> Step(s, t).pc[u] == s.pc[u]
    ensures || Step(s, t).lock == s.lock
            || (s.lock.None? && Step(s, t).lock == Some(t)) || (s.lock == Some(t) && Step(s, t).lock.None?)
  {
  }

  predicate TouchesList(p: Pc)
  {
    p.QInsert? || p.DLocked? || p.DLost? || p.CLocked?
  }

  lemma {:induction false} RestKept(s: State, t: nat)
    requires t in s.pc && ThreadOk(s, t)
    ensures Step(s, t).owner.Keys == s.owner.Keys
    ensures !TouchesList(s.pc[t]) ==> Step(s, t).links == s.links && Step(s, t).queue == s.queue
  {
  }

  lemma {:induction false} UnlinkOk(l: Links, q: seq<nat>, i: nat)
    requires ListIs(l, q) && (i in q || SelfLinked(l, Of(i)))
    ensures ListIs(RemoveEntryList(l, Of(i)), Removed(q, i)) && forall j :: j in Removed(q, i) ==> j in q
  {
    if i in q {
      var k :| 0 <= k < |q| && q[k] == i;
      RemovedIsWithout(q, k);
      RemoveMember(l, q, k);
    } else {
      RemoveSelfLinkedKeepsList(l, q, Of(i));
    }
  }

  lemma {:induction false} ListKept(s: State, t: nat)
    requires Inv(s) && t in s.pc && TouchesList(s.pc[t])
    ensures ListIs(Step(s, t).links, Step(s, t).queue)
    ensures forall i :: i in Step(s, t).queue ==> i in s.owner
  {
    assert ThreadOk(s, t);
    match s.pc[t]
    case QInsert(i) => InsertMember(s.links, s.queue, i);
    case DLost(i) => InitializeOutsider(s.links, s.queue, i);
    case DLocked =>
      if s.queue != [] {
        UnlinkOk(s.links, s.queue, s.queue[0]);
      }
    case CLocked(i) => UnlinkOk(s.links, s.queue, i);
  }

  lemma {:induction false} ThreadKept(s: State, t: nat, u: nat)
    requires Inv(s) && t in s.pc && u in s.pc
    ensures ThreadOk(Step(s, t), u)
  {
    match s.pc[t]
    case QLocked(_) => ArmKeepsThread(s, t, u);
    case QArmed(_) => FlagKeepsThread(s, t, u);
    case CStart(_) => FlagKeepsThread(s, t, u);
    case QCancelSeen(_) => TakeBackKeepsThread(s, t, u);
    case DTaken(_) => TakeBackKeepsThread(s, t, u);
    case CMarked(_) => CancelTakeKeepsThread(s, t, u);
    case QInsert(_) => InsertKeepsThread(s, t, u);
    case DLocked => if s.links.flink(Head).Of? { DequeueKeepsThread(s, t, u); }
        else { EmptyDequeueKeepsThread(s, t, u); }
    case DLost(_) => LostKeepsThread(s, t, u);
    case CLocked(_) => CancelRemoveKeepsThread(s, t, u);
    case Complete(_) => CompleteKeepsThread(s, t, u);
    case _ => LockKeepsThread(s, t, u);
  }

  lemma {:induction false} IrpKept(s: State, t: nat, i: nat)
    requires Inv(s) && t in s.pc && i in s.owner
    ensures i in Step(s, t).owner && IrpOk(Step(s, t), i)
  {
    match s.pc[t]
    case QLocked(_) => ArmKeepsIrp(s, t, i);
    case QArmed(_) => FlagKeepsIrp(s, t, i);
    case CStart(_) => FlagKeepsIrp(s, t, i);
    case QCancelSeen(_) => TakeBackKeepsIrp(s, t, i);
    case DTaken(_) => TakeBackKeepsIrp(s, t, i);
    case CMarked(_) => CancelTakeKeepsIrp(s, t, i);
    case QInsert(_) => InsertKeepsIrp(s, t, i);
    case DLocked => if s.links.flink(Head).Of? { DequeueKeepsIrp(s, t, i); } else { EmptyDequeueKeepsIrp(s, t, i); }
    case DLost(_) => LostKeepsIrp(s, t, i);
    case CLocked(_) => CancelRemoveKeepsIrp(s, t, i);
    case Complete(_) => CompleteKeepsIrp(s, t, i);
    case _ => LockKeepsIrp(s, t, i);
  }

  lemma {:induction false} StepKeepsInv(s: State, t: nat)
    requires Inv(s) && t in s.pc
    ensures Inv(Step(s, t))
  {
    var n := Step(s, t);
    OthersKept(s, t);
    LockKeptSelf(s, t);
    RestKept(s, t);
    if TouchesList(s.pc[t]) {
      ListKept(s, t);
    }
    forall u | u in n.pc ensures ThreadOk(n, u) {
      ThreadKept(s, t, u);
    }
    forall i | i in n.owner ensures IrpOk(n, i) {
      IrpKept(s, t, i);
    }
  }

  // ----- Runs

  /** Nothing is queued yet; every IRP has exactly one thread that will queue it, and there are any
      number of dequeuers and cancellers. A Cancel flag may already be set. */
  ghost predicate Init(s: State)
  {
    && s.lock.None? && s.routine == {} && s.queue == [] && s.done == multiset{}
    && s.links.flink(Head) == Head && s.links.blink(Head) == Head
    && (forall t :: t in s.pc ==> s.pc[t].QWait? || s.pc[t].DWait? || s.pc[t].CStart?)
    && (forall t :: t in s.pc && s.pc[t].CStart? ==> s.pc[t].irp in s.owner)
    && (forall t :: t in s.pc && s.pc[t].QWait? ==> s.pc[t].irp in s.owner && s.owner[s.pc[t].irp] == Thread(t))
    && (forall i :: i in s.owner ==> s.owner[i].Thread? && s.owner[i].t in s.pc && s.pc[s.owner[i].t] == QWait(i))
  }

  function Run(s: State, schedule: seq<nat>): State
    decreases |schedule|
  {
    if schedule == [] then s
    else Run(if schedule[0] in s.pc then Step(s, schedule[0]) else s, schedule[1..])
  }

  lemma {:induction false} RunKeepsInv(s: State, schedule: seq<nat>)
    requires Inv(s)
    ensures Inv(Run(s, schedule))
    decreases |schedule|
  {
    if schedule != [] {
      if schedule[0] in s.pc {
        StepKeepsInv(s, schedule[0]);
        RunKeepsInv(Step(s, schedule[0]), schedule[1..]);
      } else {
        RunKeepsInv(s, schedule[1..]);
      }
    }
  }

  lemma {:induction false} ReachableInv(s: State, schedule: seq<nat>)
    requires Init(s)
    ensures Inv(Run(s, schedule))
  {
    assert Inv(s);
    RunKeepsInv(s, schedule);
  }

  /** Exactly one of: the cancel routine is set, one thread is bound to complete the IRP, it is completed. */
  ghost predicate ExactlyOneOwner(s: State, i: nat)
  {
    && !(i in s.routine && i in s.done)
    && (forall t :: t in s.pc && MustComplete(s.pc[t], i) ==> i !in s.routine && i !in s.done)
    && (forall t, u :: t in s.pc && u in s.pc && MustComplete(s.pc[t], i) && MustComplete(s.pc[u], i) ==> t == u)
    && (i in s.routine || i in s.done || exists t :: t in s.pc && MustComplete(s.pc[t], i))
  }

  lemma {:induction false} OneOwner(s: State, i: nat)
    requires OwnersOk(s) && i in s.owner
    ensures ExactlyOneOwner(s, i) && s.done[i] <= 1
  {
    assert IrpOk(s, i);
    forall t | t in s.pc && MustComplete(s.pc[t], i) ensures s.owner[i] == Thread(t) {
      assert ThreadOk(s, t);
    }
  }

  /** Along every interleaving, every IRP has exactly one owner and is completed at most once. */
  lemma {:induction false} CompletedExactlyOnce(s: State, schedule: seq<nat>, i: nat)
    requires Init(s) && i in s.owner
    ensures ExactlyOneOwner(Run(s, schedule), i) && Run(s, schedule).done[i] <= 1
  {
    ReachableInv(s, schedule);
    KnownIrps(s, schedule);
    OneOwner(Run(s, schedule), i);
  }

  lemma {:induction false} KnownIrps(s: State, schedule: seq<nat>)
    requires Inv(s)
    ensures Run(s, schedule).owner.Keys == s.owner.Keys
    decreases |schedule|
  {
    if schedule != [] {
      if schedule[0] in s.pc {
        RestKept(s, schedule[0]);
        StepKeepsInv(s, schedule[0]);
        KnownIrps(Step(s, schedule[0]), schedule[1..]);
      } else {
        KnownIrps(s, schedule[1..]);
      }
    }
  }

  /** Once all threads are through, every IRP was completed once, or still sits in the queue, cancellable. */
  lemma {:induction false} NoneLost(s: State, schedule: seq<nat>, i: nat)
    requires Init(s) && i in s.owner
    requires forall t :: t in Run(s, schedule).pc ==> Run(s, schedule).pc[t].Done?
    ensures var n := Run(s, schedule);
            if n.done[i] == 1 then i !in n.queue && i !in n.routine
            else n.done[i] == 0 && i in n.queue && i in n.routine
  {
    ReachableInv(s, schedule);
    KnownIrps(s, schedule);
    assert IrpOk(Run(s, schedule), i);
  }

  /** The canceller's unlinking removes its own IRP, if still linked, and keeps every other one in place. */
  lemma {:induction false} CancelDisturbsNoOther(s: State, schedule: seq<nat>, t: nat)
    requires Init(s) && t in Run(s, schedule).pc && Run(s, schedule).pc[t].CLocked?
    ensures var n := Run(s, schedule);
            var q := Step(n, t).queue;
            ListIs(Step(n, t).links, q) && q == Removed(n.queue, n.pc[t].irp)
            && forall j :: j in q <==> j in n.queue && j != n.pc[t].irp
  {
    ReachableInv(s, schedule);
    var n := Run(s, schedule);
    ListKept(n, t);
    RemovedMembers(n.queue, n.pc[t].irp);
  }
}
