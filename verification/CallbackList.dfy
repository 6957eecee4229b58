/** Lists of registered callbacks. A notifier drops the list's lock around every call and goes on from the
    registration it has just called, while registrations come and go. Each step is one section under the
    lock. Two flavours of unregistration: the executive's waits until the registration is not busy; the
    registry's marks it first, waits for the calls to drain, and then unlinks it. */
module CallbackList {
  import opened Seqs

  datatype Kind = Executive | Registry

  datatype Pc =
    | Idle
    | Calling(reg: nat)   // notifier: the lock is dropped, the callback runs
    | Waiting(reg: nat)   // executive: waits until the registration is not busy
    | Marked(reg: nat)    // registry: marked, waits for the calls to drain
    | Drained(reg: nat)   // registry: about to unlink

  datatype Thread = Thread(
    pc: Pc,
    called: seq<nat>,     // history: the calls of the notifier's pass, in order
    steady: set<nat>,     // history: registrations linked and not pending ever since the pass began
    done: bool)           // history: the pass reached the end of the list

  datatype State = State(
    kind: Kind,
    multiple: bool,           // AllowMultipleCallbacks
    list: seq<nat>,
    busy: map<nat, nat>,
    pending: set<nat>,        // UnregisterWaiting, PendingDelete
    freed: set<nat>,
    claimed: set<nat>,        // registrations that some thread unregisters or has unregistered
    next: nat,
    threads: seq<Thread>)

  datatype Event =
    | Register
    | Notify(t: nat) | Return(t: nat, ok: bool)
    | Unregister(t: nat, reg: nat) | Wake(t: nat) | Drain(t: nat) | Unlink(t: nat)

  function Go(s: State, t: nat, p: Pc): State
    requires t < |s.threads|
  {
    s.(threads := s.threads[t := s.threads[t].(pc := p)])
  }

  // ----- The steps

  /** The first position from `i` on whose registration is not pending. */
  function FirstFrom(s: State, i: nat): (j: nat)
    requires i <= |s.list|
    ensures i <= j <= |s.list| && (j < |s.list| ==> s.list[j] !in s.pending)
    ensures forall k :: i <= k < j ==> s.list[k] in s.pending
    decreases |s.list| - i
  {
    if i == |s.list| || s.list[i] !in s.pending then i else FirstFrom(s, i + 1)
  }

  function Position(list: seq<nat>, e: nat): (i: nat)
    requires e in list
    ensures i < |list| && list[i] == e
  {
    if list[0] == e then 0 else 1 + Position(list[1..], e)
  }

  function Unlinked(list: seq<nat>, e: nat): (r: seq<nat>)
    requires e in list
  {
    Without(list, Position(list, e))
  }

  /** Starts a call: the registration is busy while the lock is dropped. */
  function Enter(s: State, t: nat, e: nat): State
    requires t < |s.threads| && e in s.busy
  {
    s.(busy := s.busy[e := s.busy[e] + 1],
       threads := s.threads[t := s.threads[t].(pc := Calling(e), called := s.threads[t].called + [e])])
  }

  function Finish(s: State, t: nat): State
    requires t < |s.threads|
  {
    s.(threads := s.threads[t := s.threads[t].(pc := Idle, done := true)])
  }

  /** The notifier's loop, from position `i` to the next call or the end of the list. */
  function Advance(s: State, t: nat, i: nat): State
    requires t < |s.threads| && i <= |s.list|
  {
    var j := FirstFrom(s, i);
    if j < |s.list| && s.list[j] in s.busy then Enter(s, t, s.list[j]) else Finish(s, t)
  }

  function Begin(s: State, t: nat): State
    requires t < |s.threads|
  {
    s.(threads := s.threads[t := Thread(Idle, [], set e | e in s.list && e !in s.pending, false)])
  }

  function NotifyStep(s: State, t: nat): State
    requires t < |s.threads|
  {
    if s.threads[t].pc.Idle? then Advance(Begin(s, t), t, 0) else s
  }

  /** The call is over, and the lock taken again. */
  function Leave(s: State, t: nat): State
    requires t < |s.threads| && s.threads[t].pc.Calling? && s.threads[t].pc.reg in s.busy
    requires s.busy[s.threads[t].pc.reg] > 0
  {
    var e := s.threads[t].pc.reg;
    Go(s, t, Idle).(busy := s.busy[e := s.busy[e] - 1])
  }

  function ReturnStep(s: State, t: nat, ok: bool): State
    requires t < |s.threads|
  {
    var p := s.threads[t].pc;
    if p.Calling? && p.reg in s.busy && s.busy[p.reg] > 0 && p.reg in s.list then
      var n := Leave(s, t);
      if s.kind.Registry? && !ok then n else Advance(n, t, Position(n.list, p.reg) + 1)
    else s
  }

  /** Unlinks the registration and frees it. */
  function Remove(s: State, t: nat, e: nat): State
    requires t < |s.threads| && e in s.list
  {
    Go(s, t, Idle).(list := Unlinked(s.list, e), freed := s.freed + {e})
  }

  /** The executive's loop: wait while the registration is busy. */
  function TryRemove(s: State, t: nat, e: nat): State
    requires t < |s.threads| && e in s.list && e in s.busy
  {
    if s.busy[e] > 0 then Go(s, t, Waiting(e)).(pending := s.pending + {e}) else Remove(s, t, e)
  }

  function UnregisterStep(s: State, t: nat, e: nat): State
    requires t < |s.threads|
  {
    if !s.threads[t].pc.Idle? || e !in s.list || e !in s.busy || e in s.claimed then s
    else
      var n := s.(claimed := s.claimed + {e});
      if s.kind.Executive? then TryRemove(n, t, e)
      else Go(n, t, Marked(e)).(pending := s.pending + {e})
  }

  function WakeStep(s: State, t: nat): State
    requires t < |s.threads|
  {
    var p := s.threads[t].pc;
    if p.Waiting? && p.reg in s.list && p.reg in s.busy then TryRemove(s, t, p.reg) else s
  }

  function DrainStep(s: State, t: nat): State
    requires t < |s.threads|
  {
    var p := s.threads[t].pc;
    if p.Marked? && p.reg in s.busy && s.busy[p.reg] == 0 then Go(s, t, Drained(p.reg)) else s
  }

  function UnlinkStep(s: State, t: nat): State
    requires t < |s.threads|
  {
    var p := s.threads[t].pc;
    if p.Drained? && p.reg in s.list then Remove(s, t, p.reg) else s
  }

  function RegisterStep(s: State): State
  {
    if s.multiple || s.list == [] then
      s.(list := s.list + [s.next], busy := s.busy[s.next := 0], next := s.next + 1)
    else s
  }

  /** Registrations that are gone or pending are no longer steady. */
  function Refresh(s: State): State
  {
    s.(threads := seq(|s.threads|, i requires 0 <= i < |s.threads| =>
      s.threads[i].(steady := set e | e in s.threads[i].steady && e in s.list && e !in s.pending)))
  }

  function Step(s: State, e: Event): State
  {
    match e
    case Register => RegisterStep(s)
    case Notify(t) => if t < |s.threads| then NotifyStep(s, t) else s
    case Return(t, ok) => if t < |s.threads| then ReturnStep(s, t, ok) else s
    case Unregister(t, reg) => if t < |s.threads| then Refresh(UnregisterStep(s, t, reg)) else s
    case Wake(t) => if t < |s.threads| then Refresh(WakeStep(s, t)) else s
    case Drain(t) => if t < |s.threads| then DrainStep(s, t) else s
    case Unlink(t) => if t < |s.threads| then Refresh(UnlinkStep(s, t)) else s
  }

  // ----- The invariant

  function Calls(threads: seq<Thread>, e: nat): nat
  {
    if threads == [] then 0 else (if threads[0].pc == Calling(e) then 1 else 0) + Calls(threads[1..], e)
  }

  ghost predicate Ascending(q: seq<nat>)
  {
    forall i, j :: 0 <= i < j < |q| ==> q[i] < q[j]
  }

  predicate Unregisters(p: Pc, e: nat)
  {
    (p.Waiting? || p.Marked? || p.Drained?) && p.reg == e
  }

  ghost predicate ListOk(s: State)
  {
    && Ascending(s.list) && (forall e :: e in s.list ==> e < s.next && e in s.busy && e !in s.freed)
    && (forall e :: e in s.pending ==> e in s.claimed) && (forall e :: e in s.claimed ==> e < s.next)
    && (forall e :: e in s.busy ==> e < s.next) && (forall e :: e in s.freed ==> e < s.next)
  }

  /** Busy counts the calls in flight. */
  ghost predicate BusyOk(s: State)
  {
    forall e :: e in s.busy ==> s.busy[e] == Calls(s.threads, e)
  }

  ghost predicate ThreadOk(s: State, th: Thread)
  {
    match th.pc
    case Idle => true
    case Calling(e) => e in s.list && !th.done && th.called != [] && th.called[|th.called| - 1] == e
    case Waiting(e) => e in s.list && e in s.pending && s.kind.Executive?
    case Marked(e) => e in s.list && e in s.pending && s.kind.Registry?
    case Drained(e) => e in s.list && e in s.pending && s.kind.Registry? && e in s.busy && s.busy[e] == 0
  }

  /** Nobody but `t` unregisters what `t` unregisters. */
  ghost predicate ClaimsOk(s: State)
  {
    && (forall t, u, e ::
          (0 <= t < |s.threads| && 0 <= u < |s.threads| && Unregisters(s.threads[t].pc, e) &&
              Unregisters(s.threads[u].pc, e))
          ==> t == u)
    && (forall t, e :: 0 <= t < |s.threads| && Unregisters(s.threads[t].pc, e) ==> e in s.claimed)
  }

  /** A pass calls in list order, and skips nothing that is steady. */
  ghost predicate PassOk(s: State, th: Thread)
  {
    && Ascending(th.called) && (forall e :: e in th.steady ==> e in s.list && e !in s.pending)
    && (th.called != [] ==> forall e :: e in th.steady && e <= th.called[|th.called| - 1] ==> e in th.called)
    && (th.done ==> forall e :: e in th.steady ==> e in th.called)
  }

  ghost predicate Inv(s: State)
  {
    && ListOk(s) && BusyOk(s) && ClaimsOk(s)
    && (forall t :: 0 <= t < |s.threads| ==> ThreadOk(s, s.threads[t]))
    && (forall t :: 0 <= t < |s.threads| ==> PassOk(s, s.threads[t]))
  }

  lemma {:induction false} CallsUpdate(threads: seq<Thread>, t: nat, th: Thread, e: nat)
    requires t < |threads|
    ensures Calls(threads[t := th], e) + (if threads[t].pc == Calling(e) then 1 else 0)
         == Calls(threads, e) + (if th.pc == Calling(e) then 1 else 0)
  {
    if t == 0 {
      assert threads[0 := th][1..] == threads[1..];
    } else {
      CallsUpdate(threads[1..], t - 1, th, e);
      assert threads[t := th][1..] == threads[1..][t - 1 := th];
    }
  }

  lemma {:induction false} CallsCover(threads: seq<Thread>, t: nat, e: nat)
    requires t < |threads| && threads[t].pc == Calling(e)
    ensures Calls(threads, e) > 0
  {
    if t > 0 {
      CallsCover(threads[1..], t - 1, e);
    }
  }

  lemma {:induction false} NoCalls(threads: seq<Thread>, e: nat)
    requires forall t :: 0 <= t < |threads| ==> threads[t].pc != Calling(e)
    ensures Calls(threads, e) == 0
  {
    if threads != [] {
      NoCalls(threads[1..], e);
    }
  }

  // ----- Every step keeps it

  lemma {:induction false} InvParts(s: State)
    requires Inv(s)
    ensures ListOk(s) && BusyOk(s) && ClaimsOk(s)
  {
  }

  lemma {:induction false} InvAt(s: State, t: nat)
    requires Inv(s) && t < |s.threads|
    ensures ThreadOk(s, s.threads[t]) && PassOk(s, s.threads[t])
  {
  }

  lemma {:induction false} InvFrom(s: State)
    requires ListOk(s) && BusyOk(s) && ClaimsOk(s)
    requires forall t :: 0 <= t < |s.threads| ==> ThreadOk(s, s.threads[t])
    requires forall t :: 0 <= t < |s.threads| ==> PassOk(s, s.threads[t])
    ensures Inv(s)
  {
    hide ListOk, BusyOk, ClaimsOk, ThreadOk, PassOk;
  }

  // The busy counts follow the one thread that moves.
  lemma {:induction false} BusyMoves(s: State, n: State, t: nat)
    requires BusyOk(s) && t < |s.threads| == |n.threads| && n.threads == s.threads[t := n.threads[t]]
    requires n.busy.Keys == s.busy.Keys
    requires forall e :: e in s.busy ==>
               n.busy[e] + (if s.threads[t].pc == Calling(e) then 1 else 0) ==
               s.busy[e] + (if n.threads[t].pc == Calling(e) then 1 else 0)
    ensures BusyOk(n)
  {
    forall e | e in n.busy ensures n.busy[e] == Calls(n.threads, e) {
      CallsUpdate(s.threads, t, n.threads[t], e);
    }
  }

  // A thread that unregisters nothing claims nothing.
  lemma {:induction false} ClaimsMove(s: State, n: State, t: nat)
    requires ClaimsOk(s) && t < |s.threads| == |n.threads| && n.threads == s.threads[t := n.threads[t]]
    requires n.claimed == s.claimed
    requires forall e :: Unregisters(n.threads[t].pc, e) ==> Unregisters(s.threads[t].pc, e)
    ensures ClaimsOk(n)
  {
    forall u, e | 0 <= u < |n.threads| && Unregisters(n.threads[u].pc, e) ensures Unregisters(s.threads[u].pc, e) {
    }
  }

  // A notifier's step: the list, the marks and the other threads stay.
  lemma {:induction false} NotifierMoves(s: State, n: State, t: nat)
    requires Inv(s) && t < |s.threads| == |n.threads|
    requires n == s.(threads := s.threads[t := n.threads[t]], busy := n.busy) && n.busy.Keys == s.busy.Keys
    requires forall e :: e in s.busy ==>
               n.busy[e] + (if s.threads[t].pc == Calling(e) then 1 else 0) ==
               s.busy[e] + (if n.threads[t].pc == Calling(e) then 1 else 0)
    requires forall e :: e in s.busy && e in s.pending ==> n.busy[e] <= s.busy[e]
    requires (n.threads[t].pc.Idle? || n.threads[t].pc.Calling?) && ThreadOk(n, n.threads[t]) && PassOk(n, n.threads[t])
    ensures Inv(n)
  {
    hide Inv;
    InvParts(s);
    BusyMoves(s, n, t);
    ClaimsMove(s, n, t);
    assert ListOk(n) by {
      hide BusyOk, ClaimsOk, ThreadOk, PassOk;
    }
    hide ListOk, BusyOk, ClaimsOk;
    forall u | 0 <= u < |n.threads| ensures ThreadOk(n, n.threads[u]) && PassOk(n, n.threads[u]) {
      InvAt(s, u);
    }
    InvFrom(n);
  }

  lemma {:induction false} EnterKeeps(s: State, t: nat, e: nat)
    requires Inv(s) && t < |s.threads| && s.threads[t].pc.Idle? && !s.threads[t].done && e in s.list && e !in s.pending
    requires e in s.busy
    requires var c := s.threads[t].called; c != [] ==> c[|c| - 1] < e
    requires forall x :: x in s.threads[t].steady && x <= e ==> x in s.threads[t].called || x == e
    ensures Inv(Enter(s, t, e))
  {
    hide Inv;
    InvAt(s, t);
    var n := Enter(s, t, e);
    var c := s.threads[t].called;
    assert n.threads[t].called == c + [e];
    assert Ascending(c + [e]) && forall x :: x in c ==> x in c + [e];
    NotifierMoves(s, n, t);
  }

  lemma {:induction false} FinishKeeps(s: State, t: nat)
    requires Inv(s) && t < |s.threads| && s.threads[t].pc.Idle?
    requires forall x :: x in s.threads[t].steady ==> x in s.threads[t].called
    ensures Inv(Finish(s, t))
  {
    hide Inv;
    InvAt(s, t);
    NotifierMoves(s, Finish(s, t), t);
  }

  // Between the last call and the next position there is nothing steady.
  lemma {:induction false} NothingSkipped(s: State, t: nat, i: nat, x: nat)
    requires ListOk(s) && t < |s.threads| && PassOk(s, s.threads[t]) && i <= |s.list| && x in s.threads[t].steady
    requires var c := s.threads[t].called; if c == [] then i == 0 else 0 < i && s.list[i - 1] == c[|c| - 1]
    ensures x in s.threads[t].called || (FirstFrom(s, i) < |s.list| && s.list[FirstFrom(s, i)] <= x)
  {
    var k :| 0 <= k < |s.list| && s.list[k] == x;
    var c := s.threads[t].called;
    if k >= i {
      assert s.list[k] !in s.pending;
    } else {
      assert x <= c[|c| - 1];
    }
  }

  lemma {:induction false} AdvanceKeeps(s: State, t: nat, i: nat)
    requires Inv(s) && t < |s.threads| && s.threads[t].pc.Idle? && !s.threads[t].done && i <= |s.list|
    requires var c := s.threads[t].called; if c == [] then i == 0 else 0 < i && s.list[i - 1] == c[|c| - 1]
    ensures Inv(Advance(s, t, i))
  {
    hide Inv;
    InvParts(s);
    InvAt(s, t);
    var j := FirstFrom(s, i);
    forall x | x in s.threads[t].steady ensures x in s.threads[t].called || (j < |s.list| && s.list[j] <= x) {
      NothingSkipped(s, t, i, x);
    }
    if j < |s.list| {
      assert s.list[j] in s.list;
      EnterKeeps(s, t, s.list[j]);
    } else {
      FinishKeeps(s, t);
    }
  }

  lemma {:induction false} NotifyKeeps(s: State, t: nat)
    requires Inv(s) && t < |s.threads|
    ensures Inv(NotifyStep(s, t))
  {
    hide Inv;
    if s.threads[t].pc.Idle? {
      NotifierMoves(s, Begin(s, t), t);
      AdvanceKeeps(Begin(s, t), t, 0);
    }
  }

  lemma {:induction false} ReturnKeeps(s: State, t: nat, ok: bool)
    requires Inv(s) && t < |s.threads|
    ensures Inv(ReturnStep(s, t, ok))
  {
    hide Inv;
    InvAt(s, t);
    InvParts(s);
    var p := s.threads[t].pc;
    if p.Calling? && p.reg in s.busy && s.busy[p.reg] > 0 && p.reg in s.list {
      hide ListOk, BusyOk, ClaimsOk;
      var n := Leave(s, t);
      NotifierMoves(s, n, t);
      AdvanceKeeps(n, t, Position(n.list, p.reg) + 1);
    }
  }

  lemma {:induction false} CallsSame(a: seq<Thread>, b: seq<Thread>, e: nat)
    requires |a| == |b| && forall t :: 0 <= t < |a| ==> (a[t].pc == Calling(e) <==> b[t].pc == Calling(e))
    ensures Calls(a, e) == Calls(b, e)
  {
    if a != [] {
      CallsSame(a[1..], b[1..], e);
    }
  }

  // After a step of an unregistering thread: `n` is `s` but for what that thread may change.
  ghost predicate OwnerStep(s: State, n: State, t: nat)
  {
    && t < |s.threads| == |n.threads| && n.kind == s.kind && n.busy == s.busy && n.next == s.next
    && !s.threads[t].pc.Calling? && !n.threads[t].pc.Calling?
    && (forall u :: 0 <= u < |s.threads| && u != t ==> n.threads[u].pc == s.threads[u].pc)
    && (forall u :: 0 <= u < |s.threads| ==>
          n.threads[u].called == s.threads[u].called && n.threads[u].done == s.threads[u].done)
    && (forall u :: 0 <= u < |s.threads| ==>
          n.threads[u].steady == set x | x in s.threads[u].steady && x in n.list && x !in n.pending)
  }

  lemma {:induction false} OwnerBusy(s: State, n: State, t: nat)
    requires OwnerStep(s, n, t) && BusyOk(s)
    ensures BusyOk(n)
  {
    forall e | e in n.busy ensures n.busy[e] == Calls(n.threads, e) {
      CallsSame(s.threads, n.threads, e);
    }
  }

  lemma {:induction false} OwnerPass(s: State, n: State, t: nat, u: nat)
    requires OwnerStep(s, n, t) && u < |s.threads| && PassOk(s, s.threads[u])
    ensures PassOk(n, n.threads[u])
  {
  }

  lemma {:induction false} OwnerMoves(s: State, n: State, t: nat)
    requires Inv(s) && OwnerStep(s, n, t) && ListOk(n) && ClaimsOk(n)
    requires forall u :: 0 <= u < |n.threads| ==> ThreadOk(n, n.threads[u])
    ensures Inv(n)
  {
    hide Inv;
    InvParts(s);
    OwnerBusy(s, n, t);
    hide ListOk, BusyOk, ClaimsOk, ThreadOk, PassOk, OwnerStep;
    forall u | 0 <= u < |n.threads| ensures PassOk(n, n.threads[u]) {
      InvAt(s, u);
      OwnerPass(s, n, t, u);
    }
    InvFrom(n);
  }

  lemma {:induction false} UnlinkedFacts(list: seq<nat>, e: nat)
    requires Ascending(list) && e in list
    ensures Ascending(Unlinked(list, e)) && forall x :: x in Unlinked(list, e) <==> x in list && x != e
  {
    var i := Position(list, e);
    var r := Unlinked(list, e);
    forall x | x in list && x != e ensures x in r {
      var k :| 0 <= k < |list| && list[k] == x;
      assert x == if k < i then r[k] else r[k - 1];
    }
  }

  // The thread may unregister `e`: nobody else does.
  ghost predicate Owns(s: State, t: nat, e: nat)
  {
    && t < |s.threads| && e in s.list && e in s.busy && e in s.claimed
    && (s.threads[t].pc.Idle? || Unregisters(s.threads[t].pc, e))
    && forall u :: 0 <= u < |s.threads| && u != t ==> !Unregisters(s.threads[u].pc, e)
  }

  lemma {:induction false} OwnerClaims(s: State, n: State, t: nat, e: nat)
    requires ClaimsOk(s) && Owns(s, t, e) && OwnerStep(s, n, t) && n.claimed == s.claimed
    requires n.threads[t].pc.Idle? || Unregisters(n.threads[t].pc, e)
    ensures ClaimsOk(n)
  {
    forall u, x | 0 <= u < |n.threads| && Unregisters(n.threads[u].pc, x)
      ensures x in n.claimed && (u != t ==> Unregisters(s.threads[u].pc, x))
    {
    }
  }

  lemma {:induction false} RemoveKeeps(s: State, t: nat, e: nat)
    requires Inv(s) && Owns(s, t, e) && s.busy[e] == 0
    ensures Inv(Refresh(Remove(s, t, e)))
  {
    hide Inv;
    InvParts(s);
    var n := Refresh(Remove(s, t, e));
    UnlinkedFacts(s.list, e);
    assert OwnerStep(s, n, t);
    OwnerClaims(s, n, t, e);
    assert ListOk(n);
    hide ListOk, ClaimsOk;
    forall u | 0 <= u < |n.threads| ensures ThreadOk(n, n.threads[u]) {
      InvAt(s, u);
      if s.threads[u].pc == Calling(e) {
        CallsCover(s.threads, u, e);
      }
    }
    OwnerMoves(s, n, t);
  }

  // Marking the registration as pending, or going on while it is.
  lemma {:induction false} MarkKeeps(s: State, t: nat, e: nat, p: Pc)
    requires Inv(s) && Owns(s, t, e) && Unregisters(p, e) && (p.Waiting? <==> s.kind.Executive?)
    requires p.Drained? ==> e in s.pending && s.busy[e] == 0
    ensures Inv(Refresh(Go(s, t, p).(pending := s.pending + {e})))
  {
    hide Inv;
    InvParts(s);
    var n := Refresh(Go(s, t, p).(pending := s.pending + {e}));
    assert OwnerStep(s, n, t);
    OwnerClaims(s, n, t, e);
    assert ListOk(n);
    hide ListOk, ClaimsOk;
    forall u | 0 <= u < |n.threads| ensures ThreadOk(n, n.threads[u]) {
      InvAt(s, u);
    }
    OwnerMoves(s, n, t);
  }

  lemma {:induction false} ClaimKeeps(s: State, e: nat)
    requires Inv(s) && e in s.list
    ensures Inv(s.(claimed := s.claimed + {e}))
  {
    var n := s.(claimed := s.claimed + {e});
    forall u | 0 <= u < |n.threads| ensures ThreadOk(n, n.threads[u]) && PassOk(n, n.threads[u]) {
      InvAt(s, u);
    }
  }

  lemma {:induction false} UnregisterKeeps(s: State, t: nat, e: nat)
    requires Inv(s) && t < |s.threads|
    ensures Inv(Refresh(UnregisterStep(s, t, e)))
  {
    hide Inv;
    InvParts(s);
    if !s.threads[t].pc.Idle? || e !in s.list || e !in s.busy || e in s.claimed {
      RefreshSame(s);
    } else {
      ClaimKeeps(s, e);
      var n := s.(claimed := s.claimed + {e});
      assert Owns(n, t, e);
      hide ListOk, BusyOk, ClaimsOk;
      if s.kind.Registry? {
        MarkKeeps(n, t, e, Marked(e));
      } else if n.busy[e] > 0 {
        MarkKeeps(n, t, e, Waiting(e));
      } else {
        RemoveKeeps(n, t, e);
      }
    }
  }

  // What is steady needs no refreshing.
  lemma {:induction false} RefreshSame(s: State)
    requires Inv(s)
    ensures Refresh(s) == s
  {
    hide Inv;
    forall t | 0 <= t < |s.threads| ensures Refresh(s).threads[t] == s.threads[t] {
      InvAt(s, t);
      assert (set e | e in s.threads[t].steady && e in s.list && e !in s.pending) == s.threads[t].steady;
    }
    assert Refresh(s).threads == s.threads;
  }

  lemma {:induction false} OwnerOf(s: State, t: nat)
    requires Inv(s) && t < |s.threads|
    requires (s.threads[t].pc.Waiting? || s.threads[t].pc.Marked? || s.threads[t].pc.Drained?)
    ensures Owns(s, t, s.threads[t].pc.reg) && s.threads[t].pc.reg in s.pending
  {
    hide Inv;
    InvParts(s);
    InvAt(s, t);
    assert Unregisters(s.threads[t].pc, s.threads[t].pc.reg);
  }

  lemma {:induction false} WakeKeeps(s: State, t: nat)
    requires Inv(s) && t < |s.threads|
    ensures Inv(Refresh(WakeStep(s, t)))
  {
    hide Inv;
    if s.threads[t].pc.Waiting? {
      OwnerOf(s, t);
      InvAt(s, t);
      var e := s.threads[t].pc.reg;
      if s.busy[e] > 0 {
        MarkKeeps(s, t, e, Waiting(e));
      } else {
        RemoveKeeps(s, t, e);
      }
    } else {
      RefreshSame(s);
    }
  }

  lemma {:induction false} DrainKeeps(s: State, t: nat)
    requires Inv(s) && t < |s.threads|
    ensures Inv(DrainStep(s, t))
  {
    hide Inv;
    var p := s.threads[t].pc;
    if p.Marked? && p.reg in s.busy && s.busy[p.reg] == 0 {
      OwnerOf(s, t);
      InvAt(s, t);
      MarkKeeps(s, t, p.reg, Drained(p.reg));
      RefreshSame(s);
      assert s.pending + {p.reg} == s.pending;
      DrainIsMark(s, t);
    }
  }

  lemma {:induction false} DrainIsMark(s: State, t: nat)
    requires t < |s.threads| && Refresh(s) == s && s.threads[t].pc.Marked?
    requires s.pending + {s.threads[t].pc.reg} == s.pending
    ensures var e := s.threads[t].pc.reg;
            Refresh(Go(s, t, Drained(e)).(pending := s.pending + {e})) == Go(s, t, Drained(e))
  {
    var e := s.threads[t].pc.reg;
    var n := Go(s, t, Drained(e));
    forall u | 0 <= u < |n.threads| ensures Refresh(n).threads[u] == n.threads[u] {
      assert Refresh(s).threads[u] == s.threads[u];
    }
    assert Refresh(n).threads == n.threads;
  }

  lemma {:induction false} UnlinkKeeps(s: State, t: nat)
    requires Inv(s) && t < |s.threads|
    ensures Inv(Refresh(UnlinkStep(s, t)))
  {
    hide Inv;
    if s.threads[t].pc.Drained? {
      OwnerOf(s, t);
      InvAt(s, t);
      RemoveKeeps(s, t, s.threads[t].pc.reg);
    } else {
      RefreshSame(s);
    }
  }

  lemma {:induction false} RegisterKeeps(s: State)
    requires Inv(s)
    ensures Inv(RegisterStep(s))
  {
    hide Inv;
    InvParts(s);
    var n := RegisterStep(s);
    if n != s {
      forall i | 0 <= i < |s.list| ensures s.list[i] < s.next {
        assert s.list[i] in s.list;
      }
      assert Ascending(n.list);
      assert ListOk(n);
      forall t | 0 <= t < |n.threads| ensures ThreadOk(n, n.threads[t]) && PassOk(n, n.threads[t]) {
        InvAt(s, t);
      }
      forall t | 0 <= t < |n.threads| ensures n.threads[t].pc != Calling(s.next) {
        InvAt(s, t);
      }
      NoCalls(n.threads, s.next);
      InvFrom(n);
    }
  }

  lemma {:induction false} StepKeepsInv(s: State, e: Event)
    requires Inv(s)
    ensures Inv(Step(s, e))
  {
    hide Inv, RegisterStep, NotifyStep, ReturnStep, UnregisterStep, WakeStep, DrainStep, UnlinkStep, Refresh;
    match e {
      case Register => RegisterKeeps(s);
      case Notify(t) => if t < |s.threads| { NotifyKeeps(s, t); }
      case Return(t, ok) => if t < |s.threads| { ReturnKeeps(s, t, ok); }
      case Unregister(t, reg) => if t < |s.threads| { UnregisterKeeps(s, t, reg); }
      case Wake(t) => if t < |s.threads| { WakeKeeps(s, t); }
      case Drain(t) => if t < |s.threads| { DrainKeeps(s, t); }
      case Unlink(t) => if t < |s.threads| { UnlinkKeeps(s, t); }
    }
  }

  // ----- Whole runs

  ghost predicate Init(s: State)
  {
    && s.list == [] && s.busy == map[] && s.pending == {} && s.freed == {} && s.claimed == {}
    && forall t :: 0 <= t < |s.threads| ==> s.threads[t] == Thread(Idle, [], {}, false)
  }

  function Run(s: State, events: seq<Event>): State
    decreases |events|
  {
    if events == [] then s else Run(Step(s, events[0]), events[1..])
  }

  lemma {:induction false} RunKeepsInv(s: State, events: seq<Event>)
    requires Inv(s)
    ensures Inv(Run(s, events))
    decreases |events|
  {
    if events != [] {
      StepKeepsInv(s, events[0]);
      hide Step, Inv;
      RunKeepsInv(Step(s, events[0]), events[1..]);
    }
  }

  /** In every run, while a notifier's callback runs its registration is linked and not freed, so that the
      notifier can go on from it; and a registration's busy count is the number of calls in flight. */
  lemma {:induction false} CursorIsSafe(s: State, events: seq<Event>)
    requires Init(s)
    ensures var n := Run(s, events);
            && (forall t :: 0 <= t < |n.threads| && n.threads[t].pc.Calling? ==>
                  n.threads[t].pc.reg in n.list && n.threads[t].pc.reg !in n.freed)
            && (forall e :: e in n.busy ==> n.busy[e] == Calls(n.threads, e))
  {
    RunKeepsInv(s, events);
    var n := Run(s, events);
    hide Run;
    forall t | 0 <= t < |n.threads| && n.threads[t].pc.Calling? ensures n.threads[t].pc.reg in n.list {
      InvAt(n, t);
    }
  }

  /** No call of a registration starts once it is pending, and none once it is freed. */
  lemma {:induction false} NoNewCall(s: State, events: seq<Event>, e: Event, t: nat, reg: nat)
    requires Init(s) && StartsCall(Run(s, events), Step(Run(s, events), e), t, reg)
    ensures var n := Run(s, events); reg !in n.pending && reg !in n.freed && reg in n.list
  {
    RunKeepsInv(s, events);
    hide Run, Step;
    var n := Run(s, events);
    InvParts(n);
    NewCallIsEligible(n, e, t, reg);
  }

  // Only the notifier itself starts a call, and only where the loop finds one that is not pending.
  lemma {:induction false} AdvanceCalls(n: State, u: nat, i: nat, t: nat)
    requires u < |n.threads| && t < |n.threads| && i <= |n.list|
    ensures var m := Advance(n, u, i);
            && |m.threads| == |n.threads| && (t != u ==> m.threads[t] == n.threads[t])
            && (t == u && m.threads[t].pc.Calling? ==>
                  m.threads[t].pc.reg in n.list && m.threads[t].pc.reg !in n.pending)
  {
  }

  // Unregistering starts no call.
  ghost predicate CallsNobody(n: State, m: State, t: nat)
  {
    && t < |n.threads| == |m.threads| && m.threads[t].called == n.threads[t].called
    && (m.threads[t].pc == n.threads[t].pc || !m.threads[t].pc.Calling?)
  }

  lemma {:induction false} OwnersCallNobody(n: State, u: nat, r: nat, t: nat)
    requires u < |n.threads| && t < |n.threads|
    ensures CallsNobody(n, UnregisterStep(n, u, r), t)
    ensures CallsNobody(n, WakeStep(n, u), t) && CallsNobody(n, UnlinkStep(n, u), t)
  {
    hide Unlinked, Position;
  }

  lemma {:induction false} RefreshCallsNobody(n: State, m: State, t: nat)
    requires CallsNobody(n, m, t)
    ensures CallsNobody(n, Refresh(m), t)
  {
  }

  /** `t` starts a call of `reg` in the step from `n` to `m`. */
  predicate StartsCall(n: State, m: State, t: nat, reg: nat)
  {
    && t < |n.threads| == |m.threads| && m.threads[t].pc == Calling(reg)
    && (n.threads[t].pc != Calling(reg) || |m.threads[t].called| != |n.threads[t].called|)
  }

  lemma {:induction false} NotifierStarts(n: State, u: nat, ok: bool, t: nat, reg: nat)
    requires u < |n.threads|
    ensures StartsCall(n, NotifyStep(n, u), t, reg) ==> reg !in n.pending && reg in n.list
    ensures StartsCall(n, ReturnStep(n, u, ok), t, reg) ==> reg !in n.pending && reg in n.list
  {
    hide Advance;
    if t < |n.threads| {
      AdvanceCalls(Begin(n, u), u, 0, t);
      var p := n.threads[u].pc;
      if p.Calling? && p.reg in n.busy && n.busy[p.reg] > 0 && p.reg in n.list {
        AdvanceCalls(Leave(n, u), u, Position(n.list, p.reg) + 1, t);
      }
    }
  }

  lemma {:induction false} OwnerStarts(n: State, u: nat, r: nat, t: nat, reg: nat)
    requires u < |n.threads|
    ensures !StartsCall(n, Refresh(UnregisterStep(n, u, r)), t, reg)
    ensures !StartsCall(n, Refresh(WakeStep(n, u)), t, reg)
    ensures !StartsCall(n, Refresh(UnlinkStep(n, u)), t, reg)
  {
    hide Refresh, UnregisterStep, WakeStep, UnlinkStep;
    if t < |n.threads| {
      OwnersCallNobody(n, u, r, t);
      RefreshCallsNobody(n, UnregisterStep(n, u, r), t);
      RefreshCallsNobody(n, WakeStep(n, u), t);
      RefreshCallsNobody(n, UnlinkStep(n, u), t);
    }
  }

  lemma {:induction false} NewCallIsEligible(n: State, e: Event, t: nat, reg: nat)
    ensures StartsCall(n, Step(n, e), t, reg) ==> reg !in n.pending && reg in n.list
  {
    hide NotifyStep, ReturnStep, UnregisterStep, WakeStep, UnlinkStep, Refresh;
    if !e.Register? && e.t < |n.threads| {
      NotifierStarts(n, e.t, if e.Return? then e.ok else true, t, reg);
      OwnerStarts(n, e.t, if e.Unregister? then e.reg else 0, t, reg);
    }
  }

  /** A pass that reached the end called every registration that was linked and not pending all the while,
      exactly once and in list order. */
  lemma {:induction false} EveryoneCalledOnce(s: State, events: seq<Event>, t: nat)
    requires Init(s) && t < |Run(s, events).threads|
    ensures var th := Run(s, events).threads[t];
            Ascending(th.called) && (th.done ==> forall e :: e in th.steady ==> multiset(th.called)[e] == 1)
  {
    RunKeepsInv(s, events);
    var n := Run(s, events);
    hide Run;
    InvAt(n, t);
    forall e | e in n.threads[t].called ensures multiset(n.threads[t].called)[e] == 1 {
      AscendingOnce(n.threads[t].called, e);
    }
  }

  lemma {:induction false} AscendingOnce(q: seq<nat>, e: nat)
    requires Ascending(q)
    ensures multiset(q)[e] == if e in q then 1 else 0
  {
    if q != [] {
      assert q == [q[0]] + q[1..];
      AscendingOnce(q[1..], e);
    }
  }
}
