/** Callback blocks under run-down protection. A slot holds a block and a few references in advance (fast
    references), so that most callers need not touch the block's run-down count. Each step is one
    interlocked operation. */
module Rundown {
  import opened Options

  const MAX_FAST_REFS: nat := 7

  datatype Slot = Empty | Block(block: nat, fast: nat)

  datatype Pc =
    | Idle
    | Holding(block: nat)
    | Last(block: nat)                          // took the last fast reference
    | Inserting(block: nat)                     // and seven more from the run-down count
    | BackingDown(block: nat)                   // which the slot did not take
    | Releasing(block: nat)                     // the slot did not take the reference back
    | Swapping(incoming: Option<nat>, outgoing: Option<nat>)
    | Settling(block: nat, count: nat)          // the block taken out of the slot, with its fast count
    | Withdrawing(block: nat)                   // the block that did not get into the slot

  datatype State = State(slot: Slot, count: map<nat, nat>, active: set<nat>, pc: seq<Pc>)

  datatype Event =
    | Reference(t: nat) | Refill(t: nat) | Insert(t: nat) | BackDown(t: nat)
    | Release(t: nat) | SlowRelease(t: nat)
    | Exchange(t: nat, incoming: Option<nat>, outgoing: Option<nat>) | Swap(t: nat) | Settle(t: nat) | Withdraw(t: nat)
    | RunDown(block: nat)

  function Held(slot: Slot): Option<nat>
  {
    if slot.Empty? then None else Some(slot.block)
  }

  function Go(s: State, t: nat, p: Pc): State
    requires t < |s.pc|
  {
    s.(pc := s.pc[t := p])
  }

  /** ExfAcquireRundownProtectionEx. */
  function Acquire(s: State, b: nat, n: nat): State
    requires b in s.count
  {
    s.(count := s.count[b := s.count[b] + n])
  }

  /** ExfReleaseRundownProtectionEx. */
  function Drop(s: State, b: nat, n: nat): State
    requires b in s.count
  {
    s.(count := s.count[b := if s.count[b] < n then 0 else s.count[b] - n])
  }

  // ----- ExReferenceCallBackBlock

  function ReferenceStep(s: State, t: nat): State
    requires t < |s.pc|
  {
    var p := s.pc[t];
    if p.Idle? && s.slot.Block? && s.slot.fast > 0 then
      Go(s, t, if s.slot.fast == 1 then Last(s.slot.block) else Holding(s.slot.block)).(
        slot := s.slot.(fast := s.slot.fast - 1))
    else s
  }

  function RefillStep(s: State, t: nat): State
    requires t < |s.pc|
  {
    var p := s.pc[t];
    if p.Last? && p.block in s.count then
      if p.block in s.active then Go(s, t, Holding(p.block))
      else Go(Acquire(s, p.block, MAX_FAST_REFS), t, Inserting(p.block))
    else s
  }

  /** ExInsertFastReference. */
  function InsertStep(s: State, t: nat): State
    requires t < |s.pc|
  {
    var p := s.pc[t];
    if p.Inserting? then
      if s.slot.Empty? || s.slot.fast + MAX_FAST_REFS > MAX_FAST_REFS || s.slot.block != p.block then
        Go(s, t, BackingDown(p.block))
      else Go(s, t, Holding(p.block)).(slot := s.slot.(fast := s.slot.fast + MAX_FAST_REFS))
    else s
  }

  function BackDownStep(s: State, t: nat): State
    requires t < |s.pc|
  {
    var p := s.pc[t];
    if p.BackingDown? && p.block in s.count then Go(Drop(s, p.block, MAX_FAST_REFS), t, Holding(p.block)) else s
  }

  // ----- ExDereferenceCallBackBlock

  /** ExReleaseFastReference. */
  function ReleaseStep(s: State, t: nat): State
    requires t < |s.pc|
  {
    var p := s.pc[t];
    if p.Holding? then
      if s.slot.Block? && s.slot.block == p.block && s.slot.fast < MAX_FAST_REFS then
        Go(s, t, Idle).(slot := s.slot.(fast := s.slot.fast + 1))
      else Go(s, t, Releasing(p.block))
    else s
  }

  function SlowReleaseStep(s: State, t: nat): State
    requires t < |s.pc|
  {
    var p := s.pc[t];
    if p.Releasing? && p.block in s.count then Go(Drop(s, p.block, 1), t, Idle) else s
  }

  // ----- ExCompareExchangeCallBack

  function ExchangeStep(s: State, t: nat, incoming: Option<nat>, outgoing: Option<nat>): State
    requires t < |s.pc|
  {
    if !s.pc[t].Idle? then s
    else if incoming.None? then Go(s, t, Swapping(incoming, outgoing))
    else if incoming.value !in s.count || incoming.value in s.active then s
    else Go(Acquire(s, incoming.value, MAX_FAST_REFS + 1), t, Swapping(incoming, outgoing))
  }

  /** ExCompareSwapFastReference. */
  function SwapStep(s: State, t: nat): State
    requires t < |s.pc|
  {
    var p := s.pc[t];
    if !p.Swapping? then s
    else if Held(s.slot) == p.outgoing then
      Go(s, t, if s.slot.Empty? then Idle else Settling(s.slot.block, s.slot.fast)).(
        slot := if p.incoming.Some? then Block(p.incoming.value, MAX_FAST_REFS) else Empty)
    else Go(s, t, if p.incoming.Some? then Withdrawing(p.incoming.value) else Idle)
  }

  function SettleStep(s: State, t: nat): State
    requires t < |s.pc|
  {
    var p := s.pc[t];
    if p.Settling? && p.block in s.count then Go(Drop(s, p.block, p.count + 1), t, Idle) else s
  }

  function WithdrawStep(s: State, t: nat): State
    requires t < |s.pc|
  {
    var p := s.pc[t];
    if p.Withdrawing? && p.block in s.count then Go(Drop(s, p.block, MAX_FAST_REFS + 1), t, Idle) else s
  }

  function Step(s: State, e: Event): State
  {
    match e
    case RunDown(b) => s.(active := s.active + {b})
    case Exchange(t, incoming, outgoing) => if t < |s.pc| then ExchangeStep(s, t, incoming, outgoing) else s
    case Reference(t) => if t < |s.pc| then ReferenceStep(s, t) else s
    case Refill(t) => if t < |s.pc| then RefillStep(s, t) else s
    case Insert(t) => if t < |s.pc| then InsertStep(s, t) else s
    case BackDown(t) => if t < |s.pc| then BackDownStep(s, t) else s
    case Release(t) => if t < |s.pc| then ReleaseStep(s, t) else s
    case SlowRelease(t) => if t < |s.pc| then SlowReleaseStep(s, t) else s
    case Swap(t) => if t < |s.pc| then SwapStep(s, t) else s
    case Settle(t) => if t < |s.pc| then SettleStep(s, t) else s
    case Withdraw(t) => if t < |s.pc| then WithdrawStep(s, t) else s
  }

  // ----- Conservation

  /** References a thread accounts for. */
  function Weight(p: Pc, b: nat): nat
  {
    match p
    case Idle => 0
    case Holding(x) => if x == b then 1 else 0
    case Last(x) => if x == b then 1 else 0
    case Inserting(x) => if x == b then 1 + MAX_FAST_REFS else 0
    case BackingDown(x) => if x == b then 1 + MAX_FAST_REFS else 0
    case Releasing(x) => if x == b then 1 else 0
    case Swapping(n, _) => if n == Some(b) then MAX_FAST_REFS + 1 else 0
    case Settling(x, c) => if x == b then c + 1 else 0
    case Withdrawing(x) => if x == b then MAX_FAST_REFS + 1 else 0
  }

  function Total(pc: seq<Pc>, b: nat): nat
  {
    if pc == [] then 0 else Weight(pc[0], b) + Total(pc[1..], b)
  }

  /** References the slot accounts for: its fast references, and one for being there. */
  function SlotWeight(slot: Slot, b: nat): nat
  {
    if slot.Block? && slot.block == b then slot.fast + 1 else 0
  }

  predicate BlocksKnown(s: State, p: Pc)
  {
    match p
    case Idle => true
    case Swapping(n, _) => n.Some? ==> n.value in s.count
    case Holding(x) => x in s.count
    case Last(x) => x in s.count
    case Inserting(x) => x in s.count
    case BackingDown(x) => x in s.count
    case Releasing(x) => x in s.count
    case Settling(x, _) => x in s.count
    case Withdrawing(x) => x in s.count
  }

  ghost predicate Inv(s: State)
  {
    && (s.slot.Block? ==> s.slot.fast <= MAX_FAST_REFS && s.slot.block in s.count)
    && (forall t :: 0 <= t < |s.pc| ==> BlocksKnown(s, s.pc[t]))
    && (forall b :: b in s.count ==> s.count[b] == Total(s.pc, b) + SlotWeight(s.slot, b))
  }

  lemma {:induction false} TotalUpdate(pc: seq<Pc>, t: nat, p: Pc, b: nat)
    requires t < |pc|
    ensures Total(pc[t := p], b) + Weight(pc[t], b) == Total(pc, b) + Weight(p, b)
  {
    if t == 0 {
      assert pc[0 := p][1..] == pc[1..];
    } else {
      TotalUpdate(pc[1..], t - 1, p, b);
      assert pc[t := p][1..] == pc[1..][t - 1 := p];
    }
  }

  lemma {:induction false} TotalCovers(pc: seq<Pc>, t: nat, b: nat)
    requires t < |pc|
    ensures Weight(pc[t], b) <= Total(pc, b)
  {
    if t > 0 {
      TotalCovers(pc[1..], t - 1, b);
    }
  }

  // A step of one thread keeps the account of every block.
  lemma {:induction false} Balanced(s: State, n: State, t: nat)
    requires Inv(s) && t < |s.pc| && |n.pc| == |s.pc| && n.pc == s.pc[t := n.pc[t]] && n.count.Keys == s.count.Keys
    requires BlocksKnown(n, n.pc[t]) && (n.slot.Block? ==> n.slot.fast <= MAX_FAST_REFS && n.slot.block in n.count)
    requires forall b :: b in s.count ==>
               n.count[b] + Weight(s.pc[t], b) + SlotWeight(s.slot, b) ==
               s.count[b] + Weight(n.pc[t], b) + SlotWeight(n.slot, b)
    ensures Inv(n)
  {
    forall b | b in n.count ensures n.count[b] == Total(n.pc, b) + SlotWeight(n.slot, b) {
      TotalUpdate(s.pc, t, n.pc[t], b);
      hide *;
    }
    forall u | 0 <= u < |n.pc| ensures BlocksKnown(n, n.pc[u]) {
      assert u != t ==> BlocksKnown(s, s.pc[u]);
    }
  }

  // What the thread that moves may rely on.
  ghost predicate Ready(s: State, t: nat)
  {
    && t < |s.pc| && BlocksKnown(s, s.pc[t])
    && (s.slot.Block? ==> s.slot.fast <= MAX_FAST_REFS && s.slot.block in s.count)
    && s.pc[t := s.pc[t]] == s.pc && forall b :: b in s.count ==> Weight(s.pc[t], b) <= s.count[b]
  }

  lemma {:induction false} ReadyThread(s: State, t: nat)
    requires Inv(s) && t < |s.pc|
    ensures Ready(s, t)
  {
    forall b | b in s.count ensures Weight(s.pc[t], b) <= s.count[b] {
      TotalCovers(s.pc, t, b);
    }
  }

  lemma {:induction false} ReferenceKeeps(s: State, t: nat)
    requires Inv(s) && Ready(s, t)
    ensures Inv(ReferenceStep(s, t)) && Inv(RefillStep(s, t))
  {
    hide Inv;
    Balanced(s, ReferenceStep(s, t), t);
    Balanced(s, RefillStep(s, t), t);
  }

  lemma {:induction false} InsertKeeps(s: State, t: nat)
    requires Inv(s) && Ready(s, t)
    ensures Inv(InsertStep(s, t)) && Inv(BackDownStep(s, t))
  {
    hide Inv;
    Balanced(s, InsertStep(s, t), t);
    Balanced(s, BackDownStep(s, t), t);
  }

  lemma {:induction false} ReleaseKeeps(s: State, t: nat)
    requires Inv(s) && Ready(s, t)
    ensures Inv(ReleaseStep(s, t)) && Inv(SlowReleaseStep(s, t))
  {
    hide Inv;
    Balanced(s, ReleaseStep(s, t), t);
    Balanced(s, SlowReleaseStep(s, t), t);
  }

  lemma {:induction false} SwapKeeps(s: State, t: nat, incoming: Option<nat>, outgoing: Option<nat>)
    requires Inv(s) && Ready(s, t)
    ensures Inv(ExchangeStep(s, t, incoming, outgoing)) && Inv(SwapStep(s, t))
  {
    hide Inv;
    ExchangeKeeps(s, t, incoming, outgoing);
    hide ExchangeStep;
    Balanced(s, SwapStep(s, t), t);
  }

  lemma {:induction false} ExchangeKeeps(s: State, t: nat, incoming: Option<nat>, outgoing: Option<nat>)
    requires Inv(s) && Ready(s, t)
    ensures Inv(ExchangeStep(s, t, incoming, outgoing))
  {
    hide Inv;
    Balanced(s, ExchangeStep(s, t, incoming, outgoing), t);
  }

  lemma {:induction false} SettleKeeps(s: State, t: nat)
    requires Inv(s) && Ready(s, t)
    ensures Inv(SettleStep(s, t)) && Inv(WithdrawStep(s, t))
  {
    hide Inv;
    Balanced(s, SettleStep(s, t), t);
    Balanced(s, WithdrawStep(s, t), t);
  }

  lemma {:induction false} StepKeepsInv(s: State, e: Event)
    requires Inv(s)
    ensures Inv(Step(s, e))
  {
    if !e.RunDown? && e.t < |s.pc| {
      ReadyThread(s, e.t);
      hide *;
      ReferenceKeeps(s, e.t);
      InsertKeeps(s, e.t);
      ReleaseKeeps(s, e.t);
      SettleKeeps(s, e.t);
      SwapKeeps(s, e.t, if e.Exchange? then e.incoming else None, if e.Exchange? then e.outgoing else None);
    }
  }

  ghost predicate Init(s: State)
  {
    s.slot.Empty? && (forall t :: 0 <= t < |s.pc| ==> s.pc[t].Idle?) && forall b :: b in s.count ==> s.count[b] == 0
  }

  function Run(s: State, events: seq<Event>): State
    decreases |events|
  {
    if events == [] then s else Run(Step(s, events[0]), events[1..])
  }

  lemma {:induction false} RunKeepsInv(s: State, events: seq<Event>)
    requires Inv(s)
    ensures Inv(Run(s, events))
    decreases |events|
  {
    if events != [] {
      StepKeepsInv(s, events[0]);
      RunKeepsInv(Step(s, events[0]), events[1..]);
    }
  }

  lemma {:induction false} TotalZero(pc: seq<Pc>, b: nat)
    ensures Total(pc, b) == 0 <==> forall t :: 0 <= t < |pc| ==> Weight(pc[t], b) == 0
  {
    if pc != [] {
      TotalZero(pc[1..], b);
      assert forall t :: 0 < t < |pc| ==> pc[t] == pc[1..][t - 1];
    }
  }

  /** In every run, a block's run-down count is the references outstanding, seven more for each refill on
      its way, what a swap is about to put in or give back, and, while the block is in the slot, its fast
      references and one. */
  lemma {:induction false} CountConserved(s: State, events: seq<Event>)
    requires Init(s)
    ensures var n := Run(s, events); forall b :: b in n.count ==> n.count[b] == Total(n.pc, b) + SlotWeight(n.slot, b)
  {
    forall b | b in s.count ensures Total(s.pc, b) == 0 {
      TotalZero(s.pc, b);
    }
    RunKeepsInv(s, events);
  }

  /** Threads that hold the block. */
  function Holders(pc: seq<Pc>, b: nat): nat
  {
    if pc == [] then 0 else (if pc[0] == Holding(b) then 1 else 0) + Holders(pc[1..], b)
  }

  /** Between the operations the count is the outstanding references, and the fast count and one while the
      block is in the slot. */
  lemma {:induction false} CountBetweenOperations(s: State, events: seq<Event>, b: nat)
    requires Init(s) && b in Run(s, events).count
    requires forall t :: 0 <= t < |Run(s, events).pc| ==> Run(s, events).pc[t].Idle? || Run(s, events).pc[t].Holding?
    ensures var n := Run(s, events); n.count[b] == Holders(n.pc, b) + SlotWeight(n.slot, b)
  {
    CountConserved(s, events);
    TotalIsHolders(Run(s, events).pc, b);
  }

  lemma {:induction false} TotalIsHolders(pc: seq<Pc>, b: nat)
    requires forall t :: 0 <= t < |pc| ==> pc[t].Idle? || pc[t].Holding?
    ensures Total(pc, b) == Holders(pc, b)
  {
    if pc != [] {
      TotalIsHolders(pc[1..], b);
    }
  }

  /** The thread has a reference to the block, or is about to put it in or has just taken it out. */
  predicate Uses(p: Pc, b: nat)
  {
    if p.Swapping? then p.incoming == Some(b) else !p.Idle? && p.block == b
  }

  /** So at zero nobody holds the block, and it is not in the slot. */
  lemma {:induction false} NoHolderAtZero(s: State, events: seq<Event>, b: nat)
    requires Init(s) && b in Run(s, events).count && Run(s, events).count[b] == 0
    ensures var n := Run(s, events); Held(n.slot) != Some(b) && forall t :: 0 <= t < |n.pc| ==> !Uses(n.pc[t], b)
  {
    CountConserved(s, events);
    var n := Run(s, events);
    TotalZero(n.pc, b);
  }

  // ----- Run-down

  ghost predicate Dead(s: State, b: nat)
  {
    b in s.active && b in s.count && s.count[b] == 0
  }

  lemma {:induction false} DeadStaysDead(s: State, e: Event, b: nat)
    requires Inv(s) && Dead(s, b)
    ensures Dead(Step(s, e), b)
  {
    TotalZero(s.pc, b);
    assert SlotWeight(s.slot, b) == 0;
    if !e.RunDown? && e.t < |s.pc| {
      assert Weight(s.pc[e.t], b) == 0;
      hide Inv, Total;
    }
  }

  lemma {:induction false} DeadRun(s: State, events: seq<Event>, b: nat)
    requires Inv(s) && Dead(s, b)
    ensures Dead(Run(s, events), b) && Inv(Run(s, events))
    decreases |events|
  {
    if events != [] {
      DeadStaysDead(s, events[0], b);
      StepKeepsInv(s, events[0]);
      hide Step, Inv, Dead;
      DeadRun(Step(s, events[0]), events[1..], b);
    }
  }

  /** Once the wait for a block's run-down is over, nobody will ever use the block again: it may be freed. */
  lemma {:induction false} SafeToFree(s: State, before: seq<Event>, after: seq<Event>, b: nat)
    requires Init(s) && Dead(Run(s, before), b)
    ensures var n := Run(Run(s, before), after);
            Held(n.slot) != Some(b) && forall t :: 0 <= t < |n.pc| ==> !Uses(n.pc[t], b)
  {
    forall c | c in s.count ensures Total(s.pc, c) == 0 {
      TotalZero(s.pc, c);
    }
    RunKeepsInv(s, before);
    DeadRun(Run(s, before), after, b);
    TotalZero(Run(Run(s, before), after).pc, b);
  }

  // ----- The race that ExReferenceCallBackBlock does not handle

  /** The thread would find a block in the slot without a fast reference. */
  ghost predicate Unhandled(s: State, t: nat)
  {
    t < |s.pc| && s.pc[t].Idle? && s.slot.Block? && s.slot.fast == 0
  }

  /** The thread has a reference that came from the slot. */
  function Took(p: Pc, b: nat): nat
  {
    if p == Holding(b) || p == Last(b) || p == Inserting(b) || p == BackingDown(b) then 1 else 0
  }

  function Takers(pc: seq<Pc>, b: nat): nat
  {
    if pc == [] then 0 else Took(pc[0], b) + Takers(pc[1..], b)
  }

  lemma {:induction false} TakersUpdate(pc: seq<Pc>, t: nat, p: Pc, b: nat)
    requires t < |pc|
    ensures Takers(pc[t := p], b) + Took(pc[t], b) == Takers(pc, b) + Took(p, b)
  {
    if t == 0 {
      assert pc[0 := p][1..] == pc[1..];
    } else {
      TakersUpdate(pc[1..], t - 1, p, b);
      assert pc[t := p][1..] == pc[1..][t - 1 := p];
    }
  }

  lemma {:induction false} TakersFewer(pc: seq<Pc>, t: nat, b: nat)
    requires t < |pc| && pc[t].Idle?
    ensures Takers(pc, b) < |pc|
  {
    if t > 0 {
      TakersFewer(pc[1..], t - 1, b);
    } else {
      TakersAtMost(pc[1..], b);
    }
  }

  lemma {:induction false} TakersAtMost(pc: seq<Pc>, b: nat)
    ensures Takers(pc, b) <= |pc|
  {
    if pc != [] {
      TakersAtMost(pc[1..], b);
    }
  }

  /** The fast references that are gone from the slot are with threads. */
  ghost predicate Supplied(s: State)
  {
    s.slot.Block? ==> s.slot.fast <= MAX_FAST_REFS <= s.slot.fast + Takers(s.pc, s.slot.block)
  }

  lemma {:induction false} StepKeepsSupply(s: State, e: Event)
    requires Supplied(s)
    ensures Supplied(Step(s, e))
  {
    var n := Step(s, e);
    if !e.RunDown? && e.t < |s.pc| && n != s {
      SupplyMoves(s, e);
      assert n.pc == s.pc[e.t := n.pc[e.t]];
      hide Step, Took, Takers;
      if n.slot.Block? {
        TakersUpdate(s.pc, e.t, n.pc[e.t], n.slot.block);
      }
    }
  }

  // What leaves the slot goes to the thread, and what the thread gives up goes to the slot or is not missed.
  lemma {:induction false} SupplyMoves(s: State, e: Event)
    requires Supplied(s) && !e.RunDown? && e.t < |s.pc|
    ensures var n := Step(s, e);
            n.slot.Block? ==>
              || n.slot.fast == MAX_FAST_REFS
              || (&& s.slot.Block? && s.slot.block == n.slot.block && n.slot.fast <= MAX_FAST_REFS
                  && s.slot.fast + Took(s.pc[e.t], n.slot.block) <= n.slot.fast + Took(n.pc[e.t], n.slot.block))
  {
    hide Takers;
  }

  lemma {:induction false} RunKeepsSupply(s: State, events: seq<Event>)
    requires Supplied(s)
    ensures Supplied(Run(s, events)) && |Run(s, events).pc| == |s.pc|
    decreases |events|
  {
    if events != [] {
      StepKeepsSupply(s, events[0]);
      assert |Step(s, events[0]).pc| == |s.pc|;
      hide Step, Supplied;
      RunKeepsSupply(Step(s, events[0]), events[1..]);
    }
  }

  // Threads k, k + 1, ... take a reference each, until none is left.
  lemma {:induction false} TakeAll(s: State, k: nat) returns (events: seq<Event>)
    requires s.slot.Block? && 0 < k && k + s.slot.fast <= |s.pc| && s.pc[0].Idle?
    requires forall t :: k <= t < |s.pc| ==> s.pc[t].Idle?
    ensures Unhandled(Run(s, events), 0)
    decreases s.slot.fast
  {
    if s.slot.fast == 0 {
      events := [];
    } else {
      var rest := TakeAll(Step(s, Reference(k)), k + 1);
      events := [Reference(k)] + rest;
      assert events[1..] == rest;
    }
  }

  /** Some run reaches the race if and only if more uses can be in progress at once than there are fast references.
      An entry of `pc` is one use: a thread that references the block again inside its callback is two. */
  lemma {:induction false} RaceExactly(s: State, b: nat)
    requires Init(s) && b in s.count && b !in s.active
    ensures (exists events, t: nat :: Unhandled(Run(s, events), t)) <==> |s.pc| > MAX_FAST_REFS
  {
    if |s.pc| > MAX_FAST_REFS {
      var s1 := Step(s, Exchange(0, Some(b), None));
      var s2 := Step(s1, Swap(0));
      assert s2.pc[0].Idle? && s2.slot == Block(b, MAX_FAST_REFS);
      var rest := TakeAll(s2, 1);
      var events := [Exchange(0, Some(b), None)] + ([Swap(0)] + rest);
      assert events[1..] == [Swap(0)] + rest && events[1..][1..] == rest;
      assert Run(s, events) == Run(s2, rest) && Unhandled(Run(s, events), 0);
    } else {
      forall events, t: nat ensures !Unhandled(Run(s, events), t) {
        RunKeepsSupply(s, events);
        var n := Run(s, events);
        if t < |n.pc| && n.pc[t].Idle? && n.slot.Block? {
          TakersFewer(n.pc, t, n.slot.block);
        }
      }
    }
  }
}
